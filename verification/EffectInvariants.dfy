/** What every effect keeps: histories and gathered facts only grow, and the modified flags never lie. */
module EffectInvariants {
  import opened Prelude
  import opened Json
  import opened Attributes
  import opened Policy
  import opened Host
  import opened DottedPath
  import opened Evaluator
  import Constraint
  import Pipeline

  /** `t` may come after `s` in a phase. */
  predicate Follows(phase: DispatchPhase, s: State, t: State) {
    && s.history <= t.history && s.taints <= t.taints && s.constraints <= t.constraints
    && (s.argsModified ==> t.argsModified) && (s.resultModified ==> t.resultModified)
    && (!t.argsModified ==> t.payload.args == s.payload.args)
    && (!t.resultModified ==> t.payload.result == s.payload.result)
    && (phase.Pre? ==> t.payload.result == s.payload.result && t.resultModified == s.resultModified)
    && (phase.Post? ==> t.payload.args == s.payload.args && t.argsModified == s.argsModified)
    && t.payload.result.Some? == s.payload.result.Some?
  }

  predicate IsElicitEvent(event: Event) { event.ElicitDispatched? || event.ElicitChecked? || event.ElicitValidated? }

  /** No elicitation exchange between the two histories. */
  predicate QuietSince(earlier: History, later: History) {
    earlier <= later && forall k :: |earlier| <= k < |later| ==> !IsElicitEvent(later[k])
  }

  lemma {:induction false} StagesAreQuiet(
    env: Env, bag: Bag, field: string, phase: DispatchPhase, stages: seq<Stage>, at: nat, p: Pipeline.Progress)
    requires at <= |stages|
    ensures QuietSince(p.history, Pipeline.RunStages(env, bag, field, phase, stages, at, p).history)
    decreases |stages| - at
  {
    if at < |stages| {
      var r := Pipeline.RunStage(env, bag, field, phase, stages[at], p);
      assert QuietSince(p.history, r.progress.history);
      if r.Next? {
        StagesAreQuiet(env, bag, field, phase, stages, at + 1, r.progress);
      }
    }
  }

  lemma EditFollows(phase: DispatchPhase, s: State, side: Side, segs: seq<string>, edit: Edit)
    requires segs != [] && (if side.ArgsSide? then phase.Pre? else phase.Post? && s.payload.result.Some?)
    ensures Follows(phase, s, EditField(s, side, segs, edit))
  {
  }

  lemma FieldFollows(env: Env, field: string, stages: seq<Stage>, source: string, phase: DispatchPhase, side: Side, s: State)
    requires if side.ArgsSide? then phase.Pre? else phase.Post? && s.payload.result.Some?
    ensures Follows(phase, s, RunOnField(env, field, stages, source, phase, side, s).state)
    ensures QuietSince(s.history, RunOnField(env, field, stages, source, phase, side, s).state.history)
  {
    var current := Look(Root(s.payload, side), Segments(field));
    if current.Some? {
      var eval := Pipeline.EvaluatePipeline(env, s.bag, field, phase, stages, current.value, s.history);
      StagesAreQuiet(env, s.bag, field, phase, stages, 0, Pipeline.Start(current.value, s.history));
      var seen := s.(taints := s.taints + eval.taints, history := eval.history);
      match eval.outcome
      case Replace(v) => EditFollows(phase, seen, side, Segments(field), Set(v));
      case Omit => EditFollows(phase, seen, side, Segments(field), Remove);
      case Pass =>
      case Reject(_, _) =>
    }
  }

  /** Only the bag and the history may differ. */
  predicate TouchesBagOnly(s: State, t: State) {
    s.history <= t.history && t == s.(bag := t.bag, history := t.history)
  }

  lemma DelegateTouchesBagOnly(env: Env, step: DelegateStep, s: State)
    ensures TouchesBagOnly(s, RunDelegate(env, step, s).state)
  {
  }

  lemma ValidateTouchesBagOnly(env: Env, step: ElicitStep, id: string, s: State)
    ensures TouchesBagOnly(s, ValidateElicitation(env, step, id, s).state)
  {
  }

  lemma CheckTouchesBagOnly(env: Env, step: ElicitStep, id: string, s: State)
    ensures TouchesBagOnly(s, CheckElicitation(env, step, id, s).state)
  {
    var reply := env.check(s.history, step, id);
    ValidateTouchesBagOnly(env, step, id, s.(history := s.history + [ElicitChecked(step, id, reply)]));
  }

  lemma ElicitTouchesBagOnly(env: Env, step: ElicitStep, s: State)
    ensures TouchesBagOnly(s, RunElicit(env, step, s).state)
  {
    var id := GetString(s.bag, ID);
    var from := GetString(s.bag, step.from).GetOr(step.from);
    var reply := env.dispatch(s.history, step, from);
    var seen := s.(history := s.history + [ElicitDispatched(step, from, reply)]);
    if id.Some? {
      CheckTouchesBagOnly(env, step, id.value, s);
    } else if reply.Ok? {
      CheckTouchesBagOnly(env, step, reply.value.id, seen.(bag := Dispatched(seen.bag, step, reply.value)));
    }
  }

  lemma FieldOpFollows(env: Env, path: string, stages: seq<Stage>, source: string, phase: DispatchPhase, s: State)
    ensures Follows(phase, s, RunFieldOp(env, path, stages, source, phase, s).state)
    ensures var t := RunFieldOp(env, path, stages, source, phase, s).state; QuietSince(s.history, t.history) && t.bag == s.bag
  {
    if "args." <= path {
      if phase.Pre? {
        FieldFollows(env, path[5..], stages, source, phase, ArgsSide, s);
      }
    } else if "result." <= path {
      if phase.Post? && s.payload.result.Some? {
        FieldFollows(env, path[7..], stages, source, phase, ResultSide, s);
      }
    }
  }

  lemma {:induction false} DispatchFollows(env: Env, e: Effect, source: string, phase: DispatchPhase, s: State)
    ensures Follows(phase, s, Dispatch(env, e, source, phase, s).state)
    decreases e, 1
  {
    match e
    case Delegate(step) => DelegateTouchesBagOnly(env, step, s);
    case Elicit(step) => ElicitTouchesBagOnly(env, step, s);
    case FieldOp(path, stages) => FieldOpFollows(env, path, stages, source, phase, s);
    case Sequential(es) => DispatchAllFollows(env, es, source, phase, s);
    case When(_, body, ruleSource) => DispatchAllFollows(env, body, ruleSource, phase, s);
    case Pdp(call, onAllow, onDeny) => PdpFollows(env, e, source, phase, s);
    case Parallel(es) => GatherFollows(env, phase, s, Branches(env, es, source, phase, s));
    case _ => LeafFollows(env, e, source, phase, s);
  }

  lemma {:induction false} PdpFollows(env: Env, e: Effect, source: string, phase: DispatchPhase, s: State)
    requires e.Pdp?
    ensures Follows(phase, s, Dispatch(env, e, source, phase, s).state)
    decreases e, 0
  {
    var seen := s.(history := s.history + [PdpCalled(e.call, env.pdp(s.history, e.call, s.bag))]);
    DispatchAllFollows(env, e.onAllow, source, phase, seen);
    DispatchAllFollows(env, e.onDeny, source, phase, seen);
  }

  predicate IsLeaf(e: Effect) { e.Allow? || e.Deny? || e.Plugin? || e.Taint? || e.Restrict? }

  lemma {:induction false} LeafFollows(env: Env, e: Effect, source: string, phase: DispatchPhase, s: State)
    requires IsLeaf(e)
    ensures Follows(phase, s, Dispatch(env, e, source, phase, s).state)
  {
  }

  lemma GatherFollows(env: Env, phase: DispatchPhase, s: State, branches: seq<Walked>)
    ensures Follows(phase, s, Gather(env, s, branches).state)
    ensures var t := Gather(env, s, branches).state;
            t == s.(taints := t.taints, constraints := t.constraints, history := t.history)
  {
  }

  /**
   * Over any effects, on every exit: nothing gathered is lost, an unraised modified flag means an
   * unchanged side, the pre phase never touches the result and the post phase never the arguments.
   */
  lemma {:induction false} DispatchAllFollows(env: Env, es: seq<Effect>, source: string, phase: DispatchPhase, s: State)
    ensures Follows(phase, s, DispatchAll(env, es, source, phase, s).state)
    decreases es, 0
  {
    if es != [] {
      DispatchFollows(env, es[0], source, phase, s);
      var first := Dispatch(env, es[0], source, phase, s);
      if first.outcome.Continue? {
        DispatchAllFollows(env, es[1..], source, phase, first.state);
      }
    }
  }

  /** Effects in two parts: the second part is walked only from where the first continued. */
  lemma {:induction false} DispatchConcat(env: Env, xs: seq<Effect>, ys: seq<Effect>, source: string, phase: DispatchPhase, s: State)
    ensures var first := DispatchAll(env, xs, source, phase, s);
            DispatchAll(env, xs + ys, source, phase, s)
              == if first.outcome.Continue? then DispatchAll(env, ys, source, phase, first.state) else first
    decreases |xs|
  {
    if xs == [] {
      assert xs + ys == ys;
    } else {
      assert (xs + ys)[0] == xs[0] && (xs + ys)[1..] == xs[1..] + ys;
      var first := Dispatch(env, xs[0], source, phase, s);
      if first.outcome.Continue? {
        DispatchConcat(env, xs[1..], ys, source, phase, first.state);
      }
    }
  }

  lemma {:induction false} OneEffect(env: Env, e: Effect, source: string, phase: DispatchPhase, s: State)
    ensures DispatchAll(env, [e], source, phase, s) == Dispatch(env, e, source, phase, s)
  {
    var first := Dispatch(env, e, source, phase, s);
    assert [e][1..] == [];
    assert first.outcome.Continue? ==> DispatchAll(env, [e][1..], source, phase, first.state) == first;
  }

  /** A `sequential:` group is its effects written in place. */
  lemma SequentialInlines(env: Env, es: seq<Effect>, rest: seq<Effect>, source: string, phase: DispatchPhase, s: State)
    ensures DispatchAll(env, [Sequential(es)] + rest, source, phase, s) == DispatchAll(env, es + rest, source, phase, s)
  {
    DispatchConcat(env, es, rest, source, phase, s);
    assert ([Sequential(es)] + rest)[1..] == rest;
  }

  /** No reaction turns a decision point's deny or failure into a pass; one that walks clean leaves the deny as it was. */
  lemma DecisionPointDenyStands(
    env: Env, call: PdpCall, onAllow: seq<Effect>, onDeny: seq<Effect>, source: string, phase: DispatchPhase, s: State)
    ensures var reply := env.pdp(s.history, call, s.bag);
            var seen := s.(history := s.history + [PdpCalled(call, reply)]);
            var w := Dispatch(env, Pdp(call, onAllow, onDeny), source, phase, s);
            && (w.outcome.Continue? ==> reply == Ok(Allowed))
            && (reply.Ok? && reply.value.Denied? && DispatchAll(env, onDeny, source, phase, seen).outcome.Continue?
                ==> w.outcome == Halt(reply.value))
            && (reply.Err? ==> w.outcome.Halt? && w.state == seen)
  {
  }

  /**
   * After a delegation step the walk goes on with the grant written into the bag, or, only where the
   * step continues on error, with the bag untouched; keys outside the grant never change.
   */
  lemma DelegationShowsInBag(env: Env, step: DelegateStep, s: State, key: string)
    ensures var reply := env.delegate(s.history, step);
            var granted := reply.Ok? && reply.value.decision.Allowed?;
            var w := RunDelegate(env, step, s);
            && (w.outcome.Continue? <==> granted || ContinuesOnError(step.onError))
            && (granted ==>
                  && GetBool(w.state.bag, "delegation.granted") == Some(true)
                  && (reply.value.permissions != [] ==>
                        GetStringSet(w.state.bag, "delegation.granted.permissions") == Some(set p | p in reply.value.permissions))
                  && (reply.value.audience.Some? ==> GetString(w.state.bag, "delegation.granted.audience") == reply.value.audience)
                  && (reply.value.expiresAt.Some? ==> GetString(w.state.bag, "delegation.granted.expires_at") == reply.value.expiresAt))
            && (!granted ==> w.state.bag == s.bag)
            && (!("delegation.granted" <= key) ==> Get(w.state.bag, key) == Get(s.bag, key))
  {
    assert |"delegation.granted"| == 18 && |"delegation.granted.permissions"| == 30;
    assert |"delegation.granted.audience"| == 27 && |"delegation.granted.expires_at"| == 29;
  }

  /** A delegation makes its one exchange and touches the bag alone; a refusal carries the decision, or names the plugin. */
  lemma DelegationExactly(env: Env, step: DelegateStep, s: State)
    ensures var reply := env.delegate(s.history, step);
            var w := RunDelegate(env, step, s);
            && w.state == s.(bag := w.state.bag, history := s.history + [Delegated(step, reply)])
            && !w.outcome.Pending?
            && (w.outcome.Halt? ==>
                  w.outcome == if reply.Ok? then Halt(reply.value.decision) else Refuse(DelegateError(step.pluginName), step.source))
  {
  }

  /** A halt is always a deny. */
  predicate Sound(w: Walked) { w.outcome.Halt? ==> w.outcome.decision.Denied? }

  lemma {:induction false} FirstHaltDenies(env: Env, s: State, branches: seq<Walked>, upTo: nat)
    requires upTo <= |branches| && forall i :: 0 <= i < |branches| ==> Sound(branches[i])
    ensures var halt := FirstHalt(Ends(env, s, branches)[..upTo]); halt.Some? ==> halt.value.Denied?
  {
    if upTo > 0 {
      FirstHaltDenies(env, s, branches, upTo - 1);
      var ends := Ends(env, s, branches);
      GatherStep(env, s, branches, ends, upTo - 1);
    }
  }

  lemma {:induction false} HaltIsDeny(env: Env, e: Effect, source: string, phase: DispatchPhase, s: State)
    ensures Sound(Dispatch(env, e, source, phase, s))
    decreases e, 1
  {
    match e
    case Sequential(es) => HaltsAreDenies(env, es, source, phase, s);
    case When(_, body, ruleSource) => HaltsAreDenies(env, body, ruleSource, phase, s);
    case Pdp(call, onAllow, onDeny) =>
      var seen := s.(history := s.history + [PdpCalled(call, env.pdp(s.history, call, s.bag))]);
      HaltsAreDenies(env, onAllow, source, phase, seen);
      HaltsAreDenies(env, onDeny, source, phase, seen);
    case Parallel(es) =>
      var branches := Branches(env, es, source, phase, s);
      forall i | 0 <= i < |es| ensures Sound(branches[i]) {
        HaltIsDeny(env, es[i], source, phase, BranchStart(s, i));
      }
      var ends := Ends(env, s, branches);
      assert ends[..|ends|] == ends;
      FirstHaltDenies(env, s, branches, |branches|);
    case _ =>
  }

  lemma {:induction false} HaltsAreDenies(env: Env, es: seq<Effect>, source: string, phase: DispatchPhase, s: State)
    ensures Sound(DispatchAll(env, es, source, phase, s))
    decreases es, 0
  {
    if es != [] {
      HaltIsDeny(env, es[0], source, phase, s);
      var first := Dispatch(env, es[0], source, phase, s);
      if first.outcome.Continue? {
        HaltsAreDenies(env, es[1..], source, phase, first.state);
      }
    }
  }

  // ---- What was gathered before does not matter to what happens next.

  /** The state with nothing gathered yet. */
  function Clean(s: State): State {
    s.(taints := [], constraints := [], argsModified := false, resultModified := false)
  }

  /** What was gathered in `s`, then in `t`. */
  function Onto(s: State, t: State): State {
    t.(taints := s.taints + t.taints,
       constraints := s.constraints + t.constraints,
       argsModified := s.argsModified || t.argsModified,
       resultModified := s.resultModified || t.resultModified)
  }

  function WalkedOnto(s: State, w: Walked): Walked { Walked(w.outcome, Onto(s, w.state)) }

  lemma OntoClean(s: State)
    ensures Onto(s, Clean(s)) == s
  {
    assert s.taints + [] == s.taints && s.constraints + [] == s.constraints;
  }

  lemma OntoTwice(s: State, t: State, u: State)
    ensures Onto(Onto(s, t), u) == Onto(s, Onto(t, u))
  {
    assert s.taints + t.taints + u.taints == s.taints + (t.taints + u.taints);
    assert s.constraints + t.constraints + u.constraints == s.constraints + (t.constraints + u.constraints);
  }

  lemma FieldOnto(env: Env, field: string, stages: seq<Stage>, source: string, phase: DispatchPhase, side: Side, s: State)
    requires side.ResultSide? ==> s.payload.result.Some?
    ensures RunOnField(env, field, stages, source, phase, side, s)
         == WalkedOnto(s, RunOnField(env, field, stages, source, phase, side, Clean(s)))
  {
    OntoClean(s);
    var current := Look(Root(s.payload, side), Segments(field));
    if current.Some? {
      var eval := Pipeline.EvaluatePipeline(env, s.bag, field, phase, stages, current.value, s.history);
      assert [] + eval.taints == eval.taints && s.constraints + [] == s.constraints;
      var seen := s.(taints := s.taints + eval.taints, history := eval.history);
      var clean := Clean(s).(taints := [] + eval.taints, history := eval.history);
      match eval.outcome
      case Replace(v) => EditOnto(s, seen, clean, side, Segments(field), Set(v));
      case Omit => EditOnto(s, seen, clean, side, Segments(field), Remove);
      case Pass =>
      case Reject(_, _) =>
    }
  }

  lemma EditOnto(s: State, seen: State, clean: State, side: Side, segs: seq<string>, edit: Edit)
    requires segs != [] && (side.ResultSide? ==> clean.payload.result.Some?) && seen == Onto(s, clean)
    ensures EditField(seen, side, segs, edit) == Onto(s, EditField(clean, side, segs, edit))
  {
  }

  lemma FieldOpOnto(env: Env, path: string, stages: seq<Stage>, source: string, phase: DispatchPhase, s: State)
    ensures RunFieldOp(env, path, stages, source, phase, s) == WalkedOnto(s, RunFieldOp(env, path, stages, source, phase, Clean(s)))
  {
    OntoClean(s);
    if "args." <= path {
      if phase.Pre? {
        FieldOnto(env, path[5..], stages, source, phase, ArgsSide, s);
      }
    } else if "result." <= path {
      if phase.Post? && s.payload.result.Some? {
        FieldOnto(env, path[7..], stages, source, phase, ResultSide, s);
      }
    }
  }

  lemma DelegateOnto(env: Env, step: DelegateStep, s: State)
    ensures RunDelegate(env, step, s) == WalkedOnto(s, RunDelegate(env, step, Clean(s)))
  {
    OntoClean(s);
  }

  lemma ValidateOnto(env: Env, step: ElicitStep, id: string, s: State)
    ensures ValidateElicitation(env, step, id, s) == WalkedOnto(s, ValidateElicitation(env, step, id, Clean(s)))
  {
    OntoClean(s);
  }

  lemma CheckOnto(env: Env, step: ElicitStep, id: string, s: State)
    ensures CheckElicitation(env, step, id, s) == WalkedOnto(s, CheckElicitation(env, step, id, Clean(s)))
  {
    OntoClean(s);
    ValidateOnto(env, step, id, s.(history := s.history + [ElicitChecked(step, id, env.check(s.history, step, id))]));
  }

  lemma ElicitOnto(env: Env, step: ElicitStep, s: State)
    ensures RunElicit(env, step, s) == WalkedOnto(s, RunElicit(env, step, Clean(s)))
  {
    OntoClean(s);
    var id := GetString(s.bag, ID);
    var from := GetString(s.bag, step.from).GetOr(step.from);
    var reply := env.dispatch(s.history, step, from);
    var seen := s.(history := s.history + [ElicitDispatched(step, from, reply)]);
    if id.Some? {
      CheckOnto(env, step, id.value, s);
    } else if reply.Ok? {
      CheckOnto(env, step, reply.value.id, seen.(bag := Dispatched(seen.bag, step, reply.value)));
    }
  }

  lemma LeafOnto(env: Env, e: Effect, source: string, phase: DispatchPhase, s: State)
    requires IsLeaf(e)
    ensures Dispatch(env, e, source, phase, s) == WalkedOnto(s, Dispatch(env, e, source, phase, Clean(s)))
  {
    OntoClean(s);
    match e
    case Plugin(name) =>
      var reply := env.plugin(s.history, name, s.bag, StepCall(phase));
      if reply.Ok? {
        assert [] + reply.value.taints == reply.value.taints;
      }
    case Taint(event) => assert [] + [event] == [event];
    case Restrict(spec) =>
      var resolved := Constraint.Resolve(spec, s.bag);
      if resolved.Ok? {
        assert [] + [resolved.value] == [resolved.value];
      }
    case _ =>
  }

  lemma GatherOnto(env: Env, s: State, branches: seq<Walked>)
    ensures Gather(env, s, branches) == WalkedOnto(s, Gather(env, Clean(s), branches))
  {
    var ends := Ends(env, s, branches);
    assert ends == Ends(env, Clean(s), branches);
    AllHappenedClean(env, s, branches, |branches|);
    assert [] + JoinedTaints(ends[..|branches|]) == JoinedTaints(ends[..|branches|]);
    assert [] + JoinedConstraints(ends[..|branches|]) == JoinedConstraints(ends[..|branches|]);
  }

  lemma {:induction false} AllHappenedClean(env: Env, s: State, branches: seq<Walked>, upTo: nat)
    requires upTo <= |branches|
    ensures AllHappened(env, s, branches, upTo) == AllHappened(env, Clean(s), branches, upTo)
  {
    if upTo > 0 {
      AllHappenedClean(env, s, branches, upTo - 1);
    }
  }

  /** An effect does the same whatever was gathered before it, which it keeps in front. */
  lemma {:induction false} DispatchOnto(env: Env, e: Effect, source: string, phase: DispatchPhase, s: State)
    ensures Dispatch(env, e, source, phase, s) == WalkedOnto(s, Dispatch(env, e, source, phase, Clean(s)))
    decreases e, 1
  {
    match e
    case Delegate(step) => DelegateOnto(env, step, s);
    case Elicit(step) => ElicitOnto(env, step, s);
    case FieldOp(path, stages) => FieldOpOnto(env, path, stages, source, phase, s);
    case Sequential(es) => DispatchAllOnto(env, es, source, phase, s);
    case When(_, body, ruleSource) =>
      OntoClean(s);
      DispatchAllOnto(env, body, ruleSource, phase, s);
    case Pdp(call, onAllow, onDeny) =>
      OntoClean(s);
      var seen := s.(history := s.history + [PdpCalled(call, env.pdp(s.history, call, s.bag))]);
      OntoClean(seen);
      DispatchAllOnto(env, onAllow, source, phase, seen);
      DispatchAllOnto(env, onDeny, source, phase, seen);
    case Parallel(es) =>
      assert Branches(env, es, source, phase, s) == Branches(env, es, source, phase, Clean(s));
      GatherOnto(env, s, Branches(env, es, source, phase, s));
    case _ => LeafOnto(env, e, source, phase, s);
  }

  lemma {:induction false} DispatchAllOnto(env: Env, es: seq<Effect>, source: string, phase: DispatchPhase, s: State)
    ensures DispatchAll(env, es, source, phase, s) == WalkedOnto(s, DispatchAll(env, es, source, phase, Clean(s)))
    decreases es, 0
  {
    if es == [] {
      OntoClean(s);
    } else {
      DispatchOnto(env, es[0], source, phase, s);
      var first := Dispatch(env, es[0], source, phase, Clean(s));
      if first.outcome.Continue? {
        var t := first.state;
        DispatchAllOnto(env, es[1..], source, phase, Onto(s, t));
        DispatchAllOnto(env, es[1..], source, phase, t);
        assert Clean(Onto(s, t)) == Clean(t);
        OntoTwice(s, t, DispatchAll(env, es[1..], source, phase, Clean(t)).state);
      }
    }
  }
}
