/**
 * Why the label repair works: the taints a walk hands the host hold every report of every plugin
 * call that no abort or panic cut off.
 */
module LabelRepair {
  import opened Attributes
  import opened Policy
  import opened Host
  import opened Evaluator
  import opened EffectInvariants
  import opened Route
  import DottedPath
  import Json
  import Labels
  import Pipeline
  import Predicates

  // ---- The exchanges that count.

  /** The exchanges of dispatching an effect, without those of branches that did not complete. */
  ghost function Kept(env: Env, e: Effect, source: string, phase: DispatchPhase, s: State): seq<Event>
    decreases e, 1
  {
    match e
    case Sequential(es) => KeptAll(env, es, source, phase, s)
    case Parallel(es) => KeptBranches(env, es, source, phase, s, |es|)
    case When(condition, body, ruleSource) =>
      if Predicates.Eval(env.f64, condition, s.bag) then KeptAll(env, body, ruleSource, phase, s) else []
    case Pdp(call, onAllow, onDeny) =>
      var reply := env.pdp(s.history, call, s.bag);
      var seen := s.(history := s.history + [PdpCalled(call, reply)]);
      [PdpCalled(call, reply)]
      + if reply.Err? then []
        else if reply.value.Allowed? then KeptAll(env, onAllow, source, phase, seen)
        else KeptAll(env, onDeny, source, phase, seen)
    case _ => Log(s, Dispatch(env, e, source, phase, s))
  }

  ghost function KeptAll(env: Env, es: seq<Effect>, source: string, phase: DispatchPhase, s: State): seq<Event>
    decreases es, 0
  {
    if es == [] then []
    else
      var first := Dispatch(env, es[0], source, phase, s);
      Kept(env, es[0], source, phase, s)
      + if first.outcome.Continue? then KeptAll(env, es[1..], source, phase, first.state) else []
  }

  ghost function KeptBranches(env: Env, es: seq<Effect>, source: string, phase: DispatchPhase, s: State, upTo: nat): seq<Event>
    requires upTo <= |es|
    decreases es, 0, upTo
  {
    if upTo == 0 then []
    else
      var i := upTo - 1;
      KeptBranches(env, es, source, phase, s, i)
      + if End(env, s, Branches(env, es, source, phase, s), i).Completed? then Kept(env, es[i], source, phase, BranchStart(s, i))
        else []
  }

  predicate Includes<T(==)>(whole: seq<T>, part: seq<T>) { forall x :: x in part ==> x in whole }

  /** Everything the plugin calls among these exchanges reported is among the taints. */
  predicate Told(events: seq<Event>, taints: seq<TaintEvent>) {
    forall event :: event in events && event.PluginCalled? && event.pluginReply.Ok? ==> Includes(taints, event.pluginReply.value.taints)
  }

  lemma ToldOfMore(events: seq<Event>, taints: seq<TaintEvent>, more: seq<TaintEvent>)
    requires Told(events, taints) && Includes(more, taints)
    ensures Told(events, more)
  {
  }

  /** The exchanges since `s`, as a walk's log. */
  lemma LogGrows(s: State, w: Walked, t: State)
    requires s.history <= w.state.history <= t.history
    ensures Includes(t.history[|s.history|..], Log(s, w))
    ensures Includes(t.history[|s.history|..], t.history[|w.state.history|..])
  {
    var h, u := w.state.history, t.history;
    forall x | x in Log(s, w) ensures x in u[|s.history|..] {
      var i :| 0 <= i < |Log(s, w)| && Log(s, w)[i] == x;
      assert u[|s.history|..][i] == h[|s.history| + i] == x;
    }
    forall x | x in u[|h|..] ensures x in u[|s.history|..] {
      var i :| 0 <= i < |u[|h|..]| && u[|h|..][i] == x;
      assert u[|s.history|..][|h| - |s.history| + i] == x;
    }
  }

  // ---- Pipelines.

  lemma {:induction false} StagesTell(
    env: Env, bag: Bag, field: string, phase: DispatchPhase, stages: seq<Stage>, at: nat, p: Pipeline.Progress)
    requires at <= |stages|
    ensures var e := Pipeline.RunStages(env, bag, field, phase, stages, at, p);
            p.history <= e.history && p.taints <= e.taints && Told(e.history[|p.history|..], e.taints)
    decreases |stages| - at
  {
    if at < |stages| {
      var r := Pipeline.RunStage(env, bag, field, phase, stages[at], p);
      var q := r.progress;
      StageTells(env, bag, field, phase, stages[at], p);
      if r.Next? {
        StagesTell(env, bag, field, phase, stages, at + 1, q);
        var e := Pipeline.RunStages(env, bag, field, phase, stages, at + 1, q);
        ToldOfMore(q.history[|p.history|..], q.taints, e.taints);
        assert e.history[|p.history|..] == q.history[|p.history|..] + e.history[|q.history|..];
      }
    }
  }

  lemma StageTells(env: Env, bag: Bag, field: string, phase: DispatchPhase, stage: Stage, p: Pipeline.Progress)
    ensures var q := Pipeline.RunStage(env, bag, field, phase, stage, p).progress;
            p.history <= q.history && p.taints <= q.taints && Told(q.history[|p.history|..], q.taints)
  {
  }

  lemma FieldTells(env: Env, field: string, stages: seq<Stage>, source: string, phase: DispatchPhase, side: Side, s: State)
    requires if side.ArgsSide? then phase.Pre? else phase.Post? && s.payload.result.Some?
    ensures var w := RunOnField(env, field, stages, source, phase, side, s); Told(Log(s, w), w.state.taints)
  {
    var current := Json.Look(Root(s.payload, side), DottedPath.Segments(field));
    if current.Some? {
      StagesTell(env, s.bag, field, phase, stages, 0, Pipeline.Start(current.value, s.history));
    }
  }

  lemma FieldOpTells(env: Env, path: string, stages: seq<Stage>, source: string, phase: DispatchPhase, s: State)
    ensures var w := RunFieldOp(env, path, stages, source, phase, s); Told(Log(s, w), w.state.taints)
  {
    if "args." <= path {
      if phase.Pre? {
        FieldTells(env, path[5..], stages, source, phase, ArgsSide, s);
      }
    } else if "result." <= path {
      if phase.Post? && s.payload.result.Some? {
        FieldTells(env, path[7..], stages, source, phase, ResultSide, s);
      }
    }
  }

  // ---- Steps that call no plugin.

  predicate NoPluginSince(earlier: History, later: History) {
    earlier <= later && forall k :: |earlier| <= k < |later| ==> !later[k].PluginCalled?
  }

  lemma SilentTells(s: State, w: Walked)
    requires NoPluginSince(s.history, w.state.history)
    ensures Told(Log(s, w), w.state.taints)
  {
    forall event | event in Log(s, w) ensures !event.PluginCalled? {
      var i :| 0 <= i < |Log(s, w)| && Log(s, w)[i] == event;
      assert event == w.state.history[|s.history| + i];
    }
  }

  lemma ValidateIsSilent(env: Env, step: ElicitStep, id: string, s: State)
    ensures NoPluginSince(s.history, ValidateElicitation(env, step, id, s).state.history)
  {
  }

  lemma CheckIsSilent(env: Env, step: ElicitStep, id: string, s: State)
    ensures NoPluginSince(s.history, CheckElicitation(env, step, id, s).state.history)
  {
    ValidateIsSilent(env, step, id, s.(history := s.history + [ElicitChecked(step, id, env.check(s.history, step, id))]));
  }

  lemma ElicitIsSilent(env: Env, step: ElicitStep, s: State)
    ensures NoPluginSince(s.history, RunElicit(env, step, s).state.history)
  {
    var id := GetString(s.bag, ID);
    var from := GetString(s.bag, step.from).GetOr(step.from);
    var reply := env.dispatch(s.history, step, from);
    var seen := s.(history := s.history + [ElicitDispatched(step, from, reply)]);
    if id.Some? {
      CheckIsSilent(env, step, id.value, s);
    } else if reply.Ok? {
      CheckIsSilent(env, step, reply.value.id, seen.(bag := Dispatched(seen.bag, step, reply.value)));
    }
  }

  lemma LeafTells(env: Env, e: Effect, source: string, phase: DispatchPhase, s: State)
    requires IsLeaf(e) || e.Delegate? || e.Elicit? || e.FieldOp?
    ensures var w := Dispatch(env, e, source, phase, s); Told(Log(s, w), w.state.taints)
  {
    match e
    case FieldOp(path, stages) => FieldOpTells(env, path, stages, source, phase, s);
    case Elicit(step) =>
      ElicitIsSilent(env, step, s);
      SilentTells(s, RunElicit(env, step, s));
    case Plugin(_) =>
    case Delegate(_) =>
    case Restrict(_) =>
    case Taint(_) =>
    case Allow =>
    case Deny(_, _) =>
  }

  // ---- Effect trees.

  lemma PrefixIncludes<T>(part: seq<T>, whole: seq<T>)
    requires part <= whole
    ensures Includes(whole, part)
  {
    assert whole[..|part|] == part;
  }

  lemma {:induction false} EffectTells(env: Env, e: Effect, source: string, phase: DispatchPhase, s: State)
    ensures Told(Kept(env, e, source, phase, s), Dispatch(env, e, source, phase, s).state.taints)
    decreases e, 1
  {
    match e
    case Sequential(es) => ListTells(env, es, source, phase, s);
    case Parallel(es) => BlockTells(env, es, source, phase, s);
    case When(_, body, ruleSource) => ListTells(env, body, ruleSource, phase, s);
    case Pdp(call, onAllow, onDeny) =>
      var seen := s.(history := s.history + [PdpCalled(call, env.pdp(s.history, call, s.bag))]);
      ListTells(env, onAllow, source, phase, seen);
      ListTells(env, onDeny, source, phase, seen);
    case _ => LeafTells(env, e, source, phase, s);
  }

  lemma {:induction false} ListTells(env: Env, es: seq<Effect>, source: string, phase: DispatchPhase, s: State)
    ensures Told(KeptAll(env, es, source, phase, s), DispatchAll(env, es, source, phase, s).state.taints)
    decreases es, 0
  {
    if es != [] {
      EffectTells(env, es[0], source, phase, s);
      var first := Dispatch(env, es[0], source, phase, s);
      if first.outcome.Continue? {
        var rest := DispatchAll(env, es[1..], source, phase, first.state);
        ListTells(env, es[1..], source, phase, first.state);
        DispatchAllFollows(env, es[1..], source, phase, first.state);
        PrefixIncludes(first.state.taints, rest.state.taints);
        ToldOfMore(Kept(env, es[0], source, phase, s), first.state.taints, rest.state.taints);
      }
    }
  }

  lemma {:induction false} BlockTells(env: Env, es: seq<Effect>, source: string, phase: DispatchPhase, s: State)
    ensures Told(KeptBranches(env, es, source, phase, s, |es|), Dispatch(env, Parallel(es), source, phase, s).state.taints)
    decreases es, 0, |es| + 1
  {
    var branches := Branches(env, es, source, phase, s);
    BranchesTell(env, es, source, phase, s, |es|);
    assert Ends(env, s, branches)[..|es|] == Ends(env, s, branches);
  }

  lemma {:induction false} BranchesTell(env: Env, es: seq<Effect>, source: string, phase: DispatchPhase, s: State, upTo: nat)
    requires upTo <= |es|
    ensures var branches := Branches(env, es, source, phase, s);
            Told(KeptBranches(env, es, source, phase, s, upTo),
                 GatheredState(env, s, branches, Ends(env, s, branches), upTo).taints)
    decreases es, 0, upTo
  {
    if upTo > 0 {
      var i := upTo - 1;
      var branches := Branches(env, es, source, phase, s);
      var ends := Ends(env, s, branches);
      BranchesTell(env, es, source, phase, s, i);
      EffectTells(env, es[i], source, phase, BranchStart(s, i));
      GatherStep(env, s, branches, ends, i);
      var before, after := GatheredState(env, s, branches, ends, i).taints, GatheredState(env, s, branches, ends, upTo).taints;
      ToldOfMore(KeptBranches(env, es, source, phase, s, i), before, after);
      if ends[i].Completed? {
        assert ends[i].value == branches[i];
        ToldOfMore(Kept(env, es[i], source, phase, BranchStart(s, i)), branches[i].state.taints, after);
      }
    }
  }

  // ---- The kept exchanges did happen, and without cuts they are all there are.

  lemma {:induction false} KeptHappened(env: Env, e: Effect, source: string, phase: DispatchPhase, s: State)
    ensures Includes(Log(s, Dispatch(env, e, source, phase, s)), Kept(env, e, source, phase, s))
    decreases e, 1
  {
    match e
    case Sequential(es) => KeptAllHappened(env, es, source, phase, s);
    case Parallel(es) =>
      var branches := Branches(env, es, source, phase, s);
      KeptBranchesHappened(env, es, source, phase, s, |es|);
      assert Log(s, Gather(env, s, branches)) == AllHappened(env, s, branches, |branches|);
    case When(_, body, ruleSource) => KeptAllHappened(env, body, ruleSource, phase, s);
    case Pdp(_, _, _) => KeptPdpHappened(env, e, source, phase, s);
    case _ =>
  }

  lemma {:induction false} KeptPdpHappened(env: Env, e: Effect, source: string, phase: DispatchPhase, s: State)
    requires e.Pdp?
    ensures Includes(Log(s, Dispatch(env, e, source, phase, s)), Kept(env, e, source, phase, s))
    decreases e, 0
  {
    var reply := env.pdp(s.history, e.call, s.bag);
    var seen := s.(history := s.history + [PdpCalled(e.call, reply)]);
    if reply.Ok? {
      var reactions := if reply.value.Allowed? then e.onAllow else e.onDeny;
      var reacted := DispatchAll(env, reactions, source, phase, seen);
      KeptAllHappened(env, reactions, source, phase, seen);
      DispatchAllFollows(env, reactions, source, phase, seen);
      LogGrows(s, Walked(Continue, seen), reacted.state);
      assert Log(s, Walked(Continue, seen)) == [PdpCalled(e.call, reply)];
    }
  }

  lemma {:induction false} KeptAllHappened(env: Env, es: seq<Effect>, source: string, phase: DispatchPhase, s: State)
    ensures Includes(Log(s, DispatchAll(env, es, source, phase, s)), KeptAll(env, es, source, phase, s))
    decreases es, 0
  {
    if es != [] {
      KeptHappened(env, es[0], source, phase, s);
      DispatchFollows(env, es[0], source, phase, s);
      var first := Dispatch(env, es[0], source, phase, s);
      if first.outcome.Continue? {
        KeptAllHappened(env, es[1..], source, phase, first.state);
        DispatchAllFollows(env, es[1..], source, phase, first.state);
        LogGrows(s, first, DispatchAll(env, es[1..], source, phase, first.state).state);
      }
    }
  }

  /** All of a completed branch happened, its entry first; so what is kept of it happened, and nothing else did. */
  lemma CompletedHappened(env: Env, s: State, branches: seq<Walked>, i: nat, kept: seq<Event>)
    requires i < |branches| && End(env, s, branches, i).Completed?
    requires BranchStart(s, i).history <= branches[i].state.history
    ensures Includes(Log(BranchStart(s, i), branches[i]), kept) ==> Includes(Happened(env, s, branches, i), kept)
    ensures OnlyEntriesMissing(Log(BranchStart(s, i), branches[i]), kept) ==> OnlyEntriesMissing(Happened(env, s, branches, i), kept)
  {
    assert Happened(env, s, branches, i) == [BranchEntered(i)] + Log(BranchStart(s, i), branches[i]);
  }

  lemma IncludesJoin<T>(whole: seq<T>, part: seq<T>, moreWhole: seq<T>, morePart: seq<T>)
    requires Includes(whole, part) && Includes(moreWhole, morePart)
    ensures Includes(whole + moreWhole, part + morePart)
  {
  }

  lemma {:induction false} KeptBranchesHappened(env: Env, es: seq<Effect>, source: string, phase: DispatchPhase, s: State, upTo: nat)
    requires upTo <= |es|
    ensures Includes(AllHappened(env, s, Branches(env, es, source, phase, s), upTo), KeptBranches(env, es, source, phase, s, upTo))
    decreases es, 0, upTo
  {
    if upTo > 0 {
      var i := upTo - 1;
      var branches := Branches(env, es, source, phase, s);
      var kept := Kept(env, es[i], source, phase, BranchStart(s, i));
      KeptBranchesHappened(env, es, source, phase, s, i);
      if End(env, s, branches, i).Completed? {
        KeptHappened(env, es[i], source, phase, BranchStart(s, i));
        DispatchFollows(env, es[i], source, phase, BranchStart(s, i));
        CompletedHappened(env, s, branches, i, kept);
      } else {
        kept := [];
      }
      IncludesJoin(
        AllHappened(env, s, branches, i), KeptBranches(env, es, source, phase, s, i), Happened(env, s, branches, i), kept);
    }
  }

  /** No branch of any block is aborted or panics. */
  ghost predicate Uncut(env: Env) { forall h, i :: env.fate(h, i).Completes? }

  predicate OnlyEntriesMissing(log: seq<Event>, kept: seq<Event>) {
    forall event :: event in log ==> event.BranchEntered? || event in kept
  }

  lemma MissingJoin(log: seq<Event>, kept: seq<Event>, moreLog: seq<Event>, moreKept: seq<Event>)
    requires OnlyEntriesMissing(log, kept) && OnlyEntriesMissing(moreLog, moreKept)
    ensures OnlyEntriesMissing(log + moreLog, kept + moreKept)
  {
  }

  lemma LogSplits(s: State, first: Walked, rest: Walked)
    requires s.history <= first.state.history <= rest.state.history
    ensures Log(s, rest) == Log(s, first) + Log(first.state, rest)
  {
  }

  lemma {:induction false} NothingCutKeepsAll(env: Env, e: Effect, source: string, phase: DispatchPhase, s: State)
    requires Uncut(env)
    ensures OnlyEntriesMissing(Log(s, Dispatch(env, e, source, phase, s)), Kept(env, e, source, phase, s))
    decreases e, 1
  {
    match e
    case Sequential(es) => NothingCutKeepsList(env, es, source, phase, s);
    case Parallel(es) =>
      var branches := Branches(env, es, source, phase, s);
      NothingCutKeepsBranches(env, es, source, phase, s, |es|);
      assert Log(s, Gather(env, s, branches)) == AllHappened(env, s, branches, |branches|);
    case When(_, body, ruleSource) => NothingCutKeepsList(env, body, ruleSource, phase, s);
    case Pdp(_, _, _) => NothingCutKeepsPdp(env, e, source, phase, s);
    case _ =>
  }

  lemma {:induction false} NothingCutKeepsPdp(env: Env, e: Effect, source: string, phase: DispatchPhase, s: State)
    requires Uncut(env) && e.Pdp?
    ensures OnlyEntriesMissing(Log(s, Dispatch(env, e, source, phase, s)), Kept(env, e, source, phase, s))
    decreases e, 0
  {
    var reply := env.pdp(s.history, e.call, s.bag);
    var seen := s.(history := s.history + [PdpCalled(e.call, reply)]);
    assert Log(s, Walked(Continue, seen)) == [PdpCalled(e.call, reply)];
    if reply.Ok? {
      var reactions := if reply.value.Allowed? then e.onAllow else e.onDeny;
      NothingCutKeepsList(env, reactions, source, phase, seen);
      DispatchAllFollows(env, reactions, source, phase, seen);
      LogSplits(s, Walked(Continue, seen), DispatchAll(env, reactions, source, phase, seen));
    }
  }

  lemma {:induction false} NothingCutKeepsList(env: Env, es: seq<Effect>, source: string, phase: DispatchPhase, s: State)
    requires Uncut(env)
    ensures OnlyEntriesMissing(Log(s, DispatchAll(env, es, source, phase, s)), KeptAll(env, es, source, phase, s))
    decreases es, 0
  {
    if es != [] {
      NothingCutKeepsAll(env, es[0], source, phase, s);
      DispatchFollows(env, es[0], source, phase, s);
      var first := Dispatch(env, es[0], source, phase, s);
      if first.outcome.Continue? {
        NothingCutKeepsList(env, es[1..], source, phase, first.state);
        DispatchAllFollows(env, es[1..], source, phase, first.state);
        LogSplits(s, first, DispatchAll(env, es[1..], source, phase, first.state));
      }
    }
  }

  lemma {:induction false} NothingCutKeepsBranches(env: Env, es: seq<Effect>, source: string, phase: DispatchPhase, s: State, upTo: nat)
    requires Uncut(env) && upTo <= |es|
    ensures OnlyEntriesMissing(
              AllHappened(env, s, Branches(env, es, source, phase, s), upTo), KeptBranches(env, es, source, phase, s, upTo))
    decreases es, 0, upTo
  {
    if upTo > 0 {
      var i := upTo - 1;
      var branches := Branches(env, es, source, phase, s);
      var kept := Kept(env, es[i], source, phase, BranchStart(s, i));
      NothingCutKeepsBranches(env, es, source, phase, s, i);
      NothingCutKeepsAll(env, es[i], source, phase, BranchStart(s, i));
      DispatchFollows(env, es[i], source, phase, BranchStart(s, i));
      CompletedHappened(env, s, branches, i, kept);
      MissingJoin(AllHappened(env, s, branches, i), KeptBranches(env, es, source, phase, s, i), Happened(env, s, branches, i), kept);
    }
  }

  // ---- Routes.

  /** The kept exchanges of a run of field rules and the effects after them. */
  ghost function KeptPhase(env: Env, ruled: Walked, es: seq<Effect>, phase: DispatchPhase, s: State): seq<Event> {
    Log(s, ruled) + if ruled.outcome.Continue? then KeptAll(env, es, "", phase, ruled.state) else []
  }

  ghost function RuledPost(env: Env, route: CompiledRoute, s: State): Walked {
    if s.payload.result.Some? then RunRules(env, route.result, Post, ResultSide, s) else Walked(Continue, s)
  }

  ghost function KeptRoute(env: Env, route: CompiledRoute, s: State): seq<Event> {
    var pre := PreWalk(env, route, s);
    KeptPhase(env, RunRules(env, route.args, Pre, ArgsSide, s), route.policy, Pre, s)
    + if pre.outcome.Continue? then KeptPhase(env, RuledPost(env, route, pre.state), route.postPolicy, Post, pre.state) else []
  }

  lemma {:induction false} RulesTell(env: Env, rules: seq<FieldRule>, phase: DispatchPhase, side: Side, s: State)
    requires if side.ArgsSide? then phase.Pre? else phase.Post? && s.payload.result.Some?
    ensures var w := RunRules(env, rules, phase, side, s); Told(Log(s, w), w.state.taints)
    decreases |rules|
  {
    if rules != [] {
      var rule := rules[0];
      FieldTells(env, rule.field, rule.stages, rule.source, phase, side, s);
      FieldFollows(env, rule.field, rule.stages, rule.source, phase, side, s);
      var first := RunOnField(env, rule.field, rule.stages, rule.source, phase, side, s);
      if first.outcome.Continue? {
        RulesTell(env, rules[1..], phase, side, first.state);
        RulesFollow(env, rules[1..], phase, side, first.state);
        var rest := RunRules(env, rules[1..], phase, side, first.state);
        LogSplits(s, first, rest);
        PrefixIncludes(first.state.taints, rest.state.taints);
        ToldOfMore(Log(s, first), first.state.taints, rest.state.taints);
      }
    }
  }

  lemma PhaseTells(env: Env, ruled: Walked, es: seq<Effect>, phase: DispatchPhase, s: State)
    requires Told(Log(s, ruled), ruled.state.taints)
    ensures var w := if ruled.outcome.Continue? then DispatchAll(env, es, "", phase, ruled.state) else ruled;
            Told(KeptPhase(env, ruled, es, phase, s), w.state.taints)
  {
    if ruled.outcome.Continue? {
      var w := DispatchAll(env, es, "", phase, ruled.state);
      ListTells(env, es, "", phase, ruled.state);
      DispatchAllFollows(env, es, "", phase, ruled.state);
      PrefixIncludes(ruled.state.taints, w.state.taints);
      ToldOfMore(Log(s, ruled), ruled.state.taints, w.state.taints);
    }
  }

  /** Over any route and host, on every exit, the decision's taints hold every report of every kept plugin call. */
  lemma RouteTells(env: Env, route: CompiledRoute, s: State)
    ensures Told(KeptRoute(env, route, s), RouteWalk(env, route, s).state.taints)
  {
    var pre := PreWalk(env, route, s);
    RulesTell(env, route.args, Pre, ArgsSide, s);
    PhaseTells(env, RunRules(env, route.args, Pre, ArgsSide, s), route.policy, Pre, s);
    if pre.outcome.Continue? {
      if pre.state.payload.result.Some? {
        RulesTell(env, route.result, Post, ResultSide, pre.state);
      }
      PhaseTells(env, RuledPost(env, route, pre.state), route.postPolicy, Post, pre.state);
      PostFollows(env, route, pre.state);
      var post := PostWalk(env, route, pre.state);
      PrefixIncludes(pre.state.taints, post.state.taints);
      ToldOfMore(
        KeptPhase(env, RunRules(env, route.args, Pre, ArgsSide, s), route.policy, Pre, s), pre.state.taints, post.state.taints);
    }
  }

  // ---- The repair.

  /** The plugin calls of a race are those of a walk: every report returned is in the reply of an exchange the walk kept. */
  ghost predicate AnsweredIn(told: seq<TaintEvent>, kept: seq<Event>) {
    forall taint :: taint in told ==>
      exists event :: event in kept && event.PluginCalled? && event.pluginReply.Ok? && taint in event.pluginReply.value.taints
  }

  lemma SessionLabelsMonotone(part: seq<TaintEvent>, whole: seq<TaintEvent>)
    requires Includes(whole, part)
    ensures Labels.SessionLabels(part) <= Labels.SessionLabels(whole)
  {
    forall l | l in Labels.SessionLabels(part) ensures l in Labels.SessionLabels(whole) {
      var i :| 0 <= i < |part| && Session in part[i].scopes && part[i].name == l;
      assert part[i] in whole;
    }
  }

  /**
   * Whatever route the request takes, however its plugin calls race and whichever branches are cut:
   * once the host applies the decision's taints, every label a returned call added is present, and
   * none appears that was neither there at the start, nor added by a call, nor a taint of the decision.
   */
  lemma DecisionRepairsLabels(
    env: Env, route: CompiledRoute, s: State, initial: Labels.LabelSet, race: seq<Labels.State>)
    requires Labels.Run(initial, race)
    requires AnsweredIn(race[|race| - 1].told, KeptRoute(env, route, s))
    ensures var last := race[|race| - 1];
            var taints := RouteWalk(env, route, s).state.taints;
            var final := last.shared + Labels.SessionLabels(taints);
            initial + Labels.Collected(last) <= final <= initial + Labels.Emitted(last) + Labels.SessionLabels(taints)
  {
    var last := race[|race| - 1];
    var taints := RouteWalk(env, route, s).state.taints;
    RouteTells(env, route, s);
    assert Includes(taints, last.told);
    SessionLabelsMonotone(last.told, taints);
    Labels.RunInv(initial, race, |race| - 1);
  }
}
