/** What a `parallel:` block does, whatever the schedule: compared with its branches and with `sequential:`. */
module ParallelBlocks {
  import opened Prelude
  import opened Json
  import opened Attributes
  import opened Policy
  import opened Host
  import opened Evaluator
  import opened Purity
  import Branching = RunBranches
  import Constraint
  import Predicates

  // ---- Schedules.

  predicate Panics(env: Env, s: State, i: nat) { env.fate(s.history, i).PanicsAfter? }

  /** One schedule: how each branch ends. */
  type Choice = nat -> Fate

  function WithChoice(env: Env, choice: Choice): Env { env.(fate := (_: History, i: nat) => choice(i)) }

  ghost predicate Produces(env: Env, s: State, branches: seq<Walked>, choice: Choice, outcomes: seq<Branching.BranchOutcome<Walked>>) {
    Ends(WithChoice(env, choice), s, branches) == outcomes
  }

  /** Some schedule ends the branches so. */
  ghost predicate IsSchedule(env: Env, s: State, branches: seq<Walked>, outcomes: seq<Branching.BranchOutcome<Walked>>) {
    exists choice: Choice :: Produces(env, s, branches, choice, outcomes)
  }

  /** One outcome per branch, a completed one being what the branch does alone. */
  ghost predicate OfBranches(branches: seq<Walked>, outcomes: seq<Branching.BranchOutcome<Walked>>) {
    |outcomes| == |branches| && forall i :: 0 <= i < |outcomes| && outcomes[i].Completed? ==> outcomes[i].value == branches[i]
  }

  function FateFor(end: Branching.BranchOutcome<Walked>): Fate {
    match end
    case Completed(_) => Completes
    case Aborted => AbortedAfter(0)
    case Panicked => PanicsAfter(0)
  }

  lemma EndsAreJustified(env: Env, s: State, branches: seq<Walked>)
    ensures Branching.Justified(Halted, Ends(env, s, branches)) && OfBranches(branches, Ends(env, s, branches))
  {
    var ends := Ends(env, s, branches);
    if i :| 0 <= i < |ends| && ends[i].Aborted? {
      var j :| 0 <= j < |branches| && env.fate(s.history, j).Completes? && Halted(branches[j]);
      assert ends[j] == Branching.Completed(branches[j]);
    }
  }

  lemma JustifiedIsProduced(env: Env, s: State, branches: seq<Walked>, outcomes: seq<Branching.BranchOutcome<Walked>>)
    requires OfBranches(branches, outcomes) && Branching.Justified(Halted, outcomes)
    ensures IsSchedule(env, s, branches, outcomes)
  {
    var choice: Choice := (i: nat) => if i < |outcomes| then FateFor(outcomes[i]) else Completes;
    var chosen := WithChoice(env, choice);
    forall i | 0 <= i < |outcomes| ensures End(chosen, s, branches, i) == outcomes[i] {
      if outcomes[i].Aborted? {
        var j :| 0 <= j < |outcomes| && outcomes[j].Completed? && Halted(outcomes[j].value);
        assert chosen.fate(s.history, j).Completes? && Halted(branches[j]);
      }
    }
    assert Produces(env, s, branches, choice, outcomes);
  }

  /**
   * The schedules of the model are exactly the outcome vectors the branch runner promises: one outcome
   * per branch, its own where it completed, and an abort only beside a completed branch that denied.
   */
  lemma SchedulesExactly(env: Env, s: State, branches: seq<Walked>, outcomes: seq<Branching.BranchOutcome<Walked>>)
    ensures IsSchedule(env, s, branches, outcomes) <==> OfBranches(branches, outcomes) && Branching.Justified(Halted, outcomes)
  {
    if IsSchedule(env, s, branches, outcomes) {
      var choice: Choice :| Produces(env, s, branches, choice, outcomes);
      EndsAreJustified(WithChoice(env, choice), s, branches);
    } else if OfBranches(branches, outcomes) && Branching.Justified(Halted, outcomes) {
      JustifiedIsProduced(env, s, branches, outcomes);
    }
  }

  /** So every outcome a drained run of the branches can have is one of them. */
  lemma EveryRunIsASchedule(env: Env, s: State, branches: seq<Walked>, states: seq<Branching.State<Walked>>)
    requires Branching.Run(Halted, states) && Branching.Drained(states[|states| - 1])
    requires OfBranches(branches, Branching.Outcomes(states[|states| - 1]))
    ensures IsSchedule(env, s, branches, Branching.Outcomes(states[|states| - 1]))
  {
    Branching.RunBranchesSound(Halted, states);
    SchedulesExactly(env, s, branches, Branching.Outcomes(states[|states| - 1]));
  }

  /** The first deny found is that of the lowest completed branch with one. */
  lemma {:induction false} FirstHaltIs(ends: seq<Branching.BranchOutcome<Walked>>) returns (i: nat)
    ensures FirstHalt(ends).None? ==> forall j :: 0 <= j < |ends| && ends[j].Completed? ==> !Halted(ends[j].value)
    ensures FirstHalt(ends).Some? ==>
      && i < |ends| && ends[i].Completed? && ends[i].value.outcome == Halt(FirstHalt(ends).value)
      && forall j :: 0 <= j < i && ends[j].Completed? ==> !Halted(ends[j].value)
  {
    i := 0;
    if ends != [] {
      var init := ends[..|ends| - 1];
      i := FirstHaltIs(init);
      if FirstHalt(init).None? {
        i := |ends| - 1;
      }
      assert forall j :: 0 <= j < |init| ==> ends[j] == init[j];
    }
  }

  /**
   * A block denies exactly when some branch that does not panic denies on its own; the deny is one
   * that such a branch returns alone, no abort can hide it, and the caller's bag, payload and flags
   * are as they were.
   */
  lemma BlockDeniesExactly(env: Env, es: seq<Effect>, source: string, phase: DispatchPhase, s: State)
    ensures var branches := Branches(env, es, source, phase, s);
            var w := Dispatch(env, Parallel(es), source, phase, s);
            && !w.outcome.Pending?
            && w.state == s.(taints := w.state.taints, constraints := w.state.constraints, history := w.state.history)
            && (w.outcome.Halt? <==> exists i :: 0 <= i < |branches| && !Panics(env, s, i) && Halted(branches[i]))
            && (w.outcome.Halt? ==> exists i :: 0 <= i < |branches| && !Panics(env, s, i) && branches[i].outcome == w.outcome)
  {
    var branches := Branches(env, es, source, phase, s);
    var ends := Ends(env, s, branches);
    assert ends[..|branches|] == ends;
    var first := FirstHaltIs(ends);
    if i :| 0 <= i < |branches| && !Panics(env, s, i) && Halted(branches[i]) {
      assert ends[i].Completed? || AnyHalt(env, s, branches);
      if AnyHalt(env, s, branches) {
        var j :| 0 <= j < |branches| && env.fate(s.history, j).Completes? && Halted(branches[j]);
        assert ends[j] == Branching.Completed(branches[j]);
      }
    }
  }

  // ---- Effects that mutate nothing.

  /** Without a mutation an effect never suspends and leaves bag, payload and flags alone. */
  lemma {:induction false} WithoutMutation(env: Env, e: Effect, source: string, phase: DispatchPhase, s: State)
    requires !ContainsMutation(e)
    ensures var w := Dispatch(env, e, source, phase, s);
            && !w.outcome.Pending?
            && w.state == s.(taints := w.state.taints, constraints := w.state.constraints, history := w.state.history)
    decreases e, 1
  {
    match e
    case Sequential(es) => AllWithoutMutation(env, es, source, phase, s);
    case Parallel(es) => BlockDeniesExactly(env, es, source, phase, s);
    case When(_, body, ruleSource) => AllWithoutMutation(env, body, ruleSource, phase, s);
    case Pdp(call, onAllow, onDeny) =>
      var seen := s.(history := s.history + [PdpCalled(call, env.pdp(s.history, call, s.bag))]);
      AllWithoutMutation(env, onAllow, source, phase, seen);
      AllWithoutMutation(env, onDeny, source, phase, seen);
    case Plugin(_) =>
    case Restrict(_) =>
    case Taint(_) =>
    case Allow =>
    case Deny(_, _) =>
  }

  lemma {:induction false} AllWithoutMutation(env: Env, es: seq<Effect>, source: string, phase: DispatchPhase, s: State)
    requires !SomeContains(es)
    ensures var w := DispatchAll(env, es, source, phase, s);
            && !w.outcome.Pending?
            && w.state == s.(taints := w.state.taints, constraints := w.state.constraints, history := w.state.history)
    decreases es, 0
  {
    if es != [] {
      WithoutMutation(env, es[0], source, phase, s);
      var first := Dispatch(env, es[0], source, phase, s);
      if first.outcome.Continue? {
        RestWithout(es);
        AllWithoutMutation(env, es[1..], source, phase, first.state);
      }
    }
  }

  lemma RestWithout(es: seq<Effect>)
    requires es != [] && !SomeContains(es)
    ensures !SomeContains(es[1..])
  {
    assert forall i :: 0 <= i < |es| - 1 ==> es[1..][i] == es[i + 1];
  }

  lemma BlockHasNoMutation(es: seq<Effect>)
    requires Pure(Parallel(es))
    ensures !SomeContains(es)
  {
    BranchesPure(es);
  }

  /** In a checked block no branch ever suspends, so there is no pending elicitation to lose. */
  lemma CheckedBlockNeverSuspends(env: Env, es: seq<Effect>, source: string, phase: DispatchPhase, s: State, i: nat)
    requires Pure(Parallel(es)) && i < |es|
    ensures !Branches(env, es, source, phase, s)[i].outcome.Pending?
  {
    BlockHasNoMutation(es);
    WithoutMutation(env, es[i], source, phase, BranchStart(s, i));
  }

  // ---- The meaning of an effect under a host whose answers do not depend on the past.

  /** Fixed answers. */
  datatype Replies = Replies(
    plugin: (string, Bag, Invocation) -> Result<PluginOutcome, HostError>,
    pdp: (PdpCall, Bag) -> Result<Decision, HostError>,
    f64: string -> Option<real>)

  /** The host always answers so, and no branch of any block panics; aborts and orders stay arbitrary. */
  ghost predicate Answers(env: Env, replies: Replies) {
    && (forall h, name, bag, call :: env.plugin(h, name, bag, call) == replies.plugin(name, bag, call))
    && (forall h, call, bag :: env.pdp(h, call, bag) == replies.pdp(call, bag))
    && env.f64 == replies.f64
    && (forall h, i :: !env.fate(h, i).PanicsAfter?)
  }

  datatype Gathered = Gathered(taints: seq<TaintEvent>, constraints: seq<Constraint.CandidateConstraint>)

  function Both(a: Option<Gathered>, b: Option<Gathered>): Option<Gathered> {
    if a.None? || b.None? then None
    else Some(Gathered(a.value.taints + b.value.taints, a.value.constraints + b.value.constraints))
  }

  /** What a mutation-free effect gathers, or nothing when it denies: a block means what its branches mean in order. */
  function Meaning(r: Replies, e: Effect, bag: Bag, phase: DispatchPhase): Option<Gathered>
    requires !ContainsMutation(e)
    decreases e, 1
  {
    match e
    case Allow => Some(Gathered([], []))
    case Deny(_, _) => None
    case Plugin(name) =>
      var reply := r.plugin(name, bag, StepCall(phase));
      if reply.Err? || reply.value.decision.Denied? then None else Some(Gathered(reply.value.taints, []))
    case Taint(event) => Some(Gathered([event], []))
    case Restrict(spec) =>
      var resolved := Constraint.Resolve(spec, bag);
      if resolved.Err? then None
      else Some(Gathered([], if resolved.value.IsEmpty() then [] else [resolved.value]))
    case Sequential(es) => MeaningAll(r, es, bag, phase)
    case Parallel(es) => MeaningAll(r, es, bag, phase)
    case When(condition, body, _) =>
      if Predicates.Eval(r.f64, condition, bag) then MeaningAll(r, body, bag, phase) else Some(Gathered([], []))
    case Pdp(call, onAllow, onDeny) =>
      var reply := r.pdp(call, bag);
      if reply.Err? || reply.value.Denied? then None else MeaningAll(r, onAllow, bag, phase)
  }

  function MeaningAll(r: Replies, es: seq<Effect>, bag: Bag, phase: DispatchPhase): Option<Gathered>
    requires !SomeContains(es)
    decreases es, 0
  {
    if es == [] then Some(Gathered([], []))
    else
      RestWithout(es);
      Both(Meaning(r, es[0], bag, phase), MeaningAll(r, es[1..], bag, phase))
  }

  /** A walk from `s` does what the meaning says; on a deny, what was gathered before it may differ. */
  predicate Realizes(s: State, w: Walked, meaning: Option<Gathered>) {
    match meaning
    case None => w.outcome.Halt?
    case Some(g) =>
      && w.outcome.Continue?
      && w.state == s.(taints := s.taints + g.taints, constraints := s.constraints + g.constraints, history := w.state.history)
  }

  lemma {:induction false} EffectRealizes(env: Env, r: Replies, e: Effect, source: string, phase: DispatchPhase, s: State)
    requires Answers(env, r) && !ContainsMutation(e)
    ensures Realizes(s, Dispatch(env, e, source, phase, s), Meaning(r, e, s.bag, phase))
    decreases e, 1
  {
    match e
    case Sequential(es) => ListRealizes(env, r, es, source, phase, s);
    case Parallel(es) => BlockRealizes(env, r, es, source, phase, s);
    case When(_, body, ruleSource) => ListRealizes(env, r, body, ruleSource, phase, s);
    case Pdp(call, onAllow, onDeny) =>
      var seen := s.(history := s.history + [PdpCalled(call, env.pdp(s.history, call, s.bag))]);
      ListRealizes(env, r, onAllow, source, phase, seen);
      AllWithoutMutation(env, onDeny, source, phase, seen);
    case Plugin(_) =>
    case Restrict(_) =>
    case Taint(_) =>
    case Allow =>
    case Deny(_, _) =>
  }

  lemma {:induction false} ListRealizes(env: Env, r: Replies, es: seq<Effect>, source: string, phase: DispatchPhase, s: State)
    requires Answers(env, r) && !SomeContains(es)
    ensures Realizes(s, DispatchAll(env, es, source, phase, s), MeaningAll(r, es, s.bag, phase))
    decreases es, 0
  {
    if es != [] {
      RestWithout(es);
      EffectRealizes(env, r, es[0], source, phase, s);
      var first := Dispatch(env, es[0], source, phase, s);
      if first.outcome.Continue? {
        ListRealizes(env, r, es[1..], source, phase, first.state);
        var a, b := Meaning(r, es[0], s.bag, phase), MeaningAll(r, es[1..], s.bag, phase);
        if b.Some? {
          JoinAfter(s.taints, a.value.taints, b.value.taints);
          JoinAfter(s.constraints, a.value.constraints, b.value.constraints);
        }
      }
    }
  }

  lemma {:induction false} BlockRealizes(env: Env, r: Replies, es: seq<Effect>, source: string, phase: DispatchPhase, s: State)
    requires Answers(env, r) && !SomeContains(es)
    ensures Realizes(s, Dispatch(env, Parallel(es), source, phase, s), MeaningAll(r, es, s.bag, phase))
    decreases es, 0
  {
    var branches := Branches(env, es, source, phase, s);
    forall i | 0 <= i < |es| ensures Realizes(BranchStart(s, i), branches[i], Meaning(r, es[i], s.bag, phase)) {
      EffectRealizes(env, r, es[i], source, phase, BranchStart(s, i));
    }
    BlockDeniesExactly(env, es, source, phase, s);
    if exists i :: 0 <= i < |branches| && Halted(branches[i]) {
      var i :| 0 <= i < |branches| && Halted(branches[i]);
      assert !Panics(env, s, i);
      OneDenies(r, es, s.bag, phase, i);
    } else {
      var ends := Ends(env, s, branches);
      NoneDenies(env, s, branches);
      JoinedMeaning(r, es, s, phase, branches, ends);
      assert ends[..|branches|] == ends;
    }
  }

  /** With no deny and no panic every branch completes. */
  lemma NoneDenies(env: Env, s: State, branches: seq<Walked>)
    requires forall h, i :: !env.fate(h, i).PanicsAfter?
    requires forall i :: 0 <= i < |branches| ==> !Halted(branches[i])
    ensures forall i :: 0 <= i < |branches| ==> Ends(env, s, branches)[i] == Branching.Completed(branches[i])
  {
    forall i | 0 <= i < |branches| ensures End(env, s, branches, i) == Branching.Completed(branches[i]) {
      assert !env.fate(s.history, i).PanicsAfter?;
    }
  }

  lemma {:induction false} OneDenies(r: Replies, es: seq<Effect>, bag: Bag, phase: DispatchPhase, i: nat)
    requires !SomeContains(es) && i < |es| && Meaning(r, es[i], bag, phase).None?
    ensures MeaningAll(r, es, bag, phase).None?
  {
    RestWithout(es);
    if i > 0 {
      OneDenies(r, es[1..], bag, phase, i - 1);
    }
  }

  lemma InitWithout(es: seq<Effect>)
    requires es != [] && !SomeContains(es)
    ensures !SomeContains(es[..|es| - 1])
  {
    assert forall i :: 0 <= i < |es| - 1 ==> es[..|es| - 1][i] == es[i];
  }

  lemma {:induction false} MeaningSnoc(r: Replies, es: seq<Effect>, bag: Bag, phase: DispatchPhase)
    requires es != [] && !SomeContains(es) && !SomeContains(es[..|es| - 1])
    ensures MeaningAll(r, es, bag, phase) == Both(MeaningAll(r, es[..|es| - 1], bag, phase), Meaning(r, es[|es| - 1], bag, phase))
  {
    RestWithout(es);
    var n := |es| - 1;
    if n == 0 {
      assert es[1..] == [] && es[..0] == [];
      BothUnit(Meaning(r, es[0], bag, phase));
    } else {
      var tail := es[1..];
      InitWithout(tail);
      MeaningSnoc(r, tail, bag, phase);
      assert tail[..n - 1] == es[..n][1..] && tail[n - 1] == es[n];
      BothAssociates(Meaning(r, es[0], bag, phase), MeaningAll(r, tail[..n - 1], bag, phase), Meaning(r, es[n], bag, phase));
    }
  }

  lemma BothUnit(a: Option<Gathered>)
    ensures Both(a, Some(Gathered([], []))) == a == Both(Some(Gathered([], [])), a)
  {
    if a.Some? {
      assert a.value.taints + [] == a.value.taints == [] + a.value.taints;
      assert a.value.constraints + [] == a.value.constraints == [] + a.value.constraints;
    }
  }

  lemma BothAssociates(a: Option<Gathered>, b: Option<Gathered>, c: Option<Gathered>)
    ensures Both(a, Both(b, c)) == Both(Both(a, b), c)
  {
    if a.Some? && b.Some? && c.Some? {
      assert a.value.taints + (b.value.taints + c.value.taints) == a.value.taints + b.value.taints + c.value.taints;
      assert a.value.constraints + (b.value.constraints + c.value.constraints)
          == a.value.constraints + b.value.constraints + c.value.constraints;
    }
  }

  lemma {:induction false} JoinedMeaning(
    r: Replies, es: seq<Effect>, s: State, phase: DispatchPhase, branches: seq<Walked>, ends: seq<Branching.BranchOutcome<Walked>>)
    requires !SomeContains(es) && |branches| == |es| == |ends|
    requires forall i :: 0 <= i < |es| ==> ends[i] == Branching.Completed(branches[i]) && branches[i].outcome.Continue?
    requires forall i :: 0 <= i < |es| ==> Realizes(BranchStart(s, i), branches[i], Meaning(r, es[i], s.bag, phase))
    ensures MeaningAll(r, es, s.bag, phase) == Some(Gathered(JoinedTaints(ends), JoinedConstraints(ends)))
  {
    if es != [] {
      var n := |es| - 1;
      InitWithout(es);
      JoinedMeaning(r, es[..n], s, phase, branches[..n], ends[..n]);
      MeaningSnoc(r, es, s.bag, phase);
      var last := Meaning(r, es[n], s.bag, phase).value;
      assert [] + last.taints == last.taints && [] + last.constraints == last.constraints;
      assert Realizes(BranchStart(s, n), branches[n], Meaning(r, es[n], s.bag, phase));
    }
  }

  /**
   * For a checked block whose branches do not panic, under every schedule and abort order on either
   * side: it denies exactly when the same effects in sequence do, never suspends, leaves the caller's
   * bag, payload and flags alone, and on continuing gathers the same labels and constraints.
   */
  lemma ParallelIsSequential(
    parallelEnv: Env, sequentialEnv: Env, replies: Replies, es: seq<Effect>, source: string, phase: DispatchPhase, s: State)
    requires Answers(parallelEnv, replies) && Answers(sequentialEnv, replies)
    requires Pure(Parallel(es))
    ensures var p := Dispatch(parallelEnv, Parallel(es), source, phase, s);
            var q := Dispatch(sequentialEnv, Sequential(es), source, phase, s);
            && (p.outcome.Halt? <==> q.outcome.Halt?)
            && !p.outcome.Pending? && !q.outcome.Pending?
            && (p.outcome.Continue? ==> p.state == q.state.(history := p.state.history))
  {
    BlockHasNoMutation(es);
    BlockRealizes(parallelEnv, replies, es, source, phase, s);
    ListRealizes(sequentialEnv, replies, es, source, phase, s);
    AllWithoutMutation(sequentialEnv, es, source, phase, s);
  }

  // ---- Without the check.

  /**
   * A block never suspends: with a branch that waits for a human it walks on exactly when every branch
   * that denies panics.
   */
  lemma SuspensionIsSwallowedExactly(env: Env, es: seq<Effect>, source: string, phase: DispatchPhase, s: State)
    requires exists i :: 0 <= i < |es| && Branches(env, es, source, phase, s)[i].outcome.Pending?
    ensures var branches := Branches(env, es, source, phase, s);
            Dispatch(env, Parallel(es), source, phase, s).outcome == Continue
            <==> forall j :: 0 <= j < |branches| && Halted(branches[j]) ==> Panics(env, s, j)
  {
    BlockDeniesExactly(env, es, source, phase, s);
  }

  const WAITING: Env := Env(
    (_, _, _, _) => Err(HostError), (_, _, _) => Err(HostError), (_, _) => Err(HostError),
    (_, _, _) => Ok(ElicitationDispatch("e1", None, None, None)),
    (_, _, _) => Ok(StillPending),
    (_, _, _) => Err(HostError), (_, _) => Completes, _ => None, _ => None, _ => "")

  /** A block the check refuses: the branch suspends for a human, and the block walks on. */
  lemma UncheckedBlockSwallowsPending()
    ensures var step := ElicitStep("ciba", None, "alice", None, None, "policy[0]");
            var start := Fresh(map[], Payload(Null, None), []);
            && !Pure(Parallel([Elicit(step)]))
            && Dispatch(WAITING, Elicit(step), "", Pre, start).outcome.Pending?
            && Dispatch(WAITING, Parallel([Elicit(step)]), "", Pre, start).outcome == Continue
  {
    var step := ElicitStep("ciba", None, "alice", None, None, "policy[0]");
    var start := Fresh(map[], Payload(Null, None), []);
    var es := [Elicit(step)];
    assert ContainsMutation(es[0]);
    assert !LooksLikeAttributeRef("alice");
    BlockDeniesExactly(WAITING, es, "", Pre, start);
    assert Branches(WAITING, es, "", Pre, start)[0].outcome.Pending?;
  }
}
