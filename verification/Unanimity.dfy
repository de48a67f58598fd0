/**
 * What going on means: no plugin, decision point or human that was consulted, and whose branch was
 * not cut, said no.
 */
module Unanimity {
  import opened Prelude
  import opened Attributes
  import opened Policy
  import opened Host
  import opened Evaluator
  import opened EffectInvariants
  import opened Purity
  import opened ParallelBlocks
  import opened Elicitation
  import opened LabelRepair
  import opened Route
  import DottedPath
  import Json
  import Pipeline
  import Predicates

  /** This exchange is not a no: a plugin or decision point answered and allowed, an approver did not refuse. */
  predicate NotANo(event: Event) {
    match event
    case PluginCalled(_, _, reply) => reply.Ok? && reply.value.decision.Allowed?
    case PdpCalled(_, reply) => reply.Ok? && reply.value.Allowed?
    case ElicitChecked(_, _, reply) => reply.Err? || reply.value != Resolved(false)
    case _ => true
  }

  predicate NoNos(events: seq<Event>) { forall event :: event in events ==> NotANo(event) }

  // ---- Leaves.

  lemma {:induction false} StagesHaveNoNo(
    env: Env, bag: Bag, field: string, phase: DispatchPhase, stages: seq<Stage>, at: nat, p: Pipeline.Progress)
    requires at <= |stages| && !Pipeline.RunStages(env, bag, field, phase, stages, at, p).outcome.Reject?
    ensures var e := Pipeline.RunStages(env, bag, field, phase, stages, at, p);
            p.history <= e.history && NoNos(e.history[|p.history|..])
    decreases |stages| - at
  {
    if at < |stages| {
      var r := Pipeline.RunStage(env, bag, field, phase, stages[at], p);
      var q := r.progress;
      assert p.history <= q.history && NoNos(q.history[|p.history|..]);
      if r.Next? {
        StagesHaveNoNo(env, bag, field, phase, stages, at + 1, q);
        var e := Pipeline.RunStages(env, bag, field, phase, stages, at + 1, q);
        assert e.history[|p.history|..] == q.history[|p.history|..] + e.history[|q.history|..];
      }
    }
  }

  lemma FieldHasNoNo(env: Env, field: string, stages: seq<Stage>, source: string, phase: DispatchPhase, side: Side, s: State)
    requires if side.ArgsSide? then phase.Pre? else phase.Post? && s.payload.result.Some?
    ensures var w := RunOnField(env, field, stages, source, phase, side, s); w.outcome.Continue? ==> NoNos(Log(s, w))
  {
    var current := Json.Look(Root(s.payload, side), DottedPath.Segments(field));
    var w := RunOnField(env, field, stages, source, phase, side, s);
    if current.Some? && w.outcome.Continue? {
      StagesHaveNoNo(env, s.bag, field, phase, stages, 0, Pipeline.Start(current.value, s.history));
    }
  }

  lemma FieldOpHasNoNo(env: Env, path: string, stages: seq<Stage>, source: string, phase: DispatchPhase, s: State)
    ensures var w := RunFieldOp(env, path, stages, source, phase, s); w.outcome.Continue? ==> NoNos(Log(s, w))
  {
    if "args." <= path {
      if phase.Pre? {
        FieldHasNoNo(env, path[5..], stages, source, phase, ArgsSide, s);
      }
    } else if "result." <= path {
      if phase.Post? && s.payload.result.Some? {
        FieldHasNoNo(env, path[7..], stages, source, phase, ResultSide, s);
      }
    }
  }

  lemma CheckLog(env: Env, step: ElicitStep, id: string, s: State)
    ensures var check := env.check(s.history, step, id);
            var w := CheckElicitation(env, step, id, s);
            check != Ok(Resolved(false)) ==> s.history <= w.state.history && NoNos(Log(s, w))
  {
    var seen := s.(history := s.history + [ElicitChecked(step, id, env.check(s.history, step, id))]);
    ValidateLog(env, step, id, seen);
    LogSplits(s, Walked(Continue, seen), Walked(Continue, ValidateElicitation(env, step, id, seen).state));
  }

  lemma ValidateLog(env: Env, step: ElicitStep, id: string, s: State)
    ensures var w := ValidateElicitation(env, step, id, s); s.history <= w.state.history && NoNos(Log(s, w))
  {
  }

  lemma ElicitHasNoNo(env: Env, step: ElicitStep, s: State)
    ensures var w := RunElicit(env, step, s); w.outcome.Continue? ==> NoNos(Log(s, w))
  {
    var known := Identified(env, step, s);
    DenialAlwaysHalts(env, step, s);
    if known.Some? && RunElicit(env, step, s).outcome.Continue? {
      var t := known.value.1;
      CheckLog(env, step, known.value.0, t);
      LogSplits(s, Walked(Continue, t), CheckElicitation(env, step, known.value.0, t));
    }
  }

  lemma LeafHasNoNo(env: Env, e: Effect, source: string, phase: DispatchPhase, s: State)
    requires IsLeaf(e) || e.Delegate? || e.Elicit? || e.FieldOp?
    ensures var w := Dispatch(env, e, source, phase, s); w.outcome.Continue? ==> NoNos(Log(s, w))
  {
    match e
    case FieldOp(path, stages) => FieldOpHasNoNo(env, path, stages, source, phase, s);
    case Elicit(step) => ElicitHasNoNo(env, step, s);
    case Plugin(_) =>
    case Delegate(_) =>
    case Restrict(_) =>
    case Taint(_) =>
    case Allow =>
    case Deny(_, _) =>
  }

  // ---- Trees.

  lemma {:induction false} PassingIsUnanimous(env: Env, e: Effect, source: string, phase: DispatchPhase, s: State)
    requires Pure(e) && Dispatch(env, e, source, phase, s).outcome.Continue?
    ensures NoNos(Kept(env, e, source, phase, s))
    decreases e, 1
  {
    PureByChildren(e);
    match e
    case Sequential(es) => PassingListIsUnanimous(env, es, source, phase, s);
    case Parallel(es) => PassingBlockIsUnanimous(env, es, source, phase, s);
    case When(condition, body, ruleSource) =>
      if Predicates.Eval(env.f64, condition, s.bag) {
        PassingListIsUnanimous(env, body, ruleSource, phase, s);
      }
    case Pdp(call, onAllow, onDeny) =>
      EachPure(onAllow);
      DecisionPointDenyStands(env, call, onAllow, onDeny, source, phase, s);
      var seen := s.(history := s.history + [PdpCalled(call, env.pdp(s.history, call, s.bag))]);
      PassingListIsUnanimous(env, onAllow, source, phase, seen);
    case _ => LeafHasNoNo(env, e, source, phase, s);
  }

  /**
   * Whenever checked effects let a request past, every plugin and decision point they consulted in a
   * branch that was not cut answered and allowed, and no approver they asked had refused.
   */
  lemma {:induction false} PassingListIsUnanimous(env: Env, es: seq<Effect>, source: string, phase: DispatchPhase, s: State)
    requires AllPure(es) && DispatchAll(env, es, source, phase, s).outcome.Continue?
    ensures NoNos(KeptAll(env, es, source, phase, s))
    decreases es, 0
  {
    if es != [] {
      assert AllPure(es[1..]) by {
        assert forall i :: 0 <= i < |es| - 1 ==> es[1..][i] == es[i + 1];
      }
      PassingIsUnanimous(env, es[0], source, phase, s);
      PassingListIsUnanimous(env, es[1..], source, phase, Dispatch(env, es[0], source, phase, s).state);
    }
  }

  lemma {:induction false} PassingBlockIsUnanimous(env: Env, es: seq<Effect>, source: string, phase: DispatchPhase, s: State)
    requires Pure(Parallel(es)) && AllPure(es) && Dispatch(env, Parallel(es), source, phase, s).outcome.Continue?
    ensures NoNos(KeptBranches(env, es, source, phase, s, |es|))
    decreases es, 0, |es| + 1
  {
    BlockDeniesExactly(env, es, source, phase, s);
    PassingBranchesAreUnanimous(env, es, source, phase, s, |es|);
  }

  lemma {:induction false} PassingBranchesAreUnanimous(
    env: Env, es: seq<Effect>, source: string, phase: DispatchPhase, s: State, upTo: nat)
    requires Pure(Parallel(es)) && AllPure(es) && upTo <= |es|
    requires var branches := Branches(env, es, source, phase, s);
             forall i :: 0 <= i < |branches| && !Panics(env, s, i) ==> !Halted(branches[i])
    ensures NoNos(KeptBranches(env, es, source, phase, s, upTo))
    decreases es, 0, upTo
  {
    if upTo > 0 {
      var i := upTo - 1;
      var branches := Branches(env, es, source, phase, s);
      PassingBranchesAreUnanimous(env, es, source, phase, s, i);
      if End(env, s, branches, i).Completed? {
        assert !Panics(env, s, i);
        CheckedBlockNeverSuspends(env, es, source, phase, s, i);
        PassingIsUnanimous(env, es[i], source, phase, BranchStart(s, i));
      }
    }
  }

  // ---- Routes.

  lemma {:induction false} PassingRulesAreUnanimous(env: Env, rules: seq<FieldRule>, phase: DispatchPhase, side: Side, s: State)
    requires if side.ArgsSide? then phase.Pre? else phase.Post? && s.payload.result.Some?
    requires RunRules(env, rules, phase, side, s).outcome.Continue?
    ensures NoNos(Log(s, RunRules(env, rules, phase, side, s)))
    decreases |rules|
  {
    if rules != [] {
      var rule := rules[0];
      FieldHasNoNo(env, rule.field, rule.stages, rule.source, phase, side, s);
      FieldFollows(env, rule.field, rule.stages, rule.source, phase, side, s);
      var first := RunOnField(env, rule.field, rule.stages, rule.source, phase, side, s);
      PassingRulesAreUnanimous(env, rules[1..], phase, side, first.state);
      RulesFollow(env, rules[1..], phase, side, first.state);
      LogSplits(s, first, RunRules(env, rules[1..], phase, side, first.state));
    }
  }

  /** A route that lets its request through was refused by no one it consulted, in field rules and policy of both halves. */
  lemma PassingRouteIsUnanimous(env: Env, route: CompiledRoute, s: State)
    requires CheckedRoute(route) && RouteWalk(env, route, s).outcome.Continue?
    ensures NoNos(KeptRoute(env, route, s))
  {
    var ruled := RunRules(env, route.args, Pre, ArgsSide, s);
    PassingRulesAreUnanimous(env, route.args, Pre, ArgsSide, s);
    PassingListIsUnanimous(env, route.policy, "", Pre, ruled.state);
    var pre := PreWalk(env, route, s);
    var post := RuledPost(env, route, pre.state);
    if pre.state.payload.result.Some? {
      PassingRulesAreUnanimous(env, route.result, Post, ResultSide, pre.state);
    }
    PassingListIsUnanimous(env, route.postPolicy, "", Post, post.state);
  }
}
