/** The phases of a route: argument rules and policy before the call, result rules and post policy after it. */
module Route {
  import opened Prelude
  import opened Attributes
  import opened Policy
  import opened Host
  import opened Evaluator
  import opened EffectInvariants

  /** Field rules in order, stopping at the first deny. */
  function RunRules(env: Env, rules: seq<FieldRule>, phase: DispatchPhase, side: Side, s: State): Walked
    requires side.ResultSide? ==> s.payload.result.Some?
    decreases |rules|
  {
    if rules == [] then Walked(Continue, s)
    else
      var first := RunOnField(env, rules[0].field, rules[0].stages, rules[0].source, phase, side, s);
      if first.outcome.Continue? then RunRules(env, rules[1..], phase, side, first.state) else first
  }

  /** The pre phases as one walk. */
  function PreWalk(env: Env, route: CompiledRoute, s: State): Walked {
    var ruled := RunRules(env, route.args, Pre, ArgsSide, s);
    if ruled.outcome.Continue? then DispatchAll(env, route.policy, "", Pre, ruled.state) else ruled
  }

  /** The post phases as one walk. */
  function PostWalk(env: Env, route: CompiledRoute, s: State): Walked {
    var ruled := if s.payload.result.Some? then RunRules(env, route.result, Post, ResultSide, s) else Walked(Continue, s);
    if ruled.outcome.Continue? then DispatchAll(env, route.postPolicy, "", Post, ruled.state) else ruled
  }

  /** All phases as one walk: the post half runs only when the pre half continued. */
  function RouteWalk(env: Env, route: CompiledRoute, s: State): Walked {
    var pre := PreWalk(env, route, s);
    if pre.outcome.Continue? then PostWalk(env, route, pre.state) else pre
  }

  // ---- What the phases keep.

  lemma {:induction false} RulesFollow(env: Env, rules: seq<FieldRule>, phase: DispatchPhase, side: Side, s: State)
    requires if side.ArgsSide? then phase.Pre? else phase.Post? && s.payload.result.Some?
    ensures Follows(phase, s, RunRules(env, rules, phase, side, s).state)
    ensures var w := RunRules(env, rules, phase, side, s);
            && w.state.constraints == s.constraints && w.state.bag == s.bag && !w.outcome.Pending?
            && QuietSince(s.history, w.state.history)
    decreases |rules|
  {
    if rules != [] {
      FieldFollows(env, rules[0].field, rules[0].stages, rules[0].source, phase, side, s);
      var first := RunOnField(env, rules[0].field, rules[0].stages, rules[0].source, phase, side, s);
      if first.outcome.Continue? {
        RulesFollow(env, rules[1..], phase, side, first.state);
      }
    }
  }

  lemma PreFollows(env: Env, route: CompiledRoute, s: State)
    ensures Follows(Pre, s, PreWalk(env, route, s).state)
  {
    RulesFollow(env, route.args, Pre, ArgsSide, s);
    DispatchAllFollows(env, route.policy, "", Pre, RunRules(env, route.args, Pre, ArgsSide, s).state);
  }

  lemma PostFollows(env: Env, route: CompiledRoute, s: State)
    ensures Follows(Post, s, PostWalk(env, route, s).state)
  {
    if s.payload.result.Some? {
      RulesFollow(env, route.result, Post, ResultSide, s);
      DispatchAllFollows(env, route.postPolicy, "", Post, RunRules(env, route.result, Post, ResultSide, s).state);
    } else {
      DispatchAllFollows(env, route.postPolicy, "", Post, s);
    }
  }

  /**
   * For every route, host and payload, whether the run allows, denies or suspends: an unraised flag
   * means that side of the payload is what the caller passed in.
   */
  lemma ModifiedFlagsAreSound(env: Env, route: CompiledRoute, bag: Bag, payload: Payload, history: History)
    ensures var t := RouteWalk(env, route, Fresh(bag, payload, history)).state;
            && (!t.argsModified ==> t.payload.args == payload.args)
            && (!t.resultModified ==> t.payload.result == payload.result)
            && t.payload.result.Some? == payload.result.Some?
            && history <= t.history
  {
    var s := Fresh(bag, payload, history);
    PreFollows(env, route, s);
    PostFollows(env, route, PreWalk(env, route, s).state);
  }

  /** The two halves keep off each other's side, so each half's own flag is the run's flag. */
  lemma HalvesKeepTheirSide(env: Env, route: CompiledRoute, s: State)
    ensures var pre := PreWalk(env, route, s).state;
            pre.payload.result == s.payload.result && pre.resultModified == s.resultModified
    ensures var post := PostWalk(env, route, s).state;
            post.payload.args == s.payload.args && post.argsModified == s.argsModified
  {
    PreFollows(env, route, s);
    PostFollows(env, route, s);
  }

  lemma {:induction false} RulesOnto(env: Env, rules: seq<FieldRule>, phase: DispatchPhase, side: Side, s: State)
    requires side.ResultSide? ==> s.payload.result.Some?
    requires if side.ArgsSide? then phase.Pre? else phase.Post?
    ensures RunRules(env, rules, phase, side, s) == WalkedOnto(s, RunRules(env, rules, phase, side, Clean(s)))
    decreases |rules|
  {
    if rules == [] {
      OntoClean(s);
    } else {
      var field, stages, source := rules[0].field, rules[0].stages, rules[0].source;
      FieldOnto(env, field, stages, source, phase, side, s);
      FieldFollows(env, field, stages, source, phase, side, Clean(s));
      var first := RunOnField(env, field, stages, source, phase, side, Clean(s));
      if first.outcome.Continue? {
        var t := first.state;
        RulesOnto(env, rules[1..], phase, side, Onto(s, t));
        RulesOnto(env, rules[1..], phase, side, t);
        assert Clean(Onto(s, t)) == Clean(t);
        OntoTwice(s, t, RunRules(env, rules[1..], phase, side, Clean(t)).state);
      }
    }
  }

  lemma PostOnto(env: Env, route: CompiledRoute, s: State)
    ensures PostWalk(env, route, s) == WalkedOnto(s, PostWalk(env, route, Clean(s)))
  {
    OntoClean(s);
    if s.payload.result.Some? {
      RulesOnto(env, route.result, Post, ResultSide, s);
      var ruled := RunRules(env, route.result, Post, ResultSide, Clean(s));
      if ruled.outcome.Continue? {
        var t := ruled.state;
        DispatchAllOnto(env, route.postPolicy, "", Post, Onto(s, t));
        DispatchAllOnto(env, route.postPolicy, "", Post, t);
        assert Clean(Onto(s, t)) == Clean(t);
        OntoTwice(s, t, DispatchAll(env, route.postPolicy, "", Post, Clean(t)).state);
      }
    } else {
      DispatchAllOnto(env, route.postPolicy, "", Post, s);
    }
  }

  lemma {:induction false} RulesSound(env: Env, rules: seq<FieldRule>, phase: DispatchPhase, side: Side, s: State)
    requires if side.ArgsSide? then phase.Pre? else phase.Post? && s.payload.result.Some?
    ensures Sound(RunRules(env, rules, phase, side, s))
    decreases |rules|
  {
    if rules != [] {
      FieldFollows(env, rules[0].field, rules[0].stages, rules[0].source, phase, side, s);
      var first := RunOnField(env, rules[0].field, rules[0].stages, rules[0].source, phase, side, s);
      if first.outcome.Continue? {
        RulesSound(env, rules[1..], phase, side, first.state);
      }
    }
  }

  lemma PreSound(env: Env, route: CompiledRoute, s: State)
    ensures Sound(PreWalk(env, route, s))
  {
    RulesSound(env, route.args, Pre, ArgsSide, s);
    HaltsAreDenies(env, route.policy, "", Pre, RunRules(env, route.args, Pre, ArgsSide, s).state);
  }

  // ---- The phases in place.

  /** A phase's own report, its gathered facts behind those already reported. */
  function Behind(taints: seq<TaintEvent>, argsModified: bool, resultModified: bool, later: StepsEvaluation): StepsEvaluation {
    later.(taints := taints + later.taints,
           argsModified := argsModified || later.argsModified,
           resultModified := resultModified || later.resultModified)
  }

  lemma ReportOnto(s: State, w: Walked)
    requires s.constraints == []
    ensures Report(WalkedOnto(s, w)) == Behind(s.taints, s.argsModified, s.resultModified, Report(w))
  {
    assert [] + w.state.constraints == w.state.constraints;
  }

  /** The rule loop of one side, in the walker's own fields. */
  method ApplyRules(walker: Walker, rules: seq<FieldRule>, phase: DispatchPhase, side: Side) returns (outcome: Outcome)
    requires if side.ArgsSide? then phase.Pre? else phase.Post? && walker.payload.result.Some?
    modifies walker
    ensures Walked(outcome, walker.View()) == RunRules(walker.env, rules, phase, side, old(walker.View()))
  {
    for i := 0 to |rules|
      invariant side.ResultSide? ==> walker.payload.result.Some?
      invariant RunRules(walker.env, rules, phase, side, old(walker.View()))
             == RunRules(walker.env, rules[i..], phase, side, walker.View())
    {
      var rule := rules[i];
      assert rules[i..][0] == rule && rules[i..][1..] == rules[i + 1..];
      FieldFollows(walker.env, rule.field, rule.stages, rule.source, phase, side, walker.View());
      var o := walker.OnField(rule.field, rule.stages, rule.source, phase, side);
      if !o.Continue? {
        return o;
      }
    }
    return Continue;
  }

  /** `evaluate_pre`. */
  method EvaluatePre(walker: Walker, route: CompiledRoute) returns (decision: StepsEvaluation)
    modifies walker
    ensures var w := PreWalk(walker.env, route, Fresh(old(walker.bag), old(walker.payload), old(walker.history)));
            && decision == Report(w)
            && walker.bag == w.state.bag && walker.payload == w.state.payload && walker.history == w.state.history
  {
    walker.taints, walker.constraints, walker.argsModified, walker.resultModified := [], [], false, false;
    ghost var start := walker.View();
    RulesFollow(walker.env, route.args, Pre, ArgsSide, start);
    var outcome := ApplyRules(walker, route.args, Pre, ArgsSide);
    ghost var ruled := walker.View();
    var taints, argsModified := walker.taints, walker.argsModified;
    if outcome.Halt? {
      return StepsEvaluation(outcome.decision, taints, [], argsModified, false, None);
    }
    DispatchAllOnto(walker.env, route.policy, "", Pre, ruled);
    var policy := walker.EvaluateEffects(route.policy, Pre);
    ReportOnto(ruled, DispatchAll(walker.env, route.policy, "", Pre, Clean(ruled)));
    PreFollows(walker.env, route, start);
    return StepsEvaluation(
      policy.decision, taints + policy.taints, policy.constraints, argsModified || policy.argsModified, false, policy.pending);
  }

  /** `evaluate_post`. */
  method EvaluatePost(walker: Walker, route: CompiledRoute) returns (decision: StepsEvaluation)
    modifies walker
    ensures var w := PostWalk(walker.env, route, Fresh(old(walker.bag), old(walker.payload), old(walker.history)));
            && decision == Report(w)
            && walker.bag == w.state.bag && walker.payload == w.state.payload && walker.history == w.state.history
  {
    walker.taints, walker.constraints, walker.argsModified, walker.resultModified := [], [], false, false;
    ghost var start := walker.View();
    var outcome := Continue;
    if walker.payload.result.Some? {
      RulesFollow(walker.env, route.result, Post, ResultSide, start);
      outcome := ApplyRules(walker, route.result, Post, ResultSide);
    }
    ghost var ruled := walker.View();
    var taints, resultModified := walker.taints, walker.resultModified;
    if outcome.Halt? {
      return StepsEvaluation(outcome.decision, taints, [], false, resultModified, None);
    }
    DispatchAllOnto(walker.env, route.postPolicy, "", Post, ruled);
    var post := walker.EvaluateEffects(route.postPolicy, Post);
    ReportOnto(ruled, DispatchAll(walker.env, route.postPolicy, "", Post, Clean(ruled)));
    PostFollows(walker.env, route, start);
    return StepsEvaluation(
      post.decision, taints + post.taints, post.constraints, false, resultModified || post.resultModified, post.pending);
  }

  /** `evaluate_route`: stitching the two halves reports exactly the one walk through all phases. */
  method EvaluateRoute(walker: Walker, route: CompiledRoute) returns (decision: StepsEvaluation)
    modifies walker
    ensures var w := RouteWalk(walker.env, route, Fresh(old(walker.bag), old(walker.payload), old(walker.history)));
            && decision == Report(w)
            && walker.bag == w.state.bag && walker.payload == w.state.payload && walker.history == w.state.history
  {
    ghost var start := Fresh(walker.bag, walker.payload, walker.history);
    var pre := EvaluatePre(walker, route);
    ghost var mid := PreWalk(walker.env, route, start);
    PreSound(walker.env, route, start);
    if pre.decision.Denied? || pre.pending.Some? {
      return pre;
    }
    PostOnto(walker.env, route, mid.state);
    var post := EvaluatePost(walker, route);
    HalvesKeepTheirSide(walker.env, route, start);
    HalvesKeepTheirSide(walker.env, route, Clean(mid.state));
    return StepsEvaluation(
      post.decision, pre.taints + post.taints, pre.constraints + post.constraints, pre.argsModified, post.resultModified, post.pending);
  }
}
