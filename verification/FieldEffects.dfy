/** Field operations as effects: what one does to the payload, and field rules as the effects they stand for. */
module FieldEffects {
  import opened Prelude
  import opened Json
  import opened Policy
  import opened Host
  import opened DottedPath
  import opened Evaluator
  import opened EffectInvariants
  import opened Route
  import Pipeline

  /** The path of a field as an effect writes it. */
  function PathOf(side: Side, field: string): string {
    if side.ArgsSide? then "args." + field else "result." + field
  }

  /** A side is open in its own phase, the result only when there is one. */
  predicate Open(side: Side, phase: DispatchPhase, s: State) {
    if side.ArgsSide? then phase.Pre? else phase.Post? && s.payload.result.Some?
  }

  lemma PathsApart(field: string)
    ensures "args." <= "args." + field && ("args." + field)[5..] == field
    ensures "result." <= "result." + field && ("result." + field)[7..] == field
    ensures !("args." <= "result." + field)
  {
    assert ("result." + field)[0] == 'r';
  }

  lemma OneRule(env: Env, rule: FieldRule, phase: DispatchPhase, side: Side, s: State)
    requires side.ResultSide? ==> s.payload.result.Some?
    ensures RunRules(env, [rule], phase, side, s) == RunOnField(env, rule.field, rule.stages, rule.source, phase, side, s)
  {
    var first := RunOnField(env, rule.field, rule.stages, rule.source, phase, side, s);
    assert [rule][1..] == [];
    if first.outcome.Continue? {
      assert RunRules(env, [rule], phase, side, s) == RunRules(env, [], phase, side, first.state);
    }
  }

  /** A field operation on an open side is the field rule on the path behind the prefix, and on a closed side nothing. */
  lemma FieldOpIsARule(env: Env, side: Side, field: string, stages: seq<Stage>, source: string, phase: DispatchPhase, s: State)
    ensures Dispatch(env, FieldOp(PathOf(side, field), stages), source, phase, s)
         == if Open(side, phase, s) then RunRules(env, [FieldRule(field, stages, source)], phase, side, s) else Walked(Continue, s)
  {
    PathsApart(field);
    if Open(side, phase, s) {
      OneRule(env, FieldRule(field, stages, source), phase, side, s);
    }
  }

  /** A path on neither side stops the request in either phase. */
  lemma StrayPathStops(env: Env, path: string, stages: seq<Stage>, source: string, phase: DispatchPhase, s: State)
    ensures (exists side, field :: path == PathOf(side, field))
            || Dispatch(env, FieldOp(path, stages), source, phase, s) == Walked(Refuse(NotAField(path), source), s)
  {
    if "args." <= path {
      assert path == PathOf(ArgsSide, path[5..]);
    }
    if "result." <= path {
      assert path == PathOf(ResultSide, path[7..]);
    }
  }

  // ---- What one rule does to the payload.

  /** Everything but the field itself is as it was: disjoint fields, the other side and its flag. */
  ghost predicate OnlyField(side: Side, segs: seq<string>, s: State, t: State)
    requires side.ResultSide? ==> s.payload.result.Some? && t.payload.result.Some?
  {
    && t.bag == s.bag && t.constraints == s.constraints
    && (forall q :: Disjoint(segs, q) ==> Look(Root(t.payload, side), q) == Look(Root(s.payload, side), q))
    && (side.ArgsSide? ==> t.payload.result == s.payload.result && t.resultModified == s.resultModified)
    && (side.ResultSide? ==> t.payload.args == s.payload.args && t.argsModified == s.argsModified)
  }

  predicate Flagged(side: Side, s: State) { if side.ArgsSide? then s.argsModified else s.resultModified }

  /**
   * A rule on a field that is there: the field afterwards reads as the pipeline's output, or not at all
   * after an omit, with the flag raised; a pass changes nothing; a rejected value stops the request
   * under the rule's own name with the payload untouched.
   */
  lemma RuleSettlesField(env: Env, rule: FieldRule, phase: DispatchPhase, side: Side, s: State)
    requires Open(side, phase, s) && Look(Root(s.payload, side), Segments(rule.field)).Some?
    ensures var segs := Segments(rule.field);
            var v := Look(Root(s.payload, side), segs).value;
            var e := Pipeline.EvaluatePipeline(env, s.bag, rule.field, phase, rule.stages, v, s.history);
            var w := RunRules(env, [rule], phase, side, s);
            var t := w.state;
            && t.taints == s.taints + e.taints && t.history == e.history
            && (side.ResultSide? ==> t.payload.result.Some?)
            && OnlyField(side, segs, s, t)
            && (match e.outcome
                case Replace(x) => w.outcome == Continue && Look(Root(t.payload, side), segs) == Some(x) && Flagged(side, t)
                case Omit => w.outcome == Continue && Look(Root(t.payload, side), segs) == None && Flagged(side, t)
                case Pass => w.outcome == Continue && t == s.(taints := t.taints, history := t.history)
                case Reject(reason, _) =>
                  w.outcome == Halt(Denied(Some(reason), rule.source)) && t == s.(taints := t.taints, history := t.history))
  {
    var segs, root := Segments(rule.field), Root(s.payload, side);
    var v := Look(root, segs).value;
    var e := Pipeline.EvaluatePipeline(env, s.bag, rule.field, phase, rule.stages, v, s.history);
    OneRule(env, rule, phase, side, s);
    if e.outcome.Replace? || e.outcome.Omit? {
      var edit := if e.outcome.Replace? then Set(e.outcome.value) else Remove;
      FoundLands(root, segs, edit);
      LookAfterApply(root, segs, edit);
      forall q | Disjoint(segs, q) ensures Look(Apply(root, segs, edit), q) == Look(root, q) {
        ApplyFrame(root, segs, edit, q);
      }
    }
  }

  /** A field that is not there is left alone, whatever the stages. */
  lemma MissingFieldLeftAlone(env: Env, rule: FieldRule, phase: DispatchPhase, side: Side, s: State)
    requires Open(side, phase, s) && Look(Root(s.payload, side), Segments(rule.field)).None?
    ensures RunRules(env, [rule], phase, side, s) == Walked(Continue, s)
  {
    OneRule(env, rule, phase, side, s);
  }

  // ---- The halves of a route as one list of effects.

  /** A field rule as an effect of its own attribution. */
  function RuleEffect(side: Side, rule: FieldRule): Effect {
    When(Always, [FieldOp(PathOf(side, rule.field), rule.stages)], rule.source)
  }

  function RuleEffects(side: Side, rules: seq<FieldRule>): (effects: seq<Effect>)
    ensures |effects| == |rules| && forall i :: 0 <= i < |rules| ==> effects[i] == RuleEffect(side, rules[i])
  {
    seq(|rules|, i requires 0 <= i < |rules| => RuleEffect(side, rules[i]))
  }

  lemma RuleEffectWalks(env: Env, side: Side, rule: FieldRule, source: string, phase: DispatchPhase, s: State)
    ensures Dispatch(env, RuleEffect(side, rule), source, phase, s)
         == if Open(side, phase, s) then RunOnField(env, rule.field, rule.stages, rule.source, phase, side, s) else Walked(Continue, s)
  {
    var op := FieldOp(PathOf(side, rule.field), rule.stages);
    FieldOpIsARule(env, side, rule.field, rule.stages, rule.source, phase, s);
    if Open(side, phase, s) {
      OneRule(env, rule, phase, side, s);
    }
    OneEffect(env, op, rule.source, phase, s);
  }

  lemma {:induction false} RulesAreEffects(env: Env, side: Side, rules: seq<FieldRule>, source: string, phase: DispatchPhase, s: State)
    ensures DispatchAll(env, RuleEffects(side, rules), source, phase, s)
         == if Open(side, phase, s) then RunRules(env, rules, phase, side, s) else Walked(Continue, s)
    decreases |rules|
  {
    if rules != [] {
      assert RuleEffects(side, rules)[1..] == RuleEffects(side, rules[1..]);
      RuleEffectWalks(env, side, rules[0], source, phase, s);
      var first := Dispatch(env, RuleEffects(side, rules)[0], source, phase, s);
      if Open(side, phase, s) {
        FieldFollows(env, rules[0].field, rules[0].stages, rules[0].source, phase, side, s);
      }
      RulesAreEffects(env, side, rules[1..], source, phase, first.state);
    }
  }

  /** Each half of a route is one walk: its field rules as effects, and its policy behind them. */
  lemma HalvesAreWalks(env: Env, route: CompiledRoute, s: State)
    ensures PreWalk(env, route, s) == DispatchAll(env, RuleEffects(ArgsSide, route.args) + route.policy, "", Pre, s)
    ensures PostWalk(env, route, s) == DispatchAll(env, RuleEffects(ResultSide, route.result) + route.postPolicy, "", Post, s)
  {
    DispatchConcat(env, RuleEffects(ArgsSide, route.args), route.policy, "", Pre, s);
    RulesAreEffects(env, ArgsSide, route.args, "", Pre, s);
    DispatchConcat(env, RuleEffects(ResultSide, route.result), route.postPolicy, "", Post, s);
    RulesAreEffects(env, ResultSide, route.result, "", Post, s);
  }
}
