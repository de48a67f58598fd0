/** `evaluate_rules`: the synchronous pass that looks at control effects only. */
module FastPath {
  import opened Prelude
  import opened Attributes
  import opened Policy
  import opened Host
  import opened Evaluator
  import Predicates

  predicate IsControl(e: Effect) { e.Allow? || e.Deny? }

  /** The control effects of a body, in order. */
  function Control(body: seq<Effect>): (kept: seq<Effect>)
    ensures (forall i :: 0 <= i < |body| ==> IsControl(body[i])) ==> kept == body
  {
    if body == [] then []
    else
      var rest := Control(body[1..]);
      assert body == [body[0]] + body[1..];
      if IsControl(body[0]) then [body[0]] + rest else rest
  }

  /** The rules as gated bodies with everything but control stripped. */
  function Skeleton(rules: seq<Rule>): seq<Effect> {
    seq(|rules|, i requires 0 <= i < |rules| => rules[i].(effects := Control(rules[i].effects)).AsEffect())
  }

  function BodyDeny(body: seq<Effect>, source: string): (deny: Option<Decision>)
    ensures deny.Some? ==> deny.value.Denied?
  {
    if body == [] then None
    else if body[0].Deny? then
      Some(Denied(if body[0].reason.None? then None else Some(Authored(body[0].reason.value)), body[0].code.GetOr(source)))
    else BodyDeny(body[1..], source)
  }

  function FirstDeny(f64: Predicates.ParseF64, rules: seq<Rule>, bag: Bag): Decision {
    if rules == [] then Allowed
    else
      var deny := if Predicates.Eval(f64, rules[0].condition, bag) then BodyDeny(rules[0].effects, rules[0].source) else None;
      deny.GetOr(FirstDeny(f64, rules[1..], bag))
  }

  method EvaluateRules(f64: Predicates.ParseF64, rules: seq<Rule>, bag: Bag) returns (decision: Decision)
    ensures decision == FirstDeny(f64, rules, bag)
  {
    for i := 0 to |rules|
      invariant FirstDeny(f64, rules, bag) == FirstDeny(f64, rules[i..], bag)
    {
      var rule := rules[i];
      assert rules[i..][0] == rule && rules[i..][1..] == rules[i + 1..];
      if Predicates.Eval(f64, rule.condition, bag) {
        for k := 0 to |rule.effects|
          invariant BodyDeny(rule.effects, rule.source) == BodyDeny(rule.effects[k..], rule.source)
        {
          assert rule.effects[k..][1..] == rule.effects[k + 1..];
          var e := rule.effects[k];
          if e.Deny? {
            return Denied(if e.reason.None? then None else Some(Authored(e.reason.value)), e.code.GetOr(rule.source));
          }
        }
      }
    }
    return Allowed;
  }

  lemma {:induction false} ControlBody(env: Env, body: seq<Effect>, source: string, phase: DispatchPhase, s: State)
    ensures var deny := BodyDeny(body, source);
            DispatchAll(env, Control(body), source, phase, s) == Walked(if deny.Some? then Halt(deny.value) else Continue, s)
  {
    if body != [] {
      ControlBody(env, body[1..], source, phase, s);
      var kept := Control(body);
      if IsControl(body[0]) {
        assert kept[0] == body[0] && kept[1..] == Control(body[1..]);
      }
    }
  }

  lemma GatedBody(env: Env, e: Effect, phase: DispatchPhase, s: State)
    requires e.When?
    ensures Dispatch(env, e, "", phase, s) ==
              if Predicates.Eval(env.f64, e.condition, s.bag) then DispatchAll(env, e.body, e.source, phase, s) else Walked(Continue, s)
  {
  }

  /** The fast path decides what the full walk decides on the rules with their other effects left out, and nothing more. */
  lemma {:induction false} FastPathWalksSkeleton(env: Env, rules: seq<Rule>, phase: DispatchPhase, s: State)
    ensures var decision := FirstDeny(env.f64, rules, s.bag);
            DispatchAll(env, Skeleton(rules), "", phase, s) == Walked(if decision.Denied? then Halt(decision) else Continue, s)
  {
    if rules != [] {
      FastPathWalksSkeleton(env, rules[1..], phase, s);
      var first := When(rules[0].condition, Control(rules[0].effects), rules[0].source);
      assert Skeleton(rules)[0] == first && Skeleton(rules)[1..] == Skeleton(rules[1..]);
      GatedBody(env, first, phase, s);
      ControlBody(env, rules[0].effects, rules[0].source, phase, s);
    }
  }

  /** On rules that only allow and deny it is the full walk. */
  lemma FastPathIsTheWalk(env: Env, rules: seq<Rule>, phase: DispatchPhase, s: State)
    requires forall i, k :: 0 <= i < |rules| && 0 <= k < |rules[i].effects| ==> IsControl(rules[i].effects[k])
    ensures var effects := seq(|rules|, i requires 0 <= i < |rules| => rules[i].AsEffect());
            var decision := FirstDeny(env.f64, rules, s.bag);
            DispatchAll(env, effects, "", phase, s) == Walked(if decision.Denied? then Halt(decision) else Continue, s)
  {
    var effects := seq(|rules|, i requires 0 <= i < |rules| => rules[i].AsEffect());
    FastPathWalksSkeleton(env, rules, phase, s);
    forall i | 0 <= i < |rules| ensures effects[i] == Skeleton(rules)[i] {
      assert Control(rules[i].effects) == rules[i].effects;
    }
    assert effects == Skeleton(rules);
  }
}
