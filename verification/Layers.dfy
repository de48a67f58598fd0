/** Stacking policy layers from least to most specific: `CompiledRoute::apply_layer`. */
module Layers {
  import opened Prelude
  import opened Policy
  import opened Host
  import opened Evaluator
  import opened EffectInvariants

  /** The rules whose field a later layer does not declare. */
  function Retain(rules: seq<FieldRule>, fields: set<string>): (kept: seq<FieldRule>)
    ensures forall r :: r in kept ==> r in rules && r.field !in fields
  {
    if rules == [] then []
    else if rules[0].field in fields then Retain(rules[1..], fields)
    else [rules[0]] + Retain(rules[1..], fields)
  }

  function Fields(rules: seq<FieldRule>): set<string> { set r | r in rules :: r.field }

  /** Per-field replacement: the later layer's rule wins. */
  function Override(rules: seq<FieldRule>, later: seq<FieldRule>): seq<FieldRule> {
    Retain(rules, Fields(later)) + later
  }

  /** The route with one more specific layer on top. */
  function Apply(base: CompiledRoute, layer: CompiledRoute): CompiledRoute {
    CompiledRoute(
      base.routeKey, Override(base.args, layer.args), base.policy + layer.policy, Override(base.result, layer.result),
      base.postPolicy + layer.postPolicy, base.pluginOverrides + layer.pluginOverrides, base.response)
  }

  /** The route under construction. */
  class RouteBuilder {
    const routeKey: string
    var args: seq<FieldRule>
    var policy: seq<Effect>
    var result: seq<FieldRule>
    var postPolicy: seq<Effect>
    var pluginOverrides: map<string, string>
    var response: Option<string>

    function View(): CompiledRoute
      reads this
    {
      CompiledRoute(routeKey, args, policy, result, postPolicy, pluginOverrides, response)
    }

    constructor (routeKey: string)
      ensures View() == CompiledRoute(routeKey, [], [], [], [], map[], None)
    {
      this.routeKey := routeKey;
      args, policy, result, postPolicy, pluginOverrides, response := [], [], [], [], map[], None;
    }

    method ApplyLayer(layer: CompiledRoute)
      modifies this
      ensures View() == Apply(old(View()), layer)
    {
      policy := policy + layer.policy;
      postPolicy := postPolicy + layer.postPolicy;
      args := RetainOthers(args, layer.args);
      args := args + layer.args;
      result := RetainOthers(result, layer.result);
      result := result + layer.result;
      pluginOverrides := pluginOverrides + layer.pluginOverrides;
    }
  }

  /** The retain loop. */
  method RetainOthers(rules: seq<FieldRule>, later: seq<FieldRule>) returns (kept: seq<FieldRule>)
    ensures kept == Retain(rules, Fields(later))
  {
    var fields := set r | r in later :: r.field;
    kept := [];
    for i := 0 to |rules|
      invariant kept + Retain(rules[i..], fields) == Retain(rules, fields)
    {
      assert rules[i..][0] == rules[i] && rules[i..][1..] == rules[i + 1..];
      if rules[i].field !in fields {
        assert kept + ([rules[i]] + Retain(rules[i + 1..], fields)) == kept + [rules[i]] + Retain(rules[i + 1..], fields);
        kept := kept + [rules[i]];
      }
    }
    assert kept + [] == kept;
  }

  // ---- Associativity.

  lemma {:induction false} RetainConcat(xs: seq<FieldRule>, ys: seq<FieldRule>, fields: set<string>)
    ensures Retain(xs + ys, fields) == Retain(xs, fields) + Retain(ys, fields)
  {
    if xs == [] {
      assert xs + ys == ys;
    } else {
      assert (xs + ys)[0] == xs[0] && (xs + ys)[1..] == xs[1..] + ys;
      RetainConcat(xs[1..], ys, fields);
    }
  }

  lemma {:induction false} RetainTwice(rules: seq<FieldRule>, a: set<string>, b: set<string>)
    ensures Retain(Retain(rules, a), b) == Retain(rules, a + b)
  {
    if rules != [] {
      RetainTwice(rules[1..], a, b);
      if rules[0].field !in a {
        var kept := Retain(rules, a);
        assert kept[0] == rules[0] && kept[1..] == Retain(rules[1..], a);
      }
    }
  }

  lemma {:induction false} RetainFields(rules: seq<FieldRule>, fields: set<string>)
    ensures Fields(Retain(rules, fields)) == Fields(rules) - fields
  {
    if rules != [] {
      RetainFields(rules[1..], fields);
      assert rules == [rules[0]] + rules[1..];
      assert Fields(rules) == {rules[0].field} + Fields(rules[1..]);
      if rules[0].field !in fields {
        assert Fields(Retain(rules, fields)) == {rules[0].field} + Fields(Retain(rules[1..], fields));
      }
    }
  }

  lemma FieldsConcat(xs: seq<FieldRule>, ys: seq<FieldRule>)
    ensures Fields(xs + ys) == Fields(xs) + Fields(ys)
  {
  }

  lemma OverrideAssociates(a: seq<FieldRule>, b: seq<FieldRule>, c: seq<FieldRule>)
    ensures Override(Override(a, b), c) == Override(a, Override(b, c))
  {
    var fb, fc := Fields(b), Fields(c);
    RetainConcat(Retain(a, fb), b, fc);
    RetainTwice(a, fb, fc);
    RetainFields(b, fc);
    FieldsConcat(Retain(b, fc), c);
    assert Fields(Override(b, c)) == fb + fc;
  }

  /** Stacking is associative: a layer may be merged into its neighbour on either side. */
  lemma ApplyAssociates(a: CompiledRoute, b: CompiledRoute, c: CompiledRoute)
    ensures Apply(Apply(a, b), c) == Apply(a, Apply(b, c))
  {
    OverrideAssociates(a.args, b.args, c.args);
    OverrideAssociates(a.result, b.result, c.result);
    assert a.policy + b.policy + c.policy == a.policy + (b.policy + c.policy);
    assert a.postPolicy + b.postPolicy + c.postPolicy == a.postPolicy + (b.postPolicy + c.postPolicy);
    assert a.pluginOverrides + b.pluginOverrides + c.pluginOverrides == a.pluginOverrides + (b.pluginOverrides + c.pluginOverrides);
  }

  // ---- Plugin overrides.

  /** The configuration the last of the layers with one for this plugin gives it. */
  function LastOverride(layers: seq<CompiledRoute>, name: string): Option<string>
    decreases |layers|
  {
    if layers == [] then None
    else
      var n := |layers| - 1;
      if name in layers[n].pluginOverrides then Some(layers[n].pluginOverrides[name]) else LastOverride(layers[..n], name)
  }

  lemma {:induction false} StackEnd(base: CompiledRoute, layers: seq<CompiledRoute>, last: CompiledRoute)
    ensures Stack(base, layers + [last]) == Apply(Stack(base, layers), last)
    decreases |layers|
  {
    var all := layers + [last];
    if layers == [] {
      assert all[1..] == [];
      assert Stack(Apply(base, last), []) == Apply(base, last);
    } else {
      assert all[0] == layers[0] && all[1..] == layers[1..] + [last];
      StackEnd(Apply(base, layers[0]), layers[1..], last);
    }
  }

  /** Through any stack a plugin keeps the override of the most specific layer that has one for it. */
  lemma {:induction false} MostSpecificOverride(base: CompiledRoute, layers: seq<CompiledRoute>, name: string)
    ensures var overrides := Stack(base, layers).pluginOverrides;
            (if name in overrides then Some(overrides[name]) else None) == LastOverride([base] + layers, name)
    decreases |layers|
  {
    var all := [base] + layers;
    if layers == [] {
      assert all[..0] == [];
    } else {
      var n := |layers| - 1;
      assert all[n + 1] == layers[n] && all[..n + 1] == [base] + layers[..n] && layers == layers[..n] + [layers[n]];
      StackEnd(base, layers[..n], layers[n]);
      MostSpecificOverride(base, layers[..n], name);
    }
  }

  // ---- One rule per field.

  predicate UniqueFields(rules: seq<FieldRule>) {
    forall i, j :: 0 <= i < j < |rules| ==> rules[i].field != rules[j].field
  }

  lemma {:induction false} RetainUnique(rules: seq<FieldRule>, fields: set<string>)
    requires UniqueFields(rules)
    ensures UniqueFields(Retain(rules, fields))
  {
    if rules != [] {
      assert UniqueFields(rules[1..]);
      RetainUnique(rules[1..], fields);
      var rest := Retain(rules[1..], fields);
      forall r | r in rest ensures r.field != rules[0].field {
        var i :| 0 <= i < |rules[1..]| && rules[1..][i] == r;
        assert rules[i + 1] == r;
      }
      if rules[0].field !in fields {
        assert Retain(rules, fields) == [rules[0]] + rest;
      }
    }
  }

  lemma OverrideUnique(rules: seq<FieldRule>, later: seq<FieldRule>)
    requires UniqueFields(rules) && UniqueFields(later)
    ensures UniqueFields(Override(rules, later))
  {
    var fields := Fields(later);
    RetainUnique(rules, fields);
    var kept := Retain(rules, fields);
    forall i, j | 0 <= i < j < |kept + later| ensures (kept + later)[i].field != (kept + later)[j].field {
      if i < |kept| <= j {
        assert (kept + later)[i] in kept && (kept + later)[j] in later;
      }
    }
  }

  /** The rules after an override: the later layer's, and the earlier ones for fields it does not declare. */
  lemma OverrideWins(rules: seq<FieldRule>, later: seq<FieldRule>, r: FieldRule)
    ensures r in Override(rules, later) <==> r in later || (r in rules && r.field !in Fields(later))
  {
    RetainKeeps(rules, Fields(later), r);
  }

  lemma {:induction false} RetainKeeps(rules: seq<FieldRule>, fields: set<string>, r: FieldRule)
    ensures r in Retain(rules, fields) <==> r in rules && r.field !in fields
  {
    if rules != [] {
      RetainKeeps(rules[1..], fields, r);
      assert rules == [rules[0]] + rules[1..];
    }
  }

  function Stack(base: CompiledRoute, layers: seq<CompiledRoute>): CompiledRoute
    decreases |layers|
  {
    if layers == [] then base else Stack(Apply(base, layers[0]), layers[1..])
  }

  predicate Unambiguous(route: CompiledRoute) { UniqueFields(route.args) && UniqueFields(route.result) }

  /** Any stack of layers with one rule per field keeps one rule per field, the route's key and its own deny response. */
  lemma {:induction false} StackKeeps(base: CompiledRoute, layers: seq<CompiledRoute>)
    requires Unambiguous(base) && forall layer :: layer in layers ==> Unambiguous(layer)
    ensures var stacked := Stack(base, layers);
            Unambiguous(stacked) && stacked.routeKey == base.routeKey && stacked.response == base.response
    decreases |layers|
  {
    if layers != [] {
      assert Unambiguous(layers[0]);
      OverrideUnique(base.args, layers[0].args);
      OverrideUnique(base.result, layers[0].result);
      StackKeeps(Apply(base, layers[0]), layers[1..]);
    }
  }

  // ---- Earlier layers decide first.

  lemma {:induction false} StackExtends(base: CompiledRoute, layers: seq<CompiledRoute>)
    returns (policy: seq<Effect>, postPolicy: seq<Effect>)
    ensures Stack(base, layers).policy == base.policy + policy
    ensures Stack(base, layers).postPolicy == base.postPolicy + postPolicy
    decreases |layers|
  {
    if layers == [] {
      policy, postPolicy := [], [];
      assert base.policy + [] == base.policy && base.postPolicy + [] == base.postPolicy;
    } else {
      policy, postPolicy := StackExtends(Apply(base, layers[0]), layers[1..]);
      policy, postPolicy := layers[0].policy + policy, layers[0].postPolicy + postPolicy;
      assert base.policy + policy == base.policy + layers[0].policy + policy[|layers[0].policy|..];
      assert base.postPolicy + postPolicy == base.postPolicy + layers[0].postPolicy + postPolicy[|layers[0].postPolicy|..];
    }
  }

  /**
   * A deny or a suspension reached by the policy of the layers so far is the outcome, with the same
   * labels, constraints and payload, whatever more specific layers append.
   */
  lemma EarlierLayersDecide(env: Env, base: CompiledRoute, layers: seq<CompiledRoute>, phase: DispatchPhase, s: State)
    ensures var stacked := Stack(base, layers);
            var earlier := DispatchAll(env, if phase.Pre? then base.policy else base.postPolicy, "", phase, s);
            !earlier.outcome.Continue? ==>
              DispatchAll(env, if phase.Pre? then stacked.policy else stacked.postPolicy, "", phase, s) == earlier
  {
    var policy, postPolicy := StackExtends(base, layers);
    DispatchConcat(env, base.policy, policy, "", phase, s);
    DispatchConcat(env, base.postPolicy, postPolicy, "", phase, s);
  }
}
