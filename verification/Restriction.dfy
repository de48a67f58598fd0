/** From what an author writes under `restrict:` to the backends a request may still use. */
module Restriction {
  import opened Prelude
  import opened Attributes
  import opened Policy
  import opened Host
  import opened Constraint
  import opened ConstraintFold
  import opened Evaluator
  import opened EffectInvariants
  import Conditions

  /** `x` is listed: written out, or in the set the path holds, or the one string it holds. */
  ghost predicate Lists(spec: StringSetSpec, bag: Bag, x: string) {
    match spec
    case Literal(items) => exists i :: 0 <= i < |items| && items[i] == x
    case Ref(path) =>
      || Conditions.ValueAt(bag, path) == Some(AString(x))
      || exists elems :: Conditions.ValueAt(bag, path) == Some(AStringSet(elems)) && x in elems
  }

  /** A written list always resolves; a path when it holds a set or a string. */
  ghost predicate Resolves(spec: StringSetSpec, bag: Bag) {
    spec.Ref? ==>
      || (exists s :: Conditions.ValueAt(bag, spec.path) == Some(AString(s)))
      || exists elems :: Conditions.ValueAt(bag, spec.path) == Some(AStringSet(elems))
  }

  /** The backends the author's text lets a request use. */
  ghost predicate Admits(spec: RestrictSpec, bag: Bag, b: Backend, glob: Matcher, rank: Rank) {
    && (spec.allowModels.Some? ==>
          "model" in b && exists pat :: Lists(spec.allowModels.value, bag, pat) && glob(pat, b["model"]))
    && (spec.denyModels.Some? && "model" in b ==>
          forall pat :: Lists(spec.denyModels.value, bag, pat) ==> !glob(pat, b["model"]))
    && (spec.allowRegions.Some? ==> "region" in b && Lists(spec.allowRegions.value, bag, b["region"]))
    && (spec.allowSites.Some? ==> "site" in b && Lists(spec.allowSites.value, bag, b["site"]))
    && (spec.maxCostTier.Some? ==> WithinTier(b, rank, spec.maxCostTier.value))
    && CarriesLabels(b, spec.custom)
  }

  // ---- Resolving one restriction.

  lemma SetExactly(spec: StringSetSpec, bag: Bag)
    ensures var items := ResolveSet(spec, bag);
            && (items.Some? <==> Resolves(spec, bag))
            && forall x :: x in items.GetOr([]) <==> Lists(spec, bag, x)
  {
  }

  /** An allow-list stands in the constraint exactly when it is written, holding what it lists: nothing when it does not resolve. */
  lemma AllowExactly(spec: Option<StringSetSpec>, bag: Bag)
    ensures var allow := ResolveAllow(spec, bag);
            && (allow.Some? <==> spec.Some?)
            && (allow.Some? ==> forall x :: x in allow.value <==> Lists(spec.value, bag, x))
  {
    if spec.Some? {
      SetExactly(spec.value, bag);
    }
  }

  /** It fails exactly on a deny-list that does not resolve, naming its path; otherwise every field is what its own text says. */
  lemma ResolveExactly(spec: RestrictSpec, bag: Bag)
    ensures var c := Resolve(spec, bag);
            && (c.Err? <==> spec.denyModels.Some? && !Resolves(spec.denyModels.value, bag))
            && (c.Err? ==> spec.denyModels.value == Ref(c.error))
            && (c.Ok? ==>
                  && (c.value.allowModels.Some? <==> spec.allowModels.Some?)
                  && (c.value.allowRegions.Some? <==> spec.allowRegions.Some?)
                  && (c.value.allowSites.Some? <==> spec.allowSites.Some?)
                  && (spec.allowModels.Some? ==> forall x :: x in c.value.allowModels.value <==> Lists(spec.allowModels.value, bag, x))
                  && (spec.allowRegions.Some? ==> forall x :: x in c.value.allowRegions.value <==> Lists(spec.allowRegions.value, bag, x))
                  && (spec.allowSites.Some? ==> forall x :: x in c.value.allowSites.value <==> Lists(spec.allowSites.value, bag, x))
                  && (forall x :: x in c.value.denyModels <==> spec.denyModels.Some? && Lists(spec.denyModels.value, bag, x))
                  && c.value.maxCostTier == spec.maxCostTier && c.value.custom == spec.custom && c.value.onEmpty == spec.onEmpty)
  {
    AllowExactly(spec.allowModels, bag);
    AllowExactly(spec.allowRegions, bag);
    AllowExactly(spec.allowSites, bag);
    if spec.denyModels.Some? {
      SetExactly(spec.denyModels.value, bag);
    }
  }

  /** What a restriction resolves to leaves eligible exactly the backends its text admits. */
  lemma EligibleExactly(spec: RestrictSpec, bag: Bag, b: Backend, glob: Matcher, rank: Rank)
    requires Resolve(spec, bag).Ok?
    ensures Eligible(Resolve(spec, bag).value, b, glob, rank) <==> Admits(spec, bag, b, glob, rank)
  {
    ResolveExactly(spec, bag);
  }

  /** An allow-list that does not resolve admits no backend at all. */
  lemma UnresolvedAdmitsNothing(spec: RestrictSpec, bag: Bag, b: Backend, glob: Matcher, rank: Rank)
    requires || (spec.allowModels.Some? && !Resolves(spec.allowModels.value, bag))
             || (spec.allowRegions.Some? && !Resolves(spec.allowRegions.value, bag))
             || (spec.allowSites.Some? && !Resolves(spec.allowSites.value, bag))
    ensures !Admits(spec, bag, b, glob, rank)
  {
  }

  /** Only a constraint that asks nothing is left out, so the walk's constraints ask what the text asks. */
  lemma RestrictStep(env: Env, spec: RestrictSpec, source: string, phase: DispatchPhase, s: State, b: Backend, glob: Matcher, rank: Rank)
    ensures var w := Dispatch(env, Restrict(spec), source, phase, s);
            && (w.outcome.Continue? <==> spec.denyModels.None? || Resolves(spec.denyModels.value, s.bag))
            && (!w.outcome.Continue? ==> w == Walked(Evaluator.Refuse(RestrictUnresolved(spec.denyModels.value.path), source), s))
            && (w.outcome.Continue? ==>
                  && w.state == s.(constraints := w.state.constraints)
                  && (AllEligible(w.state.constraints, b, glob, rank) <==>
                        AllEligible(s.constraints, b, glob, rank) && Admits(spec, s.bag, b, glob, rank)))
  {
    ResolveExactly(spec, s.bag);
    var resolved := Resolve(spec, s.bag);
    if resolved.Ok? {
      EligibleExactly(spec, s.bag, b, glob, rank);
      OneMore(s.constraints, resolved.value, b, glob, rank);
    }
  }

  predicate AllEligible(cs: seq<CandidateConstraint>, b: Backend, glob: Matcher, rank: Rank) {
    forall i :: 0 <= i < |cs| ==> Eligible(cs[i], b, glob, rank)
  }

  lemma OneMore(cs: seq<CandidateConstraint>, c: CandidateConstraint, b: Backend, glob: Matcher, rank: Rank)
    ensures AllEligible(cs + [c], b, glob, rank) <==> AllEligible(cs, b, glob, rank) && Eligible(c, b, glob, rank)
  {
    var all := cs + [c];
    assert all[|cs|] == c && forall i :: 0 <= i < |cs| ==> all[i] == cs[i];
  }

  /**
   * A restriction holds however the request goes on: once a walk has got past it, whatever is folded in
   * the end, at this effect or any later one, accepts only backends its text admitted on the bag it met.
   */
  lemma RestrictionHolds(
    env: Env, before: seq<Effect>, spec: RestrictSpec, after: seq<Effect>, source: string, phase: DispatchPhase, s: State,
    ext: Extension, b: Backend, glob: Matcher, rank: Rank)
    requires var met := DispatchAll(env, before, source, phase, s);
             met.outcome.Continue? && (spec.denyModels.None? || Resolves(spec.denyModels.value, met.state.bag))
    requires IsFold(DispatchAll(env, before + [Restrict(spec)] + after, source, phase, s).state.constraints, ext)
    requires Accepts(ext, b, glob, rank)
    ensures Admits(spec, DispatchAll(env, before, source, phase, s).state.bag, b, glob, rank)
  {
    var met := DispatchAll(env, before, source, phase, s).state;
    DispatchConcat(env, before + [Restrict(spec)], after, source, phase, s);
    DispatchConcat(env, before, [Restrict(spec)], source, phase, s);
    OneEffect(env, Restrict(spec), source, phase, met);
    RestrictStep(env, spec, source, phase, met, b, glob, rank);
    var past := Dispatch(env, Restrict(spec), source, phase, met).state;
    DispatchAllFollows(env, after, source, phase, past);
    var end := DispatchAll(env, before + [Restrict(spec)] + after, source, phase, s).state;
    assert past.constraints <= end.constraints;
    FoldNeverWidens(end.constraints, ext, b, glob, rank);
    assert forall i :: 0 <= i < |past.constraints| ==> past.constraints[i] == end.constraints[i];
  }

  function Restricts(specs: seq<RestrictSpec>): (effects: seq<Effect>)
    ensures |effects| == |specs| && forall i :: 0 <= i < |specs| ==> effects[i] == Restrict(specs[i])
  {
    seq(|specs|, i requires 0 <= i < |specs| => Restrict(specs[i]))
  }

  /** A list of restrictions asks exactly what their texts ask together. */
  lemma {:induction false} RestrictionsExactly(
    env: Env, specs: seq<RestrictSpec>, source: string, phase: DispatchPhase, s: State, b: Backend, glob: Matcher, rank: Rank)
    ensures var w := DispatchAll(env, Restricts(specs), source, phase, s);
            && (w.outcome.Continue? <==>
                  forall i :: 0 <= i < |specs| ==> specs[i].denyModels.None? || Resolves(specs[i].denyModels.value, s.bag))
            && (w.outcome.Continue? ==>
                  && w.state.bag == s.bag
                  && (AllEligible(w.state.constraints, b, glob, rank) <==>
                        && AllEligible(s.constraints, b, glob, rank)
                        && forall i :: 0 <= i < |specs| ==> Admits(specs[i], s.bag, b, glob, rank)))
    decreases |specs|
  {
    if specs != [] {
      var first := Dispatch(env, Restrict(specs[0]), source, phase, s);
      RestrictStep(env, specs[0], source, phase, s, b, glob, rank);
      assert Restricts(specs)[1..] == Restricts(specs[1..]);
      if first.outcome.Continue? {
        RestrictionsExactly(env, specs[1..], source, phase, first.state, b, glob, rank);
        assert forall i :: 0 < i < |specs| ==> specs[i] == specs[1..][i - 1];
        assert forall i :: 0 <= i < |specs| - 1 ==> specs[1..][i] == specs[i + 1];
      }
    }
  }
}
