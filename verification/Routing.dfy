/** The router's side: `CandidateConstraintExtension::accepts`, asked of each backend. */
module Routing {
  import opened Prelude
  import opened ConstraintFold

  /** Some pattern matches the model. */
  method AnyMatches(patterns: seq<string>, glob: Matcher, model: string) returns (found: bool)
    ensures found <==> exists pat :: pat in patterns && glob(pat, model)
  {
    for i := 0 to |patterns|
      invariant forall k :: 0 <= k < i ==> !glob(patterns[k], model)
    {
      if glob(patterns[i], model) {
        return true;
      }
    }
    return false;
  }

  /** An allowed label is there with a listed value. */
  method HasListed(b: Backend, name: string, allow: Option<seq<string>>) returns (ok: bool)
    ensures ok <==> LabelAllowed(b, name, allow)
  {
    if allow.None? {
      return true;
    }
    if name !in b {
      return false;
    }
    return b[name] in allow.value;
  }

  method WithinCeilings(b: Backend, rank: Rank, ceilings: seq<string>) returns (ok: bool)
    ensures ok <==> forall tier :: tier in ceilings ==> WithinTier(b, rank, tier)
  {
    if ceilings == [] {
      return true;
    }
    assert ceilings[0] in ceilings;
    if "cost_tier" !in b {
      return false;
    }
    var own := rank(b["cost_tier"]);
    if own.None? {
      return false;
    }
    for i := 0 to |ceilings|
      invariant forall k :: 0 <= k < i ==> WithinTier(b, rank, ceilings[k])
    {
      var ceiling := rank(ceilings[i]);
      if ceiling.None? || own.value > ceiling.value {
        assert !WithinTier(b, rank, ceilings[i]);
        return false;
      }
    }
    return true;
  }

  method HasLabels(b: Backend, custom: map<string, string>) returns (ok: bool)
    ensures ok <==> CarriesLabels(b, custom)
  {
    var left := custom.Keys;
    while left != {}
      invariant left <= custom.Keys
      invariant forall k :: k in custom && k !in left ==> k in b && b[k] == custom[k]
      decreases left
    {
      var k :| k in left;
      if k !in b || b[k] != custom[k] {
        return false;
      }
      left := left - {k};
    }
    return true;
  }

  /** The router's loop accepts exactly the backends the extension means. */
  method RouterAccepts(ext: Extension, b: Backend, glob: Matcher, rank: Rank) returns (accepted: bool)
    ensures accepted <==> Accepts(ext, b, glob, rank)
  {
    if ext.allowModels.Some? {
      if "model" !in b {
        return false;
      }
      var allowed := AnyMatches(ext.allowModels.value, glob, b["model"]);
      if !allowed {
        return false;
      }
    }
    if "model" in b {
      var denied := AnyMatches(ext.denyModels, glob, b["model"]);
      if denied {
        return false;
      }
    }
    var ok := HasListed(b, "region", ext.allowRegions);
    if !ok {
      return false;
    }
    ok := HasListed(b, "site", ext.allowSites);
    if !ok {
      return false;
    }
    ok := WithinCeilings(b, rank, ext.maxCostTiers);
    if !ok {
      return false;
    }
    accepted := HasLabels(b, ext.custom);
  }

  /** Below every ceiling is below the lowest of them, when the host ranks them all. */
  lemma LowestCeilingDecides(b: Backend, rank: Rank, ceilings: seq<string>, lowest: string)
    requires lowest in ceilings && rank(lowest).Some?
    requires forall tier :: tier in ceilings ==> rank(tier).Some? && rank(lowest).value <= rank(tier).value
    ensures (forall tier :: tier in ceilings ==> WithinTier(b, rank, tier)) <==>
            "cost_tier" in b && rank(b["cost_tier"]).Some? && rank(b["cost_tier"]).value <= rank(lowest).value
  {
    assert WithinTier(b, rank, lowest) <==>
           "cost_tier" in b && rank(b["cost_tier"]).Some? && rank(b["cost_tier"]).value <= rank(lowest).value;
  }

  /** It fails closed: what is constrained and missing, or cannot be ranked, excludes the backend. */
  lemma MissingIsExcluded(ext: Extension, b: Backend, glob: Matcher, rank: Rank)
    requires || (ext.allowModels.Some? && "model" !in b)
             || (ext.allowRegions.Some? && "region" !in b)
             || (ext.allowSites.Some? && "site" !in b)
             || (ext.maxCostTiers != [] && ("cost_tier" !in b || rank(b["cost_tier"]).None?))
             || (exists tier :: tier in ext.maxCostTiers && rank(tier).None?)
             || (exists k :: k in ext.custom && k !in b)
    ensures !Accepts(ext, b, glob, rank)
  {
    if ext.maxCostTiers != [] {
      assert ext.maxCostTiers[0] in ext.maxCostTiers;
    }
  }
}
