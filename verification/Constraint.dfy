/** The `restrict` effect's constraint: what it is written as, and what it resolves to for one request. */
module Constraint {
  import opened Prelude
  import opened Attributes
  import opened SortedSets

  datatype OnEmpty = Deny | Fallback

  datatype CandidateConstraint = CandidateConstraint(
    allowModels: Option<seq<string>>,
    denyModels: seq<string>,
    allowRegions: Option<seq<string>>,
    allowSites: Option<seq<string>>,
    maxCostTier: Option<string>,
    custom: map<string, string>,
    onEmpty: OnEmpty)
  {
    predicate IsEmpty() {
      && allowModels.None? && denyModels == [] && allowRegions.None? && allowSites.None?
      && maxCostTier.None? && custom == map[]
    }
  }

  /** A string-set field as written: a literal list, or a path into the request's bag. */
  datatype StringSetSpec = Ref(path: string) | Literal(items: seq<string>)

  datatype RestrictSpec = RestrictSpec(
    allowModels: Option<StringSetSpec>,
    denyModels: Option<StringSetSpec>,
    allowRegions: Option<StringSetSpec>,
    allowSites: Option<StringSetSpec>,
    maxCostTier: Option<string>,
    custom: map<string, string>,
    onEmpty: OnEmpty)

  function ResolveSet(spec: StringSetSpec, bag: Bag): Option<seq<string>> {
    match spec
    case Literal(items) => Some(items)
    case Ref(path) =>
      var key := Expand(bag, path);
      if key.None? then None
      else
        match Get(bag, key.value)
        case Some(AStringSet(elems)) => Some(Sorted(elems))
        case Some(AString(s)) => Some([s])
        case _ => None
  }

  /** An allow-list that does not resolve shrinks to the empty list, which no backend is in. */
  function ResolveAllow(spec: Option<StringSetSpec>, bag: Bag): Option<seq<string>> {
    if spec.None? then None else Some(ResolveSet(spec.value, bag).GetOr([]))
  }

  /** Fails exactly on a deny-list that does not resolve, which names the path. */
  function Resolve(spec: RestrictSpec, bag: Bag): Result<CandidateConstraint, string> {
    var deny := if spec.denyModels.None? then Some([]) else ResolveSet(spec.denyModels.value, bag);
    if deny.None? then Err(if spec.denyModels.value.Ref? then spec.denyModels.value.path else "")
    else
      Ok(CandidateConstraint(
           ResolveAllow(spec.allowModels, bag), deny.value,
           ResolveAllow(spec.allowRegions, bag), ResolveAllow(spec.allowSites, bag),
           spec.maxCostTier, spec.custom, spec.onEmpty))
  }
}
