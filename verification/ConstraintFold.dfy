/** Folding a request's constraints into the one extension the host router matches backends against. */
module ConstraintFold {
  import opened Prelude
  import opened SortedSets
  import opened Constraint
  import Glob

  datatype ConstraintConflict = ConstraintConflict(key: string, existing: string, incoming: string)

  datatype Extension = Extension(
    allowModels: Option<seq<string>>,
    denyModels: seq<string>,
    allowRegions: Option<seq<string>>,
    allowSites: Option<seq<string>>,
    maxCostTiers: seq<string>,
    custom: map<string, string>,
    onEmpty: OnEmpty)
  {
    predicate IsEmpty() {
      && allowModels.None? && denyModels == [] && allowRegions.None? && allowSites.None?
      && maxCostTiers == [] && custom == map[]
    }
  }

  type Lists = seq<Option<seq<string>>>

  /** `folded` lists, in order, what every allow-list present has in common; absent when none is present. */
  ghost predicate IsCommon(lists: Lists, folded: Option<seq<string>>) {
    && (folded.None? <==> forall i :: 0 <= i < |lists| ==> lists[i].None?)
    && (folded.Some? ==>
          && Ascending(folded.value)
          && forall x :: x in folded.value <==> forall i :: 0 <= i < |lists| && lists[i].Some? ==> x in lists[i].value)
  }

  /** Narrow the running allow-list by one more; an absent list is the universe. */
  method IntersectInto(acc: Option<seq<string>>, incoming: Option<seq<string>>, ghost before: Lists)
    returns (narrowed: Option<seq<string>>)
    requires IsCommon(before, acc)
    ensures IsCommon(before + [incoming], narrowed)
  {
    ghost var lists := before + [incoming];
    assert forall i :: 0 <= i < |before| ==> lists[i] == before[i];
    if incoming.None? {
      return acc;
    }
    var wanted := set x | x in incoming.value;
    if acc.None? {
      assert lists[|before|].Some?;
      narrowed := Some(Sorted(wanted));
      return;
    }
    var kept: seq<string> := [];
    var existing := acc.value;
    for i := 0 to |existing|
      invariant Ascending(kept)
      invariant forall x :: x in kept <==> x in existing[..i] && x in wanted
    {
      if existing[i] in wanted {
        forall x | x in kept ensures Less(x, existing[i]) {
          var j :| 0 <= j < i && existing[j] == x;
        }
        kept := kept + [existing[i]];
      }
    }
    assert existing[..|existing|] == existing;
    assert lists[|before|].Some?;
    return Some(kept);
  }

  function Strictest(a: OnEmpty, b: OnEmpty): OnEmpty {
    if a.Fallback? && b.Fallback? then Fallback else Deny
  }

  function Models(cs: seq<CandidateConstraint>): Lists { seq(|cs|, i requires 0 <= i < |cs| => cs[i].allowModels) }
  function Regions(cs: seq<CandidateConstraint>): Lists { seq(|cs|, i requires 0 <= i < |cs| => cs[i].allowRegions) }
  function Sites(cs: seq<CandidateConstraint>): Lists { seq(|cs|, i requires 0 <= i < |cs| => cs[i].allowSites) }

  ghost predicate Denied(cs: seq<CandidateConstraint>, model: string) {
    exists i :: 0 <= i < |cs| && model in cs[i].denyModels
  }

  ghost predicate Ceiling(cs: seq<CandidateConstraint>, tier: string) {
    exists i :: 0 <= i < |cs| && cs[i].maxCostTier == Some(tier)
  }

  ghost predicate Requires(cs: seq<CandidateConstraint>, key: string, value: string) {
    exists i :: 0 <= i < |cs| && key in cs[i].custom && cs[i].custom[key] == value
  }

  /** No custom key is required to hold two different values. */
  ghost predicate Consistent(cs: seq<CandidateConstraint>) {
    forall key, v, w :: Requires(cs, key, v) && Requires(cs, key, w) ==> v == w
  }

  ghost predicate IsCustom(cs: seq<CandidateConstraint>, custom: map<string, string>) {
    && (forall key :: key in custom ==> Requires(cs, key, custom[key]))
    && (forall key, v :: Requires(cs, key, v) ==> key in custom && custom[key] == v)
  }

  /** What the folded extension must be, field by field, as a property of the inputs taken together. */
  ghost predicate IsFold(cs: seq<CandidateConstraint>, ext: Extension) {
    && IsCommon(Models(cs), ext.allowModels)
    && IsCommon(Regions(cs), ext.allowRegions)
    && IsCommon(Sites(cs), ext.allowSites)
    && Ascending(ext.denyModels) && (forall x :: x in ext.denyModels <==> Denied(cs, x))
    && Ascending(ext.maxCostTiers) && (forall x :: x in ext.maxCostTiers <==> Ceiling(cs, x))
    && IsCustom(cs, ext.custom)
    && (ext.onEmpty.Deny? <==> exists i :: 0 <= i < |cs| && cs[i].onEmpty.Deny?)
  }

  /** Add one constraint's custom labels to those required so far. */
  method AddCustom(custom: map<string, string>, c: CandidateConstraint, ghost before: seq<CandidateConstraint>)
    returns (outcome: Result<map<string, string>, ConstraintConflict>)
    requires IsCustom(before, custom)
    ensures outcome.Ok? ==> IsCustom(before + [c], outcome.value)
    ensures outcome.Err? ==> var e := outcome.error;
                             && Requires(before, e.key, e.existing) && e.key in c.custom
                             && c.custom[e.key] == e.incoming && e.existing != e.incoming
  {
    var all := custom;
    var todo := c.custom.Keys;
    while todo != {}
      invariant todo <= c.custom.Keys
      invariant all.Keys == custom.Keys + (c.custom.Keys - todo)
      invariant forall key :: key in custom ==> all[key] == custom[key]
      invariant forall key :: key in c.custom && key !in todo ==> all[key] == c.custom[key]
    {
      var key :| key in todo;
      if key in all {
        if all[key] != c.custom[key] {
          return Err(ConstraintConflict(key, all[key], c.custom[key]));
        }
      } else {
        all := all[key := c.custom[key]];
      }
      todo := todo - {key};
    }
    ghost var cs := before + [c];
    assert forall i :: 0 <= i < |before| ==> cs[i] == before[i];
    assert cs[|before|] == c;
    forall key | key in all ensures Requires(cs, key, all[key]) {
      if key in custom {
        var i :| 0 <= i < |before| && key in before[i].custom && before[i].custom[key] == custom[key];
        assert cs[i] == before[i];
      } else {
        assert key in cs[|before|].custom;
      }
    }
    forall key, v | Requires(cs, key, v) ensures key in all && all[key] == v {
      var i :| 0 <= i < |cs| && key in cs[i].custom && cs[i].custom[key] == v;
      if i < |before| {
        assert Requires(before, key, v);
      }
    }
    return Ok(all);
  }

  method FoldCandidateConstraints(cs: seq<CandidateConstraint>)
    returns (outcome: Result<Option<Extension>, ConstraintConflict>)
    ensures outcome.Ok? <==> Consistent(cs)
    ensures outcome.Ok? ==> exists ext :: IsFold(cs, ext) && outcome.value == if ext.IsEmpty() then None else Some(ext)
    ensures outcome.Err? ==> Requires(cs, outcome.error.key, outcome.error.existing)
                             && Requires(cs, outcome.error.key, outcome.error.incoming)
                             && outcome.error.existing != outcome.error.incoming
  {
    if cs == [] {
      ghost var nothing := Extension(None, [], None, None, [], map[], Fallback);
      assert IsFold(cs, nothing);
      return Ok(None);
    }
    var allowModels, allowRegions, allowSites := None, None, None;
    var denyModels: set<string> := {};
    var tiers: set<string> := {};
    var custom: map<string, string> := map[];
    var onEmpty := Fallback;
    for n := 0 to |cs|
      invariant IsCommon(Models(cs[..n]), allowModels)
      invariant IsCommon(Regions(cs[..n]), allowRegions)
      invariant IsCommon(Sites(cs[..n]), allowSites)
      invariant forall x :: x in denyModels <==> Denied(cs[..n], x)
      invariant forall x :: x in tiers <==> Ceiling(cs[..n], x)
      invariant IsCustom(cs[..n], custom)
      invariant onEmpty.Deny? <==> exists i :: 0 <= i < n && cs[i].onEmpty.Deny?
    {
      var c := cs[n];
      ghost var before := cs[..n];
      assert cs[..n + 1] == before + [c];
      assert Models(cs[..n + 1]) == Models(before) + [c.allowModels];
      assert Regions(cs[..n + 1]) == Regions(before) + [c.allowRegions];
      assert Sites(cs[..n + 1]) == Sites(before) + [c.allowSites];
      allowModels := IntersectInto(allowModels, c.allowModels, Models(before));
      allowRegions := IntersectInto(allowRegions, c.allowRegions, Regions(before));
      allowSites := IntersectInto(allowSites, c.allowSites, Sites(before));
      denyModels := denyModels + set x | x in c.denyModels;
      DeniedStep(before, c);
      if c.maxCostTier.Some? {
        tiers := tiers + {c.maxCostTier.value};
      }
      CeilingStep(before, c);
      var added := AddCustom(custom, c, before);
      if added.Err? {
        ConflictStands(cs, n, added.error);
        return Err(added.error);
      }
      custom := added.value;
      onEmpty := Strictest(onEmpty, c.onEmpty);
    }
    assert cs[..|cs|] == cs;
    var folded := Extension(allowModels, Sorted(denyModels), allowRegions, allowSites, Sorted(tiers), custom, onEmpty);
    assert IsFold(cs, folded);
    assert Consistent(cs);
    return Ok(if folded.IsEmpty() then None else Some(folded));
  }

  lemma DeniedStep(before: seq<CandidateConstraint>, c: CandidateConstraint)
    ensures forall x :: Denied(before + [c], x) <==> Denied(before, x) || x in c.denyModels
  {
    var cs := before + [c];
    assert cs[|before|] == c && forall i :: 0 <= i < |before| ==> cs[i] == before[i];
    forall x | Denied(before, x) ensures Denied(cs, x) {
      var i :| 0 <= i < |before| && x in before[i].denyModels;
      assert x in cs[i].denyModels;
    }
  }

  lemma CeilingStep(before: seq<CandidateConstraint>, c: CandidateConstraint)
    ensures forall x :: Ceiling(before + [c], x) <==> Ceiling(before, x) || c.maxCostTier == Some(x)
  {
    var cs := before + [c];
    assert cs[|before|] == c && forall i :: 0 <= i < |before| ==> cs[i] == before[i];
    forall x | Ceiling(before, x) ensures Ceiling(cs, x) {
      var i :| 0 <= i < |before| && before[i].maxCostTier == Some(x);
      assert cs[i].maxCostTier == Some(x);
    }
  }

  lemma ConflictStands(cs: seq<CandidateConstraint>, n: nat, e: ConstraintConflict)
    requires n < |cs| && Requires(cs[..n], e.key, e.existing)
    requires e.key in cs[n].custom && cs[n].custom[e.key] == e.incoming && e.existing != e.incoming
    ensures Requires(cs, e.key, e.existing) && Requires(cs, e.key, e.incoming)
    ensures !Consistent(cs)
  {
    var i :| 0 <= i < n && e.key in cs[..n][i].custom && cs[..n][i].custom[e.key] == e.existing;
    assert cs[i].custom[e.key] == e.existing;
  }

  /** The inputs determine the fold: it does not depend on the order they arrived in. */
  lemma FoldOrderIrrelevant(cs: seq<CandidateConstraint>, ds: seq<CandidateConstraint>, a: Extension, b: Extension)
    requires Permutation(cs, ds) && IsFold(cs, a) && IsFold(ds, b)
    ensures a == b
  {
    SameMembers(cs, ds);
    SameMembers(ds, cs);
    SameCommon(Models(cs), Models(ds), a.allowModels, b.allowModels);
    SameCommon(Regions(cs), Regions(ds), a.allowRegions, b.allowRegions);
    SameCommon(Sites(cs), Sites(ds), a.allowSites, b.allowSites);
    AscendingUnique(a.denyModels, b.denyModels);
    AscendingUnique(a.maxCostTiers, b.maxCostTiers);
    SameCustom(cs, ds, a.custom, b.custom);
  }

  lemma SameCustom(cs: seq<CandidateConstraint>, ds: seq<CandidateConstraint>, a: map<string, string>, b: map<string, string>)
    requires IsCustom(cs, a) && IsCustom(ds, b)
    requires forall k, v :: Requires(cs, k, v) <==> Requires(ds, k, v)
    ensures a == b
  {
    forall k | k in a ensures k in b && b[k] == a[k] {
      assert Requires(cs, k, a[k]);
    }
    forall k | k in b ensures k in a {
      assert Requires(ds, k, b[k]);
    }
  }

  /** What a permutation holds, its original holds: each field's members carry over. */
  lemma SameMembers(cs: seq<CandidateConstraint>, ds: seq<CandidateConstraint>)
    requires Permutation(cs, ds)
    ensures forall x :: Denied(cs, x) ==> Denied(ds, x)
    ensures forall x :: Ceiling(cs, x) ==> Ceiling(ds, x)
    ensures forall k, v :: Requires(cs, k, v) ==> Requires(ds, k, v)
    ensures (exists i :: 0 <= i < |cs| && cs[i].onEmpty.Deny?) ==> (exists i :: 0 <= i < |ds| && ds[i].onEmpty.Deny?)
    ensures forall l :: l in Models(cs) ==> l in Models(ds)
    ensures forall l :: l in Regions(cs) ==> l in Regions(ds)
    ensures forall l :: l in Sites(cs) ==> l in Sites(ds)
  {
    forall i | 0 <= i < |cs| ensures cs[i] in ds {
      assert cs[i] in multiset(ds);
    }
    forall i | 0 <= i < |cs|
      ensures cs[i].allowModels in Models(ds) && cs[i].allowRegions in Regions(ds) && cs[i].allowSites in Sites(ds)
    {
      var j :| 0 <= j < |ds| && ds[j] == cs[i];
      assert Models(ds)[j] == cs[i].allowModels && Regions(ds)[j] == cs[i].allowRegions && Sites(ds)[j] == cs[i].allowSites;
    }
  }

  lemma SameCommon(ls: Lists, ms: Lists, a: Option<seq<string>>, b: Option<seq<string>>)
    requires IsCommon(ls, a) && IsCommon(ms, b)
    requires forall l :: l in ls <==> l in ms
    ensures a == b
  {
    assert forall i :: 0 <= i < |ls| ==> ls[i] in ms;
    assert forall i :: 0 <= i < |ms| ==> ms[i] in ls;
    if a.Some? && b.Some? {
      forall x ensures x in a.value <==> x in b.value {
        assert x in a.value <==> forall l :: l in ls && l.Some? ==> x in l.value;
        assert x in b.value <==> forall l :: l in ms && l.Some? ==> x in l.value;
      }
      AscendingUnique(a.value, b.value);
    }
  }

  /** Any order of the inputs conflicts, or none does. */
  lemma ConsistentOrderIrrelevant(cs: seq<CandidateConstraint>, ds: seq<CandidateConstraint>)
    requires Permutation(cs, ds)
    ensures Consistent(cs) <==> Consistent(ds)
  {
    SameMembers(cs, ds);
    SameMembers(ds, cs);
  }

  // ---- What the constraints mean: the backends they leave eligible.

  type Backend = map<string, string>
  type Matcher = (string, string) -> bool
  type Rank = string -> Option<nat>

  predicate ModelAllowed(b: Backend, glob: Matcher, allow: Option<seq<string>>) {
    allow.Some? ==> "model" in b && exists pat :: pat in allow.value && glob(pat, b["model"])
  }

  predicate ModelNotDenied(b: Backend, glob: Matcher, deny: seq<string>) {
    "model" in b ==> forall pat :: pat in deny ==> !glob(pat, b["model"])
  }

  predicate LabelAllowed(b: Backend, name: string, allow: Option<seq<string>>) {
    allow.Some? ==> name in b && b[name] in allow.value
  }

  /** Within a ceiling; a missing or unranked tier on either side is out. */
  predicate WithinTier(b: Backend, rank: Rank, ceiling: string) {
    && "cost_tier" in b && rank(b["cost_tier"]).Some?
    && rank(ceiling).Some? && rank(b["cost_tier"]).value <= rank(ceiling).value
  }

  predicate CarriesLabels(b: Backend, custom: map<string, string>) {
    forall k :: k in custom ==> k in b && b[k] == custom[k]
  }

  /** The router's matcher on the folded extension. */
  predicate Accepts(ext: Extension, b: Backend, glob: Matcher, rank: Rank) {
    && ModelAllowed(b, glob, ext.allowModels)
    && ModelNotDenied(b, glob, ext.denyModels)
    && LabelAllowed(b, "region", ext.allowRegions)
    && LabelAllowed(b, "site", ext.allowSites)
    && (forall tier :: tier in ext.maxCostTiers ==> WithinTier(b, rank, tier))
    && CarriesLabels(b, ext.custom)
  }

  /** What one constraint asks of a backend, its allowed models aside. */
  predicate EligibleButModels(c: CandidateConstraint, b: Backend, glob: Matcher, rank: Rank) {
    && ModelNotDenied(b, glob, c.denyModels)
    && LabelAllowed(b, "region", c.allowRegions)
    && LabelAllowed(b, "site", c.allowSites)
    && (c.maxCostTier.Some? ==> WithinTier(b, rank, c.maxCostTier.value))
    && CarriesLabels(b, c.custom)
  }

  predicate Eligible(c: CandidateConstraint, b: Backend, glob: Matcher, rank: Rank) {
    ModelAllowed(b, glob, c.allowModels) && EligibleButModels(c, b, glob, rank)
  }

  lemma CommonLabel(lists: Lists, folded: Option<seq<string>>, b: Backend, name: string)
    requires IsCommon(lists, folded)
    ensures LabelAllowed(b, name, folded) <==> forall i :: 0 <= i < |lists| ==> LabelAllowed(b, name, lists[i])
  {
  }

  /** Everything but the model patterns is kept exactly: no wider and no narrower than the inputs together. */
  lemma FoldExactButModels(cs: seq<CandidateConstraint>, ext: Extension, b: Backend, glob: Matcher, rank: Rank)
    requires IsFold(cs, ext)
    ensures Accepts(ext, b, glob, rank) <==>
            ModelAllowed(b, glob, ext.allowModels) && forall i :: 0 <= i < |cs| ==> EligibleButModels(cs[i], b, glob, rank)
  {
    CommonLabel(Regions(cs), ext.allowRegions, b, "region");
    CommonLabel(Sites(cs), ext.allowSites, b, "site");
    assert forall i :: 0 <= i < |cs| ==> Regions(cs)[i] == cs[i].allowRegions && Sites(cs)[i] == cs[i].allowSites;
    DenyExact(cs, ext, b, glob);
    TierExact(cs, ext, b, rank);
    LabelExact(cs, ext, b);
  }

  lemma DenyExact(cs: seq<CandidateConstraint>, ext: Extension, b: Backend, glob: Matcher)
    requires IsFold(cs, ext)
    ensures ModelNotDenied(b, glob, ext.denyModels) <==> forall i :: 0 <= i < |cs| ==> ModelNotDenied(b, glob, cs[i].denyModels)
  {
    forall i, pat | 0 <= i < |cs| && pat in cs[i].denyModels ensures pat in ext.denyModels {
      assert Denied(cs, pat);
    }
  }

  lemma TierExact(cs: seq<CandidateConstraint>, ext: Extension, b: Backend, rank: Rank)
    requires IsFold(cs, ext)
    ensures (forall tier :: tier in ext.maxCostTiers ==> WithinTier(b, rank, tier)) <==>
            forall i :: 0 <= i < |cs| && cs[i].maxCostTier.Some? ==> WithinTier(b, rank, cs[i].maxCostTier.value)
  {
    forall i | 0 <= i < |cs| && cs[i].maxCostTier.Some? ensures cs[i].maxCostTier.value in ext.maxCostTiers {
      assert Ceiling(cs, cs[i].maxCostTier.value);
    }
  }

  lemma LabelExact(cs: seq<CandidateConstraint>, ext: Extension, b: Backend)
    requires IsFold(cs, ext)
    ensures CarriesLabels(b, ext.custom) <==> forall i :: 0 <= i < |cs| ==> CarriesLabels(b, cs[i].custom)
  {
    forall i, k | 0 <= i < |cs| && k in cs[i].custom ensures k in ext.custom && ext.custom[k] == cs[i].custom[k] {
      assert Requires(cs, k, cs[i].custom[k]);
    }
    forall k | k in ext.custom ensures exists i :: 0 <= i < |cs| && k in cs[i].custom && cs[i].custom[k] == ext.custom[k] {
      assert Requires(cs, k, ext.custom[k]);
    }
  }

  /** The fold never widens: what it accepts, every input accepts, whatever the matcher and the tier order. */
  lemma FoldNeverWidens(cs: seq<CandidateConstraint>, ext: Extension, b: Backend, glob: Matcher, rank: Rank)
    requires IsFold(cs, ext) && Accepts(ext, b, glob, rank)
    ensures forall i :: 0 <= i < |cs| ==> Eligible(cs[i], b, glob, rank)
  {
    FoldExactButModels(cs, ext, b, glob, rank);
    forall i | 0 <= i < |cs| ensures ModelAllowed(b, glob, cs[i].allowModels) {
      assert Models(cs)[i] == cs[i].allowModels;
      if cs[i].allowModels.Some? {
        var pat :| pat in ext.allowModels.value && glob(pat, b["model"]);
      }
    }
  }

  /** No extension is emitted only when nothing was asked of any backend. */
  lemma NothingFoldedNothingAsked(cs: seq<CandidateConstraint>, ext: Extension)
    requires IsFold(cs, ext)
    ensures ext.IsEmpty() <==> forall i :: 0 <= i < |cs| ==> cs[i].IsEmpty()
  {
    assert forall i :: 0 <= i < |cs| ==>
        Models(cs)[i] == cs[i].allowModels && Regions(cs)[i] == cs[i].allowRegions && Sites(cs)[i] == cs[i].allowSites;
    if ext.IsEmpty() {
      forall i | 0 <= i < |cs| ensures cs[i].IsEmpty() {
        assert forall x :: x in cs[i].denyModels ==> Denied(cs, x);
        NoMembers(cs[i].denyModels);
        assert cs[i].maxCostTier.Some? ==> Ceiling(cs, cs[i].maxCostTier.value);
        assert forall k :: k in cs[i].custom ==> Requires(cs, k, cs[i].custom[k]);
        assert cs[i].custom.Keys == {};
      }
    }
    if forall i :: 0 <= i < |cs| ==> cs[i].IsEmpty() {
      assert forall x :: !Denied(cs, x) && !Ceiling(cs, x);
      NoMembers(ext.denyModels);
      NoMembers(ext.maxCostTiers);
      assert ext.custom.Keys == {};
    }
  }

  predicate Within(part: seq<string>, whole: seq<string>) { forall x :: x in part ==> x in whole }

  /** No list is present, or one of them is contained in every other. */
  predicate SomeListRules(lists: Lists) {
    || (forall i :: 0 <= i < |lists| ==> lists[i].None?)
    || exists i :: 0 <= i < |lists| && Rules(lists, i)
  }

  predicate Rules(lists: Lists, i: nat)
    requires i < |lists|
  {
    lists[i].Some? && forall j :: 0 <= j < |lists| && lists[j].Some? ==> Within(lists[i].value, lists[j].value)
  }

  /** On its model alone, the fold accepts this backend exactly when every input does. */
  ghost predicate ModelExact(cs: seq<CandidateConstraint>, ext: Extension, b: Backend, glob: Matcher) {
    ModelAllowed(b, glob, ext.allowModels) <==> forall i :: 0 <= i < |cs| ==> ModelAllowed(b, glob, cs[i].allowModels)
  }

  lemma RuledIsExact(cs: seq<CandidateConstraint>, ext: Extension, b: Backend, glob: Matcher)
    requires IsFold(cs, ext) && SomeListRules(Models(cs))
    ensures ModelExact(cs, ext, b, glob)
  {
    var lists := Models(cs);
    assert forall i :: 0 <= i < |cs| ==> lists[i] == cs[i].allowModels;
    if ext.allowModels.Some? {
      var i :| 0 <= i < |lists| && Rules(lists, i);
      assert forall x :: x in lists[i].value <==> x in ext.allowModels.value;
      forall j | 0 <= j < |cs| && ModelAllowed(b, glob, ext.allowModels) ensures ModelAllowed(b, glob, cs[j].allowModels) {
        var pat :| pat in ext.allowModels.value && glob(pat, b["model"]);
      }
      if ModelAllowed(b, glob, cs[i].allowModels) {
        var pat :| pat in lists[i].value && glob(pat, b["model"]);
      }
    }
  }

  /** Otherwise a matcher true of exactly the patterns outside the intersection lets a backend past every input but the fold. */
  lemma UnruledNarrows(cs: seq<CandidateConstraint>, ext: Extension) returns (b: Backend, glob: Matcher)
    requires IsFold(cs, ext) && !SomeListRules(Models(cs))
    ensures !ModelAllowed(b, glob, ext.allowModels)
    ensures forall i :: 0 <= i < |cs| ==> ModelAllowed(b, glob, cs[i].allowModels)
  {
    var lists := Models(cs);
    var common := ext.allowModels.value;
    b, glob := map["model" := "m"], (pat, model) => pat !in common;
    forall i | 0 <= i < |cs| ensures ModelAllowed(b, glob, cs[i].allowModels) {
      assert lists[i] == cs[i].allowModels;
      if lists[i].Some? {
        assert !Rules(lists, i);
        var j :| 0 <= j < |lists| && lists[j].Some? && !Within(lists[i].value, lists[j].value);
        var pat :| pat in lists[i].value && pat !in lists[j].value;
        assert glob(pat, b["model"]);
      }
    }
  }

  /**
   * On models the fold is exact for every backend and matcher if and only if no input restricts
   * models or some input's list is contained in every other one's; it may otherwise be narrower.
   */
  lemma FoldExactOnModels(cs: seq<CandidateConstraint>, ext: Extension)
    requires IsFold(cs, ext)
    ensures (forall b: Backend, glob: Matcher :: ModelExact(cs, ext, b, glob)) <==> SomeListRules(Models(cs))
  {
    if SomeListRules(Models(cs)) {
      forall b: Backend, glob: Matcher ensures ModelExact(cs, ext, b, glob) {
        RuledIsExact(cs, ext, b, glob);
      }
    } else {
      var b, glob := UnruledNarrows(cs, ext);
      assert !ModelExact(cs, ext, b, glob);
    }
  }

  /** Under that condition the fold is exact on everything. */
  lemma FoldExact(cs: seq<CandidateConstraint>, ext: Extension, b: Backend, glob: Matcher, rank: Rank)
    requires IsFold(cs, ext) && SomeListRules(Models(cs))
    ensures Accepts(ext, b, glob, rank) <==> forall i :: 0 <= i < |cs| ==> Eligible(cs[i], b, glob, rank)
  {
    FoldExactButModels(cs, ext, b, glob, rank);
    RuledIsExact(cs, ext, b, glob);
  }

  /** In particular where all model lists present name the same patterns. */
  lemma FoldExactOnAgreedModels(cs: seq<CandidateConstraint>, ext: Extension, b: Backend, glob: Matcher, rank: Rank)
    requires IsFold(cs, ext)
    requires forall i, j, x :: 0 <= i < |cs| && 0 <= j < |cs| && cs[i].allowModels.Some? && cs[j].allowModels.Some? ==>
                                 (x in cs[i].allowModels.value <==> x in cs[j].allowModels.value)
    ensures Accepts(ext, b, glob, rank) <==> forall i :: 0 <= i < |cs| ==> Eligible(cs[i], b, glob, rank)
  {
    var lists := Models(cs);
    assert forall i :: 0 <= i < |cs| ==> lists[i] == cs[i].allowModels;
    if i :| 0 <= i < |lists| && lists[i].Some? {
      assert Rules(lists, i);
    }
    FoldExact(cs, ext, b, glob, rank);
  }

  const Anything := CandidateConstraint(None, [], None, None, None, map[], OnEmpty.Deny)

  /** Patterns are intersected as text, so two overlapping patterns can fold to an allow-list nothing is in. */
  lemma FoldCanNarrow(rank: Rank)
    ensures var cs := [Anything.(allowModels := Some(["a/*"])), Anything.(allowModels := Some(["a/x"]))];
            var b: Backend := map["model" := "a/x"];
            && (forall i :: 0 <= i < |cs| ==> Eligible(cs[i], b, Glob.GlobMatches, rank))
            && forall ext :: IsFold(cs, ext) ==> !Accepts(ext, b, Glob.GlobMatches, rank)
  {
    var cs := [Anything.(allowModels := Some(["a/*"])), Anything.(allowModels := Some(["a/x"]))];
    assert Glob.GlobMatches("a/*", "a/x");
    assert Glob.GlobMatches("a/x", "a/x");
    assert "a/*" in ["a/*"] && "a/x" in ["a/x"];
    forall ext | IsFold(cs, ext) ensures ext.allowModels == Some([]) {
      assert Models(cs)[0] == Some(["a/*"]) && Models(cs)[1] == Some(["a/x"]);
      assert ext.allowModels.Some?;
      assert forall x :: x in ext.allowModels.value ==> x in ["a/*"] && x in ["a/x"];
      NoMembers(ext.allowModels.value);
    }
  }
}
