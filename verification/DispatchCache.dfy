/**
 * `DispatchCache::get_or_build` among any number of readers, slow builders and configuration
 * changes. A change publishes its snapshot first and raises the generation second.
 */
module DispatchCache {
  import opened Prelude

  /** A plan: for each plugin of the route, the snapshot version its entries were resolved in. */
  type Plan = seq<nat>

  type Inner = map<string, (nat, Plan)>

  /** The read-locked region. */
  function Cached(inner: Inner, key: string, gen: nat): Option<Plan> {
    if key in inner && inner[key].0 == gen then Some(inner[key].1) else None
  }

  /** What a build against one snapshot gives. */
  function FreshPlan(names: nat, version: nat): Plan {
    seq(names, _ => version)
  }

  /** The engine's counters as one caller sees them. */
  class Engine {
    var generation: nat
    var version: nat
  }

  class Cache {
    var inner: Inner

    constructor ()
      ensures inner == map[]
    {
      inner := map[];
    }

    method Read(key: string, gen: nat) returns (plan: Option<Plan>)
      ensures plan == Cached(inner, key, gen)
    {
      if key in inner {
        var (storedGen, stored) := inner[key];
        if storedGen == gen {
          return Some(stored);
        }
      }
      return None;
    }

    method Write(key: string, gen: nat, plan: Plan)
      modifies this
      ensures inner == old(inner)[key := (gen, plan)]
    {
      inner := inner[key := (gen, plan)];
    }

    /** A call nothing interferes with. */
    method GetOrBuild(key: string, names: nat, engine: Engine) returns (plan: Plan)
      modifies this
      ensures var hit := Cached(old(inner), key, engine.generation);
              if hit.Some? then plan == hit.value && inner == old(inner)
              else plan == FreshPlan(names, engine.version) && inner == old(inner)[key := (engine.generation, plan)]
    {
      var gen := engine.generation;
      var hit := Read(key, gen);
      if hit.Some? {
        return hit.value;
      }
      plan := [];
      for i := 0 to names
        invariant plan == FreshPlan(i, engine.version)
      {
        plan := plan + [engine.version];
      }
      Write(key, gen, plan);
    }
  }

  /** One caller of `get_or_build`: `gen` is the generation it read on entry. */
  datatype Caller =
    | Idle(key: string)
    | Entered(key: string, gen: nat)
    | Building(key: string, gen: nat, plan: Plan)
    | Returned(key: string, gen: nat, plan: Plan)

  /** `published` counts snapshots stored, `generation` those already announced. */
  datatype State = State(generation: nat, published: nat, inner: Inner, callers: seq<Caller>)

  /** The number of plugins the route's plan resolves. */
  type Lineup = string -> nat

  ghost predicate Init(s: State) {
    && s.generation == s.published && s.inner == map[]
    && forall i :: 0 <= i < |s.callers| ==> s.callers[i].Idle?
  }

  datatype Step =
    | Publish
    | Bump
    | ReadGeneration(i: nat)
    | Hit(i: nat)
    | Miss(i: nat)
    | ResolveOne(i: nat)
    | Insert(i: nat)

  ghost predicate NextStep(lineup: Lineup, s: State, s': State, step: Step) {
    match step
    case Publish => s' == s.(published := s.published + 1)
    case Bump => s.generation < s.published && s' == s.(generation := s.generation + 1)
    case ReadGeneration(i) =>
      && i < |s.callers| && s.callers[i].Idle?
      && s' == s.(callers := s.callers[i := Entered(s.callers[i].key, s.generation)])
    case Hit(i) =>
      && i < |s.callers| && s.callers[i].Entered?
      && var c := s.callers[i];
      && Cached(s.inner, c.key, c.gen).Some?
      && s' == s.(callers := s.callers[i := Returned(c.key, c.gen, Cached(s.inner, c.key, c.gen).value)])
    case Miss(i) =>
      && i < |s.callers| && s.callers[i].Entered?
      && var c := s.callers[i];
      && Cached(s.inner, c.key, c.gen).None?
      && s' == s.(callers := s.callers[i := Building(c.key, c.gen, [])])
    case ResolveOne(i) =>
      && i < |s.callers| && s.callers[i].Building?
      && var c := s.callers[i];
      && |c.plan| < lineup(c.key)
      && s' == s.(callers := s.callers[i := Building(c.key, c.gen, c.plan + [s.published])])
    case Insert(i) =>
      && i < |s.callers| && s.callers[i].Building?
      && var c := s.callers[i];
      && |c.plan| == lineup(c.key)
      && s' == s.(inner := s.inner[c.key := (c.gen, c.plan)], callers := s.callers[i := Returned(c.key, c.gen, c.plan)])
  }

  ghost predicate CanStep(lineup: Lineup, s: State, s': State) {
    exists step :: NextStep(lineup, s, s', step)
  }

  ghost predicate Within(plan: Plan, low: nat, high: nat) {
    forall k :: 0 <= k < |plan| ==> low <= plan[k] <= high
  }

  ghost predicate CallerInv(lineup: Lineup, s: State, c: Caller) {
    match c
    case Idle(_) => true
    case Entered(_, gen) => gen <= s.generation
    case Building(_, gen, plan) => gen <= s.generation && Within(plan, gen, s.published)
    case Returned(key, gen, plan) => gen <= s.generation && Within(plan, gen, s.published) && |plan| == lineup(key)
  }

  ghost predicate Inv(lineup: Lineup, s: State) {
    && s.generation <= s.published
    && (forall key :: key in s.inner ==>
          s.inner[key].0 <= s.generation && Within(s.inner[key].1, s.inner[key].0, s.published) && |s.inner[key].1| == lineup(key))
    && (forall i :: 0 <= i < |s.callers| ==> CallerInv(lineup, s, s.callers[i]))
  }

  lemma InvStep(lineup: Lineup, s: State, s': State, step: Step)
    requires Inv(lineup, s) && NextStep(lineup, s, s', step)
    ensures Inv(lineup, s')
  {
  }

  ghost predicate Run(lineup: Lineup, states: seq<State>) {
    && states != [] && Init(states[0])
    && forall k :: 0 <= k < |states| - 1 ==> CanStep(lineup, states[k], states[k + 1])
  }

  lemma {:induction false} RunInv(lineup: Lineup, states: seq<State>, k: nat)
    requires Run(lineup, states) && k < |states|
    ensures Inv(lineup, states[k])
  {
    if k > 0 {
      RunInv(lineup, states, k - 1);
      assert CanStep(lineup, states[k - 1], states[k - 1 + 1]);
      var step :| NextStep(lineup, states[k - 1], states[k], step);
      InvStep(lineup, states[k - 1], states[k], step);
    }
  }

  /** No call ever returns anything resolved before the configuration announced when it was entered. */
  lemma NeverOlderThanEntry(lineup: Lineup, states: seq<State>, k: nat, i: nat)
    requires Run(lineup, states) && k < |states|
    requires i < |states[k].callers| && states[k].callers[i].Returned?
    ensures var c := states[k].callers[i];
            |c.plan| == lineup(c.key) && forall j :: 0 <= j < |c.plan| ==> c.gen <= c.plan[j]
  {
    RunInv(lineup, states, k);
  }

  /**
   * If the generation has not moved since the call was entered and no change is between its two
   * steps, the call returns exactly the plan a fresh build would give now.
   */
  lemma FreshWhenStill(lineup: Lineup, states: seq<State>, k: nat, i: nat)
    requires Run(lineup, states) && k < |states|
    requires i < |states[k].callers| && states[k].callers[i].Returned?
    requires states[k].generation == states[k].callers[i].gen
    requires states[k].published == states[k].generation
    ensures var c := states[k].callers[i]; c.plan == FreshPlan(lineup(c.key), states[k].published)
  {
    RunInv(lineup, states, k);
    var c := states[k].callers[i];
    assert Within(c.plan, c.gen, states[k].published);
  }

  lemma Extend(lineup: Lineup, states: seq<State>, s: State, step: Step)
    requires Run(lineup, states) && NextStep(lineup, states[|states| - 1], s, step)
    ensures Run(lineup, states + [s])
  {
    var longer := states + [s];
    forall k | 0 <= k < |longer| - 1 ensures CanStep(lineup, longer[k], longer[k + 1]) {
      if k < |states| - 1 {
        assert longer[k] == states[k] && longer[k + 1] == states[k + 1];
      }
    }
  }

  /**
   * Inside the window between publishing a snapshot and announcing it, both halves of the last
   * property fail: the generation stands still, yet one call returns a plan that mixes two
   * snapshots and another returns it from the cache, neither being what a fresh build would give.
   */
  lemma StaleInsideWindow() returns (states: seq<State>)
    ensures Run((_: string) => 2, states)
    ensures var last := states[|states| - 1];
            && last.generation == 0 && last.published == 1
            && last.callers == [Returned("r", 0, [0, 1]), Returned("r", 0, [0, 1])]
            && FreshPlan(2, last.published) == [1, 1]
  {
    var lineup: Lineup := (_: string) => 2;
    var s0 := State(0, 0, map[], [Idle("r"), Idle("r")]);
    var s1 := s0.(callers := [Entered("r", 0), Idle("r")]);
    var s2 := s1.(callers := [Building("r", 0, []), Idle("r")]);
    var s3 := s2.(callers := [Building("r", 0, [0]), Idle("r")]);
    var s4 := s3.(published := 1);
    var s5 := s4.(callers := [Building("r", 0, [0, 1]), Idle("r")]);
    var s6 := s5.(callers := [Returned("r", 0, [0, 1]), Idle("r")], inner := map["r" := (0, [0, 1])]);
    var s7 := s6.(callers := [Returned("r", 0, [0, 1]), Entered("r", 0)]);
    var s8 := s7.(callers := [Returned("r", 0, [0, 1]), Returned("r", 0, [0, 1])]);
    var nothing: Plan := [];
    assert nothing + [0] == [0] && [0] + [1] == [0, 1];
    states := [s0];
    Extend(lineup, states, s1, ReadGeneration(0));
    Extend(lineup, states + [s1], s2, Miss(0));
    Extend(lineup, states + [s1] + [s2], s3, ResolveOne(0));
    Extend(lineup, states + [s1] + [s2] + [s3], s4, Publish);
    Extend(lineup, states + [s1] + [s2] + [s3] + [s4], s5, ResolveOne(0));
    Extend(lineup, states + [s1] + [s2] + [s3] + [s4] + [s5], s6, Insert(0));
    Extend(lineup, states + [s1] + [s2] + [s3] + [s4] + [s5] + [s6], s7, ReadGeneration(1));
    Extend(lineup, states + [s1] + [s2] + [s3] + [s4] + [s5] + [s6] + [s7], s8, Hit(1));
    states := states + [s1] + [s2] + [s3] + [s4] + [s5] + [s6] + [s7] + [s8];
  }

  /** The runs of this cache that end with these counters. */
  ghost predicate EndsAt(lineup: Lineup, states: seq<State>, generation: nat, published: nat) {
    && Run(lineup, states)
    && states[|states| - 1].generation == generation && states[|states| - 1].published == published
  }

  /** Every caller for `key` that entered at the last generation holds what a fresh build would give now. */
  ghost predicate AllFresh(lineup: Lineup, key: string, s: State) {
    forall i :: 0 <= i < |s.callers| && s.callers[i].Returned? && s.callers[i].key == key && s.callers[i].gen == s.generation ==>
      s.callers[i].plan == FreshPlan(lineup(key), s.published)
  }

  /** A first caller builds at generation `g`. */
  lemma BuildAlone(lineup: Lineup, key: string, g: nat) returns (states: seq<State>)
    ensures Run(lineup, states)
    ensures var plan := FreshPlan(lineup(key), g);
            states[|states| - 1] == State(g, g, map[key := (g, plan)], [Returned(key, g, plan), Idle(key)])
  {
    var s0 := State(g, g, map[], [Idle(key), Idle(key)]);
    var s1 := s0.(callers := [Entered(key, g), Idle(key)]);
    var s2 := s0.(callers := [Building(key, g, []), Idle(key)]);
    states := [s0];
    Extend(lineup, states, s1, ReadGeneration(0));
    states := states + [s1];
    Extend(lineup, states, s2, Miss(0));
    states := states + [s2];
    assert FreshPlan(0, g) == [];
    for n := 0 to lineup(key)
      invariant Run(lineup, states)
      invariant states[|states| - 1] == s0.(callers := [Building(key, g, FreshPlan(n, g)), Idle(key)])
    {
      var next := s0.(callers := [Building(key, g, FreshPlan(n + 1, g)), Idle(key)]);
      assert FreshPlan(n, g) + [g] == FreshPlan(n + 1, g);
      Extend(lineup, states, next, ResolveOne(0));
      states := states + [next];
    }
    var plan := FreshPlan(lineup(key), g);
    var built := State(g, g, map[key := (g, plan)], [Returned(key, g, plan), Idle(key)]);
    Extend(lineup, states, built, Insert(0));
    states := states + [built];
  }

  /**
   * Inside the window, for all counters: once anything newer than generation `g` is published, a call
   * entered after that is still served the plan of `g` while the generation stands.
   */
  lemma ServedStale(lineup: Lineup, key: string, g: nat, p: nat) returns (states: seq<State>)
    requires g < p
    ensures EndsAt(lineup, states, g, p)
    ensures var served := states[|states| - 1].callers;
            |served| == 2 && served[1] == Returned(key, g, FreshPlan(lineup(key), g))
    ensures |states| >= 3
    ensures var before := states[|states| - 3];
            before.published == p && |before.callers| == 2 && before.callers[1] == Idle(key)
  {
    states := BuildAlone(lineup, key, g);
    var plan := FreshPlan(lineup(key), g);
    var built := states[|states| - 1];
    for published := g to p
      invariant Run(lineup, states)
      invariant states[|states| - 1] == built.(published := published)
    {
      var next := built.(published := published + 1);
      Extend(lineup, states, next, Publish);
      states := states + [next];
    }
    var first := Returned(key, g, plan);
    var entered := State(g, p, built.inner, [first, Entered(key, g)]);
    var served := State(g, p, built.inner, [first, Returned(key, g, plan)]);
    Extend(lineup, states, entered, ReadGeneration(1));
    states := states + [entered];
    Extend(lineup, states, served, Hit(1));
    states := states + [served];
  }

  lemma VersionsDiffer(n: nat, g: nat, p: nat)
    requires n >= 1 && g != p
    ensures FreshPlan(n, g) != FreshPlan(n, p)
  {
    assert FreshPlan(n, g)[0] == g;
  }

  lemma AllFreshWhenStill(lineup: Lineup, key: string, states: seq<State>)
    requires Run(lineup, states) && states[|states| - 1].published == states[|states| - 1].generation
    ensures AllFresh(lineup, key, states[|states| - 1])
  {
    var last := states[|states| - 1];
    forall i | 0 <= i < |last.callers| && last.callers[i].Returned? && last.callers[i].key == key && last.callers[i].gen == last.generation
      ensures last.callers[i].plan == FreshPlan(lineup(key), last.published)
    {
      FreshWhenStill(lineup, states, |states| - 1, i);
    }
  }

  /**
   * For a route with at least one plugin, calls whose generation still stands return the fresh plan
   * in every run ending with these counters if and only if nothing is published and not yet announced.
   */
  lemma FreshExactlyOutsideWindow(lineup: Lineup, key: string, g: nat, p: nat)
    requires g <= p && lineup(key) >= 1
    ensures (forall states :: EndsAt(lineup, states, g, p) ==> AllFresh(lineup, key, states[|states| - 1])) <==> g == p
  {
    if g == p {
      forall states | EndsAt(lineup, states, g, p) ensures AllFresh(lineup, key, states[|states| - 1]) {
        AllFreshWhenStill(lineup, key, states);
      }
    } else {
      var states := ServedStale(lineup, key, g, p);
      VersionsDiffer(lineup(key), g, p);
      var last := states[|states| - 1];
      assert last.callers[1].plan == FreshPlan(lineup(key), g);
      assert !AllFresh(lineup, key, last);
    }
  }
}
