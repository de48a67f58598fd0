/**
 * Field rules come out of a hash map, so their order is arbitrary: when their paths are pairwise
 * disjoint and no stage calls a plugin, the order makes no difference.
 */
module FieldRules {
  import opened Prelude
  import opened Json
  import opened Attributes
  import opened Policy
  import opened Host
  import opened DottedPath
  import opened Evaluator
  import opened Route
  import Pipeline

  // ---- Pipelines without plugin stages.

  predicate PluginFree(stages: seq<Stage>) { forall i :: 0 <= i < |stages| ==> !stages[i].PluginStage? }

  function WithHistory(p: Pipeline.Progress, h: History): Pipeline.Progress { p.(history := h) }

  lemma {:induction false} PluginFreeIgnoresHistory(
    env: Env, bag: Bag, field: string, phase: DispatchPhase, stages: seq<Stage>, at: nat, p: Pipeline.Progress, h: History)
    requires at <= |stages| && PluginFree(stages)
    ensures Pipeline.RunStages(env, bag, field, phase, stages, at, p).history == p.history
    ensures Pipeline.RunStages(env, bag, field, phase, stages, at, WithHistory(p, h))
         == Pipeline.RunStages(env, bag, field, phase, stages, at, p).(history := h)
    decreases |stages| - at
  {
    if at < |stages| {
      var r := Pipeline.RunStage(env, bag, field, phase, stages[at], p);
      if r.Next? {
        PluginFreeIgnoresHistory(env, bag, field, phase, stages, at + 1, r.progress, h);
      }
    }
  }

  // ---- What one rule does to a tree.

  datatype Touch = Missing | Ran(evaluation: Pipeline.Evaluation)

  /** The rule's pipeline on its field of `root`, from an empty history. */
  function RuleOn(env: Env, bag: Bag, phase: DispatchPhase, rule: FieldRule, root: Value): Touch {
    var current := Look(root, Segments(rule.field));
    if current.None? then Missing
    else Ran(Pipeline.EvaluatePipeline(env, bag, rule.field, phase, rule.stages, current.value, []))
  }

  predicate Rejects(t: Touch) { t.Ran? && t.evaluation.outcome.Reject? }

  function TouchTaints(t: Touch): seq<TaintEvent> { if t.Ran? then t.evaluation.taints else [] }

  function EditOf(t: Touch): Option<Edit> {
    match t
    case Ran(Evaluation(Replace(v), _, _)) => Some(Set(v))
    case Ran(Evaluation(Omit, _, _)) => Some(Remove)
    case _ => None
  }

  function Edited(rule: FieldRule, t: Touch, root: Value): Value {
    if EditOf(t).Some? then Apply(root, Segments(rule.field), EditOf(t).value) else root
  }

  predicate Apart(a: FieldRule, b: FieldRule) { Disjoint(Segments(a.field), Segments(b.field)) }

  lemma DisjointSymmetric(p: seq<string>, q: seq<string>)
    requires Disjoint(p, q)
    ensures Disjoint(q, p)
  {
    var i :| 0 <= i < |p| && i < |q| && p[i] != q[i];
    assert q[i] != p[i];
  }

  /** Pairwise disjoint fields, and no plugin stage. */
  predicate Independent(rules: seq<FieldRule>) {
    && (forall i, j :: 0 <= i < |rules| && 0 <= j < |rules| && i != j ==> Apart(rules[i], rules[j]))
    && forall i :: 0 <= i < |rules| ==> PluginFree(rules[i].stages)
  }

  /** A rule sees the same field before and after another rule's edit. */
  lemma RuleUnaffected(env: Env, bag: Bag, phase: DispatchPhase, a: FieldRule, t: Touch, b: FieldRule, root: Value)
    requires Apart(a, b)
    ensures RuleOn(env, bag, phase, b, Edited(a, t, root)) == RuleOn(env, bag, phase, b, root)
  {
    if EditOf(t).Some? {
      ApplyFrame(root, Segments(a.field), EditOf(t).value, Segments(b.field));
    }
  }

  lemma EditsCommute(a: FieldRule, t: Touch, b: FieldRule, u: Touch, root: Value)
    requires Apart(a, b)
    ensures Edited(b, u, Edited(a, t, root)) == Edited(a, t, Edited(b, u, root))
  {
    if EditOf(t).Some? && EditOf(u).Some? {
      ApplyCommutes(root, Segments(a.field), EditOf(t).value, Segments(b.field), EditOf(u).value);
    }
  }

  // ---- What all rules do to a tree, each seen against the original.

  function AllEdited(env: Env, bag: Bag, phase: DispatchPhase, original: Value, rules: seq<FieldRule>, root: Value): Value
    decreases |rules|
  {
    if rules == [] then root
    else
      AllEdited(env, bag, phase, original, rules[1..], Edited(rules[0], RuleOn(env, bag, phase, rules[0], original), root))
  }

  function AllTaints(env: Env, bag: Bag, phase: DispatchPhase, original: Value, rules: seq<FieldRule>): seq<TaintEvent> {
    if rules == [] then []
    else TouchTaints(RuleOn(env, bag, phase, rules[0], original)) + AllTaints(env, bag, phase, original, rules[1..])
  }

  predicate SomeRejects(env: Env, bag: Bag, phase: DispatchPhase, original: Value, rules: seq<FieldRule>) {
    exists i :: 0 <= i < |rules| && Rejects(RuleOn(env, bag, phase, rules[i], original))
  }

  predicate SomeEdits(env: Env, bag: Bag, phase: DispatchPhase, original: Value, rules: seq<FieldRule>) {
    exists i :: 0 <= i < |rules| && EditOf(RuleOn(env, bag, phase, rules[i], original)).Some?
  }

  /** Two originals the rules cannot tell apart. */
  predicate SameTo(env: Env, bag: Bag, phase: DispatchPhase, rules: seq<FieldRule>, a: Value, b: Value) {
    forall i :: 0 <= i < |rules| ==> RuleOn(env, bag, phase, rules[i], a) == RuleOn(env, bag, phase, rules[i], b)
  }

  lemma SameTail(env: Env, bag: Bag, phase: DispatchPhase, rules: seq<FieldRule>, a: Value, b: Value)
    requires rules != [] && SameTo(env, bag, phase, rules, a, b)
    ensures RuleOn(env, bag, phase, rules[0], a) == RuleOn(env, bag, phase, rules[0], b)
    ensures SameTo(env, bag, phase, rules[1..], a, b)
  {
    forall i | 0 <= i < |rules[1..]| ensures RuleOn(env, bag, phase, rules[1..][i], a) == RuleOn(env, bag, phase, rules[1..][i], b) {
      assert rules[1..][i] == rules[i + 1];
    }
  }

  lemma {:induction false} SameOriginal(
    env: Env, bag: Bag, phase: DispatchPhase, rules: seq<FieldRule>, a: Value, b: Value, root: Value)
    requires SameTo(env, bag, phase, rules, a, b)
    ensures AllEdited(env, bag, phase, a, rules, root) == AllEdited(env, bag, phase, b, rules, root)
    ensures AllTaints(env, bag, phase, a, rules) == AllTaints(env, bag, phase, b, rules)
    decreases |rules|
  {
    if rules != [] {
      SameTail(env, bag, phase, rules, a, b);
      SameOriginal(env, bag, phase, rules[1..], a, b, Edited(rules[0], RuleOn(env, bag, phase, rules[0], a), root));
    }
  }

  lemma SameSome(env: Env, bag: Bag, phase: DispatchPhase, rules: seq<FieldRule>, a: Value, b: Value)
    requires SameTo(env, bag, phase, rules, a, b)
    ensures SomeRejects(env, bag, phase, a, rules) == SomeRejects(env, bag, phase, b, rules)
    ensures SomeEdits(env, bag, phase, a, rules) == SomeEdits(env, bag, phase, b, rules)
  {
  }

  /** The state after the rules when none rejects. */
  function Settled(env: Env, phase: DispatchPhase, side: Side, rules: seq<FieldRule>, s: State): State
    requires side.ResultSide? ==> s.payload.result.Some?
  {
    var root := Root(s.payload, side);
    var t := s.(payload := WithRoot(s.payload, side, AllEdited(env, s.bag, phase, root, rules, root)),
                taints := s.taints + AllTaints(env, s.bag, phase, root, rules));
    if SomeEdits(env, s.bag, phase, root, rules) then MarkModified(t, side) else t
  }

  /** One rule, as the walk runs it. */
  lemma OneRule(env: Env, phase: DispatchPhase, side: Side, rule: FieldRule, s: State)
    requires (side.ResultSide? ==> s.payload.result.Some?) && PluginFree(rule.stages)
    ensures var root := Root(s.payload, side);
            var t := RuleOn(env, s.bag, phase, rule, root);
            var w := RunOnField(env, rule.field, rule.stages, rule.source, phase, side, s);
            var after := s.(payload := WithRoot(s.payload, side, Edited(rule, t, root)), taints := s.taints + TouchTaints(t));
            && (w.outcome.Halt? <==> Rejects(t)) && !w.outcome.Pending?
            && (w.outcome.Continue? ==> w.state == if EditOf(t).Some? then MarkModified(after, side) else after)
  {
    var root := Root(s.payload, side);
    var segs := Segments(rule.field);
    var current := Look(root, segs);
    assert s.taints + [] == s.taints;
    if current.Some? {
      PluginFreeIgnoresHistory(
        env, s.bag, rule.field, phase, rule.stages, 0, Pipeline.Start(current.value, []), s.history);
      var t := RuleOn(env, s.bag, phase, rule, root);
      if EditOf(t).Some? {
        FoundLands(root, segs, EditOf(t).value);
      }
    }
  }

  lemma IndependentTail(rules: seq<FieldRule>)
    requires rules != [] && Independent(rules)
    ensures Independent(rules[1..])
    ensures forall i :: 0 <= i < |rules| - 1 ==> rules[1..][i] == rules[i + 1] && Apart(rules[0], rules[1..][i])
  {
    assert forall i :: 0 <= i < |rules| - 1 ==> rules[1..][i] == rules[i + 1];
  }

  /** After the first rule, the rest see their fields as they were. */
  lemma RestUnaffected(env: Env, bag: Bag, phase: DispatchPhase, rules: seq<FieldRule>, root: Value)
    requires rules != [] && Independent(rules)
    ensures SameTo(env, bag, phase, rules[1..], Edited(rules[0], RuleOn(env, bag, phase, rules[0], root), root), root)
  {
    IndependentTail(rules);
    var t, rest := RuleOn(env, bag, phase, rules[0], root), rules[1..];
    forall i | 0 <= i < |rest| ensures RuleOn(env, bag, phase, rest[i], Edited(rules[0], t, root)) == RuleOn(env, bag, phase, rest[i], root) {
      RuleUnaffected(env, bag, phase, rules[0], t, rest[i], root);
    }
  }

  lemma SettledByHead(env: Env, phase: DispatchPhase, side: Side, rules: seq<FieldRule>, s: State, next: State)
    requires (side.ResultSide? ==> s.payload.result.Some?) && rules != [] && Independent(rules)
    requires var root := Root(s.payload, side);
             var t := RuleOn(env, s.bag, phase, rules[0], root);
             var after := s.(payload := WithRoot(s.payload, side, Edited(rules[0], t, root)), taints := s.taints + TouchTaints(t));
             next == if EditOf(t).Some? then MarkModified(after, side) else after
    ensures side.ResultSide? ==> next.payload.result.Some?
    ensures Settled(env, phase, side, rules, s) == Settled(env, phase, side, rules[1..], next)
    ensures SomeRejects(env, s.bag, phase, Root(next.payload, side), rules[1..])
         == SomeRejects(env, s.bag, phase, Root(s.payload, side), rules[1..])
  {
    var root := Root(s.payload, side);
    var t, rest := RuleOn(env, s.bag, phase, rules[0], root), rules[1..];
    var edited := Edited(rules[0], t, root);
    RestUnaffected(env, s.bag, phase, rules, root);
    SameOriginal(env, s.bag, phase, rest, edited, root, edited);
    SameSome(env, s.bag, phase, rest, edited, root);
    SomeByHead(env, s.bag, phase, root, rules);
    assert s.taints + TouchTaints(t) + AllTaints(env, s.bag, phase, root, rest)
        == s.taints + (TouchTaints(t) + AllTaints(env, s.bag, phase, root, rest));
  }

  /**
   * Independent rules deny exactly when some rule rejects its field of the original tree; otherwise
   * each rule's edit of the original lands.
   */
  lemma {:induction false} RulesSettle(env: Env, phase: DispatchPhase, side: Side, rules: seq<FieldRule>, s: State)
    requires (side.ResultSide? ==> s.payload.result.Some?) && Independent(rules)
    ensures var w := RunRules(env, rules, phase, side, s);
            && (w.outcome.Halt? <==> SomeRejects(env, s.bag, phase, Root(s.payload, side), rules)) && !w.outcome.Pending?
            && (w.outcome.Continue? ==> w.state == Settled(env, phase, side, rules, s))
    decreases |rules|
  {
    var root := Root(s.payload, side);
    if rules == [] {
      assert s.taints + [] == s.taints;
    } else {
      OneRule(env, phase, side, rules[0], s);
      IndependentTail(rules);
      SomeByHead(env, s.bag, phase, root, rules);
      var first := RunOnField(env, rules[0].field, rules[0].stages, rules[0].source, phase, side, s);
      if first.outcome.Continue? {
        SettledByHead(env, phase, side, rules, s, first.state);
        RulesSettle(env, phase, side, rules[1..], first.state);
      }
    }
  }

  lemma SomeByHead(env: Env, bag: Bag, phase: DispatchPhase, original: Value, rules: seq<FieldRule>)
    requires rules != []
    ensures var t := RuleOn(env, bag, phase, rules[0], original);
            && SomeRejects(env, bag, phase, original, rules) == (Rejects(t) || SomeRejects(env, bag, phase, original, rules[1..]))
            && SomeEdits(env, bag, phase, original, rules) == (EditOf(t).Some? || SomeEdits(env, bag, phase, original, rules[1..]))
  {
    forall i | 0 < i < |rules| ensures RuleOn(env, bag, phase, rules[i], original) == RuleOn(env, bag, phase, rules[1..][i - 1], original) {
      assert rules[i] == rules[1..][i - 1];
    }
    forall i | 0 <= i < |rules[1..]| ensures RuleOn(env, bag, phase, rules[1..][i], original) == RuleOn(env, bag, phase, rules[i + 1], original) {
      assert rules[i + 1] == rules[1..][i];
    }
  }

  // ---- Permutations.

  lemma RemoveFromTail(rules: seq<FieldRule>, i: nat)
    requires 0 < i < |rules|
    ensures rules[1..][i - 1] == rules[i]
    ensures RemoveAt(rules, i) == [rules[0]] + RemoveAt(rules[1..], i - 1)
    ensures RemoveAt(rules, i)[0] == rules[0] && RemoveAt(rules, i)[1..] == RemoveAt(rules[1..], i - 1)
  {
  }

  /** Any rule may be taken first. */
  lemma {:induction false} TakeFirst(
    env: Env, bag: Bag, phase: DispatchPhase, original: Value, rules: seq<FieldRule>, i: nat, root: Value)
    requires i < |rules| && Independent(rules)
    ensures AllEdited(env, bag, phase, original, rules, root)
         == AllEdited(env, bag, phase, original, RemoveAt(rules, i), Edited(rules[i], RuleOn(env, bag, phase, rules[i], original), root))
    decreases |rules|
  {
    if i == 0 {
      assert RemoveAt(rules, 0) == rules[1..];
    } else {
      var t, u := RuleOn(env, bag, phase, rules[0], original), RuleOn(env, bag, phase, rules[i], original);
      IndependentTail(rules);
      RemoveFromTail(rules, i);
      TakeFirst(env, bag, phase, original, rules[1..], i - 1, Edited(rules[0], t, root));
      EditsCommute(rules[0], t, rules[i], u, root);
    }
  }

  lemma {:induction false} TakeFirstTaints(env: Env, bag: Bag, phase: DispatchPhase, original: Value, rules: seq<FieldRule>, i: nat)
    requires i < |rules|
    ensures multiset(AllTaints(env, bag, phase, original, rules))
         == multiset(TouchTaints(RuleOn(env, bag, phase, rules[i], original)))
            + multiset(AllTaints(env, bag, phase, original, RemoveAt(rules, i)))
    decreases |rules|
  {
    if i == 0 {
      assert RemoveAt(rules, 0) == rules[1..];
    } else {
      RemoveFromTail(rules, i);
      TakeFirstTaints(env, bag, phase, original, rules[1..], i - 1);
    }
  }

  lemma RemoveIndependent(rules: seq<FieldRule>, i: nat)
    requires i < |rules| && Independent(rules)
    ensures Independent(RemoveAt(rules, i))
  {
    assert forall k :: 0 <= k < |rules| - 1 ==> RemoveAt(rules, i)[k] == rules[if k < i then k else k + 1];
  }

  lemma {:induction false} EditsPermute(
    env: Env, bag: Bag, phase: DispatchPhase, original: Value, xs: seq<FieldRule>, ys: seq<FieldRule>, root: Value)
    requires Independent(xs) && Independent(ys) && Permutation(xs, ys)
    ensures AllEdited(env, bag, phase, original, xs, root) == AllEdited(env, bag, phase, original, ys, root)
    ensures Permutation(AllTaints(env, bag, phase, original, xs), AllTaints(env, bag, phase, original, ys))
    decreases |xs|
  {
    assert |xs| == |multiset(xs)| == |multiset(ys)| == |ys|;
    if xs == [] {
      assert ys == [];
    } else {
      var i := PermutationHead(xs, ys);
      IndependentTail(xs);
      RemoveIndependent(ys, i);
      TakeFirst(env, bag, phase, original, ys, i, root);
      TakeFirstTaints(env, bag, phase, original, ys, i);
      EditsPermute(env, bag, phase, original, xs[1..], RemoveAt(ys, i), Edited(xs[0], RuleOn(env, bag, phase, xs[0], original), root));
    }
  }

  lemma PermutedMember(xs: seq<FieldRule>, ys: seq<FieldRule>, i: nat) returns (j: nat)
    requires Permutation(xs, ys) && i < |xs|
    ensures j < |ys| && ys[j] == xs[i]
  {
    assert xs[i] in multiset(ys);
    j :| 0 <= j < |ys| && ys[j] == xs[i];
  }

  lemma SomePermute(env: Env, bag: Bag, phase: DispatchPhase, original: Value, xs: seq<FieldRule>, ys: seq<FieldRule>)
    requires Permutation(xs, ys)
    ensures SomeRejects(env, bag, phase, original, xs) ==> SomeRejects(env, bag, phase, original, ys)
    ensures SomeEdits(env, bag, phase, original, xs) ==> SomeEdits(env, bag, phase, original, ys)
  {
    if i :| 0 <= i < |xs| && Rejects(RuleOn(env, bag, phase, xs[i], original)) {
      var j := PermutedMember(xs, ys, i);
    }
    if i :| 0 <= i < |xs| && EditOf(RuleOn(env, bag, phase, xs[i], original)).Some? {
      var j := PermutedMember(xs, ys, i);
    }
  }

  lemma InsertIndependent(rules: seq<FieldRule>, i: nat)
    requires i < |rules| && Independent(RemoveAt(rules, i)) && PluginFree(rules[i].stages)
    requires forall k :: 0 <= k < |rules| && k != i ==> Apart(rules[i], rules[k])
    ensures Independent(rules)
  {
    var rest := RemoveAt(rules, i);
    forall k, m | 0 <= k < |rules| && 0 <= m < |rules| && k != m ensures Apart(rules[k], rules[m]) {
      if k != i && m != i {
        assert rules[k] == rest[if k < i then k else k - 1] && rules[m] == rest[if m < i then m else m - 1];
      } else if k != i {
        DisjointSymmetric(Segments(rules[i].field), Segments(rules[k].field));
      }
    }
    forall k | 0 <= k < |rules| ensures PluginFree(rules[k].stages) {
      if k != i {
        assert rules[k] == rest[if k < i then k else k - 1];
      }
    }
  }

  lemma {:induction false} PermutedIndependent(xs: seq<FieldRule>, ys: seq<FieldRule>)
    requires Independent(xs) && Permutation(xs, ys)
    ensures Independent(ys)
    decreases |xs|
  {
    assert |xs| == |multiset(xs)| == |multiset(ys)| == |ys|;
    if xs != [] {
      var i := PermutationHead(xs, ys);
      var rest := RemoveAt(ys, i);
      IndependentTail(xs);
      PermutedIndependent(xs[1..], rest);
      forall k | 0 <= k < |ys| && k != i ensures Apart(ys[i], ys[k]) {
        var k' := if k < i then k else k - 1;
        assert ys[k] == rest[k'];
        var j := PermutedMember(rest, xs[1..], k');
      }
      InsertIndependent(ys, i);
    }
  }

  /** Two orders of the same rules: all deny or none does, and otherwise the same state, labels up to order. */
  predicate Agree(env: Env, phase: DispatchPhase, side: Side, xs: seq<FieldRule>, ys: seq<FieldRule>, s: State)
    requires side.ResultSide? ==> s.payload.result.Some?
  {
    var v, w := RunRules(env, xs, phase, side, s), RunRules(env, ys, phase, side, s);
    && (v.outcome.Halt? <==> w.outcome.Halt?)
    && (v.outcome.Continue? ==>
          w.outcome.Continue? && w.state == v.state.(taints := w.state.taints)
          && multiset(v.state.taints) == multiset(w.state.taints))
  }

  /**
   * For every order of independent rules: all deny or none does, and when none does the payload, the
   * flags and everything else agree, with the same labels up to order.
   */
  lemma OrderMakesNoDifference(env: Env, phase: DispatchPhase, side: Side, xs: seq<FieldRule>, ys: seq<FieldRule>, s: State)
    requires (side.ResultSide? ==> s.payload.result.Some?) && Independent(xs) && Permutation(xs, ys)
    ensures Agree(env, phase, side, xs, ys, s)
  {
    PermutedIndependent(xs, ys);
    RulesSettle(env, phase, side, xs, s);
    RulesSettle(env, phase, side, ys, s);
    var root := Root(s.payload, side);
    SomePermute(env, s.bag, phase, root, xs, ys);
    SomePermute(env, s.bag, phase, root, ys, xs);
    EditsPermute(env, s.bag, phase, root, xs, ys, root);
  }

  // ---- Overlapping fields.

  /** A tree with `leaf` at `segs` and nothing else. */
  function Nest(segs: seq<string>, leaf: Value): Value
    decreases |segs|
  {
    if segs == [] then leaf else Obj(map[segs[0] := Nest(segs[1..], leaf)])
  }

  lemma {:induction false} LookNest(segs: seq<string>, leaf: Value, i: nat)
    requires i <= |segs|
    ensures Look(Nest(segs, leaf), segs[..i]) == Some(Nest(segs[i..], leaf))
    decreases |segs|
  {
    if i > 0 {
      LookNest(segs[1..], leaf, i - 1);
      assert segs[..i][1..] == segs[1..][..i - 1] && segs[1..][i - 1..] == segs[i..];
    } else {
      assert segs[..0] == [] && segs[0..] == segs;
    }
  }

  lemma TwoRules(env: Env, phase: DispatchPhase, side: Side, a: FieldRule, b: FieldRule, s: State)
    requires side.ResultSide? ==> s.payload.result.Some?
    ensures var first := RunOnField(env, a.field, a.stages, a.source, phase, side, s);
            && (first.outcome.Continue? ==>
                  RunRules(env, [a, b], phase, side, s)
                    == RunOnField(env, b.field, b.stages, b.source, phase, side, first.state))
            && (!first.outcome.Continue? ==> RunRules(env, [a, b], phase, side, s) == first)
  {
    var first := RunOnField(env, a.field, a.stages, a.source, phase, side, s);
    assert [a, b][1..] == [b] && [b][1..] == [];
    if first.outcome.Continue? {
      var second := RunOnField(env, b.field, b.stages, b.source, phase, side, first.state);
      assert second.outcome.Continue? ==> RunRules(env, [], phase, side, second.state) == second;
      assert RunRules(env, [b], phase, side, first.state) == second;
    }
  }

  lemma OneStage(env: Env, bag: Bag, field: string, phase: DispatchPhase, stage: Stage, p: Pipeline.Progress)
    requires Pipeline.RunStage(env, bag, field, phase, stage, p).Next?
    ensures Pipeline.RunStages(env, bag, field, phase, [stage], 0, p)
         == Pipeline.Finish(Pipeline.RunStage(env, bag, field, phase, stage, p).progress)
  {
    var q := Pipeline.RunStage(env, bag, field, phase, stage, p).progress;
    assert Pipeline.RunStages(env, bag, field, phase, [stage], 1, q) == Pipeline.Finish(q);
  }

  /** The redaction of an enclosing field, which always passes. */
  lemma RedactOutside(env: Env, a: FieldRule, s: State)
    requires a.stages == [RedactStage(None)] && Look(s.payload.args, Segments(a.field)).Some?
    ensures var w := RunOnField(env, a.field, a.stages, a.source, Pre, ArgsSide, s);
            && w.outcome.Continue? && w.state.bag == s.bag
            && Look(w.state.payload.args, Segments(a.field)) == Some(Pipeline.REDACTED)
  {
    var segs := Segments(a.field);
    OneStage(env, s.bag, a.field, Pre, RedactStage(None), Pipeline.Start(Look(s.payload.args, segs).value, s.history));
    FoundLands(s.payload.args, segs, Set(Pipeline.REDACTED));
    LookAfterApply(s.payload.args, segs, Set(Pipeline.REDACTED));
  }

  /** The type check of a field: it denies exactly on a value that is no integer. */
  lemma CheckInside(env: Env, b: FieldRule, s: State)
    requires b.stages == [TypeStage(IsInt)]
    ensures var w := RunOnField(env, b.field, b.stages, b.source, Pre, ArgsSide, s);
            var found := Look(s.payload.args, Segments(b.field));
            && (w.outcome.Halt? <==> found.Some? && !Pipeline.TypeMatches(IsInt, found.value)) && !w.outcome.Pending?
            && (w.outcome.Continue? ==> w.state.payload == s.payload)
  {
    var found := Look(s.payload.args, Segments(b.field));
    if found.Some? && Pipeline.TypeMatches(IsInt, found.value) {
      OneStage(env, s.bag, b.field, Pre, TypeStage(IsInt), Pipeline.Start(found.value, s.history));
    }
  }

  /**
   * A field and any field at or below it: redacting the one and type-checking the other, the order
   * decides whether the request is denied.
   */
  lemma NestedFieldsDependOnOrder(env: Env, outer: string, inner: string, source: string) returns (a: FieldRule, b: FieldRule, s: State)
    requires Segments(outer) <= Segments(inner)
    ensures a.field == outer && b.field == inner && PluginFree(a.stages) && PluginFree(b.stages)
    ensures RunRules(env, [a, b], Pre, ArgsSide, s).outcome.Halt? != RunRules(env, [b, a], Pre, ArgsSide, s).outcome.Halt?
  {
    var p, q := Segments(outer), Segments(inner);
    a, b := FieldRule(outer, [RedactStage(None)], source), FieldRule(inner, [TypeStage(IsInt)], source);
    var leaf := if p == q then Num(Integer(0)) else Str("x");
    var args := Nest(q, leaf);
    s := Fresh(map[], Payload(args, None), []);
    LookNest(q, leaf, |p|);
    LookNest(q, leaf, |q|);
    assert q[..|p|] == p && q[..|q|] == q && q[|q|..] == [];
    TwoRules(env, Pre, ArgsSide, a, b, s);
    TwoRules(env, Pre, ArgsSide, b, a, s);
    RedactOutside(env, a, s);
    CheckInside(env, b, s);
    var redacted := RunOnField(env, outer, a.stages, source, Pre, ArgsSide, s).state;
    CheckInside(env, b, redacted);
    LookConcat(redacted.payload.args, p, q[|p|..]);
    assert q == p + q[|p|..];
    if p == q {
      RedactOutside(env, a, RunOnField(env, inner, b.stages, source, Pre, ArgsSide, s).state);
    }
  }

  /** These two rules, when no stage calls a plugin, may be taken in either order. */
  predicate Interchangeable(env: Env, phase: DispatchPhase, side: Side, a: FieldRule, b: FieldRule, s: State) {
    PluginFree(a.stages) && PluginFree(b.stages) && (side.ResultSide? ==> s.payload.result.Some?)
    ==> Agree(env, phase, side, [a, b], [b, a], s)
  }

  ghost predicate OrderFree(env: Env, p: string, q: string) {
    forall phase, side, a: FieldRule, b: FieldRule, s :: a.field == p && b.field == q ==> Interchangeable(env, phase, side, a, b, s)
  }

  lemma OverlapIsPrefix(p: seq<string>, q: seq<string>)
    requires !Disjoint(p, q)
    ensures p <= q || q <= p
  {
  }

  /**
   * Field rules on two paths are independent of their order, for all plugin-free stages and all
   * payloads, if and only if neither path is a prefix of the other.
   */
  lemma OrderFreeExactly(env: Env, p: string, q: string)
    ensures OrderFree(env, p, q) <==> Disjoint(Segments(p), Segments(q))
  {
    if Disjoint(Segments(p), Segments(q)) {
      DisjointSymmetric(Segments(p), Segments(q));
      forall phase, side: Side, a: FieldRule, b: FieldRule, s: State | a.field == p && b.field == q
        ensures Interchangeable(env, phase, side, a, b, s)
      {
        if PluginFree(a.stages) && PluginFree(b.stages) && (side.ResultSide? ==> s.payload.result.Some?) {
          OrderMakesNoDifference(env, phase, side, [a, b], [b, a], s);
        }
      }
    } else {
      OverlapIsPrefix(Segments(p), Segments(q));
      if Segments(p) <= Segments(q) {
        var a, b, s := NestedFieldsDependOnOrder(env, p, q, "");
        assert !Interchangeable(env, Pre, ArgsSide, a, b, s);
      } else {
        var b, a, s := NestedFieldsDependOnOrder(env, q, p, "");
        assert !Interchangeable(env, Pre, ArgsSide, a, b, s);
      }
    }
  }
}
