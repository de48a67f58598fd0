/** The config-load check that nothing under a `parallel:` mutates. */
module Purity {
  import opened Prelude
  import opened Policy

  predicate Mutates(e: Effect) {
    e.FieldOp? || e.Delegate? || e.Elicit?
  }

  /** The effects directly inside one. */
  function Children(e: Effect): (inner: seq<Effect>)
    ensures forall c :: c in inner ==> c < e
  {
    match e
    case Sequential(es) => es
    case Parallel(es) => es
    case When(_, body, _) => body
    case Pdp(_, onAllow, onDeny) => onAllow + onDeny
    case _ => []
  }

  predicate ContainsMutation(e: Effect) {
    match e
    case FieldOp(_, _) => true
    case Delegate(_) => true
    case Elicit(_) => true
    case Sequential(es) => exists i :: 0 <= i < |es| && ContainsMutation(es[i])
    case Parallel(es) => exists i :: 0 <= i < |es| && ContainsMutation(es[i])
    case When(_, body, _) => exists i :: 0 <= i < |body| && ContainsMutation(body[i])
    case Pdp(_, onAllow, onDeny) =>
      || (exists i :: 0 <= i < |onAllow| && ContainsMutation(onAllow[i]))
      || (exists i :: 0 <= i < |onDeny| && ContainsMutation(onDeny[i]))
    case _ => false
  }

  /** The check itself; the error is the branch it names. */
  function ValidateParallelPurity(e: Effect): Result<(), Effect>
    decreases e, 1
  {
    match e
    case Parallel(es) => ValidateBranches(es)
    case Sequential(es) => ValidateEach(es)
    case When(_, body, _) => ValidateEach(body)
    case Pdp(_, onAllow, onDeny) =>
      var first := ValidateEach(onAllow);
      if first.Err? then first else ValidateEach(onDeny)
    case _ => Ok(())
  }

  function ValidateEach(es: seq<Effect>): Result<(), Effect>
    decreases es, 0
  {
    if es == [] then Ok(())
    else
      var first := ValidateParallelPurity(es[0]);
      if first.Err? then first else ValidateEach(es[1..])
  }

  function ValidateBranches(es: seq<Effect>): Result<(), Effect>
    decreases es, 0
  {
    if es == [] then Ok(())
    else if ContainsMutation(es[0]) then Err(es[0])
    else
      var first := ValidateParallelPurity(es[0]);
      if first.Err? then first else ValidateBranches(es[1..])
  }

  predicate Pure(e: Effect) { ValidateParallelPurity(e).Ok? }

  predicate AllPure(es: seq<Effect>) { forall i :: 0 <= i < |es| ==> Pure(es[i]) }

  // ---- The tree the check walks, by position.

  /** The effect at a position: the child numbers from the root down. */
  function NodeAt(e: Effect, path: seq<nat>): Option<Effect>
    decreases |path|
  {
    if path == [] then Some(e)
    else if path[0] < |Children(e)| then NodeAt(Children(e)[path[0]], path[1..])
    else None
  }

  /** A mutation sits at `path`. */
  predicate MutationAt(e: Effect, path: seq<nat>) {
    var node := NodeAt(e, path);
    node.Some? && Mutates(node.value)
  }

  /** Some effect strictly above `path` is a parallel block. */
  predicate UnderParallel(e: Effect, path: seq<nat>)
    decreases |path|
  {
    && path != [] && path[0] < |Children(e)|
    && (e.Parallel? || UnderParallel(Children(e)[path[0]], path[1..]))
  }

  /** A mutation sits below a parallel block, however deep. */
  predicate ViolationAt(e: Effect, path: seq<nat>) {
    MutationAt(e, path) && UnderParallel(e, path)
  }

  lemma ChildAt(e: Effect, i: nat, path: seq<nat>)
    requires i < |Children(e)|
    ensures NodeAt(e, [i] + path) == NodeAt(Children(e)[i], path)
    ensures UnderParallel(e, [i] + path) <==> e.Parallel? || UnderParallel(Children(e)[i], path)
  {
    assert ([i] + path)[1..] == path;
  }

  predicate SomeContains(es: seq<Effect>) { exists i :: 0 <= i < |es| && ContainsMutation(es[i]) }

  lemma SomeContainsConcat(xs: seq<Effect>, ys: seq<Effect>)
    ensures SomeContains(xs + ys) <==> SomeContains(xs) || SomeContains(ys)
  {
    var zs := xs + ys;
    forall i | 0 <= i < |xs| ensures ContainsMutation(xs[i]) == ContainsMutation(zs[i]) {
    }
    forall i | 0 <= i < |ys| ensures ContainsMutation(ys[i]) == ContainsMutation(zs[|xs| + i]) {
    }
    forall i | 0 <= i < |zs| && ContainsMutation(zs[i]) ensures SomeContains(xs) || SomeContains(ys) {
      assert zs[i] == if i < |xs| then xs[i] else ys[i - |xs|];
    }
  }

  lemma ContainsByChildren(e: Effect)
    ensures ContainsMutation(e) <==> Mutates(e) || SomeContains(Children(e))
  {
    if e.Pdp? {
      SomeContainsConcat(e.onAllow, e.onDeny);
    }
  }

  lemma {:induction false} ContainsFromPath(e: Effect, path: seq<nat>)
    requires MutationAt(e, path)
    ensures ContainsMutation(e)
    decreases |path|
  {
    ContainsByChildren(e);
    if path != [] {
      ContainsFromPath(Children(e)[path[0]], path[1..]);
    }
  }

  lemma {:induction false} PathToMutation(e: Effect) returns (path: seq<nat>)
    requires ContainsMutation(e)
    ensures MutationAt(e, path)
  {
    ContainsByChildren(e);
    if Mutates(e) {
      path := [];
    } else {
      var i :| 0 <= i < |Children(e)| && ContainsMutation(Children(e)[i]);
      var rest := PathToMutation(Children(e)[i]);
      ChildAt(e, i, rest);
      path := [i] + rest;
    }
  }

  /** `contains_mutation` is the presence of a field operation, delegation or elicitation at any depth. */
  lemma ContainsMutationExactly(e: Effect)
    ensures ContainsMutation(e) <==> exists path :: MutationAt(e, path)
  {
    if ContainsMutation(e) {
      var path := PathToMutation(e);
    }
    forall path | MutationAt(e, path) ensures ContainsMutation(e) {
      ContainsFromPath(e, path);
    }
  }

  lemma {:induction false} EachPure(es: seq<Effect>)
    ensures ValidateEach(es).Ok? <==> AllPure(es)
  {
    if es != [] {
      EachPure(es[1..]);
      assert AllPure(es) <==> Pure(es[0]) && AllPure(es[1..]) by {
        assert forall i :: 0 < i < |es| ==> es[i] == es[1..][i - 1];
      }
    }
  }

  lemma {:induction false} BranchesPure(es: seq<Effect>)
    ensures ValidateBranches(es).Ok? <==> AllPure(es) && forall i :: 0 <= i < |es| ==> !ContainsMutation(es[i])
  {
    if es != [] {
      BranchesPure(es[1..]);
      assert forall i :: 0 < i < |es| ==> es[i] == es[1..][i - 1];
      assert AllPure(es) <==> Pure(es[0]) && AllPure(es[1..]);
    }
  }

  lemma PureByChildren(e: Effect)
    ensures Pure(e) <==> AllPure(Children(e)) && (e.Parallel? ==> forall i :: 0 <= i < |Children(e)| ==> !ContainsMutation(Children(e)[i]))
  {
    match e
    case Parallel(es) => BranchesPure(es);
    case Sequential(es) => EachPure(es);
    case When(_, body, _) => EachPure(body);
    case Pdp(_, onAllow, onDeny) =>
      EachPure(onAllow);
      EachPure(onDeny);
      assert forall i :: 0 <= i < |onAllow| ==> Children(e)[i] == onAllow[i];
      assert forall i :: 0 <= i < |onDeny| ==> Children(e)[|onAllow| + i] == onDeny[i];
    case _ =>
  }

  lemma {:induction false} ViolationFound(e: Effect, path: seq<nat>)
    requires ViolationAt(e, path)
    ensures !Pure(e)
    decreases |path|
  {
    PureByChildren(e);
    var child := Children(e)[path[0]];
    if e.Parallel? {
      ContainsFromPath(child, path[1..]);
    } else {
      ViolationFound(child, path[1..]);
    }
  }

  lemma {:induction false} PathToViolation(e: Effect) returns (path: seq<nat>)
    requires !Pure(e)
    ensures ViolationAt(e, path)
  {
    PureByChildren(e);
    if i :| 0 <= i < |Children(e)| && !Pure(Children(e)[i]) {
      var rest := PathToViolation(Children(e)[i]);
      ChildAt(e, i, rest);
      path := [i] + rest;
    } else {
      var i :| 0 <= i < |Children(e)| && ContainsMutation(Children(e)[i]);
      var rest := PathToMutation(Children(e)[i]);
      ChildAt(e, i, rest);
      path := [i] + rest;
    }
  }

  /**
   * The check accepts exactly the trees with no field operation, delegation or elicitation under a
   * parallel block, at any depth and through any nesting.
   */
  lemma PurityExactly(e: Effect)
    ensures ValidateParallelPurity(e).Ok? <==> !exists path :: ViolationAt(e, path)
  {
    if !Pure(e) {
      var path := PathToViolation(e);
    }
    forall path | ViolationAt(e, path) ensures !Pure(e) {
      ViolationFound(e, path);
    }
  }

  /** The named branch is one: a direct child of a parallel block of the tree, holding a mutation. */
  lemma {:induction false} NamedBranch(e: Effect) returns (path: seq<nat>, i: nat)
    requires ValidateParallelPurity(e).Err?
    ensures NodeAt(e, path).Some? && NodeAt(e, path).value.Parallel? && i < |NodeAt(e, path).value.effects|
    ensures ValidateParallelPurity(e).error == NodeAt(e, path).value.effects[i]
    ensures ContainsMutation(ValidateParallelPurity(e).error)
  {
    var child;
    var named := ValidateParallelPurity(e).error;
    match e {
      case Parallel(es) =>
        child := FirstBadBranch(es);
        if ContainsMutation(es[child]) {
          return [], child;
        }
      case Sequential(es) => child := FirstBad(es);
      case When(_, body, _) => child := FirstBad(body);
      case Pdp(_, onAllow, onDeny) =>
        if ValidateEach(onAllow).Err? {
          child := FirstBad(onAllow);
          assert Children(e)[child] == onAllow[child];
        } else {
          child := FirstBad(onDeny);
          child := |onAllow| + child;
        }
    }
    var rest;
    rest, i := NamedBranch(Children(e)[child]);
    ChildAt(e, child, rest);
    path := [child] + rest;
  }

  lemma {:induction false} FirstBad(es: seq<Effect>) returns (i: nat)
    requires ValidateEach(es).Err?
    ensures i < |es| && ValidateParallelPurity(es[i]) == ValidateEach(es)
  {
    if ValidateParallelPurity(es[0]).Err? {
      i := 0;
    } else {
      i := FirstBad(es[1..]);
      i := i + 1;
    }
  }

  lemma {:induction false} FirstBadBranch(es: seq<Effect>) returns (i: nat)
    requires ValidateBranches(es).Err?
    ensures i < |es|
    ensures if ContainsMutation(es[i]) then ValidateBranches(es).error == es[i]
            else ValidateParallelPurity(es[i]) == ValidateBranches(es)
  {
    if ContainsMutation(es[0]) || ValidateParallelPurity(es[0]).Err? {
      i := 0;
    } else {
      i := FirstBadBranch(es[1..]);
      i := i + 1;
    }
  }
}
