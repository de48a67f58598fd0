/** `merge_attribute_docs`: deep-merge parsed attribute files, refusing a genuine conflict. */
module AttributeMerge {
  import opened Prelude
  import opened Json

  datatype AttributeError = Parse | Conflict(path: string)

  /** The two trees agree wherever both have a leaf, and neither has a leaf where the other has a mapping. */
  predicate Compatible(a: Value, b: Value)
    decreases a
  {
    if a.Obj? && b.Obj? then forall k :: k in a.fields && k in b.fields ==> Compatible(a.fields[k], b.fields[k])
    else a == b
  }

  /** The union of two compatible trees. */
  function Union(a: Value, b: Value): Value
    decreases a
  {
    if a.Obj? && b.Obj? then
      Obj(map k | k in a.fields.Keys + b.fields.Keys ::
            if k !in b.fields then a.fields[k] else if k !in a.fields then b.fields[k]
            else Union(a.fields[k], b.fields[k]))
    else a
  }

  /** The in-place merge; on an error `acc` is left half merged, and its owner drops it. */
  method MergeObject(acc: Cell, incoming: map<string, Value>, prefix: string) returns (outcome: Result<(), AttributeError>)
    requires acc.root.Obj?
    modifies acc
    ensures acc.root.Obj?
    ensures outcome.Ok? <==> Compatible(old(acc.root), Obj(incoming))
    ensures outcome.Ok? ==> acc.root == Union(old(acc.root), Obj(incoming))
    ensures outcome.Err? ==> outcome.error.Conflict?
    decreases Obj(incoming)
  {
    ghost var was := acc.root.fields;
    var fields := acc.root.fields;
    var todo := incoming.Keys;
    while todo != {}
      invariant todo <= incoming.Keys
      invariant fields.Keys == was.Keys + (incoming.Keys - todo)
      invariant forall k :: k in was && k in incoming && k !in todo ==>
                              Compatible(was[k], incoming[k]) && fields[k] == Union(was[k], incoming[k])
      invariant forall k :: k in was && !(k in incoming && k !in todo) ==> fields[k] == was[k]
      invariant forall k :: k in incoming && k !in todo && k !in was ==> fields[k] == incoming[k]
      invariant acc.root == Obj(was)
    {
      var k :| k in todo;
      var v := incoming[k];
      if k in fields {
        if fields[k].Obj? && v.Obj? {
          var nested := new Cell(fields[k]);
          var path := prefix + "." + k;
          var inner := MergeObject(nested, v.fields, path);
          if inner.Err? {
            assert !Compatible(was[k], incoming[k]);
            acc.root := Obj(fields[k := nested.root]);
            return inner;
          }
          fields := fields[k := nested.root];
        } else if fields[k] != v {
          assert !Compatible(was[k], incoming[k]);
          acc.root := Obj(fields);
          return Err(Conflict(prefix + "." + k));
        }
      } else {
        fields := fields[k := v];
      }
      todo := todo - {k};
    }
    acc.root := Obj(fields);
    assert fields == Union(Obj(was), Obj(incoming)).fields;
    return Ok(());
  }

  /** The `data:` mapping of one parsed file; an empty file is fine, stray keys are not. */
  function ExtractData(doc: Value): Result<map<string, Value>, AttributeError> {
    match doc
    case Null => Ok(map[])
    case Obj(m) =>
      if m.Keys - {"data"} != {} then Err(Parse)
      else if "data" !in m || m["data"].Null? then Ok(map[])
      else if m["data"].Obj? then Ok(m["data"].fields)
      else Err(Parse)
    case _ => Err(Parse)
  }

  /** The file's tree, an empty one when the file is malformed. */
  function Tree(doc: Value): (tree: Value)
    ensures tree.Obj?
  {
    var data := ExtractData(doc);
    if data.Ok? then Obj(data.value) else Obj(map[])
  }

  /**
   * A file is well formed exactly when it is empty, or a mapping with no key but `data:` over a mapping
   * or nothing; its tree is what stands under `data:`, at every path.
   */
  lemma DocumentExactly(doc: Value, path: seq<string>)
    ensures ExtractData(doc).Ok? <==>
              || doc == Null || doc == Obj(map[])
              || exists data: Value :: doc == Obj(map["data" := data]) && (data.Null? || data.Obj?)
    ensures ExtractData(doc).Ok? && path != [] ==> Look(Tree(doc), path) == Look(doc, ["data"] + path)
  {
    if doc.Obj? && ExtractData(doc).Ok? {
      if "data" in doc.fields {
        assert doc.fields.Keys == {"data"};
        assert doc == Obj(map["data" := doc.fields["data"]]);
      } else {
        assert doc.fields.Keys == {};
        assert doc.fields == map[];
      }
    }
    assert (["data"] + path)[1..] == path;
  }

  ghost predicate PairwiseCompatible(docs: seq<Value>) {
    forall i, j :: 0 <= i < j < |docs| ==> Compatible(Tree(docs[i]), Tree(docs[j]))
  }

  ghost predicate WellFormed(docs: seq<Value>) {
    forall i :: 0 <= i < |docs| ==> ExtractData(docs[i]).Ok?
  }

  /** The union of all the documents' trees, in order. */
  ghost function UnionAll(docs: seq<Value>): (tree: Value)
    ensures tree.Obj?
  {
    if docs == [] then Obj(map[])
    else Union(UnionAll(docs[..|docs| - 1]), Tree(docs[|docs| - 1]))
  }

  /** Succeeds exactly when every document is well formed and all of them are pairwise compatible. */
  method MergeAttributeDocs(docs: seq<Value>) returns (outcome: Result<Value, AttributeError>)
    ensures outcome.Ok? <==> WellFormed(docs) && PairwiseCompatible(docs)
    ensures outcome.Ok? ==> outcome.value == UnionAll(docs)
  {
    var acc := new Cell(Obj(map[]));
    for i := 0 to |docs|
      invariant acc.root == UnionAll(docs[..i])
      invariant WellFormed(docs[..i]) && PairwiseCompatible(docs[..i])
    {
      var data := ExtractData(docs[i]);
      ghost var upTo := docs[..i + 1];
      assert upTo[..i] == docs[..i];
      assert upTo[i] == docs[i];
      if data.Err? {
        return Err(data.error);
      }
      CompatibleWithUnionAll(docs[..i], Obj(data.value));
      var merged := MergeObject(acc, data.value, "data");
      if merged.Err? {
        assert !PairwiseCompatible(docs) by {
          var j :| 0 <= j < i && !Compatible(Tree(docs[..i][j]), Obj(data.value));
          assert !Compatible(Tree(docs[j]), Tree(docs[i]));
        }
        return Err(merged.error);
      }
      assert forall j :: 0 <= j < i ==> docs[..i][j] == upTo[j];
    }
    assert docs[..|docs|] == docs;
    return Ok(acc.root);
  }

  lemma {:induction false} CompatibleSymmetric(a: Value, b: Value)
    ensures Compatible(a, b) == Compatible(b, a)
    decreases a
  {
    if a.Obj? && b.Obj? {
      forall k | k in a.fields && k in b.fields
        ensures Compatible(a.fields[k], b.fields[k]) == Compatible(b.fields[k], a.fields[k])
      {
        CompatibleSymmetric(a.fields[k], b.fields[k]);
      }
    }
  }

  lemma {:induction false} UnionCommutes(a: Value, b: Value)
    requires Compatible(a, b)
    ensures Union(a, b) == Union(b, a)
    decreases a
  {
    if a.Obj? && b.Obj? {
      forall k | k in a.fields && k in b.fields
        ensures Union(a.fields[k], b.fields[k]) == Union(b.fields[k], a.fields[k])
      {
        UnionCommutes(a.fields[k], b.fields[k]);
      }
      assert Union(a, b).fields == Union(b, a).fields;
    }
  }

  /** A third tree fits the union of two exactly when it fits both. */
  lemma {:induction false} CompatibleWithUnion(a: Value, b: Value, c: Value)
    requires Compatible(a, b)
    ensures Compatible(Union(a, b), c) <==> Compatible(a, c) && Compatible(b, c)
    decreases a
  {
    if a.Obj? && b.Obj? && c.Obj? {
      var u := Union(a, b);
      forall k | k in u.fields && k in c.fields
        ensures Compatible(u.fields[k], c.fields[k]) <==>
                (k in a.fields ==> Compatible(a.fields[k], c.fields[k])) && (k in b.fields ==> Compatible(b.fields[k], c.fields[k]))
      {
        if k in a.fields && k in b.fields {
          CompatibleWithUnion(a.fields[k], b.fields[k], c.fields[k]);
        }
      }
    }
  }

  lemma {:induction false} UnionAssociates(a: Value, b: Value, c: Value)
    requires Compatible(a, b) && Compatible(a, c) && Compatible(b, c)
    ensures Union(Union(a, b), c) == Union(a, Union(b, c))
    decreases a
  {
    if a.Obj? && b.Obj? && c.Obj? {
      var left := Union(Union(a, b), c);
      var right := Union(a, Union(b, c));
      forall k | k in left.fields ensures k in right.fields && left.fields[k] == right.fields[k] {
        if k in a.fields && k in b.fields && k in c.fields {
          UnionAssociates(a.fields[k], b.fields[k], c.fields[k]);
        }
      }
      assert left.fields == right.fields;
    }
  }

  lemma {:induction false} CompatibleWithUnionAll(docs: seq<Value>, c: Value)
    requires PairwiseCompatible(docs) && c.Obj?
    ensures Compatible(UnionAll(docs), c) <==> forall i :: 0 <= i < |docs| ==> Compatible(Tree(docs[i]), c)
    decreases |docs|
  {
    if docs != [] {
      var n := |docs| - 1;
      var front := docs[..n];
      CompatibleWithUnionAll(front, c);
      CompatibleWithUnionAll(front, Tree(docs[n]));
      assert forall i :: 0 <= i < n ==> front[i] == docs[i];
      CompatibleWithUnion(UnionAll(front), Tree(docs[n]), c);
    }
  }

  lemma {:induction false} UnionAllSnoc(docs: seq<Value>)
    requires docs != []
    ensures UnionAll(docs) == Union(UnionAll(docs[..|docs| - 1]), Tree(docs[|docs| - 1]))
  {
  }

  lemma OthersCompatible(docs: seq<Value>, i: nat)
    requires i < |docs| && PairwiseCompatible(docs)
    ensures PairwiseCompatible(RemoveAt(docs, i))
    ensures forall j :: 0 <= j < |docs| - 1 ==> Compatible(Tree(RemoveAt(docs, i)[j]), Tree(docs[i]))
  {
    var rest := RemoveAt(docs, i);
    var x := Tree(docs[i]);
    forall j, k | 0 <= j < k < |rest| ensures Compatible(Tree(rest[j]), Tree(rest[k])) {
      var j', k' := if j < i then j else j + 1, if k < i then k else k + 1;
      assert rest[j] == docs[j'] && rest[k] == docs[k'];
    }
    forall j | 0 <= j < |rest| ensures Compatible(Tree(rest[j]), x) {
      if j < i {
        assert rest[j] == docs[j];
      } else {
        assert rest[j] == docs[j + 1];
        CompatibleSymmetric(x, Tree(docs[j + 1]));
      }
    }
  }

  lemma LastCompatible(docs: seq<Value>, front: seq<Value>)
    requires docs != [] && PairwiseCompatible(docs) && front == docs[..|docs| - 1]
    ensures PairwiseCompatible(front)
    ensures forall j :: 0 <= j < |front| ==> Compatible(Tree(front[j]), Tree(docs[|docs| - 1]))
  {
    assert forall j :: 0 <= j < |front| ==> front[j] == docs[j];
  }

  /** Any document can be taken out of the union and put back last. */
  lemma {:induction false} UnionAllLast(docs: seq<Value>, i: nat)
    requires i < |docs| && PairwiseCompatible(docs)
    ensures PairwiseCompatible(RemoveAt(docs, i))
    ensures Compatible(UnionAll(RemoveAt(docs, i)), Tree(docs[i]))
    ensures UnionAll(docs) == Union(UnionAll(RemoveAt(docs, i)), Tree(docs[i]))
    decreases |docs|
  {
    var n := |docs| - 1;
    var rest := RemoveAt(docs, i);
    var x := Tree(docs[i]);
    OthersCompatible(docs, i);
    CompatibleWithUnionAll(rest, x);
    UnionAllSnoc(docs);
    if i == n {
      assert rest == docs[..n];
    } else {
      var front := docs[..n];
      UnionAllLast(front, i);
      var frontRest := RemoveAt(front, i);
      assert rest[..|rest| - 1] == frontRest && rest[|rest| - 1] == docs[n];
      UnionAllSnoc(rest);
      LastCompatible(rest, frontRest);
      CompatibleWithUnionAll(frontRest, Tree(docs[n]));
      SwapLast(UnionAll(frontRest), x, Tree(docs[n]));
    }
  }

  lemma SwapLast(r: Value, x: Value, last: Value)
    requires r.Obj? && x.Obj? && last.Obj? && Compatible(r, x) && Compatible(r, last) && Compatible(x, last)
    ensures Union(Union(r, x), last) == Union(Union(r, last), x)
  {
    UnionAssociates(r, x, last);
    UnionCommutes(x, last);
    CompatibleSymmetric(x, last);
    UnionAssociates(r, last, x);
  }

  lemma PermutedStillWellFormed(docs: seq<Value>, others: seq<Value>)
    requires Permutation(docs, others) && WellFormed(docs)
    ensures WellFormed(others)
  {
    forall i | 0 <= i < |others| ensures ExtractData(others[i]).Ok? {
      assert others[i] in multiset(docs);
      var j :| 0 <= j < |docs| && docs[j] == others[i];
    }
  }

  lemma InsertKeepsCompatible(docs: seq<Value>, i: nat)
    requires i < |docs| && PairwiseCompatible(RemoveAt(docs, i))
    requires forall j :: 0 <= j < |docs| - 1 ==> Compatible(Tree(RemoveAt(docs, i)[j]), Tree(docs[i]))
    ensures PairwiseCompatible(docs)
  {
    var rest := RemoveAt(docs, i);
    var x := Tree(docs[i]);
    forall j, k | 0 <= j < k < |docs| ensures Compatible(Tree(docs[j]), Tree(docs[k])) {
      if j != i && k != i {
        var j', k' := if j < i then j else j - 1, if k < i then k else k - 1;
        assert rest[j'] == docs[j] && rest[k'] == docs[k];
      } else if k == i {
        assert rest[j] == docs[j];
      } else {
        assert rest[k - 1] == docs[k];
        CompatibleSymmetric(x, Tree(docs[k]));
      }
    }
  }

  lemma MergeOrderStep(docs: seq<Value>, others: seq<Value>, i: nat)
    requires docs != [] && i < |others| && others[i] == docs[0]
    requires PairwiseCompatible(docs) && PairwiseCompatible(RemoveAt(others, i))
    requires UnionAll(docs[1..]) == UnionAll(RemoveAt(others, i))
    ensures PairwiseCompatible(others)
    ensures UnionAll(docs) == UnionAll(others)
  {
    assert RemoveAt(docs, 0) == docs[1..];
    UnionAllLast(docs, 0);
    CompatibleWithUnionAll(RemoveAt(others, i), Tree(docs[0]));
    InsertKeepsCompatible(others, i);
    UnionAllLast(others, i);
  }

  lemma {:induction false} UnionAllPermuted(docs: seq<Value>, others: seq<Value>)
    requires Permutation(docs, others) && PairwiseCompatible(docs)
    ensures PairwiseCompatible(others)
    ensures UnionAll(docs) == UnionAll(others)
    decreases |docs|
  {
    if docs == [] {
      assert |multiset(docs)| == |multiset(others)|;
    } else {
      var i := PermutationHead(docs, others);
      assert PairwiseCompatible(docs[1..]) by {
        assert forall j :: 0 <= j < |docs| - 1 ==> docs[1..][j] == docs[j + 1];
      }
      UnionAllPermuted(docs[1..], RemoveAt(others, i));
      MergeOrderStep(docs, others, i);
    }
  }

  /** The order of the files never matters: any permutation of documents that merge, merges to the same tree. */
  lemma MergeOrderIrrelevant(docs: seq<Value>, others: seq<Value>)
    requires Permutation(docs, others)
    ensures WellFormed(docs) && PairwiseCompatible(docs) <==> WellFormed(others) && PairwiseCompatible(others)
    ensures PairwiseCompatible(docs) ==> UnionAll(docs) == UnionAll(others)
  {
    if WellFormed(docs) {
      PermutedStillWellFormed(docs, others);
    }
    if WellFormed(others) {
      PermutedStillWellFormed(others, docs);
    }
    if PairwiseCompatible(docs) {
      UnionAllPermuted(docs, others);
    }
    if PairwiseCompatible(others) {
      UnionAllPermuted(others, docs);
    }
  }

  /** A path leads to a leaf of the union exactly when it leads to that leaf in one of the two trees. */
  lemma {:induction false} UnionLeaves(a: Value, b: Value, path: seq<string>)
    requires Compatible(a, b)
    ensures var u := Look(Union(a, b), path);
            && (u.Some? <==> Look(a, path).Some? || Look(b, path).Some?)
            && (u.Some? && !u.value.Obj? ==> (Look(a, path).Some? ==> Look(a, path) == u) && (Look(b, path).Some? ==> Look(b, path) == u))
            && (u.Some? && u.value.Obj? ==> (Look(a, path).Some? ==> Look(a, path).value.Obj?) && (Look(b, path).Some? ==> Look(b, path).value.Obj?))
    decreases |path|
  {
    if path != [] && a.Obj? && b.Obj? {
      var k := path[0];
      if k in a.fields && k in b.fields {
        UnionLeaves(a.fields[k], b.fields[k], path[1..]);
      }
    }
  }

  /** The merged tree's leaves are exactly the documents' leaves, each at its own path. */
  lemma {:induction false} UnionAllLeaves(docs: seq<Value>, path: seq<string>)
    requires PairwiseCompatible(docs) && path != []
    ensures var u := Look(UnionAll(docs), path);
            && (u.Some? <==> exists i :: 0 <= i < |docs| && Look(Tree(docs[i]), path).Some?)
            && forall i :: 0 <= i < |docs| && Look(Tree(docs[i]), path).Some? ==>
                 var leaf := Look(Tree(docs[i]), path); u.Some? && (if u.value.Obj? then leaf.value.Obj? else leaf == u)
    decreases |docs|
  {
    if docs != [] {
      var n := |docs| - 1;
      var front := docs[..n];
      assert forall i :: 0 <= i < n ==> front[i] == docs[i];
      UnionAllLeaves(front, path);
      CompatibleWithUnionAll(front, Tree(docs[n]));
      UnionLeaves(UnionAll(front), Tree(docs[n]), path);
    }
  }
}
