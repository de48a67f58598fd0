/**
 * `apply_changed_paths`: fold one editor's changes (`pre` to `post`) into a tree
 * another editor has since rewritten (`base`).
 */
module ThreeWayMerge {
  import opened Prelude
  import opened Json

  function Field(fields: map<string, Value>, k: string): Option<Value> {
    if k in fields then Some(fields[k]) else None
  }

  /** The merged tree. */
  function Merge(base: Value, pre: Value, post: Value): Value
    decreases pre
  {
    if !pre.Obj? || !post.Obj? then (if pre != post then post else base)
    else if !base.Obj? then post
    else
      Obj(map k | k in base.fields.Keys + post.fields.Keys && MergeField(base.fields, pre, post.fields, k).Some?
            :: MergeField(base.fields, pre, post.fields, k).value)
  }

  /** What the merged object holds at key `k`. */
  function MergeField(base: map<string, Value>, pre: Value, post: map<string, Value>, k: string): Option<Value>
    requires pre.Obj?
    decreases pre, 0
  {
    if k !in post then (if k in pre.fields then None else Field(base, k))
    else if k !in pre.fields then Some(post[k])
    else if pre.fields[k] == post[k] then Field(base, k)
    else if k in base && base[k].Obj? && pre.fields[k].Obj? && post[k].Obj? then
      Some(Merge(base[k], pre.fields[k], post[k]))
    else Some(post[k])
  }

  lemma MergeAt(base: Value, pre: Value, post: Value, k: string)
    requires base.Obj? && pre.Obj? && post.Obj?
    ensures Merge(base, pre, post).Obj?
    ensures Field(Merge(base, pre, post).fields, k) == MergeField(base.fields, pre, post.fields, k)
  {
  }

  /** The in-place walk: first the keys `post` dropped, then the keys it holds, in whatever order they come. */
  method ApplyChangedPaths(base: Cell, pre: Value, post: Value)
    modifies base
    ensures base.root == Merge(old(base.root), pre, post)
    decreases pre
  {
    if !pre.Obj? || !post.Obj? {
      if pre != post {
        base.root := post;
      }
      return;
    }
    if !base.root.Obj? {
      base.root := post;
      return;
    }
    ghost var was := base.root.fields;
    var fields := base.root.fields;
    var todo := pre.fields.Keys;
    while todo != {}
      invariant todo <= pre.fields.Keys
      invariant forall k :: Field(fields, k) ==
                            if k in pre.fields && k !in todo && k !in post.fields then None else Field(was, k)
    {
      var k :| k in todo;
      if k !in post.fields {
        fields := fields - {k};
      }
      todo := todo - {k};
    }
    todo := post.fields.Keys;
    while todo != {}
      invariant todo <= post.fields.Keys
      invariant forall k :: Field(fields, k) ==
                            if k in post.fields && k in todo then Field(was, k) else MergeField(was, pre, post.fields, k)
    {
      var k :| k in todo;
      if k in pre.fields {
        if pre.fields[k] != post.fields[k] {
          if k in fields && fields[k].Obj? && pre.fields[k].Obj? && post.fields[k].Obj? {
            assert Field(fields, k) == Field(was, k);
            var nested := new Cell(fields[k]);
            ApplyChangedPaths(nested, pre.fields[k], post.fields[k]);
            fields := fields[k := nested.root];
          } else {
            assert Field(fields, k) == Field(was, k);
            fields := fields[k := post.fields[k]];
          }
        }
      } else {
        fields := fields[k := post.fields[k]];
      }
      todo := todo - {k};
    }
    base.root := Obj(fields);
    assert base.root == Merge(old(base.root), pre, post) by {
      var merged := Merge(old(base.root), pre, post);
      forall k ensures Field(fields, k) == Field(merged.fields, k) {
        MergeAt(old(base.root), pre, post, k);
      }
      assert forall k :: k in fields <==> Field(fields, k).Some?;
      assert forall k :: k in merged.fields <==> Field(merged.fields, k).Some?;
      assert fields == merged.fields;
    }
  }

  /** Nobody else edited the payload: the result is exactly `post`. */
  lemma {:induction false} MergeOntoPre(pre: Value, post: Value)
    ensures Merge(pre, pre, post) == post
    decreases pre
  {
    if pre.Obj? && post.Obj? {
      var merged := Merge(pre, pre, post);
      forall k ensures Field(merged.fields, k) == Field(post.fields, k) {
        MergeAt(pre, pre, post, k);
        if k in pre.fields && k in post.fields {
          MergeOntoPre(pre.fields[k], post.fields[k]);
        }
      }
      SameFields(merged.fields, post.fields);
    }
  }

  lemma SameFields(a: map<string, Value>, b: map<string, Value>)
    requires forall k :: Field(a, k) == Field(b, k)
    ensures a == b
  {
    forall k ensures k in a <==> k in b {
      assert Field(a, k) == Field(b, k);
    }
    forall k | k in a ensures a[k] == b[k] {
      assert Field(a, k) == Field(b, k);
    }
  }

  /** Merging onto `post` itself changes nothing. */
  lemma {:induction false} MergeOntoPost(pre: Value, post: Value)
    ensures Merge(post, pre, post) == post
    decreases pre
  {
    if pre.Obj? && post.Obj? {
      var merged := Merge(post, pre, post);
      forall k ensures Field(merged.fields, k) == Field(post.fields, k) {
        MergeAt(post, pre, post, k);
        if k in pre.fields && k in post.fields {
          MergeOntoPost(pre.fields[k], post.fields[k]);
        }
      }
      SameFields(merged.fields, post.fields);
    }
  }

  /** Applying the same change twice equals applying it once. */
  lemma {:induction false} MergeIdempotent(base: Value, pre: Value, post: Value)
    ensures Merge(Merge(base, pre, post), pre, post) == Merge(base, pre, post)
    decreases pre
  {
    var once := Merge(base, pre, post);
    if pre.Obj? && post.Obj? {
      if !base.Obj? {
        MergeOntoPost(pre, post);
      } else {
        var twice := Merge(once, pre, post);
        forall k ensures Field(twice.fields, k) == Field(once.fields, k) {
          MergeAt(base, pre, post, k);
          MergeAt(once, pre, post, k);
          if k in pre.fields && k in post.fields {
            MergeOntoPost(pre.fields[k], post.fields[k]);
            if k in base.fields {
              MergeIdempotent(base.fields[k], pre.fields[k], post.fields[k]);
            }
          }
        }
        SameFields(twice.fields, once.fields);
      }
    }
  }

  /** Every path the pipeline set to a new non-object value, or removed, agrees with `post`. */
  lemma {:induction false} ChangedPathsWin(base: Value, pre: Value, post: Value, path: seq<string>)
    requires Look(pre, path) != Look(post, path)
    requires Look(post, path).Some? ==> !Look(post, path).value.Obj?
    ensures Look(Merge(base, pre, post), path) == Look(post, path)
    decreases |path|
  {
    if pre.Obj? && post.Obj? && base.Obj? && path != [] {
      var k := path[0];
      MergeAt(base, pre, post, k);
      if k in pre.fields && k in post.fields && k in base.fields {
        ChangedPathsWin(base.fields[k], pre.fields[k], post.fields[k], path[1..]);
      }
    }
  }

  /** The path is reached through objects: every node above it is one. */
  ghost predicate ThroughObjects(v: Value, path: seq<string>) {
    forall i :: 0 <= i < |path| ==> Look(v, path[..i]).Some? && Look(v, path[..i]).value.Obj?
  }

  lemma ThroughObjectsStep(v: Value, path: seq<string>)
    requires path != [] && ThroughObjects(v, path)
    ensures v.Obj?
    ensures |path| > 1 ==> path[0] in v.fields && ThroughObjects(v.fields[path[0]], path[1..])
  {
    assert path[..0] == [];
    if |path| > 1 {
      var sub := path[1..];
      assert Look(v, path[..1]).Some?;
      forall i | 0 <= i < |sub|
        ensures Look(v.fields[path[0]], sub[..i]).Some? && Look(v.fields[path[0]], sub[..i]).value.Obj?
      {
        assert path[..i + 1][1..] == sub[..i];
        assert Look(v, path[..i + 1]).Some?;
      }
    }
  }

  /** Every path the pipeline left alone, reached through objects in all three trees, keeps `base`'s value. */
  lemma {:induction false} UntouchedPathsStay(base: Value, pre: Value, post: Value, path: seq<string>)
    requires path != []
    requires Look(pre, path) == Look(post, path)
    requires ThroughObjects(base, path) && ThroughObjects(pre, path) && ThroughObjects(post, path)
    ensures Look(Merge(base, pre, post), path) == Look(base, path)
    decreases |path|
  {
    var k := path[0];
    ThroughObjectsStep(base, path);
    ThroughObjectsStep(pre, path);
    ThroughObjectsStep(post, path);
    MergeAt(base, pre, post, k);
    if |path| > 1 {
      UntouchedPathsStay(base.fields[k], pre.fields[k], post.fields[k], path[1..]);
    } else {
      assert Look(pre, path) == Field(pre.fields, k);
      assert Look(post, path) == Field(post.fields, k);
    }
  }

  /**
   * A pipeline that changed nothing keeps the other editor's tree exactly when that editor
   * kept the keyed shape (or left the tree as it was): otherwise the root is put back.
   */
  lemma NoChangeKeepsBase(base: Value, pre: Value)
    ensures Merge(base, pre, pre) == base <==> !pre.Obj? || base.Obj? || base == pre
  {
    if pre.Obj? && base.Obj? {
      var merged := Merge(base, pre, pre);
      forall k ensures Field(merged.fields, k) == Field(base.fields, k) {
        MergeAt(base, pre, pre, k);
      }
      SameFields(merged.fields, base.fields);
    }
  }

  /** Neither editor's change reaches below a node the other one changed. */
  ghost predicate NoOverlap(a: Value, pre: Value, b: Value)
    decreases pre
  {
    || a == pre
    || b == pre
    || (&& a.Obj? && pre.Obj? && b.Obj?
        && forall k :: k in a.fields.Keys + b.fields.Keys + pre.fields.Keys ==> NoOverlapAt(a.fields, pre, b.fields, k))
  }

  ghost predicate NoOverlapAt(a: map<string, Value>, pre: Value, b: map<string, Value>, k: string)
    requires pre.Obj?
    decreases pre, 0
  {
    || Field(a, k) == Field(pre.fields, k)
    || Field(b, k) == Field(pre.fields, k)
    || (k in a && k in b && k in pre.fields && NoOverlap(a[k], pre.fields[k], b[k]))
  }

  /** Two editors who touched different places can be merged from either side with one result. */
  lemma {:induction false} MergeSymmetric(a: Value, pre: Value, b: Value)
    requires NoOverlap(a, pre, b)
    requires pre.Obj? ==> a.Obj? && b.Obj?
    ensures Merge(a, pre, b) == Merge(b, pre, a)
    decreases pre
  {
    if a == pre {
      MergeOntoPre(pre, b);
      NoChangeKeepsBase(b, pre);
    } else if b == pre {
      MergeOntoPre(pre, a);
      NoChangeKeepsBase(a, pre);
    } else {
      var left := Merge(a, pre, b);
      var right := Merge(b, pre, a);
      forall k ensures Field(left.fields, k) == Field(right.fields, k) {
        MergeAt(a, pre, b, k);
        MergeAt(b, pre, a, k);
        if k in a.fields.Keys + b.fields.Keys + pre.fields.Keys {
          assert NoOverlapAt(a.fields, pre, b.fields, k);
          if k in pre.fields && k in a.fields && k in b.fields && a.fields[k] != pre.fields[k] && b.fields[k] != pre.fields[k] {
            assert NoOverlap(a.fields[k], pre.fields[k], b.fields[k]);
            MergeSymmetric(a.fields[k], pre.fields[k], b.fields[k]);
          } else if k in pre.fields && k in a.fields && k in b.fields {
            MergeOntoPre(pre.fields[k], a.fields[k]);
            MergeOntoPre(pre.fields[k], b.fields[k]);
          }
        }
      }
      SameFields(left.fields, right.fields);
    }
  }
}
