/** Dotted field access on the route payload: `get_dotted`, `set_dotted` and `remove_dotted`. */
module DottedPath {
  import opened Prelude
  import opened Json

  /** The segments of a dotted path. */
  function Segments(path: string): (segs: seq<string>)
    ensures segs != []
  {
    Split(path, '.')
  }

  /** What a pipeline does to the field it was given. */
  datatype Edit = Set(value: Value) | Remove

  /** Whether the edit finds its place: every parent is an object and a removed field exists. */
  predicate Lands(v: Value, segs: seq<string>, edit: Edit)
    requires segs != []
    decreases |segs|
  {
    && v.Obj?
    && if |segs| == 1 then edit.Set? || segs[0] in v.fields
       else segs[0] in v.fields && Lands(v.fields[segs[0]], segs[1..], edit)
  }

  /** The tree after the edit; parents are never created, so an edit that does not land changes nothing. */
  function Apply(v: Value, segs: seq<string>, edit: Edit): Value
    requires segs != []
    decreases |segs|
  {
    if !v.Obj? then v
    else if |segs| == 1 then
      match edit
      case Set(x) => Obj(v.fields[segs[0] := x])
      case Remove => Obj(v.fields - {segs[0]})
    else if segs[0] in v.fields then
      Obj(v.fields[segs[0] := Apply(v.fields[segs[0]], segs[1..], edit)])
    else v
  }

  /** The write through a reference to the node at `path`. */
  function ReplaceAt(v: Value, path: seq<string>, node: Value): Value
    requires Look(v, path).Some?
    decreases |path|
  {
    if path == [] then node
    else Obj(v.fields[path[0] := ReplaceAt(v.fields[path[0]], path[1..], node)])
  }

  /** An edit at `segs` is an edit of the last segment in the node its parents lead to. */
  lemma {:induction false} ApplyThroughParents(v: Value, segs: seq<string>, i: nat, edit: Edit)
    requires i < |segs|
    ensures var node := Look(v, segs[..i]);
            && Lands(v, segs, edit) == (node.Some? && Lands(node.value, segs[i..], edit))
            && (node.Some? ==> Apply(v, segs, edit) == ReplaceAt(v, segs[..i], Apply(node.value, segs[i..], edit)))
    decreases i
  {
    if i == 0 {
      assert segs[..0] == [] && segs[0..] == segs;
    } else {
      assert segs[..i][1..] == segs[1..][..i - 1];
      assert segs[1..][i - 1..] == segs[i..];
      if v.Obj? && segs[0] in v.fields {
        ApplyThroughParents(v.fields[segs[0]], segs[1..], i - 1, edit);
      }
    }
  }

  /** Reads `root.a.b.c`; absent when a segment is missing or crosses a non-object. */
  method GetDotted(root: Value, path: string) returns (found: Option<Value>)
    ensures found == Look(root, Segments(path))
  {
    var segs := Segments(path);
    var cur := root;
    for i := 0 to |segs|
      invariant Look(root, segs) == Look(cur, segs[i..])
    {
      if !cur.Obj? || segs[i] !in cur.fields {
        return None;
      }
      cur := cur.fields[segs[i]];
    }
    return Some(cur);
  }

  /** The loop both writers share: follow the parents of the leaf, stopping at the first that is not an object. */
  method FollowParents(root: Value, segs: seq<string>) returns (parent: Option<Value>)
    requires segs != []
    ensures parent.Some? ==> parent == Look(root, segs[..|segs| - 1])
    ensures parent.None? ==> forall edit :: !Lands(root, segs, edit)
  {
    var cur := root;
    var n := |segs| - 1;
    for i := 0 to n
      invariant Look(root, segs[..i]) == Some(cur)
    {
      var present := cur.Obj? && segs[i] in cur.fields;
      if !present || !cur.fields[segs[i]].Obj? {
        forall edit ensures !Lands(root, segs, edit) {
          ApplyThroughParents(root, segs, i, edit);
        }
        return None;
      }
      LookConcat(root, segs[..i], [segs[i]]);
      assert segs[..i + 1] == segs[..i] + [segs[i]];
      cur := cur.fields[segs[i]];
    }
    return Some(cur);
  }

  method SetDotted(cell: Cell, path: string, value: Value) returns (landed: bool)
    modifies cell
    ensures landed == Lands(old(cell.root), Segments(path), Set(value))
    ensures cell.root == Apply(old(cell.root), Segments(path), Set(value))
  {
    var segs := Segments(path);
    var n := |segs| - 1;
    var parent := FollowParents(cell.root, segs);
    if parent.None? {
      NoLandNoChange(cell.root, segs, Set(value));
      return false;
    }
    ApplyThroughParents(cell.root, segs, n, Set(value));
    if parent.value.Obj? {
      cell.root := ReplaceAt(cell.root, segs[..n], Obj(parent.value.fields[segs[n] := value]));
      return true;
    }
    NoLandNoChange(cell.root, segs, Set(value));
    return false;
  }

  method RemoveDotted(cell: Cell, path: string) returns (removed: bool)
    modifies cell
    ensures removed == Lands(old(cell.root), Segments(path), Remove)
    ensures cell.root == Apply(old(cell.root), Segments(path), Remove)
  {
    var segs := Segments(path);
    var n := |segs| - 1;
    var parent := FollowParents(cell.root, segs);
    if parent.None? {
      NoLandNoChange(cell.root, segs, Remove);
      return false;
    }
    ApplyThroughParents(cell.root, segs, n, Remove);
    if parent.value.Obj? {
      removed := segs[n] in parent.value.fields;
      cell.root := ReplaceAt(cell.root, segs[..n], Obj(parent.value.fields - {segs[n]}));
      return;
    }
    NoLandNoChange(cell.root, segs, Remove);
    return false;
  }

  lemma {:induction false} NoLandNoChange(v: Value, segs: seq<string>, edit: Edit)
    requires segs != [] && !Lands(v, segs, edit)
    ensures Apply(v, segs, edit) == v
    decreases |segs|
  {
    if v.Obj? {
      if |segs| == 1 {
        assert v.fields - {segs[0]} == v.fields;
      } else if segs[0] in v.fields {
        NoLandNoChange(v.fields[segs[0]], segs[1..], edit);
      }
    }
  }

  /** A write lands exactly when the parent is an object; a removal exactly when the field is found. */
  lemma {:induction false} LandsExactly(v: Value, segs: seq<string>, x: Value)
    requires segs != []
    ensures var parent := Look(v, segs[..|segs| - 1]);
            Lands(v, segs, Set(x)) <==> parent.Some? && parent.value.Obj?
    ensures Lands(v, segs, Remove) <==> Look(v, segs).Some?
    decreases |segs|
  {
    if |segs| > 1 {
      assert segs[..|segs| - 1][1..] == segs[1..][..|segs| - 2];
      if v.Obj? && segs[0] in v.fields {
        LandsExactly(v.fields[segs[0]], segs[1..], x);
      }
    }
  }

  /** Once a field has been found, the edit that follows always lands. */
  lemma {:induction false} FoundLands(v: Value, segs: seq<string>, edit: Edit)
    requires segs != [] && Look(v, segs).Some?
    ensures Lands(v, segs, edit)
    decreases |segs|
  {
    if |segs| > 1 {
      FoundLands(v.fields[segs[0]], segs[1..], edit);
    }
  }

  /** A landed edit is what a later read of the same field sees. */
  lemma {:induction false} LookAfterApply(v: Value, segs: seq<string>, edit: Edit)
    requires segs != [] && Lands(v, segs, edit)
    ensures Look(Apply(v, segs, edit), segs) == if edit.Set? then Some(edit.value) else None
    decreases |segs|
  {
    if |segs| > 1 {
      LookAfterApply(v.fields[segs[0]], segs[1..], edit);
    }
  }

  /** An edit is invisible at every field it neither contains nor lies within. */
  lemma {:induction false} ApplyFrame(v: Value, p: seq<string>, edit: Edit, q: seq<string>)
    requires p != [] && Disjoint(p, q)
    ensures Look(Apply(v, p, edit), q) == Look(v, q)
    decreases |p|
  {
    if v.Obj? && p[0] == q[0] && p[0] in v.fields {
      DisjointTails(p, q);
      ApplyFrame(v.fields[p[0]], p[1..], edit, q[1..]);
    }
  }

  /** Edits of disjoint fields commute. */
  lemma {:induction false} ApplyCommutes(v: Value, p: seq<string>, e: Edit, q: seq<string>, f: Edit)
    requires p != [] && q != [] && Disjoint(p, q)
    ensures Apply(Apply(v, p, e), q, f) == Apply(Apply(v, q, f), p, e)
    decreases |p|
  {
    if v.Obj? {
      var a := Apply(Apply(v, p, e), q, f);
      var b := Apply(Apply(v, q, f), p, e);
      if p[0] == q[0] {
        if p[0] in v.fields {
          DisjointTails(p, q);
          ApplyCommutes(v.fields[p[0]], p[1..], e, q[1..], f);
        }
      }
      assert a.fields == b.fields;
    }
  }
}
