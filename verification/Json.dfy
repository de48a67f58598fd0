/** JSON trees as `serde_json::Value` holds them, and the paths that address their nodes. */
module Json {
  import opened Prelude

  /** A JSON number: an integer keeps its exact value, anything else is a floating value. */
  datatype Number = Integer(n: int) | Floating(x: real)

  const I64_MIN: int := -0x8000_0000_0000_0000
  const I64_MAX: int := 0x7FFF_FFFF_FFFF_FFFF

  predicate IsI64(n: int) { I64_MIN <= n <= I64_MAX }

  datatype Value =
    | Null
    | Bool(b: bool)
    | Num(number: Number)
    | Str(s: string)
    | Arr(items: seq<Value>)
    | Obj(fields: map<string, Value>)

  /** The node at `path`, crossing objects only; the empty path is the root. */
  function Look(v: Value, path: seq<string>): Option<Value>
    decreases |path|
  {
    if path == [] then Some(v)
    else if v.Obj? && path[0] in v.fields then Look(v.fields[path[0]], path[1..])
    else None
  }

  lemma {:induction false} LookConcat(v: Value, p: seq<string>, q: seq<string>)
    ensures Look(v, p + q) == if Look(v, p).Some? then Look(Look(v, p).value, q) else None
    decreases |p|
  {
    if p == [] {
      assert p + q == q;
    } else {
      assert (p + q)[1..] == p[1..] + q;
      if v.Obj? && p[0] in v.fields {
        LookConcat(v.fields[p[0]], p[1..], q);
      }
    }
  }

  /** A place holding a tree that its owner edits in place: the source's `&mut serde_json::Value`. */
  class Cell {
    var root: Value

    constructor (v: Value)
      ensures root == v
    {
      root := v;
    }
  }

  /** Neither path is a prefix of the other, so neither node contains the other. */
  predicate Disjoint(p: seq<string>, q: seq<string>) {
    exists i :: 0 <= i < |p| && i < |q| && p[i] != q[i]
  }

  lemma DisjointTails(p: seq<string>, q: seq<string>)
    requires p != [] && q != [] && p[0] == q[0] && Disjoint(p, q)
    ensures Disjoint(p[1..], q[1..])
  {
    var i :| 0 <= i < |p| && i < |q| && p[i] != q[i];
    assert p[1..][i - 1] != q[1..][i - 1];
  }
}
