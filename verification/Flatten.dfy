/** Flattening a JSON tree into dotted bag keys: `walk`, `extract_args` and `extract_result`. */
module Flatten {
  import opened Prelude
  import opened Json
  import opened Attributes
  import DottedPath
  import Rounding

  /** The text of a floating value. */
  type ShowF64 = real -> string

  predicate IsContainer(v: Value) { v.Arr? || v.Obj? }

  /** An array item as a set element. */
  function ItemText(show: ShowF64, v: Value): string
    requires v.Str? || v.Num? || v.Bool?
  {
    match v
    case Str(s) => s
    case Num(Integer(n)) => Decimal(n)
    case Num(Floating(x)) => show(x)
    case Bool(b) => if b then "true" else "false"
  }

  /** The texts of the items, nulls left out. */
  function ItemTexts(show: ShowF64, items: seq<Value>): set<string> {
    set i | 0 <= i < |items| && !IsContainer(items[i]) && !items[i].Null? :: ItemText(show, items[i])
  }

  function NumberValue(show: ShowF64, number: Number): AttributeValue {
    match number
    case Integer(n) => if IsI64(n) then AInt(n) else AFloat(show(Rounding.Nearest(n) as real))
    case Floating(x) => AFloat(show(x))
  }

  /** What a node contributes under its own key: scalars, and arrays holding no container. */
  function Leaf(show: ShowF64, v: Value): Option<AttributeValue> {
    match v
    case Null => None
    case Bool(b) => Some(ABool(b))
    case Num(number) => Some(NumberValue(show, number))
    case Str(s) => Some(AString(s))
    case Obj(_) => None
    case Arr(items) =>
      if exists i :: 0 <= i < |items| && IsContainer(items[i]) then None else Some(AStringSet(ItemTexts(show, items)))
  }

  function LeafAt(show: ShowF64, v: Value, segs: seq<string>): Option<AttributeValue> {
    var node := Look(v, segs);
    if node.None? then None else Leaf(show, node.value)
  }

  function ChildKey(prefix: string, key: string): string {
    if prefix == "" then key else prefix + "." + key
  }

  /** The bag key of a node. */
  function Dotted(prefix: string, segs: seq<string>): string
    decreases |segs|
  {
    if segs == [] then prefix else Dotted(ChildKey(prefix, segs[0]), segs[1..])
  }

  /** Some node with this key holds this value. */
  ghost predicate Offers(show: ShowF64, v: Value, prefix: string, key: string, value: AttributeValue) {
    exists segs :: LeafAt(show, v, segs) == Some(value) && Dotted(prefix, segs) == key
  }

  ghost predicate OffersSome(show: ShowF64, v: Value, prefix: string, key: string) {
    exists value :: Offers(show, v, prefix, key, value)
  }

  /** One key of the bag before and after: a value some node offers for it, or untouched when none does. */
  ghost predicate KeyFlattened(show: ShowF64, v: Value, prefix: string, before: Bag, after: Bag, key: string) {
    if OffersSome(show, v, prefix, key) then key in after && Offers(show, v, prefix, key, after[key])
    else Get(after, key) == Get(before, key)
  }

  ghost predicate Flattened(show: ShowF64, v: Value, prefix: string, before: Bag, after: Bag) {
    forall key :: KeyFlattened(show, v, prefix, before, after, key)
  }

  // ---- The walk.

  lemma NodeOffersItself(show: ShowF64, v: Value, prefix: string)
    requires !v.Obj?
    ensures forall key, value :: Offers(show, v, prefix, key, value) <==> key == prefix && Leaf(show, v) == Some(value)
  {
    forall key, value | Offers(show, v, prefix, key, value) ensures key == prefix && Leaf(show, v) == Some(value) {
      var segs :| LeafAt(show, v, segs) == Some(value) && Dotted(prefix, segs) == key;
    }
    forall key, value | key == prefix && Leaf(show, v) == Some(value) ensures Offers(show, v, prefix, key, value) {
      assert LeafAt(show, v, []) == Some(value) && Dotted(prefix, []) == key;
    }
  }

  lemma LeafFlattened(show: ShowF64, v: Value, prefix: string, before: Bag)
    requires !v.Obj?
    ensures Flattened(show, v, prefix, before, if Leaf(show, v).Some? then before[prefix := Leaf(show, v).value] else before)
  {
    NodeOffersItself(show, v, prefix);
    var after := if Leaf(show, v).Some? then before[prefix := Leaf(show, v).value] else before;
    forall key ensures KeyFlattened(show, v, prefix, before, after, key) {
      if key == prefix && Leaf(show, v).Some? {
        assert Offers(show, v, prefix, key, after[key]);
      }
    }
  }

  /** One more entry offers what its subtree offers. */
  lemma EntryOffers(show: ShowF64, fields: map<string, Value>, k: string, sub: Value, prefix: string, key: string, value: AttributeValue)
    requires k !in fields
    ensures Offers(show, Obj(fields[k := sub]), prefix, key, value) <==>
              Offers(show, Obj(fields), prefix, key, value) || Offers(show, sub, ChildKey(prefix, k), key, value)
  {
    var whole := Obj(fields[k := sub]);
    if Offers(show, whole, prefix, key, value) {
      var segs :| LeafAt(show, whole, segs) == Some(value) && Dotted(prefix, segs) == key;
      if segs[0] == k {
        assert LeafAt(show, sub, segs[1..]) == Some(value) && Dotted(ChildKey(prefix, k), segs[1..]) == key;
      } else {
        assert LeafAt(show, Obj(fields), segs) == Some(value);
      }
    }
    if Offers(show, Obj(fields), prefix, key, value) {
      var segs :| LeafAt(show, Obj(fields), segs) == Some(value) && Dotted(prefix, segs) == key;
      assert LeafAt(show, whole, segs) == Some(value);
    }
    if Offers(show, sub, ChildKey(prefix, k), key, value) {
      var segs :| LeafAt(show, sub, segs) == Some(value) && Dotted(ChildKey(prefix, k), segs) == key;
      assert ([k] + segs)[1..] == segs;
      assert LeafAt(show, whole, [k] + segs) == Some(value) && Dotted(prefix, [k] + segs) == key;
    }
  }

  lemma EntryFlattened(
    show: ShowF64, fields: map<string, Value>, k: string, sub: Value, prefix: string, before: Bag, mid: Bag, after: Bag)
    requires k !in fields
    requires Flattened(show, Obj(fields), prefix, before, mid) && Flattened(show, sub, ChildKey(prefix, k), mid, after)
    ensures Flattened(show, Obj(fields[k := sub]), prefix, before, after)
  {
    var whole := Obj(fields[k := sub]);
    forall key ensures KeyFlattened(show, whole, prefix, before, after, key) {
      assert KeyFlattened(show, Obj(fields), prefix, before, mid, key);
      assert KeyFlattened(show, sub, ChildKey(prefix, k), mid, after, key);
      forall value
        ensures Offers(show, whole, prefix, key, value) <==>
                  Offers(show, Obj(fields), prefix, key, value) || Offers(show, sub, ChildKey(prefix, k), key, value)
      {
        EntryOffers(show, fields, k, sub, prefix, key, value);
      }
    }
  }

  lemma EmptyFlattened(show: ShowF64, prefix: string, before: Bag)
    ensures Flattened(show, Obj(map[]), prefix, before, before)
  {
  }

  /** Writes each leaf of `value` into the bag; object entries come in any order. */
  method Walk(show: ShowF64, value: Value, prefix: string, bag: AttributeBag)
    modifies bag
    ensures Flattened(show, value, prefix, old(bag.attrs), bag.attrs)
    decreases value
  {
    ghost var before := bag.attrs;
    match value {
      case Obj(fields) =>
        var todo := fields.Keys;
        ghost var done: map<string, Value> := map[];
        EmptyFlattened(show, prefix, before);
        while todo != {}
          invariant todo <= fields.Keys
          invariant done == map k | k in fields.Keys - todo :: fields[k]
          invariant Flattened(show, Obj(done), prefix, before, bag.attrs)
        {
          var key :| key in todo;
          var dotted := if prefix == "" then key else prefix + "." + key;
          ghost var mid := bag.attrs;
          Walk(show, fields[key], dotted, bag);
          EntryFlattened(show, done, key, fields[key], prefix, before, mid, bag.attrs);
          done := done[key := fields[key]];
          todo := todo - {key};
        }
        assert done == fields;
      case Arr(items) =>
        LeafFlattened(show, value, prefix, before);
        var texts: set<string> := {};
        for i := 0 to |items|
          invariant forall j :: 0 <= j < i ==> !IsContainer(items[j])
          invariant texts == ItemTexts(show, items[..i])
          invariant bag.attrs == before
        {
          if IsContainer(items[i]) {
            assert Leaf(show, value).None?;
            return;
          }
          ItemTextsStep(show, items, i);
          if !items[i].Null? {
            texts := texts + {ItemText(show, items[i])};
          }
        }
        assert items[..|items|] == items;
        bag.Set(prefix, AStringSet(texts));
      case Str(s) =>
        LeafFlattened(show, value, prefix, before);
        bag.Set(prefix, AString(s));
      case Bool(b) =>
        LeafFlattened(show, value, prefix, before);
        bag.Set(prefix, ABool(b));
      case Num(number) =>
        LeafFlattened(show, value, prefix, before);
        bag.Set(prefix, NumberValue(show, number));
      case Null =>
        LeafFlattened(show, value, prefix, before);
    }
  }

  lemma ItemTextsStep(show: ShowF64, items: seq<Value>, i: nat)
    requires i < |items| && !IsContainer(items[i])
    ensures ItemTexts(show, items[..i + 1])
         == ItemTexts(show, items[..i]) + if items[i].Null? then {} else {ItemText(show, items[i])}
  {
    var longer, shorter := items[..i + 1], items[..i];
    assert forall j :: 0 <= j < i ==> longer[j] == shorter[j];
    assert longer[i] == items[i];
    forall t | t in ItemTexts(show, shorter) ensures t in ItemTexts(show, longer) {
      var j :| 0 <= j < |shorter| && !IsContainer(shorter[j]) && !shorter[j].Null? && ItemText(show, shorter[j]) == t;
      assert longer[j] == shorter[j];
    }
  }

  method ExtractArgs(show: ShowF64, args: Value, bag: AttributeBag)
    modifies bag
    ensures Flattened(show, args, "args", old(bag.attrs), bag.attrs)
  {
    Walk(show, args, "args", bag);
  }

  method ExtractResult(show: ShowF64, result: Value, bag: AttributeBag)
    modifies bag
    ensures Flattened(show, result, "result", old(bag.attrs), bag.attrs)
  {
    Walk(show, result, "result", bag);
  }

  // ---- The bag reads like the tree.

  /** No key at any depth holds a dot. */
  predicate DotFree(v: Value) {
    v.Obj? ==> forall k :: k in v.fields ==> '.' !in k && DotFree(v.fields[k])
  }

  lemma {:induction false} SegmentsDotFree(v: Value, segs: seq<string>)
    requires DotFree(v) && Look(v, segs).Some?
    ensures forall seg :: seg in segs ==> '.' !in seg
    decreases |segs|
  {
    if segs != [] {
      SegmentsDotFree(v.fields[segs[0]], segs[1..]);
      assert segs == [segs[0]] + segs[1..];
    }
  }

  lemma {:induction false} DottedJoins(prefix: string, segs: seq<string>)
    requires prefix != "" && segs != []
    ensures Dotted(prefix, segs) == prefix + "." + Join(segs, '.')
    decreases |segs|
  {
    var next := ChildKey(prefix, segs[0]);
    if |segs| > 1 {
      DottedJoins(next, segs[1..]);
      assert next + "." + Join(segs[1..], '.') == prefix + "." + (segs[0] + ['.'] + Join(segs[1..], '.'));
    }
  }

  /** Distinct nodes of a dot-free tree have distinct keys. */
  lemma NoCollision(v: Value, prefix: string, p: seq<string>, q: seq<string>)
    requires prefix != "" && DotFree(v) && Look(v, p).Some? && Look(v, q).Some?
    requires Dotted(prefix, p) == Dotted(prefix, q)
    ensures p == q
  {
    SegmentsDotFree(v, p);
    SegmentsDotFree(v, q);
    if p != [] {
      DottedJoins(prefix, p);
      JoinSplits(p, '.');
    }
    if q != [] {
      DottedJoins(prefix, q);
      JoinSplits(q, '.');
    }
    if p != [] && q != [] {
      assert Join(p, '.') == Dotted(prefix, p)[|prefix| + 1..] == Join(q, '.');
    } else {
      assert |Dotted(prefix, [])| == |prefix|;
    }
  }

  lemma KeyOffers(show: ShowF64, v: Value, prefix: string, path: string, value: AttributeValue)
    requires prefix != "" && v.Obj? && DotFree(v)
    ensures Offers(show, v, prefix, prefix + "." + path, value) <==> LeafAt(show, v, DottedPath.Segments(path)) == Some(value)
  {
    var key, segs := prefix + "." + path, DottedPath.Segments(path);
    SplitJoins(path, '.');
    DottedJoins(prefix, segs);
    if Offers(show, v, prefix, key, value) {
      var other :| LeafAt(show, v, other) == Some(value) && Dotted(prefix, other) == key;
      DottedJoins(prefix, other);
      SegmentsDotFree(v, other);
      JoinSplits(other, '.');
      assert Join(other, '.') == key[|prefix| + 1..] == path;
    }
  }

  /**
   * Flattening an object with dot-free keys, into a bag with none of its keys: `args.p` reads exactly
   * what a dotted read of the object at `p` finds, when that is a scalar other than null or an array
   * without containers, and is absent otherwise; every other key is untouched.
   */
  lemma BagReadsTheTree(show: ShowF64, args: Value, prefix: string, before: Bag, after: Bag, path: string)
    requires prefix != "" && args.Obj? && DotFree(args) && Flattened(show, args, prefix, before, after)
    requires prefix + "." + path !in before
    ensures Get(after, prefix + "." + path) == LeafAt(show, args, DottedPath.Segments(path))
  {
    var key, found := prefix + "." + path, LeafAt(show, args, DottedPath.Segments(path));
    assert KeyFlattened(show, args, prefix, before, after, key);
    forall value ensures Offers(show, args, prefix, key, value) <==> found == Some(value) {
      KeyOffers(show, args, prefix, path, value);
    }
    if found.Some? {
      assert Offers(show, args, prefix, key, found.value);
    }
  }

  /**
   * So each kind of node is held as the kind of attribute a policy compares: booleans, texts and 64-bit
   * integers as themselves, other numbers as floats, an array as the set of its scalars' texts; nulls,
   * objects and arrays with containers in them leave no attribute of their own.
   */
  lemma BagHoldsByKind(show: ShowF64, args: Value, prefix: string, before: Bag, after: Bag, path: string)
    requires prefix != "" && args.Obj? && DotFree(args) && Flattened(show, args, prefix, before, after)
    requires prefix + "." + path !in before
    requires Look(args, DottedPath.Segments(path)).Some?
    ensures var held := Get(after, prefix + "." + path);
            match Look(args, DottedPath.Segments(path)).value
            case Null => held == None
            case Bool(b) => held == Some(ABool(b))
            case Str(s) => held == Some(AString(s))
            case Num(Integer(n)) =>
              held == Some(
                if -0x8000_0000_0000_0000 <= n < 0x8000_0000_0000_0000 then AInt(n) else AFloat(show(Rounding.Nearest(n) as real)))
            case Num(Floating(x)) => held == Some(AFloat(show(x)))
            case Obj(_) => held == None
            case Arr(items) =>
              && (held.None? <==> exists i :: 0 <= i < |items| && (items[i].Arr? || items[i].Obj?))
              && (held.Some? ==> held.value.AStringSet? && forall x :: x in held.value.elems <==> ListsText(show, items, x))
  {
    BagReadsTheTree(show, args, prefix, before, after, path);
    if Look(args, DottedPath.Segments(path)).value.Arr? {
      var items := Look(args, DottedPath.Segments(path)).value.items;
      if forall i :: 0 <= i < |items| ==> !IsContainer(items[i]) {
        forall x ensures x in ItemTexts(show, items) <==> ListsText(show, items, x) {
        }
      }
    }
  }

  /** Some item of the array is a scalar with this text. */
  ghost predicate ListsText(show: ShowF64, items: seq<Value>, x: string) {
    exists i :: 0 <= i < |items| &&
                match items[i]
                case Str(s) => x == s
                case Bool(b) => x == if b then "true" else "false"
                case Num(Integer(n)) => x == Decimal(n)
                case Num(Floating(r)) => x == show(r)
                case _ => false
  }

  lemma OtherKeysUntouched(show: ShowF64, args: Value, prefix: string, before: Bag, after: Bag, key: string)
    requires prefix != "" && args.Obj? && Flattened(show, args, prefix, before, after)
    requires !(prefix + "." <= key)
    ensures Get(after, key) == Get(before, key)
  {
    assert KeyFlattened(show, args, prefix, before, after, key);
    forall value ensures !Offers(show, args, prefix, key, value) {
      if segs :| LeafAt(show, args, segs) == Some(value) && Dotted(prefix, segs) == key {
        DottedJoins(prefix, segs);
      }
    }
  }

  // ---- Exactly when the bag reads like the tree.

  /** Every leaf is also what a dotted read at its joined path finds. */
  ghost predicate LeavesReadBack(show: ShowF64, v: Value) {
    forall segs :: LeafAt(show, v, segs).Some? ==> ReadsBack(show, v, segs)
  }

  predicate ReadsBack(show: ShowF64, v: Value, segs: seq<string>) {
    segs != [] && LeafAt(show, v, DottedPath.Segments(Join(segs, '.'))) == LeafAt(show, v, segs)
  }

  /** At every path the bag holds exactly what a dotted read finds. */
  ghost predicate ReadsRight(show: ShowF64, v: Value, prefix: string, after: Bag) {
    forall path: string :: Get(after, prefix + "." + path) == LeafAt(show, v, DottedPath.Segments(path))
  }

  /** Some walk order always gives some bag. */
  lemma {:induction false} WalkExists(show: ShowF64, v: Value, prefix: string, before: Bag) returns (after: Bag)
    ensures Flattened(show, v, prefix, before, after)
    decreases v
  {
    if !v.Obj? {
      LeafFlattened(show, v, prefix, before);
      after := if Leaf(show, v).Some? then before[prefix := Leaf(show, v).value] else before;
    } else {
      var todo := v.fields.Keys;
      var done: map<string, Value> := map[];
      after := before;
      EmptyFlattened(show, prefix, before);
      while todo != {}
        invariant todo <= v.fields.Keys
        invariant done == map k | k in v.fields.Keys - todo :: v.fields[k]
        invariant Flattened(show, Obj(done), prefix, before, after)
      {
        var key :| key in todo;
        var mid := after;
        after := WalkExists(show, v.fields[key], ChildKey(prefix, key), mid);
        EntryFlattened(show, done, key, v.fields[key], prefix, before, mid, after);
        done := done[key := v.fields[key]];
        todo := todo - {key};
      }
      assert done == v.fields;
    }
  }

  /** Of two nodes with one key, some walk order lets either win. */
  lemma AnyOfferCanWin(show: ShowF64, v: Value, prefix: string, before: Bag, key: string, value: AttributeValue)
    returns (after: Bag)
    requires Offers(show, v, prefix, key, value)
    ensures Flattened(show, v, prefix, before, after) && Get(after, key) == Some(value)
  {
    var some := WalkExists(show, v, prefix, before);
    after := some[key := value];
    forall k ensures KeyFlattened(show, v, prefix, before, after, k) {
      assert KeyFlattened(show, v, prefix, before, some, k);
    }
  }

  lemma OffersAtPath(show: ShowF64, v: Value, prefix: string, path: string, value: AttributeValue)
    requires prefix != "" && v.Obj? && LeavesReadBack(show, v)
    ensures Offers(show, v, prefix, prefix + "." + path, value) <==> LeafAt(show, v, DottedPath.Segments(path)) == Some(value)
  {
    var key, segs := prefix + "." + path, DottedPath.Segments(path);
    SplitJoins(path, '.');
    DottedJoins(prefix, segs);
    if Offers(show, v, prefix, key, value) {
      var other :| LeafAt(show, v, other) == Some(value) && Dotted(prefix, other) == key;
      DottedJoins(prefix, other);
      assert Join(other, '.') == key[|prefix| + 1..] == path;
      assert ReadsBack(show, v, other);
    }
  }

  /**
   * Flattening an object into an empty bag reads right at every path, in every walk order, if and
   * only if every leaf of the tree is what a dotted read at its joined path finds.
   */
  lemma ReadsRightExactly(show: ShowF64, v: Value, prefix: string)
    requires prefix != "" && v.Obj?
    ensures (forall after :: Flattened(show, v, prefix, map[], after) ==> ReadsRight(show, v, prefix, after))
            <==> LeavesReadBack(show, v)
  {
    if LeavesReadBack(show, v) {
      forall after, path | Flattened(show, v, prefix, map[], after)
        ensures Get(after, prefix + "." + path) == LeafAt(show, v, DottedPath.Segments(path))
      {
        ReadsAtPath(show, v, prefix, after, path);
      }
    } else {
      var segs :| LeafAt(show, v, segs).Some? && !ReadsBack(show, v, segs);
      var path := Join(segs, '.');
      var value := LeafAt(show, v, segs).value;
      DottedJoins(prefix, segs);
      assert Offers(show, v, prefix, prefix + "." + path, value);
      var after := AnyOfferCanWin(show, v, prefix, map[], prefix + "." + path, value);
      assert !ReadsRight(show, v, prefix, after);
    }
  }

  lemma ReadsAtPath(show: ShowF64, v: Value, prefix: string, after: Bag, path: string)
    requires prefix != "" && v.Obj? && LeavesReadBack(show, v) && Flattened(show, v, prefix, map[], after)
    ensures Get(after, prefix + "." + path) == LeafAt(show, v, DottedPath.Segments(path))
  {
    var key, found := prefix + "." + path, LeafAt(show, v, DottedPath.Segments(path));
    assert KeyFlattened(show, v, prefix, map[], after, key);
    forall value ensures Offers(show, v, prefix, key, value) <==> found == Some(value) {
      OffersAtPath(show, v, prefix, path, value);
    }
    if found.Some? {
      assert Offers(show, v, prefix, key, found.value);
    }
  }

  /** Dot-free keys are enough. */
  lemma DotFreeReadsBack(show: ShowF64, v: Value)
    requires v.Obj? && DotFree(v)
    ensures LeavesReadBack(show, v)
  {
    forall segs | LeafAt(show, v, segs).Some? ensures ReadsBack(show, v, segs) {
      SegmentsDotFree(v, segs);
      JoinSplits(segs, '.');
    }
  }

  /** A key with a dot appears in the bag under a path no dotted read of the tree finds. */
  lemma DottedKeyMisreads(show: ShowF64, after: Bag)
    requires Flattened(show, Obj(map["a.b" := Bool(true)]), "args", map[], after)
    ensures Get(after, "args.a.b") == Some(ABool(true))
    ensures Look(Obj(map["a.b" := Bool(true)]), DottedPath.Segments("a.b")).None?
  {
    var args := Obj(map["a.b" := Bool(true)]);
    var key := "args.a.b";
    assert Look(args, ["a.b"]) == Some(Bool(true)) by {
      assert Look(args.fields["a.b"], ["a.b"][1..]) == Some(Bool(true));
    }
    assert Dotted("args", ["a.b"]) == key by {
      assert ["a.b"][1..] == [];
      assert ChildKey("args", "a.b") == key;
    }
    assert Offers(show, args, "args", key, ABool(true));
    assert KeyFlattened(show, args, "args", map[], after, key);
    var segs :| LeafAt(show, args, segs) == Some(after[key]) && Dotted("args", segs) == key;
    assert segs[0] == "a.b";
    assert Look(args, segs) == Look(Bool(true), segs[1..]);
    SplitHead("a", "b", '.');
    SplitWhole("b", '.');
    assert "a" + (['.'] + "b") == "a.b";
  }
}
