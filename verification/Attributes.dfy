/** The flat attribute bag predicates are evaluated against. */
module Attributes {
  import opened Prelude

  /** A bag value; a float is held as its text, whose arithmetic value the comparison takes from `f64` parsing. */
  datatype AttributeValue =
    | ABool(b: bool)
    | AInt(i: int)
    | AFloat(text: string)
    | AString(s: string)
    | AStringSet(elems: set<string>)

  type Bag = map<string, AttributeValue>

  function Get(bag: Bag, key: string): Option<AttributeValue> {
    if key in bag then Some(bag[key]) else None
  }

  function GetBool(bag: Bag, key: string): Option<bool> {
    match Get(bag, key)
    case Some(ABool(b)) => Some(b)
    case _ => None
  }

  function GetString(bag: Bag, key: string): Option<string> {
    match Get(bag, key)
    case Some(AString(s)) => Some(s)
    case _ => None
  }

  function GetStringSet(bag: Bag, key: string): Option<set<string>> {
    match Get(bag, key)
    case Some(AStringSet(elems)) => Some(elems)
    case _ => None
  }

  /** The scalar at `key` as a path segment; a set cannot index a path. */
  function ScalarAsString(bag: Bag, key: string): Option<string> {
    match Get(bag, key)
    case Some(AString(s)) => Some(s)
    case Some(AInt(i)) => Some(Decimal(i))
    case Some(ABool(b)) => Some(if b then "true" else "false")
    case Some(AFloat(text)) => Some(text)
    case _ => None
  }

  /** The bag while it is being filled. */
  class AttributeBag {
    var attrs: Bag

    constructor ()
      ensures attrs == map[]
    {
      attrs := map[];
    }

    method Set(key: string, value: AttributeValue)
      modifies this
      ensures attrs == old(attrs)[key := value]
    {
      attrs := attrs[key := value];
    }
  }

  /** An attribute path: plain text and `[inner]` interpolation groups. */
  datatype KeyPart = Text(text: string) | Group(inner: string)

  function Render(parts: seq<KeyPart>): string {
    if parts == [] then ""
    else (match parts[0] case Text(t) => t case Group(i) => "[" + i + "]") + Render(parts[1..])
  }

  /** What a path means: every group replaced by `.` and the scalar its key holds, absent when one has none. */
  function Meaning(bag: Bag, parts: seq<KeyPart>): Option<string> {
    if parts == [] then Some("")
    else
      var rest := Meaning(bag, parts[1..]);
      match parts[0]
      case Text(t) => if rest.None? then None else Some(t + rest.value)
      case Group(i) =>
        var scalar := ScalarAsString(bag, Trim(i));
        if scalar.None? || rest.None? then None else Some("" + "." + scalar.value + rest.value)
  }

  /** The text of a path with its groups expanded. */
  function Expand(bag: Bag, rest: string): Option<string>
    decreases |rest|
  {
    var open := Find(rest, '[');
    if open.None? then Some(rest) else ExpandGroup(bag, rest[..open.value], rest[open.value + 1..])
  }

  /** The same from just inside a `[`, with the text before it. */
  function ExpandGroup(bag: Bag, before: string, after: string): Option<string>
    decreases |after|
  {
    var close := Find(after, ']');
    if close.None? then None
    else
      var scalar := ScalarAsString(bag, Trim(after[..close.value]));
      if scalar.None? then None
      else Prepend(before + "." + scalar.value, Expand(bag, after[close.value + 1..]))
  }

  function Prepend(before: string, rest: Option<string>): Option<string> {
    if rest.None? then None else Some(before + rest.value)
  }

  /** Resolves an attribute path to its flat key. */
  method ResolveKey(bag: Bag, key: string) returns (resolved: Option<string>)
    ensures resolved == Expand(bag, key)
  {
    if '[' !in key {
      return Some(key);
    }
    var out := "";
    var rest := key;
    var open := Find(rest, '[');
    PrependNothing(Expand(bag, key));
    while open.Some?
      invariant open == Find(rest, '[')
      invariant Expand(bag, key) == Prepend(out, Expand(bag, rest))
      decreases |rest|
    {
      var before := rest[..open.value];
      var after := rest[open.value + 1..];
      var close := Find(after, ']');
      if close.None? {
        return None;
      }
      var scalar := ScalarAsString(bag, Trim(after[..close.value]));
      if scalar.None? {
        return None;
      }
      ExpandFirst(bag, out, rest, open.value, close.value, scalar.value);
      out := out + (before + "." + scalar.value);
      rest := after[close.value + 1..];
      open := Find(rest, '[');
    }
    return Some(out + rest);
  }

  lemma PrependNothing(rest: Option<string>)
    ensures Prepend("", rest) == rest
  {
    if rest.Some? {
      assert "" + rest.value == rest.value;
    }
  }

  /** The first group of `rest` expanded, behind what is already out. */
  lemma {:induction false} ExpandFirst(bag: Bag, out: string, rest: string, open: nat, close: nat, scalar: string)
    requires Find(rest, '[') == Some(open) && Find(rest[open + 1..], ']') == Some(close)
    requires ScalarAsString(bag, Trim(rest[open + 1..][..close])) == Some(scalar)
    ensures Prepend(out, Expand(bag, rest))
         == Prepend(out + (rest[..open] + "." + scalar), Expand(bag, rest[open + 1..][close + 1..]))
  {
    PrependTwice(out, rest[..open] + "." + scalar, Expand(bag, rest[open + 1..][close + 1..]));
  }

  lemma PrependTwice(a: string, b: string, rest: Option<string>)
    ensures Prepend(a, Prepend(b, rest)) == Prepend(a + b, rest)
  {
    if rest.Some? {
      assert a + (b + rest.value) == a + b + rest.value;
    }
  }

  ghost predicate ProperParts(parts: seq<KeyPart>) {
    forall i :: 0 <= i < |parts| ==>
      match parts[i]
      case Text(t) => '[' !in t
      case Group(inner) => ']' !in inner
  }

  lemma {:induction false} ExpandText(bag: Bag, t: string, rest: string)
    requires '[' !in t
    ensures Expand(bag, t + rest) == Prepend(t, Expand(bag, rest))
  {
    var s := t + rest;
    var open := Find(rest, '[');
    if open.Some? {
      var before, after := rest[..open.value], rest[open.value + 1..];
      FindBehind(t, rest, open.value);
      ExpandAt(bag, rest, open.value, before, after);
      ExpandAt(bag, s, |t| + open.value, t + before, after);
      GroupText(bag, t, before, after);
    } else {
      assert '[' !in s;
    }
  }

  lemma {:induction false} ExpandAt(bag: Bag, s: string, open: nat, before: string, after: string)
    requires Find(s, '[') == Some(open) && s[..open] == before && s[open + 1..] == after
    ensures Expand(bag, s) == ExpandGroup(bag, before, after)
  {
  }

  lemma FindBehind(t: string, rest: string, open: nat)
    requires '[' !in t && Find(rest, '[') == Some(open)
    ensures var s, i := t + rest, |t| + open;
            Find(s, '[') == Some(i) && s[..i] == t + rest[..open] && s[i + 1..] == rest[open + 1..]
  {
    var s, i := t + rest, |t| + open;
    assert s[..i] == t + rest[..open];
    FindAt(s, '[', i);
  }

  lemma {:induction false} GroupText(bag: Bag, t: string, before: string, after: string)
    ensures ExpandGroup(bag, t + before, after) == Prepend(t, ExpandGroup(bag, before, after))
  {
    var close := Find(after, ']');
    if close.Some? {
      var scalar := ScalarAsString(bag, Trim(after[..close.value]));
      if scalar.Some? {
        assert t + before + "." + scalar.value == t + (before + "." + scalar.value);
        PrependTwice(t, before + "." + scalar.value, Expand(bag, after[close.value + 1..]));
      }
    }
  }

  lemma {:induction false} ExpandGroupAt(bag: Bag, inner: string, tail: string)
    requires ']' !in inner
    ensures var scalar := ScalarAsString(bag, Trim(inner));
            Expand(bag, "[" + (inner + ("]" + tail)))
              == if scalar.None? then None else Prepend("" + "." + scalar.value, Expand(bag, tail))
  {
    var after := inner + ("]" + tail);
    var s := "[" + after;
    FindAt(s, '[', 0);
    assert s[..0] == "" && s[1..] == after;
    assert after[..|inner|] == inner && after[|inner|] == ']';
    FindAt(after, ']', |inner|);
    assert after[|inner| + 1..] == tail;
  }

  /** Resolution gives a path its meaning, groups and text in any mixture. */
  lemma {:induction false} ExpandMeans(bag: Bag, parts: seq<KeyPart>)
    requires ProperParts(parts)
    ensures Expand(bag, Render(parts)) == Meaning(bag, parts)
  {
    if parts != [] {
      var tail := Render(parts[1..]);
      ExpandMeans(bag, parts[1..]);
      match parts[0]
      case Text(t) => ExpandText(bag, t, tail);
      case Group(inner) =>
        assert Render(parts) == "[" + (inner + ("]" + tail));
        ExpandGroupAt(bag, inner, tail);
    }
  }
}
