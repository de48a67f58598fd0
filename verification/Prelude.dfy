/** Shared result types and the string helpers the source takes from Rust's standard library. */
module Prelude {

  datatype Option<+T> = None | Some(value: T) {
    predicate IsFailure() { None? }

    function PropagateFailure<U>(): Option<U>
      requires None?
    {
      None
    }

    function Extract(): T
      requires Some?
    {
      value
    }

    function GetOr(default: T): T {
      if Some? then value else default
    }
  }

  datatype Result<+T, +E> = Ok(value: T) | Err(error: E) {
    predicate IsFailure() { Err? }

    function PropagateFailure<U>(): Result<U, E>
      requires Err?
    {
      Err(error)
    }

    function Extract(): T
      requires Ok?
    {
      value
    }
  }

  /** The pieces of `s` between occurrences of `d`, as `str::split` gives them: never empty. */
  function Split(s: string, d: char): (parts: seq<string>)
    ensures parts != []
  {
    if s == "" then [""]
    else
      var rest := Split(s[1..], d);
      if s[0] == d then [""] + rest else [[s[0]] + rest[0]] + rest[1..]
  }

  /** The inverse of `Split`: the parts with one `d` between neighbours. */
  function Join(parts: seq<string>, d: char): string
    requires parts != []
  {
    if |parts| == 1 then parts[0] else parts[0] + [d] + Join(parts[1..], d)
  }

  lemma {:induction false} SplitJoins(s: string, d: char)
    ensures Join(Split(s, d), d) == s
    ensures forall part :: part in Split(s, d) ==> d !in part
  {
    if s != "" {
      SplitJoins(s[1..], d);
      var rest := Split(s[1..], d);
      assert rest == [rest[0]] + rest[1..];
      if s[0] == d {
        assert Split(s, d)[1..] == rest;
      } else {
        assert Split(s, d)[1..] == rest[1..];
        assert s == [s[0]] + s[1..];
      }
    }
  }

  lemma {:induction false} JoinSplits(parts: seq<string>, d: char)
    requires parts != []
    requires forall part :: part in parts ==> d !in part
    ensures Split(Join(parts, d), d) == parts
  {
    var head := parts[0];
    if |parts| == 1 {
      SplitWhole(head, d);
    } else {
      JoinSplits(parts[1..], d);
      SplitHead(head, Join(parts[1..], d), d);
      assert parts == [head] + parts[1..];
      assert head + [d] + Join(parts[1..], d) == head + ([d] + Join(parts[1..], d));
    }
  }

  lemma {:induction false} SplitWhole(s: string, d: char)
    requires d !in s
    ensures Split(s, d) == [s]
  {
    if s != "" {
      SplitWhole(s[1..], d);
      assert [s[0]] + s[1..] == s;
    }
  }

  lemma {:induction false} SplitHead(head: string, tail: string, d: char)
    requires d !in head
    ensures Split(head + ([d] + tail), d) == [head] + Split(tail, d)
  {
    var s := head + ([d] + tail);
    if head == "" {
      assert s[1..] == tail;
    } else {
      SplitHead(head[1..], tail, d);
      assert s[1..] == head[1..] + ([d] + tail);
      assert [s[0]] + head[1..] == head;
    }
  }

  /** The Unicode White_Space characters `str::trim` removes. */
  predicate IsWhitespace(c: char) {
    var n := c as int;
    || 0x9 <= n <= 0xD || n == 0x20 || n == 0x85 || n == 0xA0 || n == 0x1680 || 0x2000 <= n <= 0x200A
    || n == 0x2028 || n == 0x2029 || n == 0x202F || n == 0x205F || n == 0x3000
  }

  function TrimStart(s: string): string {
    if s != "" && IsWhitespace(s[0]) then TrimStart(s[1..]) else s
  }

  function TrimEnd(s: string): string {
    if s != "" && IsWhitespace(s[|s| - 1]) then TrimEnd(s[..|s| - 1]) else s
  }

  function Trim(s: string): string {
    TrimEnd(TrimStart(s))
  }

  /** The first position of `c`, as `str::find`. */
  function Find(s: string, c: char): (at: Option<nat>)
    ensures at.Some? ==> at.value < |s| && s[at.value] == c && c !in s[..at.value]
    ensures at.None? ==> c !in s
  {
    if s == "" then None
    else if s[0] == c then Some(0)
    else
      var rest := Find(s[1..], c);
      if rest.None? then None
      else
        assert s[..rest.value + 1] == [s[0]] + s[1..][..rest.value];
        Some(rest.value + 1)
  }

  lemma {:induction false} FindAt(s: string, c: char, i: nat)
    requires i < |s| && s[i] == c && c !in s[..i]
    ensures Find(s, c) == Some(i)
  {
    if i > 0 {
      assert s[0] == s[..i][0];
      assert s[1..][..i - 1] == s[..i][1..];
      FindAt(s[1..], c, i - 1);
    }
  }

  function DigitChar(d: nat): (c: char)
    requires d < 10
    ensures '0' <= c <= '9'
  {
    '0' + (d as char)
  }

  /** Decimal text of a natural number. */
  function DecimalNat(n: nat): (s: string)
    ensures s != ""
    ensures forall c :: c in s ==> '0' <= c <= '9'
  {
    if n < 10 then [DigitChar(n)] else DecimalNat(n / 10) + [DigitChar(n % 10)]
  }

  function Decimal(n: int): string {
    if n < 0 then "-" + DecimalNat(-n) else DecimalNat(n)
  }

  /** Position `i` removed. */
  function RemoveAt<T>(s: seq<T>, i: nat): (r: seq<T>)
    requires i < |s|
    ensures |r| == |s| - 1
  {
    s[..i] + s[i + 1..]
  }

  /** The same elements with the same multiplicities. */
  ghost predicate Permutation<T>(xs: seq<T>, ys: seq<T>) {
    multiset(xs) == multiset(ys)
  }

  /** Where the head of `xs` sits in a permutation of it, and what is left on both sides. */
  lemma PermutationHead<T>(xs: seq<T>, ys: seq<T>) returns (i: nat)
    requires xs != [] && Permutation(xs, ys)
    ensures i < |ys| && ys[i] == xs[0]
    ensures Permutation(xs[1..], RemoveAt(ys, i))
  {
    assert xs == [xs[0]] + xs[1..];
    assert xs[0] in multiset(ys);
    i :| 0 <= i < |ys| && ys[i] == xs[0];
    assert ys == ys[..i] + [ys[i]] + ys[i + 1..];
    assert multiset(RemoveAt(ys, i)) == multiset(ys) - multiset{xs[0]};
    assert multiset(xs[1..]) == multiset(xs) - multiset{xs[0]};
  }
}
