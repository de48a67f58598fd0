/** The predicate grammar, stated without the parser, and the proof that the parser accepts exactly it. */
module Grammar {
  import opened Prelude
  import opened Policy
  import opened Lexer
  import opened Parser

  /** or = and { "|" and } */
  ghost predicate IsOr(ts: Toks, e: Expression)
    decreases |ts|, 6
  {
    IsAnd(ts, e) || (e.Or? && |e.parts| >= 2 && IsOrList(ts, e.parts))
  }

  ghost predicate IsOrList(ts: Toks, es: seq<Expression>)
    requires es != []
    decreases |ts|, 5
  {
    if |es| == 1 then IsAnd(ts, es[0])
    else exists i :: 0 <= i < |ts| && ts[i].OrTok? && IsAnd(ts[..i], es[0]) && IsOrList(ts[i + 1..], es[1..])
  }

  /** and = unary { "&" unary } */
  ghost predicate IsAnd(ts: Toks, e: Expression)
    decreases |ts|, 4
  {
    IsUnary(ts, e) || (e.And? && |e.parts| >= 2 && IsAndList(ts, e.parts))
  }

  ghost predicate IsAndList(ts: Toks, es: seq<Expression>)
    requires es != []
    decreases |ts|, 3
  {
    if |es| == 1 then IsUnary(ts, es[0])
    else exists i :: 0 <= i < |ts| && ts[i].AndTok? && IsUnary(ts[..i], es[0]) && IsAndList(ts[i + 1..], es[1..])
  }

  /** unary = "!" unary | atom */
  ghost predicate IsUnary(ts: Toks, e: Expression)
    decreases |ts|, 2
  {
    || (ts != [] && ts[0].NotTok? && e.Not? && IsUnary(ts[1..], e.inner))
    || IsAtom(ts, e)
  }

  /** atom = "(" or ")" | predicate on one key */
  ghost predicate IsAtom(ts: Toks, e: Expression)
    decreases |ts|, 1
  {
    || (|ts| >= 2 && ts[0].LParen? && ts[|ts| - 1].RParen? && IsOr(ts[1..|ts| - 1], e))
    || (e.Cond? && IsCondition(ts, e.condition))
  }

  ghost predicate IsCondition(ts: Toks, c: Condition) {
    match c
    case IsTrue(key) => ts == [Ident(key)]
    case Exists(key) => ts == [ExistsTok, LParen, Ident(key), RParen]
    case InSet(v, s, negate) => ts == if negate then [Ident(v), Ident("not"), InTok, Ident(s)] else [Ident(v), InTok, Ident(s)]
    case Comparison(key, op, value) =>
      |ts| == 3 && ts[0] == Ident(key) && AsOp(ts[1]) == Some(op) && AsLiteral(ts[2]) == Some(value)
    case IsFalse(_) => false
  }

  lemma {:induction false} OrListCons(ts: Toks, i: nat, e: Expression, es: seq<Expression>)
    requires i < |ts| && ts[i].OrTok? && IsAnd(ts[..i], e) && es != [] && IsOrList(ts[i + 1..], es)
    ensures IsOrList(ts, [e] + es)
  {
    assert ([e] + es)[1..] == es;
  }

  lemma {:induction false} OrListSplit(ts: Toks, es: seq<Expression>) returns (i: nat)
    requires |es| > 1 && IsOrList(ts, es)
    ensures i < |ts| && ts[i].OrTok? && IsAnd(ts[..i], es[0]) && IsOrList(ts[i + 1..], es[1..])
  {
    i :| 0 <= i < |ts| && ts[i].OrTok? && IsAnd(ts[..i], es[0]) && IsOrList(ts[i + 1..], es[1..]);
  }

  lemma {:induction false} AndListCons(ts: Toks, i: nat, e: Expression, es: seq<Expression>)
    requires i < |ts| && ts[i].AndTok? && IsUnary(ts[..i], e) && es != [] && IsAndList(ts[i + 1..], es)
    ensures IsAndList(ts, [e] + es)
  {
    assert ([e] + es)[1..] == es;
  }

  lemma {:induction false} AndListSplit(ts: Toks, es: seq<Expression>) returns (i: nat)
    requires |es| > 1 && IsAndList(ts, es)
    ensures i < |ts| && ts[i].AndTok? && IsUnary(ts[..i], es[0]) && IsAndList(ts[i + 1..], es[1..])
  {
    i :| 0 <= i < |ts| && ts[i].AndTok? && IsUnary(ts[..i], es[0]) && IsAndList(ts[i + 1..], es[1..]);
  }

  // ---- Everything the parser accepts is in the grammar.

  /** The parse took the first `k` tokens. */
  predicate Took(toks: Toks, k: nat, rest: Toks) {
    k <= |toks| && toks[k..] == rest
  }

  lemma TookBoth(toks: Toks, i: nat, mid: Toks, k: nat, rest: Toks)
    requires Took(toks, i, mid) && Took(mid, k, rest)
    ensures Took(toks, i + k, rest)
    ensures toks[..i + k][..i] == toks[..i]
    ensures k > 0 ==> toks[..i + k][i] == mid[0] && toks[..i + k][i + 1..] == mid[1..k]
  {
    if k > 0 {
      assert forall x :: 0 <= x < k - 1 ==> mid[1..k][x] == toks[i + 1 + x] == toks[..i + k][i + 1..][x];
    }
  }

  lemma {:induction false} OrSound(toks: Toks, e: Expression, rest: Toks) returns (k: nat)
    requires ParseOr(toks) == Ok(Parsed(e, rest))
    ensures Took(toks, k, rest) && IsOr(toks[..k], e)
    decreases |toks|, 5
  {
    var first := ParseAnd(toks).value;
    var i := AndSound(toks, first.value, first.rest);
    var more := OrTail(first.rest).value;
    var j := OrTailSound(first.rest, more.value, more.rest);
    TookBoth(toks, i, first.rest, j, more.rest);
    k := i + j;
    if more.value != [] {
      OrListCons(toks[..k], i, first.value, more.value);
    }
  }

  lemma {:induction false} OrTailSound(toks: Toks, es: seq<Expression>, rest: Toks) returns (k: nat)
    requires OrTail(toks) == Ok(Parsed(es, rest))
    ensures Took(toks, k, rest)
    ensures if es == [] then k == 0 else k > 0 && toks[0].OrTok? && IsOrList(toks[1..k], es)
    decreases |toks|, 0
  {
    if toks == [] || !toks[0].OrTok? {
      return 0;
    }
    var tail := toks[1..];
    var next := ParseAnd(tail).value;
    var i := AndSound(tail, next.value, next.rest);
    var more := OrTail(next.rest).value;
    var j := OrTailSound(next.rest, more.value, more.rest);
    TookBoth(tail, i, next.rest, j, more.rest);
    k := 1 + i + j;
    assert toks[1..k] == tail[..i + j];
    if more.value != [] {
      OrListCons(tail[..i + j], i, next.value, more.value);
    }
  }

  lemma {:induction false} AndSound(toks: Toks, e: Expression, rest: Toks) returns (k: nat)
    requires ParseAnd(toks) == Ok(Parsed(e, rest))
    ensures Took(toks, k, rest) && IsAnd(toks[..k], e)
    decreases |toks|, 4
  {
    var first := ParseUnary(toks).value;
    var i := UnarySound(toks, first.value, first.rest);
    var more := AndTail(first.rest).value;
    var j := AndTailSound(first.rest, more.value, more.rest);
    TookBoth(toks, i, first.rest, j, more.rest);
    k := i + j;
    if more.value != [] {
      AndListCons(toks[..k], i, first.value, more.value);
    }
  }

  lemma {:induction false} AndTailSound(toks: Toks, es: seq<Expression>, rest: Toks) returns (k: nat)
    requires AndTail(toks) == Ok(Parsed(es, rest))
    ensures Took(toks, k, rest)
    ensures if es == [] then k == 0 else k > 0 && toks[0].AndTok? && IsAndList(toks[1..k], es)
    decreases |toks|, 0
  {
    if toks == [] || !toks[0].AndTok? {
      return 0;
    }
    var tail := toks[1..];
    var next := ParseUnary(tail).value;
    var i := UnarySound(tail, next.value, next.rest);
    var more := AndTail(next.rest).value;
    var j := AndTailSound(next.rest, more.value, more.rest);
    TookBoth(tail, i, next.rest, j, more.rest);
    k := 1 + i + j;
    assert toks[1..k] == tail[..i + j];
    if more.value != [] {
      AndListCons(tail[..i + j], i, next.value, more.value);
    }
  }

  lemma {:induction false} UnarySound(toks: Toks, e: Expression, rest: Toks) returns (k: nat)
    requires ParseUnary(toks) == Ok(Parsed(e, rest))
    ensures Took(toks, k, rest) && IsUnary(toks[..k], e)
    decreases |toks|, 3
  {
    if toks != [] && toks[0].NotTok? {
      var inner := ParseUnary(toks[1..]).value;
      k := UnarySound(toks[1..], inner.value, inner.rest);
      assert toks[..k + 1][1..] == toks[1..][..k];
      k := k + 1;
    } else {
      k := AtomSound(toks, e, rest);
    }
  }

  lemma {:induction false} AtomSound(toks: Toks, e: Expression, rest: Toks) returns (k: nat)
    requires ParseAtom(toks) == Ok(Parsed(e, rest))
    ensures Took(toks, k, rest) && IsAtom(toks[..k], e)
    decreases |toks|, 2
  {
    if toks[0].LParen? {
      var inner := ParseOr(toks[1..]).value;
      var j := OrSound(toks[1..], inner.value, inner.rest);
      ParenSound(toks, e, j, inner.rest);
      k := j + 2;
    } else {
      k := ConditionSound(toks, e, rest);
    }
  }

  lemma {:induction false} ParenSound(toks: Toks, e: Expression, j: nat, inner: Toks)
    requires toks != [] && toks[0].LParen? && inner != [] && inner[0].RParen?
    requires Took(toks[1..], j, inner) && IsOr(toks[1..][..j], e)
    ensures Took(toks, j + 2, inner[1..]) && IsAtom(toks[..j + 2], e)
  {
    assert toks[..j + 2][1..j + 1] == toks[1..][..j];
    assert toks[j + 1] == inner[0];
  }

  lemma {:induction false} ConditionSound(toks: Toks, e: Expression, rest: Toks) returns (k: nat)
    requires ParseAtom(toks) == Ok(Parsed(e, rest)) && !toks[0].LParen?
    ensures Took(toks, k, rest) && IsAtom(toks[..k], e)
  {
    k := |toks| - |rest|;
    assert e.Cond? && IsCondition(toks[..k], e.condition);
  }

  // ---- Everything in the grammar is accepted.

  predicate EndsOr(rest: Toks) { rest == [] || rest[0].RParen? }
  predicate EndsAnd(rest: Toks) { EndsOr(rest) || rest[0].OrTok? }
  predicate EndsUnary(rest: Toks) { EndsAnd(rest) || rest[0].AndTok? }

  lemma {:induction false} OrComplete(ts: Toks, e: Expression, rest: Toks)
    requires IsOr(ts, e) && EndsOr(rest)
    ensures ParseOr(ts + rest) == Ok(Parsed(e, rest))
    decreases |ts|, 12
  {
    if IsAnd(ts, e) {
      AndComplete(ts, e, rest);
    } else {
      var mid := OrListComplete(ts, e.parts, rest);
      assert e.parts == [e.parts[0]] + e.parts[1..];
    }
  }

  lemma {:induction false} OrListMore(ts: Toks, i: nat, es: seq<Expression>, rest: Toks, next: Toks)
    requires i < |ts| && ts[i].OrTok? && |es| > 1
    requires ParseAnd(ts[i + 1..] + rest) == Ok(Parsed(es[1], next)) && OrTail(next) == Ok(Parsed(es[2..], rest))
    ensures OrTail(ts[i..] + rest) == Ok(Parsed(es[1..], rest))
  {
    assert (ts[i..] + rest)[1..] == ts[i + 1..] + rest;
    assert es[1..] == [es[1]] + es[2..];
  }

  lemma {:induction false} OrListComplete(ts: Toks, es: seq<Expression>, rest: Toks) returns (mid: Toks)
    requires es != [] && IsOrList(ts, es) && EndsOr(rest)
    ensures ParseAnd(ts + rest) == Ok(Parsed(es[0], mid))
    ensures OrTail(mid) == Ok(Parsed(es[1..], rest))
    decreases |ts|, 10
  {
    if |es| == 1 {
      AndComplete(ts, es[0], rest);
      mid := rest;
    } else {
      var i := OrListSplit(ts, es);
      mid := ts[i..] + rest;
      assert ParseAnd(ts + rest) == Ok(Parsed(es[0], mid)) by {
        AndComplete(ts[..i], es[0], mid);
        assert ts[..i] + mid == ts + rest;
      }
      var next := OrListComplete(ts[i + 1..], es[1..], rest);
      assert es[1..][1..] == es[2..];
      OrListMore(ts, i, es, rest, next);
    }
  }

  lemma {:induction false} AndComplete(ts: Toks, e: Expression, rest: Toks)
    requires IsAnd(ts, e) && EndsAnd(rest)
    ensures ParseAnd(ts + rest) == Ok(Parsed(e, rest))
    decreases |ts|, 8
  {
    if IsUnary(ts, e) {
      UnaryComplete(ts, e, rest);
    } else {
      var mid := AndListComplete(ts, e.parts, rest);
      assert e.parts == [e.parts[0]] + e.parts[1..];
    }
  }

  lemma {:induction false} AndListMore(ts: Toks, i: nat, es: seq<Expression>, rest: Toks, next: Toks)
    requires i < |ts| && ts[i].AndTok? && |es| > 1
    requires ParseUnary(ts[i + 1..] + rest) == Ok(Parsed(es[1], next)) && AndTail(next) == Ok(Parsed(es[2..], rest))
    ensures AndTail(ts[i..] + rest) == Ok(Parsed(es[1..], rest))
  {
    assert (ts[i..] + rest)[1..] == ts[i + 1..] + rest;
    assert es[1..] == [es[1]] + es[2..];
  }

  lemma {:induction false} AndListComplete(ts: Toks, es: seq<Expression>, rest: Toks) returns (mid: Toks)
    requires es != [] && IsAndList(ts, es) && EndsAnd(rest)
    ensures ParseUnary(ts + rest) == Ok(Parsed(es[0], mid))
    ensures AndTail(mid) == Ok(Parsed(es[1..], rest))
    decreases |ts|, 6
  {
    if |es| == 1 {
      UnaryComplete(ts, es[0], rest);
      mid := rest;
    } else {
      var i := AndListSplit(ts, es);
      mid := ts[i..] + rest;
      UnaryThenAnd(ts, i, es[0], rest);
      var next := AndListComplete(ts[i + 1..], es[1..], rest);
      assert es[1..][1..] == es[2..];
      AndListMore(ts, i, es, rest, next);
    }
  }

  lemma {:induction false} UnaryThenAnd(ts: Toks, i: nat, e: Expression, rest: Toks)
    requires i < |ts| && ts[i].AndTok? && IsUnary(ts[..i], e)
    ensures ParseUnary(ts + rest) == Ok(Parsed(e, ts[i..] + rest))
    decreases |ts|, 5
  {
    var mid := ts[i..] + rest;
    UnaryComplete(ts[..i], e, mid);
    assert ts[..i] + mid == ts + rest;
  }

  lemma {:induction false} UnaryComplete(ts: Toks, e: Expression, rest: Toks)
    requires IsUnary(ts, e) && EndsUnary(rest)
    ensures ParseUnary(ts + rest) == Ok(Parsed(e, rest))
    decreases |ts|, 4
  {
    if ts != [] && ts[0].NotTok? && e.Not? && IsUnary(ts[1..], e.inner) {
      UnaryComplete(ts[1..], e.inner, rest);
      assert (ts + rest)[1..] == ts[1..] + rest;
    } else {
      AtomComplete(ts, e, rest);
    }
  }

  lemma {:induction false} AtomComplete(ts: Toks, e: Expression, rest: Toks)
    requires IsAtom(ts, e) && EndsUnary(rest)
    ensures ts != [] && !ts[0].NotTok?
    ensures ParseAtom(ts + rest) == Ok(Parsed(e, rest))
    decreases |ts|, 2
  {
    var all := ts + rest;
    if |ts| >= 2 && ts[0].LParen? && ts[|ts| - 1].RParen? && IsOr(ts[1..|ts| - 1], e) {
      var inner := ts[1..|ts| - 1];
      var after := ts[|ts| - 1..] + rest;
      OrComplete(inner, e, after);
      assert all[1..] == inner + after;
      assert after[1..] == rest;
    } else {
      assert all[|ts|..] == rest;
      ConditionComplete(ts, e.condition, rest);
    }
  }

  lemma ConditionComplete(ts: Toks, c: Condition, rest: Toks)
    requires IsCondition(ts, c) && EndsUnary(rest)
    ensures ts != [] && !ts[0].NotTok? && !ts[0].LParen?
    ensures ParseAtom(ts + rest) == Ok(Parsed(Cond(c), rest))
  {
    var all := ts + rest;
    var tail := all[1..];
    match c {
      case IsTrue(key) => assert tail == rest;
      case Exists(key) => assert tail[3..] == rest;
      case InSet(v, s, negate) =>
        assert tail[if negate then 2 else 1..][1..] == rest;
      case Comparison(key, op, value) =>
        assert tail[0] == ts[1] && tail[1..][0] == ts[2] && tail[1..][1..] == rest;
    }
  }

  /** The parser accepts exactly the grammar, and each accepted token list has one tree. */
  lemma ParserIsGrammar(ts: Toks, e: Expression)
    ensures ParseAll(ts) == Ok(e) <==> IsOr(ts, e)
  {
    assert ts + [] == ts;
    if ParseAll(ts) == Ok(e) {
      var k := OrSound(ts, e, []);
      assert ts[..|ts|] == ts;
    }
    if IsOr(ts, e) {
      OrComplete(ts, e, []);
    }
  }
}
