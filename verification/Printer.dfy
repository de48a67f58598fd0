/** A printer for predicates, which the repository does not have, and the proof that the parser inverts it. */
module Printer {
  import opened Prelude
  import opened Json
  import opened Policy
  import opened Lexer
  import opened Parser
  import opened Grammar

  // ---- What can be printed.

  /** A key the lexer reads back whole: an identifier path, and no keyword. */
  predicate IsKey(s: string) {
    && s != "" && IsIdentStart(s[0])
    && var extent := PathExtent(s);
    && extent.Ok? && extent.value.len == |s|
    && (extent.value.bracketed || Keyword(s).None?)
  }

  /** There are no escapes, so a string may use one kind of quote at most. */
  predicate IsQuotable(s: string) { '"' !in s || '\'' !in s }

  predicate IsFloatText(s: string) {
    && s != "" && (s[0] == '-' || IsDigit(s[0]))
    && NumberEnd(s) == NumberExtent(|s|, true)
    && exists c :: c in s && IsDigit(c)
  }

  predicate IsPrintableLiteral(lit: Literal) {
    match lit
    case LBool(_) => true
    case LInt(i) => IsI64(i)
    case LFloat(text) => IsFloatText(text)
    case LString(s) => IsQuotable(s)
  }

  predicate IsPrintableCondition(c: Condition) {
    match c
    case IsTrue(key) => IsKey(key)
    case Exists(key) => IsKey(key)
    case InSet(v, s, _) => IsKey(v) && IsKey(s)
    case Comparison(key, _, value) => IsKey(key) && IsPrintableLiteral(value)
    case IsFalse(_) => false
  }

  /** The expressions predicate text can denote: groups have two parts or more. */
  predicate IsPrintable(e: Expression) {
    match e
    case Cond(c) => IsPrintableCondition(c)
    case And(parts) => |parts| >= 2 && forall i :: 0 <= i < |parts| ==> IsPrintable(parts[i])
    case Or(parts) => |parts| >= 2 && forall i :: 0 <= i < |parts| ==> IsPrintable(parts[i])
    case Not(inner) => IsPrintable(inner)
    case Always => false
  }

  // ---- From trees to tokens.

  function LiteralTok(lit: Literal): Tok {
    match lit
    case LBool(b) => BoolLit(b)
    case LInt(i) => IntLit(i)
    case LFloat(text) => FloatLit(text)
    case LString(s) => StringLit(s)
  }

  function OpTok(op: CompareOp): Tok {
    match op
    case Eq => EqTok
    case NotEq => NotEqTok
    case Gt => GtTok
    case GtEq => GtEqTok
    case Lt => LtTok
    case LtEq => LtEqTok
    case Contains => ContainsTok
  }

  function ConditionToks(c: Condition): Toks
    requires !c.IsFalse?
  {
    match c
    case IsTrue(key) => [Ident(key)]
    case Exists(key) => [ExistsTok, LParen, Ident(key), RParen]
    case InSet(v, s, negate) => if negate then [Ident(v), Ident("not"), InTok, Ident(s)] else [Ident(v), InTok, Ident(s)]
    case Comparison(key, op, value) => [Ident(key), OpTok(op), LiteralTok(value)]
  }

  function Rank(e: Expression, or: nat, and: nat, other: nat): nat {
    if e.Or? then or else if e.And? then and else other
  }

  /** The tokens of `e` where an alternative may stand. */
  function OrToks(e: Expression): Toks
    requires IsPrintable(e)
    decreases e, Rank(e, 1, 2, 3)
  {
    if e.Or? then OrListToks(e.parts) else AndToks(e)
  }

  function OrListToks(es: seq<Expression>): Toks
    requires es != [] && forall i :: 0 <= i < |es| ==> IsPrintable(es[i])
    decreases es, 0
  {
    if |es| == 1 then AndToks(es[0]) else AndToks(es[0]) + [OrTok] + OrListToks(es[1..])
  }

  /** The tokens of `e` as a part of an alternative. */
  function AndToks(e: Expression): Toks
    requires IsPrintable(e)
    decreases e, Rank(e, 3, 1, 2)
  {
    if e.And? then AndListToks(e.parts) else UnaryToks(e)
  }

  function AndListToks(es: seq<Expression>): Toks
    requires es != [] && forall i :: 0 <= i < |es| ==> IsPrintable(es[i])
    decreases es, 0
  {
    if |es| == 1 then UnaryToks(es[0]) else UnaryToks(es[0]) + [AndTok] + AndListToks(es[1..])
  }

  /** The tokens of `e` as an operand of `!` or `&`: a group in parentheses. */
  function UnaryToks(e: Expression): Toks
    requires IsPrintable(e)
    decreases e, Rank(e, 2, 3, 1)
  {
    if e.Not? then [NotTok] + UnaryToks(e.inner)
    else if e.Cond? then ConditionToks(e.condition)
    else [LParen] + OrToks(e) + [RParen]
  }

  // ---- The tokens derive the tree.

  lemma {:induction false} OrToksDerive(e: Expression)
    requires IsPrintable(e)
    ensures IsOr(OrToks(e), e)
    decreases e, Rank(e, 1, 2, 3)
  {
    if e.Or? {
      OrListDerives(e.parts);
    } else {
      AndToksDerive(e);
    }
  }

  lemma {:induction false} OrListJoin(head: Toks, e: Expression, tail: Toks, es: seq<Expression>)
    requires IsAnd(head, e) && es != [] && IsOrList(tail, es)
    ensures IsOrList(head + [OrTok] + tail, [e] + es)
  {
    var ts := head + [OrTok] + tail;
    assert ts[..|head|] == head && ts[|head| + 1..] == tail;
    OrListCons(ts, |head|, e, es);
  }

  lemma {:induction false} OrListDerives(es: seq<Expression>)
    requires es != [] && forall i :: 0 <= i < |es| ==> IsPrintable(es[i])
    ensures IsOrList(OrListToks(es), es)
    decreases es, 0
  {
    AndToksDerive(es[0]);
    if |es| > 1 {
      OrListDerives(es[1..]);
      OrListJoin(AndToks(es[0]), es[0], OrListToks(es[1..]), es[1..]);
      assert es == [es[0]] + es[1..];
    }
  }

  lemma {:induction false} AndToksDerive(e: Expression)
    requires IsPrintable(e)
    ensures IsAnd(AndToks(e), e)
    decreases e, Rank(e, 3, 1, 2)
  {
    if e.And? {
      AndListDerives(e.parts);
    } else {
      UnaryToksDerive(e);
    }
  }

  lemma {:induction false} AndListJoin(head: Toks, e: Expression, tail: Toks, es: seq<Expression>)
    requires IsUnary(head, e) && es != [] && IsAndList(tail, es)
    ensures IsAndList(head + [AndTok] + tail, [e] + es)
  {
    var ts := head + [AndTok] + tail;
    assert ts[..|head|] == head && ts[|head| + 1..] == tail;
    AndListCons(ts, |head|, e, es);
  }

  lemma {:induction false} AndListDerives(es: seq<Expression>)
    requires es != [] && forall i :: 0 <= i < |es| ==> IsPrintable(es[i])
    ensures IsAndList(AndListToks(es), es)
    decreases es, 0
  {
    UnaryToksDerive(es[0]);
    if |es| > 1 {
      AndListDerives(es[1..]);
      AndListJoin(UnaryToks(es[0]), es[0], AndListToks(es[1..]), es[1..]);
      assert es == [es[0]] + es[1..];
    }
  }

  lemma {:induction false} UnaryToksDerive(e: Expression)
    requires IsPrintable(e)
    ensures IsUnary(UnaryToks(e), e)
    decreases e, Rank(e, 2, 3, 1)
  {
    var ts := UnaryToks(e);
    if e.Not? {
      UnaryToksDerive(e.inner);
      assert ts[1..] == UnaryToks(e.inner);
    } else if e.Cond? {
      assert IsCondition(ts, e.condition);
    } else {
      OrToksDerive(e);
      assert ts[1..|ts| - 1] == OrToks(e);
      assert IsAtom(ts, e);
    }
  }

  // ---- From tokens to text.

  predicate IsPrintableTok(t: Tok) {
    match t
    case Ident(name) => IsKey(name)
    case StringLit(s) => IsQuotable(s)
    case IntLit(i) => IsI64(i)
    case FloatLit(text) => IsFloatText(text)
    case _ => true
  }

  function Quote(s: string): string {
    if '"' in s then "'" + s + "'" else "\"" + s + "\""
  }

  function TokText(t: Tok): string {
    match t
    case Ident(name) => name
    case StringLit(s) => Quote(s)
    case IntLit(i) => Decimal(i)
    case FloatLit(text) => text
    case BoolLit(b) => if b then "true" else "false"
    case EqTok => "=="
    case NotEqTok => "!="
    case GtTok => ">"
    case GtEqTok => ">="
    case LtTok => "<"
    case LtEqTok => "<="
    case AndTok => "&"
    case OrTok => "|"
    case NotTok => "!"
    case LParen => "("
    case RParen => ")"
    case Comma => ","
    case ContainsTok => "contains"
    case RequireTok => "require"
    case ExistsTok => "exists"
    case InTok => "in"
  }

  /** Tokens with one space between neighbours. */
  function ToksText(ts: Toks): string {
    if ts == [] then "" else if |ts| == 1 then TokText(ts[0]) else TokText(ts[0]) + " " + ToksText(ts[1..])
  }

  function Print(e: Expression): string
    requires IsPrintable(e)
  {
    ToksText(OrToks(e))
  }

  // ---- The lexer reads each token back.

  /** Text a token can be followed by: nothing, or a space. */
  predicate IsGap(tail: string) { tail == "" || tail[0] == ' ' }

  lemma {:induction false} DigitRunStops(s: string, tail: string)
    requires tail == "" || !IsDigit(tail[0])
    ensures DigitRun(s + tail) == DigitRun(s)
  {
    if s != "" {
      assert (s + tail)[1..] == s[1..] + tail;
      DigitRunStops(s[1..], tail);
    } else {
      assert s + tail == tail;
    }
  }

  lemma {:induction false} IdentRunStops(s: string, tail: string)
    requires tail == "" || !IsIdentCont(tail[0])
    ensures IdentRun(s + tail) == IdentRun(s)
  {
    if s != "" {
      assert (s + tail)[1..] == s[1..] + tail;
      IdentRunStops(s[1..], tail);
    } else {
      assert s + tail == tail;
    }
  }

  lemma {:induction false} GroupEndStops(s: string, tail: string)
    requires GroupEnd(s).Ok?
    ensures GroupEnd(s + tail) == GroupEnd(s)
  {
    if s[0] != ']' {
      assert (s + tail)[1..] == s[1..] + tail;
      GroupEndStops(s[1..], tail);
    }
  }

  lemma {:induction false} PathExtentStops(s: string, tail: string)
    requires PathExtent(s).Ok? && IsGap(tail)
    ensures PathExtent(s + tail) == PathExtent(s)
    decreases |s|
  {
    IdentRunStops(s, tail);
    var n := IdentRun(s);
    if n < |s| && s[n] == '[' {
      var inner := s[n + 1..];
      var g := GroupEnd(inner).value;
      GroupEndStops(inner, tail);
      assert (s + tail)[n + 1..] == inner + tail;
      assert (s + tail)[n + 1 + g..] == s[n + 1 + g..] + tail;
      GroupThenRest(s, n, inner, g, s[n + 1 + g..]);
      GroupThenRest(s + tail, n, inner + tail, g, s[n + 1 + g..] + tail);
      PathExtentStops(s[n + 1 + g..], tail);
    } else {
      PathEnd(s);
      PathEnd(s + tail);
    }
  }

  lemma {:induction false} NumberEndStops(s: string, tail: string)
    requires IsGap(tail)
    ensures NumberEnd(s + tail) == NumberEnd(s)
  {
    var sign := Sign(s);
    assert Sign(s + tail) == sign;
    assert (s + tail)[sign..] == s[sign..] + tail;
    DigitRunStops(s[sign..], tail);
    FromWholeStops(s, tail, sign + DigitRun(s[sign..]));
  }

  lemma {:induction false} FromWholeStops(s: string, tail: string, whole: nat)
    requires IsGap(tail) && whole <= |s|
    ensures FromWhole(s + tail, whole) == FromWhole(s, whole)
  {
    if whole < |s| && s[whole] == '.' {
      assert (s + tail)[whole + 1..] == s[whole + 1..] + tail;
      DigitRunStops(s[whole + 1..], tail);
    }
  }

  lemma {:induction false} DigitRunAll(s: string)
    requires AllDigits(s)
    ensures DigitRun(s) == |s|
  {
    if s != "" {
      assert s[0] in s;
      assert forall c :: c in s[1..] ==> c in s;
      DigitRunAll(s[1..]);
    }
  }

  lemma {:induction false} DecimalNatValue(n: nat)
    ensures AllDigits(DecimalNat(n)) && DigitsValue(DecimalNat(n)) == n
  {
    var s := DecimalNat(n);
    if n < 10 {
      assert s[..0] == "";
    } else {
      DecimalNatValue(n / 10);
      assert s[..|s| - 1] == DecimalNat(n / 10);
    }
  }

  /** Decimal text reads back as the same integer. */
  lemma DecimalReads(i: int)
    requires IsI64(i)
    ensures ParseI64(Decimal(i)) == Some(i)
    ensures NumberEnd(Decimal(i)) == NumberExtent(|Decimal(i)|, false)
    ensures Decimal(i)[0] == '-' || IsDigit(Decimal(i)[0])
  {
    var m: nat := if i < 0 then -i else i;
    var digits := DecimalNat(m);
    DecimalNatValue(m);
    DigitRunAll(digits);
    assert digits[0] in digits;
    if i < 0 {
      assert Decimal(i)[1..] == digits;
    } else {
      assert digits[0..] == digits;
    }
  }

  lemma LexesNumber(t: Tok, tail: string)
    requires (t.IntLit? || t.FloatLit?) && IsPrintableTok(t) && IsGap(tail)
    ensures LexOne(TokText(t) + tail) == Ok(Lexeme(t, |TokText(t)|))
  {
    var text := TokText(t);
    if t.IntLit? {
      DecimalReads(t.i);
    }
    NumberEndStops(text, tail);
    assert (text + tail)[..|text|] == text;
  }

  lemma LexesIdent(t: Tok, tail: string)
    requires t.Ident? && IsPrintableTok(t) && IsGap(tail)
    ensures LexOne(TokText(t) + tail) == Ok(Lexeme(t, |TokText(t)|))
  {
    PathExtentStops(t.name, tail);
    assert (t.name + tail)[..|t.name|] == t.name;
  }

  lemma LexesString(t: Tok, tail: string)
    requires t.StringLit? && IsPrintableTok(t)
    ensures LexOne(TokText(t) + tail) == Ok(Lexeme(t, |TokText(t)|))
  {
    var q := if '"' in t.s then '\'' else '"';
    var text := TokText(t) + tail;
    assert text == [q] + t.s + [q] + tail;
    var inner := text[1..];
    assert inner == t.s + ([q] + tail);
    assert inner[..|t.s|] == t.s;
    FindAt(inner, q, |t.s|);
    assert text[1..1 + |t.s|] == t.s;
  }

  predicate IsWord(t: Tok) {
    t.BoolLit? || t.ContainsTok? || t.RequireTok? || t.ExistsTok? || t.InTok?
  }

  lemma {:induction false} IdentRunAll(s: string)
    requires forall c :: c in s ==> IsIdentCont(c)
    ensures IdentRun(s) == |s|
  {
    if s != "" {
      assert s[0] in s;
      assert forall c :: c in s[1..] ==> c in s;
      IdentRunAll(s[1..]);
    }
  }

  lemma LexesWord(t: Tok, tail: string)
    requires IsWord(t) && IsGap(tail)
    ensures LexOne(TokText(t) + tail) == Ok(Lexeme(t, |TokText(t)|))
  {
    var text := TokText(t);
    IdentRunAll(text);
    PathEnd(text);
    PathExtentStops(text, tail);
    assert (text + tail)[..|text|] == text;
  }

  lemma LexesTok(t: Tok, tail: string)
    requires IsPrintableTok(t) && IsGap(tail)
    ensures TokText(t) != "" && LexOne(TokText(t) + tail) == Ok(Lexeme(t, |TokText(t)|))
  {
    if t.Ident? {
      LexesIdent(t, tail);
    } else if t.StringLit? {
      LexesString(t, tail);
    } else if t.IntLit? || t.FloatLit? {
      LexesNumber(t, tail);
    } else if IsWord(t) {
      LexesWord(t, tail);
    }
  }

  ghost predicate AllPrintable(ts: Toks) {
    forall i :: 0 <= i < |ts| ==> IsPrintableTok(ts[i])
  }

  lemma {:induction false} NoSpaceAtStart(s: string)
    requires s != "" && LexOne(s).Ok?
    ensures SpaceRun(s) == 0
  {
  }

  lemma {:induction false} TokensStep(head: string, t: Tok, tail: string)
    requires head != "" && LexOne(head + tail) == Ok(Lexeme(t, |head|))
    ensures Tokens(head + tail) == Prefixed([t], Tokens(tail))
  {
    var s := head + tail;
    NoSpaceAtStart(s);
    assert s[0..] == s && s[|head|..] == tail;
  }

  /** Lexing printed tokens gives the tokens back. */
  lemma {:induction false} TokensOfText(ts: Toks)
    requires AllPrintable(ts)
    ensures Tokens(ToksText(ts)) == Ok(ts)
  {
    if ts != [] {
      var head := TokText(ts[0]);
      var tail := if |ts| == 1 then "" else " " + ToksText(ts[1..]);
      assert ToksText(ts) == head + tail;
      LexesTok(ts[0], tail);
      TokensStep(head, ts[0], tail);
      TokensOfText(ts[1..]);
      if |ts| > 1 {
        SkipOneSpace(ToksText(ts[1..]));
      }
      assert ts == [ts[0]] + ts[1..];
    }
  }

  lemma {:induction false} SkipOneSpace(s: string)
    ensures Tokens(" " + s) == Tokens(s)
  {
    var spaced := " " + s;
    assert spaced[1..] == s;
    var skip := SpaceRun(s);
    assert SpaceRun(spaced) == 1 + skip;
    DropTwice(spaced, 1, skip);
    if skip == |s| {
      TokensDone(s, 0);
      TokensDone(spaced, 0);
      assert s[0..] == s && spaced[0..] == spaced;
    } else {
      SkipOneSpaceFirst(s, skip);
    }
  }

  lemma {:induction false} SkipOneSpaceFirst(s: string, skip: nat)
    requires skip == SpaceRun(s) < |s| && SpaceRun(" " + s) == 1 + skip && (" " + s)[1 + skip..] == s[skip..]
    ensures Tokens(" " + s) == Tokens(s)
  {
    var spaced := " " + s;
    var x := s[skip..];
    if LexOne(x).Err? {
      TokensStop(s, skip, x);
      TokensStop(spaced, 1 + skip, x);
    } else {
      var first := LexOne(x).value;
      var rest := s[skip + first.len..];
      assert spaced[1..] == s;
      DropTwice(spaced, 1, skip + first.len);
      TokensUnfold(s, skip, x, first, rest);
      TokensUnfold(spaced, 1 + skip, x, first, rest);
    }
  }

  // ---- Printed text has no whitespace at either end.

  lemma {:induction false} TextEnds(ts: Toks)
    requires ts != [] && AllPrintable(ts)
    ensures var s := ToksText(ts); s != "" && !IsWhitespace(s[0]) && !IsWhitespace(s[|s| - 1])
  {
    TokEnds(ts[0]);
    if |ts| > 1 {
      TextEnds(ts[1..]);
    }
  }

  predicate SolidEnds(s: string) { s != "" && !IsWhitespace(s[0]) && !IsWhitespace(s[|s| - 1]) }

  lemma KeyEnds(s: string)
    requires IsKey(s)
    ensures SolidEnds(s)
  {
    PathEnds(s);
  }

  lemma FloatEnds(s: string)
    requires IsFloatText(s)
    ensures SolidEnds(s)
  {
    NumberEnds(s);
  }

  lemma FixedEnds(t: Tok)
    requires !t.Ident? && !t.IntLit? && !t.FloatLit?
    ensures SolidEnds(TokText(t))
  {
  }

  lemma TokEnds(t: Tok)
    requires IsPrintableTok(t)
    ensures SolidEnds(TokText(t))
  {
    match t
    case Ident(name) => KeyEnds(name);
    case IntLit(i) => DecimalEnds(i);
    case FloatLit(text) => FloatEnds(text);
    case _ => FixedEnds(t);
  }

  lemma DecimalEnds(i: int)
    requires IsI64(i)
    ensures var s := Decimal(i); s != "" && !IsWhitespace(s[0]) && !IsWhitespace(s[|s| - 1])
  {
    DecimalReads(i);
    var digits := DecimalNat(if i < 0 then -i else i);
    assert digits[|digits| - 1] in digits;
    assert Decimal(i)[|Decimal(i)| - 1] == digits[|digits| - 1];
  }

  lemma {:induction false} DigitRunIsDigits(s: string, i: nat)
    requires i < DigitRun(s)
    ensures IsDigit(s[i])
  {
    if i > 0 {
      DigitRunIsDigits(s[1..], i - 1);
    }
  }

  lemma {:induction false} IdentRunIsIdent(s: string, i: nat)
    requires i < IdentRun(s)
    ensures IsIdentCont(s[i])
  {
    if i > 0 {
      IdentRunIsIdent(s[1..], i - 1);
    }
  }

  lemma NumberEnds(s: string)
    requires IsFloatText(s)
    ensures !IsWhitespace(s[|s| - 1])
  {
    var sign := if s[0] == '-' then 1 else 0;
    var whole := sign + DigitRun(s[sign..]);
    var fraction := s[whole + 1..];
    if fraction != "" {
      DigitRunIsDigits(fraction, |fraction| - 1);
    }
  }

  lemma {:induction false} GroupEndsInBracket(s: string)
    requires GroupEnd(s).Ok?
    ensures s[GroupEnd(s).value - 1] == ']'
  {
    if s[0] != ']' {
      GroupEndsInBracket(s[1..]);
    }
  }

  lemma {:induction false} PathEnds(s: string)
    requires s != "" && PathExtent(s).Ok? && PathExtent(s).value.len == |s|
    ensures !IsWhitespace(s[|s| - 1])
    decreases |s|
  {
    var n := IdentRun(s);
    if n < |s| && s[n] == '[' {
      var inner := s[n + 1..];
      var g := GroupEnd(inner).value;
      GroupEndsInBracket(inner);
      var rest := s[n + 1 + g..];
      if rest != "" {
        PathEnds(rest);
      } else {
        assert s[|s| - 1] == inner[g - 1];
      }
    } else {
      IdentRunIsIdent(s, |s| - 1);
    }
  }

  lemma TrimKeeps(s: string)
    requires s != "" ==> !IsWhitespace(s[0]) && !IsWhitespace(s[|s| - 1])
    ensures Trim(s) == s
  {
  }

  // ---- The round trip.

  lemma {:induction false} OrToksPrintable(e: Expression)
    requires IsPrintable(e)
    ensures OrToks(e) != [] && AllPrintable(OrToks(e))
    decreases e, Rank(e, 1, 2, 3)
  {
    if e.Or? {
      OrListPrintable(e.parts);
    } else {
      AndToksPrintable(e);
    }
  }

  lemma {:induction false} OrListPrintable(es: seq<Expression>)
    requires es != [] && forall i :: 0 <= i < |es| ==> IsPrintable(es[i])
    ensures OrListToks(es) != [] && AllPrintable(OrListToks(es))
    decreases es, 0
  {
    AndToksPrintable(es[0]);
    if |es| > 1 {
      OrListPrintable(es[1..]);
    }
  }

  lemma {:induction false} AndToksPrintable(e: Expression)
    requires IsPrintable(e)
    ensures AndToks(e) != [] && AllPrintable(AndToks(e))
    decreases e, Rank(e, 3, 1, 2)
  {
    if e.And? {
      AndListPrintable(e.parts);
    } else {
      UnaryToksPrintable(e);
    }
  }

  lemma {:induction false} AndListPrintable(es: seq<Expression>)
    requires es != [] && forall i :: 0 <= i < |es| ==> IsPrintable(es[i])
    ensures AndListToks(es) != [] && AllPrintable(AndListToks(es))
    decreases es, 0
  {
    UnaryToksPrintable(es[0]);
    if |es| > 1 {
      AndListPrintable(es[1..]);
    }
  }

  lemma NotIsAKey()
    ensures IsKey("not")
  {
    IdentRunAll("not");
    PathEnd("not");
  }

  lemma {:induction false} UnaryToksPrintable(e: Expression)
    requires IsPrintable(e)
    ensures UnaryToks(e) != [] && AllPrintable(UnaryToks(e))
    decreases e, Rank(e, 2, 3, 1)
  {
    if e.Not? {
      UnaryToksPrintable(e.inner);
    } else if e.Cond? {
      NotIsAKey();
    } else {
      OrToksPrintable(e);
    }
  }

  /** Printing any printable expression, then lexing and parsing it, returns the identical tree. */
  lemma RoundTrip(e: Expression)
    requires IsPrintable(e)
    ensures ParsePredicate(Print(e)) == Ok(e)
  {
    var ts := OrToks(e);
    OrToksPrintable(e);
    TextEnds(ts);
    TrimKeeps(Print(e));
    TokensOfText(ts);
    OrToksDerive(e);
    ParserIsGrammar(ts, e);
  }

  // ---- What the front end accepts can always be printed.

  lemma {:induction false} GroupEndPrefix(s: string, n: nat)
    requires GroupEnd(s).Ok? && GroupEnd(s).value <= n <= |s|
    ensures GroupEnd(s[..n]) == GroupEnd(s)
  {
    if s[0] != ']' {
      assert s[..n][1..] == s[1..][..n - 1];
      GroupEndPrefix(s[1..], n - 1);
    }
  }

  lemma {:induction false} IdentRunPrefix(s: string, n: nat)
    requires IdentRun(s) <= n <= |s|
    ensures IdentRun(s[..n]) == IdentRun(s)
  {
    if IdentRun(s) > 0 {
      assert s[..n][1..] == s[1..][..n - 1];
      IdentRunPrefix(s[1..], n - 1);
    }
  }

  lemma {:induction false} DigitRunPrefix(s: string, n: nat)
    requires DigitRun(s) <= n <= |s|
    ensures DigitRun(s[..n]) == DigitRun(s)
  {
    if DigitRun(s) > 0 {
      assert s[..n][1..] == s[1..][..n - 1];
      DigitRunPrefix(s[1..], n - 1);
    }
  }

  /** A lexed path is, on its own, the same path. */
  lemma {:induction false} PathExtentPrefix(s: string, extent: Extent)
    requires PathExtent(s) == Ok(extent)
    ensures PathExtent(s[..extent.len]) == Ok(extent)
    decreases |s|
  {
    var n := IdentRun(s);
    if n < |s| && s[n] == '[' {
      var g, inner := PathRest(s);
      var rest := s[n + 1 + g..];
      PathExtentPrefix(rest, inner);
      GroupedPrefix(s, n, g, rest, inner, extent);
    } else {
      PlainPrefix(s, n, extent);
    }
  }

  lemma {:induction false} PlainPrefix(s: string, n: nat, extent: Extent)
    requires n == IdentRun(s) && (n < |s| ==> s[n] != '[') && PathExtent(s) == Ok(extent)
    ensures PathExtent(s[..extent.len]) == Ok(extent)
  {
    PathEnd(s);
    IdentRunPrefix(s, n);
    PathEnd(s[..n]);
  }

  lemma {:induction false} GroupedPrefix(s: string, n: nat, g: nat, rest: string, inner: Extent, extent: Extent)
    requires n == IdentRun(s) < |s| && s[n] == '[' && GroupEnd(s[n + 1..]) == Ok(g) && n + 1 + g <= |s|
    requires rest == s[n + 1 + g..] && inner.len <= |rest| && PathExtent(rest[..inner.len]) == Ok(inner)
    requires extent == Extent(n + 1 + g + inner.len, true)
    ensures PathExtent(s[..extent.len]) == Ok(extent)
  {
    var len := extent.len;
    IdentRunPrefix(s, len);
    GroupPrefix(s, n, g, len);
  }

  lemma {:induction false} PathRest(s: string) returns (g: nat, inner: Extent)
    requires PathExtent(s).Ok? && IdentRun(s) < |s| && s[IdentRun(s)] == '['
    ensures GroupEnd(s[IdentRun(s) + 1..]) == Ok(g) && IdentRun(s) + 1 + g <= |s|
    ensures PathExtent(s[IdentRun(s) + 1 + g..]) == Ok(inner)
    ensures PathExtent(s) == Ok(Extent(IdentRun(s) + 1 + g + inner.len, true))
  {
    g := GroupEnd(s[IdentRun(s) + 1..]).value;
    var rest := s[IdentRun(s) + 1 + g..];
    GroupThenRest(s, IdentRun(s), s[IdentRun(s) + 1..], g, rest);
    inner := PathExtent(rest).value;
  }

  lemma {:induction false} GroupPrefix(s: string, n: nat, g: nat, len: nat)
    requires n == IdentRun(s) < len <= |s| && s[n] == '[' && IdentRun(s[..len]) == n
    requires GroupEnd(s[n + 1..]) == Ok(g) && n + 1 + g <= len
    ensures PathExtent(s[..len]) == Onward(n + 1 + g, true, PathExtent(s[n + 1 + g..][..len - n - 1 - g]))
  {
    var t := s[..len];
    var inner, rest := s[n + 1..][..len - n - 1], s[n + 1 + g..][..len - n - 1 - g];
    assert t[n + 1..] == inner;
    GroupEndPrefix(s[n + 1..], len - n - 1);
    assert t[n + 1 + g..] == rest;
    GroupThenRest(t, n, inner, g, rest);
  }

  lemma {:induction false} NumberEndPrefix(s: string)
    ensures NumberEnd(s[..NumberEnd(s).len]) == NumberEnd(s)
  {
    var len, sign := NumberEnd(s).len, Sign(s);
    var whole := sign + DigitRun(s[sign..]);
    assert FromWhole(s, whole).len == len;
    var t := s[..len];
    assert t[sign..] == s[sign..][..len - sign];
    assert Sign(t) == sign;
    DigitRunPrefix(s[sign..], len - sign);
    FromWholePrefix(s, whole);
  }

  lemma {:induction false} FromWholePrefix(s: string, whole: nat)
    requires whole <= |s|
    ensures FromWhole(s[..FromWhole(s, whole).len], whole) == FromWhole(s, whole)
  {
    var len := FromWhole(s, whole).len;
    if whole < |s| && s[whole] == '.' {
      assert s[..len][whole + 1..] == s[whole + 1..][..len - whole - 1];
      DigitRunPrefix(s[whole + 1..], len - whole - 1);
    }
  }

  lemma {:induction false} LexIdentGivesKey(s: string)
    requires s != "" && IsIdentStart(s[0]) && LexIdent(s).Ok?
    ensures IsPrintableTok(LexIdent(s).value.tok)
  {
    PathExtentPrefix(s, PathExtent(s).value);
    var text := s[..PathExtent(s).value.len];
    assert text != "" && text[0] == s[0];
  }

  lemma {:induction false} LexNumberGivesNumber(s: string)
    requires s != "" && (s[0] == '-' || IsDigit(s[0])) && LexNumber(s).Ok?
    ensures IsPrintableTok(LexNumber(s).value.tok)
  {
    NumberEndPrefix(s);
    var end := NumberEnd(s);
    assert s[..end.len] != "" && s[..end.len][0] == s[0];
  }

  lemma {:induction false} LexStringGivesQuotable(s: string)
    requires s != "" && (s[0] == '"' || s[0] == '\'') && LexString(s).Ok?
    ensures IsPrintableTok(LexString(s).value.tok)
  {
    var close := Find(s[1..], s[0]).value;
    assert s[1..1 + close] == s[1..][..close];
  }

  lemma {:induction false} LexGivesPrintable(s: string)
    requires s != "" && LexOne(s).Ok?
    ensures IsPrintableTok(LexOne(s).value.tok)
  {
    if s[0] == '"' || s[0] == '\'' {
      LexStringGivesQuotable(s);
    } else if s[0] == '-' || IsDigit(s[0]) {
      LexNumberGivesNumber(s);
    } else if IsIdentStart(s[0]) {
      LexIdentGivesKey(s);
    }
  }

  lemma {:induction false} TokensHead(s: string) returns (first: Lexeme, skip: nat)
    requires Tokens(s).Ok? && Tokens(s).value != []
    ensures skip + first.len <= |s| && first.len > 0 && s[skip..] != ""
    ensures LexOne(s[skip..]) == Ok(first)
    ensures Tokens(s[skip + first.len..]).Ok?
    ensures Tokens(s).value == [first.tok] + Tokens(s[skip + first.len..]).value
  {
    skip := SpaceRun(s);
    FirstLexes(s, skip);
    first := LexOne(s[skip..]).value;
    TokensUnfold(s, skip, s[skip..], first, s[skip + first.len..]);
  }

  lemma {:induction false} FirstLexes(s: string, skip: nat)
    requires skip == SpaceRun(s) && Tokens(s).Ok? && Tokens(s).value != []
    ensures skip < |s| && LexOne(s[skip..]).Ok?
  {
  }

  lemma {:induction false} TokensPrintable(s: string)
    requires Tokens(s).Ok?
    ensures AllPrintable(Tokens(s).value)
    decreases |s|
  {
    if Tokens(s).value != [] {
      var first, skip := TokensHead(s);
      LexGivesPrintable(s[skip..]);
      TokensPrintable(s[skip + first.len..]);
    }
  }

  lemma {:induction false} OrPrintable(ts: Toks, e: Expression)
    requires AllPrintable(ts) && IsOr(ts, e)
    ensures IsPrintable(e)
    decreases |ts|, 6
  {
    if IsAnd(ts, e) {
      AndPrintable(ts, e);
    } else {
      OrPartsPrintable(ts, e.parts);
    }
  }

  lemma {:induction false} OrPartsPrintable(ts: Toks, es: seq<Expression>)
    requires AllPrintable(ts) && es != [] && IsOrList(ts, es)
    ensures forall i :: 0 <= i < |es| ==> IsPrintable(es[i])
    decreases |ts|, 5
  {
    if |es| == 1 {
      AndPrintable(ts, es[0]);
    } else {
      var i := OrListSplit(ts, es);
      AndPrintable(ts[..i], es[0]);
      OrPartsPrintable(ts[i + 1..], es[1..]);
      assert forall k :: 1 <= k < |es| ==> es[k] == es[1..][k - 1];
    }
  }

  lemma {:induction false} AndPrintable(ts: Toks, e: Expression)
    requires AllPrintable(ts) && IsAnd(ts, e)
    ensures IsPrintable(e)
    decreases |ts|, 4
  {
    if IsUnary(ts, e) {
      UnaryPrintable(ts, e);
    } else {
      AndPartsPrintable(ts, e.parts);
    }
  }

  lemma {:induction false} AndPartsPrintable(ts: Toks, es: seq<Expression>)
    requires AllPrintable(ts) && es != [] && IsAndList(ts, es)
    ensures forall i :: 0 <= i < |es| ==> IsPrintable(es[i])
    decreases |ts|, 3
  {
    if |es| == 1 {
      UnaryPrintable(ts, es[0]);
    } else {
      var i := AndListSplit(ts, es);
      UnaryPrintable(ts[..i], es[0]);
      AndPartsPrintable(ts[i + 1..], es[1..]);
      assert forall k :: 1 <= k < |es| ==> es[k] == es[1..][k - 1];
    }
  }

  lemma {:induction false} UnaryPrintable(ts: Toks, e: Expression)
    requires AllPrintable(ts) && IsUnary(ts, e)
    ensures IsPrintable(e)
    decreases |ts|, 2
  {
    if ts != [] && ts[0].NotTok? && e.Not? && IsUnary(ts[1..], e.inner) {
      UnaryPrintable(ts[1..], e.inner);
    } else if |ts| >= 2 && ts[0].LParen? && ts[|ts| - 1].RParen? && IsOr(ts[1..|ts| - 1], e) {
      OrPrintable(ts[1..|ts| - 1], e);
    } else {
      ConditionPrintable(ts, e.condition);
    }
  }

  lemma ConditionPrintable(ts: Toks, c: Condition)
    requires AllPrintable(ts) && IsCondition(ts, c)
    ensures IsPrintableCondition(c)
  {
    match c {
      case IsTrue(key) => assert ts[0] == Ident(key);
      case Exists(key) => assert ts[2] == Ident(key);
      case InSet(v, s, negate) => assert ts[0] == Ident(v) && ts[|ts| - 1] == Ident(s);
      case Comparison(key, op, value) => assert IsPrintableTok(ts[0]) && IsPrintableTok(ts[2]);
    }
  }

  /**
   * Whatever text the front end accepts denotes a printable tree, and printing that tree gives a
   * canonical text with the same meaning: the printable trees are exactly the parseable ones.
   */
  lemma AcceptedIsPrintable(src: string, e: Expression)
    requires ParsePredicate(src) == Ok(e)
    ensures IsPrintable(e) && ParsePredicate(Print(e)) == Ok(e)
  {
    var ts := Tokens(Trim(src)).value;
    TokensPrintable(Trim(src));
    ParserIsGrammar(ts, e);
    OrPrintable(ts, e);
    RoundTrip(e);
  }
}
