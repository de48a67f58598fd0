/** The predicate lexer: a position moving over the source, one token at a time. */
module Lexer {
  import opened Prelude
  import opened Json

  datatype Tok =
    | Ident(name: string)
    | StringLit(s: string)
    | IntLit(i: int)
    | FloatLit(text: string)
    | BoolLit(b: bool)
    | EqTok | NotEqTok | GtTok | GtEqTok | LtTok | LtEqTok
    | AndTok | OrTok | NotTok
    | LParen | RParen | Comma
    | ContainsTok | RequireTok | ExistsTok | InTok

  datatype LexError =
    | LoneEquals
    | UnexpectedChar
    | UnterminatedString
    | BadNumber
    | NestedBracket
    | UnterminatedBracket

  /** A token and how many characters it took. */
  datatype Lexeme = Lexeme(tok: Tok, len: nat)

  predicate IsAsciiSpace(c: char) { c == ' ' || c == '\t' || c == '\n' || c == '\r' || c as int == 0xC }
  predicate IsDigit(c: char) { '0' <= c <= '9' }
  predicate IsAlpha(c: char) { 'a' <= c <= 'z' || 'A' <= c <= 'Z' }
  predicate IsIdentStart(c: char) { IsAlpha(c) || c == '_' }
  predicate IsIdentCont(c: char) { IsAlpha(c) || IsDigit(c) || c == '_' || c == '.' }

  function SpaceRun(s: string): (n: nat)
    ensures n <= |s|
  {
    if s != "" && IsAsciiSpace(s[0]) then 1 + SpaceRun(s[1..]) else 0
  }

  function DigitRun(s: string): (n: nat)
    ensures n <= |s|
  {
    if s != "" && IsDigit(s[0]) then 1 + DigitRun(s[1..]) else 0
  }

  function IdentRun(s: string): (n: nat)
    ensures n <= |s|
  {
    if s != "" && IsIdentCont(s[0]) then 1 + IdentRun(s[1..]) else 0
  }

  /** The value of a digit string. */
  function DigitsValue(s: string): nat
    requires AllDigits(s)
  {
    if s == "" then 0
    else
      assert s[|s| - 1] in s;
      10 * DigitsValue(s[..|s| - 1]) + (s[|s| - 1] as int - '0' as int)
  }

  predicate AllDigits(s: string) { forall c :: c in s ==> IsDigit(c) }

  /** `str::parse::<i64>` on an optional minus sign and digits. */
  function ParseI64(text: string): Option<int> {
    var digits := if text != "" && text[0] == '-' then text[1..] else text;
    if digits == "" || !AllDigits(digits) then None
    else
      var n := if text[0] == '-' then -(DigitsValue(digits) as int) else DigitsValue(digits);
      if IsI64(n) then Some(n) else None
  }

  /** A matching pair of quotes; there are no escapes. */
  function LexString(s: string): Result<Lexeme, LexError>
    requires s != ""
  {
    var close := Find(s[1..], s[0]);
    if close.None? then Err(UnterminatedString) else Ok(Lexeme(StringLit(s[1..1 + close.value]), close.value + 2))
  }

  /** How far a number reaches: an optional minus, digits, and for a float a point and digits. */
  datatype NumberExtent = NumberExtent(len: nat, isFloat: bool)

  function NumberEnd(s: string): (end: NumberExtent)
    ensures end.len <= |s|
    ensures s != "" && (s[0] == '-' || IsDigit(s[0])) ==> end.len > 0
  {
    FromWhole(s, Sign(s) + DigitRun(s[Sign(s)..]))
  }

  function Sign(s: string): (n: nat)
    ensures n <= |s|
  {
    if s != "" && s[0] == '-' then 1 else 0
  }

  /** The whole part ends at `whole`. */
  function FromWhole(s: string, whole: nat): (end: NumberExtent)
    requires whole <= |s|
    ensures whole <= end.len <= |s|
  {
    if whole < |s| && s[whole] == '.' then NumberExtent(whole + 1 + DigitRun(s[whole + 1..]), true)
    else NumberExtent(whole, false)
  }

  /** The number's text parsed: a float needs a digit on either side of its point. */
  function NumberToken(text: string, isFloat: bool): Result<Tok, LexError> {
    if isFloat then if exists c :: c in text && IsDigit(c) then Ok(FloatLit(text)) else Err(BadNumber)
    else
      var n := ParseI64(text);
      if n.None? then Err(BadNumber) else Ok(IntLit(n.value))
  }

  function LexNumber(s: string): Result<Lexeme, LexError> {
    var end := NumberEnd(s);
    var tok := NumberToken(s[..end.len], end.isFloat);
    if tok.Err? then Err(tok.error) else Ok(Lexeme(tok.value, end.len))
  }

  /** An attribute path's extent and whether it has a `[...]` group. */
  datatype Extent = Extent(len: nat, bracketed: bool)

  /** Where the group opened just before `s` closes: past its `]`, with no `[` before it. */
  function GroupEnd(s: string): (end: Result<nat, LexError>)
    ensures end.Ok? ==> 0 < end.value <= |s|
  {
    if s == "" then Err(UnterminatedBracket)
    else if s[0] == ']' then Ok(1)
    else if s[0] == '[' then Err(NestedBracket)
    else
      var rest := GroupEnd(s[1..]);
      if rest.Err? then rest else Ok(rest.value + 1)
  }

  /** `len` more characters in front of the rest of a path. */
  function Onward(len: nat, bracketed: bool, rest: Result<Extent, LexError>): Result<Extent, LexError> {
    if rest.Err? then rest else Ok(Extent(len + rest.value.len, bracketed || rest.value.bracketed))
  }

  function PathExtent(s: string): (extent: Result<Extent, LexError>)
    ensures extent.Ok? ==> extent.value.len <= |s| && IdentRun(s) <= extent.value.len
    decreases |s|, 1
  {
    var n := IdentRun(s);
    if n < |s| && s[n] == '[' then PathFromGroup(n, GroupEnd(s[n + 1..]), s[n + 1..]) else Ok(Extent(n, false))
  }

  /** The extent of a path of `n` characters, a `[` and `after`, in which the group ends at `group`. */
  function PathFromGroup(n: nat, group: Result<nat, LexError>, after: string): (extent: Result<Extent, LexError>)
    requires group.Ok? ==> 0 < group.value <= |after|
    ensures extent.Ok? ==> n < extent.value.len <= n + 1 + |after|
    decreases |after|, 0
  {
    if group.Err? then Err(group.error) else Onward(n + 1 + group.value, true, PathExtent(after[group.value..]))
  }

  function Keyword(s: string): Option<Tok> {
    if s == "true" then Some(BoolLit(true))
    else if s == "false" then Some(BoolLit(false))
    else if s == "contains" then Some(ContainsTok)
    else if s == "require" then Some(RequireTok)
    else if s == "exists" then Some(ExistsTok)
    else if s == "in" then Some(InTok)
    else None
  }

  /** A path with a group is never a keyword. */
  function PathToken(text: string, bracketed: bool): Tok {
    if bracketed then Ident(text) else Keyword(text).GetOr(Ident(text))
  }

  function LexIdent(s: string): Result<Lexeme, LexError> {
    var extent := PathExtent(s);
    if extent.Err? then Err(extent.error)
    else
      Ok(Lexeme(PathToken(s[..extent.value.len], extent.value.bracketed), extent.value.len))
  }

  /** The token at the start of `s`. */
  function LexOne(s: string): (lexeme: Result<Lexeme, LexError>)
    requires s != ""
    ensures lexeme.Ok? ==> 0 < lexeme.value.len <= |s|
  {
    var c := s[0];
    var eq := |s| > 1 && s[1] == '=';
    if c == '(' then Ok(Lexeme(LParen, 1))
    else if c == ')' then Ok(Lexeme(RParen, 1))
    else if c == ',' then Ok(Lexeme(Comma, 1))
    else if c == '&' then Ok(Lexeme(AndTok, 1))
    else if c == '|' then Ok(Lexeme(OrTok, 1))
    else if c == '=' then if eq then Ok(Lexeme(EqTok, 2)) else Err(LoneEquals)
    else if c == '!' then Ok(if eq then Lexeme(NotEqTok, 2) else Lexeme(NotTok, 1))
    else if c == '>' then Ok(if eq then Lexeme(GtEqTok, 2) else Lexeme(GtTok, 1))
    else if c == '<' then Ok(if eq then Lexeme(LtEqTok, 2) else Lexeme(LtTok, 1))
    else if c == '"' || c == '\'' then LexString(s)
    else if c == '-' || IsDigit(c) then LexNumber(s)
    else if IsIdentStart(c) then LexIdent(s)
    else Err(UnexpectedChar)
  }

  function Prefixed(out: seq<Tok>, rest: Result<seq<Tok>, LexError>): Result<seq<Tok>, LexError> {
    if rest.Err? then rest else Ok(out + rest.value)
  }

  /** All the tokens of `s`. */
  function Tokens(s: string): Result<seq<Tok>, LexError>
    decreases |s|, 1
  {
    var skip := SpaceRun(s);
    if skip == |s| then Ok([]) else TokensAfter(LexOne(s[skip..]), s[skip..])
  }

  /** The tokens of `s`, of which the first one is known. */
  function TokensAfter(first: Result<Lexeme, LexError>, s: string): Result<seq<Tok>, LexError>
    requires first.Ok? ==> 0 < first.value.len <= |s|
    decreases |s|, 0
  {
    if first.Err? then Err(first.error) else Prefixed([first.value.tok], Tokens(s[first.value.len..]))
  }

  /** The scanner object. */
  class Scanner {
    const src: string
    var pos: nat

    ghost predicate Valid()
      reads this
    {
      pos <= |src|
    }

    constructor (src: string)
      ensures Valid() && this.src == src && pos == 0
    {
      this.src := src;
      pos := 0;
    }

    method SkipWs()
      requires Valid()
      modifies this
      ensures Valid() && pos == old(pos) + SpaceRun(src[old(pos)..])
    {
      while pos < |src| && IsAsciiSpace(src[pos])
        invariant Valid() && old(pos) <= pos
        invariant pos + SpaceRun(src[pos..]) == old(pos) + SpaceRun(src[old(pos)..])
      {
        assert src[pos..][1..] == src[pos + 1..];
        pos := pos + 1;
      }
    }

    method SkipDigits()
      requires Valid()
      modifies this
      ensures Valid() && pos == old(pos) + DigitRun(src[old(pos)..])
    {
      while pos < |src| && IsDigit(src[pos])
        invariant Valid() && old(pos) <= pos
        invariant pos + DigitRun(src[pos..]) == old(pos) + DigitRun(src[old(pos)..])
      {
        assert src[pos..][1..] == src[pos + 1..];
        pos := pos + 1;
      }
    }

    method ScanString() returns (tok: Result<Tok, LexError>)
      requires Valid() && pos < |src|
      modifies this
      ensures Valid() && pos >= old(pos) && Took(LexString(src[old(pos)..]), tok, pos - old(pos))
    {
      ghost var at := pos;
      var quote := src[pos];
      var start := pos + 1;
      pos := pos + 1;
      while pos < |src| && src[pos] != quote
        invariant start <= pos <= |src|
        invariant quote !in src[start..pos]
      {
        assert src[start..pos + 1] == src[start..pos] + [src[pos]];
        pos := pos + 1;
      }
      StringFrom(src, at, pos);
      if pos == |src| {
        return Err(UnterminatedString);
      }
      tok := Ok(StringLit(src[start..pos]));
      pos := pos + 1;
    }

    /** Past the sign and the digits behind it. */
    method SkipWhole()
      requires Valid()
      modifies this
      ensures Valid() && pos >= old(pos)
      ensures var s := src[old(pos)..]; pos - old(pos) == Sign(s) + DigitRun(s[Sign(s)..])
    {
      ghost var start := pos;
      if pos < |src| && src[pos] == '-' {
        pos := pos + 1;
      }
      DropTwice(src, start, pos - start);
      SkipDigits();
    }

    method SkipNumber() returns (isFloat: bool)
      requires Valid()
      modifies this
      ensures Valid() && pos >= old(pos)
      ensures NumberEnd(src[old(pos)..]) == NumberExtent(pos - old(pos), isFloat)
    {
      ghost var start := pos;
      SkipWhole();
      ghost var whole := pos - start;
      isFloat := false;
      if pos < |src| && src[pos] == '.' {
        isFloat := true;
        pos := pos + 1;
        DropTwice(src, start, whole + 1);
        SkipDigits();
      }
      assert FromWhole(src[start..], whole) == NumberExtent(pos - start, isFloat);
    }

    method ScanNumber() returns (tok: Result<Tok, LexError>)
      requires Valid()
      modifies this
      ensures Valid() && pos >= old(pos) && Took(LexNumber(src[old(pos)..]), tok, pos - old(pos))
    {
      var start := pos;
      var isFloat := SkipNumber();
      assert src[start..pos] == src[start..][..pos - start];
      return NumberToken(src[start..pos], isFloat);
    }

    method SkipIdent()
      requires Valid()
      modifies this
      ensures Valid() && pos == old(pos) + IdentRun(src[old(pos)..])
    {
      while pos < |src| && IsIdentCont(src[pos])
        invariant Valid() && old(pos) <= pos
        invariant pos + IdentRun(src[pos..]) == old(pos) + IdentRun(src[old(pos)..])
      {
        assert src[pos..][1..] == src[pos + 1..];
        pos := pos + 1;
      }
    }

    /** Past the `]` of the group that was just opened. */
    method SkipGroup() returns (failure: Option<LexError>)
      requires Valid()
      modifies this
      ensures Valid()
      ensures GroupEnd(src[old(pos)..]) == if failure.Some? then Err(failure.value) else Ok(pos - old(pos))
      ensures pos >= old(pos) && (failure.None? ==> pos > old(pos))
    {
      ghost var start := pos;
      while pos < |src|
        invariant start <= pos <= |src|
        invariant GroupEnd(src[start..]) == Further(pos - start, GroupEnd(src[pos..]))
      {
        var b := src[pos];
        assert src[pos..][1..] == src[pos + 1..];
        pos := pos + 1;
        if b == ']' {
          return None;
        }
        if b == '[' {
          return Some(NestedBracket);
        }
      }
      return Some(UnterminatedBracket);
    }

    /** One `[...]` group and the identifier characters after it. */
    method SkipGroupAndRun(ghost run: nat) returns (failure: Option<LexError>, ghost next: nat)
      requires Valid() && pos < |src| && src[pos] == '['
      requires run <= pos && pos == run + IdentRun(src[run..])
      modifies this
      ensures Valid() && pos >= old(pos)
      ensures failure.Some? ==> PathExtent(src[run..]) == Err(failure.value)
      ensures failure.None? ==> run < next <= pos && pos == next + IdentRun(src[next..])
      ensures failure.None? ==> SkipsTo(src, run, next, true)
    {
      ghost var open := pos;
      pos := pos + 1;
      assert src[run..][pos - run..] == src[pos..];
      next := pos;
      failure := SkipGroup();
      if failure.None? {
        PathGroup(src, run, open, pos);
        next := pos;
        SkipIdent();
      }
    }

    method SkipPath() returns (bracketed: Result<bool, LexError>)
      requires Valid()
      modifies this
      ensures Valid() && pos >= old(pos)
      ensures PathExtent(src[old(pos)..]) ==
              if bracketed.Err? then Err(bracketed.error) else Ok(Extent(pos - old(pos), bracketed.value))
    {
      var start := pos;
      var grouped := false;
      ghost var run := pos;
      SkipIdent();
      while pos < |src| && src[pos] == '['
        invariant start <= run <= pos <= |src|
        invariant pos == run + IdentRun(src[run..])
        invariant SkipsTo(src, start, run, grouped)
        decreases |src| - run
      {
        var failure;
        ghost var next;
        failure, next := SkipGroupAndRun(run);
        if failure.Some? {
          return Err(failure.value);
        }
        SkipsFurther(src, start, run, next, grouped);
        grouped := true;
        run := next;
      }
      PathEnd(src[run..]);
      return Ok(grouped);
    }

    method ScanIdent() returns (tok: Result<Tok, LexError>)
      requires Valid()
      modifies this
      ensures Valid() && pos >= old(pos) && Took(LexIdent(src[old(pos)..]), tok, pos - old(pos))
    {
      var start := pos;
      var bracketed := SkipPath();
      if bracketed.Err? {
        return Err(bracketed.error);
      }
      assert src[start..pos] == src[start..][..pos - start];
      return Ok(PathToken(src[start..pos], bracketed.value));
    }

    /** One token, the position past its text. */
    method ScanOne() returns (tok: Result<Tok, LexError>)
      requires Valid() && pos < |src|
      modifies this
      ensures Valid() && pos >= old(pos) && Took(LexOne(src[old(pos)..]), tok, pos - old(pos))
    {
      var c := src[pos];
      var eq := pos + 1 < |src| && src[pos + 1] == '=';
      if c == '"' || c == '\'' {
        tok := ScanString();
      } else if c == '-' || IsDigit(c) {
        tok := ScanNumber();
      } else if IsIdentStart(c) {
        tok := ScanIdent();
      } else if c == '=' && !eq {
        pos := pos + 1;
        tok := Err(LoneEquals);
      } else if eq && c in {'=', '!', '>', '<'} {
        pos := pos + 2;
        tok := Ok(if c == '=' then EqTok else if c == '!' then NotEqTok else if c == '>' then GtEqTok else LtEqTok);
      } else if c in {'(', ')', ',', '&', '|', '!', '>', '<'} {
        pos := pos + 1;
        tok := Ok(if c == '(' then LParen else if c == ')' then RParen else if c == ',' then Comma
                  else if c == '&' then AndTok else if c == '|' then OrTok else if c == '!' then NotTok
                  else if c == '>' then GtTok else LtTok);
      } else {
        tok := Err(UnexpectedChar);
      }
    }

    method TokenizeAll() returns (toks: Result<seq<Tok>, LexError>)
      requires Valid() && pos == 0
      modifies this
      ensures Valid()
      ensures toks == Tokens(src)
      ensures toks.Ok? ==> pos == |src|
    {
      var out: seq<Tok> := [];
      assert src[0..] == src;
      PrefixedByNothing(Tokens(src));
      SkipWs();
      ghost var at := 0;
      while pos < |src|
        invariant Valid() && 0 <= at <= pos && pos == at + SpaceRun(src[at..])
        invariant Tokens(src) == Prefixed(out, Tokens(src[at..]))
        decreases |src| - at
      {
        ghost var here := pos;
        var tok := ScanOne();
        if tok.Err? {
          TokensFail(src, at, here);
          return Err(tok.error);
        }
        TokensOneMore(src, at, here, pos, tok.value);
        PrefixedTwice(out, tok.value, Tokens(src[pos..]));
        out := out + [tok.value];
        at := pos;
        SkipWs();
      }
      TokensDone(src, at);
      assert out + [] == out;
      return Ok(out);
    }
  }

  /** The scanner took what the specification's lexeme says. */
  ghost predicate Took(expected: Result<Lexeme, LexError>, tok: Result<Tok, LexError>, len: int) {
    match expected
    case Ok(lexeme) => tok == Ok(lexeme.tok) && len == lexeme.len
    case Err(e) => tok == Err(e)
  }

  function Further(len: nat, rest: Result<nat, LexError>): Result<nat, LexError> {
    if rest.Err? then rest else Ok(len + rest.value)
  }

  /** The path from `start` on goes through `next`, having had a group before it or not. */
  ghost predicate SkipsTo(src: string, start: nat, next: nat, bracketed: bool) {
    start <= next <= |src| && PathExtent(src[start..]) == Onward(next - start, bracketed, PathExtent(src[next..]))
  }

  lemma {:induction false} SkipsFurther(src: string, start: nat, run: nat, next: nat, bracketed: bool)
    requires SkipsTo(src, start, run, bracketed) && SkipsTo(src, run, next, true)
    ensures SkipsTo(src, start, next, true)
  {
  }

  lemma {:induction false} GroupThenRest(s: string, n: nat, inner: string, g: nat, rest: string)
    requires n == IdentRun(s) < |s| && s[n] == '[' && inner == s[n + 1..] && GroupEnd(inner) == Ok(g) && rest == s[n + 1 + g..]
    ensures PathExtent(s) == Onward(n + 1 + g, true, PathExtent(rest))
  {
  }

  lemma {:induction false} PathGroup(src: string, run: nat, open: nat, close: nat)
    requires run <= open < close <= |src|
    requires IdentRun(src[run..]) == open - run && src[open] == '['
    requires GroupEnd(src[open + 1..]) == Ok(close - open - 1)
    ensures SkipsTo(src, run, close, true)
  {
    var s := src[run..];
    assert s[open - run + 1..] == src[open + 1..];
    assert s[close - run..] == src[close..];
    GroupThenRest(s, open - run, src[open + 1..], close - open - 1, src[close..]);
  }

  lemma {:induction false} PathEnd(s: string)
    requires IdentRun(s) == |s| || s[IdentRun(s)] != '['
    ensures PathExtent(s) == Ok(Extent(IdentRun(s), false))
  {
  }

  /** The tokens of `s`, whose first token stands before `rest`. */
  lemma {:induction false} TokensUnfold(s: string, skip: nat, x: string, first: Lexeme, rest: string)
    requires skip == SpaceRun(s) < |s| && s[skip..] == x && LexOne(x) == Ok(first) && s[skip + first.len..] == rest
    ensures Tokens(s) == Prefixed([first.tok], Tokens(rest))
  {
    DropTwice(s, skip, first.len);
    assert Tokens(s) == TokensAfter(Ok(first), x);
  }

  lemma TokensOneMore(src: string, at: nat, pos: nat, next: nat, tok: Tok)
    requires at <= pos < next <= |src| && pos == at + SpaceRun(src[at..])
    requires LexOne(src[pos..]) == Ok(Lexeme(tok, next - pos))
    ensures Tokens(src[at..]) == Prefixed([tok], Tokens(src[next..]))
  {
    DropTwice(src, at, pos - at);
    DropTwice(src, at, next - at);
    TokensUnfold(src[at..], pos - at, src[pos..], Lexeme(tok, next - pos), src[next..]);
  }

  /** A quote at `at` whose first match, if any, is at `pos`. */
  lemma StringFrom(src: string, at: nat, pos: nat)
    requires at < pos <= |src| && src[at] !in src[at + 1..pos] && (pos < |src| ==> src[pos] == src[at])
    ensures LexString(src[at..])
         == if pos == |src| then Err(UnterminatedString) else Ok(Lexeme(StringLit(src[at + 1..pos]), pos - at + 1))
  {
    var s, body := src[at..], src[at + 1..];
    DropTwice(src, at, 1);
    assert body[..pos - at - 1] == src[at + 1..pos];
    if pos == |src| {
      assert body == src[at + 1..pos];
      FindNone(body, src[at]);
    } else {
      FindAt(body, src[at], pos - at - 1);
      assert s[1..pos - at] == src[at + 1..pos];
    }
  }

  lemma DropTwice(s: string, i: nat, j: nat)
    requires i + j <= |s|
    ensures s[i..][j..] == s[i + j..]
  {
  }

  lemma TokensFail(src: string, at: nat, pos: nat)
    requires at <= pos < |src| && pos == at + SpaceRun(src[at..])
    requires LexOne(src[pos..]).Err?
    ensures Tokens(src[at..]) == Err(LexOne(src[pos..]).error)
  {
    DropTwice(src, at, pos - at);
    TokensStop(src[at..], pos - at, src[pos..]);
  }

  /** The text at the first token does not lex. */
  lemma {:induction false} TokensStop(s: string, skip: nat, x: string)
    requires skip == SpaceRun(s) < |s| && s[skip..] == x && LexOne(x).Err?
    ensures Tokens(s) == Err(LexOne(x).error)
  {
  }

  lemma {:induction false} TokensDone(src: string, at: nat)
    requires at <= |src| && |src| == at + SpaceRun(src[at..])
    ensures Tokens(src[at..]) == Ok([])
  {
  }

  lemma PrefixedByNothing(rest: Result<seq<Tok>, LexError>)
    ensures Prefixed([], rest) == rest
  {
    if rest.Ok? {
      assert [] + rest.value == rest.value;
    }
  }

  lemma PrefixedTwice(out: seq<Tok>, tok: Tok, rest: Result<seq<Tok>, LexError>)
    ensures Prefixed(out + [tok], rest) == Prefixed(out, Prefixed([tok], rest))
  {
    if rest.Ok? {
      assert out + [tok] + rest.value == out + ([tok] + rest.value);
    }
  }

  lemma FindNone(s: string, c: char)
    requires c !in s
    ensures Find(s, c).None?
  {
  }

  // ---- What is skipped, and what is the same.

  /** Exactly the space, tab, line feed, carriage return and form feed stand for nothing. */
  lemma {:induction false} SpacesExactly(c: char)
    ensures Tokens([c]) == Ok([]) <==> c as int in {0x20, 0x9, 0xA, 0xD, 0xC}
  {
    if IsAsciiSpace(c) {
      assert [c][1..] == "";
      assert SpaceRun([c]) == 1;
    } else {
      assert SpaceRun([c]) == 0 && [c][0..] == [c];
    }
  }

  /** Spaces in front of a text change none of its tokens, nor its error. */
  lemma {:induction false} SpacesInFront(spaces: string, s: string)
    requires forall c :: c in spaces ==> Tokens([c]) == Ok([])
    ensures Tokens(spaces + s) == Tokens(s)
    decreases |spaces|
  {
    if spaces == "" {
      assert spaces + s == s;
    } else {
      var all := spaces + s;
      SpacesExactly(spaces[0]);
      SpacesInFront(spaces[1..], s);
      assert all[1..] == spaces[1..] + s;
      OneSpace(all);
    }
  }

  lemma {:induction false} OneSpace(s: string)
    requires s != "" && IsAsciiSpace(s[0])
    ensures Tokens(s) == Tokens(s[1..])
  {
    var skip := SpaceRun(s[1..]);
    assert s[0..] == s && s[1..][0..] == s[1..];
    if skip == |s| - 1 {
      TokensDone(s, 0);
      TokensDone(s[1..], 0);
    } else {
      DropTwice(s, 1, skip);
      var x := s[skip + 1..];
      var first := LexOne(x);
      if first.Ok? {
        DropTwice(s, 1, skip + first.value.len);
        TokensUnfold(s, skip + 1, x, first.value, s[skip + 1 + first.value.len..]);
        TokensUnfold(s[1..], skip, x, first.value, s[skip + 1 + first.value.len..]);
      } else {
        TokensStop(s, skip + 1, x);
        TokensStop(s[1..], skip, x);
      }
    }
  }

  /** Either quote encloses a text; the text may hold the other one. */
  lemma {:induction false} EitherQuote(quote: char, text: string)
    requires quote == '"' || quote == '\''
    requires quote !in text
    ensures Tokens([quote] + text + [quote]) == Ok([StringLit(text)])
  {
    var s := [quote] + text + [quote];
    var n := |text| + 1;
    assert s[0] == quote && s[n] == quote && s[1..n] == text;
    assert s[0..] == s && s[n + 1..] == "";
    StringFrom(s, 0, n);
    assert SpaceRun(s) == 0;
    assert Tokens(s[n + 1..]) == Ok([]);
    TokensOneMore(s, 0, 0, n + 1, StringLit(text));
    assert [StringLit(text)] + [] == [StringLit(text)];
  }
}
