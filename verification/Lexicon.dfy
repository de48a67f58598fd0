/** The words of the predicate language, described without the scanner that reads them. */
module Lexicon {
  import opened Prelude
  import opened Attributes
  import opened Lexer
  import Printer

  // ---- Floating literals.

  predicate Digits(s: string) { forall i :: 0 <= i < |s| ==> s[i] in "0123456789" }

  lemma DigitChars(c: char)
    ensures IsDigit(c) <==> c in "0123456789"
  {
    if IsDigit(c) {
      assert "0123456789"[c as int - '0' as int] == c;
    }
  }

  lemma {:induction false} RunOfDigits(s: string, rest: string)
    requires Digits(s) && (rest == "" || !IsDigit(rest[0]))
    ensures DigitRun(s + rest) == |s|
    decreases |s|
  {
    if s == "" {
      assert s + rest == rest;
    } else {
      DigitChars(s[0]);
      assert (s + rest)[1..] == s[1..] + rest;
      RunOfDigits(s[1..], rest);
    }
  }

  lemma {:induction false} RunIsDigits(s: string)
    ensures Digits(s[..DigitRun(s)])
    decreases |s|
  {
    if s != "" && IsDigit(s[0]) {
      RunIsDigits(s[1..]);
      DigitChars(s[0]);
      var run, more := s[..DigitRun(s)], s[1..][..DigitRun(s[1..])];
      assert forall i :: 0 < i < |run| ==> run[i] == more[i - 1];
    }
  }

  /** A sign, digits, a point and digits: a whole part unless there is a sign, and a digit somewhere. */
  predicate FloatForm(text: string, minus: bool, whole: string, fraction: string) {
    && text == (if minus then "-" else "") + (whole + ("." + fraction))
    && Digits(whole) && Digits(fraction)
    && (minus || whole != "") && (whole != "" || fraction != "")
  }

  /** Behind its sign the number reaches to the end. */
  lemma {:induction false} FormEnds(text: string, sign: nat, whole: string, fraction: string)
    requires sign <= |text| && Sign(text) == sign && text[sign..] == whole + ("." + fraction)
    requires Digits(whole) && Digits(fraction)
    ensures NumberEnd(text) == NumberExtent(|text|, true)
  {
    var end := sign + |whole|;
    RunOfDigits(whole, "." + fraction);
    RunOfDigits(fraction, "");
    assert fraction + "" == fraction;
    assert text[end] == text[sign..][|whole|] == '.';
    assert text[end + 1..] == text[sign..][|whole| + 1..] == fraction;
  }

  lemma {:induction false} FormIsFloat(text: string, minus: bool, whole: string, fraction: string)
    requires FloatForm(text, minus, whole, fraction)
    ensures Printer.IsFloatText(text)
  {
    var sign, some := if minus then 1 else 0, if whole != "" then whole[0] else fraction[0];
    var rest := whole + ("." + fraction);
    if !minus {
      assert "" + rest == rest;
      assert text[0] == whole[0];
    }
    DigitChars(some);
    assert text[sign..] == rest;
    assert some in whole || some in fraction;
    assert some in rest;
    FormEnds(text, sign, whole, fraction);
  }

  /** What the number scan found: a point behind the first digits, and digits to the end. */
  lemma {:induction false} FloatPoint(text: string)
    requires NumberEnd(text) == NumberExtent(|text|, true)
    ensures var sign := Sign(text);
            var point := sign + DigitRun(text[sign..]);
            point < |text| && text[point] == '.' && Digits(text[sign..point]) && Digits(text[point + 1..])
  {
    var sign := Sign(text);
    var rest := text[sign..];
    var point := sign + DigitRun(rest);
    assert FromWhole(text, point) == NumberExtent(|text|, true);
    RunIsDigits(rest);
    assert rest[..DigitRun(rest)] == text[sign..point];
    var fraction := text[point + 1..];
    RunIsDigits(fraction);
    assert fraction[..|fraction|] == fraction;
  }

  lemma CutAtPoint(text: string, sign: nat, point: nat)
    requires sign <= point < |text| && text[point] == '.'
    ensures text == text[..sign] + (text[sign..point] + ("." + text[point + 1..]))
  {
  }

  lemma {:induction false} FloatHasForm(text: string) returns (minus: bool, whole: string, fraction: string)
    requires Printer.IsFloatText(text)
    ensures FloatForm(text, minus, whole, fraction)
  {
    var sign := Sign(text);
    var point := sign + DigitRun(text[sign..]);
    FloatPoint(text);
    minus, whole, fraction := text[0] == '-', text[sign..point], text[point + 1..];
    CutAtPoint(text, sign, point);
    assert text[..sign] == if minus then "-" else "";
    var k :| 0 <= k < |text| && IsDigit(text[k]);
    assert k < point ==> whole != "";
    assert k > point ==> fraction != "";
  }

  /** A text is read as one floating literal exactly when it has that form. */
  lemma {:induction false} FloatTextExactly(text: string)
    ensures Printer.IsFloatText(text) <==> exists minus, whole, fraction :: FloatForm(text, minus, whole, fraction)
  {
    if Printer.IsFloatText(text) {
      var minus, whole, fraction := FloatHasForm(text);
    } else if minus, whole, fraction :| FloatForm(text, minus, whole, fraction) {
      FormIsFloat(text, minus, whole, fraction);
    }
  }

  // ---- Attribute paths.

  predicate PathChar(c: char) { 'a' <= c <= 'z' || 'A' <= c <= 'Z' || '0' <= c <= '9' || c == '_' || c == '.' }

  /** Plain text of path characters, and groups with no bracket inside. */
  predicate PathPart(part: KeyPart) {
    match part
    case Text(t) => forall i :: 0 <= i < |t| ==> PathChar(t[i])
    case Group(inner) => '[' !in inner && ']' !in inner
  }

  predicate PathParts(parts: seq<KeyPart>) { forall i :: 0 <= i < |parts| ==> PathPart(parts[i]) }

  predicate HasGroup(parts: seq<KeyPart>) { parts != [] && (parts[0].Group? || HasGroup(parts[1..])) }

  const KEYWORDS: set<string> := {"true", "false", "contains", "require", "exists", "in"}

  predicate PathStart(s: string) { s != "" && ('a' <= s[0] <= 'z' || 'A' <= s[0] <= 'Z' || s[0] == '_') }

  lemma {:induction false} RunThrough(t: string, rest: string)
    requires PathPart(Text(t))
    ensures IdentRun(t + rest) == |t| + IdentRun(rest)
    decreases |t|
  {
    if t == "" {
      assert t + rest == rest;
    } else {
      assert (t + rest)[1..] == t[1..] + rest;
      RunThrough(t[1..], rest);
    }
  }

  lemma Shifted(t: string, rest: string, i: nat)
    requires i <= |rest|
    ensures (t + rest)[|t| + i..] == rest[i..]
    ensures i < |rest| ==> (t + rest)[|t| + i] == rest[i]
  {
  }

  lemma {:induction false} FurtherBefore(t: nat, n: nat, group: Result<nat, LexError>, after: string)
    requires group.Ok? ==> 0 < group.value <= |after|
    ensures PathFromGroup(t + n, group, after) == Onward(t, false, PathFromGroup(n, group, after))
  {
  }

  lemma {:induction false} TextExtends(t: string, rest: string)
    requires PathPart(Text(t))
    ensures PathExtent(t + rest) == Onward(|t|, false, PathExtent(rest))
  {
    RunThrough(t, rest);
    var s, n := t + rest, IdentRun(rest);
    if n < |rest| && rest[n] == '[' {
      Shifted(t, rest, n);
      Shifted(t, rest, n + 1);
      var inner := rest[n + 1..];
      FurtherBefore(|t|, n, GroupEnd(inner), inner);
      assert PathExtent(rest) == PathFromGroup(n, GroupEnd(inner), inner);
      assert PathExtent(s) == PathFromGroup(|t| + n, GroupEnd(inner), inner);
    } else {
      Shifted(t, rest, n);
      PathEnd(rest);
      PathEnd(s);
    }
  }

  lemma {:induction false} GroupCloses(inner: string, rest: string)
    requires '[' !in inner && ']' !in inner
    ensures GroupEnd(inner + ("]" + rest)) == Ok(|inner| + 1)
    decreases |inner|
  {
    var s := inner + ("]" + rest);
    if inner == "" {
      assert s[0] == ']';
    } else {
      assert s[0] == inner[0] && s[1..] == inner[1..] + ("]" + rest);
      GroupCloses(inner[1..], rest);
    }
  }

  lemma {:induction false} GroupExtends(inner: string, rest: string)
    requires '[' !in inner && ']' !in inner
    ensures PathExtent("[" + inner + "]" + rest) == Onward(|inner| + 2, true, PathExtent(rest))
  {
    var s := "[" + inner + "]" + rest;
    assert s[1..] == inner + ("]" + rest);
    GroupCloses(inner, rest);
    assert s[0] == '[' && IdentRun(s) == 0 && s[|inner| + 2..] == rest;
    GroupThenRest(s, 0, s[1..], |inner| + 1, rest);
  }

  /** The scanner takes any such path whole. */
  lemma {:induction false} PathTaken(parts: seq<KeyPart>)
    requires PathParts(parts)
    ensures PathExtent(Render(parts)) == Ok(Extent(|Render(parts)|, HasGroup(parts)))
    decreases |parts|
  {
    if parts == [] {
      PathEnd("");
    } else {
      PathTaken(parts[1..]);
      match parts[0]
      case Text(t) => TextExtends(t, Render(parts[1..]));
      case Group(inner) => GroupExtends(inner, Render(parts[1..]));
    }
  }

  lemma {:induction false} RunIsText(s: string)
    ensures PathPart(Text(s[..IdentRun(s)]))
    decreases |s|
  {
    if s != "" && IsIdentCont(s[0]) {
      RunIsText(s[1..]);
      var run, more := s[..IdentRun(s)], s[1..][..IdentRun(s[1..])];
      assert forall i :: 0 < i < |run| ==> run[i] == more[i - 1];
    }
  }

  lemma {:induction false} GroupIsClosed(s: string)
    requires GroupEnd(s).Ok?
    ensures var n := GroupEnd(s).value; s[n - 1] == ']' && '[' !in s[..n - 1] && ']' !in s[..n - 1]
    decreases |s|
  {
    if s[0] != ']' {
      GroupIsClosed(s[1..]);
      var n := GroupEnd(s).value;
      assert s[..n - 1] == [s[0]] + s[1..][..n - 2];
    }
  }

  lemma RenderFront(t: string, inner: string, more: seq<KeyPart>)
    ensures Render([Text(t), Group(inner)] + more) == t + ("[" + inner + "]" + Render(more))
    ensures PathPart(Text(t)) && PathPart(Group(inner)) && PathParts(more) ==> PathParts([Text(t), Group(inner)] + more)
  {
    var parts := [Text(t), Group(inner)] + more;
    assert parts[1..] == [Group(inner)] + more && ([Group(inner)] + more)[1..] == more;
    assert Render([Group(inner)] + more) == "[" + inner + "]" + Render(more);
  }

  lemma RenderOne(t: string)
    ensures Render([Text(t)]) == t
  {
    assert [Text(t)][1..] == [] && t + "" == t;
  }

  lemma {:induction false} GroupAhead(s: string) returns (inner: string, rest: string)
    requires PathExtent(s).Ok? && PathExtent(s).value.len == |s|
    requires IdentRun(s) < |s| && s[IdentRun(s)] == '['
    ensures s == s[..IdentRun(s)] + ("[" + inner + "]" + rest)
    ensures '[' !in inner && ']' !in inner
    ensures PathExtent(rest).Ok? && PathExtent(rest).value.len == |rest| < |s|
  {
    var n := IdentRun(s);
    var body := s[n + 1..];
    var g := GroupEnd(body).value;
    inner, rest := body[..g - 1], s[n + 1 + g..];
    GroupIsClosed(body);
    GroupThenRest(s, n, body, g, rest);
    CutAtGroup(s, n, g);
  }

  lemma CutAtGroup(s: string, n: nat, g: nat)
    requires 0 < g && n + 1 + g <= |s| && s[n] == '[' && s[n + g] == ']'
    ensures s == s[..n] + ("[" + s[n + 1..][..g - 1] + "]" + s[n + 1 + g..])
  {
  }

  /** What it takes whole is such a path. */
  lemma {:induction false} TakenPath(s: string) returns (parts: seq<KeyPart>)
    requires PathExtent(s).Ok? && PathExtent(s).value.len == |s|
    ensures PathParts(parts) && Render(parts) == s
    decreases |s|
  {
    var n := IdentRun(s);
    RunIsText(s);
    if n < |s| && s[n] == '[' {
      var inner, rest := GroupAhead(s);
      var more := TakenPath(rest);
      parts := [Text(s[..n]), Group(inner)] + more;
      RenderFront(s[..n], inner, more);
    } else {
      PathEnd(s);
      parts := [Text(s)];
      assert s[..n] == s;
      RenderOne(s);
    }
  }

  lemma KeywordsExactly(s: string)
    ensures Keyword(s).None? <==> s !in KEYWORDS
    ensures s in KEYWORDS ==> '[' !in s
  {
  }

  /**
   * A text is one attribute path exactly when it is path characters and bracketed groups, in any
   * order, behind a letter or underscore, and no keyword; a path with a group never is one.
   */
  lemma {:induction false} KeyExactly(s: string)
    ensures Printer.IsKey(s) <==>
              PathStart(s) && s !in KEYWORDS && exists parts :: PathParts(parts) && Render(parts) == s
  {
    KeywordsExactly(s);
    if Printer.IsKey(s) {
      var parts := TakenPath(s);
      PathTaken(parts);
      BracketsAreGroups(parts);
    } else if parts :| PathParts(parts) && Render(parts) == s {
      PathTaken(parts);
    }
  }

  lemma {:induction false} BracketsAreGroups(parts: seq<KeyPart>)
    requires PathParts(parts)
    ensures HasGroup(parts) <==> '[' in Render(parts)
    decreases |parts|
  {
    if parts != [] {
      BracketsAreGroups(parts[1..]);
      if parts[0].Text? {
        assert '[' !in parts[0].text;
      } else {
        assert Render(parts)[0] == '[';
      }
    }
  }
}
