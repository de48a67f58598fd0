/** Splitting pipe chains outside brackets and quotes, and parsing them stage by stage. */
module Splitter {
  import opened Prelude
  import opened Json
  import opened Attributes
  import opened Policy
  import opened Host
  import Pipeline

  /** Where the scan stands: bracket depth and the open quote. */
  datatype Mode = Mode(depth: int, quote: Option<char>)

  const OUTSIDE := Mode(0, None)

  predicate IsQuote(c: char) { c == '"' || c == '\'' }
  predicate IsOpen(c: char) { c == '(' || c == '[' }
  predicate IsClose(c: char) { c == ')' || c == ']' }

  /** A delimiter the scan does not read as anything else. */
  predicate Plain(d: char) { !IsQuote(d) && !IsOpen(d) && !IsClose(d) }

  function Step(m: Mode, c: char): Mode {
    if m.quote.Some? then (if c == m.quote.value then m.(quote := None) else m)
    else if IsQuote(c) then m.(quote := Some(c))
    else if IsOpen(c) then m.(depth := m.depth + 1)
    else if IsClose(c) then m.(depth := m.depth - 1)
    else m
  }

  predicate Cuts(m: Mode, c: char, d: char) { m == OUTSIDE && Plain(c) && c == d }

  function ModeAfter(m: Mode, s: string): Mode
    decreases |s|
  {
    if s == "" then m else ModeAfter(Step(m, s[0]), s[1..])
  }

  /** The pieces of `s` scanned from mode `m`. */
  function Pieces(m: Mode, s: string, d: char): (pieces: seq<string>)
    ensures pieces != []
    decreases |s|
  {
    if s == "" then [""]
    else
      var rest := Pieces(Step(m, s[0]), s[1..], d);
      if Cuts(m, s[0], d) then [""] + rest else [[s[0]] + rest[0]] + rest[1..]
  }

  function SplitTop(s: string, d: char): (pieces: seq<string>)
    ensures pieces != []
  {
    Pieces(OUTSIDE, s, d)
  }

  /** Two piece lists run together: the last of one and the first of the other are one piece. */
  function Glue(xs: seq<string>, ys: seq<string>): (pieces: seq<string>)
    requires xs != [] && ys != []
    ensures pieces != []
  {
    xs[..|xs| - 1] + [xs[|xs| - 1] + ys[0]] + ys[1..]
  }

  lemma GlueUnit(xs: seq<string>)
    requires xs != []
    ensures Glue(xs, [""]) == xs == Glue([""], xs)
  {
    assert xs[|xs| - 1] + "" == xs[|xs| - 1] && "" + xs[0] == xs[0];
  }

  /** Scanning on from where a prefix left off. */
  lemma {:induction false} PiecesConcat(m: Mode, s: string, t: string, d: char)
    ensures Pieces(m, s + t, d) == Glue(Pieces(m, s, d), Pieces(ModeAfter(m, s), t, d))
    decreases |s|
  {
    if s == "" {
      assert s + t == t;
      GlueUnit(Pieces(m, t, d));
    } else {
      assert (s + t)[0] == s[0] && (s + t)[1..] == s[1..] + t;
      PiecesConcat(Step(m, s[0]), s[1..], t, d);
      var rest := Pieces(Step(m, s[0]), s[1..], d);
      var tail := Pieces(ModeAfter(m, s), t, d);
      GlueHead(s[0], rest, tail);
    }
  }

  lemma GlueHead(c: char, xs: seq<string>, ys: seq<string>)
    requires xs != [] && ys != []
    ensures Glue([""] + xs, ys) == [""] + Glue(xs, ys)
    ensures Glue([[c] + xs[0]] + xs[1..], ys) == [[c] + Glue(xs, ys)[0]] + Glue(xs, ys)[1..]
  {
    if |xs| == 1 {
      assert [c] + xs[0] + ys[0] == [c] + (xs[0] + ys[0]);
    }
  }

  /** One character more: it ends the current piece or extends it. */
  lemma GrowPiece(piece: string, m: Mode, s: string, d: char)
    requires s != ""
    ensures var rest := Pieces(Step(m, s[0]), s[1..], d);
            Glue([piece], Pieces(m, s, d)) ==
              if Cuts(m, s[0], d) then [piece] + Glue([""], rest) else Glue([piece + [s[0]]], rest)
  {
    var rest := Pieces(Step(m, s[0]), s[1..], d);
    if Cuts(m, s[0], d) {
      GlueUnit(rest);
      assert piece + "" == piece;
    } else {
      assert piece + ([s[0]] + rest[0]) == piece + [s[0]] + rest[0];
    }
  }

  /** The scan at `i` in mode `m`: some pieces are out and the current one began at `start`. */
  ghost predicate ScanAt(s: string, d: char, pieces: seq<string>, start: nat, i: nat, m: Mode)
    requires start <= i <= |s|
  {
    SplitTop(s, d) == pieces + Glue([s[start..i]], Pieces(m, s[i..], d))
  }

  lemma ScanStep(s: string, d: char, pieces: seq<string>, start: nat, i: nat, m: Mode)
    requires start <= i < |s| && ScanAt(s, d, pieces, start, i, m)
    ensures if Cuts(m, s[i], d) then ScanAt(s, d, pieces + [s[start..i]], i + 1, i + 1, Step(m, s[i]))
            else ScanAt(s, d, pieces, start, i + 1, Step(m, s[i]))
  {
    GrowPiece(s[start..i], m, s[i..], d);
    assert s[i..][0] == s[i] && s[i..][1..] == s[i + 1..];
    assert s[start..i + 1] == s[start..i] + [s[i]] && s[i + 1..i + 1] == "";
    var rest := Pieces(Step(m, s[i]), s[i + 1..], d);
    assert pieces + ([s[start..i]] + Glue([""], rest)) == pieces + [s[start..i]] + Glue([""], rest);
  }

  lemma ScanBegins(s: string, d: char)
    ensures ScanAt(s, d, [], 0, 0, OUTSIDE)
  {
    assert s[0..] == s && s[0..0] == "";
    GlueUnit(SplitTop(s, d));
    assert [] + SplitTop(s, d) == SplitTop(s, d);
  }

  lemma ScanDone(s: string, d: char, pieces: seq<string>, start: nat, m: Mode)
    requires start <= |s| && ScanAt(s, d, pieces, start, |s|, m)
    ensures SplitTop(s, d) == pieces + [s[start..]]
  {
    assert s[|s|..] == "" && s[start..|s|] == s[start..];
    GlueUnit([s[start..]]);
  }

  /** The scan with its depth, quote and start variables. */
  method SplitTopLevel(s: string, d: char) returns (pieces: seq<string>)
    ensures pieces == SplitTop(s, d)
  {
    pieces := [];
    var depth, quote: Option<char>, start := 0, None, 0;
    ScanBegins(s, d);
    for i := 0 to |s|
      invariant 0 <= start <= i
      invariant ScanAt(s, d, pieces, start, i, Mode(depth, quote))
    {
      ScanStep(s, d, pieces, start, i, Mode(depth, quote));
      var c := s[i];
      if quote.Some? {
        if c == quote.value {
          quote := None;
        }
      } else if IsQuote(c) {
        quote := Some(c);
      } else if IsOpen(c) {
        depth := depth + 1;
      } else if IsClose(c) {
        depth := depth - 1;
      } else if c == d && depth == 0 {
        pieces := pieces + [s[start..i]];
        start := i + 1;
      }
    }
    ScanDone(s, d, pieces, start, Mode(depth, quote));
    pieces := pieces + [s[start..]];
  }

  // ---- The pieces.

  lemma {:induction false} PiecesJoin(m: Mode, s: string, d: char)
    ensures Join(Pieces(m, s, d), d) == s
    decreases |s|
  {
    if s != "" {
      PiecesJoin(Step(m, s[0]), s[1..], d);
      var rest := Pieces(Step(m, s[0]), s[1..], d);
      assert rest == [rest[0]] + rest[1..];
      if Cuts(m, s[0], d) {
        assert Pieces(m, s, d)[1..] == rest;
      } else {
        assert Pieces(m, s, d)[1..] == rest[1..];
        assert s == [s[0]] + s[1..];
      }
    }
  }

  /** Nothing in a first piece cuts, and every later piece starts outside brackets and quotes. */
  lemma {:induction false} PiecesWhole(m: Mode, s: string, d: char, k: nat)
    requires k < |Pieces(m, s, d)|
    ensures Pieces(if k == 0 then m else OUTSIDE, Pieces(m, s, d)[k], d) == [Pieces(m, s, d)[k]]
    decreases |s|
  {
    if s != "" {
      var rest := Pieces(Step(m, s[0]), s[1..], d);
      var piece := Pieces(m, s, d)[k];
      if Cuts(m, s[0], d) {
        if k > 0 {
          PiecesWhole(Step(m, s[0]), s[1..], d, k - 1);
        }
      } else if k == 0 {
        PiecesWhole(Step(m, s[0]), s[1..], d, 0);
        assert piece[0] == s[0] && piece[1..] == rest[0];
      } else {
        PiecesWhole(Step(m, s[0]), s[1..], d, k);
      }
    }
  }

  /** The pieces rejoin to the input, and each is a piece that splits no further. */
  lemma SplitTopExact(s: string, d: char)
    ensures Join(SplitTop(s, d), d) == s
    ensures forall piece :: piece in SplitTop(s, d) ==> SplitTop(piece, d) == [piece]
  {
    PiecesJoin(OUTSIDE, s, d);
    forall piece | piece in SplitTop(s, d) ensures SplitTop(piece, d) == [piece] {
      var k :| 0 <= k < |SplitTop(s, d)| && SplitTop(s, d)[k] == piece;
      PiecesWhole(OUTSIDE, s, d, k);
    }
  }

  /** Every bracket and quote is closed. */
  predicate Balanced(s: string) { ModeAfter(OUTSIDE, s) == OUTSIDE }

  /** Joining two chains concatenates their pieces exactly when the first is balanced. */
  lemma JoinedChainsSplit(a: string, b: string, d: char)
    requires Plain(d)
    ensures SplitTop(a + [d] + b, d) == SplitTop(a, d) + SplitTop(b, d) <==> Balanced(a)
  {
    var m := ModeAfter(OUTSIDE, a);
    var xs, ys := SplitTop(a, d), Pieces(m, [d] + b, d);
    assert a + [d] + b == a + ([d] + b);
    PiecesConcat(OUTSIDE, a, [d] + b, d);
    assert ([d] + b)[0] == d && ([d] + b)[1..] == b;
    var n := |xs| - 1;
    var joined := Glue(xs, ys);
    if Balanced(a) {
      assert ys == [""] + SplitTop(b, d);
      assert xs[n] + "" == xs[n];
      assert joined == xs + SplitTop(b, d);
    } else {
      assert |ys[0]| > 0;
      assert |joined[n]| == |xs[n]| + |ys[0]|;
      assert (xs + SplitTop(b, d))[n] == xs[n];
    }
  }

  // ---- What is cut: an independent reading of nested text.

  /** Well-nested text: single characters, quoted runs and bracketed groups. */
  datatype Node = Letter(c: char) | Quoted(quote: char, body: string) | Group(open: char, close: char, inner: seq<Node>)

  predicate WellNested(node: Node) {
    match node
    case Letter(c) => c !in "\"'([)]"
    case Quoted(quote, body) => (quote == '"' || quote == '\'') && quote !in body
    case Group(open, close, inner) =>
      (open == '(' || open == '[') && (close == ')' || close == ']') && forall i :: 0 <= i < |inner| ==> WellNested(inner[i])
  }

  function NodeText(node: Node): string
    decreases node, 1
  {
    match node
    case Letter(c) => [c]
    case Quoted(quote, body) => [quote] + (body + [quote])
    case Group(open, close, inner) => [open] + (NodesText(inner) + [close])
  }

  function NodesText(nodes: seq<Node>): string
    decreases nodes, 0
  {
    if nodes == [] then "" else NodeText(nodes[0]) + NodesText(nodes[1..])
  }

  /** The pieces between the delimiters that stand outside every quote and group. */
  function TopPieces(nodes: seq<Node>, d: char): (pieces: seq<string>)
    ensures pieces != []
    decreases |nodes|
  {
    if nodes == [] then [""]
    else
      var rest := TopPieces(nodes[1..], d);
      if nodes[0] == Letter(d) then [""] + rest else [NodeText(nodes[0]) + rest[0]] + rest[1..]
  }

  /** The scan from `m` goes through `s` without a cut and is back in `m`. */
  predicate Passes(m: Mode, s: string, d: char) { Pieces(m, s, d) == [s] && ModeAfter(m, s) == m }

  lemma {:induction false} ModeConcat(m: Mode, s: string, t: string)
    ensures ModeAfter(m, s + t) == ModeAfter(ModeAfter(m, s), t)
    decreases |s|
  {
    if s == "" {
      assert s + t == t;
    } else {
      assert (s + t)[0] == s[0] && (s + t)[1..] == s[1..] + t;
      ModeConcat(Step(m, s[0]), s[1..], t);
    }
  }

  lemma PassesConcat(m: Mode, s: string, t: string, d: char)
    requires Passes(m, s, d) && Passes(m, t, d)
    ensures Passes(m, s + t, d)
  {
    PiecesConcat(m, s, t, d);
    ModeConcat(m, s, t);
  }

  /** An opening character, what passes inside, and its closing character pass outside. */
  lemma Enclosed(m: Mode, within: Mode, open: char, body: string, close: char, d: char)
    requires Step(m, open) == within && Step(within, close) == m && !Cuts(m, open, d) && !Cuts(within, close, d)
    requires Passes(within, body, d)
    ensures Passes(m, [open] + (body + [close]), d)
  {
    var rest := body + [close];
    PiecesConcat(within, body, [close], d);
    ModeConcat(within, body, [close]);
    assert [close][1..] == "" && [close] + "" == [close];
    assert Pieces(within, [close], d) == [[close]];
    assert ([open] + rest)[0] == open && ([open] + rest)[1..] == rest;
  }

  lemma {:induction false} QuotePasses(depth: int, quote: char, body: string, d: char)
    requires quote !in body
    ensures Passes(Mode(depth, Some(quote)), body, d)
    decreases |body|
  {
    if body != "" {
      QuotePasses(depth, quote, body[1..], d);
      assert [body[0]] + body[1..] == body;
    }
  }

  /** Outside everything only the delimiter itself is cut at; inside a group nothing is. */
  lemma {:induction false} NodePasses(depth: nat, node: Node, d: char)
    requires d !in "\"'([)]" && WellNested(node) && (depth > 0 || node != Letter(d))
    ensures Passes(Mode(depth, None), NodeText(node), d)
    decreases node, 1
  {
    var m := Mode(depth, None);
    match node
    case Letter(c) =>
      assert [c][1..] == "" && [c] + "" == [c];
    case Quoted(quote, body) =>
      QuotePasses(depth, quote, body, d);
      Enclosed(m, Mode(depth, Some(quote)), quote, body, quote, d);
    case Group(open, close, inner) =>
      NodesPass(depth + 1, inner, d);
      Enclosed(m, Mode(depth + 1, None), open, NodesText(inner), close, d);
  }

  lemma {:induction false} NodesPass(depth: nat, nodes: seq<Node>, d: char)
    requires d !in "\"'([)]" && depth > 0 && forall i :: 0 <= i < |nodes| ==> WellNested(nodes[i])
    ensures Passes(Mode(depth, None), NodesText(nodes), d)
    decreases nodes, 0
  {
    if nodes != [] {
      NodePasses(depth, nodes[0], d);
      NodesPass(depth, nodes[1..], d);
      PassesConcat(Mode(depth, None), NodeText(nodes[0]), NodesText(nodes[1..]), d);
    }
  }

  /** On well-nested text the pieces are those between the delimiters outside every quote and group, nothing else being special. */
  lemma {:induction false} NestedTextSplits(nodes: seq<Node>, d: char)
    requires d !in "\"'([)]" && forall i :: 0 <= i < |nodes| ==> WellNested(nodes[i])
    ensures SplitTop(NodesText(nodes), d) == TopPieces(nodes, d)
    decreases |nodes|
  {
    if nodes != [] {
      var text, rest := NodeText(nodes[0]), NodesText(nodes[1..]);
      NestedTextSplits(nodes[1..], d);
      if nodes[0] == Letter(d) {
        assert ([d] + rest)[0] == d && ([d] + rest)[1..] == rest;
      } else {
        NodePasses(0, nodes[0], d);
        PiecesConcat(OUTSIDE, text, rest, d);
      }
    }
  }

  // ---- Pipe chains.

  /** What a chain's pieces parse to: blank ones are skipped, the first error is the result. */
  function StagesOf<E>(parse: string -> Result<Stage, E>, pieces: seq<string>): Result<seq<Stage>, E> {
    if pieces == [] then Ok([])
    else
      var seg := Trim(pieces[0]);
      if seg == "" then StagesOf(parse, pieces[1..])
      else
        var stage := parse(seg);
        if stage.Err? then Err(stage.error)
        else Both(Ok([stage.value]), StagesOf(parse, pieces[1..]))
  }

  function Both<E>(a: Result<seq<Stage>, E>, b: Result<seq<Stage>, E>): Result<seq<Stage>, E> {
    if a.Err? then a else if b.Err? then b else Ok(a.value + b.value)
  }

  function Parsed<E>(parse: string -> Result<Stage, E>, src: string): Result<seq<Stage>, E> {
    StagesOf(parse, SplitTop(src, '|'))
  }

  /** `parse_pipeline`, for any stage parser; trimming the chain first changes nothing. */
  method ParsePipeline<E>(parse: string -> Result<Stage, E>, src: string) returns (pipeline: Result<seq<Stage>, E>)
    ensures pipeline == Parsed(parse, src)
  {
    TrimKeepsStages(parse, src);
    var pieces := SplitTopLevel(Trim(src), '|');
    var stages: seq<Stage> := [];
    if StagesOf(parse, pieces).Ok? {
      assert [] + StagesOf(parse, pieces).value == StagesOf(parse, pieces).value;
    }
    assert pieces[0..] == pieces;
    for i := 0 to |pieces|
      invariant StagesOf(parse, pieces) == Both(Ok(stages), StagesOf(parse, pieces[i..]))
    {
      assert pieces[i..][0] == pieces[i] && pieces[i..][1..] == pieces[i + 1..];
      var seg := Trim(pieces[i]);
      if seg != "" {
        var stage := parse(seg);
        if stage.Err? {
          return Err(stage.error);
        }
        BothAssociates(Ok(stages), Ok([stage.value]), StagesOf(parse, pieces[i + 1..]));
        stages := stages + [stage.value];
      }
    }
    assert stages + [] == stages;
    return Ok(stages);
  }

  lemma BothAssociates<E>(a: Result<seq<Stage>, E>, b: Result<seq<Stage>, E>, c: Result<seq<Stage>, E>)
    ensures Both(Both(a, b), c) == Both(a, Both(b, c))
  {
    if a.Ok? && b.Ok? && c.Ok? {
      assert a.value + b.value + c.value == a.value + (b.value + c.value);
    }
  }

  lemma {:induction false} StagesConcat<E>(parse: string -> Result<Stage, E>, xs: seq<string>, ys: seq<string>)
    ensures StagesOf(parse, xs + ys) == Both(StagesOf(parse, xs), StagesOf(parse, ys))
  {
    if xs == [] {
      assert xs + ys == ys;
      if StagesOf(parse, ys).Ok? {
        assert [] + StagesOf(parse, ys).value == StagesOf(parse, ys).value;
      }
    } else {
      assert (xs + ys)[0] == xs[0] && (xs + ys)[1..] == xs[1..] + ys;
      StagesConcat(parse, xs[1..], ys);
      var seg := Trim(xs[0]);
      if seg != "" && parse(seg).Ok? {
        BothAssociates(Ok([parse(seg).value]), StagesOf(parse, xs[1..]), StagesOf(parse, ys));
      }
    }
  }

  // ---- Blanks at the ends.

  lemma BlankIsPlain(c: char)
    requires IsWhitespace(c)
    ensures Plain(c) && c != '|'
    ensures Step(OUTSIDE, c) == OUTSIDE
  {
  }

  lemma {:induction false} TrimStartLast(s: string, c: char)
    requires IsWhitespace(c)
    ensures TrimStart(s + [c]) == if TrimStart(s) == "" then "" else TrimStart(s) + [c]
  {
    if s == "" {
      assert s + [c] == [c] && [c][1..] == "";
    } else {
      assert (s + [c])[0] == s[0] && (s + [c])[1..] == s[1..] + [c];
      if IsWhitespace(s[0]) {
        TrimStartLast(s[1..], c);
      }
    }
  }

  lemma TrimLast(s: string, c: char)
    requires IsWhitespace(c)
    ensures Trim(s + [c]) == Trim(s)
  {
    TrimStartLast(s, c);
    var t := TrimStart(s);
    assert (t + [c])[..|t|] == t;
  }

  lemma StagesLast<E>(parse: string -> Result<Stage, E>, init: seq<string>, x: string, y: string)
    requires Trim(x) == Trim(y)
    ensures StagesOf(parse, init + [x]) == StagesOf(parse, init + [y])
  {
    StagesConcat(parse, init, [x]);
    StagesConcat(parse, init, [y]);
    assert [x][1..] == [y][1..] == [];
  }

  lemma {:induction false} TrimStartKeeps<E>(parse: string -> Result<Stage, E>, s: string)
    ensures Parsed(parse, TrimStart(s)) == Parsed(parse, s)
  {
    if s != "" && IsWhitespace(s[0]) {
      BlankIsPlain(s[0]);
      TrimStartKeeps(parse, s[1..]);
      var rest := SplitTop(s[1..], '|');
      assert SplitTop(s, '|') == [[s[0]] + rest[0]] + rest[1..];
      var piece := [s[0]] + rest[0];
      assert piece[1..] == rest[0];
      assert Trim(piece) == Trim(rest[0]);
    }
  }

  lemma {:induction false} TrimEndKeeps<E>(parse: string -> Result<Stage, E>, s: string)
    ensures Parsed(parse, TrimEnd(s)) == Parsed(parse, s)
    decreases |s|
  {
    if s != "" && IsWhitespace(s[|s| - 1]) {
      var init, c := s[..|s| - 1], s[|s| - 1];
      TrimEndKeeps(parse, init);
      BlankIsPlain(c);
      assert s == init + [c];
      PiecesConcat(OUTSIDE, init, [c], '|');
      var m := ModeAfter(OUTSIDE, init);
      assert [c][1..] == "" && [c] + "" == [c];
      assert Pieces(Step(m, c), "", '|') == [""];
      assert Pieces(m, [c], '|') == [[c]];
      var pieces := SplitTop(init, '|');
      var n := |pieces| - 1;
      TrimLast(pieces[n], c);
      StagesLast(parse, pieces[..n], pieces[n] + [c], pieces[n]);
      assert pieces[..n] + [pieces[n]] == pieces;
      assert SplitTop(s, '|') == pieces[..n] + [pieces[n] + [c]];
    }
  }

  lemma TrimKeepsStages<E>(parse: string -> Result<Stage, E>, s: string)
    ensures Parsed(parse, Trim(s)) == Parsed(parse, s)
  {
    TrimStartKeeps(parse, s);
    TrimEndKeeps(parse, TrimStart(s));
  }

  /**
   * Joining a balanced chain and another with `|` parses to the stages of the one followed by those
   * of the other, and evaluating the result is evaluating the second on what the first left.
   */
  lemma JoinedChainsCompose<E>(
    parse: string -> Result<Stage, E>, a: string, b: string,
    env: Env, bag: Bag, field: string, phase: DispatchPhase, value: Value, history: History)
    requires Balanced(a)
    ensures Parsed(parse, a + "|" + b) == Both(Parsed(parse, a), Parsed(parse, b))
    ensures Parsed(parse, a).Ok? && Parsed(parse, b).Ok? ==>
              var first, second := Parsed(parse, a).value, Parsed(parse, b).value;
              && Parsed(parse, a + "|" + b) == Ok(first + second)
              && Pipeline.EvaluatePipeline(env, bag, field, phase, first + second, value, history)
                 == Pipeline.Chain(
                   env, bag, field, phase, value,
                   Pipeline.EvaluatePipeline(env, bag, field, phase, first, value, history), |first|, second)
  {
    JoinedChainsSplit(a, b, '|');
    StagesConcat(parse, SplitTop(a, '|'), SplitTop(b, '|'));
    if Parsed(parse, a).Ok? && Parsed(parse, b).Ok? {
      Pipeline.PipelinesCompose(env, bag, field, phase, Parsed(parse, a).value, Parsed(parse, b).value, value, history);
    }
  }
}
