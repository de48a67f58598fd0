/** `require(...)` as a rule: its tokens, and the predicate under which it denies. */
module Require {
  import opened Prelude
  import opened Policy
  import opened Lexer
  import Predicates

  datatype RequireError = NotRequire | NoOpenParen | NoKey | MixedSeparators | UnexpectedToken | Unclosed | Trailing

  /** Exactly the tokens of `require(k1 sep k2 ... kn)`, with one separator throughout. */
  predicate IsRequire(toks: seq<Tok>, keys: seq<string>, alternatives: bool) {
    && keys != [] && |toks| == 2 * |keys| + 2
    && toks[0] == RequireTok && toks[1] == LParen
    && (forall i :: 0 <= i < |keys| ==> toks[2 * i + 2] == Ident(keys[i]))
    && (forall i :: 1 <= i < |keys| ==> toks[2 * i + 1] == Separator(alternatives))
    && toks[|toks| - 1] == RParen
  }

  function Separator(alternatives: bool): Tok { if alternatives then OrTok else Comma }

  /** What has been read: the opening and the keys so far. */
  ghost predicate ReadSoFar(toks: seq<Tok>, keys: seq<string>, sep: Option<Tok>) {
    && keys != [] && |toks| >= 2 * |keys| + 1
    && toks[0] == RequireTok && toks[1] == LParen
    && (forall i :: 0 <= i < |keys| ==> toks[2 * i + 2] == Ident(keys[i]))
    && (forall i :: 1 <= i < |keys| ==> sep.Some? && toks[2 * i + 1] == sep.value)
    && (sep.Some? ==> |keys| > 1 && (sep.value == Comma || sep.value == OrTok))
  }

  lemma FirstKey(toks: seq<Tok>, keys: seq<string>, alternatives: bool)
    requires IsRequire(toks, keys, alternatives)
    ensures |toks| > 2 && toks[2] == Ident(keys[0])
  {
    assert toks[2 * 0 + 2] == Ident(keys[0]);
  }

  /** Any reading of the whole agrees with what has been read. */
  lemma ReadingAgrees(toks: seq<Tok>, keys: seq<string>, sep: Option<Tok>, whole: seq<string>, alternatives: bool)
    requires ReadSoFar(toks, keys, sep) && IsRequire(toks, whole, alternatives)
    ensures |keys| <= |whole| && keys == whole[..|keys|]
    ensures sep.Some? ==> sep.value == Separator(alternatives)
    ensures toks[2 * |keys| + 1] == if |keys| == |whole| then RParen else Separator(alternatives)
    ensures |keys| < |whole| ==> toks[2 * |keys| + 2].Ident?
  {
    if |keys| <= |whole| {
      forall i | 0 <= i < |keys| ensures keys[i] == whole[i] {
        assert toks[2 * i + 2] == Ident(keys[i]);
      }
      if sep.Some? {
        assert toks[2 * 1 + 1] == sep.value;
      }
      if |keys| < |whole| {
        assert toks[2 * |keys| + 1] == Separator(alternatives);
        assert toks[2 * |keys| + 2] == Ident(whole[|keys|]);
      }
    }
  }

  /** Reads a whole `require(...)` rule: it succeeds on exactly its token lists, with the matching predicate. */
  method ParseRequireRule(toks: seq<Tok>) returns (condition: Result<Expression, RequireError>)
    ensures condition.Ok? ==>
              exists keys, alternatives :: IsRequire(toks, keys, alternatives) && condition.value == Predicates.Require(keys, alternatives)
    ensures condition.Err? ==> forall keys, alternatives :: !IsRequire(toks, keys, alternatives)
  {
    if toks == [] || toks[0] != RequireTok {
      return Err(NotRequire);
    }
    if |toks| < 2 || toks[1] != LParen {
      return Err(NoOpenParen);
    }
    if |toks| < 3 || !toks[2].Ident? {
      forall keys, alternatives | IsRequire(toks, keys, alternatives) ensures false {
        FirstKey(toks, keys, alternatives);
      }
      return Err(NoKey);
    }
    var keys, sep := [toks[2].name], None;
    var pos := 3;
    while pos < |toks| && toks[pos] != RParen
      invariant pos == 2 * |keys| + 1 <= |toks|
      invariant ReadSoFar(toks, keys, sep)
    {
      var t := toks[pos];
      forall whole, alternatives | IsRequire(toks, whole, alternatives)
        ensures t == Separator(alternatives) && (sep.Some? ==> sep.value == t) && pos + 1 < |toks| && toks[pos + 1].Ident?
      {
        ReadingAgrees(toks, keys, sep, whole, alternatives);
      }
      if t != Comma && t != OrTok {
        return Err(UnexpectedToken);
      }
      if sep.Some? && sep.value != t {
        return Err(MixedSeparators);
      }
      if pos + 1 >= |toks| || !toks[pos + 1].Ident? {
        return Err(NoKey);
      }
      sep := Some(t);
      keys := keys + [toks[pos + 1].name];
      pos := pos + 2;
    }
    forall whole, alternatives | IsRequire(toks, whole, alternatives) ensures pos + 1 == |toks| && toks[pos] == RParen {
      ReadingAgrees(toks, keys, sep, whole, alternatives);
    }
    if pos == |toks| {
      return Err(Unclosed);
    }
    if pos + 1 < |toks| {
      return Err(Trailing);
    }
    var alternatives := sep == Some(OrTok);
    assert IsRequire(toks, keys, alternatives);
    return Ok(Predicates.Require(keys, alternatives));
  }

  // ---- The token lists, written out.

  function Listed(keys: seq<string>, sep: Tok): (toks: seq<Tok>)
    requires keys != []
    ensures |toks| == 2 * |keys| - 1
  {
    var n := |keys| - 1;
    if n == 0 then [Ident(keys[0])] else Listed(keys[..n], sep) + [sep, Ident(keys[n])]
  }

  /** `require(` and the keys, a comma between them or a bar when they are alternatives, and `)`. */
  function Written(keys: seq<string>, alternatives: bool): seq<Tok>
    requires keys != []
  {
    [RequireTok, LParen] + Listed(keys, if alternatives then OrTok else Comma) + [RParen]
  }

  lemma {:induction false} ListedAt(keys: seq<string>, sep: Tok, i: nat)
    requires i < |keys|
    ensures Listed(keys, sep)[2 * i] == Ident(keys[i])
    ensures i > 0 ==> Listed(keys, sep)[2 * i - 1] == sep
    decreases |keys|
  {
    var n := |keys| - 1;
    if i < n {
      ListedAt(keys[..n], sep, i);
    }
  }

  lemma {:induction false} WrittenAt(keys: seq<string>, alternatives: bool, i: nat)
    requires i < |keys|
    ensures Written(keys, alternatives)[2 * i + 2] == Ident(keys[i])
    ensures i > 0 ==> Written(keys, alternatives)[2 * i + 1] == if alternatives then OrTok else Comma
  {
    ListedAt(keys, if alternatives then OrTok else Comma, i);
  }

  lemma {:induction false} WrittenIsRequire(keys: seq<string>, alternatives: bool)
    requires keys != []
    ensures IsRequire(Written(keys, alternatives), keys, alternatives)
  {
    forall i | 0 <= i < |keys|
      ensures Written(keys, alternatives)[2 * i + 2] == Ident(keys[i])
      ensures i > 0 ==> Written(keys, alternatives)[2 * i + 1] == Separator(alternatives)
    {
      WrittenAt(keys, alternatives, i);
    }
  }

  /** Two readings of the same keys and separator are the same tokens. */
  lemma SameReading(a: seq<Tok>, b: seq<Tok>, keys: seq<string>, alternatives: bool)
    requires IsRequire(a, keys, alternatives) && IsRequire(b, keys, alternatives)
    ensures a == b
  {
    forall k | 0 <= k < |a| ensures a[k] == b[k] {
      if 2 <= k < |a| - 1 {
        var i := (k - 1) / 2;
        if k % 2 == 0 {
          assert k == 2 * i + 2 && a[2 * i + 2] == Ident(keys[i]) && b[2 * i + 2] == Ident(keys[i]);
        } else {
          assert k == 2 * i + 1 && a[2 * i + 1] == Separator(alternatives) && b[2 * i + 1] == Separator(alternatives);
        }
      }
    }
  }

  /** The forms `ParseRequireRule` accepts are exactly these. */
  lemma RequireIsWritten(toks: seq<Tok>, keys: seq<string>, alternatives: bool)
    ensures IsRequire(toks, keys, alternatives) <==> keys != [] && toks == Written(keys, alternatives)
  {
    if keys != [] {
      WrittenIsRequire(keys, alternatives);
      if IsRequire(toks, keys, alternatives) {
        SameReading(toks, Written(keys, alternatives), keys, alternatives);
      }
    }
  }
}
