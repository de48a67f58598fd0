/** The predicate parser: recursive descent, `|` below `&` below `!`. */
module Parser {
  import opened Prelude
  import opened Policy
  import opened Lexer

  datatype ParseError =
    | Lexical(error: LexError)
    | TrailingTokens
    | ExpectedCloseParen
    | RequireNotNested
    | ExpectedAtom
    | ExpectedOpenParen
    | ExpectedKey
    | ExpectedLiteral
    | IdentifierOperand

  type Toks = seq<Tok>

  /** An expression and the tokens after it. */
  datatype Parsed<T> = Parsed(value: T, rest: Toks)

  type Parse<T> = Result<Parsed<T>, ParseError>

  function AsLiteral(t: Tok): Option<Literal> {
    match t
    case StringLit(s) => Some(LString(s))
    case IntLit(i) => Some(LInt(i))
    case FloatLit(text) => Some(LFloat(text))
    case BoolLit(b) => Some(LBool(b))
    case _ => None
  }

  function AsOp(t: Tok): Option<CompareOp> {
    match t
    case EqTok => Some(Eq)
    case NotEqTok => Some(NotEq)
    case GtTok => Some(Gt)
    case GtEqTok => Some(GtEq)
    case LtTok => Some(Lt)
    case LtEqTok => Some(LtEq)
    case ContainsTok => Some(Contains)
    case _ => None
  }

  function ParseOr(toks: Toks): (r: Parse<Expression>)
    ensures r.Ok? ==> |r.value.rest| < |toks|
    decreases |toks|, 5
  {
    var first :- ParseAnd(toks);
    var more :- OrTail(first.rest);
    Ok(Parsed(if more.value == [] then first.value else Or([first.value] + more.value), more.rest))
  }

  function OrTail(toks: Toks): (r: Parse<seq<Expression>>)
    ensures r.Ok? ==> |r.value.rest| <= |toks|
    decreases |toks|, 0
  {
    if toks != [] && toks[0].OrTok? then
      var next :- ParseAnd(toks[1..]);
      var more :- OrTail(next.rest);
      Ok(Parsed([next.value] + more.value, more.rest))
    else Ok(Parsed([], toks))
  }

  function ParseAnd(toks: Toks): (r: Parse<Expression>)
    ensures r.Ok? ==> |r.value.rest| < |toks|
    decreases |toks|, 4
  {
    var first :- ParseUnary(toks);
    var more :- AndTail(first.rest);
    Ok(Parsed(if more.value == [] then first.value else And([first.value] + more.value), more.rest))
  }

  function AndTail(toks: Toks): (r: Parse<seq<Expression>>)
    ensures r.Ok? ==> |r.value.rest| <= |toks|
    decreases |toks|, 0
  {
    if toks != [] && toks[0].AndTok? then
      var next :- ParseUnary(toks[1..]);
      var more :- AndTail(next.rest);
      Ok(Parsed([next.value] + more.value, more.rest))
    else Ok(Parsed([], toks))
  }

  function ParseUnary(toks: Toks): (r: Parse<Expression>)
    ensures r.Ok? ==> |r.value.rest| < |toks|
    decreases |toks|, 3
  {
    if toks != [] && toks[0].NotTok? then
      var inner :- ParseUnary(toks[1..]);
      Ok(Parsed(Not(inner.value), inner.rest))
    else ParseAtom(toks)
  }

  function ParseAtom(toks: Toks): (r: Parse<Expression>)
    ensures r.Ok? ==> |r.value.rest| < |toks|
    decreases |toks|, 2
  {
    if toks == [] then Err(ExpectedAtom)
    else
      match toks[0]
      case LParen =>
        var inner :- ParseOr(toks[1..]);
        if inner.rest != [] && inner.rest[0].RParen? then Ok(Parsed(inner.value, inner.rest[1..]))
        else Err(ExpectedCloseParen)
      case RequireTok => Err(RequireNotNested)
      case ExistsTok => ParseExists(toks[1..])
      case Ident(key) => ParseKeyed(key, toks[1..])
      case _ => Err(ExpectedAtom)
  }

  /** What follows `exists`. */
  function ParseExists(toks: Toks): (r: Parse<Expression>)
    ensures r.Ok? ==> |r.value.rest| < |toks|
  {
    if toks == [] || !toks[0].LParen? then Err(ExpectedOpenParen)
    else if |toks| < 2 || !toks[1].Ident? then Err(ExpectedKey)
    else if |toks| < 3 || !toks[2].RParen? then Err(ExpectedCloseParen)
    else Ok(Parsed(Cond(Exists(toks[1].name)), toks[3..]))
  }

  /** What follows an attribute key. */
  function ParseKeyed(key: string, toks: Toks): (r: Parse<Expression>)
    ensures r.Ok? ==> |r.value.rest| <= |toks|
  {
    if toks != [] && toks[0].InTok? then ParseSetKey(key, false, toks[1..])
    else if |toks| > 1 && toks[0] == Ident("not") && toks[1].InTok? then ParseSetKey(key, true, toks[2..])
    else if toks != [] && AsOp(toks[0]).Some? then ParseOperand(key, AsOp(toks[0]).value, toks[1..])
    else Ok(Parsed(Cond(IsTrue(key)), toks))
  }

  function ParseSetKey(key: string, negate: bool, toks: Toks): (r: Parse<Expression>)
    ensures r.Ok? ==> |r.value.rest| <= |toks|
  {
    if toks == [] || !toks[0].Ident? then Err(ExpectedKey)
    else Ok(Parsed(Cond(InSet(key, toks[0].name, negate)), toks[1..]))
  }

  function ParseOperand(key: string, op: CompareOp, toks: Toks): (r: Parse<Expression>)
    ensures r.Ok? ==> |r.value.rest| <= |toks|
  {
    if toks != [] && AsLiteral(toks[0]).Some? then Ok(Parsed(Cond(Comparison(key, op, AsLiteral(toks[0]).value)), toks[1..]))
    else if toks != [] && toks[0].Ident? then Err(IdentifierOperand)
    else Err(ExpectedLiteral)
  }

  /** A whole token list, nothing left over. */
  function ParseAll(toks: Toks): Result<Expression, ParseError> {
    var parsed :- ParseOr(toks);
    if parsed.rest == [] then Ok(parsed.value) else Err(TrailingTokens)
  }

  function ParsePredicate(src: string): Result<Expression, ParseError> {
    var toks := Tokens(Trim(src));
    if toks.Err? then Err(Lexical(toks.error)) else ParseAll(toks.value)
  }

  /** The parser object. */
  class PredParser {
    const toks: Toks
    var pos: nat

    ghost predicate Valid()
      reads this
    {
      pos <= |toks|
    }

    constructor (toks: Toks)
      ensures Valid() && this.toks == toks && pos == 0
    {
      this.toks := toks;
      pos := 0;
    }

    /** The tokens not yet taken. */
    function Rest(): Toks
      requires Valid()
      reads this
    {
      toks[pos..]
    }

    predicate At(t: Tok)
      requires Valid()
      reads this
    {
      pos < |toks| && toks[pos] == t
    }

    method Or_() returns (r: Result<Expression, ParseError>)
      requires Valid()
      modifies this
      ensures Valid() && pos >= old(pos) && Follows(ParseOr(old(Rest())), r, Rest())
      decreases |toks| - pos, 5
    {
      var first := And_();
      if first.Err? {
        return first;
      }
      var parts := [first.value];
      ghost var start := Rest();
      assert parts[1..] == [];
      ConsingNothing(OrTail(start));
      while At(OrTok)
        invariant Valid() && pos > old(pos)
        invariant parts != [] && parts[0] == first.value
        invariant OrTail(start) == Consing(parts[1..], OrTail(Rest()))
        decreases |toks| - pos
      {
        ghost var here := Rest();
        pos := pos + 1;
        assert here[1..] == Rest();
        var next := And_();
        if next.Err? {
          return next;
        }
        ConsingTwice(parts[1..], next.value, OrTail(Rest()));
        assert (parts + [next.value])[1..] == parts[1..] + [next.value];
        parts := parts + [next.value];
      }
      assert parts == [first.value] + parts[1..];
      assert parts[1..] + [] == parts[1..];
      return Ok(if |parts| == 1 then parts[0] else Or(parts));
    }

    method And_() returns (r: Result<Expression, ParseError>)
      requires Valid()
      modifies this
      ensures Valid() && pos >= old(pos) && Follows(ParseAnd(old(Rest())), r, Rest())
      ensures r.Ok? ==> pos > old(pos)
      decreases |toks| - pos, 4
    {
      var first := Unary();
      if first.Err? {
        return first;
      }
      var parts := [first.value];
      ghost var start := Rest();
      assert parts[1..] == [];
      ConsingNothing(AndTail(start));
      while At(AndTok)
        invariant Valid() && pos > old(pos)
        invariant parts != [] && parts[0] == first.value
        invariant AndTail(start) == Consing(parts[1..], AndTail(Rest()))
        decreases |toks| - pos
      {
        ghost var here := Rest();
        pos := pos + 1;
        assert here[1..] == Rest();
        var next := Unary();
        if next.Err? {
          return next;
        }
        ConsingTwice(parts[1..], next.value, AndTail(Rest()));
        assert (parts + [next.value])[1..] == parts[1..] + [next.value];
        parts := parts + [next.value];
      }
      assert parts == [first.value] + parts[1..];
      assert parts[1..] + [] == parts[1..];
      return Ok(if |parts| == 1 then parts[0] else And(parts));
    }

    method Unary() returns (r: Result<Expression, ParseError>)
      requires Valid()
      modifies this
      ensures Valid() && pos >= old(pos) && Follows(ParseUnary(old(Rest())), r, Rest())
      ensures r.Ok? ==> pos > old(pos)
      decreases |toks| - pos, 3
    {
      if At(NotTok) {
        ghost var here := Rest();
        pos := pos + 1;
        assert here[1..] == Rest();
        var inner := Unary();
        return if inner.Err? then inner else Ok(Not(inner.value));
      }
      r := Atom();
    }

    method Atom() returns (r: Result<Expression, ParseError>)
      requires Valid()
      modifies this
      ensures Valid() && pos >= old(pos) && Follows(ParseAtom(old(Rest())), r, Rest())
      ensures r.Ok? ==> pos > old(pos)
      decreases |toks| - pos, 2
    {
      if pos == |toks| {
        return Err(ExpectedAtom);
      }
      ghost var here := Rest();
      match toks[pos] {
        case LParen =>
          pos := pos + 1;
          assert here[1..] == Rest();
          var inner := Or_();
          if inner.Err? {
            return inner;
          }
          if At(RParen) {
            ghost var after := Rest();
            pos := pos + 1;
            assert after[1..] == Rest();
            return inner;
          }
          return Err(ExpectedCloseParen);
        case RequireTok => return Err(RequireNotNested);
        case ExistsTok =>
          pos := pos + 1;
          assert here[1..] == Rest();
          r := ExistsCall();
        case Ident(key) =>
          pos := pos + 1;
          assert here[1..] == Rest();
          r := Keyed(key);
        case _ => return Err(ExpectedAtom);
      }
    }

    method ExistsCall() returns (r: Result<Expression, ParseError>)
      requires Valid()
      modifies this
      ensures Valid() && pos >= old(pos) && Follows(ParseExists(old(Rest())), r, Rest())
    {
      ghost var here := Rest();
      if !At(LParen) {
        return Err(ExpectedOpenParen);
      }
      pos := pos + 1;
      if pos == |toks| || !toks[pos].Ident? {
        return Err(ExpectedKey);
      }
      var key := toks[pos].name;
      pos := pos + 1;
      if !At(RParen) {
        return Err(ExpectedCloseParen);
      }
      pos := pos + 1;
      assert here[3..] == Rest();
      return Ok(Cond(Exists(key)));
    }

    /** `not` is no keyword: it is tried before `in`, and given back when no `in` follows. */
    method Keyed(key: string) returns (r: Result<Expression, ParseError>)
      requires Valid()
      modifies this
      ensures Valid() && pos >= old(pos) && Follows(ParseKeyed(key, old(Rest())), r, Rest())
    {
      ghost var here := Rest();
      if At(InTok) {
        pos := pos + 1;
        assert here[1..] == Rest();
        r := SetKey(key, false);
        return;
      }
      if At(Ident("not")) {
        var saved := pos;
        pos := pos + 1;
        if At(InTok) {
          pos := pos + 1;
          assert here[2..] == Rest();
          r := SetKey(key, true);
          return;
        }
        pos := saved;
      }
      if pos == |toks| || AsOp(toks[pos]).None? {
        return Ok(Cond(IsTrue(key)));
      }
      var op := AsOp(toks[pos]).value;
      pos := pos + 1;
      assert here[1..] == Rest();
      if pos == |toks| {
        return Err(ExpectedLiteral);
      }
      var operand := toks[pos];
      ghost var after := Rest();
      pos := pos + 1;
      assert after[1..] == Rest();
      return if AsLiteral(operand).Some? then Ok(Cond(Comparison(key, op, AsLiteral(operand).value)))
        else if operand.Ident? then Err(IdentifierOperand) else Err(ExpectedLiteral);
    }

    method SetKey(key: string, negate: bool) returns (r: Result<Expression, ParseError>)
      requires Valid()
      modifies this
      ensures Valid() && pos >= old(pos) && Follows(ParseSetKey(key, negate, old(Rest())), r, Rest())
    {
      if pos == |toks| || !toks[pos].Ident? {
        return Err(ExpectedKey);
      }
      var name := toks[pos].name;
      ghost var here := Rest();
      pos := pos + 1;
      assert here[1..] == Rest();
      return Ok(Cond(InSet(key, name, negate)));
    }
  }

  /** The parser object reached what the specification's parse says. */
  ghost predicate Follows(expected: Parse<Expression>, r: Result<Expression, ParseError>, rest: Toks) {
    match expected
    case Ok(parsed) => r == Ok(parsed.value) && rest == parsed.rest
    case Err(e) => r == Err(e)
  }

  function Consing(parts: seq<Expression>, tail: Parse<seq<Expression>>): Parse<seq<Expression>> {
    if tail.Err? then tail else Ok(Parsed(parts + tail.value.value, tail.value.rest))
  }

  lemma ConsingNothing(tail: Parse<seq<Expression>>)
    ensures Consing([], tail) == tail
  {
    if tail.Ok? {
      assert [] + tail.value.value == tail.value.value;
    }
  }

  lemma ConsingTwice(parts: seq<Expression>, e: Expression, tail: Parse<seq<Expression>>)
    ensures Consing(parts + [e], tail) == Consing(parts, Consing([e], tail))
  {
    if tail.Ok? {
      assert parts + [e] + tail.value.value == parts + ([e] + tail.value.value);
    }
  }

  /** `parse_predicate`. */
  method ParseSource(src: string) returns (r: Result<Expression, ParseError>)
    ensures r == ParsePredicate(src)
  {
    var scanner := new Scanner(Trim(src));
    var toks := scanner.TokenizeAll();
    if toks.Err? {
      return Err(Lexical(toks.error));
    }
    var parser := new PredParser(toks.value);
    assert parser.Rest() == toks.value;
    var expr := parser.Or_();
    if expr.Err? {
      return expr;
    }
    if parser.pos < |toks.value| {
      return Err(TrailingTokens);
    }
    return expr;
  }
}
