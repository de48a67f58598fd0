/** Evaluating predicates against the bag: total, with a missing or mistyped attribute reading as false. */
module Predicates {
  import opened Prelude
  import opened Attributes
  import opened Policy
  import Rounding

  /** `str::parse::<f64>`, whose values are taken as reals; NaN is no value. */
  type ParseF64 = string -> Option<real>

  function AttrAsF64(f64: ParseF64, attr: AttributeValue): Option<real> {
    match attr
    case AInt(i) => Some(Rounding.Nearest(i) as real)
    case AFloat(text) => f64(text)
    case AString(s) => f64(Trim(s))
    case _ => None
  }

  function LiteralAsF64(f64: ParseF64, lit: Literal): Option<real> {
    match lit
    case LInt(i) => Some(Rounding.Nearest(i) as real)
    case LFloat(text) => f64(text)
    case LString(s) => f64(Trim(s))
    case LBool(_) => None
  }

  predicate ValuesEq(f64: ParseF64, attr: AttributeValue, lit: Literal) {
    match (attr, lit)
    case (ABool(a), LBool(b)) => a == b
    case (AInt(a), LInt(b)) => a == b
    case (AString(a), LString(b)) => a == b
    case (AFloat(_), LFloat(_)) => SameReal(AttrAsF64(f64, attr), LiteralAsF64(f64, lit))
    case (AInt(_), LFloat(_)) => SameReal(AttrAsF64(f64, attr), LiteralAsF64(f64, lit))
    case (AFloat(_), LInt(_)) => SameReal(AttrAsF64(f64, attr), LiteralAsF64(f64, lit))
    case _ => false
  }

  predicate SameReal(a: Option<real>, b: Option<real>) {
    a.Some? && b.Some? && a.value == b.value
  }

  predicate OrderHolds(op: Rounding.OrderOp, a: real, b: real) {
    match op
    case Gt => a > b
    case GtEq => a >= b
    case Lt => a < b
    case LtEq => a <= b
  }

  /** Integer pairs compare exactly; every other pair goes through `f64`. */
  predicate NumericCompare(f64: ParseF64, attr: AttributeValue, lit: Literal, op: Rounding.OrderOp) {
    if attr.AInt? && lit.LInt? then Rounding.Exact(op, attr.i, lit.i)
    else
      var a, b := AttrAsF64(f64, attr), LiteralAsF64(f64, lit);
      a.Some? && b.Some? && OrderHolds(op, a.value, b.value)
  }

  predicate EvalComparison(f64: ParseF64, key: string, op: CompareOp, lit: Literal, bag: Bag) {
    var attr := Get(bag, key);
    && attr.Some?
    && match op
       case Contains => attr.value.AStringSet? && lit.LString? && lit.s in attr.value.elems
       case Eq => ValuesEq(f64, attr.value, lit)
       case NotEq => !ValuesEq(f64, attr.value, lit)
       case Gt => NumericCompare(f64, attr.value, lit, Rounding.Gt)
       case GtEq => NumericCompare(f64, attr.value, lit, Rounding.GtEq)
       case Lt => NumericCompare(f64, attr.value, lit, Rounding.Lt)
       case LtEq => NumericCompare(f64, attr.value, lit, Rounding.LtEq)
  }

  predicate Truthy(bag: Bag, key: string) {
    var k := Expand(bag, key);
    k.Some? && GetBool(bag, k.value) == Some(true)
  }

  predicate Member(bag: Bag, valueKey: string, setKey: string) {
    var vk, sk := Expand(bag, valueKey), Expand(bag, setKey);
    && vk.Some? && sk.Some?
    && var s, elems := GetString(bag, vk.value), GetStringSet(bag, sk.value);
    s.Some? && elems.Some? && s.value in elems.value
  }

  predicate EvalCondition(f64: ParseF64, cond: Condition, bag: Bag) {
    match cond
    case IsTrue(key) => Truthy(bag, key)
    case IsFalse(key) =>
      var k := Expand(bag, key);
      k.None? || !GetBool(bag, k.value).GetOr(false)
    case Exists(key) =>
      var k := Expand(bag, key);
      k.Some? && k.value in bag
    case Comparison(key, op, value) =>
      var k := Expand(bag, key);
      k.Some? && EvalComparison(f64, k.value, op, value, bag)
    case InSet(valueKey, setKey, negate) => Member(bag, valueKey, setKey) != negate
  }

  predicate Eval(f64: ParseF64, expr: Expression, bag: Bag) {
    match expr
    case Cond(c) => EvalCondition(f64, c, bag)
    case And(parts) => forall i :: 0 <= i < |parts| ==> Eval(f64, parts[i], bag)
    case Or(parts) => exists i :: 0 <= i < |parts| && Eval(f64, parts[i], bag)
    case Not(inner) => !Eval(f64, inner, bag)
    case Always => true
  }

  /** What `require(...)` compiles to: the negation of each key, joined the other way round. */
  function Require(keys: seq<string>, alternatives: bool): Expression
    requires keys != []
  {
    var falses := seq(|keys|, i requires 0 <= i < |keys| => Cond(IsFalse(keys[i])));
    if |keys| == 1 then falses[0] else if alternatives then And(falses) else Or(falses)
  }

  /**
   * `require(a, b)` denies unless every key is truthy, `require(a | b)` unless some key is: a key
   * that is absent, unresolvable or not a boolean counts against it.
   */
  lemma RequireDenies(f64: ParseF64, keys: seq<string>, alternatives: bool, bag: Bag)
    requires keys != []
    ensures Eval(f64, Require(keys, alternatives), bag) <==>
            if alternatives then forall k :: k in keys ==> !Truthy(bag, k) else exists k :: k in keys && !Truthy(bag, k)
  {
    var falses := seq(|keys|, i requires 0 <= i < |keys| => Cond(IsFalse(keys[i])));
    forall i | 0 <= i < |keys| ensures Eval(f64, falses[i], bag) == !Truthy(bag, keys[i]) && keys[i] in keys {
      assert falses[i] == Cond(IsFalse(keys[i]));
    }
    if |keys| > 1 {
      if alternatives {
        assert Eval(f64, And(falses), bag) == forall i :: 0 <= i < |falses| ==> Eval(f64, falses[i], bag);
      } else {
        assert Eval(f64, Or(falses), bag) == exists i :: 0 <= i < |falses| && Eval(f64, falses[i], bag);
      }
    }
  }

  /** Writing an integer operand as text changes no order comparison if and only if rounding keeps the two integers apart. */
  lemma TextOperandAgreesExactly(f64: ParseF64, a: int, b: int, text: string)
    requires f64(Trim(text)) == Some(Rounding.Nearest(b) as real)
    ensures (forall op :: NumericCompare(f64, AInt(a), LString(text), op) == NumericCompare(f64, AInt(a), LInt(b), op))
            <==> (Rounding.Nearest(a) == Rounding.Nearest(b) ==> a == b)
  {
    forall op
      ensures NumericCompare(f64, AInt(a), LString(text), op) == Rounding.Detour(op, a, b)
      ensures NumericCompare(f64, AInt(a), LInt(b), op) == Rounding.Exact(op, a, b)
    {
    }
    Rounding.DetourAgreesExactly(a, b);
  }
}
