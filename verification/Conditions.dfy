/** What conditions and expressions mean, in terms of the values the request's attributes hold. */
module Conditions {
  import opened Prelude
  import opened Attributes
  import opened Policy
  import opened Predicates
  import Rounding

  /** The value a path holds: none when a group of it does not resolve or its key is absent. */
  function ValueAt(bag: Bag, path: string): Option<AttributeValue> {
    var key := Expand(bag, path);
    if key.Some? && key.value in bag then Some(bag[key.value]) else None
  }

  predicate Compares(f64: ParseF64, path: string, op: CompareOp, lit: Literal, bag: Bag) {
    Eval(f64, Cond(Comparison(path, op, lit)), bag)
  }

  /** `x` is the number an attribute stands for: text stands for the number it is written as. */
  predicate NumberOf(f64: ParseF64, v: AttributeValue, x: real) {
    || (v.AInt? && x == Rounding.Nearest(v.i) as real)
    || (v.AFloat? && f64(v.text) == Some(x))
    || (v.AString? && f64(Trim(v.s)) == Some(x))
  }

  predicate LiteralNumber(f64: ParseF64, lit: Literal, y: real) {
    || (lit.LInt? && y == Rounding.Nearest(lit.i) as real)
    || (lit.LFloat? && f64(lit.text) == Some(y))
    || (lit.LString? && f64(Trim(lit.s)) == Some(y))
  }

  ghost predicate BothNumbers(f64: ParseF64, v: AttributeValue, lit: Literal) {
    (exists x :: NumberOf(f64, v, x)) && exists y :: LiteralNumber(f64, lit, y)
  }

  predicate IsOrder(op: CompareOp) { op.Gt? || op.GtEq? || op.Lt? || op.LtEq? }

  // ---- Presence.

  /** No comparison holds of a missing attribute, `!=` included; on a present one `!=` is the negation of `==`. */
  lemma NotEqualExactly(f64: ParseF64, path: string, lit: Literal, bag: Bag)
    ensures Compares(f64, path, NotEq, lit, bag) <==> ValueAt(bag, path).Some? && !Compares(f64, path, Eq, lit, bag)
    ensures ValueAt(bag, path).None? ==> forall op :: !Compares(f64, path, op, lit, bag)
  {
  }

  /** The word forms: `exists` is presence, a bare path is the boolean true, and each negated form is the complement. */
  lemma WordsExactly(f64: ParseF64, path: string, setPath: string, bag: Bag)
    ensures Eval(f64, Cond(Exists(path)), bag) <==> ValueAt(bag, path).Some?
    ensures Eval(f64, Cond(IsTrue(path)), bag) <==> ValueAt(bag, path) == Some(ABool(true))
    ensures Eval(f64, Cond(IsFalse(path)), bag) <==> !Eval(f64, Cond(IsTrue(path)), bag)
    ensures Eval(f64, Cond(InSet(path, setPath, false)), bag) <==>
              exists s, elems :: ValueAt(bag, path) == Some(AString(s)) && ValueAt(bag, setPath) == Some(AStringSet(elems)) && s in elems
    ensures Eval(f64, Cond(InSet(path, setPath, true)), bag) <==> !Eval(f64, Cond(InSet(path, setPath, false)), bag)
  {
  }

  lemma ContainsExactly(f64: ParseF64, path: string, lit: Literal, bag: Bag)
    ensures Compares(f64, path, Contains, lit, bag) <==>
              exists elems :: ValueAt(bag, path) == Some(AStringSet(elems)) && lit.LString? && lit.s in elems
  {
  }

  // ---- Equality and order.

  /** Values of one kind are equal when they are the same, numbers of two kinds when rounded to the same double, and nothing else is. */
  lemma EqualExactly(f64: ParseF64, path: string, lit: Literal, bag: Bag)
    requires ValueAt(bag, path).Some?
    ensures var v := ValueAt(bag, path).value;
            Compares(f64, path, Eq, lit, bag) <==>
              || (exists b :: v == ABool(b) && lit == LBool(b))
              || (exists i :: v == AInt(i) && lit == LInt(i))
              || (exists s :: v == AString(s) && lit == LString(s))
              || (!v.AString? && !lit.LString? && !(v.AInt? && lit.LInt?)
                  && exists x :: NumberOf(f64, v, x) && LiteralNumber(f64, lit, x))
  {
    var v := ValueAt(bag, path).value;
    var a, b := AttrAsF64(f64, v), LiteralAsF64(f64, lit);
    if !v.AString? && !lit.LString? && !(v.AInt? && lit.LInt?) && a.Some? && a == b {
      assert NumberOf(f64, v, a.value) && LiteralNumber(f64, lit, a.value);
    }
  }

  /** Integers are ordered exactly; other operands when both stand for numbers, as those numbers; anything else not at all. */
  lemma OrderExactly(f64: ParseF64, path: string, lit: Literal, bag: Bag)
    requires ValueAt(bag, path).Some?
    ensures var v := ValueAt(bag, path).value;
            && (v.AInt? && lit.LInt? ==>
                  && (Compares(f64, path, Lt, lit, bag) <==> v.i < lit.i)
                  && (Compares(f64, path, Gt, lit, bag) <==> v.i > lit.i))
            && (forall x, y :: NumberOf(f64, v, x) && LiteralNumber(f64, lit, y) && !(v.AInt? && lit.LInt?) ==>
                  && (Compares(f64, path, Lt, lit, bag) <==> x < y)
                  && (Compares(f64, path, Gt, lit, bag) <==> x > y))
            && (forall op :: IsOrder(op) && !BothNumbers(f64, v, lit) ==> !Compares(f64, path, op, lit, bag))
  {
    var v := ValueAt(bag, path).value;
    var a, b := AttrAsF64(f64, v), LiteralAsF64(f64, lit);
    if a.Some? && b.Some? {
      assert NumberOf(f64, v, a.value) && LiteralNumber(f64, lit, b.value);
    }
  }

  /** The weak orders are the negated strict ones, exactly where the operands can be ordered at all. */
  lemma WeakOrdersExactly(f64: ParseF64, path: string, lit: Literal, bag: Bag)
    requires ValueAt(bag, path).Some?
    ensures var ordered := BothNumbers(f64, ValueAt(bag, path).value, lit);
            && (Compares(f64, path, LtEq, lit, bag) <==> ordered && !Compares(f64, path, Gt, lit, bag))
            && (Compares(f64, path, GtEq, lit, bag) <==> ordered && !Compares(f64, path, Lt, lit, bag))
            && !(Compares(f64, path, Lt, lit, bag) && Compares(f64, path, Gt, lit, bag))
  {
    var v := ValueAt(bag, path).value;
    var a, b := AttrAsF64(f64, v), LiteralAsF64(f64, lit);
    if a.Some? && b.Some? {
      assert NumberOf(f64, v, a.value) && LiteralNumber(f64, lit, b.value);
    }
  }

  /** On two numbers exactly one of less, equal and greater holds, and the weak orders are the matching unions. */
  lemma NumbersAreTrichotomous(f64: ParseF64, path: string, lit: Literal, bag: Bag)
    requires ValueAt(bag, path).Some? && BothNumbers(f64, ValueAt(bag, path).value, lit)
    requires !ValueAt(bag, path).value.AString? && !lit.LString?
    ensures var less, equal, greater :=
              Compares(f64, path, Lt, lit, bag), Compares(f64, path, Eq, lit, bag), Compares(f64, path, Gt, lit, bag);
            && (less || equal || greater) && !(less && equal) && !(less && greater) && !(equal && greater)
            && (Compares(f64, path, LtEq, lit, bag) <==> less || equal)
            && (Compares(f64, path, GtEq, lit, bag) <==> greater || equal)
  {
    EqualExactly(f64, path, lit, bag);
    OrderExactly(f64, path, lit, bag);
    WeakOrdersExactly(f64, path, lit, bag);
    var v := ValueAt(bag, path).value;
    var x :| NumberOf(f64, v, x);
    var y :| LiteralNumber(f64, lit, y);
  }

  // ---- Connectives.

  /** `e`, or its negation, with every negation moved inwards to where a condition has no negated form. */
  function Inward(e: Expression, negated: bool): Expression
    decreases e, 1
  {
    match e
    case Cond(IsTrue(k)) => Cond(if negated then IsFalse(k) else IsTrue(k))
    case Cond(IsFalse(k)) => Cond(if negated then IsTrue(k) else IsFalse(k))
    case Cond(InSet(value, among, no)) => Cond(InSet(value, among, no != negated))
    case Cond(_) => if negated then Not(e) else e
    case And(parts) => if negated then Or(InwardAll(parts, true)) else And(InwardAll(parts, false))
    case Or(parts) => if negated then And(InwardAll(parts, true)) else Or(InwardAll(parts, false))
    case Not(inner) => Inward(inner, !negated)
    case Always => if negated then Not(Always) else Always
  }

  function InwardAll(parts: seq<Expression>, negated: bool): (inward: seq<Expression>)
    ensures |inward| == |parts|
    ensures forall i :: 0 <= i < |parts| ==> inward[i] == Inward(parts[i], negated)
    decreases parts, 0
  {
    if parts == [] then [] else [Inward(parts[0], negated)] + InwardAll(parts[1..], negated)
  }

  /** Evaluation is two-valued throughout: moving negations inwards never changes it, whatever is missing or mistyped. */
  lemma {:induction false} NegationsMoveInward(f64: ParseF64, e: Expression, negated: bool, bag: Bag)
    ensures Eval(f64, Inward(e, negated), bag) == (Eval(f64, e, bag) != negated)
  {
    match e
    case Not(inner) => NegationsMoveInward(f64, inner, !negated, bag);
    case And(parts) =>
      forall i | 0 <= i < |parts| ensures Eval(f64, InwardAll(parts, negated)[i], bag) == (Eval(f64, parts[i], bag) != negated) {
        NegationsMoveInward(f64, parts[i], negated, bag);
      }
      ListIsQuantified(f64, parts, InwardAll(parts, negated), negated, bag);
    case Or(parts) =>
      forall i | 0 <= i < |parts| ensures Eval(f64, InwardAll(parts, negated)[i], bag) == (Eval(f64, parts[i], bag) != negated) {
        NegationsMoveInward(f64, parts[i], negated, bag);
      }
      ListIsQuantified(f64, parts, InwardAll(parts, negated), negated, bag);
    case Cond(_) =>
    case Always =>
  }

  lemma ListIsQuantified(f64: ParseF64, parts: seq<Expression>, inward: seq<Expression>, negated: bool, bag: Bag)
    requires |inward| == |parts|
    requires forall i :: 0 <= i < |parts| ==> Eval(f64, inward[i], bag) == (Eval(f64, parts[i], bag) != negated)
    ensures Eval(f64, if negated then Or(inward) else And(inward), bag) == (Eval(f64, And(parts), bag) != negated)
    ensures Eval(f64, if negated then And(inward) else Or(inward), bag) == (Eval(f64, Or(parts), bag) != negated)
  {
  }

  /** A list of conditions: `&` needs all of them and `|` one, an empty `&` holding and an empty `|` not. */
  lemma ListsExactly(f64: ParseF64, xs: seq<Expression>, x: Expression, bag: Bag)
    ensures Eval(f64, And([]), bag) && !Eval(f64, Or([]), bag) && Eval(f64, Always, bag)
    ensures Eval(f64, And(xs + [x]), bag) <==> Eval(f64, And(xs), bag) && Eval(f64, x, bag)
    ensures Eval(f64, Or(xs + [x]), bag) <==> Eval(f64, Or(xs), bag) || Eval(f64, x, bag)
  {
    var all := xs + [x];
    assert all[|xs|] == x && forall i :: 0 <= i < |xs| ==> all[i] == xs[i];
    assert Eval(f64, And(all), bag) == forall i :: 0 <= i < |all| ==> Eval(f64, all[i], bag);
    assert Eval(f64, Or(all), bag) == exists i :: 0 <= i < |all| && Eval(f64, all[i], bag);
  }
}
