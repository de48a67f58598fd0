/**
 * The `i64 as f64` conversion behind the numeric-comparison detour: roundTiesToEven
 * (section 4.3.1 of IEEE 754-2019) on whole numbers.
 */
module Rounding {

  const SIGNIFICAND: nat := 0x20_0000_0000_0000  // 2^53

  function Pow2(e: nat): (p: nat)
    ensures p >= 1
  {
    if e == 0 then 1 else 2 * Pow2(e - 1)
  }

  /** A whole number binary64 can hold: 53 significant bits and a power of two. */
  ghost predicate IsDouble(d: int) {
    exists s: nat, e: nat :: IsScaled(d, s, e)
  }

  predicate IsScaled(d: int, s: nat, e: nat) {
    s < SIGNIFICAND && Abs(d) == s * Pow2(e)
  }

  function Abs(x: int): nat { if x < 0 then -x else x }

  /** The exponent of the grid `m` is rounded on: the least one whose 53-bit multiples reach `m`. */
  function Exponent(m: nat, from: nat): (e: nat)
    ensures e >= from
    ensures m < SIGNIFICAND * Pow2(e)
    ensures e > from ==> m >= SIGNIFICAND / 2 * Pow2(e)
    decreases m - SIGNIFICAND * Pow2(from)
  {
    if m < SIGNIFICAND * Pow2(from) then from else Exponent(m, from + 1)
  }

  /** The multiple of `u` nearest to `m`, the even one of two equally near. */
  function RoundTo(m: nat, u: nat): nat
    requires u > 0
  {
    var q, r := m / u, m % u;
    if 2 * r < u || (2 * r == u && q % 2 == 0) then q * u else (q + 1) * u
  }

  function NearestNat(m: nat): nat {
    RoundTo(m, Pow2(Exponent(m, 0)))
  }

  /** `n as f64`. */
  function Nearest(n: int): int {
    if n < 0 then -(NearestNat(-n) as int) else NearestNat(n)
  }

  /** No multiple of `u` is nearer to `m` than the one chosen. */
  lemma RoundToNearest(m: nat, u: nat, k: nat)
    requires u > 0
    ensures Abs(RoundTo(m, u) - m) <= Abs(k * u - m)
  {
    var q, r := m / u, m % u;
    var below, above, other := q * u, (q + 1) * u, k * u;
    assert m == below + r && above == below + u;
    if k <= q {
      MultiplyMonotone(k, q, u);
    } else {
      MultiplyMonotone(q + 1, k, u);
    }
    assert RoundTo(m, u) == if 2 * r < u || (2 * r == u && q % 2 == 0) then below else above;
  }

  lemma {:induction false} Pow2Multiple(low: nat, high: nat) returns (k: nat)
    requires low <= high
    ensures Pow2(high) == k * Pow2(low)
    ensures low < high ==> Pow2(high) >= 2 * Pow2(low)
    decreases high
  {
    if low == high {
      k := 1;
    } else {
      var k' := Pow2Multiple(low, high - 1);
      k := 2 * k';
      assert 2 * (k' * Pow2(low)) == k * Pow2(low);
    }
  }

  lemma Associate(a: nat, b: nat, c: nat)
    ensures a * (b * c) == (a * b) * c
  {
  }

  lemma MultiplyMonotone(a: nat, b: nat, c: nat)
    requires a <= b
    ensures a * c <= b * c
  {
  }

  /** The chosen value is a double. */
  lemma NearestIsDouble(m: nat)
    ensures IsDouble(NearestNat(m))
  {
    var e := Exponent(m, 0);
    var u := Pow2(e);
    var q := m / u;
    GridBound(m, u);
    if NearestNat(m) == q * u {
      assert IsScaled(NearestNat(m), q, e);
    } else if q + 1 < SIGNIFICAND {
      assert IsScaled(NearestNat(m), q + 1, e);
    } else {
      Associate(SIGNIFICAND / 2, 2, u);
      assert Pow2(e + 1) == 2 * u;
      assert IsScaled(NearestNat(m), SIGNIFICAND / 2, e + 1);
    }
  }

  lemma GridBound(m: nat, u: nat)
    requires u > 0 && m < SIGNIFICAND * u
    ensures m / u < SIGNIFICAND
  {
    CancelLess(m / u, SIGNIFICAND, u);
  }

  lemma CancelLess(a: nat, b: nat, c: nat)
    requires a * c < b * c
    ensures a < b
  {
  }

  /** A double on a finer grid than `m`'s lies below every number of `m`'s binade. */
  lemma FinerIsBelow(s: nat, fine: nat, u: nat)
    requires s < SIGNIFICAND && 2 * fine <= u
    ensures s * fine <= SIGNIFICAND / 2 * u
  {
    MultiplyMonotone(s, SIGNIFICAND, fine);
    Associate(SIGNIFICAND / 2, 2, fine);
    MultiplyMonotone(2 * fine, u, SIGNIFICAND / 2);
  }

  /** No double is nearer. */
  lemma NearestIsNearest(m: nat, d: nat, s: nat, f: nat)
    requires IsScaled(d, s, f)
    ensures Abs(NearestNat(m) - m) <= Abs(d - m)
  {
    var e := Exponent(m, 0);
    var u := Pow2(e);
    if f >= e {
      var k := Pow2Multiple(e, f);
      Associate(s, k, u);
      RoundToNearest(m, u, s * k);
    } else {
      var k := Pow2Multiple(f, e);
      FinerIsBelow(s, Pow2(f), u);
      RoundToNearest(m, u, SIGNIFICAND / 2);
    }
  }

  /** The conversion gives the double nearest to `n`. */
  lemma NearestSigned(n: int, d: int)
    requires IsDouble(d)
    ensures IsDouble(Nearest(n))
    ensures Abs(Nearest(n) - n) <= Abs(d - n)
  {
    var s, f :| IsScaled(d, s, f);
    NearestIsNearest(Abs(n), Abs(d), s, f);
    NearestIsDouble(Abs(n));
    var s', f' :| IsScaled(NearestNat(Abs(n)), s', f');
    assert IsScaled(Nearest(n), s', f');
  }

  lemma NearerKeepsOrder(a: int, b: int, x: int, y: int)
    requires a < b && Abs(x - a) <= Abs(y - a) && Abs(y - b) <= Abs(x - b)
    ensures x <= y
  {
  }

  /** Rounding is monotone: it never reverses two integers. */
  lemma NearestMonotone(a: int, b: int)
    requires a <= b
    ensures Nearest(a) <= Nearest(b)
  {
    if a < b {
      assert IsScaled(0, 0, 0);
      NearestSigned(a, 0);
      NearestSigned(b, 0);
      var x, y := Nearest(a), Nearest(b);
      NearestSigned(a, y);
      NearestSigned(b, x);
      NearerKeepsOrder(a, b, x, y);
    }
  }

  predicate IsMultiple(m: int, u: nat, k: int) {
    m == k * u
  }

  /** Of two doubles equally near, the one chosen is an even multiple of the grid step. */
  lemma TiesGoToEven(n: int)
    ensures var u := Pow2(Exponent(Abs(n), 0));
            2 * (Abs(n) % u) == u ==> exists k :: IsMultiple(Nearest(n), 2 * u, k)
  {
    var m := Abs(n);
    var u := Pow2(Exponent(m, 0));
    if 2 * (m % u) == u {
      var k: int := EvenMultiple(m, u);
      assert IsMultiple(Nearest(n), 2 * u, if n < 0 then -k else k);
    }
  }

  lemma EvenMultiple(m: nat, u: nat) returns (k: nat)
    requires u == Pow2(Exponent(m, 0)) && 2 * (m % u) == u
    ensures NearestNat(m) == k * (2 * u)
  {
    var q := m / u;
    k := if q % 2 == 0 then q / 2 else (q + 1) / 2;
    Associate(k, 2, u);
  }

  /** Up to 2^53 the conversion is exact. */
  lemma NearestExact(n: int)
    requires Abs(n) <= SIGNIFICAND
    ensures Nearest(n) == n
  {
    var m := Abs(n);
    if m < SIGNIFICAND {
      assert Exponent(m, 0) == 0 && Pow2(0) == 1;
      assert m / 1 == m && m % 1 == 0;
    } else {
      assert Exponent(m, 0) == 1 && Pow2(1) == 2;
    }
  }

  datatype OrderOp = Gt | GtEq | Lt | LtEq

  function Exact(op: OrderOp, a: int, b: int): bool {
    match op
    case Gt => a > b
    case GtEq => a >= b
    case Lt => a < b
    case LtEq => a <= b
  }

  /** The comparison after both integers went through `f64`. */
  function Detour(op: OrderOp, a: int, b: int): bool {
    Exact(op, Nearest(a), Nearest(b))
  }

  /** The detour is faithful for a pair exactly when rounding keeps the two integers apart. */
  lemma DetourAgreesExactly(a: int, b: int)
    ensures (forall op :: Detour(op, a, b) == Exact(op, a, b)) <==> (Nearest(a) == Nearest(b) ==> a == b)
  {
    assert Detour(GtEq, a, b) == (Nearest(a) >= Nearest(b));
    assert Detour(LtEq, a, b) == (Nearest(a) <= Nearest(b));
    assert Exact(GtEq, a, b) == (a >= b) && Exact(LtEq, a, b) == (a <= b);
    if a <= b { NearestMonotone(a, b); } else { NearestMonotone(b, a); }
  }

  /** Both magnitudes at most 2^53: the two comparisons agree on all four operators. */
  lemma DetourExactSmall(op: OrderOp, a: int, b: int)
    requires Abs(a) <= SIGNIFICAND && Abs(b) <= SIGNIFICAND
    ensures Detour(op, a, b) == Exact(op, a, b)
  {
    NearestExact(a);
    NearestExact(b);
  }

  /** A strict order the detour reports is always a true one. */
  lemma DetourStrictIsTrue(op: OrderOp, a: int, b: int)
    requires op.Gt? || op.Lt?
    requires Detour(op, a, b)
    ensures Exact(op, a, b)
  {
    if a <= b { NearestMonotone(a, b); }
    if b <= a { NearestMonotone(b, a); }
  }

  /** Just above 2^53 two integers collapse, and the detour misses their order. */
  lemma DetourCollapses()
    ensures Exact(Gt, SIGNIFICAND + 1, SIGNIFICAND) && !Detour(Gt, SIGNIFICAND + 1, SIGNIFICAND)
  {
    NearestExact(SIGNIFICAND);
    assert Exponent(SIGNIFICAND + 1, 0) == 1 && Pow2(1) == 2;
  }

  predicate AgreeUpTo(op: OrderOp, a: int, b: int, n: nat) {
    Abs(a) <= n && Abs(b) <= n ==> Detour(op, a, b) == Exact(op, a, b)
  }

  /** The largest bound under which the two comparisons always agree is 2^53. */
  lemma DetourBoundExactly(n: nat)
    ensures (forall op, a, b :: AgreeUpTo(op, a, b, n)) <==> n <= SIGNIFICAND
  {
    if n <= SIGNIFICAND {
      forall op, a, b ensures AgreeUpTo(op, a, b, n) {
        if Abs(a) <= n && Abs(b) <= n {
          DetourExactSmall(op, a, b);
        }
      }
    } else {
      DetourCollapses();
      assert !AgreeUpTo(Gt, SIGNIFICAND + 1, SIGNIFICAND, n);
    }
  }
}
