/**
 Binary floating point with a significand of `p` bits: what "correctly rounded" means, and a
 rounding that is. Exponents are unbounded, so overflow and subnormal numbers are not modelled.
 */
module Rounding {

  function Pow2(k: nat): (r: nat)
    ensures r > 0
  {
    if k == 0 then 1 else 2 * Pow2(k - 1)
  }

  ghost function Exp2(e: int): (r: real)
    ensures r > 0.0
    decreases if e < 0 then -e else e
  {
    if e == 0 then 1.0 else if e > 0 then 2.0 * Exp2(e - 1) else Exp2(e + 1) / 2.0
  }

  lemma {:induction false} Exp2Step(e: int)
    ensures Exp2(e + 1) == 2.0 * Exp2(e)
  {
  }

  /** `k` times two to the `e`. */
  ghost function Multiple(k: int, e: int): real {
    k as real * Exp2(e)
  }

  /** `y` is `m` times two to the `e`, with `p` bits for `m`. */
  ghost predicate Spells(p: nat, y: real, m: nat, e: int) {
    m < Pow2(p) && y == Multiple(m, e)
  }

  ghost predicate Representable(p: nat, y: real) {
    exists m: nat, e: int :: Spells(p, y, m, e)
  }

  function Distance(x: real, y: real): real {
    if x < y then y - x else x - y
  }

  /** `y` is a representable number next to `x`; which of two equally near ones is left open. */
  ghost predicate Nearest(p: nat, x: real, y: real) {
    Representable(p, y) && forall z :: Representable(p, z) ==> Distance(x, y) <= Distance(x, z)
  }

  /** A non-negative fraction. */
  datatype Rat = Rat(num: nat, den: nat)

  ghost function Real(r: Rat): (x: real)
    requires r.den > 0
    ensures x * r.den as real == r.num as real
  {
    r.num as real / r.den as real
  }

  /** The exponent e at which num is at least half of full * 2^e and below it. */
  function Exponent(num: nat, full: nat): int
    requires num > 0 && full > 0
    decreases num >= full, if num >= full then num - full else full - num
  {
    if num >= full then Exponent(num, 2 * full) + 1
    else if 2 * num < full then Exponent(2 * num, full) - 1
    else 0
  }

  /** The nearest integer to num / den, the even one of two. */
  function NearestInt(num: nat, den: nat): nat
    requires den > 0
  {
    var q, r := num / den, num % den;
    if 2 * r < den || (2 * r == den && q % 2 == 0) then q else q + 1
  }

  /** Rounds to `p` bits, ties to even. */
  function Round(p: nat, x: Rat): (y: Rat)
    requires x.den > 0
    ensures y.den > 0
  {
    if x.num == 0 then Rat(0, 1)
    else
      var e := Exponent(x.num, Pow2(p) * x.den);
      if e >= 0 then Rat(NearestInt(x.num, x.den * Pow2(e)) * Pow2(e), 1)
      else Rat(NearestInt(x.num * Pow2(-e), x.den), Pow2(-e))
  }

  // ----- small facts of real arithmetic

  lemma Assoc(a: real, b: real, c: real)
    ensures (a * b) * c == a * (b * c)
  {
  }

  lemma Cancel(a: real, b: real, c: real)
    requires c > 0.0
    ensures a * c <= b * c ==> a <= b
    ensures a * c < b * c ==> a < b
  {
    assert (b - a) * c == b * c - a * c;
  }

  lemma Grow(a: real, b: real, c: real)
    requires c > 0.0 && a <= b
    ensures a * c <= b * c
  {
    assert (b - a) * c >= 0.0;
  }

  lemma IntProduct(a: int, b: int)
    ensures (a * b) as real == a as real * b as real
  {
  }

  lemma RealUnique(r: Rat, x: real)
    requires r.den > 0 && x * r.den as real == r.num as real
    ensures x == Real(r)
  {
    Cancel(x, Real(r), r.den as real);
    Cancel(Real(r), x, r.den as real);
  }

  // ----- Round is correctly rounded

  lemma {:induction false} Exp2OfPow2(k: nat)
    ensures Exp2(k) == Pow2(k) as real && Exp2(0 - k) * Pow2(k) as real == 1.0
  {
    if k > 0 {
      Exp2OfPow2(k - 1);
      Exp2Step(0 - k);
      Assoc(Exp2(0 - k), 2.0, Pow2(k - 1) as real);
    }
  }

  /** A difference of exponents is a whole factor. */
  lemma {:induction false} Exp2Factor(e: int, k: nat)
    ensures Exp2(e + k) == Pow2(k) as real * Exp2(e)
    decreases k
  {
    if k > 0 {
      Exp2Factor(e, k - 1);
      Exp2Step(e + (k - 1));
      assert e + (k - 1) + 1 == e + k;
      Assoc(2.0, Pow2(k - 1) as real, Exp2(e));
    }
  }

  /** `x` times two to the `e`, by doubling and halving. */
  ghost function Scaled(x: real, e: int): real
    decreases if e < 0 then -e else e
  {
    if e == 0 then x else if e > 0 then 2.0 * Scaled(x, e - 1) else Scaled(x, e + 1) / 2.0
  }

  lemma {:induction false} ScaledDoubles(x: real, e: int)
    ensures Scaled(x, e + 1) == 2.0 * Scaled(x, e) == Scaled(2.0 * x, e)
    decreases if e < 0 then -e else e
  {
    if e > 0 {
      ScaledDoubles(x, e - 1);
    } else if e < 0 {
      ScaledDoubles(x, e + 1);
    }
  }

  lemma {:induction false} ScaledIs(x: real, e: int)
    ensures Scaled(x, e) == x * Exp2(e)
    decreases if e < 0 then -e else e
  {
    if e > 0 {
      ScaledIs(x, e - 1);
      Exp2Step(e - 1);
      Assoc(x, 2.0, Exp2(e - 1));
      Assoc(2.0, x, Exp2(e - 1));
    } else if e < 0 {
      ScaledIs(x, e + 1);
      Exp2Step(e);
      Assoc(x, 2.0, Exp2(e));
      Assoc(2.0, x, Exp2(e));
    }
  }

  lemma {:induction false} ExponentFits(num: nat, full: nat)
    requires num > 0 && full > 0
    ensures num as real < Scaled(full as real, Exponent(num, full)) <= 2.0 * num as real
    decreases num >= full, if num >= full then num - full else full - num
  {
    if num >= full {
      ExponentFits(num, 2 * full);
      ScaledDoubles(full as real, Exponent(num, 2 * full));
    } else if 2 * num < full {
      ExponentFits(2 * num, full);
      ScaledDoubles(full as real, Exponent(2 * num, full) - 1);
    }
  }

  /** From num < full * u <= 2 num with full = top * den to the same for x = num / den. */
  lemma ScaleDown(x: real, den: real, num: real, full: real, top: real, u: real)
    requires den > 0.0 && x * den == num && full == top * den && num < full * u <= 2.0 * num
    ensures x < top * u <= 2.0 * x
  {
    Assoc(top, den, u);
    Assoc(top, u, den);
    Assoc(2.0, x, den);
    Cancel(x, top * u, den);
    Cancel(top * u, 2.0 * x, den);
  }

  lemma ScaleBounds(n: real, f: real, e: int, s: real)
    requires n < s <= 2.0 * n && s == Scaled(f, e)
    ensures n < f * Exp2(e) <= 2.0 * n
  {
    ScaledIs(f, e);
  }

  lemma SignificandAt(x: real, den: real, num: real, full: real, top: nat, e: int)
    requires den > 0.0 && x * den == num && full == top as real * den && num < Scaled(full, e) <= 2.0 * num
    ensures x < Multiple(top, e) <= 2.0 * x
  {
    ScaleBounds(num, full, e, Scaled(full, e));
    ScaleDown(x, den, num, full, top as real, Exp2(e));
  }

  /** At the exponent of a fraction its significand is at least half of 2^p and below 2^p. */
  lemma SignificandFits(x: Rat, top: nat, full: nat)
    requires x.num > 0 && x.den > 0 && top > 0 && full == top * x.den && full > 0
    ensures Real(x) < Multiple(top, Exponent(x.num, full)) <= 2.0 * Real(x)
  {
    ExponentFits(x.num, full);
    IntProduct(top, x.den);
    SignificandAt(Real(x), x.den as real, x.num as real, full as real, top, Exponent(x.num, full));
  }

  lemma NonNegative(a: int, b: int)
    requires a >= 0 && b >= 0
    ensures a * b >= 0
  {
  }

  function Gap(a: int, b: int): int {
    if a < b then b - a else a - b
  }

  ghost function Times(k: int, d: int): int {
    k * d
  }

  /** No multiple of `d` is nearer to `n` than the m-th. */
  ghost predicate BestInt(n: nat, d: nat, m: nat) {
    forall k :: Gap(n, Times(m, d)) <= Gap(n, Times(k, d))
  }

  lemma NearestIntIsBest(num: nat, den: nat)
    requires den > 0
    ensures BestInt(num, den, NearestInt(num, den))
  {
    var q, r := num / den, num % den;
    assert num == q * den + r;
    assert (q + 1) * den == q * den + den;
    forall k ensures Gap(num, Times(NearestInt(num, den), den)) <= Gap(num, Times(k, den)) {
      if k <= q {
        NonNegative(q - k, den);
        assert (q - k) * den == q * den - k * den;
      } else {
        NonNegative(k - q - 1, den);
        assert (k - q - 1) * den == k * den - q * den - den;
      }
    }
  }

  /** Distances of numbers given as fractions with the denominator c. */
  lemma FractionDistance(n: int, i: int, c: real, x: real, a: real)
    requires c > 0.0 && x * c == n as real && a * c == i as real
    ensures Distance(x, a) * c == Gap(n, i) as real
  {
    Cancel(x, a, c);
    Cancel(a, x, c);
  }

  lemma SmallerFraction(a: real, b: real, c: real, s: real, t: real)
    requires c > 0.0 && a * c == s && b * c == t && s <= t
    ensures a <= b
  {
    Cancel(a, b, c);
  }

  lemma NearerFraction(n: int, i: int, j: int, c: real, x: real, a: real, b: real)
    requires c > 0.0 && x * c == n as real && a * c == i as real && b * c == j as real && Gap(n, i) <= Gap(n, j)
    ensures Distance(x, a) <= Distance(x, b)
  {
    FractionDistance(n, i, c, x, a);
    FractionDistance(n, j, c, x, b);
    SmallerFraction(Distance(x, a), Distance(x, b), c, Gap(n, i) as real, Gap(n, j) as real);
  }

  lemma UnitValue(d: nat, c: real, u: real, k: int)
    requires u * c == d as real
    ensures (k as real * u) * c == Times(k, d) as real
  {
    Assoc(k as real, u, c);
    IntProduct(k, d);
  }

  /** `m` times the unit at exponent `e` is at least as near to `x` as every multiple of that unit. */
  ghost predicate BestMultiple(x: real, m: nat, e: int) {
    forall k :: NotFarther(x, Multiple(m, e), Multiple(k, e))
  }

  ghost predicate NotFarther(x: real, a: real, b: real) {
    Distance(x, a) <= Distance(x, b)
  }

  lemma BestAt(n: nat, d: nat, c: real, x: real, m: nat, k: int, a: real, b: real)
    requires c > 0.0 && x * c == n as real && BestInt(n, d, m)
    requires a * c == Times(m, d) as real && b * c == Times(k, d) as real
    ensures Distance(x, a) <= Distance(x, b)
  {
    NearerFraction(n, Times(m, d), Times(k, d), c, x, a, b);
  }

  lemma BestUnit(n: nat, d: nat, c: real, x: real, u: real, m: nat, k: int, a: real, b: real)
    requires c > 0.0 && x * c == n as real && u * c == d as real && BestInt(n, d, m)
    requires a == m as real * u && b == k as real * u
    ensures NotFarther(x, a, b)
  {
    UnitValue(d, c, u, m);
    UnitValue(d, c, u, k);
    BestAt(n, d, c, x, m, k, a, b);
  }

  lemma BestMultipleFrom(n: nat, d: nat, c: real, x: real, e: int, m: nat)
    requires c > 0.0 && x * c == n as real && Exp2(e) * c == d as real && BestInt(n, d, m)
    ensures BestMultiple(x, m, e)
  {
    var a := Multiple(m, e);
    forall k ensures NotFarther(x, a, Multiple(k, e)) {
      var b := Multiple(k, e);
      BestUnit(n, d, c, x, Exp2(e), m, k, a, b);
    }
  }

  lemma RoundCoarse(x: Rat, e: nat, w: nat, d: nat, m: nat)
    requires x.den > 0 && w == Pow2(e) && d == x.den * w && BestInt(x.num, d, m)
    ensures Real(Rat(m * w, 1)) == Multiple(m, e) && BestMultiple(Real(x), m, e)
  {
    Exp2OfPow2(e);
    IntProduct(m, w);
    IntProduct(x.den, w);
    RealUnique(Rat(m * w, 1), Multiple(m, e));
    BestMultipleFrom(x.num, d, x.den as real, Real(x), e, m);
  }

  lemma RoundFine(x: Rat, f: nat, w: nat, n: nat, m: nat)
    requires x.den > 0 && w == Pow2(f) && n == x.num * w && BestInt(n, x.den, m)
    ensures Real(Rat(m, w)) == Multiple(m, 0 - f) && BestMultiple(Real(x), m, 0 - f)
  {
    var e, u, v, den := 0 - f, Exp2(0 - f), w as real, x.den as real;
    Exp2OfPow2(f);
    Assoc(m as real, u, v);
    RealUnique(Rat(m, w), Multiple(m, e));
    Assoc(Real(x), den, v);
    IntProduct(x.num, w);
    Assoc(u, v, den);
    BestMultipleFrom(n, x.den, den * v, Real(x), e, m);
  }

  lemma CoarseMultiple(k: nat, f: int, e: int)
    requires f >= e
    ensures Multiple(k, f) == Multiple(k * Pow2(f - e), e)
  {
    Exp2Factor(e, f - e);
    assert e + (f - e) == f;
    Assoc(k as real, Pow2(f - e) as real, Exp2(e));
    IntProduct(k, Pow2(f - e));
  }

  lemma {:induction false} Exp2Grows(f: int, e: int)
    requires f <= e
    ensures Exp2(f) <= Exp2(e)
    decreases e - f
  {
    if f < e {
      Exp2Grows(f, e - 1);
      Exp2Step(e - 1);
    }
  }

  lemma Exp2Doubles(f: int, e: int)
    requires f < e
    ensures 2.0 * Exp2(f) <= Exp2(e)
  {
    Exp2Grows(f, e - 1);
    Exp2Step(e - 1);
  }

  lemma ProductBound(k: real, h: real, a: real, b: real)
    requires 0.0 <= k <= 2.0 * h && 0.0 < a && 2.0 * a <= b
    ensures k * a <= h * b
  {
    var ha, hb := h * a, h * b;
    assert k * a <= 2.0 * ha by {
      Grow(k, 2.0 * h, a);
      Assoc(2.0, h, a);
    }
    assert 2.0 * ha <= hb by {
      assert h * (b - 2.0 * a) >= 0.0;
    }
  }

  lemma SmallSignificand(p: nat, k: nat, f: int, e: int)
    requires p > 0 && k < Pow2(p) && f < e
    ensures Multiple(k, f) <= Multiple(Pow2(p - 1), e)
  {
    Exp2Doubles(f, e);
    var h := Pow2(p - 1);
    assert k as real <= 2.0 * h as real;
    ProductBound(k as real, h as real, Exp2(f), Exp2(e));
  }

  lemma HalfTop(p: nat, e: int)
    requires p > 0
    ensures Multiple(Pow2(p), e) == 2.0 * Multiple(Pow2(p - 1), e)
  {
    Assoc(2.0, Pow2(p - 1) as real, Exp2(e));
  }

  /** A multiple that is best at its exponent is nearest among all numbers with `p` bits. */
  lemma BestIsNearest(p: nat, x: real, m: nat, e: int, k: nat, f: int)
    requires p > 0 && BestMultiple(x, m, e) && Multiple(Pow2(p), e) <= 2.0 * x && k < Pow2(p)
    ensures Distance(x, Multiple(m, e)) <= Distance(x, Multiple(k, f))
  {
    if f >= e {
      CoarseMultiple(k, f, e);
    } else {
      HalfTop(p, e);
      SmallSignificand(p, k, f, e);
      assert Distance(x, Multiple(m, e)) <= Distance(x, Multiple(Pow2(p - 1), e));
    }
  }

  lemma MultipleGrows(j: int, k: int, e: int)
    requires j < k
    ensures Multiple(j, e) < Multiple(k, e)
  {
    var gap := (k - j) as real;
    assert gap * Exp2(e) > 0.0;
    assert Multiple(k, e) == Multiple(j, e) + gap * Exp2(e);
  }

  lemma SignificandBound(top: nat, x: real, m: nat, e: int)
    requires BestMultiple(x, m, e) && x < Multiple(top, e)
    ensures m <= top
  {
    assert Distance(x, Multiple(m, e)) <= Distance(x, Multiple(top, e));
    if m > top {
      MultipleGrows(top, m, e);
      assert false;
    }
  }

  lemma RoundIsRepresentable(p: nat, m: nat, e: int)
    requires p > 0 && m <= Pow2(p)
    ensures Representable(p, Multiple(m, e))
  {
    if m == Pow2(p) {
      HalfTop(p, e);
      Exp2Step(e);
      Assoc(Pow2(p - 1) as real, 2.0, Exp2(e));
      assert Spells(p, Multiple(m, e), Pow2(p - 1), e + 1);
    } else {
      assert Spells(p, Multiple(m, e), m, e);
    }
  }

  lemma BestRounds(p: nat, x: real, m: nat, e: int)
    requires p > 0 && BestMultiple(x, m, e) && x < Multiple(Pow2(p), e) <= 2.0 * x
    ensures Nearest(p, x, Multiple(m, e))
  {
    SignificandBound(Pow2(p), x, m, e);
    RoundIsRepresentable(p, m, e);
    forall z | Representable(p, z) ensures Distance(x, Multiple(m, e)) <= Distance(x, z) {
      var k: nat, f: int :| Spells(p, z, k, f);
      BestIsNearest(p, x, m, e, k, f);
    }
  }

  lemma ZeroIsNearest(p: nat)
    ensures Nearest(p, 0.0, 0.0)
  {
    assert Spells(p, 0.0, 0, 0);
  }

  /** Round gives a nearest representable number, for every precision and every fraction. */
  lemma RoundIsNearest(p: nat, x: Rat)
    requires p > 0 && x.den > 0
    ensures Nearest(p, Real(x), Real(Round(p, x)))
  {
    if x.num == 0 {
      RealUnique(x, 0.0);
      RealUnique(Rat(0, 1), 0.0);
      ZeroIsNearest(p);
    } else {
      var full := Pow2(p) * x.den;
      var e := Exponent(x.num, full);
      SignificandFits(x, Pow2(p), full);
      if e >= 0 {
        NearestIntIsBest(x.num, x.den * Pow2(e));
        var m := NearestInt(x.num, x.den * Pow2(e));
        RoundCoarse(x, e, Pow2(e), x.den * Pow2(e), m);
        BestRounds(p, Real(x), m, e);
      } else {
        NearestIntIsBest(x.num * Pow2(-e), x.den);
        var m := NearestInt(x.num * Pow2(-e), x.den);
        RoundFine(x, -e, Pow2(-e), x.num * Pow2(-e), m);
        BestRounds(p, Real(x), m, e);
      }
    }
  }

  lemma SameReal(r: Rat, a: real, b: real)
    requires r.den > 0 && a * r.den as real == r.num as real && b * r.den as real == r.num as real
    ensures a == b
  {
    Cancel(a, b, r.den as real);
    Cancel(b, a, r.den as real);
  }

  ghost predicate IsReal(r: Rat, x: real) {
    r.den > 0 && x * r.den as real == r.num as real
  }

  lemma RealIs(r: Rat)
    requires r.den > 0
    ensures IsReal(r, Real(r))
  {
  }

  lemma RoundReals(p: nat, x: Rat) returns (v: real, w: real)
    requires p > 0 && x.den > 0
    ensures IsReal(x, v) && IsReal(Round(p, x), w) && Nearest(p, v, w)
  {
    var y := Round(p, x);
    RoundIsNearest(p, x);
    RealIs(x);
    RealIs(y);
    return Real(x), Real(y);
  }
}
