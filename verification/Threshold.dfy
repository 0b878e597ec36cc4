/** The voting power threshold: a decimal division, then float64, then float32, then a comparison with 66. */
module Threshold {
  import opened Rounding

  const TOTAL_POWER: nat := 4294967295
  const DECIMALS: nat := 1_0000_0000_0000_0000
  /** The decimals of a percentage: the share shifted by two places. */
  const UNIT: nat := 100_0000_0000_0000

  /** The power from which on the verdict is positive. */
  const ACCEPTED_FROM: nat := 2834678251
  /** The power from which on 100 * power >= 66 * TOTAL_POWER. */
  const EXACT_FROM: nat := 2834678415

  /** power / TOTAL_POWER in units of 10^-16, halves rounded up. */
  function Share(power: nat): nat {
    var q, r := power * DECIMALS / TOTAL_POWER, power * DECIMALS % TOTAL_POWER;
    if 2 * r < TOTAL_POWER then q else q + 1
  }

  /** The percentage as the program computes it. */
  function PowerToPercent(power: nat): (percent: Rat)
    ensures percent.den > 0
  {
    Round(24, Round(53, Rat(Share(power), UNIT)))
  }

  predicate Insufficient(power: nat) {
    PowerToPercent(power).num < 66 * PowerToPercent(power).den
  }

  // ----- rounding past a representable number

  lemma RoundsNotBelow(p: nat, x: real, y: real, c: real)
    requires Nearest(p, x, y) && Representable(p, c)
    ensures x >= c ==> y >= c
    ensures x <= c ==> y <= c
  {
    assert Distance(x, y) <= Distance(x, c);
  }

  lemma FiveMore(k: nat)
    ensures Pow2(k + 5) == 32 * Pow2(k)
  {
    assert Pow2(k + 5) == 4 * Pow2(k + 3) && Pow2(k + 3) == 4 * Pow2(k + 1);
  }

  lemma Powers()
    ensures Pow2(17) == 131072 && Pow2(28) == 268435456 && Pow2(29) == 536870912
    ensures Pow2(24) == 16777216 && Pow2(53) == 9007199254740992
  {
    assert Pow2(2) == 4;
    FiveMore(2);
    FiveMore(7);
    FiveMore(12);
    FiveMore(17);
    FiveMore(22);
    FiveMore(27);
    FiveMore(32);
    FiveMore(37);
    FiveMore(42);
    FiveMore(47);
    assert Pow2(24) == 4 * Pow2(22) && Pow2(28) == 2 * Pow2(27) && Pow2(29) == 2 * Pow2(28) && Pow2(53) == 2 * Pow2(52);
  }

  /** A multiple of a negative power of two is a fraction. */
  lemma MultipleIs(m: nat, f: nat, y: real)
    requires y * Pow2(f) as real == m as real
    ensures Multiple(m, 0 - f) == y
  {
    Exp2OfPow2(f);
    Assoc(m as real, Exp2(0 - f), Pow2(f) as real);
    Cancel(y, Multiple(m, 0 - f), Pow2(f) as real);
    Cancel(Multiple(m, 0 - f), y, Pow2(f) as real);
  }

  lemma IsRepresentable(p: nat, m: nat, f: nat, y: real)
    requires m < Pow2(p) && y * Pow2(f) as real == m as real
    ensures Representable(p, y)
  {
    MultipleIs(m, f, y);
    assert Spells(p, y, m, 0 - f);
  }

  lemma WholeMultiple(z: real, k: nat)
    requires z == Multiple(k, -17)
    ensures z * 131072.0 == k as real
  {
    Powers();
    Exp2OfPow2(17);
    Assoc(k as real, Exp2(-17), 131072.0);
  }

  /** A number below 66 that is a whole number of steps of 2^-17 is at least one step below it. */
  lemma StepBelow66(z: real, k: nat)
    requires z * 131072.0 == k as real && z < 66.0
    ensures z <= 66.0 - 1.0 / 131072.0
  {
    assert k < 66 * 131072;
  }

  /** Numbers with 24 bits and finer steps are all far below 66. */
  lemma FineBelow64(m: nat, e: int)
    requires m < Pow2(24) && e < -17
    ensures Multiple(m, e) <= 64.0
  {
    Powers();
    SmallSignificand(24, m, e, -17);
    WholeMultiple(Multiple(Pow2(23), -17), Pow2(23));
    assert Pow2(24) == 2 * Pow2(23);
  }

  /** Below 66 the numbers with 24 bits stop at 66 - 2^-17. */
  lemma GapBelow66(z: real)
    requires Representable(24, z) && z < 66.0
    ensures z <= 66.0 - 1.0 / 131072.0
  {
    var m: nat, e: int :| Spells(24, z, m, e);
    if e >= -17 {
      CoarseMultiple(m, e, -17);
      WholeMultiple(z, m * Pow2(e + 17));
      StepBelow66(z, m * Pow2(e + 17));
    } else {
      FineBelow64(m, e);
    }
  }

  /** A float64 above 66 - 2^-18 becomes 66 or more as float32, one below it less than 66. */
  lemma NarrowAround66(y: real, g: real)
    requires Nearest(24, y, g)
    ensures y > 66.0 - 1.0 / 262144.0 ==> g >= 66.0
    ensures y < 66.0 - 1.0 / 262144.0 ==> g < 66.0
  {
    Powers();
    IsRepresentable(24, 8650752, 17, 66.0);
    IsRepresentable(24, 8650751, 17, 66.0 - 1.0 / 131072.0);
    assert Distance(y, g) <= Distance(y, 66.0);
    assert Distance(y, g) <= Distance(y, 66.0 - 1.0 / 131072.0);
    if g < 66.0 {
      GapBelow66(g);
    }
  }

  // ----- the verdict

  lemma ShareBounds(power: nat)
    ensures power >= ACCEPTED_FROM ==> Share(power) * 536870912 >= 35433478145 * UNIT
    ensures power < ACCEPTED_FROM ==> Share(power) * 268435456 <= 17716739071 * UNIT
  {
  }

  lemma FractionBounds(share: nat, x: real)
    requires x * UNIT as real == share as real
    ensures share * 536870912 >= 35433478145 * UNIT ==> x >= 35433478145.0 / 536870912.0
    ensures share * 268435456 <= 17716739071 * UNIT ==> x <= 17716739071.0 / 268435456.0
  {
  }

  /** The float64 percentage stays clear of 66 - 2^-18, on the side of the decimal one. */
  lemma WideClearOf66(share: nat, x: real, y: real)
    requires x * UNIT as real == share as real && Nearest(53, x, y)
    ensures share * 536870912 >= 35433478145 * UNIT ==> y >= 35433478145.0 / 536870912.0
    ensures share * 268435456 <= 17716739071 * UNIT ==> y <= 17716739071.0 / 268435456.0
  {
    FractionBounds(share, x);
    Powers();
    IsRepresentable(53, 35433478145, 29, 35433478145.0 / 536870912.0);
    IsRepresentable(53, 17716739071, 28, 17716739071.0 / 268435456.0);
    RoundsNotBelow(53, x, y, 35433478145.0 / 536870912.0);
    RoundsNotBelow(53, x, y, 17716739071.0 / 268435456.0);
  }

  /** Whatever correctly rounded floats the percentage goes through. */
  lemma FloatsAround66(share: nat, x: real, y: real, z: real)
    requires x * UNIT as real == share as real && Nearest(53, x, y) && Nearest(24, y, z)
    ensures share * 536870912 >= 35433478145 * UNIT ==> z >= 66.0
    ensures share * 268435456 <= 17716739071 * UNIT ==> z < 66.0
  {
    WideClearOf66(share, x, y);
    NarrowAround66(y, z);
  }

  lemma PercentSide(d: Rat, f: Rat, g: Rat, x: real, y: real, y': real, z: real)
    requires d.den == UNIT && IsReal(d, x) && IsReal(f, y) && IsReal(f, y') && IsReal(g, z)
    requires Nearest(53, x, y) && Nearest(24, y', z)
    ensures d.num * 536870912 >= 35433478145 * UNIT ==> g.num >= 66 * g.den
    ensures d.num * 268435456 <= 17716739071 * UNIT ==> g.num < 66 * g.den
  {
    SameReal(f, y, y');
    FloatsAround66(d.num, x, y, z);
    Below66(g, z);
  }

  /** The verdict is exactly a comparison with one number. */
  lemma InsufficientExactly(power: nat)
    ensures Insufficient(power) <==> power < ACCEPTED_FROM
  {
    var d := Rat(Share(power), UNIT);
    var f := Round(53, d);
    ShareBounds(power);
    var x, y := RoundReals(53, d);
    var y', z := RoundReals(24, f);
    PercentSide(d, f, Round(24, f), x, y, y', z);
  }

  lemma LessByProduct(x: real, c: real, d: real, xd: real, cd: real)
    requires d > 0.0 && xd == x * d && cd == c * d
    ensures xd < cd <==> x < c
  {
    Cancel(x, c, d);
    Cancel(c, x, d);
  }

  lemma Below66(g: Rat, x: real)
    requires g.den > 0 && x * g.den as real == g.num as real
    ensures g.num < 66 * g.den <==> x < 66.0
  {
    LessByProduct(x, 66.0, g.den as real, g.num as real, (66 * g.den) as real);
  }

  /**
   The verdict agrees with the exact test of 66 percent except for 164 powers just below it, which
   are accepted; it never refuses what the exact test accepts, and more power never hurts.
   */
  lemma VerdictWindow(power: nat)
    ensures 100 * power >= 66 * TOTAL_POWER <==> power >= EXACT_FROM
    ensures 100 * power >= 66 * TOTAL_POWER ==> !Insufficient(power)
    ensures !Insufficient(power) && 100 * power < 66 * TOTAL_POWER <==> ACCEPTED_FROM <= power < ACCEPTED_FROM + 164
    ensures forall more: nat :: power <= more && !Insufficient(power) ==> !Insufficient(more)
  {
    InsufficientExactly(power);
    forall more: nat | power <= more && !Insufficient(power) ensures !Insufficient(more) {
      InsufficientExactly(more);
    }
  }
}
