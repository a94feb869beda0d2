/**
Rounding to two decimal places, midpoints away from zero.

Every amount in this project is a whole number of ten-thousandths of a point: coefficients carry
four decimals and everything they multiply is a whole number, so no amount is ever finer.  A
hundredth of a point, the unit of everything shown, is HUNDREDTH of them.
*/
module Rounding {
  import opened Sums

  const HUNDREDTH: int := 100

  function Abs(v: int): int { if v < 0 then -v else v }

  function Round2(v: int): int {
    if v >= 0 then (v + HUNDREDTH / 2) / HUNDREDTH * HUNDREDTH
    else -((-v + HUNDREDTH / 2) / HUNDREDTH * HUNDREDTH)
  }

  predicate IsHundredths(v: int) { v % HUNDREDTH == 0 }

  lemma NearestWhenPositive(v: int, k: int)
    requires v >= 0
    ensures var r, other := Round2(v), k * HUNDREDTH;
      && IsHundredths(r) && Abs(v - r) <= Abs(v - other)
      && (Abs(v - r) == Abs(v - other) && other != r ==> Abs(other) < Abs(r))
  {
    var q := (v + HUNDREDTH / 2) / HUNDREDTH;
    assert 100 * q <= v + 50 < 100 * q + 100;
    assert Round2(v) == q * 100;
    hide Round2;
    assert k < q ==> k * 100 <= q * 100 - 100;
    assert k > q ==> k * 100 >= q * 100 + 100;
  }

  /** The result is the nearest number of hundredths, and of two equally near, the one away from zero. */
  lemma RoundsToTheNearest(v: int, other: int)
    requires IsHundredths(other)
    ensures IsHundredths(Round2(v))
    ensures Abs(v - Round2(v)) <= Abs(v - other)
    ensures Abs(v - Round2(v)) == Abs(v - other) && other != Round2(v) ==> Abs(other) < Abs(Round2(v))
  {
    var k := other / HUNDREDTH;
    assert other == k * HUNDREDTH;
    RoundingIsOdd(-v);
    hide Round2;
    if v >= 0 {
      NearestWhenPositive(v, k);
    } else {
      NearestWhenPositive(-v, -k);
    }
  }

  lemma RoundingIsOdd(v: int)
    ensures Round2(-v) == -Round2(v)
  {
  }

  lemma RoundingErrs(v: int)
    ensures IsHundredths(Round2(v)) && Abs(v - Round2(v)) <= HUNDREDTH / 2
  {
    RoundsToTheNearest(v, 0);
  }

  /** A hundredth of a point is a hundred of the units points are counted in, a ten-thousandth each. */
  lemma HundredthsAreHundreds(v: int)
    ensures Round2(v) % 100 == 0 && -50 <= Round2(v) - v <= 50
    ensures IsHundredths(v) <==> v % 100 == 0
  {
    RoundingErrs(v);
  }

  /** What is already in hundredths is left alone: rounding twice is rounding once. */
  lemma RoundingKeepsHundredths(v: int)
    requires IsHundredths(v)
    ensures Round2(v) == v
  {
    RoundsToTheNearest(v, v);
  }

  lemma HundredthsAdd(a: int, b: int)
    requires IsHundredths(a) && IsHundredths(b)
    ensures IsHundredths(a + b) && Round2(a + b) == a + b
  {
    RoundingKeepsHundredths(a + b);
  }

  /** Adding up whole hundredths gives whole hundredths, which rounding leaves alone. */
  lemma {:induction false} SumOfHundredths<T(!new)>(s: seq<T>, f: T -> int)
    requires forall x :: x in s ==> IsHundredths(f(x))
    ensures IsHundredths(Sum(s, f)) && Round2(Sum(s, f)) == Sum(s, f)
  {
    if s != [] {
      SumOfHundredths(s[..|s| - 1], f);
    }
    RoundingKeepsHundredths(Sum(s, f));
  }
}
