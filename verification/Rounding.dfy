/** Rounding to one, two or three decimals, ties to even, over exact rationals. */
module Rounding {

  function HalfEven(x: real): int {
    var f := x.Floor;
    var d := x - f as real;
    if d < 0.5 || (d == 0.5 && f % 2 == 0) then f else f + 1
  }

  lemma HalfEvenFixes(n: int)
    ensures HalfEven(n as real) == n
  {
  }

  predicate Places(k: nat) { 1 <= k <= 3 }

  function RoundTo(x: real, k: nat): real
    requires Places(k)
  {
    match k
    case 1 => HalfEven(x * 10.0) as real / 10.0
    case 2 => HalfEven(x * 100.0) as real / 100.0
    case _ => HalfEven(x * 1000.0) as real / 1000.0
  }

  lemma HalfEvenMonotone(x: real, y: real)
    requires x <= y
    ensures HalfEven(x) <= HalfEven(y)
  {
    assert x.Floor <= y.Floor;
  }

  /** Rounding keeps order. */
  lemma RoundToMonotone(x: real, y: real, k: nat)
    requires Places(k) && x <= y
    ensures RoundTo(x, k) <= RoundTo(y, k)
  {
    match k
    case 1 => HalfEvenMonotone(x * 10.0, y * 10.0);
    case 2 => HalfEvenMonotone(x * 100.0, y * 100.0);
    case _ => HalfEvenMonotone(x * 1000.0, y * 1000.0);
  }

  /** Whether a number rounds to at least m, told without rounding it. */
  predicate ReachesRounded(x: real, m: int) {
    x > m as real - 0.5 || (x == m as real - 0.5 && m % 2 == 0)
  }

  lemma HalfEvenAtLeastIff(x: real, m: int)
    ensures HalfEven(x) >= m <==> ReachesRounded(x, m)
  {
    var n := x.Floor;
    assert n as real <= x < (n + 1) as real;
    if n == m - 1 {
      assert m as real == n as real + 1.0;
      assert m % 2 == 0 <==> n % 2 != 0;
    } else if n < m {
      assert (n + 1) as real <= (m - 1) as real == m as real - 1.0;
    } else {
      assert m as real <= n as real;
    }
  }

  lemma RoundToAtLeastIff(x: real, y: real)
    ensures RoundTo(x, 2) >= RoundTo(y, 2) <==> ReachesRounded(x * 100.0, HalfEven(y * 100.0))
  {
    HalfEvenAtLeastIff(x * 100.0, HalfEven(y * 100.0));
  }

  lemma HalfEvenNear(x: real)
    ensures -0.5 <= HalfEven(x) as real - x <= 0.5
  {
  }

  /** Rounding to k decimals gives a number with k decimals, at most half a unit of the last away. */
  lemma RoundToNearest(x: real, k: nat)
    requires Places(k)
    ensures var unit := if k == 1 then 10.0 else if k == 2 then 100.0 else 1000.0;
      && RoundTo(x, k) * unit == HalfEven(x * unit) as real
      && -0.5 <= RoundTo(x, k) * unit - x * unit <= 0.5
  {
    var unit := if k == 1 then 10.0 else if k == 2 then 100.0 else 1000.0;
    HalfEvenNear(x * unit);
  }

  lemma RoundToUnit(x: real, k: nat)
    requires Places(k) && 0.0 <= x <= 1.0
    ensures 0.0 <= RoundTo(x, k) <= 1.0
  {
    RoundToMonotone(0.0, x, k);
    RoundToMonotone(x, 1.0, k);
    assert HalfEven(0.0) == 0 && HalfEven(10.0) == 10 && HalfEven(100.0) == 100 && HalfEven(1000.0) == 1000;
  }
}
