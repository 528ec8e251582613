/**
 * `Math.round` of a quotient, on exact rationals: the pages round
 * `part / whole * 100` and `total / count`, which are modelled here as the
 * exact fraction `num / den` rather than as a double.
 */
module JsMath {

  /** `Math.round(num / den)`: the nearest integer, halves rounded up. */
  function RoundRatio(num: int, den: int): (r: int)
    requires den > 0
    ensures 2 * den * r <= 2 * num + den < 2 * den * (r + 1)
  {
    var q := (2 * num + den) / (2 * den);
    DivBounds(2 * num + den, 2 * den);
    q
  }

  lemma DivBounds(a: int, d: int)
    requires d > 0
    ensures d * (a / d) <= a < d * (a / d + 1)
  {
    assert a == d * (a / d) + a % d;
  }

  /** Rounding keeps order: a larger fraction over the same denominator never rounds lower. */
  lemma RoundMonotone(n1: int, n2: int, den: int)
    requires den > 0 && n1 <= n2
    ensures RoundRatio(n1, den) <= RoundRatio(n2, den)
  {
    var r1, r2 := RoundRatio(n1, den), RoundRatio(n2, den);
    if r1 > r2 {
      assert 2 * den * (r2 + 1) <= 2 * den * r1 by {
        MulLeftMonotone(2 * den, r2 + 1, r1);
      }
    }
  }

  lemma MulLeftMonotone(k: int, x: int, y: int)
    requires k >= 0 && x <= y
    ensures k * x <= k * y
  {
  }

  /** An integer fraction rounds to itself. */
  lemma RoundWhole(n: int, den: int)
    requires den > 0
    ensures RoundRatio(n * den, den) == n
  {
    var r := RoundRatio(n * den, den);
    assert 2 * den * r <= 2 * den * n + den < 2 * den * (r + 1);
    if r > n {
      MulLeftMonotone(2 * den, n + 1, r);
    } else if r < n {
      MulLeftMonotone(2 * den, r + 1, n);
    }
  }

  /**
   * A percentage `Math.round(part / whole * 100)` of a part no larger than
   * the whole lies in 0..100; nothing gives 0 and everything gives 100.
   */
  lemma RoundedPercentInRange(part: int, whole: int)
    requires 0 <= part <= whole && whole > 0
    ensures 0 <= RoundRatio(100 * part, whole) <= 100
    ensures part == 0 ==> RoundRatio(100 * part, whole) == 0
    ensures part == whole ==> RoundRatio(100 * part, whole) == 100
  {
    RoundWhole(0, whole);
    RoundWhole(100, whole);
    MulLeftMonotone(100, part, whole);
    RoundMonotone(0, 100 * part, whole);
    RoundMonotone(100 * part, 100 * whole, whole);
    assert 100 * whole == 100 * whole;
  }
}
