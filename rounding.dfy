/**
  The progress percentage of the prime worker, `Math.round((i / max) * 100)`,
  in exact rational arithmetic. `Math.round(x)` is the integer nearest to x,
  with halves rounded up, i.e. the r with r - 1/2 <= x < r + 1/2.
*/
module Rounding {

  /** Math.round(i / max * 100) for a positive max, without floating-point error. */
  function PercentComplete(i: int, max: int): (r: int)
    requires max > 0
    ensures 2 * max * r - max <= 200 * i < 2 * max * r + max
  {
    (200 * i + max) / (2 * max)
  }

  /** For 0 <= i <= max the percentage lies in [0, 100]. */
  lemma PercentInRange(i: int, max: int)
    requires 0 <= i <= max && max > 0
    ensures 0 <= PercentComplete(i, max) <= 100
  {
    var r := PercentComplete(i, max);
    assert 2 * max * r == 2 * (max * r);
    ScaleBelow(max, 100, r);
    ScaleBelow(max, r, 0);
  }

  /** The percentage never decreases as i grows. */
  lemma PercentMonotone(i: int, j: int, max: int)
    requires i <= j && max > 0
    ensures PercentComplete(i, max) <= PercentComplete(j, max)
  {
    var ri, rj := PercentComplete(i, max), PercentComplete(j, max);
    assert 2 * max * ri == 2 * (max * ri) && 2 * max * rj == 2 * (max * rj);
    ScaleBelow(max, rj, ri);
  }

  /** Scaling integers a < b by a positive m puts at least m between them. */
  lemma ScaleBelow(m: int, a: int, b: int)
    requires m > 0
    ensures a < b ==> m * a + m <= m * b
  {
    assert m * b - m * a == m * (b - a);
    assert b - a >= 1 ==> m * (b - a) >= m * 1;
  }
}
