/**
 * `Math.round(processed / total * 100)` in integer arithmetic: the progress value both
 * pipelines report.
 */
module Percent {

  /** Rounds 100·p/t to the nearest integer, halves upwards, as `Math.round` does. */
  function Progress(p: nat, t: nat): (r: nat)
    requires 0 < t && p <= t
    ensures r <= 100
    ensures t * (2 * r - 1) <= 200 * p < t * (2 * r + 1)
  {
    var r := (200 * p + t) / (2 * t);
    NearestHalfUp(p, t, r);
    r
  }

  lemma MulMono(x: int, y: int, c: int)
    requires x <= y && 0 <= c
    ensures c * x <= c * y
  {
    assert c * y - c * x == c * (y - x);
  }

  lemma NearestHalfUp(p: nat, t: nat, r: nat)
    requires 0 < t && p <= t && r == (200 * p + t) / (2 * t)
    ensures r <= 100
    ensures t * (2 * r - 1) <= 200 * p < t * (2 * r + 1)
  {
    var x, d := 200 * p + t, 2 * t;
    assert d * r + x % d == x;
    assert d * r <= x < d * r + d;
    assert t * (2 * r - 1) == d * r - t;
    assert t * (2 * r + 1) == d * r + t;
    if r > 100 {
      MulMono(101, r, d);
      assert false;
    }
  }

  /** More work done never shows less progress. */
  lemma ProgressMonotone(p: nat, q: nat, t: nat)
    requires 0 < t && p <= q <= t
    ensures Progress(p, t) <= Progress(q, t)
  {
    var a, b := Progress(p, t), Progress(q, t);
    if a > b {
      MulMono(2 * b + 1, 2 * a - 1, t);
      assert false;
    }
  }

  /** Progress shows 100 exactly when at most half a percent of the work is missing. */
  lemma ProgressFull(p: nat, t: nat)
    requires 0 < t && p <= t
    ensures Progress(p, t) == 100 <==> 200 * p >= 199 * t
  {
    var r := Progress(p, t);
    if 200 * p >= 199 * t && r < 100 {
      MulMono(2 * r + 1, 199, t);
      assert false;
    }
  }

  /** All work done shows 100; none done shows 0. */
  lemma ProgressEnds(t: nat)
    requires 0 < t
    ensures Progress(t, t) == 100 && Progress(0, t) == 0
  {
    ProgressFull(t, t);
    var r := Progress(0, t);
    if r > 0 {
      MulMono(1, 2 * r - 1, t);
      assert false;
    }
  }
}
