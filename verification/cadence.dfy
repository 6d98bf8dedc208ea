/**
 Cadence arithmetic of the interpolator: the bucket a timestamp falls in, the
 number of frames to synthesise between two timestamps, and the spacing of
 their timestamps. All timestamps here are non-negative, so the unsigned
 division of a timestamp by the step agrees with integer division.
 */
module Cadence {

  /**
   The cadence bucket of a timestamp: `floor(pts / step)`, the number of the
   step-long interval the timestamp falls in.
   */
  function Bucket(pts: int, step: int): (b: int)
    requires 0 <= pts && 0 < step
    ensures 0 <= b && b * step <= pts < b * step + step
  {
    pts / step
  }

  /**
   How many frames go between timestamps `pa <= pb`: none when both lie in one
   bucket, otherwise one fewer than the number of buckets advanced.
   */
  function Count(step: int, pa: int, pb: int): (n: nat)
    requires 0 < step && 0 <= pa <= pb
    ensures n + 1 <= Bucket(pb, step) - Bucket(pa, step) || n == 0
    ensures pa == pb ==> n == 0
  {
    DivMonotone(pa, pb, step);
    var begin := Bucket(pa, step);
    var end := Bucket(pb, step);
    if begin == end then 0 else end - begin - 1
  }

  /**
   The timestamp increment between consecutive synthetic frames: the gap
   between the two timestamps split into `n + 1` equal whole parts, the
   remainder dropped.
   */
  function Spacing(pa: int, pb: int, n: nat): (s: int)
    requires pa <= pb
    ensures 0 <= s <= pb - pa
    ensures s * (n + 1) <= pb - pa < s * (n + 1) + (n + 1)
  {
    (pb - pa) / (n + 1)
  }

  // ---------------------------------------------------------------------
  // Arithmetic facts used below.

  lemma DivMonotone(x: int, y: int, d: int)
    requires 0 <= x <= y && 0 < d
    ensures x / d <= y / d
  {
    if x / d > y / d {
      MulMonotone(y / d + 1, x / d, d);
      assert false;
    }
  }

  lemma MulMonotone(a: int, b: int, c: int)
    requires a <= b && 0 <= c
    ensures a * c <= b * c
  {
  }

  /** `q * k <= d` for every multiplier `k` up to the divisor of `q = d / m`. */
  lemma QuotientTimes(d: int, m: int, k: int)
    requires 0 <= d && 0 < m && 0 <= k <= m
    ensures 0 <= (d / m) * k <= d
  {
    MulMonotone(k, m, d / m);
  }

  /**
   Scaling a share `(d / (n + 1)) * (i + 1)` for `i < n` never reaches `d`
   (unless `d` is 0): the blend and the timestamps stay strictly short of
   the later endpoint.
   */
  lemma ShareBelow(d: int, n: int, i: int)
    requires 0 <= d && 0 <= i < n
    ensures 0 <= (d / (n + 1)) * (i + 1) <= d
    ensures 0 < d ==> (d / (n + 1)) * (i + 1) < d
  {
    var q := d / (n + 1);
    QuotientTimes(d, n + 1, n + 1);
    MulMonotone(i + 1, n, q);
    assert q * n == q * (n + 1) - q;
  }

  /** A share of at least one tick per position lies strictly inside `(0, d)`. */
  lemma ShareInside(d: int, n: int, i: int, s: int)
    requires 0 < d && 0 <= i < n && s == d / (n + 1) && 1 <= s
    ensures 0 < s * (i + 1) < d
  {
    ShareBelow(d, n, i);
    MulMonotone(1, i + 1, s);
  }

  /** The share grows with the position `i` (it grows by exactly `q`). */
  lemma ShareStep(d: int, n: int, i: int)
    requires 0 <= d && 0 <= n && 0 <= i
    ensures (d / (n + 1)) * (i + 2) == (d / (n + 1)) * (i + 1) + d / (n + 1)
  {
  }

  /**
   When at least one frame is synthesised, the two timestamps are at least
   `n + 1` ticks apart, so the spacing is at least one tick.
   */
  lemma {:induction false} GapAtLeastCount(step: int, pa: int, pb: int)
    requires 0 < step && 0 <= pa <= pb
    requires Count(step, pa, pb) >= 1
    ensures pb - pa >= Count(step, pa, pb) + 1
    ensures Spacing(pa, pb, Count(step, pa, pb)) >= 1
  {
    var n := Count(step, pa, pb);
    var begin := pa / step;
    var end := pb / step;
    assert end == begin + n + 1;
    assert pa < begin * step + step;
    assert end * step <= pb;
    assert end * step == begin * step + n * step + step;
    MulMonotone(1, step, n);
    DivMonotone(n + 1, pb - pa, n + 1);
  }

  // ---------------------------------------------------------------------
  // An independent reading of Count: cadence boundaries crossed.

  /** Multiples of `step` in the interval `(pa, pb]`. */
  function Boundaries(step: int, pa: int, pb: int): set<int>
    requires 0 < step && 0 <= pa
  {
    set m: int | 0 <= m <= pb && pa < m * step <= pb
  }

  /** The integers in `(lo, hi]`. */
  function Range(lo: int, hi: int): (r: set<int>)
    requires lo <= hi
    ensures forall m :: m in r <==> lo < m <= hi
    decreases hi - lo
  {
    if lo == hi then {} else Range(lo, hi - 1) + {hi}
  }

  lemma {:induction false} RangeSize(lo: int, hi: int)
    requires lo <= hi
    ensures |Range(lo, hi)| == hi - lo
    decreases hi - lo
  {
    if lo < hi {
      var below := Range(lo, hi - 1);
      RangeSize(lo, hi - 1);
      assert hi !in below;
      assert |below + {hi}| == |below| + 1;
    }
  }

  /** `m * step <= x` exactly when `m <= x / step`. */
  lemma BelowIffQuotient(m: int, x: int, step: int)
    requires 0 <= x && 0 < step
    ensures m * step <= x <==> m <= x / step
  {
    if m <= x / step {
      MulMonotone(m, x / step, step);
    } else {
      MulMonotone(x / step + 1, m, step);
    }
  }

  lemma QuotientAtMost(x: int, d: int)
    requires 0 <= x && 0 < d
    ensures x / d <= x
  {
    MulMonotone(1, d, x / d);
  }

  /** A multiple `m * step` lies in `(pa, pb]` exactly when `m` is a bucket number in `(begin, end]`. */
  lemma BoundaryMember(step: int, pa: int, pb: int, m: int)
    requires 0 < step && 0 <= pa <= pb
    ensures m in Boundaries(step, pa, pb) <==> Bucket(pa, step) < m <= Bucket(pb, step)
  {
    BelowIffQuotient(m, pb, step);
    BelowIffQuotient(m, pa, step);
    QuotientAtMost(pb, step);
    if Bucket(pa, step) < m <= Bucket(pb, step) {
      assert 0 <= m <= pb;
    }
  }

  /** The boundaries in `(pa, pb]` are the bucket numbers in `(begin, end]`. */
  lemma {:induction false} BoundariesAreBuckets(step: int, pa: int, pb: int)
    requires 0 < step && 0 <= pa <= pb
    ensures |Boundaries(step, pa, pb)| == Bucket(pb, step) - Bucket(pa, step)
  {
    var begin := Bucket(pa, step);
    var end := Bucket(pb, step);
    DivMonotone(pa, pb, step);
    forall m
      ensures m in Boundaries(step, pa, pb) <==> m in Range(begin, end)
    {
      BoundaryMember(step, pa, pb, m);
    }
    assert Boundaries(step, pa, pb) == Range(begin, end);
    RangeSize(begin, end);
  }

  /**
   Count is one less than the number of cadence boundaries between the two
   timestamps, or zero when there is none.
   */
  lemma CountIsInteriorBoundaries(step: int, pa: int, pb: int)
    requires 0 < step && 0 <= pa <= pb
    ensures var c := |Boundaries(step, pa, pb)|;
            Count(step, pa, pb) == if c == 0 then 0 else c - 1
  {
    BoundariesAreBuckets(step, pa, pb);
  }

  // ---------------------------------------------------------------------
  // Counting over a run of timestamps.

  /**
   The frames synthesised between consecutive timestamps of `ps`, with the
   interpolator's early return for a backward pair.
   */
  function PairCount(step: int, ps: seq<int>): nat
    requires 0 < step && forall k :: 0 <= k < |ps| ==> 0 <= ps[k]
  {
    if |ps| < 2 then 0
    else (if ps[1] < ps[0] then 0 else Count(step, ps[0], ps[1])) + PairCount(step, ps[1..])
  }

  /** The number of consecutive pairs of `ps` whose buckets differ. */
  function Advances(step: int, ps: seq<int>): nat
    requires 0 < step && forall k :: 0 <= k < |ps| ==> 0 <= ps[k]
  {
    if |ps| < 2 then 0
    else (if Bucket(ps[0], step) != Bucket(ps[1], step) then 1 else 0) + Advances(step, ps[1..])
  }

  predicate Sorted(ps: seq<int>)
  {
    forall i, j :: 0 <= i < j < |ps| ==> ps[i] <= ps[j]
  }

  /**
   Telescoping: over non-decreasing timestamps the synthesised frames number
   the buckets advanced from first to last, less one per pair that advanced.
   */
  lemma {:induction false} Telescoping(step: int, ps: seq<int>)
    requires 0 < step && |ps| >= 1
    requires forall k :: 0 <= k < |ps| ==> 0 <= ps[k]
    requires Sorted(ps)
    ensures PairCount(step, ps) == Bucket(ps[|ps| - 1], step) - Bucket(ps[0], step) - Advances(step, ps)
  {
    if |ps| >= 2 {
      Telescoping(step, ps[1..]);
      DivMonotone(ps[0], ps[1], step);
    }
  }
}
