/**
 The cadence interpolator: given two decoded frames `a` and `b` and a fixed
 step, it builds the synthetic frames that fill the cadence buckets strictly
 between them, each a clone of `a` with a shifted timestamp and with the
 first `linesize` bytes of every shared plane blended from `a` towards `b`,
 and it adds their number to a running total.
 */
module Interpolate {
  import opened Frames
  import opened Cadence

  /** The running total is an unsigned 64-bit counter. */
  const U64Modulus: int := 0x1_0000_0000_0000_0000

  /** `x += d` on an unsigned 64-bit field: addition modulo 2^64. */
  function AddU64(x: int, d: nat): (r: int)
    requires 0 <= x < U64Modulus
    ensures 0 <= r < U64Modulus
    ensures x + d < U64Modulus ==> r == x + d
  {
    (x + d) % U64Modulus
  }

  /** Two wrapping additions make one. */
  lemma AddU64Twice(x: int, d: nat, e: nat)
    requires 0 <= x < U64Modulus
    ensures AddU64(AddU64(x, d), e) == AddU64(x, d + e)
  {
    var m := U64Modulus;
    var q := (x + d) / m;
    assert x + d == q * m + AddU64(x, d);
    assert x + d + e == q * m + (AddU64(x, d) + e);
    ModShift(AddU64(x, d) + e, q, m);
  }

  lemma ModShift(v: int, q: int, m: int)
    requires 0 < m && 0 <= v && 0 <= q
    ensures (q * m + v) % m == v % m
  {
    var r := v % m;
    var p := v / m;
    assert v == p * m + r;
    assert q * m + v == (q + p) * m + r;
    ModUnique(q * m + v, q + p, m, r);
  }

  /** The remainder is the only `r` in `[0, m)` that differs from `x` by a multiple of `m`. */
  lemma ModUnique(x: int, k: int, m: int, r: int)
    requires 0 < m && 0 <= r < m && x == k * m + r
    ensures x % m == r
  {
    var d := x / m - k;
    assert d * m == r - x % m;
    if d > 0 {
      MulMonotone(1, d, m);
    } else if d < 0 {
      MulMonotone(d, -1, m);
    }
  }

  /** The interpolator's two fields: the fixed step and the running total. */
  datatype Interpolator = Interpolator(step: int, total: int)

  /**
   A usable interpolator: the step is a positive 64-bit value and the total
   fits its 64-bit field (its initial value is whatever the field held).
   */
  predicate Valid(it: Interpolator)
  {
    0 < it.step < U64Modulus && 0 <= it.total < U64Modulus
  }

  /**
   Which per-sample rule to apply when the first sample exceeds the second.
   `Mirrored` is the rule as the program writes it: both branches start at
   the lower of the two samples. `Directed` starts at the earlier frame's
   sample and moves towards the later one, as a linear blend in time does.
   */
  datatype BlendRule = Mirrored | Directed

  function Min(x: int, y: int): int { if x <= y then x else y }
  function Max(x: int, y: int): int { if x <= y then y else x }
  function Dist(x: int, y: int): int { if x <= y then y - x else x - y }

  /**
   The per-sample arithmetic of synthetic frame `i` of `n`, carried out in
   the 64-bit type the operands are promoted to (before conversion back to
   a byte). Truncating and Euclidean division agree: every operand is
   non-negative.
   */
  function Widened(rule: BlendRule, x: Byte, y: Byte, i: int, n: int): (v: int)
    requires 0 <= i < n
    ensures Min(x, y) <= v <= Max(x, y)
    ensures x == y ==> v == x
  {
    if x == y then x
    else if x < y then
      ShareBelow(y - x, n, i);
      x + (y - x) / (n + 1) * (i + 1)
    else
      ShareBelow(x - y, n, i);
      match rule
      case Mirrored => y + (x - y) / (n + 1) * (i + 1)
      case Directed => x - (x - y) / (n + 1) * (i + 1)
  }

  /**
   The blended sample: the widened value converted back to an unsigned byte
   (reduction modulo 256). The conversion never wraps, so the blended sample
   is the exact widened value and lies between the two inputs.
   */
  function Blend(rule: BlendRule, x: Byte, y: Byte, i: int, n: int): (r: Byte)
    requires 0 <= i < n
    ensures r == Widened(rule, x, y, i, n)
    ensures Min(x, y) <= r <= Max(x, y)
    ensures x == y ==> r == x
  {
    Widened(rule, x, y, i, n) % 256
  }

  /**
   Blends `len` leading samples of `pb` into a copy of `pa`; the remaining
   samples of the copy are left as they were.
   */
  function BlendLine(rule: BlendRule, pa: seq<Byte>, pb: seq<Byte>, len: int, i: int, n: int): (out: seq<Byte>)
    requires 0 <= len <= |pa| && len <= |pb| && 0 <= i < n
    ensures |out| == |pa|
    ensures forall k :: 0 <= k < len ==> out[k] == Blend(rule, pa[k], pb[k], i, n)
    ensures forall k :: len <= k < |pa| ==> out[k] == pa[k]
  {
    seq(len, k requires 0 <= k < len => Blend(rule, pa[k], pb[k], i, n)) + pa[len..]
  }

  /**
   Plane `j` of synthetic frame `i`: skipped (left as in the clone of `a`)
   when either frame lacks it, otherwise blended over `b`'s linesize.
   */
  function BlendPlane(rule: BlendRule, a: Frame, b: Frame, j: int, i: int, n: int): (r: Plane)
    requires Blendable(a, b) && 0 <= j < NumPlanes && 0 <= i < n
    ensures a.data[j].Absent? || b.data[j].Absent? ==> r == a.data[j]
    ensures a.data[j].Present? && b.data[j].Present? ==>
              && r.Present? && |r.bytes| == |a.data[j].bytes|
              && (forall k :: 0 <= k < b.linesize[j] ==>
                    r.bytes[k] == Blend(rule, a.data[j].bytes[k], b.data[j].bytes[k], i, n))
              && (forall k :: b.linesize[j] <= k < |a.data[j].bytes| ==> r.bytes[k] == a.data[j].bytes[k])
  {
    if a.data[j].Absent? || b.data[j].Absent? then a.data[j]
    else Present(BlendLine(rule, a.data[j].bytes, b.data[j].bytes, b.linesize[j], i, n))
  }

  /** Synthetic frame `i` of `n`: a clone of `a`, timestamp shifted, planes blended. */
  function Synthesize(rule: BlendRule, a: Frame, b: Frame, n: int, spacing: int, i: int): (f: Frame)
    requires Blendable(a, b) && 0 <= i < n
    ensures WellFormed(f)
    ensures f.pts - a.pts == spacing * (i + 1)
    ensures f.(pts := a.pts, data := a.data) == a
  {
    a.(pts := a.pts + spacing * (i + 1),
       data := seq(NumPlanes, j requires 0 <= j < NumPlanes => BlendPlane(rule, a, b, j, i, n)))
  }

  /**
   Frame `f` is the `i`-th of `n` blends of `a` towards `b`: it carries `a`'s
   metadata and plane layout; planes missing from `a` or `b` are `a`'s;
   in every other plane the first `b.linesize[j]` samples are blended and
   the rest are `a`'s.
   */
  ghost predicate BlendedFrom(rule: BlendRule, f: Frame, a: Frame, b: Frame, i: int, n: int)
    requires Blendable(a, b) && 0 <= i < n
  {
    && WellFormed(f)
    && f.linesize == a.linesize
    && f.width == a.width && f.height == a.height && f.format == a.format
    && (forall j :: 0 <= j < NumPlanes && (a.data[j].Absent? || b.data[j].Absent?) ==>
          f.data[j] == a.data[j])
    && (forall j :: 0 <= j < NumPlanes && a.data[j].Present? && b.data[j].Present? ==>
          && f.data[j].Present?
          && |f.data[j].bytes| == |a.data[j].bytes|
          && (forall k :: 0 <= k < b.linesize[j] ==>
                f.data[j].bytes[k] == Blend(rule, a.data[j].bytes[k], b.data[j].bytes[k], i, n))
          && (forall k :: b.linesize[j] <= k < |a.data[j].bytes| ==>
                f.data[j].bytes[k] == a.data[j].bytes[k]))
  }

  lemma SynthesizeBlends(rule: BlendRule, a: Frame, b: Frame, n: int, spacing: int, i: int)
    requires Blendable(a, b) && 0 <= i < n
    ensures BlendedFrom(rule, Synthesize(rule, a, b, n, spacing, i), a, b, i, n)
  {
  }

  /**
   Synthetic frames `from` to `n - 1` of a forward pair, spaced `spacing`
   ticks apart, built one at a time as the interpolation loop does.
   */
  function FillFrom(rule: BlendRule, a: Frame, b: Frame, n: nat, spacing: int, from: nat): (fs: seq<Frame>)
    requires Blendable(a, b) && from <= n
    ensures |fs| == n - from
    ensures forall k :: 0 <= k < |fs| ==> fs[k] == Synthesize(rule, a, b, n, spacing, from + k)
    decreases n - from
  {
    if from == n then []
    else [Synthesize(rule, a, b, n, spacing, from)] + FillFrom(rule, a, b, n, spacing, from + 1)
  }

  /** The `n` synthetic frames of a forward pair, spaced `spacing` ticks apart. */
  function Fill(rule: BlendRule, a: Frame, b: Frame, n: nat, spacing: int): (fs: seq<Frame>)
    requires Blendable(a, b)
    ensures |fs| == n
    ensures forall i :: 0 <= i < n ==> fs[i] == Synthesize(rule, a, b, n, spacing, i)
  {
    FillFrom(rule, a, b, n, spacing, 0)
  }

  /** Synthetic frame `i` lies strictly between the two timestamps. */
  lemma SyntheticPtsBetween(step: int, pa: int, pb: int, i: int)
    requires 0 < step && 0 <= pa <= pb && 0 <= i < Count(step, pa, pb)
    ensures var n := Count(step, pa, pb);
            pa < pa + Spacing(pa, pb, n) * (i + 1) < pb
  {
    var n := Count(step, pa, pb);
    var s := Spacing(pa, pb, n);
    GapAtLeastCount(step, pa, pb);
    ShareInside(pb - pa, n, i, s);
  }

  lemma FillFacts(rule: BlendRule, step: int, a: Frame, b: Frame)
    requires 0 < step && Blendable(a, b) && PtsOk(a.pts) && PtsOk(b.pts) && a.pts <= b.pts
    ensures var n := Count(step, a.pts, b.pts);
            var fs := Fill(rule, a, b, n, Spacing(a.pts, b.pts, n));
            && (forall i :: 0 <= i < n ==> a.pts < fs[i].pts < b.pts)
            && (forall i :: 0 <= i < n - 1 ==> fs[i + 1].pts - fs[i].pts == fs[0].pts - a.pts)
            && (forall i :: 0 <= i < n ==> BlendedFrom(rule, fs[i], a, b, i, n))
  {
    var n: int := Count(step, a.pts, b.pts);
    var spacing := Spacing(a.pts, b.pts, n);
    var fs := Fill(rule, a, b, n, spacing);
    forall i | 0 <= i < n
      ensures a.pts < fs[i].pts < b.pts
    {
      SyntheticPtsBetween(step, a.pts, b.pts, i);
    }
    forall i | 0 <= i < n
      ensures BlendedFrom(rule, fs[i], a, b, i, n)
    {
      SynthesizeBlends(rule, a, b, n, spacing, i);
    }
    forall i | 0 <= i < n - 1
      ensures fs[i + 1].pts - fs[i].pts == spacing
    {
      ShareStep(b.pts - a.pts, n, i);
    }
  }

  /**
   The frames synthesised between `a` and `b`: none when `b` is earlier than
   `a`, otherwise one per cadence bucket strictly between theirs.
   InterpolatedFramesShape states what each of them holds.
   */
  function InterpolatedFrames(rule: BlendRule, step: int, a: Frame, b: Frame): (fs: seq<Frame>)
    requires 0 < step && Blendable(a, b) && PtsOk(a.pts) && PtsOk(b.pts)
    ensures b.pts < a.pts ==> fs == []
    ensures a.pts <= b.pts ==> |fs| == Count(step, a.pts, b.pts)
    ensures a.pts == b.pts ==> fs == []
  {
    if b.pts < a.pts then []
    else
      var n := Count(step, a.pts, b.pts);
      Fill(rule, a, b, n, Spacing(a.pts, b.pts, n))
  }

  /**
   The synthetic frames have evenly spaced timestamps strictly between
   `a.pts` and `b.pts`, the first `(b.pts - a.pts) / (n + 1)` after `a.pts`,
   and each is the matching blend of `a` towards `b`.
   */
  lemma InterpolatedFramesShape(rule: BlendRule, step: int, a: Frame, b: Frame)
    requires 0 < step && Blendable(a, b) && PtsOk(a.pts) && PtsOk(b.pts)
    ensures var fs := InterpolatedFrames(rule, step, a, b);
            && (|fs| > 0 ==> fs[0].pts - a.pts == (b.pts - a.pts) / (|fs| + 1))
            && (forall i :: 0 <= i < |fs| ==> a.pts < fs[i].pts < b.pts)
            && (forall i :: 0 <= i < |fs| - 1 ==> fs[i + 1].pts - fs[i].pts == fs[0].pts - a.pts)
            && (forall i :: 0 <= i < |fs| ==> BlendedFrom(rule, fs[i], a, b, i, |fs|))
  {
    if a.pts <= b.pts {
      FillFacts(rule, step, a, b);
    }
  }

  /** What `linear` hands back: the synthetic frames and the updated interpolator. */
  datatype Output = Output(frames: seq<Frame>, interp: Interpolator)

  /**
   One call of the interpolator. A backward pair returns nothing and leaves
   the total alone; otherwise the total grows by the number of frames
   returned, modulo 2^64. The step never changes.
   */
  function Linear(rule: BlendRule, it: Interpolator, a: Frame, b: Frame): (r: Output)
    requires Valid(it) && Blendable(a, b) && PtsOk(a.pts) && PtsOk(b.pts)
    ensures Valid(r.interp) && r.interp.step == it.step
    ensures b.pts < a.pts ==> r.frames == [] && r.interp == it
    ensures r.interp.total == AddU64(it.total, |r.frames|)
    ensures r.frames == InterpolatedFrames(rule, it.step, a, b)
  {
    if b.pts < a.pts then Output([], it)
    else
      var fs := InterpolatedFrames(rule, it.step, a, b);
      Output(fs, it.(total := AddU64(it.total, |fs|)))
  }
}

/**
 Properties of the interpolator that relate several calls or several
 synthetic frames, and the worked example of a 24 to 60 frames per second
 conversion.
 */
module InterpolateFacts {
  import opened Frames
  import opened Cadence
  import opened Interpolate

  /** Blending a frame against identical pixels changes no sample. */
  lemma BlendedFromSelf(rule: BlendRule, f: Frame, a: Frame, b: Frame, i: int, n: int)
    requires Blendable(a, b) && 0 <= i < n && b.data == a.data
    requires BlendedFrom(rule, f, a, b, i, n)
    ensures f.data == a.data
  {
    forall j | 0 <= j < NumPlanes
      ensures f.data[j] == a.data[j]
    {
      if a.data[j].Present? {
        var fb := f.data[j].bytes;
        var ab := a.data[j].bytes;
        forall k | 0 <= k < |ab|
          ensures fb[k] == ab[k]
        {
          if k < b.linesize[j] {
            assert fb[k] == Blend(rule, ab[k], ab[k], i, n);
          }
        }
        assert fb == ab;
      }
    }
  }

  /**
   Interpolating a frame against a later frame with the same pixels yields
   frames whose pixels all equal the source's.
   */
  lemma SelfBlendKeepsPixels(rule: BlendRule, step: int, a: Frame, b: Frame)
    requires 0 < step && Blendable(a, b) && PtsOk(a.pts) && PtsOk(b.pts)
    requires b.data == a.data
    ensures forall f <- InterpolatedFrames(rule, step, a, b) :: f.data == a.data
  {
    var fs := InterpolatedFrames(rule, step, a, b);
    InterpolatedFramesShape(rule, step, a, b);
    forall i | 0 <= i < |fs|
      ensures fs[i].data == a.data
    {
      BlendedFromSelf(rule, fs[i], a, b, i, |fs|);
    }
  }

  /**
   Worked example: at 90000 ticks per second a 24 fps source advances 3750
   ticks per frame and a 60 fps cadence is 1500 ticks. Between timestamps 0
   and 3750 exactly one frame is synthesised, at 1875, and a sample going
   from 100 to 200 becomes 150 there.
   */
  lemma WorkedExample(rule: BlendRule, a: Frame, b: Frame)
    requires Blendable(a, b) && a.pts == 0 && b.pts == 3750
    requires a.data[0].Present? && b.data[0].Present? && b.linesize[0] > 0
    requires a.data[0].bytes[0] == 100 && b.data[0].bytes[0] == 200
    ensures var fs := InterpolatedFrames(rule, 1500, a, b);
            && |fs| == 1
            && fs[0].pts == 1875
            && fs[0].data[0].bytes[0] == 150
  {
    var fs := InterpolatedFrames(rule, 1500, a, b);
    InterpolatedFramesShape(rule, 1500, a, b);
    assert Bucket(0, 1500) == 0 && Bucket(3750, 1500) == 2;
    assert BlendedFrom(rule, fs[0], a, b, 0, 1);
  }

  /**
   The blend as written runs backwards for a falling sample: once the gap
   allows a non-zero share, the first synthetic frame is further from the
   earlier frame's sample than the second one is.
   */
  lemma MirroredBlendRunsBackward(x: Byte, y: Byte, n: int)
    requires y < x && 2 <= n && n + 1 <= x - y
    ensures Dist(Blend(Mirrored, x, y, 0, n), x) > Dist(Blend(Mirrored, x, y, 1, n), x)
  {
    DivMonotone(n + 1, x - y, n + 1);
  }

  /** A concrete instance: from 200 down to 100 over three synthetic frames. */
  lemma MirroredCounterexample()
    ensures Blend(Mirrored, 200, 100, 0, 3) == 125
    ensures Blend(Mirrored, 200, 100, 1, 3) == 150
    ensures Blend(Mirrored, 200, 100, 2, 3) == 175
    ensures Blend(Directed, 200, 100, 0, 3) == 175
    ensures Blend(Directed, 200, 100, 2, 3) == 125
  {
  }

  /**
   The corrected blend moves away from the earlier frame's sample and
   towards the later frame's one as the frame index grows.
   */
  lemma DirectedBlendMovesTowardB(x: Byte, y: Byte, i: int, n: int)
    requires 0 <= i && i + 1 < n
    ensures Dist(Blend(Directed, x, y, i, n), x) <= Dist(Blend(Directed, x, y, i + 1, n), x)
    ensures Dist(Blend(Directed, x, y, i, n), y) >= Dist(Blend(Directed, x, y, i + 1, n), y)
  {
    DirectedIncrement(x, y, i, n);
  }

  /** One more step of the corrected rule moves a further share from `x` towards `y`. */
  lemma DirectedIncrement(x: Byte, y: Byte, i: int, n: int)
    requires 0 <= i && i + 1 < n
    ensures var q := Dist(x, y) / (n + 1);
            && q >= 0
            && (x <= y ==> Widened(Directed, x, y, i + 1, n) == Widened(Directed, x, y, i, n) + q)
            && (y < x ==> Widened(Directed, x, y, i + 1, n) == Widened(Directed, x, y, i, n) - q)
  {
    ShareStep(Dist(x, y), n, i);
  }

  /** For a rising sample both rules agree. */
  lemma RulesAgreeWhenRising(x: Byte, y: Byte, i: int, n: int)
    requires 0 <= i < n && x <= y
    ensures Blend(Mirrored, x, y, i, n) == Blend(Directed, x, y, i, n)
  {
  }
}
