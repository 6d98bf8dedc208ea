/**
 The order in which video frames reach the encoder, stated without the
 pipeline's machinery: every decoded video frame is preceded by the frames
 interpolated between it and the previous decoded frame (none for the
 first, whose predecessor slot holds no pixels).
 */
module Ordering {
  import opened Frames
  import opened Cadence
  import opened Interpolate
  import opened Seqs

  /** One frame handed to the video encoder, and whether the interpolator made it. */
  datatype Submission = Submission(frame: Frame, synthetic: bool)

  /** Synthetic frames, in order, as submissions. */
  function Marked(fs: seq<Frame>): (r: seq<Submission>)
    ensures |r| == |fs|
    ensures forall k :: 0 <= k < |fs| ==> r[k] == Submission(fs[k], true)
  {
    seq(|fs|, k requires 0 <= k < |fs| => Submission(fs[k], true))
  }

  lemma MarkedCons(fs: seq<Frame>)
    requires fs != []
    ensures Marked(fs) == [Submission(fs[0], true)] + Marked(fs[1..])
  {
  }

  /** The decoded (not synthesised) frames among some submissions, in order. */
  function Reals(subs: seq<Submission>): seq<Frame>
  {
    if subs == [] then []
    else (if subs[0].synthetic then [] else [subs[0].frame]) + Reals(subs[1..])
  }

  /** How many of some submissions the interpolator made. */
  function Synthetics(subs: seq<Submission>): nat
  {
    if subs == [] then 0
    else (if subs[0].synthetic then 1 else 0) + Synthetics(subs[1..])
  }

  lemma {:induction false} RealsAppend(x: seq<Submission>, y: seq<Submission>)
    ensures Reals(x + y) == Reals(x) + Reals(y)
    ensures Synthetics(x + y) == Synthetics(x) + Synthetics(y)
  {
    AppendSplit(x, y);
    if x != [] {
      RealsAppend(x[1..], y);
      AppendAssoc(if x[0].synthetic then [] else [x[0].frame], Reals(x[1..]), Reals(y));
    }
  }

  lemma {:induction false} MarkedAreSynthetic(fs: seq<Frame>)
    ensures Reals(Marked(fs)) == []
    ensures Synthetics(Marked(fs)) == |fs|
  {
    if fs != [] {
      assert Marked(fs)[1..] == Marked(fs[1..]);
      MarkedAreSynthetic(fs[1..]);
    }
  }

  /** Decoded frames, in order, as submissions. */
  function Plain(fs: seq<Frame>): (r: seq<Submission>)
    ensures |r| == |fs|
    ensures forall k :: 0 <= k < |fs| ==> r[k] == Submission(fs[k], false)
  {
    seq(|fs|, k requires 0 <= k < |fs| => Submission(fs[k], false))
  }

  /** Submitting one more decoded frame first puts it in front. */
  lemma PlainPrepend(f: Frame, fs: seq<Frame>)
    ensures Plain([f] + fs) == [Submission(f, false)] + Plain(fs)
  {
  }

  /** Decoded frames submitted as such are recovered exactly, and none is synthetic. */
  lemma {:induction false} PlainAreReal(fs: seq<Frame>)
    ensures Reals(Plain(fs)) == fs
    ensures Synthetics(Plain(fs)) == 0
  {
    if fs != [] {
      assert Plain(fs)[1..] == Plain(fs[1..]);
      PlainAreReal(fs[1..]);
      ConsSplit(fs);
    }
  }

  /** Submissions none of which is synthetic are exactly their decoded frames, as submitted. */
  lemma {:induction false} NoSyntheticsArePlain(subs: seq<Submission>)
    requires Synthetics(subs) == 0
    ensures subs == Plain(Reals(subs))
  {
    if subs != [] {
      NoSyntheticsArePlain(subs[1..]);
      PlainPrepend(subs[0].frame, Reals(subs[1..]));
      ConsSplit(subs);
    }
  }

  /** What interpolating `prev` to `cur` needs, when `prev` holds pixels. */
  predicate Pairable(prev: Frame, cur: Frame)
  {
    IsValid(prev) ==> Blendable(prev, cur) && PtsOk(prev.pts) && PtsOk(cur.pts)
  }

  /** Every consecutive pair of `prev` followed by `reals` can be interpolated. */
  predicate Chain(prev: Frame, reals: seq<Frame>)
    decreases |reals|
  {
    reals == [] || (Pairable(prev, reals[0]) && Chain(reals[0], reals[1..]))
  }

  /** The last of `reals`, or `p0` when there is none. */
  function LastOr(p0: Frame, reals: seq<Frame>): Frame
  {
    if reals == [] then p0 else reals[|reals| - 1]
  }

  /**
   What handling decoded video frame `cur` submits, given the previous frame
   slot: the interpolated frames (only when the slot holds pixels), then `cur`.
   */
  function Piece(rule: BlendRule, step: int, prev: Frame, cur: Frame): (r: seq<Submission>)
    requires 0 < step && Pairable(prev, cur)
    ensures Reals(r) == [cur]
    ensures !IsValid(prev) ==> r == [Submission(cur, false)]
    ensures Synthetics(r) == if IsValid(prev) then |InterpolatedFrames(rule, step, prev, cur)| else 0
  {
    var syn := if IsValid(prev) then Marked(InterpolatedFrames(rule, step, prev, cur)) else [];
    MarkedAreSynthetic(if IsValid(prev) then InterpolatedFrames(rule, step, prev, cur) else []);
    RealsAppend(syn, [Submission(cur, false)]);
    syn + [Submission(cur, false)]
  }

  /**
   The reference order of video submissions for decoded frames `reals`,
   starting from previous-frame slot `prev`. Its decoded frames are exactly
   `reals`, in order, and the first submission is `reals[0]` itself when the
   slot starts empty.
   */
  function Schedule(rule: BlendRule, step: int, prev: Frame, reals: seq<Frame>): (r: seq<Submission>)
    requires 0 < step && Chain(prev, reals)
    ensures Reals(r) == reals
    ensures reals != [] && !IsValid(prev) ==> r[0] == Submission(reals[0], false)
    decreases |reals|
  {
    if reals == [] then []
    else
      var head := Piece(rule, step, prev, reals[0]);
      var tail := Schedule(rule, step, reals[0], reals[1..]);
      RealsAppend(head, tail);
      head + tail
  }

  lemma {:induction false} ChainSnoc(p0: Frame, reals: seq<Frame>, f: Frame)
    ensures Chain(p0, reals + [f]) <==> Chain(p0, reals) && Pairable(LastOr(p0, reals), f)
    decreases |reals|
  {
    if reals != [] {
      SnocSplit(reals, f);
      ChainSnoc(reals[0], reals[1..], f);
    }
  }

  /** Frames that share a plane layout always chain. */
  lemma {:induction false} ConformingChain(p0: Frame, reals: seq<Frame>, layout: seq<int>)
    requires IsValid(p0) ==> Conforms(p0, layout)
    requires forall f <- reals :: Conforms(f, layout)
    ensures Chain(p0, reals)
    decreases |reals|
  {
    if reals != [] {
      if IsValid(p0) {
        ConformingFramesBlend(p0, reals[0], layout);
      }
      ConformingChain(reals[0], reals[1..], layout);
    }
  }

  /** Handling one more decoded frame extends the schedule by that frame's piece. */
  lemma {:induction false} ScheduleSnoc(rule: BlendRule, step: int, p0: Frame, reals: seq<Frame>, f: Frame)
    requires 0 < step && Chain(p0, reals + [f])
    ensures Chain(p0, reals) && Pairable(LastOr(p0, reals), f)
    ensures Schedule(rule, step, p0, reals + [f])
            == Schedule(rule, step, p0, reals) + Piece(rule, step, LastOr(p0, reals), f)
    decreases |reals|
  {
    ChainSnoc(p0, reals, f);
    if reals == [] {
      SnocSplit(reals, f);
      assert Schedule(rule, step, p0, [f]) == Piece(rule, step, p0, f) + [];
    } else {
      var t := reals[1..];
      SnocSplit(reals, f);
      ScheduleSnoc(rule, step, reals[0], t, f);
      AppendAssoc(Piece(rule, step, p0, reals[0]), Schedule(rule, step, reals[0], t),
                  Piece(rule, step, LastOr(p0, reals), f));
    }
  }

  function PtsOf(fs: seq<Frame>): (ps: seq<int>)
    ensures |ps| == |fs| && forall k :: 0 <= k < |fs| ==> ps[k] == fs[k].pts
  {
    seq(|fs|, k requires 0 <= k < |fs| => fs[k].pts)
  }

  lemma PtsOfCons(fs: seq<Frame>)
    requires fs != []
    ensures PtsOf(fs) == [fs[0].pts] + PtsOf(fs[1..])
  {
  }

  /**
   With a valid previous frame, the schedule's synthetic frames number the
   interpolator's per-pair counts over the timestamps.
   */
  lemma {:induction false} SyntheticsArePairCounts(rule: BlendRule, step: int, prev: Frame, reals: seq<Frame>)
    requires 0 < step && IsValid(prev) && PtsOk(prev.pts) && Chain(prev, reals)
    requires forall k :: 0 <= k < |reals| ==> IsValid(reals[k]) && 0 <= reals[k].pts <= Int64Max
    ensures Synthetics(Schedule(rule, step, prev, reals)) == PairCount(step, [prev.pts] + PtsOf(reals))
    decreases |reals|
  {
    var ps := [prev.pts] + PtsOf(reals);
    if reals != [] {
      var head := Piece(rule, step, prev, reals[0]);
      var tail := Schedule(rule, step, reals[0], reals[1..]);
      RealsAppend(head, tail);
      SyntheticsArePairCounts(rule, step, reals[0], reals[1..]);
      PtsOfCons(reals);
      assert ps[1..] == PtsOf(reals);
    }
  }

  /**
   From an empty slot, the number of synthetic frames scheduled for decoded
   frames with non-negative, non-decreasing timestamps is the number of
   buckets advanced from the first to the last, less one per consecutive
   pair that advanced at all.
   */
  lemma SyntheticsTelescope(rule: BlendRule, step: int, p0: Frame, reals: seq<Frame>)
    requires 0 < step && !IsValid(p0) && Chain(p0, reals) && reals != []
    requires forall k :: 0 <= k < |reals| ==> IsValid(reals[k]) && 0 <= reals[k].pts <= Int64Max
    requires Sorted(PtsOf(reals))
    ensures Synthetics(Schedule(rule, step, p0, reals))
            == Bucket(reals[|reals| - 1].pts, step) - Bucket(reals[0].pts, step) - Advances(step, PtsOf(reals))
  {
    var head := Piece(rule, step, p0, reals[0]);
    var tail := Schedule(rule, step, reals[0], reals[1..]);
    assert Synthetics(Schedule(rule, step, p0, reals)) == Synthetics(tail) by {
      RealsAppend(head, tail);
    }
    assert Synthetics(tail) == PairCount(step, PtsOf(reals)) by {
      assert forall k :: 0 <= k < |reals[1..]| ==> reals[1..][k] == reals[k + 1];
      SyntheticsArePairCounts(rule, step, reals[0], reals[1..]);
      PtsOfCons(reals);
    }
    Telescoping(step, PtsOf(reals));
  }

  /** A piece, submission by submission: the interpolated frames, marked, then `cur`. */
  lemma PieceParts(rule: BlendRule, step: int, prev: Frame, cur: Frame)
    requires 0 < step && Pairable(prev, cur)
    ensures var fs := if IsValid(prev) then InterpolatedFrames(rule, step, prev, cur) else [];
            var r := Piece(rule, step, prev, cur);
            && |r| == |fs| + 1
            && (forall k :: 0 <= k < |fs| ==> r[k] == Submission(fs[k], true))
            && r[|fs|] == Submission(cur, false)
  {
  }

  /** The schedule of three decoded frames is their three pieces in order. */
  lemma ScheduleOfThree(rule: BlendRule, step: int, p0: Frame, f0: Frame, f1: Frame, f2: Frame)
    requires 0 < step && Chain(p0, [f0, f1, f2])
    ensures Pairable(p0, f0) && Pairable(f0, f1) && Pairable(f1, f2)
    ensures Schedule(rule, step, p0, [f0, f1, f2])
            == Piece(rule, step, p0, f0) + Piece(rule, step, f0, f1) + Piece(rule, step, f1, f2)
  {
    assert [f0, f1, f2][1..] == [f1, f2];
    assert [f1, f2][1..] == [f2];
    assert Chain(f0, [f1, f2]) && Chain(f1, [f2]);
    var p2 := Piece(rule, step, f1, f2);
    assert Schedule(rule, step, f1, [f2]) == p2 + [];
    AppendAssoc(Piece(rule, step, p0, f0), Piece(rule, step, f0, f1), p2);
  }

  /**
   At a 1500-tick step, 0 to 3750 advances two buckets (one frame, at 1875)
   and 3750 to 7500 advances three (two frames, at 5000 and 6250).
   */
  lemma ThreeFrameCadence(rule: BlendRule, f0: Frame, f1: Frame, f2: Frame, layout: seq<int>)
    requires Conforms(f0, layout) && Conforms(f1, layout) && Conforms(f2, layout)
    requires f0.pts == 0 && f1.pts == 3750 && f2.pts == 7500
    ensures Blendable(f0, f1) && Blendable(f1, f2)
    ensures var a := InterpolatedFrames(rule, 1500, f0, f1);
            |a| == 1 && a[0].pts == 1875
    ensures var b := InterpolatedFrames(rule, 1500, f1, f2);
            |b| == 2 && b[0].pts == 5000 && b[1].pts == 6250
  {
    ConformingFramesBlend(f0, f1, layout);
    ConformingFramesBlend(f1, f2, layout);
    InterpolatedFramesShape(rule, 1500, f0, f1);
    InterpolatedFramesShape(rule, 1500, f1, f2);
    assert Bucket(0, 1500) == 0 && Bucket(3750, 1500) == 2 && Bucket(7500, 1500) == 5;
  }

  /**
   End-to-end example at a 1500-tick step: decoded frames at 0, 3750 and
   7500 are submitted as 0, then synthetic 1875, then 3750, then synthetic
   5000 and 6250 (the second pair advances three buckets), then 7500.
   */
  lemma ThreeFrameSchedule(rule: BlendRule, f0: Frame, f1: Frame, f2: Frame, layout: seq<int>)
    requires Conforms(f0, layout) && Conforms(f1, layout) && Conforms(f2, layout)
    requires IsValid(f0) && IsValid(f1) && IsValid(f2)
    requires f0.pts == 0 && f1.pts == 3750 && f2.pts == 7500
    ensures Chain(Fresh(), [f0, f1, f2])
    ensures var s := Schedule(rule, 1500, Fresh(), [f0, f1, f2]);
            && |s| == 6
            && s[0] == Submission(f0, false)
            && s[1].synthetic && s[1].frame.pts == 1875
            && s[2] == Submission(f1, false)
            && s[3].synthetic && s[3].frame.pts == 5000
            && s[4].synthetic && s[4].frame.pts == 6250
            && s[5] == Submission(f2, false)
  {
    ConformingChain(Fresh(), [f0, f1, f2], layout);
    ThreeFrameCadence(rule, f0, f1, f2, layout);
    ScheduleOfThree(rule, 1500, Fresh(), f0, f1, f2);
    var p0 := Piece(rule, 1500, Fresh(), f0);
    var p1 := Piece(rule, 1500, f0, f1);
    var p2 := Piece(rule, 1500, f1, f2);
    PieceParts(rule, 1500, f0, f1);
    PieceParts(rule, 1500, f1, f2);
    assert |p0| == 1 && p0[0] == Submission(f0, false);
    assert |p1| == 2 && p1[0].synthetic && p1[0].frame.pts == 1875 && p1[1] == Submission(f1, false);
    assert |p2| == 3 && p2[0].synthetic && p2[0].frame.pts == 5000 && p2[1].synthetic && p2[1].frame.pts == 6250;
    assert p2[2] == Submission(f2, false);
  }
}
