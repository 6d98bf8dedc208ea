/**
 What the loop does to the video stream, stated against the reference order
 of the Ordering module: whatever the codecs do, the frames handed to the
 video encoder are the schedule of the decoded frames that were read, the
 previous-frame slot holds the last of them, and the interpolator's total
 has advanced (modulo 2^64) by exactly the number of synthetic frames.
 */
module PipelineFacts {
  import opened Frames
  import opened Cadence
  import opened Interpolate
  import opened Ordering
  import opened Pipeline
  import opened Seqs

  /**
   The video side after decoded frames whose submissions are `subs`, starting
   from slot `p0` and total `t0`.
   */
  ghost predicate Follows(rule: BlendRule, c: Codecs, p0: Frame, t0: int, v: VideoSide, subs: seq<Submission>)
  {
    && SideInv(c, v)
    && 0 <= t0 < U64Modulus
    && Chain(p0, Reals(subs))
    && v.prev == LastOr(p0, Reals(subs))
    && subs == Schedule(rule, v.interp.step, p0, Reals(subs))
    && v.interp.total == AddU64(t0, Synthetics(subs))
  }

  /** A total that advanced over `subs` and then over `piece` has advanced over both. */
  lemma TotalAdvances(t0: int, subs: seq<Submission>, piece: seq<Submission>, mid: int, total: int)
    requires 0 <= t0 < U64Modulus
    requires mid == AddU64(t0, Synthetics(subs)) && total == AddU64(mid, Synthetics(piece))
    ensures total == AddU64(t0, Synthetics(subs + piece))
  {
    RealsAppend(subs, piece);
    AddU64Twice(t0, Synthetics(subs), Synthetics(piece));
  }

  /** Appending the next frame's piece to a schedule is the schedule of one more frame. */
  lemma ScheduleGrows(rule: BlendRule, step: int, p0: Frame, subs: seq<Submission>, frame: Frame)
    requires 0 < step && Chain(p0, Reals(subs)) && subs == Schedule(rule, step, p0, Reals(subs))
    requires Pairable(LastOr(p0, Reals(subs)), frame)
    ensures var more := subs + Piece(rule, step, LastOr(p0, Reals(subs)), frame);
            && Reals(more) == Reals(subs) + [frame]
            && Chain(p0, Reals(more))
            && LastOr(p0, Reals(more)) == frame
            && more == Schedule(rule, step, p0, Reals(more))
  {
    var reals := Reals(subs);
    var piece := Piece(rule, step, LastOr(p0, reals), frame);
    RealsAppend(subs, piece);
    ChainSnoc(p0, reals, frame);
    ScheduleSnoc(rule, step, p0, reals, frame);
    assert (reals + [frame])[|reals|] == frame;
  }

  /**
   A side that has taken in one more decoded frame `frame`, submitting its
   piece, still follows the schedule.
   */
  lemma FollowsSnoc(rule: BlendRule, c: Codecs, p0: Frame, t0: int, v: VideoSide, subs: seq<Submission>,
                    frame: Frame, piece: seq<Submission>, w: VideoSide)
    requires Follows(rule, c, p0, t0, v, subs) && Pairable(v.prev, frame)
    requires piece == Piece(rule, v.interp.step, v.prev, frame)
    requires SideInv(c, w) && w.prev == frame && w.interp.step == v.interp.step
    requires w.interp.total == AddU64(v.interp.total, Synthetics(piece))
    ensures Follows(rule, c, p0, t0, w, subs + piece)
  {
    ScheduleGrows(rule, v.interp.step, p0, subs, frame);
    TotalAdvances(t0, subs, piece, v.interp.total, w.interp.total);
  }

  /** Handling one more decoded frame extends the schedule by that frame's piece. */
  lemma OnVideoFrameFollows(rule: BlendRule, c: Codecs, p0: Frame, t0: int, v: VideoSide,
                            subs: seq<Submission>, frame: Frame)
    requires Follows(rule, c, p0, t0, v, subs) && Conforms(frame, c.layout)
    ensures Pairable(v.prev, frame)
    ensures var h := OnVideoFrame(rule, c, v, frame);
            Follows(rule, c, p0, t0, h.side, subs + SubmissionsOf(Video, h.events))
  {
    SlotPairs(c, v, frame);
    var h := OnVideoFrame(rule, c, v, frame);
    OnVideoFrameSubmits(rule, c, v, frame);
    FollowsSnoc(rule, c, p0, t0, v, subs, frame, SubmissionsOf(Video, h.events), h.side);
  }

  /** A video drain extends the schedule by the pieces of the frames it read. */
  lemma {:induction false} DrainVideoFollows(rule: BlendRule, c: Codecs, p0: Frame, t0: int, v: VideoSide,
                                             subs: seq<Submission>, ready: seq<Frame>)
    requires Follows(rule, c, p0, t0, v, subs) && AllFit(ready, c.layout)
    ensures var r := DrainVideo(rule, c, v, ready);
            && Follows(rule, c, p0, t0, r.side, subs + SubmissionsOf(Video, r.events))
            && Reals(SubmissionsOf(Video, r.events)) == r.read
    decreases |ready|
  {
    if ready != [] {
      var frame := ready[0];
      AllFitTail(ready, c.layout);
      OnVideoFrameFollows(rule, c, p0, t0, v, subs, frame);
      var h := OnVideoFrame(rule, c, v, frame);
      OnVideoFrameSubmits(rule, c, v, frame);
      var mine := SubmissionsOf(Video, h.events);
      assert Reals(mine) == [frame];
      if h.proceed {
        DrainVideoFollows(rule, c, p0, t0, h.side, subs + mine, ready[1..]);
        var rest := DrainVideo(rule, c, h.side, ready[1..]);
        ViewsAppend(h.events, rest.events);
        RealsAppend(mine, SubmissionsOf(Video, rest.events));
        AppendAssoc(subs, mine, SubmissionsOf(Video, rest.events));
      }
    } else {
      assert subs + [] == subs;
    }
  }

  /** A step extends the schedule by the pieces of the video frames it read, if any. */
  lemma StepFollows(rule: BlendRule, c: Codecs, p0: Frame, t0: int, s: State,
                    subs: seq<Submission>, p: Packet)
    requires Inv(c, s) && Follows(rule, c, p0, t0, s.video, subs)
    ensures var r := Step(rule, c, s, p);
            Follows(rule, c, p0, t0, r.state.video, subs + SubmissionsOf(Video, r.events))
  {
    var r := Step(rule, c, s, p);
    StepViews(rule, c, s, p);
    var vd := Decode(c.videoDecode, s.videoDecoder, p);
    if vd.accepted {
      AllFitAppend(s.videoDecoder.ready, c.videoDecode(s.videoDecoder.taken, p).items, c.layout);
      DrainVideoFollows(rule, c, p0, t0, s.video, subs, vd.decoder.ready);
      var d := DrainVideo(rule, c, s.video, vd.decoder.ready);
      ViewsAppend([Routed(p, ToVideo)], d.events);
      RoutedOnly(Routed(p, ToVideo));
      assert [] + SubmissionsOf(Video, d.events) == SubmissionsOf(Video, d.events);
    } else {
      assert subs + [] == subs;
    }
  }

  lemma {:induction false} RunFollows(rule: BlendRule, c: Codecs, p0: Frame, t0: int, s: State,
                                      subs: seq<Submission>, packets: seq<Packet>)
    requires Inv(c, s) && Follows(rule, c, p0, t0, s.video, subs)
    ensures var r := Run(rule, c, s, packets);
            Follows(rule, c, p0, t0, r.state.video, subs + SubmissionsOf(Video, r.events))
    decreases |packets|
  {
    if packets == [] {
      assert subs + [] == subs;
    } else {
      var st := Step(rule, c, s, packets[0]);
      StepFollows(rule, c, p0, t0, s, subs, packets[0]);
      var mine := SubmissionsOf(Video, st.events);
      RunFollows(rule, c, p0, t0, st.state, subs + mine, packets[1..]);
      var rest := Run(rule, c, st.state, packets[1..]);
      ViewsAppend(st.events, rest.events);
      AppendAssoc(subs, mine, SubmissionsOf(Video, rest.events));
    }
  }

  /**
   Whatever the codecs do, a run submits to the video encoder exactly the
   schedule of the decoded frames it read, starting from the freshly
   allocated slot, so the first video frame encoded is a decoded one; the
   slot ends holding the last decoded frame, and the interpolator's total
   has advanced by the number of synthetic frames, modulo 2^64.
   */
  lemma RunFollowsSchedule(rule: BlendRule, c: Codecs, video: int, audio: int, step: int, total: int,
                           packets: seq<Packet>)
    requires VideoFits(c) && Valid(Interpolator(step, total))
    ensures var r := Run(rule, c, Start(video, audio, step, total), packets);
            var subs := SubmissionsOf(Video, r.events);
            && Chain(Fresh(), Reals(subs))
            && subs == Schedule(rule, step, Fresh(), Reals(subs))
            && (subs != [] ==> subs[0] == Submission(Reals(subs)[0], false))
            && r.state.video.prev == LastOr(Fresh(), Reals(subs))
            && r.state.video.interp.total == AddU64(total, Synthetics(subs))
  {
    var s0 := Start(video, audio, step, total);
    assert Follows(rule, c, Fresh(), total, s0.video, []);
    RunFollows(rule, c, Fresh(), total, s0, [], packets);
    var subs := SubmissionsOf(Video, Run(rule, c, s0, packets).events);
    assert [] + subs == subs;
  }

  /**
   When the decoded frames that reached the video encoder all hold pixels and
   have non-decreasing timestamps, the synthetic frames submitted number the
   cadence buckets advanced from the first to the last, less one per
   consecutive pair that advanced at all; by RunFollowsSchedule the
   interpolator's total has grown by exactly that, modulo 2^64.
   */
  lemma RunSyntheticsTelescope(rule: BlendRule, c: Codecs, video: int, audio: int, step: int, total: int,
                               packets: seq<Packet>, reals: seq<Frame>)
    requires VideoFits(c) && Valid(Interpolator(step, total))
    requires reals == Reals(SubmissionsOf(Video, Run(rule, c, Start(video, audio, step, total), packets).events))
    requires reals != [] && forall k :: 0 <= k < |reals| ==> IsValid(reals[k]) && 0 <= reals[k].pts <= Int64Max
    requires Sorted(PtsOf(reals))
    ensures Synthetics(SubmissionsOf(Video, Run(rule, c, Start(video, audio, step, total), packets).events))
            == Bucket(reals[|reals| - 1].pts, step) - Bucket(reals[0].pts, step) - Advances(step, PtsOf(reals))
  {
    RunFollowsSchedule(rule, c, video, audio, step, total, packets);
    SyntheticsTelescope(rule, step, Fresh(), reals);
  }

  /**
   A run that exits with 0 has handed the video encoder the schedule of the
   decoded frames it read, the first of them before any synthetic frame.
   */
  lemma MainFollowsSchedule(rule: BlendRule, argc: int, setup: Setup)
    requires setup.Opened? ==> VideoFits(setup.codecs) && Valid(Interpolator(setup.step, setup.total))
    ensures var r := Main(rule, argc, setup);
            var subs := SubmissionsOf(Video, r.trace);
            r.code == 0 ==>
              && Chain(Fresh(), Reals(subs))
              && subs == Schedule(rule, setup.step, Fresh(), Reals(subs))
              && (subs != [] ==> !subs[0].synthetic)
  {
    if argc == 3 && setup.Opened? {
      RunFollowsSchedule(rule, setup.codecs, setup.videoStream, setup.audioStream,
                         setup.step, setup.total, setup.packets);
    }
  }
}
