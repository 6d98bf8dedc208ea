/**
 No decoded frame is lost or reordered: every frame a decoder has yielded
 for the packets it took has reached its encoder, in order, or is still
 waiting to be read. Audio frames reach their encoder as they were decoded.
 */
module Delivery {
  import opened Frames
  import opened Interpolate
  import opened Ordering
  import opened Pipeline
  import opened Seqs

  /** The frames a decoding codec yields for the packets it took, in order. */
  function Outputs(send: DecodeOracle, taken: seq<Packet>): seq<Frame>
    decreases |taken|
  {
    if taken == [] then []
    else
      var h := taken[..|taken| - 1];
      var p := taken[|taken| - 1];
      Outputs(send, h) + (if send(h, p).Yields? then send(h, p).items else [])
  }

  /** One more packet taken adds what the codec yields for it, if anything. */
  lemma OutputsSnoc(send: DecodeOracle, taken: seq<Packet>, p: Packet)
    ensures Outputs(send, taken + [p])
            == Outputs(send, taken) + (if send(taken, p).Yields? then send(taken, p).items else [])
  {
    assert (taken + [p])[..|taken|] == taken;
  }

  /**
   The decoder's frames so far are the decoded frames among `subs`, then
   those still ready.
   */
  predicate Delivered(send: DecodeOracle, d: Decoder, subs: seq<Submission>)
  {
    Outputs(send, d.taken) == Reals(subs) + d.ready
  }

  /** The decoded frames a video drain submits are exactly the frames it read, in order. */
  lemma {:induction false} DrainVideoDelivers(rule: BlendRule, c: Codecs, v: VideoSide, ready: seq<Frame>)
    requires SideInv(c, v) && AllFit(ready, c.layout)
    ensures var r := DrainVideo(rule, c, v, ready);
            Reals(SubmissionsOf(Video, r.events)) == r.read
    decreases |ready|
  {
    if ready != [] {
      AllFitTail(ready, c.layout);
      SlotPairs(c, v, ready[0]);
      var h := OnVideoFrame(rule, c, v, ready[0]);
      OnVideoFrameSubmits(rule, c, v, ready[0]);
      if h.proceed {
        DrainVideoDelivers(rule, c, h.side, ready[1..]);
        var rest := DrainVideo(rule, c, h.side, ready[1..]);
        ViewsAppend(h.events, rest.events);
        RealsAppend(SubmissionsOf(Video, h.events), SubmissionsOf(Video, rest.events));
      }
    }
  }

  /** Taking a packet and draining what it yields keeps a decoder's frames accounted for. */
  lemma TakeAndDrain(send: DecodeOracle, d: Decoder, p: Packet, subs: seq<Submission>,
                     read: seq<Frame>, left: seq<Frame>, mine: seq<Submission>)
    requires Delivered(send, d, subs)
    requires Decode(send, d, p).accepted
    requires Decode(send, d, p).decoder.ready == read + left
    requires Reals(mine) == read
    ensures Delivered(send, Decode(send, d, p).decoder.(ready := left), subs + mine)
  {
    var d1 := Decode(send, d, p).decoder;
    var items := send(d.taken, p).items;
    OutputsSnoc(send, d.taken, p);
    RealsAppend(subs, mine);
    calc {
      Outputs(send, d1.taken);
      Outputs(send, d.taken) + items;
      (Reals(subs) + d.ready) + items;
      { AppendAssoc(Reals(subs), d.ready, items); }
      Reals(subs) + (read + left);
      { AppendAssoc(Reals(subs), read, left); }
      Reals(subs + mine) + left;
    }
  }

  /** One step keeps both decoders' frames accounted for. */
  lemma StepDelivers(rule: BlendRule, c: Codecs, s: State, p: Packet, vs: seq<Submission>, aus: seq<Submission>)
    requires Inv(c, s)
    requires Delivered(c.videoDecode, s.videoDecoder, vs) && Delivered(c.audioDecode, s.audioDecoder, aus)
    ensures var r := Step(rule, c, s, p);
            && Delivered(c.videoDecode, r.state.videoDecoder, vs + SubmissionsOf(Video, r.events))
            && Delivered(c.audioDecode, r.state.audioDecoder, aus + SubmissionsOf(Audio, r.events))
  {
    var r := Step(rule, c, s, p);
    StepViews(rule, c, s, p);
    var vd := Decode(c.videoDecode, s.videoDecoder, p);
    if vd.accepted {
      AllFitAppend(s.videoDecoder.ready, c.videoDecode(s.videoDecoder.taken, p).items, c.layout);
      var d := DrainVideo(rule, c, s.video, vd.decoder.ready);
      DrainVideoDelivers(rule, c, s.video, vd.decoder.ready);
      ViewsAppend([Routed(p, ToVideo)], d.events);
      RoutedOnly(Routed(p, ToVideo));
      assert SubmissionsOf(Video, r.events) == SubmissionsOf(Video, d.events);
      TakeAndDrain(c.videoDecode, s.videoDecoder, p, vs, d.read, d.left, SubmissionsOf(Video, d.events));
      assert aus + [] == aus;
    } else {
      var ad := Decode(c.audioDecode, s.audioDecoder, p);
      if ad.accepted {
        var d := DrainAudio(c, s.audioEncoder, ad.decoder.ready);
        PlainAreReal(d.read);
        ViewsAppend([Routed(p, ToAudio)], d.events);
        RoutedOnly(Routed(p, ToAudio));
        assert SubmissionsOf(Audio, r.events) == SubmissionsOf(Audio, d.events);
        TakeAndDrain(c.audioDecode, s.audioDecoder, p, aus, d.read, d.left, SubmissionsOf(Audio, d.events));
      }
      assert vs + [] == vs;
      assert aus + [] == aus;
    }
  }

  /** Every step of a run keeps both decoders' frames accounted for. */
  lemma {:induction false} RunDelivers(rule: BlendRule, c: Codecs, s: State, packets: seq<Packet>,
                                       vs: seq<Submission>, aus: seq<Submission>)
    requires Inv(c, s)
    requires Delivered(c.videoDecode, s.videoDecoder, vs) && Delivered(c.audioDecode, s.audioDecoder, aus)
    ensures var r := Run(rule, c, s, packets);
            && Delivered(c.videoDecode, r.state.videoDecoder, vs + SubmissionsOf(Video, r.events))
            && Delivered(c.audioDecode, r.state.audioDecoder, aus + SubmissionsOf(Audio, r.events))
    decreases |packets|
  {
    if packets == [] {
      assert vs + [] == vs && aus + [] == aus;
    } else {
      var st := Step(rule, c, s, packets[0]);
      StepDelivers(rule, c, s, packets[0], vs, aus);
      var mv := SubmissionsOf(Video, st.events);
      var ma := SubmissionsOf(Audio, st.events);
      RunDelivers(rule, c, st.state, packets[1..], vs + mv, aus + ma);
      var rest := Run(rule, c, st.state, packets[1..]);
      ViewsAppend(st.events, rest.events);
      AppendAssoc(vs, mv, SubmissionsOf(Video, rest.events));
      AppendAssoc(aus, ma, SubmissionsOf(Audio, rest.events));
    }
  }

  /**
   Whatever the codecs answer, after a run every frame each decoder yielded
   has been submitted to its encoder, in order, or is still ready; the audio
   submissions are those frames exactly as decoded, none synthetic.
   */
  lemma RunDeliversEveryFrame(rule: BlendRule, c: Codecs, video: int, audio: int, step: int, total: int,
                              packets: seq<Packet>)
    requires VideoFits(c) && Valid(Interpolator(step, total))
    ensures var r := Run(rule, c, Start(video, audio, step, total), packets);
            && Outputs(c.videoDecode, r.state.videoDecoder.taken)
               == Reals(SubmissionsOf(Video, r.events)) + r.state.videoDecoder.ready
            && Outputs(c.audioDecode, r.state.audioDecoder.taken)
               == Reals(SubmissionsOf(Audio, r.events)) + r.state.audioDecoder.ready
            && SubmissionsOf(Audio, r.events) == Plain(Reals(SubmissionsOf(Audio, r.events)))
  {
    var s0 := Start(video, audio, step, total);
    var r := Run(rule, c, s0, packets);
    RunDelivers(rule, c, s0, packets, [], []);
    RunRoutesEveryPacket(rule, c, s0, packets);
    NoSyntheticsArePlain(SubmissionsOf(Audio, r.events));
    assert [] + SubmissionsOf(Video, r.events) == SubmissionsOf(Video, r.events);
    assert [] + SubmissionsOf(Audio, r.events) == SubmissionsOf(Audio, r.events);
  }
}
