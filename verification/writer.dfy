/**
 What reaches the writer: every packet an encoder hands out, for every frame
 it takes, is written in order and tagged with its media type, and each
 encoder's state moves on by exactly the frames it accepted.
 */
module Writer {
  import opened Frames
  import opened Interpolate
  import opened Ordering
  import opened Pipeline
  import opened Seqs

  /** The packets an encoding codec hands out for the frames it took, in order. */
  function EncOutputs(send: EncodeOracle, taken: seq<Frame>): seq<Packet>
    decreases |taken|
  {
    if taken == [] then []
    else
      var h := taken[..|taken| - 1];
      var f := taken[|taken| - 1];
      EncOutputs(send, h) + (if send(h, f).Yields? then send(h, f).items else [])
  }

  /** One more frame taken adds what the codec hands out for it, if anything. */
  lemma EncOutputsSnoc(send: EncodeOracle, taken: seq<Frame>, f: Frame)
    ensures EncOutputs(send, taken + [f])
            == EncOutputs(send, taken) + (if send(taken, f).Yields? then send(taken, f).items else [])
  {
    assert (taken + [f])[..|taken|] == taken;
  }

  /** The frames the `kind` encoder accepted, in order. */
  function AcceptedOf(kind: MediaType, events: seq<Event>): seq<Frame>
  {
    if events == [] then []
    else
      (if events[0].Submitted? && events[0].kind == kind && events[0].accepted
       then [events[0].frame] else [])
      + AcceptedOf(kind, events[1..])
  }

  /** The packets handed to the writer tagged `kind`, in order. */
  function WrittenOf(kind: MediaType, events: seq<Event>): seq<Packet>
  {
    if events == [] then []
    else
      (if events[0].Written? && events[0].kind == kind then [events[0].packet] else [])
      + WrittenOf(kind, events[1..])
  }

  /** What a single event contributes to either view. */
  lemma OneEvent(kind: MediaType, e: Event)
    ensures AcceptedOf(kind, [e]) == (if e.Submitted? && e.kind == kind && e.accepted then [e.frame] else [])
    ensures WrittenOf(kind, [e]) == (if e.Written? && e.kind == kind then [e.packet] else [])
  {
    assert [e][1..] == [];
  }

  lemma {:induction false} AcceptedOfAppend(kind: MediaType, x: seq<Event>, y: seq<Event>)
    ensures AcceptedOf(kind, x + y) == AcceptedOf(kind, x) + AcceptedOf(kind, y)
    decreases |x|
  {
    AppendSplit(x, y);
    if x != [] {
      AcceptedOfAppend(kind, x[1..], y);
      AppendAssoc(if x[0].Submitted? && x[0].kind == kind && x[0].accepted then [x[0].frame] else [],
                  AcceptedOf(kind, x[1..]), AcceptedOf(kind, y));
    }
  }

  lemma {:induction false} WrittenOfAppend(kind: MediaType, x: seq<Event>, y: seq<Event>)
    ensures WrittenOf(kind, x + y) == WrittenOf(kind, x) + WrittenOf(kind, y)
    decreases |x|
  {
    AppendSplit(x, y);
    if x != [] {
      WrittenOfAppend(kind, x[1..], y);
      AppendAssoc(if x[0].Written? && x[0].kind == kind then [x[0].packet] else [],
                  WrittenOf(kind, x[1..]), WrittenOf(kind, y));
    }
  }

  /** Events that neither feed nor write for the `kind` encoder. */
  predicate Silent(kind: MediaType, events: seq<Event>)
  {
    AcceptedOf(kind, events) == [] && WrittenOf(kind, events) == []
  }

  /** Stretches of a trace that neither feed nor write for an encoder compose. */
  lemma SilentAppend(kind: MediaType, x: seq<Event>, y: seq<Event>)
    requires Silent(kind, x) && Silent(kind, y)
    ensures Silent(kind, x + y)
  {
    AcceptedOfAppend(kind, x, y);
    WrittenOfAppend(kind, x, y);
  }

  /** The write loop of the encode helper hands the writer exactly its packets, tagged `kind`. */
  lemma {:induction false} WritesOf(k: MediaType, kind: MediaType, ps: seq<Packet>)
    ensures WrittenOf(k, Writes(kind, ps)) == (if k == kind then ps else [])
    ensures AcceptedOf(k, Writes(kind, ps)) == []
    decreases |ps|
  {
    if ps != [] {
      var w := Written(kind, ps[0]);
      assert Writes(kind, ps) == [w] + Writes(kind, ps[1..]);
      WritesOf(k, kind, ps[1..]);
      OneEvent(k, w);
      AcceptedOfAppend(k, [w], Writes(kind, ps[1..]));
      WrittenOfAppend(k, [w], Writes(kind, ps[1..]));
      ConsSplit(ps);
    }
  }

  /**
   Between encoder states `e0` and `e1`, `events` record exactly the frames
   the `kind` encoder took, and hand the writer exactly the packets it gave
   out for them.
   */
  predicate Encoded(send: EncodeOracle, kind: MediaType, e0: Encoder, e1: Encoder, events: seq<Event>)
  {
    && e1.taken == e0.taken + AcceptedOf(kind, events)
    && EncOutputs(send, e1.taken) == EncOutputs(send, e0.taken) + WrittenOf(kind, events)
  }

  lemma SilentEncoded(send: EncodeOracle, kind: MediaType, e: Encoder, events: seq<Event>)
    requires Silent(kind, events)
    ensures Encoded(send, kind, e, e, events)
  {
    assert e.taken + [] == e.taken;
    assert EncOutputs(send, e.taken) + [] == EncOutputs(send, e.taken);
  }

  /** Consecutive stretches of a trace compose. */
  lemma EncodedChain(send: EncodeOracle, kind: MediaType, e0: Encoder, e1: Encoder, e2: Encoder,
                     x: seq<Event>, y: seq<Event>)
    requires Encoded(send, kind, e0, e1, x) && Encoded(send, kind, e1, e2, y)
    ensures Encoded(send, kind, e0, e2, x + y)
  {
    AcceptedOfAppend(kind, x, y);
    WrittenOfAppend(kind, x, y);
    AppendAssoc(e0.taken, AcceptedOf(kind, x), AcceptedOf(kind, y));
    AppendAssoc(EncOutputs(send, e0.taken), WrittenOf(kind, x), WrittenOf(kind, y));
  }

  /** A routing event neither feeds nor writes anything. */
  lemma RoutedSilent(e: Event)
    requires e.Routed?
    ensures Silent(Video, [e]) && Silent(Audio, [e])
  {
    OneEvent(Video, e);
    OneEvent(Audio, e);
  }

  /**
   An accepted frame, then the packets handed out for it: the encoder takes
   that frame, and those packets are written; nothing is fed to or written
   for the other kind.
   */
  lemma AcceptedThenWrites(send: EncodeOracle, kind: MediaType, e: Encoder, frame: Frame, synthetic: bool)
    requires send(e.taken, frame).Yields?
    ensures var ps := send(e.taken, frame).items;
            var events := [Submitted(kind, frame, synthetic, true)] + Writes(kind, ps);
            && Encoded(send, kind, e, Encoder(e.taken + [frame]), events)
            && AcceptedOf(kind, events) == [frame]
            && (kind == Video ==> Silent(Audio, events))
            && (kind == Audio ==> Silent(Video, events))
  {
    var ps := send(e.taken, frame).items;
    var head := Submitted(kind, frame, synthetic, true);
    var events := [head] + Writes(kind, ps);
    var other := if kind == Video then Audio else Video;
    OneEvent(kind, head);
    WritesOf(kind, kind, ps);
    AcceptedOfAppend(kind, [head], Writes(kind, ps));
    WrittenOfAppend(kind, [head], Writes(kind, ps));
    assert AcceptedOf(kind, events) == [frame];
    assert WrittenOf(kind, events) == ps;
    EncOutputsSnoc(send, e.taken, frame);
    OneEvent(other, head);
    WritesOf(other, kind, ps);
    AcceptedOfAppend(other, [head], Writes(kind, ps));
    WrittenOfAppend(other, [head], Writes(kind, ps));
    assert Silent(other, events);
  }

  /**
   The encode helper: the encoder takes the frame exactly when it accepts
   it, and every packet it then hands out is written, in order, tagged
   `kind`; nothing is fed to or written for the other kind.
   */
  lemma EncodeWrites(send: EncodeOracle, e: Encoder, frame: Frame, kind: MediaType, synthetic: bool)
    ensures var r := Encode(send, e, frame, kind, synthetic);
            && Encoded(send, kind, e, r.encoder, r.events)
            && AcceptedOf(kind, r.events) == (if r.ok then [frame] else [])
            && (kind == Video ==> Silent(Audio, r.events))
            && (kind == Audio ==> Silent(Video, r.events))
  {
    var head := Submitted(kind, frame, synthetic, send(e.taken, frame).Yields?);
    if send(e.taken, frame).Yields? {
      AcceptedThenWrites(send, kind, e, frame, synthetic);
    } else {
      OneEvent(Video, head);
      OneEvent(Audio, head);
      SilentEncoded(send, kind, e, [head]);
    }
  }

  /** Encoding the interpolated frames feeds and writes only for video. */
  lemma {:induction false} EncodeEachWrites(send: EncodeOracle, e: Encoder, frames: seq<Frame>)
    ensures var r := EncodeEach(send, e, frames);
            Encoded(send, Video, e, r.encoder, r.events) && Silent(Audio, r.events)
    decreases |frames|
  {
    if frames == [] {
      SilentEncoded(send, Video, e, []);
    } else {
      var x := Encode(send, e, frames[0], Video, true);
      var rest := EncodeEach(send, x.encoder, frames[1..]);
      EncodeWrites(send, e, frames[0], Video, true);
      EncodeEachWrites(send, x.encoder, frames[1..]);
      EncodedChain(send, Video, e, x.encoder, rest.encoder, x.events, rest.events);
      SilentAppend(Audio, x.events, rest.events);
    }
  }

  /**
   One decoded video frame: the video encoder moves on by exactly the
   frames it accepted, interpolated ones first, and every packet it handed
   out for them is written; nothing is written for audio.
   */
  lemma OnVideoFrameWrites(rule: BlendRule, c: Codecs, v: VideoSide, frame: Frame)
    requires Valid(v.interp) && Pairable(v.prev, frame)
    ensures var r := OnVideoFrame(rule, c, v, frame);
            Encoded(c.videoEncode, Video, v.encoder, r.side.encoder, r.events) && Silent(Audio, r.events)
  {
    var out := Interpolation(rule, v, frame);
    var batch := EncodeEach(c.videoEncode, v.encoder, out.frames);
    var own := Encode(c.videoEncode, batch.encoder, frame, Video, false);
    EncodeEachWrites(c.videoEncode, v.encoder, out.frames);
    EncodeWrites(c.videoEncode, batch.encoder, frame, Video, false);
    EncodedChain(c.videoEncode, Video, v.encoder, batch.encoder, own.encoder, batch.events, own.events);
    SilentAppend(Audio, batch.events, own.events);
  }

  /** A video drain writes every packet the video encoder hands out for the frames it accepts. */
  lemma {:induction false} DrainVideoWrites(rule: BlendRule, c: Codecs, v: VideoSide, ready: seq<Frame>)
    requires SideInv(c, v) && AllFit(ready, c.layout)
    ensures var r := DrainVideo(rule, c, v, ready);
            Encoded(c.videoEncode, Video, v.encoder, r.side.encoder, r.events) && Silent(Audio, r.events)
    decreases |ready|
  {
    if ready == [] {
      SilentEncoded(c.videoEncode, Video, v.encoder, []);
    } else {
      AllFitTail(ready, c.layout);
      SlotPairs(c, v, ready[0]);
      var h := OnVideoFrame(rule, c, v, ready[0]);
      OnVideoFrameWrites(rule, c, v, ready[0]);
      if h.proceed {
        var rest := DrainVideo(rule, c, h.side, ready[1..]);
        DrainVideoWrites(rule, c, h.side, ready[1..]);
        EncodedChain(c.videoEncode, Video, v.encoder, h.side.encoder, rest.side.encoder, h.events, rest.events);
        SilentAppend(Audio, h.events, rest.events);
      }
    }
  }

  /** An audio drain writes every packet the audio encoder hands out for the frames it accepts. */
  lemma {:induction false} DrainAudioWrites(c: Codecs, e: Encoder, ready: seq<Frame>)
    ensures var r := DrainAudio(c, e, ready);
            Encoded(c.audioEncode, Audio, e, r.encoder, r.events) && Silent(Video, r.events)
    decreases |ready|
  {
    if ready == [] {
      SilentEncoded(c.audioEncode, Audio, e, []);
    } else {
      var x := Encode(c.audioEncode, e, ready[0], Audio, false);
      EncodeWrites(c.audioEncode, e, ready[0], Audio, false);
      if x.ok {
        var rest := DrainAudio(c, x.encoder, ready[1..]);
        DrainAudioWrites(c, x.encoder, ready[1..]);
        EncodedChain(c.audioEncode, Audio, e, x.encoder, rest.encoder, x.events, rest.events);
        SilentAppend(Video, x.events, rest.events);
      }
    }
  }

  /** One packet moves each encoder on by exactly what the step fed it and wrote for it. */
  lemma StepWrites(rule: BlendRule, c: Codecs, s: State, p: Packet)
    requires Inv(c, s)
    ensures var r := Step(rule, c, s, p);
            && Encoded(c.videoEncode, Video, s.video.encoder, r.state.video.encoder, r.events)
            && Encoded(c.audioEncode, Audio, s.audioEncoder, r.state.audioEncoder, r.events)
  {
    var r := Step(rule, c, s, p);
    var vd := Decode(c.videoDecode, s.videoDecoder, p);
    if vd.accepted {
      var routed := Routed(p, ToVideo);
      AllFitAppend(s.videoDecoder.ready, c.videoDecode(s.videoDecoder.taken, p).items, c.layout);
      var d := DrainVideo(rule, c, s.video, vd.decoder.ready);
      DrainVideoWrites(rule, c, s.video, vd.decoder.ready);
      RoutedSilent(routed);
      SilentAppend(Audio, [routed], d.events);
      SilentEncoded(c.videoEncode, Video, s.video.encoder, [routed]);
      EncodedChain(c.videoEncode, Video, s.video.encoder, s.video.encoder, d.side.encoder, [routed], d.events);
      SilentEncoded(c.audioEncode, Audio, s.audioEncoder, r.events);
    } else {
      var ad := Decode(c.audioDecode, s.audioDecoder, p);
      if ad.accepted {
        var routed := Routed(p, ToAudio);
        var d := DrainAudio(c, s.audioEncoder, ad.decoder.ready);
        DrainAudioWrites(c, s.audioEncoder, ad.decoder.ready);
        RoutedSilent(routed);
        SilentAppend(Video, [routed], d.events);
        SilentEncoded(c.audioEncode, Audio, s.audioEncoder, [routed]);
        EncodedChain(c.audioEncode, Audio, s.audioEncoder, s.audioEncoder, d.encoder, [routed], d.events);
        SilentEncoded(c.videoEncode, Video, s.video.encoder, r.events);
      } else {
        RoutedSilent(Routed(p, Dropped));
        SilentEncoded(c.videoEncode, Video, s.video.encoder, r.events);
        SilentEncoded(c.audioEncode, Audio, s.audioEncoder, r.events);
      }
    }
  }

  /** Over any packets, each encoder moves on by exactly what the loop fed it and wrote for it. */
  lemma {:induction false} RunWrites(rule: BlendRule, c: Codecs, s: State, packets: seq<Packet>)
    requires Inv(c, s)
    ensures var r := Run(rule, c, s, packets);
            && Encoded(c.videoEncode, Video, s.video.encoder, r.state.video.encoder, r.events)
            && Encoded(c.audioEncode, Audio, s.audioEncoder, r.state.audioEncoder, r.events)
    decreases |packets|
  {
    if packets == [] {
      SilentEncoded(c.videoEncode, Video, s.video.encoder, []);
      SilentEncoded(c.audioEncode, Audio, s.audioEncoder, []);
    } else {
      var st := Step(rule, c, s, packets[0]);
      var rest := Run(rule, c, st.state, packets[1..]);
      StepWrites(rule, c, s, packets[0]);
      RunWrites(rule, c, st.state, packets[1..]);
      EncodedChain(c.videoEncode, Video, s.video.encoder, st.state.video.encoder, rest.state.video.encoder,
                   st.events, rest.events);
      EncodedChain(c.audioEncode, Audio, s.audioEncoder, st.state.audioEncoder, rest.state.audioEncoder,
                   st.events, rest.events);
    }
  }

  /**
   Whatever the codecs answer, after a run each encoder has taken exactly
   the frames it accepted, in order, and the packets written for each kind
   are exactly those its encoder handed out for them.
   */
  lemma RunWritesEveryPacket(rule: BlendRule, c: Codecs, video: int, audio: int, step: int, total: int,
                             packets: seq<Packet>)
    requires VideoFits(c) && Valid(Interpolator(step, total))
    ensures var r := Run(rule, c, Start(video, audio, step, total), packets);
            && r.state.video.encoder.taken == AcceptedOf(Video, r.events)
            && r.state.audioEncoder.taken == AcceptedOf(Audio, r.events)
            && WrittenOf(Video, r.events) == EncOutputs(c.videoEncode, AcceptedOf(Video, r.events))
            && WrittenOf(Audio, r.events) == EncOutputs(c.audioEncode, AcceptedOf(Audio, r.events))
  {
    var s0 := Start(video, audio, step, total);
    var r := Run(rule, c, s0, packets);
    RunWrites(rule, c, s0, packets);
    assert [] + AcceptedOf(Video, r.events) == AcceptedOf(Video, r.events);
    assert [] + AcceptedOf(Audio, r.events) == AcceptedOf(Audio, r.events);
    assert [] + WrittenOf(Video, r.events) == WrittenOf(Video, r.events);
    assert [] + WrittenOf(Audio, r.events) == WrittenOf(Audio, r.events);
  }

  /**
   The program's output: a run that exits with 0 has written, for each
   media type, exactly the packets its encoder handed out for the frames
   it accepted, in order; one that exits with 1 has written nothing.
   */
  lemma MainWrites(rule: BlendRule, argc: int, setup: Setup)
    requires setup.Opened? ==> VideoFits(setup.codecs) && Valid(Interpolator(setup.step, setup.total))
    ensures var r := Main(rule, argc, setup);
            && (r.code == 0 ==>
                  && WrittenOf(Video, r.trace) == EncOutputs(setup.codecs.videoEncode, AcceptedOf(Video, r.trace))
                  && WrittenOf(Audio, r.trace) == EncOutputs(setup.codecs.audioEncode, AcceptedOf(Audio, r.trace)))
            && (r.code == 1 ==> WrittenOf(Video, r.trace) == [] && WrittenOf(Audio, r.trace) == [])
  {
    if argc == 3 && setup.Opened? {
      RunWritesEveryPacket(rule, setup.codecs, setup.videoStream, setup.audioStream, setup.step, setup.total,
                           setup.packets);
    }
  }
}
