/**
 The decode / interpolate / encode loop of the command-line program.

 The demuxer, the four codecs and the muxer are not modelled; they appear as
 oracles. A decoding codec is a function from the packets it has taken so far
 and a new packet to its answer (refuse, or take it and make some frames
 ready); an encoding codec likewise answers each frame with a refusal or the
 packets it then hands out. The loop threads the codec states, the
 interpolator and the previous-frame slot through the packets the reader
 yields, and records what it does as a trace of events: each packet's route,
 each frame handed to an encoder, and each packet handed to the writer.
 */
module Pipeline {
  import opened Frames
  import opened Interpolate
  import opened Ordering
  import opened Seqs

  datatype MediaType = Video | Audio

  /** A compressed packet: the stream it belongs to, its timestamp, its bytes. */
  datatype Packet = Packet(streamIndex: int, pts: int, payload: seq<Byte>)

  /** A codec's answer to one input: refuse it, or take it and yield some outputs. */
  datatype Response<T> = Declined | Yields(items: seq<T>)

  /** A decoding codec's behaviour, given the packets it has taken so far. */
  type DecodeOracle = (seq<Packet>, Packet) -> Response<Frame>

  /**
   An encoding codec's behaviour, given the frames it has taken so far; the
   packets yielded are those it hands out until it reports none ready.
   */
  type EncodeOracle = (seq<Frame>, Frame) -> Response<Packet>

  /** A decoder: the stream it owns, the packets it took, the frames ready to read. */
  datatype Decoder = Decoder(streamIndex: int, taken: seq<Packet>, ready: seq<Frame>)

  /** An encoder: the frames it took. */
  datatype Encoder = Encoder(taken: seq<Frame>)

  /**
   The codecs' behaviour for one run, and the plane layout all frames of the
   video stream share.
   */
  datatype Codecs = Codecs(
    layout: seq<int>,
    videoDecode: DecodeOracle,
    audioDecode: DecodeOracle,
    videoEncode: EncodeOracle,
    audioEncode: EncodeOracle)

  /** Every frame of `fs` fits `layout`. */
  predicate AllFit(fs: seq<Frame>, layout: seq<int>)
  {
    forall k :: 0 <= k < |fs| ==> Conforms(fs[k], layout)
  }

  lemma AllFitAppend(x: seq<Frame>, y: seq<Frame>, layout: seq<int>)
    ensures AllFit(x + y, layout) <==> AllFit(x, layout) && AllFit(y, layout)
  {
    if AllFit(x, layout) && AllFit(y, layout) {
      forall k | 0 <= k < |x + y|
        ensures Conforms((x + y)[k], layout)
      {
        if k >= |x| {
          assert (x + y)[k] == y[k - |x|];
        }
      }
    }
    if AllFit(x + y, layout) {
      forall k | 0 <= k < |x|
        ensures Conforms(x[k], layout)
      {
        assert (x + y)[k] == x[k];
      }
      forall k | 0 <= k < |y|
        ensures Conforms(y[k], layout)
      {
        assert (x + y)[|x| + k] == y[k];
      }
    }
  }

  /** The first of some fitting frames fits, and so do the others. */
  lemma AllFitTail(fs: seq<Frame>, layout: seq<int>)
    requires AllFit(fs, layout) && fs != []
    ensures Conforms(fs[0], layout) && AllFit(fs[1..], layout)
  {
    forall k | 0 <= k < |fs| - 1
      ensures Conforms(fs[1..][k], layout)
    {
      assert fs[1..][k] == fs[k + 1];
    }
  }

  /** Every frame the video decoder yields fits the stream's plane layout. */
  ghost predicate VideoFits(c: Codecs)
  {
    forall h, p :: c.videoDecode(h, p).Yields? ==> AllFit(c.videoDecode(h, p).items, c.layout)
  }

  datatype Route = ToVideo | ToAudio | Dropped

  datatype Event =
    | Routed(packet: Packet, route: Route)
    | Submitted(kind: MediaType, frame: Frame, synthetic: bool, accepted: bool)
    | Written(kind: MediaType, packet: Packet)

  // ---------------------------------------------------------------------
  // Views of a trace.

  /** The frames handed to the `kind` encoder, in order. */
  function SubmissionsOf(kind: MediaType, events: seq<Event>): seq<Submission>
  {
    if events == [] then []
    else
      (if events[0].Submitted? && events[0].kind == kind
       then [Submission(events[0].frame, events[0].synthetic)] else [])
      + SubmissionsOf(kind, events[1..])
  }

  /** The packets the reader yielded, in the order they were routed. */
  function RoutedPackets(events: seq<Event>): seq<Packet>
  {
    if events == [] then []
    else (if events[0].Routed? then [events[0].packet] else []) + RoutedPackets(events[1..])
  }

  lemma {:induction false} SubmissionsAppend(kind: MediaType, x: seq<Event>, y: seq<Event>)
    ensures SubmissionsOf(kind, x + y) == SubmissionsOf(kind, x) + SubmissionsOf(kind, y)
    decreases |x|
  {
    AppendSplit(x, y);
    if x != [] {
      SubmissionsAppend(kind, x[1..], y);
      AppendAssoc(if x[0].Submitted? && x[0].kind == kind then [Submission(x[0].frame, x[0].synthetic)] else [],
                  SubmissionsOf(kind, x[1..]), SubmissionsOf(kind, y));
    }
  }

  lemma {:induction false} RoutedAppend(x: seq<Event>, y: seq<Event>)
    ensures RoutedPackets(x + y) == RoutedPackets(x) + RoutedPackets(y)
    decreases |x|
  {
    AppendSplit(x, y);
    if x != [] {
      RoutedAppend(x[1..], y);
      AppendAssoc(if x[0].Routed? then [x[0].packet] else [], RoutedPackets(x[1..]), RoutedPackets(y));
    }
  }

  /** Every view of a trace distributes over appending traces. */
  lemma ViewsAppend(x: seq<Event>, y: seq<Event>)
    ensures SubmissionsOf(Video, x + y) == SubmissionsOf(Video, x) + SubmissionsOf(Video, y)
    ensures SubmissionsOf(Audio, x + y) == SubmissionsOf(Audio, x) + SubmissionsOf(Audio, y)
    ensures RoutedPackets(x + y) == RoutedPackets(x) + RoutedPackets(y)
  {
    SubmissionsAppend(Video, x, y);
    SubmissionsAppend(Audio, x, y);
    RoutedAppend(x, y);
  }

  /** A routing event alone submits nothing and routes its packet. */
  lemma RoutedOnly(e: Event)
    requires e.Routed?
    ensures SubmissionsOf(Video, [e]) == [] && SubmissionsOf(Audio, [e]) == []
    ensures RoutedPackets([e]) == [e.packet]
  {
    assert [e][1..] == [];
  }

  /** A submission event alone submits its frame to its own encoder only. */
  lemma SubmittedOnly(e: Event)
    requires e.Submitted?
    ensures SubmissionsOf(e.kind, [e]) == [Submission(e.frame, e.synthetic)]
    ensures SubmissionsOf(if e.kind == Video then Audio else Video, [e]) == []
    ensures RoutedPackets([e]) == []
  {
    assert [e][1..] == [];
  }

  /** Every submission of a decoded (not synthetic) frame in `events` was accepted. */
  predicate RealsAccepted(events: seq<Event>)
  {
    forall k :: 0 <= k < |events| && events[k].Submitted? && !events[k].synthetic ==> events[k].accepted
  }

  /**
   A refused submission of a decoded frame can only be the last event: the
   loop stops right after the encoder refuses such a frame.
   */
  predicate RefusalEnds(events: seq<Event>)
  {
    forall k :: 0 <= k < |events| - 1 && events[k].Submitted? && !events[k].synthetic ==> events[k].accepted
  }

  /** Events in which every decoded frame was accepted can be put in front of a trace. */
  lemma AcceptedAppend(x: seq<Event>, y: seq<Event>)
    requires RealsAccepted(x)
    ensures RealsAccepted(y) ==> RealsAccepted(x + y)
    ensures RefusalEnds(y) ==> RefusalEnds(x + y)
  {
    forall k | |x| <= k < |x + y|
      ensures (x + y)[k] == y[k - |x|]
    {
    }
  }

  /** Packets handed to the writer, tagged with their media type. */
  function Writes(kind: MediaType, ps: seq<Packet>): (r: seq<Event>)
    ensures |r| == |ps| && forall k :: 0 <= k < |ps| ==> r[k] == Written(kind, ps[k])
    ensures SubmissionsOf(Video, r) == [] && SubmissionsOf(Audio, r) == [] && RoutedPackets(r) == []
    decreases |ps|
  {
    if ps == [] then []
    else
      var rest := Writes(kind, ps[1..]);
      ViewsAppend([Written(kind, ps[0])], rest);
      [Written(kind, ps[0])] + rest
  }

  // ---------------------------------------------------------------------
  // Codec calls.

  datatype Fed = Fed(accepted: bool, decoder: Decoder)

  /**
   Offering a packet to a decoder: a packet of another stream is refused
   without reaching the codec; otherwise the codec decides, and a packet it
   takes appends the frames it yields to those ready to be read.
   */
  function Decode(send: DecodeOracle, d: Decoder, p: Packet): (r: Fed)
    ensures r.accepted <==> p.streamIndex == d.streamIndex && send(d.taken, p).Yields?
    ensures !r.accepted ==> r.decoder == d
    ensures r.accepted ==> r.decoder.streamIndex == d.streamIndex
    ensures r.accepted ==> r.decoder.ready == d.ready + send(d.taken, p).items
    ensures r.accepted ==> r.decoder.taken == d.taken + [p]
  {
    if p.streamIndex != d.streamIndex then Fed(false, d)
    else match send(d.taken, p)
      case Declined => Fed(false, d)
      case Yields(fs) => Fed(true, Decoder(d.streamIndex, d.taken + [p], d.ready + fs))
  }

  datatype Emitted = Emitted(ok: bool, encoder: Encoder, events: seq<Event>)

  /**
   The loop's `encode` helper. A frame the encoder refuses writes nothing and
   reports failure; otherwise every packet the encoder then yields is
   written, in order, tagged with `kind`, and it reports success. The trace
   records the submission itself first.
   */
  function Encode(send: EncodeOracle, e: Encoder, frame: Frame, kind: MediaType, synthetic: bool): (r: Emitted)
    ensures r.ok <==> send(e.taken, frame).Yields?
    ensures |r.events| >= 1 && r.events[0] == Submitted(kind, frame, synthetic, r.ok)
    ensures !r.ok ==> |r.events| == 1 && r.encoder == e
    ensures r.ok ==>
      var ps := send(e.taken, frame).items;
      && r.encoder.taken == e.taken + [frame]
      && |r.events| == 1 + |ps|
      && forall k :: 0 <= k < |ps| ==> r.events[k + 1] == Written(kind, ps[k])
    ensures SubmissionsOf(kind, r.events) == [Submission(frame, synthetic)]
    ensures SubmissionsOf(if kind == Video then Audio else Video, r.events) == []
    ensures RoutedPackets(r.events) == []
  {
    var head := Submitted(kind, frame, synthetic, send(e.taken, frame).Yields?);
    SubmittedOnly(head);
    match send(e.taken, frame)
    case Declined =>
      Emitted(false, e, [head])
    case Yields(ps) =>
      var written := Writes(kind, ps);
      ViewsAppend([head], written);
      PrependIndex(head, written);
      Emitted(true, Encoder(e.taken + [frame]), [head] + written)
  }

  /**
   The encode helper's trace ends with its refusal, when it refuses; a
   synthetic frame, or an accepted one, leaves no refused decoded frame.
   */
  lemma EncodeStops(send: EncodeOracle, e: Encoder, frame: Frame, kind: MediaType, synthetic: bool)
    ensures var r := Encode(send, e, frame, kind, synthetic);
            && RefusalEnds(r.events)
            && (r.ok || synthetic ==> RealsAccepted(r.events))
            && (!r.ok <==> Final(r.events) == Submitted(kind, frame, synthetic, false))
  {
    var r := Encode(send, e, frame, kind, synthetic);
    FinalIsLast(r.events);
    if r.ok {
      var ps := send(e.taken, frame).items;
      forall k | 1 <= k < |r.events|
        ensures r.events[k].Written?
      {
        assert r.events[(k - 1) + 1] == Written(kind, ps[k - 1]);
      }
    }
  }

  datatype Batch = Batch(encoder: Encoder, events: seq<Event>)

  /**
   Encoding the interpolated frames one after another, whatever each
   attempt's outcome.
   */
  function EncodeEach(send: EncodeOracle, e: Encoder, frames: seq<Frame>): (r: Batch)
    ensures SubmissionsOf(Video, r.events) == Marked(frames)
    ensures SubmissionsOf(Audio, r.events) == [] && RoutedPackets(r.events) == []
    decreases |frames|
  {
    if frames == [] then Batch(e, [])
    else
      var x := Encode(send, e, frames[0], Video, true);
      var rest := EncodeEach(send, x.encoder, frames[1..]);
      ViewsAppend(x.events, rest.events);
      MarkedCons(frames);
      Batch(rest.encoder, x.events + rest.events)
  }

  /** Refusals of interpolated frames never stop anything. */
  lemma {:induction false} EncodeEachAccepted(send: EncodeOracle, e: Encoder, frames: seq<Frame>)
    ensures RealsAccepted(EncodeEach(send, e, frames).events)
    decreases |frames|
  {
    if frames != [] {
      var x := Encode(send, e, frames[0], Video, true);
      EncodeStops(send, e, frames[0], Video, true);
      EncodeEachAccepted(send, x.encoder, frames[1..]);
      AcceptedAppend(x.events, EncodeEach(send, x.encoder, frames[1..]).events);
    }
  }

  // ---------------------------------------------------------------------
  // The loop.

  /** What handling video frames changes: the video encoder, the interpolator, the slot. */
  datatype VideoSide = VideoSide(encoder: Encoder, interp: Interpolator, prev: Frame)

  /** What the video side keeps true: a usable interpolator and a slot that can be blended. */
  ghost predicate SideInv(c: Codecs, v: VideoSide)
  {
    Valid(v.interp) && (IsValid(v.prev) ==> Conforms(v.prev, c.layout))
  }

  /** A decoded frame that fits the layout can follow whatever the slot holds. */
  lemma SlotPairs(c: Codecs, v: VideoSide, frame: Frame)
    requires SideInv(c, v) && Conforms(frame, c.layout)
    ensures Pairable(v.prev, frame)
  {
    if IsValid(v.prev) {
      ConformingFramesBlend(v.prev, frame, c.layout);
    }
  }

  /**
   The interpolator's work for one decoded frame: nothing while the
   previous-frame slot holds no pixels, otherwise a call to `linear`.
   */
  function Interpolation(rule: BlendRule, v: VideoSide, frame: Frame): (o: Output)
    requires Valid(v.interp) && Pairable(v.prev, frame)
    ensures Valid(o.interp) && o.interp.step == v.interp.step
    ensures o.interp.total == AddU64(v.interp.total, |o.frames|)
    ensures IsValid(v.prev) ==> o.frames == InterpolatedFrames(rule, v.interp.step, v.prev, frame)
    ensures !IsValid(v.prev) ==> o.frames == [] && o.interp == v.interp
  {
    if IsValid(v.prev) then Linear(rule, v.interp, v.prev, frame) else Output([], v.interp)
  }

  datatype Handled = Handled(side: VideoSide, events: seq<Event>, proceed: bool)

  /**
   One decoded video frame: the frames interpolated between the slot and
   `frame` are encoded in order, failures ignored; the slot then takes a
   copy of `frame`, and `frame` itself is encoded. Draining goes on exactly
   when that last encode succeeded: its refusal is then the last event, and
   no other decoded frame was refused.
   */
  function OnVideoFrame(rule: BlendRule, c: Codecs, v: VideoSide, frame: Frame): (r: Handled)
    requires Valid(v.interp) && Pairable(v.prev, frame)
    ensures r.side.prev == frame
    ensures Valid(r.side.interp) && r.side.interp.step == v.interp.step
    ensures r.events != []
    ensures !r.proceed <==> Final(r.events) == Submitted(Video, frame, false, false)
    ensures r.proceed ==> RealsAccepted(r.events)
    ensures RefusalEnds(r.events)
  {
    var out := Interpolation(rule, v, frame);
    var batch := EncodeEach(c.videoEncode, v.encoder, out.frames);
    var own := Encode(c.videoEncode, batch.encoder, frame, Video, false);
    FinalOfAppend(batch.events, own.events);
    EncodeStops(c.videoEncode, batch.encoder, frame, Video, false);
    EncodeEachAccepted(c.videoEncode, v.encoder, out.frames);
    AcceptedAppend(batch.events, own.events);
    Handled(VideoSide(own.encoder, out.interp, frame), batch.events + own.events, own.ok)
  }

  /**
   What one decoded video frame submits: exactly its piece of the schedule,
   with the interpolator's total advanced by the synthetic frames among it;
   when encoding the frame itself fails, that refusal is the last event.
   */
  lemma OnVideoFrameSubmits(rule: BlendRule, c: Codecs, v: VideoSide, frame: Frame)
    requires Valid(v.interp) && Pairable(v.prev, frame)
    ensures var r := OnVideoFrame(rule, c, v, frame);
            && SubmissionsOf(Video, r.events) == Piece(rule, v.interp.step, v.prev, frame)
            && SubmissionsOf(Audio, r.events) == [] && RoutedPackets(r.events) == []
            && r.side.interp.total == AddU64(v.interp.total, Synthetics(SubmissionsOf(Video, r.events)))
  {
    var r := OnVideoFrame(rule, c, v, frame);
    var out := Interpolation(rule, v, frame);
    var batch := EncodeEach(c.videoEncode, v.encoder, out.frames);
    var own := Encode(c.videoEncode, batch.encoder, frame, Video, false);
    assert r.events == batch.events + own.events;
    ViewsAppend(batch.events, own.events);
    MarkedAreSynthetic(out.frames);
    RealsAppend(Marked(out.frames), [Submission(frame, false)]);
  }

  /** A drain's outcome: the side state, the frames read, those still ready, and the events. */
  datatype VideoDrained = VideoDrained(side: VideoSide, read: seq<Frame>, left: seq<Frame>, events: seq<Event>)

  /**
   Reading every ready video frame and handling it, until none is left or
   encoding a decoded frame fails; in the latter case the remaining frames
   stay ready for the next drain. At least one frame is read when any is
   ready.
   */
  function DrainVideo(rule: BlendRule, c: Codecs, v: VideoSide, ready: seq<Frame>): (r: VideoDrained)
    requires SideInv(c, v) && AllFit(ready, c.layout)
    ensures SideInv(c, r.side) && r.side.interp.step == v.interp.step
    ensures ready == r.read + r.left
    ensures ready != [] ==> r.read != []
    decreases |ready|
  {
    if ready == [] then VideoDrained(v, [], [], [])
    else
      AllFitTail(ready, c.layout);
      SlotPairs(c, v, ready[0]);
      var h := OnVideoFrame(rule, c, v, ready[0]);
      if !h.proceed then
        ConsSplit(ready);
        VideoDrained(h.side, [ready[0]], ready[1..], h.events)
      else
        var rest := DrainVideo(rule, c, h.side, ready[1..]);
        HeadThenSplit(ready, rest.read, rest.left);
        VideoDrained(rest.side, [ready[0]] + rest.read, rest.left, h.events + rest.events)
  }

  /** A video drain routes nothing and submits nothing to the audio encoder. */
  lemma {:induction false} DrainVideoViews(rule: BlendRule, c: Codecs, v: VideoSide, ready: seq<Frame>)
    requires SideInv(c, v) && AllFit(ready, c.layout)
    ensures var r := DrainVideo(rule, c, v, ready);
            SubmissionsOf(Audio, r.events) == [] && RoutedPackets(r.events) == []
    decreases |ready|
  {
    if ready != [] {
      AllFitTail(ready, c.layout);
      SlotPairs(c, v, ready[0]);
      var h := OnVideoFrame(rule, c, v, ready[0]);
      OnVideoFrameSubmits(rule, c, v, ready[0]);
      if h.proceed {
        DrainVideoViews(rule, c, h.side, ready[1..]);
        ViewsAppend(h.events, DrainVideo(rule, c, h.side, ready[1..]).events);
      }
    }
  }

  /**
   A video drain stops exactly at a refused decoded frame: frames are left
   ready only when its last event is the refused encode of the last decoded
   frame it read, and no refused decoded frame is followed by anything.
   */
  lemma {:induction false} DrainVideoStopsOnRefusal(rule: BlendRule, c: Codecs, v: VideoSide, ready: seq<Frame>)
    requires SideInv(c, v) && AllFit(ready, c.layout)
    ensures var r := DrainVideo(rule, c, v, ready);
            r.left != [] ==>
              r.events != [] && Final(r.events) == Submitted(Video, Final(r.read), false, false)
    ensures RefusalEnds(DrainVideo(rule, c, v, ready).events)
    decreases |ready|
  {
    if ready != [] {
      AllFitTail(ready, c.layout);
      SlotPairs(c, v, ready[0]);
      var h := OnVideoFrame(rule, c, v, ready[0]);
      if h.proceed {
        var rest := DrainVideo(rule, c, h.side, ready[1..]);
        DrainVideoStopsOnRefusal(rule, c, h.side, ready[1..]);
        AcceptedAppend(h.events, rest.events);
        if rest.left != [] {
          FinalOfAppend(h.events, rest.events);
          FinalOfAppend([ready[0]], rest.read);
        }
      }
    }
  }

  datatype AudioDrained = AudioDrained(encoder: Encoder, read: seq<Frame>, left: seq<Frame>, events: seq<Event>)

  /**
   Reading every ready audio frame and encoding it directly, until none is
   left or an encode fails. At least one frame is read when any is ready,
   and the frames read are exactly those submitted to the audio encoder,
   in order, none synthetic.
   */
  function DrainAudio(c: Codecs, e: Encoder, ready: seq<Frame>): (r: AudioDrained)
    ensures ready == r.read + r.left
    ensures ready != [] ==> r.read != []
    ensures SubmissionsOf(Audio, r.events) == Plain(r.read)
    decreases |ready|
  {
    if ready == [] then AudioDrained(e, [], [], [])
    else
      var x := Encode(c.audioEncode, e, ready[0], Audio, false);
      if !x.ok then
        ConsSplit(ready);
        AudioSubmits(x.events, ready[0], [], []);
        AudioDrained(x.encoder, [ready[0]], ready[1..], x.events)
      else
        var rest := DrainAudio(c, x.encoder, ready[1..]);
        HeadThenSplit(ready, rest.read, rest.left);
        AudioSubmits(x.events, ready[0], rest.events, rest.read);
        AudioDrained(rest.encoder, [ready[0]] + rest.read, rest.left, x.events + rest.events)
  }

  /** One audio encode in front of a drain's trace submits its frame first. */
  lemma AudioSubmits(head: seq<Event>, f: Frame, events: seq<Event>, read: seq<Frame>)
    requires SubmissionsOf(Audio, head) == [Submission(f, false)]
    requires SubmissionsOf(Audio, events) == Plain(read)
    ensures SubmissionsOf(Audio, head + events) == Plain([f] + read)
  {
    ViewsAppend(head, events);
    PlainPrepend(f, read);
  }

  /**
   An audio drain routes nothing, submits nothing to the video encoder, and
   submits no synthetic frame to the audio one.
   */
  lemma {:induction false} DrainAudioViews(c: Codecs, e: Encoder, ready: seq<Frame>)
    ensures var r := DrainAudio(c, e, ready);
            && SubmissionsOf(Video, r.events) == [] && RoutedPackets(r.events) == []
            && Synthetics(SubmissionsOf(Audio, r.events)) == 0
    decreases |ready|
  {
    if ready != [] {
      var x := Encode(c.audioEncode, e, ready[0], Audio, false);
      RealsAppend([Submission(ready[0], false)], []);
      if x.ok {
        DrainAudioViews(c, x.encoder, ready[1..]);
        var rest := DrainAudio(c, x.encoder, ready[1..]);
        ViewsAppend(x.events, rest.events);
        RealsAppend([Submission(ready[0], false)], SubmissionsOf(Audio, rest.events));
      }
    }
  }

  /**
   An audio drain stops exactly at a refused frame: frames are left ready
   only when its last event is the refused encode of the last frame it
   read, and no refused frame is followed by anything.
   */
  lemma {:induction false} DrainAudioStopsOnRefusal(c: Codecs, e: Encoder, ready: seq<Frame>)
    ensures var r := DrainAudio(c, e, ready);
            r.left != [] ==>
              r.events != [] && Final(r.events) == Submitted(Audio, Final(r.read), false, false)
    ensures RefusalEnds(DrainAudio(c, e, ready).events)
    decreases |ready|
  {
    if ready != [] {
      var x := Encode(c.audioEncode, e, ready[0], Audio, false);
      EncodeStops(c.audioEncode, e, ready[0], Audio, false);
      if x.ok {
        var rest := DrainAudio(c, x.encoder, ready[1..]);
        DrainAudioStopsOnRefusal(c, x.encoder, ready[1..]);
        AcceptedAppend(x.events, rest.events);
        if rest.left != [] {
          FinalOfAppend(x.events, rest.events);
          FinalOfAppend([ready[0]], rest.read);
        }
      }
    }
  }

  /** Everything the loop carries from one packet to the next. */
  datatype State = State(videoDecoder: Decoder, audioDecoder: Decoder, audioEncoder: Encoder, video: VideoSide)

  /** What the loop keeps true: the video side's invariant and ready frames that fit the layout. */
  ghost predicate Inv(c: Codecs, s: State)
  {
    && VideoFits(c)
    && SideInv(c, s.video)
    && AllFit(s.videoDecoder.ready, c.layout)
  }

  datatype Stepped = Stepped(state: State, events: seq<Event>)

  /**
   One packet from the reader: offered to the video decoder, and only if it
   refuses, to the audio decoder; the decoder that took it is drained. A
   packet neither takes is dropped.
   */
  function Step(rule: BlendRule, c: Codecs, s: State, p: Packet): (r: Stepped)
    requires Inv(c, s)
    ensures Inv(c, r.state) && r.state.video.interp.step == s.video.interp.step
    ensures r.events != [] && r.events[0].Routed? && r.events[0].packet == p
    ensures r.events[0].route == ToVideo <==> Decode(c.videoDecode, s.videoDecoder, p).accepted
    ensures r.events[0].route == ToAudio <==>
              !Decode(c.videoDecode, s.videoDecoder, p).accepted
              && Decode(c.audioDecode, s.audioDecoder, p).accepted
    ensures r.events[0].route == Dropped ==> r == Stepped(s, [Routed(p, Dropped)])
    ensures r.events[0].route != ToVideo ==> r.state.video == s.video
  {
    var vd := Decode(c.videoDecode, s.videoDecoder, p);
    if vd.accepted then
      AllFitAppend(s.videoDecoder.ready, c.videoDecode(s.videoDecoder.taken, p).items, c.layout);
      var d := DrainVideo(rule, c, s.video, vd.decoder.ready);
      AllFitAppend(d.read, d.left, c.layout);
      Stepped(s.(videoDecoder := vd.decoder.(ready := d.left), video := d.side), [Routed(p, ToVideo)] + d.events)
    else
      var ad := Decode(c.audioDecode, s.audioDecoder, p);
      if ad.accepted then
        var d := DrainAudio(c, s.audioEncoder, ad.decoder.ready);
        Stepped(s.(audioDecoder := ad.decoder.(ready := d.left), audioEncoder := d.encoder), [Routed(p, ToAudio)] + d.events)
      else
        Stepped(s, [Routed(p, Dropped)])
  }

  /**
   A step routes exactly its own packet; only a video packet can submit
   video frames, only an audio packet can submit audio frames, and no audio
   frame is synthetic.
   */
  lemma StepViews(rule: BlendRule, c: Codecs, s: State, p: Packet)
    requires Inv(c, s)
    ensures var r := Step(rule, c, s, p);
            && RoutedPackets(r.events) == [p]
            && (r.events[0].route != ToVideo ==> SubmissionsOf(Video, r.events) == [])
            && (r.events[0].route != ToAudio ==> SubmissionsOf(Audio, r.events) == [])
            && Synthetics(SubmissionsOf(Audio, r.events)) == 0
  {
    var vd := Decode(c.videoDecode, s.videoDecoder, p);
    if vd.accepted {
      AllFitAppend(s.videoDecoder.ready, c.videoDecode(s.videoDecoder.taken, p).items, c.layout);
      DrainVideoViews(rule, c, s.video, vd.decoder.ready);
      ViewsAppend([Routed(p, ToVideo)], DrainVideo(rule, c, s.video, vd.decoder.ready).events);
      RoutedOnly(Routed(p, ToVideo));
    } else {
      var ad := Decode(c.audioDecode, s.audioDecoder, p);
      if ad.accepted {
        var d := DrainAudio(c, s.audioEncoder, ad.decoder.ready);
        DrainAudioViews(c, s.audioEncoder, ad.decoder.ready);
        ViewsAppend([Routed(p, ToAudio)], d.events);
        RoutedOnly(Routed(p, ToAudio));
        assert [] + SubmissionsOf(Audio, d.events) == SubmissionsOf(Audio, d.events);
      } else {
        RoutedOnly(Routed(p, Dropped));
      }
    }
  }

  /**
   The read loop: one step per packet the reader yields, ending exactly when
   it yields none.
   */
  function Run(rule: BlendRule, c: Codecs, s: State, packets: seq<Packet>): (r: Stepped)
    requires Inv(c, s)
    ensures Inv(c, r.state) && r.state.video.interp.step == s.video.interp.step
    decreases |packets|
  {
    if packets == [] then Stepped(s, [])
    else
      var st := Step(rule, c, s, packets[0]);
      var rest := Run(rule, c, st.state, packets[1..]);
      Stepped(rest.state, st.events + rest.events)
  }

  /**
   The loop routes every packet exactly once, in reading order, and never
   submits a synthetic audio frame.
   */
  lemma {:induction false} RunRoutesEveryPacket(rule: BlendRule, c: Codecs, s: State, packets: seq<Packet>)
    requires Inv(c, s)
    ensures var r := Run(rule, c, s, packets);
            && RoutedPackets(r.events) == packets
            && Synthetics(SubmissionsOf(Audio, r.events)) == 0
    decreases |packets|
  {
    if packets != [] {
      var st := Step(rule, c, s, packets[0]);
      StepViews(rule, c, s, packets[0]);
      RunRoutesEveryPacket(rule, c, st.state, packets[1..]);
      var rest := Run(rule, c, st.state, packets[1..]);
      ViewsAppend(st.events, rest.events);
      RealsAppend(SubmissionsOf(Audio, st.events), SubmissionsOf(Audio, rest.events));
      assert packets == [packets[0]] + packets[1..];
    }
  }

  // ---------------------------------------------------------------------
  // The program.

  /**
   The outcome of setting up: opening the containers, finding the best
   video and audio streams, opening the four codecs and writing the output
   header. Any failure there raises.
   */
  datatype Setup =
    | Failed(what: string)
    | Opened(codecs: Codecs, videoStream: int, audioStream: int, step: int, total: int, packets: seq<Packet>)

  /**
   The loop's initial state: codecs with nothing taken, a freshly allocated
   (pixel-less) previous-frame slot, and the interpolator as constructed,
   its total whatever the field held.
   */
  function Start(videoStream: int, audioStream: int, step: int, total: int): (s: State)
    ensures !IsValid(s.video.prev)
    ensures s.videoDecoder.ready == [] && s.audioDecoder.ready == []
  {
    State(Decoder(videoStream, [], []), Decoder(audioStream, [], []), Encoder([]),
          VideoSide(Encoder([]), Interpolator(step, total), Fresh()))
  }

  datatype Exit = Exit(code: int, trace: seq<Event>)

  /**
   The process: a wrong argument count exits with 1 before any work; an
   exception during setup exits with 1 having written nothing; otherwise the
   loop runs over every packet and the process exits with 0.
   */
  function Main(rule: BlendRule, argc: int, setup: Setup): (r: Exit)
    requires setup.Opened? ==> VideoFits(setup.codecs) && Valid(Interpolator(setup.step, setup.total))
    ensures r.code == 0 || r.code == 1
    ensures r.code == 0 <==> argc == 3 && setup.Opened?
    ensures r.code == 1 ==> r.trace == []
    ensures r.code == 0 ==> RoutedPackets(r.trace) == setup.packets
    ensures Synthetics(SubmissionsOf(Audio, r.trace)) == 0
  {
    if argc != 3 then Exit(1, [])
    else match setup
      case Failed(_) => Exit(1, [])
      case Opened(c, video, audio, step, total, packets) =>
        var s0 := Start(video, audio, step, total);
        RunRoutesEveryPacket(rule, c, s0, packets);
        Exit(0, Run(rule, c, s0, packets).events)
  }
}
