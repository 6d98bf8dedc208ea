# fps: cadence interpolation and the transcoding loop, in Dafny

`fps` re-times a video to a fixed output cadence. A decoded video frame
`b` that follows a frame `a` is preceded by synthetic frames, one for each
cadence bucket (`floor(pts / step)`) strictly between those of `a` and `b`.
Each synthetic frame is a clone of `a`, with
an evenly spaced timestamp and with the leading `linesize` bytes of every
shared plane blended sample by sample towards `b`. Audio passes through
untouched.

The project models two parts of the program:

- **The interpolator** (`Interpolator::linear`).
  - The bucket arithmetic, the frame count `n`, the timestamp spacing, the
    clone-and-shift of each synthetic frame and the per-sample blend rule.
  - The running 64-bit `total`, which wraps modulo 2^64.
  - Its initial value is an input, because the constructor never sets it.
- **The command-line program's read / decode / interpolate / encode loop**,
  with the `encode` helper and the exit codes.
  - The demuxer, the four codecs and the muxer are oracles. A decoder is a
    function from the packets it has taken and a new packet to "declined" or
    "taken, these frames are now ready". An encoder likewise answers a frame
    with "declined" or "taken, these packets are now ready".
  - The loop is a fold over the packets the reader yields. It records a
    trace of events: each packet's route, each frame offered to an encoder,
    and each packet handed to the writer.

Files:

- `frame.dfy` (`Frames`): frames as immutable values, their plane slots, and
  validity (`data[0]` set).
- `cadence.dfy` (`Cadence`): buckets, the count `n`, the spacing, an
  independent reading of `n` as cadence boundaries crossed, and telescoping
  over a run of timestamps.
- `interpolate.dfy`:
  - `Interpolate`: the blend rule, synthetic frames and `Linear`.
  - `InterpolateFacts`: properties relating several frames or samples, and
    the worked 24 to 60 fps example.
- `ordering.dfy` (`Ordering`): the reference order in which decoded and
  synthetic frames must reach the video encoder. It is defined without any
  codec.
- `pipeline.dfy` (`Pipeline`): the loop itself, with its codec calls, the
  drains, the routing of packets and `main`.
- `pipeline_facts.dfy` (`PipelineFacts`): the loop follows the reference
  order whatever the codecs answer, and the interpolator's total counts the
  synthetic frames.
- `delivery.dfy` (`Delivery`): no decoded frame is lost or reordered. Every
  frame a decoder yields reaches its encoder in order or is still waiting,
  and audio frames reach their encoder unchanged.
- `writer.dfy` (`Writer`): what reaches the writer. Every packet an encoder
  hands out for the frames it accepted is written in order, tagged with its
  media type, and each encoder's state moves on by exactly the frames it
  accepted.
- `seqs.dfy` (`Seqs`): generic sequence lemmas.

The blend rule is a parameter (`BlendRule`):

- `Mirrored` is the rule as the code writes it.
- `Directed` is the corrected one; see "## Findings".

Every property of the loop holds for both rules.

Three consequences of the code are easy to get wrong:

- **The count is not one per pair.** Decoded frames at 0, 3750 and 7500
  with step 1500 give three synthetic frames, at 1875, 5000 and 6250. The
  pair 3750 to 7500 crosses from bucket 2 to bucket 5 and yields two frames
  (`Ordering.ThreeFrameSchedule`).
- **The telescoped total.** For non-decreasing timestamps the synthetic
  frames number `floor(pk/step) - floor(p0/step)`, less the number of
  consecutive pairs whose buckets differ. A pair that stays in one bucket
  adds nothing and subtracts nothing (`Cadence.Telescoping`,
  `PipelineFacts.RunSyntheticsTelescope`).
- **The command line.** The program accepts exactly two arguments. There is
  no optional target-rate argument, so `step` is a parameter. Nothing is
  printed on success.

## Model

| member | source | states |
|---|---|---|
| Frames.Fresh | src/buffer.cc:20-40 | A newly allocated frame has no plane pointers, so it is not valid: `is_valid` tests `data[0]` |
| Cadence.Bucket | include/fps/interpolate.hh:20-21 | The bucket of a timestamp is the number of whole steps in it: `b * step <= pts < (b + 1) * step`, and it is never negative |
| Cadence.Spacing | include/fps/interpolate.hh:23 | The spacing is the largest whole number of ticks that fits `n + 1` times into the gap, so `n + 1` spacings never overshoot `pb - pa` and `n + 1` more would; it never exceeds the gap |
| Cadence.Count | include/fps/interpolate.hh:20-22 | The number of frames between two timestamps is 0 when they share a bucket, otherwise at most the number of buckets advanced less one; equal timestamps give 0 |
| Cadence.GapAtLeastCount | include/fps/interpolate.hh:20-23 | When at least one frame is synthesised, the timestamps are at least `n + 1` apart, so the spacing `(pb - pa) / (n + 1)` is at least one tick |
| Cadence.BoundariesAreBuckets | include/fps/interpolate.hh:20-21 | The multiples of `step` in `(pa, pb]` number exactly the buckets advanced from `pa` to `pb` |
| Cadence.CountIsInteriorBoundaries | include/fps/interpolate.hh:20-22 | `n` is the number of cadence boundaries crossed between the two timestamps less one, or 0 when none is crossed |
| Cadence.Telescoping | include/fps/interpolate.hh:17-26 | Over non-decreasing timestamps, the per-pair counts sum to the buckets advanced from first to last, less one for each pair whose buckets differ |
| Interpolate.AddU64 | include/fps/interpolate.hh:26 | `total += n` on a `uint64_t` stays in 64-bit range and is the exact sum whenever that sum fits |
| Interpolate.AddU64Twice | include/fps/interpolate.hh:26 | Two successive wrapping additions to the total equal one addition of their sum |
| Interpolate.Widened | include/fps/interpolate.hh:45-52 | A sample computed by the lambda, before narrowing, lies between the two input samples, and equal samples are returned unchanged |
| Interpolate.Blend | include/fps/interpolate.hh:42-52 | Converting the lambda's result back to a byte never wraps, so the stored sample lies in `[min(a, b), max(a, b)]` |
| Interpolate.BlendLine | include/fps/interpolate.hh:43-54 | `std::transform` over `[0, linesize)` blends exactly those samples and leaves the rest of the clone's plane as in `a` |
| Interpolate.BlendPlane | include/fps/interpolate.hh:33-54 | A plane slot that is null in `a` or `b` stays as in the clone of `a`; a plane both frames have keeps `a`'s length, holds the blend of `a` and `b` on its first `b.linesize[j]` bytes and `a`'s bytes beyond them |
| Interpolate.Synthesize | include/fps/interpolate.hh:28-55 | Synthetic frame `i` is a clone of `a` with all its plane slots: its timestamp, moved `(i + 1)` spacings past `a.pts`, and its planes are the only fields that may differ from `a` |
| Interpolate.SynthesizeBlends | include/fps/interpolate.hh:29-55 | A synthetic frame keeps `a`'s metadata and linesizes; a plane missing from `a` or `b` is `a`'s; every other plane is blended on its first `b.linesize[j]` bytes and is `a`'s beyond them |
| Interpolate.Fill | include/fps/interpolate.hh:25-56 | The loop produces exactly `n` frames, and the `i`-th is synthetic frame `i` |
| Interpolate.SyntheticPtsBetween | include/fps/interpolate.hh:23-31 | Synthetic frame `i` has a timestamp strictly between `a.pts` and `b.pts` |
| Interpolate.FillFacts | include/fps/interpolate.hh:23-56 | For a forward pair the synthetic frames lie strictly between the endpoints, are evenly spaced, and are each the `i`-th blend of `a` towards `b` |
| Interpolate.InterpolatedFrames | include/fps/interpolate.hh:17-25 | A backward pair gives no frames; a forward pair gives one frame per bucket strictly between the two; equal timestamps give none |
| Interpolate.InterpolatedFramesShape | include/fps/interpolate.hh:17-56 | The first frame is `(b.pts - a.pts) / (n + 1)` after `a`; the frames rise by that amount strictly inside `(a.pts, b.pts)`; each is the matching blend |
| Interpolate.Linear | include/fps/interpolate.hh:16-58 | A backward pair returns nothing and leaves the total alone; otherwise the total grows by the number of frames returned, modulo 2^64; the step never changes |
| InterpolateFacts.BlendedFromSelf | include/fps/interpolate.hh:46-47 | A blend against identical pixels reproduces the source planes |
| InterpolateFacts.SelfBlendKeepsPixels | include/fps/interpolate.hh:43-52 | Interpolating towards a frame with the same pixels yields frames whose pixels all equal the source's |
| InterpolateFacts.WorkedExample | include/fps/interpolate.hh:20-49 | Step 1500, timestamps 0 and 3750: exactly one frame, at 1875, where samples 100 and 200 blend to 150 |
| InterpolateFacts.MirroredBlendRunsBackward | include/fps/interpolate.hh:50-51 | For a falling sample, the written rule places the first synthetic frame further from the earlier frame's value than the second |
| InterpolateFacts.MirroredCounterexample | include/fps/interpolate.hh:48-52 | From 200 down to 100 over three frames, the written rule yields 125, 150, 175 and the corrected one yields 175, 150, 125 |
| InterpolateFacts.DirectedBlendMovesTowardB | include/fps/interpolate.hh:48-52 | With the corrected rule, successive synthetic frames move away from the earlier frame's sample and towards the later one's |
| InterpolateFacts.RulesAgreeWhenRising | include/fps/interpolate.hh:48-49 | For a rising or equal sample, the written and corrected rules agree |
| Ordering.Piece | app/main.cc:56-66 | One decoded frame submits one decoded frame, itself; while the slot is empty it submits only that frame; the synthetic frames submitted number those interpolated |
| Ordering.PieceParts | app/main.cc:56-66 | One decoded frame submits, in order, each interpolated frame marked synthetic, then the frame itself |
| Ordering.Schedule | app/main.cc:54-69 | The decoded frames among the reference order are exactly the frames read, in order; from an empty slot the first submission is the first frame read |
| Ordering.ScheduleSnoc | app/main.cc:54-69 | Reading one more decoded frame extends the reference order by that frame's piece, computed against the last frame read |
| Ordering.SyntheticsArePairCounts | app/main.cc:56-58 | From a valid slot, the synthetic frames in the reference order number the interpolator's counts over consecutive timestamps |
| Ordering.SyntheticsTelescope | include/fps/interpolate.hh:20-26 | From an empty slot over non-decreasing timestamps, the synthetic frames number the buckets advanced from first to last, less one per pair that advanced |
| Ordering.ThreeFrameCadence | include/fps/interpolate.hh:20-31 | Step 1500: 0 to 3750 yields one frame at 1875, and 3750 to 7500 yields two frames at 5000 and 6250 |
| Ordering.ThreeFrameSchedule | app/main.cc:54-68 | Decoded frames at 0, 3750 and 7500 reach the encoder as 0, synthetic 1875, 3750, synthetic 5000, synthetic 6250, 7500 |
| Pipeline.Decode | src/codec.cc:55-61 | A packet of another stream is refused without reaching the codec; otherwise the codec decides, and a packet it takes is recorded as taken and makes its frames ready after those already waiting |
| Pipeline.Writes | app/main.cc:45-47 | Every packet the encoder yields is handed to the writer, in order, tagged with the media type; nothing is submitted or routed |
| Pipeline.Encode | app/main.cc:40-49 | A refused frame writes nothing and reports failure; otherwise every packet the encoder yields is written in order, tagged with the media type, and it reports success |
| Pipeline.EncodeStops | app/main.cc:44-48 | The encode helper fails exactly when its last event is the refusal of the frame; a decoded frame it does not refuse, and any synthetic frame, leaves no refused decoded frame |
| Pipeline.EncodeEach | app/main.cc:60-62 | Every interpolated frame is offered to the video encoder in order, marked synthetic, whatever each attempt's outcome; nothing reaches audio or the router |
| Pipeline.EncodeEachAccepted | app/main.cc:60-62 | Encoding the interpolated frames, whose outcomes are ignored, never records a refused decoded frame |
| Pipeline.Interpolation | app/main.cc:56-63 | While the slot holds no pixels nothing is interpolated and the interpolator is unchanged; otherwise the frames are `linear(prev, frame)` and the total grows by their number |
| Pipeline.OnVideoFrame | app/main.cc:56-68 | After one decoded frame the slot holds that frame whatever the encode outcome, and the step is unchanged; draining stops exactly when the encoder refuses that frame, whose refusal is then the last event; no earlier decoded frame is refused |
| Pipeline.OnVideoFrameSubmits | app/main.cc:56-66 | One decoded frame submits exactly its piece of the reference order and nothing to audio, and the total grows by the synthetic frames among it |
| Pipeline.DrainVideo | app/main.cc:54-69 | A video drain reads a prefix of the ready frames, leaving the rest ready; it reads at least one when any is ready; the loop invariant is kept |
| Pipeline.DrainVideoViews | app/main.cc:54-69 | A video drain routes no packet and submits nothing to the audio encoder |
| Pipeline.DrainVideoStopsOnRefusal | app/main.cc:66-68 | A video drain leaves frames ready only when its last event is the refused encode of the last decoded frame it read; a refused decoded frame is never followed by another event |
| Pipeline.DrainAudio | app/main.cc:71-75 | An audio drain reads a prefix of the ready frames, leaving the rest ready, and reads at least one when any is ready; it submits to the audio encoder exactly the frames it read, in order, none synthetic |
| Pipeline.DrainAudioViews | app/main.cc:70-75 | An audio drain routes nothing, submits nothing to video, and never submits a synthetic frame |
| Pipeline.DrainAudioStopsOnRefusal | app/main.cc:72-74 | An audio drain leaves frames ready only when its last event is the refused encode of the last frame it read; a refused frame is never followed by another event |
| Pipeline.Step | app/main.cc:52-76 | A packet goes to video when the video decoder takes it, to audio only when video refused and audio took it, and is otherwise dropped with no change; only a video packet changes the video side |
| Pipeline.StepViews | app/main.cc:53-76 | A step routes exactly its own packet; only a video packet submits video frames, only an audio packet submits audio frames, and no audio frame is synthetic |
| Pipeline.Run | app/main.cc:52-77 | The loop keeps its invariant and the interpolator's step across every packet |
| Pipeline.RunRoutesEveryPacket | app/main.cc:52 | The loop routes every packet the reader yields exactly once, in order, and ends when there are none; no audio frame is synthetic |
| Pipeline.Start | app/main.cc:29-37 | The loop starts with no frames ready and an empty previous-frame slot |
| Pipeline.Main | app/main.cc:6-85 | The exit code is 0 exactly when there are two arguments and setup succeeds, and 1 otherwise with nothing written; a successful run routes every packet in order |
| PipelineFacts.FollowsSnoc | app/main.cc:54-66 | Taking in one more decoded frame and its piece keeps the submissions equal to the reference order, with the slot and the total to match |
| PipelineFacts.OnVideoFrameFollows | app/main.cc:56-66 | Handling one decoded frame extends the submissions by exactly that frame's piece of the reference order |
| PipelineFacts.DrainVideoFollows | app/main.cc:54-69 | A video drain extends the submissions by the reference order of exactly the frames it read |
| PipelineFacts.StepFollows | app/main.cc:53-69 | A step extends the video submissions by the reference order of the frames it decoded, if any |
| PipelineFacts.RunFollows | app/main.cc:52-77 | Over any packets the video submissions stay the reference order of the decoded frames read so far |
| PipelineFacts.RunFollowsSchedule | app/main.cc:33-77 | Whatever the codecs answer, the video encoder receives the reference order of the decoded frames, starting with a decoded one; the slot ends on the last; the total advances by the synthetic count modulo 2^64 |
| PipelineFacts.RunSyntheticsTelescope | include/fps/interpolate.hh:20-26 | Over a whole run with non-decreasing timestamps, the synthetic frames number the buckets advanced from first to last decoded frame, less one per pair that advanced |
| PipelineFacts.MainFollowsSchedule | app/main.cc:6-84 | A run that exits with 0 has handed the video encoder the reference order of its decoded frames, the first of them before any synthetic frame |
| Delivery.DrainVideoDelivers | app/main.cc:54-69 | The decoded frames a video drain submits, leaving out the synthetic ones, are exactly the frames it read, in order |
| Delivery.TakeAndDrain | app/main.cc:53-54 | Taking a packet and then reading a prefix of the ready frames keeps every frame the decoder has yielded either submitted, in order, or still ready |
| Delivery.StepDelivers | app/main.cc:52-76 | One packet keeps, for each decoder, every frame it has yielded either submitted to its encoder, in order, or still ready |
| Delivery.RunDelivers | app/main.cc:52-77 | Over any packets, every frame each decoder has yielded is submitted to its encoder, in order, or still ready |
| Delivery.RunDeliversEveryFrame | app/main.cc:33-77 | From the start and whatever the codecs answer, the decoded frames submitted to each encoder, followed by those still ready, are exactly the frames its decoder yielded; audio frames are submitted as decoded, none synthetic |
| Writer.WritesOf | app/main.cc:45-47 | Draining an encoder writes exactly its packets under its own media type and nothing under the other; it submits no frame |
| Writer.AcceptedThenWrites | app/main.cc:44-47 | An accepted frame followed by the packets the encoder hands out for it moves that encoder on by exactly that frame and writes exactly those packets |
| Writer.EncodeWrites | app/main.cc:40-48 | One encode moves the encoder on by the frame exactly when it is accepted, writes exactly the packets the codec yields for it, and touches nothing of the other media type |
| Writer.EncodeEachWrites | app/main.cc:60-62 | Encoding the interpolated frames moves the video encoder on by exactly those it accepted and writes exactly their packets, in order |
| Writer.OnVideoFrameWrites | app/main.cc:56-68 | Handling one decoded video frame moves the video encoder on by exactly the synthetic and decoded frames it accepted and writes exactly their packets; no audio is written or accepted |
| Writer.DrainVideoWrites | app/main.cc:54-69 | A video drain moves the video encoder on by exactly the frames it accepted and writes exactly their packets; no audio is written or accepted |
| Writer.DrainAudioWrites | app/main.cc:71-75 | An audio drain moves the audio encoder on by exactly the frames it accepted and writes exactly their packets; no video is written or accepted |
| Writer.StepWrites | app/main.cc:52-76 | One input packet moves each encoder on by exactly the frames it accepted and writes exactly their packets under the right media type |
| Writer.RunWrites | app/main.cc:52-77 | The same over any sequence of input packets |
| Writer.RunWritesEveryPacket | app/main.cc:33-77 | From the start and whatever the codecs answer, each encoder has taken exactly the frames recorded as accepted for it, and the packets written under its media type are exactly, in order, what it handed out for them |
| Writer.MainWrites | app/main.cc:6-85 | When `main` returns 0, the packets written under each media type are exactly what that encoder handed out for the frames it accepted; when it returns 1, nothing is written |

## Left out

- Container and codec setup (src/context.cc, src/codec.cc, src/io.cc) is foreign FFmpeg code. Its outcome is the `Setup` input: failed, or opened with stream indices, codec behaviours and the packets the reader yields.
- The codecs' internals are oracles. An encoder's yielded packets stand for those `read_into` returns until it reports none.
- The writer's timestamp rescaling and its return value are not modelled; the loop ignores that value.
- src/fps.cc repeats the other source files, and include/fps/fps.hh declares classes that match none of them. Neither is part of this model.
- `Unref`/`Buffer` scoped release and `copy_from` are modelled as value copies. In FFmpeg, `av_frame_clone` shares refcounted pixel buffers, so writes to a clone's planes may reach `a`'s data. The model treats every synthetic frame as a private copy.
- The loop assigns the slot before encoding the decoded frame. With value copies this order is invisible, so it is stated only as "the slot holds the frame whatever the encode outcome".
- main.cc calls `Interpolator::linear(prev, frame, n)` as a static three-argument function, which does not match the two-argument member in include/fps/interpolate.hh. The model runs the loop with one `Interpolator` value that carries a fixed step.
- Allocation failures in `Frame()`/`Packet()` are part of "setup failed" and are not modelled separately.
- Exceptions thrown from inside the loop are not modelled: an oracle never throws. Only setup failure leads to exit code 1.
- Error messages on stderr are not modelled; only the exit code and the trace are.
- Negative timestamps are excluded. The source divides a signed timestamp by an unsigned step, which would reinterpret a negative value. Every timestamp must lie in `[0, 2^63)`.
- `pts_step * (i + 1)` and `a.pts + …` are computed in the signed 64-bit `pts_t`, where overflow would be undefined behaviour. The model computes them on unbounded integers. For timestamps in range the results lie strictly between `a.pts` and `b.pts` (Interpolate.SyntheticPtsBetween), so no overflow can occur.
- The loop counter is an `int i` compared with `n`, a signed 64-bit `pts_t`. The model's counter is unbounded. More than 2^31 - 1 synthetic frames for one pair, where incrementing `i` would overflow `int`, is out of scope.
- Only the first `linesize` bytes (one scanline) of each plane are blended, as the code does. The rest of each plane stays a copy of `a`.
- Frames of one video stream are assumed to share a plane layout, in which every linesize fits every buffer (`Conforms`). The source relies on this implicitly when it reads `b.linesize[j]` bytes of `a`'s plane.
- Nothing is flushed at end of stream: the program drains neither decoders nor encoders.
- Pipeline.Run: its own contract states only the invariant and the step. What a run submits is stated by Pipeline.RunRoutesEveryPacket and PipelineFacts.RunFollowsSchedule.
- PipelineFacts.RunSyntheticsTelescope: states the synthetic count, not the final total. RunFollowsSchedule ties the total to that count modulo 2^64.

## Findings

| source | as written | input that shows it | evidently intended | confidence | as-written member | corrected member |
|---|---|---|---|---|---|---|
| include/fps/interpolate.hh:50-51 | when `a > b` the blend is `b + (a - b) / (n + 1) * (i + 1)`, which starts near `b` and moves back towards `a` | `a = 200`, `b = 100`, `n = 3`: frames 0, 1, 2 get 125, 150, 175, so the first synthetic frame is nearest the later frame | `a - (a - b) / (n + 1) * (i + 1)`: 175, 150, 125, moving from `a` towards `b` as in the rising branch | high (not executed) | InterpolateFacts.MirroredBlendRunsBackward | InterpolateFacts.DirectedBlendMovesTowardB |
