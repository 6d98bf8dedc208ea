/**
 Decoded frames as immutable values.

 A frame carries a presentation timestamp, the fixed array of plane slots
 (`data[0..8)` in the decoder's frame structure, each either a byte buffer or
 null), the per-plane `linesize` array and the remaining metadata, which the
 interpolator copies but never reads. Cloning a frame is a value copy here.
 */
module Frames {

  /** Number of plane slots in a frame (AV_NUM_DATA_POINTERS). */
  const NumPlanes: nat := 8

  /** Largest value of the signed 64-bit timestamp type. */
  const Int64Max: int := 0x7FFF_FFFF_FFFF_FFFF

  /** The "no timestamp" marker a freshly allocated frame carries (AV_NOPTS_VALUE). */
  const NoPts: int := -0x8000_0000_0000_0000

  /** Pixel samples are unsigned 8-bit values. */
  type Byte = x: int | 0 <= x < 256

  /** One plane slot: a null pointer, or a buffer of samples. */
  datatype Plane = Absent | Present(bytes: seq<Byte>)

  datatype Frame = Frame(
    pts: int,
    data: seq<Plane>,
    linesize: seq<int>,
    width: int,
    height: int,
    format: int)

  /** The plane and linesize arrays have their fixed length. */
  predicate WellFormed(f: Frame)
  {
    |f.data| == NumPlanes && |f.linesize| == NumPlanes
  }

  /** A frame holds decoded pixels exactly when its first plane pointer is set. */
  predicate IsValid(f: Frame)
  {
    |f.data| > 0 && f.data[0].Present?
  }

  /** Timestamps the interpolator accepts: non-negative 64-bit values. */
  predicate PtsOk(pts: int)
  {
    0 <= pts <= Int64Max
  }

  /** The frame a default-constructed `Frame` holds: no planes, no timestamp. */
  function Fresh(): (f: Frame)
    ensures WellFormed(f)
    ensures !IsValid(f)
    ensures forall j :: 0 <= j < NumPlanes ==> f.data[j] == Absent
  {
    Frame(NoPts, seq(NumPlanes, _ => Absent), seq(NumPlanes, _ => 0), 0, 0, -1)
  }

  /**
   A frame fits a plane layout when it is well formed, has an acceptable
   timestamp, and every plane it has holds at least `layout[j]` bytes while its
   linesize is between 0 and `layout[j]`. All frames of one video stream share
   such a layout.
   */
  predicate Conforms(f: Frame, layout: seq<int>)
  {
    && WellFormed(f)
    && |layout| == NumPlanes
    && PtsOk(f.pts)
    && forall j :: 0 <= j < NumPlanes && f.data[j].Present? ==>
         0 <= f.linesize[j] <= layout[j] <= |f.data[j].bytes|
  }

  /**
   What blending `b` into a copy of `a` needs: for every plane both frames
   have, `b`'s linesize is a valid byte count of both buffers.
   */
  predicate Blendable(a: Frame, b: Frame)
  {
    && WellFormed(a)
    && WellFormed(b)
    && forall j :: 0 <= j < NumPlanes && a.data[j].Present? && b.data[j].Present? ==>
         0 <= b.linesize[j] <= |a.data[j].bytes| && b.linesize[j] <= |b.data[j].bytes|
  }

  /** Two frames of the same layout can be blended either way round. */
  lemma ConformingFramesBlend(a: Frame, b: Frame, layout: seq<int>)
    requires Conforms(a, layout) && Conforms(b, layout)
    ensures Blendable(a, b)
  {
  }
}
