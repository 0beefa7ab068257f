/** The per-frame hand-off shared by `Broadcaster::onVideoFrame` and
    `WebRTCStream::onVideoFrame`: I420 buffer geometry computed from the output
    size, the nanosecond-to-microsecond timestamp, rotation 0 and the wrapping
    16-bit frame id. Pixel conversion (libyuv) and the timestamp aligner are
    foreign: the aligner is a parameter. */
module Capture {
  import opened CTypes
  import opened Optional

  /** The arguments `I420Buffer::Create` and `ConvertToI420` receive. */
  datatype Geometry = Geometry(
    sourceWidth: int32,
    sourceHeight: int32,
    size: uint32,
    strideY: int32,
    strideUv: int32,
    targetWidth: int32,
    targetHeight: int32)

  /** `w * h * 3 / 2` evaluated in `int` and stored into a `uint32_t`. */
  function BufferSize(w: int32, h: int32): uint32
  {
    ToUint32(TruncDiv(ToInt32(ToInt32(w * h) * 3), 2))
  }

  /** `(w + 1) / 2` evaluated in `int`. */
  function ChromaStride(w: int32): int32
  {
    ToInt32(TruncDiv(ToInt32(w + 1), 2))
  }

  /** The buffer geometry for an output of the given size, as the `uint32_t`
      getters' values flow through `int` arithmetic. */
  function FrameGeometry(outputWidth: uint32, outputHeight: uint32): Geometry
  {
    var w := ToInt32(outputWidth);
    var h := ToInt32(outputHeight);
    Geometry(w, h, BufferSize(w, h), w, ChromaStride(w), Abs32(w), Abs32(h))
  }

  /** Without overflow, the buffer holds one and a half bytes per pixel, the
      target size is the output size, and the chroma stride covers half the
      width rounded up. */
  lemma GeometryWithoutOverflow(outputWidth: uint32, outputHeight: uint32)
    requires outputWidth < TWO_31 - 1 && outputHeight < TWO_31
    requires 3 * (outputWidth * outputHeight) < TWO_31
    ensures var g := FrameGeometry(outputWidth, outputHeight);
            && g.strideY == outputWidth
            && g.size == 3 * (outputWidth * outputHeight) / 2
            && g.targetWidth == outputWidth && g.targetHeight == outputHeight
            && 2 * g.strideUv >= outputWidth && 2 * g.strideUv <= outputWidth + 1
  {
    var w := ToInt32(outputWidth);
    var h := ToInt32(outputHeight);
    assert w == outputWidth && h == outputHeight;
    SizeFromArea(outputWidth * outputHeight);
    assert BufferSize(w, h) == 3 * (outputWidth * outputHeight) / 2;
    assert ToInt32(outputWidth + 1) == outputWidth + 1;
  }

  /** The size computation once the area is known to fit. */
  lemma SizeFromArea(area: int)
    requires 0 <= 3 * area < TWO_31
    ensures ToUint32(TruncDiv(ToInt32(ToInt32(area) * 3), 2)) == 3 * area / 2
  {
    assert ToInt32(area) == area;
    assert ToInt32(area * 3) == 3 * area;
  }

  /** For even, positive, non-overflowing dimensions the buffer size is exactly
      one full-resolution Y plane plus two quarter-size chroma planes. */
  lemma I420PlanesFillBuffer(outputWidth: uint32, outputHeight: uint32)
    requires 0 < outputWidth && 0 < outputHeight
    requires outputWidth % 2 == 0 && outputHeight % 2 == 0
    requires 3 * (outputWidth * outputHeight) < TWO_31
    ensures var g := FrameGeometry(outputWidth, outputHeight);
            g.size == g.targetWidth * g.targetHeight + 2 * (g.strideUv * (g.targetHeight / 2))
  {
    var g := FrameGeometry(outputWidth, outputHeight);
    var p := outputWidth * outputHeight;
    assert p >= outputWidth && p >= outputHeight by {
      ProductBounds(outputWidth, outputHeight);
    }
    GeometryWithoutOverflow(outputWidth, outputHeight);
    var a := outputWidth / 2;
    var b := outputHeight / 2;
    assert g.strideUv == a;
    assert g.targetHeight / 2 == b;
    var ab := a * b;
    assert p == 4 * ab by {
      EvenProduct(a, b);
    }
    assert g.size == 6 * ab;
    assert g.targetWidth * g.targetHeight == 4 * ab;
  }

  lemma ProductBounds(x: nat, y: nat)
    requires 0 < x && 0 < y
    ensures x * y >= x && x * y >= y
  {
  }

  lemma EvenProduct(a: int, b: int)
    ensures (2 * a) * (2 * b) == 4 * (a * b)
  {
  }

  /** A height above `INT_MAX` reads as negative (a flipped source): the
      target height is its magnitude while the stride math keeps the sign. */
  lemma FlippedSourceUsesMagnitude(outputWidth: uint32, outputHeight: uint32)
    requires TWO_31 < outputHeight
    ensures var g := FrameGeometry(outputWidth, outputHeight);
            && g.sourceHeight == outputHeight - TWO_32 < 0
            && g.targetHeight == -g.sourceHeight > 0
  {
    var g := FrameGeometry(outputWidth, outputHeight);
    var h := ToInt32(outputHeight);
    assert g.sourceHeight == h && g.targetHeight == Abs32(h);
    NegativeHeightMagnitude(outputHeight);
  }

  lemma NegativeHeightMagnitude(x: uint32)
    requires TWO_31 < x
    ensures ToInt32(x) == x - TWO_32 < 0
    ensures Abs32(ToInt32(x)) == -ToInt32(x) > 0
  {
    assert x % TWO_32 == x;
  }

  /** `(int64_t)timestamp / rtc::kNumNanosecsPerMicrosec`. */
  function NanosToMicros(timestampNs: uint64): (us: int64)
    ensures timestampNs < TWO_63 ==> us == timestampNs / 1000
    ensures timestampNs < TWO_63 ==> 1000 * us <= timestampNs < 1000 * us + 1000
    ensures timestampNs >= TWO_63 ==> us <= 0
  {
    TruncDiv(ToInt64(timestampNs), 1000)
  }

  /** Truncation keeps the order of host timestamps (below the sign bit). */
  lemma NanosToMicrosMonotonic(a: uint64, b: uint64)
    requires a <= b < TWO_63
    ensures NanosToMicros(a) <= NanosToMicros(b)
  {
  }

  /** The raw frame the host pushes; its pixel planes are foreign. */
  datatype RawVideoFrame = RawVideoFrame(timestampNs: uint64)

  /** The `webrtc::VideoFrame` built for the capturer. */
  datatype CapturedFrame = CapturedFrame(
    geometry: Geometry,
    timestampUs: int,
    rotation: int,
    id: uint16)

  /** The part of the output object the hand-off reads and writes. */
  datatype CaptureState = CaptureState(frameId: uint16, capturerPresent: bool)

  /** A fresh output: the constructor zeroes the counter and creates the capturer. */
  const INITIAL: CaptureState := CaptureState(0, true)

  /** One `onVideoFrame` call. `align` stands for the aligner's
      `TranslateTimestamp(us, rtc::TimeMicros())`. */
  function OnVideoFrame(state: CaptureState, frame: Option<RawVideoFrame>,
                        outputWidth: uint32, outputHeight: uint32,
                        align: int -> int): (r: (CaptureState, Option<CapturedFrame>))
    // A null frame or a missing capturer is ignored entirely.
    ensures frame.None? || !state.capturerPresent ==> r == (state, None)
    // Otherwise exactly one frame is published, with the next counter value.
    ensures frame.Some? && state.capturerPresent ==>
              && r.1.Some?
              && r.0 == state.(frameId := PreIncrement16(state.frameId))
              && r.1.value.id == r.0.frameId
              && r.1.value.rotation == 0
              && r.1.value.timestampUs == align(NanosToMicros(frame.value.timestampNs))
              && r.1.value.geometry == FrameGeometry(outputWidth, outputHeight)
  {
    if frame.None? || !state.capturerPresent then (state, None)
    else
      var id := PreIncrement16(state.frameId);
      var us := NanosToMicros(frame.value.timestampNs);
      (state.(frameId := id),
       Some(CapturedFrame(FrameGeometry(outputWidth, outputHeight), align(us), 0, id)))
  }

  /** Feeds a sequence of host calls through `OnVideoFrame`, collecting the
      published frames. */
  function Run(state: CaptureState, frames: seq<Option<RawVideoFrame>>,
               outputWidth: uint32, outputHeight: uint32,
               align: int -> int): (CaptureState, seq<CapturedFrame>)
    decreases |frames|
  {
    if |frames| == 0 then (state, [])
    else
      var (s1, out) := OnVideoFrame(state, frames[0], outputWidth, outputHeight, align);
      var (s2, rest) := Run(s1, frames[1..], outputWidth, outputHeight, align);
      (s2, (if out.Some? then [out.value] else []) + rest)
  }

  /** The number of non-null frames in a sequence of host calls. */
  function Present(frames: seq<Option<RawVideoFrame>>): nat
  {
    if |frames| == 0 then 0 else (if frames[0].Some? then 1 else 0) + Present(frames[1..])
  }

  /** With a capturer, every non-null frame is published exactly once and the
      k-th published frame (counting from 0) carries id start + k + 1 modulo
      2^16; from a fresh output the first id is 1 and 65535 is followed by 0. */
  lemma {:induction false} RunNumbersFrames(state: CaptureState, frames: seq<Option<RawVideoFrame>>,
                         outputWidth: uint32, outputHeight: uint32, align: int -> int)
    requires state.capturerPresent
    ensures var (s, out) := Run(state, frames, outputWidth, outputHeight, align);
            && |out| == Present(frames)
            && s.capturerPresent
            && s.frameId == Increments16(state.frameId, Present(frames))
            && forall k :: 0 <= k < |out| ==> out[k].id == Increments16(state.frameId, k + 1)
  {
    RunAdvancesCounter(state, frames, outputWidth, outputHeight, align);
    RunIdsFollowCounter(state, frames, outputWidth, outputHeight, align);
  }

  lemma {:induction false} RunAdvancesCounter(state: CaptureState, frames: seq<Option<RawVideoFrame>>,
                                              outputWidth: uint32, outputHeight: uint32, align: int -> int)
    requires state.capturerPresent
    ensures var (s, out) := Run(state, frames, outputWidth, outputHeight, align);
            && |out| == Present(frames)
            && s.capturerPresent
            && s.frameId == Increments16(state.frameId, Present(frames))
    decreases |frames|
  {
    if |frames| > 0 {
      var (s1, first) := OnVideoFrame(state, frames[0], outputWidth, outputHeight, align);
      RunAdvancesCounter(s1, frames[1..], outputWidth, outputHeight, align);
      var n := if first.Some? then 1 else 0;
      assert Present(frames) == n + Present(frames[1..]);
      assert Increments16(state.frameId, 0) == state.frameId;
      assert s1.frameId == Increments16(state.frameId, n);
      IncrementsCompose(state.frameId, n, Present(frames[1..]));
    }
  }

  /** The k-th frame of `out` carries the k+1-th id after `start`. */
  predicate NumberedFrom(start: uint16, out: seq<CapturedFrame>)
  {
    forall k :: 0 <= k < |out| ==> out[k].id == Increments16(start, k + 1)
  }

  lemma {:induction false} RunIdsFollowCounter(state: CaptureState, frames: seq<Option<RawVideoFrame>>,
                                               outputWidth: uint32, outputHeight: uint32, align: int -> int)
    requires state.capturerPresent
    ensures NumberedFrom(state.frameId, Run(state, frames, outputWidth, outputHeight, align).1)
    decreases |frames|
  {
    if |frames| > 0 {
      var (s1, first) := OnVideoFrame(state, frames[0], outputWidth, outputHeight, align);
      RunIdsFollowCounter(s1, frames[1..], outputWidth, outputHeight, align);
      var rest := Run(s1, frames[1..], outputWidth, outputHeight, align).1;
      assert NumberedFrom(s1.frameId, rest);
      var head := if first.Some? then [first.value] else [];
      assert Run(state, frames, outputWidth, outputHeight, align).1 == head + rest;
      assert Increments16(state.frameId, 0) == state.frameId;
      NumberedAfterHead(state.frameId, s1.frameId, head, rest);
    }
  }

  /** Prepending the frame (if any) that took the counter from `start` to
      `next` keeps the numbering. */
  lemma NumberedAfterHead(start: uint16, next: uint16, head: seq<CapturedFrame>, rest: seq<CapturedFrame>)
    requires |head| <= 1 && next == Increments16(start, |head|)
    requires |head| == 1 ==> head[0].id == next
    requires NumberedFrom(next, rest)
    ensures NumberedFrom(start, head + rest)
  {
    var out := head + rest;
    var n := |head|;
    forall k | 0 <= k < |out|
      ensures out[k].id == Increments16(start, k + 1)
    {
      if k < n {
        assert out[k] == head[0];
      } else {
        assert out[k] == rest[k - n];
        IncrementsCompose(start, n, k - n + 1);
      }
    }
  }

  lemma {:induction false} IncrementsCompose(start: uint16, m: nat, n: nat)
    ensures Increments16(Increments16(start, m), n) == Increments16(start, m + n)
    decreases n
  {
    if n > 0 {
      IncrementsCompose(start, m, n - 1);
    }
  }

  /** From a fresh output the first frame gets id 1, the n-th gets n modulo
      2^16, and the frame after id 65535 gets id 0. */
  lemma FreshCounterWraps(n: nat)
    ensures Increments16(INITIAL.frameId, 1) == 1
    ensures Increments16(INITIAL.frameId, n) == n % TWO_16
    ensures Increments16(INITIAL.frameId, n) == TWO_16 - 1 ==> Increments16(INITIAL.frameId, n + 1) == 0
  {
    Increments16IsAddition(0, n);
    Increments16IsAddition(0, n + 1);
    PreIncrementOfRemainder(n, n % TWO_16);
  }
}
