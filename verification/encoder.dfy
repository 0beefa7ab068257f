/** The pass-through H.264 encoder (`MediasoupVideoEncoder`): an obs encoder's
    packet-callback registry, packet dispatch with SPS/PPS/SEI framing, the
    timestamp arithmetic of `do_encode` and `on_new_encoded_packet`, the queue
    of `InputFrameInfo`, the key-frame request flag and the sticky encode error.

    The encoder implementation, the H.264 start-code search and the clock are
    foreign: their answers are parameters. */
module Encoder {
  import opened CTypes
  import opened Optional

  type byte = x: int | 0 <= x < 256

  /* ------------------------------------------------------ callback registry */

  /** `struct encoder_callback`: the flag and the (function, param) pair that
      identifies the registration. */
  datatype Callback = Callback(sentFirstPacket: bool, newPacket: nat, param: nat)

  /** The identity of a registration. */
  datatype Key = Key(newPacket: nat, param: nat)

  function KeyOf(cb: Callback): Key
  {
    Key(cb.newPacket, cb.param)
  }

  /** The function pointer `start_internal` registers (`new_encoded_packet`). */
  const NEW_ENCODED_PACKET: nat := 0

  /** No two registrations share a key. */
  predicate Unique(callbacks: seq<Callback>)
  {
    forall i, j :: 0 <= i < j < |callbacks| ==> KeyOf(callbacks[i]) != KeyOf(callbacks[j])
  }

  predicate Registered(callbacks: seq<Callback>, key: Key)
  {
    exists i :: 0 <= i < |callbacks| && KeyOf(callbacks[i]) == key
  }

  /** The first index at or after `from` whose registration has the given key. */
  function IndexFrom(callbacks: seq<Callback>, key: Key, from: nat): (r: Option<nat>)
    requires from <= |callbacks|
    ensures r.Some? ==> from <= r.value < |callbacks| && KeyOf(callbacks[r.value]) == key
                        && forall j :: from <= j < r.value ==> KeyOf(callbacks[j]) != key
    ensures r.None? ==> forall j :: from <= j < |callbacks| ==> KeyOf(callbacks[j]) != key
    decreases |callbacks| - from
  {
    if from == |callbacks| then None
    else if KeyOf(callbacks[from]) == key then Some(from)
    else IndexFrom(callbacks, key, from + 1)
  }

  /** `get_callback_idx` as a reference function; `None` is `DARRAY_INVALID`. */
  function CallbackIdx(callbacks: seq<Callback>, key: Key): (r: Option<nat>)
    ensures r.Some? ==> r.value < |callbacks| && KeyOf(callbacks[r.value]) == key
                        && forall j :: 0 <= j < r.value ==> KeyOf(callbacks[j]) != key
    ensures r.None? <==> !Registered(callbacks, key)
  {
    IndexFrom(callbacks, key, 0)
  }

  /** `get_callback_idx`, the linear scan as written. */
  method GetCallbackIdx(callbacks: seq<Callback>, newPacket: nat, param: nat) returns (r: Option<nat>)
    ensures r.Some? ==> r.value < |callbacks|
                        && callbacks[r.value].newPacket == newPacket && callbacks[r.value].param == param
                        && forall j :: 0 <= j < r.value ==>
                             callbacks[j].newPacket != newPacket || callbacks[j].param != param
    ensures r.None? ==> forall j :: 0 <= j < |callbacks| ==>
                          callbacks[j].newPacket != newPacket || callbacks[j].param != param
    ensures r == CallbackIdx(callbacks, Key(newPacket, param))
  {
    var i := 0;
    while i < |callbacks|
      invariant 0 <= i <= |callbacks|
      invariant forall j :: 0 <= j < i ==> callbacks[j].newPacket != newPacket || callbacks[j].param != param
      invariant IndexFrom(callbacks, Key(newPacket, param), 0) == IndexFrom(callbacks, Key(newPacket, param), i)
    {
      if callbacks[i].newPacket == newPacket && callbacks[i].param == param {
        return Some(i);
      }
      i := i + 1;
    }
    return None;
  }

  /* ---------------------------------------------------------------- state */

  /** The fields of `struct obs_encoder` the pipeline reads and writes. */
  datatype ObsEncoder = ObsEncoder(
    callbacks: seq<Callback>,
    hasContextData: bool,
    isVideo: bool,
    curPts: int,
    active: bool,
    initialized: bool,
    destroyOnStop: bool,
    firstReceived: bool,
    offsetUsec: int,
    startTs: uint64,
    timebaseNum: int,
    timebaseDen: int,
    /** SPS/PPS from `obs_encoder_get_extra_data`. */
    extraData: seq<byte>,
    /** What `get_sei` yields: `None` when the encoder has no SEI callback,
        the callback fails, or it hands back NULL. */
    sei: Option<seq<byte>>)

  datatype Rotation = Rotation0 | Rotation90 | Rotation180 | Rotation270

  /** `webrtc::FrameType`. */
  datatype FrameType = EmptyFrame | AudioFrameSpeech | AudioFrameCN | VideoFrameKey | VideoFrameDelta

  /** The timing of one frame handed to `Encode`. */
  datatype InputFrameInfo = InputFrameInfo(
    encodeStartTime: int64,
    frameTimestamp: int32,
    frameRenderTimeMs: int64,
    rotation: Rotation)

  /** The fields of `MediasoupVideoEncoder` the pipeline reads and writes. The
      `output*` fields are uninitialised until the first frame info is popped. */
  datatype VideoEncoder = VideoEncoder(
    started: bool,
    lastEncodeError: bool,
    sendKeyFrame: bool,
    width: int32,
    height: int32,
    hasCallback: bool,
    deltaNtpInternalMs: int64,
    inputFrameInfos: seq<InputFrameInfo>,
    outputTimestamp: Option<int32>,
    outputRenderTimeMs: Option<int64>,
    outputRotation: Option<Rotation>)

  /** `struct encoder_packet`, with the payload as a byte sequence. */
  datatype Packet = Packet(
    data: seq<byte>,
    keyframe: bool,
    pts: int,
    dts: int,
    dtsUsec: int64,
    sysDtsUsec: int64,
    timebaseNum: int,
    timebaseDen: int)

  /** One `cb->new_packet(cb->param, packet)` call; `slot` is the callback's
      index in the registry. */
  datatype Delivery = Delivery(slot: nat, key: Key, packet: Packet)

  /* ---------------------------------------------------- start / stop */

  /** `start_internal` for the encoder object `self`. */
  function StartInternal(enc: ObsEncoder, w: VideoEncoder, self: nat): (r: (ObsEncoder, VideoEncoder, bool))
    // Without encoder context data nothing changes and the start fails.
    ensures !enc.hasContextData ==> r == (enc, w, false)
    ensures enc.hasContextData ==>
              var (e, v, ok) := r;
              && ok && v == w.(started := true)
              // registered afterwards, appended at the end only if it was absent
              && Registered(e.callbacks, Key(NEW_ENCODED_PACKET, self))
              && (if Registered(enc.callbacks, Key(NEW_ENCODED_PACKET, self)) then e.callbacks == enc.callbacks
                  else e.callbacks == enc.callbacks + [Callback(false, NEW_ENCODED_PACKET, self)])
              && (Unique(enc.callbacks) ==> Unique(e.callbacks))
              // the clock is reset and the encoder activated only for the first registration
              && (|enc.callbacks| == 0 ==> e.curPts == 0 && e.active)
              && (|enc.callbacks| > 0 ==> e.curPts == enc.curPts && e.active == enc.active)
              && e == enc.(callbacks := e.callbacks, curPts := e.curPts, active := e.active)
  {
    if !enc.hasContextData then (enc, w, false)
    else
      var first := |enc.callbacks| == 0;
      var e := enc.(callbacks := AddCallback(enc.callbacks, Callback(false, NEW_ENCODED_PACKET, self)));
      var e' := if first then e.(curPts := 0, active := true) else e;
      (e', w.(started := true), true)
  }

  /** `add_callback` guarded by `get_callback_idx`: the registration is
      appended unless one with the same key is already present. */
  function AddCallback(callbacks: seq<Callback>, cb: Callback): (r: seq<Callback>)
    ensures Registered(r, KeyOf(cb))
    ensures Registered(callbacks, KeyOf(cb)) ==> r == callbacks
    ensures !Registered(callbacks, KeyOf(cb)) ==> r == callbacks + [cb]
    ensures Unique(callbacks) ==> Unique(r)
  {
    if CallbackIdx(callbacks, KeyOf(cb)).None? then
      var r := callbacks + [cb];
      assert r[|callbacks|] == cb;
      r
    else callbacks
  }

  /** `stop_internal`: unregister the (function, param) pair. The result says
      whether the encoder object was destroyed. */
  function StopInternal(enc: ObsEncoder, w: VideoEncoder, newPacket: nat, param: nat)
    : (r: (ObsEncoder, VideoEncoder, bool))
    ensures var (e, v, destroyed) := r;
            var key := Key(newPacket, param);
            var idx := CallbackIdx(enc.callbacks, key);
            var last := idx.Some? && |enc.callbacks| == 1;
            && v == w.(started := false)
            // the first matching entry is erased, the others keep their order
            && e.callbacks == RemoveCallback(enc.callbacks, key)
            // shut down exactly when that entry was the last one: the context
            // data is gone and the first-packet state cleared
            && (last ==> !e.active && !e.initialized && !e.hasContextData)
            && (last && enc.hasContextData ==> !e.firstReceived && e.offsetUsec == 0 && e.startTs == 0)
            && (!last ==> e == enc.(callbacks := e.callbacks))
            && (destroyed <==> last && enc.destroyOnStop)
            && e == enc.(callbacks := e.callbacks, active := e.active, initialized := e.initialized,
                         hasContextData := e.hasContextData, firstReceived := e.firstReceived,
                         offsetUsec := e.offsetUsec, startTs := e.startTs)
  {
    var key := Key(newPacket, param);
    var idx := CallbackIdx(enc.callbacks, key);
    var callbacks := RemoveCallback(enc.callbacks, key);
    var last := idx.Some? && |callbacks| == 0;
    var e := enc.(callbacks := callbacks);
    var e' := if last then Shutdown(e).(active := false, initialized := false) else e;
    (e', w.(started := false), last && enc.destroyOnStop)
  }

  /** libobs' `obs_encoder_shutdown`: when the encoder still has context data,
      that data is destroyed and the first-packet state (`first_received`,
      `offset_usec`, `start_ts`) is cleared; otherwise nothing happens. */
  function Shutdown(enc: ObsEncoder): (e: ObsEncoder)
    ensures !e.hasContextData
    ensures enc.hasContextData ==> !e.firstReceived && e.offsetUsec == 0 && e.startTs == 0
    ensures !enc.hasContextData ==> e == enc
    ensures e.callbacks == enc.callbacks && e.active == enc.active && e.initialized == enc.initialized
  {
    if enc.hasContextData then
      enc.(hasContextData := false, firstReceived := false, offsetUsec := 0, startTs := 0)
    else enc
  }

  /** Once the last callback is gone the encoder has no context data, so a
      later `start_internal` fails and changes nothing until libobs
      re-initialises the encoder. */
  lemma LastStopThenStartFails(enc: ObsEncoder, w: VideoEncoder, newPacket: nat, param: nat, self: nat)
    requires Registered(enc.callbacks, Key(newPacket, param)) && |enc.callbacks| == 1
    ensures var (e1, w1, _) := StopInternal(enc, w, newPacket, param);
            && e1.callbacks == []
            && StartInternal(e1, w1, self) == (e1, w1, false)
  {
    var key := Key(newPacket, param);
    assert CallbackIdx(enc.callbacks, key).Some?;
  }

  /** `get_callback_idx` then `da_erase`: the first registration with the
      key is removed, the others keep their order. */
  function RemoveCallback(callbacks: seq<Callback>, key: Key): (r: seq<Callback>)
    ensures var idx := CallbackIdx(callbacks, key);
            && (idx.None? ==> r == callbacks)
            && (idx.Some? ==> r == callbacks[..idx.value] + callbacks[idx.value + 1..] && |r| == |callbacks| - 1)
    ensures Unique(callbacks) ==> Unique(r) && !Registered(r, key)
  {
    var idx := CallbackIdx(callbacks, key);
    if idx.Some? then
      EraseKeepsUnique(callbacks, idx.value, key);
      callbacks[..idx.value] + callbacks[idx.value + 1..]
    else callbacks
  }

  lemma EraseKeepsUnique(callbacks: seq<Callback>, i: nat, key: Key)
    requires i < |callbacks| && KeyOf(callbacks[i]) == key
    ensures var rest := callbacks[..i] + callbacks[i + 1..];
            Unique(callbacks) ==> Unique(rest) && !Registered(rest, key)
  {
    var rest := callbacks[..i] + callbacks[i + 1..];
    if Unique(callbacks) {
      forall a, b | 0 <= a < b < |rest|
        ensures KeyOf(rest[a]) != KeyOf(rest[b])
      {
        var a' := if a < i then a else a + 1;
        var b' := if b < i then b else b + 1;
        assert rest[a] == callbacks[a'] && rest[b] == callbacks[b'];
      }
      forall k | 0 <= k < |rest|
        ensures KeyOf(rest[k]) != key
      {
        var k' := if k < i then k else k + 1;
        assert rest[k] == callbacks[k'];
      }
    }
  }

  /** Registering and then unregistering the same encoder restores the
      registry it started from. */
  lemma StartThenStopRestores(enc: ObsEncoder, w: VideoEncoder, self: nat)
    requires enc.hasContextData
    requires !Registered(enc.callbacks, Key(NEW_ENCODED_PACKET, self))
    ensures var (e1, w1, ok) := StartInternal(enc, w, self);
            var (e2, w2, destroyed) := StopInternal(e1, w1, NEW_ENCODED_PACKET, self);
            && ok && e2.callbacks == enc.callbacks && !w2.started
  {
    var (e1, w1, ok) := StartInternal(enc, w, self);
    var key := Key(NEW_ENCODED_PACKET, self);
    assert e1.callbacks == enc.callbacks + [Callback(false, NEW_ENCODED_PACKET, self)];
    var idx := CallbackIdx(e1.callbacks, key);
    assert idx == Some(|enc.callbacks|) by {
      assert KeyOf(e1.callbacks[|enc.callbacks|]) == key;
      assert forall j :: 0 <= j < |enc.callbacks| ==> e1.callbacks[j] == enc.callbacks[j];
    }
    assert e1.callbacks[..|enc.callbacks|] == enc.callbacks;
  }

  /* ------------------------------------------------------- packet framing */

  /** The encoder has SEI to prepend: `get_sei` succeeded with non-NULL, non-empty data. */
  predicate HasSei(enc: ObsEncoder)
  {
    enc.sei.Some? && |enc.sei.value| > 0
  }

  /** `send_first_video_packet`: hold everything back until a keyframe, then
      send it once, prefixed with SPS/PPS and SEI when there is SEI. */
  function SendFirstVideoPacket(enc: ObsEncoder, slot: nat, cb: Callback, packet: Packet)
    : (r: (Callback, seq<Delivery>))
    ensures !packet.keyframe ==> r == (cb, [])
    ensures packet.keyframe ==> r.0 == cb.(sentFirstPacket := true) && |r.1| == 1
    ensures packet.keyframe && HasSei(enc) ==>
              r.1[0] == Delivery(slot, KeyOf(cb), packet.(data := enc.extraData + enc.sei.value + packet.data))
    ensures packet.keyframe && !HasSei(enc) ==> r.1[0] == Delivery(slot, KeyOf(cb), packet)
  {
    if !packet.keyframe then (cb, [])
    else if !HasSei(enc) then
      (cb.(sentFirstPacket := true), [Delivery(slot, KeyOf(cb), packet)])
    else
      (cb.(sentFirstPacket := true),
       [Delivery(slot, KeyOf(cb), packet.(data := enc.extraData + enc.sei.value + packet.data))])
  }

  /** `send_idr_packet`: the packet with SPS/PPS prepended, every other field copied. */
  function IdrPacket(enc: ObsEncoder, packet: Packet): (p: Packet)
    ensures p.(data := packet.data) == packet
    ensures |p.data| == |enc.extraData| + |packet.data|
    ensures p.data[..|enc.extraData|] == enc.extraData && p.data[|enc.extraData|..] == packet.data
  {
    packet.(data := enc.extraData + packet.data)
  }

  /** `send_packet` for the callback in registry slot `slot`. */
  function SendPacket(enc: ObsEncoder, slot: nat, cb: Callback, packet: Packet)
    : (r: (Callback, seq<Delivery>))
    ensures |r.1| <= 1
    ensures KeyOf(r.0) == KeyOf(cb)
    ensures forall d :: d in r.1 ==> d.slot == slot && d.key == KeyOf(cb)
    // Video callbacks see nothing before their first keyframe.
    ensures enc.isVideo && !cb.sentFirstPacket && !packet.keyframe ==> r == (cb, [])
    // The flag is only ever raised, and only by a delivered keyframe.
    ensures cb.sentFirstPacket ==> r.0.sentFirstPacket
    ensures !cb.sentFirstPacket && r.0.sentFirstPacket ==> packet.keyframe && |r.1| == 1
    // Once the first packet is out, keyframes carry SPS/PPS and the rest pass unchanged.
    ensures (cb.sentFirstPacket || !enc.isVideo) && packet.keyframe ==>
              r == (cb, [Delivery(slot, KeyOf(cb), IdrPacket(enc, packet))])
    ensures (cb.sentFirstPacket || !enc.isVideo) && !packet.keyframe ==>
              r == (cb, [Delivery(slot, KeyOf(cb), packet)])
    // Whatever is delivered differs from the input in its payload only.
    ensures forall d :: d in r.1 ==> d.packet.(data := packet.data) == packet
  {
    if enc.isVideo && !cb.sentFirstPacket then SendFirstVideoPacket(enc, slot, cb, packet)
    else if packet.keyframe then (cb, [Delivery(slot, KeyOf(cb), IdrPacket(enc, packet))])
    else (cb, [Delivery(slot, KeyOf(cb), packet)])
  }

  /** The callback loop of `do_encode`: slots `n-1` down to `0`. */
  function Dispatch(enc: ObsEncoder, callbacks: seq<Callback>, n: nat, packet: Packet)
    : (r: (seq<Callback>, seq<Delivery>))
    requires n <= |callbacks|
    ensures |r.0| == |callbacks|
    ensures forall i :: 0 <= i < |callbacks| ==> KeyOf(r.0[i]) == KeyOf(callbacks[i])
    ensures forall i :: n <= i < |callbacks| ==> r.0[i] == callbacks[i]
    ensures forall i :: 0 <= i < |callbacks| && callbacks[i].sentFirstPacket ==> r.0[i].sentFirstPacket
    decreases n
  {
    if n == 0 then (callbacks, [])
    else
      var (cb, out) := SendPacket(enc, n - 1, callbacks[n - 1], packet);
      var (rest, later) := Dispatch(enc, callbacks[n - 1 := cb], n - 1, packet);
      (rest, out + later)
  }

  /** Deliveries go to callbacks in reverse registration order, each at most
      once, every one a copy of the packet up to its payload; a callback that
      has already sent its first packet always receives it. */
  /** Every delivery in `out` names one of the first `n` callbacks and
      carries `packet` up to its payload. */
  predicate ServesAmong(callbacks: seq<Callback>, n: nat, packet: Packet, out: seq<Delivery>)
    requires n <= |callbacks|
  {
    forall k :: 0 <= k < |out| ==>
      && out[k].slot < n
      && out[k].key == KeyOf(callbacks[out[k].slot])
      && out[k].packet.(data := packet.data) == packet
  }

  /** The slots of `out` strictly decrease: last registered first, none twice. */
  predicate Descending(out: seq<Delivery>)
  {
    forall a, b :: 0 <= a < b < |out| ==> out[a].slot > out[b].slot
  }

  /** Every one of the first `n` callbacks that has sent its first packet is
      served by some delivery. */
  predicate ServesStarted(callbacks: seq<Callback>, n: nat, out: seq<Delivery>)
    requires n <= |callbacks|
  {
    forall i :: 0 <= i < n && callbacks[i].sentFirstPacket ==>
      exists k :: 0 <= k < |out| && out[k].slot == i
  }

  /** `out` serves the first `n` callbacks from the last to the first. */
  predicate ServedInReverse(callbacks: seq<Callback>, n: nat, packet: Packet, out: seq<Delivery>)
    requires n <= |callbacks|
  {
    ServesAmong(callbacks, n, packet, out) && Descending(out) && ServesStarted(callbacks, n, out)
  }

  lemma DispatchInReverse(enc: ObsEncoder, callbacks: seq<Callback>, n: nat, packet: Packet)
    requires n <= |callbacks|
    ensures ServedInReverse(callbacks, n, packet, Dispatch(enc, callbacks, n, packet).1)
  {
    DispatchServesAmong(enc, callbacks, n, packet);
    DispatchDescending(enc, callbacks, n, packet);
    DispatchServesStarted(enc, callbacks, n, packet);
  }

  lemma {:induction false} DispatchServesAmong(enc: ObsEncoder, callbacks: seq<Callback>, n: nat, packet: Packet)
    requires n <= |callbacks|
    ensures ServesAmong(callbacks, n, packet, Dispatch(enc, callbacks, n, packet).1)
    decreases n
  {
    if n > 0 {
      var (cb, first) := SendPacket(enc, n - 1, callbacks[n - 1], packet);
      var next := callbacks[n - 1 := cb];
      DispatchServesAmong(enc, next, n - 1, packet);
      var later := Dispatch(enc, next, n - 1, packet).1;
      var out := first + later;
      assert Dispatch(enc, callbacks, n, packet).1 == out;
      forall k | 0 <= k < |out|
        ensures out[k].slot < n && out[k].key == KeyOf(callbacks[out[k].slot])
        ensures out[k].packet.(data := packet.data) == packet
      {
        if k < |first| {
          assert out[k] == first[k] && first[k] in first;
        } else {
          assert out[k] == later[k - |first|];
          assert next[out[k].slot] == callbacks[out[k].slot];
        }
      }
    }
  }

  lemma {:induction false} DispatchDescending(enc: ObsEncoder, callbacks: seq<Callback>, n: nat, packet: Packet)
    requires n <= |callbacks|
    ensures Descending(Dispatch(enc, callbacks, n, packet).1)
    decreases n
  {
    if n > 0 {
      var (cb, first) := SendPacket(enc, n - 1, callbacks[n - 1], packet);
      var next := callbacks[n - 1 := cb];
      DispatchDescending(enc, next, n - 1, packet);
      DispatchServesAmong(enc, next, n - 1, packet);
      var later := Dispatch(enc, next, n - 1, packet).1;
      var out := first + later;
      assert Dispatch(enc, callbacks, n, packet).1 == out;
      forall a, b | 0 <= a < b < |out|
        ensures out[a].slot > out[b].slot
      {
        if a >= |first| {
          assert out[a] == later[a - |first|] && out[b] == later[b - |first|];
        } else {
          assert out[a] == first[a] && first[a] in first;
          assert out[b] == later[b - |first|];
        }
      }
    }
  }

  lemma {:induction false} DispatchServesStarted(enc: ObsEncoder, callbacks: seq<Callback>, n: nat, packet: Packet)
    requires n <= |callbacks|
    ensures ServesStarted(callbacks, n, Dispatch(enc, callbacks, n, packet).1)
    decreases n
  {
    if n > 0 {
      var (cb, first) := SendPacket(enc, n - 1, callbacks[n - 1], packet);
      var next := callbacks[n - 1 := cb];
      DispatchServesStarted(enc, next, n - 1, packet);
      var later := Dispatch(enc, next, n - 1, packet).1;
      var out := first + later;
      assert Dispatch(enc, callbacks, n, packet).1 == out;
      forall i | 0 <= i < n && callbacks[i].sentFirstPacket
        ensures exists k :: 0 <= k < |out| && out[k].slot == i
      {
        if i == n - 1 {
          assert out[0].slot == i;
        } else {
          assert next[i] == callbacks[i];
          var k :| 0 <= k < |later| && later[k].slot == i;
          assert out[|first| + k].slot == i;
        }
      }
    }
  }

  /* -------------------------------------------------------------- encode */

  /** What the wrapped obs encoder's `encode` call produced: a failure,
      nothing yet, or a packet together with its DTS in microseconds as
      libobs' `packet_dts_usec` computes it. */
  datatype EncodeResult = EncodeFailed | NotReceived | Received(packet: Packet, packetDtsUsec: int64)

  /** The packet `do_encode` hands to the encoder: the encoder's time base
      and the pending key-frame request. */
  function PreparedPacket(enc: ObsEncoder, w: VideoEncoder): (p: Packet)
    ensures p.keyframe == w.sendKeyFrame
    ensures p.timebaseNum == enc.timebaseNum && p.timebaseDen == enc.timebaseDen
    ensures p.data == [] && p.dtsUsec == 0
  {
    Packet([], w.sendKeyFrame, 0, 0, 0, 0, enc.timebaseNum, enc.timebaseDen)
  }

  /** `start_ts / 1000 + packet_dts_usec - offset_usec`, evaluated in
      `uint64_t` and stored into an `int64_t`. */
  function RebasedDtsUsec(startTs: uint64, packetDtsUsec: int, offsetUsec: int): (r: int64)
    ensures var exact := startTs / 1000 + packetDtsUsec - offsetUsec;
            -TWO_63 <= exact < TWO_63 ==> r == exact
  {
    var u := (startTs / 1000 + packetDtsUsec - offsetUsec) % TWO_64;
    if u < TWO_63 then u else u - TWO_64
  }

  /** `do_encode`. `encode` stands for the obs encoder's `info.encode`. */
  function DoEncode(enc: ObsEncoder, w: VideoEncoder, encode: Packet -> EncodeResult)
    : (r: (ObsEncoder, VideoEncoder, seq<Delivery>))
    // The key-frame request is consumed by this call whatever happens.
    ensures !r.1.sendKeyFrame
    // A failure is remembered and delivers nothing.
    ensures encode(PreparedPacket(enc, w)).EncodeFailed? ==>
              r == (enc, w.(sendKeyFrame := false, lastEncodeError := true), [])
    ensures encode(PreparedPacket(enc, w)).NotReceived? ==>
              r == (enc, w.(sendKeyFrame := false), [])
    ensures r.1.lastEncodeError <==> w.lastEncodeError || encode(PreparedPacket(enc, w)).EncodeFailed?
    ensures encode(PreparedPacket(enc, w)).Received? ==>
              var res := encode(PreparedPacket(enc, w));
              var (e, v, out) := r;
              && v == w.(sendKeyFrame := false)
              && e.firstReceived
              // the first packet fixes the offset, so it lands exactly on start_ts/1000
              && (!enc.firstReceived ==> e.offsetUsec == res.packetDtsUsec)
              && (enc.firstReceived ==> e.offsetUsec == enc.offsetUsec)
              && |e.callbacks| == |enc.callbacks|
              && forall k :: 0 <= k < |out| ==>
                   && out[k].packet.dtsUsec == out[k].packet.sysDtsUsec
                   && out[k].packet.dtsUsec == RebasedDtsUsec(enc.startTs, res.packetDtsUsec, e.offsetUsec)
                   && (!enc.firstReceived ==> out[k].packet.dtsUsec == enc.startTs / 1000)
  {
    var w1 := w.(sendKeyFrame := false);
    var res := encode(PreparedPacket(enc, w));
    match res
    case EncodeFailed => (enc, w1.(lastEncodeError := true), [])
    case NotReceived => (enc, w1, [])
    case Received(pkt, dtsUsec) =>
      var e := if !enc.firstReceived then enc.(offsetUsec := dtsUsec, firstReceived := true) else enc;
      var rebased := RebasedDtsUsec(e.startTs, dtsUsec, e.offsetUsec);
      var p := pkt.(dtsUsec := rebased, sysDtsUsec := rebased);
      var (callbacks, out) := Dispatch(e, e.callbacks, |e.callbacks|, p);
      DispatchInReverse(e, e.callbacks, |e.callbacks|, p);
      (e.(callbacks := callbacks), w1, out)
  }

  /** The packet `do_encode` delivers goes to the registered callbacks in
      reverse registration order, each at most once, to every callback that
      has already sent its first packet, and differs from what the encoder
      produced only in its payload and timestamps. */
  lemma DoEncodeServesInReverse(enc: ObsEncoder, w: VideoEncoder, encode: Packet -> EncodeResult)
    requires encode(PreparedPacket(enc, w)).Received?
    ensures var res := encode(PreparedPacket(enc, w));
            var out := DoEncode(enc, w, encode).2;
            && (forall k :: 0 <= k < |out| ==>
                  && out[k].slot < |enc.callbacks|
                  && out[k].key == KeyOf(enc.callbacks[out[k].slot])
                  && out[k].packet.(data := res.packet.data, dtsUsec := res.packet.dtsUsec,
                                    sysDtsUsec := res.packet.sysDtsUsec) == res.packet)
            && (forall a, b :: 0 <= a < b < |out| ==> out[a].slot > out[b].slot)
            && (forall i :: 0 <= i < |enc.callbacks| && enc.callbacks[i].sentFirstPacket ==>
                  exists k :: 0 <= k < |out| && out[k].slot == i)
  {
    var res := encode(PreparedPacket(enc, w));
    var e := if !enc.firstReceived then enc.(offsetUsec := res.packetDtsUsec, firstReceived := true) else enc;
    var rebased := RebasedDtsUsec(e.startTs, res.packetDtsUsec, e.offsetUsec);
    var p := res.packet.(dtsUsec := rebased, sysDtsUsec := rebased);
    var out := DoEncode(enc, w, encode).2;
    DispatchInReverse(e, e.callbacks, |e.callbacks|, p);
    assert out == Dispatch(e, e.callbacks, |e.callbacks|, p).1;
    assert ServedInReverse(enc.callbacks, |enc.callbacks|, p, out);
    forall k | 0 <= k < |out|
      ensures out[k].packet.(data := res.packet.data, dtsUsec := res.packet.dtsUsec,
                             sysDtsUsec := res.packet.sysDtsUsec) == res.packet
    {
      assert out[k].packet.(data := p.data) == p;
    }
  }

  /** A pending key-frame request is handed to the encoder by the next
      `do_encode`, and only by that one. */
  lemma KeyFrameRequestIsConsumedOnce(enc: ObsEncoder, w: VideoEncoder, encode: Packet -> EncodeResult)
    requires w.sendKeyFrame
    ensures PreparedPacket(enc, w).keyframe
    ensures var (e, v, out) := DoEncode(enc, w, encode);
            !PreparedPacket(e, v).keyframe
  {
  }

  /* ------------------------------------------------ frames and the queue */

  /** The frame `Encode` receives, as far as the pass-through uses it. */
  datatype VideoFrame = VideoFrame(rtpTimestamp: uint32, renderTimeMs: int64, rotation: Rotation)

  /** `EncodeOnCodecThread`: only the timing is kept (encoding is bypassed). */
  function EncodeOnCodecThread(w: VideoEncoder, frame: VideoFrame, frameType: FrameType, inputTimeMs: int64)
    : (r: VideoEncoder)
    // Anything but a delta frame asks for a key frame; a request is never withdrawn here.
    ensures r.sendKeyFrame <==> w.sendKeyFrame || frameType != VideoFrameDelta
    // Exactly one entry is queued at the back, carrying the frame's timing.
    ensures r.inputFrameInfos
            == w.inputFrameInfos + [InputFrameInfo(inputTimeMs, ToInt32(frame.rtpTimestamp),
                                                  frame.renderTimeMs, frame.rotation)]
    ensures r == w.(sendKeyFrame := r.sendKeyFrame, inputFrameInfos := r.inputFrameInfos)
  {
    var requested := if frameType != VideoFrameDelta then true else w.sendKeyFrame;
    w.(sendKeyFrame := requested,
       inputFrameInfos := w.inputFrameInfos + [InputFrameInfo(inputTimeMs, ToInt32(frame.rtpTimestamp),
                                                            frame.renderTimeMs, frame.rotation)])
  }

  /** `Encode`: refused with -1 once an encode has failed; otherwise the frame
      is queued for the codec thread (applied here at once) and 0 returned. */
  function Encode(w: VideoEncoder, frame: VideoFrame, frameType: FrameType, nowMs: int64)
    : (r: (VideoEncoder, int))
    ensures w.lastEncodeError ==> r == (w, -1)
    ensures !w.lastEncodeError ==> r.1 == 0 && r.0 == EncodeOnCodecThread(w, frame, frameType, nowMs)
  {
    if w.lastEncodeError then (w, -1)
    else (EncodeOnCodecThread(w, frame, frameType, nowMs), 0)
  }

  /** The `InputFrameInfo` a frame leaves in the queue. */
  function InfoOf(frame: VideoFrame, inputTimeMs: int64): InputFrameInfo
  {
    InputFrameInfo(inputTimeMs, ToInt32(frame.rtpTimestamp), frame.renderTimeMs, frame.rotation)
  }

  /** One call to `Encode`: the frame, its type, and the clock reading taken
      when it was queued. */
  datatype Submission = Submission(frame: VideoFrame, frameType: FrameType, nowMs: int64)

  /** Feeds submissions to `Encode` in order, collecting the return codes. */
  function EncodeAll(w: VideoEncoder, subs: seq<Submission>): (VideoEncoder, seq<int>)
    decreases |subs|
  {
    if |subs| == 0 then (w, [])
    else
      var (w1, code) := Encode(w, subs[0].frame, subs[0].frameType, subs[0].nowMs);
      var (w2, codes) := EncodeAll(w1, subs[1..]);
      (w2, [code] + codes)
  }

  /** Some submission asks for a key frame. */
  predicate AsksKeyFrame(subs: seq<Submission>)
  {
    exists k :: 0 <= k < |subs| && subs[k].frameType != VideoFrameDelta
  }

  /** The encode error is sticky: once set, every later `Encode` returns -1
      and queues nothing; without it, every frame is queued in call order with
      its own input time, and a key frame is pending afterwards exactly when
      one was pending before or some submission was not a delta frame. */
  lemma {:induction false} EncodeAllQueuesInOrder(w: VideoEncoder, subs: seq<Submission>)
    ensures var (v, codes) := EncodeAll(w, subs);
            && |codes| == |subs|
            && v.lastEncodeError == w.lastEncodeError
            && (w.lastEncodeError ==> v == w && forall k :: 0 <= k < |codes| ==> codes[k] == -1)
            && (!w.lastEncodeError ==>
                  && (forall k :: 0 <= k < |codes| ==> codes[k] == 0)
                  && |v.inputFrameInfos| == |w.inputFrameInfos| + |subs|
                  && v.inputFrameInfos[..|w.inputFrameInfos|] == w.inputFrameInfos
                  && (forall k :: 0 <= k < |subs| ==>
                        v.inputFrameInfos[|w.inputFrameInfos| + k] == InfoOf(subs[k].frame, subs[k].nowMs))
                  && (v.sendKeyFrame <==> w.sendKeyFrame || AsksKeyFrame(subs)))
    decreases |subs|
  {
    if |subs| > 0 {
      var sub := subs[0];
      var (w1, code) := Encode(w, sub.frame, sub.frameType, sub.nowMs);
      EncodeAllQueuesInOrder(w1, subs[1..]);
      var (v, codes) := EncodeAll(w1, subs[1..]);
      if !w.lastEncodeError {
        assert w1.inputFrameInfos == w.inputFrameInfos + [InfoOf(sub.frame, sub.nowMs)];
        forall k | 0 <= k < |subs|
          ensures v.inputFrameInfos[|w.inputFrameInfos| + k] == InfoOf(subs[k].frame, subs[k].nowMs)
        {
          if k > 0 {
            assert subs[1..][k - 1] == subs[k];
          }
        }
        assert v.inputFrameInfos[..|w.inputFrameInfos|] == w1.inputFrameInfos[..|w.inputFrameInfos|];
        AsksKeyFrameSplit(subs);
      }
    }
  }

  lemma AsksKeyFrameSplit(subs: seq<Submission>)
    requires |subs| > 0
    ensures AsksKeyFrame(subs) <==> subs[0].frameType != VideoFrameDelta || AsksKeyFrame(subs[1..])
  {
    if AsksKeyFrame(subs[1..]) {
      var k :| 0 <= k < |subs[1..]| && subs[1..][k].frameType != VideoFrameDelta;
      assert subs[k + 1].frameType != VideoFrameDelta;
    }
    if AsksKeyFrame(subs) {
      var k :| 0 <= k < |subs| && subs[k].frameType != VideoFrameDelta;
      if k > 0 {
        assert subs[1..][k - 1].frameType != VideoFrameDelta;
      }
    }
  }

  /* ------------------------------------------------- encoded packet output */

  /** `webrtc::H264::NaluIndex`: where one NAL unit's payload sits. */
  datatype NaluIndex = NaluIndex(startOffset: nat, payloadStartOffset: nat, payloadSize: nat)

  /** The `webrtc::EncodedImage` (with its fragmentation header) handed to the
      registered callback. */
  datatype EncodedImage = EncodedImage(
    payload: seq<byte>,
    encodedWidth: int32,
    encodedHeight: int32,
    captureTimeMs: int64,
    rtpTimestamp: uint32,
    rotation: Option<Rotation>,
    keyframe: bool,
    fragments: seq<NaluIndex>)

  /** Milliseconds to the 90 kHz RTP clock H.264 uses (section 5.1 of RFC 6184). */
  const MS_TO_RTP_TIMESTAMP: int := 90

  /** `kMsToRtpTimestamp * static_cast<uint32_t>(capture_ntp_time_ms)` in `uint32_t`. */
  function RtpTimestamp(captureNtpMs: int): (ts: uint32)
    ensures ts == (MS_TO_RTP_TIMESTAMP * captureNtpMs) % TWO_32
  {
    var truncated := ToUint32(captureNtpMs);
    RtpTruncationCommutes(captureNtpMs);
    ToUint32(MS_TO_RTP_TIMESTAMP * truncated)
  }

  lemma RtpTruncationCommutes(c: int)
    ensures (MS_TO_RTP_TIMESTAMP * (c % TWO_32)) % TWO_32 == (MS_TO_RTP_TIMESTAMP * c) % TWO_32
  {
    var q, r := c / TWO_32, c % TWO_32;
    assert c == TWO_32 * q + r;
    assert MS_TO_RTP_TIMESTAMP * c == MS_TO_RTP_TIMESTAMP * r + TWO_32 * (MS_TO_RTP_TIMESTAMP * q);
    ModMultiple(MS_TO_RTP_TIMESTAMP * r, MS_TO_RTP_TIMESTAMP * q);
  }

  lemma ModMultiple(x: int, k: int)
    ensures (x + TWO_32 * k) % TWO_32 == x % TWO_32
  {
    var q, r := x / TWO_32, x % TWO_32;
    assert x + TWO_32 * k == TWO_32 * (q + k) + r;
  }

  /** One more millisecond of capture time is 90 more RTP ticks, modulo 2^32. */
  lemma RtpClockAdvances90PerMs(captureNtpMs: int)
    ensures RtpTimestamp(captureNtpMs + 1) == (RtpTimestamp(captureNtpMs) + MS_TO_RTP_TIMESTAMP) % TWO_32
  {
    var a := MS_TO_RTP_TIMESTAMP * captureNtpMs;
    assert MS_TO_RTP_TIMESTAMP * (captureNtpMs + 1) == a + MS_TO_RTP_TIMESTAMP;
    ModShift(a, MS_TO_RTP_TIMESTAMP);
  }

  lemma ModShift(a: int, b: int)
    ensures (a + b) % TWO_32 == (a % TWO_32 + b) % TWO_32
  {
    var q := a / TWO_32;
    assert a + b == (a % TWO_32 + b) + TWO_32 * q;
    ModMultiple(a % TWO_32 + b, q);
  }

  /** Signed 64-bit addition as the compiled code performs it. */
  function AddInt64(a: int64, b: int64): (r: int64)
    ensures -TWO_63 <= a + b < TWO_63 ==> r == a + b
  {
    var u := (a + b) % TWO_64;
    if u < TWO_63 then u else u - TWO_64
  }

  /** `on_new_encoded_packet`, with the webrtc clock reading `nowUs` and the
      start-code search's answer `nalus` as parameters. Returns the encoder,
      the packet as left behind (its DTS clamped) and the image passed on. */
  function OnNewEncodedPacket(w: VideoEncoder, packet: Packet, nowUs: int64, nalus: seq<NaluIndex>)
    : (r: (VideoEncoder, Packet, Option<EncodedImage>))
    // At most one frame info is consumed, from the front.
    ensures |w.inputFrameInfos| > 0 ==>
              && r.0.inputFrameInfos == w.inputFrameInfos[1..]
              && r.0.outputTimestamp == Some(w.inputFrameInfos[0].frameTimestamp)
              && r.0.outputRenderTimeMs == Some(w.inputFrameInfos[0].frameRenderTimeMs)
              && r.0.outputRotation == Some(w.inputFrameInfos[0].rotation)
    ensures |w.inputFrameInfos| == 0 ==> r.0 == w
    ensures r.0.lastEncodeError == w.lastEncodeError && r.0.sendKeyFrame == w.sendKeyFrame
    // The packet's DTS never ends up later than now; nothing else changes.
    ensures r.1 == packet.(dtsUsec := if packet.dtsUsec > nowUs then nowUs else packet.dtsUsec)
    ensures r.1.dtsUsec <= nowUs
    // No image without a callback or without a start code.
    ensures r.2.Some? <==> w.hasCallback && |nalus| > 0
    // The image keeps the unclamped render time; its RTP time is 90 ticks
    // per millisecond of capture time (render time, or now when that is 0,
    // shifted to NTP).
    ensures r.2.Some? ==>
              var renderMs := TruncDiv(packet.dtsUsec, 1000);
              var captureMs := AddInt64(if renderMs != 0 then renderMs else TruncDiv(nowUs, 1000),
                                        w.deltaNtpInternalMs);
              && r.2.value.captureTimeMs == renderMs
              && r.2.value.rtpTimestamp == (MS_TO_RTP_TIMESTAMP * captureMs) % TWO_32
              && r.2.value.payload == packet.data
              && r.2.value.keyframe == packet.keyframe
              && r.2.value.fragments == nalus
              && r.2.value.rotation == r.0.outputRotation
              && r.2.value.encodedWidth == w.width && r.2.value.encodedHeight == w.height
  {
    var w1 := if |w.inputFrameInfos| > 0 then
                var info := w.inputFrameInfos[0];
                w.(outputTimestamp := Some(info.frameTimestamp),
                   outputRenderTimeMs := Some(info.frameRenderTimeMs),
                   outputRotation := Some(info.rotation),
                   inputFrameInfos := w.inputFrameInfos[1..])
              else w;
    var renderMs: int64 := TruncDiv(packet.dtsUsec, 1000);
    var nowMs: int64 := TruncDiv(nowUs, 1000);
    var clamped := if packet.dtsUsec > nowUs then packet.(dtsUsec := nowUs) else packet;
    var captureMs := AddInt64(if renderMs != 0 then renderMs else nowMs, w.deltaNtpInternalMs);
    var image :=
      if !w.hasCallback || |nalus| == 0 then None
      else Some(EncodedImage(packet.data, w.width, w.height, renderMs, RtpTimestamp(captureMs),
                             w1.outputRotation, packet.keyframe, nalus));
    (w1, clamped, image)
  }

  /** One encoded packet reaching `on_new_encoded_packet`, with the clock
      reading and start-code search answer for that call. */
  datatype Output = Output(packet: Packet, nowUs: int64, nalus: seq<NaluIndex>)

  /** What one call left: the encoder after it and the image it passed on. */
  datatype Handoff = Handoff(encoder: VideoEncoder, image: Option<EncodedImage>)

  /** Feeds packets to `on_new_encoded_packet` in order. */
  function DeliverAll(w: VideoEncoder, outs: seq<Output>): (r: seq<Handoff>)
    ensures |r| == |outs|
    decreases |outs|
  {
    if |outs| == 0 then []
    else
      var (w1, _, image) := OnNewEncodedPacket(w, outs[0].packet, outs[0].nowUs, outs[0].nalus);
      [Handoff(w1, image)] + DeliverAll(w1, outs[1..])
  }

  /** Call k (counting from 0) pops queue entry k: the encoder then stores
      that entry's timestamp, render time and rotation and holds the entries
      after it. Only the rotation reaches the image it passes on; the stored
      timestamp and render time are never read. */
  predicate PoppedEntry(d: Handoff, queue: seq<InputFrameInfo>, k: nat)
    requires k < |queue|
  {
    && d.encoder.inputFrameInfos == queue[k + 1..]
    && d.encoder.outputTimestamp == Some(queue[k].frameTimestamp)
    && d.encoder.outputRenderTimeMs == Some(queue[k].frameRenderTimeMs)
    && d.encoder.outputRotation == Some(queue[k].rotation)
    && (d.image.Some? ==> d.image.value.rotation == Some(queue[k].rotation))
  }

  /** Packets consume the frame queue from the front, one entry per call,
      whatever the packets, clocks and start codes. */
  lemma {:induction false} DeliveriesPopInOrder(w: VideoEncoder, outs: seq<Output>)
    requires |outs| <= |w.inputFrameInfos|
    ensures var r := DeliverAll(w, outs);
            forall k :: 0 <= k < |outs| ==> PoppedEntry(r[k], w.inputFrameInfos, k)
    decreases |outs|
  {
    if |outs| > 0 {
      var o := outs[0];
      var w1 := OnNewEncodedPacket(w, o.packet, o.nowUs, o.nalus).0;
      DeliveriesPopInOrder(w1, outs[1..]);
      var r := DeliverAll(w, outs);
      forall k | 0 <= k < |outs|
        ensures PoppedEntry(r[k], w.inputFrameInfos, k)
      {
        if k > 0 {
          assert r[k] == DeliverAll(w1, outs[1..])[k - 1];
          assert w1.inputFrameInfos[k - 1] == w.inputFrameInfos[k];
          assert w1.inputFrameInfos == w.inputFrameInfos[1..];
          assert w1.inputFrameInfos[k..] == w.inputFrameInfos[k + 1..];
          assert PoppedEntry(DeliverAll(w1, outs[1..])[k - 1], w1.inputFrameInfos, k - 1);
        } else {
          assert r[0].encoder == w1;
        }
      }
    }
  }

  /** Frames queued by `Encode` are matched to encoded packets first-in,
      first-out: after queuing `subs` on an empty queue (any frame types, any
      input times), packet call k stores frame k's RTP timestamp, render time
      and rotation. Only the rotation reaches the image; its RTP time and
      capture time come from the packet's DTS or the clock. */
  lemma FramesMatchPacketsInOrder(w: VideoEncoder, subs: seq<Submission>, outs: seq<Output>)
    requires !w.lastEncodeError && w.inputFrameInfos == []
    requires |outs| <= |subs|
    ensures var v := EncodeAll(w, subs).0;
            var r := DeliverAll(v, outs);
            forall k :: 0 <= k < |outs| ==>
              && r[k].encoder.outputTimestamp == Some(ToInt32(subs[k].frame.rtpTimestamp))
              && r[k].encoder.outputRenderTimeMs == Some(subs[k].frame.renderTimeMs)
              && r[k].encoder.outputRotation == Some(subs[k].frame.rotation)
              && (r[k].image.Some? ==> r[k].image.value.rotation == Some(subs[k].frame.rotation))
  {
    EncodeAllQueuesInOrder(w, subs);
    var v := EncodeAll(w, subs).0;
    DeliveriesPopInOrder(v, outs);
    forall k | 0 <= k < |outs|
      ensures v.inputFrameInfos[k] == InfoOf(subs[k].frame, subs[k].nowMs)
    {
      assert v.inputFrameInfos[|w.inputFrameInfos| + k] == InfoOf(subs[k].frame, subs[k].nowMs);
    }
  }
}
