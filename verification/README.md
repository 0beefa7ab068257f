# obs-studio mediasoup/WebRTC outputs — a Dafny model

This project models the decision logic of the obs-studio WebRTC plugins that
publish to a mediasoup server. It proves properties of that model.

- **`Broadcaster`** (`broadcaster.dfy`): the broadcaster session's signalling state machine.
  - `start` validates the service and fetches the room. It then loads the device, registers the broadcaster and creates the send transport.
  - The transport, producer and connection-state listeners are separate steps, driven by the media engine.
  - `Run` delivers a sequence of these calls. Once a "failed" connection state has made the process exit, it ignores every later call.
  - `stop` and the audio/video frame hand-off close the model.
  - Every step returns the new session, the ordered trace of HTTP requests and engine/host calls it issued, and an outcome. The outcome is a value, an exception or a null dereference.
- **`Capture`** (`capture.dfy`): the per-frame arithmetic that `Broadcaster::onVideoFrame` and `WebRTCStream::onVideoFrame` share.
  - The I420 buffer geometry, computed in C `int` arithmetic.
  - The nanosecond-to-microsecond timestamp.
  - The wrapping `uint16_t` frame id.
- **`Encoder`** (`encoder.dfy`): the `MediasoupVideoEncoder` pass-through pipeline.
  - The obs encoder's packet-callback registry.
  - First-packet, SPS/PPS and SEI framing.
  - DTS rebasing in `do_encode`.
  - The key-frame request flag and the sticky encode-error flag.
  - The queue of `InputFrameInfo`.
  - The DTS clamp and the 90 kHz RTP timestamp of `on_new_encoded_packet`.
- **`WebRTCStream`** (`stream.dfy`): the legacy output.
  - `start` validation and the opus/multiopus choice.
  - `close`, which always succeeds, and what that means for `start`.
  - `stop`, and the frame hand-off with its one-time `previous_time`.
- **`MediasoupService`** (`service.dfy`): the "mediasoup WebRTC Server" service record and its getters.
- **`CTypes`, `Host`, `Optional`** (`common.dfy`):
  - C fixed-width conversions, truncating division and `abs`.
  - Nullable C strings and the host output's signals.
  - An option type.

Several things the plugin does are out of reach, so they become parameters:
- the network;
- JSON parsing;
- libmediasoupclient's answers (`Engine`);
- the wrapped obs encoder (`encode`);
- the H.264 start-code search (`nalus`);
- the timestamp aligner (`align`);
- the clocks (`now`, `nowUs`).

Signed overflow is undefined in C. The model gives it the two's-complement wrap-around of the targets the plugin is built for.

## Model

| member | source | states |
|---|---|---|
| MediasoupService.Update | plugins/rtmp-services/webrtc-mediasoup.c:16-32 | every string field is replaced from the settings, `use_auth` copied, and the output type set to "mediasoup_output" |
| MediasoupService.Create | plugins/rtmp-services/webrtc-mediasoup.c:46-53 | a new record holds every setting as a non-NULL string, copies `use_auth`, has the output type "mediasoup_output", and is unchanged by updating it again with the same settings |
| MediasoupService.Username | plugins/rtmp-services/webrtc-mediasoup.c:100-106 | the user name is NULL while `use_auth` is off and the stored string otherwise |
| MediasoupService.Password | plugins/rtmp-services/webrtc-mediasoup.c:108-114 | the password is NULL while `use_auth` is off and the stored string otherwise |
| MediasoupService.UpdateForgetsPrevious | plugins/rtmp-services/webrtc-mediasoup.c:16-32 | an update never reads the old contents, so it is idempotent and independent of the prior record |
| MediasoupService.GettersAfterCreate | plugins/rtmp-services/webrtc-mediasoup.c:88-120 | after create, url and key are returned unconditionally, the credentials only under `use_auth`, and the output type is always "mediasoup_output" |
| MediasoupService.PasswordPresentIff | plugins/rtmp-services/webrtc-mediasoup.c:108-114 | the coerced password is non-empty exactly when auth is on and a non-empty password was set |
| CTypes.TruncDiv | plugins/obs-outputs/Broadcaster.cpp:494-497 | C division truncates toward zero: the quotient bounds for both signs of the dividend |
| CTypes.Abs32 | plugins/obs-outputs/Broadcaster.cpp:498-499 | `abs` gives the magnitude, except that `abs(INT_MIN)` stays `INT_MIN` |
| CTypes.PreIncrement16 | plugins/obs-outputs/Broadcaster.h:86 | `++frame_id` on a `uint16_t` adds one and wraps 65535 to 0 |
| CTypes.Increments16IsAddition | plugins/obs-outputs/Broadcaster.cpp:531 | n pre-increments add n modulo 2^16 |
| Capture.GeometryWithoutOverflow | plugins/obs-outputs/Broadcaster.cpp:491-499 | without overflow: size is w*h*3/2, the Y stride is w, the UV stride is half the width rounded up, and the targets are the output dimensions |
| Capture.I420PlanesFillBuffer | plugins/obs-outputs/Broadcaster.cpp:491-504 | for even positive dimensions the size is exactly one Y plane plus two quarter-size chroma planes |
| Capture.FlippedSourceUsesMagnitude | plugins/obs-outputs/Broadcaster.cpp:497-499 | a height strictly above 2^31 reads as a negative `int` other than `INT_MIN`, and the target height is its magnitude (at exactly 2^31, `abs(INT_MIN)` stays `INT_MIN`, as `CTypes.Abs32` states) |
| Capture.NanosToMicros | plugins/obs-outputs/Broadcaster.cpp:518-519 | the microsecond timestamp is the nanosecond one truncated by 1000 below 2^63, and never positive above it |
| Capture.NanosToMicrosMonotonic | plugins/obs-outputs/Broadcaster.cpp:518-519 | for timestamps below 2^63 the conversion keeps their order |
| Capture.OnVideoFrame | plugins/obs-outputs/Broadcaster.cpp:483-536 | a null frame or capturer changes nothing; otherwise one frame is published with rotation 0, the aligned microsecond timestamp, the geometry and the pre-incremented id |
| Capture.RunNumbersFrames | plugins/obs-outputs/Broadcaster.cpp:531 | over any run, each non-null frame is published once and the k-th carries start+k+1 modulo 2^16 |
| Capture.FreshCounterWraps | plugins/obs-outputs/Broadcaster.h:86 | from a fresh output the first id is 1, the n-th is n modulo 2^16, and the one after 65535 is 0 |
| Broadcaster.New | plugins/obs-outputs/Broadcaster.cpp:39-57 | a new session stores the three flags and the id (standing for the random id drawn at construction, Broadcaster.h:78), with the frame counter at 0 and a capturer present, no transports, no loaded device, no audio source, and the running phase |
| Broadcaster.FirstMissing | plugins/obs-outputs/Broadcaster.cpp:311-350 | the first required field absent from the reply, or none exactly when all are present |
| Broadcaster.Start | plugins/obs-outputs/Broadcaster.cpp:191-287 | refusal with connect-failed and no request for a null service or an empty url/password; the room GET comes first; a non-200 registration returns false without a transport request; the result is true iff the body parses, the device loads, registration answers 200 and the transport step does not throw |
| Broadcaster.SendTransportSetup | plugins/obs-outputs/Broadcaster.cpp:290-426 | one POST to the transports path; a non-200 reply or the first missing field (checked in order) aborts before anything is created; otherwise the transport is created from the reply id, then audio (iff enabled and producible, stereo and DTX), then video (iff producible, 3 encodings under simulcast, else none) |
| Broadcaster.CreateAndProduce | plugins/obs-outputs/Broadcaster.cpp:354-425 | the transport is created from the id, then audio with stereo and DTX exactly when enabled and producible, then video with three encodings under simulcast and none otherwise exactly when producible; the session itself issues no request here (the connect and producer requests the engine makes through the listeners are the separate `OnConnect` and `OnProduce` steps) |
| Broadcaster.TransportCreatedWithProducers | plugins/obs-outputs/Broadcaster.cpp:290-426 | a readable 200 reply with every required field creates the transport after one POST and requests each producer the engine can make |
| Broadcaster.OnConnect | plugins/obs-outputs/Broadcaster.cpp:66-118 | a foreign transport is rejected with no request; the send transport posts to `.../connect` and resolves iff the status is 200, else rejects with the body |
| Broadcaster.OnProduce | plugins/obs-outputs/Broadcaster.cpp:141-189 | one POST to `.../producers`; resolves with exactly the reply's string id on 200; rejects with the body otherwise; a 200 reply without a string id is an error, never a value |
| Broadcaster.OnProduceIntended | plugins/obs-outputs/Broadcaster.cpp:168-186 | the missing-id branch rejects with "'id' missing in response" and otherwise agrees with the code as written |
| Broadcaster.ProducerReplyWithoutId | plugins/obs-outputs/Broadcaster.cpp:173-178 | a parsed 200 reply without an id makes the as-written handler fail where the intended one rejects |
| Broadcaster.OnProduceData | plugins/obs-outputs/Broadcaster.cpp:459-473 | always resolves "not-implemented" with no request |
| Broadcaster.Stop | plugins/obs-outputs/Broadcaster.cpp:428-447 | only existing transports are closed, exactly one DELETE of the broadcaster is issued last, and the result is true |
| Broadcaster.StopTwiceDeletesTwice | plugins/obs-outputs/Broadcaster.cpp:428-447 | stop is repeatable and issues a DELETE on every call |
| Broadcaster.OnConnectionStateChange | plugins/obs-outputs/Broadcaster.cpp:123-134 | only "failed" stops and then exits; every other state changes nothing |
| Broadcaster.Handle | plugins/obs-outputs/Broadcaster.cpp:123-134 | a call to an exited process does nothing; from the running phase only a "failed" connection state exits, after the stop's requests (ending with the DELETE) and then the exit |
| Broadcaster.RunAppend | plugins/obs-outputs/Broadcaster.cpp:123-134 | delivering two sequences of calls one after the other is delivering their concatenation |
| Broadcaster.ExitedIsAbsorbing | plugins/obs-outputs/Broadcaster.cpp:129-133 | after `std::exit` no call changes the session or issues anything |
| Broadcaster.ExitedIffFailed | plugins/obs-outputs/Broadcaster.cpp:123-134 | a run ends in the exited phase exactly when it started there or some call reported "failed" |
| Broadcaster.NothingAfterFailure | plugins/obs-outputs/Broadcaster.cpp:123-134 | calls after a "failed" state add nothing; from a running process that state appends the stop's events and then the exit |
| Broadcaster.ConnectAfterSetup | plugins/obs-outputs/Broadcaster.cpp:66-118 | after setup created the transport from the reply's id, connect for that id posts to that transport's `/connect` path and resolves iff 200; any other id is rejected without a request |
| Broadcaster.OnAudioFrame | plugins/obs-outputs/Broadcaster.cpp:475-481 | a null frame is ignored; otherwise it goes to the audio source, a null dereference when there is none |
| Broadcaster.OnVideoFrame | plugins/obs-outputs/Broadcaster.cpp:483-536 | no-op for a null frame or capturer, otherwise one frame published with the incremented id |
| Broadcaster.RequestsAppend | plugins/obs-outputs/Broadcaster.cpp:191-287 | the requests of a concatenated trace are the concatenation of the requests |
| Broadcaster.RoomStatusIgnored | plugins/obs-outputs/Broadcaster.cpp:236-252 | the room reply's status has no effect on anything `start` does |
| Broadcaster.StartHappyPath | plugins/obs-outputs/Broadcaster.cpp:236-426 | a full start issues room GET, register POST and transport POST in that order, creates the transport and requests the producers; the `.../connect` and `.../producers` requests the engine makes through the listeners during `Produce` are the separate `OnConnect` and `OnProduce` steps, not part of this trace |
| Broadcaster.MissingDtlsParametersProducesNothing | plugins/obs-outputs/Broadcaster.cpp:311-350 | a reply lacking `dtlsParameters` aborts setup before any transport or producer |
| Broadcaster.NoAuthServiceNeverStarts | plugins/rtmp-services/webrtc-mediasoup.c:108-114 | with `use_auth` off the password reads as "", so `start` returns false with connect-failed and no request |
| Encoder.CallbackIdx | plugins/obs-outputs/mediasoup-encoder.cpp:428-440 | the first index whose (function, param) matches, and none exactly when no entry matches |
| Encoder.GetCallbackIdx | plugins/obs-outputs/mediasoup-encoder.cpp:428-440 | the linear scan returns the first match or none, and agrees with the reference index |
| Encoder.StartInternal | plugins/obs-outputs/mediasoup-encoder.cpp:181-207 | fails unchanged without context data; otherwise the pair is registered, appended only if absent (uniqueness kept), `cur_pts`/`active` reset only when the list was empty, and `started` set |
| Encoder.StopInternal | plugins/obs-outputs/mediasoup-encoder.cpp:209-240 | the first matching entry is erased, the rest keep their order; exactly when that was the last entry the encoder is shut down (context data dropped, first-packet state reset) and marked inactive and uninitialised; destroyed iff that and `destroy_on_stop`; nothing else changes |
| Encoder.Shutdown | plugins/obs-outputs/mediasoup-encoder.cpp:227-228 | shutting down drops the context data and, when there was some, resets `first_received`, `offset_usec` and `start_ts`; the callbacks are left alone |
| Encoder.LastStopThenStartFails | plugins/obs-outputs/mediasoup-encoder.cpp:181-240 | after the last callback is stopped, starting again fails and changes nothing, since the context data is gone |
| Encoder.AddCallback | plugins/obs-outputs/mediasoup-encoder.cpp:193-196 | the pair is registered afterwards, appended at the end exactly when it was absent, and a duplicate-free registry stays duplicate-free |
| Encoder.RemoveCallback | plugins/obs-outputs/mediasoup-encoder.cpp:219-223 | the first matching entry is erased and the others keep their order; nothing changes without a match; a duplicate-free registry loses the pair entirely |
| Encoder.EraseKeepsUnique | plugins/obs-outputs/mediasoup-encoder.cpp:219-222 | erasing a registration keeps the registry duplicate-free and removes the pair |
| Encoder.StartThenStopRestores | plugins/obs-outputs/mediasoup-encoder.cpp:181-240 | registering and then unregistering the same pair restores the registry |
| Encoder.SendFirstVideoPacket | plugins/obs-outputs/mediasoup-encoder.cpp:662-700 | non-keyframes are held back; a keyframe goes out once, as header++sei++data when there is SEI and unchanged otherwise, and the flag is set |
| Encoder.IdrPacket | plugins/obs-outputs/mediasoup-encoder.cpp:702-722 | the payload is header++data and every other field is copied |
| Encoder.SendPacket | plugins/obs-outputs/mediasoup-encoder.cpp:647-660 | nothing before a video callback's first keyframe; the flag only rises; afterwards keyframes carry the header and the rest pass unchanged |
| Encoder.Dispatch | plugins/obs-outputs/mediasoup-encoder.cpp:630-634 | the loop keeps every registration's identity and only raises flags |
| Encoder.DispatchInReverse | plugins/obs-outputs/mediasoup-encoder.cpp:630-634 | callbacks are served in reverse registration order, each at most once, and every started callback receives the packet |
| Encoder.PreparedPacket | plugins/obs-outputs/mediasoup-encoder.cpp:595-606 | the encoder is handed a zeroed packet with the encoder's time base and the pending key-frame request |
| Encoder.RebasedDtsUsec | plugins/obs-outputs/mediasoup-encoder.cpp:623 | the rebased DTS is start_ts/1000 + dts - offset whenever that fits in 64 bits |
| Encoder.DoEncode | plugins/obs-outputs/mediasoup-encoder.cpp:585-645 | the key-frame request is consumed; a failure sets the sticky error and delivers nothing; the first packet fixes the offset so it lands on start_ts/1000; sys DTS equals DTS, and every delivery carries that DTS |
| Encoder.DoEncodeServesInReverse | plugins/obs-outputs/mediasoup-encoder.cpp:617-634 | a received packet goes to the registered callbacks from the last to the first, at most once each and to every callback that has sent its first packet, and differs from the encoder's packet only in payload and timestamps |
| Encoder.KeyFrameRequestIsConsumedOnce | plugins/obs-outputs/mediasoup-encoder.cpp:603-606 | a pending request marks the next packet a keyframe and no later one |
| Encoder.EncodeOnCodecThread | plugins/obs-outputs/mediasoup-encoder.cpp:525-539 | any non-delta frame type requests a keyframe, and exactly one frame info is queued at the back |
| Encoder.Encode | plugins/obs-outputs/mediasoup-encoder.cpp:157-173 | -1 with nothing queued after an encode error, otherwise 0 and the frame queued |
| Encoder.EncodeAllQueuesInOrder | plugins/obs-outputs/mediasoup-encoder.cpp:157-173 | the error flag is sticky across any sequence of submissions; without it every frame is queued in call order with its own input time, and afterwards a key frame is pending exactly when one was before or some submission was not a delta frame |
| Encoder.RtpTimestamp | plugins/obs-outputs/mediasoup-encoder.cpp:336-338 | the RTP timestamp is 90 times the capture time modulo 2^32 despite the prior truncation |
| Encoder.RtpClockAdvances90PerMs | plugins/obs-outputs/mediasoup-encoder.cpp:336-338 | one more millisecond is 90 more ticks modulo 2^32 |
| Encoder.OnNewEncodedPacket | plugins/obs-outputs/mediasoup-encoder.cpp:306-401 | pops at most one frame info; render time is taken before the DTS is clamped to now; no image without a callback or a start code; the image's RTP time follows the capture time |
| Encoder.DeliveriesPopInOrder | plugins/obs-outputs/mediasoup-encoder.cpp:306-313 | call k to `on_new_encoded_packet` pops queue entry k and stores its timestamp, render time and rotation, whatever the packets, clocks and start codes; the stored timestamp and render time are never read afterwards, and only the rotation reaches the image |
| Encoder.FramesMatchPacketsInOrder | plugins/obs-outputs/mediasoup-encoder.cpp:157-173 | queued frames are matched to encoded packets first-in, first-out: for any frame types and input times, packet call k stores frame k's RTP timestamp, render time and rotation; only the rotation reaches the image, whose RTP and capture times come from the packet's DTS or the clock |
| WebRTCStream.New | plugins/obs-outputs/WebRTCStream.cpp:32-41 | counters start at zero, bitrates at 128 and 2500, frame id at 0 |
| WebRTCStream.Close | plugins/obs-outputs/WebRTCStream.cpp:225-240 | close always succeeds |
| WebRTCStream.AudioCodecFor | plugins/obs-outputs/WebRTCStream.cpp:162-171 | "multiopus" exactly when audio info is available with more than two channels, "opus" otherwise |
| WebRTCStream.Start | plugins/obs-outputs/WebRTCStream.cpp:105-219 | refusal with connect-failed for a null service or empty url/password, after the coerced getters are stored; success signals an output-error stop (close always succeeds), takes both bitrates from the settings and picks the codec |
| WebRTCStream.Stop | plugins/obs-outputs/WebRTCStream.cpp:242-250 | stop ends data capture and always returns true |
| WebRTCStream.OnAudioFrame | plugins/obs-outputs/WebRTCStream.cpp:252-258 | a null frame is ignored, and a frame is forwarded exactly when the audio source exists |
| WebRTCStream.OnVideoFrame | plugins/obs-outputs/WebRTCStream.cpp:260-317 | the shared hand-off, with `previous_time` recorded only while it is still the epoch |
| WebRTCStream.RunMatchesCaptureAndKeepsClock | plugins/obs-outputs/WebRTCStream.cpp:267-269 | the stream publishes exactly the shared hand-off's frames, and once set `previous_time` never changes |
| WebRTCStream.FirstFrameFixesClock | plugins/obs-outputs/WebRTCStream.cpp:267-269 | on a fresh stream `previous_time` is the first frame's clock reading |
| WebRTCStream.NoAuthServiceNeverStarts | plugins/rtmp-services/webrtc-mediasoup.c:108-114 | with `use_auth` off, `start` refuses with the incomplete-settings message and connect-failed |

## Left out

- Network and JSON: cpr requests are recorded in the trace and their replies are parameters (`Reply`). JSON parsing is reduced to a parses flag, the set of top-level fields and an optional string `id`. Request bodies are not modelled.
- libmediasoupclient: the engine's answers are parameters.
  - `Device::Load` (including its "already loaded" refusal) is one accept flag. The session's `deviceLoaded` records that `start` loaded the device, but nothing reads it, since `loadAccepts` already decides the refusal.
  - `CanProduce` is two flags.
  - `CreateSendTransport` is assumed to succeed.
  - `Produce` is a trace event.
  - The listener calls the engine makes from inside `Produce` are separate steps. So is the exception `Produce` raises when such a call's future is rejected; the model does not propagate it into `SendTransportSetup`.
- Broadcaster.CreateAndProduce: its trace holds no request, but in the program the first `Produce` runs `OnConnect` and every `Produce` runs `OnProduce`, which POST `.../connect` and `.../producers` before it returns. Those requests are the separate `OnConnect`/`OnProduce` steps, and a rejected listener future does not abort the setup here.
- Broadcaster.StartHappyPath: the three requests it lists are those `start` itself issues. The connect and producer requests the engine makes through the listeners during the same call are not in this trace.
- Broadcaster.Run: a step that ends in a fault (an exception or a null dereference) is recorded by that step's outcome only; `Run` goes on with the next call rather than modelling how the host reacts.
- Broadcaster.Start: the message text inside the exception of an unreadable reply is a placeholder. The source's exception types (nlohmann or libmediasoupclient) are foreign.
- Broadcaster.OnProduce: the fault for a 200 reply without a string `id` is labelled with the "'id' missing" text, but that text only goes into the rejected future. What actually escapes is nlohmann's type error when `id` is not a string, `std::future_error` from setting the already-satisfied promise, or undefined behaviour from dereferencing the end iterator when `id` is absent. The model records only that the call faults.
- `std::exit`: modelled as the `Exited` phase plus an `Exit` event, after which `Run` ignores every call. Process teardown is not modelled.
- libyuv and the timestamp aligner: pixel conversion is not modelled. `TranslateTimestamp` is the parameter `align`, with no property assumed. The aligner keeps state between frames, but `Capture.Run` and `Capture.RunNumbersFrames` pass one fixed `align` to every frame, so the timestamps of a run do not reflect that state; the frame-id properties do not depend on it.
- Clocks: `rtc::TimeMicros`, the webrtc `Clock`, `rtc::TimeMillis` and `system_clock::now()` are parameters.
- H.264: `FindNaluIndices` is the parameter `nalus`. The bitstream parser's QP is not modelled.
- `packet_dts_usec` is a libobs helper: the encoder result carries the value it yields. `obs_encoder_get_extra_data` and `get_sei` are fields of the encoder record.
- Encoder.Dispatch: each delivery is recorded as the packet handed over. A callback that mutates the shared packet (the DTS clamp in `on_new_encoded_packet`) is not fed through to the callbacks after it.
- Concurrency in `mediasoup-encoder.cpp` is not modelled: IOService posting, promises, mutexes, `InitEncode`, `RegisterEncodeCompleteCallback`, `Release`, `obs_encode` and the `start`/`stop` wrappers. `Encode` applies `EncodeOnCodecThread` immediately.
- Encoder configuration and libobs lifecycle are not modelled: `open`/`close`, `configure_encoder`, the AMD settings update and `obs_encoder_actually_destroy`. Destruction is reported as a result only. libobs' `obs-encoder.c` is not part of this model: `Encoder.Shutdown` follows what libobs' `obs_encoder_shutdown` does to the fields the model keeps (destroy the context data, reset `first_received`, `offset_usec` and `start_ts` when there was some), and releasing the codec itself is not modelled.
- `WebRTCStream` setup is not modelled: the constructor's threads and factory, the destructor, and the media stream and track creation in `start`. `audioSource` records only that `start` created the source.
- Encoder factories, `MediaStreamTrackFactory.cpp` and `mediasoup-stream.cpp` are not part of this model: they are registration tables, constant lists and null-returning factories.
- UI and logging are not modelled: `use_auth_modified`, the properties functions and every log line.

## Findings

| source | as written | input that shows it | evidently intended | confidence | as-written member | corrected member |
|---|---|---|---|---|---|---|
| plugins/obs-outputs/Broadcaster.cpp:173-178 | after `set_exception` for a missing or non-string `id`, execution falls through to `set_value((*it).get<std::string>())`, which reads the missing field and sets an already-satisfied promise | a 200 reply whose body is `{}` | return right after rejecting the future with "'id' missing in response" | high (not executed) | Broadcaster.OnProduce | Broadcaster.OnProduceIntended |
