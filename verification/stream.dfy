/** The legacy `WebRTCStream` output: start-time validation of the service
    settings, the audio codec choice, the always-successful `close`, `stop`,
    and the per-frame hand-off (shared with `Broadcaster` through `Capture`),
    together with the one-time `previous_time` initialisation. */
module WebRTCStream {
  import opened CTypes
  import opened Optional
  import opened Host
  import MediasoupService
  import Capture

  const OPUS: string := "opus"
  const MULTIOPUS: string := "multiopus"

  const DEFAULT_AUDIO_BITRATE: int32 := 128
  const DEFAULT_VIDEO_BITRATE: int32 := 2500

  /** `std::chrono::system_clock::time_point(duration<int>(0))`: the epoch,
      which `previous_time` holds until the first frame. */
  const EPOCH: int := 0

  /** The fields of a `WebRTCStream` the modelled operations read and write.
      `channelCount` is `None` while the field is still uninitialised. */
  datatype Stream = Stream(
    capture: Capture.CaptureState,
    pliReceived: int,
    audioBytesSent: int,
    videoBytesSent: int,
    totalBytesSent: int,
    audioBitrate: int32,
    videoBitrate: int32,
    url: string,
    username: string,
    password: string,
    audioCodec: string,
    channelCount: Option<int32>,
    previousTime: int,
    audioSource: bool)

  /** The constructor: counters zeroed, default bitrates, a capturer created,
      no audio source until `start`. */
  function New(): (s: Stream)
    ensures s.capture == Capture.INITIAL && s.capture.frameId == 0 && s.capture.capturerPresent
    ensures s.pliReceived == 0 && s.audioBytesSent == 0 && s.videoBytesSent == 0 && s.totalBytesSent == 0
    ensures s.audioBitrate == 128 && s.videoBitrate == 2500
    ensures s.previousTime == EPOCH && !s.audioSource
  {
    Stream(Capture.INITIAL, 0, 0, 0, 0, DEFAULT_AUDIO_BITRATE, DEFAULT_VIDEO_BITRATE,
           "", "", "", "", None, EPOCH, false)
  }

  /** `close`: the peer-connection teardown is commented out, so it reports
      success whatever the state and whatever `wait` says. */
  function Close(s: Stream, wait: bool): (closed: bool)
    ensures closed
  {
    true
  }

  /** The codec for a speaker layout (`None` when the audio info is unavailable). */
  function AudioCodecFor(speakers: Option<int32>): (codec: string)
    ensures codec == OPUS || codec == MULTIOPUS
    ensures codec == MULTIOPUS <==> speakers.Some? && speakers.value > 2
  {
    match speakers
    case None => OPUS
    case Some(n) => if n <= 2 then OPUS else MULTIOPUS
  }

  /** `start`. `service` is the output's service (NULL when absent),
      `audioBitrate`/`videoBitrate` the encoders' "bitrate" settings as
      `obs_data_get_int` returns them, and `speakers` the speaker layout from
      `obs_get_audio_info` (`None` when that fails). Returns the new state,
      the signals raised on the host output, and the result. */
  function Start(s: Stream, service: Option<MediasoupService.Service>,
                 audioBitrate: int64, videoBitrate: int64, speakers: Option<int32>)
    : (r: (Stream, seq<HostSignal>, bool))
    // No service: refused with the generic message, nothing stored.
    ensures service.None? ==> r == (s, RefusedStart(UNEXPECTED_ERROR), false)
    // The getters' results are stored, NULL read as "", before any check.
    ensures service.Some? ==>
              && r.0.url == OrEmpty(MediasoupService.Url(service.value))
              && r.0.username == OrEmpty(MediasoupService.Username(service.value))
              && r.0.password == OrEmpty(MediasoupService.Password(service.value))
    // It succeeds exactly when both url and password are non-empty.
    ensures r.2 <==> service.Some? && r.0.url != "" && r.0.password != ""
    ensures service.Some? && !r.2 ==>
              && r.1 == RefusedStart(INCOMPLETE_SETTINGS)
              && r.0 == s.(url := r.0.url, username := r.0.username, password := r.0.password)
    // A successful start takes both bitrates from the settings, picks the
    // codec, and, since close always succeeds, signals an output error first.
    ensures r.2 ==>
              && r.1 == [SignalStop(OutputError)]
              && r.0.audioBitrate == ToInt32(audioBitrate)
              && r.0.videoBitrate == ToInt32(videoBitrate)
              && r.0.audioCodec == AudioCodecFor(speakers)
              && (speakers.Some? ==> r.0.channelCount == speakers)
              && (speakers.None? ==> r.0.channelCount == s.channelCount)
              && r.0.audioSource
              && r.0.capture == s.capture && r.0.previousTime == s.previousTime
  {
    match service
    case None => (s, RefusedStart(UNEXPECTED_ERROR), false)
    case Some(svc) =>
      var s1 := s.(url := OrEmpty(MediasoupService.Url(svc)),
                   username := OrEmpty(MediasoupService.Username(svc)),
                   password := OrEmpty(MediasoupService.Password(svc)));
      if s1.url == "" || s1.password == "" then (s1, RefusedStart(INCOMPLETE_SETTINGS), false)
      else
        var s2 := s1.(audioBitrate := ToInt32(audioBitrate), videoBitrate := ToInt32(videoBitrate));
        var s3 := match speakers
                  case None => s2.(audioCodec := OPUS)
                  case Some(n) => s2.(channelCount := Some(n), audioCodec := if n <= 2 then OPUS else MULTIOPUS);
        var signals := if Close(s3, false) then [SignalStop(OutputError)] else [];
        (s3.(audioSource := true), signals, true)
  }

  /** `stop`: close, end data capture, report success; the state is untouched. */
  function Stop(s: Stream): (r: (Stream, seq<HostSignal>, bool))
    ensures r.0 == s && r.1 == [EndDataCapture] && r.2
  {
    var _ := Close(s, true);
    (s, [EndDataCapture], true)
  }

  /** What happened to an audio frame. */
  datatype AudioHandoff = Ignored | Forwarded | NullAudioSource

  /** `onAudioFrame`: a null frame is ignored; otherwise it goes to the audio
      source, which is a null dereference before `start` created one. */
  function OnAudioFrame(s: Stream, framePresent: bool): (r: AudioHandoff)
    ensures r == Ignored <==> !framePresent
    ensures r == Forwarded <==> framePresent && s.audioSource
  {
    if !framePresent then Ignored
    else if !s.audioSource then NullAudioSource
    else Forwarded
  }

  /** `onVideoFrame`, with the system clock reading `now` as a parameter. */
  function OnVideoFrame(s: Stream, frame: Option<Capture.RawVideoFrame>,
                        outputWidth: uint32, outputHeight: uint32,
                        align: int -> int, now: int): (r: (Stream, Option<Capture.CapturedFrame>))
    // A null frame or missing capturer changes nothing, not even the clock.
    ensures frame.None? || !s.capture.capturerPresent ==> r == (s, None)
    // The clock is recorded only while it still reads the epoch.
    ensures s.previousTime != EPOCH ==> r.0.previousTime == s.previousTime
    ensures frame.Some? && s.capture.capturerPresent && s.previousTime == EPOCH ==> r.0.previousTime == now
    // The frame itself is the shared hand-off.
    ensures (r.0.capture, r.1) == Capture.OnVideoFrame(s.capture, frame, outputWidth, outputHeight, align)
    ensures r.0 == s.(capture := r.0.capture, previousTime := r.0.previousTime)
  {
    if frame.None? || !s.capture.capturerPresent then (s, None)
    else
      var t := if s.previousTime == EPOCH then now else s.previousTime;
      var (c, out) := Capture.OnVideoFrame(s.capture, frame, outputWidth, outputHeight, align);
      (s.(capture := c, previousTime := t), out)
  }

  /** Feeds host calls, each with its clock reading, through `OnVideoFrame`. */
  function Run(s: Stream, frames: seq<Option<Capture.RawVideoFrame>>, nows: seq<int>,
               outputWidth: uint32, outputHeight: uint32, align: int -> int)
    : (Stream, seq<Capture.CapturedFrame>)
    requires |nows| == |frames|
    decreases |frames|
  {
    if |frames| == 0 then (s, [])
    else
      var (s1, out) := OnVideoFrame(s, frames[0], outputWidth, outputHeight, align, nows[0]);
      var (s2, rest) := Run(s1, frames[1..], nows[1..], outputWidth, outputHeight, align);
      (s2, (if out.Some? then [out.value] else []) + rest)
  }

  /** The stream's frames are exactly the shared hand-off's, and once
      `previous_time` has left the epoch no later frame moves it. */
  lemma {:induction false} RunMatchesCaptureAndKeepsClock(
    s: Stream, frames: seq<Option<Capture.RawVideoFrame>>, nows: seq<int>,
    outputWidth: uint32, outputHeight: uint32, align: int -> int)
    requires |nows| == |frames|
    ensures var (t, out) := Run(s, frames, nows, outputWidth, outputHeight, align);
            && (t.capture, out) == Capture.Run(s.capture, frames, outputWidth, outputHeight, align)
            && (s.previousTime != EPOCH ==> t.previousTime == s.previousTime)
    decreases |frames|
  {
    if |frames| > 0 {
      var (s1, out) := OnVideoFrame(s, frames[0], outputWidth, outputHeight, align, nows[0]);
      RunMatchesCaptureAndKeepsClock(s1, frames[1..], nows[1..], outputWidth, outputHeight, align);
    }
  }

  /** With a fresh stream, the first frame's clock reading is the one kept:
      after any run starting with a frame, `previous_time` is that reading
      (provided the clock is not itself at the epoch). */
  lemma FirstFrameFixesClock(frame: Capture.RawVideoFrame, frames: seq<Option<Capture.RawVideoFrame>>,
                             now: int, nows: seq<int>,
                             outputWidth: uint32, outputHeight: uint32, align: int -> int)
    requires |nows| == |frames| && now != EPOCH
    ensures Run(New(), [Some(frame)] + frames, [now] + nows, outputWidth, outputHeight, align).0.previousTime == now
  {
    var all := [Some(frame)] + frames;
    var clocks := [now] + nows;
    assert all[1..] == frames && clocks[1..] == nows;
    var (s1, out) := OnVideoFrame(New(), all[0], outputWidth, outputHeight, align, clocks[0]);
    RunMatchesCaptureAndKeepsClock(s1, frames, nows, outputWidth, outputHeight, align);
  }

  /** Cross-file: a service created with authentication off hides its
      password, so `start` always refuses it with the incomplete-settings
      message and a connect-failed stop. */
  lemma NoAuthServiceNeverStarts(s: Stream, settings: MediasoupService.Settings,
                                 audioBitrate: int64, videoBitrate: int64, speakers: Option<int32>)
    requires !settings.useAuth
    ensures var r := Start(s, Some(MediasoupService.Create(settings)), audioBitrate, videoBitrate, speakers);
            && !r.2
            && r.1 == RefusedStart(INCOMPLETE_SETTINGS)
            && SignalStop(ConnectFailed) in r.1
  {
    MediasoupService.GettersAfterCreate(settings);
  }
}
