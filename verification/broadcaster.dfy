/** The mediasoup broadcaster session (`Broadcaster`): start-up signalling,
    send-transport creation, the transport/producer listener callbacks the
    media engine drives, teardown and the per-frame hand-off.

    HTTP replies are abstract values, libmediasoupclient's answers are an
    `Engine` record, and every step returns the new session, the ordered trace
    of requests and engine/host calls it issued, and an outcome. */
module Broadcaster {
  import opened CTypes
  import opened Optional
  import opened Host
  import MediasoupService
  import Capture

  /* ---------------------------------------------------------------- data */

  datatype Method = Get | Post | Delete

  datatype Request = Request(verb: Method, url: string)

  /** An HTTP reply as the session sees it: status code, body text, whether
      the body parses as JSON, which top-level fields it has, and the value of
      a top-level `id` when that value is a JSON string. */
  datatype Reply = Reply(
    status: int,
    text: string,
    parses: bool,
    fields: set<string>,
    id: Option<string>)

  /** What libmediasoupclient answers: whether `Device::Load` accepts the room
      capabilities, and `CanProduce("audio")` / `CanProduce("video")`. */
  datatype Engine = Engine(loadAccepts: bool, canProduceAudio: bool, canProduceVideo: bool)

  /** Everything the session does that another party can observe, in order. */
  datatype Event =
    | Http(request: Request)
    | Signal(signal: HostSignal)
    | LoadDevice
    | CreateSendTransport(transportId: string)
    | ProduceAudio(opusStereo: bool, opusDtx: bool)
    | ProduceVideo(encodings: nat)
    | CloseTransport(transportId: string)
    | ForwardAudio
    | PublishFrame(frame: Capture.CapturedFrame)
    | Exit

  /** Ways a step can end other than by returning: an exception leaving it, or
      a null-pointer dereference. */
  datatype Fault = Exception(what: string) | NullDereference(what: string)

  datatype Outcome<T> = Ok(value: T) | Err(fault: Fault)

  /** The `std::future` a listener callback hands back to the engine. */
  datatype Future<T> = Resolved(value: T) | Rejected(reason: string)

  /** After `std::exit` nothing else runs: `Run` ignores every call made to
      an exited session. */
  datatype Phase = Running | Exited

  datatype Session = Session(
    id: string,
    url: string,
    username: string,
    password: string,
    enableAudio: bool,
    useSimulcast: bool,
    verifySsl: bool,
    deviceLoaded: bool,
    sendTransport: Option<string>,
    recvTransport: Option<string>,
    audioSource: bool,
    capture: Capture.CaptureState,
    phase: Phase)

  /** The result of every step. */
  datatype Step<T> = Step(session: Session, trace: seq<Event>, outcome: Outcome<T>)

  /** How `CreateSendTransport` ended when it returned normally. */
  datatype Setup = TransportRefused(status: int) | FieldMissing(field: string) | Created

  /** The fields a send-transport reply must carry, in the order they are checked. */
  const REQUIRED_FIELDS: seq<string> :=
    ["id", "iceParameters", "iceCandidates", "dtlsParameters", "sctpParameters"]

  const UNKNOWN_TRANSPORT: string := "Unknown transport requested to connect"
  const ID_MISSING: string := "'id' missing in response"
  const NOT_IMPLEMENTED: string := "not-implemented"
  /** The number of encodings requested for simulcast video. */
  const SIMULCAST_LAYERS: nat := 3

  /** A new broadcaster: `id` stands for the random id drawn at construction. */
  function New(id: string, enableAudio: bool, useSimulcast: bool, verifySsl: bool): (s: Session)
    ensures s.id == id && s.enableAudio == enableAudio && s.useSimulcast == useSimulcast
    ensures s.verifySsl == verifySsl
    ensures s.capture == Capture.INITIAL && s.sendTransport.None? && s.recvTransport.None?
    ensures !s.deviceLoaded && !s.audioSource && s.phase == Running
  {
    Session(id, "", "", "", enableAudio, useSimulcast, verifySsl, false, None, None, false,
            Capture.INITIAL, Running)
  }

  /* ---------------------------------------------------------------- urls */

  function BroadcastersUrl(s: Session): string { s.url + "/broadcasters" }
  function BroadcasterUrl(s: Session): string { s.url + "/broadcasters/" + s.id }
  function TransportsUrl(s: Session): string { BroadcasterUrl(s) + "/transports" }
  function TransportUrl(s: Session, transportId: string): string
  {
    TransportsUrl(s) + "/" + transportId
  }

  /** The HTTP requests in a trace, in order. */
  function Requests(trace: seq<Event>): seq<Request>
  {
    if |trace| == 0 then []
    else (if trace[0].Http? then [trace[0].request] else []) + Requests(trace[1..])
  }

  function Signals(signals: seq<HostSignal>): (r: seq<Event>)
    ensures |r| == |signals| && forall i :: 0 <= i < |r| ==> r[i] == Signal(signals[i])
  {
    seq(|signals|, i requires 0 <= i < |signals| => Signal(signals[i]))
  }

  /** The first of `names` that `fields` lacks, if any. */
  function FirstMissing(fields: set<string>, names: seq<string>): (r: Option<string>)
    ensures r.None? <==> forall i :: 0 <= i < |names| ==> names[i] in fields
    ensures r.Some? ==> exists k :: 0 <= k < |names| && names[k] == r.value && r.value !in fields
                                    && forall i :: 0 <= i < k ==> names[i] in fields
  {
    if |names| == 0 then None
    else if names[0] !in fields then Some(names[0])
    else
      var rest := FirstMissing(fields, names[1..]);
      if rest.Some? then
        ghost var k :| 0 <= k < |names| - 1 && names[1..][k] == rest.value && rest.value !in fields
                        && forall i :: 0 <= i < k ==> names[1..][i] in fields;
        assert names[k + 1] == rest.value;
        rest
      else rest
  }

  /* ------------------------------------------------------------ start-up */

  /** The connection settings the service hands over, each NULL read as "". */
  function ServiceUrl(service: MediasoupService.Service): string
  {
    OrEmpty(MediasoupService.Url(service))
  }

  function ServicePassword(service: MediasoupService.Service): string
  {
    OrEmpty(MediasoupService.Password(service))
  }

  /** `start` gets past its sanity check. */
  predicate ServiceValid(service: Option<MediasoupService.Service>)
  {
    service.Some? && ServiceUrl(service.value) != "" && ServicePassword(service.value) != ""
  }

  /** A 200 transport reply that the code then chokes on: a body that is not
      JSON, or all five fields present but an `id` that is not a string. */
  predicate TransportReplyThrows(reply: Reply)
  {
    reply.status == 200
    && (!reply.parses || (FirstMissing(reply.fields, REQUIRED_FIELDS).None? && reply.id.None?))
  }

  /** `Broadcaster::start`. */
  function Start(s: Session, service: Option<MediasoupService.Service>,
                 room: Reply, register: Reply, transport: Reply, engine: Engine): (r: Step<bool>)
    // A missing service or an empty url/password refuses with connect-failed
    // and issues no request.
    ensures !ServiceValid(service) ==>
              && r.outcome == Ok(false)
              && Requests(r.trace) == []
              && r.trace == Signals(RefusedStart(if service.None? then UNEXPECTED_ERROR else INCOMPLETE_SETTINGS))
    // Otherwise the room is fetched from the url first.
    ensures ServiceValid(service) ==>
              && r.session.url == ServiceUrl(service.value)
              && |Requests(r.trace)| >= 1
              && Requests(r.trace)[0] == Request(Get, r.session.url)
    // A refused registration returns false without asking for a transport.
    ensures ServiceValid(service) && room.parses && engine.loadAccepts && register.status != 200 ==>
              && r.outcome == Ok(false)
              && Requests(r.trace) == [Request(Get, r.session.url), Request(Post, BroadcastersUrl(r.session))]
    // Success is decided by the body parse, the device load and the
    // registration status: the room status is never consulted, and whatever
    // the transport step does short of throwing, start reports success.
    ensures r.outcome == Ok(true) <==>
              ServiceValid(service) && room.parses && engine.loadAccepts
              && register.status == 200 && !TransportReplyThrows(transport)
    ensures r.outcome == Ok(false) <==>
              !ServiceValid(service) || (room.parses && engine.loadAccepts && register.status != 200)
    ensures r.session.phase == s.phase
  {
    if service.None? then
      NoHttpNoRequests(Signals(RefusedStart(UNEXPECTED_ERROR)));
      Step(s, Signals(RefusedStart(UNEXPECTED_ERROR)), Ok(false))
    else
      var svc := service.value;
      var s1 := s.(url := ServiceUrl(svc),
                   username := OrEmpty(MediasoupService.Username(svc)),
                   password := ServicePassword(svc));
      if s1.url == "" || s1.password == "" then
        NoHttpNoRequests(Signals(RefusedStart(INCOMPLETE_SETTINGS)));
        Step(s1, Signals(RefusedStart(INCOMPLETE_SETTINGS)), Ok(false))
      else
        var t0 := [Http(Request(Get, s1.url))];
        if !room.parses then
          Step(s1, t0, Err(Exception("room reply is not JSON")))
        else if !engine.loadAccepts then
          Step(s1, t0 + [LoadDevice], Err(Exception("Device::Load rejected the capabilities")))
        else
          var s2 := s1.(deviceLoaded := true);
          var t1 := t0 + [LoadDevice, Http(Request(Post, BroadcastersUrl(s2)))];
          assert Requests(t1) == [Request(Get, s1.url), Request(Post, BroadcastersUrl(s2))] by {
            RequestsAppend(t0, [LoadDevice, Http(Request(Post, BroadcastersUrl(s2)))]);
            RequestsAppend([LoadDevice], [Http(Request(Post, BroadcastersUrl(s2)))]);
          }
          if register.status != 200 then
            Step(s2, t1, Ok(false))
          else
            var c := SendTransportSetup(s2, transport, engine);
            RequestsAppend(t1, c.trace);
            Step(c.session, t1 + c.trace, if c.outcome.Err? then Err(c.outcome.fault) else Ok(true))
  }

  /** `Broadcaster::CreateSendTransport`, called with the session's own flags. */
  function SendTransportSetup(s: Session, reply: Reply, engine: Engine): (r: Step<Setup>)
    requires s.url != ""
    // The transport request goes out first, to the broadcaster's transports path.
    ensures |r.trace| >= 1 && r.trace[0] == Http(Request(Post, TransportsUrl(s)))
    ensures Requests(r.trace) == [Request(Post, TransportsUrl(s))]
    ensures r.session.url == s.url && r.session.id == s.id && r.session.phase == s.phase
    // It throws exactly on a 200 reply the code cannot read.
    ensures r.outcome.Err? <==> TransportReplyThrows(reply)
    // A refusal or a missing field creates nothing and produces nothing.
    ensures reply.status != 200 ==> r.outcome == Ok(TransportRefused(reply.status)) && |r.trace| == 1 && r.session == s
    ensures r.outcome.Ok? && r.outcome.value.FieldMissing? ==>
              && reply.status == 200
              && FirstMissing(reply.fields, REQUIRED_FIELDS) == Some(r.outcome.value.field)
              && |r.trace| == 1 && r.session == s
    // Otherwise the transport is created from the reply's id, then audio (if
    // enabled and possible) with stereo and DTX, then video (if possible) with
    // three encodings under simulcast and none otherwise.
    ensures r.outcome == Ok(Created) ==>
              var audio := if s.enableAudio && engine.canProduceAudio then [ProduceAudio(true, true)] else [];
              var video := if engine.canProduceVideo
                           then [ProduceVideo(if s.useSimulcast then SIMULCAST_LAYERS else 0)] else [];
              && reply.id.Some?
              && r.session.sendTransport == Some(reply.id.value)
              && r.trace == [Http(Request(Post, TransportsUrl(s))), CreateSendTransport(reply.id.value)] + audio + video
    ensures (reply.status == 200 && reply.parses && reply.id.Some?
             && FirstMissing(reply.fields, REQUIRED_FIELDS).None?) ==> r.outcome == Ok(Created)
  {
    var t0 := [Http(Request(Post, TransportsUrl(s)))];
    assert Requests(t0) == [Request(Post, TransportsUrl(s))] by {
      assert t0[1..] == [];
    }
    var missing := FirstMissing(reply.fields, REQUIRED_FIELDS);
    if reply.status != 200 then
      Step(s, t0, Ok(TransportRefused(reply.status)))
    else if !reply.parses then
      Step(s, t0, Err(Exception("transport reply is not JSON")))
    else if missing.Some? then
      Step(s, t0, Ok(FieldMissing(missing.value)))
    else if reply.id.None? then
      Step(s, t0, Err(Exception("'id' is not a string")))
    else
      var (s1, produced) := CreateAndProduce(s, reply.id.value, engine);
      RequestsAppend(t0, produced);
      Step(s1, t0 + produced, Ok(Created))
  }

  /** The transport created from the reply's id, then the producers: audio
      (if enabled and possible) with stereo and DTX, then video (if possible)
      with three encodings under simulcast and none otherwise. No request
      goes out. */
  function CreateAndProduce(s: Session, transportId: string, engine: Engine): (r: (Session, seq<Event>))
    ensures var produceAudio := s.enableAudio && engine.canProduceAudio;
            var audio := if produceAudio then [ProduceAudio(true, true)] else [];
            var video := if engine.canProduceVideo
                         then [ProduceVideo(if s.useSimulcast then SIMULCAST_LAYERS else 0)] else [];
            && r.1 == [CreateSendTransport(transportId)] + audio + video
            && r.0 == s.(sendTransport := Some(transportId), audioSource := s.audioSource || produceAudio)
    ensures Requests(r.1) == []
  {
    var produceAudio := s.enableAudio && engine.canProduceAudio;
    var audio := if produceAudio then [ProduceAudio(true, true)] else [];
    var video := if engine.canProduceVideo
                 then [ProduceVideo(if s.useSimulcast then SIMULCAST_LAYERS else 0)] else [];
    var trace := [CreateSendTransport(transportId)] + audio + video;
    NoHttpNoRequests(trace);
    (s.(sendTransport := Some(transportId), audioSource := s.audioSource || produceAudio), trace)
  }

  /* ----------------------------------------------------------- listeners */

  /** `OnConnect` (with `OnConnectSendTransport`) for a transport with the given id. */
  function OnConnect(s: Session, transportId: string, reply: Reply): (r: Step<Future<()>>)
    ensures r.session == s
    // The session's send transport is dereferenced before anything else.
    ensures s.sendTransport.None? ==> r.outcome.Err? && r.trace == []
    // A foreign transport is refused without any request.
    ensures s.sendTransport.Some? && transportId != s.sendTransport.value ==>
              r.outcome == Ok(Rejected(UNKNOWN_TRANSPORT)) && r.trace == []
    // Our own transport posts its DTLS parameters once; only 200 resolves.
    ensures s.sendTransport.Some? && transportId == s.sendTransport.value ==>
              && r.trace == [Http(Request(Post, TransportUrl(s, transportId) + "/connect"))]
              && (r.outcome == Ok(Resolved(())) <==> reply.status == 200)
              && (reply.status != 200 ==> r.outcome == Ok(Rejected(reply.text)))
  {
    if s.sendTransport.None? then
      Step(s, [], Err(NullDereference("sendTransport")))
    else if transportId != s.sendTransport.value then
      Step(s, [], Ok(Rejected(UNKNOWN_TRANSPORT)))
    else
      var trace := [Http(Request(Post, TransportUrl(s, s.sendTransport.value) + "/connect"))];
      if reply.status == 200 then Step(s, trace, Ok(Resolved(())))
      else Step(s, trace, Ok(Rejected(reply.text)))
  }

  /** `OnProduce`: ask the broker for a producer id for one local producer.
      The media kind and RTP parameters only shape the request body. */
  function OnProduce(s: Session, reply: Reply): (r: Step<Future<string>>)
    ensures r.session == s
    ensures s.sendTransport.None? ==> r.outcome.Err? && r.trace == []
    ensures s.sendTransport.Some? ==>
              r.trace == [Http(Request(Post, TransportUrl(s, s.sendTransport.value) + "/producers"))]
    // A 200 reply with a string id resolves with exactly that id.
    ensures s.sendTransport.Some? && reply.status == 200 && reply.parses && reply.id.Some? ==>
              r.outcome == Ok(Resolved(reply.id.value))
    // Any other status rejects with the body.
    ensures s.sendTransport.Some? && reply.status != 200 ==> r.outcome == Ok(Rejected(reply.text))
    // A value is only ever produced from a string id of a 200 reply.
    ensures r.outcome.Ok? && r.outcome.value.Resolved? ==>
              reply.status == 200 && reply.id == Some(r.outcome.value.value)
    // A 200 reply without a string id is an error, never a value.
    ensures reply.status == 200 && reply.id.None? ==> r.outcome.Err?
  {
    if s.sendTransport.None? then
      Step(s, [], Err(NullDereference("sendTransport")))
    else
      var trace := [Http(Request(Post, TransportUrl(s, s.sendTransport.value) + "/producers"))];
      if reply.status != 200 then
        Step(s, trace, Ok(Rejected(reply.text)))
      else if !reply.parses then
        Step(s, trace, Err(Exception("producer reply is not JSON")))
      else if reply.id.None? then
        // The exception is stored, then the unguarded `set_value` on the
        // missing field cannot complete.
        Step(s, trace, Err(Exception(ID_MISSING)))
      else
        Step(s, trace, Ok(Resolved(reply.id.value)))
  }

  /** `OnProduce` as evidently intended: a 200 reply without a string `id`
      rejects the future with the "'id' missing" message and returns, instead
      of going on to read the missing field. */
  function OnProduceIntended(s: Session, reply: Reply): (r: Step<Future<string>>)
    ensures r.session == s && r.trace == OnProduce(s, reply).trace
    // It agrees with the code as written wherever that completes.
    ensures OnProduce(s, reply).outcome.Ok? ==> r.outcome == OnProduce(s, reply).outcome
    // Once the transport exists, only an unreadable body is an error.
    ensures s.sendTransport.Some? ==> (r.outcome.Err? <==> reply.status == 200 && !reply.parses)
    ensures s.sendTransport.Some? && reply.status == 200 && reply.parses && reply.id.None? ==>
              r.outcome == Ok(Rejected(ID_MISSING))
    // It resolves exactly on a parsed 200 reply with a string id, with that id.
    ensures (r.outcome.Ok? && r.outcome.value.Resolved?) <==>
              s.sendTransport.Some? && reply.status == 200 && reply.parses && reply.id.Some?
    ensures r.outcome.Ok? && r.outcome.value.Resolved? ==> r.outcome.value.value == reply.id.value
  {
    if s.sendTransport.None? then
      Step(s, [], Err(NullDereference("sendTransport")))
    else
      var trace := [Http(Request(Post, TransportUrl(s, s.sendTransport.value) + "/producers"))];
      if reply.status != 200 then
        Step(s, trace, Ok(Rejected(reply.text)))
      else if !reply.parses then
        Step(s, trace, Err(Exception("producer reply is not JSON")))
      else if reply.id.None? then
        Step(s, trace, Ok(Rejected(ID_MISSING)))
      else
        Step(s, trace, Ok(Resolved(reply.id.value)))
  }

  /** The input that separates the two: a well-formed 200 reply whose body
      has no `id`. As written the call fails; as intended the engine gets a
      rejected future carrying the message. */
  lemma ProducerReplyWithoutId(s: Session)
    requires s.sendTransport.Some?
    ensures var reply := Reply(200, "{}", true, {}, None);
            && OnProduce(s, reply).outcome == Err(Exception(ID_MISSING))
            && OnProduceIntended(s, reply).outcome == Ok(Rejected(ID_MISSING))
  {
  }

  /** `OnProduceData`: data producers are not implemented. */
  function OnProduceData(s: Session): (r: Step<Future<string>>)
    ensures r.session == s && r.trace == [] && r.outcome == Ok(Resolved(NOT_IMPLEMENTED))
  {
    Step(s, [], Ok(Resolved(NOT_IMPLEMENTED)))
  }

  /** `Broadcaster::stop`: close whichever transports exist, deregister, report success. */
  function Stop(s: Session): (r: Step<bool>)
    ensures r.session == s && r.outcome == Ok(true)
    ensures Requests(r.trace) == [Request(Delete, BroadcasterUrl(s))]
    ensures |r.trace| >= 1 && r.trace[|r.trace| - 1] == Http(Request(Delete, BroadcasterUrl(s)))
    ensures forall e :: e in r.trace && e.CloseTransport? ==>
              Some(e.transportId) == s.sendTransport || Some(e.transportId) == s.recvTransport
    ensures s.sendTransport.Some? ==> CloseTransport(s.sendTransport.value) in r.trace
  {
    var recv := if s.recvTransport.Some? then [CloseTransport(s.recvTransport.value)] else [];
    var send := if s.sendTransport.Some? then [CloseTransport(s.sendTransport.value)] else [];
    var delete := [Http(Request(Delete, BroadcasterUrl(s)))];
    RequestsAppend(recv + send, delete);
    RequestsAppend(recv, send);
    Step(s, recv + send + delete, Ok(true))
  }

  /** Stopping is repeatable: a second stop changes nothing, succeeds again,
      and sends a second DELETE. */
  lemma StopTwiceDeletesTwice(s: Session)
    ensures var first := Stop(s);
            var second := Stop(first.session);
            && second.session == s && second.outcome == Ok(true)
            && Requests(first.trace + second.trace)
               == [Request(Delete, BroadcasterUrl(s)), Request(Delete, BroadcasterUrl(s))]
  {
    RequestsAppend(Stop(s).trace, Stop(Stop(s).session).trace);
  }

  /** `OnConnectionStateChange`: only "failed" stops the session and exits. */
  function OnConnectionStateChange(s: Session, connectionState: string): (r: Step<()>)
    ensures r.outcome == Ok(())
    ensures r.session.phase == Exited <==> connectionState == "failed" || s.phase == Exited
    ensures connectionState != "failed" ==> r.session == s && r.trace == []
    ensures connectionState == "failed" ==>
              && r.trace == Stop(s).trace + [Exit]
              && r.session == s.(phase := Exited)
  {
    if connectionState == "failed" then
      var stopped := Stop(s);
      Step(stopped.session.(phase := Exited), stopped.trace + [Exit], Ok(()))
    else
      Step(s, [], Ok(()))
  }

  /* ------------------------------------------------------------- frames */

  /** `onAudioFrame`: a null buffer is ignored, otherwise it goes to the audio
      source, which exists only once an audio producer was set up. */
  function OnAudioFrame(s: Session, framePresent: bool): (r: Step<()>)
    ensures r.session == s
    ensures !framePresent ==> r.trace == [] && r.outcome == Ok(())
    ensures framePresent && s.audioSource ==> r.trace == [ForwardAudio] && r.outcome == Ok(())
    ensures framePresent && !s.audioSource ==> r.outcome.Err?
  {
    if !framePresent then Step(s, [], Ok(()))
    else if !s.audioSource then Step(s, [], Err(NullDereference("audio_source")))
    else Step(s, [ForwardAudio], Ok(()))
  }

  /** `onVideoFrame`: the shared hand-off applied to the session's counter. */
  function OnVideoFrame(s: Session, frame: Option<Capture.RawVideoFrame>,
                        outputWidth: uint32, outputHeight: uint32, align: int -> int): (r: Step<()>)
    ensures r.outcome == Ok(())
    ensures frame.None? || !s.capture.capturerPresent ==> r.session == s && r.trace == []
    ensures frame.Some? && s.capture.capturerPresent ==>
              && r.session == s.(capture := s.capture.(frameId := PreIncrement16(s.capture.frameId)))
              && |r.trace| == 1 && r.trace[0].PublishFrame?
              && r.trace[0].frame.id == r.session.capture.frameId
  {
    var (c, out) := Capture.OnVideoFrame(s.capture, frame, outputWidth, outputHeight, align);
    Step(s.(capture := c), if out.Some? then [PublishFrame(out.value)] else [], Ok(()))
  }

  /* ------------------------------------------------------------ process */

  /** One entry point of the session, as the host or the engine calls it. */
  datatype Call =
    | CallStart(service: Option<MediasoupService.Service>, room: Reply, register: Reply,
                transport: Reply, engine: Engine)
    | CallStop
    | CallConnect(transportId: string, reply: Reply)
    | CallProduce(reply: Reply)
    | CallProduceData
    | CallStateChange(connectionState: string)
    | CallAudioFrame(framePresent: bool)
    | CallVideoFrame(frame: Option<Capture.RawVideoFrame>, outputWidth: uint32,
                     outputHeight: uint32, align: int -> int)

  /** The one call that ends the process. */
  predicate Fails(c: Call)
  {
    c.CallStateChange? && c.connectionState == "failed"
  }

  /** One call delivered to the session: once the process has exited it never
      runs; otherwise it is the step it names. */
  function Handle(s: Session, c: Call): (r: (Session, seq<Event>))
    ensures s.phase == Exited ==> r == (s, [])
    // Only a "failed" connection state leaves the running phase, and it does
    // so by stopping first and exiting last.
    ensures s.phase == Running && !Fails(c) ==> r.0.phase == Running
    ensures s.phase == Running && Fails(c) ==>
              && r.0 == s.(phase := Exited)
              && r.1 == Stop(s).trace + [Exit]
              && Requests(r.1) == [Request(Delete, BroadcasterUrl(s))]
  {
    if s.phase == Exited then (s, [])
    else if Fails(c) then
      var st := OnConnectionStateChange(s, c.connectionState);
      RequestsAppend(Stop(s).trace, [Exit]);
      NoHttpNoRequests([Exit]);
      (st.session, st.trace)
    else
      var st := Perform(s, c);
      (st.session, st.trace)
  }

  /** The step a call names, its result dropped. Every call but a "failed"
      connection state keeps the phase. */
  function Perform(s: Session, c: Call): (r: Step<()>)
    ensures !Fails(c) ==> r.session.phase == s.phase
  {
    match c
    case CallStart(service, room, register, transport, engine) =>
      StartCall(s, service, room, register, transport, engine)
    case CallStop => var x := Stop(s); Step(x.session, x.trace, Ok(()))
    case CallConnect(id, reply) => var x := OnConnect(s, id, reply); Step(x.session, x.trace, Ok(()))
    case CallProduce(reply) => var x := OnProduce(s, reply); Step(x.session, x.trace, Ok(()))
    case CallProduceData => var x := OnProduceData(s); Step(x.session, x.trace, Ok(()))
    case CallStateChange(state) => OnConnectionStateChange(s, state)
    case CallAudioFrame(present) => OnAudioFrame(s, present)
    case CallVideoFrame(frame, w, h, align) => OnVideoFrame(s, frame, w, h, align)
  }

  /** `start` as a call: what it leaves and issues, its result dropped. It
      keeps the phase. */
  function StartCall(s: Session, service: Option<MediasoupService.Service>,
                     room: Reply, register: Reply, transport: Reply, engine: Engine): (r: Step<()>)
    ensures r.session.phase == s.phase
  {
    var x := Start(s, service, room, register, transport, engine);
    Step(x.session, x.trace, Ok(()))
  }

  /** A sequence of calls delivered in order: the session they leave and
      everything they did, concatenated. */
  function Run(s: Session, calls: seq<Call>): (Session, seq<Event>)
  {
    Fold(Handle, s, calls)
  }

  /** Calls delivered in order through any step. */
  function Fold(step: (Session, Call) -> (Session, seq<Event>), s: Session, calls: seq<Call>)
    : (Session, seq<Event>)
    decreases |calls|
  {
    if |calls| == 0 then (s, [])
    else
      var h := step(s, calls[0]);
      var rest := Fold(step, h.0, calls[1..]);
      (rest.0, h.1 + rest.1)
  }

  /* ------------------------------------------------------------- lemmas */

  lemma {:induction false} RequestsAppend(a: seq<Event>, b: seq<Event>)
    ensures Requests(a + b) == Requests(a) + Requests(b)
    decreases |a|
  {
    if |a| == 0 {
      assert a + b == b;
    } else {
      assert (a + b)[0] == a[0];
      assert (a + b)[1..] == a[1..] + b;
      RequestsAppend(a[1..], b);
    }
  }

  /** A trace without HTTP events issues no request. */
  lemma {:induction false} NoHttpNoRequests(trace: seq<Event>)
    requires forall i :: 0 <= i < |trace| ==> !trace[i].Http?
    ensures Requests(trace) == []
    decreases |trace|
  {
    if |trace| > 0 {
      NoHttpNoRequests(trace[1..]);
    }
  }

  /** The status of the room reply is only logged: changing it changes
      nothing about what `start` does. */
  lemma RoomStatusIgnored(s: Session, service: Option<MediasoupService.Service>,
                          room: Reply, status: int, register: Reply, transport: Reply, engine: Engine)
    ensures Start(s, service, room, register, transport, engine)
         == Start(s, service, room.(status := status), register, transport, engine)
  {
  }

  /** Full start-up: the requests go out in protocol order — room, register,
      transport — and the transport is created and both producers requested. */
  lemma StartHappyPath(s: Session, service: MediasoupService.Service,
                       room: Reply, register: Reply, transport: Reply)
    requires ServiceValid(Some(service))
    requires room.parses && register.status == 200
    requires transport.status == 200 && transport.parses && transport.id.Some?
    requires forall f :: f in REQUIRED_FIELDS ==> f in transport.fields
    ensures var r := Start(s, Some(service), room, register, transport, Engine(true, true, true));
            && r.outcome == Ok(true)
            && r.session.sendTransport == Some(transport.id.value)
            && Requests(r.trace) == [Request(Get, r.session.url),
                                     Request(Post, BroadcastersUrl(r.session)),
                                     Request(Post, TransportsUrl(r.session))]
            && (s.enableAudio ==> ProduceAudio(true, true) in r.trace)
            && ProduceVideo(if s.useSimulcast then SIMULCAST_LAYERS else 0) in r.trace
  {
    var engine := Engine(true, true, true);
    var s2 := StartedSession(s, service);
    StartReachesTransport(s, service, room, register, transport, engine);
    RegistrationThenTransport(s2, transport, engine);
    var c := SendTransportSetup(s2, transport, engine);
    assert c.outcome == Ok(Created);
  }

  /** The events of a start that got past registration: the room fetch and the
      registration, then the transport request, with the producers after. */
  lemma RegistrationThenTransport(s: Session, transport: Reply, engine: Engine)
    requires s.url != ""
    requires transport.status == 200 && transport.parses && transport.id.Some?
    requires forall f :: f in REQUIRED_FIELDS ==> f in transport.fields
    ensures var c := SendTransportSetup(s, transport, engine);
            var t := [Http(Request(Get, s.url)), LoadDevice, Http(Request(Post, BroadcastersUrl(s)))] + c.trace;
            && c.outcome == Ok(Created)
            && c.session.sendTransport == Some(transport.id.value)
            && c.session.url == s.url && c.session.id == s.id
            && Requests(t) == [Request(Get, c.session.url),
                               Request(Post, BroadcastersUrl(c.session)),
                               Request(Post, TransportsUrl(c.session))]
            && (s.enableAudio && engine.canProduceAudio ==> ProduceAudio(true, true) in t)
            && (engine.canProduceVideo ==> ProduceVideo(if s.useSimulcast then SIMULCAST_LAYERS else 0) in t)
  {
    var t1 := [Http(Request(Get, s.url)), LoadDevice, Http(Request(Post, BroadcastersUrl(s)))];
    var c := SendTransportSetup(s, transport, engine);
    TransportCreatedWithProducers(s, transport, engine);
    assert Requests(t1) == [Request(Get, s.url), Request(Post, BroadcastersUrl(s))] by {
      RequestsAppend([Http(Request(Get, s.url))], [LoadDevice, Http(Request(Post, BroadcastersUrl(s)))]);
      RequestsAppend([LoadDevice], [Http(Request(Post, BroadcastersUrl(s)))]);
    }
    RequestsAppend(t1, c.trace);
  }

  /** A readable 200 transport reply carrying every required field creates the
      send transport and requests each producer the engine can make. */
  lemma TransportCreatedWithProducers(s: Session, reply: Reply, engine: Engine)
    requires s.url != ""
    requires reply.status == 200 && reply.parses && reply.id.Some?
    requires forall f :: f in REQUIRED_FIELDS ==> f in reply.fields
    ensures var r := SendTransportSetup(s, reply, engine);
            && r.outcome == Ok(Created)
            && r.session.sendTransport == Some(reply.id.value)
            && Requests(r.trace) == [Request(Post, TransportsUrl(s))]
            && (s.enableAudio && engine.canProduceAudio ==> ProduceAudio(true, true) in r.trace)
            && (engine.canProduceVideo ==> ProduceVideo(if s.useSimulcast then SIMULCAST_LAYERS else 0) in r.trace)
  {
    assert FirstMissing(reply.fields, REQUIRED_FIELDS).None?;
    var r := SendTransportSetup(s, reply, engine);
    assert r.trace[|r.trace| - 1] in r.trace;
  }

  /** The session `start` works with once the settings are stored and the
      device is loaded. */
  function StartedSession(s: Session, service: MediasoupService.Service): Session
  {
    s.(url := ServiceUrl(service),
       username := OrEmpty(MediasoupService.Username(service)),
       password := ServicePassword(service), deviceLoaded := true)
  }

  /** Past a registration accepted with 200, `start` is the room fetch, the
      device load and the registration followed by the transport setup. */
  lemma StartReachesTransport(s: Session, service: MediasoupService.Service,
                              room: Reply, register: Reply, transport: Reply, engine: Engine)
    requires ServiceValid(Some(service)) && room.parses && engine.loadAccepts && register.status == 200
    ensures var s2 := StartedSession(s, service);
            var c := SendTransportSetup(s2, transport, engine);
            Start(s, Some(service), room, register, transport, engine)
              == Step(c.session,
                      [Http(Request(Get, s2.url)), LoadDevice, Http(Request(Post, BroadcastersUrl(s2)))] + c.trace,
                      if c.outcome.Err? then Err(c.outcome.fault) else Ok(true))
  {
    var s2 := StartedSession(s, service);
    var get, post := Http(Request(Get, s2.url)), Http(Request(Post, BroadcastersUrl(s2)));
    assert [get] + [LoadDevice, post] == [get, LoadDevice, post];
  }

  /** A transport reply missing `dtlsParameters` (with the fields checked
      before it present) aborts setup before any producer is requested. */
  lemma MissingDtlsParametersProducesNothing(s: Session, reply: Reply, engine: Engine)
    requires s.url != ""
    requires reply.status == 200 && reply.parses
    requires "id" in reply.fields && "iceParameters" in reply.fields && "iceCandidates" in reply.fields
    requires "dtlsParameters" !in reply.fields
    ensures var r := SendTransportSetup(s, reply, engine);
            && r.outcome == Ok(FieldMissing("dtlsParameters"))
            && r.session.sendTransport == s.sendTransport
            && forall e :: e in r.trace ==> !e.ProduceAudio? && !e.ProduceVideo? && !e.CreateSendTransport?
  {
    assert REQUIRED_FIELDS[3] == "dtlsParameters";
    assert FirstMissing(reply.fields, REQUIRED_FIELDS) == Some("dtlsParameters") by {
      assert REQUIRED_FIELDS[1..][1..][1..][0] == "dtlsParameters";
    }
  }

  /** Cross-file: a mediasoup service created with authentication off hides its
      password, so `start` always refuses with connect-failed and sends nothing. */
  lemma NoAuthServiceNeverStarts(s: Session, settings: MediasoupService.Settings,
                                 room: Reply, register: Reply, transport: Reply, engine: Engine)
    requires !settings.useAuth
    ensures var r := Start(s, Some(MediasoupService.Create(settings)), room, register, transport, engine);
            && r.outcome == Ok(false)
            && Requests(r.trace) == []
            && Signal(SignalStop(ConnectFailed)) in r.trace
  {
    MediasoupService.PasswordPresentIff(settings);
    var r := Start(s, Some(MediasoupService.Create(settings)), room, register, transport, engine);
    assert r.trace == Signals(RefusedStart(INCOMPLETE_SETTINGS));
    assert r.trace[1] == Signal(SignalStop(ConnectFailed));
  }

  /** Running calls one after another is running their concatenation. */
  lemma {:induction false} RunAppend(s: Session, a: seq<Call>, b: seq<Call>)
    ensures var first := Run(s, a);
            var second := Run(first.0, b);
            Run(s, a + b) == (second.0, first.1 + second.1)
  {
    FoldAppend(Handle, s, a, b);
  }

  lemma {:induction false} FoldAppend(step: (Session, Call) -> (Session, seq<Event>),
                                      s: Session, a: seq<Call>, b: seq<Call>)
    ensures var first := Fold(step, s, a);
            var second := Fold(step, first.0, b);
            Fold(step, s, a + b) == (second.0, first.1 + second.1)
    decreases |a|
  {
    if |a| == 0 {
      assert a + b == b;
      assert [] + Fold(step, s, b).1 == Fold(step, s, b).1;
    } else {
      assert (a + b)[0] == a[0];
      assert (a + b)[1..] == a[1..] + b;
      var h := step(s, a[0]);
      FoldAppend(step, h.0, a[1..], b);
      var first := Fold(step, h.0, a[1..]);
      var second := Fold(step, first.0, b);
      assert h.1 + (first.1 + second.1) == (h.1 + first.1) + second.1;
    }
  }

  /** Nothing runs after the exit: an exited session ignores every call. */
  lemma {:induction false} ExitedIsAbsorbing(s: Session, calls: seq<Call>)
    requires s.phase == Exited
    ensures Run(s, calls) == (s, [])
    decreases |calls|
  {
    if |calls| > 0 {
      assert Handle(s, calls[0]) == (s, []);
      ExitedIsAbsorbing(s, calls[1..]);
      assert [] + Run(s, calls[1..]).1 == [];
    }
  }

  /** The process ends exactly when it had already ended or some call
      reported the "failed" connection state. */
  lemma {:induction false} ExitedIffFailed(s: Session, calls: seq<Call>)
    ensures Run(s, calls).0.phase == Exited <==>
              s.phase == Exited || exists i :: 0 <= i < |calls| && Fails(calls[i])
    decreases |calls|
  {
    if |calls| == 0 {
    } else if s.phase == Exited {
      ExitedIsAbsorbing(s, calls);
    } else {
      var h := Handle(s, calls[0]);
      ExitedIffFailed(h.0, calls[1..]);
      if exists i :: 0 <= i < |calls[1..]| && Fails(calls[1..][i]) {
        var i :| 0 <= i < |calls[1..]| && Fails(calls[1..][i]);
        assert Fails(calls[i + 1]);
      }
      if exists i :: 0 <= i < |calls| && Fails(calls[i]) {
        var i :| 0 <= i < |calls| && Fails(calls[i]);
        if i > 0 {
          assert Fails(calls[1..][i - 1]);
        }
      }
    }
  }

  /** A "failed" connection state is the last thing that happens: whatever
      calls follow it add nothing. If the process was still running, it
      stopped (ending with the DELETE) and then exited. */
  lemma NothingAfterFailure(s: Session, before: seq<Call>, c: Call, after: seq<Call>)
    requires Fails(c)
    ensures Run(s, before + [c] + after) == Run(s, before + [c])
    ensures Run(s, before + [c]).0.phase == Exited
    ensures var mid := Run(s, before);
            mid.0.phase == Running ==>
              Run(s, before + [c]).1 == mid.1 + Stop(mid.0).trace + [Exit]
  {
    var mid := Run(s, before);
    RunAppend(s, before, [c]);
    RunAppend(s, before + [c], after);
    var fin := Run(s, before + [c]);
    var h := Handle(mid.0, c);
    assert [c][1..] == [];
    assert Fold(Handle, mid.0, [c]) == (Fold(Handle, h.0, []).0, h.1 + Fold(Handle, h.0, []).1);
    assert Run(mid.0, [c]) == (h.0, h.1 + []);
    assert h.0.phase == Exited;
    ExitedIsAbsorbing(fin.0, after);
    assert fin.1 + [] == fin.1;
  }

  /** The connect listener answers for the transport setup created: its own
      id posts the DTLS parameters under that transport and resolves only on
      200; any other id is refused without a request. */
  lemma ConnectAfterSetup(s: Session, reply: Reply, engine: Engine, transportId: string, connectReply: Reply)
    requires s.url != ""
    requires reply.status == 200 && reply.parses && reply.id.Some?
    requires forall f :: f in REQUIRED_FIELDS ==> f in reply.fields
    ensures var k := OnConnect(SendTransportSetup(s, reply, engine).session, transportId, connectReply);
            && (transportId == reply.id.value ==>
                  && k.trace == [Http(Request(Post, TransportsUrl(s) + "/" + reply.id.value + "/connect"))]
                  && (k.outcome == Ok(Resolved(())) <==> connectReply.status == 200))
            && (transportId != reply.id.value ==>
                  k.trace == [] && k.outcome == Ok(Rejected(UNKNOWN_TRANSPORT)))
  {
    TransportCreatedWithProducers(s, reply, engine);
  }
}
