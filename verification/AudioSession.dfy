/** The objects behind the two sessions: the stream endpoint with the handler it serves, the audio
    sink and the audio source. Every method runs to its end here; SinkSession and SourceSession say
    what happens when others run in between. */
module AudioSession {
  import opened StreamEndpoint
  import Sinks = SinkSession
  import Sources = SourceSession

  datatype Handler = SinkHandler(sink: AudioSink) | SourceHandler(source: AudioSource)

  /** What the outside answers during one call, to either kind of handler. */
  datatype World = World(sink: Sinks.Replies, source: Sources.Replies)

  class AudioEndpoint {
    var state: EndpointState
    const handler: Handler

    constructor (handler: Handler)
      ensures state == IDLE && this.handler == handler
    {
      state := IDLE;
      this.handler := handler;
    }

    ghost function Objects(): set<object> {
      match handler
      case SinkHandler(k) => {this, k}
      case SourceHandler(k) => {this, k}
    }

    /** Nobody else's endpoint is attached to the handler. */
    ghost predicate Valid()
      reads Objects()
    {
      && IsStable(state)
      && match handler
         case SinkHandler(k) => k.endpoint == null || k.endpoint == this
         case SourceHandler(k) => k.Valid() && (k.endpoint == null || k.endpoint == this)
    }

    ghost function SinkView(): Sinks.Session
      requires handler.SinkHandler?
      reads Objects()
    {
      Sinks.Session(state, Free, handler.sink.View())
    }

    ghost function SourceView(): Sources.Session
      requires handler.SourceHandler?
      reads Objects()
    {
      Sources.Session(state, Free, handler.source.View(), Sources.Outside)
    }

    /** The operation uses nothing that is not there. */
    ghost predicate Safe(op: Operation, w: World)
      reads Objects()
    {
      match handler
      case SinkHandler(_) => Sinks.Operate(SinkView(), op, w.sink).Done?
      case SourceHandler(_) => Sources.Operate(SourceView(), op, w.sink.configurationValid, w.source).Done?
    }

    /** The new state of endpoint and handler, and the result, are those of the session model. */
    twostate predicate Operated(op: Operation, w: World, result: Error)
      requires old(Safe(op, w))
      reads Objects()
    {
      match handler
      case SinkHandler(_) =>
        Sinks.Operate(old(SinkView()), op, w.sink) == Sinks.Done(SinkView(), result)
      case SourceHandler(_) =>
        && Sources.Operate(old(SourceView()), op, w.sink.configurationValid, w.source) == Sources.Done(SourceView())
        && (result == NONE <==> state != old(state) || (op == ABORT && old(state) == IDLE))
    }

    /** Handler and endpoint are in step. */
    ghost predicate Steady()
      reads Objects()
    {
      match handler
      case SinkHandler(_) => Sinks.InStep(SinkView())
      case SourceHandler(_) => Sources.Bound(SourceView())
    }

    /** The one thing that puts them out of step. */
    ghost predicate Refused(op: Operation, w: World)
      reads Objects()
    {
      handler.SinkHandler? && Sinks.Refused(SinkView(), op, w.sink)
    }

    /** The operation has kept them in step, unless that happened. */
    twostate predicate KeptSteady(op: Operation, w: World)
      reads Objects()
    {
      old(Steady()) ==> (Steady() <==> !old(Refused(op, w)))
    }

    // ---------------------------------------------------------------- called by the remote

    method OnSetConfiguration(w: World) returns (result: Error)
      requires Valid() && Safe(SET_CONFIGURATION, w)
      modifies Objects()
      ensures Valid() && Operated(SET_CONFIGURATION, w, result)
      ensures old(state) != IDLE ==> result == ILLEGAL_STATE && unchanged(Objects())
      ensures state == if result == NONE then CONFIGURED else old(state)
      ensures old(state) == IDLE ==> result == NONE || result == BAD_REQUEST
      ensures KeptSteady(SET_CONFIGURATION, w)
    {
      hide Sinks.InStep, Sinks.Refused, Sources.Bound;
      result := ILLEGAL_STATE;
      if state == IDLE {
        result := BAD_REQUEST;
        if w.sink.configurationValid {
          var answer: Error;
          match handler {
            case SinkHandler(k) => answer := k.OnSetConfiguration();
            case SourceHandler(k) => answer := k.OnSetConfiguration(this, w.source);
          }
          if answer == NONE {
            state := CONFIGURED;
            result := NONE;
          }
        }
      }
      if old(Steady()) {
        match handler {
          case SinkHandler(_) => Sinks.OperateInStep(old(SinkView()), SET_CONFIGURATION, w.sink);
          case SourceHandler(_) =>
            Sources.OperateIsBound(old(SourceView()), SET_CONFIGURATION, w.sink.configurationValid, w.source);
        }
      }
    }

    method OnOpen(w: World) returns (result: Error)
      requires Valid() && Safe(OPEN, w)
      modifies Objects()
      ensures Valid() && Operated(OPEN, w, result)
      ensures old(state) != CONFIGURED ==> result == ILLEGAL_STATE && unchanged(Objects())
      ensures state == if result == NONE then OPENED else old(state)
      ensures KeptSteady(OPEN, w)
    {
      hide Sinks.InStep, Sinks.Refused, Sources.Bound;
      result := ILLEGAL_STATE;
      if state == CONFIGURED {
        match handler {
          case SinkHandler(k) => result := k.OnAcquire(w.sink);
          case SourceHandler(k) => result := k.OnAcquire(w.source);
        }
        if result == NONE {
          state := OPENED;
        }
      }
      if old(Steady()) {
        match handler {
          case SinkHandler(_) => Sinks.OperateInStep(old(SinkView()), OPEN, w.sink);
          case SourceHandler(_) =>
            Sources.OperateIsBound(old(SourceView()), OPEN, w.sink.configurationValid, w.source);
        }
      }
    }

    method OnClose(w: World) returns (result: Error)
      requires Valid() && Safe(CLOSE, w)
      modifies Objects()
      ensures Valid() && Operated(CLOSE, w, result)
      ensures old(state) != OPENED && old(state) != STARTED ==> result == ILLEGAL_STATE && unchanged(Objects())
      ensures state == if old(state) == OPENED || old(state) == STARTED then IDLE else old(state)
      ensures KeptSteady(CLOSE, w)
    {
      hide Sinks.InStep, Sinks.Refused, Sources.Bound;
      result := ILLEGAL_STATE;
      if state == OPENED || state == STARTED {
        state := CLOSING;
        match handler {
          case SinkHandler(k) => result := k.OnRelinquish(w.sink);
          case SourceHandler(k) => result := k.OnRelinquish();
        }
        state := IDLE;
      }
      if old(Steady()) {
        match handler {
          case SinkHandler(_) => Sinks.OperateInStep(old(SinkView()), CLOSE, w.sink);
          case SourceHandler(_) =>
            Sources.OperateIsBound(old(SourceView()), CLOSE, w.sink.configurationValid, w.source);
        }
      }
    }

    method OnStart(w: World) returns (result: Error)
      requires Valid() && Safe(START, w)
      modifies Objects()
      ensures Valid() && Operated(START, w, result)
      ensures old(state) != OPENED ==> result == ILLEGAL_STATE && unchanged(Objects())
      ensures state == if result == NONE then STARTED else old(state)
      ensures KeptSteady(START, w)
    {
      hide Sinks.InStep, Sinks.Refused, Sources.Bound;
      result := ILLEGAL_STATE;
      if state == OPENED {
        match handler {
          case SinkHandler(k) => result := k.OnSetSpeed(100, w.sink);
          case SourceHandler(k) => result := k.OnSetSpeed(100, w.source);
        }
        if result == NONE {
          state := STARTED;
        }
      }
      if old(Steady()) {
        match handler {
          case SinkHandler(_) => Sinks.OperateInStep(old(SinkView()), START, w.sink);
          case SourceHandler(_) =>
            Sources.OperateIsBound(old(SourceView()), START, w.sink.configurationValid, w.source);
        }
      }
    }

    method OnSuspend(w: World) returns (result: Error)
      requires Valid() && Safe(SUSPEND, w)
      modifies Objects()
      ensures Valid() && Operated(SUSPEND, w, result)
      ensures old(state) != STARTED ==> result == ILLEGAL_STATE && unchanged(Objects())
      ensures state == if result == NONE then OPENED else old(state)
      ensures KeptSteady(SUSPEND, w)
    {
      hide Sinks.InStep, Sinks.Refused, Sources.Bound;
      result := ILLEGAL_STATE;
      if state == STARTED {
        match handler {
          case SinkHandler(k) => result := k.OnSetSpeed(0, w.sink);
          case SourceHandler(k) => result := k.OnSetSpeed(0, w.source);
        }
        if result == NONE {
          state := OPENED;
        }
      }
      if old(Steady()) {
        match handler {
          case SinkHandler(_) => Sinks.OperateInStep(old(SinkView()), SUSPEND, w.sink);
          case SourceHandler(_) =>
            Sources.OperateIsBound(old(SourceView()), SUSPEND, w.sink.configurationValid, w.source);
        }
      }
    }

    method OnAbort(w: World) returns (result: Error)
      requires Valid() && Safe(ABORT, w)
      modifies Objects()
      ensures Valid() && Operated(ABORT, w, result)
      ensures state == IDLE && (old(state) == IDLE ==> result == NONE && unchanged(Objects()))
      ensures KeptSteady(ABORT, w)
    {
      hide Sinks.InStep, Sinks.Refused, Sources.Bound;
      result := NONE;
      if state != IDLE {
        state := ABORTING;
        match handler {
          case SinkHandler(k) => result := k.OnRelinquish(w.sink);
          case SourceHandler(k) => result := k.OnRelinquish();
        }
        state := IDLE;
      }
      if old(Steady()) {
        match handler {
          case SinkHandler(_) => Sinks.OperateInStep(old(SinkView()), ABORT, w.sink);
          case SourceHandler(_) =>
            Sources.OperateIsBound(old(SourceView()), ABORT, w.sink.configurationValid, w.source);
        }
      }
    }

    /** The channel is gone: abort whatever is going on, without asking the remote endpoint. */
    method Disconnected(w: World)
      requires Valid() && Safe(ABORT, w)
      modifies Objects()
      ensures Valid() && state == IDLE
      ensures exists result :: Operated(ABORT, w, result)
      ensures KeptSteady(ABORT, w)
    {
      if state != IDLE && state != CLOSING && state != ABORTING {
        var result := OnAbort(w);
      } else {
        assert Operated(ABORT, w, NONE);
      }
    }

    // ---------------------------------------------------------------- called by the client

    method Abort(w: World) returns (result: Error)
      requires Valid() && Safe(ABORT, w)
      modifies Objects()
      ensures Valid()
      ensures old(state) != IDLE && w.sink.remote == NONE ==> Operated(ABORT, w, result)
      ensures old(state) == IDLE ==> unchanged(Objects()) && result == ILLEGAL_STATE
      ensures old(state) != IDLE && w.sink.remote != NONE ==> unchanged(Objects()) && result == w.sink.remote
    {
      result := ILLEGAL_STATE;
      if state == CONFIGURED || state == OPENED || state == STARTED {
        result := w.sink.remote;
        if result == NONE {
          result := OnAbort(w);
        }
      }
    }

    /** A configuration by the client comes without a channel. */
    static function Local(op: Operation, w: World): World {
      if op == SET_CONFIGURATION then w.(source := w.source.(channel := false)) else w
    }

    /** If it comes to the operation, that uses nothing that is not there. */
    ghost predicate SafeToInitiate(op: Operation, w: World)
      reads Objects()
    {
      (op == SET_CONFIGURATION || Admits(op, state)) && w.sink.remote == NONE ==> Safe(op, Local(op, w))
    }

    /** The client's operations check the state, except for Configure, and ask the remote endpoint. If
        either refuses, nothing changes; otherwise they are as if the remote had asked. */
    twostate predicate Initiated(op: Operation, w: World, result: Error)
      requires old(SafeToInitiate(op, w))
      reads Objects()
    {
      match handler
      case SinkHandler(_) =>
        Sinks.Initiate(old(SinkView()), op, w.sink) == Sinks.Done(SinkView(), result)
      case SourceHandler(_) =>
        if op != SET_CONFIGURATION && !Admits(op, old(state)) then
          SourceView() == old(SourceView()) && result == ILLEGAL_STATE
        else if w.sink.remote != NONE then
          SourceView() == old(SourceView()) && result == w.sink.remote
        else
          Operated(op, Local(op, w), result)
    }

    method Configure(w: World) returns (result: Error)
      requires Valid() && SafeToInitiate(SET_CONFIGURATION, w)
      modifies Objects()
      ensures Valid() && Initiated(SET_CONFIGURATION, w, result)
      ensures w.sink.remote != NONE ==> result == w.sink.remote && unchanged(Objects())
      ensures w.sink.remote == NONE && old(state) != IDLE ==> result == ILLEGAL_STATE
      ensures state == if result == NONE then CONFIGURED else old(state)
    {
      result := w.sink.remote;
      if result == NONE {
        result := OnSetConfiguration(Local(SET_CONFIGURATION, w));
      }
    }

    method Open(w: World) returns (result: Error)
      requires Valid() && SafeToInitiate(OPEN, w)
      modifies Objects()
      ensures Valid() && Initiated(OPEN, w, result)
      ensures old(state) != CONFIGURED ==> result == ILLEGAL_STATE && unchanged(Objects())
      ensures old(state) == CONFIGURED && w.sink.remote != NONE ==> result == w.sink.remote && unchanged(Objects())
      ensures state == if result == NONE then OPENED else old(state)
    {
      result := ILLEGAL_STATE;
      if state == CONFIGURED {
        result := w.sink.remote;
        if result == NONE {
          result := OnOpen(w);
        }
      }
    }

    method Start(w: World) returns (result: Error)
      requires Valid() && SafeToInitiate(START, w)
      modifies Objects()
      ensures Valid() && Initiated(START, w, result)
      ensures old(state) != OPENED ==> result == ILLEGAL_STATE && unchanged(Objects())
      ensures old(state) == OPENED && w.sink.remote != NONE ==> result == w.sink.remote && unchanged(Objects())
      ensures state == if result == NONE then STARTED else old(state)
    {
      result := ILLEGAL_STATE;
      if state == OPENED {
        result := w.sink.remote;
        if result == NONE {
          result := OnStart(w);
        }
      }
    }

    method Suspend(w: World) returns (result: Error)
      requires Valid() && SafeToInitiate(SUSPEND, w)
      modifies Objects()
      ensures Valid() && Initiated(SUSPEND, w, result)
      ensures old(state) != STARTED ==> result == ILLEGAL_STATE && unchanged(Objects())
      ensures old(state) == STARTED && w.sink.remote != NONE ==> result == w.sink.remote && unchanged(Objects())
      ensures state == if result == NONE then OPENED else old(state)
    {
      result := ILLEGAL_STATE;
      if state == STARTED {
        result := w.sink.remote;
        if result == NONE {
          result := OnSuspend(w);
        }
      }
    }

    method Close(w: World) returns (result: Error)
      requires Valid() && SafeToInitiate(CLOSE, w)
      modifies Objects()
      ensures Valid() && Initiated(CLOSE, w, result)
      ensures old(state) != OPENED && old(state) != STARTED ==> result == ILLEGAL_STATE && unchanged(Objects())
      ensures (old(state) == OPENED || old(state) == STARTED) && w.sink.remote != NONE ==>
        result == w.sink.remote && unchanged(Objects())
      ensures (old(state) == OPENED || old(state) == STARTED) && w.sink.remote == NONE ==> state == IDLE
    {
      result := ILLEGAL_STATE;
      if state == OPENED || state == STARTED {
        result := w.sink.remote;
        if result == NONE {
          result := OnClose(w);
        }
      }
    }
  }

  // ------------------------------------------------------------------ the sink

  class AudioSink {
    var endpoint: AudioEndpoint?
    var player: bool
    var state: AudioState

    constructor ()
      ensures endpoint == null && View() == Sinks.INITIAL.sink
    {
      endpoint, player, state := null, false, DISCONNECTED;
    }

    ghost function View(): Sinks.Sink
      reads this
    {
      Sinks.Sink(endpoint != null, player, state)
    }

    /** An attached endpoint serves this sink, and is in step with it. */
    ghost predicate Valid()
      reads this, endpoint, if endpoint == null then {} else endpoint.Objects()
    {
      endpoint != null ==>
        && endpoint.handler == SinkHandler(this)
        && endpoint.Valid() && Sinks.InStep(endpoint.SinkView())
    }

    // ---------------------------------------------------------------- called by the endpoint

    method OnSetConfiguration() returns (result: Error)
      ensures result == Sinks.OnSetConfiguration(View())
      ensures result == if endpoint == null then ILLEGAL_STATE else if player then UNAVAILABLE else NONE
    {
      if endpoint == null {
        result := ILLEGAL_STATE;
      } else if player {
        result := UNAVAILABLE;
      } else {
        result := NONE;
      }
    }

    method OnAcquire(r: Sinks.Replies) returns (result: Error)
      modifies `player, `state
      ensures Sinks.OnAcquire(old(View()), r) == Sinks.Done(View(), result)
      ensures result == if endpoint == null then ILLEGAL_STATE
                        else if r.transportConnects && r.playerValid then NONE else OPENING_FAILED
      ensures result == NONE ==> player && state == READY
      ensures result != NONE ==> state == old(state)
      ensures result != NONE ==> player == (old(player) && (endpoint == null || !r.transportConnects))
    {
      result := ILLEGAL_STATE;
      if endpoint != null {
        if !r.transportConnects {
          result := OPENING_FAILED;
        } else {
          player := true;
          if r.playerValid {
            state := READY;
            result := NONE;
          } else {
            player := false;
            result := OPENING_FAILED;
          }
        }
      }
    }

    method OnRelinquish(r: Sinks.Replies) returns (result: Error)
      modifies `player, `state
      ensures Sinks.OnRelinquish(old(View()), r) == Sinks.Done(View(), result)
      ensures result == if r.source != NONE then r.source
                        else if endpoint != null && old(player) then NONE else ILLEGAL_STATE
      ensures result == NONE ==> !player && state == if r.deviceConnected then CONNECTED else old(state)
      ensures result != NONE ==> unchanged(this)
    {
      result := r.source;
      if result == NONE {
        result := ILLEGAL_STATE;
        if endpoint != null && player {
          player := false;
          if r.deviceConnected {
            state := CONNECTED;
          }
          result := NONE;
        }
      }
    }

    method OnSetSpeed(speed: int, r: Sinks.Replies) returns (result: Error)
      requires player || r.source != NONE || (speed != 100 && speed != 0)
      modifies `state
      ensures Sinks.OnSetSpeed(old(View()), speed, r) == Sinks.Done(View(), result)
      ensures result == if r.source != NONE then r.source
                        else if speed == 100 || speed == 0 then r.playerObeys else ILLEGAL_STATE
      ensures state == if result != NONE then old(state) else if speed == 100 then STREAMING else READY
    {
      result := r.source;
      if result == NONE {
        result := ILLEGAL_STATE;
        if speed == 100 {
          result := r.playerObeys;
          if result == NONE {
            state := STREAMING;
          }
        } else if speed == 0 {
          result := r.playerObeys;
          if result == NONE {
            state := READY;
          }
        }
      }
    }

    // ---------------------------------------------------------------- called by the client

    method SetConfiguration(w: World) returns (result: Error)
      requires Valid()
      modifies this, endpoint
      ensures endpoint == old(endpoint)
      ensures endpoint != null ==>
        Sinks.Call(old(endpoint.SinkView()), Sinks.Configure, w.sink) == Sinks.Done(endpoint.SinkView(), result)
      ensures result == NONE <==> old(
        endpoint != null && endpoint.state == IDLE && w.sink.remote == NONE && w.sink.configurationValid)
      ensures result == NONE ==> endpoint.state == CONFIGURED && !player && state == old(state)
      ensures Valid()
      ensures endpoint == null ==> View() == old(View()) && result == ILLEGAL_STATE
    {
      if endpoint != null {
        Sinks.RequestHasEffect(endpoint.SinkView(), Sinks.Configure, w.sink);
      }
      result := ILLEGAL_STATE;
      if endpoint != null {
        if player {
          result := UNAVAILABLE;
        } else {
          result := endpoint.Configure(w);
        }
      }
    }

    method Acquire(w: World) returns (result: Error)
      requires Valid()
      modifies this, endpoint
      ensures endpoint == old(endpoint)
      ensures endpoint != null ==>
        Sinks.Call(old(endpoint.SinkView()), Sinks.Acquire, w.sink) == Sinks.Done(endpoint.SinkView(), result)
      ensures result == NONE <==> old(
        && endpoint != null && endpoint.state == CONFIGURED
        && w.sink.remote == NONE && w.sink.transportConnects && w.sink.playerValid)
      ensures result == NONE ==> endpoint.state == OPENED && player && state == READY
      ensures Valid()
      ensures endpoint == null ==> View() == old(View()) && result == ILLEGAL_STATE
    {
      if endpoint != null {
        Sinks.RequestHasEffect(endpoint.SinkView(), Sinks.Acquire, w.sink);
      }
      result := ILLEGAL_STATE;
      if endpoint != null {
        if player {
          result := UNAVAILABLE;
        } else {
          result := endpoint.Open(w);
        }
      }
    }

    method SetSpeed(speed: int, w: World) returns (result: Error)
      requires Valid()
      modifies this, endpoint
      ensures endpoint == old(endpoint)
      ensures endpoint != null ==>
        Sinks.Call(old(endpoint.SinkView()), Sinks.SetSpeed(speed), w.sink) == Sinks.Done(endpoint.SinkView(), result)
      ensures result == NONE ==> (speed == 100 || speed == 0) && endpoint != null && player
      ensures result == NONE && speed == 100 ==> endpoint.state == STARTED && state == STREAMING
      ensures result == NONE && speed == 0 ==> endpoint.state == OPENED && state == READY
      ensures speed == 100 ==>
        (result == NONE <==> old(
           && endpoint != null
           && (endpoint.state == STARTED
               || (endpoint.state == OPENED && w.sink.remote == w.sink.source == w.sink.playerObeys == NONE))))
      ensures speed == 0 ==>
        (result == NONE <==> old(
           && endpoint != null
           && (endpoint.state == OPENED
               || (endpoint.state == STARTED && w.sink.remote == w.sink.source == w.sink.playerObeys == NONE))))
      ensures Valid()
      ensures endpoint == null ==> View() == old(View()) && result == ILLEGAL_STATE
    {
      if endpoint != null {
        Sinks.RequestHasEffect(endpoint.SinkView(), Sinks.SetSpeed(speed), w.sink);
      }
      result := ILLEGAL_STATE;
      if endpoint != null && player {
        if speed == 100 {
          if state == READY {
            result := endpoint.Start(w);
          } else if state == STREAMING {
            result := NONE;
          }
        } else if speed == 0 {
          if state == STREAMING {
            result := endpoint.Suspend(w);
          } else if state == READY {
            result := NONE;
          }
        } else {
          result := NOT_SUPPORTED;
        }
      }
    }

    method Relinquish(w: World) returns (result: Error)
      requires Valid()
      modifies this, endpoint
      ensures endpoint == old(endpoint)
      ensures endpoint != null ==>
        Sinks.Call(old(endpoint.SinkView()), Sinks.Relinquish, w.sink) == Sinks.Done(endpoint.SinkView(), result)
      ensures result == NONE <==>
        old(endpoint != null && (endpoint.state == OPENED || endpoint.state == STARTED))
        && w.sink.remote == w.sink.source == NONE
      ensures result == NONE ==>
        endpoint.state == IDLE && !player && state == if w.sink.deviceConnected then CONNECTED else old(state)
      ensures !Valid() <==>
        endpoint != null && Sinks.Breaks(old(endpoint.SinkView()), Sinks.Client(Sinks.Relinquish, w.sink))
      ensures endpoint == null ==> View() == old(View()) && result == ILLEGAL_STATE
    {
      if endpoint != null {
        Sinks.RequestHasEffect(endpoint.SinkView(), Sinks.Relinquish, w.sink);
      }
      result := ILLEGAL_STATE;
      if endpoint != null && player {
        result := endpoint.Close(w);
      }
    }

    // ---------------------------------------------------------------- device events

    method OnDeviceDisconnected()
      modifies this
      ensures endpoint == null && View() == Sinks.Sink(false, false, DISCONNECTED)
    {
      player := false;
      endpoint := null;
      state := DISCONNECTED;
    }

    /** The end of the discovery, with the endpoint that matches the device, if there is one. */
    method Discovered(found: AudioEndpoint?)
      modifies this
      ensures found != null ==> endpoint == found
      ensures found == null ==> endpoint == old(endpoint)
      ensures View() == old(View()).(attached := endpoint != null,
                                      state := if endpoint != null then CONNECTED else CONNECTED_BAD)
    {
      if found != null {
        endpoint := found;
      }
      state := if endpoint == null then CONNECTED_BAD else CONNECTED;
    }
  }

  // ------------------------------------------------------------------ the source

  datatype Channel = SIGNALLING | TRANSPORT

  /** What the source asks of the receiver. */
  datatype Request = Configure | Acquire | Speed(speed: int) | Relinquish

  class AudioSource {
    var receiver: bool
    var endpoint: AudioEndpoint?
    var device: bool
    var signalling: bool
    var transport: bool
    var buffer: Sources.SendBuffer
    var state: AudioState
    var reconnection: bool               // the event that ends an attempt to reconnect is set

    ghost var latched: set<Channel>      // the channels that are kept from being closed
    ghost var requests: seq<Request>     // everything asked of the receiver so far
    ghost var releases: nat              // how often a device was given back

    constructor ()
      ensures Valid() && endpoint == null && View() == Sources.INITIAL.source && latched == {} && requests == []
      ensures !reconnection && releases == 0
    {
      receiver, endpoint, device, signalling, transport, buffer := false, null, false, false, false, Sources.NoBuffer;
      state, reconnection, latched, requests, releases := DISCONNECTED, false, {}, [], 0;
    }

    /** Exactly the channels that are assigned are latched. */
    ghost predicate Valid()
      reads `latched, `signalling, `transport
    {
      (SIGNALLING in latched <==> signalling) && (TRANSPORT in latched <==> transport)
    }

    ghost function View(): Sources.Source
      reads this
    {
      Sources.Source(receiver, endpoint != null, device, signalling, transport, buffer, state)
    }

    method OnSetConfiguration(endpoint: AudioEndpoint, r: Sources.Replies) returns (result: Error)
      requires Valid() && (receiver && r.formatValid && r.configures ==> r.channel && r.channelFound)
      modifies this
      ensures Valid()
      ensures result == if !old(receiver) then ILLEGAL_STATE else if !r.formatValid then BAD_REQUEST
                        else if r.configures then NONE else NOT_SUPPORTED
      ensures result == NONE ==> this.endpoint == endpoint && View() == Sources.Assign(old(View()), r)
      ensures result == NONE ==> latched == old(latched) + {SIGNALLING}
      ensures result != NONE ==> this.endpoint == old(this.endpoint) && latched == old(latched)
      ensures result != NONE ==> View() == old(View()).(reported := if receiver then CONNECTED_BAD else old(state))
      ensures requests == old(requests) + if old(receiver) && r.formatValid then [Configure] else []
      ensures reconnection == (old(reconnection) || receiver) && releases == old(releases)
    {
      result := ILLEGAL_STATE;
      if receiver {
        state, reconnection := CONNECTING, true;
        if r.formatValid {
          requests := requests + [Configure];
          if r.configures {
            Assign(endpoint, r);
            result := NONE;
          } else {
            result := NOT_SUPPORTED;
          }
        } else {
          result := BAD_REQUEST;
        }
        if result != NONE {
          state := CONNECTED_BAD;
        }
      }
    }

    method Assign(endpoint: AudioEndpoint, r: Sources.Replies)
      requires Valid()
      modifies this
      ensures Valid() && device == r.deviceKnown && signalling && transport == old(transport) && state == CONNECTED
      ensures this.endpoint == endpoint && View() == Sources.Assign(old(View()), r)
      ensures latched == old(latched) + {SIGNALLING} && requests == old(requests)
      ensures releases == old(releases) && reconnection == old(reconnection)
    {
      this.endpoint := endpoint;
      device := r.deviceKnown;
      signalling := true;
      latched := latched + {SIGNALLING};
      state := CONNECTED;
    }

    /** A second channel of the device has opened. */
    method OnChannelOpened()
      requires Valid()
      modifies `transport, `latched, `state
      ensures Valid() && View() == Sources.AssignTransport(old(View()))
      ensures transport <==> old(transport) || signalling
      ensures signalling ==> TRANSPORT in latched
      ensures latched == old(latched) + if signalling then {TRANSPORT} else {}
      ensures state == if signalling && !old(transport) then READY else old(state)
    {
      if signalling && !transport {
        transport := true;
        latched := latched + {TRANSPORT};
        state := READY;
      }
    }

    method OnAcquire(r: Sources.Replies) returns (result: Error)
      modifies `buffer, `state, `requests
      ensures result == if !receiver then ILLEGAL_STATE else if !r.bufferOpens then UNAVAILABLE
                        else if r.acquires then NONE else BAD_REQUEST
      ensures buffer == if !receiver then old(buffer)
                        else if !r.bufferOpens then Sources.Unusable
                        else if r.acquires then Sources.Usable else Sources.NoBuffer
      ensures state == if receiver && result != NONE then CONNECTED_BAD else old(state)
      ensures requests == old(requests) + if receiver && r.bufferOpens then [Acquire] else []
    {
      result := ILLEGAL_STATE;
      if receiver {
        if r.bufferOpens {
          buffer := Sources.Usable;
          requests := requests + [Acquire];
          if r.acquires {
            result := NONE;
          } else {
            buffer := Sources.NoBuffer;
            result := BAD_REQUEST;
          }
        } else {
          buffer := Sources.Unusable;
          result := UNAVAILABLE;
        }
        if result != NONE {
          state := CONNECTED_BAD;
        }
      }
    }

    /** Stops and relinquishes the receiver, and tears everything down, whatever the receiver says. */
    method OnRelinquish() returns (result: Error)
      requires Valid() && endpoint != null
      modifies this
      ensures Valid() && endpoint == null && result == NONE
      ensures !device && !signalling && !transport && buffer == Sources.NoBuffer && state == DISCONNECTED
      ensures View() == Sources.Unassign(old(View())).(buffer := Sources.NoBuffer)
      ensures requests == old(requests) + if receiver then [Speed(0), Relinquish] else []
      ensures !reconnection && releases == old(releases) + if old(device) then 1 else 0
      ensures latched == old(latched) - (if old(transport) then {TRANSPORT} else {})
                                      - (if old(signalling) then {SIGNALLING} else {})
    {
      if receiver {
        requests := requests + [Speed(0)];
        requests := requests + [Relinquish];
      }
      buffer := Sources.NoBuffer;
      Unassign();
      result := NONE;
    }

    /** The channels that were assigned may be closed again, the device is given back, and attempts to
        reconnect may begin. */
    method Unassign()
      requires Valid() && endpoint != null
      modifies this
      ensures Valid() && !device && !signalling && !transport && state == DISCONNECTED
      ensures endpoint == null && View() == Sources.Unassign(old(View())) && requests == old(requests)
      ensures !reconnection && releases == old(releases) + if old(device) then 1 else 0
      ensures latched == old(latched) - (if old(transport) then {TRANSPORT} else {})
                                      - (if old(signalling) then {SIGNALLING} else {})
    {
      if transport {
        latched := latched - {TRANSPORT};
        transport := false;
      }
      if signalling {
        latched := latched - {SIGNALLING};
        signalling := false;
      }
      if device {
        releases := releases + 1;
        device := false;
      }
      endpoint := null;
      reconnection := false;
      state := DISCONNECTED;
    }

    method OnSetSpeed(speed: int, r: Sources.Replies) returns (result: Error)
      requires receiver
      modifies `state, `requests
      ensures result == if !r.setsSpeed then UNAVAILABLE else if speed == 100 || speed == 0 then NONE else NOT_SUPPORTED
      ensures state == if result != NONE then old(state) else if speed == 100 then STREAMING else READY
      ensures requests == old(requests) + [Speed(speed)]
    {
      requests := requests + [Speed(speed)];
      result := UNAVAILABLE;
      if r.setsSpeed {
        if speed == 100 {
          state := STREAMING;
          result := NONE;
        } else if speed == 0 {
          state := READY;
          result := NONE;
        } else {
          result := NOT_SUPPORTED;
        }
      }
    }
  }
}
