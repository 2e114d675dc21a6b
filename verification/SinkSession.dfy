/** The session of the audio sink: the stream endpoint, and the sink's own endpoint pointer, player
    and state, driven by the local client, by remote signals and by the device coming and going.

    A remote signal takes three steps, with anything else in between except what needs the
    endpoint's lock. A client call holds the sink's lock and then the endpoint's for its whole
    length, so it is one step, and waits for the endpoint's lock to be free. */
module SinkSession {
  import opened StreamEndpoint

  /** The fields of the sink: is an endpoint attached, is there a player, and the reported state. */
  datatype Sink = Sink(attached: bool, player: bool, state: AudioState)

  /** What the outside answers during one call. */
  datatype Replies = Replies(
    configurationValid: bool,  // the configuration names a transport and a codec that accepts it
    remote: Error,             // the remote endpoint, when the client starts the operation
    source: Error,             // the installed source; NONE if there is none
    transportConnects: bool,
    playerValid: bool,         // a new player finds its buffer and its transport
    playerObeys: Error,        // Play or Stop
    deviceConnected: bool)

  /** A handler either finishes, or uses a player that is not there. */
  datatype Outcome<T> = Done(value: T, result: Error) | NullPlayer

  // ------------------------------------------------------------------ the handlers

  function OnSetConfiguration(k: Sink): Error {
    if !k.attached then ILLEGAL_STATE else if k.player then UNAVAILABLE else NONE
  }

  function OnAcquire(k: Sink, r: Replies): Outcome<Sink> {
    if !k.attached then Done(k, ILLEGAL_STATE)
    else if !r.transportConnects then Done(k, OPENING_FAILED)
    else if !r.playerValid then Done(k.(player := false), OPENING_FAILED)
    else Done(k.(player := true, state := READY), NONE)
  }

  /** The source is asked first; when it refuses, the sink is not touched. */
  function OnRelinquish(k: Sink, r: Replies): Outcome<Sink> {
    if r.source != NONE then Done(k, r.source)
    else if k.attached && k.player then
      Done(k.(player := false, state := if r.deviceConnected then CONNECTED else k.state), NONE)
    else Done(k, ILLEGAL_STATE)
  }

  /** Speed 100 plays, speed 0 stops. There is no check that a player exists. */
  function OnSetSpeed(k: Sink, speed: int, r: Replies): Outcome<Sink> {
    if r.source != NONE then Done(k, r.source)
    else if speed != 100 && speed != 0 then Done(k, ILLEGAL_STATE)
    else if !k.player then NullPlayer
    else if r.playerObeys != NONE then Done(k, r.playerObeys)
    else Done(k.(state := if speed == 100 then STREAMING else READY), NONE)
  }

  function Handle(op: Operation, k: Sink, r: Replies): Outcome<Sink> {
    match op
    case SET_CONFIGURATION => Done(k, OnSetConfiguration(k))
    case OPEN => OnAcquire(k, r)
    case START => OnSetSpeed(k, 100, r)
    case SUSPEND => OnSetSpeed(k, 0, r)
    case CLOSE => OnRelinquish(k, r)
    case ABORT => OnRelinquish(k, r)
  }

  // ------------------------------------------------------------------ the session

  datatype Session = Session(endpoint: EndpointState, call: Call, sink: Sink)

  datatype Request = Configure | Acquire | SetSpeed(speed: int) | Relinquish

  datatype Event =
    | Signal(op: Operation, valid: bool)  // a signal, or the cleanup after a lost channel, enters
    | Handler(replies: Replies)           // its handler runs
    | Answer                              // the endpoint stores the outcome
    | Client(request: Request, replies: Replies)
    | DeviceConnected
    | DeviceLost
    | Discovered(found: bool)             // the service discovery ends

  const INITIAL := Session(IDLE, Free, Sink(false, false, DISCONNECTED))

  /** A whole endpoint operation with its lock held throughout. A configuration that fails for any
      reason is a bad request. */
  function Operate(s: Session, op: Operation, r: Replies): Outcome<Session> {
    if !Admits(op, s.endpoint) then Done(s, if op == ABORT then NONE else ILLEGAL_STATE)
    else if op == SET_CONFIGURATION && !r.configurationValid then Done(s, BAD_REQUEST)
    else
      match Handle(op, s.sink, r)
      case NullPlayer => NullPlayer
      case Done(k, result) =>
        Done(s.(endpoint := Finally(op, s.endpoint, result == NONE), sink := k),
             if op == SET_CONFIGURATION && result != NONE then BAD_REQUEST else result)
  }

  /** An operation started by the client: its own check, the remote endpoint, then as above. Only
      Configure has no check of its own. */
  function Initiate(s: Session, op: Operation, r: Replies): Outcome<Session> {
    if op != SET_CONFIGURATION && !Admits(op, s.endpoint) then Done(s, ILLEGAL_STATE)
    else if r.remote != NONE then Done(s, r.remote)
    else Operate(s, op, r)
  }

  function Call(s: Session, request: Request, r: Replies): Outcome<Session> {
    match request
    case Configure =>
      if !s.sink.attached then Done(s, ILLEGAL_STATE)
      else if s.sink.player then Done(s, UNAVAILABLE)
      else Initiate(s, SET_CONFIGURATION, r)
    case Acquire =>
      if !s.sink.attached then Done(s, ILLEGAL_STATE)
      else if s.sink.player then Done(s, UNAVAILABLE)
      else Initiate(s, OPEN, r)
    case SetSpeed(speed) =>
      if !s.sink.attached || !s.sink.player then Done(s, ILLEGAL_STATE)
      else if speed == 100 then
        if s.sink.state == READY then Initiate(s, START, r)
        else Done(s, if s.sink.state == STREAMING then NONE else ILLEGAL_STATE)
      else if speed == 0 then
        if s.sink.state == STREAMING then Initiate(s, SUSPEND, r)
        else Done(s, if s.sink.state == READY then NONE else ILLEGAL_STATE)
      else Done(s, NOT_SUPPORTED)
    case Relinquish =>
      if s.sink.attached && s.sink.player then Initiate(s, CLOSE, r) else Done(s, ILLEGAL_STATE)
  }

  /** Not every event can happen in every state; one that cannot changes nothing. */
  function Step(s: Session, e: Event): Outcome<Session> {
    match e
    case Signal(op, valid) =>
      if s.call != Free || !Admits(op, s.endpoint) || (op == SET_CONFIGURATION && !valid) then Done(s, NONE)
      else Done(s.(endpoint := During(op, s.endpoint), call := Entered(op, s.endpoint)), NONE)
    case Handler(r) =>
      if !s.call.Entered? then Done(s, NONE)
      else (
        match Handle(s.call.op, s.sink, r)
        case NullPlayer => NullPlayer
        case Done(k, result) =>
          Done(s.(sink := k, call := Returned(s.call.op, s.call.from, result == NONE)), result))
    case Answer =>
      if !s.call.Returned? then Done(s, NONE)
      else Done(s.(endpoint := Finally(s.call.op, s.call.from, s.call.ok), call := Free), NONE)
    case Client(request, r) =>
      if s.call != Free then Done(s, NONE) else Call(s, request, r)
    case DeviceConnected =>
      if s.sink.state == DISCONNECTED then Done(s.(sink := s.sink.(state := CONNECTING)), NONE) else Done(s, NONE)
    case DeviceLost =>
      Done(s.(sink := Sink(false, false, DISCONNECTED)), NONE)
    case Discovered(found) =>
      var attached := s.sink.attached || found;
      Done(s.(sink := s.sink.(attached := attached, state := if attached then CONNECTED else CONNECTED_BAD)), NONE)
  }

  function Then(o: Outcome<Session>, e: Event): Outcome<Session> {
    match o
    case NullPlayer => NullPlayer
    case Done(s, _) => Step(s, e)
  }

  function Run(es: seq<Event>): Outcome<Session> {
    if es == [] then Done(INITIAL, NONE) else Then(Run(es[..|es| - 1]), es[|es| - 1])
  }

  /** An operation that holds the endpoint's lock throughout is a signal that nothing interrupts: the
      two come to the same state, or use the same missing player. */
  lemma SignalIsOperate(s: Session, op: Operation, r: Replies)
    requires s.call == Free
    ensures var signal := Then(Then(Step(s, Signal(op, r.configurationValid)), Handler(r)), Answer);
      && (signal.Done? <==> Operate(s, op, r).Done?)
      && (signal.Done? ==> signal.value == Operate(s, op, r).value)
  {
  }

  // ------------------------------------------------------------------ the invariant

  /** The sink is in step with the endpoint: while attached, a player exists exactly when the
      endpoint is opened or started, and then the reported state says which; while detached there
      is no player. */
  predicate InStep(s: Session) {
    var now := Effective(s.endpoint, s.call);
    && Consistent(s.endpoint, s.call)
    && (!s.sink.attached ==> !s.sink.player)
    && (s.sink.attached ==>
          && (s.sink.player <==> IsOpen(now))
          && (now == OPENED ==> s.sink.state == READY)
          && (now == STARTED ==> s.sink.state == STREAMING))
  }

  /** The two things that put them out of step: a source that refuses to relinquish a session that
      has a player, and a discovery that ends with an endpoint attached that is still open. */
  predicate Breaks(s: Session, e: Event) {
    match e
    case Handler(r) =>
      s.call.Entered? && (s.call.op == CLOSE || s.call.op == ABORT) && s.sink.player && r.source != NONE
    case Client(Relinquish, r) =>
      && s.call == Free && s.sink.attached && s.sink.player
      && IsOpen(s.endpoint) && r.remote == NONE && r.source != NONE
    case Discovered(found) =>
      (s.sink.attached || found) && IsOpen(Effective(s.endpoint, s.call))
    case _ => false
  }

  /** Exactly these two: from a state in step, an event that finishes leads out of step if and
      only if it is one of them. */
  lemma StepBreaksExactly(s: Session, e: Event)
    requires InStep(s) && Step(s, e).Done?
    ensures InStep(Step(s, e).value) <==> !Breaks(s, e)
  {
  }

  /** So a whole operation keeps the step exactly if no source refuses an admitted close or abort of a
      session that has a player. */
  lemma OperateInStep(s: Session, op: Operation, r: Replies)
    requires InStep(s) && s.call == Free && Operate(s, op, r).Done?
    ensures InStep(Operate(s, op, r).value) <==> !Refused(s, op, r)
  {
  }

  predicate Refused(s: Session, op: Operation, r: Replies) {
    (op == CLOSE || op == ABORT) && Admits(op, s.endpoint) && s.sink.player && r.source != NONE
  }

  /** A player is missing where one is used exactly when playing is started or suspended while the
      endpoint is detached: a remote signal that arrives, or was already being handled, when the
      device is lost. A client call never gets there. */
  lemma NullPlayerExactly(s: Session, e: Event)
    requires InStep(s)
    ensures Step(s, e) == NullPlayer <==>
      && e.Handler? && s.call.Entered? && (s.call.op == START || s.call.op == SUSPEND)
      && e.replies.source == NONE && !s.sink.attached
  {
  }

  /** No event of the run breaks the step. */
  predicate Clean(es: seq<Event>) {
    es != [] ==>
      && Clean(es[..|es| - 1])
      && (Run(es[..|es| - 1]).Done? ==> !Breaks(Run(es[..|es| - 1]).value, es[|es| - 1]))
  }

  lemma {:induction false} CleanRunsStayInStep(es: seq<Event>)
    requires Clean(es) && Run(es).Done?
    ensures InStep(Run(es).value)
  {
    if es != [] {
      CleanRunsStayInStep(es[..|es| - 1]);
      StepBreaksExactly(Run(es[..|es| - 1]).value, es[|es| - 1]);
    }
  }

  /** An endpoint is detached only while there is no session. */
  predicate Covered(s: Session) {
    InStep(s) && (!s.sink.attached ==> !IsOpen(Effective(s.endpoint, s.call)))
  }

  lemma StepKeepsCovered(s: Session, e: Event)
    requires Covered(s) && !Breaks(s, e) && e != DeviceLost
    ensures Step(s, e).Done? && Covered(Step(s, e).value)
  {
  }

  /** As long as the device is not lost, no clean run ever uses a missing player. */
  lemma {:induction false} CleanRunsFinish(es: seq<Event>)
    requires Clean(es) && DeviceLost !in es
    ensures Run(es).Done? && Covered(Run(es).value)
  {
    if es != [] {
      CleanRunsFinish(es[..|es| - 1]);
      StepKeepsCovered(Run(es[..|es| - 1]).value, es[|es| - 1]);
    }
  }

  lemma RunGrows(es: seq<Event>, e: Event)
    ensures Run(es + [e]) == Then(Run(es), e)
  {
    assert (es + [e])[..|es|] == es;
  }

  const AGREED := Replies(true, NONE, NONE, true, true, NONE, true)

  const CONFIGURING: seq<Event> := [Discovered(true), Signal(SET_CONFIGURATION, true), Handler(AGREED), Answer]
  const OPENING: seq<Event> := CONFIGURING + [Client(Acquire, AGREED)]

  lemma Prefixes()
    ensures Run(CONFIGURING).Done? && Run(CONFIGURING).value == Session(CONFIGURED, Free, Sink(true, false, CONNECTED))
    ensures Run(OPENING).Done? && Run(OPENING).value == Session(OPENED, Free, Sink(true, true, READY))
  {
    assert Run([]) == Done(INITIAL, NONE);
    hide Run;
    var e1, e2, e3, e4: Event := Discovered(true), Signal(SET_CONFIGURATION, true), Handler(AGREED), Answer;
    RunGrows([], e1);
    RunGrows([] + [e1], e2);
    RunGrows([] + [e1] + [e2], e3);
    RunGrows([] + [e1] + [e2] + [e3], e4);
    assert [] + [e1] + [e2] + [e3] + [e4] == CONFIGURING;
    RunGrows(CONFIGURING, Client(Acquire, AGREED));
  }

  /** But once it has been, one does: the endpoint is still open, and the remote starts it. */
  lemma NullPlayerHappens()
    ensures Run(OPENING + [DeviceLost] + [Signal(START, true)] + [Handler(AGREED)]) == NullPlayer
  {
    Prefixes();
    RunGrows(OPENING, DeviceLost);
    RunGrows(OPENING + [DeviceLost], Signal(START, true));
    RunGrows(OPENING + [DeviceLost] + [Signal(START, true)], Handler(AGREED));
  }

  /** A source refuses to relinquish: the endpoint is closed and the player stays. */
  lemma RefusalHappens()
    ensures var o := Run(OPENING + [Client(Relinquish, AGREED.(source := OTHER))]);
      o.Done? && o.value == Session(IDLE, Free, Sink(true, true, READY)) && !InStep(o.value)
  {
    Prefixes();
    RunGrows(OPENING, Client(Relinquish, AGREED.(source := OTHER)));
  }

  /** A device is lost and found again before its endpoint has been told. */
  lemma EarlyDiscoveryHappens()
    ensures var o := Run(OPENING + [DeviceLost] + [Discovered(true)]);
      o.Done? && o.value == Session(OPENED, Free, Sink(true, false, CONNECTED)) && !InStep(o.value)
  {
    Prefixes();
    RunGrows(OPENING, DeviceLost);
    RunGrows(OPENING + [DeviceLost], Discovered(true));
  }

  /** The session invariant, over every interleaving of client calls, remote signals and device
      events: when no endpoint call is in progress and an endpoint is attached, it is IDLE,
      CONFIGURED, OPENED or STARTED, a player exists exactly in the last two, the state says READY
      or STREAMING there, and no acquisition replaces a player that is alive. */
  lemma SessionInvariant(es: seq<Event>)
    requires Clean(es) && Run(es).Done?
    ensures var s := Run(es).value;
      && (s.call == Free ==> IsStable(s.endpoint))
      && (s.call == Free && s.sink.attached ==>
            && (s.sink.player <==> s.endpoint == OPENED || s.endpoint == STARTED)
            && (s.endpoint == OPENED ==> s.sink.state == READY)
            && (s.endpoint == STARTED ==> s.sink.state == STREAMING))
      && (s.call.Entered? && s.call.op == OPEN ==> !s.sink.player)
      && (s.sink.attached ==> forall e :: Step(s, e) != NullPlayer)
  {
    CleanRunsStayInStep(es);
    var s := Run(es).value;
    forall e | s.sink.attached
      ensures Step(s, e) != NullPlayer
    {
      NullPlayerExactly(s, e);
    }
  }

  /** A client request that fails has changed nothing, with one exception: a relinquish refused by
      the source has already closed the endpoint. */
  lemma FailedRequestChangesNothing(s: Session, request: Request, r: Replies)
    requires InStep(s) && s.call == Free
    ensures var out := Step(s, Client(request, r));
      out.Done? && (out.result != NONE ==> (out.value == s <==> !Breaks(s, Client(request, r))))
  {
  }

  /** What an operation answers and does, state by state. One that uses no missing player succeeds
      exactly under these conditions. */
  lemma OperationHasEffect(s: Session, op: Operation, r: Replies)
    requires s.call == Free && IsStable(s.endpoint) && Operate(s, op, r).Done?
    ensures var (t, ok) := (Operate(s, op, r).value, Operate(s, op, r).result == NONE);
      var given := s.sink.attached && s.sink.player && r.source == NONE;
      var released := Sink(true, false, if r.deviceConnected then CONNECTED else s.sink.state);
      match op
      case SET_CONFIGURATION =>
        && (ok <==> s.endpoint == IDLE && r.configurationValid && s.sink.attached && !s.sink.player)
        && t == Session(if ok then CONFIGURED else s.endpoint, Free, s.sink)
      case OPEN =>
        && (ok <==> s.endpoint == CONFIGURED && s.sink.attached && r.transportConnects && r.playerValid)
        && (ok ==> t == Session(OPENED, Free, Sink(true, true, READY)))
        && (!ok ==> t.endpoint == s.endpoint && t.sink.attached == s.sink.attached && t.sink.state == s.sink.state)
      case START =>
        && (ok <==> s.endpoint == OPENED && r.source == NONE && r.playerObeys == NONE)
        && t == if ok then Session(STARTED, Free, Sink(s.sink.attached, true, STREAMING)) else s
      case SUSPEND =>
        && (ok <==> s.endpoint == STARTED && r.source == NONE && r.playerObeys == NONE)
        && t == if ok then Session(OPENED, Free, Sink(s.sink.attached, true, READY)) else s
      case CLOSE =>
        && (ok <==> (s.endpoint == OPENED || s.endpoint == STARTED) && given)
        && (t.endpoint == if s.endpoint == OPENED || s.endpoint == STARTED then IDLE else s.endpoint)
        && t.sink == if ok then released else s.sink
      case ABORT =>
        && (ok <==> s.endpoint == IDLE || given)
        && t.endpoint == IDLE
        && t.sink == if ok && s.endpoint != IDLE then released else s.sink
  {
  }

  /** A client request of a session in step succeeds exactly under these conditions, and then has had
      its effect: configured, opened, playing, suspended, or closed with the player gone. */
  lemma RequestHasEffect(s: Session, request: Request, r: Replies)
    requires InStep(s) && s.call == Free
    ensures Step(s, Client(request, r)).Done?
    ensures var (t, ok) := (Step(s, Client(request, r)).value, Step(s, Client(request, r)).result == NONE);
      var attached, obeys := s.sink.attached, r.source == NONE && r.playerObeys == NONE;
      match request
      case Configure =>
        && (ok <==> attached && s.endpoint == IDLE && r.remote == NONE && r.configurationValid)
        && (ok ==> t == Session(CONFIGURED, Free, Sink(true, false, s.sink.state)))
      case Acquire =>
        && (ok <==> attached && s.endpoint == CONFIGURED && r.remote == NONE && r.transportConnects && r.playerValid)
        && (ok ==> t == Session(OPENED, Free, Sink(true, true, READY)))
      case SetSpeed(speed) =>
        && (speed == 100 ==>
              (ok <==> attached && (s.endpoint == STARTED || (s.endpoint == OPENED && r.remote == NONE && obeys))))
        && (speed == 0 ==>
              (ok <==> attached && (s.endpoint == OPENED || (s.endpoint == STARTED && r.remote == NONE && obeys))))
        && (ok && speed == 100 ==> t == Session(STARTED, Free, Sink(true, true, STREAMING)))
        && (ok && speed != 100 ==> speed == 0 && t == Session(OPENED, Free, Sink(true, true, READY)))
      case Relinquish =>
        && (ok <==> attached && (s.endpoint == OPENED || s.endpoint == STARTED) && r.remote == NONE && r.source == NONE)
        && (ok ==> t == Session(IDLE, Free, Sink(true, false, if r.deviceConnected then CONNECTED else s.sink.state)))
  {
  }

  /** One that fails says why: what is checked first decides. */
  lemma RefusalsAreExact(s: Session, request: Request, r: Replies)
    requires InStep(s) && s.call == Free && Step(s, Client(request, r)).Done?
    requires Step(s, Client(request, r)).result != NONE
    ensures Step(s, Client(request, r)).result ==
      if !s.sink.attached then ILLEGAL_STATE
      else match request
        case Configure =>
          if s.endpoint == OPENED || s.endpoint == STARTED then UNAVAILABLE
          else if r.remote != NONE then r.remote
          else if s.endpoint == CONFIGURED then ILLEGAL_STATE
          else BAD_REQUEST
        case Acquire =>
          if s.endpoint == OPENED || s.endpoint == STARTED then UNAVAILABLE
          else if s.endpoint == IDLE then ILLEGAL_STATE
          else if r.remote != NONE then r.remote
          else OPENING_FAILED
        case SetSpeed(speed) =>
          if s.endpoint == IDLE || s.endpoint == CONFIGURED then ILLEGAL_STATE
          else if speed != 100 && speed != 0 then NOT_SUPPORTED
          else if r.remote != NONE then r.remote
          else if r.source != NONE then r.source
          else r.playerObeys
        case Relinquish =>
          if s.endpoint == IDLE || s.endpoint == CONFIGURED then ILLEGAL_STATE
          else if r.remote != NONE then r.remote
          else r.source
  {
  }

  /** What the device does to a session: it never touches the endpoint. */
  lemma DeviceHasEffect(s: Session, found: bool)
    ensures Step(s, DeviceLost) == Done(Session(s.endpoint, s.call, Sink(false, false, DISCONNECTED)), NONE)
    ensures Step(s, Discovered(found)).Done?
    ensures var t := Step(s, Discovered(found)).value;
      && t.endpoint == s.endpoint && t.call == s.call && t.sink.player == s.sink.player
      && (t.sink.attached <==> found || s.sink.attached)
      && t.sink.state == if t.sink.attached then CONNECTED else CONNECTED_BAD
    ensures Step(s, DeviceConnected).Done?
    ensures var t := Step(s, DeviceConnected).value;
      && t.endpoint == s.endpoint && t.call == s.call
      && t.sink == Sink(s.sink.attached, s.sink.player,
                        if s.sink.state == DISCONNECTED then CONNECTING else s.sink.state)
  {
  }

  // ------------------------------------------------------------------ out of step

  /** A player left behind: the endpoint has gone back to IDLE and the sink has kept its player. */
  predicate LeftBehind(s: Session) {
    && Consistent(s.endpoint, s.call)
    && s.sink.attached && s.sink.player
    && Effective(s.endpoint, s.call) == IDLE
  }

  /** That is where a refusing source leads. */
  lemma RefusalLeavesPlayerBehind(s: Session, e: Event)
    requires InStep(s) && Breaks(s, e) && !e.Discovered?
    ensures Step(s, e).Done? && LeftBehind(Step(s, e).value)
  {
  }

  /** It cannot be repaired from either side: until the device is lost, every client request is
      refused and no remote signal changes anything. */
  lemma LeftBehindForGood(s: Session, e: Event)
    requires LeftBehind(s)
    ensures Step(s, e).Done?
    ensures e != DeviceLost ==> LeftBehind(Step(s, e).value)
    ensures e == DeviceLost ==> InStep(Step(s, e).value)
    ensures e.Client? && s.call == Free ==>
      Step(s, e).value == s && (Step(s, e).result == NONE ==> e.request.SetSpeed?)
  {
  }

  /** A whole session, from the discovery to the end, is a clean run: configured by the remote,
      opened and started by the client, suspended by a signal, and aborted. */
  lemma WholeSession(r: Replies)
    requires r == Replies(true, NONE, NONE, true, true, NONE, true)
    ensures var s0 := Step(INITIAL, Discovered(true)).value;
      var s1 := Step(Step(Step(s0, Signal(SET_CONFIGURATION, true)).value, Handler(r)).value, Answer).value;
      var s2 := Step(s1, Client(Acquire, r)).value;
      var s3 := Step(s2, Client(SetSpeed(100), r)).value;
      var s4 := Step(Step(Step(s3, Signal(SUSPEND, true)).value, Handler(r)).value, Answer).value;
      var s5 := Step(Step(Step(s4, Signal(ABORT, true)).value, Handler(r)).value, Answer).value;
      && s3 == Session(STARTED, Free, Sink(true, true, STREAMING))
      && s4 == Session(OPENED, Free, Sink(true, true, READY))
      && s5 == Session(IDLE, Free, Sink(true, false, CONNECTED))
  {
  }
}
