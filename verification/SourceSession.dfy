/** The session of the audio source: the stream endpoint, and the source's pointers to its endpoint,
    device, channels and send buffer. Two locks protect them. The handlers hold the main lock; the
    receiver of media packets holds only the buffer lock, which the handlers take just to create and
    to drop the buffer. */
module SourceSession {
  import opened StreamEndpoint

  /** The shared buffer of the receiver: none, one that could not be opened, or one in use. */
  datatype SendBuffer = NoBuffer | Unusable | Usable

  datatype Source = Source(
    receiver: bool,       // the audio sink that receives the stream is installed
    endpoint: bool,       // the endpoint pointer is set
    device: bool,
    signalling: bool,
    transport: bool,
    buffer: SendBuffer,
    reported: AudioState)

  const UNASSIGNED := Source(true, false, false, false, false, NoBuffer, DISCONNECTED)

  /** A media packet: not there, let in under the buffer lock, or unpacked with the endpoint's
      codec and about to be written. */
  datatype Packet = Outside | LetIn | Unpacked

  /** A call that opens, closes or aborts has a middle: the buffer has been created, or dropped, and
      the buffer lock released. */
  datatype Session = Session(state: EndpointState, call: Call, source: Source, packet: Packet)

  const INITIAL := Session(IDLE, Free, UNASSIGNED.(receiver := false), Outside)

  datatype Replies = Replies(
    channel: bool,        // the call came with a channel; a reconfiguration comes without
    formatValid: bool,
    configures: bool,     // the receiver accepts the format
    channelFound: bool,   // the signalling server still knows that channel
    deviceKnown: bool,    // the source asserts that it finds the device
    bufferOpens: bool,
    acquires: bool,       // the receiver accepts the buffer
    setsSpeed: bool)      // the receiver accepts the speed

  datatype Event =
    | Begin(op: Operation, valid: bool)  // a remote signal, or the local client, enters the endpoint
    | Continue(replies: Replies)         // the handler runs, up to the next use of the buffer lock
    | Answer
    | Install(receiver: bool)
    | TransportOpens
    | PacketArrives
    | PacketUnpacks
    | PacketWrites                       // what came out of the packet
    | PacketLeaves                       // nothing came out of it

  /** An event either finishes, or uses what is not there, or writes to a buffer that is not open. */
  datatype Outcome =
    | Done(value: Session)
    | NullReceiver | NullChannel | NullEndpoint | NullBuffer | UnopenedBuffer

  // ------------------------------------------------------------------ the steps

  function Assign(k: Source, r: Replies): Source {
    k.(endpoint := true, device := r.deviceKnown, signalling := true, reported := CONNECTED)
  }

  function Unassign(k: Source): Source {
    k.(endpoint := false, device := false, signalling := false, transport := false, reported := DISCONNECTED)
  }

  /** The transport channel is assigned when a second channel of the device opens, if there is none
      yet, whatever the endpoint is doing. */
  function AssignTransport(k: Source): Source {
    if k.signalling && !k.transport then k.(transport := true, reported := READY) else k
  }

  function OnSetConfiguration(s: Session, op: Operation, from: EndpointState, r: Replies): Outcome {
    if !s.source.receiver then Done(s.(call := Returned(op, from, false)))
    else if !r.formatValid || !r.configures then
      Done(s.(source := s.source.(reported := CONNECTED_BAD), call := Returned(op, from, false)))
    else if !r.channel || !r.channelFound then NullChannel
    else Done(s.(source := Assign(s.source, r), call := Returned(op, from, true)))
  }

  function OnAcquire(s: Session, op: Operation, from: EndpointState, r: Replies): Outcome {
    if !s.source.receiver then Done(s.(call := Returned(op, from, false)))
    else if s.packet != Outside then Done(s)        // waits for the buffer lock
    else if r.bufferOpens then Done(s.(source := s.source.(buffer := Usable), call := Halfway(op, from)))
    else Done(s.(source := s.source.(buffer := Unusable, reported := CONNECTED_BAD), call := Returned(op, from, false)))
  }

  /** The buffer is dropped again without the buffer lock when the receiver refuses it. */
  function OnAcquired(s: Session, op: Operation, from: EndpointState, r: Replies): Outcome {
    if !s.source.receiver then NullReceiver
    else if r.acquires then Done(s.(call := Returned(op, from, true)))
    else Done(s.(source := s.source.(buffer := NoBuffer, reported := CONNECTED_BAD), call := Returned(op, from, false)))
  }

  function OnRelinquish(s: Session, op: Operation, from: EndpointState): Outcome {
    if s.packet != Outside then Done(s)             // waits for the buffer lock
    else Done(s.(source := s.source.(buffer := NoBuffer), call := Halfway(op, from)))
  }

  function OnSetSpeed(s: Session, op: Operation, from: EndpointState, r: Replies): Outcome {
    if !s.source.receiver then NullReceiver
    else if !r.setsSpeed then Done(s.(call := Returned(op, from, false)))
    else
      var reported := if op == START then STREAMING else READY;
      Done(s.(source := s.source.(reported := reported), call := Returned(op, from, true)))
  }

  function Handle(s: Session, r: Replies): Outcome {
    match s.call
    case Entered(op, from) => (
      match op
      case SET_CONFIGURATION => OnSetConfiguration(s, op, from, r)
      case OPEN => OnAcquire(s, op, from, r)
      case START => OnSetSpeed(s, op, from, r)
      case SUSPEND => OnSetSpeed(s, op, from, r)
      case CLOSE => OnRelinquish(s, op, from)
      case ABORT => OnRelinquish(s, op, from)
    )
    case Halfway(op, from) =>
      if op == OPEN then OnAcquired(s, op, from, r)
      else if !s.source.endpoint then NullEndpoint
      else Done(s.(source := Unassign(s.source), call := Returned(op, from, true)))
    case _ => Done(s)
  }

  /** An event that cannot happen in a state changes nothing. The receiver is installed and removed
      under the main lock, which a handler holds. */
  function Step(s: Session, e: Event): Outcome {
    match e
    case Begin(op, valid) =>
      if s.call != Free || !Admits(op, s.state) || (op == SET_CONFIGURATION && !valid) then Done(s)
      else Done(s.(state := During(op, s.state), call := Entered(op, s.state)))
    case Continue(r) => Handle(s, r)
    case Answer =>
      if !s.call.Returned? then Done(s)
      else Done(s.(state := Finally(s.call.op, s.call.from, s.call.ok), call := Free))
    case Install(receiver) =>
      if s.call.Halfway? then Done(s) else Done(s.(source := s.source.(receiver := receiver)))
    case TransportOpens =>
      if s.call.Halfway? then Done(s) else Done(s.(source := AssignTransport(s.source)))
    case PacketArrives =>
      if s.packet == Outside && s.source.buffer != NoBuffer then Done(s.(packet := LetIn)) else Done(s)
    case PacketUnpacks =>
      if s.packet != LetIn then Done(s)
      else if !s.source.endpoint then NullEndpoint
      else Done(s.(packet := Unpacked))
    case PacketWrites =>
      if s.packet != Unpacked then Done(s)
      else if s.source.buffer == NoBuffer then NullBuffer
      else if s.source.buffer == Unusable then UnopenedBuffer
      else Done(s.(packet := Outside))
    case PacketLeaves =>
      if s.packet != Unpacked then Done(s) else Done(s.(packet := Outside))
  }

  function Then(o: Outcome, e: Event): Outcome {
    match o
    case Done(s) => Step(s, e)
    case failed => failed
  }

  /** The steps of a whole endpoint operation that nothing interrupts. */
  function Uninterrupted(s: Session, op: Operation, valid: bool, r: Replies): Outcome {
    Then(Then(Then(Step(s, Begin(op, valid)), Continue(r)), Continue(r)), Answer)
  }

  /** The same, as one step. */
  function Operate(s: Session, op: Operation, valid: bool, r: Replies): Outcome {
    var k := s.source;
    if !Admits(op, s.state) || (op == SET_CONFIGURATION && !valid) then Done(s)
    else match op
      case SET_CONFIGURATION =>
        if !k.receiver then Done(s)
        else if !r.formatValid || !r.configures then Done(s.(source := k.(reported := CONNECTED_BAD)))
        else if !r.channel || !r.channelFound then NullChannel
        else Done(s.(state := CONFIGURED, source := Assign(k, r)))
      case OPEN =>
        if !k.receiver then Done(s)
        else if !r.bufferOpens then Done(s.(source := k.(buffer := Unusable, reported := CONNECTED_BAD)))
        else if !r.acquires then Done(s.(source := k.(buffer := NoBuffer, reported := CONNECTED_BAD)))
        else Done(s.(state := OPENED, source := k.(buffer := Usable)))
      case START => Play(s, STARTED, STREAMING, r)
      case SUSPEND => Play(s, OPENED, READY, r)
      case CLOSE => TearDown(s)
      case ABORT => TearDown(s)
  }

  function Play(s: Session, to: EndpointState, reported: AudioState, r: Replies): Outcome {
    if !s.source.receiver then NullReceiver
    else if !r.setsSpeed then Done(s)
    else Done(s.(state := to, source := s.source.(reported := reported)))
  }

  function TearDown(s: Session): Outcome {
    if !s.source.endpoint then NullEndpoint
    else Done(s.(state := IDLE, source := Unassign(s.source).(buffer := NoBuffer)))
  }

  /** It is the same: an operation that nothing interrupts comes to the same end as its steps. */
  lemma UninterruptedIsOperate(s: Session, op: Operation, valid: bool, r: Replies)
    requires s.call == Free && s.packet == Outside
    ensures Uninterrupted(s, op, valid, r) == Operate(s, op, valid, r)
  {
  }

  function Run(es: seq<Event>): Outcome {
    if es == [] then Done(INITIAL)
    else Then(Run(es[..|es| - 1]), es[|es| - 1])
  }

  // ------------------------------------------------------------------ the invariant

  function Now(s: Session): EndpointState {
    Effective(s.state, s.call)
  }

  predicate Closing(s: Session) {
    s.call.Halfway? && s.call.op != OPEN
  }

  /** The endpoint pointer is set exactly while the endpoint is not idle, the signalling channel exactly
      with it, and nothing else is set without it; there is a usable buffer whenever the endpoint is open,
      and none once a close has dropped it; a packet is only inside while the pointer is set and the buffer
      not yet dropped by a close. */
  predicate Bound(s: Session) {
    && Consistent(s.state, s.call)
    && (s.call.Halfway? ==> s.call.op == OPEN || s.call.op == CLOSE || s.call.op == ABORT)
    && (s.source.endpoint <==> Now(s) != IDLE)
    && (s.source.signalling <==> s.source.endpoint)
    && (!s.source.endpoint ==> !s.source.device && !s.source.transport)
    && (s.source.buffer != NoBuffer ==> s.source.endpoint && !Closing(s))
    && (s.packet != Outside ==> s.source.endpoint && !Closing(s))
    && (IsOpen(Now(s)) && !Closing(s) ==> s.source.buffer == Usable)
    && (s.source.buffer == Usable ==> IsOpen(Now(s)) || s.call.Halfway?)
    && (s.call.Halfway? && s.call.op == OPEN ==> s.source.buffer == Usable && s.source.receiver)
  }

  lemma EndpointKeepsBound(s: Session, e: Event)
    requires Bound(s) && (e.Begin? || e.Answer?)
    ensures Step(s, e).Done? && Bound(Step(s, e).value)
  {
  }

  lemma HandlerKeepsBound(s: Session, r: Replies)
    requires Bound(s) && s.call.Entered? && Handle(s, r).Done?
    ensures Bound(Handle(s, r).value)
  {
  }

  lemma MiddleKeepsBound(s: Session, r: Replies)
    requires Bound(s) && s.call.Halfway? && Handle(s, r).Done?
    ensures Bound(Handle(s, r).value)
  {
  }

  lemma OthersKeepBound(s: Session, e: Event)
    requires Bound(s) && !e.Begin? && !e.Answer? && !e.Continue? && Step(s, e).Done?
    ensures Bound(Step(s, e).value)
  {
  }

  lemma StepKeepsBound(s: Session, e: Event)
    requires Bound(s) && Step(s, e).Done?
    ensures Bound(Step(s, e).value)
  {
    hide Bound, Handle;
    match e
    case Begin(_, _) => EndpointKeepsBound(s, e);
    case Answer => EndpointKeepsBound(s, e);
    case Continue(r) =>
      if s.call.Entered? {
        HandlerKeepsBound(s, r);
      } else if s.call.Halfway? {
        MiddleKeepsBound(s, r);
      } else {
        NothingToHandle(s, r);
      }
    case _ => OthersKeepBound(s, e);
  }

  lemma NothingToHandle(s: Session, r: Replies)
    requires !s.call.Entered? && !s.call.Halfway?
    ensures Handle(s, r) == Done(s)
  {
  }

  lemma {:induction false} RunsAreBound(es: seq<Event>)
    requires Run(es).Done?
    ensures Bound(Run(es).value)
  {
    if es != [] {
      RunsAreBound(es[..|es| - 1]);
      StepKeepsBound(Run(es[..|es| - 1]).value, es[|es| - 1]);
    }
  }

  /** In every run: outside an endpoint call the endpoint is not idle exactly when the endpoint
      pointer is set, and a send buffer never exists without it. So no packet and no teardown ever
      meets a null endpoint, although the packet does not take the lock that the teardown holds. */
  lemma SessionInvariant(es: seq<Event>)
    requires Run(es).Done?
    ensures var s := Run(es).value;
      && (s.call == Free ==> (s.state != IDLE <==> s.source.endpoint))
      && (s.source.buffer != NoBuffer ==> s.source.endpoint)
      && (s.packet != Outside ==> s.source.endpoint)
      && forall e :: Step(s, e) != NullEndpoint
  {
    RunsAreBound(es);
  }

  /** Every configuration in the run found its device, as the source asserts. */
  predicate Asserted(es: seq<Event>) {
    es != [] ==>
      && Asserted(es[..|es| - 1])
      && (es[|es| - 1].Continue? ==> es[|es| - 1].replies.deviceKnown)
  }

  predicate Together(k: Source) {
    k.endpoint == k.device == k.signalling
  }

  lemma StepKeepsTogether(s: Session, e: Event)
    requires Bound(s) && Together(s.source) && Step(s, e).Done?
    requires e.Continue? ==> e.replies.deviceKnown
    ensures Together(Step(s, e).value.source)
  {
  }

  /** Then the device and the signalling channel are set exactly when the endpoint is. */
  lemma {:induction false} BoundTogether(es: seq<Event>)
    requires Asserted(es) && Run(es).Done?
    ensures var s := Run(es).value;
      && Together(s.source)
      && (s.call == Free ==>
            (s.state != IDLE <==> s.source.endpoint && s.source.device && s.source.signalling))
  {
    RunsAreBound(es);
    if es != [] {
      RunsAreBound(es[..|es| - 1]);
      BoundTogether(es[..|es| - 1]);
      StepKeepsTogether(Run(es[..|es| - 1]).value, es[|es| - 1]);
    }
  }

  // ------------------------------------------------------------------ what can go wrong, exactly

  /** A packet loses its buffer exactly when the receiver refuses the buffer while the packet is
      inside. */
  lemma NullBufferExactly(s: Session, e: Event)
    requires Bound(s) && Step(s, e).Done? && s.packet != Outside && s.source.buffer != NoBuffer
    ensures var t := Step(s, e).value;
      t.packet != Outside && t.source.buffer == NoBuffer <==>
        e.Continue? && s.call.Halfway? && s.call.op == OPEN && !e.replies.acquires
  {
  }

  /** The receiver is used while it is not installed exactly when it is removed during a session
      and playing is started or suspended afterwards. */
  lemma NullReceiverExactly(s: Session, e: Event)
    requires Bound(s)
    ensures Step(s, e) == NullReceiver <==>
      && e.Continue? && s.call.Entered? && (s.call.op == START || s.call.op == SUSPEND)
      && !s.source.receiver
  {
  }

  /** A configuration that comes without a channel, which is what a reconfiguration by the remote and
      every configuration by the client is, or with one that is gone, never succeeds: from any state
      outside a call, it either ends with endpoint, pointers and buffer as they were, or uses the
      missing channel. That is exactly when an idle endpoint is offered a configuration that everybody
      else accepts. */
  lemma NullChannelExactly(s: Session, valid: bool, r: Replies)
    requires s.call == Free && !(r.channel && r.channelFound)
    ensures var o := Uninterrupted(s, SET_CONFIGURATION, valid, r);
      && (o == NullChannel <==>
            s.state == IDLE && valid && s.source.receiver && r.formatValid && r.configures)
      && (o != NullChannel ==>
            o == Done(s) || o == Done(s.(source := s.source.(reported := CONNECTED_BAD))))
  {
  }

  /** So a session is never set up without the remote: in every run in which no configuration brings a
      channel, whatever else happens, the endpoint stays idle, nothing is assigned and no packet gets
      in. */
  lemma {:induction false} WithoutChannelNoSession(es: seq<Event>)
    requires Run(es).Done? && forall e :: e in es && e.Continue? ==> !e.replies.channel
    ensures var s := Run(es).value;
      && s.state == IDLE && !s.call.Halfway?
      && (s.call != Free ==> s.call.op == SET_CONFIGURATION && s.call.from == IDLE)
      && (s.call.Returned? ==> !s.call.ok)
      && !s.source.endpoint && s.source.buffer == NoBuffer && s.packet == Outside
  {
    if es != [] {
      var front, e := es[..|es| - 1], es[|es| - 1];
      assert e in es && forall f :: f in front ==> f in es;
      WithoutChannelNoSession(front);
    }
  }

  /** None of the four ways to fail is taken. */
  predicate Calm(e: Event) {
    match e
    case Continue(r) => r.channel && r.channelFound && r.bufferOpens && r.acquires
    case Install(receiver) => receiver
    case _ => true
  }

  predicate Sheltered(s: Session) {
    && Bound(s)
    && (s.source.endpoint ==> s.source.receiver)
    && (s.packet != Outside ==> s.source.buffer == Usable)
    && s.source.buffer != Unusable
  }

  lemma StepKeepsSheltered(s: Session, e: Event)
    requires Sheltered(s) && Calm(e)
    ensures Step(s, e).Done? && Sheltered(Step(s, e).value)
  {
    hide Bound;
    StepIsSafe(s, e);
    StepKeepsBound(s, e);
    if e.Continue? {
      HandlerShelters(s, e.replies);
    }
  }

  lemma StepIsSafe(s: Session, e: Event)
    requires Sheltered(s) && Calm(e)
    ensures Step(s, e).Done?
  {
  }

  lemma HandlerShelters(s: Session, r: Replies)
    requires Sheltered(s) && r.bufferOpens && r.acquires && Handle(s, r).Done?
    ensures var t := Handle(s, r).value;
      && (t.source.endpoint ==> t.source.receiver)
      && (t.packet != Outside ==> t.source.buffer == Usable)
      && t.source.buffer != Unusable
  {
  }

  /** A packet that nothing interrupts is taken in, unpacked and written, and leaves the session as it
      was. It gets in whenever there is a buffer. */
  lemma PacketPasses(s: Session)
    requires Bound(s) && s.packet == Outside && s.source.buffer != NoBuffer
    ensures Step(s, PacketArrives) == Done(s.(packet := LetIn))
    ensures Then(Step(s, PacketArrives), PacketUnpacks) == Done(s.(packet := Unpacked))
    ensures Then(Then(Step(s, PacketArrives), PacketUnpacks), PacketWrites)
         == if s.source.buffer == Usable then Done(s) else UnopenedBuffer
    ensures Then(Then(Step(s, PacketArrives), PacketUnpacks), PacketLeaves) == Done(s)
  {
  }

  /** The receiver is installed and removed at once, except in the middle of a call, and nothing else is
      touched. */
  lemma InstallHasEffect(s: Session, receiver: bool)
    ensures Step(s, Install(receiver)).Done?
    ensures var t := Step(s, Install(receiver)).value;
      && t.source.receiver == (if s.call.Halfway? then s.source.receiver else receiver)
      && t == s.(source := s.source.(receiver := t.source.receiver))
  {
  }

  /** A run in which every configuration brings a channel that is there, every buffer opens, and the
      receiver is not removed and refuses no buffer never uses what is not there. */
  lemma {:induction false} CalmRunsFinish(es: seq<Event>)
    requires forall e :: e in es ==> Calm(e)
    ensures Run(es).Done? && Sheltered(Run(es).value)
  {
    if es != [] {
      var front, e := es[..|es| - 1], es[|es| - 1];
      assert e in es && forall f :: f in front ==> f in es;
      CalmRunsFinish(front);
      StepKeepsSheltered(Run(front).value, e);
    }
  }

  // Each of the four can be reached.

  const AGREED := Replies(true, true, true, true, true, true, true, true)

  lemma RunGrows(es: seq<Event>, e: Event)
    ensures Run(es + [e]) == Then(Run(es), e)
  {
    assert (es + [e])[..|es|] == es;
  }

  const ASSIGNED := Source(true, true, true, true, false, NoBuffer, CONNECTED)
  const INSTALLED: seq<Event> := [Install(true)]
  const CONFIGURING: seq<Event> := [Install(true), Begin(SET_CONFIGURATION, true), Continue(AGREED), Answer]
  const OPENING: seq<Event> := CONFIGURING + [Begin(OPEN, true), Continue(AGREED)]
  const OPENING_FULLY: seq<Event> := OPENING + [Continue(AGREED), Answer]

  lemma Prefixes()
    ensures Run(INSTALLED) == Done(Session(IDLE, Free, UNASSIGNED, Outside))
    ensures Run(CONFIGURING) == Done(Session(CONFIGURED, Free, ASSIGNED, Outside))
    ensures Run(OPENING) == Done(Session(CONFIGURED, Halfway(OPEN, CONFIGURED), ASSIGNED.(buffer := Usable), Outside))
    ensures Run(OPENING_FULLY) == Done(Session(OPENED, Free, ASSIGNED.(buffer := Usable), Outside))
  {
    RunGrows([], Install(true));
    assert [] + [Install(true)] == INSTALLED && Run([]) == Done(INITIAL);
    hide Run;
    var e1, e2, e3: Event := Begin(SET_CONFIGURATION, true), Continue(AGREED), Answer;
    RunGrows(INSTALLED, e1);
    RunGrows(INSTALLED + [e1], e2);
    RunGrows(INSTALLED + [e1] + [e2], e3);
    assert INSTALLED + [e1] + [e2] + [e3] == CONFIGURING;
    var f1 := Begin(OPEN, true);
    RunGrows(CONFIGURING, f1);
    RunGrows(CONFIGURING + [f1], e2);
    assert CONFIGURING + [f1] + [e2] == OPENING;
    RunGrows(OPENING, e2);
    RunGrows(OPENING + [e2], e3);
    assert OPENING + [e2] + [e3] == OPENING_FULLY;
  }

  lemma TwoMore(es: seq<Event>, a: Event, b: Event)
    ensures Run(es + [a, b]) == Then(Then(Run(es), a), b)
  {
    hide Run, Then;
    RunGrows(es, a);
    RunGrows(es + [a], b);
    assert es + [a] + [b] == es + [a, b];
  }

  lemma NullChannelHappens()
    ensures Run(INSTALLED + [Begin(SET_CONFIGURATION, true), Continue(AGREED.(channel := false))]) == NullChannel
  {
    Prefixes();
    TwoMore(INSTALLED, Begin(SET_CONFIGURATION, true), Continue(AGREED.(channel := false)));
  }

  /** The receiver is removed after the stream has been opened, and then it is started. */
  lemma NullReceiverHappens()
    ensures Run(OPENING_FULLY + [Install(false)] + [Begin(START, true), Continue(AGREED)]) == NullReceiver
  {
    Prefixes();
    RunGrows(OPENING_FULLY, Install(false));
    TwoMore(OPENING_FULLY + [Install(false)], Begin(START, true), Continue(AGREED));
  }

  /** A packet gets inside between the creation of the buffer and the receiver's refusal of it. */
  lemma NullBufferHappens()
    ensures Run(OPENING + [PacketArrives, PacketUnpacks] + [Continue(AGREED.(acquires := false)), PacketWrites])
         == NullBuffer
  {
    Prefixes();
    TwoMore(OPENING, PacketArrives, PacketUnpacks);
    TwoMore(OPENING + [PacketArrives, PacketUnpacks], Continue(AGREED.(acquires := false)), PacketWrites);
  }

  const UNOPENED: seq<Event> := CONFIGURING + [Begin(OPEN, true), Continue(AGREED.(bufferOpens := false))]

  /** A packet arrives after the buffer could not be opened. */
  lemma UnopenedBufferHappens()
    ensures Run(UNOPENED + [Answer, PacketArrives] + [PacketUnpacks, PacketWrites]) == UnopenedBuffer
  {
    UnopenedPrefix();
    hide Run;
    TwoMore(UNOPENED, Answer, PacketArrives);
    TwoMore(UNOPENED + [Answer, PacketArrives], PacketUnpacks, PacketWrites);
  }

  lemma UnopenedPrefix()
    ensures Run(UNOPENED) == Done(Session(CONFIGURED, Returned(OPEN, CONFIGURED, false),
                                          ASSIGNED.(buffer := Unusable, reported := CONNECTED_BAD), Outside))
  {
    Prefixes();
    hide Run;
    TwoMore(CONFIGURING, Begin(OPEN, true), Continue(AGREED.(bufferOpens := false)));
  }

  // ------------------------------------------------------------------ whole operations

  /** What a whole operation does to a session, state by state, if it uses nothing that is missing: the
      conditions under which it succeeds, and the session afterwards. */
  lemma OperationHasEffect(s: Session, op: Operation, valid: bool, r: Replies)
    requires Bound(s) && s.call == Free && s.packet == Outside && Operate(s, op, valid, r).Done?
    ensures var t := Operate(s, op, valid, r).value;
      var released := Source(s.source.receiver, false, false, false, false, NoBuffer, DISCONNECTED);
      && t.call == Free && t.packet == Outside
      && match op
         case SET_CONFIGURATION =>
           var tried := s.state == IDLE && valid && s.source.receiver;
           if tried && r.formatValid && r.configures then
             t.state == CONFIGURED && t.source == Source(true, true, r.deviceKnown, true, false, NoBuffer, CONNECTED)
           else
             t.state == s.state && t.source == s.source.(reported := if tried then CONNECTED_BAD else s.source.reported)
         case OPEN =>
           var tried := s.state == CONFIGURED && s.source.receiver;
           if tried && r.bufferOpens && r.acquires then
             t.state == OPENED && t.source == s.source.(buffer := Usable)
           else if tried then
             && t.state == CONFIGURED
             && t.source == s.source.(buffer := if r.bufferOpens then NoBuffer else Unusable, reported := CONNECTED_BAD)
           else
             t == s
         case START =>
           if s.state == OPENED && r.setsSpeed then
             t.state == STARTED && t.source == s.source.(reported := STREAMING)
           else
             t == s
         case SUSPEND =>
           if s.state == STARTED && r.setsSpeed then
             t.state == OPENED && t.source == s.source.(reported := READY)
           else
             t == s
         case CLOSE =>
           if s.state == OPENED || s.state == STARTED then
             t.state == IDLE && t.source == released
           else
             t == s
         case ABORT =>
           && t.state == IDLE
           && t.source == if s.state == IDLE then s.source else released
  {
  }

  // ------------------------------------------------------------------ teardown

  /** A whole operation keeps everything bound. */
  lemma OperateIsBound(s: Session, op: Operation, valid: bool, r: Replies)
    requires Bound(s) && s.call == Free && s.packet == Outside && Operate(s, op, valid, r).Done?
    ensures Bound(Operate(s, op, valid, r).value)
  {
  }

  /** A refusing receiver cannot stop the teardown: a close or an abort of any session ends with
      everything released. */
  lemma TeardownCompletes(s: Session, op: Operation, r: Replies)
    requires Bound(s) && s.call == Free && s.packet == Outside
    requires (op == CLOSE || op == ABORT) && Admits(op, s.state)
    ensures Uninterrupted(s, op, true, r)
         == Done(Session(IDLE, Free, Source(s.source.receiver, false, false, false, false, NoBuffer, DISCONNECTED),
                         Outside))
  {
  }

  // ------------------------------------------------------------------ the buffer that is left over

  /** The latest attempt of a run to acquire in the present session created a buffer that could not be
      opened. */
  predicate LeftOver(es: seq<Event>) {
    es != [] &&
      var front, e := es[..|es| - 1], es[|es| - 1];
      if Run(front).Done? && Attempts(Run(front).value, e) then
        Run(front).value.call.op == OPEN && !e.replies.bufferOpens
      else LeftOver(front)
  }

  /** The event creates the buffer, or drops it at the end of the session. */
  predicate Attempts(s: Session, e: Event) {
    && e.Continue? && s.call.Entered? && s.packet == Outside
    && ((s.call.op == OPEN && s.source.receiver) || s.call.op == CLOSE || s.call.op == ABORT)
  }

  lemma StepLeavesOver(s: Session, e: Event)
    requires Bound(s) && Step(s, e).Done?
    ensures Step(s, e).value.source.buffer == Unusable <==>
      if Attempts(s, e) then s.call.op == OPEN && !e.replies.bufferOpens else s.source.buffer == Unusable
  {
  }

  lemma {:induction false} LeftOverIsUnusable(es: seq<Event>)
    requires Run(es).Done?
    ensures Run(es).value.source.buffer == Unusable <==> LeftOver(es)
  {
    if es != [] {
      var front := es[..|es| - 1];
      LeftOverIsUnusable(front);
      RunsAreBound(front);
      StepLeavesOver(Run(front).value, es[|es| - 1]);
      hide Bound, Step;
    }
  }

  /** The source asserts that it has no buffer when it is about to create one. That holds exactly unless
      an earlier attempt in the same session has left one that could not be opened. */
  lemma NoBufferExactly(es: seq<Event>)
    requires Run(es).Done? && Run(es).value.call.Entered? && Run(es).value.call.op == OPEN
    ensures Run(es).value.source.buffer == NoBuffer <==> !LeftOver(es)
  {
    RunsAreBound(es);
    LeftOverIsUnusable(es);
    hide Run, LeftOver;
  }

  /** And a packet that is about to be written meets a buffer that is not open exactly after such an
      attempt. */
  lemma UnopenedBufferExactly(es: seq<Event>)
    requires Run(es).Done? && Run(es).value.packet == Unpacked
    ensures Step(Run(es).value, PacketWrites) == UnopenedBuffer <==> LeftOver(es)
  {
    LeftOverIsUnusable(es);
    hide Run, LeftOver;
  }

  /** So the assertion fails when the remote tries a second time. */
  lemma LeftOverHappens()
    ensures var es := UNOPENED + [Answer, Begin(OPEN, true)];
      && Run(es).Done? && Run(es).value.call == Entered(OPEN, CONFIGURED)
      && Run(es).value.source.buffer == Unusable
  {
    UnopenedPrefix();
    hide Run;
    TwoMore(UNOPENED, Answer, Begin(OPEN, true));
  }

  /** The other assertions hold in every run: nothing is assigned yet when a configuration is handled, and
      a lost signalling channel finds the endpoint that is to be told. */
  lemma AssertionsHold(es: seq<Event>)
    requires Run(es).Done?
    ensures var s := Run(es).value;
      && (s.call.Entered? && s.call.op == SET_CONFIGURATION ==>
            !s.source.endpoint && !s.source.signalling && !s.source.transport)
      && (s.source.signalling ==> s.source.endpoint)
      && (s.packet != Outside ==> s.source.endpoint)
  {
    RunsAreBound(es);
  }

  // ------------------------------------------------------------------ the transport channel

  /** A second channel has opened, outside the middle of a call, while the endpoint was not idle, and the
      session has not been unassigned since. */
  predicate ChannelCame(es: seq<Event>) {
    es != [] &&
      var front, e := es[..|es| - 1], es[|es| - 1];
      Run(front).Done? &&
      var s := Run(front).value;
      if e == TransportOpens && !s.call.Halfway? && Now(s) != IDLE then true
      else if e.Continue? && s.call.Halfway? && s.call.op != OPEN then false
      else ChannelCame(front)
  }

  lemma StepAssignsTransport(s: Session, e: Event)
    requires Bound(s) && Step(s, e).Done?
    ensures Step(s, e).value.source.transport <==>
      if e == TransportOpens && !s.call.Halfway? && Now(s) != IDLE then true
      else if e.Continue? && s.call.Halfway? && s.call.op != OPEN then false
      else s.source.transport
    ensures e == TransportOpens ==> var t := Step(s, e).value;
      t == s.(source := s.source.(transport := t.source.transport,
                                  reported := if t.source.transport != s.source.transport then READY
                                              else s.source.reported))
  {
  }

  /** In every run, the transport channel is assigned exactly if one has opened in the present session. */
  lemma {:induction false} TransportExactly(es: seq<Event>)
    requires Run(es).Done?
    ensures Run(es).value.source.transport <==> ChannelCame(es)
  {
    hide Bound, Step, Now;
    if es != [] {
      var front := es[..|es| - 1];
      TransportExactly(front);
      RunsAreBound(front);
      StepAssignsTransport(Run(front).value, es[|es| - 1]);
    }
  }

  // ------------------------------------------------------------------ the reported state

  /** The source reports that it is streaming exactly while the endpoint is started. */
  predicate Agrees(s: Session) {
    s.source.reported == STREAMING <==> Now(s) == STARTED
  }

  /** It takes a transport channel that is assigned after the start to break this, and nothing else
      does. */
  lemma AgreementBreaksExactly(s: Session, e: Event)
    requires Bound(s) && Agrees(s) && Step(s, e).Done?
    ensures Agrees(Step(s, e).value) <==> !OpensLate(s, e)
  {
    NowIsSteady(s, e);
  }

  predicate OpensLate(s: Session, e: Event) {
    && e.TransportOpens? && !s.call.Halfway? && Now(s) == STARTED
    && s.source.signalling && !s.source.transport
  }

  /** What a step does to the state the endpoint counts as. */
  lemma NowIsSteady(s: Session, e: Event)
    requires Bound(s) && Step(s, e).Done?
    ensures var t := Step(s, e).value;
      && (!(e.Continue? && t.call.Returned?) ==> Now(t) == Now(s))
      && (e.Continue? && t.call.Returned? && !s.call.Returned? ==>
            s.call != Free && Now(t) == Finally(s.call.op, Now(s), t.call.ok))
      && (e.Continue? && s.call.Returned? ==> t == s)
  {
  }

  predicate NeverLate(es: seq<Event>) {
    es != [] ==>
      && NeverLate(es[..|es| - 1])
      && (Run(es[..|es| - 1]).Done? ==> !OpensLate(Run(es[..|es| - 1]).value, es[|es| - 1]))
  }

  /** In every run in which no transport channel is assigned after a start, the report is right. */
  lemma {:induction false} ReportIsRight(es: seq<Event>)
    requires NeverLate(es) && Run(es).Done?
    ensures Agrees(Run(es).value)
  {
    if es != [] {
      var front := es[..|es| - 1];
      ReportIsRight(front);
      RunsAreBound(front);
      AgreementBreaksExactly(Run(front).value, es[|es| - 1]);
    }
  }

  /** A transport channel that is assigned late makes the report wrong. */
  lemma LateTransportHappens()
    ensures var es := OPENING_FULLY + [Begin(START, true), Continue(AGREED)] + [Answer, TransportOpens];
      && Run(es).Done? && Run(es).value.state == STARTED && Run(es).value.call == Free
      && Run(es).value.source.reported == READY && !Agrees(Run(es).value)
  {
    Prefixes();
    TwoMore(OPENING_FULLY, Begin(START, true), Continue(AGREED));
    TwoMore(OPENING_FULLY + [Begin(START, true), Continue(AGREED)], Answer, TransportOpens);
  }
}
