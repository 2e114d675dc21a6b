/** All runs of a value point: clients, the poller and the job that notifies run in threads of their
    own, and everything done without the lock is a step of its own. */
module ValuePointRuns {
  import opened WorkerJob
  import opened ValuePoint

  /** The poller has found a new value; seen that there are clients; raised the first bit and has yet
      to submit the job. */
  datatype Poller = RESTING | EVALUATED | CHECKED | RAISED

  /** What the delivery does next with the client it has come to. */
  datatype Stage = UPDATING | DESCRIBING | RELEASING

  /** The job has been taken from the queue; is delivering what was raised, to the clients of that
      moment, with so many of them left; or has ended. It is current if the cached value has not
      changed since it began. */
  datatype Notifier =
    | Waiting
    | Begun
    | Delivering(mode: Bits, snapshot: seq<Client>, left: nat, stage: Stage, current: bool, calls: seq<Call>)
    | Ended
  {
    /** The clients whose turn is not over. */
    function InFlight(): seq<Client> {
      if Delivering? && left <= |snapshot| then snapshot[..left] else []
    }

    /** A call of the client is still to come. */
    predicate WillUpdate(c: Client) {
      && Delivering? && mode.update && 0 < left <= |snapshot|
      && (c in snapshot[..left - 1] || (c == snapshot[left - 1] && stage == UPDATING))
    }
  }

  /** The references a client has: all of them, and those not held by the value point. The clients in
      `dead` have been destroyed by giving up the last. */
  datatype References = References(all: map<Client, nat>, external: map<Client, nat>, dead: set<Client>)
  {
    function Added(c: Client): References
      requires c in all
    {
      this.(all := all[c := all[c] + 1])
    }

    function AddedAll(clients: seq<Client>): References {
      this.(all := map c | c in all :: all[c] + if c in clients then 1 else 0)
    }

    function Released(c: Client): References
      requires c in all
    {
      if all[c] <= 1 then
        this.(all := all[c := 0], dead := dead + {c})
      else
        this.(all := all[c := all[c] - 1])
    }

    /** Somebody else holds a reference. */
    predicate Owned(c: Client) {
      c in all && c in external && external[c] > 0
    }
  }

  /** The whole state. `informed` are the clients that have had an update since the cached value last
      changed. */
  datatype World = World(point: Point, poller: Poller, notifier: Notifier, references: References,
                         informed: set<Client>)

  datatype Event =
    | GetValue(answer: Answer)
    | SetValue(readOnly: bool, value: int, answer: Answer, written: bool)
    | Period(active: bool)
    | Activate
    | Deactivate
    | Register(client: Client)
    | Unregister(client: Client)
    | Create(client: Client)
    | AddRef(client: Client)
    | Release(client: Client)
    | PollEvaluate(answer: Answer)
    | PollCheck
    | PollRaise
    | PollSubmit
    | JobStart
    | JobTake
    | JobDeliver
    | JobFinish

  /** The point has changed under its lock; if the cached value has, nobody knows yet. */
  function Moved(w: World, p: Point): World {
    if p.cached == w.point.cached then w.(point := p) else
      w.(point := p, informed := {},
         notifier := if w.notifier.Delivering? then w.notifier.(current := false) else w.notifier)
  }

  /** Registering updates the client before the lock is released. The caller has a reference. */
  function Registered(w: World, c: Client): World {
    if !w.references.Owned(c) || c in w.point.clients then w else
      w.(point := w.point.Register(c), references := w.references.Added(c), informed := w.informed + {c})
  }

  function Unregistered(w: World, c: Client): World {
    if c !in w.point.clients || c !in w.references.all then w else
      w.(point := w.point.Unregister(c), references := w.references.Released(c))
  }

  function Raised(w: World): World {
    var p := w.point;
    if p.notify.update then w.(poller := RESTING)
    else if !p.notify.IsNone() then w.(point := p.(notify := p.notify.(update := true)), poller := RESTING)
    else w.(point := p.(notify := Bits(true, false)), poller := Poller.RAISED)
  }

  function Submission(w: World): World {
    w.(point := w.point.(job := Submitted(w.point.job)), poller := RESTING)
  }

  function Taken(w: World): World {
    var mode := w.point.notify;
    var cleared := w.(point := w.point.(notify := Bits(false, false)));
    if mode.IsNone() then cleared.(notifier := Ended) else
      cleared.(notifier := Delivering(mode, w.point.clients, |w.point.clients|, UPDATING, true, []),
               references := w.references.AddedAll(w.point.clients))
  }

  /** The next thing the delivery does. Each callback is a step, made without the lock. */
  function Delivered(w: World): World
    requires w.notifier.Delivering? && 0 < w.notifier.left <= |w.notifier.snapshot|
  {
    var n := w.notifier;
    var c := n.snapshot[n.left - 1];
    match n.stage
    case UPDATING =>
      w.(notifier := n.(stage := DESCRIBING, calls := n.calls + UpdateTo(c, n.mode)),
         informed := if n.mode.update then w.informed + {c} else w.informed)
    case DESCRIBING =>
      w.(notifier := n.(stage := RELEASING, calls := n.calls + MetadataTo(c, n.mode)))
    case RELEASING =>
      if c !in w.references.all then w else
        w.(notifier := n.(stage := UPDATING, left := n.left - 1), references := w.references.Released(c))
  }

  function Owner(w: World, e: Event): World {
    var r := w.references;
    match e
    case Create(c) =>
      if c in r.all then w else
        w.(references := References(r.all[c := 1], r.external[c := 1], r.dead))
    case AddRef(c) =>
      if !r.Owned(c) then w else
        w.(references := r.Added(c).(external := r.external[c := r.external[c] + 1]))
    case Release(c) =>
      if !r.Owned(c) then w else
        w.(references := r.Released(c).(external := r.external[c := r.external[c] - 1]))
    case _ => w
  }

  function Next(w: World, e: Event): World {
    match e
    case GetValue(answer) => Moved(w, w.point.Get(answer))
    case SetValue(readOnly, value, answer, written) => Moved(w, w.point.Set(readOnly, value, answer, written))
    case Period(active) => Moved(w, w.point.(polling := active))
    case Activate => Moved(w, w.point.Activate())
    case Deactivate => Moved(w, w.point.Deactivate())
    case Register(c) => Registered(w, c)
    case Unregister(c) => Unregistered(w, c)
    case Create(c) => Owner(w, e)
    case AddRef(c) => Owner(w, e)
    case Release(c) => Owner(w, e)
    case PollEvaluate(answer) =>
      if w.poller != RESTING || !w.point.Differs(answer) then w else
        Moved(w, w.point.Evaluate(answer)).(poller := EVALUATED)
    case PollCheck =>
      if w.poller != EVALUATED then w
      else w.(poller := if w.point.clients == [] then RESTING else CHECKED)
    case PollRaise => if w.poller != CHECKED then w else Raised(w)
    case PollSubmit => if w.poller != Poller.RAISED then w else Submission(w)
    case JobStart =>
      if w.point.job != SUBMITTED then w
      else w.(point := w.point.(job := Started(w.point.job)), notifier := Begun)
    case JobTake => if w.notifier != Begun then w else Taken(w)
    case JobDeliver =>
      if !w.notifier.Delivering? || !(0 < w.notifier.left <= |w.notifier.snapshot|) then w else Delivered(w)
    case JobFinish =>
      if !(w.notifier.Ended? || (w.notifier.Delivering? && w.notifier.left == 0)) then w
      else w.(point := w.point.(job := Finished(w.point.job)), notifier := Waiting)
  }

  function After(w: World, run: seq<Event>): World {
    if run == [] then w else Next(After(w, run[..|run| - 1]), run[|run| - 1])
  }

  const INITIAL := World(
    Point(CONSTRUCTING, -0x8000_0000, Bits(false, false), [], false, IDLE),
    RESTING, Waiting, References(map[], map[], {}), {})

  // ---- The job and the bits

  /** The job will still take what has been raised. */
  predicate Pending(w: World) {
    w.point.job == SUBMITTED || w.point.job == RESUBMIT || w.notifier == Begun
  }

  /** The job runs exactly while it counts as executing. It is pending exactly if a bit is raised, but
      for the moment in which the poller has raised the first bit and is about to submit the job. */
  predicate JobInStep(w: World) {
    && (w.notifier != Waiting <==> w.point.job == EXECUTING || w.point.job == RESUBMIT)
    && (w.notifier == Begun ==> w.point.job == EXECUTING)
    && (w.poller == Poller.RAISED ==> !w.point.notify.IsNone() && !Pending(w))
    && (w.poller != Poller.RAISED ==> (!w.point.notify.IsNone() <==> Pending(w)))
    && w.notifier != Ended
  }

  lemma StepKeepsJobInStep(w: World, e: Event)
    requires JobInStep(w)
    ensures JobInStep(Next(w, e))
  {
  }

  // ---- No client is left behind

  /** A client has had an update since the cached value last changed, or will have one: an update is
      raised, or is in a delivery begun since the change, or the poller is about to raise it. */
  predicate Attended(w: World, c: Client) {
    || c in w.informed
    || w.point.notify.update
    || (w.notifier.WillUpdate(c) && w.notifier.current)
    || w.poller == EVALUATED || w.poller == CHECKED
  }

  ghost predicate NoStaleClient(w: World) {
    forall c :: c in w.point.clients ==> Attended(w, c)
  }

  lemma LastOrBefore(clients: seq<Client>, n: nat, c: Client)
    requires 0 < n <= |clients|
    ensures c in clients[..n] <==> c in clients[..n - 1] || c == clients[n - 1]
  {
    assert clients[..n] == clients[..n - 1] + [clients[n - 1]];
  }

  lemma DeliveryKeepsAttended(w: World, c: Client)
    requires Attended(w, c)
    ensures Attended(Next(w, JobDeliver), c)
  {
    var n := Next(w, JobDeliver).notifier;
    if n.Delivering? && 0 < n.left <= |n.snapshot| {
      LastOrBefore(n.snapshot, n.left, c);
    }
  }

  lemma TakingAttends(w: World, c: Client)
    requires Attended(w, c) && c in w.point.clients && !w.notifier.Delivering?
    ensures Attended(Taken(w), c)
  {
    var clients := w.point.clients;
    LastOrBefore(clients, |clients|, c);
    assert clients[..|clients|] == clients;
  }

  lemma StepKeepsAttended(w: World, e: Event, c: Client)
    requires JobInStep(w) && NoStaleClient(w) && Distinct(w.point.clients)
    requires c in Next(w, e).point.clients
    ensures Attended(Next(w, e), c)
  {
    match e
    case Register(k) => assert c in w.point.clients ==> Attended(w, c);
    case Unregister(k) =>
      WithoutIsExact(w.point.clients, k);
      assert Attended(w, c);
    case JobTake =>
      assert Attended(w, c);
      if w.notifier == Begun {
        TakingAttends(w, c);
      }
    case JobDeliver =>
      assert Attended(w, c);
      DeliveryKeepsAttended(w, c);
    case _ => assert Attended(w, c);
  }

  lemma StepLeavesNobodyStale(w: World, e: Event)
    requires JobInStep(w) && NoStaleClient(w) && Distinct(w.point.clients)
    ensures NoStaleClient(Next(w, e))
  {
    forall c | c in Next(w, e).point.clients ensures Attended(Next(w, e), c) {
      StepKeepsAttended(w, e, c);
    }
  }

  // ---- References

  /** The references of a client are those of others, one while it is registered and one while a
      delivery has it. Nothing that is registered or being told has been destroyed. */
  predicate Counted(w: World, c: Client) {
    var r := w.references;
    if c in r.all then
      && c in r.external
      && r.all[c] == r.external[c] + (if c in w.point.clients then 1 else 0)
                     + (if c in w.notifier.InFlight() then 1 else 0)
      && (c in r.dead <==> r.all[c] == 0)
    else
      c !in w.point.clients && c !in w.notifier.InFlight() && c !in r.dead
  }

  ghost predicate ReferencesCounted(w: World) {
    && Distinct(w.point.clients)
    && (w.notifier.Delivering? ==> Distinct(w.notifier.snapshot) && w.notifier.left <= |w.notifier.snapshot|)
    && forall c :: Counted(w, c)
  }

  lemma MovedKeepsCounted(w: World, p: Point, c: Client)
    requires Counted(w, c) && p.clients == w.point.clients
    ensures Counted(Moved(w, p), c)
  {
  }

  lemma RegisteredKeepsCounted(w: World, k: Client, c: Client)
    requires Counted(w, c)
    ensures Counted(Registered(w, k), c)
  {
  }

  lemma UnregisteredKeepsCounted(w: World, k: Client, c: Client)
    requires Counted(w, c) && Distinct(w.point.clients)
    ensures Counted(Unregistered(w, k), c)
  {
    WithoutIsExact(w.point.clients, k);
  }

  lemma OwnerKeepsCounted(w: World, e: Event, c: Client)
    requires Counted(w, c)
    ensures Counted(Owner(w, e), c)
  {
  }

  lemma DeliveryKeepsCounted(w: World, c: Client)
    requires ReferencesCounted(w) && w.notifier.Delivering? && w.notifier.left > 0
    ensures Counted(Delivered(w), c)
  {
    var n := w.notifier;
    assert Counted(w, c) && Counted(w, n.snapshot[n.left - 1]);
    LastOrBefore(n.snapshot, n.left, c);
  }

  lemma TakingKeepsCounted(w: World, c: Client)
    requires Counted(w, c) && !w.notifier.Delivering?
    ensures Counted(Taken(w), c)
  {
    var clients := w.point.clients;
    assert clients[..|clients|] == clients;
  }

  lemma StepKeepsCounted(w: World, e: Event, c: Client)
    requires JobInStep(w) && ReferencesCounted(w)
    ensures Counted(Next(w, e), c)
  {
    hide Owner, Taken, Delivered, Moved, Registered, Unregistered;
    assert Counted(w, c);
    match e
    case GetValue(answer) => MovedKeepsCounted(w, w.point.Get(answer), c);
    case SetValue(readOnly, value, answer, written) =>
      MovedKeepsCounted(w, w.point.Set(readOnly, value, answer, written), c);
    case Period(active) => MovedKeepsCounted(w, w.point.(polling := active), c);
    case Activate => MovedKeepsCounted(w, w.point.Activate(), c);
    case Deactivate => MovedKeepsCounted(w, w.point.Deactivate(), c);
    case PollEvaluate(answer) => MovedKeepsCounted(w, w.point.Evaluate(answer), c);
    case Register(k) => RegisteredKeepsCounted(w, k, c);
    case Unregister(k) => UnregisteredKeepsCounted(w, k, c);
    case Create(k) => OwnerKeepsCounted(w, e, c);
    case AddRef(k) => OwnerKeepsCounted(w, e, c);
    case Release(k) => OwnerKeepsCounted(w, e, c);
    case JobTake =>
      if w.notifier == Begun {
        TakingKeepsCounted(w, c);
      }
    case JobDeliver =>
      if w.notifier.Delivering? && w.notifier.left > 0 {
        DeliveryKeepsCounted(w, c);
      }
    case _ =>
  }

  lemma StepKeepsReferences(w: World, e: Event)
    requires JobInStep(w) && ReferencesCounted(w)
    ensures ReferencesCounted(Next(w, e))
  {
    if e.Unregister? {
      WithoutIsExact(w.point.clients, e.client);
    }
    forall c ensures Counted(Next(w, e), c) {
      StepKeepsCounted(w, e, c);
    }
  }

  // ---- Deliveries

  /** The callbacks still to come. */
  function ToCome(n: Notifier): seq<Call>
    requires n.Delivering? && n.left <= |n.snapshot|
  {
    if n.left == 0 then [] else
      var c, others := n.snapshot[n.left - 1], Calls(n.snapshot[..n.left - 1], n.mode);
      match n.stage
      case UPDATING => UpdateTo(c, n.mode) + (MetadataTo(c, n.mode) + others)
      case DESCRIBING => MetadataTo(c, n.mode) + others
      case RELEASING => others
  }

  /** What has been called and what is to come make up the calls for the clients that were there when
      the delivery began. */
  predicate OnCourse(n: Notifier) {
    n.Delivering? ==>
      && n.left <= |n.snapshot|
      && n.calls + ToCome(n) == Calls(n.snapshot, n.mode)
  }

  /** Before the turn of a client, what is to come are the calls for it and those before it. */
  lemma TurnBegins(n: Notifier)
    requires n.Delivering? && n.left <= |n.snapshot| && n.stage == UPDATING
    ensures ToCome(n) == Calls(n.snapshot[..n.left], n.mode)
  {
    if n.left > 0 {
      var clients, c := n.snapshot[..n.left], n.snapshot[n.left - 1];
      assert clients[..n.left - 1] == n.snapshot[..n.left - 1];
      Associates(UpdateTo(c, n.mode), MetadataTo(c, n.mode), Calls(n.snapshot[..n.left - 1], n.mode));
    }
  }

  lemma DeliveryStaysOnCourse(w: World)
    requires w.notifier.Delivering? && 0 < w.notifier.left && OnCourse(w.notifier)
    ensures OnCourse(Delivered(w).notifier)
  {
    hide Calls, UpdateTo, MetadataTo;
    var n, m := w.notifier, Delivered(w).notifier;
    var c := n.snapshot[n.left - 1];
    match n.stage
    case UPDATING => Associates(n.calls, UpdateTo(c, n.mode), ToCome(m));
    case DESCRIBING => Associates(n.calls, MetadataTo(c, n.mode), ToCome(m));
    case RELEASING =>
      if c in w.references.all {
        TurnBegins(m);
      }
  }

  lemma TakingIsOnCourse(w: World)
    ensures OnCourse(Taken(w).notifier)
  {
    hide Calls;
    var n := Taken(w).notifier;
    if n.Delivering? {
      TurnBegins(n);
      assert n.snapshot[..n.left] == n.snapshot;
      assert [] + ToCome(n) == ToCome(n);
    }
  }

  lemma StepStaysOnCourse(w: World, e: Event)
    requires OnCourse(w.notifier)
    ensures OnCourse(Next(w, e).notifier)
  {
    hide Delivered, Taken, Calls, UpdateTo, MetadataTo;
    match e
    case JobTake =>
      TakingIsOnCourse(w);
    case JobDeliver =>
      if w.notifier.Delivering? && w.notifier.left > 0 {
        DeliveryStaysOnCourse(w);
      }
    case _ =>
  }

  // ---- All runs

  ghost predicate Sound(w: World) {
    JobInStep(w) && NoStaleClient(w) && ReferencesCounted(w) && OnCourse(w.notifier)
  }

  lemma {:induction false} RunsAreSound(run: seq<Event>)
    ensures Sound(After(INITIAL, run))
  {
    hide Next;
    if run != [] {
      var w, e := After(INITIAL, run[..|run| - 1]), run[|run| - 1];
      RunsAreSound(run[..|run| - 1]);
      StepKeepsJobInStep(w, e);
      StepLeavesNobodyStale(w, e);
      StepKeepsReferences(w, e);
      StepStaysOnCourse(w, e);
    }
  }

  /** In every run, the job is pending exactly if a bit is raised, but for the moment between the
      poller's raising the first one and its submission. */
  lemma PendingExactlyWhenRaised(run: seq<Event>)
    ensures var w := After(INITIAL, run);
            w.poller != Poller.RAISED ==> (Pending(w) <==> !w.point.notify.IsNone())
  {
    RunsAreSound(run);
  }

  /** The job never runs without anything to tell. */
  lemma JobIsNeverIdle(run: seq<Event>)
    ensures var w := After(INITIAL, run); w.notifier == Begun ==> !w.point.notify.IsNone()
  {
    RunsAreSound(run);
  }

  /** In every run, once the poller rests and the job neither runs nor waits, every registered client
      has had an update since the cached value last changed. */
  lemma NobodyIsLeftBehind(run: seq<Event>, c: Client)
    ensures var w := After(INITIAL, run);
            c in w.point.clients && w.poller == RESTING && w.point.job == IDLE ==> c in w.informed
  {
    RunsAreSound(run);
    var w := After(INITIAL, run);
    assert c in w.point.clients ==> Attended(w, c);
  }

  /** The client that an event calls back. */
  predicate CallsBack(w: World, e: Event, c: Client) {
    || (e == Register(c) && w.references.Owned(c) && c !in w.point.clients)
    || (e == JobDeliver && w.notifier.Delivering? && 0 < w.notifier.left <= |w.notifier.snapshot|
        && w.notifier.stage != RELEASING && w.notifier.snapshot[w.notifier.left - 1] == c)
  }

  /** In every run, whoever unregisters or gives up references meanwhile, a client that is called back
      has a reference and has not been destroyed. */
  lemma CallbacksAreSafe(run: seq<Event>, e: Event, c: Client)
    requires CallsBack(After(INITIAL, run), e, c)
    ensures var r := After(INITIAL, run).references;
            c in r.all && r.all[c] > 0 && c !in r.dead
  {
    hide Next;
    RunsAreSound(run);
    var w := After(INITIAL, run);
    assert Counted(w, c);
    if e == JobDeliver {
      LastOrBefore(w.notifier.snapshot, w.notifier.left, c);
    }
  }

  /** In every run, a delivery that has come to its end has called each client that was registered
      when it began exactly once for each bit, the latest first, and nobody else. */
  lemma DeliveriesAreExact(run: seq<Event>, c: Client)
    ensures var n := After(INITIAL, run).notifier;
            n.Delivering? && n.left == 0 ==>
              && n.calls == Calls(n.snapshot, n.mode)
              && Count(n.calls, Update(c)) == (if n.mode.update && c in n.snapshot then 1 else 0)
              && Count(n.calls, Metadata(c)) == (if n.mode.metadata && c in n.snapshot then 1 else 0)
  {
    hide Next;
    RunsAreSound(run);
    var n := After(INITIAL, run).notifier;
    if n.Delivering? {
      EveryClientOnce(n.snapshot, n.mode, c);
    }
  }

  /** In every run, between deliveries the value point has exactly one reference to each client that is
      registered, and none to any other. */
  lemma DeliveriesReturnReferences(run: seq<Event>, c: Client)
    ensures var w := After(INITIAL, run);
            w.notifier == Waiting && c in w.references.all ==>
              && c in w.references.external
              && w.references.all[c] == w.references.external[c] + if c in w.point.clients then 1 else 0
  {
    hide Next;
    RunsAreSound(run);
    assert Counted(After(INITIAL, run), c);
  }

  // ---- What the events do

  /** The operations of the point are those of the object, at once and under its lock. */
  lemma OperationsMoveThePoint(w: World, readOnly: bool, value: int, answer: Answer, flag: bool)
    ensures Next(w, GetValue(answer)).point == w.point.Get(answer)
    ensures Next(w, SetValue(readOnly, value, answer, flag)).point == w.point.Set(readOnly, value, answer, flag)
    ensures Next(w, Period(flag)).point == w.point.(polling := flag)
    ensures Next(w, Activate).point == w.point.Activate() && Next(w, Deactivate).point == w.point.Deactivate()
    ensures w.poller == RESTING ==> Next(w, PollEvaluate(answer)).point == w.point.Evaluate(answer)
  {
  }

  /** Registering takes a reference to a client that is not registered yet, if the caller has one, and
      makes it an update. */
  lemma RegisterHasEffect(w: World, c: Client)
    ensures var (r, t) := (w.references, Next(w, Register(c)));
      if r.Owned(c) && c !in w.point.clients then
        && t.point.clients == w.point.clients + [c] && c in t.informed
        && t.references == r.(all := r.all[c := r.all[c] + 1])
      else
        t == w
  {
  }

  /** Unregistering takes out that client and gives its reference up, which destroys it if it was the
      last. */
  lemma UnregisterHasEffect(w: World, c: Client)
    requires Counted(w, c) && Distinct(w.point.clients)
    ensures var (r, t) := (w.references, Next(w, Unregister(c)));
      && (forall k :: k in t.point.clients <==> k in w.point.clients && k != c)
      && (if c in w.point.clients then
            && c in r.all && r.all[c] > 0
            && t.references
               == References(r.all[c := r.all[c] - 1], r.external, r.dead + if r.all[c] == 1 then {c} else {})
          else
            t == w)
  {
    WithoutIsExact(w.point.clients, c);
  }

  /** Whoever has a reference can take another and give it up again, and a client is destroyed exactly
      when the last of all references is given up. */
  lemma OwnersHaveEffect(w: World, c: Client)
    requires Counted(w, c)
    ensures var r := w.references;
      && (c !in r.all ==> Next(w, Create(c)).references == References(r.all[c := 1], r.external[c := 1], r.dead))
      && (r.Owned(c) ==>
            && r.all[c] > 0
            && Next(w, AddRef(c)).references
               == References(r.all[c := r.all[c] + 1], r.external[c := r.external[c] + 1], r.dead)
            && Next(w, Release(c)).references
               == References(r.all[c := r.all[c] - 1], r.external[c := r.external[c] - 1],
                             r.dead + if r.all[c] == 1 then {c} else {}))
  {
  }

  /** A client counts as informed exactly by an update that is made to it, and no client does any more once
      the cached value has changed. */
  lemma InformedMeansUpdated(w: World, e: Event, c: Client)
    ensures var t := Next(w, e);
      && (t.point.cached != w.point.cached ==> t.informed == {})
      && (t.point.cached == w.point.cached ==>
            (c in t.informed <==> c in w.informed || Updates(w, e, c)))
      && (Updates(w, e, c) && e == JobDeliver ==> t.notifier.calls == w.notifier.calls + [Update(c)])
  {
  }

  /** The event makes an update to the client: when it registers, or in its turn in a delivery. */
  predicate Updates(w: World, e: Event, c: Client) {
    || (e == Register(c) && w.references.Owned(c) && c !in w.point.clients)
    || (e == JobDeliver && w.notifier.Delivering? && 0 < w.notifier.left <= |w.notifier.snapshot|
        && w.notifier.stage == UPDATING && w.notifier.mode.update && w.notifier.snapshot[w.notifier.left - 1] == c)
  }

  // ---- Coming to rest

  /** What the poller and the job do by themselves once a value has been found. */
  predicate IsOwn(e: Event) {
    e.PollCheck? || e.PollRaise? || e.PollSubmit? || e.JobStart? || e.JobTake? || e.JobDeliver? || e.JobFinish?
  }

  /** The steps that a run of the job takes from its start, at most. */
  function Round(w: World): nat {
    3 * |w.point.clients| + 4
  }

  function StepsOfPoller(w: World): nat {
    match w.poller
    case RESTING => 0
    case RAISED => 1 + Round(w)
    case CHECKED => 2 + Round(w)
    case EVALUATED => 3 + Round(w)
  }

  function StepsOfNotifier(w: World): nat {
    match w.notifier
    case Waiting => 0
    case Begun => Round(w) - 1
    case Delivering(_, _, left, stage, _, _) =>
      1 + 3 * left - if left == 0 then 0 else if stage == UPDATING then 0 else if stage == DESCRIBING then 1 else 2
    case Ended => 1
  }

  /** The steps that poller and job can still take by themselves, at most. */
  function StepsLeft(w: World): nat {
    StepsOfPoller(w) + StepsOfNotifier(w)
    + if w.point.job == SUBMITTED || w.point.job == RESUBMIT then Round(w) else 0
  }

  /** Each step that does anything brings them nearer to the end, and changes neither the value nor the
      clients. */
  lemma OwnStepsCountDown(w: World, e: Event)
    requires JobInStep(w) && IsOwn(e) && Next(w, e) != w
    ensures StepsLeft(Next(w, e)) < StepsLeft(w)
    ensures Next(w, e).point.clients == w.point.clients && Next(w, e).point.cached == w.point.cached
  {
    hide UpdateTo, MetadataTo;
  }

  /** As long as they are not at rest, there is such a step. */
  lemma OwnStepExists(w: World) returns (e: Event)
    requires Sound(w) && !AtRest(w)
    ensures IsOwn(e) && Next(w, e) != w
  {
    hide Calls, UpdateTo, MetadataTo, NoStaleClient, OnCourse;
    if w.poller != RESTING {
      e := if w.poller == EVALUATED then PollCheck else if w.poller == CHECKED then PollRaise else PollSubmit;
    } else if w.point.job == SUBMITTED {
      e := JobStart;
    } else if w.notifier == Begun {
      e := JobTake;
    } else if w.notifier.left == 0 {
      e := JobFinish;
    } else {
      e := JobDeliver;
      var n := w.notifier;
      var c := n.snapshot[n.left - 1];
      assert Counted(w, c) && c in n.InFlight();
    }
  }

  /** Nothing is raised, pending or being delivered. */
  predicate AtRest(w: World) {
    w.poller == RESTING && w.notifier == Waiting && w.point.job == IDLE && w.point.notify == Bits(false, false)
  }

  /** Each of the events is a step of poller or job that does something. */
  predicate Busy(w: World, own: seq<Event>) {
    own != [] ==>
      var front, e := own[..|own| - 1], own[|own| - 1];
      Busy(w, front) && IsOwn(e) && Next(After(w, front), e) != After(w, front)
  }

  lemma {:induction false} BusyCountsDown(run: seq<Event>, own: seq<Event>)
    requires Busy(After(INITIAL, run), own)
    ensures var (w, t) := (After(INITIAL, run), After(After(INITIAL, run), own));
      && t == After(INITIAL, run + own)
      && StepsLeft(t) + |own| <= StepsLeft(w)
      && t.point.clients == w.point.clients && t.point.cached == w.point.cached
  {
    hide Next, StepsLeft;
    if own == [] {
      assert run + own == run;
    } else {
      var front := own[..|own| - 1];
      BusyCountsDown(run, front);
      assert (run + own)[..|run + own| - 1] == run + front;
      RunsAreSound(run + front);
      OwnStepsCountDown(After(INITIAL, run + front), own[|own| - 1]);
    }
  }

  /** From any state of any run, left alone, poller and job come to rest in whatever order they take
      their steps: within a bound that is fixed by the number of clients and where they are. They stop
      only at rest, and then nothing is raised and every registered client has been told of the value
      that was there. */
  lemma RunsComeToRest(run: seq<Event>, own: seq<Event>, c: Client)
    requires Busy(After(INITIAL, run), own)
    ensures var (w, t) := (After(INITIAL, run), After(After(INITIAL, run), own));
      && |own| <= 6 * |w.point.clients| + 3 * |w.notifier.InFlight()| + 12
      && t.point.clients == w.point.clients && t.point.cached == w.point.cached
      && ((forall e :: IsOwn(e) ==> Next(t, e) == t) <==> AtRest(t))
      && (AtRest(t) && c in t.point.clients ==> c in t.informed)
  {
    hide Next;
    var w := After(INITIAL, run);
    BusyCountsDown(run, own);
    RunsAreSound(run);
    RunsAreSound(run + own);
    var t := After(INITIAL, run + own);
    StepsAreBounded(w);
    NobodyIsLeftBehind(run + own, c);
    if !AtRest(t) {
      var e := OwnStepExists(t);
    } else {
      RestingStays(t);
    }
  }

  lemma StepsAreBounded(w: World)
    requires Sound(w)
    ensures StepsLeft(w) <= 6 * |w.point.clients| + 3 * |w.notifier.InFlight()| + 12
  {
    hide Calls, UpdateTo, MetadataTo, NoStaleClient, OnCourse;
  }

  lemma RestingStays(w: World)
    requires AtRest(w)
    ensures forall e :: IsOwn(e) ==> Next(w, e) == w
  {
  }
}
