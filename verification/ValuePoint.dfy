/** A value point: a cached value with clients that are told when it may have changed. Flag bits merge
    the changes into one pending job, which tells every client registered when it runs. */
module ValuePoint {
  import opened WorkerJob

  type Client = nat

  datatype Condition = CONSTRUCTING | ACTIVATED | DEACTIVATED

  datatype Error = NONE | UNAVAILABLE | FAILED

  /** The bits that say what the clients are to be told. */
  datatype Bits = Bits(update: bool, metadata: bool)
  {
    predicate IsNone() {
      !update && !metadata
    }

    predicate Covers(bits: Bits) {
      (bits.update ==> update) && (bits.metadata ==> metadata)
    }
  }

  /** What the device answers to a read. */
  datatype Answer = Failure | Reading(value: int)

  datatype Point = Point(condition: Condition, cached: int, notify: Bits, clients: seq<Client>,
                         polling: bool, job: JobState)
  {
    /** Raises a bit; the job is submitted with the first one. Nothing to do without clients. */
    function Raise(bits: Bits): Point {
      if clients == [] || notify.Covers(bits) then
        this
      else
        this.(notify := Bits(notify.update || bits.update, notify.metadata || bits.metadata),
              job := if notify.IsNone() then Submitted(job) else job)
    }

    function Updated(): Point {
      Raise(Bits(true, false))
    }

    function Metadata(): Point {
      Raise(Bits(false, true))
    }

    /** A change of the cached value that the clients are told of at once. */
    function Changed(value: int): Point {
      this.(cached := value).Updated()
    }

    /** Reading the value. While the point is being polled the cache is left to the poller. */
    function Get(answer: Answer): Point {
      if condition == ACTIVATED && answer.Reading? && cached != answer.value && !polling then
        Changed(answer.value)
      else
        this
    }

    /** Writing a value, which is done only if the device does not have it already. */
    function Set(readOnly: bool, value: int, answer: Answer, written: bool): Point {
      if SetResult(readOnly, value, answer, written) == NONE && cached != value then Changed(value) else this
    }

    function SetResult(readOnly: bool, value: int, answer: Answer, written: bool): Error {
      if readOnly || condition != ACTIVATED then UNAVAILABLE
      else if answer.Reading? && (answer.value == value || written) then NONE
      else FAILED
    }

    /** A poll finds a new value; telling the clients is a step of its own. */
    predicate Differs(answer: Answer) {
      condition == ACTIVATED && answer.Reading? && answer.value != cached
    }

    function Evaluate(answer: Answer): Point {
      if Differs(answer) then this.(cached := answer.value) else this
    }

    function Activate(): Point {
      if condition == ACTIVATED then this else this.(condition := ACTIVATED).Metadata()
    }

    function Deactivate(): Point {
      if condition == DEACTIVATED then this else this.(condition := DEACTIVATED, polling := false).Metadata()
    }

    function Register(c: Client): Point {
      if c in clients then this else this.(clients := clients + [c])
    }

    function Unregister(c: Client): Point {
      this.(clients := Without(clients, c))
    }
  }

  /** The list without the first occurrence of a client. */
  function Without(clients: seq<Client>, c: Client): seq<Client> {
    if clients == [] then []
    else if clients[0] == c then clients[1..]
    else [clients[0]] + Without(clients[1..], c)
  }

  predicate Distinct(clients: seq<Client>) {
    forall i, j :: 0 <= i < j < |clients| ==> clients[i] != clients[j]
  }

  /** A callback to a client. */
  datatype Call = Update(client: Client) | Metadata(client: Client)

  function UpdateTo(c: Client, mode: Bits): seq<Call> {
    if mode.update then [Update(c)] else []
  }

  function MetadataTo(c: Client, mode: Bits): seq<Call> {
    if mode.metadata then [Metadata(c)] else []
  }

  function CallsTo(c: Client, mode: Bits): seq<Call> {
    UpdateTo(c, mode) + MetadataTo(c, mode)
  }

  /** The callbacks of one delivery: to the last client first. */
  function Calls(clients: seq<Client>, mode: Bits): seq<Call> {
    if clients == [] then [] else
      CallsTo(clients[|clients| - 1], mode) + Calls(clients[..|clients| - 1], mode)
  }

  /** How often a list holds a call. */
  function Count(calls: seq<Call>, call: Call): nat {
    multiset(calls)[call]
  }

  lemma {:induction false} WithoutIsExact(clients: seq<Client>, c: Client)
    requires Distinct(clients)
    ensures Distinct(Without(clients, c))
    ensures forall k :: k in Without(clients, c) <==> k in clients && k != c
  {
    if clients != [] {
      var rest := clients[1..];
      WithoutIsExact(rest, c);
      assert clients == [clients[0]] + rest;
      forall k | k in rest ensures k != clients[0] {
        var j :| 0 <= j < |rest| && rest[j] == k;
        assert clients[j + 1] == k;
      }
      var kept := Without(rest, c);
      forall j | 0 <= j < |kept| ensures kept[j] != clients[0] {
        assert kept[j] in kept;
      }
    }
  }

  /** One delivery calls each of its clients exactly once for each bit, and nobody else. */
  lemma {:induction false} EveryClientOnce(clients: seq<Client>, mode: Bits, c: Client)
    requires Distinct(clients)
    ensures Count(Calls(clients, mode), Update(c)) == if mode.update && c in clients then 1 else 0
    ensures Count(Calls(clients, mode), Metadata(c)) == if mode.metadata && c in clients then 1 else 0
  {
    hide CallsTo, Count;
    if clients == [] {
      NoCalls(Update(c));
      NoCalls(Metadata(c));
    } else {
      var last, front := clients[|clients| - 1], clients[..|clients| - 1];
      assert clients == front + [last];
      EveryClientOnce(front, mode, c);
      CountAdds(CallsTo(last, mode), Calls(front, mode), Update(c));
      CountAdds(CallsTo(last, mode), Calls(front, mode), Metadata(c));
      OneClientOnce(last, mode, c);
    }
  }

  lemma NoCalls(call: Call)
    ensures Count([], call) == 0
  {
  }

  lemma CountAdds(a: seq<Call>, b: seq<Call>, call: Call)
    ensures Count(a + b, call) == Count(a, call) + Count(b, call)
  {
  }

  lemma OneClientOnce(k: Client, mode: Bits, c: Client)
    ensures Count(CallsTo(k, mode), Update(c)) == if mode.update && c == k then 1 else 0
    ensures Count(CallsTo(k, mode), Metadata(c)) == if mode.metadata && c == k then 1 else 0
  {
    CountAdds(UpdateTo(k, mode), MetadataTo(k, mode), Update(c));
    CountAdds(UpdateTo(k, mode), MetadataTo(k, mode), Metadata(c));
  }

  /** Clients are called in the reverse of the order they registered in: those that came later are
      all called before those that came earlier. */
  lemma {:induction false} LaterClientsFirst(earlier: seq<Client>, later: seq<Client>, mode: Bits)
    ensures Calls(earlier + later, mode) == Calls(later, mode) + Calls(earlier, mode)
    ensures |later| == 1 ==> Calls(later, mode) == CallsTo(later[0], mode)
  {
    hide CallsTo;
    var all := earlier + later;
    if later == [] {
      assert all == earlier;
    } else {
      var front := later[..|later| - 1];
      assert all[..|all| - 1] == earlier + front;
      LaterClientsFirst(earlier, front, mode);
      Associates(CallsTo(later[|later| - 1], mode), Calls(front, mode), Calls(earlier, mode));
    }
  }

  lemma Associates(a: seq<Call>, b: seq<Call>, c: seq<Call>)
    ensures (a + b) + c == a + (b + c)
  {
  }

  class ValuePoint {
    const readOnly: bool

    var condition: Condition
    var cached: int
    var notify: Bits
    var clients: seq<Client>
    var polling: bool
    var job: JobState
    var locks: nat                       // how deep this thread is inside the lock
    var references: map<Client, nat>
    ghost var calls: seq<Call>           // the callbacks made so far
    ghost var locked: nat                // how many of them with the lock held

    function Snapshot(): (p: Point)
      reads this
    {
      Point(condition, cached, notify, clients, polling, job)
    }

    /** Each client is registered once, and has a reference as long as it is. */
    ghost predicate Valid()
      reads this
    {
      Distinct(clients) && forall c :: c in clients ==> c in references && references[c] > 0
    }

    constructor (readOnly: bool)
      ensures Valid() && locks == 0 && calls == [] && this.readOnly == readOnly
      ensures Snapshot() == Point(CONSTRUCTING, -0x8000_0000, Bits(false, false), [], false, IDLE)
    {
      this.readOnly := readOnly;
      condition, cached, notify := CONSTRUCTING, -0x8000_0000, Bits(false, false);
      clients, polling, job := [], false, IDLE;
      locks, references, calls, locked := 0, map[], [], 0;
    }

    method Lock()
      modifies `locks
      ensures locks == old(locks) + 1
    {
      locks := locks + 1;
    }

    method Unlock()
      requires locks > 0
      modifies `locks
      ensures locks == old(locks) - 1
    {
      locks := locks - 1;
    }

    method Updated()
      modifies `notify, `job, `locks
      ensures Snapshot() == old(Snapshot().Updated()) && locks == old(locks)
      ensures notify.update <==> old(notify.update) || clients != []
      ensures notify.metadata == old(notify.metadata)
      ensures job == if old(notify) == Bits(false, false) && clients != [] then Submitted(old(job)) else old(job)
    {
      if |clients| > 0 {
        Lock();
        if notify.update {
          Unlock();
        } else if !notify.IsNone() {
          notify := notify.(update := true);
          Unlock();
        } else {
          notify := Bits(true, false);
          Unlock();
          job := Submitted(job);
        }
      }
    }

    method Metadata()
      modifies `notify, `job, `locks
      ensures Snapshot() == old(Snapshot().Metadata()) && locks == old(locks)
      ensures notify.metadata <==> old(notify.metadata) || clients != []
      ensures notify.update == old(notify.update)
      ensures job == if old(notify) == Bits(false, false) && clients != [] then Submitted(old(job)) else old(job)
    {
      if |clients| > 0 {
        Lock();
        if notify.metadata {
          Unlock();
        } else if !notify.IsNone() {
          notify := notify.(metadata := true);
          Unlock();
        } else {
          notify := Bits(false, true);
          Unlock();
          job := Submitted(job);
        }
      }
    }

    method GetValue(answer: Answer) returns (error: Error, value: int)
      modifies `cached, `notify, `job, `locks
      ensures Snapshot() == old(Snapshot().Get(answer)) && locks == old(locks)
      ensures error == NONE <==> old(condition) == ACTIVATED && answer == Reading(value)
      ensures error == FAILED <==> old(condition) == ACTIVATED && answer == Failure
      ensures cached == if error == NONE && !polling then value else old(cached)
      ensures notify.update <==> old(notify.update) || (cached != old(cached) && clients != [])
      ensures notify.metadata == old(notify.metadata)
      ensures job == if old(notify) == Bits(false, false) && notify.update then Submitted(old(job)) else old(job)
    {
      error, value := UNAVAILABLE, 0;
      Lock();
      if condition == ACTIVATED {
        match answer {
          case Failure => error := FAILED;
          case Reading(v) =>
            error, value := NONE, v;
            if cached != value && !polling {
              cached := value;
              Updated();
            }
        }
      }
      Unlock();
    }

    /** Sets a value; the device is asked to write it, and says whether it has, unless it has it
        already. */
    method SetValue(value: int, answer: Answer, accepts: bool) returns (error: Error, ghost written: bool)
      modifies `cached, `notify, `job, `locks
      ensures Snapshot() == old(Snapshot().Set(readOnly, value, answer, accepts)) && locks == old(locks)
      ensures written <==> !readOnly && old(condition) == ACTIVATED && answer.Reading? && answer.value != value
      ensures error == NONE <==>
        !readOnly && old(condition) == ACTIVATED && answer.Reading? && (answer.value == value || accepts)
      ensures error == UNAVAILABLE <==> readOnly || old(condition) != ACTIVATED
      ensures cached == if error == NONE then value else old(cached)
      ensures notify.update <==> old(notify.update) || (cached != old(cached) && clients != [])
      ensures notify.metadata == old(notify.metadata)
      ensures job == if old(notify) == Bits(false, false) && notify.update then Submitted(old(job)) else old(job)
    {
      error, written := UNAVAILABLE, false;
      if !readOnly {
        Lock();
        if condition == ACTIVATED {
          match answer {
            case Failure => error := FAILED;
            case Reading(current) =>
              error := NONE;
              if current != value {
                written := true;
                error := if accepts then NONE else FAILED;
              }
              if error == NONE && cached != value {
                cached := value;
                Updated();
              }
          }
        }
        Unlock();
      }
    }

    method Evaluate(answer: Answer) returns (modified: bool)
      modifies `cached, `locks
      ensures Snapshot() == old(Snapshot().Evaluate(answer)) && locks == old(locks)
      ensures modified <==> old(condition) == ACTIVATED && answer.Reading? && answer.value != old(cached)
      ensures modified ==> cached == answer.value
      ensures !modified ==> cached == old(cached)
    {
      modified := false;
      Lock();
      if condition == ACTIVATED && answer.Reading? && answer.value != cached {
        cached := answer.value;
        modified := true;
      }
      Unlock();
    }

    method Activate()
      modifies `condition, `notify, `job, `locks
      ensures Snapshot() == old(Snapshot().Activate()) && locks == old(locks)
      ensures condition == ACTIVATED
      ensures notify.metadata <==> old(notify.metadata) || (old(condition) != ACTIVATED && clients != [])
      ensures notify.update == old(notify.update)
      ensures job == if old(notify) == Bits(false, false) && notify.metadata then Submitted(old(job)) else old(job)
    {
      Lock();
      if condition == DEACTIVATED || condition == CONSTRUCTING {
        condition := ACTIVATED;
        Metadata();
      }
      Unlock();
    }

    method Deactivate()
      modifies `condition, `polling, `notify, `job, `locks
      ensures Snapshot() == old(Snapshot().Deactivate()) && locks == old(locks)
      ensures condition == DEACTIVATED && polling == (old(polling) && old(condition) == DEACTIVATED)
      ensures notify.metadata <==> old(notify.metadata) || (old(condition) != DEACTIVATED && clients != [])
      ensures notify.update == old(notify.update)
      ensures job == if old(notify) == Bits(false, false) && notify.metadata then Submitted(old(job)) else old(job)
    {
      Lock();
      if condition == ACTIVATED || condition == CONSTRUCTING {
        polling := false;
        condition := DEACTIVATED;
        Metadata();
      }
      Unlock();
    }

    /** A client can be called only while it has a reference. */
    method CallUpdate(c: Client)
      requires c in references && references[c] > 0
      modifies `calls, `locked
      ensures calls == old(calls) + [Call.Update(c)] && locked == old(locked) + if locks > 0 then 1 else 0
    {
      calls := calls + [Call.Update(c)];
      locked := locked + if locks > 0 then 1 else 0;
    }

    method CallMetadata(c: Client)
      requires c in references && references[c] > 0
      modifies `calls, `locked
      ensures calls == old(calls) + [Call.Metadata(c)] && locked == old(locked) + if locks > 0 then 1 else 0
    {
      calls := calls + [Call.Metadata(c)];
      locked := locked + if locks > 0 then 1 else 0;
    }

    method AddRef(c: Client)
      requires c in references
      modifies `references
      ensures references == old(references)[c := old(references)[c] + 1]
    {
      references := references[c := references[c] + 1];
    }

    method Release(c: Client)
      requires c in references && references[c] > 0
      modifies `references
      ensures references == old(references)[c := old(references)[c] - 1]
    {
      references := references[c := references[c] - 1];
    }

    /** Registers a client, which the caller has a reference to, and updates it at once, with the lock
        held. */
    method Register(c: Client)
      requires Valid() && c in references && references[c] > 0
      modifies `clients, `references, `calls, `locked, `locks
      ensures Valid() && Snapshot() == old(Snapshot().Register(c)) && locks == old(locks)
      ensures clients == old(clients) + if c in old(clients) then [] else [c]
      ensures c in old(clients) ==> references == old(references) && calls == old(calls)
      ensures c !in old(clients) ==>
        && references == old(references)[c := old(references)[c] + 1]
        && calls == old(calls) + [Call.Update(c)] && locked == old(locked) + 1
    {
      Lock();
      if c !in clients {
        AddRef(c);
        clients := clients + [c];
        CallUpdate(c);
      }
      Unlock();
    }

    method Unregister(c: Client)
      requires Valid()
      modifies `clients, `references, `locks
      ensures Valid() && Snapshot() == old(Snapshot().Unregister(c)) && locks == old(locks)
      ensures forall k :: k in clients <==> k in old(clients) && k != c
      ensures c !in old(clients) ==> references == old(references)
      ensures c in old(clients) ==> references == old(references)[c := old(references)[c] - 1]
    {
      WithoutIsExact(clients, c);
      Lock();
      if c in clients {
        Release(c);
      }
      clients := Without(clients, c);
      Unlock();
    }

    /** Takes what was raised and tells the clients, never with the lock held. The count of references is
        the same afterwards. */
    method Notify()
      requires Valid() && locks == 0
      modifies `notify, `references, `calls, `locked, `locks
      ensures Valid() && locks == 0 && references == old(references) && locked == old(locked)
      ensures notify == Bits(false, false)
      ensures calls == old(calls) + Calls(clients, old(notify))
    {
      Lock();
      var mode := notify;
      notify := Bits(false, false);
      if mode.IsNone() {
        Unlock();
        NothingToCall(clients);
      } else {
        RecursiveCall(0, mode);
        assert clients[0..] == clients;
      }
    }

    /** Takes a reference to every client from a position on, releases the lock, and on the way back
        calls each and gives up its reference. */
    method RecursiveCall(position: nat, mode: Bits)
      requires position <= |clients| && locks == 1
      requires forall c :: c in clients ==> c in references && references[c] > 0
      modifies `references, `calls, `locked, `locks
      ensures locks == 0 && references == old(references) && locked == old(locked)
      ensures calls == old(calls) + Calls(clients[position..], mode)
      decreases |clients| - position
    {
      hide Calls, CallsTo;
      if position == |clients| {
        NoClients(clients[position..], mode);
        Unlock();
      } else {
        var client := clients[position];
        AddRef(client);
        RecursiveCall(position + 1, mode);
        assert clients[position..] == [client] + clients[position + 1..];
        LaterClientsFirst([client], clients[position + 1..], mode);
        OneClient(client, mode);
        Tell(client, mode);
        Release(client);
      }
    }

    method Tell(client: Client, mode: Bits)
      requires client in references && references[client] > 0
      modifies `calls, `locked
      ensures calls == old(calls) + CallsTo(client, mode) && (locks == 0 ==> locked == old(locked))
    {
      if mode.update {
        CallUpdate(client);
      }
      if mode.metadata {
        CallMetadata(client);
      }
    }
  }

  lemma NoClients(clients: seq<Client>, mode: Bits)
    requires clients == []
    ensures Calls(clients, mode) == []
  {
  }

  lemma OneClient(c: Client, mode: Bits)
    ensures Calls([c], mode) == CallsTo(c, mode)
  {
    assert [c][..0] == [];
  }

  lemma {:induction false} NothingToCall(clients: seq<Client>)
    ensures Calls(clients, Bits(false, false)) == []
  {
    if clients != [] {
      NothingToCall(clients[..|clients| - 1]);
    }
  }
}
