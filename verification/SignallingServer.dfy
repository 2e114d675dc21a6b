/** The signalling server: connections to the audio devices, some opened by them and some by us, that
    are closed when they have not been used for a while, unless an audio session has latched them. */
module SignallingServer {
  import opened Words

  /** The configured timeout in microseconds. The source multiplies in 32 bits. */
  function TimeoutTicks(milliseconds: uint32): uint32 {
    Low32(1000 * milliseconds)
  }

  /** The timeout is the configured one up to 71 minutes, and shorter than it beyond. */
  lemma TimeoutIsExact(milliseconds: uint32)
    ensures TimeoutTicks(milliseconds) == 1000 * milliseconds <==> milliseconds <= 4294967
    ensures TimeoutTicks(milliseconds) == 1000 * milliseconds % 0x1_0000_0000
    ensures TimeoutTicks(milliseconds) <= 1000 * milliseconds
  {
    if milliseconds <= 4294967 {
      assert 1000 * milliseconds < 0x1_0000_0000;
    } else {
      assert 1000 * milliseconds >= 0x1_0000_0000;
    }
  }

  /** What is known of a connection. */
  datatype Status = Status(open: bool, latched: bool, lastActivity: nat)
  {
    /** How long it has been idle at a time, which may lie before the last activity. */
    function Idle(now: nat): nat {
      if now > lastActivity then now - lastActivity else 0
    }

    /** Open, free to be closed, and idle for the timeout or longer. */
    predicate Stale(now: nat, timeout: nat) {
      open && !latched && Idle(now) >= timeout
    }

    /** What an evaluation leaves of it. */
    function Evaluated(now: nat, timeout: nat): Status {
      if Stale(now, timeout) then this.(open := false) else this
    }
  }

  class Connection {
    var isOpen: bool
    var latch: bool
    var lastActivity: nat

    function Snapshot(): Status
      reads this
    {
      Status(isOpen, latch, lastActivity)
    }

    constructor ()
      ensures Snapshot() == Status(false, false, 0)
    {
      isOpen, latch, lastActivity := false, false, 0;
    }

    method Latch(latched: bool)
      modifies this
      ensures Snapshot() == old(Snapshot()).(latched := latched)
    {
      latch := latched;
    }

    method Close()
      modifies this
      ensures Snapshot() == old(Snapshot()).(open := false)
    {
      isOpen := false;
    }

    /** A signal or a packet has come in, or the connection has come up or gone down. */
    method OnEvent(running: bool, now: nat)
      modifies this
      ensures Snapshot() == old(Snapshot()).(open := running, lastActivity := now)
    {
      isOpen, lastActivity := running, now;
    }
  }

  class SocketServer {
    const timeout: nat
    var clients: seq<Connection>           // opened by devices
    var peerConnections: seq<Connection>   // opened by us

    constructor (milliseconds: uint32)
      ensures timeout == TimeoutTicks(milliseconds) && clients == [] && peerConnections == []
    {
      timeout, clients, peerConnections := TimeoutTicks(milliseconds), [], [];
    }

    /** Forgets the connections of devices that are closed. */
    method Cleanup()
      modifies this
      ensures peerConnections == old(peerConnections)
      ensures forall c :: c in clients <==> c in old(clients) && c.isOpen
    {
      var open: seq<Connection>, i := [], 0;
      while i < |clients|
        invariant i <= |clients| && clients == old(clients) && peerConnections == old(peerConnections)
        invariant forall c :: c in open <==> c in clients[..i] && c.isOpen
      {
        if clients[i].isOpen {
          open := open + [clients[i]];
        }
        i := i + 1;
      }
      clients := open;
    }

    /** Closes every connection of either kind that is stale, and no other. */
    method EvaluateConnections(timeNow: nat)
      modifies this, clients, peerConnections
      ensures peerConnections == old(peerConnections)
      ensures forall c :: c in clients <==> c in old(clients) && old(c.isOpen)
      ensures forall c :: c in old(clients) || c in old(peerConnections) ==>
        c.Snapshot() == old(c.Snapshot()).Evaluated(timeNow, timeout)
      ensures forall c :: c in old(clients) || c in old(peerConnections) ==>
        && c.latch == old(c.latch) && c.lastActivity == old(c.lastActivity)
        && (c.isOpen <==> old(c.isOpen) && (old(c.latch) || (0 < timeout && timeNow < old(c.lastActivity) + timeout)))
    {
      Cleanup();
      forall i | 0 <= i < |clients|
        ensures clients[i] in old(clients)
      {
        assert clients[i] in clients;
      }
      EvaluateClients(timeNow);
      EvaluatePeers(timeNow);
    }

    method EvaluateClients(timeNow: nat)
      requires forall c :: c in clients ==> c.isOpen
      modifies clients
      ensures forall c :: c in clients ==> c.Snapshot() == old(c.Snapshot()).Evaluated(timeNow, timeout)
    {
      var i := 0;
      while i < |clients|
        invariant i <= |clients|
        invariant forall c :: c in clients[..i] ==> c.Snapshot() == old(c.Snapshot()).Evaluated(timeNow, timeout)
        invariant forall c :: c in clients ==>
          c.Snapshot() == old(c.Snapshot()) || c.Snapshot() == old(c.Snapshot()).Evaluated(timeNow, timeout)
      {
        if !clients[i].latch {
          var lastActivity := clients[i].lastActivity;
          var elapsed := if timeNow > lastActivity then timeNow - lastActivity else 0;
          if elapsed >= timeout {
            clients[i].Close();
          }
        }
        i := i + 1;
      }
    }

    method EvaluatePeers(timeNow: nat)
      modifies peerConnections
      ensures forall c :: c in peerConnections ==> c.Snapshot() == old(c.Snapshot()).Evaluated(timeNow, timeout)
    {
      var i := 0;
      while i < |peerConnections|
        invariant i <= |peerConnections|
        invariant forall c :: c in peerConnections[..i] ==>
          c.Snapshot() == old(c.Snapshot()).Evaluated(timeNow, timeout)
        invariant forall c :: c in peerConnections ==>
          c.Snapshot() == old(c.Snapshot()) || c.Snapshot() == old(c.Snapshot()).Evaluated(timeNow, timeout)
      {
        if peerConnections[i].isOpen && !peerConnections[i].latch {
          var lastActivity := peerConnections[i].lastActivity;
          var elapsed := if timeNow > lastActivity then timeNow - lastActivity else 0;
          if elapsed >= timeout {
            peerConnections[i].Close();
          }
        }
        i := i + 1;
      }
    }
  }
}
