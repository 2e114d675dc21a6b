/** The latency of the sink: the configured latency of the controller, plus an adjustment set by the
    user, which may be negative although it is stored unsigned. */
module DeviceLatency {
  import opened Words
  import AudioPlayer

  /** The controller latency that a configuration leads to. */
  function HostLatency(configured: uint16): uint16 {
    if configured <= 10000 then configured else 10000
  }

  /** The guard on the adjustment. */
  predicate Acceptable(host: int, latency: int) {
    -host <= latency <= 10000
  }

  /** What the player is told: the sum wraps around at 32 bits, and is then cut off to 16. */
  function Adjustment(host: uint16, stored: uint32): uint16 {
    Low16(Low32(host + stored))
  }

  /** Through the unsigned storage and the wrapping sum, the player is told the true sum exactly when
      that is not negative. */
  lemma AdjustmentIsExact(host: int, latency: int16)
    requires 0 <= host <= 10000
    ensures Adjustment(host, Low32(latency)) == host + latency <==> latency >= -host
  {
    if latency < 0 {
      assert Low32(latency) == latency + 0x1_0000_0000;
    } else {
      assert Low32(latency) == latency;
    }
  }

  /** The clamp and the guard together always give the true sum, and within what the player asserts. */
  lemma GuardsSuffice(configured: uint16, latency: int16)
    requires Acceptable(HostLatency(configured), latency)
    ensures var host := HostLatency(configured);
            && host == (if configured <= 10000 then configured else 10000)
            && Adjustment(host, Low32(latency)) == host + latency <= 20000
  {
    AdjustmentIsExact(HostLatency(configured), latency);
  }

  /** An adjustment reads back as it was set. */
  lemma ReadsBack(latency: int16)
    ensures Signed16(Low16(Low32(latency))) == latency
  {
    if latency < 0 {
      assert Low32(latency) == latency + 0x1_0000_0000;
      assert Low16(Low32(latency)) == latency + 0x1_0000;
    } else {
      assert Low16(Low32(latency)) == latency;
    }
  }

  lemma Low16Is(x: int, q: int, r: uint16)
    requires x == 0x1_0000 * q + r
    ensures Low16(x) == r
  {
  }

  lemma Low32Is(x: int, q: int, r: uint32)
    requires x == 0x1_0000_0000 * q + r
    ensures Low32(x) == r
  {
  }

  /** What is stored stands for an adjustment that was acceptable. */
  lemma StoredIsExact(host: int, stored: uint32)
    requires 0 <= host <= 10000 && (stored <= 10000 || stored >= 0x1_0000_0000 - host)
    ensures 0 <= Adjustment(host, stored) == host + Signed16(Low16(stored)) <= 20000
    ensures Signed16(Low16(stored)) == if stored <= 10000 then stored else stored - 0x1_0000_0000
  {
    hide Low16, Low32;
    var latency := if stored <= 10000 then stored else stored - 0x1_0000_0000;
    Low32Is(host + stored, if stored <= 10000 then 0 else 1, host + latency);
    Low16Is(host + latency, 0, host + latency);
    if stored <= 10000 {
      Low16Is(stored, 0, latency);
    } else {
      Low16Is(stored, 0xFFFF, latency + 0x1_0000);
    }
  }

  datatype Outcome = Done | IllegalState | BadRequest

  class Sink {
    const hostLatency: uint16
    var latency: uint32

    /** The stored latency is an acceptable one. */
    ghost predicate Valid()
      reads this
    {
      hostLatency <= 10000 && (latency <= 10000 || latency >= 0x1_0000_0000 - hostLatency)
    }

    constructor (configured: uint16)
      ensures Valid() && latency == 0 && hostLatency == HostLatency(configured)
      ensures configured <= 10000 ==> hostLatency == configured
      ensures configured > 10000 ==> hostLatency == 10000
    {
      hostLatency, latency := HostLatency(configured), 0;
    }

    /** Sets the adjustment, also when there is no player yet. */
    method SetLatency(latency: int16, player: AudioPlayer.AudioPlayer?) returns (outcome: Outcome)
      requires Valid()
      requires player != null ==> player.transport.channels == 1 || player.transport.channels == 2
      modifies this, if player == null then {} else {player}
      ensures Valid()
      ensures outcome.BadRequest? <==> hostLatency + latency < 0 || latency > 10000
      ensures outcome.BadRequest? ==> this.latency == old(this.latency)
      ensures !outcome.BadRequest? ==>
        && this.latency == (if latency < 0 then latency + 0x1_0000_0000 else latency)
        && outcome == (if player == null then IllegalState else Done)
      ensures outcome.Done? ==>
        player.latency == player.transport.clockRate * player.transport.channels * (hostLatency + latency) / 1000
    {
      if 0 <= hostLatency + latency && latency <= 10000 {
        this.latency := Low32(latency);
        AdjustmentIsExact(hostLatency, latency);
        if player == null {
          outcome := IllegalState;
        } else {
          player.SetLatency(Adjustment(hostLatency, this.latency));
          outcome := Done;
        }
      } else {
        outcome := BadRequest;
      }
    }

    /** A new player is told the latency that was set last. */
    method Acquire(player: AudioPlayer.AudioPlayer)
      requires Valid()
      requires player.transport.channels == 1 || player.transport.channels == 2
      modifies player`latency
      ensures
        var adjustment: int := if latency <= 10000 then latency else latency - 0x1_0000_0000;
        player.latency == player.transport.clockRate * player.transport.channels * (hostLatency + adjustment) / 1000
    {
      hide Low16, Low32, Signed16, Adjustment;
      StoredIsExact(hostLatency, latency);
      player.SetLatency(Adjustment(hostLatency, latency));
    }
  }
}
