/** The audio player of the sink: a thread that moves audio from a buffer shared with the source
    of the stream, through a local buffer, into the transport channel, and keeps the time. */
module AudioPlayer {
  import opened Words
  import opened Rates
  import opened MediaTransport

  /** The monotonic clock of the platform, in microseconds. */
  class Clock {
    var now: nat

    constructor () {
      now := *;
    }

    /** Time passes between any two readings. */
    method Ticks() returns (t: nat)
      modifies this
      ensures t == now >= old(now)
    {
      t :| t >= now;
      now := t;
    }

    /** Sleeps for at least as long as asked. */
    method SleepMs(ms: nat)
      modifies this
      ensures now >= old(now) + 1000 * ms
    {
      var awake :| awake >= now + 1000 * ms;
      now := awake;
    }
  }

  /** The shared buffer, filled by another process. */
  class ReceiveBuffer {
    const size: uint32

    constructor (size: uint32)
      requires 0 < size
      ensures this.size == size
    {
      this.size := size;
    }

    method IsValid() returns (valid: bool) {
      valid := *;
    }

    /** Whatever has been written, if anything has. */
    method Get(length: nat) returns (data: seq<byte>)
      ensures |data| <= length
    {
      data := *;
      if |data| > length {
        data := [];
      }
    }
  }

  /** The size of the local buffer, given the preferred frame size and the size of the shared one. */
  function BufferSize(preferred: nat, max: nat): nat
    requires max > 0
  {
    (2 * preferred / max + 1) * max
  }

  /** A read of any length behind the data that is there stays inside the local buffer. */
  predicate Fits(available: nat, preferred: nat, max: nat)
    requires max > 0
  {
    available + max <= BufferSize(preferred, max)
  }

  /** A shared buffer of at most two preferred frames fits behind any amount of data that makes the
      player read on. */
  lemma BufferHoldsARead(preferred: nat, max: nat, available: nat)
    requires 0 < max <= 2 * preferred && available < preferred
    ensures Fits(available, preferred, max)
  {
    var q := 2 * preferred / max;
    QuotientBounds(2 * preferred, max);
    assert BufferSize(preferred, max) == q * max + max;
    if q < 1 {
      ProductMonotone(q + 1, 1, max);
    } else if max > preferred {
      ProductMonotone(1, q, max);
    }
  }

  /** A larger one fits behind an empty buffer only. */
  lemma LargeBufferHoldsOneRead(preferred: nat, max: nat)
    requires max > 2 * preferred
    ensures BufferSize(preferred, max) == max
  {
    QuotientIs(2 * preferred, max, 0);
  }

  /** The sizes are sufficient, at every read the player may make, exactly if the shared buffer is no
      larger than two preferred frames (or if a frame is a single byte, when it reads only into an
      empty buffer). */
  lemma BufferSuffices(preferred: nat, max: nat)
    requires 0 < preferred && 0 < max
    ensures (forall available: nat :: available < preferred ==> Fits(available, preferred, max))
            <==> max <= 2 * preferred || preferred == 1
  {
    if max <= 2 * preferred {
      forall available: nat | available < preferred
        ensures Fits(available, preferred, max)
      {
        BufferHoldsARead(preferred, max, available);
      }
    } else {
      LargeBufferHoldsOneRead(preferred, max);
      var one: nat := 1;
      assert !Fits(one, preferred, max);
    }
  }

  /** So at each read that is made: it fits exactly if the shared buffer is no larger than two preferred
      frames, or the local one is empty. */
  lemma FitsExactly(available: nat, preferred: nat, max: nat)
    requires 0 < max && available < preferred
    ensures Fits(available, preferred, max) <==> max <= 2 * preferred || available == 0
  {
    if max <= 2 * preferred {
      BufferHoldsARead(preferred, max, available);
    } else {
      LargeBufferHoldsOneRead(preferred, max);
    }
  }

  /** The first read fits and returns one byte of two; the second does not fit any more. */
  lemma MisfitHappens()
    ensures Fits(0, 2, 5) && 1 <= 5 && 0 + 1 < 2 && !Fits(1, 2, 5)
  {
    FitsExactly(0, 2, 5);
    FitsExactly(1, 2, 5);
  }

  /** A read that fills 64K counts as none, and what it returned is lost. */
  lemma FullReadHappens()
    ensures Fits(0, 0x8000, 0x1_0000) && Low16(0x1_0000) == 0
  {
    FitsExactly(0, 0x8000, 0x1_0000);
  }

  /** Two reads that fit fill the local buffer with exactly 64K. The length that is passed on is then 0,
      so nothing is sent, and as the buffer is not empty, nothing is read. */
  lemma StuckHappens()
    ensures Fits(0, 30000, 60000) && 29999 < 30000 && Fits(29999, 30000, 60000)
    ensures 35537 <= 60000 && 29999 + 35537 == 0x1_0000 && Low16(29999 + 35537) == 0
  {
    FitsExactly(0, 30000, 60000);
    FitsExactly(29999, 30000, 60000);
  }

  /** The size never exceeds 32 bits, so the source may compute it in 32 bits. */
  lemma BufferSizeFits(preferred: uint16, max: uint32)
    requires 0 < max
    ensures max <= BufferSize(preferred, max) < 0x1_0000_0000
  {
    var q := 2 * preferred / max;
    QuotientBounds(2 * preferred, max);
    assert BufferSize(preferred, max) == q * max + max;
    if max > 2 * preferred {
      LargeBufferHoldsOneRead(preferred, max);
    } else if q < 0 {
      ProductMonotone(q + 1, 0, max);
    } else {
      ProductMonotone(0, q, max);
    }
  }

  /** It is the first multiple of the size of the shared buffer beyond two preferred frames. */
  lemma BufferSizeIsExact(preferred: nat, max: nat)
    requires 0 < max
    ensures 2 * preferred < BufferSize(preferred, max) <= 2 * preferred + max
    ensures exists k: nat :: BufferSize(preferred, max) == k * max
  {
    QuotientBounds(2 * preferred, max);
    QuotientFits(2 * preferred, max);
    var k: nat := 2 * preferred / max + 1;
    assert BufferSize(preferred, max) == k * max == 2 * preferred / max * max + max;
  }

  /** The milliseconds banked at resets of the odometer fall short of the samples they stand for by
      less than a millisecond for each reset. */
  predicate Drift(offset: nat, banked: nat, resets: nat, clockRate: nat) {
    offset * clockRate <= 1000 * banked <= (offset + resets) * clockRate
  }

  lemma BankKeepsDrift(offset: nat, banked: nat, resets: nat, clockRate: nat, samples: nat)
    requires clockRate > 0 && Drift(offset, banked, resets, clockRate)
    ensures Drift(offset + Millis(samples, clockRate), banked + samples, resets + 1, clockRate)
  {
    var p := 1000 * samples / clockRate;
    QuotientBounds(1000 * samples, clockRate);
    assert (offset + p) * clockRate == offset * clockRate + p * clockRate;
    assert (offset + p + (resets + 1)) * clockRate == (offset + resets) * clockRate + (p + 1) * clockRate;
  }

  /** The time shown never runs ahead of the samples played, and lags behind by less than a
      millisecond for each reset, and one more. */
  lemma TimeIsClose(offset: nat, banked: nat, resets: nat, clockRate: nat, samples: nat)
    requires clockRate > 0 && Drift(offset, banked, resets, clockRate)
    ensures var time := offset + Millis(samples, clockRate);
            time * clockRate <= 1000 * (banked + samples) < (time + resets + 1) * clockRate
  {
    var p := 1000 * samples / clockRate;
    QuotientBounds(1000 * samples, clockRate);
    assert (offset + p) * clockRate == offset * clockRate + p * clockRate;
    assert (offset + p + resets + 1) * clockRate == (offset + resets) * clockRate + (p + 1) * clockRate;
  }

  lemma TimeFits(offset: nat, banked: nat, resets: nat, clockRate: nat, samples: nat)
    requires clockRate > 0 && Drift(offset, banked, resets, clockRate)
    requires 1000 * (banked + samples) < 0x1_0000_0000 * clockRate
    ensures offset + Millis(samples, clockRate) < 0x1_0000_0000
  {
    TimeIsClose(offset, banked, resets, clockRate, samples);
    var time := offset + Millis(samples, clockRate);
    if time >= 0x1_0000_0000 {
      ProductMonotone(0x1_0000_0000, time, clockRate);
    }
  }

  lemma {:induction false} PayloadsAppend(log: seq<Sent>, mark: nat, next: Sent)
    requires mark <= |log|
    ensures Payloads((log + [next])[mark..]) == Payloads(log[mark..]) + next.payload
  {
    var tail := (log + [next])[mark..];
    assert tail == log[mark..] + [next];
    assert tail[..|tail| - 1] == log[mark..];
  }

  class AudioPlayer {
    const transport: Transport
    const clock: Clock
    const receiveBuffer: ReceiveBuffer
    const minFrameSize: nat
    const maxFrameSize: nat
    const preferredFrameSize: nat
    const buffer: array?<byte>

    var startTime: nat
    var offset: uint32
    var available: nat
    var readCursor: nat        // an index into the buffer
    var latency: uint32
    var eos: bool
    var running: bool          // the thread is not blocked

    ghost var received: seq<byte>   // all that was read from the shared buffer since Play
    ghost var accepted: seq<byte>   // the part of it that was counted
    ghost var lost: nat             // multiples of 64K not counted
    ghost var longest: nat          // bytes returned by the longest read
    ghost var consumed: seq<byte>   // all that the transport took since Play
    ghost var mark: nat             // packets sent before Play
    ghost const earlier: nat        // samples the transport had sent before this player
    ghost var banked: nat           // samples sent before the last reset of the odometer
    ghost var resets: nat
    ghost var attempts: nat            // how often the shared buffer was read
    ghost var dry: bool             // the last read returned nothing

    ghost predicate Sized()
      requires buffer != null
      reads `readCursor, `available
    {
      && 0 < maxFrameSize < 0x1_0000_0000
      && maxFrameSize == receiveBuffer.size
      && minFrameSize == transport.rawFrame
      && preferredFrameSize == transport.preferredFrame
      && buffer.Length == BufferSize(preferredFrameSize, maxFrameSize)
      && readCursor + available <= buffer.Length
      && available < preferredFrameSize + maxFrameSize
    }

    /** What is left to play. */
    ghost function Window(): seq<byte>
      requires buffer != null && Sized()
      reads `readCursor, `available, buffer
    {
      buffer[readCursor..readCursor + available]
    }

    /** Nothing is lost, repeated or reordered on the way from the shared buffer to the packets. */
    ghost predicate Fifo()
      requires buffer != null && Sized()
      reads `readCursor, `available, `accepted, `consumed, `mark, buffer, transport
    {
      && accepted == consumed + Window()
      && mark <= |transport.log| && consumed == Payloads(transport.log[mark..])
    }

    ghost predicate Counted()
      reads `received, `accepted, `lost, `longest
    {
      && |received| == |accepted| + 0x1_0000 * lost
      && (lost == 0 ==> accepted == received)
      && (lost == 0 <==> longest < 0x1_0000)
      && longest <= maxFrameSize
    }

    /** No 32-bit counter of the time has wrapped around. */
    ghost predicate Exact()
      reads `banked, transport
    {
      !transport.wrapped && 1000 * (banked + transport.segmentSamples) < 0x1_0000_0000 * transport.clockRate
    }

    ghost predicate OnTime()
      reads `startTime, `offset, `banked, `resets, transport, clock
    {
      && startTime <= clock.now
      && SamplesSent(transport.log) == earlier + banked + transport.segmentSamples
      && (Exact() ==> Drift(offset, banked, resets, transport.clockRate))
    }

    ghost predicate Valid()
      reads `startTime, `offset, `banked, `resets, `readCursor, `available, transport, buffer, clock
      reads `received, `accepted, `lost, `longest, `consumed, `mark, `running
    {
      && transport.Valid()
      && OnTime()
      && (running ==> buffer != null)
      && (buffer != null ==> Sized() && Fifo() && Counted())
    }

    constructor (transport: Transport, clock: Clock, receiveBuffer: ReceiveBuffer)
      requires transport.Valid() && transport.segmentSamples == 0 && !transport.wrapped
      requires receiveBuffer.size > 0
      ensures Valid() && this.transport == transport && this.clock == clock && this.receiveBuffer == receiveBuffer
      ensures !running && banked == resets == offset == 0
      ensures buffer != null ==> fresh(buffer)
    {
      this.transport, this.clock, this.receiveBuffer := transport, clock, receiveBuffer;
      startTime, offset, available, readCursor, latency := 0, 0, 0, 0, 0;
      eos, running := false, false;
      minFrameSize, maxFrameSize, preferredFrameSize, buffer := 0, 0, 0, null;
      received, accepted, lost, longest, consumed, mark := [], [], 0, 0, [], |transport.log|;
      banked, resets := 0, 0;
      attempts, dry, earlier := 0, false, SamplesSent(transport.log);
      var there := receiveBuffer.IsValid();
      if there {
        maxFrameSize := receiveBuffer.size;
        var open := transport.IsOpen();
        if open {
          minFrameSize := transport.rawFrame;
          preferredFrameSize := transport.preferredFrame;
          BufferSizeFits(transport.preferredFrame, receiveBuffer.size);
          buffer := new byte[BufferSize(transport.preferredFrame, receiveBuffer.size)];
        }
      }
    }

    /** Starts with an empty buffer; the time goes on from where it was. */
    method Play(usable: bool) returns (ok: bool)
      requires Valid()
      modifies clock, `startTime, `readCursor, `available, `eos, `running
      modifies `received, `accepted, `lost, `longest, `consumed, `mark
      ensures Valid() && ok == (buffer != null && usable)
      ensures ok ==> running && !eos && available == 0 && received == [] && old(clock.now) <= startTime
      ensures !ok ==> unchanged(this) && unchanged(clock)
      ensures transport.clockRate > 0 && Exact() == old(Exact()) && TimeNow() == old(TimeNow())
    {
      hide Transport.Valid, Sized, Fifo, Counted, OnTime;
      RateIsPositive();
      ok := buffer != null && usable;
      if ok {
        Clear();
        Restart();
        eos, running := false, true;
      }
    }

    method Restart()
      requires OnTime()
      modifies clock, `startTime
      ensures OnTime() && old(clock.now) <= startTime
    {
      startTime := clock.Ticks();
    }

    method Clear()
      requires buffer != null && Sized()
      modifies `readCursor, `available, `received, `accepted, `lost, `longest, `consumed, `mark
      ensures Sized() && Fifo() && Counted() && available == 0 && received == []
    {
      readCursor, available := 0, 0;
      received, accepted, lost, longest, consumed, mark := [], [], 0, 0, [], |transport.log|;
    }

    /** The time shown, when no counter has wrapped around. */
    ghost function TimeNow(): nat
      requires transport.clockRate > 0
      reads `offset, transport
    {
      offset + Millis(transport.timestamp, transport.clockRate)
    }

    /** Moves what is left to the front of the buffer. */
    method MoveToFront()
      requires buffer != null && Sized()
      modifies buffer, `readCursor
      ensures Sized() && readCursor == 0 && buffer[..available] == old(Window())
    {
      forall i | 0 <= i < available {
        buffer[i] := buffer[readCursor + i];
      }
      readCursor := 0;
    }

    /** Reads into the buffer behind the data that is there. The number of bytes is cut off to 16 bits. */
    method Read() returns (bytesRead: uint16, ghost length: nat)
      requires buffer != null && Sized() && readCursor == 0
      requires available + maxFrameSize <= buffer.Length
      requires Counted() && available < preferredFrameSize
      modifies buffer, `available, `received, `accepted, `lost, `longest, `attempts, `dry
      ensures Sized() && Counted() && available == old(available) + bytesRead
      ensures attempts == old(attempts) + 1 && dry == (bytesRead == 0)
      ensures length <= maxFrameSize && bytesRead == Low16(length) && |received| == |old(received)| + length
      ensures lost > old(lost) <==> length >= 0x1_0000
      ensures longest == if length > old(longest) then length else old(longest)
      ensures buffer[..old(available)] == old(buffer[..available])
      ensures accepted == old(accepted) + buffer[old(available)..available]
    {
      hide BufferSize, Low16;
      var data := receiveBuffer.Get(maxFrameSize);
      length := |data|;
      CopyBehind(data);
      ghost var overflow;
      bytesRead, overflow := CutOff(|data|);
      assert buffer[available..available + bytesRead] == buffer[available..available + |data|][..bytesRead];
      available := available + bytesRead;
      received := received + data;
      accepted := accepted + data[..bytesRead];
      lost := lost + overflow;
      longest := if length > longest then length else longest;
      attempts, dry := attempts + 1, bytesRead == 0;
    }

    method CopyBehind(data: seq<byte>)
      requires buffer != null && available + |data| <= buffer.Length
      modifies buffer
      ensures buffer[..available] == old(buffer[..available])
      ensures buffer[available..available + |data|] == data
    {
      forall i | 0 <= i < |data| {
        buffer[available + i] := data[i];
      }
    }

    /** A read with data already there, from a shared buffer of more than two preferred frames. */
    ghost predicate Cramped()
      reads `available
    {
      maxFrameSize > 2 * preferredFrameSize && 0 < available < preferredFrameSize
    }

    /** Fills up the buffer to the preferred frame size, or as far as the source of the stream has
        provided; if that is not even one frame, the stream has stalled. The source asserts before
        each read that it fits; `fits` is false if that failed, which ends the turn. */
    method Replenish() returns (stalled: bool, fits: bool)
      requires buffer != null && Sized() && Fifo() && Counted()
      requires available < minFrameSize <= preferredFrameSize
      modifies buffer, `readCursor, `available, `received, `accepted, `lost, `longest, `attempts, `dry
      ensures Sized() && Fifo() && Counted()
      ensures fits ==> attempts > old(attempts) && (available >= preferredFrameSize || dry)
      ensures !fits ==> Cramped()
      ensures readCursor == 0 && available >= old(available)
      ensures old(accepted) <= accepted
      ensures stalled <==> fits && available < minFrameSize
    {
      hide BufferSize, Payloads, Counted;
      MoveToFront();
      stalled, fits := Fill();
      assert Window() == buffer[..available];
    }

    method Fill() returns (stalled: bool, fits: bool)
      requires buffer != null && Sized() && Counted() && readCursor == 0
      requires accepted == consumed + buffer[..available]
      requires available < minFrameSize <= preferredFrameSize
      modifies buffer, `available, `received, `accepted, `lost, `longest, `attempts, `dry
      ensures Sized() && Counted() && available >= old(available)
      ensures fits ==> attempts > old(attempts) && (available >= preferredFrameSize || dry)
      ensures !fits ==> Cramped()
      ensures accepted == consumed + buffer[..available]
      ensures old(accepted) <= accepted
      ensures stalled <==> fits && available < minFrameSize
    {
      hide BufferSize, Counted;
      stalled, fits := false, true;
      while available < preferredFrameSize
        invariant Sized() && Counted()
        invariant accepted == consumed + buffer[..available]
        invariant old(accepted) <= accepted && old(available) <= available
        invariant attempts >= old(attempts) && (available > old(available) ==> attempts > old(attempts))
        decreases preferredFrameSize - available
      {
        if available + maxFrameSize > buffer.Length {
          RoomUnlessCramped();
          fits := false;
          break;
        }
        ghost var before := buffer[..available];
        ghost var length;
        var bytesRead;
        bytesRead, length := Read();
        BackGrows(consumed, before, buffer[|before|..available], buffer[..available]);
        if bytesRead == 0 {
          stalled := available < minFrameSize;
          break;
        }
      }
    }

    /** Adds the play time to the offset, as the odometer is about to be reset. */
    method Bank()
      requires transport.Valid() && OnTime()
      modifies `offset, `banked, `resets
      ensures banked == old(banked) + transport.segmentSamples && resets == old(resets) + 1
      ensures old(Exact()) ==> offset == old(TimeNow()) && Drift(offset, banked, resets, transport.clockRate)
    {
      hide Ordered, Paced, Follows, Drift, Low32, SamplesSent;
      if Exact() {
        BankKeepsDrift(offset, banked, resets, transport.clockRate, transport.segmentSamples);
        TimeFits(offset, banked, resets, transport.clockRate, transport.segmentSamples);
      }
      var playTime := InMillis(transport.timestamp, transport.clockRate);
      offset := Add32(offset, playTime);
      banked, resets := banked + transport.segmentSamples, resets + 1;
    }

    /** The stream has stalled: the time stands still until there is something to play again. A client
        that asks for it after the play time has been added to the offset and before the odometer is
        reset sees the play time twice, and then the time goes back. */
    method Stall() returns (ghost between: nat)
      requires transport.Valid() && OnTime() && buffer != null && Sized() && Fifo()
      modifies transport, clock, `startTime, `offset, `banked, `resets
      ensures transport.Valid() && OnTime() && Sized() && Fifo() && transport.log == old(transport.log)
      ensures resets == old(resets) + 1 && transport.segmentSamples == 0
      ensures old(clock.now) <= startTime && clock.now >= startTime + 10000
      ensures Exact() == old(Exact()) && (Exact() ==> TimeNow() == old(TimeNow()))
      ensures Exact() ==> between == TimeNow() + old(Millis(transport.timestamp, transport.clockRate))
    {
      hide Ordered, Paced, Follows, Drift, Low32, SamplesSent;
      Bank();
      between := TimeNow();
      startTime := clock.Ticks();
      transport.ResetOdometer();
      NothingTakesNoTime(transport.clockRate);
      clock.SleepMs(10);
    }

    /** Waits until the data about to be sent is due, if the play time is ahead of the clock by more than
        the threshold; otherwise it does not sleep at all. */
    method Pace() returns (ghost reading: nat, ghost slept: nat)
      requires transport.clockRate > 0 && OnTime()
      modifies clock
      ensures OnTime() && old(clock.now) <= reading
      ensures transport.PlayTime() <= (clock.now - startTime) / 1000 + WRITE_AHEAD_THRESHOLD
      ensures transport.PlayTime() <= (clock.now - startTime) / 1000 + 10
      ensures var elapsed := (reading - startTime) / 1000 % 0x1_0000_0000;
        slept == if transport.PlayTime() > elapsed + 10 then transport.PlayTime() - elapsed else 0
      ensures clock.now >= reading + 1000 * slept && (slept == 0 ==> clock.now == reading)
    {
      hide SamplesSent, Drift, Millis, Low32, Exact;
      var playTime := InMillis(transport.timestamp, transport.clockRate);
      var now := clock.Ticks();
      var elapsedTime := Elapsed(startTime, now);
      reading, slept := now, 0;
      if playTime > WRITE_AHEAD_THRESHOLD && playTime - WRITE_AHEAD_THRESHOLD > elapsedTime {
        clock.SleepMs(playTime - elapsedTime);
        slept := playTime - elapsedTime;
      }
    }

    /** The length that is passed on when the data is to be sent. */
    ghost function Length(): uint16
      reads `available
    {
      Low16(available)
    }

    /** There is a whole frame, but the length that is passed on says less. */
    ghost predicate Stuck()
      reads `available
    {
      available >= minFrameSize && Length() < minFrameSize
    }

    /** The local buffer never holds 64K, so that this does not happen. */
    ghost predicate Compact() {
      preferredFrameSize + maxFrameSize <= 0x1_0000
    }

    lemma LengthIsRight()
      requires buffer != null && Sized()
      ensures Length() <= available && (available < 0x1_0000 ==> Length() == available)
      ensures Compact() ==> available < 0x1_0000 && !Stuck()
    {
    }

    /** One packet has been added to the log, and the clock has not been read since. */
    ghost predicate JustSent(log: seq<Sent>)
      reads transport, clock, `startTime
    {
      && |transport.log| == |log| + 1
      && transport.log[|log|].elapsed == if clock.now < startTime then 0 else (clock.now - startTime) / 1000
    }

    /** Sends one packet with what is at the read cursor; the length is cut off to 16 bits. */
    method Send() returns (transmitted: nat)
      requires buffer != null && Sized() && Fifo() && transport.Valid() && OnTime()
      requires available >= minFrameSize
      requires transport.PlayTime() <= (clock.now - startTime) / 1000 + WRITE_AHEAD_THRESHOLD
      modifies transport, `readCursor, `available, `consumed
      ensures Sized() && Fifo() && transport.Valid() && OnTime()
      ensures transmitted <= old(available) && available == old(available) - transmitted
      ensures old(consumed) <= consumed && |consumed| == |old(consumed)| + transmitted
      ensures transmitted > 0 ==> transmitted >= minFrameSize && old(Length()) >= minFrameSize
      ensures transport.steady ==> (transmitted > 0 <==> old(Length()) >= minFrameSize)
      ensures old(transport.log) <= transport.log && (transmitted > 0 ==> JustSent(old(transport.log)))
      ensures Exact() ==> old(Exact()) && TimeNow() >= old(TimeNow())
    {
      hide Length, Ordered, Paced, Drift, Sized, Fifo, Follows, Payloads, SamplesSent, Millis;
      transmitted := SendWindow((clock.now - startTime) / 1000);
      if transport.timestamp >= old(transport.timestamp) {
        LongerTakesLonger(old(transport.timestamp), transport.timestamp, transport.clockRate);
      }
    }

    method SendWindow(ghost elapsed: nat) returns (transmitted: nat)
      requires buffer != null && Sized() && Fifo() && transport.Valid()
      requires available >= minFrameSize
      requires transport.PlayTime() <= elapsed + WRITE_AHEAD_THRESHOLD
      modifies transport, `readCursor, `available, `consumed
      ensures Sized() && Fifo() && transport.Valid()
      ensures transmitted <= old(available) && available == old(available) - transmitted
      ensures old(consumed) <= consumed && |consumed| == |old(consumed)| + transmitted
      ensures transmitted > 0 ==> transmitted >= minFrameSize && old(Length()) >= minFrameSize
      ensures transport.steady ==> (transmitted > 0 <==> old(Length()) >= minFrameSize)
      ensures old(transport.log) <= transport.log
      ensures transmitted > 0 ==>
        |transport.log| == |old(transport.log)| + 1 && transport.log[|old(transport.log)|].elapsed == elapsed
      ensures old(transport.segmentSamples) <= transport.segmentSamples
      ensures SamplesSent(transport.log) - transport.segmentSamples
           == old(SamplesSent(transport.log)) - old(transport.segmentSamples)
      ensures old(transport.wrapped) ==> transport.wrapped
      ensures !transport.wrapped ==> old(transport.timestamp) <= transport.timestamp
    {
      hide Transport.Valid, Transport.PlayTime, BufferSize, Payloads;
      ghost var sent;
      transmitted, sent := TransmitFront(elapsed);
      FrontMoves(consumed, Window(), transmitted);
      consumed := consumed + sent;
      Advance(transmitted);
    }

    method TransmitFront(ghost elapsed: nat) returns (transmitted: nat, ghost sent: seq<byte>)
      requires buffer != null && Sized() && transport.Valid()
      requires available >= minFrameSize && mark <= |transport.log|
      requires transport.PlayTime() <= elapsed + WRITE_AHEAD_THRESHOLD
      modifies transport
      ensures transport.Valid()
      ensures transmitted <= available && sent == Window()[..transmitted]
      ensures transmitted > 0 ==> transmitted >= minFrameSize && Length() >= minFrameSize
      ensures transport.steady ==> (transmitted > 0 <==> Length() >= minFrameSize)
      ensures old(transport.log) <= transport.log
      ensures transmitted > 0 ==>
        |transport.log| == |old(transport.log)| + 1 && transport.log[|old(transport.log)|].elapsed == elapsed
      ensures Payloads(transport.log[mark..]) == Payloads(old(transport.log)[mark..]) + sent
      ensures old(transport.segmentSamples) <= transport.segmentSamples
      ensures SamplesSent(transport.log) - transport.segmentSamples
           == old(SamplesSent(transport.log)) - old(transport.segmentSamples)
      ensures old(transport.wrapped) ==> transport.wrapped
      ensures !transport.wrapped ==> old(transport.timestamp) <= transport.timestamp
    {
      hide Ordered, Paced, BufferSize, Follows, Payloads, SamplesSent, Millis, Transport.PlayTime;
      hide Transport.SampleCount, Transport.IsWhole;
      var length, overflow := CutOff(available);
      var data := buffer[readCursor..readCursor + length];
      transmitted := transport.Transmit(data, elapsed);
      sent := data[..transmitted];
      assert sent == Window()[..transmitted];
      if transmitted > 0 {
        PayloadsAppend(old(transport.log), mark, transport.log[|old(transport.log)|]);
        SamplesAppend(old(transport.log), transport.log[|old(transport.log)|]);
      }
    }

    method Advance(transmitted: nat)
      requires buffer != null && Sized() && transmitted <= available
      modifies `readCursor, `available
      ensures Sized() && available == old(available) - transmitted
      ensures Window() == old(Window())[transmitted..]
    {
      readCursor := readCursor + transmitted;
      available := available - transmitted;
    }

    /** One turn of the thread. It never repeats or loses a byte and never turns the time back; once
        the end of the stream is signalled it reads no more, and each turn either sends something or
        is the last. It ends early if a read would not fit, which is asserted. */
    method Worker() returns (ghost open: bool, fits: bool)
      requires Valid() && running
      modifies transport, clock, buffer, `startTime, `offset, `banked, `resets
      modifies `readCursor, `available, `received, `accepted, `lost
      modifies `longest, `consumed, `eos, `running, `attempts, `dry
      ensures Valid() && eos == (old(eos) || !open) && (transport.steady ==> open)
      ensures maxFrameSize <= 2 * preferredFrameSize || old(eos) ==> fits
      ensures !fits ==> Cramped() && consumed == old(consumed) && running && resets == old(resets)
      ensures !open ==> consumed == old(consumed)
      ensures fits && old(available) < minFrameSize && !old(eos) ==> attempts > old(attempts)
      ensures resets == old(resets) || (resets == old(resets) + 1 && consumed == old(consumed) && !old(eos))
      ensures consumed != old(consumed) ==> JustSent(old(transport.log))
      ensures old(accepted) <= accepted && old(consumed) <= consumed && old(transport.log) <= transport.log
      ensures old(eos) ==> accepted == old(accepted)
      ensures old(eos) ==> available <= old(available)
      ensures old(eos) && running ==> available < old(available)
      ensures running <==> !(eos && consumed == old(consumed))
      ensures !running && old(eos) && transport.steady ==> Length() < minFrameSize
      ensures !running && old(eos) && transport.steady && Compact() ==> available < minFrameSize
      ensures old(Stuck()) ==> available == old(available) && consumed == old(consumed)
      ensures Exact() ==> old(Exact()) && TimeNow() >= old(TimeNow())
    {
      hide Transport.Valid, Fifo, Counted, OnTime, Exact, TimeNow, BufferSize;
      fits, open := true, true;
      if available < minFrameSize && !eos {
        fits := TopUp();
      }
      if fits {
        open := PlayOut();
      }
    }

    /** The local buffer is filled up, or there is not enough for a frame and the time is stopped. */
    method TopUp() returns (fits: bool)
      requires Valid() && running && available < minFrameSize
      modifies transport, clock, buffer, `startTime, `offset, `banked, `resets
      modifies `readCursor, `available, `received, `accepted, `lost, `longest, `attempts, `dry
      ensures Valid() && old(accepted) <= accepted && transport.log == old(transport.log)
      ensures fits ==> attempts > old(attempts) && (available >= preferredFrameSize || dry)
      ensures !fits ==> Cramped()
      ensures resets == old(resets) + if fits && available < minFrameSize then 1 else 0
      ensures Exact() ==> old(Exact()) && TimeNow() == old(TimeNow())
    {
      hide Ordered, Paced, Follows, Fifo, Counted, OnTime, Exact, Transport.PlayTime, Millis, BufferSize;
      var stalled;
      stalled, fits := Replenish();
      if stalled {
        ghost var between := Stall();
      }
    }

    /** Sends a packet once it is due, if there is enough for one. */
    method PlayOut() returns (ghost open: bool)
      requires Valid() && running
      modifies transport, clock, `readCursor, `available, `consumed, `eos, `running
      ensures Valid() && eos == (old(eos) || !open) && (transport.steady ==> open)
      ensures !open ==> consumed == old(consumed)
      ensures old(consumed) <= consumed && old(transport.log) <= transport.log
      ensures old(eos) ==> available <= old(available)
      ensures old(eos) && running ==> available < old(available)
      ensures running <==> !(eos && consumed == old(consumed))
      ensures !running && old(eos) && transport.steady ==> Length() < minFrameSize
      ensures !running && old(eos) && transport.steady && Compact() ==> available < minFrameSize
      ensures old(available) < minFrameSize ==> consumed == old(consumed)
      ensures transport.steady ==> (available < old(available) <==> old(Length()) >= minFrameSize)
      ensures old(Stuck()) ==> available == old(available) && consumed == old(consumed)
      ensures consumed != old(consumed) ==> JustSent(old(transport.log))
      ensures Exact() ==> old(Exact()) && TimeNow() >= old(TimeNow())
    {
      hide Ordered, Paced, Follows, Fifo, Counted, OnTime, Exact, Transport.PlayTime, Millis, BufferSize;
      LengthIsRight();
      var transmitted := 0;
      var up := transport.IsOpen();
      open := up;
      if up {
        ghost var reading, slept := Pace();
        if available >= minFrameSize {
          transmitted := Send();
        }
      } else {
        eos := true;
      }
      if transmitted == 0 && eos {
        running := false;
      }
    }

    /** Signals the end of the stream and waits until the thread has played out what is left: at most
        one turn for each byte left, and one more. If the link stays up and the codec never refuses a
        whole frame, less than one frame remains. */
    method Stop(usable: bool, random: uint16) returns (ok: bool, ghost turns: nat)
      requires Valid()
      modifies transport, clock, buffer, `startTime, `offset, `banked, `resets
      modifies `readCursor, `available, `received, `accepted, `lost
      modifies `longest, `consumed, `eos, `running, `attempts, `dry
      ensures Valid() && ok == (buffer != null && usable)
      ensures ok ==> eos && !running && turns <= old(available) + 1
      ensures ok ==> resets == old(resets) + 1
      ensures !ok ==> unchanged(this) && unchanged(transport)
      ensures accepted == old(accepted) && old(consumed) <= consumed && old(transport.log) <= transport.log
      ensures ok && old(running) && transport.steady ==> Length() < minFrameSize
      ensures ok && old(running) && transport.steady && Compact() ==> available < minFrameSize
      ensures Exact() ==> old(Exact()) && TimeNow() >= old(TimeNow())
    {
      hide Transport.Valid, Fifo, Counted, OnTime, Exact, TimeNow, BufferSize, Sized;
      ok := buffer != null && usable;
      turns := 0;
      RateIsPositive();
      if ok {
        ghost var between := Finish(random);
        eos := true;
        while running
          invariant Valid() && eos && (running ==> turns + available <= old(available))
          invariant turns <= old(available) + 1 && available <= old(available) && resets == old(resets) + 1
          invariant accepted == old(accepted) && old(consumed) <= consumed && old(transport.log) <= transport.log
          invariant Exact() ==> old(Exact()) && TimeNow() >= old(TimeNow())
          invariant !running && old(running) && transport.steady ==> Length() < minFrameSize
          invariant !running && old(running) && transport.steady && Compact() ==> available < minFrameSize
          decreases running, available
        {
          ghost var open;
          var fits;
          open, fits := Worker();
          turns := turns + 1;
        }
      }
    }

    /** Banks the play time and resets the transport; a client may look in between, as above. */
    method Finish(random: uint16) returns (ghost between: nat)
      requires Valid() && buffer != null
      modifies transport, `offset, `banked, `resets
      ensures Valid() && transport.log == old(transport.log) && resets == old(resets) + 1
      ensures transport.session == old(transport.session) + 1
      ensures transport.clockRate > 0
      ensures Exact() == old(Exact()) && (Exact() ==> TimeNow() == old(TimeNow()))
      ensures Exact() ==> between == TimeNow() + old(Millis(transport.timestamp, transport.clockRate))
    {
      hide Ordered, Paced, Follows, Drift, Low32, SamplesSent;
      Bank();
      between := TimeNow();
      transport.Reset(random);
      NothingTakesNoTime(transport.clockRate);
    }

    /** The time shown, in milliseconds: never ahead of the samples sent since the transport was
        connected, and behind by less than a millisecond for each reset, and one more. */
    method Time(usable: bool) returns (ok: bool, time: uint32)
      requires Valid()
      ensures ok == (buffer != null && usable) && (!ok ==> time == 0)
      ensures ok && Exact() ==>
        var played := 1000 * (SamplesSent(transport.log) - earlier);
        && time == TimeNow()
        && time * transport.clockRate <= played < (time + resets + 1) * transport.clockRate
    {
      hide Ordered, Paced, Follows, Sized, Fifo, Counted;
      ok, time := buffer != null && usable, 0;
      if ok {
        if Exact() {
          TimeIsClose(offset, banked, resets, transport.clockRate, transport.segmentSamples);
          TimeFits(offset, banked, resets, transport.clockRate, transport.segmentSamples);
        }
        time := Sum32(offset, 1000 * transport.timestamp / transport.clockRate);
      }
    }

    /** Sets the extra delay, in milliseconds; it is kept in samples. The source computes in 32 bits,
        and the limit it asserts makes the result exact. */
    method SetLatency(milliseconds: uint16)
      requires milliseconds <= 20000 && (transport.channels == 1 || transport.channels == 2)
      modifies `latency
      ensures latency == transport.clockRate * transport.channels * milliseconds / 1000
    {
      var product := transport.clockRate * transport.channels * milliseconds;
      ProductFits(transport.clockRate, transport.channels, milliseconds);
      var kept := Sum32(product, 0);
      latency := kept / 1000;
    }

    /** Samples between now and the time that what is read next will be heard. */
    method Delay(usable: bool) returns (ok: bool, delay: uint32)
      requires Valid()
      ensures ok == (buffer != null && usable)
      ensures ok && latency + |Window()| / transport.bytesPerSample < 0x1_0000_0000 ==>
        delay == latency + |Window()| / transport.bytesPerSample
    {
      hide Ordered, Paced, Follows, Fifo, Counted, OnTime, BufferSize, Low32;
      ok, delay := buffer != null && usable, 0;
      if ok {
        delay := Sum32(latency, available / transport.bytesPerSample);
      }
    }

    /** Nothing that was counted since Play is lost, repeated or reordered: it is in the packets, and the
        rest is in the local buffer. That is everything that was read exactly if no read ever filled
        64K, which a smaller shared buffer makes impossible. */
    lemma NothingLost()
      requires Valid() && buffer != null
      ensures accepted == Payloads(transport.log[mark..]) + Window()
      ensures received == Payloads(transport.log[mark..]) + Window() <==> longest < 0x1_0000
      ensures maxFrameSize < 0x1_0000 ==> longest < 0x1_0000
    {
      assert |received| == |accepted| <==> lost == 0;
    }

    lemma RateIsPositive()
      requires Valid()
      ensures transport.clockRate > 0
    {
    }

    lemma RoomUnlessCramped()
      requires buffer != null && Sized() && available < preferredFrameSize
      ensures available + maxFrameSize <= buffer.Length || Cramped()
    {
      if maxFrameSize <= 2 * preferredFrameSize {
        BufferHoldsARead(preferredFrameSize, maxFrameSize, available);
      } else {
        BufferHoldsAll();
      }
    }

    lemma BufferHoldsAll()
      requires buffer != null && Sized()
      ensures maxFrameSize <= buffer.Length
    {
      BufferSizeFits(transport.preferredFrame, receiveBuffer.size);
    }
  }

  /** The play time as the source computes it, when it fits. */
  method InMillis(samples: uint32, clockRate: nat) returns (time: uint32)
    requires clockRate > 0
    ensures time == Low32(Millis(samples, clockRate))
    ensures Millis(samples, clockRate) < 0x1_0000_0000 ==> time == Millis(samples, clockRate)
  {
    QuotientFits(1000 * samples, clockRate);
    time := Low32(1000 * samples / clockRate);
  }

  lemma FrontMoves(front: seq<byte>, back: seq<byte>, n: nat)
    requires n <= |back|
    ensures front + back == front + back[..n] + back[n..]
  {
    assert back == back[..n] + back[n..];
  }

  lemma BackGrows(front: seq<byte>, back: seq<byte>, more: seq<byte>, all: seq<byte>)
    requires |back| <= |all| && all[..|back|] == back && all[|back|..] == more
    ensures front + back + more == front + all
  {
    assert all == back + more;
  }

  lemma ProductFits(clockRate: uint16, channels: nat, milliseconds: nat)
    requires channels == 1 || channels == 2
    requires milliseconds <= 20000
    ensures 0 <= clockRate * channels * milliseconds < 0x1_0000_0000
  {
    ProductMonotone(clockRate * channels, 2 * 0xFFFF, milliseconds);
    ProductMonotone(0, clockRate * channels, milliseconds);
  }

  lemma LongerTakesLonger(a: nat, b: nat, clockRate: nat)
    requires clockRate > 0 && a <= b
    ensures Millis(a, clockRate) <= Millis(b, clockRate)
  {
    QuotientMonotone(1000 * a, 1000 * b, clockRate);
  }

  lemma NothingTakesNoTime(clockRate: nat)
    requires clockRate > 0
    ensures Millis(0, clockRate) == 0
  {
    QuotientIs(0, clockRate, 0);
  }

  /** Milliseconds between two readings of the clock, cut off to 32 bits. */
  method Elapsed(start: nat, now: nat) returns (elapsed: uint32)
    requires start <= now
    ensures elapsed == (now - start) / 1000 % 0x1_0000_0000
  {
    elapsed := Low32((now - start) / 1000);
  }

  /** A sum cut off to 32 bits. */
  method Sum32(x: int, y: int) returns (sum: uint32)
    ensures sum == Low32(x + y) && (0 <= x + y < 0x1_0000_0000 ==> sum == x + y)
  {
    sum := Low32(x + y);
  }

  method CutOff(length: nat) returns (kept: uint16, ghost overflow: nat)
    ensures length == kept + 0x1_0000 * overflow && kept == Low16(length)
    ensures overflow == 0 <==> length < 0x1_0000
  {
    kept, overflow := Low16(length), length / 0x1_0000;
  }
}
