/** The transport channel of the audio sink: it wraps the encoder's packets in RTP, counting
    packets in the sequence number and samples in the timestamp (section 5.1 of RFC 3550). */
module MediaTransport {
  import opened Words
  import opened Rates

  /** A packet that has been sent: the two numbers in its header, what it carries, when it left,
      in milliseconds of play time after the start time, and how often the sequence number and the
      odometer had been reset before. */
  datatype Sent = Sent(sequence: uint16, timestamp: uint32, payload: seq<byte>, samples: nat,
                       elapsed: nat, session: nat, segment: nat)

  function Payloads(log: seq<Sent>): seq<byte> {
    if log == [] then [] else Payloads(log[..|log| - 1]) + log[|log| - 1].payload
  }

  function SamplesSent(log: seq<Sent>): nat {
    if log == [] then 0 else SamplesSent(log[..|log| - 1]) + log[|log| - 1].samples
  }

  lemma SamplesAppend(log: seq<Sent>, next: Sent)
    ensures SamplesSent(log + [next]) == SamplesSent(log) + next.samples
  {
    assert (log + [next])[..|log|] == log;
  }

  /** Sequence numbers count packets; wrapping around at 16 bits. */
  function Next16(x: uint16): uint16 {
    if x == 0xFFFF then 0 else x + 1
  }

  function Add32(x: uint32, y: uint32): uint32 {
    if x + y < 0x1_0000_0000 then x + y else x + y - 0x1_0000_0000
  }

  /** Milliseconds that a number of samples takes to play. */
  function Millis(samples: nat, clockRate: nat): nat
    requires clockRate > 0
  {
    1000 * samples / clockRate
  }

  /** A packet follows another: within a session the sequence number is the next one; within a
      segment the timestamp has advanced by the samples of the first; a new segment starts at 0. */
  predicate Follows(a: Sent, sequence: uint16, timestamp: uint32, session: nat, segment: nat) {
    && a.session <= session && a.segment <= segment
    && (a.session == session ==> sequence == Next16(a.sequence))
    && (a.segment == segment ==> a.samples < 0x1_0000_0000 && timestamp == Add32(a.timestamp, a.samples))
    && (a.segment < segment ==> timestamp == 0)
  }

  predicate Ordered(log: seq<Sent>) {
    && (log != [] ==> log[0].timestamp == 0)
    && forall i {:trigger log[i]} :: 0 < i < |log| ==>
      var b := log[i];
      Follows(log[i - 1], b.sequence, b.timestamp, b.session, b.segment)
  }

  const WRITE_AHEAD_THRESHOLD: nat := 10

  /** No packet left earlier than its play time, but for the write-ahead threshold. */
  predicate Paced(log: seq<Sent>, clockRate: nat)
    requires clockRate > 0
  {
    forall i :: 0 <= i < |log| ==>
      Low32(Millis(log[i].timestamp, clockRate)) <= log[i].elapsed + WRITE_AHEAD_THRESHOLD
  }

  /** The samples sent in a segment. */
  function SamplesIn(log: seq<Sent>, segment: nat): nat {
    if log == [] then 0 else
      var last := log[|log| - 1];
      SamplesIn(log[..|log| - 1], segment) + if last.segment == segment then last.samples else 0
  }

  lemma LogGrows(log: seq<Sent>, next: Sent, clockRate: nat)
    requires clockRate > 0 && Ordered(log) && Paced(log, clockRate)
    requires log == [] ==> next.timestamp == 0
    requires log != [] ==> Follows(log[|log| - 1], next.sequence, next.timestamp, next.session, next.segment)
    requires Low32(Millis(next.timestamp, clockRate)) <= next.elapsed + WRITE_AHEAD_THRESHOLD
    ensures Ordered(log + [next]) && Paced(log + [next], clockRate)
  {
    hide Follows, Low32, Millis;
  }

  lemma Add32IsExact(x: nat, y: uint32)
    ensures Add32(Low32(x), y) == Low32(x + y)
  {
  }

  lemma Next16IsExact(x: nat)
    ensures Next16(Low16(x)) == Low16(x + 1)
  {
  }

  lemma Low16IsIdentity(x: uint16)
    ensures Low16(x) == x
  {
  }

  /** Nothing has been sent yet in a segment later than that of every packet so far. */
  lemma {:induction false} NotYetBegun(log: seq<Sent>, i: nat, segment: nat)
    requires Ordered(log) && 0 < i <= |log| && log[i - 1].segment < segment
    ensures SamplesIn(log[..i], segment) == 0
  {
    if i > 1 {
      assert Follows(log[i - 2], log[i - 1].sequence, log[i - 1].timestamp, log[i - 1].session, log[i - 1].segment);
      NotYetBegun(log, i - 1, segment);
    }
    assert log[..i][..i - 1] == log[..i - 1];
  }

  /** Each packet's timestamp is the number of samples sent before it since the odometer was reset,
      modulo the width of the field. */
  lemma {:induction false} TimestampCountsSamples(log: seq<Sent>, i: nat)
    requires Ordered(log) && i < |log|
    ensures log[i].timestamp == SamplesIn(log[..i], log[i].segment) % 0x1_0000_0000
  {
    if i > 0 {
      var a, b := log[i - 1], log[i];
      assert Follows(a, b.sequence, b.timestamp, b.session, b.segment);
      assert log[..i][..i - 1] == log[..i - 1];
      if a.segment < b.segment {
        NotYetBegun(log, i, b.segment);
      } else {
        TimestampCountsSamples(log, i - 1);
        Add32IsExact(SamplesIn(log[..i - 1], b.segment), a.samples);
      }
    }
  }

  /** Within a session sequence numbers are consecutive, modulo the width of the field: a receiver
      can tell how many packets lie between two. */
  lemma {:induction false} SequenceCountsPackets(log: seq<Sent>, i: nat, j: nat)
    requires Ordered(log) && i <= j < |log| && log[i].session == log[j].session
    ensures log[j].sequence == (log[i].sequence + j - i) % 0x1_0000
  {
    if i == j {
      Low16IsIdentity(log[i].sequence);
    } else {
      var a, b := log[j - 1], log[j];
      assert Follows(a, b.sequence, b.timestamp, b.session, b.segment);
      SessionsAreOrdered(log, i, j - 1);
      SequenceCountsPackets(log, i, j - 1);
      Next16IsExact(log[i].sequence + j - 1 - i);
    }
  }

  lemma {:induction false} SessionsAreOrdered(log: seq<Sent>, i: nat, j: nat)
    requires Ordered(log) && i <= j < |log|
    ensures log[i].session <= log[j].session
  {
    if i < j {
      var a, b := log[j - 1], log[j];
      assert Follows(a, b.sequence, b.timestamp, b.session, b.segment);
      SessionsAreOrdered(log, i, j - 1);
    }
  }

  /** Once a packet is out, what has been sent runs ahead of the clock by no more than the
      threshold, the duration of that packet and a millisecond of rounding. */
  lemma WriteAheadIsBounded(log: seq<Sent>, clockRate: nat, i: nat)
    requires clockRate > 0 && Paced(log, clockRate) && i < |log|
    requires Millis(log[i].timestamp, clockRate) < 0x1_0000_0000
    ensures Millis(log[i].timestamp + log[i].samples, clockRate)
            <= log[i].elapsed + 10 + Millis(log[i].samples, clockRate) + 1
  {
    var x, y := 1000 * log[i].timestamp, 1000 * log[i].samples;
    QuotientBounds(x, clockRate);
    QuotientBounds(y, clockRate);
    QuotientBounds(x + y, clockRate);
    var p, q, r := x / clockRate, y / clockRate, (x + y) / clockRate;
    assert (p + q + 2) * clockRate == (p + 1) * clockRate + (q + 1) * clockRate;
    if r > p + q + 1 {
      ProductMonotone(p + q + 2, r, clockRate);
    }
  }

  class Transport {
    const clockRate: uint16
    const channels: nat
    const bytesPerSample: nat
    const rawFrame: uint16          // bytes the codec takes to encode one frame
    const preferredFrame: uint16    // as many whole raw frames as fit one packet, encoded
    /** The link stays up and the codec never refuses a whole frame. A hypothesis: nothing below
        relies on it except where it says so. */
    const steady: bool

    var timestamp: uint32
    var sequence: uint16

    ghost var log: seq<Sent>
    ghost var session: nat           // resets so far
    ghost var segment: nat           // resets of the odometer so far
    ghost var segmentSamples: nat    // samples sent since the last of them
    ghost var wrapped: bool          // the odometer has passed 32 bits at some time

    ghost predicate Valid()
      reads this
    {
      && clockRate > 0 && (channels == 1 || channels == 2) && bytesPerSample > 0
      && 0 < rawFrame <= preferredFrame
      && Ordered(log) && Paced(log, clockRate)
      && (log == [] ==> timestamp == 0)
      && (log != [] ==> Follows(log[|log| - 1], sequence, timestamp, session, segment))
      && (!wrapped ==> timestamp == segmentSamples)
    }

    /** A transport that has just been connected. */
    constructor (clockRate: uint16, channels: nat, bytesPerSample: nat, rawFrame: uint16,
                 preferredFrame: uint16, steady: bool, random: uint16)
      requires clockRate > 0 && (channels == 1 || channels == 2) && bytesPerSample > 0
      requires 0 < rawFrame <= preferredFrame
      ensures Valid() && log == [] && timestamp == 0 && segmentSamples == 0 && !wrapped
    {
      this.clockRate, this.channels, this.bytesPerSample := clockRate, channels, bytesPerSample;
      this.rawFrame, this.preferredFrame, this.steady := rawFrame, preferredFrame, steady;
      timestamp, sequence := 0, random;
      log, session, segment, segmentSamples, wrapped := [], 0, 0, 0, false;
    }

    /** The state of the link, which changes on its own. */
    method IsOpen() returns (up: bool)
      ensures steady ==> up
    {
      up := *;
      if steady {
        up := true;
      }
    }

    /** The play time of what was sent since the odometer was reset. */
    function PlayTime(): uint32
      requires clockRate > 0
      reads this
    {
      Low32(Millis(timestamp, clockRate))
    }

    method ResetOdometer()
      requires Valid()
      modifies this
      ensures Valid() && timestamp == 0 && segmentSamples == 0
      ensures log == old(log) && wrapped == old(wrapped)
      ensures sequence == old(sequence) && session == old(session)
    {
      timestamp := 0;
      segment, segmentSamples := segment + 1, 0;
    }

    /** Resets the odometer, and draws a new first sequence number. */
    method Reset(random: uint16)
      requires Valid()
      modifies this
      ensures Valid() && timestamp == 0 && segmentSamples == 0
      ensures log == old(log) && wrapped == old(wrapped)
      ensures sequence == random && session == old(session) + 1
    {
      ResetOdometer();
      sequence := random;
      session := session + 1;
    }

    /** How many whole samples, for all channels, so many bytes hold. */
    function SampleCount(length: nat): (samples: nat)
      requires (channels == 1 || channels == 2) && bytesPerSample > 0
      ensures samples <= length
    {
      QuotientFits(length, channels * bytesPerSample);
      length / (channels * bytesPerSample)
    }

    lemma SampleCountIsExact(length: nat)
      requires (channels == 1 || channels == 2) && bytesPerSample > 0
      ensures SampleCount(length) * (channels * bytesPerSample) <= length
      ensures length < (SampleCount(length) + 1) * (channels * bytesPerSample)
    {
      QuotientBounds(length, channels * bytesPerSample);
    }

    predicate IsWhole(length: nat)
      requires rawFrame > 0
    {
      length % rawFrame == 0
    }

    lemma WholeFramesExactly(length: nat)
      requires rawFrame > 0
      ensures IsWhole(length) <==> exists frames: nat :: length == frames * rawFrame
    {
      var quotient := length / rawFrame;
      QuotientFits(length, rawFrame);
      assert length == quotient * rawFrame + length % rawFrame;
      if frames: nat :| length == frames * rawFrame {
        QuotientIs(length, rawFrame, frames);
      }
    }

    /** The packet takes whole raw frames from the front of the data, as many as it likes. */
    method Ingest(length: uint16) returns (consumed: nat)
      requires rawFrame > 0
      ensures consumed <= length && IsWhole(consumed)
      ensures consumed > 0 ==> consumed >= rawFrame
      ensures steady && length >= rawFrame ==> consumed > 0
    {
      consumed := *;
      WholeFrame(rawFrame);
      if consumed > length || consumed % rawFrame != 0 || consumed < rawFrame {
        consumed := if steady && length >= rawFrame then rawFrame else 0;
      }
    }

    /** Sends one packet with as much of the data as it takes; whether the exchange on the socket
        succeeds makes no difference. */
    method Transmit(data: seq<byte>, ghost elapsed: nat) returns (consumed: nat)
      requires Valid() && |data| < 0x1_0000
      requires PlayTime() <= elapsed + WRITE_AHEAD_THRESHOLD
      modifies this
      ensures Valid() && (old(wrapped) ==> wrapped)
      ensures consumed <= |data| && IsWhole(consumed)
      ensures consumed > 0 ==> consumed >= rawFrame
      ensures steady && |data| >= rawFrame ==> consumed > 0
      ensures consumed == 0 ==> log == old(log) && timestamp == old(timestamp)
      ensures consumed == 0 ==> segmentSamples == old(segmentSamples) && wrapped == old(wrapped)
      ensures consumed > 0 ==>
        && log == old(log) + [Sent(old(sequence), old(timestamp), data[..consumed],
                                   SampleCount(consumed), elapsed, old(session), old(segment))]
        && timestamp == Add32(old(timestamp), SampleCount(consumed))
        && segmentSamples == old(segmentSamples) + SampleCount(consumed)
        && (wrapped <==> old(wrapped) || timestamp < old(timestamp))
    {
      hide Ordered, Paced, Millis, Low32, Next16;
      consumed := Ingest(|data|);
      if consumed > 0 {
        var samples := SampleCount(consumed);
        ghost var next := Sent(sequence, timestamp, data[..consumed], samples, elapsed, session, segment);
        LogGrows(log, next, clockRate);
        log := log + [next];
        segmentSamples := segmentSamples + samples;
        wrapped := wrapped || timestamp + samples >= 0x1_0000_0000;
        timestamp := Add32(timestamp, samples);
        sequence := Next16(sequence);
      }
    }
  }
}
