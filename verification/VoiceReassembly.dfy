/** The 4MOD packet reassembler: a 128-byte ADPCM package is collected from one header packet
    (a 3-byte preamble and 17 bytes of payload), five packets of 20 bytes and a last one of 11.

    The class works in place, packet by packet, on counters and one buffer; Step is what one
    packet does to them. The history functions say what a package, a completion and a loss are
    in terms of the packets received so far, without any counter, and the lemmas prove that the
    two agree on every history. */
module VoiceReassembly {
  import opened Words

  /** A notification: any number of bytes a 16-bit length can describe. */
  type Packet = p: seq<byte> | |p| < 0x1_0000

  const FULL: nat := 20
  const PREAMBLE: nat := 3
  const CAPACITY: nat := 128

  predicate IsFull(p: Packet) {
    |p| >= FULL
  }

  // ------------------------------------------------------------------ one packet at a time

  /** What the reassembler remembers: how many packets of the group have come, their bytes, and
      the predictor and step index of the last header. */
  datatype Progress = Progress(frame: nat, collected: seq<byte>, pred: uint16, stepIdx: byte)

  const INITIAL := Progress(0, [], 0, 0)

  predicate Restarts(s: Progress, p: Packet) {
    IsFull(p) && (s.frame == 0 || s.frame >= 6)
  }

  /** A header may not overrun the package. */
  predicate Accepts(s: Progress, p: Packet) {
    Restarts(s, p) ==> |p| <= CAPACITY + PREAMBLE
  }

  function Step(s: Progress, p: Packet): Progress {
    if Restarts(s, p) then
      Progress(1, p[PREAMBLE..], Word(p[0], p[1]), p[2])
    else if IsFull(p) then
      s.(frame := s.frame + 1,
         collected := if |s.collected| + |p| < CAPACITY then s.collected + p else s.collected)
    else
      s.(frame := 0, collected := [])
  }

  /** The bytes in the package once a short packet has been copied in, if it fits. */
  function Filled(s: Progress, p: Packet): seq<byte> {
    if |s.collected| + |p| <= CAPACITY then s.collected + p else s.collected
  }

  predicate Sends(s: Progress, p: Packet) {
    !IsFull(p) && |Filled(s, p)| >= CAPACITY
  }

  predicate Drops(s: Progress, p: Packet) {
    if IsFull(p) then s.frame >= 6 else !Sends(s, p)
  }

  /** The state after a whole history. */
  function Run(h: seq<Packet>): Progress {
    if h == [] then INITIAL else Step(Run(h[..|h| - 1]), h[|h| - 1])
  }

  /** Every header in the history fitted. */
  predicate Accepted(h: seq<Packet>) {
    h != [] ==> Accepted(h[..|h| - 1]) && Accepts(Run(h[..|h| - 1]), h[|h| - 1])
  }

  /** How many packets of a history, from a position on, have been counted as a drop. */
  function DroppedSince(h: seq<Packet>, mark: nat): nat {
    if |h| <= mark then 0
    else DroppedSince(h[..|h| - 1], mark) + if Drops(Run(h[..|h| - 1]), h[|h| - 1]) then 1 else 0
  }

  lemma Low32Grows(n: nat)
    ensures Low32(n + 1) == Next32(Low32(n))
    ensures Low32(0) == 0
  {
  }

  lemma HistoryGrows(h: seq<Packet>, p: Packet, mark: nat)
    requires mark <= |h|
    ensures Run(h + [p]) == Step(Run(h), p)
    ensures Accepted(h + [p]) <==> Accepted(h) && Accepts(Run(h), p)
    ensures DroppedSince(h + [p], mark) == DroppedSince(h, mark) + if Drops(Run(h), p) then 1 else 0
  {
    assert (h + [p])[..|h|] == h;
  }

  class Reassembler {
    var stepIdx: byte
    var pred: uint16
    var frames: uint32
    var dropped: uint32
    var frame: byte
    var offset: byte
    const package: array<byte>

    ghost var history: seq<Packet>     // every packet since construction
    ghost var mark: nat                // how many of them came before the last reset

    ghost function View(): Progress
      requires offset <= package.Length
      reads this, package
    {
      Progress(frame, package[..offset], pred, stepIdx)
    }

    ghost predicate Ready()
      reads this, package
    {
      package.Length == CAPACITY && offset <= CAPACITY && frame <= 6
    }

    /** The two statistics count the packets and the drops since the last reset. */
    ghost predicate Counted()
      reads `frames, `dropped, `history, `mark
    {
      && mark <= |history|
      && frames == Low32(|history| - mark)
      && dropped == Low32(DroppedSince(history, mark))
    }

    ghost predicate Valid()
      reads this, package
    {
      Ready() && View() == Run(history) && Accepted(history) && Counted()
    }

    constructor ()
      ensures Valid() && fresh(package) && history == [] && frames == dropped == 0
    {
      stepIdx, pred, frames, dropped, frame, offset := 0, 0, 0, 0, 0, 0;
      package := new byte[CAPACITY];
      history, mark := [], 0;
      Low32Grows(0);
    }

    /** Starts counting anew; a package under way goes on. */
    method Reset()
      requires Valid()
      modifies `frames, `dropped, `mark
      ensures Valid() && frames == dropped == 0 && mark == |history|
    {
      frames, dropped, mark := 0, 0, |history|;
      Low32Grows(0);
    }

    /** Takes one packet; true when a package is complete. `fits` is false if the packet is a header
        that does not fit the package. There is no check for that in the source, and what is written
        behind the package is not part of this model: it ends there. */
    method AddFrame(data: Packet) returns (sendFrame: bool, fits: bool)
      requires Valid()
      modifies this, package
      ensures fits <==> Accepts(old(View()), data)
      ensures fits ==>
        && Valid() && history == old(history) + [data] && mark == old(mark)
        && sendFrame == Sends(old(View()), data)
        && (sendFrame ==> package[..] == Filled(old(View()), data))
        && frames == Next32(old(frames))
        && dropped == (if Drops(old(View()), data) then Next32(old(dropped)) else old(dropped))
    {
      hide Step, Drops, Sends, Filled, Accepts, Accepted, Run, DroppedSince, Low32;
      OnlyHeadersAreLong(View(), data);
      HistoryGrows(history, data, mark);
      Low32Grows(|history| - mark);
      Low32Grows(DroppedSince(history, mark));
      frames := Next32(frames);
      sendFrame, fits := false, true;
      if |data| >= 20 {
        ShortAlone(View(), data);
        if frame == 0 || frame >= 6 {
          fits := Begin(data);
          if !fits {
            return;
          }
        } else {
          Continue(data);
        }
      } else {
        sendFrame := Finish(data);
      }
      history := history + [data];
    }

    /** The first packet of a group; an unfinished group before it is lost. */
    method Begin(data: Packet) returns (fits: bool)
      requires Ready() && |data| >= 20 && (frame == 0 || frame >= 6)
      modifies package, `pred, `stepIdx, `offset, `frame, `dropped
      ensures fits <==> |data| <= 131
      ensures fits <==> Accepts(old(View()), data)
      ensures fits ==> Ready() && View() == Step(old(View()), data)
      ensures fits ==> pred / 256 == data[0] && pred % 256 == data[1] && stepIdx == data[2]
      ensures fits ==> frame == 1 && offset == |data| - 3 && package[..offset] == data[3..]
      ensures fits ==> dropped == if Drops(old(View()), data) then Next32(old(dropped)) else old(dropped)
      ensures fits ==> (Drops(old(View()), data) <==> old(frame) == 6)
    {
      fits := |data| - 3 <= CAPACITY;
      if !fits {
        return;
      }
      pred, stepIdx, offset := Word(data[0], data[1]), data[2], |data| - 3;
      if frame >= 6 {
        frame := 0;
        dropped := Next32(dropped);
      }
      CopyIn(0, data[3..]);
      frame := frame + 1;
    }

    /** A full packet within a group. */
    method Continue(data: Packet)
      requires Ready() && |data| >= 20 && 0 < frame < 6
      modifies package, `offset, `frame
      ensures Ready() && View() == Step(old(View()), data) && !Drops(old(View()), data)
      ensures frame == old(frame) + 1
      ensures package[..offset] == old(package[..offset]) + if |data| + old(offset) <= 127 then data else []
    {
      if |data| + offset < CAPACITY {
        CopyIn(offset, data);
        offset := offset + |data|;
      }
      frame := frame + 1;
    }

    /** A short packet ends the group, complete or not. */
    method Finish(data: Packet) returns (sendFrame: bool)
      requires Ready() && |data| < 20
      modifies package, `offset, `frame, `dropped
      ensures Ready() && View() == Step(old(View()), data)
      ensures sendFrame == Sends(old(View()), data)
      ensures sendFrame ==> package[..] == Filled(old(View()), data)
      ensures sendFrame <==> old(offset) + |data| == 128 || old(offset) == 128
      ensures sendFrame ==> package[..] == old(package[..offset]) + if old(offset) == 128 then [] else data
      ensures frame == offset == 0
      ensures dropped == if sendFrame then old(dropped) else Next32(old(dropped))
      ensures dropped == if Drops(old(View()), data) then Next32(old(dropped)) else old(dropped)
    {
      ghost var before := View();
      var copyLength := if |data| <= CAPACITY - offset then |data| else CAPACITY - offset;
      if copyLength == |data| {
        CopyIn(offset, data);
        offset := offset + |data|;
      }
      assert package[..offset] == Filled(before, data);
      sendFrame := offset >= CAPACITY;
      if !sendFrame {
        dropped := Next32(dropped);
      }
      frame, offset := 0, 0;
    }

    /** memcpy into the package. */
    method CopyIn(at: nat, data: seq<byte>)
      requires at + |data| <= package.Length
      modifies package
      ensures package[..at + |data|] == old(package[..at]) + data
    {
      forall i | 0 <= i < |data| {
        package[at + i] := data[i];
      }
    }
  }

  lemma OnlyHeadersAreLong(s: Progress, p: Packet)
    ensures !(|p| >= 20 && (s.frame == 0 || s.frame >= 6)) ==> Accepts(s, p)
  {
  }

  lemma ShortAlone(s: Progress, p: Packet)
    requires IsFull(p)
    ensures !Sends(s, p)
  {
  }
}
