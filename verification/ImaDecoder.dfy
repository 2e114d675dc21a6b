/** The IMA ADPCM decoder behind the PCM voice codec: four bits a sample, low nibble first, with
    a predictor that saturates at plus and minus 32767. */
module ImaDecoder {
  import opened Words
  import opened VoiceReassembly
  import opened VoiceHistory

  type Nibble = n: int | 0 <= n < 16
  type Index = i: int | 0 <= i <= 88

  const INDEX_LUT: seq<int> := [-1, -1, -1, -1, 2, 4, 6, 8, -1, -1, -1, -1, 2, 4, 6, 8]

  type LaterStep = s: int | 8 <= s <= 32767 witness 8

  /** The table after its first entry, which is 7, eight entries at a time. */
  const STEPS_1: seq<LaterStep> := [8, 9, 10, 11, 12, 13, 14, 16]
  const STEPS_9: seq<LaterStep> := [17, 19, 21, 23, 25, 28, 31, 34]
  const STEPS_17: seq<LaterStep> := [37, 41, 45, 50, 55, 60, 66, 73]
  const STEPS_25: seq<LaterStep> := [80, 88, 97, 107, 118, 130, 143, 157]
  const STEPS_33: seq<LaterStep> := [173, 190, 209, 230, 253, 279, 307, 337]
  const STEPS_41: seq<LaterStep> := [371, 408, 449, 494, 544, 598, 658, 724]
  const STEPS_49: seq<LaterStep> := [796, 876, 963, 1060, 1166, 1282, 1411, 1552]
  const STEPS_57: seq<LaterStep> := [1707, 1878, 2066, 2272, 2499, 2749, 3024, 3327]
  const STEPS_65: seq<LaterStep> := [3660, 4026, 4428, 4871, 5358, 5894, 6484, 7132]
  const STEPS_73: seq<LaterStep> := [7845, 8630, 9493, 10442, 11487, 12635, 13899, 15289]
  const STEPS_81: seq<LaterStep> := [16818, 18500, 20350, 22385, 24623, 27086, 29794, 32767]

  function StepSize(i: Index): (step: uint16)
    ensures i == 0 ==> step == 7
    ensures i > 0 ==> 8 <= step <= 32767
  {
    if i == 0 then 7
    else if i < 9 then STEPS_1[i - 1]
    else if i < 17 then STEPS_9[i - 9]
    else if i < 25 then STEPS_17[i - 17]
    else if i < 33 then STEPS_25[i - 25]
    else if i < 41 then STEPS_33[i - 33]
    else if i < 49 then STEPS_41[i - 41]
    else if i < 57 then STEPS_49[i - 49]
    else if i < 65 then STEPS_57[i - 57]
    else if i < 73 then STEPS_65[i - 65]
    else if i < 81 then STEPS_73[i - 73]
    else STEPS_81[i - 81]
  }

  /** Predictor and position in the step table. */
  datatype State = State(pv: int16, si: Index)

  function Min(a: int, b: int): int { if a <= b then a else b }
  function Max(a: int, b: int): int { if a >= b then a else b }

  /** The three low bits of a nibble: its magnitude. */
  function Magnitude(n: Nibble): Nibble {
    if n >= 8 then n - 8 else n
  }

  /** The bits of a nibble, by their weight. */
  predicate Bit8(n: Nibble) { n >= 8 }
  predicate Bit4(n: Nibble) { Magnitude(n) >= 4 }
  predicate Bit2(n: Nibble) { 2 <= Magnitude(n) < 4 || 6 <= Magnitude(n) }
  predicate Bit1(n: Nibble) { var m := Magnitude(n); m == 1 || m == 3 || m == 5 || m == 7 }

  /** The distance the three low bits of a nibble stand for, built from truncated fractions of the
      step. */
  function Difference(step: nat, n: Nibble): nat {
    step / 8
    + (if Bit4(n) then step else 0)
    + (if Bit2(n) then step / 2 else 0)
    + (if Bit1(n) then step / 4 else 0)
  }

  /** One sample: the predictor moves by the difference and saturates, the index moves and stays
      inside the table. */
  function Next(s: State, n: Nibble): State {
    var d := Difference(StepSize(s.si), n);
    State(if Bit8(n) then Max(s.pv - d, -32767) else Min(s.pv + d, 32767),
          Max(Min(s.si + INDEX_LUT[n], 88), 0))
  }

  function After(s: State, ns: seq<Nibble>): State {
    if ns == [] then s else Next(After(s, ns[..|ns| - 1]), ns[|ns| - 1])
  }

  /** The reference decoder: one sample a nibble. */
  function Samples(s: State, ns: seq<Nibble>): (out: seq<int16>)
    ensures |out| == |ns|
  {
    if ns == [] then [] else Samples(s, ns[..|ns| - 1]) + [After(s, ns).pv]
  }

  /** Low nibble first. */
  function Nibbles(bytes: seq<byte>): (ns: seq<Nibble>)
    ensures |ns| == 2 * |bytes|
  {
    if bytes == [] then []
    else Nibbles(bytes[..|bytes| - 1]) + [bytes[|bytes| - 1] % 16, bytes[|bytes| - 1] / 16]
  }

  /** The steps grow strictly, each by a tenth but for rounding, from 7 to 29794; the last is the
      largest that fits. */
  lemma StepsGrowByTenth(i: Index)
    requires i < 87
    ensures StepSize(i) < StepSize(i + 1)
    ensures -8 <= 10 * StepSize(i + 1) - 11 * StepSize(i) <= 8
    ensures StepSize(0) == 7 && StepSize(87) == 29794 && StepSize(88) == 32767
  {
  }

  /** Small magnitudes lower the step index by one, large ones raise it by 2 to 8. */
  lemma IndexTable(n: Nibble)
    ensures INDEX_LUT[n] == if n % 8 >= 4 then 2 * (n % 8 - 3) else -1
  {
  }

  /** One sample, from the bits of the nibble: 4, 2 and 1 add the step, half and a quarter of it to an
      eighth, each rounded down; 8 is the sign. */
  lemma NextIsExact(s: State, n: Nibble)
    ensures var step := StepSize(s.si);
      var moved := step / 8 + n / 4 % 2 * step + n / 2 % 2 * (step / 2) + n % 2 * (step / 4);
      Next(s, n).pv ==
        if n < 8 then (if s.pv + moved <= 32767 then s.pv + moved else 32767)
        else if s.pv - moved >= -32767 then s.pv - moved else -32767
    ensures Next(s, n).si ==
        if n % 8 < 4 then (if s.si > 0 then s.si - 1 else 0)
        else if s.si + 2 * (n % 8 - 3) <= 88 then s.si + 2 * (n % 8 - 3) else 88
  {
    BitsAreExact(n);
    IndexTable(n);
    hide StepSize;
  }

  lemma BitsAreExact(n: Nibble)
    ensures n / 4 % 2 == if Bit4(n) then 1 else 0
    ensures n / 2 % 2 == if Bit2(n) then 1 else 0
    ensures n % 2 == if Bit1(n) then 1 else 0
  {
  }

  /** An output buffer whose first n samples are those of a reference, the rest untouched. */
  ghost predicate Written(out: seq<int16>, before: seq<int16>, samples: seq<int16>, n: nat) {
    && n <= |out| == |before| && n <= |samples|
    && (forall k :: 0 <= k < n ==> out[k] == samples[k])
    && (forall k :: n <= k < |out| ==> out[k] == before[k])
  }

  // ------------------------------------------------------------------ the decoder

  class PcmDecoder {
    const adpcm: Reassembler
    var pvDec: int16
    var siDec: Index       // a header's step index above 88 is outside the table

    constructor ()
      ensures adpcm.Valid() && adpcm.history == [] && fresh(adpcm) && fresh(adpcm.package)
    {
      adpcm := new Reassembler();
      pvDec, siDec := 0, 0;
    }

    ghost function View(): State
      reads this
    {
      State(pvDec, siDec)
    }

    method DecodeNibble(nibble: Nibble) returns (sample: int16)
      modifies `pvDec, `siDec
      ensures View() == Next(old(View()), nibble) && sample == pvDec
    {
      var step := StepSize(siDec);
      var cumDiff: uint16 := step / 8;
      var moved: int := siDec + INDEX_LUT[nibble];
      siDec := if moved < 0 then 0 else if moved > 88 then 88 else moved;
      if Bit4(nibble) {
        cumDiff := cumDiff + step;
      }
      if Bit2(nibble) {
        cumDiff := cumDiff + step / 2;
      }
      if Bit1(nibble) {
        cumDiff := cumDiff + step / 4;
      }
      assert cumDiff == Difference(step, nibble);
      if Bit8(nibble) {
        if pvDec < -32767 + cumDiff {
          pvDec := -32767;
        } else {
          pvDec := pvDec - cumDiff;
        }
      } else {
        if pvDec > 0x7fff - cumDiff {
          pvDec := 0x7fff;
        } else {
          pvDec := pvDec + cumDiff;
        }
      }
      sample := pvDec;
    }

    /** The two nibbles of a byte, low one first, are the next two samples of the reference. */
    method DecodeByte(dataIn: Packet, index: nat, ghost start: State, ghost samples: seq<int16>)
      returns (dec1: int16, dec2: int16)
      requires index < |dataIn|
      requires samples == Samples(start, Nibbles(dataIn))
      requires View() == After(start, Nibbles(dataIn)[..2 * index])
      modifies `pvDec, `siDec
      ensures View() == After(start, Nibbles(dataIn)[..2 * index + 2])
      ensures dec1 == samples[2 * index] && dec2 == samples[2 * index + 1]
    {
      NibblesOfByte(dataIn, index);
      SampleIsNext(start, Nibbles(dataIn), 2 * index);
      SampleIsNext(start, Nibbles(dataIn), 2 * index + 1);
      dec1 := DecodeNibble(dataIn[index] % 16);
      dec2 := DecodeNibble(dataIn[index] / 16);
    }

    /** Decodes a package into an output of lengthOut bytes, of which only the first half is
        ever used: a quarter of the length in bytes is taken for the room in samples. */
    method DecodeStream(dataIn: Packet, lengthOut: uint16, dataOut: array<int16>) returns (result: uint16)
      requires dataOut.Length == lengthOut / 2
      modifies `pvDec, `siDec, dataOut
      ensures View() == After(old(View()), Nibbles(dataIn))
      ensures var samples := Samples(old(View()), Nibbles(dataIn));
        Written(dataOut[..], old(dataOut[..]), samples, Min(2 * |dataIn|, lengthOut / 4))
      ensures forall k: nat :: k < dataOut.Length ==>
        dataOut[k] == if k < 2 * |dataIn| && k < lengthOut / 4 then Samples(old(View()), Nibbles(dataIn))[k]
                      else old(dataOut[k])
      ensures result == 4 * |dataIn| % 0x1_0000
    {
      hide Samples, Nibbles, After;
      DecodeInto(dataIn, lengthOut / 4, dataOut, Samples(View(), Nibbles(dataIn)));
      result := Low16(4 * |dataIn|);
    }

    /** The loop of DecodeStream, with room for so many samples. */
    method DecodeInto(dataIn: Packet, room: uint16, dataOut: array<int16>, ghost samples: seq<int16>)
      requires room <= dataOut.Length
      requires samples == Samples(View(), Nibbles(dataIn))
      modifies `pvDec, `siDec, dataOut
      ensures View() == After(old(View()), Nibbles(dataIn))
      ensures Written(dataOut[..], old(dataOut[..]), samples, Min(2 * |dataIn|, room))
    {
      ghost var start, before := View(), dataOut[..];
      assert After(start, Nibbles(dataIn)[..0]) == start && Nibbles(dataIn)[..2 * |dataIn|] == Nibbles(dataIn);
      hide Samples, After, Nibbles;
      var maxStorage := room;
      var output := 0;
      for index := 0 to |dataIn|
        invariant View() == After(start, Nibbles(dataIn)[..2 * index])
        invariant output == Min(2 * index, room) && maxStorage == room - output
        invariant Written(dataOut[..], before, samples, output)
      {
        var dec1, dec2 := DecodeByte(dataIn, index, start, samples);
        output, maxStorage := Store(dec1, dec2, output, maxStorage, dataOut, before, samples);
      }
    }

    /** Writes as many of two samples as there is room for. */
    method Store(dec1: int16, dec2: int16, output: nat, maxStorage: uint16, dataOut: array<int16>,
                 ghost before: seq<int16>, ghost samples: seq<int16>)
      returns (next: nat, left: uint16)
      requires output + maxStorage <= dataOut.Length
      requires Written(dataOut[..], before, samples, output)
      requires maxStorage > 0 ==> output + 1 < |samples| && samples[output] == dec1 && samples[output + 1] == dec2
      modifies dataOut
      ensures next == output + Min(2, maxStorage) && left == maxStorage - (next - output)
      ensures Written(dataOut[..], before, samples, next)
    {
      next, left := output, maxStorage;
      if maxStorage >= 2 {
        dataOut[output] := dec1;
        dataOut[output + 1] := dec2;
        next, left := output + 2, maxStorage - 2;
      } else if maxStorage >= 1 {
        dataOut[output] := dec1;
        next, left := output + 1, maxStorage - 1;
      }
    }

    /** Takes one packet. When it completes a package, the samples written are the reference decode of
        that package, from the big-endian signed predictor and the step index at the head of its header.
        `defined` is false if the header did not fit, or if its step index is not in the table; neither
        is checked. */
    method Decode(dataIn: Packet, lengthOut: uint16, dataOut: array<int16>) returns (result: uint16, defined: bool)
      requires adpcm.Valid() && dataOut.Length == lengthOut / 2
      modifies this, adpcm, adpcm.package, dataOut
      ensures defined <==>
        && (IsHeader(old(adpcm.history), dataIn) ==> |dataIn| <= 131)
        && (Completes(old(adpcm.history), dataIn) ==>
            |LastHeader(old(adpcm.history))| >= 20 && LastHeader(old(adpcm.history))[2] <= 88)
      ensures defined ==> adpcm.Valid() && adpcm.history == old(adpcm.history) + [dataIn]
      ensures defined && !Completes(old(adpcm.history), dataIn) ==>
        result == 0 && dataOut[..] == old(dataOut[..])
      ensures defined && Completes(old(adpcm.history), dataIn) ==>
        var header := LastHeader(old(adpcm.history));
        var high: int := header[0];
        var start := State(256 * high + header[1] - if high < 128 then 0 else 65536, header[2]);
        && result == 512
        && Written(dataOut[..], old(dataOut[..]), Samples(start, Nibbles(Package(old(adpcm.history), dataIn))),
                   Min(256, lengthOut / 4))
    {
      hide Run, Step, Sends, Drops, Filled, Accepts, Accepted, IsHeader, Completes, Collected, LastHeader, Package,
        Samples, Nibbles, Written, Loses;
      ghost var h := adpcm.history;
      HistoryGrows(h, dataIn, adpcm.mark);
      AnswersAreExact(h, dataIn);
      PacketMeansHistory(h, dataIn);
      result := 0;
      var complete;
      complete, defined := adpcm.AddFrame(dataIn);
      if defined && complete {
        defined := adpcm.stepIdx <= 88;
        if defined {
          SignedPredictor(adpcm.pred, LastHeader(h)[0], LastHeader(h)[1]);
          result := DecodePackage(lengthOut, dataOut);
        }
      }
    }

    /** Decodes the package that is there. */
    method DecodePackage(lengthOut: uint16, dataOut: array<int16>) returns (result: uint16)
      requires adpcm.Valid() && adpcm.stepIdx <= 88 && dataOut.Length == lengthOut / 2
      modifies `pvDec, `siDec, dataOut
      ensures result == 512
      ensures
        var start := State(Signed16(adpcm.pred), adpcm.stepIdx);
        Written(dataOut[..], old(dataOut[..]), Samples(start, Nibbles(adpcm.package[..])), Min(256, lengthOut / 4))
    {
      hide Samples, Nibbles, Written, Run, Accepted, After, Low16;
      PackageLength();
      pvDec, siDec := Signed16(adpcm.pred), adpcm.stepIdx;
      result := DecodeStream(adpcm.package[..], lengthOut, dataOut);
    }
  }

  lemma PackageLength()
    ensures Low16(4 * CAPACITY) == 512 && CAPACITY == 128
  {
  }

  lemma SignedPredictor(pred: uint16, high: byte, low: byte)
    requires pred / 256 == high && pred % 256 == low
    ensures var h: int := high; Signed16(pred) == 256 * h + low - if h < 128 then 0 else 65536
  {
  }

  /** The package that a packet completes: what has been collected, and the packet if there is room
      for it. */
  function Package(h: seq<Packet>, last: Packet): seq<byte> {
    if |Collected(h)| == 128 then Collected(h) else Collected(h) + last
  }

  /** What the object does with a packet, in terms of the history. */
  lemma PacketMeansHistory(h: seq<Packet>, p: Packet)
    requires Accepted(h)
    ensures Accepts(Run(h), p) <==> (IsHeader(h, p) ==> |p| <= 131)
    ensures Completes(h, p) ==>
      && |LastHeader(h)| >= 20 && Filled(Run(h), p) == Package(h, p) && |Package(h, p)| == 128
      && Run(h + [p]).pred == Run(h).pred && Run(h + [p]).stepIdx == Run(h).stepIdx
      && Run(h).pred / 256 == LastHeader(h)[0] && Run(h).pred % 256 == LastHeader(h)[1]
      && Run(h).stepIdx == LastHeader(h)[2]
  {
    HistoryGrows(h, p, 0);
    AnswersAreExact(h, p);
    RunMeansHistory(h);
    GroupGrows(TrailingRun(h), p);
  }

  // ------------------------------------------------------------------ properties of the reference

  /** The truncated fractions stay close to (2m + 1) eighths of the step, never above, and the
      sum fits the 16 bits it is kept in. Every table entry is such a step. */
  lemma DifferenceIsClose(step: nat, n: Nibble)
    requires step <= 32767
    ensures 0 <= (2 * (n % 8) + 1) * step - 8 * Difference(step, n) <= 17
    ensures Difference(step, n) < 0x1_0000
    ensures step % 8 == 0 ==> 8 * Difference(step, n) == (2 * (n % 8) + 1) * step
  {
    Fractions(step);
    DifferenceOf(step, n);
    hide Difference;
    assert n % 8 == Magnitude(n);
    match Magnitude(n) {
      case 0 => assert (2 * 0 + 1) * step == step;
      case 1 => assert (2 * 1 + 1) * step == 3 * step;
      case 2 => assert (2 * 2 + 1) * step == 5 * step;
      case 3 => assert (2 * 3 + 1) * step == 7 * step;
      case 4 => assert (2 * 4 + 1) * step == 9 * step;
      case 5 => assert (2 * 5 + 1) * step == 11 * step;
      case 6 => assert (2 * 6 + 1) * step == 13 * step;
      case 7 => assert (2 * 7 + 1) * step == 15 * step;
    }
  }

  /** The fractions that a magnitude adds up. */
  lemma DifferenceOf(step: nat, n: Nibble)
    ensures Difference(step, n) == step / 8 +
      match Magnitude(n) {
        case 0 => 0
        case 1 => step / 4
        case 2 => step / 2
        case 3 => step / 2 + step / 4
        case 4 => step
        case 5 => step + step / 4
        case 6 => step + step / 2
        case _ => step + step / 2 + step / 4
      }
  {
  }

  lemma Fractions(step: nat)
    ensures step - 7 <= 8 * (step / 8) <= step
    ensures step - 3 <= 4 * (step / 4) <= step
    ensures step - 1 <= 2 * (step / 2) <= step
    ensures step % 8 == 0 ==> 8 * (step / 8) == 4 * (step / 4) == 2 * (step / 2) == step
  {
  }

  /** A larger magnitude never moves the predictor less. */
  lemma DifferenceIsMonotone(step: nat, m: Nibble, n: Nibble)
    requires m <= n < 8
    ensures Difference(step, m) <= Difference(step, n)
  {
    assert step / 4 <= step / 2 && step / 2 + step / 4 <= step;
  }

  predicate AllZero(ns: seq<Nibble>) {
    ns == [] || (ns[|ns| - 1] == 0 && AllZero(ns[..|ns| - 1]))
  }

  /** The predictor leaves -32767..32767 only where a header put it at -32768, and stays there
      only while the step index is 0 and every nibble is 0: such a nibble moves it by nothing. */
  lemma {:induction false} PredictorSaturates(s: State, ns: seq<Nibble>)
    requires ns != []
    ensures After(s, ns).pv == -32768 <==> s.pv == -32768 && s.si == 0 && AllZero(ns)
    ensures s.si == 0 && AllZero(ns) ==> After(s, ns).si == 0
  {
    var front, n := ns[..|ns| - 1], ns[|ns| - 1];
    if front != [] {
      PredictorSaturates(s, front);
    }
    MovesUnlessZero(After(s, front), n);
  }

  lemma MovesUnlessZero(s: State, n: Nibble)
    ensures Next(s, n).pv == -32768 <==> s.pv == -32768 && s.si == 0 && n == 0
    ensures s.si == 0 && n == 0 ==> Next(s, n).si == 0
  {
    IndexTable(n);
  }

  /** Sample k is the predictor after k + 1 nibbles. */
  lemma {:induction false} SamplesAreStates(s: State, ns: seq<Nibble>)
    ensures forall k :: 0 <= k < |ns| ==> Samples(s, ns)[k] == After(s, ns[..k + 1]).pv
  {
    hide After;
    if ns != [] {
      var front := ns[..|ns| - 1];
      SamplesAreStates(s, front);
      assert ns[..|ns|] == ns;
      forall k | 0 <= k < |front|
        ensures Samples(s, ns)[k] == After(s, ns[..k + 1]).pv
      {
        assert front[..k + 1] == ns[..k + 1];
      }
    }
  }

  /** A decoder that starts from a wrong predictor is never further off later: saturation can
      only bring the two together, and the step sizes do not depend on the predictor. */
  lemma {:induction false} ErrorNeverGrows(s: State, t: State, ns: seq<Nibble>)
    requires s.si == t.si && s.pv <= t.pv
    ensures After(s, ns).si == After(t, ns).si
    ensures 0 <= After(t, ns).pv - After(s, ns).pv <= t.pv - s.pv
  {
    if ns != [] {
      ErrorNeverGrows(s, t, ns[..|ns| - 1]);
    }
  }

  function Flipped(ns: seq<Nibble>): (out: seq<Nibble>)
    ensures |out| == |ns|
  {
    if ns == [] then []
    else
      var n := ns[|ns| - 1];
      Flipped(ns[..|ns| - 1]) + [if n >= 8 then n - 8 else n + 8]
  }

  /** Flipping the sign bit of every nibble decodes the mirror image: saturation is symmetric. */
  lemma {:induction false} MirrorImage(s: State, ns: seq<Nibble>)
    requires s.pv > -32768
    ensures After(s, ns).pv > -32768
    ensures After(State(-s.pv, s.si), Flipped(ns)) == State(-After(s, ns).pv, After(s, ns).si)
  {
    if ns != [] {
      var front, n := ns[..|ns| - 1], ns[|ns| - 1];
      MirrorImage(s, front);
      MirrorStep(After(s, front), n, if n >= 8 then n - 8 else n + 8);
      assert Flipped(ns)[..|ns| - 1] == Flipped(front);
    }
  }

  lemma MirrorStep(s: State, n: Nibble, f: Nibble)
    requires s.pv > -32768 && (f == n + 8 || n == f + 8)
    ensures Next(s, n).pv > -32768
    ensures Next(State(-s.pv, s.si), f) == State(-Next(s, n).pv, Next(s, n).si)
  {
    hide Difference, StepSize;
    SameMagnitude(StepSize(s.si), n, f);
    IndexTable(n);
    IndexTable(f);
    assert f % 8 == Magnitude(n);
  }

  lemma SameMagnitude(step: nat, n: Nibble, f: Nibble)
    requires f == n + 8 || n == f + 8
    ensures Difference(step, f) == Difference(step, n)
  {
  }

  /** The answer of DecodeStream is the number of bytes written exactly when the output has room
      for four bytes a sample, twice what the samples take. */
  lemma AnswerIsBytesWritten(package: seq<byte>, lengthOut: uint16)
    requires 4 * |package| < 0x1_0000
    ensures 4 * |package| % 0x1_0000 == 2 * (if 2 * |package| <= lengthOut / 4 then 2 * |package| else lengthOut / 4)
            <==> lengthOut >= 8 * |package|
  {
  }

  lemma {:induction false} NibblesOfByte(bytes: seq<byte>, i: nat)
    requires i < |bytes|
    ensures Nibbles(bytes)[2 * i] == bytes[i] % 16 && Nibbles(bytes)[2 * i + 1] == bytes[i] / 16
  {
    if i < |bytes| - 1 {
      NibblesOfByte(bytes[..|bytes| - 1], i);
    }
  }

  /** Sample k is one nibble away from the state before it. */
  lemma SampleIsNext(s: State, ns: seq<Nibble>, k: nat)
    requires k < |ns|
    ensures After(s, ns[..k + 1]) == Next(After(s, ns[..k]), ns[k]) && After(s, ns[..0]) == s
    ensures Samples(s, ns)[k] == After(s, ns[..k + 1]).pv
  {
    SamplesAreStates(s, ns);
    assert ns[..k + 1][..k] == ns[..k];
  }
}
