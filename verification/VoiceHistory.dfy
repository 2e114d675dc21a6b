/** What the reassembler does, in terms of the packets received so far and nothing else. */
module VoiceHistory {
  import opened Words
  import opened VoiceReassembly

  ghost predicate AllFull(ps: seq<Packet>) {
    forall i :: 0 <= i < |ps| ==> IsFull(ps[i])
  }

  /** The unbroken run of full packets that ends a history. */
  function TrailingRun(h: seq<Packet>): (run: seq<Packet>)
    ensures AllFull(run)
  {
    if h == [] || !IsFull(h[|h| - 1]) then [] else TrailingRun(h[..|h| - 1]) + [h[|h| - 1]]
  }

  /** The packets of a run since its last restart: every sixth packet restarts. */
  function CurrentGroup(run: seq<Packet>): (group: seq<Packet>)
    ensures AllFull(run) ==> AllFull(group)
  {
    if run == [] then [] else run[(|run| - 1) / 6 * 6..]
  }

  function Joined(ps: seq<Packet>): seq<byte> {
    if ps == [] then [] else Joined(ps[..|ps| - 1]) + ps[|ps| - 1]
  }

  /** The bytes collected from a group: the header without its preamble, then every packet that
      leaves room for at least one more byte. */
  function Assemble(group: seq<Packet>): seq<byte>
    requires AllFull(group)
  {
    if group == [] then []
    else if |group| == 1 then group[0][PREAMBLE..]
    else
      var bytes := Assemble(group[..|group| - 1]);
      var next := group[|group| - 1];
      if |bytes| + |next| < CAPACITY then bytes + next else bytes
  }

  function Collected(h: seq<Packet>): seq<byte> {
    Assemble(CurrentGroup(TrailingRun(h)))
  }

  /** Packet p is the first of a group. */
  predicate IsHeader(h: seq<Packet>, p: Packet) {
    IsFull(p) && |TrailingRun(h)| % 6 == 0
  }

  /** The most recent header, if there was one. */
  function LastHeader(h: seq<Packet>): seq<byte> {
    if h == [] then []
    else if IsHeader(h[..|h| - 1], h[|h| - 1]) then h[|h| - 1]
    else LastHeader(h[..|h| - 1])
  }

  /** Packet p completes a package. */
  predicate Completes(h: seq<Packet>, p: Packet) {
    && !IsFull(p)
    && (|Collected(h)| + |p| == CAPACITY || |Collected(h)| >= CAPACITY)
  }

  /** Packet p shows that data was lost: it is short and completes nothing, or it starts a group
      while another one is unfinished. */
  predicate Loses(h: seq<Packet>, p: Packet) {
    if IsFull(p) then TrailingRun(h) != [] && IsHeader(h, p) else !Completes(h, p)
  }

  /** The packets of a history, from a position on, that show a loss. */
  ghost function LostSince(h: seq<Packet>, mark: nat): set<int> {
    set i | mark <= i < |h| && Loses(h[..i], h[i])
  }

  // ------------------------------------------------------------------ the counters mean the run

  /** TrailingRun is the maximal run: packets of 20 bytes or more up to the end, and none before it. */
  lemma {:induction false} TrailingRunIsMaximal(h: seq<Packet>)
    ensures var n := |TrailingRun(h)|;
      n <= |h| && TrailingRun(h) == h[|h| - n..] && (n < |h| ==> |h[|h| - n - 1]| < 20)
    ensures forall i :: 0 <= i < |TrailingRun(h)| ==> |TrailingRun(h)[i]| >= 20
  {
    if h != [] && IsFull(h[|h| - 1]) {
      TrailingRunIsMaximal(h[..|h| - 1]);
    }
  }

  lemma NextSixth(n: nat)
    ensures n % 6 == 0 ==> n / 6 * 6 == n
    ensures n > 0 && n % 6 == 0 ==> n - (n - 1) / 6 * 6 == 6
    ensures n % 6 != 0 ==> n > 0 && n / 6 * 6 == (n - 1) / 6 * 6 && 0 < n - (n - 1) / 6 * 6 < 6
  {
  }

  lemma GroupGrows(run: seq<Packet>, p: Packet)
    ensures CurrentGroup(run + [p]) == if |run| % 6 == 0 then [p] else CurrentGroup(run) + [p]
    ensures |CurrentGroup(run)| <= 6
    ensures |run| % 6 == 0 <==> |CurrentGroup(run)| == 0 || |CurrentGroup(run)| == 6
    ensures run == [] <==> |CurrentGroup(run)| == 0
  {
    NextSixth(|run|);
    assert (|run + [p]| - 1) / 6 * 6 == |run| / 6 * 6;
  }

  lemma Collects(h: seq<Packet>, p: Packet)
    requires IsFull(p)
    ensures Assemble(CurrentGroup(TrailingRun(h) + [p])) ==
      if IsHeader(h, p) then p[PREAMBLE..]
      else if |Collected(h)| + |p| < CAPACITY then Collected(h) + p else Collected(h)
  {
    var group := CurrentGroup(TrailingRun(h));
    GroupGrows(TrailingRun(h), p);
    if !IsHeader(h, p) {
      assert (group + [p])[..|group|] == group;
    }
  }

  /** The counters and the buffer of the reassembler are those of the trailing run, after every
      history. */
  lemma {:induction false} RunMeansHistory(h: seq<Packet>)
    ensures Run(h).frame == |CurrentGroup(TrailingRun(h))|
    ensures Run(h).collected == Collected(h)
    ensures LastHeader(h) != [] ==>
      && |LastHeader(h)| >= 20
      && Run(h).pred / 256 == LastHeader(h)[0] && Run(h).pred % 256 == LastHeader(h)[1]
      && Run(h).stepIdx == LastHeader(h)[2]
    ensures TrailingRun(h) != [] ==> LastHeader(h) == CurrentGroup(TrailingRun(h))[0]
  {
    if h != [] {
      var before, p := h[..|h| - 1], h[|h| - 1];
      RunMeansHistory(before);
      GroupGrows(TrailingRun(before), p);
      if IsFull(p) {
        Collects(before, p);
      }
    }
  }

  /** AddFrame answers true exactly when the history says a package is complete, and counts a
      drop exactly when it says data was lost. */
  lemma AnswersAreExact(h: seq<Packet>, p: Packet)
    requires Accepted(h)
    ensures Sends(Run(h), p) <==> Completes(h, p)
    ensures Drops(Run(h), p) <==> Loses(h, p)
    ensures |Collected(h)| <= CAPACITY
  {
    RunMeansHistory(h);
    CollectedFits(h);
    GroupGrows(TrailingRun(h), p);
  }

  lemma {:induction false} CollectedFits(h: seq<Packet>)
    requires Accepted(h)
    ensures |Run(h).collected| <= CAPACITY
  {
    if h != [] {
      CollectedFits(h[..|h| - 1]);
    }
  }

  lemma LostSinceGrows(h: seq<Packet>, p: Packet, mark: nat)
    requires mark <= |h|
    ensures LostSince(h + [p], mark) == LostSince(h, mark) + if Loses(h, p) then {|h|} else {}
  {
    var more := h + [p];
    assert more[..|h|] == h;
    forall i | mark <= i < |h|
      ensures i in LostSince(more, mark) <==> i in LostSince(h, mark)
    {
      assert more[..i] == h[..i];
    }
  }

  lemma {:induction false} DropsAreLosses(h: seq<Packet>, mark: nat)
    requires Accepted(h) && mark <= |h|
    ensures DroppedSince(h, mark) == |LostSince(h, mark)|
  {
    if mark == |h| {
      assert LostSince(h, mark) == {};
    } else {
      var before, p := h[..|h| - 1], h[|h| - 1];
      DropsAreLosses(before, mark);
      AnswersAreExact(before, p);
      LostSinceGrows(before, p, mark);
      assert before + [p] == h;
    }
  }

  /** The drop counter of a reassembler is the number of packets since its last reset that show a
      loss, and the frame counter the number of all of them, modulo the width of the fields. */
  lemma DropsAreCounted(r: Reassembler)
    requires r.Valid()
    ensures r.mark <= |r.history|
    ensures r.dropped == |LostSince(r.history, r.mark)| % 0x1_0000_0000
    ensures r.frames == (|r.history| - r.mark) % 0x1_0000_0000
  {
    DropsAreLosses(r.history, r.mark);
  }

  // ------------------------------------------------------------------ streams of 20-byte packets

  /** A stream as the remote control sends it: every packet is 20 bytes, or shorter. */
  ghost predicate Regular(h: seq<Packet>) {
    forall i :: 0 <= i < |h| ==> |h[i]| <= 20
  }

  lemma {:induction false} RegularGroup(group: seq<Packet>)
    requires Regular(group) && AllFull(group) && 0 < |group| <= 6
    ensures |Joined(group)| == 20 * |group|
    ensures Assemble(group) == Joined(group)[3..]
  {
    var front := group[..|group| - 1];
    if |group| == 1 {
      assert Joined(front) == [];
    } else {
      RegularGroup(front);
      assert Joined(group)[PREAMBLE..] == Joined(front)[PREAMBLE..] + group[|group| - 1];
    }
  }

  lemma {:induction false} RegularIsAccepted(h: seq<Packet>)
    requires Regular(h)
    ensures Accepted(h)
  {
    if h != [] {
      RegularIsAccepted(h[..|h| - 1]);
    }
  }

  /** The current group is the end of the history. */
  lemma GroupEndsHistory(h: seq<Packet>)
    ensures var n := |CurrentGroup(TrailingRun(h))|;
      n <= |h| && CurrentGroup(TrailingRun(h)) == h[|h| - n..]
  {
    var run := TrailingRun(h);
    TrailingRunIsMaximal(h);
    hide TrailingRun;
    var k := if run == [] then 0 else (|run| - 1) / 6 * 6;
    assert 0 <= k <= |run|;
    assert CurrentGroup(run) == run[k..];
    assert run[k..] == h[|h| - |run| + k..];
  }

  /** What has been collected of a regular stream. */
  lemma RegularCollected(h: seq<Packet>)
    requires Regular(h)
    ensures var n := |CurrentGroup(TrailingRun(h))|;
      && n <= |h| && |Run(h).collected| == (if n == 0 then 0 else 20 * n - 3)
      && (n > 0 ==> Run(h).collected == Joined(h[|h| - n..])[3..])
  {
    var group := CurrentGroup(TrailingRun(h));
    RunMeansHistory(h);
    GroupEndsHistory(h);
    GroupGrows(TrailingRun(h), []);
    if group != [] {
      RegularGroup(group);
    }
  }

  /** On every regular stream a packet completes a package exactly when it is 11 bytes long and
      the run of 20-byte packets just before it is a positive number of whole groups. The package
      is then the last six packets without the preamble, and those 11 bytes. */
  lemma RegularStream(h: seq<Packet>, p: Packet)
    requires Regular(h) && |p| <= 20
    ensures Accepted(h)
    ensures Sends(Run(h), p) <==>
      |p| == 11 && |TrailingRun(h)| > 0 && |TrailingRun(h)| % 6 == 0
    ensures Sends(Run(h), p) ==>
      && |h| >= 6
      && Filled(Run(h), p) == Joined(h[|h| - 6..])[3..] + p
      && |Filled(Run(h), p)| == 128
  {
    RegularIsAccepted(h);
    RegularCollected(h);
    GroupGrows(TrailingRun(h), p);
  }

  /** Its header is the first of those six. */
  lemma HeaderOfPackage(h: seq<Packet>, p: Packet)
    requires Regular(h) && |p| <= 20 && Sends(Run(h), p)
    ensures |h| >= 6 && |h[|h| - 6]| == 20 && LastHeader(h) == h[|h| - 6]
  {
    RegularStream(h, p);
    RunMeansHistory(h);
    GroupEndsHistory(h);
    GroupGrows(TrailingRun(h), p);
  }

  /** Resynchronisation: whatever was received before, six full packets and one of 11 bytes are
      delivered as one package exactly when what went before ends on a group boundary. */
  lemma Resynchronises(h: seq<Packet>, group: seq<Packet>, last: Packet)
    requires Regular(h) && |last| == 11
    requires |group| == 6 && forall i :: 0 <= i < 6 ==> |group[i]| == 20
    ensures Sends(Run(h + group), last) <==> |TrailingRun(h)| % 6 == 0
    ensures Sends(Run(h + group), last) ==> Filled(Run(h + group), last) == Joined(group)[3..] + last
  {
    hide Run, Sends, Filled, Joined, TrailingRun, Accepted;
    RegularStream(h + group, last);
    RunAppends(h, group);
    assert (h + group)[|h + group| - 6..] == group;
  }

  lemma {:induction false} RunAppends(h: seq<Packet>, full: seq<Packet>)
    requires AllFull(full)
    ensures TrailingRun(h + full) == TrailingRun(h) + full
  {
    if full == [] {
      assert h + full == h;
    } else {
      var front := full[..|full| - 1];
      RunAppends(h, front);
      assert (h + full)[..|h + full| - 1] == h + front;
    }
  }
}
