/** Reporting state changes through a decoupled job: every change overwrites the one closure the
    job holds and submits the job; the dispatch takes the closure out under the lock, and runs it
    after releasing the lock. It does not look whether there is one: an empty closure that is called
    ends the process. */
module StateReports {
  import opened WorkerJob

  datatype Option<T> = None | Some(value: T)

  /** How far a dispatch has come: not started, before its lock, holding what it took out, or
      after the call. */
  datatype Phase<V> = Resting | Entered | Holding(closure: Option<V>) | Called

  /** The reporter and the whole past of its state: every change made and every report delivered. */
  datatype Reporter<V> = Reporter(current: V, job: JobState, slot: Option<V>, phase: Phase<V>,
                                  changes: seq<V>, delivered: seq<V>)

  datatype Event<V> = Change(value: V) | Start | Take | Call | Finish

  /** A step either is done, or calls an empty closure. */
  datatype Outcome<V> = Done(value: Reporter<V>) | EmptyCall

  function Initial<V>(v: V): Reporter<V> {
    Reporter(v, IDLE, None, Resting, [], [])
  }

  /** One atomic step of any thread; one that cannot be made changes nothing. */
  function Step<V(==)>(s: Reporter<V>, e: Event<V>): Outcome<V> {
    match e
    case Change(v) =>
      if v == s.current then Done(s)
      else Done(s.(current := v, changes := s.changes + [v], slot := Some(v), job := Submitted(s.job)))
    case Start =>
      if s.job == SUBMITTED && s.phase == Resting then Done(s.(job := Started(s.job), phase := Entered)) else Done(s)
    case Take =>
      if s.phase == Entered then Done(s.(phase := Holding(s.slot), slot := None)) else Done(s)
    case Call =>
      if !s.phase.Holding? then Done(s)
      else if s.phase.closure.None? then EmptyCall
      else Done(s.(phase := Called, delivered := s.delivered + [s.phase.closure.value]))
    case Finish =>
      if s.phase == Called then Done(s.(phase := Resting, job := Finished(s.job))) else Done(s)
  }

  function Then<V(==)>(o: Outcome<V>, e: Event<V>): Outcome<V> {
    if o.Done? then Step(o.value, e) else o
  }

  function Run<V(==)>(s: Reporter<V>, es: seq<Event<V>>): Outcome<V> {
    if es == [] then Done(s) else Then(Run(s, es[..|es| - 1]), es[|es| - 1])
  }

  /** The first sequence comes from the second by leaving elements out. */
  predicate Subsequence<V(==)>(a: seq<V>, b: seq<V>) {
    a == []
    || (b != []
        && ((a[|a| - 1] == b[|b| - 1] && Subsequence(a[..|a| - 1], b[..|b| - 1]))
            || Subsequence(a, b[..|b| - 1])))
  }

  /** What has been delivered, and what will be. */
  function Promised<V>(s: Reporter<V>): seq<V> {
    Taken(s) + Waiting(s)
  }

  function Taken<V>(s: Reporter<V>): seq<V> {
    s.delivered + if s.phase.Holding? && s.phase.closure.Some? then [s.phase.closure.value] else []
  }

  function Waiting<V>(s: Reporter<V>): seq<V> {
    if s.slot.Some? then [s.slot.value] else []
  }

  /** A dispatch is still to look at the slot. */
  predicate Due<V>(s: Reporter<V>) {
    s.job == SUBMITTED || s.job == RESUBMIT || s.phase == Entered
  }

  ghost predicate Truthful<V>(s: Reporter<V>) {
    && Subsequence(Promised(s), s.changes)
    && (s.changes != [] ==>
          && s.current == s.changes[|s.changes| - 1]
          && Promised(s) != [] && Promised(s)[|Promised(s)| - 1] == s.current)
    && (s.slot.Some? ==> Due(s))
    && (s.job == IDLE || s.job == SUBMITTED <==> s.phase == Resting)
  }

  // ------------------------------------------------------------------ the reports are truthful

  lemma {:induction false} SubsequenceGrows<V>(a: seq<V>, b: seq<V>, v: V)
    requires Subsequence(a, b)
    ensures Subsequence(a + [v], b + [v]) && Subsequence(a, b + [v])
  {
    assert (a + [v])[..|a|] == a && (b + [v])[..|b|] == b;
  }

  lemma {:induction false} SubsequencePrefix<V>(a: seq<V>, v: V, b: seq<V>)
    requires Subsequence(a + [v], b)
    ensures Subsequence(a, b)
  {
    var front := b[..|b| - 1];
    assert (a + [v])[..|a|] == a;
    assert front + [b[|b| - 1]] == b;
    if Subsequence(a + [v], front) {
      SubsequencePrefix(a, v, front);
    }
    SubsequenceGrows(a, front, b[|b| - 1]);
  }

  lemma ChangeKeepsTruthful<V>(s: Reporter<V>, v: V)
    requires Truthful(s) && v != s.current
    ensures Truthful(Step(s, Change(v)).value)
  {
    hide Subsequence;
    var t := Step(s, Change(v)).value;
    var out := Taken(s);
    if s.slot.Some? {
      SubsequencePrefix(out, s.slot.value, s.changes);
    } else {
      assert Promised(s) == out;
    }
    SubsequenceGrows(out, s.changes, v);
    assert Promised(t) == out + [v];
  }

  lemma StepKeepsTruthful<V>(s: Reporter<V>, e: Event<V>)
    requires Truthful(s) && Step(s, e).Done?
    ensures Truthful(Step(s, e).value)
  {
    hide Subsequence;
    if e.Change? && e.value != s.current {
      ChangeKeepsTruthful(s, e.value);
    } else {
      assert Promised(Step(s, e).value) == Promised(s);
    }
  }

  lemma {:induction false} RunIsTruthful<V>(v: V, es: seq<Event<V>>)
    requires Run(Initial(v), es).Done?
    ensures Truthful(Run(Initial(v), es).value)
  {
    if es != [] {
      RunIsTruthful(v, es[..|es| - 1]);
      StepKeepsTruthful(Run(Initial(v), es[..|es| - 1]).value, es[|es| - 1]);
    }
  }

  /** Dropping what is still to come keeps a subsequence. */
  lemma DeliveredIsSubsequence<V>(s: Reporter<V>)
    requires Truthful(s)
    ensures Subsequence(s.delivered, s.changes)
  {
    var taken := if s.phase.Holding? && s.phase.closure.Some? then [s.phase.closure.value] else [];
    if s.slot.Some? {
      SubsequencePrefix(s.delivered + taken, s.slot.value, s.changes);
    } else {
      assert Promised(s) == s.delivered + taken;
    }
    if taken == [] {
      assert s.delivered + taken == s.delivered;
    } else {
      SubsequencePrefix(s.delivered, taken[0], s.changes);
    }
  }

  /** In every run that does not end in an empty call, the reports are a subsequence of the changes;
      and whenever the job neither waits nor runs, the last report is the current state. */
  lemma ReportsAreTruthful<V>(v: V, es: seq<Event<V>>)
    requires Run(Initial(v), es).Done?
    ensures var s := Run(Initial(v), es).value;
      && Subsequence(s.delivered, s.changes)
      && (s.job == IDLE && s.changes != [] ==>
            s.delivered != [] && s.delivered[|s.delivered| - 1] == s.current)
  {
    RunIsTruthful(v, es);
    var s := Run(Initial(v), es).value;
    DeliveredIsSubsequence(s);
    hide Subsequence, Run, Truthful;
    if s.job == IDLE {
      RestIsCurrent(s);
    }
  }

  /** A subsequence is a choice of positions in order. */
  lemma {:induction false} SubsequenceSelects<V>(a: seq<V>, b: seq<V>) returns (positions: seq<nat>)
    requires Subsequence(a, b)
    ensures |positions| == |a|
    ensures forall i :: 0 <= i < |a| ==> positions[i] < |b| && a[i] == b[positions[i]]
    ensures forall i :: 0 < i < |a| ==> positions[i - 1] < positions[i]
  {
    if a == [] {
      positions := [];
    } else if a[|a| - 1] == b[|b| - 1] && Subsequence(a[..|a| - 1], b[..|b| - 1]) {
      positions := SubsequenceSelects(a[..|a| - 1], b[..|b| - 1]);
      positions := positions + [|b| - 1];
    } else {
      positions := SubsequenceSelects(a, b[..|b| - 1]);
    }
  }

  /** In every run, the changes are the values that were set, but for those that were current already. */
  lemma {:induction false} ChangesAreReal<V>(v: V, es: seq<Event<V>>)
    requires Run(Initial(v), es).Done?
    ensures var s := Run(Initial(v), es).value;
      && s.changes == Real(v, es)
      && s.current == if s.changes == [] then v else s.changes[|s.changes| - 1]
  {
    if es != [] {
      ChangesAreReal(v, es[..|es| - 1]);
    }
  }

  /** The values set in a run that differ from the one before, or from the first one. */
  function Real<V(==)>(v: V, es: seq<Event<V>>): seq<V> {
    if es == [] then [] else
      var front, e := Real(v, es[..|es| - 1]), es[|es| - 1];
      var last := if front == [] then v else front[|front| - 1];
      if e.Change? && e.value != last then front + [e.value] else front
  }

  lemma RestIsCurrent<V>(s: Reporter<V>)
    requires Truthful(s) && s.job == IDLE
    ensures s.changes != [] ==> s.delivered != [] && s.delivered[|s.delivered| - 1] == s.current
  {
    hide Subsequence;
    assert Promised(s) == s.delivered;
  }

  // ------------------------------------------------------------------ the empty call

  /** What an event that had an effect was. */
  datatype Kind = CHANGE | START | TAKE | CALL | FINISH

  function KindOf<V>(e: Event<V>): Kind {
    match e
    case Change(_) => CHANGE
    case Start => START
    case Take => TAKE
    case Call => CALL
    case Finish => FINISH
  }

  /** The events of a run that had an effect, in order. */
  function Trace<V(==)>(s: Reporter<V>, es: seq<Event<V>>): seq<Kind> {
    if es == [] then [] else
      var front, e := es[..|es| - 1], es[|es| - 1];
      Trace(s, front) + if Then(Run(s, front), e) == Run(s, front) then [] else [KindOf(e)]
  }

  /** A trace without the changes that end it. */
  function BeforeChanges(t: seq<Kind>): seq<Kind> {
    if t != [] && t[|t| - 1] == CHANGE then BeforeChanges(t[..|t| - 1]) else t
  }

  predicate EndsIn(t: seq<Kind>, k: Kind) {
    t != [] && t[|t| - 1] == k
  }

  /** A dispatch has started, and a change has been made since, before it has taken its closure. */
  predicate Overtaken(t: seq<Kind>) {
    EndsIn(t, CHANGE) && EndsIn(BeforeChanges(t), START)
  }

  /** The trace ends in these events, in a row, after a dispatch that was overtaken. */
  predicate OvertakenThen(t: seq<Kind>, tail: seq<Kind>) {
    |tail| <= |t| && t[|t| - |tail|..] == tail && Overtaken(t[..|t| - |tail|])
  }

  /** The overtaken dispatch takes the closure of the change that overtook it, and the resubmission
      follows without another change. */
  const EMPTY_HANDED := [TAKE, CALL, FINISH, START, TAKE]

  lemma TailGrows(t: seq<Kind>, k: Kind, tail: seq<Kind>, j: Kind)
    ensures OvertakenThen(t + [k], tail + [j]) <==> k == j && OvertakenThen(t, tail)
  {
    var t', tail' := t + [k], tail + [j];
    if |tail| <= |t| {
      assert t'[|t| - |tail|..] == t[|t| - |tail|..] + [k];
      assert t'[..|t| - |tail|] == t[..|t| - |tail|];
      assert t'[|t| - |tail|..][..|tail|] == t[|t| - |tail|..] && tail'[..|tail|] == tail;
      assert t'[|t| - |tail|..][|tail|] == k && tail'[|tail|] == j;
    }
  }

  lemma TraceGrows(t: seq<Kind>, k: Kind)
    ensures BeforeChanges(t + [k]) == if k == CHANGE then BeforeChanges(t) else t + [k]
    ensures Overtaken(t + [k]) <==> k == CHANGE && EndsIn(BeforeChanges(t), START)
    ensures k != CHANGE ==> forall j :: EndsIn(BeforeChanges(t + [k]), j) <==> j == k
    ensures OvertakenThen(t, []) <==> Overtaken(t)
  {
    assert (t + [k])[..|t|] == t && t[..|t|] == t && t[|t|..] == [];
  }

  /** How far the steps to an empty call have come: the beginnings of EMPTY_HANDED. */
  const TAKEN := [TAKE]
  const CALLED := [TAKE, CALL]
  const FINISHED := [TAKE, CALL, FINISH]
  const RESTARTED := [TAKE, CALL, FINISH, START]

  lemma TailsGrow(t: seq<Kind>, k: Kind)
    ensures OvertakenThen(t + [k], TAKEN) <==> k == TAKE && Overtaken(t)
    ensures OvertakenThen(t + [k], CALLED) <==> k == CALL && OvertakenThen(t, TAKEN)
    ensures OvertakenThen(t + [k], FINISHED) <==> k == FINISH && OvertakenThen(t, CALLED)
    ensures OvertakenThen(t + [k], RESTARTED) <==> k == START && OvertakenThen(t, FINISHED)
    ensures OvertakenThen(t + [k], EMPTY_HANDED) <==> k == TAKE && OvertakenThen(t, RESTARTED)
  {
    assert [] + [TAKE] == TAKEN && TAKEN + [CALL] == CALLED && CALLED + [FINISH] == FINISHED;
    assert FINISHED + [START] == RESTARTED && RESTARTED + [TAKE] == EMPTY_HANDED;
    TraceGrows(t, k);
    TailGrows(t, k, [], TAKE);
    TailGrows(t, k, TAKEN, CALL);
    TailGrows(t, k, CALLED, FINISH);
    TailGrows(t, k, FINISHED, START);
    TailGrows(t, k, RESTARTED, TAKE);
  }

  /** What the trace says about the reporter. */
  predicate Mirrors<V(==)>(s: Reporter<V>, t: seq<Kind>) {
    && (s.phase.Entered? <==> EndsIn(BeforeChanges(t), START))
    && (s.phase.Entered? && s.job == RESUBMIT <==> Overtaken(t))
    && (s.phase.Holding? && s.job == RESUBMIT && s.slot.None? <==> OvertakenThen(t, TAKEN))
    && (s.phase.Called? && s.job == RESUBMIT && s.slot.None? <==> OvertakenThen(t, CALLED))
    && (s.job == SUBMITTED && s.slot.None? <==> OvertakenThen(t, FINISHED))
    && (s.phase.Entered? && s.slot.None? <==> OvertakenThen(t, RESTARTED))
    && (s.phase == Holding(None) <==> OvertakenThen(BeforeChanges(t), EMPTY_HANDED))
  }

  lemma StepMirrors<V>(s: Reporter<V>, t: seq<Kind>, e: Event<V>)
    requires Working(s) && Mirrors(s, t)
    requires Step(s, e).Done? && Step(s, e) != Done(s)
    ensures Mirrors(Step(s, e).value, t + [KindOf(e)])
  {
    hide OvertakenThen, Overtaken, EndsIn, BeforeChanges;
    TraceGrows(t, KindOf(e));
    TailsGrow(t, KindOf(e));
  }

  predicate Working<V>(s: Reporter<V>) {
    s.job == IDLE || s.job == SUBMITTED <==> s.phase == Resting
  }

  lemma TruthfulWorks<V>(s: Reporter<V>)
    requires Truthful(s)
    ensures Working(s) && (s.slot.Some? ==> Due(s))
  {
  }

  lemma {:induction false} TraceMirrors<V>(v: V, es: seq<Event<V>>)
    requires Run(Initial(v), es).Done?
    ensures Mirrors(Run(Initial(v), es).value, Trace(Initial(v), es))
  {
    if es != [] {
      var front, e := es[..|es| - 1], es[|es| - 1];
      TraceMirrors(v, front);
      RunIsTruthful(v, front);
      var s, t := Run(Initial(v), front).value, Trace(Initial(v), front);
      hide Mirrors, Truthful;
      if Step(s, e) == Done(s) {
        assert t + [] == t;
      } else {
        TruthfulWorks(s);
        StepMirrors(s, t, e);
      }
    }
  }

  /** Exactly when a call is empty: a change was made after one dispatch had started and before it
      took its closure, and no other before the next dispatch took its own. */
  lemma EmptyCallExactly<V>(v: V, es: seq<Event<V>>)
    requires Run(Initial(v), es).Done?
    ensures Step(Run(Initial(v), es).value, Call) == EmptyCall <==>
      OvertakenThen(BeforeChanges(Trace(Initial(v), es)), EMPTY_HANDED)
  {
    TraceMirrors(v, es);
    hide OvertakenThen, BeforeChanges, Overtaken, EndsIn, Trace, Run;
  }

  /** And so for whole runs: one ends in an empty call exactly if it makes a call at such a moment. */
  lemma {:induction false} RunFailsExactly<V>(v: V, es: seq<Event<V>>)
    ensures Run(Initial(v), es) == EmptyCall <==>
      exists i :: 0 <= i < |es| && CallsEmpty(v, es, i)
  {
    if es != [] {
      var n := |es| - 1;
      var front := es[..n];
      RunFailsExactly(v, front);
      forall i | 0 <= i < n
        ensures CallsEmpty(v, es, i) <==> CallsEmpty(v, front, i)
      {
        assert front[..i] == es[..i];
      }
      if Run(Initial(v), front).Done? {
        EmptyCallExactly(v, front);
        OnlyCallsFail(Run(Initial(v), front).value, es[n]);
        assert CallsEmpty(v, es, n) <==> Run(Initial(v), es) == EmptyCall;
      }
    }
  }

  ghost predicate CallsEmpty<V>(v: V, es: seq<Event<V>>, i: nat)
    requires i < |es|
  {
    && es[i] == Call && Run(Initial(v), es[..i]).Done?
    && OvertakenThen(BeforeChanges(Trace(Initial(v), es[..i])), EMPTY_HANDED)
  }

  lemma OnlyCallsFail<V>(s: Reporter<V>, e: Event<V>)
    ensures Step(s, e) == EmptyCall ==> e == Call
  {
  }

  lemma RunGrows<V>(s: Reporter<V>, es: seq<Event<V>>, e: Event<V>)
    ensures Run(s, es + [e]) == Then(Run(s, es), e)
  {
    assert (es + [e])[..|es|] == es;
  }

  /** Two changes do it, the second just after the dispatch of the first began. */
  lemma EmptyDispatchHappens()
    ensures Run(Initial(0), [Change(1), Start, Change(2), Take, Call, Finish, Start, Take, Call]) == EmptyCall
  {
    var s: Reporter<int> := Initial(0);
    var es: seq<Event<int>> := [];
    assert Run(s, es) == Done(s);
    hide Run;
    RunGrows(s, es, Change(1));
    es := es + [Change(1)];
    assert Run(s, es) == Done(Reporter(1, SUBMITTED, Some(1), Resting, [1], []));
    RunGrows(s, es, Start);
    es := es + [Start];
    assert Run(s, es) == Done(Reporter(1, EXECUTING, Some(1), Entered, [1], []));
    RunGrows(s, es, Change(2));
    es := es + [Change(2)];
    assert Run(s, es) == Done(Reporter(2, RESUBMIT, Some(2), Entered, [1, 2], []));
    RunGrows(s, es, Take);
    es := es + [Take];
    assert Run(s, es) == Done(Reporter(2, RESUBMIT, None, Holding(Some(2)), [1, 2], []));
    RunGrows(s, es, Call);
    es := es + [Call];
    assert Run(s, es) == Done(Reporter(2, RESUBMIT, None, Called, [1, 2], [2]));
    RunGrows(s, es, Finish);
    es := es + [Finish];
    assert Run(s, es) == Done(Reporter(2, SUBMITTED, None, Resting, [1, 2], [2]));
    RunGrows(s, es, Start);
    es := es + [Start];
    assert Run(s, es) == Done(Reporter(2, EXECUTING, None, Entered, [1, 2], [2]));
    RunGrows(s, es, Take);
    es := es + [Take];
    assert Run(s, es) == Done(Reporter(2, EXECUTING, None, Holding(None), [1, 2], [2]));
    RunGrows(s, es, Call);
    es := es + [Call];
    assert es == [Change(1), Start, Change(2), Take, Call, Finish, Start, Take, Call];
  }

  // ------------------------------------------------------------------ settling

  /** The steps of one whole dispatch; those that cannot be made change nothing. */
  function Round<V(==)>(o: Outcome<V>): Outcome<V> {
    Then(Then(Then(Then(o, Start), Take), Call), Finish)
  }

  /** The dispatch that runs, or the next one, will have nothing to call. */
  predicate Doomed<V(==)>(s: Reporter<V>) {
    || s.phase == Holding(None)
    || (Due(s) && s.slot.None?)
    || (s.phase.Entered? && s.job == RESUBMIT)
  }

  /** When the changes pause, the worker thread finishes what it is doing and runs the job at most
      once more. That ends in an empty call exactly if a dispatch has been overtaken and the closure
      that overtook it has not been replaced since; otherwise no report is lost, and the last one is
      the current state. */
  lemma ReportsSettle<V>(v: V, es: seq<Event<V>>)
    requires Run(Initial(v), es).Done?
    ensures var now, later := Run(Initial(v), es).value, Round(Round(Run(Initial(v), es)));
      && (later == EmptyCall <==> Doomed(now))
      && (later.Done? ==>
            && later.value.job == IDLE && later.value.current == now.current
            && Subsequence(later.value.delivered, now.changes)
            && (now.changes != [] ==>
                  later.value.delivered != [] && later.value.delivered[|later.value.delivered| - 1] == now.current))
  {
    RunIsTruthful(v, es);
    var now := Run(Initial(v), es).value;
    hide Subsequence, Run, Promised, Truthful, Round;
    RoundSettles(now);
    if Round(Done(now)).Done? {
      var next := Round(Done(now)).value;
      RoundSettles(next);
      RoundFromRest(next);
      if Round(Done(next)).Done? {
        DeliveredIsSubsequence(Round(Done(next)).value);
        RestIsCurrent(Round(Done(next)).value);
      }
    }
  }

  lemma RoundSettles<V>(s: Reporter<V>)
    requires Truthful(s)
    ensures var o := Round(Done(s));
      && (o == EmptyCall ==> Doomed(s))
      && (o.Done? ==>
            && Truthful(o.value) && o.value.phase == Resting
            && (o.value.job == IDLE || o.value.job == SUBMITTED)
            && o.value.current == s.current && o.value.changes == s.changes
            && (Doomed(s) <==> Doomed(o.value)))
  {
    hide Subsequence, Promised;
    var s1 := Step(s, Start);
    StepKeepsTruthful(s, Start);
    StepKeepsTruthful(s1.value, Take);
    var s2 := Step(s1.value, Take);
    if Step(s2.value, Call).Done? {
      StepKeepsTruthful(s2.value, Call);
      StepKeepsTruthful(Step(s2.value, Call).value, Finish);
    }
  }

  lemma RoundFromRest<V>(s: Reporter<V>)
    requires s.phase == Resting && (s.job == IDLE || s.job == SUBMITTED)
    ensures Round(Done(s)) == EmptyCall <==> Doomed(s)
    ensures Round(Done(s)).Done? ==> Round(Done(s)).value.job == IDLE
  {
  }

  /** The trace tells: some dispatch has been overtaken, and since then there have been only steps on
      the way to the empty call. */
  predicate OnTheWay(t: seq<Kind>) {
    || Overtaken(t)
    || OvertakenThen(t, TAKEN)
    || OvertakenThen(t, CALLED)
    || OvertakenThen(t, FINISHED)
    || OvertakenThen(t, RESTARTED)
    || OvertakenThen(BeforeChanges(t), EMPTY_HANDED)
  }

  lemma DoomedExactly<V>(v: V, es: seq<Event<V>>)
    requires Run(Initial(v), es).Done?
    ensures Doomed(Run(Initial(v), es).value) <==> OnTheWay(Trace(Initial(v), es))
  {
    TraceMirrors(v, es);
    RunIsTruthful(v, es);
    TruthfulWorks(Run(Initial(v), es).value);
    DoomMirrors(Run(Initial(v), es).value, Trace(Initial(v), es));
  }

  lemma DoomMirrors<V>(s: Reporter<V>, t: seq<Kind>)
    requires Mirrors(s, t) && Working(s)
    ensures Doomed(s) <==> OnTheWay(t)
  {
    hide OvertakenThen, Overtaken, BeforeChanges;
  }

  // ------------------------------------------------------------------ the job object

  /** The closure is the state it will report. */
  class DecoupledJob<V(==)> {
    var state: JobState
    var job: Option<V>
    ghost var delivered: seq<V>

    constructor ()
      ensures state == IDLE && job == None && delivered == []
    {
      state, job, delivered := IDLE, None, [];
    }

    ghost predicate Shows(s: Reporter<V>)
      reads this
    {
      state == s.job && job == s.slot && delivered == s.delivered
    }

    /** Submit, as the reporter calls it on a change of state. */
    method Submit(v: V, ghost s: Reporter<V>)
      requires Shows(s) && v != s.current
      modifies this
      ensures Shows(Step(s, Change(v)).value)
      ensures job == Some(v) && delivered == old(delivered)
      ensures state == if old(state) == EXECUTING || old(state) == RESUBMIT then RESUBMIT else SUBMITTED
    {
      job := Some(v);
      state := Submitted(state);
    }

    /** Dispatch, from the queue to its end, if nothing is submitted meanwhile: it delivers the closure
        that was stored last, unless there is none. */
    method Dispatch(ghost s: Reporter<V>) returns (survived: bool)
      requires Shows(s) && s.job == SUBMITTED && s.phase == Resting
      modifies this
      ensures survived <==> s.slot.Some?
      ensures survived <==> Round(Done(s)).Done?
      ensures survived ==> Shows(Round(Done(s)).value)
      ensures survived ==> state == IDLE && job == None && delivered == old(delivered) + [old(job).value]
    {
      state := Started(state);
      var doTheJob := job;
      job := None;
      survived := doTheJob.Some?;
      if survived {
        delivered := delivered + [doTheJob.value];
        state := Finished(state);
      }
    }
  }
}
