/** What every step of a run keeps. Each invariant is stated over one state and proved for every
    enabled step; `Invariants` carries them to every state of every run. */
module SyncInvariants {
  import opened Wrappers
  import opened Destination
  import opened SyncMachine
  import Breaker
  import ODataKey

  // ---- The window and the main thread's bookkeeping ----

  /** Every submitted row is exactly one of in flight, returned by `wait` or counted; the window
      is never exceeded; the main thread's position agrees with what is left to do. */
  ghost predicate Books(cfg: Config, s: State) {
    && |s.phases| == |cfg.items|
    && s.next <= |cfg.items|
    && (forall i | 0 <= i < |s.phases| :: s.phases[i].Unsubmitted? <==> i >= s.next)
    && (forall i | i in s.inFlight :: i < s.next && i !in s.pending && !s.phases[i].Collected?)
    && (forall i | i in s.pending :: i < s.next && s.phases[i].Done?)
    && (forall i | 0 <= i < s.next :: i in s.inFlight || i in s.pending || s.phases[i].Collected?)
    && |s.inFlight| <= Window(cfg)
    && match s.main
       case Submitting => s.pending == {}
       case Collecting => s.next < |cfg.items| && |s.inFlight| < Window(cfg)
       case Draining => s.next == |cfg.items| && s.pending == {}
       case Returned => s.next == |cfg.items| && s.pending == {} && s.inFlight == {}
       case Unwinding => true
       case Aborted => AllFinished(s)
  }

  /** Futures that `wait` returned and that are not counted yet are held in memory too. */
  ghost predicate WindowHolds(cfg: Config, s: State) {
    |s.inFlight| + |s.pending| <= Window(cfg)
  }

  lemma WindowKept(cfg: Config, s: State, step: Step)
    requires |s.phases| == |cfg.items| && WindowHolds(cfg, s) && Enabled(cfg, s, step)
    requires s.main.Submitting? ==> s.pending == {}
    requires s.main.Collecting? ==> |s.inFlight| < Window(cfg)
    ensures WindowHolds(cfg, Apply(cfg, s, step))
  {
    match step
    case Wait(done) => SplitSize(s.inFlight, done);
    case Collect(i) => CollectKeepsWindow(cfg, s, i);
    case Submit => SubmitKeepsWindow(cfg, s);
    case _ => assert Apply(cfg, s, step).inFlight == s.inFlight && Apply(cfg, s, step).pending == s.pending;
  }

  lemma CollectKeepsWindow(cfg: Config, s: State, i: nat)
    requires |s.phases| == |cfg.items| && WindowHolds(cfg, s) && Enabled(cfg, s, Collect(i))
    ensures WindowHolds(cfg, Apply(cfg, s, Collect(i)))
  {
    SmallerWithout(s.inFlight, i, {i});
    SmallerWithout(s.pending, i, {i});
  }

  lemma SubmitKeepsWindow(cfg: Config, s: State)
    requires |s.phases| == |cfg.items| && Enabled(cfg, s, Submit)
    requires s.pending == {} && |s.inFlight| < Window(cfg)
    ensures WindowHolds(cfg, Apply(cfg, s, Submit))
  {
  }

  lemma SplitSize(rows: set<nat>, part: set<nat>)
    requires part <= rows
    ensures |rows - part| + |part| == |rows|
  {
    assert rows == (rows - part) + part;
  }

  lemma BooksKept(cfg: Config, s: State, step: Step)
    requires Books(cfg, s) && Enabled(cfg, s, step)
    ensures Books(cfg, Apply(cfg, s, step))
  {
    match step
    case Wait(done) => WaitKeepsBooks(cfg, s, done);
    case Collect(i) => CollectKeepsBooks(cfg, s, i);
    case Submit => SubmitKeepsBooks(cfg, s);
    case Drain =>
    case Return =>
    case Unwind =>
    case _ => TaskKeepsBooks(cfg, s, step);
  }

  /** A task that is under way stays in flight. */
  lemma TaskKeepsBooks(cfg: Config, s: State, step: Step)
    requires Books(cfg, s) && Enabled(cfg, s, step)
    requires step.Start? || step.Check? || step.Land? || step.Respond? || step.Record? || step.Finish? || step.Stray?
    ensures Books(cfg, Apply(cfg, s, step))
  {
    if !step.Stray? {
      var i, p := step.row, Apply(cfg, s, step).phases[step.row];
      assert !s.phases[i].Unsubmitted? && !Finished(s.phases[i]) && !p.Unsubmitted? && !p.Collected?;
      assert s.main != Aborted;
    }
  }

  lemma WaitKeepsBooks(cfg: Config, s: State, done: set<nat>)
    requires Books(cfg, s) && Enabled(cfg, s, Wait(done))
    ensures Books(cfg, Apply(cfg, s, Wait(done)))
  {
    if s.inFlight != {} {
      var i :| i in done;
      SmallerWithout(s.inFlight, i, done);
    }
  }

  lemma CollectKeepsBooks(cfg: Config, s: State, i: nat)
    requires Books(cfg, s) && Enabled(cfg, s, Collect(i))
    ensures Books(cfg, Apply(cfg, s, Collect(i)))
  {
    if s.phases[i].outcome != Raised {
      SmallerWithout(s.inFlight, i, {i});
      CountingKeepsBooks(cfg, s, i, Apply(cfg, s, Collect(i)));
    }
  }

  lemma CountingKeepsBooks(cfg: Config, s: State, i: nat, s': State)
    requires Books(cfg, s) && i < s.next && s.phases[i].Done? && (s.main.Collecting? || s.main.Draining?)
    requires s'.phases == s.phases[i := Collected(s.phases[i].outcome)]
    requires s'.next == s.next && s'.main == s.main
    requires s'.inFlight == s.inFlight - {i} && s'.pending == s.pending - {i}
    requires |s'.inFlight| <= |s.inFlight|
    ensures Books(cfg, s')
  {
  }

  lemma SubmitKeepsBooks(cfg: Config, s: State)
    requires Books(cfg, s) && Enabled(cfg, s, Submit)
    ensures Books(cfg, Apply(cfg, s, Submit))
  {
  }

  lemma SmallerWithout(rows: set<nat>, i: nat, gone: set<nat>)
    requires i in gone
    ensures |rows - gone| <= |rows|
    ensures i in rows ==> |rows - gone| < |rows|
  {
    assert rows - gone <= rows - {i} * rows;
    CardinalitySubset(rows - gone, rows - {i} * rows);
  }

  lemma CardinalitySubset(a: set<nat>, b: set<nat>)
    requires a <= b
    ensures |a| <= |b|
  {
    assert b == a + (b - a);
  }

  // ---- Outcomes, the pool and the breaker ----

  predicate WellTyped(p: Phase) {
    match p
    case Responded(answer) => Success(answer) || answer == Failed
    case Collected(outcome) => outcome != Raised
    case _ => true
  }

  /** The breaker is what its history makes it; the history holds one entry for each call that
      succeeded or failed; a row is skipped only once the breaker is tripped; and the outcomes
      recorded after the trip, with the requests still out, number less than the concurrency. */
  ghost predicate Accounts(cfg: Config, s: State) {
    && cfg.workers >= 1
    && (forall i | 0 <= i < |s.phases| :: WellTyped(s.phases[i]))
    && Sum(Busy, s.phases) <= cfg.workers
    && s.breaker == Breaker.Replay(cfg.threshold, s.history)
    && Breaker.Failures(s.history) == Sum(FailedCalls, s.phases)
    && |s.history| == Sum(FailedCalls, s.phases) + Sum(GoodCalls, s.phases)
    && (s.breaker.tripped ==>
          Breaker.Overrun(cfg.threshold, s.history) + Sum(Exposed, s.phases) < Concurrency(cfg))
    && (!s.breaker.tripped ==>
          forall i | 0 <= i < |s.phases| :: Decision(s.phases[i]) != Some(Skipped))
  }

  /** Busy tasks are in flight, so the window bounds them as well as the pool does. */
  lemma BusyBound(cfg: Config, s: State)
    requires Books(cfg, s) && Accounts(cfg, s)
    ensures Sum(Busy, s.phases) <= Concurrency(cfg)
  {
    SumWithin(Busy, s.phases, s.inFlight);
  }

  lemma AccountsKept(cfg: Config, s: State, step: Step)
    requires Books(cfg, s) && Accounts(cfg, s) && Enabled(cfg, s, step)
    ensures Accounts(cfg, Apply(cfg, s, step))
  {
    match step
    case Record(i) => RecordKeepsAccounts(cfg, s, i);
    case Check(i) => CheckKeepsAccounts(cfg, s, i);
    case _ => QuietStepKeepsAccounts(cfg, s, step);
  }

  lemma QuietStepKeepsAccounts(cfg: Config, s: State, step: Step)
    requires Books(cfg, s) && Accounts(cfg, s) && Enabled(cfg, s, step)
    requires !step.Record? && !step.Check?
    ensures Accounts(cfg, Apply(cfg, s, step))
  {
    var i, s' := RowOf(s, step), Apply(cfg, s, step);
    StepMovesOneRow(cfg, s, step);
    assert s'.breaker == s.breaker && s'.history == s.history;
    if RowMoves(s, s', i) {
      assert !s.phases[i].Responded? && !s.phases[i].Started?;
      QuietMoveKeepsAccounts(cfg, s, s', i);
    }
  }

  /** A move that records nothing and sends nothing. */
  lemma QuietMoveKeepsAccounts(cfg: Config, s: State, s': State, i: nat)
    requires Accounts(cfg, s) && RowMoves(s, s', i)
    requires s'.breaker == s.breaker && s'.history == s.history
    requires !s.phases[i].Responded? && (s.phases[i].Started? ==> s.breaker.tripped)
    requires s.phases[i].Queued? ==> Sum(Busy, s.phases) < cfg.workers
    ensures Accounts(cfg, s')
  {
    var p, p' := s.phases[i], s'.phases[i];
    UpdateSums(s, i, p');
    assert Score(FailedCalls, p') == Score(FailedCalls, p) && Score(GoodCalls, p') == Score(GoodCalls, p);
    assert Score(Exposed, p') <= Score(Exposed, p);
    assert Score(Busy, p') <= Score(Busy, p) || p.Queued?;
  }

  lemma UpdateSums(s: State, i: nat, p: Phase)
    requires i < |s.phases|
    ensures forall t ::
              Sum(t, s.phases[i := p]) + Score(t, s.phases[i]) == Sum(t, s.phases) + Score(t, p)
  {
    forall t
      ensures Sum(t, s.phases[i := p]) + Score(t, s.phases[i]) == Sum(t, s.phases) + Score(t, p)
    {
      SumUpdate(t, s.phases, i, p);
    }
  }

  lemma CheckKeepsAccounts(cfg: Config, s: State, i: nat)
    requires Accounts(cfg, s) && |s.phases| == |cfg.items| && Enabled(cfg, s, Check(i))
    ensures Accounts(cfg, Apply(cfg, s, Check(i)))
  {
    if s.breaker.tripped {
      QuietMoveKeepsAccounts(cfg, s, Apply(cfg, s, Check(i)), i);
    } else {
      UpdateSums(s, i, Requesting(NotYet));
    }
  }

  lemma RecordKeepsAccounts(cfg: Config, s: State, i: nat)
    requires Books(cfg, s) && Accounts(cfg, s) && Enabled(cfg, s, Record(i))
    ensures Accounts(cfg, Apply(cfg, s, Record(i)))
  {
    BusyBound(cfg, s);
    RecordingKeepsAccounts(cfg, s, i, Apply(cfg, s, Record(i)));
  }

  lemma RecordingKeepsAccounts(cfg: Config, s: State, i: nat, s': State)
    requires Accounts(cfg, s) && Sum(Busy, s.phases) <= Concurrency(cfg)
    requires i < |s.phases| && s.phases[i].Responded?
    requires s'.phases == s.phases[i := Settled(s.phases[i].answer)]
    requires var ok := s.phases[i].answer != Failed;
             s'.history == s.history + [ok] && s'.breaker == Breaker.Record(cfg.threshold, s.breaker, ok)
    ensures Accounts(cfg, s')
  {
    UpdateSums(s, i, s'.phases[i]);
    assert s'.history[..|s'.history| - 1] == s.history;
    if !s.breaker.tripped {
      SumBelow(Exposed, Busy, s'.phases, i);
    }
  }

  // ---- The queue ----

  /** Tasks are taken oldest first. */
  predicate Fifo(s: State) {
    forall i, j | 0 <= i < j < |s.phases| ::
      s.phases[i].Queued? ==> s.phases[j].Queued? || s.phases[j].Unsubmitted?
  }

  lemma FifoKept(cfg: Config, s: State, step: Step)
    requires Books(cfg, s) && Fifo(s) && Enabled(cfg, s, step)
    ensures Fifo(Apply(cfg, s, step))
  {
    StepMovesOneRow(cfg, s, step);
  }

  // ---- The wire and the destination ----

  predicate Issued(p: Phase) {
    p.Requesting? || p.Responded? || (Decision(p).Some? && Decision(p) != Some(Skipped))
  }

  /** The row's own request is known to have taken effect. */
  predicate Confirmed(p: Phase) {
    || (p.Requesting? && p.landing != NotYet)
    || (p.Responded? && Success(p.answer))
    || (Decision(p).Some? && Success(Decision(p).value))
  }

  /** A request is on the wire only for a row whose task found the breaker closed, in this run or
      an earlier one; only such a request takes effect; a confirmed one has. */
  ghost predicate Traffic(cfg: Config, carried: set<nat>, s: State) {
    && (forall i | i in s.wire :: i < |cfg.items|)
    && (forall i | 0 <= i < |s.phases| :: i in s.wire <==> i in carried || Issued(s.phases[i]))
    && s.touched <= s.wire
    && (forall i | 0 <= i < |s.phases| :: Confirmed(s.phases[i]) ==> i in s.touched)
  }

  lemma TrafficKept(cfg: Config, carried: set<nat>, s: State, step: Step)
    requires Books(cfg, s) && (forall i | 0 <= i < |s.phases| :: WellTyped(s.phases[i]))
    requires Traffic(cfg, carried, s) && Enabled(cfg, s, step)
    ensures Traffic(cfg, carried, Apply(cfg, s, step))
  {
    var s' := Apply(cfg, s, step);
    StepMovesOneRow(cfg, s, step);
    TrafficOf(cfg, s, step);
    MoveKeepsTraffic(cfg, carried, s, s', RowOf(s, step));
  }

  /** A request is sent when a task passes the breaker, and may land whenever it is out. */
  ghost predicate Sends(s: State, s': State, i: nat) {
    var sent := i < |s.phases| == |s'.phases| && s.phases[i].Started? && s'.phases[i].Requesting?;
    && s'.wire == (if sent then s.wire + {i} else s.wire)
    && (s'.touched == s.touched || (s'.touched == s.touched + {i} && i in s'.wire))
    && (i < |s.phases| == |s'.phases| && s'.phases != s.phases
        && s.phases[i].Requesting? && s'.phases[i].Requesting? ==>
          i in s'.touched)
  }

  lemma TrafficOf(cfg: Config, s: State, step: Step)
    requires |s.phases| == |cfg.items| && Enabled(cfg, s, step)
    requires step.Land? ==> step.row in s.wire
    ensures Sends(s, Apply(cfg, s, step), RowOf(s, step))
  {
  }

  lemma MoveKeepsTraffic(cfg: Config, carried: set<nat>, s: State, s': State, i: nat)
    requires |s.phases| == |cfg.items| && (forall j | 0 <= j < |s.phases| :: WellTyped(s.phases[j]))
    requires Traffic(cfg, carried, s) && Sends(s, s', i)
    requires s'.phases == s.phases || RowMoves(s, s', i)
    ensures Traffic(cfg, carried, s')
  {
  }

  /** The destination is what it was with the rows that took effect laid over it, in no order. */
  ghost predicate Delivered(cfg: Config, before: Store, s: State) {
    s.dest == Overlay(before, ItemsAt(cfg.items, s.touched))
  }

  ghost predicate Addressable(cfg: Config) {
    DistinctKeys(cfg.items) && ODataKey.PlainNames(cfg.endpoint)
  }

  lemma PatchDelivers(cfg: Config, before: Store, s: State, i: nat)
    requires Addressable(cfg) && Delivered(cfg, before, s) && i < |cfg.items|
    ensures Delivered(cfg, before, Patched(cfg, s, i))
  {
    var it := cfg.items[i];
    SendIsUpsert(cfg.endpoint, s.dest, it);
    DistinctMeansOnePerKey(cfg.items, s.touched + {i});
    assert ItemsAt(cfg.items, s.touched + {i}) == ItemsAt(cfg.items, s.touched) + {it};
    UpsertExtends(before, ItemsAt(cfg.items, s.touched), it);
  }

  lemma DeliveredKept(cfg: Config, before: Store, s: State, step: Step)
    requires Addressable(cfg) && |s.phases| == |cfg.items|
    requires Delivered(cfg, before, s) && Enabled(cfg, s, step)
    ensures Delivered(cfg, before, Apply(cfg, s, step))
  {
    match step
    case Land(i) => PatchDelivers(cfg, before, s, i);
    case Stray(i) => PatchDelivers(cfg, before, s, i);
    case _ =>
  }

  // ---- An exception in a task ----

  ghost predicate SomeRaised(s: State) {
    exists i :: 0 <= i < |s.phases| && s.phases[i] == Done(Raised)
  }

  /** The main thread leaves by exception only because a task raised. */
  ghost predicate Blame(s: State) {
    s.main.Unwinding? || s.main.Aborted? ==> SomeRaised(s)
  }

  lemma BlameKept(cfg: Config, s: State, step: Step)
    requires |s.phases| == |cfg.items| && Blame(s) && Enabled(cfg, s, step)
    ensures Blame(Apply(cfg, s, step))
  {
    var s' := Apply(cfg, s, step);
    if step.Collect? && s.phases[step.row].outcome == Raised {
      assert s'.phases[step.row] == Done(Raised);
    } else if SomeRaised(s) {
      var i :| 0 <= i < |s.phases| && s.phases[i] == Done(Raised);
      if s.main.Unwinding? || s.main.Aborted? {
        assert s'.phases[i] == Done(Raised);
      }
    }
  }

  // ---- All of them, in every state of every run ----

  ghost predicate Inv(cfg: Config, carried: set<nat>, s: State) {
    && Books(cfg, s)
    && WindowHolds(cfg, s)
    && Accounts(cfg, s)
    && Fifo(s)
    && Traffic(cfg, carried, s)
    && Blame(s)
  }

  lemma InitialInv(cfg: Config, dest: Store, carried: set<nat>)
    requires WellFormed(cfg, carried)
    ensures Inv(cfg, carried, Initial(cfg, dest, carried))
    ensures Delivered(cfg, dest, Initial(cfg, dest, carried))
  {
    var s := Initial(cfg, dest, carried);
    forall t | t != Work
      ensures Sum(t, s.phases) == 0
    {
      SumZero(t, s.phases);
    }
    assert ItemsAt(cfg.items, {}) == {};
    OverlayNothing(dest);
  }

  lemma InvKept(cfg: Config, carried: set<nat>, s: State, step: Step)
    requires Inv(cfg, carried, s) && Enabled(cfg, s, step)
    ensures Inv(cfg, carried, Apply(cfg, s, step))
  {
    BooksKept(cfg, s, step);
    WindowKept(cfg, s, step);
    AccountsKept(cfg, s, step);
    FifoKept(cfg, s, step);
    TrafficKept(cfg, carried, s, step);
    BlameKept(cfg, s, step);
  }

  lemma {:induction false} Invariants(cfg: Config, dest: Store, carried: set<nat>, steps: seq<Step>, s: State)
    requires Runs(cfg, dest, carried, steps, s)
    ensures Inv(cfg, carried, s)
    ensures Addressable(cfg) ==> Delivered(cfg, dest, s)
  {
    InitialInv(cfg, dest, carried);
    if steps != [] {
      var init, before := LastStep(cfg, dest, carried, steps, s);
      Invariants(cfg, dest, carried, init, before);
      InvKept(cfg, carried, before, steps[|steps| - 1]);
      if Addressable(cfg) {
        DeliveredKept(cfg, dest, before, steps[|steps| - 1]);
      }
    }
  }
}
