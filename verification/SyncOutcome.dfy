/** What the counts, the exit status and an exception say about a run, whatever its schedule. */
module SyncOutcome {
  import opened Wrappers
  import opened Destination
  import opened SyncMachine
  import opened SyncInvariants
  import Breaker

  function Count(s: State, o: Outcome): nat {
    Sum(CountedAs(o), s.phases)
  }

  function Minimum(a: nat, b: nat): nat {
    if a < b then a else b
  }

  // ---- Conservation ----

  lemma {:induction false} SubmittedAreOpenOrCounted(phases: seq<Phase>, next: nat)
    requires forall i | 0 <= i < |phases| :: phases[i].Unsubmitted? <==> i >= next
    ensures Sum(Open, phases) + Sum(Counted, phases) == Minimum(next, |phases|)
  {
    if phases != [] {
      var init := phases[..|phases| - 1];
      assert forall i | 0 <= i < |init| :: init[i] == phases[i];
      SubmittedAreOpenOrCounted(init, next);
    }
  }

  lemma {:induction false} CountsMakeUpCounted(phases: seq<Phase>)
    requires forall i | 0 <= i < |phases| :: WellTyped(phases[i])
    ensures Sum(CountedAs(Created), phases) + Sum(CountedAs(Updated), phases)
          + Sum(CountedAs(Failed), phases) + Sum(CountedAs(Skipped), phases) == Sum(Counted, phases)
  {
    if phases != [] {
      CountsMakeUpCounted(phases[..|phases| - 1]);
    }
  }

  /** In every state of every run: the window holds all futures not counted yet; every submitted
      row is exactly one of in flight, returned by `wait` or counted; and the counts add up to the
      rows counted. */
  lemma Conservation(cfg: Config, dest: Store, carried: set<nat>, steps: seq<Step>, s: State)
    requires Runs(cfg, dest, carried, steps, s)
    ensures |s.phases| == |cfg.items| && |s.inFlight| + |s.pending| <= Window(cfg)
    ensures forall i | 0 <= i < |cfg.items| ::
              (if i >= s.next then 1 else 0) + (if i in s.inFlight then 1 else 0)
              + (if i in s.pending then 1 else 0) + (if s.phases[i].Collected? then 1 else 0) == 1
    ensures Count(s, Created) + Count(s, Updated) + Count(s, Failed) + Count(s, Skipped)
         == s.next - |s.inFlight| - |s.pending|
    ensures s.main.Returned? ==>
              Count(s, Created) + Count(s, Updated) + Count(s, Failed) + Count(s, Skipped) == |cfg.items|
  {
    Invariants(cfg, dest, carried, steps, s);
    BooksBalance(cfg, s);
  }

  lemma BooksBalance(cfg: Config, s: State)
    requires Books(cfg, s) && Accounts(cfg, s)
    ensures Count(s, Created) + Count(s, Updated) + Count(s, Failed) + Count(s, Skipped)
         == s.next - |s.inFlight| - |s.pending|
  {
    assert s.inFlight !! s.pending;
    SumMembers(Open, s.phases, s.inFlight + s.pending);
    SubmittedAreOpenOrCounted(s.phases, s.next);
    CountsMakeUpCounted(s.phases);
  }

  // ---- The trip ----

  /** In every state of every run no more requests are out than the concurrency. */
  lemma RequestsOut(cfg: Config, dest: Store, carried: set<nat>, steps: seq<Step>, s: State)
    requires Runs(cfg, dest, carried, steps, s)
    ensures Sum(Exposed, s.phases) <= Concurrency(cfg)
  {
    Invariants(cfg, dest, carried, steps, s);
    BusyBound(cfg, s);
    SumBelow(Exposed, Busy, s.phases, 0);
  }

  /** At most one request short of the concurrency is recorded after the tripping one, counting
      the requests that are still out. */
  lemma BoundedOvershoot(cfg: Config, dest: Store, carried: set<nat>, steps: seq<Step>, s: State)
    requires Runs(cfg, dest, carried, steps, s)
    ensures s.breaker.tripped <==> Breaker.Sustained(s.history, Breaker.Limit(cfg.threshold))
    ensures s.breaker.tripped ==>
              Breaker.Overrun(cfg.threshold, s.history) + Sum(Exposed, s.phases) <= Concurrency(cfg) - 1
  {
    Invariants(cfg, dest, carried, steps, s);
    Breaker.BreakerEqualsHistory(cfg.threshold, s.history);
  }

  predicate Outage(steps: seq<Step>) {
    forall st | st in steps :: st.Respond? ==> st.answer == Failed
  }

  predicate OnlyFailure(p: Phase) {
    && (p.Responded? ==> p.answer == Failed)
    && (Decision(p).Some? ==> Decision(p).value in {Failed, Skipped})
  }

  predicate NothingButFailures(s: State) {
    forall i | 0 <= i < |s.phases| :: OnlyFailure(s.phases[i])
  }

  lemma FailureMoves(tripped: bool, p: Phase, p': Phase)
    requires Moves(tripped, p, p') && OnlyFailure(p)
    requires p.Requesting? ==> p'.Requesting? || p' == Responded(Failed)
    ensures OnlyFailure(p')
  {
  }

  lemma AnswerIsFailure(cfg: Config, s: State, step: Step, i: nat)
    requires |s.phases| == |cfg.items| && Enabled(cfg, s, step)
    requires step.Respond? ==> step.answer == Failed
    requires RowMoves(s, Apply(cfg, s, step), i) && s.phases[i].Requesting?
    ensures Apply(cfg, s, step).phases[i].Requesting? || Apply(cfg, s, step).phases[i] == Responded(Failed)
  {
    match step
    case Land(j) => assert j == i;
    case Respond(j, answer) => assert j == i;
    case _ =>
  }

  lemma FailuresKept(cfg: Config, s: State, step: Step)
    requires Books(cfg, s) && NothingButFailures(s) && Enabled(cfg, s, step)
    requires step.Respond? ==> step.answer == Failed
    ensures NothingButFailures(Apply(cfg, s, step))
  {
    var i, s' := RowOf(s, step), Apply(cfg, s, step);
    StepMovesOneRow(cfg, s, step);
    if RowMoves(s, s', i) {
      if s.phases[i].Requesting? {
        AnswerIsFailure(cfg, s, step, i);
      }
      FailureMoves(s.breaker.tripped, s.phases[i], s'.phases[i]);
    }
  }

  lemma {:induction false} OutageFailsEveryCall(
    cfg: Config, dest: Store, carried: set<nat>, steps: seq<Step>, s: State)
    requires Runs(cfg, dest, carried, steps, s) && Outage(steps)
    ensures NothingButFailures(s)
  {
    if steps != [] {
      var init, before := LastStep(cfg, dest, carried, steps, s);
      assert forall st | st in init :: st in steps;
      OutageFailsEveryCall(cfg, dest, carried, init, before);
      Invariants(cfg, dest, carried, init, before);
      assert steps[|steps| - 1] in steps;
      FailuresKept(cfg, before, steps[|steps| - 1]);
    }
  }

  /** When every request fails, the report is fixed up to the concurrency: the breaker trips at
      its limit and everything not yet requested is skipped. */
  lemma OutageReport(cfg: Config, dest: Store, carried: set<nat>, steps: seq<Step>, s: State)
    requires Runs(cfg, dest, carried, steps, s) && Outage(steps) && s.main.Returned?
    ensures Count(s, Created) == Count(s, Updated) == 0
    ensures Count(s, Failed) == |cfg.items| || Breaker.Limit(cfg.threshold) <= Count(s, Failed)
    ensures Count(s, Failed) <= Breaker.Limit(cfg.threshold) + Concurrency(cfg) - 1
    ensures Count(s, Skipped) == |cfg.items| - Count(s, Failed)
  {
    Invariants(cfg, dest, carried, steps, s);
    Conservation(cfg, dest, carried, steps, s);
    OutageFailsEveryCall(cfg, dest, carried, steps, s);
    OutageHistory(cfg, s);
    CountIsDecision(s);
  }

  lemma OutageHistory(cfg: Config, s: State)
    requires Accounts(cfg, s) && NothingButFailures(s)
    requires forall i | 0 <= i < |s.phases| :: s.phases[i].Collected?
    ensures Sum(GoodCalls, s.phases) == 0 && |s.history| == Sum(FailedCalls, s.phases)
    ensures |s.history| < Breaker.Limit(cfg.threshold) ==> Count(s, Skipped) == 0
    ensures |s.history| <= Breaker.Limit(cfg.threshold) + Concurrency(cfg) - 1
  {
    SumZero(GoodCalls, s.phases);
    Breaker.AllFailed(s.history);
    Breaker.OutageTripsAtLimit(cfg.threshold, s.history);
    if !s.breaker.tripped {
      SumZero(CountedAs(Skipped), s.phases);
    }
  }

  /** Once everything is counted, a count is the number of tasks decided that way. */
  lemma CountIsDecision(s: State)
    requires forall i | 0 <= i < |s.phases| :: s.phases[i].Collected?
    ensures Count(s, Failed) == Sum(FailedCalls, s.phases)
    ensures Count(s, Created) + Count(s, Updated) == Sum(GoodCalls, s.phases)
  {
    CountedPrefix(s.phases);
  }

  lemma {:induction false} CountedPrefix(phases: seq<Phase>)
    requires forall i | 0 <= i < |phases| :: phases[i].Collected?
    ensures Sum(CountedAs(Failed), phases) == Sum(FailedCalls, phases)
    ensures Sum(CountedAs(Created), phases) + Sum(CountedAs(Updated), phases) == Sum(GoodCalls, phases)
  {
    if phases != [] {
      CountedPrefix(phases[..|phases| - 1]);
    }
  }

  // ---- The exit status ----

  /** A record is skipped only after enough records have failed, so a report without failures is
      a report in which every record was confirmed. */
  lemma SkippedMeansFailed(cfg: Config, dest: Store, carried: set<nat>, steps: seq<Step>, s: State)
    requires Runs(cfg, dest, carried, steps, s) && s.main.Returned?
    ensures |s.phases| == |cfg.items|
    ensures Count(s, Skipped) > 0 ==> Count(s, Failed) >= Breaker.Limit(cfg.threshold)
    ensures Count(s, Failed) == 0 <==>
              forall i | 0 <= i < |cfg.items| :: s.phases[i] == Collected(Created) || s.phases[i] == Collected(Updated)
  {
    Invariants(cfg, dest, carried, steps, s);
    SkippedOnlyWhenTripped(cfg, s);
    EveryRowConfirmed(s);
  }

  lemma SkippedOnlyWhenTripped(cfg: Config, s: State)
    requires Accounts(cfg, s) && forall i | 0 <= i < |s.phases| :: s.phases[i].Collected?
    ensures Count(s, Skipped) > 0 ==> Count(s, Failed) >= Breaker.Limit(cfg.threshold)
  {
    CountIsDecision(s);
    SumZero(CountedAs(Skipped), s.phases);
    if s.breaker.tripped {
      Breaker.TrippedHasFailures(cfg.threshold, s.history);
    }
  }

  lemma EveryRowConfirmed(s: State)
    requires forall i | 0 <= i < |s.phases| :: s.phases[i].Collected? && WellTyped(s.phases[i])
    requires Count(s, Failed) == 0 ==> Count(s, Skipped) == 0
    ensures Count(s, Failed) == 0 <==>
              forall i | 0 <= i < |s.phases| :: s.phases[i] == Collected(Created) || s.phases[i] == Collected(Updated)
  {
    SumZero(CountedAs(Failed), s.phases);
    SumZero(CountedAs(Skipped), s.phases);
  }

  // ---- An exception outside the three caught classes ----

  /** `sync_records` returns counts exactly when it ends and no task raised. When one did, the
      call ends by exception, after every submitted row has finished, and rows that were never
      submitted are never requested. */
  lemma AbortBehaviour(cfg: Config, dest: Store, carried: set<nat>, steps: seq<Step>, s: State)
    requires Runs(cfg, dest, carried, steps, s)
    ensures s.next <= |s.phases| == |cfg.items|
    ensures s.main.Returned? ==> forall i | 0 <= i < |cfg.items| :: Decision(s.phases[i]) != Some(Raised)
    ensures s.main.Aborted? ==> exists i :: 0 <= i < s.next && s.phases[i] == Done(Raised)
    ensures s.main.Aborted? ==> forall i | 0 <= i < s.next :: Finished(s.phases[i])
    ensures forall i | s.next <= i < |cfg.items| && i !in carried :: i !in s.wire && i !in s.touched
  {
    Invariants(cfg, dest, carried, steps, s);
    if s.main.Aborted? {
      var i :| 0 <= i < |s.phases| && s.phases[i] == Done(Raised);
      assert i < s.next;
    }
  }

  /** Once an exception is on its way out, nothing more is submitted and nothing can be returned. */
  lemma UnwindingIsFinal(cfg: Config, s: State, step: Step)
    requires |s.phases| == |cfg.items| && Enabled(cfg, s, step)
    requires s.main.Unwinding? || s.main.Aborted?
    ensures Apply(cfg, s, step).main.Unwinding? || Apply(cfg, s, step).main.Aborted?
    ensures Apply(cfg, s, step).next == s.next
    ensures forall o :: Count(Apply(cfg, s, step), o) == Count(s, o)
  {
    var i, s' := RowOf(s, step), Apply(cfg, s, step);
    if s'.phases != s.phases {
      assert s'.phases == s.phases[i := s'.phases[i]];
      forall o
        ensures Count(s', o) == Count(s, o)
      {
        SumUpdate(CountedAs(o), s.phases, i, s'.phases[i]);
      }
    }
  }
}
