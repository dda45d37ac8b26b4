/** The bounds on how far a run goes past the trip are exact: a batch that is long enough for them
    has, for every pool, window and threshold, a schedule that reaches them. */
module SyncOvershoot {
  import opened Wrappers
  import opened Destination
  import opened SyncMachine
  import opened SyncInvariants
  import opened SyncOutcome
  import opened SyncFates
  import opened SyncProgress
  import Breaker

  /** Every task past its breaker check is one of `failed` rows that are finished, all failed and
      recorded, or one of the next `out` rows, whose requests are out. */
  ghost predicate Poised(s: State, failed: nat, out: nat) {
    && failed + out <= s.next <= |s.phases|
    && (forall i | 0 <= i < failed :: s.phases[i] == Done(Failed) || s.phases[i] == Collected(Failed))
    && (forall i | failed <= i < failed + out :: s.phases[i] == Requesting(NotYet))
    && |s.history| == failed && forall i | 0 <= i < failed :: !s.history[i]
  }

  /** A run, so far, in which every request has failed. */
  ghost predicate Outaged(cfg: Config, dest: Store, carried: set<nat>, steps: seq<Step>, s: State) {
    && Runs(cfg, dest, carried, steps, s) && Outage(steps)
    && Books(cfg, s) && s.breaker == Breaker.Replay(cfg.threshold, s.history)
  }

  /** Such a run, with every submitted row accounted for and the main thread about to submit. */
  ghost predicate Stage(
    cfg: Config, dest: Store, carried: set<nat>, steps: seq<Step>, s: State, failed: nat, out: nat)
  {
    && Outaged(cfg, dest, carried, steps, s)
    && Poised(s, failed, out) && s.next == failed + out && s.main.Submitting?
  }

  lemma Extended(cfg: Config, dest: Store, carried: set<nat>, steps: seq<Step>, s: State, step: Step)
    returns (steps': seq<Step>, s': State)
    requires Outaged(cfg, dest, carried, steps, s) && Enabled(cfg, s, step)
    requires step.Respond? ==> step.answer == Failed
    ensures Outaged(cfg, dest, carried, steps', s') && steps' == steps + [step] && s' == Apply(cfg, s, step)
  {
    RunsExtend(cfg, dest, carried, steps, s, step);
    steps', s' := steps + [step], Apply(cfg, s, step);
    Invariants(cfg, dest, carried, steps', s');
  }

  // ---- Submitting the next row ----

  /** Counting what `wait` returned moves nothing else. */
  lemma {:induction false} CollectAll(
    cfg: Config, dest: Store, carried: set<nat>, steps: seq<Step>, s: State, failed: nat, out: nat)
    returns (steps': seq<Step>, s': State)
    requires Outaged(cfg, dest, carried, steps, s)
    requires Poised(s, failed, out) && s.next == failed + out && s.main.Collecting?
    ensures Outaged(cfg, dest, carried, steps', s')
    ensures Poised(s', failed, out) && s'.next == failed + out && s'.main.Collecting? && s'.pending == {}
    decreases |s.pending|
  {
    if i :| i in s.pending {
      assert i < failed && s.phases[i] == Done(Failed);
      steps', s' := Extended(cfg, dest, carried, steps, s, Collect(i));
      assert s'.pending == s.pending - {i};
      steps', s' := CollectAll(cfg, dest, carried, steps', s', failed, out);
    } else {
      steps', s' := steps, s;
    }
  }

  ghost function Interval(a: nat, b: nat): (rows: set<nat>)
    requires a <= b
    ensures |rows| == b - a && forall i :: i in rows <==> a <= i < b
  {
    if a == b then {} else Interval(a, b - 1) + {b - 1}
  }

  /** A full window holds completed futures, or nothing. */
  lemma SomethingToCollect(cfg: Config, s: State, failed: nat, out: nat) returns (done: set<nat>)
    requires Books(cfg, s) && Poised(s, failed, out) && s.next == failed + out
    requires cfg.workers >= 1 && out < Concurrency(cfg) && |s.inFlight| >= cfg.window
    ensures done <= s.inFlight && (done == {} ==> s.inFlight == {})
    ensures forall i | i in done :: i < |cfg.items| && s.phases[i].Done?
  {
    done := set i | i in s.inFlight && s.phases[i].Done?;
    if done == {} {
      forall i | i in s.inFlight
        ensures failed <= i < failed + out
      {
        assert i !in done;
      }
      CardinalitySubset(s.inFlight, Interval(failed, failed + out));
    }
  }

  lemma MakeRoom(cfg: Config, dest: Store, carried: set<nat>, steps: seq<Step>, s: State, failed: nat, out: nat)
    returns (steps': seq<Step>, s': State)
    requires Stage(cfg, dest, carried, steps, s, failed, out) && failed + out < |cfg.items|
    requires out < Concurrency(cfg) && |s.inFlight| >= cfg.window
    ensures Outaged(cfg, dest, carried, steps', s')
    ensures Poised(s', failed, out) && s'.next == failed + out && s'.main.Collecting? && s'.pending == {}
  {
    var done := SomethingToCollect(cfg, s, failed, out);
    steps', s' := Extended(cfg, dest, carried, steps, s, Wait(done));
    steps', s' := CollectAll(cfg, dest, carried, steps', s', failed, out);
  }

  lemma SubmitOne(cfg: Config, dest: Store, carried: set<nat>, steps: seq<Step>, s: State, failed: nat, out: nat)
    returns (steps': seq<Step>, s': State)
    requires Stage(cfg, dest, carried, steps, s, failed, out) && failed + out < |cfg.items|
    requires out < Concurrency(cfg)
    ensures Outaged(cfg, dest, carried, steps', s') && Poised(s', failed, out)
    ensures s'.next == failed + out + 1 && s'.main.Submitting? && s'.phases[failed + out].Queued?
  {
    steps', s' := steps, s;
    if |s.inFlight| >= cfg.window {
      steps', s' := MakeRoom(cfg, dest, carried, steps, s, failed, out);
    }
    steps', s' := Extended(cfg, dest, carried, steps', s', Submit);
  }

  // ---- Sending its request ----

  lemma WorkerIsFree(cfg: Config, s: State, failed: nat, out: nat)
    requires Books(cfg, s) && Poised(s, failed, out) && s.next == failed + out + 1
    requires s.phases[failed + out].Queued? && cfg.workers >= 1 && out < Concurrency(cfg)
    ensures Sum(Busy, s.phases) < cfg.workers
  {
    SumWithin(Busy, s.phases, Interval(failed, failed + out));
  }

  /** With fewer requests out than the concurrency, and before the trip, the next row's can be
      sent too. */
  lemma LaunchOne(cfg: Config, dest: Store, carried: set<nat>, steps: seq<Step>, s: State, failed: nat, out: nat)
    returns (steps': seq<Step>, s': State)
    requires Stage(cfg, dest, carried, steps, s, failed, out) && failed + out < |cfg.items|
    requires out < Concurrency(cfg) && failed < Breaker.Limit(cfg.threshold)
    ensures Stage(cfg, dest, carried, steps', s', failed, out + 1)
  {
    steps', s' := SubmitOne(cfg, dest, carried, steps, s, failed, out);
    steps', s' := StartAndCheck(cfg, dest, carried, steps', s', failed, out);
  }

  lemma StartAndCheck(
    cfg: Config, dest: Store, carried: set<nat>, steps: seq<Step>, s: State, failed: nat, out: nat)
    returns (steps': seq<Step>, s': State)
    requires Outaged(cfg, dest, carried, steps, s) && Poised(s, failed, out)
    requires s.next == failed + out + 1 && s.main.Submitting? && s.phases[failed + out].Queued?
    requires out < Concurrency(cfg) && failed < Breaker.Limit(cfg.threshold)
    ensures Stage(cfg, dest, carried, steps', s', failed, out + 1)
  {
    WorkerIsFree(cfg, s, failed, out);
    Breaker.OutageTripsAtLimit(cfg.threshold, s.history);
    steps', s' := Extended(cfg, dest, carried, steps, s, Start(failed + out));
    steps', s' := Extended(cfg, dest, carried, steps', s', Check(failed + out));
  }

  /** A request that is out fails, is recorded, and its future completes. */
  lemma FailRow(cfg: Config, dest: Store, carried: set<nat>, steps: seq<Step>, s: State, row: nat)
    returns (steps': seq<Step>, s': State)
    requires Outaged(cfg, dest, carried, steps, s) && row < |s.phases| && s.phases[row] == Requesting(NotYet)
    ensures Outaged(cfg, dest, carried, steps', s')
    ensures s'.phases == s.phases[row := Done(Failed)] && s'.history == s.history + [false]
    ensures s'.next == s.next && s'.main == s.main
  {
    steps', s' := Extended(cfg, dest, carried, steps, s, Respond(row, Failed));
    steps', s' := Extended(cfg, dest, carried, steps', s', Record(row));
    steps', s' := Extended(cfg, dest, carried, steps', s', Finish(row));
  }

  /** The oldest request that is out fails. */
  lemma FailOne(cfg: Config, dest: Store, carried: set<nat>, steps: seq<Step>, s: State, failed: nat, out: nat)
    returns (steps': seq<Step>, s': State)
    requires Stage(cfg, dest, carried, steps, s, failed, out) && out > 0
    ensures Stage(cfg, dest, carried, steps', s', failed + 1, out - 1)
  {
    steps', s' := FailRow(cfg, dest, carried, steps, s, failed);
  }

  // ---- The schedule ----

  /** Failures one by one, as many as the breaker takes without tripping. */
  lemma {:induction false} FailInTurn(cfg: Config, dest: Store, carried: set<nat>, failed: nat)
    returns (steps: seq<Step>, s: State)
    requires WellFormed(cfg, carried)
    requires failed <= |cfg.items| && failed < Breaker.Limit(cfg.threshold)
    ensures Stage(cfg, dest, carried, steps, s, failed, 0)
  {
    if failed == 0 {
      steps, s := [], Initial(cfg, dest, carried);
      RunsFromTheStart(cfg, dest, carried);
      Invariants(cfg, dest, carried, steps, s);
    } else {
      steps, s := FailInTurn(cfg, dest, carried, failed - 1);
      steps, s := LaunchOne(cfg, dest, carried, steps, s, failed - 1, 0);
      steps, s := FailOne(cfg, dest, carried, steps, s, failed - 1, 1);
    }
  }

  /** Then as many requests together as can be out at once. */
  lemma {:induction false} LaunchTogether(cfg: Config, dest: Store, carried: set<nat>, failed: nat, out: nat)
    returns (steps: seq<Step>, s: State)
    requires WellFormed(cfg, carried) && failed + out <= |cfg.items|
    requires failed < Breaker.Limit(cfg.threshold) && out <= Concurrency(cfg)
    ensures Stage(cfg, dest, carried, steps, s, failed, out)
  {
    if out == 0 {
      steps, s := FailInTurn(cfg, dest, carried, failed);
    } else {
      steps, s := LaunchTogether(cfg, dest, carried, failed, out - 1);
      steps, s := LaunchOne(cfg, dest, carried, steps, s, failed, out - 1);
    }
  }

  /** And all of those fail. */
  lemma {:induction false} FailTogether(
    cfg: Config, dest: Store, carried: set<nat>, steps: seq<Step>, s: State, failed: nat, out: nat)
    returns (steps': seq<Step>, s': State)
    requires Stage(cfg, dest, carried, steps, s, failed, out)
    ensures Stage(cfg, dest, carried, steps', s', failed + out, 0)
    decreases out
  {
    steps', s' := steps, s;
    if out > 0 {
      steps', s' := FailOne(cfg, dest, carried, steps, s, failed, out);
      steps', s' := FailTogether(cfg, dest, carried, steps', s', failed + 1, out - 1);
    }
  }

  /** For every pool, window and threshold, and every batch long enough, there is a schedule of an
      outage in which one request short of the concurrency is recorded after the tripping one; and
      it can be carried to a return that reports as many failures as an outage can. */
  lemma OvershootIsReached(cfg: Config, dest: Store, carried: set<nat>)
    returns (steps: seq<Step>, s: State, more: seq<Step>, end: State)
    requires WellFormed(cfg, carried)
    requires |cfg.items| >= Breaker.Limit(cfg.threshold) + Concurrency(cfg) - 1
    ensures Runs(cfg, dest, carried, steps, s) && s.breaker.tripped
    ensures Breaker.Overrun(cfg.threshold, s.history) == Concurrency(cfg) - 1
    ensures Runs(cfg, dest, carried, steps + more, end) && Outage(steps + more) && end.main.Returned?
    ensures Count(end, Failed) == Breaker.Limit(cfg.threshold) + Concurrency(cfg) - 1
  {
    var failed, out := Breaker.Limit(cfg.threshold) - 1, Concurrency(cfg);
    steps, s := LaunchTogether(cfg, dest, carried, failed, out);
    steps, s := FailTogether(cfg, dest, carried, steps, s, failed, out);
    Breaker.OutageTripsAtLimit(cfg.threshold, s.history);
    Breaker.AllFailed(s.history);
    more, end := FinishQuietly(cfg, dest, carried, steps, s);
    FailuresAreRecorded(cfg, dest, carried, steps + more, end);
  }

  // ---- After the trip ----

  /** The breaker is open and no request is out: nothing more will be asked of the destination. */
  ghost predicate Spent(s: State) {
    && s.breaker.tripped
    && forall i | 0 <= i < |s.phases| :: SpentRow(s.phases[i])
  }

  predicate SpentRow(p: Phase) {
    !p.Requesting? && !p.Responded? && Decision(p) != Some(Raised)
  }

  lemma SpentMoves(p: Phase, p': Phase)
    requires SpentRow(p) && Moves(true, p, p')
    ensures SpentRow(p')
  {
  }

  lemma NothingRecorded(cfg: Config, s: State, step: Step)
    requires |s.phases| == |cfg.items| && Spent(s) && Enabled(cfg, s, step)
    ensures !step.Respond? && Apply(cfg, s, step).history == s.history && Apply(cfg, s, step).breaker == s.breaker
  {
    assert step.Record? || step.Respond? ==> SpentRow(s.phases[step.row]);
  }

  lemma SpentKept(cfg: Config, s: State, step: Step)
    requires Books(cfg, s) && Spent(s) && Enabled(cfg, s, step)
    ensures Spent(Apply(cfg, s, step)) && Apply(cfg, s, step).history == s.history && !step.Respond?
  {
    var i, s' := RowOf(s, step), Apply(cfg, s, step);
    StepMovesOneRow(cfg, s, step);
    NothingRecorded(cfg, s, step);
    if RowMoves(s, s', i) {
      SpentMoves(s.phases[i], s'.phases[i]);
    }
  }

  lemma QuietStep(cfg: Config, dest: Store, carried: set<nat>, steps: seq<Step>, s: State) returns (step: Step)
    requires Outaged(cfg, dest, carried, steps, s) && Spent(s) && !Ended(s)
    ensures Enabled(cfg, s, step) && !step.Respond? && WorkLeft(Apply(cfg, s, step)) < WorkLeft(s)
    ensures Spent(Apply(cfg, s, step)) && Apply(cfg, s, step).history == s.history
  {
    EveryRunHasFates(cfg, dest, carried, steps, s);
    step := Progress(cfg, dest, carried, steps, s, FatesOf(s));
    SpentKept(cfg, s, step);
    WorkFalls(cfg, s, step);
  }

  lemma SpentReturns(cfg: Config, dest: Store, carried: set<nat>, steps: seq<Step>, s: State)
    requires Runs(cfg, dest, carried, steps, s) && Spent(s) && Ended(s)
    ensures s.main.Returned?
  {
    Invariants(cfg, dest, carried, steps, s);
    assert forall i | 0 <= i < |s.phases| :: SpentRow(s.phases[i]);
  }

  /** A run in which nothing more will be asked of the destination goes on to return. */
  lemma {:induction false} FinishQuietly(cfg: Config, dest: Store, carried: set<nat>, steps: seq<Step>, s: State)
    returns (more: seq<Step>, end: State)
    requires Outaged(cfg, dest, carried, steps, s) && Spent(s)
    ensures Outaged(cfg, dest, carried, steps + more, end)
    ensures end.main.Returned? && end.history == s.history
    decreases WorkLeft(s)
  {
    if Ended(s) {
      SpentReturns(cfg, dest, carried, steps, s);
      assert steps + [] == steps;
      return [], s;
    }
    var step := QuietStep(cfg, dest, carried, steps, s);
    var steps', s' := Extended(cfg, dest, carried, steps, s, step);
    var rest, last := FinishQuietly(cfg, dest, carried, steps', s');
    assert steps + [step] + rest == steps + ([step] + rest);
    return [step] + rest, last;
  }

  lemma FailuresAreRecorded(cfg: Config, dest: Store, carried: set<nat>, steps: seq<Step>, s: State)
    requires Runs(cfg, dest, carried, steps, s) && s.main.Returned?
    ensures Count(s, Failed) == Breaker.Failures(s.history)
  {
    Invariants(cfg, dest, carried, steps, s);
    CountIsDecision(s);
  }

  // ---- Only then ----

  /** A run in which anything is recorded that far past the trip has a batch that long, so the
      condition on the batch is the exact one. */
  lemma OvershootNeedsABatch(cfg: Config, dest: Store, carried: set<nat>, steps: seq<Step>, s: State)
    requires Runs(cfg, dest, carried, steps, s) && s.breaker.tripped
    ensures Breaker.Limit(cfg.threshold) + Breaker.Overrun(cfg.threshold, s.history) <= |cfg.items|
  {
    Invariants(cfg, dest, carried, steps, s);
    Breaker.TrippingOutcome(cfg.threshold, s.history);
    var first := s.history[..|s.history| - Breaker.Overrun(cfg.threshold, s.history)];
    Breaker.TrippedHasFailures(cfg.threshold, first);
    Breaker.AllFailed(first);
    CallsAreRows(s.phases);
  }

  lemma {:induction false} CallsAreRows(phases: seq<Phase>)
    ensures Sum(FailedCalls, phases) + Sum(GoodCalls, phases) <= |phases|
  {
    if phases != [] {
      CallsAreRows(phases[..|phases| - 1]);
    }
  }
}
