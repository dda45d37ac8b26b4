/** Every outcome is met: whatever is to become of the requests, for every pool, window and
    threshold some run has it, and a destination that answers everything makes every run succeed. */
module SyncReach {
  import opened Wrappers
  import opened Destination
  import opened SyncMachine
  import opened SyncInvariants
  import opened SyncOutcome
  import opened SyncFates
  import opened SyncProgress
  import opened SyncDelivery
  import Breaker

  /** For all fates there is a run that follows them to its end, and in which nothing takes effect
      but what they say. */
  lemma FatesAreMet(cfg: Config, dest: Store, carried: set<nat>, fates: seq<Fate>)
    returns (steps: seq<Step>, end: State)
    requires WellFormed(cfg, carried) && |fates| == |cfg.items|
    ensures Runs(cfg, dest, carried, steps, end) && Ended(end)
    ensures Follows(fates, end) && NoStrays(steps) && Quiet(fates, end)
  {
    RunsFromTheStart(cfg, dest, carried);
    FreshFollows(cfg, dest, carried, fates);
    steps, end := EveryRunCanEnd(cfg, dest, carried, [], Initial(cfg, dest, carried), fates);
    assert [] + steps == steps;
  }

  // ---- A destination that answers every request ----

  ghost predicate ReportsEach(cfg: Config, dest: Store, s: State) {
    && |s.phases| == |cfg.items|
    && forall i | 0 <= i < |cfg.items| ::
         s.phases[i] == Collected(if cfg.items[i].key in dest then Updated else Created)
  }

  /** Whatever the schedule, a run in which every request is answered returns, with every record
      that was missing created and every other one updated. */
  lemma {:induction false} HealthyReport(
    cfg: Config, dest: Store, carried: set<nat>, steps: seq<Step>, s: State, fates: seq<Fate>)
    requires Runs(cfg, dest, carried, steps, s) && Addressable(cfg) && NoStrays(steps) && Ended(s)
    requires Follows(fates, s) && AllReply(fates)
    ensures s.main.Returned? && ReportsEach(cfg, dest, s)
    ensures Count(s, Failed) == Count(s, Skipped) == 0
    ensures Count(s, Created) == |set i: nat | i < |cfg.items| && cfg.items[i].key !in dest|
    ensures Count(s, Updated) == |set i: nat | i < |cfg.items| && cfg.items[i].key in dest|
    ensures s.dest == ApplyAll(dest, cfg.items)
  {
    FatesDecide(cfg, dest, carried, steps, s, fates);
    SkippedMeansFailed(cfg, dest, carried, steps, s);
    ReportsAreTruthful(cfg, dest, carried, steps, s);
    forall i | 0 <= i < |cfg.items|
      ensures s.phases[i] == Collected(if cfg.items[i].key in dest then Updated else Created)
    {
      assert Claims(s.phases[i], Created) || Claims(s.phases[i], Updated);
    }
    SumMembers(CountedAs(Created), s.phases, set i: nat | i < |cfg.items| && cfg.items[i].key !in dest);
    SumMembers(CountedAs(Updated), s.phases, set i: nat | i < |cfg.items| && cfg.items[i].key in dest);
    FailureFreeRunIsACleanPass(cfg, dest, carried, steps, s);
  }

  /** There is such a run over every destination. */
  lemma AHealthyRun(cfg: Config, dest: Store, carried: set<nat>) returns (steps: seq<Step>, end: State)
    requires WellFormed(cfg, carried) && Addressable(cfg)
    ensures Runs(cfg, dest, carried, steps, end) && end.main.Returned? && ReportsEach(cfg, dest, end)
    ensures Count(end, Failed) == Count(end, Skipped) == 0
    ensures end.dest == ApplyAll(dest, cfg.items)
  {
    var fates := seq(|cfg.items|, i => Replies);
    steps, end := FatesAreMet(cfg, dest, carried, fates);
    HealthyReport(cfg, dest, carried, steps, end, fates);
  }

  // ---- One request that is not answered ----

  function AllButOne(n: nat, k: nat, f: Fate): seq<Fate>
    requires k < n
  {
    seq(n, i => if i == k then f else Replies)
  }

  /** If only row `k` fails or breaks, it is not skipped: nothing trips the breaker before it. */
  lemma TheOneIsNotSkipped(
    cfg: Config, dest: Store, carried: set<nat>, steps: seq<Step>, s: State, k: nat, f: Fate)
    requires Runs(cfg, dest, carried, steps, s) && k < |cfg.items| && Follows(AllButOne(|cfg.items|, k, f), s)
    ensures |s.phases| == |cfg.items| && Decision(s.phases[k]) != Some(Skipped)
  {
    Invariants(cfg, dest, carried, steps, s);
    if Decision(s.phases[k]) == Some(Skipped) {
      forall i | 0 <= i < |s.phases|
        ensures Decision(s.phases[i]) != Some(Failed)
      {
        assert FollowsRow(AllButOne(|cfg.items|, k, f)[i], s.phases[i], i in s.touched);
      }
      SumZero(FailedCalls, s.phases);
      Breaker.TrippedHasFailures(cfg.threshold, s.history);
      assert false;
    }
  }

  /** Any row's request can fail, having taken effect (its response was lost) or not; the run
      returns and counts it as failed. */
  lemma ARequestFails(cfg: Config, dest: Store, carried: set<nat>, k: nat, lands: bool)
    returns (steps: seq<Step>, end: State)
    requires WellFormed(cfg, carried) && k < |cfg.items|
    ensures Runs(cfg, dest, carried, steps, end) && end.main.Returned? && |end.phases| == |cfg.items|
    ensures end.phases[k] == Collected(Failed) && (k in end.touched <==> lands)
  {
    var fates := AllButOne(|cfg.items|, k, Loses(lands));
    steps, end := FatesAreMet(cfg, dest, carried, fates);
    FatesDecide(cfg, dest, carried, steps, end, fates);
    TheOneIsNotSkipped(cfg, dest, carried, steps, end, k, Loses(lands));
    Invariants(cfg, dest, carried, steps, end);
    assert FollowsRow(fates[k], end.phases[k], k in end.touched);
  }

  /** And it can still take effect after the run has returned. */
  lemma ALateEffect(cfg: Config, dest: Store, carried: set<nat>, k: nat) returns (steps: seq<Step>, end: State)
    requires WellFormed(cfg, carried) && k < |cfg.items|
    ensures Runs(cfg, dest, carried, steps, end) && |end.phases| == |cfg.items| && steps != []
    ensures steps[|steps| - 1] == Stray(k) && end.main.Returned?
    ensures end.phases[k] == Collected(Failed) && k in end.touched
  {
    var sent, returned := ARequestFails(cfg, dest, carried, k, false);
    Invariants(cfg, dest, carried, sent, returned);
    assert Issued(returned.phases[k]);
    RunsExtend(cfg, dest, carried, sent, returned, Stray(k));
    steps, end := sent + [Stray(k)], Apply(cfg, returned, Stray(k));
  }

  /** Any row's task can raise, its request having taken effect or not; the call then ends by
      exception. */
  lemma ATaskRaises(cfg: Config, dest: Store, carried: set<nat>, k: nat, lands: bool)
    returns (steps: seq<Step>, end: State)
    requires WellFormed(cfg, carried) && k < |cfg.items|
    ensures Runs(cfg, dest, carried, steps, end) && end.main.Aborted? && |end.phases| == |cfg.items|
    ensures end.phases[k] == Done(Raised) && (k in end.touched <==> lands)
  {
    var fates := AllButOne(|cfg.items|, k, Breaks(lands));
    steps, end := FatesAreMet(cfg, dest, carried, fates);
    TheOneIsNotSkipped(cfg, dest, carried, steps, end, k, Breaks(lands));
    Invariants(cfg, dest, carried, steps, end);
    assert FollowsRow(fates[k], end.phases[k], k in end.touched);
    assert end.main.Aborted?;
    var i := RaisedBreaks(fates, end);
  }
}
