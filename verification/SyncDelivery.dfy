/** What a run, or any series of runs over one batch, leaves in the destination. */
module SyncDelivery {
  import opened Wrappers
  import opened Destination
  import opened SyncMachine
  import opened SyncInvariants
  import opened SyncOutcome
  import opened SyncProgress

  /** Two runs of one batch in which the same rows' requests took effect leave the same
      destination, whatever their schedules, pool sizes, windows and thresholds. */
  lemma ScheduleIndependence(
    cfg: Config, carried: set<nat>, steps: seq<Step>, s: State,
    cfg': Config, carried': set<nat>, steps': seq<Step>, s': State, dest: Store)
    requires Runs(cfg, dest, carried, steps, s) && Runs(cfg', dest, carried', steps', s')
    requires cfg.items == cfg'.items && cfg.endpoint == cfg'.endpoint && Addressable(cfg)
    requires s.touched == s'.touched
    ensures s.dest == s'.dest
  {
    Invariants(cfg, dest, carried, steps, s);
    Invariants(cfg', dest, carried', steps', s');
  }

  /** Whatever happened, the destination is the old one with part of the batch laid over it: every
      record is either as it was or holds its new fields, and no other key changes. */
  lemma NothingElseIsTouched(
    cfg: Config, dest: Store, carried: set<nat>, steps: seq<Step>, s: State, key: string)
    requires Runs(cfg, dest, carried, steps, s) && Addressable(cfg)
    ensures (forall i | 0 <= i < |cfg.items| && i in s.touched :: cfg.items[i].key != key) ==>
              (key in s.dest <==> key in dest) && Held(s.dest, key) == Held(dest, key)
    ensures forall i | 0 <= i < |cfg.items| && i in s.touched && cfg.items[i].key == key ::
              key in s.dest && s.dest[key] == Held(dest, key) + cfg.items[i].payload
  {
    Invariants(cfg, dest, carried, steps, s);
    forall i | 0 <= i < |cfg.items| && i in s.touched && cfg.items[i].key == key
      ensures key in s.dest && s.dest[key] == Held(dest, key) + cfg.items[i].payload
    {
      TouchedRow(cfg, dest, s, i);
    }
    if forall i | 0 <= i < |cfg.items| && i in s.touched :: cfg.items[i].key != key {
      UntouchedKey(cfg, dest, s, key);
    }
  }

  lemma TouchedRow(cfg: Config, before: Store, s: State, i: nat)
    requires Addressable(cfg) && Delivered(cfg, before, s) && i < |cfg.items| && i in s.touched
    ensures var it := cfg.items[i]; it.key in s.dest && s.dest[it.key] == Held(before, it.key) + it.payload
  {
    var batch := ItemsAt(cfg.items, s.touched);
    DistinctMeansOnePerKey(cfg.items, s.touched);
    assert cfg.items[i] in batch;
    PayloadIs(batch, cfg.items[i]);
    assert cfg.items[i].key in KeysOf(batch);
  }

  lemma UntouchedKey(cfg: Config, before: Store, s: State, key: string)
    requires Delivered(cfg, before, s)
    requires forall i | 0 <= i < |cfg.items| && i in s.touched :: cfg.items[i].key != key
    ensures (key in s.dest <==> key in before) && Held(s.dest, key) == Held(before, key)
  {
    KeyNotLaid(before, ItemsAt(cfg.items, s.touched), key);
  }

  /** A run that reports no failure leaves exactly what one clean pass over the batch leaves. */
  lemma {:induction false} FailureFreeRunIsACleanPass(
    cfg: Config, dest: Store, carried: set<nat>, steps: seq<Step>, s: State)
    requires Runs(cfg, dest, carried, steps, s) && Addressable(cfg)
    requires s.main.Returned? && Count(s, Failed) == 0
    ensures s.dest == ApplyAll(dest, cfg.items)
  {
    Invariants(cfg, dest, carried, steps, s);
    SkippedMeansFailed(cfg, dest, carried, steps, s);
    ApplyAllIsOverlay(dest, cfg.items);
    forall i | 0 <= i < |cfg.items|
      ensures i in s.touched
    {
      assert Confirmed(s.phases[i]);
    }
    assert ItemsAt(cfg.items, s.touched) == Members(cfg.items);
  }

  // ---- Rerunning the whole batch ----

  /** One run, cut off anywhere: it may have ended well, tripped, been aborted, or been killed. */
  datatype Attempt = Attempt(cfg: Config, start: Store, carried: set<nat>, steps: seq<Step>, end: State)

  /** Runs of one batch, one after the other; requests a run left on the wire may still take
      effect during later ones. */
  ghost predicate Chain(cfg: Config, origin: Store, attempts: seq<Attempt>) {
    attempts == []
    || var last, init := attempts[|attempts| - 1], attempts[..|attempts| - 1];
       && last.cfg.items == cfg.items && last.cfg.endpoint == cfg.endpoint
       && Runs(last.cfg, last.start, last.carried, last.steps, last.end)
       && Chain(cfg, origin, init)
       && (init == [] ==> last.start == origin)
       && (init != [] ==>
             var previous := init[|init| - 1].end;
             last.start == previous.dest && last.carried <= previous.wire)
  }

  lemma LaidOver(items: seq<Item>, origin: Store, a: set<nat>, b: set<nat>)
    requires DistinctKeys(items)
    ensures Overlay(Overlay(origin, ItemsAt(items, a)), ItemsAt(items, b)) == Overlay(origin, ItemsAt(items, a + b))
  {
    DistinctMeansOnePerKey(items, a + b);
    assert ItemsAt(items, a + b) == ItemsAt(items, a) + ItemsAt(items, b);
    OverlayTwice(origin, ItemsAt(items, a), ItemsAt(items, b));
  }

  /** The rows of which a request took effect in any of the runs. */
  ghost function TouchedIn(attempts: seq<Attempt>): set<nat> {
    set i, r | 0 <= i < |attempts| && r in attempts[i].end.touched :: r
  }

  lemma {:induction false} TouchedByLast(attempts: seq<Attempt>)
    requires attempts != []
    ensures TouchedIn(attempts)
         == TouchedIn(attempts[..|attempts| - 1]) + attempts[|attempts| - 1].end.touched
  {
    var init := attempts[..|attempts| - 1];
    forall r | r in TouchedIn(attempts)
      ensures r in TouchedIn(init) + attempts[|attempts| - 1].end.touched
    {
      var i :| 0 <= i < |attempts| && r in attempts[i].end.touched;
      assert i < |init| ==> r in init[i].end.touched;
    }
    forall r | r in TouchedIn(init)
      ensures r in TouchedIn(attempts)
    {
      var i :| 0 <= i < |init| && r in init[i].end.touched;
      assert r in attempts[i].end.touched;
    }
  }

  /** After any runs the destination is the original with exactly the rows of the batch laid over it
      that took effect in any of them. */
  lemma {:induction false} ChainDelivers(cfg: Config, origin: Store, attempts: seq<Attempt>)
    requires Chain(cfg, origin, attempts) && Addressable(cfg) && attempts != []
    ensures attempts[|attempts| - 1].end.dest == Overlay(origin, ItemsAt(cfg.items, TouchedIn(attempts)))
  {
    var last, init := attempts[|attempts| - 1], attempts[..|attempts| - 1];
    assert last.end.dest == Overlay(last.start, ItemsAt(cfg.items, last.end.touched)) by {
      Invariants(last.cfg, last.start, last.carried, last.steps, last.end);
    }
    assert last.start == Overlay(origin, ItemsAt(cfg.items, TouchedIn(init))) by {
      if init == [] {
        NothingLaid(cfg.items, origin);
      } else {
        ChainDelivers(cfg, origin, init);
      }
    }
    LaidOver(cfg.items, origin, TouchedIn(init), last.end.touched);
    TouchedByLast(attempts);
  }

  lemma NothingLaid(items: seq<Item>, origin: Store)
    ensures Overlay(origin, ItemsAt(items, TouchedIn([]))) == origin
  {
    assert TouchedIn([]) == {};
    assert ItemsAt(items, {}) == {};
    OverlayNothing(origin);
  }

  /** Rerunning the whole batch needs no resume state: whatever the earlier runs did, one run that
      reports no failure leaves the destination a single clean pass over the original leaves. */
  lemma {:induction false} RerunConverges(cfg: Config, origin: Store, attempts: seq<Attempt>)
    requires Chain(cfg, origin, attempts) && Addressable(cfg) && attempts != []
    requires var last := attempts[|attempts| - 1].end; last.main.Returned? && Count(last, Failed) == 0
    ensures attempts[|attempts| - 1].end.dest == ApplyAll(origin, cfg.items)
  {
    var last := attempts[|attempts| - 1];
    var rows := TouchedIn(attempts);
    ChainDelivers(cfg, origin, attempts);
    TouchedByLast(attempts);
    Invariants(last.cfg, last.start, last.carried, last.steps, last.end);
    SkippedMeansFailed(last.cfg, last.start, last.carried, last.steps, last.end);
    forall i | 0 <= i < |cfg.items|
      ensures i in rows
    {
      assert Confirmed(last.end.phases[i]);
    }
    assert ItemsAt(cfg.items, rows) == Members(cfg.items);
    ApplyAllIsOverlay(origin, cfg.items);
  }

  // ---- Created and updated ----

  /** The row's task has been told, or will report, that its request created (or updated). */
  predicate Claims(p: Phase, o: Outcome) {
    || (p.Requesting? && p.landing == (if o == Created then New else Existing))
    || (p.Responded? && p.answer == o)
    || Decision(p) == Some(o)
  }

  /** A record reported as created was not there when the run began. */
  ghost predicate CreatedWasNew(cfg: Config, before: Store, s: State) {
    && |s.phases| == |cfg.items|
    && before.Keys <= s.dest.Keys
    && forall i | 0 <= i < |s.phases| :: Claims(s.phases[i], Created) ==> cfg.items[i].key !in before
  }

  lemma ClaimMoves(tripped: bool, p: Phase, p': Phase, o: Outcome)
    requires Moves(tripped, p, p') && Success(o) && Claims(p', o) && !Claims(p, o)
    ensures p == Requesting(NotYet) && p' == Requesting(if o == Created then New else Existing)
  {
  }

  /** A task comes to claim a creation or an update only by its request taking effect then. */
  lemma NewClaim(cfg: Config, s: State, step: Step, i: nat, o: Outcome)
    requires |s.phases| == |cfg.items| && Enabled(cfg, s, step) && Success(o)
    requires RowMoves(s, Apply(cfg, s, step), i)
    requires Claims(Apply(cfg, s, step).phases[i], o) && !Claims(s.phases[i], o)
    ensures step == Land(i) && (cfg.items[i].key in s.dest <==> o == Updated)
  {
    ClaimMoves(s.breaker.tripped, s.phases[i], Apply(cfg, s, step).phases[i], o);
    RequestMoves(cfg, s, step, i);
  }

  lemma CreatedWasNewKept(cfg: Config, before: Store, s: State, step: Step)
    requires Books(cfg, s) && Addressable(cfg) && Enabled(cfg, s, step)
    requires CreatedWasNew(cfg, before, s)
    ensures CreatedWasNew(cfg, before, Apply(cfg, s, step))
  {
    var i, s' := RowOf(s, step), Apply(cfg, s, step);
    StepMovesOneRow(cfg, s, step);
    KeysStay(cfg, s, step);
    if RowMoves(s, s', i) && Claims(s'.phases[i], Created) && !Claims(s.phases[i], Created) {
      NewClaim(cfg, s, step, i, Created);
    }
  }

  /** Keys are only ever added. */
  lemma KeysStay(cfg: Config, s: State, step: Step)
    requires |s.phases| == |cfg.items| && Addressable(cfg) && Enabled(cfg, s, step)
    ensures s.dest.Keys <= Apply(cfg, s, step).dest.Keys
  {
    if step.Land? || step.Stray? {
      SendIsUpsert(cfg.endpoint, s.dest, cfg.items[step.row]);
    }
  }

  predicate HasLanded(p: Phase) {
    Issued(p) && p != Requesting(NotYet)
  }

  /** Without late or retried requests, a row is touched only by its own task's request. */
  ghost predicate TouchedByItself(s: State) {
    forall i | i in s.touched && i < |s.phases| :: HasLanded(s.phases[i])
  }

  /** Once a task's request has taken effect, it has. */
  lemma LandedStays(tripped: bool, p: Phase, p': Phase)
    requires HasLanded(p) && WellTyped(p) && Moves(tripped, p, p')
    ensures HasLanded(p')
  {
  }

  lemma TouchedAfter(cfg: Config, s: State, step: Step)
    requires |s.phases| == |cfg.items| && Enabled(cfg, s, step) && !step.Stray?
    ensures Apply(cfg, s, step).touched == if step.Land? then s.touched + {step.row} else s.touched
    ensures step.Land? ==> HasLanded(Apply(cfg, s, step).phases[step.row])
  {
  }

  lemma TouchedByItselfKept(cfg: Config, s: State, step: Step)
    requires Books(cfg, s) && (forall i | 0 <= i < |s.phases| :: WellTyped(s.phases[i]))
    requires TouchedByItself(s) && Enabled(cfg, s, step) && !step.Stray?
    ensures TouchedByItself(Apply(cfg, s, step))
  {
    StepMovesOneRow(cfg, s, step);
    TouchedAfter(cfg, s, step);
    MoveKeepsTouched(s, Apply(cfg, s, step), RowOf(s, step), step.Land?);
  }

  lemma MoveKeepsTouched(s: State, s': State, i: nat, lands: bool)
    requires TouchedByItself(s) && (forall j | 0 <= j < |s.phases| :: WellTyped(s.phases[j]))
    requires s'.phases == s.phases || RowMoves(s, s', i)
    requires s'.touched == if lands then s.touched + {i} else s.touched
    requires lands && i < |s'.phases| ==> HasLanded(s'.phases[i])
    ensures TouchedByItself(s')
  {
    if RowMoves(s, s', i) && HasLanded(s.phases[i]) {
      LandedStays(s.breaker.tripped, s.phases[i], s'.phases[i]);
    }
  }

  /** A record reported as updated was there when the run began. */
  ghost predicate UpdatedWasThere(cfg: Config, before: Store, s: State) {
    && |s.phases| == |cfg.items|
    && forall i | 0 <= i < |s.phases| :: Claims(s.phases[i], Updated) ==> cfg.items[i].key in before
  }

  lemma UpdatedWasThereKept(cfg: Config, before: Store, s: State, step: Step)
    requires Books(cfg, s) && UpdatedWasThere(cfg, before, s) && Enabled(cfg, s, step)
    requires step.Land? ==> (cfg.items[step.row].key in s.dest ==> cfg.items[step.row].key in before)
    ensures UpdatedWasThere(cfg, before, Apply(cfg, s, step))
  {
    var i, s' := RowOf(s, step), Apply(cfg, s, step);
    StepMovesOneRow(cfg, s, step);
    if RowMoves(s, s', i) && Claims(s'.phases[i], Updated) && !Claims(s.phases[i], Updated) {
      NewClaim(cfg, s, step, i, Updated);
    }
  }

  lemma UntouchedIsAsBefore(cfg: Config, before: Store, s: State, i: nat)
    requires Addressable(cfg) && Delivered(cfg, before, s) && i < |cfg.items| && i !in s.touched
    ensures cfg.items[i].key in s.dest <==> cfg.items[i].key in before
  {
    assert cfg.items[i].key !in KeysOf(ItemsAt(cfg.items, s.touched));
  }

  lemma {:induction false} ReportsAreTruthful(
    cfg: Config, dest: Store, carried: set<nat>, steps: seq<Step>, s: State)
    requires Runs(cfg, dest, carried, steps, s) && Addressable(cfg)
    ensures CreatedWasNew(cfg, dest, s)
    ensures NoStrays(steps) ==> TouchedByItself(s) && UpdatedWasThere(cfg, dest, s)
  {
    if steps != [] {
      var init, before := LastStep(cfg, dest, carried, steps, s);
      Invariants(cfg, dest, carried, init, before);
      ReportsAreTruthful(cfg, dest, carried, init, before);
      CreatedWasNewKept(cfg, dest, before, steps[|steps| - 1]);
      if NoStrays(steps) {
        assert forall st | st in init :: st in steps;
        assert steps[|steps| - 1] in steps;
        TouchedByItselfKept(cfg, before, steps[|steps| - 1]);
        if steps[|steps| - 1].Land? {
          UntouchedIsAsBefore(cfg, dest, before, steps[|steps| - 1].row);
        }
        UpdatedWasThereKept(cfg, dest, before, steps[|steps| - 1]);
      }
    }
  }

  /** A record reported as created or updated is in the destination with its new fields over what
      it held before the run, whatever happened to the other records. */
  lemma ReportedIsWritten(cfg: Config, dest: Store, carried: set<nat>, steps: seq<Step>, s: State, i: nat)
    requires Runs(cfg, dest, carried, steps, s) && Addressable(cfg) && i < |cfg.items|
    ensures |s.phases| == |cfg.items|
    ensures Confirmed(s.phases[i]) ==>
              && cfg.items[i].key in s.dest
              && s.dest[cfg.items[i].key] == Held(dest, cfg.items[i].key) + cfg.items[i].payload
    ensures s.phases[i] in {Collected(Created), Collected(Updated)} ==> Confirmed(s.phases[i])
  {
    Invariants(cfg, dest, carried, steps, s);
    NothingElseIsTouched(cfg, dest, carried, steps, s, cfg.items[i].key);
  }

  /** A skipped record is as it was before the run, unless an earlier run had a request for it out. */
  lemma SkippedIsUntouched(cfg: Config, dest: Store, carried: set<nat>, steps: seq<Step>, s: State, i: nat)
    requires Runs(cfg, dest, carried, steps, s) && Addressable(cfg) && i < |cfg.items| && i !in carried
    ensures |s.phases| == |cfg.items|
    ensures Decision(s.phases[i]) == Some(Skipped) ==>
              && i !in s.wire
              && (cfg.items[i].key in s.dest <==> cfg.items[i].key in dest)
              && Held(s.dest, cfg.items[i].key) == Held(dest, cfg.items[i].key)
  {
    Invariants(cfg, dest, carried, steps, s);
    if Decision(s.phases[i]) == Some(Skipped) {
      UntouchedKey(cfg, dest, s, cfg.items[i].key);
    }
  }

  /** A rerun over a destination that already holds the batch creates nothing; without failures it
      reports every record as updated. */
  lemma RerunReportsUpdates(cfg: Config, dest: Store, carried: set<nat>, steps: seq<Step>, s: State)
    requires Runs(cfg, dest, carried, steps, s) && Addressable(cfg) && s.main.Returned?
    requires forall i | 0 <= i < |cfg.items| :: cfg.items[i].key in dest
    ensures Count(s, Created) == 0
    ensures Count(s, Failed) == 0 ==> Count(s, Updated) == |cfg.items|
  {
    assert CreatedWasNew(cfg, dest, s) by {
      ReportsAreTruthful(cfg, dest, carried, steps, s);
    }
    NothingCreated(cfg, dest, s);
    SkippedMeansFailed(cfg, dest, carried, steps, s);
    Conservation(cfg, dest, carried, steps, s);
    assert Count(s, Failed) == 0 ==> Count(s, Skipped) == 0;
  }

  lemma NothingCreated(cfg: Config, dest: Store, s: State)
    requires CreatedWasNew(cfg, dest, s)
    requires forall i | 0 <= i < |cfg.items| :: cfg.items[i].key in dest
    ensures Count(s, Created) == 0
  {
    forall i | 0 <= i < |s.phases|
      ensures s.phases[i] != Collected(Created)
    {
      assert !Claims(s.phases[i], Created);
    }
    SumZero(CountedAs(Created), s.phases);
  }
}
