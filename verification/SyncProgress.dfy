/** Every run ends: some step is always enabled until it has, and none can go on forever. */
module SyncProgress {
  import opened Destination
  import opened SyncMachine
  import opened SyncInvariants
  import opened SyncFates

  predicate Ended(s: State) {
    s.main.Returned? || s.main.Aborted?
  }

  /** A step of the program itself or of a request it waits for; late requests may land any time. */
  predicate Progresses(step: Step) {
    !step.Stray?
  }

  predicate IsTaskStep(step: Step) {
    step.Start? || step.Check? || step.Land? || step.Respond? || step.Record? || step.Finish?
  }

  /** While a submitted row is unfinished, a worker can take its next step, whatever is to become
      of the requests. */
  lemma WorkersProgress(cfg: Config, fates: seq<Fate>, s: State, i: nat) returns (step: Step)
    requires Books(cfg, s) && Accounts(cfg, s) && |fates| == |s.phases|
    requires Follows(fates, s)
    requires i < s.next && !Finished(s.phases[i])
    ensures IsTaskStep(step) && Enabled(cfg, s, step) && Obeys(fates, s, step)
  {
    if j :| 0 <= j < |s.phases| && Score(Busy, s.phases[j]) > 0 {
      if s.phases[j].Started? {
        return Check(j);
      } else if s.phases[j].Requesting? {
        step := RequestProgresses(cfg, fates, s, j);
        return;
      } else if s.phases[j].Responded? {
        return Record(j);
      } else {
        return Finish(j);
      }
    }
    SumZero(Busy, s.phases);
    var oldest := OldestQueued(s, i);
    return Start(oldest);
  }

  /** A request that is out meets its fate. */
  lemma RequestProgresses(cfg: Config, fates: seq<Fate>, s: State, i: nat) returns (step: Step)
    requires |s.phases| == |cfg.items| && Follows(fates, s) && i < |s.phases| && s.phases[i].Requesting?
    ensures IsTaskStep(step) && Enabled(cfg, s, step) && Obeys(fates, s, step)
  {
    assert FollowsRow(fates[i], s.phases[i], i in s.touched);
    var landing := s.phases[i].landing;
    if Lands(fates[i]) && landing == NotYet {
      return Land(i);
    }
    match fates[i]
    case Replies => return Respond(i, if landing == New then Created else Updated);
    case Loses(_) => return Respond(i, Failed);
    case Breaks(_) => return Respond(i, Raised);
  }

  lemma OldestQueued(s: State, i: nat) returns (oldest: nat)
    requires i < |s.phases| && s.phases[i].Queued?
    ensures oldest < |s.phases| && s.phases[oldest].Queued?
    ensures forall j | 0 <= j < oldest :: !s.phases[j].Queued?
  {
    if j :| 0 <= j < i && s.phases[j].Queued? {
      oldest := OldestQueued(s, j);
    } else {
      oldest := i;
    }
  }

  /** In every state of every run that has not ended, the program can take a step, whatever is to
      become of the requests that have not met their fate yet. */
  lemma Progress(cfg: Config, dest: Store, carried: set<nat>, steps: seq<Step>, s: State, fates: seq<Fate>)
    returns (step: Step)
    requires Runs(cfg, dest, carried, steps, s) && !Ended(s) && Follows(fates, s)
    ensures |s.phases| == |cfg.items| && Enabled(cfg, s, step) && Progresses(step) && Obeys(fates, s, step)
  {
    Invariants(cfg, dest, carried, steps, s);
    match s.main
    case Submitting =>
      if s.next == |cfg.items| {
        return Drain;
      } else if |s.inFlight| < cfg.window {
        return Submit;
      } else if s.inFlight == {} {
        return Wait({});
      } else {
        step := FirstCompleted(cfg, fates, s);
      }
    case Collecting =>
      if i :| i in s.pending {
        return Collect(i);
      } else {
        return Submit;
      }
    case Draining =>
      if s.inFlight == {} {
        return Return;
      } else {
        step := FirstCompleted(cfg, fates, s);
      }
    case Unwinding =>
      if i :| 0 <= i < s.next && !Finished(s.phases[i]) {
        step := WorkersProgress(cfg, fates, s, i);
      } else {
        return Unwind;
      }
  }

  lemma FirstCompleted(cfg: Config, fates: seq<Fate>, s: State) returns (step: Step)
    requires Books(cfg, s) && Accounts(cfg, s) && s.inFlight != {} && Follows(fates, s)
    requires s.main == Draining || (s.main == Submitting && s.next < |cfg.items| && |s.inFlight| >= cfg.window)
    ensures Enabled(cfg, s, step) && Progresses(step) && Obeys(fates, s, step)
  {
    var i :| i in s.inFlight;
    if s.phases[i].Done? {
      step := if s.main == Draining then Collect(i) else Wait({i});
    } else {
      step := WorkersProgress(cfg, fates, s, i);
    }
  }

  // ---- Termination ----

  function MainWork(m: Main): nat {
    match m
    case Submitting => 4
    case Collecting => 3
    case Draining => 2
    case Unwinding => 1
    case _ => 0
  }

  /** Work left: a weighted sum over where the rows are, plus where the main thread is. */
  function WorkLeft(s: State): nat {
    Sum(Work, s.phases) + MainWork(s.main)
  }

  lemma WorkFalls(cfg: Config, s: State, step: Step)
    requires Books(cfg, s) && Enabled(cfg, s, step)
    ensures Progresses(step) ==> WorkLeft(Apply(cfg, s, step)) < WorkLeft(s)
    ensures !Progresses(step) ==> WorkLeft(Apply(cfg, s, step)) == WorkLeft(s)
  {
    var i, s' := RowOf(s, step), Apply(cfg, s, step);
    StepMovesOneRow(cfg, s, step);
    if RowMoves(s, s', i) {
      MoveIsWork(s, s', i);
      assert step.Submit? || MainWork(s'.main) == MainWork(s.main);
    }
  }

  lemma MoveIsWork(s: State, s': State, i: nat)
    requires RowMoves(s, s', i)
    ensures Sum(Work, s'.phases) < Sum(Work, s.phases)
    ensures s.phases[i].Unsubmitted? ==> Sum(Work, s'.phases) == Sum(Work, s.phases) - 3
  {
    SumUpdate(Work, s.phases, i, s'.phases[i]);
  }

  function ProgressSteps(steps: seq<Step>): nat {
    if steps == [] then 0
    else ProgressSteps(steps[..|steps| - 1]) + if Progresses(steps[|steps| - 1]) then 1 else 0
  }

  /** No run takes more than ten steps a row, and four, of the program's own; so every run that is
      not cut off ends. */
  lemma {:induction false} RunsAreBounded(
    cfg: Config, dest: Store, carried: set<nat>, steps: seq<Step>, s: State)
    requires Runs(cfg, dest, carried, steps, s)
    ensures ProgressSteps(steps) + WorkLeft(s) <= 10 * |cfg.items| + 4
  {
    if steps == [] {
      FreshWork(s.phases);
    } else {
      var init, before := LastStep(cfg, dest, carried, steps, s);
      RunsAreBounded(cfg, dest, carried, init, before);
      Invariants(cfg, dest, carried, init, before);
      WorkFalls(cfg, before, steps[|steps| - 1]);
    }
  }

  lemma {:induction false} FreshWork(phases: seq<Phase>)
    requires forall i | 0 <= i < |phases| :: phases[i].Unsubmitted?
    ensures Sum(Work, phases) == 10 * |phases|
  {
    if phases != [] {
      FreshWork(phases[..|phases| - 1]);
    }
  }

  predicate NoStrays(steps: seq<Step>) {
    forall st | st in steps :: !st.Stray?
  }

  /** Only requests whose fate it is take effect, but for late and retried ones. */
  predicate Quiet(fates: seq<Fate>, s: State) {
    forall i | i in s.touched :: i < |fates| && Lands(fates[i])
  }

  lemma QuietKept(cfg: Config, fates: seq<Fate>, s: State, step: Step)
    requires |s.phases| == |cfg.items| && Quiet(fates, s)
    requires Enabled(cfg, s, step) && Obeys(fates, s, step) && !step.Stray?
    ensures Quiet(fates, Apply(cfg, s, step))
  {
  }

  /** Every run can be carried to its end, and whatever fates it has followed so far, in a way that
      follows them to the end. */
  lemma {:induction false} EveryRunCanEnd(
    cfg: Config, dest: Store, carried: set<nat>, steps: seq<Step>, s: State, fates: seq<Fate>)
    returns (more: seq<Step>, end: State)
    requires Runs(cfg, dest, carried, steps, s) && Follows(fates, s)
    ensures Runs(cfg, dest, carried, steps + more, end) && Ended(end)
    ensures Follows(fates, end) && NoStrays(more) && (Quiet(fates, s) ==> Quiet(fates, end))
    decreases WorkLeft(s)
  {
    if Ended(s) {
      assert steps + [] == steps;
      return [], s;
    }
    var step := Progress(cfg, dest, carried, steps, s, fates);
    var s' := Apply(cfg, s, step);
    assert WorkLeft(s') < WorkLeft(s) && Follows(fates, s') by {
      Invariants(cfg, dest, carried, steps, s);
      WorkFalls(cfg, s, step);
      FollowsKept(cfg, carried, fates, s, step);
    }
    if Quiet(fates, s) {
      QuietKept(cfg, fates, s, step);
    }
    RunsExtend(cfg, dest, carried, steps, s, step);
    var rest, last := EveryRunCanEnd(cfg, dest, carried, steps + [step], s', fates);
    assert steps + [step] + rest == steps + ([step] + rest);
    return [step] + rest, last;
  }
}
