/** `sync_records` and `_upsert_one` as the loops and calls they are. A `Session` is what one call
    shares between threads: the executor, the breaker and the destination, with the run so far.
    Whenever a method gives up the processor, any number of steps of other threads may happen. */
module SyncLoop {
  import opened Wrappers
  import opened Destination
  import opened SyncMachine
  import opened SyncInvariants
  import opened SyncOutcome
  import opened SyncFates
  import opened SyncProgress
  import opened SyncDelivery
  import Breaker

  /** What a call of `upsert_record` comes back with: a response, one of the three transport
      exceptions, or any other exception. */
  datatype Reply = Status(code: nat) | TransportError | OtherError

  predicate IsWorkerStep(step: Step) {
    IsTaskStep(step) || step.Stray?
  }

  /** The main thread's view is unchanged: what it has submitted and counted, and every future that
      has completed. */
  ghost predicate SameForMain(s: State, s': State) {
    && |s'.phases| == |s.phases|
    && s'.next == s.next && s'.inFlight == s.inFlight && s'.pending == s.pending && s'.main == s.main
    && (forall i | 0 <= i < |s.phases| && s.phases[i].Done? :: s'.phases[i] == s.phases[i])
    && (forall o :: Count(s', o) == Count(s, o))
  }

  lemma WorkersAreInvisible(cfg: Config, s: State, step: Step)
    requires Books(cfg, s) && Enabled(cfg, s, step) && IsWorkerStep(step)
    ensures SameForMain(s, Apply(cfg, s, step))
  {
    var i, s' := RowOf(s, step), Apply(cfg, s, step);
    StepMovesOneRow(cfg, s, step);
    if RowMoves(s, s', i) {
      forall o
        ensures Count(s', o) == Count(s, o)
      {
        SumUpdate(CountedAs(o), s.phases, i, s'.phases[i]);
      }
    }
  }

  lemma SubmittingCountsNothing(cfg: Config, s: State)
    requires Books(cfg, s) && Enabled(cfg, s, Submit)
    ensures forall o :: Count(Apply(cfg, s, Submit), o) == Count(s, o)
  {
    forall o
      ensures Count(Apply(cfg, s, Submit), o) == Count(s, o)
    {
      SumUpdate(CountedAs(o), s.phases, s.next, Queued);
    }
  }

  class Session {
    const cfg: Config
    const fates: seq<Fate>  // what becomes of each row's request
    const breaker: Breaker.ConsecutiveFailureCircuitBreaker
    var s: State
    ghost const before: Store
    ghost const carried: set<nat>
    ghost var steps: seq<Step>

    ghost predicate Valid()
      reads this, breaker
    {
      && Runs(cfg, before, carried, steps, s) && Follows(fates, s)
      && breaker.Valid()
      && breaker.threshold == cfg.threshold
      && breaker.Snapshot() == s.breaker
      && breaker.history == s.history
    }

    constructor (cfg: Config, dest: Store, carried: set<nat>, fates: seq<Fate>)
      requires WellFormed(cfg, carried) && |fates| == |cfg.items|
      ensures Valid() && fresh(breaker)
      ensures this.cfg == cfg && this.before == dest && this.carried == carried && this.fates == fates
      ensures s == Initial(cfg, dest, carried) && steps == []
    {
      this.cfg, this.before, this.carried, this.fates := cfg, dest, carried, fates;
      breaker := new Breaker.ConsecutiveFailureCircuitBreaker(cfg.threshold);
      s, steps := Initial(cfg, dest, carried), [];
      new;
      RunsFromTheStart(cfg, dest, carried);
      FreshFollows(cfg, dest, carried, fates);
    }

    lemma Lawful()
      requires Valid()
      ensures Inv(cfg, carried, s)
    {
      Invariants(cfg, before, carried, steps, s);
    }

    /** One atomic step of some thread; recording an outcome is a call of the shared breaker. */
    method Take(step: Step)
      requires Valid() && |s.phases| == |cfg.items| && Enabled(cfg, s, step) && Obeys(fates, s, step)
      modifies this, breaker
      ensures Valid() && steps == old(steps) + [step]
      ensures s == Apply(cfg, old(s), step)
    {
      RunsExtend(cfg, before, carried, steps, s, step);
      assert Follows(fates, Apply(cfg, s, step)) by {
        Lawful();
        FollowsKept(cfg, carried, fates, s, step);
      }
      if step.Record? {
        if s.phases[step.row].answer == Failed {
          var justTripped := breaker.RecordFailure();
        } else {
          breaker.RecordSuccess();
        }
      }
      s, steps := Apply(cfg, s, step), steps + [step];
    }

    /** A step of a worker thread, or of a request on the wire. */
    method WorkerStep(step: Step)
      requires Valid() && |s.phases| == |cfg.items| && Enabled(cfg, s, step) && Obeys(fates, s, step)
      requires IsWorkerStep(step)
      modifies this, breaker
      ensures Valid() && SameForMain(old(s), s)
      ensures IsTaskStep(step) ==> WorkLeft(s) < WorkLeft(old(s))
    {
      Lawful();
      WorkersAreInvisible(cfg, s, step);
      WorkFalls(cfg, s, step);
      Take(step);
    }

    /** Other threads run for a while. */
    method Workers()
      requires Valid()
      modifies this, breaker
      ensures Valid() && SameForMain(old(s), s)
    {
      assert |s.phases| == |cfg.items| by {
        Lawful();
      }
      var rounds: nat := *;
      while rounds > 0
        invariant Valid() && |s.phases| == |cfg.items| && SameForMain(old(s), s)
      {
        var step: Step := *;
        if IsWorkerStep(step) && Enabled(cfg, s, step) && Obeys(fates, s, step) {
          WorkerStep(step);
        }
        rounds := rounds - 1;
      }
    }

    /** While a submitted task is unfinished some worker makes progress; which one is open. */
    method Progress(unfinished: nat)
      requires Valid() && unfinished < s.next <= |s.phases| && !Finished(s.phases[unfinished])
      modifies this, breaker
      ensures Valid() && SameForMain(old(s), s) && WorkLeft(s) < WorkLeft(old(s))
    {
      Lawful();
      ghost var possible := WorkersProgress(cfg, fates, s, unfinished);
      var step :| IsTaskStep(step) && Enabled(cfg, s, step) && Obeys(fates, s, step);
      WorkerStep(step);
    }

    predicate Completed(future: nat)
      reads this
    {
      future < |s.phases| && s.phases[future].Done?
    }

    /** Blocks until one of `futures` has completed. */
    method AwaitFirst(futures: set<nat>) returns (first: nat)
      requires Valid() && futures != {} && futures <= s.inFlight
      modifies this, breaker
      ensures Valid() && SameForMain(old(s), s)
      ensures first in futures && Completed(first)
    {
      while !exists i :: i in futures && Completed(i)
        invariant Valid() && SameForMain(old(s), s)
        decreases WorkLeft(s)
      {
        var waited :| waited in futures;
        assert waited < s.next <= |s.phases| && !Finished(s.phases[waited]) by {
          Lawful();
          assert !Completed(waited);
        }
        Progress(waited);
      }
      first :| first in futures && Completed(first);
    }

    /** Leaves the executor's block by exception: waits for every submitted task first. */
    method Shutdown()
      requires Valid() && s.main == Unwinding
      modifies this, breaker
      ensures Valid() && s.main == Aborted && s.next == old(s.next)
    {
      assert s.next <= |s.phases| == |cfg.items| by {
        Lawful();
      }
      while !AllFinished(s)
        invariant Valid() && s.main == Unwinding && s.next == old(s.next) <= |s.phases| == |cfg.items|
        decreases WorkLeft(s)
      {
        var unfinished: nat :| unfinished < s.next && !Finished(s.phases[unfinished]);
        Progress(unfinished);
      }
      Take(Unwind);
    }

    /** `wait(in_flight, return_when=FIRST_COMPLETED)`: some completed futures, at least one
        unless there are none to wait for, and the rest. */
    method Wait(inFlight: set<nat>) returns (done: set<nat>, notDone: set<nat>)
      requires Valid() && s.main == Submitting && s.next < |cfg.items|
      requires inFlight == s.inFlight && |inFlight| >= cfg.window
      modifies this, breaker
      ensures Valid() && s.main == Collecting && s.next == old(s.next)
      ensures done == s.pending && notDone == s.inFlight
      ensures done + notDone == inFlight && done !! notDone && (done == {} ==> inFlight == {})
      ensures forall o :: Count(s, o) == Count(old(s), o)
    {
      if inFlight == {} {
        done := {};
      } else {
        var first := AwaitFirst(inFlight);
        Workers();
        var noticed: set<nat> := *;
        done := {first} + set i | i in inFlight && i in noticed && Completed(i);
      }
      notDone := inFlight - done;
      assert |s.phases| == |cfg.items| by {
        Lawful();
      }
      Take(SyncMachine.Step.Wait(done));
    }

    /** `future.result()` of a completed future: its outcome, now counted, or its exception. */
    method FutureResult(future: nat) returns (outcome: Outcome)
      requires Valid() && Completed(future)
      requires (s.main == Collecting && future in s.pending) || (s.main == Draining && future in s.inFlight)
      modifies this, breaker
      ensures Valid() && s.next == old(s.next)
      ensures outcome == Raised ==> s.main == Unwinding
      ensures outcome != Raised ==>
                && s.main == old(s.main)
                && s.inFlight == old(s.inFlight) - {future} && s.pending == old(s.pending) - {future}
                && (forall o :: Count(s, o) == Count(old(s), o) + if o == outcome then 1 else 0)
    {
      assert s.next <= |s.phases| == |cfg.items| by {
        Lawful();
      }
      outcome := s.phases[future].outcome;
      if outcome != Raised {
        forall o
          ensures Count(Apply(cfg, s, Collect(future)), o) == Count(s, o) + if o == outcome then 1 else 0
        {
          SumUpdate(CountedAs(o), s.phases, future, Collected(outcome));
        }
      }
      Take(Collect(future));
    }

    /** `executor.submit` of the next row's task. */
    method SubmitNext() returns (future: nat)
      requires Valid() && s.next < |cfg.items|
      requires (s.main == Submitting && |s.inFlight| < cfg.window) || (s.main == Collecting && s.pending == {})
      modifies this, breaker
      ensures Valid() && s.main == Submitting && s.pending == old(s.pending) && future == old(s.next)
      ensures s.next == old(s.next) + 1 && s.inFlight == old(s.inFlight) + {future}
      ensures forall o :: Count(s, o) == Count(old(s), o)
    {
      future := s.next;
      assert |s.phases| == |cfg.items| && (forall o :: Count(Apply(cfg, s, Submit), o) == Count(s, o)) by {
        Lawful();
        SubmittingCountsNothing(cfg, s);
      }
      Take(Submit);
    }

    /** The loop over the rows is over: the main thread turns to `as_completed`. */
    method StartDraining()
      requires Valid() && s.main == Submitting && s.next == |cfg.items|
      modifies this, breaker
      ensures Valid() && s.main == Draining && s.inFlight == old(s.inFlight)
      ensures forall o :: Count(s, o) == Count(old(s), o)
    {
      assert |s.phases| == |cfg.items| by {
        Lawful();
      }
      Take(Drain);
    }

    method ReturnCounts()
      requires Valid() && s.main == Draining && s.inFlight == {}
      modifies this, breaker
      ensures Valid() && s.main == Returned
      ensures forall o :: Count(s, o) == Count(old(s), o)
    {
      assert |s.phases| == |cfg.items| by {
        Lawful();
      }
      Take(Return);
    }
  }

  const NO_COUNTS: map<Outcome, nat> := map[Created := 0, Updated := 0, Failed := 0, Skipped := 0]

  ghost predicate Tallied(result: map<Outcome, nat>, s: State) {
    && result.Keys == {Created, Updated, Failed, Skipped}
    && forall o | o in result :: result[o] == Count(s, o)
  }

  /** `result[future.result()] += 1`, for a completed future; false if it raises. */
  method CountOne(session: Session, future: nat, counts: map<Outcome, nat>)
    returns (ok: bool, result: map<Outcome, nat>)
    requires session.Valid() && Tallied(counts, session.s) && session.Completed(future)
    requires (session.s.main == Collecting && future in session.s.pending)
          || (session.s.main == Draining && future in session.s.inFlight)
    modifies session, session.breaker
    ensures session.Valid() && session.s.next == old(session.s.next)
    ensures !ok ==> session.s.main == Unwinding
    ensures ok ==>
              && Tallied(result, session.s) && session.s.main == old(session.s.main)
              && session.s.inFlight == old(session.s.inFlight) - {future}
              && session.s.pending == old(session.s.pending) - {future}
  {
    result := counts;
    session.Workers();
    var outcome := session.FutureResult(future);
    ok := outcome != Raised;
    if ok {
      result := result[outcome := result[outcome] + 1];
    }
  }

  /** `for future in done`: counts what `wait` returned. */
  method CountDone(session: Session, futures: set<nat>, counts: map<Outcome, nat>)
    returns (ok: bool, result: map<Outcome, nat>)
    requires session.Valid() && session.s.main == Collecting && session.s.pending == futures
    requires Tallied(counts, session.s)
    modifies session, session.breaker
    ensures session.Valid() && session.s.next == old(session.s.next)
    ensures !ok ==> session.s.main == Unwinding
    ensures ok ==> session.s.main == Collecting && session.s.pending == {} && Tallied(result, session.s)
    ensures ok ==> session.s.inFlight == old(session.s.inFlight)
  {
    ok, result := true, counts;
    var done := futures;
    while ok && done != {}
      invariant session.Valid() && session.s.next == old(session.s.next)
      invariant !ok ==> session.s.main == Unwinding
      invariant ok ==> session.s.main == Collecting && session.s.pending == done && Tallied(result, session.s)
      invariant ok ==> session.s.inFlight == old(session.s.inFlight)
      decreases |done|
    {
      var future :| future in done;
      assert session.Completed(future) && future !in session.s.inFlight by {
        session.Lawful();
      }
      ok, result := CountOne(session, future, result);
      done := done - {future};
    }
  }

  /** `for future in as_completed(in_flight)`: counts the rest as they complete. */
  method CountRest(session: Session, futures: set<nat>, counts: map<Outcome, nat>)
    returns (ok: bool, result: map<Outcome, nat>)
    requires session.Valid() && session.s.main == Draining && session.s.inFlight == futures
    requires Tallied(counts, session.s)
    modifies session, session.breaker
    ensures session.Valid()
    ensures !ok ==> session.s.main == Unwinding
    ensures ok ==> session.s.main == Draining && session.s.inFlight == {} && Tallied(result, session.s)
  {
    ok, result := true, counts;
    var inFlight := futures;
    while ok && inFlight != {}
      invariant session.Valid()
      invariant !ok ==> session.s.main == Unwinding
      invariant ok ==> session.s.main == Draining && session.s.inFlight == inFlight && Tallied(result, session.s)
      decreases |inFlight|
    {
      var future := session.AwaitFirst(inFlight);
      ok, result := CountOne(session, future, result);
      inFlight := inFlight - {future};
    }
  }

  /** One turn of the loop over the rows: a full window first waits and counts; then the row is
      submitted. False if counting raised: every submitted task has finished by then. */
  method SubmitRow(session: Session, futures: set<nat>, counts: map<Outcome, nat>)
    returns (ok: bool, inFlight: set<nat>, result: map<Outcome, nat>)
    requires session.Valid() && session.s.next < |session.cfg.items|
    requires session.s.main == Submitting && session.s.inFlight == futures && Tallied(counts, session.s)
    modifies session, session.breaker
    ensures session.Valid()
    ensures !ok ==> session.s.main == Aborted
    ensures ok ==>
              && session.s.next == old(session.s.next) + 1
              && session.s.main == Submitting && session.s.inFlight == inFlight && Tallied(result, session.s)
  {
    ok, inFlight, result := true, futures, counts;
    if |inFlight| >= session.cfg.window {
      var done;
      done, inFlight := session.Wait(inFlight);
      ok, result := CountDone(session, done, result);
      if !ok {
        session.Shutdown();
        return;
      }
    }
    session.Workers();
    var submitted := session.SubmitNext();
    inFlight := inFlight + {submitted};
  }

  /** The body of `sync_records`. It ends in a state of the machine that has ended, with exactly
      that state's counts, or by exception. */
  method SyncLoop(session: Session) returns (r: Result<map<Outcome, nat>, ()>)
    requires session.Valid() && session.steps == []
    modifies session, session.breaker
    ensures session.Valid()
    ensures r.Ok? ==> session.s.main == Returned && Tallied(r.value, session.s)
    ensures r.Err? ==> session.s.main == Aborted
  {
    var cfg := session.cfg;
    var result, ok := NO_COUNTS, true;
    var inFlight: set<nat> := {};
    var row := 0;
    NothingCounted(session);
    while ok && row < |cfg.items|
      invariant session.Valid() && row <= |cfg.items|
      invariant !ok ==> session.s.main == Aborted
      invariant ok ==>
                  && row == session.s.next && session.s.main == Submitting && session.s.inFlight == inFlight
                  && Tallied(result, session.s)
    {
      ok, inFlight, result := SubmitRow(session, inFlight, result);
      row := row + 1;
    }
    if !ok {
      return Err(());
    }
    session.StartDraining();
    ok, result := CountRest(session, inFlight, result);
    if !ok {
      session.Shutdown();
      return Err(());
    }
    session.ReturnCounts();
    return Ok(result);
  }

  lemma NothingCounted(session: Session)
    requires session.Valid() && session.steps == []
    ensures session.s == Initial(session.cfg, session.before, session.carried)
    ensures Tallied(NO_COUNTS, session.s)
  {
    forall o
      ensures Count(session.s, o) == 0
    {
      SumZero(CountedAs(o), session.s.phases);
    }
  }

  // ---- One task ----

  lemma OthersLeaveRow(session: Session, step: Step, row: nat)
    requires session.Valid() && UnderWay(session.s, row) && |session.s.phases| == |session.cfg.items|
    requires Enabled(session.cfg, session.s, step) && !(IsTaskStep(step) && step.row == row)
    ensures var s' := Apply(session.cfg, session.s, step);
            && |s'.phases| == |session.s.phases| && s'.phases[row] == session.s.phases[row]
            && (session.s.breaker.tripped ==> s'.breaker.tripped)
  {
    session.Lawful();
    StepMovesOneRow(session.cfg, session.s, step);
  }

  /** Any number of steps of any thread but the one that runs this row's task. */
  method Elsewhere(session: Session, row: nat)
    requires session.Valid() && UnderWay(session.s, row)
    modifies session, session.breaker
    ensures session.Valid() && UnderWay(session.s, row) && |session.s.phases| == |session.cfg.items|
    ensures session.s.phases[row] == old(session.s).phases[row] && old(session.steps) <= session.steps
    ensures old(session.s).breaker.tripped ==> session.s.breaker.tripped
  {
    assert |session.s.phases| == |session.cfg.items| by {
      session.Lawful();
    }
    var rounds: nat := *;
    while rounds > 0
      invariant session.Valid() && |session.s.phases| == |session.cfg.items| && UnderWay(session.s, row)
      invariant session.s.phases[row] == old(session.s).phases[row] && old(session.steps) <= session.steps
      invariant old(session.s).breaker.tripped ==> session.s.breaker.tripped
    {
      var step: Step := *;
      if Enabled(session.cfg, session.s, step) && Obeys(session.fates, session.s, step)
         && !(IsTaskStep(step) && step.row == row) {
        OthersLeaveRow(session, step, row);
        session.Take(step);
      }
      rounds := rounds - 1;
    }
  }

  predicate UnderWay(s: State, row: nat) {
    row < |s.phases| && Score(Busy, s.phases[row]) == 1
  }

  /** The row's own request took effect during the run, on a destination that was `found`. */
  ghost predicate LandedOn(
    cfg: Config, before: Store, carried: set<nat>, steps: seq<Step>, row: nat, found: Store)
  {
    exists sent, at :: sent + [Land(row)] <= steps && Runs(cfg, before, carried, sent, at) && at.dest == found
  }

  lemma LandedOnStays(
    cfg: Config, before: Store, carried: set<nat>, steps: seq<Step>, longer: seq<Step>, row: nat, found: Store)
    requires LandedOn(cfg, before, carried, steps, row, found) && steps <= longer
    ensures LandedOn(cfg, before, carried, longer, row, found)
  {
    var sent, at :| sent + [Land(row)] <= steps && Runs(cfg, before, carried, sent, at) && at.dest == found;
    assert sent + [Land(row)] <= longer;
  }

  /** The request is out among others; if that is its fate it lands, on a destination that was
      `found`. */
  method MayLand(session: Session, row: nat) returns (ghost found: Store)
    requires session.Valid() && row < |session.s.phases| == |session.cfg.items|
    requires session.s.phases[row] == Requesting(NotYet)
    modifies session, session.breaker
    ensures session.Valid() && row < |session.s.phases| == |session.cfg.items|
    ensures Lands(session.fates[row]) ==>
              && LandedOn(session.cfg, session.before, session.carried, session.steps, row, found)
              && session.s.phases[row] == Requesting(if session.cfg.items[row].key in found then Existing else New)
    ensures !Lands(session.fates[row]) ==> session.s.phases[row] == Requesting(NotYet)
  {
    Elsewhere(session, row);
    found := session.s.dest;
    if Lands(session.fates[row]) {
      ghost var sent := session.steps;
      session.Take(Land(row));
      assert sent + [Land(row)] == session.steps;
      Elsewhere(session, row);
    }
  }

  /** The reply is the one of the request's fate: a response with some status if it is answered. */
  predicate Comes(fate: Fate, reply: Reply) {
    match fate
    case Replies => reply.Status?
    case Loses(_) => reply.TransportError?
    case Breaks(_) => reply.OtherError?
  }

  /** `client.upsert_record`: the call comes back as is its fate, and if with a response, it has
      landed, on a destination that was `found`; 201 means that there was no such record in it. */
  method CallUpsert(session: Session, row: nat) returns (reply: Reply, ghost found: Store)
    requires session.Valid() && row < |session.s.phases| == |session.cfg.items|
    requires session.s.phases[row] == Requesting(NotYet)
    modifies session, session.breaker
    ensures session.Valid() && UnderWay(session.s, row) && |session.s.phases| == |session.cfg.items|
    ensures Comes(session.fates[row], reply)
    ensures session.s.phases[row] ==
            match reply
            case Status(code) => Responded(if code == 201 then Created else Updated)
            case TransportError => Responded(Failed)
            case OtherError => Settled(Raised)
    ensures reply.Status? ==>
              && row in session.s.touched
              && LandedOn(session.cfg, session.before, session.carried, session.steps, row, found)
              && (reply.code == 201 <==> session.cfg.items[row].key !in found)
  {
    found := MayLand(session, row);
    match session.fates[row]
    case Replies =>
      var isNew := session.s.phases[row].landing == New;
      var otherwise: nat :| otherwise != 201;
      reply := Status(if isNew then 201 else otherwise);
      ghost var steps := session.steps;
      session.Take(Respond(row, if isNew then Created else Updated));
      LandedOnStays(session.cfg, session.before, session.carried, steps, session.steps, row, found);
      assert row in session.s.touched by {
        session.Lawful();
      }
    case Loses(_) =>
      reply := TransportError;
      session.Take(Respond(row, Failed));
    case Breaks(_) =>
      reply := OtherError;
      session.Take(Respond(row, Raised));
  }

  /** What the task makes of a reply. */
  predicate IsOutcomeOf(outcome: Outcome, reply: Reply) {
    && (reply == Status(201) ==> outcome == Created)
    && (reply.Status? && reply.code != 201 ==> outcome == Updated)
    && (reply.TransportError? ==> outcome == Failed)
    && (reply.OtherError? ==> outcome == Raised)
  }

  /** The call, and what the task makes of its reply. */
  method CallAndRecord(session: Session, row: nat) returns (outcome: Outcome, ghost reply: Reply, ghost found: Store)
    requires session.Valid() && row < |session.s.phases| == |session.cfg.items|
    requires session.s.phases[row] == Requesting(NotYet)
    modifies session, session.breaker
    ensures session.Valid() && row < |session.s.phases| == |session.cfg.items|
    ensures session.s.phases[row] == Settled(outcome)
    ensures Comes(session.fates[row], reply) && IsOutcomeOf(outcome, reply)
    ensures Success(outcome) ==>
              && LandedOn(session.cfg, session.before, session.carried, session.steps, row, found)
              && (outcome == Created <==> session.cfg.items[row].key !in found)
  {
    var answer;
    answer, found := CallUpsert(session, row);
    reply := answer;
    if answer.OtherError? {
      return Raised, reply, found;
    }
    outcome :=
      if answer.TransportError? then Failed
      else if answer.code == 201 then Created
      else Updated;
    ghost var steps := session.steps;
    Elsewhere(session, row);
    session.Take(Record(row));
    if answer.Status? {
      LandedOnStays(session.cfg, session.before, session.carried, steps, session.steps, row, found);
    }
  }

  /** The body of `_upsert_one`, run by a worker while the others go on. It makes no call once the
      breaker is open, and without a call it has found it open; otherwise its outcome is the one of
      the reply that is its request's fate: created or updated only if the request took effect, and
      created exactly if it found no record. */
  method UpsertOne(session: Session, row: nat)
    returns (outcome: Outcome, ghost reply: Option<Reply>, ghost found: Store)
    requires session.Valid() && row < |session.s.phases| && session.s.phases[row] == Started
    modifies session, session.breaker
    ensures session.Valid() && UnderWay(session.s, row) && row < |session.cfg.items| == |session.fates|
    ensures session.s.phases[row] == Settled(outcome)
    ensures old(session.s).breaker.tripped ==> reply == None
    ensures reply == None ==>
              outcome == Skipped && session.s.breaker.tripped && (row in session.s.wire ==> row in session.carried)
    ensures reply.Some? ==>
              && row in session.s.wire
              && Comes(session.fates[row], reply.value) && IsOutcomeOf(outcome, reply.value)
    ensures Success(outcome) ==>
              && row in session.s.touched
              && LandedOn(session.cfg, session.before, session.carried, session.steps, row, found)
              && (outcome == Created <==> session.cfg.items[row].key !in found)
  {
    Elsewhere(session, row);
    found := session.s.dest;
    var tripped := session.breaker.IsTripped();
    session.Take(Check(row));
    if tripped {
      outcome, reply := Skipped, None;
    } else {
      ghost var answer;
      outcome, answer, found := CallAndRecord(session, row);
      reply := Some(answer);
    }
    SettledMeans(session, row, outcome);
  }

  lemma SettledMeans(session: Session, row: nat, outcome: Outcome)
    requires session.Valid() && row < |session.s.phases| && session.s.phases[row] == Settled(outcome)
    ensures outcome == Skipped ==> session.s.breaker.tripped && (row in session.s.wire ==> row in session.carried)
    ensures outcome != Skipped ==> row in session.s.wire
    ensures Success(outcome) ==> row in session.s.touched
  {
    session.Lawful();
  }

  // ---- The call as a whole ----

  /** The call is a run of the machine that ends: by return, with the counts of its last state, or
      by exception. */
  ghost predicate Performed(
    cfg: Config, dest: Store, carried: set<nat>, fates: seq<Fate>, r: Result<map<Outcome, nat>, ()>, after: Store)
  {
    exists steps, s ::
      && Runs(cfg, dest, carried, steps, s) && Follows(fates, s) && s.dest == after
      && match r
         case Ok(counts) => s.main.Returned? && Tallied(counts, s)
         case Err(_) => s.main.Aborted?
  }

  /** `sync_records`, from the destination as it is to the destination it leaves. Earlier runs of
      the same batch may have left requests on the wire for the rows in `carried`; `fates` says what
      becomes of this run's. */
  method SyncRecords(cfg: Config, dest: Store, carried: set<nat>, fates: seq<Fate>)
    returns (r: Result<map<Outcome, nat>, ()>, after: Store)
    requires forall i | i in carried :: i < |cfg.items|
    requires |fates| == |cfg.items|
    ensures cfg.workers < 1 ==> r.Err? && after == dest
    ensures cfg.workers >= 1 ==> Performed(cfg, dest, carried, fates, r, after)
    ensures cfg.workers >= 1 && NoneBreaks(fates) ==> r.Ok?
    ensures cfg.workers >= 1 ==> (r.Ok? && r.value[Failed] == 0 <==> AllReply(fates))
    ensures r.Ok? ==>
              && r.value.Keys == {Created, Updated, Failed, Skipped}
              && r.value[Created] + r.value[Updated] + r.value[Failed] + r.value[Skipped] == |cfg.items|
              && (r.value[Skipped] > 0 ==> r.value[Failed] >= Breaker.Limit(cfg.threshold))
    ensures Addressable(cfg) ==> PartOf(cfg.items, dest, after)
    ensures Addressable(cfg) && r.Ok? && r.value[Failed] == 0 ==> after == ApplyAll(dest, cfg.items)
    ensures Addressable(cfg) && r.Ok? && (forall i | 0 <= i < |cfg.items| :: cfg.items[i].key in dest) ==>
              r.value[Created] == 0
  {
    if cfg.workers < 1 {
      OverlayNothing(dest);
      assert {} <= Members(cfg.items);
      return Err(()), dest;
    }
    var session := new Session(cfg, dest, carried, fates);
    r := SyncLoop(session);
    after := session.s.dest;
    AfterTheRun(session);
  }

  lemma AfterTheRun(session: Session)
    requires session.Valid() && (session.s.main.Returned? || session.s.main.Aborted?)
    ensures NoneBreaks(session.fates) ==> session.s.main.Returned?
    ensures session.s.main.Returned? && Count(session.s, Failed) == 0 <==> AllReply(session.fates)
    ensures session.s.main.Returned? ==>
              && Count(session.s, Created) + Count(session.s, Updated)
               + Count(session.s, Failed) + Count(session.s, Skipped) == |session.cfg.items|
              && (Count(session.s, Skipped) > 0 ==> Count(session.s, Failed) >= Breaker.Limit(session.cfg.threshold))
    ensures Addressable(session.cfg) ==> PartOf(session.cfg.items, session.before, session.s.dest)
    ensures Addressable(session.cfg) && session.s.main.Returned? ==>
              && (Count(session.s, Failed) == 0 ==> session.s.dest == ApplyAll(session.before, session.cfg.items))
              && ((forall i | 0 <= i < |session.cfg.items| :: session.cfg.items[i].key in session.before) ==>
                    Count(session.s, Created) == 0)
  {
    var cfg, before, carried, steps, s := session.cfg, session.before, session.carried, session.steps, session.s;
    Invariants(cfg, before, carried, steps, s);
    FatesDecide(cfg, before, carried, steps, s, session.fates);
    assert ItemsAt(cfg.items, s.touched) <= Members(cfg.items);
    if s.main.Returned? {
      Conservation(cfg, before, carried, steps, s);
      SkippedMeansFailed(cfg, before, carried, steps, s);
      if Addressable(cfg) {
        if Count(s, Failed) == 0 {
          FailureFreeRunIsACleanPass(cfg, before, carried, steps, s);
        }
        if forall i | 0 <= i < |cfg.items| :: cfg.items[i].key in before {
          RerunReportsUpdates(cfg, before, carried, steps, s);
        }
      }
    }
  }
}
