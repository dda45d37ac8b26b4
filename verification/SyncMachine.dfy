/** One call of `sync_records` as an interleaving of atomic steps: the main thread's submission
    and collection loops, the worker threads' tasks, and the requests on the wire. A run is any
    sequence of enabled steps, so a statement about all runs is one about all schedules. */
module SyncMachine {
  import opened Wrappers
  import opened Destination
  import Breaker
  import ODataKey

  /** What a task ends with. `Failed` is one of the three transport exceptions a task catches;
      `Raised` is any other exception, which its future keeps. */
  datatype Outcome = Created | Updated | Failed | Skipped | Raised

  /** Whether a task's own request has taken effect, and whether it found a record to update. */
  datatype Landing = NotYet | New | Existing

  /** Where one row's task is. */
  datatype Phase =
    | Unsubmitted
    | Queued                        // submitted, waiting for a worker
    | Started                       // taken by a worker, breaker not read yet
    | Requesting(landing: Landing)  // breaker was closed: the request is out
    | Responded(answer: Outcome)    // answered, outcome not recorded with the breaker yet
    | Settled(outcome: Outcome)     // recorded (or nothing to record), future not set yet
    | Done(outcome: Outcome)        // future completed
    | Collected(outcome: Outcome)   // counted by the main thread

  /** Where the main thread is. */
  datatype Main =
    | Submitting  // at the head of the loop over the rows
    | Collecting  // counting what `wait` returned
    | Draining    // in the loop over `as_completed`
    | Unwinding   // an exception is leaving the executor's block, which waits for all tasks
    | Returned
    | Aborted

  datatype Config = Config(
    endpoint: ODataKey.Endpoint, items: seq<Item>, workers: int, threshold: int, window: int)

  datatype State = State(
    phases: seq<Phase>,
    next: nat,               // rows submitted so far
    inFlight: set<nat>,
    pending: set<nat>,       // what `wait` returned and is not counted yet
    main: Main,
    breaker: Breaker.State,
    history: seq<bool>,      // outcomes recorded with the breaker, in completion order
    dest: Store,
    wire: set<nat>,          // rows with a request sent in this run or in an earlier one
    touched: set<nat>)       // rows with a request that took effect during this run

  datatype Step =
    | Start(row: nat)                     // a worker takes the oldest queued task
    | Check(row: nat)                     // the task reads `is_tripped`
    | Land(row: nat)                      // the task's request takes effect
    | Respond(row: nat, answer: Outcome)  // the task's call returns or raises
    | Record(row: nat)                    // the task records success or failure
    | Finish(row: nat)                    // the task's future completes
    | Stray(row: nat)                     // a late, retried or duplicated request takes effect
    | Wait(done: set<nat>)                // `wait(in_flight, FIRST_COMPLETED)` returns
    | Collect(row: nat)                   // `future.result()` is counted or raises
    | Submit
    | Drain                               // no rows left: enter the final loop
    | Return
    | Unwind                              // the executor's block has been left by exception

  // ---- Adding up over the rows ----

  datatype Tally = Busy | Exposed | Work | FailedCalls | GoodCalls | Open | Counted | CountedAs(outcome: Outcome)

  function Score(t: Tally, p: Phase): nat {
    match t
    case Busy => if p.Started? || p.Requesting? || p.Responded? || p.Settled? then 1 else 0
    case Exposed => if p.Requesting? || p.Responded? then 1 else 0
    case FailedCalls => if Decision(p) == Some(Failed) then 1 else 0
    case GoodCalls => if Decision(p) == Some(Created) || Decision(p) == Some(Updated) then 1 else 0
    case Open => if p.Unsubmitted? || p.Collected? then 0 else 1
    case Counted => if p.Collected? then 1 else 0
    case CountedAs(o) => if p == Collected(o) then 1 else 0
    case Work =>
      match p
      case Unsubmitted => 10
      case Queued => 7
      case Started => 6
      case Requesting(landing) => if landing == NotYet then 5 else 4
      case Responded(_) => 3
      case Settled(_) => 2
      case Done(_) => 1
      case Collected(_) => 0
  }

  function Sum(t: Tally, phases: seq<Phase>): nat {
    if phases == [] then 0
    else Sum(t, phases[..|phases| - 1]) + Score(t, phases[|phases| - 1])
  }

  /** The outcome a task is bound to return, once nothing can change it. */
  function Decision(p: Phase): Option<Outcome> {
    match p
    case Settled(o) => Some(o)
    case Done(o) => Some(o)
    case Collected(o) => Some(o)
    case _ => None
  }

  predicate Finished(p: Phase) {
    p.Done? || p.Collected?
  }

  predicate Success(o: Outcome) {
    o == Created || o == Updated
  }

  // ---- The machine ----

  function Window(cfg: Config): nat {
    if cfg.window < 1 then 1 else cfg.window
  }

  /** How many requests can be out at once. */
  function Concurrency(cfg: Config): nat
    requires cfg.workers >= 1
  {
    if cfg.workers < Window(cfg) then cfg.workers else Window(cfg)
  }

  /** The executor refuses to start with fewer than one worker; requests an earlier run of the
      same batch left on the wire are `carried` into this one. */
  ghost predicate WellFormed(cfg: Config, carried: set<nat>) {
    && cfg.workers >= 1
    && (forall i | i in carried :: i < |cfg.items|)
  }

  function Initial(cfg: Config, dest: Store, carried: set<nat>): State {
    State(seq(|cfg.items|, i => Unsubmitted), 0, {}, {}, Submitting, Breaker.CLOSED, [], dest, carried, {})
  }

  predicate Answerable(landing: Landing, answer: Outcome) {
    match answer
    case Created => landing == New
    case Updated => landing == Existing
    case Failed => true
    case Raised => true
    case Skipped => false
  }

  predicate AllFinished(s: State) {
    forall i | 0 <= i < |s.phases| && i < s.next :: Finished(s.phases[i])
  }

  predicate Enabled(cfg: Config, s: State, step: Step)
    requires |s.phases| == |cfg.items|
  {
    var n := |cfg.items|;
    match step
    case Start(i) =>
      && i < n && s.phases[i].Queued?
      && (forall j | 0 <= j < i :: !s.phases[j].Queued?)
      && Sum(Busy, s.phases) < cfg.workers
    case Check(i) => i < n && s.phases[i].Started?
    case Land(i) => i < n && s.phases[i] == Requesting(NotYet)
    case Respond(i, answer) => i < n && s.phases[i].Requesting? && Answerable(s.phases[i].landing, answer)
    case Record(i) => i < n && s.phases[i].Responded?
    case Finish(i) => i < n && s.phases[i].Settled?
    case Stray(i) => i < n && i in s.wire
    case Wait(done) =>
      && s.main == Submitting && s.next < n && |s.inFlight| >= cfg.window
      && done <= s.inFlight && (done == {} ==> s.inFlight == {})
      && (forall i | i in done :: i < n && s.phases[i].Done?)
    case Collect(i) =>
      && i < n && s.phases[i].Done?
      && ((s.main == Collecting && i in s.pending) || (s.main == Draining && i in s.inFlight))
    case Submit =>
      && s.next < n
      && ((s.main == Submitting && |s.inFlight| < cfg.window) || (s.main == Collecting && s.pending == {}))
    case Drain => s.main == Submitting && s.next == n
    case Return => s.main == Draining && s.inFlight == {}
    case Unwind => s.main == Unwinding && AllFinished(s)
  }

  function Patched(cfg: Config, s: State, i: nat): State
    requires i < |cfg.items|
  {
    s.(dest := Send(cfg.endpoint, s.dest, cfg.items[i]), touched := s.touched + {i})
  }

  function Move(s: State, i: nat, p: Phase): State
    requires i < |s.phases|
  {
    s.(phases := s.phases[i := p])
  }

  function Apply(cfg: Config, s: State, step: Step): State
    requires |s.phases| == |cfg.items| && Enabled(cfg, s, step)
  {
    match step
    case Start(i) => Move(s, i, Started)
    case Check(i) =>
      if s.breaker.tripped then Move(s, i, Settled(Skipped))
      else Move(s, i, Requesting(NotYet)).(wire := s.wire + {i})
    case Land(i) =>
      Patched(cfg, Move(s, i, Requesting(if cfg.items[i].key in s.dest then Existing else New)), i)
    case Respond(i, answer) =>
      Move(s, i, if answer == Raised then Settled(Raised) else Responded(answer))
    case Record(i) =>
      var ok := s.phases[i].answer != Failed;
      Move(s, i, Settled(s.phases[i].answer)).(
        breaker := Breaker.Record(cfg.threshold, s.breaker, ok), history := s.history + [ok])
    case Finish(i) => Move(s, i, Done(s.phases[i].outcome))
    case Stray(i) => Patched(cfg, s, i)
    case Wait(done) => s.(main := Collecting, pending := done, inFlight := s.inFlight - done)
    case Collect(i) =>
      if s.phases[i].outcome == Raised then s.(main := Unwinding)
      else
        Move(s, i, Collected(s.phases[i].outcome)).(inFlight := s.inFlight - {i}, pending := s.pending - {i})
    case Submit =>
      Move(s, s.next, Queued).(next := s.next + 1, inFlight := s.inFlight + {s.next}, main := Submitting)
    case Drain => s.(main := Draining)
    case Return => s.(main := Returned)
    case Unwind => s.(main := Aborted)
  }

  ghost predicate Goes(cfg: Config, states: seq<State>, steps: seq<Step>, i: nat)
    requires i < |steps| < |states|
  {
    && |states[i].phases| == |cfg.items|
    && Enabled(cfg, states[i], steps[i])
    && states[i + 1] == Apply(cfg, states[i], steps[i])
  }

  ghost predicate Trace(cfg: Config, states: seq<State>, steps: seq<Step>) {
    && |states| == |steps| + 1
    && forall i | 0 <= i < |steps| :: Goes(cfg, states, steps, i)
  }

  /** `s` is reached from a fresh run by `steps`, each enabled when its turn comes. */
  ghost predicate Runs(cfg: Config, dest: Store, carried: set<nat>, steps: seq<Step>, s: State) {
    && WellFormed(cfg, carried)
    && exists states ::
         Trace(cfg, states, steps) && states[0] == Initial(cfg, dest, carried) && states[|steps|] == s
  }

  lemma RunsFromTheStart(cfg: Config, dest: Store, carried: set<nat>)
    requires WellFormed(cfg, carried)
    ensures Runs(cfg, dest, carried, [], Initial(cfg, dest, carried))
  {
    assert Trace(cfg, [Initial(cfg, dest, carried)], []);
  }

  lemma RunsExtend(cfg: Config, dest: Store, carried: set<nat>, steps: seq<Step>, s: State, step: Step)
    requires Runs(cfg, dest, carried, steps, s)
    requires |s.phases| == |cfg.items| && Enabled(cfg, s, step)
    ensures Runs(cfg, dest, carried, steps + [step], Apply(cfg, s, step))
  {
    var states :| Trace(cfg, states, steps) && states[0] == Initial(cfg, dest, carried) && states[|steps|] == s;
    var longer := states + [Apply(cfg, s, step)];
    forall i | 0 <= i < |steps + [step]|
      ensures Goes(cfg, longer, steps + [step], i)
    {
      assert i < |steps| ==> Goes(cfg, states, steps, i);
    }
    assert Trace(cfg, longer, steps + [step]);
  }

  lemma LastStep(cfg: Config, dest: Store, carried: set<nat>, steps: seq<Step>, s: State)
    returns (init: seq<Step>, before: State)
    requires Runs(cfg, dest, carried, steps, s) && steps != []
    ensures init == steps[..|steps| - 1]
    ensures Runs(cfg, dest, carried, init, before) && |before.phases| == |cfg.items|
    ensures Enabled(cfg, before, steps[|steps| - 1]) && s == Apply(cfg, before, steps[|steps| - 1])
  {
    var states :| Trace(cfg, states, steps) && states[0] == Initial(cfg, dest, carried) && states[|steps|] == s;
    init, before := steps[..|steps| - 1], states[|steps| - 1];
    assert Goes(cfg, states, steps, |steps| - 1);
    forall i | 0 <= i < |init|
      ensures Goes(cfg, states[..|steps|], init, i)
    {
      assert Goes(cfg, states, steps, i);
    }
    assert Trace(cfg, states[..|steps|], init);
  }

  // ---- What a step does to one row ----

  /** How a row's task may move, the breaker being tripped or not. */
  predicate Moves(tripped: bool, p: Phase, p': Phase) {
    match p
    case Unsubmitted => p' == Queued
    case Queued => p' == Started
    case Started => p' == if tripped then Settled(Skipped) else Requesting(NotYet)
    case Requesting(landing) =>
      || (landing == NotYet && (p' == Requesting(New) || p' == Requesting(Existing)))
      || (p'.Responded? && Answerable(landing, p'.answer) && p'.answer != Raised)
      || p' == Settled(Raised)
    case Responded(answer) => p' == Settled(answer)
    case Settled(outcome) => p' == Done(outcome)
    case Done(outcome) => outcome != Raised && p' == Collected(outcome)
    case Collected(_) => false
  }

  /** Nothing but row `i` moves. */
  ghost predicate RowMoves(s: State, s': State, i: nat) {
    && i < |s.phases|
    && |s'.phases| == |s.phases|
    && Moves(s.breaker.tripped, s.phases[i], s'.phases[i])
    && (forall j | 0 <= j < |s.phases| && j != i :: s'.phases[j] == s.phases[j])
    && s'.phases == s.phases[i := s'.phases[i]]
  }

  function RowOf(s: State, step: Step): nat {
    match step
    case Submit => s.next
    case Wait(_) => 0
    case Drain => 0
    case Return => 0
    case Unwind => 0
    case _ => step.row
  }

  /** No step moves more than one row. */
  lemma StepMovesOneRow(cfg: Config, s: State, step: Step)
    requires |s.phases| == |cfg.items| && Enabled(cfg, s, step)
    requires step.Submit? ==> s.phases[s.next].Unsubmitted?
    ensures Apply(cfg, s, step).phases == s.phases || RowMoves(s, Apply(cfg, s, step), RowOf(s, step))
  {
  }

  /** A request that is out moves only by taking effect or by being answered. */
  lemma RequestMoves(cfg: Config, s: State, step: Step, i: nat)
    requires |s.phases| == |cfg.items| && Enabled(cfg, s, step)
    requires RowMoves(s, Apply(cfg, s, step), i) && s.phases[i].Requesting?
    ensures step == Land(i) || (step.Respond? && step.row == i)
  {
    match step
    case Land(_) =>
    case Respond(_, _) =>
    case _ =>
  }

  // ---- Sums under change ----

  lemma {:induction false} SumUpdate(t: Tally, phases: seq<Phase>, i: nat, p: Phase)
    requires i < |phases|
    ensures Sum(t, phases[i := p]) + Score(t, phases[i]) == Sum(t, phases) + Score(t, p)
  {
    var last := |phases| - 1;
    if i < last {
      SumUpdate(t, phases[..last], i, p);
      assert phases[i := p][..last] == phases[..last][i := p];
    } else {
      assert phases[i := p][..last] == phases[..last];
    }
  }

  lemma {:induction false} SumZero(t: Tally, phases: seq<Phase>)
    ensures Sum(t, phases) == 0 <==> forall i | 0 <= i < |phases| :: Score(t, phases[i]) == 0
  {
    if phases != [] {
      SumZero(t, phases[..|phases| - 1]);
      assert forall i | 0 <= i < |phases| - 1 :: phases[i] == phases[..|phases| - 1][i];
    }
  }

  /** If `a` never scores more than `b`, and less at row `k`, its sum is less. */
  lemma {:induction false} SumBelow(a: Tally, b: Tally, phases: seq<Phase>, k: nat)
    requires forall i | 0 <= i < |phases| :: Score(a, phases[i]) <= Score(b, phases[i])
    ensures Sum(a, phases) <= Sum(b, phases)
    ensures k < |phases| && Score(a, phases[k]) < Score(b, phases[k]) ==> Sum(a, phases) < Sum(b, phases)
  {
    if phases != [] {
      var init := phases[..|phases| - 1];
      assert forall i | 0 <= i < |init| :: phases[i] == init[i];
      SumBelow(a, b, init, k);
    }
  }

  /** Rows that score one each and lie in `rows` number no more than `rows` does. */
  lemma {:induction false} SumWithin(t: Tally, phases: seq<Phase>, rows: set<nat>)
    requires forall i | 0 <= i < |phases| :: Score(t, phases[i]) <= if i in rows then 1 else 0
    ensures Sum(t, phases) <= |rows|
  {
    if phases != [] {
      var last := |phases| - 1;
      assert forall i | 0 <= i < last :: phases[i] == phases[..last][i];
      SumWithin(t, phases[..last], rows - {last});
    }
  }

  /** Rows that score one each and are exactly `rows` number what `rows` does. */
  lemma {:induction false} SumMembers(t: Tally, phases: seq<Phase>, rows: set<nat>)
    requires forall i | 0 <= i < |phases| :: Score(t, phases[i]) == if i in rows then 1 else 0
    requires forall i | i in rows :: i < |phases|
    ensures Sum(t, phases) == |rows|
  {
    if phases == [] {
      assert rows == {};
    } else {
      var last := |phases| - 1;
      assert forall i | 0 <= i < last :: phases[i] == phases[..last][i];
      SumMembers(t, phases[..last], rows - {last});
    }
  }
}
