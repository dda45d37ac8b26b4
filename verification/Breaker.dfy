/** The consecutive-failure circuit breaker: its state as a value, what a whole history of
    recorded outcomes means, and the class whose fields the worker threads update. */
module Breaker {

  /** `true` is a recorded success, `false` a recorded failure. */
  type History = seq<bool>

  datatype State = State(failures: nat, tripped: bool)

  const CLOSED := State(0, false)

  function Record(threshold: int, b: State, ok: bool): State {
    if b.tripped then b
    else if ok then State(0, false)
    else State(b.failures + 1, b.failures + 1 >= threshold)
  }

  function Replay(threshold: int, h: History): State {
    if h == [] then CLOSED
    else Record(threshold, Replay(threshold, h[..|h| - 1]), h[|h| - 1])
  }

  /** A threshold below one trips on the first failure, exactly as a threshold of one. */
  function Limit(threshold: int): nat {
    if threshold < 1 then 1 else threshold
  }

  // ---- What a history means, without replaying it ----

  predicate FailureRun(h: History, at: nat, length: nat) {
    at + length <= |h| && forall i | at <= i < at + length :: !h[i]
  }

  ghost predicate Sustained(h: History, length: nat) {
    exists at: nat :: FailureRun(h, at, length)
  }

  /** Length of the run of failures the history ends with. */
  function Trailing(h: History): (t: nat)
    ensures t <= |h| && FailureRun(h, |h| - t, t)
    ensures t < |h| ==> h[|h| - 1 - t]
  {
    if h == [] || h[|h| - 1] then 0 else 1 + Trailing(h[..|h| - 1])
  }

  function Failures(h: History): nat {
    if h == [] then 0 else Failures(h[..|h| - 1]) + if h[|h| - 1] then 0 else 1
  }

  /** How many outcomes were recorded after the one that tripped the breaker. */
  function Overrun(threshold: int, h: History): nat {
    if h == [] || !Replay(threshold, h).tripped then 0
    else
      var before := h[..|h| - 1];
      if Replay(threshold, before).tripped then 1 + Overrun(threshold, before) else 0
  }

  /** The call that recorded outcome `i` was told that it had just tripped the breaker. */
  predicate Announced(threshold: int, h: History, i: nat)
    requires i < |h|
  {
    !Replay(threshold, h[..i]).tripped && Replay(threshold, h[..i + 1]).tripped
  }

  lemma SustainedGrows(h: History, more: History, length: nat)
    requires Sustained(h, length)
    ensures Sustained(h + more, length)
  {
    var at: nat :| FailureRun(h, at, length);
    assert FailureRun(h + more, at, length);
  }

  lemma {:induction false} TrailingRun(h: History, at: nat)
    requires at <= |h| && FailureRun(h, at, |h| - at)
    ensures Trailing(h) >= |h| - at
  {
  }

  lemma {:induction false} NewRunIsTrailing(h: History, length: nat)
    requires h != [] && length >= 1 && Sustained(h, length)
    ensures Sustained(h[..|h| - 1], length) || Trailing(h) >= length
  {
    var at: nat :| FailureRun(h, at, length);
    if at + length < |h| {
      assert FailureRun(h[..|h| - 1], at, length);
    } else {
      TrailingRun(h, at);
    }
  }

  lemma {:induction false} TrailingIsARun(h: History, length: nat)
    requires Trailing(h) >= length
    ensures Sustained(h, length)
  {
    assert FailureRun(h, |h| - length, length);
  }

  /** A run of failures that is new in the last outcome is the trailing run. */
  lemma {:induction false} SustainedAtTheEnd(h: History, length: nat)
    requires h != [] && length >= 1
    ensures Sustained(h, length) <==> Sustained(h[..|h| - 1], length) || Trailing(h) >= length
  {
    var before, last := h[..|h| - 1], [h[|h| - 1]];
    assert before + last == h;
    if Sustained(before, length) {
      SustainedGrows(before, last, length);
    } else if Trailing(h) >= length {
      TrailingIsARun(h, length);
    } else if Sustained(h, length) {
      NewRunIsTrailing(h, length);
    }
  }

  /** The breaker is tripped exactly by a history that holds a long enough run of failures;
      until then its counter is the run of failures the history ends with. */
  lemma {:induction false} BreakerEqualsHistory(threshold: int, h: History)
    ensures Replay(threshold, h).tripped <==> Sustained(h, Limit(threshold))
    ensures !Replay(threshold, h).tripped ==>
              Replay(threshold, h).failures == Trailing(h) < Limit(threshold)
  {
    if h != [] {
      BreakerEqualsHistory(threshold, h[..|h| - 1]);
      SustainedAtTheEnd(h, Limit(threshold));
    } else {
      assert forall at: nat :: !FailureRun(h, at, Limit(threshold));
    }
  }

  /** The latch never resets. */
  lemma {:induction false} LatchHolds(threshold: int, h: History, more: History)
    requires Replay(threshold, h).tripped
    ensures Replay(threshold, h + more).tripped
    ensures Replay(threshold, h + more) == Replay(threshold, h)
    ensures Overrun(threshold, h + more) == Overrun(threshold, h) + |more|
  {
    if more == [] {
      assert h + more == h;
    } else {
      LatchHolds(threshold, h, more[..|more| - 1]);
      assert (h + more)[..|h + more| - 1] == h + more[..|more| - 1];
    }
  }

  /** One call at most is told that it tripped the breaker; one is, if the breaker is tripped,
      and it is the one that completes the first sustained run. */
  lemma {:induction false} AnnouncedOnce(threshold: int, h: History)
    ensures forall i, j | 0 <= i < |h| && 0 <= j < |h| ::
              Announced(threshold, h, i) && Announced(threshold, h, j) ==> i == j
    ensures Replay(threshold, h).tripped ==>
              Overrun(threshold, h) < |h| && Announced(threshold, h, |h| - 1 - Overrun(threshold, h))
  {
    forall i: nat, j: nat | i < j < |h| && Announced(threshold, h, i)
      ensures !Announced(threshold, h, j)
    {
      assert h[..i + 1] + h[i + 1..j] == h[..j];
      LatchHolds(threshold, h[..i + 1], h[i + 1..j]);
    }
    if Replay(threshold, h).tripped {
      TrippingOutcome(threshold, h);
    }
  }

  lemma {:induction false} TrippingOutcome(threshold: int, h: History)
    requires Replay(threshold, h).tripped
    ensures Overrun(threshold, h) < |h| && Announced(threshold, h, |h| - 1 - Overrun(threshold, h))
  {
    var before := h[..|h| - 1];
    if Replay(threshold, before).tripped {
      TrippingOutcome(threshold, before);
      var i := |h| - 1 - Overrun(threshold, h);
      assert before[..i] == h[..i] && before[..i + 1] == h[..i + 1];
    } else {
      assert h[..|h|] == h;
    }
  }

  lemma {:induction false} FailuresSplit(a: History, b: History)
    ensures Failures(a + b) == Failures(a) + Failures(b)
  {
    if b == [] {
      assert a + b == a;
    } else {
      assert (a + b)[..|a + b| - 1] == a + b[..|b| - 1];
      FailuresSplit(a, b[..|b| - 1]);
    }
  }

  lemma {:induction false} AllFailed(h: History)
    ensures Failures(h) <= |h|
    ensures Failures(h) == |h| <==> forall i | 0 <= i < |h| :: !h[i]
  {
    if h != [] {
      AllFailed(h[..|h| - 1]);
      assert h == h[..|h| - 1] + [h[|h| - 1]];
    }
  }

  lemma {:induction false} RunHasFailures(h: History, at: nat, length: nat)
    requires FailureRun(h, at, length)
    ensures Failures(h) >= length
  {
    var run := h[at..at + length];
    AllFailed(run);
    FailuresSplit(h[..at], run);
    FailuresSplit(h[..at] + run, h[at + length..]);
    assert h[..at] + run + h[at + length..] == h;
  }

  /** A tripped breaker has seen at least `Limit(threshold)` failures. */
  lemma {:induction false} TrippedHasFailures(threshold: int, h: History)
    requires Replay(threshold, h).tripped
    ensures Failures(h) >= Limit(threshold)
  {
    BreakerEqualsHistory(threshold, h);
    var at: nat :| FailureRun(h, at, Limit(threshold));
    RunHasFailures(h, at, Limit(threshold));
  }

  /** When nothing succeeds the breaker trips at the `Limit(threshold)`-th failure. */
  lemma {:induction false} OutageTripsAtLimit(threshold: int, h: History)
    requires forall i | 0 <= i < |h| :: !h[i]
    ensures Replay(threshold, h).tripped <==> |h| >= Limit(threshold)
    ensures Replay(threshold, h).tripped ==> Overrun(threshold, h) == |h| - Limit(threshold)
    ensures !Replay(threshold, h).tripped ==> Replay(threshold, h).failures == |h|
  {
    if h != [] {
      OutageTripsAtLimit(threshold, h[..|h| - 1]);
    }
  }

  /** The class; each method's body runs under the instance's lock, so it is one atomic step. */
  class ConsecutiveFailureCircuitBreaker {
    const threshold: int
    var consecutiveFailures: nat
    var tripped: bool
    ghost var history: History  // every outcome recorded so far, in completion order

    ghost predicate Valid()
      reads this
    {
      Snapshot() == Replay(threshold, history)
    }

    function Snapshot(): State
      reads this
    {
      State(consecutiveFailures, tripped)
    }

    constructor (threshold: int)
      ensures Valid() && this.threshold == threshold && history == []
      ensures Snapshot() == CLOSED
    {
      this.threshold := threshold;
      consecutiveFailures, tripped, history := 0, false, [];
    }

    /** Open exactly when the recorded outcomes hold a sustained run of failures. */
    method IsTripped() returns (open: bool)
      requires Valid()
      ensures open == Snapshot().tripped
      ensures open <==> Sustained(history, Limit(threshold))
    {
      BreakerEqualsHistory(threshold, history);
      open := tripped;
    }

    method RecordSuccess()
      requires Valid()
      modifies this
      ensures Valid() && history == old(history) + [true]
      ensures Snapshot() == Record(threshold, old(Snapshot()), true)
      ensures !old(tripped) ==> consecutiveFailures == 0
      ensures tripped == old(tripped)
    {
      if !tripped {
        consecutiveFailures := 0;
      } else {
        LatchHolds(threshold, history, [true]);
      }
      history := history + [true];
    }

    /** Tells the caller whether this very failure completed the first sustained run. */
    method RecordFailure() returns (justTripped: bool)
      requires Valid()
      modifies this
      ensures Valid() && history == old(history) + [false]
      ensures Snapshot() == Record(threshold, old(Snapshot()), false)
      ensures justTripped <==>
                Sustained(history, Limit(threshold)) && !Sustained(old(history), Limit(threshold))
      ensures justTripped <==> Announced(threshold, history, |history| - 1)
    {
      BreakerEqualsHistory(threshold, history);
      BreakerEqualsHistory(threshold, history + [false]);
      ghost var before := history;
      assert (before + [false])[..|before|] == before;
      history := history + [false];
      assert history[..|history|] == history;
      if tripped {
        return false;
      }
      consecutiveFailures := consecutiveFailures + 1;
      if consecutiveFailures >= threshold {
        tripped := true;
        return true;
      }
      return false;
    }
  }
}
