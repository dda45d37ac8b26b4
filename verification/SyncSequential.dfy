/** With one request at a time the concurrent machine is a plain loop over the rows. */
module SyncSequential {
  import opened Wrappers
  import opened Destination
  import opened SyncMachine
  import opened SyncInvariants
  import Breaker

  // ---- The plain loop ----

  datatype Ledger = Ledger(breaker: Breaker.State, outcomes: seq<Outcome>)

  function Observe(threshold: int, b: Breaker.State, o: Outcome): Breaker.State {
    match o
    case Failed => Breaker.Record(threshold, b, false)
    case Created => Breaker.Record(threshold, b, true)
    case Updated => Breaker.Record(threshold, b, true)
    case _ => b
  }

  /** Attempts the rows in order, each answered as `answers` says, until the breaker trips; skips
      every later row. */
  function InOrder(threshold: int, answers: seq<Outcome>): (l: Ledger)
    ensures |l.outcomes| == |answers|
  {
    if answers == [] then Ledger(Breaker.CLOSED, [])
    else
      var l := InOrder(threshold, answers[..|answers| - 1]);
      var answer := answers[|answers| - 1];
      if l.breaker.tripped then Ledger(l.breaker, l.outcomes + [Skipped])
      else Ledger(Observe(threshold, l.breaker, answer), l.outcomes + [answer])
  }

  /** The outcomes of one row depend on the rows before it only. */
  lemma {:induction false} InOrderPrefix(threshold: int, answers: seq<Outcome>, k: nat)
    requires k < |answers|
    ensures InOrder(threshold, answers).outcomes[..k] == InOrder(threshold, answers[..k]).outcomes
    ensures InOrder(threshold, answers).outcomes[k]
         == if InOrder(threshold, answers[..k]).breaker.tripped then Skipped else answers[k]
  {
    var init := answers[..|answers| - 1];
    if k < |init| {
      InOrderPrefix(threshold, init, k);
      assert init[..k] == answers[..k];
    }
  }

  predicate FailuresInARow(answers: seq<Outcome>, at: nat, length: nat) {
    at + length <= |answers| && forall i | at <= i < at + length :: answers[i] == Failed
  }

  function Flags(answers: seq<Outcome>): Breaker.History {
    seq(|answers|, i requires 0 <= i < |answers| => answers[i] != Failed)
  }

  lemma {:induction false} InOrderReplays(threshold: int, answers: seq<Outcome>)
    requires forall i | 0 <= i < |answers| :: Success(answers[i]) || answers[i] == Failed
    ensures InOrder(threshold, answers).breaker == Breaker.Replay(threshold, Flags(answers))
  {
    if answers != [] {
      var init := answers[..|answers| - 1];
      InOrderReplays(threshold, init);
      assert Flags(answers)[..|answers| - 1] == Flags(init);
    }
  }

  /** A row is skipped exactly when a run of failures as long as the limit lies before it. */
  lemma {:induction false} SkippedAfterTheFirstRun(threshold: int, answers: seq<Outcome>, k: nat)
    requires forall i | 0 <= i < |answers| :: Success(answers[i]) || answers[i] == Failed
    requires k < |answers|
    ensures InOrder(threshold, answers).outcomes[k] == Skipped
       <==> exists at: nat :: FailuresInARow(answers[..k], at, Breaker.Limit(threshold))
    ensures InOrder(threshold, answers).outcomes[k] in {Skipped, answers[k]}
  {
    InOrderPrefix(threshold, answers, k);
    InOrderReplays(threshold, answers[..k]);
    Breaker.BreakerEqualsHistory(threshold, Flags(answers[..k]));
    RunsAgree(answers[..k], Breaker.Limit(threshold));
  }

  lemma RunsAgree(answers: seq<Outcome>, length: nat)
    ensures (exists at: nat :: FailuresInARow(answers, at, length)) <==> Breaker.Sustained(Flags(answers), length)
  {
    if at: nat :| FailuresInARow(answers, at, length) {
      assert Breaker.FailureRun(Flags(answers), at, length);
    }
    if at: nat :| Breaker.FailureRun(Flags(answers), at, length) {
      forall i | at <= i < at + length
        ensures answers[i] == Failed
      {
        assert !Flags(answers)[i];
      }
      assert FailuresInARow(answers, at, length);
    }
  }

  // ---- The machine ----

  /** The row, if its call has ended, ended with this answer. */
  predicate Answered(answer: Outcome, p: Phase) {
    && (p.Responded? ==> p.answer == answer)
    && (Decision(p).Some? && Decision(p) != Some(Skipped) ==> Decision(p) == Some(answer))
  }

  /** `answers` says, for every row that was requested, what its call ended with. */
  predicate Answers(answers: seq<Outcome>, s: State) {
    && |answers| == |s.phases|
    && forall i | 0 <= i < |s.phases| :: Answered(answers[i], s.phases[i])
  }

  /** A later row is under way only when every earlier one is finished. */
  predicate OneAtATime(s: State) {
    forall i, j | 0 <= i < j < |s.phases| ::
      !s.phases[j].Unsubmitted? && !s.phases[j].Queued? ==> Finished(s.phases[i])
  }

  lemma OneAtATimeKept(cfg: Config, s: State, step: Step)
    requires Books(cfg, s) && Accounts(cfg, s) && Fifo(s) && Enabled(cfg, s, step)
    requires Concurrency(cfg) == 1 && OneAtATime(s)
    ensures OneAtATime(Apply(cfg, s, step))
  {
    StepMovesOneRow(cfg, s, step);
    if step.Start? {
      NobodyElseBusy(cfg, s, step.row);
    }
    MoveInTurn(s, Apply(cfg, s, step), RowOf(s, step));
  }

  lemma MoveInTurn(s: State, s': State, i: nat)
    requires OneAtATime(s) && Fifo(s)
    requires forall j, k | 0 <= j < k < |s.phases| :: s.phases[j].Unsubmitted? ==> s.phases[k].Unsubmitted?
    requires s'.phases == s.phases || RowMoves(s, s', i)
    requires s'.phases != s.phases && s.phases[i].Queued? ==>
               && (forall j | 0 <= j < |s.phases| :: Score(Busy, s.phases[j]) == 0)
               && (forall j | 0 <= j < i :: !s.phases[j].Queued?)
    ensures OneAtATime(s')
  {
  }

  lemma NobodyElseBusy(cfg: Config, s: State, i: nat)
    requires Books(cfg, s) && Accounts(cfg, s) && Enabled(cfg, s, Start(i)) && Concurrency(cfg) == 1
    ensures forall j | 0 <= j < |s.phases| :: Score(Busy, s.phases[j]) == 0
  {
    var s' := Apply(cfg, s, Start(i));
    BooksKept(cfg, s, Start(i));
    AccountsKept(cfg, s, Start(i));
    BusyBound(cfg, s');
    SumUpdate(Busy, s.phases, i, Started);
    SumZero(Busy, s.phases);
  }

  /** The first `k` rows are decided, as the plain loop decides them, and no other is. */
  ghost predicate Abreast(cfg: Config, answers: seq<Outcome>, s: State, k: nat) {
    && k <= |s.phases| == |answers|
    && (forall i | 0 <= i < |s.phases| :: Decision(s.phases[i]).Some? <==> i < k)
    && (forall i | 0 <= i < k :: Decision(s.phases[i]) == Some(InOrder(cfg.threshold, answers).outcomes[i]))
    && s.breaker == InOrder(cfg.threshold, answers[..k]).breaker
    && (forall i | 0 <= i < |s.phases| && (s.phases[i].Requesting? || s.phases[i].Responded?) ::
          !s.breaker.tripped)
  }

  /** The row that a step decides is the next one, and it is decided as the plain loop would. */
  lemma DecidesNext(cfg: Config, answers: seq<Outcome>, s: State, i: nat, s': State, o: Outcome)
    requires Books(cfg, s) && OneAtATime(s) && Abreast(cfg, answers, s, i)
    requires i < |s.phases| && s'.phases == s.phases[i := Settled(o)]
    requires o == if s.breaker.tripped then Skipped else answers[i]
    requires s'.breaker == if s.breaker.tripped then s.breaker else Observe(cfg.threshold, s.breaker, o)
    requires Score(Busy, s.phases[i]) == 1
    ensures Abreast(cfg, answers, s', i + 1)
  {
    InOrderPrefix(cfg.threshold, answers, i);
    assert answers[..i + 1][..i] == answers[..i];
  }

  /** A busy row that is not decided is the first undecided one. */
  lemma BusyIsNext(cfg: Config, answers: seq<Outcome>, s: State, i: nat, k: nat)
    requires OneAtATime(s) && Abreast(cfg, answers, s, k)
    requires i < |s.phases| && Score(Busy, s.phases[i]) == 1 && Decision(s.phases[i]).None?
    ensures i == k
  {
    assert forall j | 0 <= j < i :: Decision(s.phases[j]).Some?;
    assert k < |s.phases| ==> Decision(s.phases[k]).None?;
  }

  /** A move that decides nothing, made with the breaker closed if a request is involved. */
  lemma MoveStaysAbreast(cfg: Config, answers: seq<Outcome>, s: State, s': State, i: nat, k: nat)
    requires Abreast(cfg, answers, s, k) && s'.breaker == s.breaker
    requires s'.phases == s.phases || RowMoves(s, s', i)
    requires s'.phases != s.phases ==>
               && Decision(s'.phases[i]) == Decision(s.phases[i])
               && (s'.phases[i].Requesting? || s'.phases[i].Responded? ==> !s.breaker.tripped)
    ensures Abreast(cfg, answers, s', k)
  {
  }

  lemma AbreastKept(cfg: Config, answers: seq<Outcome>, s: State, step: Step, k: nat) returns (k': nat)
    requires Books(cfg, s) && Accounts(cfg, s) && OneAtATime(s) && Enabled(cfg, s, step)
    requires Abreast(cfg, answers, s, k) && Answers(answers, Apply(cfg, s, step))
    ensures Abreast(cfg, answers, Apply(cfg, s, step), k')
  {
    var i, s' := RowOf(s, step), Apply(cfg, s, step);
    StepMovesOneRow(cfg, s, step);
    if RowMoves(s, s', i) && s'.phases[i].Settled? {
      SettlesNext(cfg, answers, s, step, k);
      k' := k + 1;
    } else {
      assert s'.breaker == s.breaker;
      MoveStaysAbreast(cfg, answers, s, s', i, k);
      k' := k;
    }
  }

  lemma SettlesNext(cfg: Config, answers: seq<Outcome>, s: State, step: Step, k: nat)
    requires Books(cfg, s) && Accounts(cfg, s) && OneAtATime(s) && Enabled(cfg, s, step)
    requires Abreast(cfg, answers, s, k) && Answers(answers, Apply(cfg, s, step))
    requires var i, s' := RowOf(s, step), Apply(cfg, s, step); RowMoves(s, s', i) && s'.phases[i].Settled?
    ensures Abreast(cfg, answers, Apply(cfg, s, step), k + 1)
  {
    var i, s' := RowOf(s, step), Apply(cfg, s, step);
    var o := s'.phases[i].outcome;
    BusyIsNext(cfg, answers, s, i, k);
    assert Decision(s'.phases[i]) == Some(o);
    DecidesNext(cfg, answers, s, i, s', o);
  }

  lemma AnsweredBefore(answer: Outcome, tripped: bool, p: Phase, p': Phase)
    requires Moves(tripped, p, p') && WellTyped(p) && Answered(answer, p')
    ensures Answered(answer, p)
  {
  }

  lemma AnswersBefore(cfg: Config, answers: seq<Outcome>, s: State, step: Step)
    requires Books(cfg, s) && Accounts(cfg, s) && Enabled(cfg, s, step)
    requires Answers(answers, Apply(cfg, s, step))
    ensures Answers(answers, s)
  {
    var i, s' := RowOf(s, step), Apply(cfg, s, step);
    StepMovesOneRow(cfg, s, step);
    if RowMoves(s, s', i) {
      AnsweredBefore(answers[i], s.breaker.tripped, s.phases[i], s'.phases[i]);
    }
    assert forall j | 0 <= j < |s.phases| && j != i :: s'.phases[j] == s.phases[j];
  }

  lemma {:induction false} StaysAbreast(
    cfg: Config, dest: Store, carried: set<nat>, steps: seq<Step>, s: State, answers: seq<Outcome>)
    returns (k: nat)
    requires Runs(cfg, dest, carried, steps, s) && Concurrency(cfg) == 1 && Answers(answers, s)
    ensures OneAtATime(s) && Abreast(cfg, answers, s, k)
  {
    if steps == [] {
      assert answers[..0] == [];
      return 0;
    }
    var init, before := LastStep(cfg, dest, carried, steps, s);
    Invariants(cfg, dest, carried, init, before);
    AnswersBefore(cfg, answers, before, steps[|steps| - 1]);
    k := StaysAbreast(cfg, dest, carried, init, before, answers);
    OneAtATimeKept(cfg, before, steps[|steps| - 1]);
    k := AbreastKept(cfg, answers, before, steps[|steps| - 1], k);
  }

  /** With one request at a time (one worker, or a window of one) every row's outcome, at every
      moment of every run, is the plain loop's; so a run that returns has its outcomes exactly. */
  lemma {:induction false} SequentialRefinement(
    cfg: Config, dest: Store, carried: set<nat>, steps: seq<Step>, s: State, answers: seq<Outcome>)
    requires Runs(cfg, dest, carried, steps, s) && Concurrency(cfg) == 1 && Answers(answers, s)
    ensures |s.phases| == |answers|
    ensures forall i | 0 <= i < |answers| && Decision(s.phases[i]).Some? ::
              Decision(s.phases[i]).value == InOrder(cfg.threshold, answers).outcomes[i]
    ensures s.main.Returned? ==> forall i | 0 <= i < |answers| ::
              s.phases[i] == Collected(InOrder(cfg.threshold, answers).outcomes[i])
  {
    Invariants(cfg, dest, carried, steps, s);
    var k := StaysAbreast(cfg, dest, carried, steps, s, answers);
    if s.main.Returned? {
      assert forall i | 0 <= i < |answers| :: s.phases[i].Collected? && Decision(s.phases[i]).Some?;
    }
  }
}
