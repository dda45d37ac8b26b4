/** What the destination and the network do with each row's request, as an input of the run. For
    every run there are fates that it follows, and whatever the fates, a run that follows them
    can always go on: the machine has every outcome the program can meet. */
module SyncFates {
  import opened Wrappers
  import opened Destination
  import opened SyncMachine
  import opened SyncInvariants
  import opened SyncOutcome
  import Breaker

  /** A request takes effect and its response arrives; or one of the three transport exceptions is
      raised instead of a response, the request having taken effect or not; or any other exception
      is. A row that is skipped does not meet its fate. */
  datatype Fate = Replies | Loses(lands: bool) | Breaks(lands: bool)

  predicate Lands(f: Fate) {
    f.Replies? || f.lands
  }

  predicate Fits(f: Fate, o: Outcome) {
    match f
    case Replies => Success(o)
    case Loses(_) => o == Failed
    case Breaks(_) => o == Raised
  }

  /** What the row's request has met so far is its fate. */
  predicate FollowsRow(f: Fate, p: Phase, touched: bool) {
    && (p.Requesting? && p.landing != NotYet ==> Lands(f))
    && (p.Responded? ==> Fits(f, p.answer) && (Lands(f) ==> touched))
    && (Decision(p).Some? && Decision(p) != Some(Skipped) ==>
          Fits(f, Decision(p).value) && (Lands(f) ==> touched))
  }

  predicate Follows(fates: seq<Fate>, s: State) {
    && |fates| == |s.phases|
    && forall i | 0 <= i < |s.phases| :: FollowsRow(fates[i], s.phases[i], i in s.touched)
  }

  /** The step is one that the row's fate allows. */
  predicate Obeys(fates: seq<Fate>, s: State, step: Step) {
    match step
    case Land(i) => i < |fates| && Lands(fates[i])
    case Respond(i, answer) =>
      && i < |fates| == |s.phases| && s.phases[i].Requesting?
      && Fits(fates[i], answer) && (Lands(fates[i]) <==> s.phases[i].landing != NotYet)
    case _ => true
  }

  lemma FollowsMove(f: Fate, tripped: bool, p: Phase, p': Phase, touched: bool, touched': bool)
    requires Moves(tripped, p, p') && WellTyped(p) && FollowsRow(f, p, touched) && (touched ==> touched')
    requires p.Requesting? ==>
               if p'.Requesting? then Lands(f)
               else
                 && Fits(f, if p'.Responded? then p'.answer else Raised)
                 && (Lands(f) ==> touched')
    ensures FollowsRow(f, p', touched')
  {
  }

  lemma TouchedGrows(cfg: Config, s: State, step: Step)
    requires |s.phases| == |cfg.items| && Enabled(cfg, s, step)
    ensures s.touched <= Apply(cfg, s, step).touched
  {
  }

  lemma AnswerObeys(cfg: Config, fates: seq<Fate>, s: State, step: Step, i: nat)
    requires |s.phases| == |cfg.items| == |fates| && i < |s.phases|
    requires Enabled(cfg, s, step) && Obeys(fates, s, step)
    requires step == Land(i) || (step.Respond? && step.row == i)
    requires Confirmed(s.phases[i]) ==> i in s.touched
    ensures var p' := Apply(cfg, s, step).phases[i];
            if p'.Requesting? then Lands(fates[i])
            else
              && Fits(fates[i], if p'.Responded? then p'.answer else Raised)
              && (Lands(fates[i]) ==> i in s.touched)
  {
    if step.Respond? {
      assert Apply(cfg, s, step).phases[i]
          == if step.answer == Raised then Settled(Raised) else Responded(step.answer);
    }
  }

  lemma FollowsKept(cfg: Config, carried: set<nat>, fates: seq<Fate>, s: State, step: Step)
    requires Inv(cfg, carried, s) && Follows(fates, s)
    requires Enabled(cfg, s, step) && Obeys(fates, s, step)
    ensures Follows(fates, Apply(cfg, s, step))
  {
    var i, s' := RowOf(s, step), Apply(cfg, s, step);
    StepMovesOneRow(cfg, s, step);
    TouchedGrows(cfg, s, step);
    if RowMoves(s, s', i) {
      if s.phases[i].Requesting? {
        RequestMoves(cfg, s, step, i);
        AnswerObeys(cfg, fates, s, step, i);
      }
      FollowsMove(fates[i], s.breaker.tripped, s.phases[i], s'.phases[i], i in s.touched, i in s'.touched);
      OthersFollow(fates, s, s', i);
    } else {
      OthersFollow(fates, s, s', |s.phases|);
    }
  }

  lemma OthersFollow(fates: seq<Fate>, s: State, s': State, i: nat)
    requires Follows(fates, s) && |s'.phases| == |s.phases| && s.touched <= s'.touched
    requires forall j | 0 <= j < |s.phases| && j != i :: s'.phases[j] == s.phases[j]
    requires i < |s.phases| ==> FollowsRow(fates[i], s'.phases[i], i in s'.touched)
    ensures Follows(fates, s')
  {
    forall j | 0 <= j < |s'.phases|
      ensures FollowsRow(fates[j], s'.phases[j], j in s'.touched)
    {
      assert FollowsRow(fates[j], s.phases[j], j in s.touched);
    }
  }

  // ---- Every run has fates ----

  function FateOf(p: Phase, touched: bool): Fate {
    if p.Requesting? then Loses(p.landing != NotYet)
    else if p.Responded? && p.answer == Failed then Loses(touched)
    else if Decision(p) == Some(Failed) then Loses(touched)
    else if Decision(p) == Some(Raised) then Breaks(touched)
    else Replies
  }

  function FatesOf(s: State): seq<Fate> {
    seq(|s.phases|, i requires 0 <= i < |s.phases| => FateOf(s.phases[i], i in s.touched))
  }

  /** Every run follows some fates. */
  lemma EveryRunHasFates(cfg: Config, dest: Store, carried: set<nat>, steps: seq<Step>, s: State)
    requires Runs(cfg, dest, carried, steps, s)
    ensures Follows(FatesOf(s), s)
  {
    Invariants(cfg, dest, carried, steps, s);
    forall i | 0 <= i < |s.phases|
      ensures FollowsRow(FatesOf(s)[i], s.phases[i], i in s.touched)
    {
      assert WellTyped(s.phases[i]) && (Confirmed(s.phases[i]) ==> i in s.touched);
    }
  }

  lemma FreshFollows(cfg: Config, dest: Store, carried: set<nat>, fates: seq<Fate>)
    requires |fates| == |cfg.items|
    ensures Follows(fates, Initial(cfg, dest, carried))
  {
  }

  // ---- What the fates decide ----

  predicate AllReply(fates: seq<Fate>) {
    forall i | 0 <= i < |fates| :: fates[i].Replies?
  }

  predicate NoneBreaks(fates: seq<Fate>) {
    forall i | 0 <= i < |fates| :: !fates[i].Breaks?
  }

  /** A run that has ended returned if no request breaks; it returned with no failure exactly if
      every request got its response, and then nothing was skipped either. */
  lemma FatesDecide(
    cfg: Config, dest: Store, carried: set<nat>, steps: seq<Step>, s: State, fates: seq<Fate>)
    requires Runs(cfg, dest, carried, steps, s) && Follows(fates, s) && (s.main.Returned? || s.main.Aborted?)
    ensures NoneBreaks(fates) ==> s.main.Returned?
    ensures s.main.Returned? && Count(s, Failed) == 0 <==> AllReply(fates)
    ensures AllReply(fates) ==> Count(s, Skipped) == 0
  {
    Invariants(cfg, dest, carried, steps, s);
    if NoneBreaks(fates) && s.main.Aborted? {
      var i := RaisedBreaks(fates, s);
      assert false;
    }
    if s.main.Returned? {
      SkippedMeansFailed(cfg, dest, carried, steps, s);
      if AllReply(fates) {
        NothingFailed(fates, s);
      } else if Count(s, Failed) == 0 {
        RepliesToAll(fates, s);
      }
    }
  }

  lemma RaisedBreaks(fates: seq<Fate>, s: State) returns (i: nat)
    requires Follows(fates, s) && SomeRaised(s)
    ensures i < |fates| && fates[i].Breaks? && s.phases[i] == Done(Raised)
  {
    i :| 0 <= i < |s.phases| && s.phases[i] == Done(Raised);
    assert FollowsRow(fates[i], s.phases[i], i in s.touched);
  }

  lemma NothingFailed(fates: seq<Fate>, s: State)
    requires Follows(fates, s) && AllReply(fates)
    ensures Count(s, Failed) == 0
  {
    forall i | 0 <= i < |s.phases|
      ensures s.phases[i] != Collected(Failed)
    {
      assert FollowsRow(fates[i], s.phases[i], i in s.touched);
    }
    SumZero(CountedAs(Failed), s.phases);
  }

  lemma RepliesToAll(fates: seq<Fate>, s: State)
    requires Follows(fates, s)
    requires forall i | 0 <= i < |s.phases| :: s.phases[i] == Collected(Created) || s.phases[i] == Collected(Updated)
    ensures AllReply(fates)
  {
    forall i | 0 <= i < |fates|
      ensures fates[i].Replies?
    {
      assert FollowsRow(fates[i], s.phases[i], i in s.touched);
    }
  }
}
