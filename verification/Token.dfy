/** `acquire_bearer_token` called by many threads at once: a cached token read without the lock,
    then, on a miss, read again and if need be requested under it. Tokens are numbered in the
    order they are issued; the cache may lose its token at any moment. */
module Token {
  import opened Wrappers

  /** What a look at the cache or a token request gives: nothing, an answer without a token, or a
      token. */
  datatype Answer = Nothing | Refused | Bearer(id: nat)

  /** Where a thread is in its call; `floor` is how many tokens had been issued when it began. */
  datatype Thread =
    | Idle
    | Looking(floor: nat)                    // about to look at the cache
    | Waiting(floor: nat)                    // missed: wants the lock
    | Holding(floor: nat)                    // has the lock: about to look again
    | Requesting(floor: nat)                 // missed again: its token request is out
    | Leaving(floor: nat, result: Answer)    // about to release the lock
    | Deciding(floor: nat, result: Answer)   // without the lock, with its final result
    | Returned(floor: nat, id: nat)
    | Raised(floor: nat)

  datatype State = State(
    threads: seq<Thread>,
    lock: Option<nat>,
    cache: Option<nat>,
    issued: nat,     // tokens ever issued, one that was cached from the start included
    expiries: nat,
    requests: nat,   // token requests sent
    refusals: nat)   // token requests that came back without a token

  datatype Step =
    | Call(thread: nat)
    | Look(thread: nat)
    | Acquire(thread: nat)
    | LookAgain(thread: nat)
    | Reply(thread: nat, granted: bool, refusal: Answer)
    | Release(thread: nat)
    | Decide(thread: nat)
    | Expire

  function Initial(threads: nat, cached: bool): State {
    State(seq(threads, i => Idle), None, if cached then Some(0) else None, if cached then 1 else 0, 0, 0, 0)
  }

  predicate Resting(t: Thread) {
    t.Idle? || t.Returned? || t.Raised?
  }

  predicate Critical(t: Thread) {
    t.Holding? || t.Requesting? || t.Leaving?
  }

  predicate Enabled(s: State, step: Step) {
    match step
    case Call(i) => i < |s.threads| && Resting(s.threads[i])
    case Look(i) => i < |s.threads| && s.threads[i].Looking?
    case Acquire(i) => i < |s.threads| && s.threads[i].Waiting? && s.lock == None
    case LookAgain(i) => i < |s.threads| && s.threads[i].Holding?
    case Reply(i, _, refusal) => i < |s.threads| && s.threads[i].Requesting? && !refusal.Bearer?
    case Release(i) => i < |s.threads| && s.threads[i].Leaving?
    case Decide(i) => i < |s.threads| && s.threads[i].Deciding?
    case Expire => s.cache.Some?
  }

  function Move(s: State, i: nat, t: Thread): State
    requires i < |s.threads|
  {
    s.(threads := s.threads[i := t])
  }

  function Apply(s: State, step: Step): State
    requires Enabled(s, step)
  {
    match step
    case Call(i) => Move(s, i, Looking(s.issued))
    case Look(i) =>
      var floor := s.threads[i].floor;
      Move(s, i, if s.cache.Some? then Deciding(floor, Bearer(s.cache.value)) else Waiting(floor))
    case Acquire(i) => Move(s, i, Holding(s.threads[i].floor)).(lock := Some(i))
    case LookAgain(i) =>
      var floor := s.threads[i].floor;
      if s.cache.Some? then Move(s, i, Leaving(floor, Bearer(s.cache.value)))
      else Move(s, i, Requesting(floor)).(requests := s.requests + 1)
    case Reply(i, granted, refusal) =>
      var floor := s.threads[i].floor;
      if granted then
        Move(s, i, Leaving(floor, Bearer(s.issued))).(cache := Some(s.issued), issued := s.issued + 1)
      else
        Move(s, i, Leaving(floor, refusal)).(refusals := s.refusals + 1)
    case Release(i) => Move(s, i, Deciding(s.threads[i].floor, s.threads[i].result)).(lock := None)
    case Decide(i) =>
      var floor := s.threads[i].floor;
      Move(s, i, if s.threads[i].result.Bearer? then Returned(floor, s.threads[i].result.id) else Raised(floor))
    case Expire => s.(cache := None, expiries := s.expiries + 1)
  }

  // ---- Invariants ----

  /** A thread is in the critical section exactly when it holds the lock; a request is out only
      while the cache is empty. */
  ghost predicate Exclusive(s: State) {
    && (forall i | 0 <= i < |s.threads| :: Critical(s.threads[i]) <==> s.lock == Some(i))
    && (s.lock.Some? ==> s.lock.value < |s.threads|)
    && (forall i | 0 <= i < |s.threads| :: s.threads[i].Requesting? ==> s.cache == None)
  }

  function InRequest(s: State): nat {
    if s.lock.Some? && s.lock.value < |s.threads| && s.threads[s.lock.value].Requesting? then 1 else 0
  }

  function One(b: bool): nat {
    if b then 1 else 0
  }

  /** Every token issued has expired or is cached; every request sent has brought a token, been
      refused or is still out. */
  ghost predicate Balanced(s: State, cached: bool) {
    && s.issued == s.expiries + One(s.cache.Some?)
    && (s.cache.Some? ==> s.cache.value + 1 == s.issued)
    && s.requests + One(cached) == s.issued + s.refusals + InRequest(s)
  }

  /** No thread holds a token that had been replaced before its call began. */
  predicate Fresh(t: Thread, issued: nat) {
    match t
    case Idle => true
    case Leaving(floor, Bearer(id)) => floor <= id + 1 <= issued
    case Deciding(floor, Bearer(id)) => floor <= id + 1 <= issued
    case Returned(floor, id) => floor <= id + 1 <= issued
    case _ => t.floor <= issued
  }

  ghost predicate Inv(s: State, cached: bool) {
    && Exclusive(s)
    && Balanced(s, cached)
    && forall i | 0 <= i < |s.threads| :: Fresh(s.threads[i], s.issued)
  }

  lemma ExclusiveKept(s: State, step: Step)
    requires Exclusive(s) && Enabled(s, step)
    ensures Exclusive(Apply(s, step))
  {
  }

  lemma BalancedKept(s: State, cached: bool, step: Step)
    requires Exclusive(s) && Balanced(s, cached) && Enabled(s, step)
    ensures Balanced(Apply(s, step), cached)
  {
    match step
    case Acquire(i) =>
    case LookAgain(i) => assert s.lock == Some(i);
    case Reply(i, _, _) => assert s.lock == Some(i);
    case Release(i) => assert s.lock == Some(i);
    case Expire =>
    case _ => assert s.lock != Some(step.thread);
  }

  lemma FreshKept(s: State, cached: bool, step: Step)
    requires Inv(s, cached) && Enabled(s, step)
    ensures forall i | 0 <= i < |Apply(s, step).threads| :: Fresh(Apply(s, step).threads[i], Apply(s, step).issued)
  {
  }

  // ---- Runs ----

  ghost predicate Goes(states: seq<State>, steps: seq<Step>, i: nat)
    requires i < |steps| < |states|
  {
    Enabled(states[i], steps[i]) && states[i + 1] == Apply(states[i], steps[i])
  }

  ghost predicate Trace(states: seq<State>, steps: seq<Step>) {
    && |states| == |steps| + 1
    && forall i | 0 <= i < |steps| :: Goes(states, steps, i)
  }

  lemma {:induction false} InvHolds(threads: nat, cached: bool, states: seq<State>, steps: seq<Step>, k: nat)
    requires Trace(states, steps) && states[0] == Initial(threads, cached) && k < |states|
    ensures Inv(states[k], cached)
  {
    if k > 0 {
      InvHolds(threads, cached, states, steps, k - 1);
      assert Goes(states, steps, k - 1);
      ExclusiveKept(states[k - 1], steps[k - 1]);
      BalancedKept(states[k - 1], cached, steps[k - 1]);
      FreshKept(states[k - 1], cached, steps[k - 1]);
    }
  }

  /** In every state of every run: at most one thread is in the token request; successful refreshes
      number at most one more than the expiries, and requests at most the refusals more than that;
      no call returns a token that had been replaced before the call began. */
  lemma OneRefreshPerExpiry(threads: nat, cached: bool, states: seq<State>, steps: seq<Step>, k: nat)
    requires Trace(states, steps) && states[0] == Initial(threads, cached) && k < |states|
    ensures forall i, j | 0 <= i < |states[k].threads| && 0 <= j < |states[k].threads| ::
              states[k].threads[i].Requesting? && states[k].threads[j].Requesting? ==> i == j
    ensures states[k].issued <= states[k].expiries + 1
    ensures states[k].requests + One(cached) <= states[k].expiries + 1 + states[k].refusals
    ensures forall i | 0 <= i < |states[k].threads| && states[k].threads[i].Returned? ::
              states[k].threads[i].id + 1 >= states[k].threads[i].floor
  {
    InvHolds(threads, cached, states, steps, k);
    var s := states[k];
    forall i, j | 0 <= i < |s.threads| && 0 <= j < |s.threads| && s.threads[i].Requesting? && s.threads[j].Requesting?
      ensures i == j
    {
      assert s.lock == Some(i) && s.lock == Some(j);
    }
    assert forall i | 0 <= i < |s.threads| :: Fresh(s.threads[i], s.issued);
    if InRequest(s) == 1 {
      assert s.cache == None;
    }
  }

  // ---- What one call saw ----

  /** Between steps `from` and `to` thread `i` looked at the cache, at step `at`, and found nothing. */
  ghost predicate Missed(states: seq<State>, steps: seq<Step>, i: nat, from: nat, at: nat, to: nat) {
    from < at < to <= |steps| < |states| && steps[at] == Look(i) && states[at].cache == None
  }

  /** It looked again with the lock, at step `again`, found nothing, and sent a request. */
  ghost predicate MissedTwice(
    states: seq<State>, steps: seq<Step>, i: nat, from: nat, at: nat, again: nat, to: nat)
  {
    && at < again < to <= |steps| < |states| && Missed(states, steps, i, from, at, again)
    && steps[again] == LookAgain(i) && states[again].cache == None
    && states[again + 1].requests == states[again].requests + 1
  }

  /** Where a call's answer comes from: the steps of its looks, and of the reply to its request. */
  datatype Origin =
    | FirstLook(at: nat)
    | SecondLook(at: nat, again: nat)
    | Request(at: nat, again: nat, reply: nat)

  /** The answer is the token that was cached at the first look; or, that having missed, at the
      second; or, both having missed, what the call's own request brought, which is then cached. */
  ghost predicate Came(
    states: seq<State>, steps: seq<Step>, i: nat, from: nat, to: nat, answer: Answer, origin: Origin)
  {
    && to <= |steps| < |states|
    && match origin
       case FirstLook(at) =>
         && from < at < to && steps[at] == Look(i)
         && states[at].cache.Some? && answer == Bearer(states[at].cache.value)
       case SecondLook(at, again) =>
         && at < again < to && Missed(states, steps, i, from, at, again) && steps[again] == LookAgain(i)
         && states[again].cache.Some? && answer == Bearer(states[again].cache.value)
       case Request(at, again, reply) =>
         && again < reply < to && MissedTwice(states, steps, i, from, at, again, reply)
         && steps[reply].Reply? && steps[reply].thread == i
         && if steps[reply].granted then answer.Bearer? && states[reply + 1].cache == Some(answer.id)
            else !answer.Bearer? && states[reply + 1].refusals == states[reply].refusals + 1
  }

  ghost predicate Traced(states: seq<State>, steps: seq<Step>, i: nat, from: nat, to: nat, answer: Answer) {
    exists origin :: Came(states, steps, i, from, to, answer, origin)
  }

  /** What a thread's place in its call, begun at step `from`, says about its looks. */
  ghost predicate Story(states: seq<State>, steps: seq<Step>, i: nat, from: nat, to: nat)
    requires to < |states| && i < |states[to].threads|
  {
    match states[to].threads[i]
    case Idle => false
    case Looking(_) => true
    case Waiting(_) => exists at :: Missed(states, steps, i, from, at, to)
    case Holding(_) => exists at :: Missed(states, steps, i, from, at, to)
    case Requesting(_) => exists at, again :: MissedTwice(states, steps, i, from, at, again, to)
    case Leaving(_, result) => Traced(states, steps, i, from, to, result)
    case Deciding(_, result) => Traced(states, steps, i, from, to, result)
    case Returned(_, id) => Traced(states, steps, i, from, to, Bearer(id))
    case Raised(_) => exists answer: Answer :: !answer.Bearer? && Traced(states, steps, i, from, to, answer)
  }

  /** Step `from` is a call of thread `i`, and up to `to` it does not begin another. */
  ghost predicate OneCall(states: seq<State>, steps: seq<Step>, i: nat, from: nat, to: nat) {
    && Trace(states, steps) && from < to < |states| && i < |states[from].threads|
    && steps[from] == Call(i)
    && forall j | from < j < to :: steps[j] != Call(i)
  }

  lemma {:induction false} ThreadsStay(states: seq<State>, steps: seq<Step>, from: nat, to: nat)
    requires Trace(states, steps) && from <= to < |states|
    ensures |states[to].threads| == |states[from].threads|
  {
    if from < to {
      ThreadsStay(states, steps, from, to - 1);
      assert Goes(states, steps, to - 1);
    }
  }

  lemma {:induction false} TracedStays(
    states: seq<State>, steps: seq<Step>, i: nat, from: nat, to: nat, later: nat, answer: Answer)
    requires Traced(states, steps, i, from, to, answer) && to <= later <= |steps| < |states|
    ensures Traced(states, steps, i, from, later, answer)
  {
    var origin :| Came(states, steps, i, from, to, answer, origin);
    assert Came(states, steps, i, from, later, answer, origin);
  }

  /** A step of another thread leaves the story as it is. */
  lemma {:induction false} StoryStays(states: seq<State>, steps: seq<Step>, i: nat, from: nat, to: nat)
    requires Trace(states, steps) && from < to < |steps|
    requires i < |states[to].threads| == |states[to + 1].threads|
    requires Story(states, steps, i, from, to) && states[to + 1].threads[i] == states[to].threads[i]
    ensures Story(states, steps, i, from, to + 1)
  {
    match states[to].threads[i]
    case Idle =>
    case Looking(_) =>
    case Waiting(_) =>
      var at :| Missed(states, steps, i, from, at, to);
      assert Missed(states, steps, i, from, at, to + 1);
    case Holding(_) =>
      var at :| Missed(states, steps, i, from, at, to);
      assert Missed(states, steps, i, from, at, to + 1);
    case Requesting(_) =>
      var at, again :| MissedTwice(states, steps, i, from, at, again, to);
      assert MissedTwice(states, steps, i, from, at, again, to + 1);
    case Leaving(_, result) => TracedStays(states, steps, i, from, to, to + 1, result);
    case Deciding(_, result) => TracedStays(states, steps, i, from, to, to + 1, result);
    case Returned(_, id) => TracedStays(states, steps, i, from, to, to + 1, Bearer(id));
    case Raised(_) =>
      var answer: Answer :| !answer.Bearer? && Traced(states, steps, i, from, to, answer);
      TracedStays(states, steps, i, from, to, to + 1, answer);
  }

  /** A step of the thread itself carries the story on. */
  lemma {:induction false} StoryGoesOn(states: seq<State>, steps: seq<Step>, i: nat, from: nat, to: nat)
    requires Trace(states, steps) && from < to < |steps|
    requires i < |states[to].threads| == |states[to + 1].threads|
    requires Story(states, steps, i, from, to)
    requires ThreadOf(steps[to]) == Some(i) && !steps[to].Call?
    ensures Story(states, steps, i, from, to + 1)
  {
    assert Goes(states, steps, to);
    match steps[to]
    case Look(_) => AfterLook(states, steps, i, from, to);
    case LookAgain(_) => AfterLookAgain(states, steps, i, from, to);
    case Reply(_, _, _) => AfterReply(states, steps, i, from, to);
    case Acquire(_) =>
      var at :| Missed(states, steps, i, from, at, to);
      assert Missed(states, steps, i, from, at, to + 1);
    case Release(_) => TracedStays(states, steps, i, from, to, to + 1, states[to].threads[i].result);
    case Decide(_) => TracedStays(states, steps, i, from, to, to + 1, states[to].threads[i].result);
  }

  lemma {:induction false} AfterLook(states: seq<State>, steps: seq<Step>, i: nat, from: nat, to: nat)
    requires from < to < |steps| < |states| && Goes(states, steps, to) && steps[to] == Look(i)
    requires i < |states[to + 1].threads|
    ensures Story(states, steps, i, from, to + 1)
  {
    if states[to].cache.Some? {
      assert Came(states, steps, i, from, to + 1, Bearer(states[to].cache.value), FirstLook(to));
    } else {
      assert Missed(states, steps, i, from, to, to + 1);
    }
  }

  lemma {:induction false} AfterLookAgain(states: seq<State>, steps: seq<Step>, i: nat, from: nat, to: nat)
    requires from < to < |steps| < |states| && Goes(states, steps, to) && steps[to] == LookAgain(i)
    requires i < |states[to].threads| == |states[to + 1].threads| && Story(states, steps, i, from, to)
    ensures Story(states, steps, i, from, to + 1)
  {
    var at :| Missed(states, steps, i, from, at, to);
    if states[to].cache.Some? {
      assert Came(states, steps, i, from, to + 1, Bearer(states[to].cache.value), SecondLook(at, to));
    } else {
      assert MissedTwice(states, steps, i, from, at, to, to + 1);
    }
  }

  lemma {:induction false} AfterReply(states: seq<State>, steps: seq<Step>, i: nat, from: nat, to: nat)
    requires from < to < |steps| < |states| && Goes(states, steps, to)
    requires steps[to].Reply? && steps[to].thread == i
    requires i < |states[to].threads| == |states[to + 1].threads| && Story(states, steps, i, from, to)
    ensures Story(states, steps, i, from, to + 1)
  {
    var at, again :| MissedTwice(states, steps, i, from, at, again, to);
    var answer := states[to + 1].threads[i].result;
    assert Came(states, steps, i, from, to + 1, answer, Request(at, again, to));
  }

  /** In every interleaving a call does what its looks tell it: its result is the token it found
      cached, or, when both looks missed, what its own request brought. */
  lemma {:induction false} EveryCallHasItsStory(states: seq<State>, steps: seq<Step>, i: nat, from: nat, to: nat)
    requires OneCall(states, steps, i, from, to)
    ensures |states[to].threads| == |states[from].threads|
    ensures Story(states, steps, i, from, to)
  {
    ThreadsStay(states, steps, from, to);
    assert Goes(states, steps, to - 1);
    if from + 1 < to {
      ThreadsStay(states, steps, from, to - 1);
      EveryCallHasItsStory(states, steps, i, from, to - 1);
      if ThreadOf(steps[to - 1]) == Some(i) {
        StoryGoesOn(states, steps, i, from, to - 1);
      } else {
        OthersDoNotDisturb(states[to - 1], steps[to - 1], i);
        StoryStays(states, steps, i, from, to - 1);
      }
    }
  }

  /** A token that a call returns was cached at some moment of the call; a call that raises looked
      twice in vain, sent a request, and was refused. */
  lemma {:induction false} ResultOfACall(states: seq<State>, steps: seq<Step>, i: nat, from: nat, to: nat)
    requires OneCall(states, steps, i, from, to)
    ensures |states[to].threads| == |states[from].threads|
    ensures states[to].threads[i].Returned? ==>
              exists j :: from < j <= to && states[j].cache == Some(states[to].threads[i].id)
    ensures states[to].threads[i].Raised? ==>
              exists at: nat, again: nat, reply: nat ::
                && MissedTwice(states, steps, i, from, at, again, reply) && reply < to
                && steps[reply].Reply? && steps[reply].thread == i && !steps[reply].granted
  {
    EveryCallHasItsStory(states, steps, i, from, to);
    var t := states[to].threads[i];
    if t.Returned? {
      var origin :| Came(states, steps, i, from, to, Bearer(t.id), origin);
      var j := match origin
        case FirstLook(at) => at
        case SecondLook(_, again) => again
        case Request(_, _, reply) => reply + 1;
      assert from < j <= to && states[j].cache == Some(t.id);
    } else if t.Raised? {
      var answer: Answer :| !answer.Bearer? && Traced(states, steps, i, from, to, answer);
      var origin :| Came(states, steps, i, from, to, answer, origin);
      assert MissedTwice(states, steps, i, from, origin.at, origin.again, origin.reply);
    }
  }

  /** A thread that has got the lock asks for a token exactly when every token issued so far has
      expired; otherwise its second look spares it the request. */
  lemma SecondLookDecides(threads: nat, cached: bool, states: seq<State>, steps: seq<Step>, k: nat, i: nat)
    requires Trace(states, steps) && states[0] == Initial(threads, cached) && k < |states|
    requires i < |states[k].threads| && states[k].threads[i].Holding?
    ensures Apply(states[k], LookAgain(i)).requests > states[k].requests <==> states[k].issued == states[k].expiries
  {
    InvHolds(threads, cached, states, steps, k);
  }

  /** Requests are exactly one for each expiry, one for each refusal, one if a token is cached and
      one if it is out, a token cached from the start having cost none. So there are no more than
      one for each expiry and one to begin with exactly when refusals, a cached token and a
      request that is out are at most one together; without refusals that is always so. */
  lemma RequestsBalance(threads: nat, cached: bool, states: seq<State>, steps: seq<Step>, k: nat)
    requires Trace(states, steps) && states[0] == Initial(threads, cached) && k < |states|
    ensures var s := states[k];
            && s.requests + One(cached) == s.expiries + s.refusals + One(s.cache.Some?) + InRequest(s)
            && (s.requests + One(cached) <= s.expiries + 1 <==>
                  s.refusals + One(s.cache.Some?) + InRequest(s) <= 1)
            && (s.refusals == 0 ==> s.requests + One(cached) <= s.expiries + 1)
  {
    InvHolds(threads, cached, states, steps, k);
  }

  lemma Then(states: seq<State>, steps: seq<Step>, step: Step) returns (states': seq<State>, steps': seq<Step>)
    requires Trace(states, steps) && Enabled(states[|steps|], step)
    ensures Trace(states', steps') && steps' == steps + [step] && states'[0] == states[0]
    ensures states'[|steps'|] == Apply(states[|steps|], step)
  {
    states', steps' := states + [Apply(states[|steps|], step)], steps + [step];
    forall i | 0 <= i < |steps'|
      ensures Goes(states', steps', i)
    {
      assert i < |steps| ==> Goes(states, steps, i);
    }
  }

  /** The threads queued behind a request are spared their own only if it succeeds: after a
      refusal the next one asks again, with no expiry in between. */
  lemma {:induction false} ARefusalIsRepeated() returns (states: seq<State>, steps: seq<Step>)
    ensures Trace(states, steps) && states[0] == Initial(2, false)
    ensures states[|steps|].requests == 2 && states[|steps|].expiries == 0
  {
    states, steps := BothMiss();
    states, steps := Then(states, steps, Acquire(0));
    states, steps := Then(states, steps, LookAgain(0));
    states, steps := Then(states, steps, Reply(0, false, Refused));
    states, steps := Then(states, steps, Release(0));
    states, steps := Then(states, steps, Acquire(1));
    states, steps := Then(states, steps, LookAgain(1));
  }

  lemma BothMiss() returns (states: seq<State>, steps: seq<Step>)
    ensures Trace(states, steps) && states[0] == Initial(2, false)
    ensures states[|steps|] == Initial(2, false).(threads := [Waiting(0), Waiting(0)])
  {
    states, steps := [Initial(2, false)], [];
    states, steps := Then(states, steps, Call(0));
    states, steps := Then(states, steps, Call(1));
    states, steps := Then(states, steps, Look(0));
    states, steps := Then(states, steps, Look(1));
  }

  /** The bound on refreshes is reached: for every number of expiries there is a run with one token
      request more, each granted. */
  lemma {:induction false} TheBoundIsReached(expiries: nat) returns (states: seq<State>, steps: seq<Step>)
    ensures Trace(states, steps) && states[0] == Initial(1, false)
    ensures var s := states[|steps|];
            && s.expiries == expiries && s.requests == s.issued == expiries + 1
            && s.cache == Some(expiries) && s.lock == None
            && exists floor :: s.threads == [Returned(floor, expiries)]
  {
    if expiries == 0 {
      states, steps := [Initial(1, false)], [];
    } else {
      states, steps := TheBoundIsReached(expiries - 1);
      states, steps := Then(states, steps, Expire);
    }
    states, steps := OneRefresh(states, steps);
  }

  /** A call with an empty cache and nobody else under way refreshes the token. */
  lemma OneRefresh(states: seq<State>, steps: seq<Step>) returns (states': seq<State>, steps': seq<Step>)
    requires Trace(states, steps) && states[0] == Initial(1, false)
    requires var s := states[|steps|];
             |s.threads| == 1 && Resting(s.threads[0]) && s.lock == None && s.cache == None
    ensures Trace(states', steps') && states'[0] == Initial(1, false)
    ensures var s, s' := states[|steps|], states'[|steps'|];
            && s'.expiries == s.expiries && s'.requests == s.requests + 1 && s'.issued == s.issued + 1
            && s'.cache == Some(s.issued) && s'.lock == None
            && s'.threads == [Returned(s.issued, s.issued)]
  {
    states', steps' := Then(states, steps, Call(0));
    states', steps' := Then(states', steps', Look(0));
    states', steps' := Then(states', steps', Acquire(0));
    states', steps' := Then(states', steps', LookAgain(0));
    states', steps' := Then(states', steps', Reply(0, true, Nothing));
    states', steps' := Then(states', steps', Release(0));
    states', steps' := Then(states', steps', Decide(0));
  }

  /** Some thread that is in a call can always take its next step. */
  lemma NoDeadlock(s: State, cached: bool, i: nat) returns (step: Step)
    requires Inv(s, cached) && i < |s.threads| && !Resting(s.threads[i])
    ensures Enabled(s, step) && !step.Call? && !step.Expire?
  {
    var j := if s.threads[i].Waiting? && s.lock.Some? then s.lock.value else i;
    match s.threads[j]
    case Looking(_) => step := Look(j);
    case Waiting(_) => step := Acquire(j);
    case Holding(_) => step := LookAgain(j);
    case Requesting(_) => step := Reply(j, false, Nothing);
    case Leaving(_, _) => step := Release(j);
    case Deciding(_, _) => step := Decide(j);
  }

  // ---- The method ----

  function ThreadOf(step: Step): Option<nat> {
    if step.Expire? then None else Some(step.thread)
  }

  /** What one thread can rely on while others run. */
  predicate Undisturbed(s: State, s': State, me: nat) {
    && me < |s.threads| == |s'.threads|
    && s'.threads[me] == s.threads[me]
    && s.issued <= s'.issued && s.refusals <= s'.refusals
  }

  lemma OthersDoNotDisturb(s: State, step: Step, me: nat)
    requires Enabled(s, step) && me < |s.threads| && ThreadOf(step) != Some(me)
    ensures Undisturbed(s, Apply(s, step), me)
  {
  }

  /** Steps left before the thread that holds the lock has released it. */
  function UntilReleased(s: State): nat {
    match s.lock
    case None => 0
    case Some(i) =>
      if i >= |s.threads| then 0
      else if s.threads[i].Holding? then 3
      else if s.threads[i].Requesting? then 2
      else 1
  }

  lemma HolderCanStep(s: State, me: nat) returns (step: Step)
    requires Exclusive(s) && me < |s.threads| && !Critical(s.threads[me]) && s.lock.Some?
    ensures Enabled(s, step) && ThreadOf(step) == s.lock != Some(me)
    ensures UntilReleased(Apply(s, step)) < UntilReleased(s)
  {
    var i := s.lock.value;
    assert Critical(s.threads[i]);
    match s.threads[i]
    case Holding(_) => step := LookAgain(i);
    case Requesting(_) => step := Reply(i, false, Nothing);
    case Leaving(_, _) => step := Release(i);
  }

  /** The run goes on without thread `me` beginning a call. */
  ghost predicate GoesOn(states: seq<State>, states': seq<State>, steps: seq<Step>, steps': seq<Step>, me: nat) {
    && states <= states' && steps <= steps'
    && forall j | |steps| <= j < |steps'| :: steps'[j] != Call(me)
  }

  /** The client, with the token cache and the lock its threads share, and the run so far. */
  class Client {
    var s: State
    const threads: nat
    const cachedAtFirst: bool
    ghost var states: seq<State>
    ghost var steps: seq<Step>

    constructor (threads: nat, cached: bool)
      ensures Valid() && s == Initial(threads, cached) && steps == []
    {
      this.threads, s, cachedAtFirst := threads, Initial(threads, cached), cached;
      states, steps := [Initial(threads, cached)], [];
    }

    ghost predicate Valid()
      reads this
    {
      && Trace(states, steps) && states[0] == Initial(threads, cachedAtFirst)
      && s == states[|steps|]
    }

    lemma Lawful()
      requires Valid()
      ensures Inv(s, cachedAtFirst)
    {
      InvHolds(threads, cachedAtFirst, states, steps, |steps|);
    }

    lemma CallTells(me: nat, from: nat)
      requires Valid() && OneCall(states, steps, me, from, |steps|) && me < |s.threads|
      ensures s.threads[me].Returned? ==>
                var id := s.threads[me].id;
                && s.threads[me].floor <= id + 1 <= s.issued
                && Traced(states, steps, me, from, |steps|, Bearer(id))
                && exists j :: from < j < |states| && states[j].cache == Some(id)
      ensures s.threads[me].Raised? ==>
                exists answer: Answer :: !answer.Bearer? && Traced(states, steps, me, from, |steps|, answer)
    {
      Lawful();
      EveryCallHasItsStory(states, steps, me, from, |steps|);
      ResultOfACall(states, steps, me, from, |steps|);
    }

    method Take(step: Step)
      requires Valid() && Enabled(s, step)
      modifies this
      ensures Valid() && s == Apply(old(s), step)
      ensures steps == old(steps) + [step] && states == old(states) + [s]
    {
      s := Apply(s, step);
      states, steps := states + [s], steps + [step];
      forall i | 0 <= i < |steps|
        ensures Goes(states, steps, i)
      {
        assert i < |old(steps)| ==> Goes(old(states), old(steps), i);
      }
    }

    /** Other threads run for a while, and the token may expire. */
    method Elsewhere(me: nat)
      requires Valid() && me < |s.threads|
      modifies this
      ensures Valid() && Undisturbed(old(s), s, me) && GoesOn(old(states), states, old(steps), steps, me)
    {
      var rounds: nat := *;
      while rounds > 0
        invariant Valid() && Undisturbed(old(s), s, me) && GoesOn(old(states), states, old(steps), steps, me)
      {
        var step: Step := *;
        if Enabled(s, step) && ThreadOf(step) != Some(me) {
          OthersDoNotDisturb(s, step, me);
          Take(step);
        }
        rounds := rounds - 1;
      }
    }

    /** Entering `with self._token_lock`: others run, and whoever holds the lock leaves. */
    method Lock(me: nat)
      requires Valid() && me < |s.threads| && s.threads[me].Waiting?
      modifies this
      ensures Valid() && me < |s.threads| && s.threads[me] == Holding(old(s).threads[me].floor)
      ensures s.issued >= old(s.issued) && s.refusals >= old(s.refusals)
      ensures GoesOn(old(states), states, old(steps), steps, me)
    {
      Elsewhere(me);
      while s.lock.Some?
        invariant Valid() && Undisturbed(old(s), s, me) && GoesOn(old(states), states, old(steps), steps, me)
        decreases UntilReleased(s)
      {
        Lawful();
        ghost var possible := HolderCanStep(s, me);
        var step :|
          Enabled(s, step) && ThreadOf(step) == s.lock != Some(me) && UntilReleased(Apply(s, step)) < UntilReleased(s);
        OthersDoNotDisturb(s, step, me);
        Take(step);
      }
      Take(Acquire(me));
    }

    /** A look at the cache. */
    function Silent(): Answer
      reads this
    {
      if s.cache.Some? then Bearer(s.cache.value) else Nothing
    }

    /** `acquire_token_for_client`: a token, which is then cached, or an answer without one. */
    method RequestToken(me: nat) returns (answer: Answer)
      requires Valid() && me < |s.threads| && s.threads[me].Requesting?
      modifies this
      ensures Valid() && me < |s.threads| && s.threads[me] == Leaving(old(s).threads[me].floor, answer)
      ensures if answer.Bearer? then s.cache == Some(answer.id) else s.refusals == old(s.refusals) + 1
      ensures s.refusals >= old(s.refusals) && GoesOn(old(states), states, old(steps), steps, me)
    {
      var granted: bool, refused: bool := *, *;
      var refusal := if refused then Refused else Nothing;
      answer := if granted then Bearer(s.issued) else refusal;
      Take(Reply(me, granted, refusal));
    }

    /** The part of the call that runs after a miss. */
    method LookUnderLock(me: nat) returns (result: Answer)
      requires Valid() && me < |s.threads| && s.threads[me].Waiting?
      modifies this
      ensures Valid() && me < |s.threads| && s.threads[me] == Deciding(old(s).threads[me].floor, result)
      ensures s.refusals >= old(s.refusals) + One(!result.Bearer?) && GoesOn(old(states), states, old(steps), steps, me)
    {
      Lock(me);
      Elsewhere(me);
      result := Silent();
      Take(LookAgain(me));
      Elsewhere(me);
      if result.Nothing? {
        result := RequestToken(me);
      }
      Elsewhere(me);
      Take(Release(me));
    }

    /** The looks at the cache, the first without the lock. */
    method Ask(me: nat) returns (result: Answer)
      requires Valid() && me < |s.threads| && s.threads[me].Looking?
      modifies this
      ensures Valid() && me < |s.threads| && s.threads[me] == Deciding(old(s).threads[me].floor, result)
      ensures s.refusals >= old(s.refusals) + One(!result.Bearer?)
      ensures GoesOn(old(states), states, old(steps), steps, me)
    {
      Elsewhere(me);
      result := Silent();
      Take(Look(me));
      Elsewhere(me);
      if result.Nothing? {
        result := LookUnderLock(me);
      }
      Elsewhere(me);
    }

    /** Returns a token no older than the newest one issued before the call, and one that was cached
        at some moment of the call; or raises, and then only because its own token request was
        refused. `Traced` has the call's looks and request. */
    method AcquireBearerToken(me: nat) returns (r: Result<nat, ()>)
      requires Valid() && me < |s.threads| && Resting(s.threads[me])
      modifies this
      ensures Valid() && me < |s.threads| && old(steps) < steps && old(states) < states
      ensures r.Ok? ==> s.threads[me] == Returned(old(s.issued), r.value)
      ensures r.Ok? ==> old(s.issued) <= r.value + 1 <= s.issued
      ensures r.Ok? ==> Traced(states, steps, me, |old(steps)|, |steps|, Bearer(r.value))
      ensures r.Ok? ==> exists j :: |old(states)| <= j < |states| && states[j].cache == Some(r.value)
      ensures r.Err? ==> s.threads[me] == Raised(old(s.issued)) && s.refusals > old(s.refusals)
      ensures r.Err? ==>
                exists answer: Answer :: !answer.Bearer? && Traced(states, steps, me, |old(steps)|, |steps|, answer)
    {
      Take(Call(me));
      ghost var seen, called := states, steps;
      var result := Ask(me);
      Take(Decide(me));
      r := if result.Bearer? then Ok(result.id) else Err(());
      assert OneCall(states, steps, me, |old(steps)|, |steps|) by {
        assert GoesOn(seen, states, called, steps, me);
      }
      CallTells(me, |old(steps)|);
    }
  }
}
