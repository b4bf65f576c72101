/**
 The half-open state over whole runs of the call-level machine: who holds it,
 when it ends, when it can never end, and when a second trial can begin.
 */
module HalfOpen {
  import opened Options
  import opened CircuitBreaker
  import opened Delivery
  import opened RelayRuns
  import opened RelayHistory
  import Unused

  /** The chain that won the last trial. */
  function Winner(s: Relay): Chain
    requires s.trials != []
  {
    s.trials[|s.trials| - 1].chain
  }

  /** A chain that was accepted and has neither succeeded nor exhausted: live, or lost on a retry. */
  predicate Unresolved(phase: Phase) {
    Live(phase) || Lost(phase)
  }

  ghost predicate HolderInv(cfg: Config, s: Relay) {
    && BreakerInv(cfg, s)
    && StoryInv(cfg, s)
    && (s.breaker.state == HALF_OPEN ==> Held(s))
  }

  predicate Held(s: Relay) {
    s.trials != [] && Winner(s) in s.chains && Unresolved(s.chains[Winner(s)])
  }

  lemma StepKeepsHeld(cfg: Config, s: Relay, e: Event)
    requires Step(cfg, s, e).Some?
    requires s.breaker.state != CLOSED ==> s.breaker.failures >= Threshold(cfg)
    requires e.c in s.chains ==> PhaseOk(cfg, s.chains[e.c])
    requires s.breaker.state == HALF_OPEN ==> cfg.breakerEnabled && Held(s)
    ensures Step(cfg, s, e).value.breaker.state == HALF_OPEN ==> Held(Step(cfg, s, e).value)
  {}

  lemma StepKeepsHolder(cfg: Config, s: Relay, e: Event)
    requires HolderInv(cfg, s) && Step(cfg, s, e).Some?
    ensures HolderInv(cfg, Step(cfg, s, e).value)
  {
    StepKeepsBreaker(cfg, s, e);
    StepKeepsStory(cfg, s, e);
    assert e.c in s.chains ==> PhaseOk(cfg, s.chains[e.c]);
    StepKeepsHeld(cfg, s, e);
  }

  lemma {:induction false} RunKeepsHolder(cfg: Config, s: Relay, events: seq<Event>)
    requires HolderInv(cfg, s) && Run(cfg, s, events).Some?
    ensures HolderInv(cfg, Run(cfg, s, events).value)
    decreases |events|
  {
    if events != [] {
      StepKeepsHolder(cfg, s, events[0]);
      RunKeepsHolder(cfg, Step(cfg, s, events[0]).value, events[1..]);
    }
  }

  ghost predicate Reachable(cfg: Config, s: Relay) {
    exists clock, events :: Run(cfg, Begin(clock), events) == Some(s)
  }

  lemma ReachableIsHeld(cfg: Config, s: Relay)
    requires Reachable(cfg, s)
    ensures HolderInv(cfg, s)
  {
    var clock, events :| Run(cfg, Begin(clock), events) == Some(s);
    RunKeepsHolder(cfg, Begin(clock), events);
  }

  /**
   A half-open circuit is held by the chain of the last trial, which is unresolved;
   it is live unless one of its own retries was abandoned or filtered.
   */
  lemma HalfOpenIsHeld(cfg: Config, clock: int, events: seq<Event>)
    requires Run(cfg, Begin(clock), events).Some?
    ensures var s := Run(cfg, Begin(clock), events).value;
            s.breaker.state == HALF_OPEN ==>
              && Held(s)
              && (FaithfulTo(events, Winner(s)) ==> Live(s.chains[Winner(s)]))
  {
    RunKeepsHolder(cfg, Begin(clock), events);
    var s := Run(cfg, Begin(clock), events).value;
    if s.breaker.state == HALF_OPEN && FaithfulTo(events, Winner(s)) {
      FaithfulIsNotLost(cfg, Begin(clock), events, Winner(s));
    }
  }

  // ----- the holder's end is near, and it ends the half-open state

  /** How many more steps a chain can take. */
  function Budget(cfg: Config, phase: Phase): nat {
    match phase
    case Posting(n) => if n <= Attempts(cfg) then 2 * (Attempts(cfg) - n) + 1 else 0
    case Waiting(n) => if n <= Attempts(cfg) then 2 * (Attempts(cfg) - n) + 2 else 0
    case _ => 0
  }

  function StepsOf(events: seq<Event>, c: Chain): nat {
    if events == [] then 0 else (if events[0].c == c then 1 else 0) + StepsOf(events[1..], c)
  }

  /** Every step of a live chain uses up some of its budget; steps of others none. */
  lemma {:induction false} BudgetRunsDown(cfg: Config, s: Relay, events: seq<Event>, c: Chain)
    requires StoryInv(cfg, s) && c in s.chains && !s.chains[c].Queued? && Run(cfg, s, events).Some?
    ensures var t := Run(cfg, s, events).value;
            c in t.chains && !t.chains[c].Queued? &&
                StepsOf(events, c) + Budget(cfg, t.chains[c]) <= Budget(cfg, s.chains[c])
    decreases |events|
  {
    if events != [] {
      var t := Step(cfg, s, events[0]).value;
      StepKeepsStory(cfg, s, events[0]);
      var row, after := StepFollows(cfg, s, events[0]);
      BudgetRunsDown(cfg, t, events[1..], c);
    }
  }

  /** A live chain can always step, whatever the outcome of its post. */
  lemma LiveCanStep(cfg: Config, s: Relay, c: Chain, outcome: Outcome, now: int)
    requires c in s.chains && Live(s.chains[c]) && now >= s.clock
    ensures Step(cfg, s, if s.chains[c].Posting? then Receive(c, outcome, now) else Resume(c, true)).Some?
  {}

  /**
   Non-wedging. Take any reachable half-open state whose holder is live, and any
   run on from it that does not lose the holder, whatever becomes of others. The
   holder takes at most its budget of steps, below twice the most attempts; once
   it has taken them it is resolved, and from then on no half-open state is held
   by it. Until then it is live, so it can step.
   */
  lemma TrialResolves(cfg: Config, s: Relay, events: seq<Event>)
    requires Reachable(cfg, s) && s.breaker.state == HALF_OPEN && Held(s) && Live(s.chains[Winner(s)])
    requires FaithfulTo(events, Winner(s)) && Run(cfg, s, events).Some?
    ensures var t, w := Run(cfg, s, events).value, Winner(s);
            && Budget(cfg, s.chains[w]) < 2 * Attempts(cfg)
            && w in t.chains && StepsOf(events, w) <= Budget(cfg, s.chains[w])
            && (StepsOf(events, w) == Budget(cfg, s.chains[w]) ==>
                  && t.chains[w].Done? && t.chains[w].status in {SUCCEEDED, EXHAUSTED}
                  && (t.breaker.state == HALF_OPEN ==> t.trials != [] && Winner(t) != w))
            && (t.breaker.state == HALF_OPEN && t.trials != [] && Winner(t) == w ==> Live(t.chains[w]))
  {
    ReachableIsHeld(cfg, s);
    var w := Winner(s);
    BudgetRunsDown(cfg, s, events, w);
    RunKeepsHolder(cfg, s, events);
    FaithfulIsNotLost(cfg, s, events, w);
    AcceptedStays(cfg, s, events, w);
  }

  /** Once accepted, a chain is never queued again, dropped, or held at the gate. */
  predicate Accepted(phase: Phase) {
    match phase
    case Posting(_) => true
    case Waiting(_) => true
    case Abandoned(_) => true
    case Done(n, status) => status in {SUCCEEDED, EXHAUSTED} || (status == SKIPPED && n >= 2)
    case _ => false
  }

  lemma {:induction false} AcceptedStays(cfg: Config, s: Relay, events: seq<Event>, c: Chain)
    requires StoryInv(cfg, s) && c in s.chains && Accepted(s.chains[c]) && Run(cfg, s, events).Some?
    ensures var t := Run(cfg, s, events).value; c in t.chains && Accepted(t.chains[c])
    decreases |events|
  {
    if events != [] {
      StepKeepsStory(cfg, s, events[0]);
      var row, after := StepFollows(cfg, s, events[0]);
      AcceptedStays(cfg, Step(cfg, s, events[0]).value, events[1..], c);
    }
  }

  /** The answer to the holder's post decides the circuit: closed, open again, or still half-open for the retry. */
  lemma TrialEnds(cfg: Config, s: Relay, outcome: Outcome, now: int)
    requires Reachable(cfg, s) && s.breaker.state == HALF_OPEN && now >= s.clock
    ensures Held(s)
    ensures s.chains[Winner(s)].Posting? ==>
              var next := Step(cfg, s, Receive(Winner(s), outcome, now));
              && next.Some?
              && next.value.breaker == match StatusOf(cfg, s.chains[Winner(s)].n, outcome)
                                       case SUCCEEDED => NEW_BREAKER
                                       case RETRYING => s.breaker
                                       case _ => Breaker(OPEN, s.breaker.failures + 1, Some(now))
  {
    ReachableIsHeld(cfg, s);
  }

  // ----- when half-open can be left at all

  ghost predicate SomeLive(s: Relay) {
    exists c :: c in s.chains && Live(s.chains[c])
  }

  /** Without a live chain, a half-open circuit stays as it is for ever: nothing is posted any more. */
  lemma {:induction false} WedgedForever(cfg: Config, s: Relay, events: seq<Event>)
    requires s.breaker.state == HALF_OPEN && cfg.breakerEnabled && !SomeLive(s) && Run(cfg, s, events).Some?
    ensures var t := Run(cfg, s, events).value; t.breaker == s.breaker && t.posts == s.posts && !SomeLive(t)
    decreases |events|
  {
    if events != [] {
      var t := Step(cfg, s, events[0]).value;
      WedgedStep(cfg, s, events[0]);
      WedgedForever(cfg, t, events[1..]);
    }
  }

  lemma WedgedStep(cfg: Config, s: Relay, e: Event)
    requires s.breaker.state == HALF_OPEN && cfg.breakerEnabled && !SomeLive(s) && Step(cfg, s, e).Some?
    ensures var t := Step(cfg, s, e).value; t.breaker == s.breaker && t.posts == s.posts && !SomeLive(t)
  {
    var t := Step(cfg, s, e).value;
    assert e.c in s.chains ==> !Live(s.chains[e.c]);
    forall c | c in t.chains ensures !Live(t.chains[c]) {
      assert c != e.c ==> c in s.chains && t.chains[c] == s.chains[c];
    }
  }

  /** A live chain's post is answered: with a refusal it is exhausted, and the circuit opens. */
  lemma Exhaust(cfg: Config, s: Relay, c: Chain) returns (events: seq<Event>, t: Relay)
    requires HolderInv(cfg, s) && s.breaker.state != CLOSED && c in s.chains && Live(s.chains[c])
    ensures Run(cfg, s, events) == Some(t) && forall d :: FaithfulTo(events, d)
    ensures t.breaker == Breaker(OPEN, s.breaker.failures + 1, Some(s.clock)) && t.clock == s.clock &&
        t.trials == s.trials
    ensures t.chains.Keys == s.chains.Keys && forall d :: d in s.chains && d != c ==> t.chains[d] == s.chains[d]
  {
    var refusal := Receive(c, Answer(400), s.clock);
    if s.chains[c].Posting? {
      events, t := [refusal], Step(cfg, s, refusal).value;
    } else {
      var posted := Step(cfg, s, Resume(c, true)).value;
      events, t := [Resume(c, true), refusal], Step(cfg, posted, refusal).value;
      assert Run(cfg, posted, [refusal]) == Some(t);
      assert events[1..] == [refusal];
    }
  }

  /** Half-open can be left, in some run, exactly if a chain is live. */
  lemma CanRecoverIff(cfg: Config, s: Relay)
    requires Reachable(cfg, s) && s.breaker.state == HALF_OPEN
    ensures (exists events :: Run(cfg, s, events).Some? && Run(cfg, s, events).value.breaker.state != HALF_OPEN) <==>
        SomeLive(s)
  {
    ReachableIsHeld(cfg, s);
    if SomeLive(s) {
      var c :| c in s.chains && Live(s.chains[c]);
      var events, t := Exhaust(cfg, s, c);
      assert Run(cfg, s, events).value.breaker.state != HALF_OPEN;
    } else {
      forall events | Run(cfg, s, events).Some? ensures Run(cfg, s, events).value.breaker.state == HALF_OPEN {
        WedgedForever(cfg, s, events);
      }
    }
  }

  // ----- a second trial while the first is under way

  /** Only w can still be live, and it holds the half-open circuit. */
  ghost predicate Alone(s: Relay, w: Chain) {
    s.breaker.state == HALF_OPEN && forall c :: c in s.chains && c != w ==> !Live(s.chains[c])
  }

  lemma AloneStep(cfg: Config, s: Relay, e: Event, w: Chain)
    requires cfg.breakerEnabled && Alone(s, w) && w in s.chains && Live(s.chains[w]) && Step(cfg, s, e).Some?
    requires Live(Step(cfg, s, e).value.chains[w])
    ensures var t := Step(cfg, s, e).value; Alone(t, w) && t.trials == s.trials && t.breaker == s.breaker
  {
    var t := Step(cfg, s, e).value;
    var row, after := StepFollows(cfg, s, e);
    forall c | c in t.chains && c != w ensures !Live(t.chains[c]) {
      assert c != e.c ==> c in s.chains && t.chains[c] == s.chains[c];
    }
  }

  lemma {:induction false} OverIsOver(cfg: Config, s: Relay, events: seq<Event>, c: Chain)
    requires c in s.chains && !Live(s.chains[c]) && !s.chains[c].Queued? && Run(cfg, s, events).Some?
    ensures var t := Run(cfg, s, events).value; c in t.chains && !Live(t.chains[c])
    decreases |events|
  {
    if events != [] {
      OverIsOver(cfg, Step(cfg, s, events[0]).value, events[1..], c);
    }
  }

  /** Without stragglers, no trial begins as long as the winner is live. */
  lemma {:induction false} SoleTrial(cfg: Config, s: Relay, events: seq<Event>, w: Chain)
    requires cfg.breakerEnabled && Alone(s, w) && w in s.chains && Live(s.chains[w]) && Run(cfg, s, events).Some?
    requires w in Run(cfg, s, events).value.chains && Live(Run(cfg, s, events).value.chains[w])
    ensures var t := Run(cfg, s, events).value; t.trials == s.trials && t.breaker == s.breaker
    decreases |events|
  {
    if events != [] {
      var t := Step(cfg, s, events[0]).value;
      if !Live(t.chains[w]) {
        OverIsOver(cfg, t, events[1..], w);
      } else {
        AloneStep(cfg, s, events[0], w);
        SoleTrial(cfg, t, events[1..], w);
      }
    }
  }

  /** A new chain wins a trial once the cooldown has passed. */
  lemma WinTrial(cfg: Config, s: Relay) returns (events: seq<Event>, t: Relay)
    requires cfg.breakerEnabled && s.breaker.state == OPEN && s.breaker.openedAt == Some(s.clock)
    ensures Run(cfg, s, events) == Some(t) && forall d :: FaithfulTo(events, d)
    ensures |t.trials| == |s.trials| + 1 && t.breaker.state == HALF_OPEN
    ensures forall c :: c in s.chains ==> c in t.chains && t.chains[c] == s.chains[c]
  {
    var c := Unused.AboveAll(s.chains.Keys);
    assert c !in s.chains;
    var now := s.clock + Cooldown(cfg);
    var queued := Step(cfg, s, Enqueue(c)).value;
    t := Step(cfg, queued, Start(c, true, now)).value;
    events := [Enqueue(c), Start(c, true, now)];
    assert Run(cfg, queued, [Start(c, true, now)]) == Some(t);
    assert events[1..] == [Start(c, true, now)];
  }

  /**
   "One trial at a time" fails exactly when a straggler is left: some run starts
   a second trial while the winner of the first is still live, if and only if
   another chain is live.
   */
  lemma SecondTrialIff(cfg: Config, s: Relay, w: Chain)
    requires Reachable(cfg, s) && s.breaker.state == HALF_OPEN
    requires Held(s) && w == Winner(s) && Live(s.chains[w])
    ensures (exists events :: SecondTrial(cfg, s, events, w)) <==>
        exists c :: c in s.chains && c != w && Live(s.chains[c])
  {
    ReachableIsHeld(cfg, s);
    if c :| c in s.chains && c != w && Live(s.chains[c]) {
      var first, t := Exhaust(cfg, s, c);
      var second, u := WinTrial(cfg, t);
      RunConcat(cfg, s, first, second);
      assert SecondTrial(cfg, s, first + second, w);
    } else {
      forall events ensures !SecondTrial(cfg, s, events, w) {
        if Run(cfg, s, events).Some? && w in Run(cfg, s, events).value.chains &&
            Live(Run(cfg, s, events).value.chains[w]) {
          SoleTrial(cfg, s, events, w);
        }
      }
    }
  }

  ghost predicate SecondTrial(cfg: Config, s: Relay, events: seq<Event>, w: Chain) {
    && Run(cfg, s, events).Some?
    && var t := Run(cfg, s, events).value;
       w in t.chains && Live(t.chains[w]) && |t.trials| > |s.trials|
  }

  // ----- what it takes to wedge

  /** A fresh endpoint with a threshold of one, and its first trial under way. */
  lemma FirstTrial(cfg: Config, clock: int) returns (events: seq<Event>, s: Relay)
    requires cfg.breakerEnabled && Threshold(cfg) == 1
    ensures Run(cfg, Begin(clock), events) == Some(s)
    ensures s.breaker.state == HALF_OPEN && s.trials != [] && s.chains.Keys == {0, 1}
    ensures s.chains[0] == Done(1, EXHAUSTED) && s.chains[1] == Posting(1)
  {
    events, s := Then(cfg, Begin(clock), [], Begin(clock), Enqueue(0));
    events, s := Then(cfg, Begin(clock), events, s, Start(0, true, clock));
    events, s := Then(cfg, Begin(clock), events, s, Receive(0, Answer(400), clock));
    events, s := Then(cfg, Begin(clock), events, s, Enqueue(1));
    events, s := Then(cfg, Begin(clock), events, s, Start(1, true, clock + Cooldown(cfg)));
  }

  /**
   The condition on the holder's retries is needed: when the trial's retry finds
   its endpoint disabled, or is filtered, the circuit stays half-open for good,
   even if the endpoint is enabled again.
   */
  lemma LostTrialWedges(cfg: Config, clock: int, disabled: bool) returns (events: seq<Event>, s: Relay)
    requires cfg.breakerEnabled && Threshold(cfg) == 1 && cfg.maxRetries >= 2
    ensures Run(cfg, Begin(clock), events) == Some(s)
    ensures s.breaker.state == HALF_OPEN && !SomeLive(s)
    ensures forall more :: Run(cfg, s, more).Some? ==> Run(cfg, s, more).value.breaker.state == HALF_OPEN
  {
    var first, t := FirstTrial(cfg, clock);
    events, s := Then(cfg, Begin(clock), first, t, Receive(1, NoAnswer, t.clock));
    events, s := Then(cfg, Begin(clock), events, s, if disabled then Abandon(1) else Resume(1, false));
    forall more | Run(cfg, s, more).Some? ensures Run(cfg, s, more).value.breaker.state == HALF_OPEN {
      WedgedForever(cfg, s, more);
    }
  }
}
