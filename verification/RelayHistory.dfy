/**
 What the audit log says about a run: the breaker is a function of it, and every
 chain's rows follow one grammar.
 */
module RelayHistory {
  import opened Options
  import opened CircuitBreaker
  import opened Delivery
  import opened RelayRuns

  // ----- the breaker and the log

  /** EXHAUSTED rows since the last SUCCEEDED one. */
  function Streak(log: seq<Row>): nat {
    if log == [] then 0
    else
      var status := log[|log| - 1].entry.status;
      var before := Streak(log[..|log| - 1]);
      if status == SUCCEEDED then 0 else if status == EXHAUSTED then before + 1 else before
  }

  ghost predicate BreakerInv(cfg: Config, s: Relay) {
    && s.breaker.failures == Streak(s.log)
    && (s.breaker.state == CLOSED <==> s.breaker.failures < Threshold(cfg))
    && (s.breaker.state == CLOSED <==> s.breaker.openedAt == None)
    && (s.breaker.state == HALF_OPEN ==> cfg.breakerEnabled)
  }

  lemma StreakSnoc(log: seq<Row>, row: Row)
    ensures Streak(log + [row])
         == if row.entry.status == SUCCEEDED then 0
            else if row.entry.status == EXHAUSTED then Streak(log) + 1
            else Streak(log)
  {
    assert (log + [row])[..|log|] == log;
  }

  lemma StepKeepsBreaker(cfg: Config, s: Relay, e: Event)
    requires BreakerInv(cfg, s) && Step(cfg, s, e).Some?
    ensures BreakerInv(cfg, Step(cfg, s, e).value)
  {
    match e {
      case Start(c, send, now) => StartKeepsBreaker(cfg, s, c, send, now);
      case Receive(c, outcome, now) => ReceiveKeepsBreaker(cfg, s, c, s.chains[c].n, outcome, now);
      case Resume(c, _) => StreakSnoc(s.log, Row(c, Entry(s.chains[c].n, SKIPPED), None));
      case _ =>
    }
  }

  lemma StartKeepsBreaker(cfg: Config, s: Relay, c: Chain, send: bool, now: int)
    requires BreakerInv(cfg, s)
    ensures BreakerInv(cfg, StartStep(cfg, s, c, send, now))
  {
    StreakSnoc(s.log, Row(c, Entry(1, SKIPPED), None));
    StreakSnoc(s.log, Row(c, Entry(1, CIRCUIT_OPEN), None));
  }

  lemma ReceiveKeepsBreaker(cfg: Config, s: Relay, c: Chain, n: nat, outcome: Outcome, now: int)
    requires BreakerInv(cfg, s)
    ensures BreakerInv(cfg, ReceiveStep(cfg, s, c, n, outcome, now))
  {
    StreakSnoc(s.log, Row(c, Entry(n, StatusOf(cfg, n, outcome)), CodeOf(outcome)));
  }

  lemma {:induction false} RunKeepsBreaker(cfg: Config, s: Relay, events: seq<Event>)
    requires BreakerInv(cfg, s) && Run(cfg, s, events).Some?
    ensures BreakerInv(cfg, Run(cfg, s, events).value)
    decreases |events|
  {
    if events != [] {
      StepKeepsBreaker(cfg, s, events[0]);
      RunKeepsBreaker(cfg, Step(cfg, s, events[0]).value, events[1..]);
    }
  }

  /** Over every run, the counter and the closed state can be read off the audit log. */
  lemma BreakerRefinesHistory(cfg: Config, clock: int, events: seq<Event>)
    requires Run(cfg, Begin(clock), events).Some?
    ensures var s := Run(cfg, Begin(clock), events).value;
            && s.breaker.failures == Streak(s.log)
            && (s.breaker.state == CLOSED <==> Streak(s.log) < Threshold(cfg))
            && (s.breaker.state == CLOSED <==> s.breaker.openedAt == None)
  {
    RunKeepsBreaker(cfg, Begin(clock), events);
  }

  // ----- the rows of one chain

  function Story(log: seq<Row>, c: Chain): seq<Entry> {
    if log == [] then []
    else
      var last := log[|log| - 1];
      Story(log[..|log| - 1], c) + if last.chain == c then [last.entry] else []
  }

  /** Attempts 1 to n, all to be retried. */
  function Retried(n: nat): (story: seq<Entry>)
    ensures |story| == n && forall i :: 0 <= i < n ==> story[i] == Entry(i + 1, RETRYING)
  {
    if n == 0 then [] else Retried(n - 1) + [Entry(n, RETRYING)]
  }

  /** What the log must say about a chain in that phase. */
  function Told(phase: Phase): seq<Entry> {
    match phase
    case Queued => []
    case Dropped => []
    case Posting(n) => Retried(if n >= 1 then n - 1 else 0)
    case Waiting(n) => Retried(if n >= 1 then n - 1 else 0)
    case Abandoned(n) => Retried(if n >= 1 then n - 1 else 0)
    case Done(n, status) => Retried(if n >= 1 then n - 1 else 0) + [Entry(n, status)]
  }

  predicate PhaseOk(cfg: Config, phase: Phase) {
    match phase
    case Posting(n) => 1 <= n <= Attempts(cfg)
    case Waiting(n) => 2 <= n <= Attempts(cfg)
    case Abandoned(n) => 2 <= n <= Attempts(cfg)
    case Done(n, status) => 1 <= n <= Attempts(cfg) && status != RETRYING && (status == CIRCUIT_OPEN ==> n == 1)
    case _ => true
  }

  ghost predicate StoryInv(cfg: Config, s: Relay) {
    && (forall c :: c in s.chains ==> Story(s.log, c) == Told(s.chains[c]) && PhaseOk(cfg, s.chains[c]))
    && (forall c :: c !in s.chains ==> Story(s.log, c) == [])
  }

  lemma StorySnoc(log: seq<Row>, row: Row, c: Chain)
    ensures Story(log + [row], c) == Story(log, c) + if row.chain == c then [row.entry] else []
  {
    assert (log + [row])[..|log|] == log;
  }

  lemma StepKeepsStory(cfg: Config, s: Relay, e: Event)
    requires StoryInv(cfg, s) && Step(cfg, s, e).Some?
    ensures StoryInv(cfg, Step(cfg, s, e).value)
  {
    var t := Step(cfg, s, e).value;
    var row, after := StepFollows(cfg, s, e);
    forall c
      ensures if c in t.chains then Story(t.log, c) == Told(t.chains[c]) && PhaseOk(cfg, t.chains[c])
              else Story(t.log, c) == []
    {
      if row.Some? {
        StorySnoc(s.log, row.value, c);
      }
      assert t.chains == s.chains[e.c := after];
      if c == e.c {
        ToldFollows(cfg, PhaseOf(s, c), if row.Some? then Some(row.value.entry) else None, after);
      }
    }
  }

  /** What is told about a chain grows by what it writes. */
  lemma ToldFollows(cfg: Config, before: Option<Phase>, entry: Option<Entry>, after: Phase)
    requires Follows(cfg, before, entry, after) && (before.Some? ==> PhaseOk(cfg, before.value))
    ensures Told(after) ==
        (if before.Some? then Told(before.value) else []) + (if entry.Some? then [entry.value] else [])
    ensures PhaseOk(cfg, after)
  {}

  lemma {:induction false} RunKeepsStory(cfg: Config, s: Relay, events: seq<Event>)
    requires StoryInv(cfg, s) && Run(cfg, s, events).Some?
    ensures StoryInv(cfg, Run(cfg, s, events).value)
    decreases |events|
  {
    if events != [] {
      StepKeepsStory(cfg, s, events[0]);
      RunKeepsStory(cfg, Step(cfg, s, events[0]).value, events[1..]);
    }
  }

  /** Lost on a retry: filtered, or abandoned. */
  predicate Lost(phase: Phase) {
    phase.Abandoned? || (phase.Done? && phase.status == SKIPPED && phase.n >= 2)
  }

  ghost predicate NotLost(s: Relay, c: Chain) {
    c in s.chains ==> !Lost(s.chains[c])
  }

  /** Only its own events can lose a chain. */
  lemma {:induction false} FaithfulIsNotLost(cfg: Config, s: Relay, events: seq<Event>, c: Chain)
    requires NotLost(s, c) && FaithfulTo(events, c) && Run(cfg, s, events).Some?
    ensures NotLost(Run(cfg, s, events).value, c)
    decreases |events|
  {
    if events != [] {
      assert events[0] in events;
      assert NotLost(Step(cfg, s, events[0]).value, c);
      FaithfulIsNotLost(cfg, Step(cfg, s, events[0]).value, events[1..], c);
    }
  }

  /** The words a finished chain is meant to write. */
  predicate Word(cfg: Config, story: seq<Entry>) {
    && 1 <= |story| <= Attempts(cfg)
    && (forall i :: 0 <= i < |story| - 1 ==> story[i] == Entry(i + 1, RETRYING))
    && var last := story[|story| - 1];
       last.attempt == |story| && last.status != RETRYING && (last.status in {SKIPPED, CIRCUIT_OPEN} ==> |story| == 1)
  }

  /** A retry whose payload is filtered. */
  ghost predicate FilteredOnRetry(events: seq<Event>, c: Chain) {
    exists e :: e in events && Filters(e, c)
  }

  predicate Filters(e: Event, c: Chain) {
    e.c == c && e.Resume? && !e.send
  }

  /**
   In every run, a finished chain wrote one SKIPPED or CIRCUIT_OPEN row at attempt 1,
   or RETRYING rows in order and a last SUCCEEDED or EXHAUSTED one, if and only
   if none of its retries was filtered; else it wrote RETRYING rows and a last
   SKIPPED one. An unfinished chain wrote RETRYING rows only.
   */
  lemma ChainLogLanguage(cfg: Config, clock: int, events: seq<Event>, c: Chain)
    requires Run(cfg, Begin(clock), events).Some?
    ensures var s := Run(cfg, Begin(clock), events).value;
            c in s.chains ==>
              var story := Story(s.log, c);
              && (s.chains[c].Done? ==> (Word(cfg, story) <==> !FilteredOnRetry(events, c)))
              && (FilteredOnRetry(events, c) ==>
                  |story| >= 2 && story == Retried(|story| - 1) + [Entry(|story|, SKIPPED)])
              && (!s.chains[c].Done? ==> story == Retried(|story|) && |story| < Attempts(cfg))
              && (|story| <= 1 || |story| <= cfg.maxRetries)
  {
    RunKeepsStory(cfg, Begin(clock), events);
    LostWhenFiltered(cfg, Begin(clock), events, c);
    var s := Run(cfg, Begin(clock), events).value;
    hide *;
    if c in s.chains {
      StoryIsTold(cfg, s, c);
      ToldLanguage(cfg, s.chains[c]);
    }
  }

  lemma StoryIsTold(cfg: Config, s: Relay, c: Chain)
    requires StoryInv(cfg, s) && c in s.chains
    ensures Story(s.log, c) == Told(s.chains[c]) && PhaseOk(cfg, s.chains[c])
  {}

  /** What is told in each phase, as a language. */
  lemma ToldLanguage(cfg: Config, phase: Phase)
    requires PhaseOk(cfg, phase)
    ensures phase.Done? ==> (Word(cfg, Told(phase)) <==> !Lost(phase))
    ensures phase.Done? && Lost(phase) ==>
              var story := Told(phase); |story| >= 2 && story == Retried(|story| - 1) + [Entry(|story|, SKIPPED)]
    ensures !phase.Done? ==> var story := Told(phase); story == Retried(|story|) && |story| < Attempts(cfg)
    ensures |Told(phase)| <= 1 || |Told(phase)| <= cfg.maxRetries
  {
    if phase.Done? {
      assert Told(phase)[|Told(phase)| - 1] == Entry(phase.n, phase.status);
    }
  }

  /** A finished chain is lost exactly if one of its retries was filtered. */
  lemma {:induction false} LostWhenFiltered(cfg: Config, s: Relay, events: seq<Event>, c: Chain)
    requires StoryInv(cfg, s) && NotLost(s, c) && Run(cfg, s, events).Some?
    ensures var t := Run(cfg, s, events).value;
            FilteredOnRetry(events, c) <==> c in t.chains && Lost(t.chains[c]) && t.chains[c].Done?
    decreases |events|
  {
    if events != [] {
      var e, t := events[0], Step(cfg, s, events[0]).value;
      StepKeepsStory(cfg, s, e);
      StepLoses(cfg, s, e, c);
      assert FilteredOnRetry(events, c) <==> Filters(e, c) || FilteredOnRetry(events[1..], c);
      if NotLost(t, c) {
        LostWhenFiltered(cfg, t, events[1..], c);
      } else {
        OverStays(cfg, t, events[1..], c);
      }
    }
  }

  lemma StepLoses(cfg: Config, s: Relay, e: Event, c: Chain)
    requires NotLost(s, c) && (c in s.chains ==> PhaseOk(cfg, s.chains[c])) && Step(cfg, s, e).Some?
    ensures var t := Step(cfg, s, e).value;
            && (!NotLost(t, c) <==> e.c == c && (e.Abandon? || Filters(e, c)))
            && (!NotLost(t, c) ==> (Filters(e, c) <==> t.chains[c].Done?))
  {}

  /** A chain that is done or abandoned takes no step any more. */
  lemma {:induction false} OverStays(cfg: Config, s: Relay, events: seq<Event>, c: Chain)
    requires c in s.chains && (s.chains[c].Done? || s.chains[c].Abandoned?) && Run(cfg, s, events).Some?
    ensures var t := Run(cfg, s, events).value; c in t.chains && t.chains[c] == s.chains[c]
    ensures forall e :: e in events ==> e.c != c
    decreases |events|
  {
    if events != [] {
      OverStays(cfg, Step(cfg, s, events[0]).value, events[1..], c);
    }
  }

  /** A run whose only chain writes RETRYING and then SKIPPED. */
  lemma FilteredRetryWritesSkipped(cfg: Config, clock: int) returns (events: seq<Event>, s: Relay)
    requires cfg.maxRetries >= 2
    ensures Run(cfg, Begin(clock), events) == Some(s) && 0 in s.chains && s.chains[0].Done?
    ensures Story(s.log, 0) == [Entry(1, RETRYING), Entry(2, SKIPPED)] && !Word(cfg, Story(s.log, 0))
  {
    events, s := FirstRetry(cfg, clock);
    events, s := Then(cfg, Begin(clock), events, s, Resume(0, false));
    SkippedAfterRetry(cfg);
  }

  lemma FirstRetry(cfg: Config, clock: int) returns (events: seq<Event>, s: Relay)
    requires cfg.maxRetries >= 2
    ensures Run(cfg, Begin(clock), events) == Some(s) && 0 in s.chains && s.chains[0] == Waiting(2)
    ensures s.log == [Row(0, Entry(1, RETRYING), None)]
  {
    events, s := Then(cfg, Begin(clock), [], Begin(clock), Enqueue(0));
    events, s := Then(cfg, Begin(clock), events, s, Start(0, true, clock));
    events, s := Then(cfg, Begin(clock), events, s, Receive(0, NoAnswer, clock));
  }

  lemma SkippedAfterRetry(cfg: Config)
    ensures var first, second := Row(0, Entry(1, RETRYING), None), Row(0, Entry(2, SKIPPED), None);
            && Story([first] + [second], 0) == [Entry(1, RETRYING), Entry(2, SKIPPED)]
            && !Word(cfg, [Entry(1, RETRYING), Entry(2, SKIPPED)])
  {
    var first, second := Row(0, Entry(1, RETRYING), None), Row(0, Entry(2, SKIPPED), None);
    StorySnoc([], first, 0);
    StorySnoc([first], second, 0);
    assert [] + [first] == [first];
    assert [Entry(1, RETRYING), Entry(2, SKIPPED)][1].status == SKIPPED;
  }
}
