/**
 One endpoint over whole runs, method by method: loading the row and taking the
 delivery slot is one step, and recording the outcome of a post is one step.
 Between them other chains may step. Every delivery is a chain of attempts.
 */
module RelayRuns {
  import opened Options
  import opened CircuitBreaker
  import opened Delivery
  import Backoff

  type Chain = nat

  /** Where a chain stands; `n` is the attempt that is under way or comes next. */
  datatype Phase =
    | Queued
    | Posting(n: nat)
    | Waiting(n: nat)                  // a retry is scheduled
    | Done(n: nat, status: Status)
    | Dropped                          // the first attempt found no enabled endpoint
    | Abandoned(n: nat)                // a retry found no enabled endpoint

  datatype Event =
    | Enqueue(c: Chain)
    | Start(c: Chain, send: bool, now: int)
    | Resume(c: Chain, send: bool)
    | Receive(c: Chain, outcome: Outcome, now: int)
    | Drop(c: Chain)
    | Abandon(c: Chain)

  /** A won half-open trial. */
  datatype Trial = Trial(chain: Chain, at: int)

  /** `posts` lists the chain of every post made. */
  datatype Relay = Relay(breaker: Breaker, chains: map<Chain, Phase>, log: seq<Row>, trials: seq<Trial>, clock: int,
                         posts: seq<Chain>)

  function Begin(clock: int): Relay {
    Relay(NEW_BREAKER, map[], [], [], clock, [])
  }

  /** The most attempts a chain can make. */
  function Attempts(cfg: Config): nat {
    if cfg.maxRetries >= 1 then cfg.maxRetries else 1
  }

  predicate Live(phase: Phase) {
    phase.Posting? || phase.Waiting?
  }

  function Move(s: Relay, c: Chain, phase: Phase): Relay {
    s.(chains := s.chains[c := phase])
  }

  /** Record an entry for c, which then is in `phase`. */
  function Note(s: Relay, c: Chain, phase: Phase, entry: Entry, code: Option<int>): Relay {
    Move(s, c, phase).(log := s.log + [Row(c, entry, code)])
  }

  function Post(s: Relay, c: Chain, n: nat): Relay {
    Move(s, c, Posting(n)).(posts := s.posts + [c])
  }

  function StartStep(cfg: Config, s: Relay, c: Chain, send: bool, now: int): Relay {
    var stopped := Stopped(cfg, s.breaker, s.breaker, 1, send, now);
    if stopped.Some? then Note(s.(clock := now), c, Done(1, stopped.value), Entry(1, stopped.value), None)
    else
      var won := GateOf(cfg, s.breaker, now) == Contend;
      Post(s, c, 1).(breaker := AtPost(cfg, s.breaker, s.breaker, 1, send, now), clock := now,
                     trials := if won then s.trials + [Trial(c, now)] else s.trials)
  }

  function ResumeStep(s: Relay, c: Chain, n: nat, send: bool): Relay {
    if send then Post(s, c, n) else Note(s, c, Done(n, SKIPPED), Entry(n, SKIPPED), None)
  }

  function ReceiveStep(cfg: Config, s: Relay, c: Chain, n: nat, outcome: Outcome, now: int): Relay {
    var status := StatusOf(cfg, n, outcome);
    Note(s, c, if status == RETRYING then Waiting(n + 1) else Done(n, status), Entry(n, status), CodeOf(outcome))
      .(breaker := Settle(cfg, s.breaker, status, now), clock := now)
  }

  /** One step, or None if the event cannot happen in s. Time never runs backwards. */
  function Step(cfg: Config, s: Relay, e: Event): Option<Relay> {
    if e.Enqueue? then (if e.c in s.chains then None else Some(Move(s, e.c, Queued)))
    else if e.c !in s.chains then None
    else
      var phase := s.chains[e.c];
      match e
      case Start(c, send, now) =>
        if phase.Queued? && now >= s.clock then Some(StartStep(cfg, s, c, send, now)) else None
      case Resume(c, send) => if phase.Waiting? then Some(ResumeStep(s, c, phase.n, send)) else None
      case Receive(c, outcome, now) =>
        if phase.Posting? && now >= s.clock then Some(ReceiveStep(cfg, s, c, phase.n, outcome, now)) else None
      case Drop(c) => if phase.Queued? then Some(Move(s, c, Dropped)) else None
      case Abandon(c) => if phase.Waiting? then Some(Move(s, c, Abandoned(phase.n))) else None
  }

  function Run(cfg: Config, s: Relay, events: seq<Event>): Option<Relay>
    decreases |events|
  {
    if events == [] then Some(s)
    else match Step(cfg, s, events[0]) case None => None case Some(next) => Run(cfg, next, events[1..])
  }

  /** A run, and one event more. */
  lemma Then(cfg: Config, start: Relay, events: seq<Event>, s: Relay, e: Event) returns (longer: seq<Event>, t: Relay)
    requires Run(cfg, start, events) == Some(s) && Step(cfg, s, e).Some?
    ensures longer == events + [e] && Step(cfg, s, e) == Some(t) && Run(cfg, start, longer) == Some(t)
  {
    longer, t := events + [e], Step(cfg, s, e).value;
    assert [e][1..] == [] && Run(cfg, s, [e]) == Some(t);
    RunConcat(cfg, start, events, [e]);
  }

  // ----- a step, seen from the one chain that takes it

  function PhaseOf(s: Relay, c: Chain): Option<Phase> {
    if c in s.chains then Some(s.chains[c]) else None
  }

  /** How a chain moves, and what it writes when it does. */
  predicate Follows(cfg: Config, before: Option<Phase>, entry: Option<Entry>, after: Phase) {
    match before
    case None => entry == None && after == Queued
    case Some(Queued) =>
      if entry == None then after in {Posting(1), Dropped}
      else
        && entry.value.attempt == 1 && entry.value.status in {SKIPPED, CIRCUIT_OPEN}
        && after == Done(1, entry.value.status)
    case Some(Waiting(n)) =>
      if entry == None then after in {Posting(n), Abandoned(n)}
      else entry.value == Entry(n, SKIPPED) && after == Done(n, SKIPPED)
    case Some(Posting(n)) =>
      && entry.Some? && entry.value.attempt == n
      && if entry.value.status == RETRYING then n < cfg.maxRetries && after == Waiting(n + 1)
         else entry.value.status in {SUCCEEDED, EXHAUSTED} && after == Done(n, entry.value.status)
    case _ => false
  }

  /** Every step moves one chain that way, logs what it writes, and notes its post. */
  lemma StepFollows(cfg: Config, s: Relay, e: Event) returns (row: Option<Row>, after: Phase)
    requires Step(cfg, s, e).Some?
    ensures var t := Step(cfg, s, e).value;
            && t.chains == s.chains[e.c := after]
            && t.log == s.log + (if row.Some? then [row.value] else [])
            && t.posts == s.posts + (if after.Posting? then [e.c] else [])
    ensures row.Some? ==> row.value.chain == e.c
    ensures Follows(cfg, PhaseOf(s, e.c), if row.Some? then Some(row.value.entry) else None, after)
  {
    var t := Step(cfg, s, e).value;
    after := t.chains[e.c];
    row := if |t.log| > |s.log| then Some(t.log[|s.log|]) else None;
  }

  /** This chain is not lost on a retry: its endpoint stays enabled, and its payload is not filtered. */
  ghost predicate FaithfulTo(events: seq<Event>, c: Chain) {
    forall e :: e in events && e.c == c ==> !e.Abandon? && (e.Resume? ==> e.send)
  }

  lemma {:induction false} RunConcat(cfg: Config, s: Relay, first: seq<Event>, second: seq<Event>)
    requires Run(cfg, s, first).Some?
    ensures Run(cfg, s, first + second) == Run(cfg, Run(cfg, s, first).value, second)
    decreases |first|
  {
    if first == [] {
      assert first + second == second;
    } else {
      assert (first + second)[1..] == first[1..] + second;
      RunConcat(cfg, Step(cfg, s, first[0]).value, first[1..], second);
    }
  }

  /**
   The machine does what the code does: an attempt that nobody interrupts leaves
   the rows and the endpoint row of DeliverWebhook, and is retried exactly if it is.
   */
  lemma UninterruptedAttempt(cfg: Config, s: Relay, policy: Backoff.Policy, c: Chain, n: nat, send: bool,
                             outcome: Outcome,
                             now: int, later: int) returns (events: seq<Event>, t: Relay)
    requires c in s.chains && s.clock <= now <= later
    requires if n == 1 then s.chains[c] == Queued else n >= 2 && s.chains[c] == Waiting(n)
    ensures Run(cfg, s, events) == Some(t) && forall e :: e in events ==> e.c == c
    ensures t.log == s.log + TaskRows(cfg, s.breaker, c, n, send, outcome, now)
    ensures t.breaker == TaskBreaker(cfg, s.breaker, n, send, outcome, now, later)
    ensures c in t.chains && !t.chains[c].Posting?
    ensures t.chains[c].Waiting? <==> TaskNext(cfg, s.breaker, policy, n, send, outcome, now).Again?
  {
    var first := if n == 1 then Start(c, send, now) else Resume(c, send);
    var posted := Step(cfg, s, first).value;
    var second := Receive(c, outcome, later);
    if posted.chains[c].Posting? {
      events, t := [first, second], Step(cfg, posted, second).value;
      assert Run(cfg, posted, [second]) == Some(t);
      assert [first, second][1..] == [second];
    } else {
      events, t := [first], posted;
    }
  }
}
