/** Workers among interleaved statements: none ever waits for another, and each one comes to an end. */
module StatementProgress {
  import opened Options
  import opened CircuitBreaker
  import opened StatementRuns

  /** What reads the clock may happen at this time, and what ends a post may end it so. */
  predicate Accords(e: Event, now: int, reply: Reply) {
    match e
    case Decide(_, at) => at == now
    case TrySwap(_, at) => at == now
    case Open(_, at) => at == now
    case Receive(_, answer) => answer == reply
    case _ => true
  }

  /**
   Whatever the others have done, a worker that has not ended has a statement to
   make, at any time, whatever a receiver answers, and without giving up.
   */
  lemma NeverBlocked(cfg: Config, s: System, w: Worker, now: int, reply: Reply) returns (e: Event)
    requires w in s.workers && s.workers[w] != Ended
    ensures e.w == w && Step(cfg, s, e).Some? && Accords(e, now, reply) && !e.Vanish? && !e.Filter?
  {
    match s.workers[w]
    case Ready(_) => e := Load(w);
    case Loaded(n, snapshot) =>
      e := if n <= 1 && GateOf(cfg, snapshot, now) == Contend then TrySwap(w, now) else Decide(w, now);
    case Posting(_) => e := Receive(w, reply);
    case Succeeding => e := Close(w);
    case Failing => e := Count(w);
    case Incremented => e := ReadCount(w);
    case ReadBack(count) => e := if count >= cfg.threshold then Open(w, now) else LeaveBe(w);
  }

  /**
   A contender wins exactly if the row is still open when its swap comes, and
   otherwise backs off for good, leaving the row alone.
   */
  lemma SwapExactly(cfg: Config, s: System, w: Worker, snapshot: Breaker, now: int)
    requires w in s.workers && s.workers[w] == Loaded(1, snapshot)
    requires cfg.breakerEnabled && snapshot.state == OPEN && snapshot.openedAt.Some?
    requires now - snapshot.openedAt.value >= cfg.cooldownSeconds * 1000000
    ensures Step(cfg, s, TrySwap(w, now))
         == if s.row.state == OPEN
            then Some(System(Breaker(HALF_OPEN, s.row.failures, s.row.openedAt), s.workers[w := Posting(1)],
                             s.trace + [WasWon(w, now, snapshot.openedAt.value)]))
            else Some(System(s.row, s.workers[w := Ended], s.trace))
  {}

  /** How many statements a worker can have left. */
  function Budget(cfg: Config, pc: Pc): nat {
    match pc
    case Ready(n) => 6 + 3 * Left(cfg, n)
    case Loaded(n, _) => 5 + 3 * Left(cfg, n)
    case Posting(n) => 4 + 3 * Left(cfg, n)
    case Succeeding => 1
    case Failing => 3
    case Incremented => 2
    case ReadBack(_) => 1
    case Ended => 0
  }

  /** The retries that can follow attempt n. */
  function Left(cfg: Config, n: nat): nat {
    if n < cfg.maxRetries then cfg.maxRetries - n else 0
  }

  function Own(events: seq<Event>, w: Worker): nat {
    if events == [] then 0 else (if events[0].w == w then 1 else 0) + Own(events[1..], w)
  }

  /** A statement costs its worker at least one of its budget, and no other worker any. */
  lemma StepCosts(cfg: Config, s: System, e: Event, w: Worker)
    requires Step(cfg, s, e).Some? && w in s.workers
    ensures var t := Step(cfg, s, e).value;
            w in t.workers && Budget(cfg, At(t, w)) + (if e.w == w then 1 else 0) <= Budget(cfg, At(s, w))
  {}

  /**
   So every worker ends: in no run, however interleaved, does one make more than
   three statements for each attempt and three at the end.
   */
  lemma {:induction false} WorkersEnd(cfg: Config, s: System, events: seq<Event>, w: Worker)
    requires Run(cfg, s, events).Some? && w in s.workers
    ensures Own(events, w) <= Budget(cfg, s.workers[w])
    ensures s.workers[w] == Ready(1) ==>
              Own(events, w) <= 3 * (if cfg.maxRetries >= 1 then cfg.maxRetries else 1) + 3
    decreases |events|
  {
    if events != [] {
      StepCosts(cfg, s, events[0], w);
      WorkersEnd(cfg, Step(cfg, s, events[0]).value, events[1..], w);
    }
  }
}
