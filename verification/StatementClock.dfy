/**
 How far apart trials are won, statement by statement. The clock is read before
 the statement that uses its time, so times on the row need not be in order.
 */
module StatementClock {
  import opened Options
  import opened CircuitBreaker
  import opened StatementRuns

  // ----- time in a run

  /** When an event uses a time that the worker has read from the clock. */
  function TimeOf(e: Event): Option<int> {
    match e
    case Decide(_, now) => Some(now)
    case TrySwap(_, now) => Some(now)
    case Open(_, now) => Some(now)
    case _ => None
  }

  /**
   The steps can have happened at these times: in order, and each time used was
   read between the worker's step before and the step that uses it.
   */
  ghost predicate Clocked(events: seq<Event>, times: seq<int>) {
    && |times| == |events|
    && (forall i, j :: 0 <= i < j < |times| ==> times[i] <= times[j])
    && (forall i :: 0 <= i < |events| && TimeOf(events[i]).Some? ==> TimeOf(events[i]).value <= times[i])
    && (forall i, j :: 0 <= j < i < |events| && TimeOf(events[i]).Some? && events[j].w == events[i].w ==>
          times[j] <= TimeOf(events[i]).value)
  }

  // ----- what the trace says about trials

  ghost predicate WinsApart(cfg: Config, trace: seq<Effect>) {
    forall i, j :: 0 <= i < j < |trace| && trace[i].WasWon? && trace[j].WasWon? ==>
      trace[j].at - trace[i].at >= Cooldown(cfg)
  }

  /** k is the last opening before j. */
  ghost predicate LastOpened(trace: seq<Effect>, k: nat, j: nat) {
    && k < j <= |trace| && trace[k].WasOpened?
    && forall m :: k < m < j ==> !trace[m].WasOpened?
  }

  /** Every trial was decided on a snapshot whose opening is not older than the one that it ended. */
  ghost predicate FreshWins(trace: seq<Effect>) {
    forall j, k :: 0 <= k < j < |trace| && trace[j].WasWon? && LastOpened(trace, k, j) ==> trace[k].at <= trace[j].seen
  }

  /** No opening bears a time from before a trial that was won before it landed. */
  ghost predicate StampsAfterWins(trace: seq<Effect>) {
    forall i, k :: 0 <= i < k < |trace| && trace[i].WasWon? && trace[k].WasOpened? ==> trace[i].at <= trace[k].at
  }

  /** The opening a trial was decided on is not from before an earlier trial. */
  ghost predicate SeenAfterWins(trace: seq<Effect>) {
    forall i, j :: 0 <= i < j < |trace| && trace[i].WasWon? && trace[j].WasWon? ==> trace[i].at <= trace[j].seen
  }

  // ----- what every run keeps

  /** Every trial waited out the cooldown of the opening in its snapshot. */
  ghost predicate WaitsKept(cfg: Config, trace: seq<Effect>) {
    forall j :: 0 <= j < |trace| && trace[j].WasWon? ==> trace[j].at - trace[j].seen >= Cooldown(cfg)
  }

  /** The opening on the row is the last one in the trace. */
  ghost predicate OpeningShown(s: System) {
    s.row.state == OPEN ==>
      exists k: nat :: LastOpened(s.trace, k, |s.trace|) && s.row.openedAt == Some(s.trace[k].at)
  }

  ghost predicate ClockInv(cfg: Config, s: System) {
    WaitsKept(cfg, s.trace) && OpeningShown(s)
  }

  lemma LastOpenedSnoc(trace: seq<Effect>, e: Effect, k: nat)
    requires LastOpened(trace, k, |trace|) && !e.WasOpened?
    ensures LastOpened(trace + [e], k, |trace + [e]|)
  {}

  lemma StepKeepsClock(cfg: Config, s: System, e: Event)
    requires ClockInv(cfg, s) && Step(cfg, s, e).Some?
    ensures ClockInv(cfg, Step(cfg, s, e).value)
  {
    var t := Step(cfg, s, e).value;
    if e.Open? {
      assert LastOpened(t.trace, |s.trace|, |t.trace|);
    } else if t.row.state == OPEN {
      var k: nat :| LastOpened(s.trace, k, |s.trace|) && s.row.openedAt == Some(s.trace[k].at);
      if |t.trace| > |s.trace| {
        LastOpenedSnoc(s.trace, t.trace[|s.trace|], k);
      }
      assert LastOpened(t.trace, k, |t.trace|);
    }
  }

  lemma {:induction false} RunKeepsClock(cfg: Config, s: System, events: seq<Event>)
    requires ClockInv(cfg, s) && Run(cfg, s, events).Some?
    ensures ClockInv(cfg, Run(cfg, s, events).value)
    decreases |events|
  {
    if events != [] {
      StepKeepsClock(cfg, s, events[0]);
      RunKeepsClock(cfg, Step(cfg, s, events[0]).value, events[1..]);
    }
  }

  // ----- the theorem, and what it needs

  /**
   In every interleaving, whatever the times: if each trial was decided on a fresh
   snapshot, and no opening that landed after a trial bears a time from before it,
   trials are at least the cooldown apart.
   */
  lemma FreshWinsAreApart(cfg: Config, events: seq<Event>)
    requires Run(cfg, START, events).Some?
    ensures var trace := Run(cfg, START, events).value.trace;
            FreshWins(trace) && StampsAfterWins(trace) ==> SeenAfterWins(trace) && WinsApart(cfg, trace)
  {
    RunKeepsClock(cfg, START, events);
    OneWinPerOpening(cfg, events);
    var trace := Run(cfg, START, events).value.trace;
    if FreshWins(trace) && StampsAfterWins(trace) {
      forall i, j | 0 <= i < j < |trace| && trace[i].WasWon? && trace[j].WasWon? ensures trace[i].at <= trace[j].seen {
        var k :| i < k < j && trace[k].WasOpened?;
        var last := LatestOpening(trace, k, j);
        assert trace[i].at <= trace[last].at <= trace[j].seen;
      }
      ApartIfSeen(cfg, trace);
    }
  }

  lemma ApartIfSeen(cfg: Config, trace: seq<Effect>)
    requires WaitsKept(cfg, trace) && SeenAfterWins(trace)
    ensures WinsApart(cfg, trace)
  {}

  lemma {:induction false} LatestOpening(trace: seq<Effect>, k: nat, j: nat) returns (last: nat)
    requires k < j <= |trace| && trace[k].WasOpened?
    ensures k <= last < j && LastOpened(trace, last, j)
    decreases j
  {
    if trace[j - 1].WasOpened? {
      last := j - 1;
    } else {
      last := LatestOpening(trace, k, j - 1);
    }
  }

  /** The opening that a worker contends for is the last one in the trace. */
  lemma ContendsForLast(cfg: Config, events: seq<Event>)
    requires Run(cfg, START, events).Some?
    ensures OpeningShown(Run(cfg, START, events).value)
  {
    RunKeepsClock(cfg, START, events);
  }

  /**
   What decides is the opening in the snapshot: whenever a worker gets to contend
   it is the cooldown away from an earlier trial, exactly if that opening is not
   from before the trial.
   */
  lemma CooldownHonouredIff(cfg: Config, snapshot: Breaker, earlier: int)
    requires cfg.breakerEnabled && snapshot.state == OPEN && snapshot.openedAt.Some?
    ensures (forall now :: GateOf(cfg, snapshot, now) == Contend ==> now - earlier >= Cooldown(cfg))
       <==> earlier <= snapshot.openedAt.value
  {
    var earliest := snapshot.openedAt.value + Cooldown(cfg);
    assert GateOf(cfg, snapshot, earliest) == Contend;
  }
}
