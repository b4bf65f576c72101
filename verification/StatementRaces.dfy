/**
 Three runs of the statement-level machine of StatementRuns that show what does
 not hold at that granularity.
 */
module StatementRaces {
  import opened Options
  import opened CircuitBreaker
  import opened StatementRuns
  import opened StatementClock

  /**
   These events lead from the start to s, at times none of which is later than
   `clock`, and every endpoint stayed in place.
   */
  ghost predicate Reached(cfg: Config, events: seq<Event>, s: System, clock: int) {
    && Run(cfg, START, events) == Some(s)
    && (forall e :: e in events ==> !e.Vanish?)
    && exists times :: Timed(events, times, clock)
  }

  ghost predicate Timed(events: seq<Event>, times: seq<int>, clock: int) {
    Clocked(events, times) && forall i :: 0 <= i < |times| ==> times[i] <= clock
  }

  lemma {:induction false} RunSnoc(cfg: Config, s: System, events: seq<Event>, e: Event)
    requires Run(cfg, s, events).Some?
    ensures Run(cfg, s, events + [e]) == Step(cfg, Run(cfg, s, events).value, e)
    decreases |events|
  {
    if events == [] {
      assert (events + [e])[1..] == [];
    } else {
      assert (events + [e])[1..] == events[1..] + [e];
      RunSnoc(cfg, Step(cfg, s, events[0]).value, events[1..], e);
    }
  }

  /** A step at the time `clock`. */
  lemma Then(cfg: Config, events: seq<Event>, s: System, clock: int, e: Event) returns (longer: seq<Event>, t: System)
    requires Reached(cfg, events, s, clock) && !e.Vanish? && Step(cfg, s, e).Some?
    requires TimeOf(e).Some? ==> TimeOf(e).value == clock
    ensures longer == events + [e] && Step(cfg, s, e) == Some(t) && Reached(cfg, longer, t, clock)
  {
    RunSnoc(cfg, START, events, e);
    longer, t := events + [e], Step(cfg, s, e).value;
    var times :| Timed(events, times, clock);
    TimedSnoc(events, times, clock, e);
  }

  lemma TimedSnoc(events: seq<Event>, times: seq<int>, clock: int, e: Event)
    requires Timed(events, times, clock)
    requires TimeOf(e).Some? ==> TimeOf(e).value <= clock
    requires TimeOf(e).Some? ==> forall i :: 0 <= i < |events| && events[i].w == e.w ==> times[i] <= TimeOf(e).value
    ensures Timed(events + [e], times + [clock], clock)
  {}

  /** A step that lands at the time `clock`, with a time that was read before, but after all steps of its worker. */
  lemma ThenLate(cfg: Config, events: seq<Event>, s: System, read: int, clock: int, e: Event, times: seq<int>)
      returns (longer: seq<Event>, t: System)
    requires Reached(cfg, events, s, clock) && !e.Vanish? && Step(cfg, s, e).Some? && Timed(events, times, clock)
    requires TimeOf(e) == Some(read) && read <= clock
    requires forall i :: 0 <= i < |events| && events[i].w == e.w ==> times[i] <= read
    ensures longer == events + [e] && Step(cfg, s, e) == Some(t) && Reached(cfg, longer, t, clock)
  {
    RunSnoc(cfg, START, events, e);
    longer, t := events + [e], Step(cfg, s, e).value;
    TimedSnoc(events, times, clock, e);
  }

  /** A new worker finds the circuit closed and has its post answered. */
  lemma Deliver(cfg: Config, events: seq<Event>, s: System, clock: int, w: Worker, reply: Reply)
      returns (longer: seq<Event>, t: System)
    requires Reached(cfg, events, s, clock) && w !in s.workers && s.row.state == CLOSED && reply != Retryable
    ensures Reached(cfg, longer, t, clock) && events <= longer && t.row == s.row && t.trace == s.trace
    ensures t.workers == s.workers[w := if reply == Accepted then Succeeding else Failing]
  {
    hide Reached, Run;
    longer, t := Then(cfg, events, s, clock, Spawn(w));
    longer, t := Then(cfg, longer, t, clock, Load(w));
    longer, t := Then(cfg, longer, t, clock, Decide(w, clock));
    longer, t := Then(cfg, longer, t, clock, Receive(w, reply));
  }

  lemma CountAndRead(cfg: Config, events: seq<Event>, s: System, clock: int, w: Worker)
      returns (longer: seq<Event>, t: System)
    requires Reached(cfg, events, s, clock) && At(s, w).Failing?
    ensures Reached(cfg, longer, t, clock) && events <= longer && t.row == Counted(s.row)
    ensures t.workers == s.workers[w := ReadBack(s.row.failures + 1)] && longer[|longer| - 1] == ReadCount(w)
    ensures t.trace == s.trace + [WasCounted(w)] + [WasRead(w, s.row.failures + 1)]
  {
    longer, t := Then(cfg, events, s, clock, Count(w));
    longer, t := Then(cfg, longer, t, clock, ReadCount(w));
  }

  lemma CountAndLeave(cfg: Config, events: seq<Event>, s: System, clock: int, w: Worker)
      returns (longer: seq<Event>, t: System)
    requires Reached(cfg, events, s, clock) && At(s, w).Failing? && s.row.failures + 1 < cfg.threshold
    ensures Reached(cfg, longer, t, clock) && events <= longer && t.row == Counted(s.row)
    ensures t.workers == s.workers[w := Ended]
  {
    longer, t := CountAndRead(cfg, events, s, clock, w);
    longer, t := Then(cfg, longer, t, clock, LeaveBe(w));
  }

  /** A new worker takes a snapshot of the row. */
  lemma TakeSnapshot(cfg: Config, events: seq<Event>, s: System, clock: int, w: Worker)
      returns (longer: seq<Event>, t: System)
    requires Reached(cfg, events, s, clock) && w !in s.workers
    ensures Reached(cfg, longer, t, clock) && events <= longer && t.row == s.row && t.trace == s.trace
    ensures t.workers == s.workers[w := Loaded(1, s.row)] && longer == events + [Spawn(w)] + [Load(w)]
  {
    longer, t := Then(cfg, events, s, clock, Spawn(w));
    longer, t := Then(cfg, longer, t, clock, Load(w));
  }

  /** A worker with a snapshot of an opening that is old enough wins the trial. */
  lemma Win(cfg: Config, events: seq<Event>, s: System, clock: int, w: Worker)
      returns (longer: seq<Event>, t: System)
    requires Reached(cfg, events, s, clock) && At(s, w).Loaded? && At(s, w).n == 1 && s.row.state == OPEN
    requires GateOf(cfg, At(s, w).snapshot, clock) == Contend && At(s, w).snapshot.openedAt.Some?
    ensures Reached(cfg, longer, t, clock) && longer == events + [TrySwap(w, clock)]
    ensures t.row == s.row.(state := HALF_OPEN) && t.workers == s.workers[w := Posting(1)]
    ensures t.trace == s.trace + [WasWon(w, clock, At(s, w).snapshot.openedAt.value)]
  {
    longer, t := Then(cfg, events, s, clock, TrySwap(w, clock));
  }

  /** ... and the post is refused. */
  lemma WinAndFail(cfg: Config, events: seq<Event>, s: System, clock: int, w: Worker)
      returns (longer: seq<Event>, t: System)
    requires Reached(cfg, events, s, clock) && At(s, w).Loaded? && At(s, w).n == 1 && s.row.state == OPEN
    requires GateOf(cfg, At(s, w).snapshot, clock) == Contend && At(s, w).snapshot.openedAt.Some?
    ensures Reached(cfg, longer, t, clock) && events <= longer
    ensures t.row == s.row.(state := HALF_OPEN) && t.workers == s.workers[w := Failing]
    ensures t.trace == s.trace + [WasWon(w, clock, At(s, w).snapshot.openedAt.value)]
  {
    longer, t := Win(cfg, events, s, clock, w);
    longer, t := Then(cfg, longer, t, clock, Receive(w, Rejected));
  }

  /** Waiting changes nothing. */
  lemma Later(cfg: Config, events: seq<Event>, s: System, clock: int, later: int)
    requires Reached(cfg, events, s, clock) && clock <= later
    ensures Reached(cfg, events, s, later)
  {
    var times :| Timed(events, times, clock);
    assert Timed(events, times, later);
  }

  lemma FromStart(cfg: Config, clock: int)
    ensures Reached(cfg, [], START, clock)
  {
    assert Timed([], [], clock);
  }

  // ----- a success between a read-back and its OPEN write

  /** Two refusals and an acceptance, none of them recorded yet. */
  lemma ThreeAnswers(cfg: Config, clock: int) returns (events: seq<Event>, s: System)
    ensures Reached(cfg, events, s, clock) && s.row == NEW_BREAKER
    ensures s.workers == map[1 := Failing, 2 := Failing, 3 := Succeeding]
  {
    FromStart(cfg, clock);
    events, s := Deliver(cfg, [], START, clock, 1, Rejected);
    events, s := Deliver(cfg, events, s, clock, 2, Rejected);
    events, s := Deliver(cfg, events, s, clock, 3, Accepted);
  }

  /** A success between a read-back and the OPEN write that follows it. */
  predicate LateOpen(events: seq<Event>, i: nat) {
    && i + 2 < |events| && events[i] == ReadCount(2) && events[i + 1] == Close(3)
    && events[i + 2].Open? && events[i + 2].w == 2
  }

  /** The circuit is open with no failure on record. */
  lemma OpenWithoutFailures(cfg: Config, clock: int) returns (events: seq<Event>, s: System, i: nat)
    requires cfg.threshold == 2
    ensures Reached(cfg, events, s, clock) && s.row == Breaker(OPEN, 0, Some(clock)) && LateOpen(events, i)
    ensures s.workers == map[1 := Ended, 2 := Ended, 3 := Ended]
  {
    hide Reached, Run, Clocked;
    events, s := ThreeAnswers(cfg, clock);
    events, s := CountAndLeave(cfg, events, s, clock, 1);
    events, s := CountAndRead(cfg, events, s, clock, 2);
    assert s.workers == map[1 := Ended, 2 := ReadBack(2), 3 := Succeeding];
    i := |events| - 1;
    events, s := Then(cfg, events, s, clock, Close(3));
    events, s := Then(cfg, events, s, clock, Open(2, clock));
  }

  /**
   A success between the read-back and the OPEN write of a second failure leaves
   the circuit open with no failures on record. With a threshold of two, the trial
   that follows fails without reopening the circuit, and it stays half-open
   with nobody left to resolve it, although no endpoint went away.
   */
  lemma RaceCanWedge(cfg: Config, clock: int) returns (events: seq<Event>, s: System, i: nat)
    requires cfg.breakerEnabled && cfg.threshold == 2
    ensures Reached(cfg, events, s, clock + Cooldown(cfg)) && LateOpen(events, i)
    ensures s.row.state == HALF_OPEN && s.row.failures < cfg.threshold
    ensures forall w :: w in s.workers ==> s.workers[w] == Ended
  {
    hide Reached, Run, Clocked;
    events, s, i := OpenWithoutFailures(cfg, clock);
    var later := clock + Cooldown(cfg);
    Later(cfg, events, s, clock, later);
    events, s := TakeSnapshot(cfg, events, s, later, 4);
    events, s := WinAndFail(cfg, events, s, later, 4);
    events, s := CountAndLeave(cfg, events, s, later, 4);
  }

  // ----- trials closer together than the cooldown

  /** The first failure of a fresh endpoint with a threshold of one opens the circuit. */
  lemma OpenAtOnce(cfg: Config, clock: int) returns (events: seq<Event>, s: System)
    requires Threshold(cfg) == 1
    ensures Reached(cfg, events, s, clock) && s.row == Breaker(OPEN, 1, Some(clock)) && s.workers.Keys == {1}
    ensures s.trace == [WasCounted(1), WasRead(1, 1), WasOpened(1, clock)]
  {
    hide Reached, Run, Clocked;
    FromStart(cfg, clock);
    events, s := Deliver(cfg, [], START, clock, 1, Rejected);
    events, s := CountAndRead(cfg, events, s, clock, 1);
    events, s := Then(cfg, events, s, clock, Open(1, clock));
  }

  /**
   A stale snapshot wins a trial although the circuit was opened anew at the same
   moment: the cooldown it checked was that of the opening before. The last two
   trials are won at one time, although every opening bears a time after the
   trials before it.
   */
  lemma StaleSnapshotIgnoresCooldown(cfg: Config, clock: int) returns (events: seq<Event>, s: System, now: int)
    requires cfg.breakerEnabled && Threshold(cfg) == 1 && cfg.cooldownSeconds >= 1
    ensures Reached(cfg, events, s, now)
    ensures StampsAfterWins(s.trace) && !FreshWins(s.trace) && !WinsApart(cfg, s.trace)
  {
    hide Reached, Run, Clocked;
    now := clock + Cooldown(cfg);
    events, s := OpenAtOnce(cfg, clock);
    Later(cfg, events, s, clock, now);
    events, s := TakeSnapshot(cfg, events, s, now, 2);
    events, s := TakeSnapshot(cfg, events, s, now, 3);
    events, s := WinAndFail(cfg, events, s, now, 2);
    events, s := CountAndRead(cfg, events, s, now, 2);
    events, s := Then(cfg, events, s, now, Open(2, now));
    events, s := Win(cfg, events, s, now, 3);
    StaleTrace(cfg, s.trace, clock, now);
  }

  lemma StaleTrace(cfg: Config, trace: seq<Effect>, clock: int, now: int)
    requires cfg.cooldownSeconds >= 1 && now == clock + Cooldown(cfg)
    requires trace == [WasCounted(1), WasRead(1, 1), WasOpened(1, clock), WasWon(2, now, clock),
                       WasCounted(2), WasRead(2, 2), WasOpened(2, now), WasWon(3, now, clock)]
    ensures StampsAfterWins(trace) && !FreshWins(trace) && !WinsApart(cfg, trace)
  {
    assert LastOpened(trace, 6, 7) && trace[7].WasWon? && trace[3].WasWon?;
    assert Cooldown(cfg) >= 1;
  }

  /** Two workers have counted their failures; one of them has opened the circuit, the other is about to. */
  lemma OneMoreToOpen(cfg: Config, clock: int) returns (events: seq<Event>, s: System)
    requires Threshold(cfg) == 1
    ensures Reached(cfg, events, s, clock) && s.row == Breaker(OPEN, 2, Some(clock))
    ensures s.workers == map[1 := Ended, 2 := ReadBack(2)]
    ensures s.trace == [WasCounted(1), WasRead(1, 1), WasCounted(2), WasRead(2, 2), WasOpened(1, clock)]
  {
    hide Reached, Run, Clocked;
    FromStart(cfg, clock);
    events, s := Deliver(cfg, [], START, clock, 1, Rejected);
    events, s := Deliver(cfg, events, s, clock, 2, Rejected);
    events, s := CountAndRead(cfg, events, s, clock, 1);
    events, s := CountAndRead(cfg, events, s, clock, 2);
    events, s := Then(cfg, events, s, clock, Open(1, clock));
  }

  /** A new worker wins while worker 2 has still not written OPEN. */
  lemma WinBeforeWrite(cfg: Config, clock: int) returns (events: seq<Event>, s: System, times: seq<int>)
    requires cfg.breakerEnabled && Threshold(cfg) == 1 && cfg.cooldownSeconds >= 1
    ensures var now := clock + Cooldown(cfg);
            && Reached(cfg, events, s, now) && Timed(events, times, now)
            && (forall i :: 0 <= i < |events| && events[i].w == 2 ==> times[i] <= clock)
            && s.row == Breaker(HALF_OPEN, 2, Some(clock))
            && s.workers == map[1 := Ended, 2 := ReadBack(2), 3 := Posting(1)]
            && s.trace == [WasCounted(1), WasRead(1, 1), WasCounted(2), WasRead(2, 2), WasOpened(1, clock),
                           WasWon(3, now, clock)]
  {
    hide Reached, Run, Clocked;
    var now := clock + Cooldown(cfg);
    events, s := OneMoreToOpen(cfg, clock);
    times := TimesOf(cfg, events, s, clock);
    LaterTimes(events, times, clock, now, 3);
    Later(cfg, events, s, clock, now);
    times := times + [now] + [now] + [now];
    events, s := TakeSnapshot(cfg, events, s, now, 3);
    events, s := Win(cfg, events, s, now, 3);
  }

  lemma TimesOf(cfg: Config, events: seq<Event>, s: System, clock: int) returns (times: seq<int>)
    requires Reached(cfg, events, s, clock)
    ensures Timed(events, times, clock)
  {
    times :| Timed(events, times, clock);
  }

  /** A new worker loads and swaps later on. */
  lemma LaterTimes(events: seq<Event>, times: seq<int>, clock: int, now: int, w: Worker)
    requires Timed(events, times, clock) && clock <= now && w != 2
    ensures var longer, more := events + [Spawn(w)] + [Load(w)] + [TrySwap(w, now)], times + [now] + [now] + [now];
            && Timed(longer, more, now)
            && forall i :: 0 <= i < |longer| && longer[i].w == 2 ==> more[i] <= clock
  {
    assert Timed(events, times, now);
    TimedSnoc(events, times, now, Spawn(w));
    TimedSnoc(events + [Spawn(w)], times + [now], now, Load(w));
    TimedSnoc(events + [Spawn(w)] + [Load(w)], times + [now] + [now], now, TrySwap(w, now));
  }

  /**
   An OPEN write that lands after a trial, with a time read before it, shortens the
   wait for the next trial, although every trial is decided on the row as it is.
   Here the two trials are one microsecond apart.
   */
  lemma LateWriteIgnoresCooldown(cfg: Config, clock: int) returns (events: seq<Event>, s: System, now: int)
    requires cfg.breakerEnabled && Threshold(cfg) == 1 && cfg.cooldownSeconds >= 1
    ensures Reached(cfg, events, s, now)
    ensures FreshWins(s.trace) && !StampsAfterWins(s.trace) && !WinsApart(cfg, s.trace)
  {
    hide Reached, Run, Clocked;
    var times;
    events, s, times := WinBeforeWrite(cfg, clock);
    now := clock + Cooldown(cfg);
    events, s := ThenLate(cfg, events, s, clock + 1, now, Open(2, clock + 1), times);
    Later(cfg, events, s, now, now + 1);
    now := now + 1;
    events, s := TakeSnapshot(cfg, events, s, now, 4);
    events, s := Win(cfg, events, s, now, 4);
    LateTrace(cfg, s.trace, clock, now);
  }

  lemma LateTrace(cfg: Config, trace: seq<Effect>, clock: int, now: int)
    requires cfg.cooldownSeconds >= 1 && now == clock + Cooldown(cfg) + 1
    requires trace == [WasCounted(1), WasRead(1, 1), WasCounted(2), WasRead(2, 2), WasOpened(1, clock),
                       WasWon(3, now - 1, clock), WasOpened(2, clock + 1), WasWon(4, now, clock + 1)]
    ensures FreshWins(trace) && !StampsAfterWins(trace) && !WinsApart(cfg, trace)
  {
    assert trace[5].WasWon? && trace[6].WasOpened? && trace[7].WasWon?;
    assert Cooldown(cfg) >= 2;
  }
}
