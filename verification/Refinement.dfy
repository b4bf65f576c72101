/**
 The two granularities agree: every run of the call-level machine is a run of
 the statement-level one in which each method's statements happen together, at
 the time the method reads. What holds over all interleavings of statements
 thus holds over all call-level runs; the spacing of trials is shown both ways.
 */
module Refinement {
  import opened Options
  import opened CircuitBreaker
  import opened Delivery
  import R = RelayRuns
  import S = StatementRuns
  import T = StatementClock
  import Races = StatementRaces

  /** The worker of a chain, when no method call is under way. */
  function Worker(phase: R.Phase): S.Pc {
    match phase
    case Queued => S.Ready(1)
    case Waiting(n) => S.Ready(n)
    case Posting(n) => S.Posting(n)
    case _ => S.Ended
  }

  /** The trials won, in order. */
  function Wins(trace: seq<S.Effect>): seq<R.Trial> {
    if trace == [] then []
    else
      var last := trace[|trace| - 1];
      Wins(trace[..|trace| - 1]) + if last.WasWon? then [R.Trial(last.w, last.at)] else []
  }

  /** Trials so far were decided on the row as it was, and times read from now on are later than theirs. */
  ghost predicate Orderly(cfg: Config, m: S.System, now: int) {
    && T.ClockInv(cfg, m) && T.FreshWins(m.trace) && T.StampsAfterWins(m.trace)
    && forall i :: 0 <= i < |m.trace| && m.trace[i].WasWon? ==> m.trace[i].at <= now
  }

  ghost predicate Represents(cfg: Config, s: R.Relay, m: S.System) {
    && m.row == s.breaker
    && m.workers.Keys == s.chains.Keys
    && (forall c :: c in s.chains ==>
        m.workers[c] == Worker(s.chains[c]) && (s.chains[c].Waiting? ==> s.chains[c].n >= 2))
    && (forall c :: c in s.chains && s.chains[c].Posting? ==> s.chains[c].n >= 1)
    && Wins(m.trace) == s.trials
    && Orderly(cfg, m, s.clock)
  }

  lemma WinsSnoc(trace: seq<S.Effect>, e: S.Effect)
    ensures Wins(trace + [e]) == Wins(trace) + if e.WasWon? then [R.Trial(e.w, e.at)] else []
  {
    assert (trace + [e])[..|trace|] == trace;
  }

  /** The statement uses the time `now`, and swaps only what it has just loaded. */
  predicate Prompt(row: Breaker, pc: S.Pc, e: S.Event, now: int) {
    && (e.Open? || e.TrySwap? ==> e.now == now)
    && (e.TrySwap? && pc.Loaded? ==> pc.snapshot.openedAt == row.openedAt)
  }

  lemma OrderlySnoc(cfg: Config, m: S.System, e: S.Event, now: int)
    requires Orderly(cfg, m, now) && S.Step(cfg, m, e).Some? && Prompt(m.row, S.At(m, e.w), e, now)
    ensures Orderly(cfg, S.Step(cfg, m, e).value, now)
  {
    var t := S.Step(cfg, m, e).value;
    T.StepKeepsClock(cfg, m, e);
    if |t.trace| > |m.trace| {
      var last := t.trace[|m.trace|];
      StampsSnoc(m.trace, last, now);
      if last.WasWon? {
        var k: nat :| T.LastOpened(m.trace, k, |m.trace|) && m.row.openedAt == Some(m.trace[k].at);
        FreshSnoc(m.trace, last, k);
      } else {
        FreshSnoc(m.trace, last, 0);
      }
    }
  }

  lemma StampsSnoc(trace: seq<S.Effect>, e: S.Effect, now: int)
    requires T.StampsAfterWins(trace) && (e.WasOpened? ==> e.at == now)
    requires forall i :: 0 <= i < |trace| && trace[i].WasWon? ==> trace[i].at <= now
    ensures T.StampsAfterWins(trace + [e])
  {}

  lemma FreshSnoc(trace: seq<S.Effect>, e: S.Effect, k: nat)
    requires T.FreshWins(trace)
    requires e.WasWon? ==> T.LastOpened(trace, k, |trace|) && trace[k].at == e.seen
    ensures T.FreshWins(trace + [e])
  {
    var longer := trace + [e];
    forall j, m | 0 <= m < j < |longer| && longer[j].WasWon? && T.LastOpened(longer, m, j)
      ensures longer[m].at <= longer[j].seen
    {
      assert forall i :: 0 <= i < |trace| ==> longer[i] == trace[i];
      assert T.LastOpened(trace, m, j) by {
        forall i | m < i < j ensures !trace[i].WasOpened? {
          assert !longer[i].WasOpened?;
        }
      }
      if j == |trace| {
        assert m == k;
      }
    }
  }

  /** A run of one worker's statements: where the row, that worker and the wins have got to. */
  ghost predicate Went(cfg: Config, m: S.System, w: S.Worker, stmts: seq<S.Event>, row: Breaker, pc: S.Pc,
                       wins: seq<R.Trial>, now: int) {
    && S.Run(cfg, m, stmts).Some?
    && var t := S.Run(cfg, m, stmts).value;
       && t.row == row
       && t.workers == m.workers[w := pc]
       && Wins(t.trace) == wins
       && Orderly(cfg, t, now)
  }

  /** A worker's statement depends on the row and on that worker alone. */
  lemma StatementIsLocal(cfg: Config, t: S.System, w: S.Worker, pc: S.Pc, e: S.Event)
    requires w in t.workers && t.workers[w] == pc && e.w == w && !e.Spawn?
    requires S.Step(cfg, S.System(t.row, map[w := pc], []), e).Some?
    ensures S.Step(cfg, t, e).Some?
    ensures var alone, u := S.Step(cfg, S.System(t.row, map[w := pc], []), e).value, S.Step(cfg, t, e).value;
            && w in alone.workers && u.row == alone.row && u.workers == t.workers[w := alone.workers[w]]
            && (if alone.trace == [] then u.trace == t.trace else u.trace == t.trace + [alone.trace[0]])
            && (alone.trace != [] && alone.trace[0].WasWon? <==> e.TrySwap? && t.row.state == OPEN)
            && (alone.trace != [] ==> alone.trace[0].w == w)
  {}

  /** One statement more. */
  lemma And(cfg: Config, m: S.System, w: S.Worker, stmts: seq<S.Event>, row: Breaker, pc: S.Pc, wins: seq<R.Trial>,
            now: int, e: S.Event)
      returns (longer: seq<S.Event>, row2: Breaker, pc2: S.Pc, wins2: seq<R.Trial>)
    requires Went(cfg, m, w, stmts, row, pc, wins, now) && e.w == w && !e.Spawn? && Prompt(row, pc, e, now)
    requires S.Step(cfg, S.System(row, map[w := pc], []), e).Some?
    ensures Went(cfg, m, w, longer, row2, pc2, wins2, now)
    ensures var t := S.Step(cfg, S.System(row, map[w := pc], []), e).value;
            && row2 == t.row && w in t.workers && t.workers[w] == pc2
            && wins2 == if e.TrySwap? && row.state == OPEN then wins + [R.Trial(w, now)] else wins
  {
    var t := S.Run(cfg, m, stmts).value;
    var alone := S.Step(cfg, S.System(row, map[w := pc], []), e).value;
    StatementIsLocal(cfg, t, w, pc, e);
    OrderlySnoc(cfg, t, e, now);
    Races.RunSnoc(cfg, m, stmts, e);
    if alone.trace != [] {
      WinsSnoc(t.trace, alone.trace[0]);
    }
    longer, row2, pc2 := stmts + [e], alone.row, alone.workers[w];
    wins2 := if e.TrySwap? && row.state == OPEN then wins + [R.Trial(w, now)] else wins;
    assert m.workers[w := pc][w := pc2] == m.workers[w := pc2];
  }

  /** The statements of a failure recording that nobody interrupts. */
  lemma RecordFailure(cfg: Config, m: S.System, w: S.Worker, stmts: seq<S.Event>, row: Breaker, wins: seq<R.Trial>,
                      now: int)
      returns (longer: seq<S.Event>)
    requires Went(cfg, m, w, stmts, row, S.Failing, wins, now)
    ensures Went(cfg, m, w, longer, AfterFailure(cfg, row, now), S.Ended, wins, now)
  {
    hide Went;
    var row2, pc, wins2;
    longer, row2, pc, wins2 := And(cfg, m, w, stmts, row, S.Failing, wins, now, S.Count(w));
    longer, row2, pc, wins2 := And(cfg, m, w, longer, row2, pc, wins2, now, S.ReadCount(w));
    longer, row2, pc, wins2 := And(cfg, m, w, longer, row2, pc, wins2, now,
                                   if row.failures + 1 >= cfg.threshold then S.Open(w, now) else S.LeaveBe(w));
  }

  /** No statement yet. */
  lemma Nothing(cfg: Config, m: S.System, w: S.Worker, now: int)
    requires w in m.workers && Orderly(cfg, m, now)
    ensures Went(cfg, m, w, [], m.row, m.workers[w], Wins(m.trace), now)
  {
    assert m.workers == m.workers[w := m.workers[w]];
  }

  lemma ReceiveStatements(cfg: Config, m: S.System, w: S.Worker, n: nat, outcome: Outcome, now: int)
      returns (stmts: seq<S.Event>)
    requires w in m.workers && m.workers[w] == S.Posting(n) && Orderly(cfg, m, now)
    ensures var status := StatusOf(cfg, n, outcome);
            Went(cfg, m, w, stmts, Settle(cfg, m.row, status, now),
                 if status == RETRYING then S.Ready(n + 1) else S.Ended, Wins(m.trace), now)
  {
    hide Went, Wins;
    var status, row, pc, wins := StatusOf(cfg, n, outcome), m.row, S.Posting(n), Wins(m.trace);
    Nothing(cfg, m, w, now);
    var reply := if status == SUCCEEDED then S.Accepted else if Retryable(outcome) then S.Retryable else S.Rejected;
    stmts, row, pc, wins := And(cfg, m, w, [], row, pc, wins, now, S.Receive(w, reply));
    if status == SUCCEEDED {
      stmts, row, pc, wins := And(cfg, m, w, stmts, row, pc, wins, now, S.Close(w));
    } else if status == EXHAUSTED {
      stmts := RecordFailure(cfg, m, w, stmts, row, wins, now);
    }
  }

  /** Load, then filter, gate or trial. */
  lemma AttemptStatements(cfg: Config, m: S.System, w: S.Worker, n: nat, send: bool, now: int)
      returns (stmts: seq<S.Event>)
    requires w in m.workers && m.workers[w] == S.Ready(n) && n >= 1 && Orderly(cfg, m, now)
    ensures var stopped := Stopped(cfg, m.row, m.row, n, send, now);
            var won := stopped == None && n == 1 && GateOf(cfg, m.row, now) == Contend;
            Went(cfg, m, w, stmts, AtPost(cfg, m.row, m.row, n, send, now),
                 if stopped == None then S.Posting(n) else S.Ended,
                 if won then Wins(m.trace) + [R.Trial(w, now)] else Wins(m.trace), now)
  {
    hide Went, Wins;
    var row, pc, wins := m.row, S.Ready(n), Wins(m.trace);
    Nothing(cfg, m, w, now);
    stmts, row, pc, wins := And(cfg, m, w, [], row, pc, wins, now, S.Load(w));
    var next := if !send then S.Filter(w)
                else if n == 1 && GateOf(cfg, m.row, now) == Contend then S.TrySwap(w, now)
                else S.Decide(w, now);
    stmts, row, pc, wins := And(cfg, m, w, stmts, row, pc, wins, now, next);
  }

  lemma Arrived(cfg: Config, s: R.Relay, m: S.System, c: R.Chain, stmts: seq<S.Event>, t: R.Relay, after: R.Phase)
    requires Represents(cfg, s, m) && c in s.chains && t.chains == s.chains[c := after]
    requires Went(cfg, m, c, stmts, t.breaker, Worker(after), t.trials, t.clock)
    requires (after.Waiting? ==> after.n >= 2) && (after.Posting? ==> after.n >= 1)
    ensures S.Run(cfg, m, stmts).Some? && Represents(cfg, t, S.Run(cfg, m, stmts).value)
  {}

  lemma StartStatements(cfg: Config, s: R.Relay, e: R.Event, m: S.System) returns (stmts: seq<S.Event>)
    requires Represents(cfg, s, m) && e.Start? && R.Step(cfg, s, e).Some?
    ensures S.Run(cfg, m, stmts).Some? && Represents(cfg, R.Step(cfg, s, e).value, S.Run(cfg, m, stmts).value)
  {
    var c, t := e.c, R.Step(cfg, s, e).value;
    stmts := AttemptStatements(cfg, m, c, 1, e.send, e.now);
    Arrived(cfg, s, m, c, stmts, t, t.chains[c]);
  }

  lemma ResumeStatements(cfg: Config, s: R.Relay, e: R.Event, m: S.System) returns (stmts: seq<S.Event>)
    requires Represents(cfg, s, m) && e.Resume? && R.Step(cfg, s, e).Some?
    ensures S.Run(cfg, m, stmts).Some? && Represents(cfg, R.Step(cfg, s, e).value, S.Run(cfg, m, stmts).value)
  {
    var c, t := e.c, R.Step(cfg, s, e).value;
    stmts := AttemptStatements(cfg, m, c, s.chains[c].n, e.send, s.clock);
    Arrived(cfg, s, m, c, stmts, t, t.chains[c]);
  }

  lemma ReceivedStatements(cfg: Config, s: R.Relay, e: R.Event, m: S.System) returns (stmts: seq<S.Event>)
    requires Represents(cfg, s, m) && e.Receive? && R.Step(cfg, s, e).Some?
    ensures S.Run(cfg, m, stmts).Some? && Represents(cfg, R.Step(cfg, s, e).value, S.Run(cfg, m, stmts).value)
  {
    var c, t := e.c, R.Step(cfg, s, e).value;
    stmts := ReceiveStatements(cfg, m, c, s.chains[c].n, e.outcome, e.now);
    Arrived(cfg, s, m, c, stmts, t, t.chains[c]);
  }

  /** The statements of one call-level step. */
  lemma StepStatements(cfg: Config, s: R.Relay, e: R.Event, m: S.System) returns (stmts: seq<S.Event>)
    requires Represents(cfg, s, m) && R.Step(cfg, s, e).Some?
    ensures S.Run(cfg, m, stmts).Some? && Represents(cfg, R.Step(cfg, s, e).value, S.Run(cfg, m, stmts).value)
  {
    match e {
      case Start(_, _, _) => stmts := StartStatements(cfg, s, e, m);
      case Resume(_, _) => stmts := ResumeStatements(cfg, s, e, m);
      case Receive(_, _, _) => stmts := ReceivedStatements(cfg, s, e, m);
      case _ =>
        stmts := [if e.Enqueue? then S.Spawn(e.c) else S.Vanish(e.c)];
        assert stmts[1..] == [];
    }
  }

  lemma {:induction false} StatementsConcat(cfg: Config, m: S.System, first: seq<S.Event>, second: seq<S.Event>)
    requires S.Run(cfg, m, first).Some?
    ensures S.Run(cfg, m, first + second) == S.Run(cfg, S.Run(cfg, m, first).value, second)
    decreases |first|
  {
    if first == [] {
      assert first + second == second;
    } else {
      assert (first + second)[1..] == first[1..] + second;
      StatementsConcat(cfg, S.Step(cfg, m, first[0]).value, first[1..], second);
    }
  }

  lemma {:induction false} RunStatements(cfg: Config, s: R.Relay, events: seq<R.Event>, m: S.System)
      returns (stmts: seq<S.Event>)
    requires Represents(cfg, s, m) && R.Run(cfg, s, events).Some?
    ensures S.Run(cfg, m, stmts).Some? && Represents(cfg, R.Run(cfg, s, events).value, S.Run(cfg, m, stmts).value)
    decreases |events|
  {
    if events == [] {
      stmts := [];
    } else {
      var first := StepStatements(cfg, s, events[0], m);
      var rest := RunStatements(cfg, R.Step(cfg, s, events[0]).value, events[1..], S.Run(cfg, m, first).value);
      StatementsConcat(cfg, m, first, rest);
      stmts := first + rest;
    }
  }

  /**
   Every call-level run is an interleaving of statements, with the same row, the
   same trials at the same times, all decided on fresh snapshots, and every
   opening with a time after the trials before it.
   */
  lemma CallsRefineStatements(cfg: Config, clock: int, events: seq<R.Event>) returns (stmts: seq<S.Event>)
    requires R.Run(cfg, R.Begin(clock), events).Some?
    ensures S.Run(cfg, S.START, stmts).Some?
    ensures Represents(cfg, R.Run(cfg, R.Begin(clock), events).value, S.Run(cfg, S.START, stmts).value)
  {
    stmts := RunStatements(cfg, R.Begin(clock), events, S.START);
  }

  // ----- the spacing of trials, once more

  lemma {:induction false} WinIsInTrace(trace: seq<S.Effect>, i: nat) returns (k: nat)
    requires i < |Wins(trace)|
    ensures k < |trace| && trace[k].WasWon? && Wins(trace)[i] == R.Trial(trace[k].w, trace[k].at)
  {
    if i < |Wins(trace[..|trace| - 1])| {
      k := WinIsInTrace(trace[..|trace| - 1], i);
    } else {
      k := |trace| - 1;
    }
  }

  lemma {:induction false} WinsListApart(cfg: Config, trace: seq<S.Effect>, i: nat, j: nat)
    requires T.WinsApart(cfg, trace) && i < j < |Wins(trace)|
    ensures Wins(trace)[j].at - Wins(trace)[i].at >= Cooldown(cfg)
  {
    var init := trace[..|trace| - 1];
    if j < |Wins(init)| {
      WinsListApart(cfg, init, i, j);
    } else {
      var k := WinIsInTrace(init, i);
      assert trace[k] == init[k] && trace[|trace| - 1].WasWon?;
    }
  }

  /** Trials of the call-level machine are the cooldown apart because those of the statement-level one are. */
  lemma SpacingByRefinement(cfg: Config, clock: int, events: seq<R.Event>, i: nat, j: nat)
    requires R.Run(cfg, R.Begin(clock), events).Some?
    ensures var trials := R.Run(cfg, R.Begin(clock), events).value.trials;
            i < j < |trials| ==> trials[j].at - trials[i].at >= Cooldown(cfg)
  {
    var stmts := CallsRefineStatements(cfg, clock, events);
    T.FreshWinsAreApart(cfg, stmts);
    var trace := S.Run(cfg, S.START, stmts).value.trace;
    if i < j < |Wins(trace)| {
      WinsListApart(cfg, trace, i, j);
    }
  }
}
