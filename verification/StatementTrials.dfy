/**
 When a second trial can begin while the winner of the first stands still,
 statement by statement.
 */
module StatementTrials {
  import opened Options
  import opened CircuitBreaker
  import opened StatementRuns
  import opened StatementRecovery
  import Unused

  /** The system without one of its workers. */
  function Others(s: System, w: Worker): System {
    s.(workers := s.workers - {w})
  }

  ghost predicate Avoids(events: seq<Event>, w: Worker) {
    forall e :: e in events ==> e.w != w
  }

  /** A trial is won in this run, and w takes no step in it. */
  ghost predicate SecondWin(cfg: Config, s: System, w: Worker, events: seq<Event>) {
    && Run(cfg, s, events).Some? && Avoids(events, w)
    && exists k :: |s.trace| <= k < |Run(cfg, s, events).value.trace| && Run(cfg, s, events).value.trace[k].WasWon?
  }

  ghost predicate CanWin(cfg: Config, s: System, w: Worker) {
    exists events :: SecondWin(cfg, s, w, events)
  }

  // ----- a worker that stands still is of no account

  lemma OthersStep(cfg: Config, s: System, w: Worker, e: Event)
    requires e.w != w
    ensures Step(cfg, s, e).Some? <==> Step(cfg, Others(s, w), e).Some?
    ensures Step(cfg, s, e).Some? ==> Step(cfg, Others(s, w), e).value == Others(Step(cfg, s, e).value, w)
  {
    assert At(s, e.w) == At(Others(s, w), e.w);
    if Step(cfg, s, e).Some? {
      var t, o := Step(cfg, s, e).value, Step(cfg, Others(s, w), e).value;
      assert t.workers == s.workers[e.w := t.workers[e.w]];
      assert o.workers == Others(t, w).workers;
    }
  }

  lemma {:induction false} OthersRun(cfg: Config, s: System, w: Worker, events: seq<Event>)
    requires Avoids(events, w)
    ensures Run(cfg, s, events).Some? <==> Run(cfg, Others(s, w), events).Some?
    ensures Run(cfg, s, events).Some? ==> Run(cfg, Others(s, w), events).value == Others(Run(cfg, s, events).value, w)
    decreases |events|
  {
    if events != [] {
      assert events[0] in events;
      OthersStep(cfg, s, w, events[0]);
      if Step(cfg, s, events[0]).Some? {
        OthersRun(cfg, Step(cfg, s, events[0]).value, w, events[1..]);
      }
    }
  }

  // ----- a stuck system wins nothing

  lemma {:induction false} StuckNeverWins(cfg: Config, s: System, events: seq<Event>, k: nat)
    requires cfg.breakerEnabled && Stuck(cfg, s) && Run(cfg, s, events).Some?
    ensures var t := Run(cfg, s, events).value;
            |s.trace| <= |t.trace| && (|s.trace| <= k < |t.trace| ==> !t.trace[k].WasWon?)
            && t.trace[..|s.trace|] == s.trace
    decreases |events|
  {
    if events != [] {
      var next := Step(cfg, s, events[0]).value;
      StuckStep(cfg, s, events[0]);
      StuckNeverWins(cfg, next, events[1..], k);
      var t := Run(cfg, s, events).value;
      assert t.trace[..|s.trace|] == t.trace[..|next.trace|][..|s.trace|];
      if |s.trace| <= k < |next.trace| {
        assert t.trace[k] == t.trace[..|next.trace|][k];
      }
    }
  }

  // ----- a row that is not half-open gets to its next trial

  lemma {:induction false} TraceGrows(cfg: Config, s: System, events: seq<Event>)
    requires Run(cfg, s, events).Some?
    ensures |s.trace| <= |Run(cfg, s, events).value.trace|
    decreases |events|
  {
    if events != [] {
      TraceGrows(cfg, Step(cfg, s, events[0]).value, events[1..]);
    }
  }

  lemma StepThenWin(cfg: Config, s: System, e: Event, w: Worker)
    requires Step(cfg, s, e).Some? && e.w != w
    ensures CanWin(cfg, Step(cfg, s, e).value, w) ==> CanWin(cfg, s, w)
  {
    var t := Step(cfg, s, e).value;
    if CanWin(cfg, t, w) {
      var rest :| SecondWin(cfg, t, w, rest);
      assert ([e] + rest)[1..] == rest;
      assert SecondWin(cfg, s, w, [e] + rest);
    }
  }

  /** From an open row a newcomer wins, once the cooldown is over. */
  lemma OpenWins(cfg: Config, s: System, w: Worker)
    requires cfg.breakerEnabled && s.row.state == OPEN && s.row.openedAt.Some?
    ensures CanWin(cfg, s, w)
  {
    var v := Unused.AboveAll(s.workers.Keys + {w});
    assert w in s.workers.Keys + {w} && v !in s.workers;
    var swap := TrySwap(v, s.row.openedAt.value + Cooldown(cfg));
    var s1 := Step(cfg, s, Spawn(v)).value;
    var s2 := Step(cfg, s1, Load(v)).value;
    var s3 := Step(cfg, s2, swap).value;
    assert Run(cfg, s2, [swap]) == Some(s3);
    assert s3.trace[|s2.trace|].WasWon?;
    assert SecondWin(cfg, s2, w, [swap]);
    StepThenWin(cfg, s1, Load(v), w);
    StepThenWin(cfg, s, Spawn(v), w);
  }

  function Missing(cfg: Config, s: System): nat {
    if s.row.failures < cfg.threshold then cfg.threshold - s.row.failures else 0
  }

  /** From a closed row newcomers fail until it opens. */
  lemma {:induction false} ClosedWins(cfg: Config, s: System, w: Worker)
    requires cfg.breakerEnabled && s.row.state == CLOSED
    ensures CanWin(cfg, s, w)
    decreases Missing(cfg, s)
  {
    var v := Unused.AboveAll(s.workers.Keys + {w});
    assert w in s.workers.Keys + {w} && v !in s.workers;
    var s1 := Refused(cfg, s, w, v);
    var s2 := Step(cfg, s1, Count(v)).value;
    var s3 := Step(cfg, s2, ReadCount(v)).value;
    var last := if s.row.failures + 1 >= cfg.threshold then Open(v, 0) else LeaveBe(v);
    var s4 := Step(cfg, s3, last).value;
    if last.Open? {
      OpenWins(cfg, s4, w);
    } else {
      ClosedWins(cfg, s4, w);
    }
    StepThenWin(cfg, s3, last, w);
    StepThenWin(cfg, s2, ReadCount(v), w);
    StepThenWin(cfg, s1, Count(v), w);
  }

  /** A newcomer is let through a closed circuit, and its post is refused. */
  lemma Refused(cfg: Config, s: System, w: Worker, v: Worker) returns (t: System)
    requires s.row.state == CLOSED && v !in s.workers && v != w
    ensures t.row == s.row && At(t, v) == Failing
    ensures CanWin(cfg, t, w) ==> CanWin(cfg, s, w)
  {
    var s1 := Step(cfg, s, Spawn(v)).value;
    var s2 := Step(cfg, s1, Load(v)).value;
    var s3 := Step(cfg, s2, Decide(v, 0)).value;
    t := Step(cfg, s3, Receive(v, Rejected)).value;
    StepThenWin(cfg, s3, Receive(v, Rejected), w);
    StepThenWin(cfg, s2, Decide(v, 0), w);
    StepThenWin(cfg, s1, Load(v), w);
    StepThenWin(cfg, s, Spawn(v), w);
  }

  lemma {:induction false} RunKeepsStamp(cfg: Config, s: System, events: seq<Event>)
    requires Stamped(s.row) && Run(cfg, s, events).Some?
    ensures Stamped(Run(cfg, s, events).value.row)
    decreases |events|
  {
    if events != [] {
      RunKeepsStamp(cfg, Step(cfg, s, events[0]).value, events[1..]);
    }
  }

  lemma {:induction false} RunThenWin(cfg: Config, s: System, events: seq<Event>, w: Worker)
    requires Run(cfg, s, events).Some? && Avoids(events, w)
    ensures CanWin(cfg, Run(cfg, s, events).value, w) ==> CanWin(cfg, s, w)
    decreases |events|
  {
    if events != [] {
      assert events[0] in events;
      RunThenWin(cfg, Step(cfg, s, events[0]).value, events[1..], w);
      StepThenWin(cfg, s, events[0], w);
    }
  }

  /**
   While w stands still, another trial can be won, exactly if the others can leave
   half-open without it: one of them can still write CLOSED or OPEN, or their
   failures tip the count.
   */
  lemma SecondWinIff(cfg: Config, s: System, w: Worker)
    requires cfg.breakerEnabled && s.row.state == HALF_OPEN && Stamped(s.row)
    ensures CanWin(cfg, s, w) <==> SomeAble(cfg, Others(s, w)) || Tips(cfg, Others(s, w))
  {
    var o := Others(s, w);
    if SomeAble(cfg, o) || Tips(cfg, o) {
      LeavesByOwn(cfg, o);
      var events :| LeavesBy(cfg, o, o.workers.Keys, events);
      assert Avoids(events, w);
      OthersRun(cfg, s, w, events);
      RunKeepsStamp(cfg, s, events);
      var t := Run(cfg, s, events).value;
      if t.row.state == OPEN {
        OpenWins(cfg, t, w);
      } else {
        ClosedWins(cfg, t, w);
      }
      RunThenWin(cfg, s, events, w);
    } else {
      forall events ensures !SecondWin(cfg, s, w, events) {
        if Run(cfg, s, events).Some? && Avoids(events, w) {
          OthersRun(cfg, s, w, events);
          var t := Run(cfg, s, events).value;
          forall k | |s.trace| <= k < |t.trace| ensures !t.trace[k].WasWon? {
            StuckNeverWins(cfg, o, events, k);
          }
        }
      }
    }
  }
}
