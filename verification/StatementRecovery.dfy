/**
 When a half-open circuit can be left at all, statement by statement, and the
 runs after which it never can.
 */
module StatementRecovery {
  import opened Options
  import opened CircuitBreaker
  import opened StatementRuns
  import Races = StatementRaces

  /** A worker that, left alone, can still close or open the circuit. */
  predicate Able(cfg: Config, pc: Pc) {
    match pc
    case Ready(n) => n > 1
    case Loaded(n, snapshot) =>
      n > 1 || snapshot.state == CLOSED || (snapshot.state == OPEN && snapshot.openedAt == None)
    case Posting(_) => true
    case Succeeding => true
    case ReadBack(count) => count >= cfg.threshold
    case _ => false
  }

  ghost predicate SomeAble(cfg: Config, s: System) {
    exists w :: w in s.workers && Able(cfg, s.workers[w])
  }

  function Uncounted(s: System): set<Worker> {
    set w | w in s.workers && s.workers[w].Failing?
  }

  ghost predicate SomeCounting(s: System) {
    exists w :: w in s.workers && (s.workers[w].Failing? || s.workers[w].Incremented?)
  }

  /** Failures about to be read back, with enough of them in all. */
  ghost predicate Tips(cfg: Config, s: System) {
    SomeCounting(s) && s.row.failures + |Uncounted(s)| >= cfg.threshold
  }

  ghost predicate Stuck(cfg: Config, s: System) {
    s.row.state == HALF_OPEN && !SomeAble(cfg, s) && !Tips(cfg, s)
  }

  /** Moving a worker that is neither able nor counting, to a place that is neither. */
  lemma IdleMove(cfg: Config, s: System, t: System, w: Worker, pc: Pc)
    requires Stuck(cfg, s) && t.workers == s.workers[w := pc] && t.row == s.row
    requires !At(s, w).Failing? && !At(s, w).Incremented?
    requires !Able(cfg, pc) && !pc.Failing? && !pc.Incremented?
    ensures Stuck(cfg, t)
  {
    assert Uncounted(t) == Uncounted(s);
    forall v | v in t.workers ensures !Able(cfg, t.workers[v]) {
      assert v != w ==> v in s.workers && t.workers[v] == s.workers[v];
    }
    if v :| v in t.workers && (t.workers[v].Failing? || t.workers[v].Incremented?) {
      assert v in s.workers && (s.workers[v].Failing? || s.workers[v].Incremented?);
    }
  }

  lemma StuckCount(cfg: Config, s: System, w: Worker)
    requires Stuck(cfg, s) && At(s, w).Failing?
    ensures Stuck(cfg, Step(cfg, s, Count(w)).value)
  {
    var t := Step(cfg, s, Count(w)).value;
    assert Uncounted(s) == Uncounted(t) + {w} && w !in Uncounted(t);
    assert SomeCounting(s);
    forall v | v in t.workers ensures !Able(cfg, t.workers[v]) {
      assert v in s.workers && (v != w ==> t.workers[v] == s.workers[v]);
    }
  }

  lemma StuckRead(cfg: Config, s: System, w: Worker)
    requires Stuck(cfg, s) && At(s, w).Incremented?
    ensures Stuck(cfg, Step(cfg, s, ReadCount(w)).value)
  {
    var t := Step(cfg, s, ReadCount(w)).value;
    assert Uncounted(s) == Uncounted(t);
    assert SomeCounting(s);
    forall v | v in t.workers ensures !Able(cfg, t.workers[v]) {
      assert v in s.workers && (v != w ==> t.workers[v] == s.workers[v]);
    }
  }

  lemma StuckStep(cfg: Config, s: System, e: Event)
    requires cfg.breakerEnabled && Stuck(cfg, s) && Step(cfg, s, e).Some?
    ensures Stuck(cfg, Step(cfg, s, e).value)
  {
    var t := Step(cfg, s, e).value;
    assert e.w in s.workers ==> !Able(cfg, s.workers[e.w]);
    match e {
      case Count(w) => StuckCount(cfg, s, w);
      case ReadCount(w) => StuckRead(cfg, s, w);
      case Receive(_, _) =>
      case Close(_) =>
      case Open(_, _) =>
      case _ => IdleMove(cfg, s, t, e.w, t.workers[e.w]);
    }
  }

  lemma {:induction false} StuckForever(cfg: Config, s: System, events: seq<Event>)
    requires cfg.breakerEnabled && Stuck(cfg, s) && Run(cfg, s, events).Some?
    ensures Stuck(cfg, Run(cfg, s, events).value)
    decreases |events|
  {
    if events != [] {
      StuckStep(cfg, s, events[0]);
      StuckForever(cfg, Step(cfg, s, events[0]).value, events[1..]);
    }
  }

  // ----- the way out

  ghost predicate CanLeave(cfg: Config, s: System) {
    exists events :: Leaves(cfg, s, events)
  }

  ghost predicate Leaves(cfg: Config, s: System, events: seq<Event>) {
    Run(cfg, s, events).Some? && Run(cfg, s, events).value.row.state != HALF_OPEN
  }

  /** ... by steps of these workers alone. */
  ghost predicate CanLeaveBy(cfg: Config, s: System, who: set<Worker>) {
    exists events :: LeavesBy(cfg, s, who, events)
  }

  ghost predicate LeavesBy(cfg: Config, s: System, who: set<Worker>, events: seq<Event>) {
    Leaves(cfg, s, events) && forall e :: e in events ==> e.w in who
  }

  lemma OneStepFirst(cfg: Config, s: System, e: Event, who: set<Worker>)
    requires Step(cfg, s, e).Some? && e.w in who
    ensures CanLeaveBy(cfg, Step(cfg, s, e).value, who) ==> CanLeaveBy(cfg, s, who)
  {
    var t := Step(cfg, s, e).value;
    if CanLeaveBy(cfg, t, who) {
      var rest :| LeavesBy(cfg, t, who, rest);
      assert ([e] + rest)[1..] == rest;
      assert LeavesBy(cfg, s, who, [e] + rest);
    }
  }

  lemma OutAlready(cfg: Config, s: System, who: set<Worker>)
    requires s.row.state != HALF_OPEN
    ensures CanLeaveBy(cfg, s, who)
  {
    assert LeavesBy(cfg, s, who, []);
  }

  /** How far an able worker is from its write. */
  function Distance(pc: Pc): nat {
    match pc
    case Ready(_) => 4
    case Loaded(_, _) => 3
    case Posting(_) => 2
    case _ => 1
  }

  lemma {:induction false} AbleLeaves(cfg: Config, s: System, w: Worker, who: set<Worker>)
    requires w in s.workers && Able(cfg, s.workers[w]) && w in who
    ensures CanLeaveBy(cfg, s, who)
    decreases Distance(s.workers[w])
  {
    var e := match s.workers[w]
             case Ready(_) => Load(w)
             case Loaded(_, _) => Decide(w, 0)
             case Posting(_) => Receive(w, Accepted)
             case Succeeding => Close(w)
             case _ => Open(w, 0);
    var t := Step(cfg, s, e).value;
    OneStepFirst(cfg, s, e, who);
    if e.Close? || e.Open? {
      OutAlready(cfg, t, who);
    } else {
      AbleLeaves(cfg, t, w, who);
    }
  }

  lemma {:induction false} TippingLeaves(cfg: Config, s: System, who: set<Worker>)
    requires Tips(cfg, s) && s.workers.Keys <= who
    ensures CanLeaveBy(cfg, s, who)
    decreases |Uncounted(s)|
  {
    if w :| w in Uncounted(s) {
      var t := Step(cfg, s, Count(w)).value;
      assert Uncounted(s) == Uncounted(t) + {w} && w !in Uncounted(t);
      assert w in t.workers && t.workers[w].Incremented?;
      TippingLeaves(cfg, t, who);
      OneStepFirst(cfg, s, Count(w), who);
    } else {
      var w :| w in s.workers && (s.workers[w].Failing? || s.workers[w].Incremented?);
      assert w !in Uncounted(s);
      assert Uncounted(s) == {};
      var t := Step(cfg, s, ReadCount(w)).value;
      AbleLeaves(cfg, t, w, who);
      OneStepFirst(cfg, s, ReadCount(w), who);
    }
  }

  lemma LeavesByOwn(cfg: Config, s: System)
    requires SomeAble(cfg, s) || Tips(cfg, s)
    ensures CanLeaveBy(cfg, s, s.workers.Keys) && CanLeave(cfg, s)
  {
    if SomeAble(cfg, s) {
      var w :| w in s.workers && Able(cfg, s.workers[w]);
      AbleLeaves(cfg, s, w, s.workers.Keys);
    } else {
      TippingLeaves(cfg, s, s.workers.Keys);
    }
  }

  /**
   Some run leaves half-open, exactly if a worker stands where it can still write
   CLOSED or OPEN, or the failures on record and those about to be counted reach
   the threshold while one of them is still to be read back.
   */
  lemma CanLeaveIff(cfg: Config, s: System)
    requires cfg.breakerEnabled && s.row.state == HALF_OPEN
    ensures CanLeave(cfg, s) <==> SomeAble(cfg, s) || Tips(cfg, s)
  {
    if SomeAble(cfg, s) || Tips(cfg, s) {
      LeavesByOwn(cfg, s);
    } else {
      forall events ensures !Leaves(cfg, s, events) {
        if Run(cfg, s, events).Some? {
          StuckForever(cfg, s, events);
        }
      }
    }
  }

  /** The race of StatementRaces.RaceCanWedge wedges the circuit for good. */
  lemma RaceWedgesForGood(cfg: Config, clock: int) returns (events: seq<Event>, s: System, i: nat)
    requires cfg.breakerEnabled && cfg.threshold == 2
    ensures Races.Reached(cfg, events, s, clock + Cooldown(cfg)) && Races.LateOpen(events, i)
    ensures s.row.state == HALF_OPEN && !CanLeave(cfg, s)
  {
    events, s, i := Races.RaceCanWedge(cfg, clock);
    CanLeaveIff(cfg, s);
  }

  // ----- there are no other ways to wedge

  /** The step neither opens a circuit with too few failures on record, nor loses a worker on a retry. */
  predicate SoundStep(cfg: Config, s: System, e: Event) {
    && (e.Open? ==> s.row.failures >= Threshold(cfg))
    && (e.Vanish? && At(s, e.w).Ready? ==> At(s, e.w).n == 1)
    && (e.Filter? && At(s, e.w).Loaded? ==> At(s, e.w).n == 1)
  }

  ghost predicate Sound(cfg: Config, s: System, events: seq<Event>)
    decreases |events|
  {
    events != [] && Step(cfg, s, events[0]).Some? ==>
      SoundStep(cfg, s, events[0]) && Sound(cfg, Step(cfg, s, events[0]).value, events[1..])
  }

  predicate Numbered(pc: Pc) {
    pc.Ready? || pc.Loaded? || pc.Posting? ==> pc.n >= 1
  }

  /** A worker past the gate whose delivery has not ended. */
  predicate Holds(cfg: Config, pc: Pc) {
    match pc
    case Ready(n) => n > 1
    case Loaded(n, _) => n > 1
    case Posting(_) => true
    case Succeeding => true
    case Failing => true
    case Incremented => true
    case ReadBack(count) => count >= cfg.threshold
    case Ended => false
  }

  ghost predicate SomeHolder(cfg: Config, s: System) {
    exists w :: w in s.workers && Holds(cfg, s.workers[w])
  }

  ghost predicate SoundInv(cfg: Config, s: System) {
    && (s.row.state != CLOSED ==> s.row.failures >= Threshold(cfg))
    && (s.row.state == HALF_OPEN ==> SomeHolder(cfg, s))
    && (forall w :: w in s.workers ==> Numbered(s.workers[w]))
  }

  /** Its own step leaves a holder a holder, or ends the half-open state. */
  lemma HolderStep(cfg: Config, s: System, e: Event)
    requires SoundInv(cfg, s) && SoundStep(cfg, s, e) && Step(cfg, s, e).Some? && s.row.state == HALF_OPEN
    requires e.w in s.workers && Holds(cfg, s.workers[e.w])
    ensures var t := Step(cfg, s, e).value;
            t.row.state == HALF_OPEN ==> e.w in t.workers && Holds(cfg, t.workers[e.w])
  {}

  lemma SoundStepKeeps(cfg: Config, s: System, e: Event)
    requires SoundInv(cfg, s) && SoundStep(cfg, s, e) && Step(cfg, s, e).Some?
    ensures SoundInv(cfg, Step(cfg, s, e).value)
  {
    var t := Step(cfg, s, e).value;
    if s.row.state == HALF_OPEN {
      var w :| w in s.workers && Holds(cfg, s.workers[w]);
      if w == e.w {
        HolderStep(cfg, s, e);
      }
      assert t.row.state == HALF_OPEN ==> w in t.workers && Holds(cfg, t.workers[w]);
    } else if t.row.state == HALF_OPEN {
      assert Holds(cfg, t.workers[e.w]);
    }
  }

  lemma {:induction false} SoundRunKeeps(cfg: Config, s: System, events: seq<Event>)
    requires SoundInv(cfg, s) && Sound(cfg, s, events) && Run(cfg, s, events).Some?
    ensures SoundInv(cfg, Run(cfg, s, events).value)
    decreases |events|
  {
    if events != [] {
      SoundStepKeeps(cfg, s, events[0]);
      SoundRunKeeps(cfg, Step(cfg, s, events[0]).value, events[1..]);
    }
  }

  /**
   A run that wedges the circuit has lost a worker on a retry, or has written OPEN
   with too few failures on record. In all other interleavings a circuit that is
   not closed has its failures on record, and half-open can be left.
   */
  lemma SoundRunsRecover(cfg: Config, events: seq<Event>)
    requires Run(cfg, START, events).Some? && Sound(cfg, START, events)
    ensures var s := Run(cfg, START, events).value;
            && (s.row.state != CLOSED ==> s.row.failures >= Threshold(cfg))
            && (s.row.state == HALF_OPEN ==> CanLeave(cfg, s))
  {
    SoundRunKeeps(cfg, START, events);
    var s := Run(cfg, START, events).value;
    if s.row.state == HALF_OPEN {
      var w :| w in s.workers && Holds(cfg, s.workers[w]);
      assert SomeAble(cfg, s) || SomeCounting(s);
      LeavesByOwn(cfg, s);
    }
  }

  lemma {:induction false} TallyGrows(trace: seq<Effect>, j: nat)
    requires j <= |trace| && forall k :: j <= k < |trace| ==> !trace[k].WasClosed?
    ensures Tally(trace) >= Tally(trace[..j])
    decreases |trace|
  {
    if j < |trace| {
      TallyGrows(trace[..|trace| - 1], j);
      assert trace[..|trace| - 1][..j] == trace[..j];
    } else {
      assert trace[..j] == trace;
    }
  }

  /**
   And OPEN is written with too few failures on record only after a success: if a
   worker has read back more failures than there are now, someone has closed
   the circuit since.
   */
  lemma LateOpenFollowsSuccess(cfg: Config, events: seq<Event>, w: Worker)
    requires Run(cfg, START, events).Some?
    ensures var s := Run(cfg, START, events).value;
            At(s, w).ReadBack? && s.row.failures < At(s, w).count ==>
              exists j, k :: 0 <= j < k < |s.trace| && s.trace[j] == WasRead(w, At(s, w).count) && s.trace[k].WasClosed?
  {
    RunKeepsInv(cfg, START, events);
    var s := Run(cfg, START, events).value;
    if At(s, w).ReadBack? && s.row.failures < At(s, w).count {
      assert WorkerOk(s, w);
      var j: nat :| JustRead(s.trace, w, j, At(s, w).count);
      if forall k :: j <= k < |s.trace| ==> !s.trace[k].WasClosed? {
        TallyGrows(s.trace, j);
      }
    }
  }
}
