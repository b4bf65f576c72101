/**
 Many workers on one endpoint, interleaved statement by statement: every
 database statement is one step, and every worker decides on the snapshot it
 loaded, however old. Models the breaker part of deliver_webhook.
 */
module StatementRuns {
  import opened Options
  import opened CircuitBreaker

  type Worker = nat

  /** Where a worker stands in its delivery. `n` is the attempt number. */
  datatype Pc =
    | Ready(n: nat)
    | Loaded(n: nat, snapshot: Breaker)
    | Posting(n: nat)
    | Succeeding             // before the closing UPDATE
    | Failing                // before the F()+1 UPDATE
    | Incremented            // between F()+1 and the read-back
    | ReadBack(count: nat)   // between the read-back and the OPEN write, if any
    | Ended

  datatype Reply = Accepted | Rejected | Retryable

  /**
   The statements of the workers. A `now` is the time that the worker has read
   from the clock; the statement that uses it may come later than that.
   */
  datatype Event =
    | Spawn(w: Worker)
    | Vanish(w: Worker)                 // endpoint missing or disabled
    | Load(w: Worker)
    | Filter(w: Worker)                 // payload held back by only_on_passing
    | Decide(w: Worker, now: int)       // the gate, where no statement is needed
    | TrySwap(w: Worker, now: int)
    | Receive(w: Worker, reply: Reply)
    | Close(w: Worker)
    | Count(w: Worker)
    | ReadCount(w: Worker)
    | Open(w: Worker, now: int)
    | LeaveBe(w: Worker)                // count below threshold

  /** What happened to the row, in order. */
  datatype Effect =
    | WasWon(w: Worker, at: int, seen: int)   // read the clock at `at`, and that opening in its snapshot
    | WasClosed(w: Worker)
    | WasCounted(w: Worker)
    | WasRead(w: Worker, count: nat)
    | WasOpened(w: Worker, at: int)           // with that time on the row

  datatype System = System(row: Breaker, workers: map<Worker, Pc>, trace: seq<Effect>)

  const START := System(NEW_BREAKER, map[], [])

  function At(s: System, w: Worker): Pc {
    if w in s.workers then s.workers[w] else Ended
  }

  function Move(s: System, w: Worker, pc: Pc): System {
    s.(workers := s.workers[w := pc])
  }

  function Log(s: System, e: Effect): System {
    s.(trace := s.trace + [e])
  }

  /** One step, or None if the event cannot happen in s. */
  function Step(cfg: Config, s: System, e: Event): Option<System> {
    var pc := At(s, e.w);
    match e
    case Spawn(w) => if w !in s.workers then Some(Move(s, w, Ready(1))) else None
    case Vanish(w) => if pc.Ready? then Some(Move(s, w, Ended)) else None
    case Load(w) => if pc.Ready? then Some(Move(s, w, Loaded(pc.n, s.row))) else None
    case Filter(w) => if pc.Loaded? then Some(Move(s, w, Ended)) else None
    case Decide(w, now) =>
      if !pc.Loaded? then None
      else if pc.n > 1 then Some(Move(s, w, Posting(pc.n)))
      else (match GateOf(cfg, pc.snapshot, now)
            case Pass => Some(Move(s, w, Posting(pc.n)))
            case Deny => Some(Move(s, w, Ended))
            case Contend => None)
    case TrySwap(w, now) =>
      if !(pc.Loaded? && pc.n <= 1 && GateOf(cfg, pc.snapshot, now) == Contend) then None
      else if s.row.state != OPEN then Some(Move(s, w, Ended))
      else Some(Log(Move(s.(row := Swapped(s.row)), w, Posting(pc.n)), WasWon(w, now, pc.snapshot.openedAt.value)))
    case Receive(w, reply) =>
      if !pc.Posting? then None
      else (match reply
            case Accepted => Some(Move(s, w, Succeeding))
            case Rejected => Some(Move(s, w, Failing))
            case Retryable => Some(Move(s, w, if pc.n < cfg.maxRetries then Ready(pc.n + 1) else Failing)))
    case Close(w) =>
      if pc.Succeeding? then Some(Log(Move(s.(row := NEW_BREAKER), w, Ended), WasClosed(w))) else None
    case Count(w) =>
      if pc.Failing? then Some(Log(Move(s.(row := Counted(s.row)), w, Incremented), WasCounted(w))) else None
    case ReadCount(w) =>
      if pc.Incremented? then Some(Log(Move(s, w, ReadBack(s.row.failures)), WasRead(w, s.row.failures))) else None
    case Open(w, now) =>
      if pc.ReadBack? && pc.count >= cfg.threshold
      then Some(Log(Move(s.(row := Opened(s.row, now)), w, Ended), WasOpened(w, now))) else None
    case LeaveBe(w) =>
      if pc.ReadBack? && pc.count < cfg.threshold then Some(Move(s, w, Ended)) else None
  }

  function Run(cfg: Config, s: System, events: seq<Event>): Option<System>
    decreases |events|
  {
    if events == [] then Some(s)
    else match Step(cfg, s, events[0]) case None => None case Some(next) => Run(cfg, next, events[1..])
  }

  // ----- what the trace says

  /** Failures counted since the last success. */
  function Tally(trace: seq<Effect>): nat {
    if trace == [] then 0
    else
      var last := trace[|trace| - 1];
      var before := Tally(trace[..|trace| - 1]);
      if last.WasClosed? then 0 else if last.WasCounted? then before + 1 else before
  }

  ghost predicate SilentSince(trace: seq<Effect>, w: Worker, i: nat) {
    forall m :: i < m < |trace| ==> trace[m].w != w
  }

  /** The worker has counted its failure at i and done nothing to the row since. */
  ghost predicate JustCounted(trace: seq<Effect>, w: Worker, i: nat) {
    i < |trace| && trace[i] == WasCounted(w) && SilentSince(trace, w, i)
  }

  /** The worker has read back `count` at j, right after counting, and that many failures stood then. */
  ghost predicate JustRead(trace: seq<Effect>, w: Worker, j: nat, count: nat) {
    && j < |trace| && trace[j] == WasRead(w, count) && SilentSince(trace, w, j)
    && Tally(trace[..j]) == count
    && exists i: nat :: i < j && JustCounted(trace[..j], w, i)
  }

  /** An OPEN write at k rests on a moment of the same recording with enough failures and no success among them. */
  ghost predicate Justified(cfg: Config, trace: seq<Effect>, k: nat)
    requires k < |trace|
  {
    trace[k].WasOpened? ==>
      exists j: nat, count: nat :: j < k && count >= cfg.threshold && JustRead(trace[..k], trace[k].w, j, count)
  }

  /** No win since the last opening, and there has been one. */
  ghost predicate OpenedSinceWin(trace: seq<Effect>) {
    exists k: nat :: k < |trace| && trace[k].WasOpened? && forall m :: k < m < |trace| ==> !trace[m].WasWon?
  }

  ghost predicate WinsSeparated(trace: seq<Effect>) {
    forall i, j :: 0 <= i < j < |trace| && trace[i].WasWon? && trace[j].WasWon? ==>
      exists k :: i < k < j && trace[k].WasOpened?
  }

  // ----- the invariant

  ghost predicate Stamped(b: Breaker) {
    b.state == CLOSED <==> b.openedAt == None
  }

  /** Some worker stands between its increment and its OPEN write, and has not read a lower count. */
  ghost predicate OpeningPending(cfg: Config, s: System) {
    exists w :: w in s.workers &&
        (s.workers[w].Incremented? || (s.workers[w].ReadBack? && s.workers[w].count >= cfg.threshold))
  }

  ghost predicate WorkerOk(s: System, w: Worker)
    requires w in s.workers
  {
    match s.workers[w]
    case Loaded(_, snapshot) => Stamped(snapshot)
    case Incremented => exists i: nat :: JustCounted(s.trace, w, i)
    case ReadBack(count) => exists j: nat :: JustRead(s.trace, w, j, count)
    case _ => true
  }

  ghost predicate Inv(cfg: Config, s: System) {
    && Stamped(s.row)
    && (s.row.state == CLOSED && s.row.failures >= Threshold(cfg) ==> OpeningPending(cfg, s))
    && s.row.failures == Tally(s.trace)
    && (s.row.state == OPEN ==> OpenedSinceWin(s.trace))
    && WinsSeparated(s.trace)
    && (forall k :: 0 <= k < |s.trace| ==> Justified(cfg, s.trace, k))
    && (forall w :: w in s.workers ==> WorkerOk(s, w))
  }

  // ----- preservation

  lemma TallySnoc(trace: seq<Effect>, e: Effect)
    ensures Tally(trace + [e]) == if e.WasClosed? then 0 else if e.WasCounted? then Tally(trace) + 1 else Tally(trace)
  {
    assert (trace + [e])[..|trace|] == trace;
  }

  lemma PrefixOfSnoc(trace: seq<Effect>, e: Effect, j: nat)
    requires j <= |trace|
    ensures (trace + [e])[..j] == trace[..j]
  {}

  lemma JustReadSnoc(trace: seq<Effect>, e: Effect, w: Worker, j: nat, count: nat)
    requires JustRead(trace, w, j, count) && e.w != w
    ensures JustRead(trace + [e], w, j, count)
  {
    PrefixOfSnoc(trace, e, j);
  }

  lemma JustifiedSnoc(cfg: Config, trace: seq<Effect>, e: Effect)
    requires forall k :: 0 <= k < |trace| ==> Justified(cfg, trace, k)
    requires e.WasOpened? ==> exists j: nat, count: nat :: count >= cfg.threshold && JustRead(trace, e.w, j, count)
    ensures forall k :: 0 <= k < |trace + [e]| ==> Justified(cfg, trace + [e], k)
  {
    var longer := trace + [e];
    forall k | 0 <= k < |longer| ensures Justified(cfg, longer, k) {
      PrefixOfSnoc(trace, e, k);
      if k < |trace| {
        assert Justified(cfg, trace, k);
      } else {
        assert longer[..k] == trace;
        if e.WasOpened? {
          var j: nat, count: nat :| count >= cfg.threshold && JustRead(trace, e.w, j, count);
          assert j < k;
        }
      }
    }
  }

  lemma WinsSnoc(trace: seq<Effect>, e: Effect)
    requires WinsSeparated(trace) && (e.WasWon? ==> OpenedSinceWin(trace))
    ensures WinsSeparated(trace + [e])
  {
    var longer := trace + [e];
    assert longer[..|trace|] == trace && longer[|trace|] == e;
    forall i, j | 0 <= i < j < |longer| && longer[i].WasWon? && longer[j].WasWon?
      ensures exists k :: i < k < j && longer[k].WasOpened?
    {
      if j < |trace| {
        assert trace[i].WasWon? && trace[j].WasWon?;
        var k :| i < k < j && trace[k].WasOpened?;
        assert longer[k].WasOpened?;
      } else {
        LastOpening(trace, e, i);
      }
    }
  }

  /** The opening since the last win comes after every win. */
  lemma LastOpening(trace: seq<Effect>, e: Effect, i: nat)
    requires OpenedSinceWin(trace) && i < |trace| && trace[i].WasWon?
    ensures exists k :: i < k < |trace| && (trace + [e])[k].WasOpened?
  {
    var k: nat :| k < |trace| && trace[k].WasOpened? && forall m :: k < m < |trace| ==> !trace[m].WasWon?;
    assert i < k && (trace + [e])[k].WasOpened?;
  }

  lemma OpenedSinceWinSnoc(trace: seq<Effect>, e: Effect)
    ensures e.WasOpened? ==> OpenedSinceWin(trace + [e])
    ensures !e.WasWon? && OpenedSinceWin(trace) ==> OpenedSinceWin(trace + [e])
  {
    var longer := trace + [e];
    if e.WasOpened? {
      assert longer[|trace|].WasOpened?;
    } else if !e.WasWon? && OpenedSinceWin(trace) {
      var k: nat :| k < |trace| && trace[k].WasOpened? && forall m :: k < m < |trace| ==> !trace[m].WasWon?;
      assert longer[k].WasOpened?;
    }
  }

  /** Moving one worker, with its own effect or none, leaves the others' standing. */
  lemma OthersOk(s: System, s2: System, w: Worker, pc: Pc)
    requires s2.workers == s.workers[w := pc]
    requires s2.trace == s.trace || exists e: Effect :: e.w == w && s2.trace == s.trace + [e]
    requires forall v :: v in s.workers ==> WorkerOk(s, v)
    ensures forall v :: v in s2.workers && v != w ==> WorkerOk(s2, v)
  {
    if s2.trace != s.trace {
      var e: Effect :| e.w == w && s2.trace == s.trace + [e];
      forall v | v in s2.workers && v != w ensures WorkerOk(s2, v) {
        assert WorkerOk(s, v);
        match s.workers[v] {
          case Incremented =>
            var i: nat :| JustCounted(s.trace, v, i);
            assert JustCounted(s2.trace, v, i);
          case ReadBack(count) =>
            var j: nat :| JustRead(s.trace, v, j, count);
            JustReadSnoc(s.trace, e, v, j, count);
          case _ =>
        }
      }
    } else {
      forall v | v in s2.workers && v != w ensures WorkerOk(s2, v) {
        assert WorkerOk(s, v);
      }
    }
  }

  /** Steps that do not touch the row. */
  lemma LocalStep(cfg: Config, s: System, w: Worker, pc: Pc)
    requires Inv(cfg, s)
    requires w in s.workers ==>
        !s.workers[w].Incremented? && (s.workers[w].ReadBack? ==> s.workers[w].count < cfg.threshold)
    requires !pc.Incremented? && !pc.ReadBack? && (pc.Loaded? ==> Stamped(pc.snapshot))
    ensures Inv(cfg, Move(s, w, pc))
  {
    var s2 := Move(s, w, pc);
    OthersOk(s, s2, w, pc);
    if s.row.state == CLOSED && s.row.failures >= Threshold(cfg) {
      var v :| v in s.workers &&
          (s.workers[v].Incremented? || (s.workers[v].ReadBack? && s.workers[v].count >= cfg.threshold));
      assert v in s2.workers && s2.workers[v] == s.workers[v];
    }
  }

  /** Steps that touch the row, each with its effect in the trace. */
  lemma RowStep(cfg: Config, s: System, w: Worker, pc: Pc, row: Breaker, e: Effect)
    requires Inv(cfg, s) && w in s.workers && e.w == w
    requires Stamped(row) && row.failures == Tally(s.trace + [e])
    requires row.state == OPEN ==> s.row.state == OPEN || e.WasOpened?
    requires e.WasWon? ==> s.row.state == OPEN && row.state != OPEN
    requires e.WasOpened? ==> exists j: nat, count: nat :: count >= cfg.threshold && JustRead(s.trace, w, j, count)
    requires WorkerOk(Log(Move(s.(row := row), w, pc), e), w)
    requires row.state == CLOSED && row.failures >= Threshold(cfg) ==>
        OpeningPending(cfg, Log(Move(s.(row := row), w, pc), e))
    ensures Inv(cfg, Log(Move(s.(row := row), w, pc), e))
  {
    var s2 := Log(Move(s.(row := row), w, pc), e);
    OthersOk(s, s2, w, pc);
    JustifiedSnoc(cfg, s.trace, e);
    WinsSnoc(s.trace, e);
    OpenedSinceWinSnoc(s.trace, e);
  }

  lemma CountStep(cfg: Config, s: System, w: Worker)
    requires Inv(cfg, s) && At(s, w).Failing?
    ensures Inv(cfg, Step(cfg, s, Count(w)).value)
  {
    var e := WasCounted(w);
    TallySnoc(s.trace, e);
    assert (s.trace + [e])[|s.trace|] == e;
    assert JustCounted(s.trace + [e], w, |s.trace|);
    var s2 := Log(Move(s.(row := Counted(s.row)), w, Incremented), e);
    assert w in s2.workers && s2.workers[w].Incremented?;
    RowStep(cfg, s, w, Incremented, Counted(s.row), e);
  }

  lemma ReadStep(cfg: Config, s: System, w: Worker)
    requires Inv(cfg, s) && At(s, w).Incremented?
    ensures Inv(cfg, Step(cfg, s, ReadCount(w)).value)
  {
    var count := s.row.failures;
    var e := WasRead(w, count);
    var longer := s.trace + [e];
    TallySnoc(s.trace, e);
    assert WorkerOk(s, w);
    var i: nat :| JustCounted(s.trace, w, i);
    assert longer[..|s.trace|] == s.trace && longer[|s.trace|] == e;
    assert JustRead(longer, w, |s.trace|, count);
    var s2 := Log(Move(s.(row := s.row), w, ReadBack(count)), e);
    if s.row.state == CLOSED && s.row.failures >= Threshold(cfg) {
      assert w in s2.workers && s2.workers[w].ReadBack?;
    }
    RowStep(cfg, s, w, ReadBack(count), s.row, e);
  }

  lemma OpenStep(cfg: Config, s: System, w: Worker, now: int)
    requires Inv(cfg, s) && At(s, w).ReadBack? && At(s, w).count >= cfg.threshold
    ensures Inv(cfg, Step(cfg, s, Open(w, now)).value)
  {
    TallySnoc(s.trace, WasOpened(w, now));
    assert WorkerOk(s, w);
    RowStep(cfg, s, w, Ended, Opened(s.row, now), WasOpened(w, now));
  }

  /** One step of anybody keeps the invariant. */
  lemma StepKeepsInv(cfg: Config, s: System, e: Event)
    requires Inv(cfg, s) && Step(cfg, s, e).Some?
    ensures Inv(cfg, Step(cfg, s, e).value)
  {
    var w := e.w;
    match e {
      case Count(_) => CountStep(cfg, s, w);
      case ReadCount(_) => ReadStep(cfg, s, w);
      case Open(_, now) => OpenStep(cfg, s, w, now);
      case Close(_) =>
        TallySnoc(s.trace, WasClosed(w));
        RowStep(cfg, s, w, Ended, NEW_BREAKER, WasClosed(w));
      case TrySwap(_, now) =>
        if s.row.state == OPEN {
          var won := WasWon(w, now, s.workers[w].snapshot.openedAt.value);
          TallySnoc(s.trace, won);
          RowStep(cfg, s, w, Posting(s.workers[w].n), Swapped(s.row), won);
        } else {
          LocalStep(cfg, s, w, Ended);
        }
      case _ =>
        LocalStep(cfg, s, w, Step(cfg, s, e).value.workers[w]);
    }
  }

  lemma {:induction false} RunKeepsInv(cfg: Config, s: System, events: seq<Event>)
    requires Inv(cfg, s) && Run(cfg, s, events).Some?
    ensures Inv(cfg, Run(cfg, s, events).value)
    decreases |events|
  {
    if events != [] {
      StepKeepsInv(cfg, s, events[0]);
      RunKeepsInv(cfg, Step(cfg, s, events[0]).value, events[1..]);
    }
  }

  // ----- theorems over every interleaving

  /**
   No opening is lost: with enough failures and the circuit still closed, the
   opening is on its way; so once no failure recording is in flight, enough
   failures mean the circuit is not closed.
   */
  lemma NoLostOpening(cfg: Config, events: seq<Event>)
    requires Run(cfg, START, events).Some?
    ensures var s := Run(cfg, START, events).value;
            && (s.row.state == CLOSED && s.row.failures >= Threshold(cfg) ==> OpeningPending(cfg, s))
            && (s.row.failures >= Threshold(cfg) &&
                (forall w :: w in s.workers ==> !s.workers[w].Incremented? && !s.workers[w].ReadBack?)
                ==> s.row.state != CLOSED)
  {
    RunKeepsInv(cfg, START, events);
  }

  /**
   The counter counts the failures since the last success, and every OPEN write
   was justified when its count was read.
   */
  lemma CountingIsExact(cfg: Config, events: seq<Event>)
    requires Run(cfg, START, events).Some?
    ensures var s := Run(cfg, START, events).value;
            s.row.failures == Tally(s.trace) && forall k :: 0 <= k < |s.trace| ==> Justified(cfg, s.trace, k)
  {
    RunKeepsInv(cfg, START, events);
  }

  /** Between two won trials there is an OPEN write: one opening is won at most once. */
  lemma OneWinPerOpening(cfg: Config, events: seq<Event>)
    requires Run(cfg, START, events).Some?
    ensures WinsSeparated(Run(cfg, START, events).value.trace)
  {
    RunKeepsInv(cfg, START, events);
  }

  /** Whatever snapshot a worker holds, an open circuit carries its time: the fail-open branch is dead code. */
  lemma FailOpenUnreachable(cfg: Config, events: seq<Event>, w: Worker)
    requires Run(cfg, START, events).Some?
    ensures var s := Run(cfg, START, events).value;
            && (s.row.state == CLOSED <==> s.row.openedAt == None)
            && (w in s.workers && s.workers[w].Loaded? && s.workers[w].snapshot.state != CLOSED ==>
                  s.workers[w].snapshot.openedAt.Some?)
  {
    RunKeepsInv(cfg, START, events);
    var s := Run(cfg, START, events).value;
    if w in s.workers {
      assert WorkerOk(s, w);
    }
  }
}
