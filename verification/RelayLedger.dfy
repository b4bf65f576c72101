/** The books of a run: no delivery goes missing, and no post goes unrecorded. */
module RelayLedger {
  import opened Options
  import opened CircuitBreaker
  import opened Delivery
  import opened RelayRuns
  import opened RelayHistory

  function CountStatus(log: seq<Row>, status: Status): nat {
    if log == [] then 0
    else CountStatus(log[..|log| - 1], status) + if log[|log| - 1].entry.status == status then 1 else 0
  }

  function Finished(chains: map<Chain, Phase>, status: Status): set<Chain> {
    set c | c in chains && chains[c].Done? && chains[c].status == status
  }

  function InFlight(chains: map<Chain, Phase>): set<Chain> {
    set c | c in chains && chains[c].Posting?
  }

  /** Chains whose first attempt has not begun. */
  function Waitlisted(chains: map<Chain, Phase>): set<Chain> {
    set c | c in chains && chains[c].Queued?
  }

  function UnderWay(chains: map<Chain, Phase>): set<Chain> {
    set c | c in chains && Live(chains[c])
  }

  /** Chains whose first attempt, or whose retry, found no enabled endpoint: they will never write again. */
  function DroppedOnes(chains: map<Chain, Phase>): set<Chain> {
    set c | c in chains && chains[c].Dropped?
  }

  function AbandonedOnes(chains: map<Chain, Phase>): set<Chain> {
    set c | c in chains && chains[c].Abandoned?
  }

  /** The rows that record a post. */
  function Posted(log: seq<Row>): nat {
    CountStatus(log, SUCCEEDED) + CountStatus(log, RETRYING) + CountStatus(log, EXHAUSTED)
  }

  ghost predicate LedgerInv(s: Relay) {
    && (forall status :: status != RETRYING ==> |Finished(s.chains, status)| == CountStatus(s.log, status))
    && |s.posts| == Posted(s.log) + |InFlight(s.chains)|
    && (forall c :: PostsBooked(s, c))
    && (forall c :: c in s.chains && s.chains[c].Done? ==> s.chains[c].status != RETRYING)
  }

  predicate IsPost(status: Status) {
    status in {SUCCEEDED, RETRYING, EXHAUSTED}
  }

  function PostsTold(story: seq<Entry>): nat {
    if story == [] then 0 else PostsTold(story[..|story| - 1]) + if IsPost(story[|story| - 1].status) then 1 else 0
  }

  /** Each post a chain made has its row, but for one that is under way. */
  ghost predicate PostsBooked(s: Relay, c: Chain) {
    multiset(s.posts)[c] == PostsTold(Story(s.log, c)) + if c in InFlight(s.chains) then 1 else 0
  }

  lemma CountSnoc(log: seq<Row>, row: Row, status: Status)
    ensures CountStatus(log + [row], status) == CountStatus(log, status) + if row.entry.status == status then 1 else 0
  {
    assert (log + [row])[..|log|] == log;
  }

  /** Moving a chain that is not done moves it between these sets. */
  lemma SetsAfterMove(chains: map<Chain, Phase>, c: Chain, phase: Phase, status: Status)
    requires c in chains ==> !chains[c].Done?
    ensures Finished(chains[c := phase], status)
         == Finished(chains, status) + if phase.Done? && phase.status == status then {c} else {}
    ensures c !in Finished(chains, status)
    ensures InFlight(chains[c := phase]) == (InFlight(chains) - {c}) + if phase.Posting? then {c} else {}
    ensures c in InFlight(chains) <==> c in chains && chains[c].Posting?
  {}

  /** What a chain's row adds to the counts. */
  lemma StatusLedger(chains: map<Chain, Phase>, log: seq<Row>, c: Chain, row: Option<Row>, after: Phase, status: Status)
    requires |Finished(chains, status)| == CountStatus(log, status) && (c in chains ==> !chains[c].Done?)
    requires after.Done? && after.status == status <==> row.Some? && row.value.entry.status == status
    ensures |Finished(chains[c := after], status)| == CountStatus(log + (if row.Some? then [row.value] else []), status)
  {
    SetsAfterMove(chains, c, after, status);
    if row.Some? {
      CountSnoc(log, row.value, status);
    } else {
      assert log + [] == log;
    }
  }

  lemma PostsLedger(chains: map<Chain, Phase>, log: seq<Row>, c: Chain, row: Option<Row>, after: Phase)
    requires c in chains ==> !chains[c].Done?
    requires row.Some? && IsPost(row.value.entry.status) <==> c in chains && chains[c].Posting?
    ensures Posted(log + (if row.Some? then [row.value] else [])) + |InFlight(chains[c := after])|
         == Posted(log) + |InFlight(chains)| + if after.Posting? then 1 else 0
  {
    SetsAfterMove(chains, c, after, SUCCEEDED);
    if row.Some? {
      CountSnoc(log, row.value, SUCCEEDED);
      CountSnoc(log, row.value, RETRYING);
      CountSnoc(log, row.value, EXHAUSTED);
    } else {
      assert log + [] == log;
    }
  }

  lemma StepKeepsLedger(cfg: Config, s: Relay, e: Event)
    requires LedgerInv(s) && Step(cfg, s, e).Some?
    ensures LedgerInv(Step(cfg, s, e).value)
  {
    var row, after := StepFollows(cfg, s, e);
    LedgerFollows(cfg, s, Step(cfg, s, e).value, e.c, row, after);
  }

  lemma LedgerFollows(cfg: Config, s: Relay, t: Relay, c: Chain, row: Option<Row>, after: Phase)
    requires LedgerInv(s) && t.chains == s.chains[c := after] &&
        t.log == s.log + (if row.Some? then [row.value] else [])
    requires t.posts == s.posts + (if after.Posting? then [c] else []) && (row.Some? ==> row.value.chain == c)
    requires Follows(cfg, PhaseOf(s, c), if row.Some? then Some(row.value.entry) else None, after)
    ensures LedgerInv(t)
  {
    forall status | status != RETRYING ensures |Finished(t.chains, status)| == CountStatus(t.log, status) {
      StatusLedger(s.chains, s.log, c, row, after, status);
    }
    PostsLedger(s.chains, s.log, c, row, after);
    forall d ensures PostsBooked(t, d) {
      BookedAfter(cfg, s, t, c, row, after, d);
    }
  }

  lemma BookedAfter(cfg: Config, s: Relay, t: Relay, c: Chain, row: Option<Row>, after: Phase, d: Chain)
    requires PostsBooked(s, d)
    requires t.chains == s.chains[c := after] && t.log == s.log + (if row.Some? then [row.value] else [])
    requires t.posts == s.posts + (if after.Posting? then [c] else []) && (row.Some? ==> row.value.chain == c)
    requires Follows(cfg, PhaseOf(s, c), if row.Some? then Some(row.value.entry) else None, after)
    ensures PostsBooked(t, d)
  {
    RowBooked(s.log, row, d);
    InFlightAfter(cfg, s.chains, c, PhaseOf(s, c), if row.Some? then Some(row.value.entry) else None, after);
    assert multiset(t.posts)[d] == multiset(s.posts)[d] + if after.Posting? && c == d then 1 else 0;
    assert d != c ==> (d in InFlight(t.chains) <==> d in InFlight(s.chains));
  }

  /** A post is under way until its row is written. */
  lemma InFlightAfter(cfg: Config, chains: map<Chain, Phase>, c: Chain, before: Option<Phase>, entry: Option<Entry>,
                      after: Phase)
    requires before == (if c in chains then Some(chains[c]) else None) && Follows(cfg, before, entry, after)
    ensures c in InFlight(chains) <==> entry.Some? && IsPost(entry.value.status)
    ensures c in InFlight(chains[c := after]) <==> after.Posting?
    ensures c in InFlight(chains) ==> !after.Posting?
  {}

  lemma RowBooked(log: seq<Row>, row: Option<Row>, d: Chain)
    ensures PostsTold(Story(log + (if row.Some? then [row.value] else []), d))
         == PostsTold(Story(log, d))
            + if row.Some? && row.value.chain == d && IsPost(row.value.entry.status) then 1 else 0
  {
    var story := Story(log, d);
    if row.Some? {
      StorySnoc(log, row.value, d);
      assert (story + [row.value.entry])[..|story|] == story && story + [] == story;
    } else {
      assert log + [] == log;
    }
  }

  lemma {:induction false} RunKeepsLedger(cfg: Config, s: Relay, events: seq<Event>)
    requires LedgerInv(s) && Run(cfg, s, events).Some?
    ensures LedgerInv(Run(cfg, s, events).value)
    decreases |events|
  {
    if events != [] {
      StepKeepsLedger(cfg, s, events[0]);
      RunKeepsLedger(cfg, Step(cfg, s, events[0]).value, events[1..]);
    }
  }

  /**
   At every moment of every run, the deliveries ever enqueued are the queued ones,
   the live ones, those dropped and those abandoned, and one terminal
   row for each finished one. The posts made, in all and by each chain, are the
   rows that record a post and the posts still under way.
   */
  lemma NothingGoesMissing(cfg: Config, clock: int, events: seq<Event>, c: Chain)
    requires Run(cfg, Begin(clock), events).Some?
    ensures var s := Run(cfg, Begin(clock), events).value;
            && |s.chains.Keys| ==
                |Waitlisted(s.chains)| + |UnderWay(s.chains)| + |DroppedOnes(s.chains)| + |AbandonedOnes(s.chains)|
                 + CountStatus(s.log, SUCCEEDED) + CountStatus(s.log, EXHAUSTED)
                 + CountStatus(s.log, SKIPPED) + CountStatus(s.log, CIRCUIT_OPEN)
            && |s.posts| == Posted(s.log) + |InFlight(s.chains)|
            && PostsBooked(s, c)
  {
    assert LedgerInv(Begin(clock));
    RunKeepsLedger(cfg, Begin(clock), events);
    Partition(Run(cfg, Begin(clock), events).value);
  }

  lemma Partition(s: Relay)
    requires LedgerInv(s)
    ensures |s.chains.Keys| ==
        |Waitlisted(s.chains)| + |UnderWay(s.chains)| + |DroppedOnes(s.chains)| + |AbandonedOnes(s.chains)|
                + |Finished(s.chains, SUCCEEDED)| + |Finished(s.chains, EXHAUSTED)|
                + |Finished(s.chains, SKIPPED)| + |Finished(s.chains, CIRCUIT_OPEN)|
  {
    KindsAreNamed(s.chains);
    AllBelow(s.chains, 8);
    assert s.chains.Keys == Below(s.chains, 8) by {
      forall c | c in s.chains ensures Kind(s.chains[c]) < 8 {
        assert s.chains[c].Done? ==> s.chains[c].status != RETRYING;
      }
    }
  }

  function Kind(phase: Phase): nat {
    match phase
    case Queued => 0
    case Posting(_) => 1
    case Waiting(_) => 1
    case Dropped => 2
    case Abandoned(_) => 3
    case Done(_, status) =>
      match status case SUCCEEDED => 4 case EXHAUSTED => 5 case SKIPPED => 6 case CIRCUIT_OPEN => 7 case RETRYING => 8
  }

  function OfKind(chains: map<Chain, Phase>, kind: nat): set<Chain> {
    set c | c in chains && Kind(chains[c]) == kind
  }

  function Below(chains: map<Chain, Phase>, kind: nat): set<Chain> {
    set c | c in chains && Kind(chains[c]) < kind
  }

  function CountBelow(chains: map<Chain, Phase>, kind: nat): nat {
    if kind == 0 then 0 else CountBelow(chains, kind - 1) + |OfKind(chains, kind - 1)|
  }

  lemma {:induction false} AllBelow(chains: map<Chain, Phase>, kind: nat)
    ensures |Below(chains, kind)| == CountBelow(chains, kind)
  {
    if kind == 0 {
      assert Below(chains, 0) == {};
    } else {
      AllBelow(chains, kind - 1);
      assert Below(chains, kind) == Below(chains, kind - 1) + OfKind(chains, kind - 1);
    }
  }

  lemma KindsAreNamed(chains: map<Chain, Phase>)
    ensures CountBelow(chains, 8) ==
        |Waitlisted(chains)| + |UnderWay(chains)| + |DroppedOnes(chains)| + |AbandonedOnes(chains)|
              + |Finished(chains, SUCCEEDED)| + |Finished(chains, EXHAUSTED)|
              + |Finished(chains, SKIPPED)| + |Finished(chains, CIRCUIT_OPEN)|
  {
    forall kind: nat ensures CountBelow(chains, kind + 1) == CountBelow(chains, kind) + |OfKind(chains, kind)| {}
    assert CountBelow(chains, 0 + 1) == |OfKind(chains, 0)| && OfKind(chains, 0) == Waitlisted(chains);
    assert OfKind(chains, 1) == UnderWay(chains);
    assert OfKind(chains, 2) == DroppedOnes(chains);
    assert OfKind(chains, 3) == AbandonedOnes(chains);
    assert OfKind(chains, 4) == Finished(chains, SUCCEEDED);
    assert OfKind(chains, 5) == Finished(chains, EXHAUSTED);
    assert OfKind(chains, 6) == Finished(chains, SKIPPED);
    assert OfKind(chains, 7) == Finished(chains, CIRCUIT_OPEN);
  }
}
