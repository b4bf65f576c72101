/**
 The delivery task of tasks.py: what is done before the post, what is done with
 its outcome, and the audit rows of both. The post itself is a parameter.
 */
module Delivery {
  import opened Options
  import opened PayloadPaths
  import opened ShapeSpec
  import opened DictHeap
  import opened Shaping
  import opened ShapeAndCheck
  import opened CircuitBreaker
  import Backoff

  datatype Status = SUCCEEDED | RETRYING | EXHAUSTED | SKIPPED | CIRCUIT_OPEN

  /** A status code, or a connection error or timeout. */
  datatype Outcome = Answer(code: int) | NoAnswer

  datatype Entry = Entry(attempt: nat, status: Status)

  /** One audit row. A chain is one enqueued delivery with its retries. */
  datatype Row = Row(chain: nat, entry: Entry, code: Option<int>)

  /** How a task run ends: for good, or with a retry scheduled. */
  datatype Next = Finished | Again(countdown: nat)

  /** The endpoint's lists and filter, and whether it keeps payloads that could not be delivered. */
  datatype Rules = Rules(allowlist: seq<string>, denylist: seq<string>, onlyOnPassing: bool, retainSnapshot: bool)

  /**
   What an audit row holds beside its Row: how long the post took, the error text,
   the payload whose fingerprint is recorded, and the payload if it is kept.
   */
  datatype Detail = Detail(duration: Option<nat>, error: string, fingerprinted: Dict, snapshot: Option<Dict>)

  // ----- the rules of the protocol

  predicate Retryable(outcome: Outcome) {
    outcome.NoAnswer? || outcome.code >= 500 || outcome.code == 429
  }

  function CodeOf(outcome: Outcome): Option<int> {
    if outcome.Answer? then Some(outcome.code) else None
  }

  /** The status recorded after a post. */
  function StatusOf(cfg: Config, attempt: nat, outcome: Outcome): Status {
    if Retryable(outcome) then (if attempt < cfg.maxRetries then RETRYING else EXHAUSTED)
    else if outcome.code >= 400 then EXHAUSTED
    else SUCCEEDED
  }

  /** The status recorded without a post, if the attempt ends before it. */
  function Stopped(cfg: Config, row: Breaker, snapshot: Breaker, attempt: nat, send: bool, now: int): Option<Status> {
    if !send then Some(SKIPPED)
    else if attempt == 1 && !Admits(cfg, row, snapshot, now) then Some(CIRCUIT_OPEN)
    else None
  }

  /** The endpoint row when the attempt has come as far as the post. */
  function AtPost(cfg: Config, row: Breaker, snapshot: Breaker, attempt: nat, send: bool, now: int): Breaker {
    if send && attempt == 1 then AfterAcquire(cfg, row, snapshot, now) else row
  }

  /** The endpoint row after the attempt ended with that status. */
  function Settle(cfg: Config, row: Breaker, status: Status, now: int): Breaker {
    match status
    case SUCCEEDED => NEW_BREAKER
    case EXHAUSTED => AfterFailure(cfg, row, now)
    case _ => row
  }

  /** The rows and the endpoint row that one uninterrupted task run leaves. */
  function TaskRows(cfg: Config, row: Breaker, chain: nat, attempt: nat, send: bool, outcome: Outcome,
                    now: int): seq<Row> {
    var stopped := Stopped(cfg, row, row, attempt, send, now);
    if stopped.Some? then [Row(chain, Entry(attempt, stopped.value), None)]
    else [Row(chain, Entry(attempt, StatusOf(cfg, attempt, outcome)), CodeOf(outcome))]
  }

  function TaskBreaker(cfg: Config, row: Breaker, attempt: nat, send: bool, outcome: Outcome, now: int,
                       later: int): Breaker {
    var posted := AtPost(cfg, row, row, attempt, send, now);
    if Stopped(cfg, row, row, attempt, send, now).Some? then posted
    else Settle(cfg, posted, StatusOf(cfg, attempt, outcome), later)
  }

  function TaskNext(cfg: Config, row: Breaker, policy: Backoff.Policy, attempt: nat, send: bool, outcome: Outcome,
                    now: int): Next
    requires attempt >= 1
  {
    if Stopped(cfg, row, row, attempt, send, now) == None && StatusOf(cfg, attempt, outcome) == RETRYING
    then Again(Backoff.Seconds(policy, attempt)) else Finished
  }

  function Cut(text: string, length: nat): (cut: string)
    ensures |cut| <= length && cut <= text && (|text| <= length ==> cut == text)
  {
    if |text| > length then text[..length] else text
  }

  /** The detail of an attempt that was posted; `text` is the body of the answer, or the connection error. */
  function PostDetail(status: Status, outcome: Outcome, duration: nat, text: string, payload: Dict,
                      retain: bool): Detail {
    Detail(Some(duration),
           if status == SUCCEEDED then "" else Cut(if outcome.Answer? then Cut(text, 2000) else text, 4000),
           payload,
           if status == EXHAUSTED && retain then Some(payload) else None)
  }

  function TaskDetails(cfg: Config, row: Breaker, attempt: nat, send: bool, outcome: Outcome, duration: nat,
                       text: string, payload: Dict, retain: bool, now: int): seq<Detail> {
    if Stopped(cfg, row, row, attempt, send, now).Some? then [Detail(None, "", payload, None)]
    else [PostDetail(StatusOf(cfg, attempt, outcome), outcome, duration, text, payload, retain)]
  }

  /** The payloads that one uninterrupted task run posts: at most one. */
  function TaskPosts(cfg: Config, row: Breaker, attempt: nat, send: bool, payload: Dict, now: int): seq<Dict> {
    if Stopped(cfg, row, row, attempt, send, now).Some? then [] else [payload]
  }

  // ----- the code

  class AuditLog {
    var rows: seq<Row>
    var details: seq<Detail>

    constructor ()
      ensures rows == [] && details == []
    {
      rows, details := [], [];
    }
  }

  /** The receiver's end: every payload posted to it. */
  class Wire {
    var posted: seq<Dict>

    constructor ()
      ensures posted == []
    {
      posted := [];
    }

    method Post(payload: Dict)
      modifies this
      ensures posted == old(posted) + [payload]
    {
      posted := posted + [payload];
    }
  }

  /** Everything outside the payload that a task run can touch. */
  datatype World = World(rows: seq<Row>, details: seq<Detail>, posted: seq<Dict>, breaker: Breaker)

  const NOWHERE := World([], [], [], NEW_BREAKER)

  function Now(log: AuditLog, wire: Wire, row: EndpointRow): World
    reads log, wire, row
  {
    World(log.rows, log.details, wire.posted, row.Value())
  }

  /** One uninterrupted task run, from shaping on. */
  function TaskEffect(cfg: Config, w: World, chain: nat, attempt: nat, send: bool, shaped: Dict, retain: bool,
                      outcome: Outcome, duration: nat, text: string, now: int, later: int): World
  {
    World(w.rows + TaskRows(cfg, w.breaker, chain, attempt, send, outcome, now),
          w.details + TaskDetails(cfg, w.breaker, attempt, send, outcome, duration, text, shaped, retain, now),
          w.posted + TaskPosts(cfg, w.breaker, attempt, send, shaped, now),
          TaskBreaker(cfg, w.breaker, attempt, send, outcome, now, later))
  }

  method RecordAttempt(log: AuditLog, chain: nat, attempt: nat, status: Status, code: Option<int>,
                       duration: Option<nat>, error: string, fingerprinted: Dict, payload: Option<Dict>, retain: bool)
    modifies log
    ensures log.rows == old(log.rows) + [Row(chain, Entry(attempt, status), code)]
    ensures log.details == old(log.details) +
              [Detail(duration, Cut(error, 4000), fingerprinted,
                      if status == EXHAUSTED && retain then payload else None)]
  {
    var snapshot := None;
    if payload.Some? && status == EXHAUSTED && retain {
      snapshot := payload;
    }
    log.rows := log.rows + [Row(chain, Entry(attempt, status), code)];
    log.details := log.details + [Detail(duration, Cut(error, 4000), fingerprinted, snapshot)];
  }

  method FailOrRetry(endpoint: WebhookEndpoint, log: AuditLog, policy: Backoff.Policy, chain: nat, attempt: nat,
                     outcome: Outcome, duration: nat, error: string, payload: Dict, retain: bool, now: int)
      returns (next: Next)
    requires attempt >= 1 && Retryable(outcome)
    modifies endpoint, endpoint.row, log
    ensures var cfg := endpoint.row.cfg;
            var status := StatusOf(cfg, attempt, outcome);
            && log.rows == old(log.rows) + [Row(chain, Entry(attempt, status), CodeOf(outcome))]
            && log.details == old(log.details) +
                 [Detail(Some(duration), Cut(error, 4000), payload,
                         if status == EXHAUSTED && retain then Some(payload) else None)]
            && endpoint.row.Value() == Settle(cfg, old(endpoint.row.Value()), status, now)
            && next == if status == RETRYING then Again(Backoff.Seconds(policy, attempt)) else Finished
  {
    if attempt < endpoint.row.cfg.maxRetries {
      RecordAttempt(log, chain, attempt, RETRYING, CodeOf(outcome), Some(duration), error, payload, None, retain);
      return Again(Backoff.Seconds(policy, attempt));
    }
    RecordAttempt(log, chain, attempt, EXHAUSTED, CodeOf(outcome), Some(duration), error, payload, Some(payload),
        retain);
    endpoint.RecordCircuitFailure(now);
    return Finished;
  }

  /** From the pass decision to the post; other workers may have moved the row since the snapshot was taken. */
  method BeforePost(endpoint: WebhookEndpoint, log: AuditLog, chain: nat, attempt: nat, payload: Dict, send: bool,
                    now: int)
      returns (post: bool)
    modifies endpoint, endpoint.row, log
    ensures var cfg := endpoint.row.cfg;
            var row, snapshot := old(endpoint.row.Value()), old(endpoint.Snapshot());
            var stopped := Stopped(cfg, row, snapshot, attempt, send, now);
            && (post <==> stopped == None)
            && log.rows == old(log.rows) + (if post then [] else [Row(chain, Entry(attempt, stopped.value), None)])
            && log.details == old(log.details) + (if post then [] else [Detail(None, "", payload, None)])
            && endpoint.row.Value() == AtPost(cfg, row, snapshot, attempt, send, now)
  {
    if !send {
      RecordAttempt(log, chain, attempt, SKIPPED, None, None, "", payload, None, false);
      return false;
    }
    if attempt == 1 {
      var ok := endpoint.TryAcquireDeliverySlot(now);
      if !ok {
        RecordAttempt(log, chain, attempt, CIRCUIT_OPEN, None, None, "", payload, None, false);
        return false;
      }
    }
    return true;
  }

  /** From the outcome of the post to the end of the task run, on whatever the row has become meanwhile. */
  method AfterPost(endpoint: WebhookEndpoint, log: AuditLog, policy: Backoff.Policy, chain: nat, attempt: nat,
                   outcome: Outcome, duration: nat, text: string, payload: Dict, retain: bool, now: int)
      returns (next: Next)
    requires attempt >= 1
    modifies endpoint, endpoint.row, log
    ensures var cfg := endpoint.row.cfg;
            var status := StatusOf(cfg, attempt, outcome);
            && log.rows == old(log.rows) + [Row(chain, Entry(attempt, status), CodeOf(outcome))]
            && log.details == old(log.details) + [PostDetail(status, outcome, duration, text, payload, retain)]
            && endpoint.row.Value() == Settle(cfg, old(endpoint.row.Value()), status, now)
            && next == if status == RETRYING then Again(Backoff.Seconds(policy, attempt)) else Finished
    ensures next.Again? <==>
              && attempt < endpoint.row.cfg.maxRetries
              && (outcome.NoAnswer? || outcome.code >= 500 || outcome.code == 429)
  {
    if outcome.NoAnswer? {
      next := FailOrRetry(endpoint, log, policy, chain, attempt, outcome, duration, text, payload, retain, now);
      return;
    }
    if outcome.code >= 500 || outcome.code == 429 {
      next := FailOrRetry(endpoint, log, policy, chain, attempt, outcome, duration, Cut(text, 2000), payload, retain,
          now);
      return;
    }
    if outcome.code >= 400 {
      RecordAttempt(log, chain, attempt, EXHAUSTED, CodeOf(outcome), Some(duration), Cut(text, 2000), payload,
          Some(payload),
                    retain);
      endpoint.RecordCircuitFailure(now);
      return Finished;
    }
    RecordAttempt(log, chain, attempt, SUCCEEDED, CodeOf(outcome), Some(duration), "", payload, None, retain);
    endpoint.RecordCircuitSuccess();
    return Finished;
  }

  /** Everything after shaping, for a worker whose snapshot is fresh and whom nobody interrupts. */
  method PostAndRecord(endpoint: WebhookEndpoint, log: AuditLog, wire: Wire, policy: Backoff.Policy, chain: nat,
                       attempt: nat, payload: Dict, retain: bool, send: bool, outcome: Outcome, duration: nat,
                       text: string,
                       now: int, later: int, ghost raw: Dict, ghost dataKey: string, ghost dicts: set<Dict>,
                       ghost pos: map<Dict, Path>) returns (next: Next)
    requires attempt >= 1 && endpoint.Snapshot() == endpoint.row.Value()
    requires IsPayload(raw, dataKey, dicts, pos) && payload in dicts
    modifies endpoint, endpoint.row, log, wire
    ensures Now(log, wire, endpoint.row) ==
              TaskEffect(endpoint.row.cfg, old(Now(log, wire, endpoint.row)), chain, attempt, send, payload, retain,
                         outcome, duration, text, now, later)
    ensures next == TaskNext(endpoint.row.cfg, old(endpoint.row.Value()), policy, attempt, send, outcome, now)
    ensures IsPayload(raw, dataKey, dicts, pos) && ViewOf(Snap(dicts), raw) == old(ViewOf(Snap(dicts), raw))
    ensures ViewOf(Snap(dicts), payload) == old(ViewOf(Snap(dicts), payload))
    ensures raw.order == old(raw.order) && payload.order == old(payload.order)
  {
    var post := BeforePost(endpoint, log, chain, attempt, payload, send, now);
    if !post {
      return Finished;
    }
    wire.Post(payload);
    next := AfterPost(endpoint, log, policy, chain, attempt, outcome, duration, text, payload, retain, later);
  }

  /** The whole task, where there is an enabled endpoint: load, shape, gate, post, record. */
  method DeliverTo(row: EndpointRow, rules: Rules, policy: Backoff.Policy, log: AuditLog, wire: Wire,
                   chain: nat, retries: nat, outcome: Outcome, duration: nat, text: string, now: int, later: int,
                   raw: Dict, ghost dataKey: string, ghost dicts: set<Dict>, ghost pos: map<Dict, Path>)
    returns (next: Next, ghost send: bool, ghost shaped: Dict, ghost dicts2: set<Dict>, ghost pos2: map<Dict, Path>)
    requires IsPayload(raw, dataKey, dicts, pos)
    modifies row, log, wire, dicts
    ensures dicts <= dicts2 && (forall d :: d in dicts2 ==> d in dicts || fresh(d)) && shaped in dicts2
    ensures IsPayload(raw, dataKey, dicts2, pos2) && raw.order == old(raw.order)
    ensures Now(log, wire, row) == TaskEffect(row.cfg, old(Now(log, wire, row)), chain, retries + 1, send, shaped,
                                              rules.retainSnapshot, outcome, duration, text, now, later)
    ensures next == TaskNext(row.cfg, old(row.Value()), policy, retries + 1, send, outcome, now)
    ensures !rules.onlyOnPassing ==> send
    ensures Shaped(old(ViewOf(Snap(dicts), raw)), raw.order, ViewOf(Snap(dicts2), raw),
                   ViewOf(Snap(dicts2), shaped), shaped.order, send,
                   ResolveAll(rules.allowlist, dataKey), ResolveAll(rules.denylist, dataKey), rules.onlyOnPassing)
  {
    hide *;
    var endpoint := new WebhookEndpoint.Load(row);
    var payload, shouldSend;
    payload, shouldSend, dicts2, pos2 :=
      Shape(raw, rules.allowlist, rules.denylist, rules.onlyOnPassing, dataKey, dicts, pos);
    send, shaped := shouldSend, payload;
    next := PostAndRecord(endpoint, log, wire, policy, chain, retries + 1, payload, rules.retainSnapshot, shouldSend,
                          outcome, duration, text, now, later, raw, dataKey, dicts2, pos2);
  }

  /**
   deliver_webhook. It touches this endpoint's row and no other; what reaches the
   wire is the payload shaped from the raw one, and that is also what an audit
   row keeps. A missing or disabled endpoint leaves no trace.
   */
  method DeliverWebhook(found: Option<EndpointRow>, rules: Rules, policy: Backoff.Policy, log: AuditLog, wire: Wire,
                        chain: nat, retries: nat, outcome: Outcome, duration: nat, text: string, now: int, later: int,
                        raw: Dict, ghost dataKey: string, ghost dicts: set<Dict>, ghost pos: map<Dict, Path>)
    returns (next: Next, ghost send: bool, ghost shaped: Dict, ghost dicts2: set<Dict>, ghost pos2: map<Dict, Path>)
    requires IsPayload(raw, dataKey, dicts, pos)
    modifies if found.Some? then {found.value} else {}, log, wire, dicts
    ensures dicts <= dicts2 && (forall d :: d in dicts2 ==> d in dicts || fresh(d)) && shaped in dicts2
    ensures IsPayload(raw, dataKey, dicts2, pos2) && raw.order == old(raw.order)
    ensures found.None? ==>
              && next == Finished && log.rows == old(log.rows) && log.details == old(log.details)
              && wire.posted == old(wire.posted) && Snap(dicts) == old(Snap(dicts))
    ensures found.Some? ==>
              Now(log, wire, found.value) ==
                TaskEffect(found.value.cfg, old(if found.Some? then Now(log, wire, found.value) else NOWHERE),
                           chain, retries + 1, send, shaped, rules.retainSnapshot, outcome, duration, text, now, later)
    ensures found.Some? ==>
              next == TaskNext(found.value.cfg, old(if found.Some? then found.value.Value() else NEW_BREAKER), policy,
                               retries + 1, send, outcome, now)
    ensures found.Some? && !rules.onlyOnPassing ==> send
    ensures found.Some? ==>
              Shaped(old(ViewOf(Snap(dicts), raw)), raw.order, ViewOf(Snap(dicts2), raw),
                     ViewOf(Snap(dicts2), shaped), shaped.order, send,
                     ResolveAll(rules.allowlist, dataKey), ResolveAll(rules.denylist, dataKey), rules.onlyOnPassing)
  {
    if found.None? {
      return Finished, true, raw, dicts, pos;
    }
    next, send, shaped, dicts2,
        pos2 := DeliverTo(found.value, rules, policy, log, wire, chain, retries, outcome, duration,
                                                  text, now, later, raw, dataKey, dicts, pos);
  }
}
