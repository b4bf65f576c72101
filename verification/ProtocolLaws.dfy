/**
 The rules of the protocol in plain numbers: what the gate lets through and when,
 what each answer of a receiver leads to, and what the audit row then holds.
 */
module ProtocolLaws {
  import opened Options
  import opened CircuitBreaker
  import opened Delivery
  import opened DictHeap
  import opened RelayRuns
  import Backoff

  // ----- the gate

  /** The circuit is shut for a newcomer: half-open, or open for less than the cooldown. */
  predicate Shut(cfg: Config, b: Breaker, now: int) {
    && cfg.breakerEnabled
    && (b.state == HALF_OPEN
        || (b.state == OPEN && b.openedAt.Some? && now - b.openedAt.value < cfg.cooldownSeconds * 1000000))
  }

  /** The circuit is open, and its cooldown is over. */
  predicate Due(cfg: Config, b: Breaker, now: int) {
    && cfg.breakerEnabled && b.state == OPEN && b.openedAt.Some?
    && now - b.openedAt.value >= cfg.cooldownSeconds * 1000000
  }

  /** Who decides on a stale snapshot is admitted and changes the row in these cases, and in no others. */
  lemma GateExactly(cfg: Config, row: Breaker, snapshot: Breaker, now: int)
    ensures Admits(cfg, row, snapshot, now) <==>
              !Shut(cfg, snapshot, now) && (Due(cfg, snapshot, now) ==> row.state == OPEN)
    ensures AfterAcquire(cfg, row, snapshot, now) ==
              if Due(cfg, snapshot, now) && row.state == OPEN
              then Breaker(HALF_OPEN, row.failures, row.openedAt) else row
  {}

  /** The first attempt of a chain, for every payload decision, breaker and moment. */
  lemma StartExactly(cfg: Config, s: Relay, c: Chain, send: bool, now: int)
    requires c in s.chains && s.chains[c] == Queued && now >= s.clock
    ensures var next := Step(cfg, s, Start(c, send, now));
            var shut, due := Shut(cfg, s.breaker, now), Due(cfg, s.breaker, now);
            && next.Some?
            && next.value.chains ==
                 s.chains[c := if !send then Done(1, SKIPPED) else if shut then Done(1, CIRCUIT_OPEN) else Posting(1)]
            && next.value.posts == s.posts + (if send && !shut then [c] else [])
            && next.value.trials == s.trials + (if send && due then [Trial(c, now)] else [])
            && next.value.breaker ==
                 (if send && due then Breaker(HALF_OPEN, s.breaker.failures, s.breaker.openedAt) else s.breaker)
            && next.value.log == s.log + (if !send then [Row(c, Entry(1, SKIPPED), None)]
                                          else if shut then [Row(c, Entry(1, CIRCUIT_OPEN), None)] else [])
  {
    GateExactly(cfg, s.breaker, s.breaker, now);
    assert s.posts + [] == s.posts && s.trials + [] == s.trials && s.log + [] == s.log;
  }

  /**
   An open circuit is tried again at every moment from the cooldown on, however
   late, and at none before.
   */
  lemma OpenCircuitIsTried(cfg: Config, s: Relay, c: Chain, now: int)
    requires cfg.breakerEnabled && s.breaker.state == OPEN && s.breaker.openedAt.Some?
    requires c in s.chains && s.chains[c] == Queued && now >= s.clock
    ensures var next := Step(cfg, s, Start(c, true, now));
            && next.Some?
            && (next.value.chains[c] == Posting(1) && next.value.trials == s.trials + [Trial(c, now)]
                <==> now - s.breaker.openedAt.value >= cfg.cooldownSeconds * 1000000)
  {
    StartExactly(cfg, s, c, true, now);
  }

  /** A closed circuit, or a disabled breaker, lets everything through at all times, without a trial. */
  lemma ClosedCircuitPosts(cfg: Config, s: Relay, c: Chain, now: int)
    requires !cfg.breakerEnabled || s.breaker.state == CLOSED
    requires c in s.chains && s.chains[c] == Queued && now >= s.clock
    ensures var next := Step(cfg, s, Start(c, true, now));
            && next.Some? && next.value.chains[c] == Posting(1)
            && next.value.trials == s.trials && next.value.breaker == s.breaker
  {
    StartExactly(cfg, s, c, true, now);
  }

  /** Retries meet no gate, whatever the circuit has become. */
  lemma ResumeExactly(cfg: Config, s: Relay, c: Chain, send: bool)
    requires c in s.chains && s.chains[c].Waiting?
    ensures var n, next := s.chains[c].n, Step(cfg, s, Resume(c, send));
            && next.Some? && next.value.breaker == s.breaker && next.value.trials == s.trials
            && next.value.chains == s.chains[c := if send then Posting(n) else Done(n, SKIPPED)]
            && next.value.posts == s.posts + (if send then [c] else [])
            && next.value.log == s.log + (if send then [] else [Row(c, Entry(n, SKIPPED), None)])
  {
    assert s.posts + [] == s.posts && s.log + [] == s.log;
  }

  /** Enqueueing, and losing a chain to a missing endpoint, changes nothing but that chain, and writes nothing. */
  lemma SilentStepsExactly(cfg: Config, s: Relay, c: Chain)
    ensures Step(cfg, s, Enqueue(c)) == if c in s.chains then None else Some(s.(chains := s.chains[c := Queued]))
    ensures Step(cfg, s, Drop(c))
         == if c in s.chains && s.chains[c] == Queued then Some(s.(chains := s.chains[c := Dropped])) else None
    ensures Step(cfg, s, Abandon(c))
         == if c in s.chains && s.chains[c].Waiting? then Some(s.(chains := s.chains[c := Abandoned(s.chains[c].n)]))
            else None
  {}

  // ----- the answers

  /** The breaker after one more failure. */
  function Failed(cfg: Config, b: Breaker, now: int): Breaker {
    if b.failures + 1 >= cfg.threshold then Breaker(OPEN, b.failures + 1, Some(now))
    else Breaker(b.state, b.failures + 1, b.openedAt)
  }

  /** What an answer, or the lack of one, is to lead to. */
  ghost predicate Leads(cfg: Config, s: Relay, c: Chain, outcome: Outcome, now: int, after: Phase, breaker: Breaker,
                        entry: Entry)
  {
    var next := Step(cfg, s, Receive(c, outcome, now));
    && next.Some?
    && next.value.chains == s.chains[c := after]
    && next.value.breaker == breaker
    && next.value.log == s.log + [Row(c, entry, if outcome.Answer? then Some(outcome.code) else None)]
    && next.value.posts == s.posts && next.value.trials == s.trials
  }

  /**
   Codes below 400 succeed and close the circuit. Codes from 400 to 499 other than
   429 exhaust the chain at once. 429, codes from 500 on, and no answer at all
   are retried up to the limit, without touching the circuit, and then exhaust
   the chain. Exhaustion counts as one failure. The code is logged with the row.
   */
  lemma ReceiveExactly(cfg: Config, s: Relay, c: Chain, code: int, now: int)
    requires c in s.chains && s.chains[c].Posting? && now >= s.clock
    ensures var n, failed, kept := s.chains[c].n, Failed(cfg, s.breaker, now), s.breaker;
            && (code < 400 ==>
                  Leads(cfg, s, c, Answer(code), now, Done(n, SUCCEEDED), NEW_BREAKER, Entry(n, SUCCEEDED)))
            && (400 <= code < 500 && code != 429 ==>
                  Leads(cfg, s, c, Answer(code), now, Done(n, EXHAUSTED), failed, Entry(n, EXHAUSTED)))
            && ((code >= 500 || code == 429) && n < cfg.maxRetries ==>
                  Leads(cfg, s, c, Answer(code), now, Waiting(n + 1), kept, Entry(n, RETRYING)))
            && ((code >= 500 || code == 429) && n >= cfg.maxRetries ==>
                  Leads(cfg, s, c, Answer(code), now, Done(n, EXHAUSTED), failed, Entry(n, EXHAUSTED)))
            && (n < cfg.maxRetries ==>
                  Leads(cfg, s, c, NoAnswer, now, Waiting(n + 1), kept, Entry(n, RETRYING)))
            && (n >= cfg.maxRetries ==>
                  Leads(cfg, s, c, NoAnswer, now, Done(n, EXHAUSTED), failed, Entry(n, EXHAUSTED)))
            && NEW_BREAKER == Breaker(CLOSED, 0, None)
  {
    StatusExactly(cfg, s.chains[c].n, code);
    SettleExactly(cfg, s.breaker, now);
  }

  lemma StatusExactly(cfg: Config, n: nat, code: int)
    ensures StatusOf(cfg, n, Answer(code)) ==
              if code < 400 then SUCCEEDED
              else if code < 500 && code != 429 then EXHAUSTED
              else if n < cfg.maxRetries then RETRYING
              else EXHAUSTED
    ensures StatusOf(cfg, n, NoAnswer) == if n < cfg.maxRetries then RETRYING else EXHAUSTED
    ensures CodeOf(Answer(code)) == Some(code) && CodeOf(NoAnswer) == None
  {}

  lemma SettleExactly(cfg: Config, b: Breaker, now: int)
    ensures Settle(cfg, b, SUCCEEDED, now) == Breaker(CLOSED, 0, None)
    ensures Settle(cfg, b, EXHAUSTED, now) == Failed(cfg, b, now)
    ensures Settle(cfg, b, RETRYING, now) == b
  {}

  // ----- one task run, and what its audit row holds

  /**
   One task run, for every answer: it writes one row, posts the shaped payload
   unless it is held back or the circuit is shut, and this becomes of the circuit.
   */
  lemma TaskExactly(cfg: Config, w: World, chain: nat, attempt: nat, send: bool, shaped: Dict, retain: bool,
                    outcome: Outcome, duration: nat, text: string, now: int, later: int)
    ensures var after := TaskEffect(cfg, w, chain, attempt, send, shaped, retain, outcome, duration, text, now, later);
            var trial := attempt == 1 && Due(cfg, w.breaker, now);
            var tried := if trial then Breaker(HALF_OPEN, w.breaker.failures, w.breaker.openedAt) else w.breaker;
            var code := if outcome.Answer? then Some(outcome.code) else None;
            && after.details == w.details + TaskDetails(cfg, w.breaker, attempt, send, outcome, duration, text, shaped,
                                                        retain, now)
            && if !send then
                 Leaves(w, after, Row(chain, Entry(attempt, SKIPPED), None), [], w.breaker)
               else if attempt == 1 && Shut(cfg, w.breaker, now) then
                 Leaves(w, after, Row(chain, Entry(attempt, CIRCUIT_OPEN), None), [], w.breaker)
               else if outcome.Answer? && outcome.code < 400 then
                 Leaves(w, after, Row(chain, Entry(attempt, SUCCEEDED), code), [shaped], Breaker(CLOSED, 0, None))
               else if (outcome.Answer? && outcome.code < 500 && outcome.code != 429) || attempt >= cfg.maxRetries then
                 Leaves(w, after, Row(chain, Entry(attempt, EXHAUSTED), code), [shaped], Failed(cfg, tried, later))
               else
                 Leaves(w, after, Row(chain, Entry(attempt, RETRYING), code), [shaped], tried)
  {
    GateExactly(cfg, w.breaker, w.breaker, now);
  }

  predicate Leaves(w: World, after: World, row: Row, posted: seq<Dict>, breaker: Breaker) {
    after.rows == w.rows + [row] && after.posted == w.posted + posted && after.breaker == breaker
  }

  /**
   The detail of a post: the error text is empty for a success, the first 2000
   characters of an answer that is none, and the first 4000 of a connection error;
   an exhausted attempt keeps its payload if the endpoint keeps payloads, and no
   other attempt does.
   */
  lemma PostDetailExactly(cfg: Config, b: Breaker, attempt: nat, code: int, duration: nat, text: string, payload: Dict,
                          retain: bool, now: int)
    requires attempt == 1 ==> !Shut(cfg, b, now)
    ensures var short := if |text| > 2000 then text[..2000] else text;
            var long := if |text| > 4000 then text[..4000] else text;
            var kept := if retain then Some(payload) else None;
            && (code < 400 ==>
                  TaskDetails(cfg, b, attempt, true, Answer(code), duration, text, payload, retain, now)
                    == [Detail(Some(duration), "", payload, None)])
            && (400 <= code < 500 && code != 429 ==>
                  TaskDetails(cfg, b, attempt, true, Answer(code), duration, text, payload, retain, now)
                    == [Detail(Some(duration), short, payload, kept)])
            && (code >= 500 || code == 429 ==>
                  TaskDetails(cfg, b, attempt, true, Answer(code), duration, text, payload, retain, now)
                    == [Detail(Some(duration), short, payload, if attempt < cfg.maxRetries then None else kept)])
            && TaskDetails(cfg, b, attempt, true, NoAnswer, duration, text, payload, retain, now)
                 == [Detail(Some(duration), long, payload, if attempt < cfg.maxRetries then None else kept)]
  {
    GateExactly(cfg, b, b, now);
  }

  /** An attempt that is not posted records no time, no error and no payload. */
  lemma StoppedDetailExactly(cfg: Config, b: Breaker, attempt: nat, send: bool, outcome: Outcome, duration: nat,
                             text: string, payload: Dict, retain: bool, now: int)
    requires !send || (attempt == 1 && Shut(cfg, b, now))
    ensures TaskDetails(cfg, b, attempt, send, outcome, duration, text, payload, retain, now)
              == [Detail(None, "", payload, None)]
  {
    GateExactly(cfg, b, b, now);
  }

  /** A retry is scheduled exactly for what can be retried below the limit, after the wait for that attempt. */
  lemma TaskNextExactly(cfg: Config, b: Breaker, policy: Backoff.Policy, attempt: nat, send: bool, outcome: Outcome,
                        now: int)
    requires attempt >= 1
    ensures var retried := send && (attempt == 1 ==> !Shut(cfg, b, now)) && attempt < cfg.maxRetries
                           && (outcome.NoAnswer? || outcome.code >= 500 || outcome.code == 429);
            TaskNext(cfg, b, policy, attempt, send, outcome, now)
              == if retried then Again(Backoff.Seconds(policy, attempt)) else Finished
  {
    GateExactly(cfg, b, b, now);
  }
}
