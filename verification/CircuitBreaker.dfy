/**
 The per-endpoint circuit breaker of openedx_webhook_relay/models.py: the
 single-statement row updates, and the methods made of them.
 Times are in microseconds, the resolution of the source's timestamps.
 */
module CircuitBreaker {
  import opened Options

  datatype CircuitState = CLOSED | OPEN | HALF_OPEN

  datatype Config = Config(breakerEnabled: bool, threshold: nat, cooldownSeconds: nat, maxRetries: nat)

  /** The breaker columns of one endpoint row, or of a snapshot of it. */
  datatype Breaker = Breaker(state: CircuitState, failures: nat, openedAt: Option<int>)

  const MICROSECONDS: nat := 1000000

  /** Failures are counted before they are compared, so a threshold of zero acts as one. */
  function Threshold(cfg: Config): nat {
    if cfg.threshold >= 1 then cfg.threshold else 1
  }

  function Cooldown(cfg: Config): nat {
    cfg.cooldownSeconds * MICROSECONDS
  }

  const NEW_BREAKER := Breaker(CLOSED, 0, None)

  // ----- one UPDATE statement each

  /** `filter(circuit_state=OPEN).update(circuit_state=HALF_OPEN)` */
  function Swapped(b: Breaker): Breaker {
    if b.state == OPEN then b.(state := HALF_OPEN) else b
  }

  function Opened(b: Breaker, now: int): Breaker {
    b.(state := OPEN, openedAt := Some(now))
  }

  function Counted(b: Breaker): Breaker {
    b.(failures := b.failures + 1)
  }

  // ----- what a snapshot alone decides

  datatype Gate = Pass | Deny | Contend

  function GateOf(cfg: Config, snapshot: Breaker, now: int): Gate {
    if !cfg.breakerEnabled || snapshot.state == CLOSED then Pass
    else if snapshot.state == HALF_OPEN then Deny
    else if snapshot.openedAt == None then Pass
    else if now - snapshot.openedAt.value < Cooldown(cfg) then Deny
    else Contend
  }

  // ----- whole methods on the row, for a caller nobody interrupts

  /** May a delivery proceed that decides on `snapshot` while the row is `row`? */
  function Admits(cfg: Config, row: Breaker, snapshot: Breaker, now: int): bool {
    match GateOf(cfg, snapshot, now)
    case Pass => true
    case Deny => false
    case Contend => row.state == OPEN
  }

  function AfterAcquire(cfg: Config, row: Breaker, snapshot: Breaker, now: int): Breaker {
    if GateOf(cfg, snapshot, now) == Contend then Swapped(row) else row
  }

  function AfterFailure(cfg: Config, row: Breaker, now: int): Breaker {
    var counted := Counted(row);
    if counted.failures >= cfg.threshold then Opened(counted, now) else counted
  }

  /** The row in the database. Each method is one statement, hence one atomic step. */
  class EndpointRow {
    const cfg: Config
    var circuitState: CircuitState
    var consecutiveFailures: nat
    var circuitOpenedAt: Option<int>

    constructor (cfg: Config)
      ensures this.cfg == cfg && Value() == NEW_BREAKER
    {
      this.cfg := cfg;
      circuitState, consecutiveFailures, circuitOpenedAt := CLOSED, 0, None;
    }

    function Value(): Breaker
      reads this
    {
      Breaker(circuitState, consecutiveFailures, circuitOpenedAt)
    }

    method UpdateOpenToHalfOpen() returns (updated: nat)
      modifies this
      ensures Value() == Swapped(old(Value()))
      ensures updated == if old(circuitState) == OPEN then 1 else 0
    {
      updated := 0;
      if circuitState == OPEN {
        circuitState := HALF_OPEN;
        updated := 1;
      }
    }

    method UpdateClosed()
      modifies this
      ensures Value() == NEW_BREAKER
    {
      circuitState, consecutiveFailures, circuitOpenedAt := CLOSED, 0, None;
    }

    method IncrementFailures()
      modifies this
      ensures Value() == Counted(old(Value()))
    {
      consecutiveFailures := consecutiveFailures + 1;
    }

    method UpdateOpen(now: int)
      modifies this
      ensures Value() == Opened(old(Value()), now)
    {
      circuitState, circuitOpenedAt := OPEN, Some(now);
    }
  }

  /** A model instance: a snapshot of the row, with the row itself behind it. */
  class WebhookEndpoint {
    const row: EndpointRow
    var circuitState: CircuitState
    var consecutiveFailures: nat
    var circuitOpenedAt: Option<int>

    /** `objects.get(pk=...)` */
    constructor Load(row: EndpointRow)
      ensures this.row == row && Snapshot() == row.Value()
    {
      this.row := row;
      circuitState, consecutiveFailures := row.circuitState, row.consecutiveFailures;
      circuitOpenedAt := row.circuitOpenedAt;
    }

    function Snapshot(): Breaker
      reads this
    {
      Breaker(circuitState, consecutiveFailures, circuitOpenedAt)
    }

    /**
     Decides on the snapshot, which may be stale; the row changes only by the
     conditional swap, and then the caller is the one that changed it.
     */
    method TryAcquireDeliverySlot(now: int) returns (ok: bool)
      modifies this, row
      ensures ok == Admits(row.cfg, old(row.Value()), old(Snapshot()), now)
      ensures ok <==> || !row.cfg.breakerEnabled || old(circuitState) == CLOSED
                      || (old(circuitState) == OPEN && old(circuitOpenedAt) == None)
                      || (&& old(circuitState) == OPEN && old(row.circuitState) == OPEN
                          && now - old(circuitOpenedAt).value >= row.cfg.cooldownSeconds * 1000000)
      ensures row.Value() == AfterAcquire(row.cfg, old(row.Value()), old(Snapshot()), now)
      ensures row.Value() != old(row.Value()) ==> ok && old(row.circuitState) == OPEN && row.circuitState == HALF_OPEN
      ensures Snapshot() == if row.Value() != old(row.Value())
                            then old(Snapshot()).(state := HALF_OPEN) else old(Snapshot())
    {
      if !row.cfg.breakerEnabled || circuitState == CLOSED {
        return true;
      }
      if circuitState == HALF_OPEN {
        return false;
      }
      if circuitOpenedAt == None {
        return true;
      }
      var elapsed := now - circuitOpenedAt.value;
      if elapsed < Cooldown(row.cfg) {
        return false;
      }
      var updated := row.UpdateOpenToHalfOpen();
      if updated != 0 {
        circuitState := HALF_OPEN;
      }
      return updated != 0;
    }

    method RecordCircuitSuccess()
      modifies this, row
      ensures row.Value() == Snapshot() == NEW_BREAKER
    {
      row.UpdateClosed();
      circuitState, consecutiveFailures, circuitOpenedAt := CLOSED, 0, None;
    }

    method RecordCircuitFailure(now: int)
      modifies this, row
      ensures row.Value() == AfterFailure(row.cfg, old(row.Value()), now)
      ensures consecutiveFailures == row.consecutiveFailures
      ensures row.consecutiveFailures >= row.cfg.threshold ==> circuitState == OPEN && circuitOpenedAt == Some(now)
      ensures row.consecutiveFailures < row.cfg.threshold ==>
                circuitState == old(circuitState) && circuitOpenedAt == old(circuitOpenedAt)
    {
      row.IncrementFailures();
      consecutiveFailures := row.consecutiveFailures;
      if consecutiveFailures >= row.cfg.threshold {
        row.UpdateOpen(now);
        circuitState, circuitOpenedAt := OPEN, Some(now);
      }
    }
  }
}
