# Verification of the Open edX webhook relay

A Dafny model of the parts of the relay that are hard to get right, and proofs about it.
`dafny verify dfyconfig.toml` checks everything.

The relay delivers Open edX events to HTTP endpoints. A Celery task shapes the payload with the endpoint's PII
lists, asks the endpoint's circuit breaker for a slot, posts, appends an audit row, and retries with backoff.
Many workers do so at once on one database row. Secrets of endpoints are encrypted columns, and a management command
moves them to a new key. Event objects are serialized to JSON with a depth limit.

## How the model is laid out

**Delivery and circuit breaker.** `CircuitBreaker.dfy` has the row, its single-statement updates, and the model
instance whose methods decide on a snapshot. `Delivery.dfy` has `deliver_webhook` and its helpers. Two machines run
them concurrently. `StatementRuns.dfy` interleaves single database statements of any number of workers holding
snapshots of any age; `StatementRaces.dfy` gives three runs of it, `StatementRecovery.dfy` says when half-open can be left,
`StatementTrials.dfy` when a second trial can begin, and `StatementClock.dfy` how far apart trials are. `RelayRuns.dfy` takes each breaker method, and loading together with acquiring, as one step, and adds the audit
log, retries and a clock; `RelayHistory.dfy`, `RelayLedger.dfy`, `TrialRate.dfy` and `HalfOpen.dfy` prove what every run
keeps. `Refinement.dfy` shows that every run of the second machine is a run of the
first. `ProtocolLaws.dfy` says in plain numbers what the gate, the answers and a whole task run lead to.
`StatementProgress.dfy` shows that no worker waits for another. `Fleet.dfy` puts many endpoints side by side, and `Backoff.dfy` sums the waits of a chain.

**Payload shaping.** `ShapeSpec.dfy` says, on views from paths to leaves, what goes out, what the raw payload looks like
afterwards, in what order the keys come, and how the pass decision falls. `DictHeap.dfy` and `NestedPaths.dfy` model
Python dicts as heap objects; `AllowSharing.dfy` and `DenySharing.dfy` account for the dicts that the outgoing and the
raw payload share; `EntryLaws.dfy` puts both in the words of the configured strings;
`Shaping.dfy` and `ShapeAndCheck.dfy` hold the code itself and prove it against the specification.
`PassDecision.dfy` is about the decision on retries and redeliveries, `VerdictLaws.dfy` about what counts as a verdict.

**Secrets.** `EncryptedField.dfy` is the column type over an abstract cipher, `KeyRotation.dfy` the command, in a process
that may be killed between any two rows, and what restarts do.

**Serialization.** `Serializer.dfy` is the recursion on arbitrary object graphs, and what its depth limit cuts off.

## What turned out false, and the exact conditions

* *A retry repeats the decision of the first attempt.* What is sent never changes, but the decision can: deleting
  through shared dicts may change which object comes first in the allowlisted payload. `PassDecision.RetryDecision` is the
  exact condition; `PassDecision.RetryCanBeFiltered` is a payload. It takes a verdict in `event_metadata`, which
  `receivers.py:33-36` does not put there; a payload from `--payload-file`
  (`management/commands/redeliver_failed_webhooks.py:90-94`) may have one.
* *SKIPPED is written at attempt 1 only.* A retry that is filtered writes it after RETRYING rows:
  `RelayHistory.FilteredRetryWritesSkipped` is a run, `RelayHistory.ChainLogLanguage` the condition.
* *The pass filter* is documented to come before the PII lists (`README.rst:42`), but the code runs it on the shaped payload.
  A payload that says "not passing" is sent when the lists remove the verdict, and one that says "passing" by an object is
  held back when the lists empty that object (`PassDecision.PassingCanBeFiltered`). `PassDecision.ShapingKeepsDecisionIff` is
  the exact condition.
* *One trial at a time* (`docs/decisions/0007-circuit-breaker.rst:26` and the comment at `tasks.py:200-202`). A delivery
  admitted before the circuit opened may exhaust during the trial, reopen the circuit, and let a second trial begin:
  with whole method calls as steps exactly when such a straggler is left (`HalfOpen.SecondTrialIff`). Between single
  statements a worker that still holds a snapshot of the closed row counts as well, and so do failures being recorded
  (`StatementTrials.SecondWinIff`). What does hold is one win per opening.
* *The circuit always recovers.* A trial whose retry finds its endpoint disabled, or is filtered, leaves the circuit
  half-open for good (`HalfOpen.LostTrialWedges`); half-open can be left exactly while some chain is live
  (`HalfOpen.CanRecoverIff`). Between single statements there is a further way: a success that falls between a
  read-back and its OPEN write (`StatementRaces.RaceCanWedge`); `StatementRecovery.CanLeaveIff` is the condition there, and
  `StatementRecovery.SoundRunsRecover` says that there is no third way.
* *The cooldown separates trials.* It does when load and acquire are one step, and reading the clock and writing OPEN
  another (`TrialRate`). Between single statements a stale snapshot can win earlier
  (`StatementRaces.StaleSnapshotIgnoresCooldown`), and so can a fresh one after an OPEN write that landed late with a time
  read before the last trial (`StatementRaces.LateWriteIgnoresCooldown`). Without the one and the other the cooldown holds
  (`StatementClock.FreshWinsAreApart`); what counts for a single decision is whether the opening in its snapshot is from
  before the last trial (`StatementClock.CooldownHonouredIff`).
* *Rotation leaves every secret readable.* It does for rows under one key. A row whose columns are under different keys
  loses one (`RotationRestarts.NothingErasedIff`, `RotationRestarts.MixedRowLosesSecret`).
* *The allowlist is the union of its entries.* Not for a top-level key without an object, when one part of the list keeps
  the key whole and another has only a trailing-dot entry for it (`ShapeTheorems.AllowlistIsAUnion`).
* *A secret reads back as written* unless it starts with `enc::` (`EncryptedField.RoundTripIff`).
* *Serializing is idempotent* unless ScopeIds sit right at the depth limit (`SerializerTheorems.IdempotentIff`).
* The module documentation of `tasks.py` promises jitter; `_backoff_seconds` has none, and the model has none.

## Assumptions

* An endpoint's configuration does not change during a run; otherwise it is arbitrary. A failure threshold of 0 acts as 1,
  a retry limit of 0 as 1, and only the rate bound asks for a cooldown of at least 1 second.
* Of a run that is to resolve a trial, only this is asked: no retry of the trial's own chain finds its endpoint missing or
  disabled, and none is filtered. By `PassDecision.RetryDecision` a retry can be filtered only if two verdicts in one
  payload disagree.
* An HTTP post ends with a status code, or with a connection error or timeout.
* Raw payloads have the shape that `receivers.py:33-36` builds: one data key and `event_metadata`. The dicts of a payload
  form a tree, as those fresh from JSON do. JSON numbers are reals.
* The cipher inverts, rejects tokens of other keys, and has tokens longer than their texts (`EncryptedField.Lawful`).

## Model

| member | source | states |
|---|---|---|
| `CircuitBreaker.WebhookEndpoint.TryAcquireDeliverySlot` | openedx_webhook_relay/models.py:235-262 | Admitted exactly if the breaker is disabled, or the snapshot is closed, or open without a time, or open for at least the cooldown, however much longer, while the row is still open; the row changes only by the conditional OPEN to HALF_OPEN swap, and then the caller is the one admitted |
| `CircuitBreaker.WebhookEndpoint.RecordCircuitSuccess` | openedx_webhook_relay/models.py:264-273 | Row and snapshot are both a closed, zeroed, unstamped breaker afterwards |
| `CircuitBreaker.WebhookEndpoint.RecordCircuitFailure` | openedx_webhook_relay/models.py:275-287 | Counts on the row, not on the snapshot, and opens row and snapshot with the same time exactly from the threshold on |
| `StatementRuns.StepKeepsInv` | openedx_webhook_relay/models.py:257-287 | One statement of any worker keeps the invariant of the interleaved protocol |
| `StatementRuns.NoLostOpening` | openedx_webhook_relay/models.py:275-287 | In every interleaving: enough failures on a closed circuit mean that an opening is on its way, so with no recording in flight they mean the circuit is not closed |
| `StatementRuns.CountingIsExact` | openedx_webhook_relay/models.py:264-287 | In every interleaving the counter is the failures since the last success, and each OPEN write rests on a moment of its own recording when a threshold of failures stood |
| `StatementRuns.OneWinPerOpening` | openedx_webhook_relay/models.py:257-262 | In every interleaving, with any stale snapshots, an OPEN write lies between two won trials |
| `StatementRuns.FailOpenUnreachable` | openedx_webhook_relay/models.py:249-251 | In every interleaving CLOSED is the same as having no opening time, so no snapshot anyone holds reaches the fail-open branch |
| `StatementRaces.RaceCanWedge` | openedx_webhook_relay/models.py:275-287 | A run of statements, all endpoints staying enabled, with a success exactly between a read-back and its OPEN write, that ends HALF_OPEN with every worker finished |
| `StatementRecovery.CanLeaveIff` | openedx_webhook_relay/models.py:243-287 | Half-open can be left by some interleaving, if and only if a worker stands where it can still write CLOSED or OPEN, or the failures counted and about to be counted reach the threshold |
| `StatementTrials.SecondWinIff` | openedx_webhook_relay/models.py:246-262 | While one worker stands still another trial can be won by some interleaving, if and only if the others can leave half-open without it: one of them can still write CLOSED or OPEN, or their failures tip the count |
| `StatementRecovery.StuckForever` | openedx_webhook_relay/models.py:246-247 | Otherwise no interleaving ever leaves it, whatever workers arrive |
| `StatementRecovery.RaceWedgesForGood` | openedx_webhook_relay/models.py:275-287 | The run above is such a case: no continuation leaves half-open |
| `StatementRecovery.SoundRunsRecover` | openedx_webhook_relay/models.py:275-287 | There is no other way: in every interleaving that loses no accepted worker and writes OPEN only with a threshold of failures on record, a circuit that is not closed has them on record and half-open can be left |
| `StatementRecovery.LateOpenFollowsSuccess` | openedx_webhook_relay/models.py:275-287 | A worker that has read back more failures than are on record has been overtaken by a success since its read-back |
| `StatementClock.CooldownHonouredIff` | openedx_webhook_relay/models.py:253-262 | Whenever a worker gets to contend it is the cooldown away from an earlier trial, if and only if the opening in its snapshot is not from before that trial |
| `StatementClock.FreshWinsAreApart` | openedx_webhook_relay/models.py:253-287 | In every interleaving, whatever the times read: if each trial was decided on a snapshot whose opening is not older than the row's, and no opening that landed after a trial bears a time from before it, all trials are at least the cooldown apart |
| `StatementClock.ContendsForLast` | openedx_webhook_relay/models.py:283-285 | In every interleaving an open row bears the time of the last OPEN write |
| `StatementProgress.NeverBlocked` | openedx_webhook_relay/models.py:235-287 | Whatever the others did, a worker that has not ended has a statement to make, at any time and for any answer |
| `StatementProgress.WorkersEnd` | openedx_webhook_relay/tasks.py:152-371 | In every interleaving a worker makes at most three statements for each of its max(1, max_retries) attempts and three at the end |
| `StatementProgress.SwapExactly` | openedx_webhook_relay/models.py:257-262 | A contender wins exactly if the row is still open, and otherwise ends and leaves the row alone |
| `StatementRaces.StaleSnapshotIgnoresCooldown` | openedx_webhook_relay/models.py:253-262 | A run whose steps happen in the order of their times, with every opening stamped after the trials before it, in which two trials are won at one moment: a snapshot was stale |
| `StatementRaces.LateWriteIgnoresCooldown` | openedx_webhook_relay/models.py:282-285 | A run whose steps happen in the order of their times, with every trial decided on a fresh snapshot, in which two trials are one microsecond apart: an OPEN write landed after a trial with a time read before it |
| `Delivery.BeforePost` | openedx_webhook_relay/tasks.py:183-221 | For any row and stale snapshot: which of SKIPPED, CIRCUIT_OPEN or neither is recorded, whether a post follows, and the row; only attempt 1 meets the gate |
| `Delivery.FailOrRetry` | openedx_webhook_relay/tasks.py:336-371 | RETRYING with the backoff as countdown below the limit, else EXHAUSTED with the payload if it is kept, and one failure on the row |
| `Delivery.AfterPost` | openedx_webhook_relay/tasks.py:272-333 | Status, code, detail, row and retry for every outcome: a retry follows exactly for no answer, a code from 500 on, or 429, below the limit |
| `Delivery.RecordAttempt` | openedx_webhook_relay/tasks.py:94-128 | Appends one row with duration, fingerprinted payload, the error text cut to 4000 characters, and the payload exactly when the status is EXHAUSTED and the endpoint keeps payloads; changes no earlier row |
| `Delivery.DeliverWebhook` | openedx_webhook_relay/tasks.py:152-333 | The whole uninterrupted task on heap payload, row, log and wire together: what is posted and what is kept is the shaped payload, rows and breaker are as the rules say, no other endpoint is touched; no trace without an enabled endpoint |
| `ProtocolLaws.GateExactly` | openedx_webhook_relay/models.py:243-262 | For any row, stale snapshot and moment, in plain numbers: who is admitted, and when the row becomes half-open; from the cooldown on there is no moment at which an open circuit is not tried |
| `ProtocolLaws.OpenCircuitIsTried` | openedx_webhook_relay/models.py:253-262 | In any state of a run with an open circuit: a new delivery posts and is the trial, if and only if the cooldown is over |
| `ProtocolLaws.ClosedCircuitPosts` | openedx_webhook_relay/models.py:243-244 | A closed circuit or a disabled breaker lets every delivery through, and none is a trial |
| `ProtocolLaws.StartExactly` | openedx_webhook_relay/tasks.py:179-221 | The whole state after a first attempt, for every decision of the filter, circuit and moment |
| `ProtocolLaws.ResumeExactly` | openedx_webhook_relay/tasks.py:194-203 | The whole state after a retry has begun: no circuit stops it, and it never is a trial |
| `ProtocolLaws.ReceiveExactly` | openedx_webhook_relay/tasks.py:264-371 | What every code, and no answer at all, leads to from any state: below 400 success and a closed circuit, 400 to 499 but 429 exhaustion at once, the others a retry below the limit with the circuit untouched; the logged code is the answer's |
| `ProtocolLaws.TaskExactly` | openedx_webhook_relay/tasks.py:183-371 | The one row, the post and the circuit that an uninterrupted task run leaves, for every answer, in plain numbers |
| `ProtocolLaws.PostDetailExactly` | openedx_webhook_relay/tasks.py:94-128 | No error text for a success, the first 2000 characters of any other answer, the first 4000 of a connection error; an exhausted attempt, and no other, keeps its payload when the endpoint keeps payloads |
| `ProtocolLaws.TaskNextExactly` | openedx_webhook_relay/tasks.py:336-355 | A retry follows exactly for what is posted and can be retried below the limit, after the wait for that attempt |
| `RelayRuns.UninterruptedAttempt` | openedx_webhook_relay/tasks.py:152-371 | The call-level machine takes the steps of the code: same rows, same breaker, same decision to retry |
| `RelayRuns.StepFollows` | openedx_webhook_relay/tasks.py:183-333 | Every step of a run moves one chain along the protocol's transitions, logs what that transition writes, and posts at most once |
| `RelayHistory.BreakerRefinesHistory` | openedx_webhook_relay/models.py:264-287 | Over every run the counter is the EXHAUSTED rows since the last SUCCEEDED one, and the circuit is CLOSED exactly below the threshold |
| `RelayHistory.ChainLogLanguage` | openedx_webhook_relay/tasks.py:183-371 | In every run a finished chain wrote one SKIPPED or CIRCUIT_OPEN row at attempt 1, or RETRYING rows 1 to k-1 and a last SUCCEEDED or EXHAUSTED row k, k at most max(1, max_retries), if and only if none of its own retries was filtered; else RETRYING rows and a last SKIPPED one. An unfinished chain wrote RETRYING rows only |
| `RelayHistory.FilteredRetryWritesSkipped` | openedx_webhook_relay/tasks.py:183-192 | A run whose chain writes RETRYING at attempt 1 and SKIPPED at attempt 2 |
| `RelayLedger.NothingGoesMissing` | openedx_webhook_relay/tasks.py:164-371 | At every moment of every run the deliveries enqueued are the queued, live, dropped and abandoned ones and one terminal row for each finished one; posts made are the rows that record one plus those under way, in all and for each chain |
| `HalfOpen.HalfOpenIsHeld` | openedx_webhook_relay/tasks.py:194-203 | Over every run a half-open circuit is held by the chain of the last trial, which is unresolved, and live unless one of its own retries was abandoned or filtered |
| `HalfOpen.TrialEnds` | openedx_webhook_relay/models.py:264-287 | The answer to the holder's post closes the circuit, opens it anew, or leaves it half-open for the retry, by the recorded status alone |
| `HalfOpen.TrialResolves` | openedx_webhook_relay/tasks.py:194-203 | Non-wedging, whatever becomes of other chains: a live holder whose own retries are neither abandoned nor filtered is resolved after fewer than twice max(1, max_retries) of its own steps, and then no longer holds the circuit |
| `HalfOpen.LiveCanStep` | openedx_webhook_relay/tasks.py:264-371 | Until then the holder can step, for every outcome of its post |
| `HalfOpen.CanRecoverIff` | openedx_webhook_relay/models.py:246-247 | In every reachable half-open state: some continuation leaves half-open, if and only if some chain is live |
| `HalfOpen.WedgedForever` | openedx_webhook_relay/models.py:246-247 | Without a live chain a half-open circuit never changes again and nothing is posted any more |
| `HalfOpen.LostTrialWedges` | openedx_webhook_relay/tasks.py:164-192 | Two runs that wedge for good: the trial's retry finds the endpoint disabled, or is filtered |
| `HalfOpen.SecondTrialIff` | openedx_webhook_relay/tasks.py:200-202 | With whole method calls as steps: a second trial can begin while the first is under way, if and only if another chain is live |
| `HalfOpen.SoleTrial` | openedx_webhook_relay/models.py:246-262 | Without such a straggler no run starts a trial, or changes the breaker, while the winner is live |
| `TrialRate.TrialsAreSpaced` | openedx_webhook_relay/models.py:253-262 | Over every run consecutive trials are at least the cooldown apart |
| `TrialRate.TrialRateBound` | openedx_webhook_relay/models.py:253-262 | Over every run a window of any length holds at most length / cooldown + 1 trials |
| `Refinement.CallsRefineStatements` | openedx_webhook_relay/models.py:235-287 | Every call-level run is an interleaving of statements with the same row, the same workers, the same winners at the same times, decided on fresh snapshots, with openings stamped after the trials before them |
| `Refinement.SpacingByRefinement` | openedx_webhook_relay/models.py:253-287 | The spacing of trials over call-level runs follows from that over interleavings of statements |
| `Fleet.EndpointsAreIndependent` | openedx_webhook_relay/receivers.py:38-39 | In every run of many endpoints each one has made exactly the run of its own events. That one delivery touches one endpoint is the modifies clause of Delivery.DeliverWebhook; this lifts it to runs |
| `Fleet.PublishFansOut` | openedx_webhook_relay/receivers.py:23-39 | Publishing a new chain is always possible, queues it on exactly the enabled endpoints for the event and changes nothing else |
| `Backoff.WaitsGrow` | openedx_webhook_relay/tasks.py:82-91 | Waits never decrease and never exceed the ceiling |
| `Backoff.WaitsDouble` | openedx_webhook_relay/tasks.py:82-91 | The first wait is the base, each further one twice the one before, none above the ceiling |
| `Backoff.CrossoverExists` | openedx_webhook_relay/tasks.py:82-91 | Every chain has a number of waits from which on the ceiling applies |
| `Backoff.TotalAtCrossover` | openedx_webhook_relay/tasks.py:82-91 | The waits of m attempts with crossover j sum to base*(2^j - 1) + (m - 1 - j)*ceiling |
| `Backoff.TotalIsBounded` | openedx_webhook_relay/tasks.py:82-91 | That sum is at most base*(2^(m-1) - 1) and at most (m - 1)*ceiling |
| `PayloadPaths.JoinSplit` | openedx_webhook_relay/security.py:60-60 | Splitting a dotted path loses nothing |
| `PayloadPaths.SplitJoin` | openedx_webhook_relay/security.py:60-60 | Every path of dot-free segments can be configured |
| `PayloadPaths.AliasAgrees` | openedx_webhook_relay/security.py:144-169 | The data alias and the literal data key name the same position |
| `PayloadPaths.EntryNames` | openedx_webhook_relay/security.py:124-209 | Which strings name which position, both ways: event_metadata, data and the literal data key, alone or followed by a dotted path; any other string matches nothing |
| `DictHeap.Dict.Put` | openedx_webhook_relay/security.py:76-78 | Dict assignment: new keys go last, present ones keep their place |
| `DictHeap.Dict.Pop` | openedx_webhook_relay/security.py:93-93 | Dict removal, contents and order |
| `DictHeap.Dict.Copy` | openedx_webhook_relay/tasks.py:73-73 | A shallow copy: a new dict with the same sub-dicts |
| `DictHeap.ViewIsTree` | openedx_webhook_relay/receivers.py:33-36 | What acyclic dicts show is a tree: nothing below a leaf |
| `NestedPaths.GetNested` | openedx_webhook_relay/security.py:54-64 | The value that a path leads to through dicts, None where it leads nowhere |
| `NestedPaths.SetNested` | openedx_webhook_relay/security.py:67-78 | What every lookup finds after the assignment: the value at the path, dicts on the way, all else as before; dicts off the path are untouched |
| `NestedPaths.DeleteNested` | openedx_webhook_relay/security.py:81-93 | Exactly the key at the end of the path is gone, from the one dict that held it |
| `Shaping.EventDataKey` | openedx_webhook_relay/security.py:46-51 | The first top-level key that is not the metadata, for any payload |
| `Shaping.ApplyAllowlist` | openedx_webhook_relay/security.py:96-171 | What every lookup in the result finds, in terms of the configured strings: the payload's own value at and below what a string finds, a new dict on the way there, nothing elsewhere; the key order entry by entry; and that the payload itself is unharmed although the result is written through shared dicts |
| `AllowSharing.PayloadUnharmed` | openedx_webhook_relay/security.py:132-136 | Writing a kept value through a dict shared with the payload writes what is already there: every dict of the payload keeps its contents |
| `AllowSharing.ScalarNeverReplaced` | openedx_webhook_relay/security.py:72-77 | On the way to a value that the allowlist keeps, the result holds a dict or nothing, so assignment never replaces a scalar by a dict |
| `EntryLaws.KeptEntries` | openedx_webhook_relay/security.py:124-169 | What the entry-by-entry account of shared and new dicts means for the configured strings, at every position |
| `AllowSharing.SharedIsCovered` | openedx_webhook_relay/security.py:125-169 | The result holds the payload's own dicts exactly at the covered positions |
| `AllowSharing.KeptView` | openedx_webhook_relay/security.py:96-171 | The dicts the allowlist builds look as the leaf specification says |
| `Shaping.ApplyDenylist` | openedx_webhook_relay/security.py:174-209 | In place: no lookup finds anything at or below a position that a configured string names, every other one finds what it found; the store and key order after all deletions |
| `EntryLaws.DeniedEntries` | openedx_webhook_relay/security.py:181-209 | The deletions, target by target, remove exactly what the configured strings name and what lies below |
| `DenySharing.DenyLookup` | openedx_webhook_relay/security.py:174-209 | What every lookup finds afterwards, from the filtered payload and from the raw payload that shares dicts with it |
| `ShapeAndCheck.ShouldSendPassingEvent` | openedx_webhook_relay/security.py:212-224 | False exactly if only_on_passing is on and the first top-level object with a verdict says not passing |
| `VerdictLaws.SwitchedOffSends` | openedx_webhook_relay/security.py:214-215 | Without only_on_passing everything is sent |
| `VerdictLaws.VerdictExactly` | openedx_webhook_relay/security.py:217-222 | What counts as a verdict, for every JSON value under is_passing |
| `VerdictLaws.FirstVerdictDecides` | openedx_webhook_relay/security.py:217-224 | With only_on_passing a payload is held back, if and only if the first object that has a verdict says not passing |
| `VerdictLaws.AllowedInOrder` | openedx_webhook_relay/security.py:124-171 | The objects of an allowlisted payload are asked in the order in which entries of the list bring them |
| `ShapeAndCheck.Shape` | openedx_webhook_relay/tasks.py:71-79 | The heap code refines the specification: outgoing view, outgoing order, damage to the raw payload, decision; without only_on_passing it is to send |
| `ShapeAndCheck.Attempts` | openedx_webhook_relay/tasks.py:152-180 | A chain of any number of attempts on one raw payload object: the dicts the last one posts show what the specification sends first, the raw payload is as damaged as the specification says, and each decision is given outright |
| `ShapeAndCheck.NextAttempt` | openedx_webhook_relay/tasks.py:71-79 | Attempt i + 1 on the heap, for every i: its payload's dicts show the first attempt's outgoing view, the raw payload is left as attempt i + 2 must find it, and the decision is that of this view in this attempt's key order, hence the first attempt's when the metadata carries no verdict |
| `ShapeAndCheck.ShapedExactly` | openedx_webhook_relay/security.py:96-209 | Every position that goes out, in terms of the configured strings: removed by a deny entry, else as it was if an allow entry finds something at or above it or there is no allowlist, else an object if it is on the way to one, else nothing |
| `ShapeAndCheck.MetadataField` | openedx_webhook_relay/security.py:130-189 | A metadata field named by a deny entry does not go out, one with a value that is named by an allow entry does, with all below it |
| `ShapeAndCheck.ShapedLeaves` | openedx_webhook_relay/security.py:96-209 | In terms of the configured strings: a leaf goes out exactly if the raw payload has it with that value, the allowlist is empty or one of its strings names a value at or above it, and no string of the denylist names a position at or above it |
| `ShapeTheorems.OutIsTree` | openedx_webhook_relay/security.py:96-209 | Shaping a tree gives a tree |
| `ShapeTheorems.ShortestHitSurvives` | openedx_webhook_relay/security.py:81-93 | The shortest matching allow path above any match is never deleted from the raw payload |
| `ShapeTheorems.RetryStableStep` | openedx_webhook_relay/tasks.py:71-79 | Shaping the raw payload that an attempt leaves behind gives the same outgoing view |
| `ShapeTheorems.EveryAttemptSendsTheSame` | openedx_webhook_relay/tasks.py:179-181 | Every attempt, however late, shapes to the view of the first |
| `ShapeTheorems.DamageIsIdempotent` | openedx_webhook_relay/tasks.py:71-79 | The first attempt does all the damage to the raw payload |
| `ShapeTheorems.AllowlistIsASet` | openedx_webhook_relay/security.py:124-171 | Reordering or repeating allow paths changes nothing |
| `ShapeTheorems.AllowlistIsAUnion` | openedx_webhook_relay/security.py:124-171 | The projection on a list is the union of the projections on its parts at a position, if and only if the position is not a key without an object that one part keeps whole while the other has only a trailing-dot entry for it |
| `ShapeTheorems.AllowlistIsMonotone` | openedx_webhook_relay/security.py:124-171 | A longer allowlist hides no leaf |
| `ShapeTheorems.SnapshotRedelivery` | openedx_webhook_relay/admin.py:283-293 | Re-shaping a stored snapshot keeps exactly its leaves; only containers without leaves may vanish |
| `PassDecision.RetryDecision` | openedx_webhook_relay/tasks.py:77-79 | A retry decides as the first attempt, if and only if the two objects as sent do not disagree, or the allowlist is empty, or the denylist does not reach all matching allow entries before the first one that matches in the other object |
| `PassDecision.RetryCanBeFiltered` | openedx_webhook_relay/tasks.py:183-192 | Concrete lists and payload for which the first attempt is sent and its retry is filtered |
| `PassDecision.FilterHonoured` | openedx_webhook_relay/tasks.py:73-79 | A payload in which neither object says passing is held back, if and only if an object says not passing and its verdict survives the lists; the metadata may carry a verdict too |
| `PassDecision.ShapingKeepsDecisionIff` | openedx_webhook_relay/tasks.py:73-79 | For a payload as the receiver builds it: the filter decides on the shaped payload as on the raw one, if and only if there is no verdict, or it says passing and is not an object that the lists empty, or it says not passing and the lists keep it |
| `PassDecision.PassingCanBeFiltered` | openedx_webhook_relay/security.py:217-222 | Concrete payload and denylist: the raw payload says passing, and it is held back |
| `PassDecision.RedeliveryDecision` | openedx_webhook_relay/admin.py:283-293 | A redelivered snapshot gets the decision it already got, so it is not skipped |
| `EncryptedField.RoundTripIff` | openedx_webhook_relay/fields.py:81-116 | Read after write gives the value back, if and only if it does not start with the ciphertext prefix |
| `EncryptedField.WrongKeyReadsEmpty` | openedx_webhook_relay/fields.py:106-116 | A value encrypted under another key reads as the empty string |
| `EncryptedField.ResaveKeepsMeaning` | openedx_webhook_relay/fields.py:81-116 | Saving a loaded value again keeps what the column says |
| `EncryptedField.KeyIsNeededIff` | openedx_webhook_relay/fields.py:34-116 | A missing or malformed key is an error exactly when a new secret is written or a marked value is read |
| `EncryptedField.StoredFormExactly` | openedx_webhook_relay/fields.py:81-116 | New secrets are stored as a marked token; null, the empty string, what is marked already, and legacy plaintext pass through |
| `EncryptedField.LawfulCipherExists` | openedx_webhook_relay/fields.py:92-108 | The assumptions on the cipher can be met |
| `KeyRotation.SelectEndpoints` | openedx_webhook_relay/management/commands/rotate_encryption_key.py:128-133 | The work list has exactly the rows in which the old key reads some text in either column, each once, in the order of the table, with the values loaded under it |
| `KeyRotation.SaveEndpoints` | openedx_webhook_relay/management/commands/rotate_encryption_key.py:152-154 | The table after any number of saves, when the process is killed or a save raises: the first so many selected rows rewritten, every other row as it was |
| `KeyRotation.Handle` | openedx_webhook_relay/management/commands/rotate_encryption_key.py:48-162 | Invalid keys and dry runs write nothing, the setting is put back unless the process is killed, also when a save raises, the reported count is the number of rows in which the old key reads some text in either column, and stopping at any save leaves exactly the rotated prefix |
| `RotationRestarts.CompleteRunMovesSecrets` | openedx_webhook_relay/management/commands/rotate_encryption_key.py:125-154 | When the old key reads every row, after a complete run the new key reads in both columns of every row what the old one read, and the old one reads nothing there |
| `RotationRestarts.RotatedExactly` | openedx_webhook_relay/management/commands/rotate_encryption_key.py:128-154 | After any number of saves: the first so many rows with a text under the old key are written anew from what it reads, and every other row is as it was |
| `RotationRestarts.RowRotates` | openedx_webhook_relay/management/commands/rotate_encryption_key.py:152-154 | A rewritten row says the same under the new key, and nothing under the old one |
| `RotationRestarts.RunsKeepSecrets` | openedx_webhook_relay/management/commands/rotate_encryption_key.py:22-27 | After any number of runs killed anywhere, every row is readable under one of the two keys and says what it said; moved rows are not touched again |
| `RotationRestarts.CrashAndRestart` | openedx_webhook_relay/management/commands/rotate_encryption_key.py:125-154 | Killed runs followed by a complete one leave nothing under the old key, and the new key reads what one uninterrupted run would leave, which is what the old key read before, or the new one for rows that the old one cannot read |
| `RotationRestarts.NothingErasedIff` | openedx_webhook_relay/fields.py:109-116 | A complete run erases no secret, if and only if in every row in which the old key reads some text each non-blank column opens under it |
| `RotationRestarts.MixedRowLosesSecret` | openedx_webhook_relay/management/commands/rotate_encryption_key.py:128-133 | A row with its two secrets under different keys loses the one that is not under the old key; no key reads it any more, after any further rotations |
| `Serializer.ObjectSerializer` | openedx_webhook_relay/serializers.py:28-56 | The recursive code with its loops, on any graph and any iteration order of a dict, returns the specified tree |
| `SerializerTheorems.Truncation` | openedx_webhook_relay/serializers.py:28-56 | On any graph, cyclic ones included, the result equals unbounded serialization down to depth 15, shows the limit text for every object at depth 16, and has nothing below |
| `SerializerTheorems.HeightIsBounded` | openedx_webhook_relay/serializers.py:32-33 | Height at most 16 |
| `SerializerTheorems.ShownExactly` | openedx_webhook_relay/serializers.py:18-56 | Every object that the graph holds within 15 hops stands in the result by its kind, ScopeIds with each of the four parts under its own name; at 16 hops stands the limit text |
| `SerializerTheorems.NoPrivateKeys` | openedx_webhook_relay/serializers.py:53-55 | No key at any level starts with an underscore |
| `SerializerTheorems.IdempotentIff` | openedx_webhook_relay/serializers.py:28-61 | Serializing the result again changes nothing, if and only if no ScopeIds sit at depth 15 (ScopeIds whose four values all happen to be the limit text excepted) |
| `SerializerTheorems.NotAlwaysIdempotent` | openedx_webhook_relay/serializers.py:36-37 | Fifteen nested lists around ScopeIds: serializing the result again loses their values |

## Left out

- Shaping.ApplyAllowlist: one data key only; with several data keys the alias depends on insertion order, and applying the list twice can differ.
- Shaping.ApplyDenylist: one data key only, for the same reason.
- ShapeAndCheck.Shape: one data key only, for the same reason.
- NestedPaths.SetNested: the dicts form a tree and the value comes from the position it is written to, as apply_allowlist, its only caller, has it.
- ShapeAndCheck.NextAttempt: one data key only, for the same reason.
- ShapeAndCheck.Attempts: one data key only, for the same reason.
- PassDecision.FilterHonoured: a payload with a verdict in the metadata in which some object says passing is not compared with its shaped form; the receiver puts no verdict into the metadata.
- PassDecision.RedeliveryDecision: verdicts in the metadata and objects as verdicts; emptying such an object again may change the decision.
- Delivery.RecordAttempt: the fingerprint stands for itself by the payload it is taken of; the event, endpoint and correlation id columns are the chain's number.
- Delivery.DeliverWebhook: headers, signatures and the encoding of what is posted.
- Delivery.DeliverWebhook: exceptions other than connection errors and timeouts escape the source unrecorded, and have no step.
- KeyRotation.Handle: reading key files is left out, and so is the branch for decryption errors, which is dead code because loading swallows them.
- KeyRotation.SaveEndpoints: nobody else writes endpoint rows during a rotation.
- Serializer.ObjectSerializer: the branch for objects without `__str__`, which no Python object reaches; infinite and NaN floats.
- The order of keys inside nested dicts, which nothing in the modelled code depends on.
- HTTP, Celery's broker, redelivery of unacknowledged tasks after a worker crash, Django's ORM internals, logging and metrics.
- Signing, canonical JSON bytes and the fingerprint hash: library code.
- Saves of whole endpoint rows from the admin during deliveries, and edits of the configuration between the attempts of a chain.
- The redelivery command and the admin action beyond re-shaping the stored snapshot: each enqueues a new chain.
- External secret backends, rotation of signing secrets, retention purge, system checks and migrations: each is a single branch, query or call to another service, with no state of its own to reason about.
