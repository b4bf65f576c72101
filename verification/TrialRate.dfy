/** How often trials are won, over every run of the call-level machine. */
module TrialRate {
  import opened Options
  import opened CircuitBreaker
  import opened Delivery
  import opened RelayRuns

  ghost predicate Spaced(cfg: Config, trials: seq<Trial>) {
    forall i :: 0 < i < |trials| ==> trials[i].at - trials[i - 1].at >= Cooldown(cfg)
  }

  function LastTrial(s: Relay): int
    requires s.trials != []
  {
    s.trials[|s.trials| - 1].at
  }

  /** An opening is never older than the last trial: the trial needed the one before. */
  ghost predicate TimeInv(cfg: Config, s: Relay) {
    && Spaced(cfg, s.trials)
    && (s.trials != [] ==> LastTrial(s) <= s.clock)
    && (s.trials != [] && s.breaker.state == OPEN ==>
        s.breaker.openedAt.Some? && LastTrial(s) <= s.breaker.openedAt.value)
    && (s.breaker.openedAt.Some? ==> s.breaker.openedAt.value <= s.clock)
  }

  lemma StepKeepsTime(cfg: Config, s: Relay, e: Event)
    requires TimeInv(cfg, s) && Step(cfg, s, e).Some?
    ensures TimeInv(cfg, Step(cfg, s, e).value)
  {
    match e {
      case Start(c, send, now) => StartKeepsTime(cfg, s, c, send, now);
      case Receive(c, outcome, now) => ReceiveKeepsTime(cfg, s, c, s.chains[c].n, outcome, now);
      case _ =>
    }
  }

  lemma StartKeepsTime(cfg: Config, s: Relay, c: Chain, send: bool, now: int)
    requires TimeInv(cfg, s) && now >= s.clock
    ensures TimeInv(cfg, StartStep(cfg, s, c, send, now))
  {
    var t := StartStep(cfg, s, c, send, now);
    if t.trials != s.trials {
      SpacedSnoc(cfg, s.trials, Trial(c, now));
    }
  }

  lemma SpacedSnoc(cfg: Config, trials: seq<Trial>, trial: Trial)
    requires Spaced(cfg, trials) && (trials != [] ==> trial.at - trials[|trials| - 1].at >= Cooldown(cfg))
    ensures Spaced(cfg, trials + [trial])
  {}

  lemma ReceiveKeepsTime(cfg: Config, s: Relay, c: Chain, n: nat, outcome: Outcome, now: int)
    requires TimeInv(cfg, s) && now >= s.clock
    ensures TimeInv(cfg, ReceiveStep(cfg, s, c, n, outcome, now))
  {}

  lemma {:induction false} RunKeepsTime(cfg: Config, s: Relay, events: seq<Event>)
    requires TimeInv(cfg, s) && Run(cfg, s, events).Some?
    ensures TimeInv(cfg, Run(cfg, s, events).value)
    decreases |events|
  {
    if events != [] {
      StepKeepsTime(cfg, s, events[0]);
      RunKeepsTime(cfg, Step(cfg, s, events[0]).value, events[1..]);
    }
  }

  /** Consecutive trials are at least the cooldown apart. */
  lemma TrialsAreSpaced(cfg: Config, clock: int, events: seq<Event>)
    requires Run(cfg, Begin(clock), events).Some?
    ensures Spaced(cfg, Run(cfg, Begin(clock), events).value.trials)
  {
    RunKeepsTime(cfg, Begin(clock), events);
  }

  /** Trials won from `from` to `to`, both included. */
  function CountWithin(trials: seq<Trial>, from: int, to: int): nat {
    if trials == [] then 0
    else CountWithin(trials[..|trials| - 1], from, to) + if from <= trials[|trials| - 1].at <= to then 1 else 0
  }

  lemma {:induction false} SpacedGrows(cfg: Config, trials: seq<Trial>, i: nat)
    requires Spaced(cfg, trials) && i < |trials|
    ensures i < |trials| - 1 ==> trials[i].at <= trials[|trials| - 1].at - Cooldown(cfg)
    decreases |trials| - i
  {
    if i < |trials| - 1 {
      SpacedGrows(cfg, trials, i + 1);
      assert trials[i + 1].at - trials[i].at >= Cooldown(cfg);
    }
  }

  /** A window that ends past the last trials can be cut back. */
  lemma {:induction false} CutWindow(trials: seq<Trial>, from: int, to: int, cut: int)
    requires cut <= to && forall i :: 0 <= i < |trials| ==> trials[i].at <= cut
    ensures CountWithin(trials, from, to) == CountWithin(trials, from, cut)
    ensures cut < from ==> CountWithin(trials, from, to) == 0
  {
    if trials != [] {
      CutWindow(trials[..|trials| - 1], from, to, cut);
    }
  }

  lemma {:induction false} WindowHoldsFew(cfg: Config, trials: seq<Trial>, from: int, to: int)
    requires Spaced(cfg, trials) && from <= to
    ensures CountWithin(trials, from, to) * Cooldown(cfg) <= to - from + Cooldown(cfg)
    decreases |trials|
  {
    if trials != [] {
      var init, last := trials[..|trials| - 1], trials[|trials| - 1];
      if from <= last.at <= to {
        var cut := last.at - Cooldown(cfg);
        forall i | 0 <= i < |init| ensures init[i].at <= cut {
          SpacedGrows(cfg, trials, i);
        }
        CutWindow(init, from, to, cut);
        if from <= cut {
          WindowHoldsFew(cfg, init, from, cut);
        }
        var c := CountWithin(init, from, to);
        assert (c + 1) * Cooldown(cfg) == c * Cooldown(cfg) + Cooldown(cfg);
      } else {
        WindowHoldsFew(cfg, init, from, to);
      }
    }
  }

  lemma QuotientBound(count: nat, unit: nat, length: nat)
    requires unit >= 1 && count * unit <= length + unit
    ensures count <= length / unit + 1
  {
    var q := length / unit;
    MoreIsMore(q + 2, count, unit);
    assert (q + 2) * unit == q * unit + 2 * unit;
    assert length == q * unit + length % unit;
  }

  lemma MoreIsMore(a: nat, b: nat, unit: nat)
    ensures a <= b ==> a * unit <= b * unit
  {}

  /** The rate bound: a window of any length holds at most length / cooldown + 1 trials. */
  lemma TrialRateBound(cfg: Config, clock: int, events: seq<Event>, from: int, length: nat)
    requires cfg.cooldownSeconds >= 1 && Run(cfg, Begin(clock), events).Some?
    ensures CountWithin(Run(cfg, Begin(clock), events).value.trials, from, from + length) <= length / Cooldown(cfg) + 1
  {
    var trials := Run(cfg, Begin(clock), events).value.trials;
    TrialsAreSpaced(cfg, clock, events);
    WindowHoldsFew(cfg, trials, from, from + length);
    QuotientBound(CountWithin(trials, from, from + length), Cooldown(cfg), length);
  }
}
