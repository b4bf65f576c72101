/** _backoff_seconds of tasks.py, and what it adds up to over a chain of attempts. */
module Backoff {
  /** The two settings: RETRY_BACKOFF_SECONDS and RETRY_BACKOFF_MAX_SECONDS. */
  datatype Policy = Policy(base: nat, ceiling: nat)

  function Pow2(n: nat): nat {
    if n == 0 then 1 else 2 * Pow2(n - 1)
  }

  /** The wait after an attempt, before the ceiling. */
  function Uncapped(policy: Policy, attempt: nat): nat
    requires attempt >= 1
  {
    policy.base * Pow2(attempt - 1)
  }

  function Seconds(policy: Policy, attempt: nat): nat
    requires attempt >= 1
  {
    var wait := Uncapped(policy, attempt);
    if wait <= policy.ceiling then wait else policy.ceiling
  }

  /** All waits of a chain with that many attempts: one between each two. */
  function TotalWait(policy: Policy, attempts: nat): nat {
    if attempts <= 1 then 0 else TotalWait(policy, attempts - 1) + Seconds(policy, attempts - 1)
  }

  lemma UncappedDoubles(policy: Policy, attempt: nat)
    requires attempt >= 1
    ensures Uncapped(policy, attempt + 1) == 2 * Uncapped(policy, attempt)
    ensures Uncapped(policy, 1) == policy.base
  {
    var b, p := policy.base, Pow2(attempt - 1);
    assert b * (2 * p) == 2 * (b * p);
  }

  lemma {:induction false} UncappedGrows(policy: Policy, i: nat, k: nat)
    requires 1 <= i <= k
    ensures Uncapped(policy, i) <= Uncapped(policy, k)
  {
    if i < k {
      UncappedGrows(policy, i, k - 1);
      UncappedDoubles(policy, k - 1);
    }
  }

  lemma WaitsGrow(policy: Policy, i: nat, k: nat)
    requires 1 <= i <= k
    ensures Seconds(policy, i) <= Seconds(policy, k) <= policy.ceiling
  {
    UncappedGrows(policy, i, k);
  }

  /** The first wait is the base, each further one twice the one before, and none above the ceiling. */
  lemma WaitsDouble(policy: Policy, attempt: nat)
    requires attempt >= 1
    ensures Seconds(policy, 1) == if policy.base <= policy.ceiling then policy.base else policy.ceiling
    ensures Seconds(policy, attempt + 1)
         == if 2 * Seconds(policy, attempt) <= policy.ceiling then 2 * Seconds(policy, attempt) else policy.ceiling
  {
    UncappedDoubles(policy, attempt);
  }

  /** The first j waits of the chain double, the later ones are at the ceiling. */
  predicate Crossover(policy: Policy, attempts: nat, j: nat) {
    && j < attempts
    && (j > 0 ==> Uncapped(policy, j) <= policy.ceiling)
    && (j < attempts - 1 ==> Uncapped(policy, j + 1) > policy.ceiling)
  }

  lemma {:induction false} CrossoverExists(policy: Policy, attempts: nat) returns (j: nat)
    requires attempts >= 1
    ensures Crossover(policy, attempts, j)
  {
    if attempts == 1 {
      j := 0;
    } else {
      j := CrossoverExists(policy, attempts - 1);
      if j == attempts - 2 && Uncapped(policy, j + 1) <= policy.ceiling {
        j := attempts - 1;
      }
    }
  }

  lemma {:induction false} DoublingPart(policy: Policy, attempts: nat)
    requires attempts >= 1
    requires attempts >= 2 ==> Uncapped(policy, attempts - 1) <= policy.ceiling
    ensures TotalWait(policy, attempts) == Uncapped(policy, attempts) - policy.base
  {
    if attempts >= 2 {
      if attempts >= 3 {
        UncappedGrows(policy, attempts - 2, attempts - 1);
      }
      DoublingPart(policy, attempts - 1);
      UncappedDoubles(policy, attempts - 1);
    } else {
      UncappedDoubles(policy, 1);
    }
  }

  lemma {:induction false} CeilingPart(policy: Policy, attempts: nat, j: nat)
    requires Crossover(policy, attempts, j)
    ensures TotalWait(policy, attempts) == TotalWait(policy, j + 1) + Times(attempts - 1 - j, policy.ceiling)
  {
    if j < attempts - 1 {
      UncappedGrows(policy, j + 1, attempts - 1);
      CeilingPart(policy, attempts - 1, j);
    }
  }

  function Times(n: nat, x: nat): nat {
    if n == 0 then 0 else Times(n - 1, x) + x
  }

  lemma {:induction false} TimesIsProduct(n: nat, x: nat)
    ensures Times(n, x) == n * x
  {
    if n > 0 {
      TimesIsProduct(n - 1, x);
      assert (n - 1) * x + x == n * x;
    }
  }

  lemma UncappedLessBase(policy: Policy, attempt: nat)
    requires attempt >= 1
    ensures Uncapped(policy, attempt) - policy.base == policy.base * (Pow2(attempt - 1) - 1)
  {}

  /** The closed form of the whole chain's waiting time. */
  lemma TotalAtCrossover(policy: Policy, attempts: nat, j: nat)
    requires Crossover(policy, attempts, j)
    ensures TotalWait(policy, attempts) == policy.base * (Pow2(j) - 1) + (attempts - 1 - j) * policy.ceiling
  {
    CeilingPart(policy, attempts, j);
    DoublingPart(policy, j + 1);
    UncappedLessBase(policy, j + 1);
    TimesIsProduct(attempts - 1 - j, policy.ceiling);
  }

  lemma {:induction false} TotalBelowSums(policy: Policy, attempts: nat)
    requires attempts >= 1
    ensures TotalWait(policy, attempts) <= Uncapped(policy, attempts) - policy.base
    ensures TotalWait(policy, attempts) <= Times(attempts - 1, policy.ceiling)
  {
    if attempts >= 2 {
      TotalBelowSums(policy, attempts - 1);
      UncappedDoubles(policy, attempts - 1);
    } else {
      UncappedDoubles(policy, 1);
    }
  }

  /** However long the chain, it waits no longer than either bound. */
  lemma TotalIsBounded(policy: Policy, attempts: nat)
    requires attempts >= 1
    ensures TotalWait(policy, attempts) <= policy.base * (Pow2(attempts - 1) - 1)
    ensures TotalWait(policy, attempts) <= (attempts - 1) * policy.ceiling
  {
    TotalBelowSums(policy, attempts);
    UncappedLessBase(policy, attempts);
    TimesIsProduct(attempts - 1, policy.ceiling);
  }
}
