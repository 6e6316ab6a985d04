// Exactly which calls keep the pool healthy and undiluted, negative amounts included:
// the entrypoints accept those, and truncation then rounds in the caller's favour.
module PoolHealth {
  import opened MachineInts
  import opened IntegerSqrt
  import opened LiquidityPool
  import opened PoolRuns

  /** A negative amount of a token that decides the share count must divide evenly. */
  predicate RoundsFairly(x: int, reserve: int, mine: int, other: int)
    requires reserve != 0
  {
    x < 0 && mine <= other ==> x % reserve == 0
  }

  /** A call that fails, or one that takes neither a whole reserve nor a rounded-off fraction. */
  predicate Harmless(s: State, op: Op)
    requires Healthy(s)
  {
    var p := s.pool.value;
    match op
    case SetLockup(_, _) => true
    case Add(provider, a, b, now) =>
      Added(s, a, b, provider, now).Ok? ==>
        var fromA, fromB := TruncDiv(a * p.totalShares, p.reserveA), TruncDiv(b * p.totalShares, p.reserveB);
        && -p.reserveA < a && -p.reserveB < b
        && RoundsFairly(a * p.totalShares, p.reserveA, fromA, fromB)
        && RoundsFairly(b * p.totalShares, p.reserveB, fromB, fromA)
    case Remove(provider, shares, now) =>
      Removed(s, shares, provider, now).Ok? ==>
        shares >= 0 || (shares * p.reserveA % p.totalShares == 0 && shares * p.reserveB % p.totalShares == 0)
  }

  /** Dividing a negative number rounds up, and hits it exactly when it divides evenly. */
  lemma RoundsUp(x: int, d: int)
    requires x < 0 < d
    ensures var q := TruncDiv(x, d); x <= q * d < x + d && q <= 0 && (q * d == x <==> x % d == 0)
  {
    var n, q := -x, TruncDiv(x, d);
    assert n == n / d * d + n % d;
    assert q * d == -(n / d * d);
    if x % d == 0 {
      var k := x / d;
      assert x == k * d;
      MulOrder(q, k, d);
      MulOrder(k + 1, q, d);
      assert (k + 1) * d == k * d + d;
    }
    if n % d == 0 {
      assert x == q * d;
      ModOfMultiple(q, d);
    }
  }

  lemma ModOfMultiple(q: int, d: int)
    requires d > 0
    ensures q * d % d == 0
  {
    var x := q * d;
    var k, r := x / d, x % d;
    assert x == k * d + r;
    assert (q - k) * d == r;
    MulOrder(1, q - k, d);
  }

  /** Whether `shares`, at most the proportional count, are covered by one token's amount. */
  lemma CoveredIff(x: int, reserve: int, shares: int)
    requires reserve > 0 && shares <= TruncDiv(x, reserve)
    ensures shares * reserve <= x <==> !(x < 0 && shares == TruncDiv(x, reserve) && x % reserve != 0)
  {
    var q := TruncDiv(x, reserve);
    if x >= 0 {
      Quotient(x, reserve);
      MulMonotone(shares, q, reserve);
    } else {
      RoundsUp(x, reserve);
      MulOrder(shares, q - 1, reserve);
      assert (q - 1) * reserve == q * reserve - reserve;
    }
  }

  /** Value per share survives a deposit exactly when the minted shares are covered. */
  lemma MintDilutesIff(reserve: int, amount: int, total: int, shares: int)
    ensures (reserve + amount) * total >= reserve * (total + shares) <==> shares * reserve <= amount * total
  {
    assert (reserve + amount) * total == reserve * total + amount * total;
    assert reserve * (total + shares) == reserve * total + shares * reserve;
  }

  lemma BurnDilutesIff(reserve: int, amount: int, total: int, shares: int)
    ensures (reserve - amount) * total >= reserve * (total - shares) <==> amount * total <= shares * reserve
  {
    assert (reserve - amount) * total == reserve * total - amount * total;
    assert reserve * (total - shares) == reserve * total - shares * reserve;
  }

  lemma SignOfProduct(x: int, total: int)
    requires total > 0
    ensures x < 0 <==> x * total < 0
  {
    MulOrder(0, x, total);
    MulOrder(x, -1, total);
  }

  /** A reserve left over means shares left over. */
  lemma SharesLeft(amount: int, reserve: int, total: int)
    requires reserve > 0 && total > 0 && -reserve < amount
    ensures TruncDiv(amount * total, reserve) > -total
  {
    var x := amount * total;
    SignOfProduct(amount, total);
    if x >= 0 {
      Quotient(x, reserve);
    } else {
      RoundsUp(x, reserve);
      MulMonotone(-reserve + 1, amount, total);
      var q := TruncDiv(x, reserve);
      assert (-reserve + 1) * total == -total * reserve + total;
      MulOrder(q, -total, reserve);
    }
  }

  lemma AddHarmlessIff(s: State, a: int, b: int, provider: Address, now: nat)
    requires Healthy(s) && Added(s, a, b, provider, now).Ok?
    ensures var t := Added(s, a, b, provider, now).value.0;
            Healthy(t) && NoDilution(s.pool.value, t.pool.value) <==> Harmless(s, Add(provider, a, b, now))
  {
    var p := s.pool.value;
    var shares := SharesToMint(p, a, b).value;
    MintDilutesIff(p.reserveA, a, p.totalShares, shares);
    MintDilutesIff(p.reserveB, b, p.totalShares, shares);
    CoveredIff(a * p.totalShares, p.reserveA, shares);
    CoveredIff(b * p.totalShares, p.reserveB, shares);
    if -p.reserveA < a && -p.reserveB < b {
      SharesLeft(a, p.reserveA, p.totalShares);
      SharesLeft(b, p.reserveB, p.totalShares);
    }
  }

  lemma RemoveHarmlessIff(s: State, shares: int, provider: Address, now: nat)
    requires Healthy(s) && Removed(s, shares, provider, now).Ok?
    ensures var t := Removed(s, shares, provider, now).value.0;
            Healthy(t) && NoDilution(s.pool.value, t.pool.value) <==> Harmless(s, Remove(provider, shares, now))
  {
    var p := s.pool.value;
    if shares >= 0 {
      RemoveStep(s, shares, provider, now);
    } else {
      var (amountA, amountB) := AmountsFor(p, shares).value;
      BurnDilutesIff(p.reserveA, amountA, p.totalShares, shares);
      BurnDilutesIff(p.reserveB, amountB, p.totalShares, shares);
      SignOfProduct(shares, p.reserveA);
      SignOfProduct(shares, p.reserveB);
      RoundsUp(shares * p.reserveA, p.totalShares);
      RoundsUp(shares * p.reserveB, p.totalShares);
    }
  }

  /**
   * Any call, whatever its amounts, keeps reserves and shares positive and value per share from falling
   * exactly when it is harmless.
   */
  lemma StepKeepsHealthIff(s: State, op: Op)
    requires Healthy(s)
    ensures Healthy(Step(s, op)) && NoDilution(s.pool.value, Step(s, op).pool.value) <==> Harmless(s, op)
  {
    match op
    case Add(provider, a, b, now) =>
      if Added(s, a, b, provider, now).Ok? {
        AddHarmlessIff(s, a, b, provider, now);
      }
    case Remove(provider, shares, now) =>
      if Removed(s, shares, provider, now).Ok? {
        RemoveHarmlessIff(s, shares, provider, now);
      }
    case SetLockup(_, _) =>
  }

  ghost predicate HarmlessRun(s: State, ops: seq<Op>) {
    forall k | 0 <= k < |ops| :: Healthy(Run(s, ops[..k])) ==> Harmless(Run(s, ops[..k]), ops[k])
  }

  lemma HarmlessBefore(s: State, ops: seq<Op>, n: nat)
    requires HarmlessRun(s, ops) && n <= |ops|
    ensures HarmlessRun(s, ops[..n])
  {
    forall k | 0 <= k < n
      ensures Healthy(Run(s, ops[..n][..k])) ==> Harmless(Run(s, ops[..n][..k]), ops[..n][k])
    {
      assert ops[..n][..k] == ops[..k];
    }
  }

  /** A run of harmless calls, of any amounts, keeps the pool healthy and never dilutes a share. */
  lemma {:induction false} HarmlessRunKeepsHealth(s: State, ops: seq<Op>)
    requires Healthy(s) && HarmlessRun(s, ops)
    ensures Healthy(Run(s, ops)) && NoDilution(s.pool.value, Run(s, ops).pool.value)
    decreases |ops|
  {
    if ops != [] {
      var n := |ops| - 1;
      HarmlessBefore(s, ops, n);
      HarmlessRunKeepsHealth(s, ops[..n]);
      var t := Run(s, ops[..n]);
      assert Harmless(t, ops[n]);
      StepKeepsHealthIff(t, ops[n]);
      NoDilutionTransitive(s.pool.value, t.pool.value, Run(s, ops).pool.value);
    }
  }

  /** In a new pool, a deposit of minus three takes three tokens out for no shares at all. */
  lemma NegativeDepositTakesForNothing()
    ensures Created(10, 1, 30, 1, 0, 0).Ok? && Created(10, 1, 30, 1, 0, 0).value.pool.value == Pool(10, 1, 3)
    ensures var s := Created(10, 1, 30, 1, 0, 0).value;
            && Added(s, -3, 0, 2, 5).Ok? && Added(s, -3, 0, 2, 5).value.1 == 0
            && Added(s, -3, 0, 2, 5).value.0.pool.value == Pool(7, 1, 3)
  {
    SqrtUnique(10, Sqrt(10), 3);
  }
}
