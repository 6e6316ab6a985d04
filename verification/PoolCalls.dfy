// The liquidity pool told from its calls: when a call is refused and what the refusal
// means, and that the lock-up is the one configured last.
module PoolCalls {
  import opened Options
  import opened MachineInts
  import opened LiquidityPool
  import opened PoolRuns

  /** A pool is created from positive amounts whose product fits, with a fee of at most ten percent. */
  lemma CreationVerdict(a: int, b: int, feeRate: nat, creator: Address, now: nat, lockup: nat)
    ensures Created(a, b, feeRate, creator, now, lockup) == Err(InvalidAmount) <==> a <= 0 || b <= 0
    ensures Created(a, b, feeRate, creator, now, lockup) == Err(InvalidFeeRate) <==> a > 0 && b > 0 && feeRate > 1000
    ensures Created(a, b, feeRate, creator, now, lockup).Ok? <==>
              a > 0 && b > 0 && feeRate <= 1000 && a * b < I128_MAX
  {
  }

  /** Taking out `shares` would leave less than a thousand of a reserve, told without a division. */
  predicate LeavesTooLittle(reserve: int, total: int, shares: int) {
    (reserve - 999) * total <= shares * reserve
  }

  lemma LeavesTooLittleIff(reserve: int, total: int, shares: nat)
    requires reserve > 0 && total > 0
    ensures reserve - TruncDiv(shares * reserve, total) < 1000 <==> LeavesTooLittle(reserve, total, shares)
  {
    ProductNonNegative(shares, reserve);
    Quotient(shares * reserve, total);
    var q := TruncDiv(shares * reserve, total);
    MulOrder(reserve - 999, q, total);
    MulOrder(q + 1, reserve - 999, total);
    assert (q + 1) * total == q * total + total;
  }

  /** A withdrawal that computes is refused for liquidity exactly when it leaves too little of a token. */
  lemma RefusedForLiquidityIff(s: State, shares: nat, provider: Address, now: nat)
    requires Healthy(s) && AmountsFor(s.pool.value, shares).Ok?
    requires IsI128(s.pool.value.reserveA) && IsI128(s.pool.value.reserveB)
    ensures var p := s.pool.value;
            Removed(s, shares, provider, now) == Err(InsufficientLiquidity) <==>
              LeavesTooLittle(p.reserveA, p.totalShares, shares) || LeavesTooLittle(p.reserveB, p.totalShares, shares)
  {
    var p := s.pool.value;
    LeavesTooLittleIff(p.reserveA, p.totalShares, shares);
    LeavesTooLittleIff(p.reserveB, p.totalShares, shares);
    PaidWithinShares(p.reserveA, p.totalShares, shares);
    PaidWithinShares(p.reserveB, p.totalShares, shares);
  }

  /** Calls on a pool that does not exist are refused for that, and only those. */
  lemma NoPoolIff(s: State, a: int, b: int, shares: int, provider: Address, now: nat)
    ensures Added(s, a, b, provider, now) == Err(PoolNotFound) <==> s.pool.None?
    ensures Removed(s, shares, provider, now) == Err(PoolNotFound) <==> s.pool.None?
  {
  }

  function LockupSetLast(lockup: nat, ops: seq<Op>): nat
    decreases |ops|
  {
    if ops == [] then lockup
    else if ops[|ops| - 1].SetLockup? then ops[|ops| - 1].seconds
    else LockupSetLast(lockup, ops[..|ops| - 1])
  }

  /** In every run the duration is the one set last. */
  lemma {:induction false} LockupIsSetLast(s: State, ops: seq<Op>)
    ensures Run(s, ops).lockup == LockupSetLast(s.lockup, ops)
    decreases |ops|
  {
    if ops != [] {
      LockupIsSetLast(s, ops[..|ops| - 1]);
    }
  }
}
