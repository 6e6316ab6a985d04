// What every run of a pool keeps: positive reserves and shares, value per share,
// the balance of positions and shares, and deposit records in order.
module PoolRuns {
  import opened MachineInts
  import opened MapSum
  import opened IntegerSqrt
  import opened DepositLockup
  import opened LiquidityPool

  datatype Op =
    | Add(provider: Address, amountA: int, amountB: int, now: nat)
    | Remove(provider: Address, shares: int, now: nat)
    | SetLockup(seconds: nat, now: nat)

  /** A call leaves the new state, or the old one when it fails. */
  function Step(s: State, op: Op): State {
    match op
    case Add(provider, a, b, now) => (match Added(s, a, b, provider, now) case Ok((t, _)) => t case Err(_) => s)
    case Remove(provider, shares, now) =>
      (match Removed(s, shares, provider, now) case Ok((t, _)) => t case Err(_) => s)
    case SetLockup(seconds, _) => s.(lockup := seconds)
  }

  function Run(s: State, ops: seq<Op>): State
    decreases |ops|
  {
    if ops == [] then s else Step(Run(s, ops[..|ops| - 1]), ops[|ops| - 1])
  }

  /** Deposited amounts and withdrawn shares are not negative, as every caller means them. */
  predicate Meant(op: Op) {
    match op
    case Add(_, a, b, _) => a >= 0 && b >= 0
    case Remove(_, shares, _) => shares >= 0
    case SetLockup(_, _) => true
  }

  ghost predicate AllMeant(ops: seq<Op>) {
    forall i | 0 <= i < |ops| :: Meant(ops[i])
  }

  predicate Healthy(s: State) {
    s.pool.Some? && s.pool.value.reserveA > 0 && s.pool.value.reserveB > 0 && s.pool.value.totalShares > 0
  }

  /** Neither token's reserve per share is lower in `q` than in `p`. */
  predicate NoDilution(p: Pool, q: Pool) {
    && q.reserveA * p.totalShares >= p.reserveA * q.totalShares
    && q.reserveB * p.totalShares >= p.reserveB * q.totalShares
  }

  // ---- One call ---------------------------------------------------------------------------

  lemma MintKeepsValue(reserve: int, amount: int, total: int, shares: int)
    requires shares * reserve <= amount * total
    ensures (reserve + amount) * total >= reserve * (total + shares)
  {
    assert (reserve + amount) * total == reserve * total + amount * total;
    assert reserve * (total + shares) == reserve * total + shares * reserve;
  }

  lemma BurnKeepsValue(reserve: int, amount: int, total: int, shares: int)
    requires amount * total <= shares * reserve
    ensures (reserve - amount) * total >= reserve * (total - shares)
  {
    assert (reserve - amount) * total == reserve * total - amount * total;
    assert reserve * (total - shares) == reserve * total - shares * reserve;
  }

  /** `shares` are worth no more than the deposit, in either token. */
  predicate Covered(p: Pool, a: int, b: int, shares: int) {
    shares * p.reserveA <= a * p.totalShares && shares * p.reserveB <= b * p.totalShares
  }

  /** Minted shares are covered by the deposit, and one share more would not be. */
  lemma MintedWithinDeposit(p: Pool, a: nat, b: nat)
    requires p.reserveA > 0 && p.reserveB > 0 && p.totalShares > 0
    requires SharesToMint(p, a, b).Ok?
    ensures var shares := SharesToMint(p, a, b).value;
            0 <= shares && Covered(p, a, b, shares) && !Covered(p, a, b, shares + 1)
  {
    var shares := SharesToMint(p, a, b).value;
    assert (shares + 1) * p.reserveA == shares * p.reserveA + p.reserveA;
    assert (shares + 1) * p.reserveB == shares * p.reserveB + p.reserveB;
    ProductNonNegative(a, p.totalShares);
    ProductNonNegative(b, p.totalShares);
    Quotient(a * p.totalShares, p.reserveA);
    Quotient(b * p.totalShares, p.reserveB);
    MulMonotone(shares, TruncDiv(a * p.totalShares, p.reserveA), p.reserveA);
    MulMonotone(shares, TruncDiv(b * p.totalShares, p.reserveB), p.reserveB);
  }

  lemma ProductNonNegative(x: nat, y: nat)
    ensures x * y >= 0
  {
  }

  /** A payout misses less than a unit of what the shares are worth; a reserve left over means shares left over. */
  lemma PaidWithinShares(reserve: int, total: int, shares: nat)
    requires reserve > 0 && total > 0
    ensures var amount := TruncDiv(shares * reserve, total);
            && 0 <= amount && amount * total <= shares * reserve < (amount + 1) * total
            && (amount < reserve ==> shares < total)
  {
    var amount := TruncDiv(shares * reserve, total);
    ProductNonNegative(shares, reserve);
    Quotient(shares * reserve, total);
    assert (amount + 1) * total == amount * total + total;
    assert reserve * total == total * reserve;
    MulOrder(amount + 1, reserve, total);
    MulOrder(total, shares, reserve);
  }

  lemma AddStep(s: State, a: nat, b: nat, provider: Address, now: nat)
    requires Healthy(s) && Added(s, a, b, provider, now).Ok?
    ensures var (t, shares) := Added(s, a, b, provider, now).value;
            shares >= 0 && Healthy(t) && NoDilution(s.pool.value, t.pool.value)
  {
    var p := s.pool.value;
    MintedWithinDeposit(p, a, b);
    var shares := SharesToMint(p, a, b).value;
    MintKeepsValue(p.reserveA, a, p.totalShares, shares);
    MintKeepsValue(p.reserveB, b, p.totalShares, shares);
  }

  lemma RemoveStep(s: State, shares: nat, provider: Address, now: nat)
    requires Healthy(s) && Removed(s, shares, provider, now).Ok?
    ensures var (t, amounts) := Removed(s, shares, provider, now).value;
            && Healthy(t) && NoDilution(s.pool.value, t.pool.value)
            && t.pool.value.reserveA >= MIN_POOL_RESERVE && t.pool.value.reserveB >= MIN_POOL_RESERVE
            && amounts.0 >= 0 && amounts.1 >= 0
  {
    var p := s.pool.value;
    PaidWithinShares(p.reserveA, p.totalShares, shares);
    PaidWithinShares(p.reserveB, p.totalShares, shares);
    var (amountA, amountB) := AmountsFor(p, shares).value;
    BurnKeepsValue(p.reserveA, amountA, p.totalShares, shares);
    BurnKeepsValue(p.reserveB, amountB, p.totalShares, shares);
  }

  lemma StepKeepsHealth(s: State, op: Op)
    requires Healthy(s) && Meant(op)
    ensures Healthy(Step(s, op)) && NoDilution(s.pool.value, Step(s, op).pool.value)
  {
    match op
    case Add(provider, a, b, now) =>
      if Added(s, a, b, provider, now).Ok? {
        AddStep(s, a, b, provider, now);
      }
    case Remove(provider, shares, now) =>
      if Removed(s, shares, provider, now).Ok? {
        RemoveStep(s, shares, provider, now);
      }
    case SetLockup(_, _) =>
  }

  // ---- Runs ---------------------------------------------------------------------------------

  /** r0/t0 <= r1/t1 <= r2/t2, in integers. */
  lemma RatioTransitive(r0: int, t0: int, r1: int, t1: int, r2: int, t2: int)
    requires t0 > 0 && t1 > 0 && t2 > 0
    requires r1 * t0 >= r0 * t1 && r2 * t1 >= r1 * t2
    ensures r2 * t0 >= r0 * t2
  {
    MulMonotone(r0 * t1, r1 * t0, t2);
    MulMonotone(r1 * t2, r2 * t1, t0);
    assert r0 * t1 * t2 == r0 * t2 * t1;
    assert r1 * t0 * t2 == r1 * t2 * t0;
    assert r2 * t1 * t0 == r2 * t0 * t1;
    assert (r2 * t0 + 1) * t1 == r2 * t0 * t1 + t1;
    MulOrder(r2 * t0 + 1, r0 * t2, t1);
  }

  lemma NoDilutionTransitive(p: Pool, q: Pool, w: Pool)
    requires p.totalShares > 0 && q.totalShares > 0 && w.totalShares > 0
    requires NoDilution(p, q) && NoDilution(q, w)
    ensures NoDilution(p, w)
  {
    RatioTransitive(p.reserveA, p.totalShares, q.reserveA, q.totalShares, w.reserveA, w.totalShares);
    RatioTransitive(p.reserveB, p.totalShares, q.reserveB, q.totalShares, w.reserveB, w.totalShares);
  }

  /** In every run reserves and shares stay positive and value per share never falls. */
  lemma {:induction false} RunKeepsHealth(s: State, ops: seq<Op>)
    requires Healthy(s) && AllMeant(ops)
    ensures Healthy(Run(s, ops)) && NoDilution(s.pool.value, Run(s, ops).pool.value)
    decreases |ops|
  {
    if ops != [] {
      var earlier, last := ops[..|ops| - 1], ops[|ops| - 1];
      RunKeepsHealth(s, earlier);
      StepKeepsHealth(Run(s, earlier), last);
      NoDilutionTransitive(s.pool.value, Run(s, earlier).pool.value, Run(s, ops).pool.value);
    }
  }

  /** A new pool is healthy, and its share count lies between its two deposits. */
  lemma CreatedIsHealthy(a: int, b: int, feeRate: nat, creator: Address, now: nat, lockup: nat)
    ensures Created(a, b, feeRate, creator, now, lockup).Ok? <==>
              0 < a && 0 < b && feeRate <= MAX_FEE_RATE && a * b < I128_MAX
    ensures Created(a, b, feeRate, creator, now, lockup).Ok? ==>
              var s := Created(a, b, feeRate, creator, now, lockup).value;
              && Healthy(s)
              && (a <= b ==> a <= s.pool.value.totalShares <= b)
              && (b <= a ==> b <= s.pool.value.totalShares <= a)
  {
    if a > 0 && b > 0 {
      assert a * b == b * a;
      if a <= b {
        SqrtBetween(a, b);
      }
      if b <= a {
        SqrtBetween(b, a);
      }
    }
  }

  /** Depositing and at once withdrawing the minted shares never returns more than was deposited. */
  lemma RoundTripNeverGains(s: State, a: nat, b: nat, provider: Address, now: nat, taker: Address, later: nat)
    requires Healthy(s) && Added(s, a, b, provider, now).Ok?
    requires Removed(Added(s, a, b, provider, now).value.0, Added(s, a, b, provider, now).value.1, taker, later).Ok?
    ensures var (t, shares) := Added(s, a, b, provider, now).value;
            var amounts := Removed(t, shares, taker, later).value.1;
            amounts.0 <= a && amounts.1 <= b
  {
    var p := s.pool.value;
    var (t, shares) := Added(s, a, b, provider, now).value;
    MintedWithinDeposit(p, a, b);
    AddStep(s, a, b, provider, now);
    BackAtMostIn(p.reserveA, a, p.totalShares, shares);
    BackAtMostIn(p.reserveB, b, p.totalShares, shares);
  }

  lemma BackAtMostIn(reserve: int, amount: nat, total: int, shares: nat)
    requires reserve > 0 && total > 0 && shares * reserve <= amount * total
    ensures TruncDiv(shares * (reserve + amount), total + shares) <= amount
  {
    var back := TruncDiv(shares * (reserve + amount), total + shares);
    ProductNonNegative(shares, reserve + amount);
    Quotient(shares * (reserve + amount), total + shares);
    assert shares * (reserve + amount) == shares * reserve + shares * amount;
    assert amount * (total + shares) == amount * total + shares * amount;
    assert (amount + 1) * (total + shares) == amount * (total + shares) + (total + shares);
    MulOrder(amount + 1, back, total + shares);
  }

  // ---- Conservation -----------------------------------------------------------------------------

  /** Tokens and shares that enter the pool; what leaves is negative. */
  datatype Flow = Flow(a: int, b: int, shares: int)

  function FlowOf(s: State, op: Op): Flow {
    match op
    case Add(provider, a, b, now) =>
      (match Added(s, a, b, provider, now) case Ok((_, minted)) => Flow(a, b, minted) case Err(_) => Flow(0, 0, 0))
    case Remove(provider, shares, now) =>
      (match Removed(s, shares, provider, now)
       case Ok((_, paid)) => Flow(-paid.0, -paid.1, -shares)
       case Err(_) => Flow(0, 0, 0))
    case SetLockup(_, _) => Flow(0, 0, 0)
  }

  function Flows(s: State, ops: seq<Op>): Flow
    decreases |ops|
  {
    if ops == [] then Flow(0, 0, 0)
    else
      var earlier, last := ops[..|ops| - 1], ops[|ops| - 1];
      var f, g := Flows(s, earlier), FlowOf(Run(s, earlier), last);
      Flow(f.a + g.a, f.b + g.b, f.shares + g.shares)
  }

  /** Over every run, whatever the amounts, the pool holds what came in less what callers were told went out. */
  lemma {:induction false} RunConserves(s: State, ops: seq<Op>)
    requires s.pool.Some?
    ensures Run(s, ops).pool.Some?
    ensures var p, q, f := s.pool.value, Run(s, ops).pool.value, Flows(s, ops);
            q == Pool(p.reserveA + f.a, p.reserveB + f.b, p.totalShares + f.shares)
    decreases |ops|
  {
    if ops != [] {
      RunConserves(s, ops[..|ops| - 1]);
    }
  }

  /**
   * A call moves the caller's position by the shares it mints or burns, never below zero, and leaves
   * the positions and the records of everyone else alone.
   */
  lemma OnlyCallerMoves(s: State, op: Op, other: Address)
    requires Healthy(s) && Meant(op) && PositionsOk(s) && (op.SetLockup? || other != op.provider)
    ensures var t := Step(s, op);
            && Get(t.positions, other) == Get(s.positions, other) && RecordsOf(t, other) == RecordsOf(s, other)
            && (!op.SetLockup? ==>
                  var held := Get(s.positions, op.provider) + FlowOf(s, op).shares;
                  Get(t.positions, op.provider) == if held >= 0 then held else 0)
  {
    assert 0 <= Get(s.positions, if op.SetLockup? then other else op.provider);
    if op.Add? && Added(s, op.amountA, op.amountB, op.provider, op.now).Ok? {
      MintedWithinDeposit(s.pool.value, op.amountA, op.amountB);
    }
  }

  // ---- Positions --------------------------------------------------------------------------------

  /** The shares a call withdraws beyond what the caller's position holds. */
  function Overdraft(s: State, op: Op): nat {
    if op.Remove? && Removed(s, op.shares, op.provider, op.now).Ok? && op.shares > Get(s.positions, op.provider)
    then op.shares - Get(s.positions, op.provider)
    else 0
  }

  function Overdrafts(s: State, ops: seq<Op>): nat
    decreases |ops|
  {
    if ops == [] then 0
    else Overdrafts(s, ops[..|ops| - 1]) + Overdraft(Run(s, ops[..|ops| - 1]), ops[|ops| - 1])
  }

  ghost predicate PositionsOk(s: State) {
    forall a | a in s.positions :: s.positions[a] >= 0
  }

  /** Positions exceed the shares by exactly what was overdrawn. */
  ghost function Surplus(s: State): int
    requires s.pool.Some?
  {
    Sum(s.positions) - s.pool.value.totalShares
  }

  lemma ReducedSum(positions: map<Address, int>, provider: Address, shares: nat)
    requires forall a | a in positions :: positions[a] >= 0
    ensures var held := Get(positions, provider);
            Sum(Reduced(positions, provider, shares)) == Sum(positions) - (if shares <= held then shares else held)
    ensures forall a | a in Reduced(positions, provider, shares) :: Reduced(positions, provider, shares)[a] >= 0
  {
    if provider in positions {
      SumUpdate(positions, provider, positions[provider] - shares);
      SumRemove(positions, provider);
    }
  }

  lemma StepBalances(s: State, op: Op)
    requires Healthy(s) && Meant(op) && PositionsOk(s)
    ensures PositionsOk(Step(s, op)) && Step(s, op).pool.Some?
    ensures Surplus(Step(s, op)) == Surplus(s) + Overdraft(s, op)
  {
    match op
    case Add(provider, a, b, now) =>
      if Added(s, a, b, provider, now).Ok? {
        AddStep(s, a, b, provider, now);
        var shares := Added(s, a, b, provider, now).value.1;
        SumUpdate(s.positions, provider, Get(s.positions, provider) + shares);
      }
    case Remove(provider, shares, now) =>
      if Removed(s, shares, provider, now).Ok? {
        ReducedSum(s.positions, provider, shares);
      }
    case SetLockup(_, _) =>
  }

  /** Over every run, positions exceed the shares by exactly the overdrawn amount. */
  lemma {:induction false} RunBalances(s: State, ops: seq<Op>)
    requires Healthy(s) && AllMeant(ops) && PositionsOk(s)
    ensures PositionsOk(Run(s, ops)) && Run(s, ops).pool.Some?
    ensures Surplus(Run(s, ops)) == Surplus(s) + Overdrafts(s, ops)
    decreases |ops|
  {
    if ops != [] {
      var earlier, last := ops[..|ops| - 1], ops[|ops| - 1];
      RunBalances(s, earlier);
      RunKeepsHealth(s, earlier);
      StepBalances(Run(s, earlier), last);
    }
  }

  /** Positions add up to the shares of the pool exactly when nobody withdrew more than they held. */
  lemma PositionsAddUp(a: int, b: int, feeRate: nat, creator: Address, now: nat, lockup: nat, ops: seq<Op>)
    requires Created(a, b, feeRate, creator, now, lockup).Ok? && AllMeant(ops)
    ensures var s := Created(a, b, feeRate, creator, now, lockup).value;
            && Run(s, ops).pool.Some?
            && (Sum(Run(s, ops).positions) == Run(s, ops).pool.value.totalShares <==> Overdrafts(s, ops) == 0)
  {
    var s := Created(a, b, feeRate, creator, now, lockup).value;
    CreatedIsHealthy(a, b, feeRate, creator, now, lockup);
    var shares := s.pool.value.totalShares;
    var none: map<Address, int> := map[];
    SumUpdate(none, creator, shares);
    assert none[creator := shares] == s.positions;
    RunBalances(s, ops);
  }

  // ---- Deposit records ------------------------------------------------------------------------

  /** The records of a provider are in order, without negative shares, and not from the future. */
  ghost predicate RecordsOk(records: seq<DepositRecord>, now: nat) {
    NonNegative(records) && Chronological(records) && forall i | 0 <= i < |records| :: records[i].depositedAt <= now
  }

  ghost predicate AllRecordsOk(s: State, now: nat) {
    forall a | a in s.records :: RecordsOk(s.records[a], now)
  }

  ghost predicate TimesOrdered(start: nat, ops: seq<Op>) {
    && (forall i | 0 <= i < |ops| :: start <= ops[i].now)
    && (forall i, j | 0 <= i < j < |ops| :: ops[i].now <= ops[j].now)
  }

  lemma RecordsLater(s: State, now: nat, later: nat)
    requires AllRecordsOk(s, now) && now <= later
    ensures AllRecordsOk(s, later)
  {
    forall a | a in s.records
      ensures RecordsOk(s.records[a], later)
    {
      assert RecordsOk(s.records[a], now);
    }
  }

  lemma PushKeepsOrder(records: seq<DepositRecord>, shares: nat, now: nat)
    requires RecordsOk(records, now)
    ensures RecordsOk(records + [DepositRecord(shares, now)], now)
  {
  }

  lemma {:induction false} DropFrontBounded(records: seq<DepositRecord>, k: int, now: nat)
    requires forall i | 0 <= i < |records| :: records[i].depositedAt <= now
    ensures forall i | 0 <= i < |DropFront(records, k)| :: DropFront(records, k)[i].depositedAt <= now
    decreases |records|
  {
    if records != [] && k > 0 {
      if records[0].shares <= k {
        DropFrontBounded(records[1..], k - records[0].shares, now);
      } else {
        var cut := CutFirst(records, k);
        assert forall i | 0 <= i < |cut| :: cut[i].depositedAt == records[i].depositedAt;
      }
    }
  }

  lemma WithdrawKeepsOrder(records: seq<DepositRecord>, shares: nat, now: nat, lockup: nat)
    requires RecordsOk(records, now)
    requires Withdrawn(records, shares, now, lockup).Some?
    ensures RecordsOk(Withdrawn(records, shares, now, lockup).value, now)
  {
    WithdrawalTakesOldestUnlocked(records, shares, now, lockup);
    DropFrontBounded(records, shares, now);
  }

  lemma StepKeepsRecords(s: State, op: Op)
    requires Healthy(s) && Meant(op) && AllRecordsOk(s, op.now)
    ensures AllRecordsOk(Step(s, op), op.now)
  {
    match op
    case Add(provider, a, b, now) =>
      if Added(s, a, b, provider, now).Ok? {
        AddStep(s, a, b, provider, now);
        PushKeepsOrder(RecordsOf(s, provider), Added(s, a, b, provider, now).value.1, now);
      }
    case Remove(provider, shares, now) =>
      if Removed(s, shares, provider, now).Ok? && s.lockup > 0 {
        WithdrawKeepsOrder(RecordsOf(s, provider), shares, now, s.lockup);
      }
    case SetLockup(_, _) =>
  }

  /** Over every run with non-decreasing time, every record list stays in order. */
  lemma {:induction false} RunKeepsRecords(s: State, start: nat, ops: seq<Op>)
    requires Healthy(s) && AllMeant(ops) && AllRecordsOk(s, start) && TimesOrdered(start, ops)
    ensures AllRecordsOk(Run(s, ops), if ops == [] then start else ops[|ops| - 1].now)
    decreases |ops|
  {
    if ops != [] {
      var earlier, last := ops[..|ops| - 1], ops[|ops| - 1];
      assert forall i | 0 <= i < |earlier| :: earlier[i] == ops[i];
      RunKeepsRecords(s, start, earlier);
      RunKeepsHealth(s, earlier);
      RecordsLater(Run(s, earlier), if earlier == [] then start else earlier[|earlier| - 1].now, last.now);
      StepKeepsRecords(Run(s, earlier), last);
    }
  }

  /**
   * In every run from a new pool, a withdrawal under a lock-up takes exactly the oldest shares of
   * the provider, all of them unlocked.
   */
  lemma RunWithdrawalsRespectLockup(a: int, b: int, feeRate: nat, creator: Address, start: nat, lockup: nat,
                                    ops: seq<Op>, provider: Address, shares: nat, now: nat)
    requires Created(a, b, feeRate, creator, start, lockup).Ok?
    requires AllMeant(ops) && TimesOrdered(start, ops) && start <= now && forall i | 0 <= i < |ops| :: ops[i].now <= now
    requires var s := Run(Created(a, b, feeRate, creator, start, lockup).value, ops);
             s.lockup > 0 && Removed(s, shares, provider, now).Ok?
    ensures var s := Run(Created(a, b, feeRate, creator, start, lockup).value, ops);
            var before := RecordsOf(s, provider);
            var after := RecordsOf(Removed(s, shares, provider, now).value.0, provider);
            && NonNegative(before) && NonNegative(after)
            && shares <= |Units(before)| && Units(after) == Units(before)[shares..]
            && (forall i | 0 <= i < shares :: now >= Units(before)[i] + s.lockup)
            && LockedOf(after, now, s.lockup) == LockedOf(before, now, s.lockup)
  {
    var s0 := Created(a, b, feeRate, creator, start, lockup).value;
    CreatedIsHealthy(a, b, feeRate, creator, start, lockup);
    assert RecordsOk(s0.records[creator], start);
    RunKeepsRecords(s0, start, ops);
    var s := Run(s0, ops);
    RecordsLater(s, if ops == [] then start else ops[|ops| - 1].now, now);
    var before := RecordsOf(s, provider);
    assert RecordsOk(before, now);
    WithdrawalTakesOldestUnlocked(before, shares, now, s.lockup);
    forall i | 0 <= i < shares
      ensures i < |Units(before)| && now >= Units(before)[i] + s.lockup
    {
      DroppedSharesWereUnlocked(before, shares, now, s.lockup, i);
    }
  }
}
