// The deposit records of a pool told from the calls alone: every share carries the time
// of the call that minted it, and withdrawals under a lock-up take the oldest ones.
module MintedShares {
  import opened DepositLockup
  import opened LiquidityPool
  import opened PoolRuns

  /** The shares a call mints for `p`, one entry a share: the time of the call. */
  ghost function MintedBy(s: State, op: Op, p: Address): seq<nat> {
    var minted := FlowOf(s, op).shares;
    if op.Add? && op.provider == p && minted > 0 then Repeat(op.now, minted) else []
  }

  ghost function MintedIn(s: State, ops: seq<Op>, p: Address): seq<nat>
    decreases |ops|
  {
    if ops == [] then []
    else
      var earlier := ops[..|ops| - 1];
      MintedIn(s, earlier, p) + MintedBy(Run(s, earlier), ops[|ops| - 1], p)
  }

  /** All shares minted for `p`, oldest first, from the creation of the pool on. */
  ghost function Minted(s: State, creator: Address, start: nat, ops: seq<Op>, p: Address): seq<nat>
    requires s.pool.Some?
  {
    var first := s.pool.value.totalShares;
    (if p == creator && first > 0 then Repeat(start, first) else []) + MintedIn(s, ops, p)
  }

  /** The shares a call withdraws for `p` while the lock-up is on. */
  function TakenBy(s: State, op: Op, p: Address): nat {
    if op.Remove? && op.provider == p && s.lockup > 0 && op.shares > 0 && Removed(s, op.shares, p, op.now).Ok?
    then op.shares else 0
  }

  function Taken(s: State, ops: seq<Op>, p: Address): nat
    decreases |ops|
  {
    if ops == [] then 0 else Taken(s, ops[..|ops| - 1], p) + TakenBy(Run(s, ops[..|ops| - 1]), ops[|ops| - 1], p)
  }

  /** A new pool holds exactly one deposit: all its shares, the creator's, made at the creation. */
  lemma NewPoolHoldsOneRecord(a: int, b: int, feeRate: nat, creator: Address, now: nat, lockup: nat)
    requires Created(a, b, feeRate, creator, now, lockup).Ok?
    ensures var s := Created(a, b, feeRate, creator, now, lockup).value;
            && s.lockup == lockup && s.pool.Some?
            && forall p :: RecordsOf(s, p)
                           == if p == creator then [DepositRecord(s.pool.value.totalShares, now)] else []
  {
  }

  lemma UnitsCons(first: DepositRecord, rest: seq<DepositRecord>)
    requires first.shares >= 0 && NonNegative(rest)
    ensures NonNegative([first] + rest)
    ensures Units([first] + rest) == Repeat(first.depositedAt, first.shares) + Units(rest)
  {
    assert ([first] + rest)[1..] == rest;
  }

  lemma {:induction false} UnitsAppend(records: seq<DepositRecord>, r: DepositRecord)
    requires NonNegative(records) && r.shares >= 0
    ensures NonNegative(records + [r]) && Units(records + [r]) == Units(records) + Repeat(r.depositedAt, r.shares)
    decreases |records|
  {
    if records == [] {
      UnitsCons(r, []);
      assert [] + [r] == [r] + [];
    } else {
      var first, rest := records[0], records[1..];
      assert NonNegative(rest) && [first] + rest == records && [first] + (rest + [r]) == records + [r];
      UnitsAppend(rest, r);
      UnitsCons(first, rest);
      UnitsCons(first, rest + [r]);
    }
  }

  lemma DropFromSum(x: seq<nat>, y: seq<nat>, n: nat)
    requires n <= |x|
    ensures (x + y)[n..] == x[n..] + y
  {
  }

  lemma DropTwice(x: seq<nat>, n: nat, m: nat)
    requires n <= |x| && m <= |x[n..]|
    ensures n + m <= |x| && x[n..][m..] == x[n + m..]
  {
  }

  /** The records of `p` are the shares `minted` without the first `taken`. */
  ghost predicate Holds(s: State, p: Address, minted: seq<nat>, taken: nat) {
    NonNegative(RecordsOf(s, p)) && taken <= |minted| && Units(RecordsOf(s, p)) == minted[taken..]
  }

  lemma AddMints(s: State, op: Op, minted: seq<nat>, taken: nat)
    requires Healthy(s) && Meant(op) && op.Add? && Holds(s, op.provider, minted, taken)
    ensures Holds(Step(s, op), op.provider, minted + MintedBy(s, op, op.provider), taken)
  {
    if Added(s, op.amountA, op.amountB, op.provider, op.now).Ok? {
      AddStep(s, op.amountA, op.amountB, op.provider, op.now);
      var shares := Added(s, op.amountA, op.amountB, op.provider, op.now).value.1;
      UnitsAppend(RecordsOf(s, op.provider), DepositRecord(shares, op.now));
      assert MintedBy(s, op, op.provider) == Repeat(op.now, shares);
    }
    DropFromSum(minted, MintedBy(s, op, op.provider), taken);
  }

  lemma RemoveTakes(s: State, op: Op, minted: seq<nat>, taken: nat)
    requires Meant(op) && op.Remove? && AllRecordsOk(s, op.now) && Holds(s, op.provider, minted, taken)
    ensures Holds(Step(s, op), op.provider, minted, taken + TakenBy(s, op, op.provider))
  {
    var records := RecordsOf(s, op.provider);
    if s.lockup > 0 && Removed(s, op.shares, op.provider, op.now).Ok? {
      assert RecordsOk(records, op.now);
      WithdrawalTakesOldestUnlocked(records, op.shares, op.now, s.lockup);
      DropTwice(minted, taken, op.shares);
      assert RecordsOf(Step(s, op), op.provider) == Guarded(records, op.shares, op.now, s.lockup).value;
    } else {
      assert RecordsOf(Step(s, op), op.provider) == records;
    }
  }

  lemma StepTakesAndMints(s: State, op: Op, p: Address, minted: seq<nat>, taken: nat)
    requires Healthy(s) && Meant(op) && AllRecordsOk(s, op.now) && Holds(s, p, minted, taken)
    ensures Holds(Step(s, op), p, minted + MintedBy(s, op, p), taken + TakenBy(s, op, p))
  {
    if op.SetLockup? || op.provider != p {
      assert RecordsOf(Step(s, op), p) == RecordsOf(s, p);
      assert minted + [] == minted;
    } else if op.Add? {
      AddMints(s, op, minted, taken);
    } else {
      RemoveTakes(s, op, minted, taken);
      assert minted + [] == minted;
    }
  }

  /**
   * In every run of a new pool the records of a provider are exactly the shares minted for it, each with the
   * time of the call that minted it, without the oldest ones withdrawn while the lock-up was on.
   */
  lemma {:induction false} RecordsAreMintedShares(a: int, b: int, feeRate: nat, creator: Address, start: nat,
                                                  lockup: nat, ops: seq<Op>, p: Address)
    requires Created(a, b, feeRate, creator, start, lockup).Ok? && AllMeant(ops) && TimesOrdered(start, ops)
    ensures var s := Created(a, b, feeRate, creator, start, lockup).value;
            Holds(Run(s, ops), p, Minted(s, creator, start, ops, p), Taken(s, ops, p))
    decreases |ops|
  {
    var s := Created(a, b, feeRate, creator, start, lockup).value;
    CreatedIsHealthy(a, b, feeRate, creator, start, lockup);
    if ops == [] {
      NewPoolHolds(a, b, feeRate, creator, start, lockup, p);
    } else {
      var earlier, last := ops[..|ops| - 1], ops[|ops| - 1];
      OrderedWithoutLast(start, ops);
      RecordsAreMintedShares(a, b, feeRate, creator, start, lockup, earlier, p);
      ReadyForLast(s, start, ops);
      StepTakesAndMints(Run(s, earlier), last, p, Minted(s, creator, start, earlier, p), Taken(s, earlier, p));
      MintedGrows(s, creator, start, ops, p);
    }
  }

  lemma NewPoolHolds(a: int, b: int, feeRate: nat, creator: Address, start: nat, lockup: nat, p: Address)
    requires Created(a, b, feeRate, creator, start, lockup).Ok?
    ensures var s := Created(a, b, feeRate, creator, start, lockup).value;
            Holds(s, p, Minted(s, creator, start, [], p), 0)
  {
    var s := Created(a, b, feeRate, creator, start, lockup).value;
    CreatedIsHealthy(a, b, feeRate, creator, start, lockup);
    NewPoolHoldsOneRecord(a, b, feeRate, creator, start, lockup);
    if p == creator {
      UnitsCons(RecordsOf(s, p)[0], []);
      assert [RecordsOf(s, p)[0]] + [] == RecordsOf(s, p);
    }
    var minted := Minted(s, creator, start, [], p);
    assert minted[0..] == minted;
  }

  lemma OrderedWithoutLast(start: nat, ops: seq<Op>)
    requires TimesOrdered(start, ops) && AllMeant(ops) && ops != []
    ensures TimesOrdered(start, ops[..|ops| - 1]) && AllMeant(ops[..|ops| - 1])
  {
    var earlier := ops[..|ops| - 1];
    assert forall i | 0 <= i < |earlier| :: earlier[i] == ops[i];
  }

  lemma ReadyForLast(s: State, start: nat, ops: seq<Op>)
    requires Healthy(s) && AllRecordsOk(s, start) && TimesOrdered(start, ops) && AllMeant(ops) && ops != []
    ensures Healthy(Run(s, ops[..|ops| - 1])) && AllRecordsOk(Run(s, ops[..|ops| - 1]), ops[|ops| - 1].now)
  {
    var earlier, last := ops[..|ops| - 1], ops[|ops| - 1];
    OrderedWithoutLast(start, ops);
    RunKeepsHealth(s, earlier);
    RunKeepsRecords(s, start, earlier);
    RecordsLater(Run(s, earlier), if earlier == [] then start else earlier[|earlier| - 1].now, last.now);
  }

  lemma MintedGrows(s: State, creator: Address, start: nat, ops: seq<Op>, p: Address)
    requires s.pool.Some? && ops != []
    ensures Minted(s, creator, start, ops, p)
         == Minted(s, creator, start, ops[..|ops| - 1], p) + MintedBy(Run(s, ops[..|ops| - 1]), ops[|ops| - 1], p)
  {
  }

  lemma OrderedWithLast(start: nat, ops: seq<Op>, last: Op)
    requires TimesOrdered(start, ops + [last])
    ensures TimesOrdered(start, ops) && start <= last.now && forall i | 0 <= i < |ops| :: ops[i].now <= last.now
  {
    var all := ops + [last];
    assert all[|ops|] == last && forall i | 0 <= i < |ops| :: all[i] == ops[i];
  }

  /**
   * In every run of a new pool, a withdrawal under a lock-up takes exactly the oldest shares minted for the
   * caller and not yet taken, each of them minted by a call at least the duration earlier.
   */
  lemma WithdrawnSharesAreOldEnough(a: int, b: int, feeRate: nat, creator: Address, start: nat, lockup: nat,
                                    ops: seq<Op>, p: Address, shares: nat, now: nat)
    requires Created(a, b, feeRate, creator, start, lockup).Ok?
    requires AllMeant(ops) && TimesOrdered(start, ops + [Remove(p, shares, now)])
    requires var s := Run(Created(a, b, feeRate, creator, start, lockup).value, ops);
             s.lockup > 0 && Removed(s, shares, p, now).Ok?
    ensures var first := Created(a, b, feeRate, creator, start, lockup).value;
            var s := Run(first, ops);
            var minted, taken := Minted(first, creator, start, ops, p), Taken(first, ops, p);
            && taken + shares <= |minted|
            && forall i | taken <= i < taken + shares :: now >= minted[i] + s.lockup
  {
    var first := Created(a, b, feeRate, creator, start, lockup).value;
    var s := Run(first, ops);
    OrderedWithLast(start, ops, Remove(p, shares, now));
    RecordsAreMintedShares(a, b, feeRate, creator, start, lockup, ops, p);
    RunWithdrawalsRespectLockup(a, b, feeRate, creator, start, lockup, ops, p, shares, now);
    var minted, taken := Minted(first, creator, start, ops, p), Taken(first, ops, p);
    forall i | taken <= i < taken + shares
      ensures i < |minted| && now >= minted[i] + s.lockup
    {
      assert minted[taken..][i - taken] == minted[i];
    }
  }
}
