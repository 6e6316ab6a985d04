// What the lock-up does over whole runs: while it is on, deposit records and positions
// are the same shares, so nobody can overdraw; and a change of its duration reaches back
// to old deposits, which the documentation of the setter does not say.
module LockupRuns {
  import opened Options
  import opened MapSum
  import opened DepositLockup
  import opened LiquidityPool
  import opened PoolRuns

  // ---- Records and positions ---------------------------------------------------------------------

  lemma {:induction false} ConsumeNonNegative(records: seq<DepositRecord>, remaining: int, now: nat, lockup: nat)
    requires NonNegative(records)
    ensures NonNegative(ConsumeUnlocked(records, remaining, now, lockup))
    decreases |records|
  {
    if records != [] {
      var r, rest := records[0], records[1..];
      var next := if remaining <= 0 || !Unlocked(r, now, lockup) then remaining
                  else if r.shares <= remaining then remaining - r.shares else 0;
      ConsumeNonNegative(rest, next, now, lockup);
    }
  }

  lemma TotalCons(r: DepositRecord, rest: seq<DepositRecord>)
    ensures Total([r] + rest) == r.shares + Total(rest)
  {
    assert ([r] + rest)[1..] == rest;
  }

  /** The second pass takes exactly the shares it is asked for. */
  lemma {:induction false} ConsumeTotal(records: seq<DepositRecord>, remaining: nat, now: nat, lockup: nat)
    requires NonNegative(records) && remaining <= Total(UnlockedOf(records, now, lockup))
    ensures Total(ConsumeUnlocked(records, remaining, now, lockup)) == Total(records) - remaining
    decreases |records|
  {
    if remaining == 0 {
      NothingToConsume(records, 0, now, lockup);
    } else if records != [] {
      var r, rest := records[0], records[1..];
      UnlockedHead(records, now, lockup);
      UnlockedNonNegative(rest, now, lockup);
      if !Unlocked(r, now, lockup) {
        ConsumeTotal(rest, remaining, now, lockup);
        TotalCons(r, ConsumeUnlocked(rest, remaining, now, lockup));
      } else if r.shares <= remaining {
        ConsumeTotal(rest, remaining - r.shares, now, lockup);
      } else {
        NothingToConsume(rest, 0, now, lockup);
        TotalCons(r.(shares := r.shares - remaining), rest);
      }
    }
  }

  lemma {:induction false} TotalAppend(records: seq<DepositRecord>, r: DepositRecord)
    ensures Total(records + [r]) == Total(records) + r.shares
    decreases |records|
  {
    if records == [] {
      assert [r][1..] == [];
    } else {
      assert (records + [r])[1..] == records[1..] + [r];
      TotalAppend(records[1..], r);
    }
  }

  /** The deposit records of a provider hold exactly the shares of its position. */
  ghost predicate Matched(s: State, a: Address) {
    NonNegative(RecordsOf(s, a)) && Total(RecordsOf(s, a)) == Get(s.positions, a)
  }

  ghost predicate LockedUp(s: State) {
    s.lockup > 0 && forall a :: Matched(s, a)
  }

  lemma AddMatched(s: State, op: Op)
    requires Healthy(s) && Meant(op) && op.Add? && Matched(s, op.provider)
    ensures Matched(Step(s, op), op.provider)
  {
    if Added(s, op.amountA, op.amountB, op.provider, op.now).Ok? {
      AddStep(s, op.amountA, op.amountB, op.provider, op.now);
      var shares := Added(s, op.amountA, op.amountB, op.provider, op.now).value.1;
      TotalAppend(RecordsOf(s, op.provider), DepositRecord(shares, op.now));
    }
  }

  lemma RemoveMatched(s: State, op: Op)
    requires Meant(op) && op.Remove? && s.lockup > 0 && Matched(s, op.provider)
    ensures Matched(Step(s, op), op.provider) && Overdraft(s, op) == 0
  {
    if Removed(s, op.shares, op.provider, op.now).Ok? {
      var records := RecordsOf(s, op.provider);
      CountDecides(records, 0, op.shares, op.now, s.lockup);
      UnlockedAtMostTotal(records, op.now, s.lockup);
      ConsumeTotal(records, op.shares, op.now, s.lockup);
      ConsumeNonNegative(records, op.shares, op.now, s.lockup);
      assert Get(s.positions, op.provider) >= op.shares;
    }
  }

  ghost predicate StaysOn(op: Op) {
    op.SetLockup? ==> op.seconds > 0
  }

  /** While the lock-up is on, every call keeps records and positions the same, and none overdraws. */
  lemma StepKeepsMatch(s: State, op: Op)
    requires Healthy(s) && Meant(op) && LockedUp(s) && StaysOn(op)
    ensures LockedUp(Step(s, op)) && Overdraft(s, op) == 0
  {
    if op.Add? {
      AddMatched(s, op);
    } else if op.Remove? {
      RemoveMatched(s, op);
    }
    var t := Step(s, op);
    forall a
      ensures Matched(t, a)
    {
      assert Matched(s, a);
      if op.SetLockup? || a != op.provider {
        assert RecordsOf(t, a) == RecordsOf(s, a) && Get(t.positions, a) == Get(s.positions, a);
      }
    }
  }

  lemma CreatedIsMatched(a: int, b: int, feeRate: nat, creator: Address, now: nat, lockup: nat)
    requires Created(a, b, feeRate, creator, now, lockup).Ok? && lockup > 0
    ensures LockedUp(Created(a, b, feeRate, creator, now, lockup).value)
  {
    var s := Created(a, b, feeRate, creator, now, lockup).value;
    CreatedIsHealthy(a, b, feeRate, creator, now, lockup);
    forall p
      ensures Matched(s, p)
    {
      if p == creator {
        TotalAppend([], s.records[p][0]);
        assert [] + [s.records[p][0]] == s.records[p];
      }
    }
  }

  lemma {:induction false} RunKeepsMatch(s: State, ops: seq<Op>)
    requires Healthy(s) && AllMeant(ops) && LockedUp(s) && forall i | 0 <= i < |ops| :: StaysOn(ops[i])
    ensures LockedUp(Run(s, ops)) && Overdrafts(s, ops) == 0
    decreases |ops|
  {
    if ops != [] {
      var earlier, last := ops[..|ops| - 1], ops[|ops| - 1];
      RunKeepsMatch(s, earlier);
      RunKeepsHealth(s, earlier);
      StepKeepsMatch(Run(s, earlier), last);
    }
  }

  /**
   * A lock-up that is never switched off means that nobody ever overdraws: in every state the positions
   * add up to the shares of the pool, and each is the total of its provider's deposit records.
   */
  lemma LockedPoolNeverOverdrawn(a: int, b: int, feeRate: nat, creator: Address, now: nat, lockup: nat, ops: seq<Op>)
    requires Created(a, b, feeRate, creator, now, lockup).Ok? && lockup > 0 && AllMeant(ops)
    requires forall i | 0 <= i < |ops| :: StaysOn(ops[i])
    ensures var s := Created(a, b, feeRate, creator, now, lockup).value;
            && Overdrafts(s, ops) == 0 && Run(s, ops).pool.Some?
            && Sum(Run(s, ops).positions) == Run(s, ops).pool.value.totalShares
            && forall p :: Total(RecordsOf(Run(s, ops), p)) == Get(Run(s, ops).positions, p)
  {
    var s := Created(a, b, feeRate, creator, now, lockup).value;
    CreatedIsHealthy(a, b, feeRate, creator, now, lockup);
    CreatedIsMatched(a, b, feeRate, creator, now, lockup);
    RunKeepsMatch(s, ops);
    PositionsAddUp(a, b, feeRate, creator, now, lockup, ops);
    forall p
      ensures Total(RecordsOf(Run(s, ops), p)) == Get(Run(s, ops).positions, p)
    {
      assert Matched(Run(s, ops), p);
    }
  }

  /** Without a lock-up an address that never deposited withdraws almost the whole pool. */
  lemma StrangerCanOverdraw()
    ensures Created(1_000_000, 1_000_000, 30, 1, 0, 0).Ok?
    ensures var s := Created(1_000_000, 1_000_000, 30, 1, 0, 0).value;
            var op := Remove(2, 999_000, 5);
            && s.pool.value == Pool(1_000_000, 1_000_000, 1_000_000)
            && Removed(s, 999_000, 2, 5).Ok? && Removed(s, 999_000, 2, 5).value.1 == (999_000, 999_000)
            && Overdraft(s, op) == 999_000
            && Get(Step(s, op).positions, 1) == 1_000_000 && Step(s, op).pool.value.totalShares == 1_000
  {
    CreatedIsHealthy(1_000_000, 1_000_000, 30, 1, 0, 0);
  }

  // ---- A lock-up switched on again ---------------------------------------------------------------

  /** The deposit records of a provider hold no more shares than its position. */
  ghost predicate Covered(s: State, a: Address) {
    NonNegative(RecordsOf(s, a)) && Total(RecordsOf(s, a)) <= Get(s.positions, a)
  }

  ghost predicate AllCovered(s: State) {
    s.lockup > 0 && forall a :: Covered(s, a)
  }

  lemma CallerStaysCovered(s: State, op: Op)
    requires Healthy(s) && Meant(op) && !op.SetLockup? && s.lockup > 0 && Covered(s, op.provider)
    ensures Covered(Step(s, op), op.provider) && Overdraft(s, op) == 0
  {
    var records := RecordsOf(s, op.provider);
    UnlockedAtMostTotal(records, op.now, s.lockup);
    UnlockedNonNegative(records, op.now, s.lockup);
    if op.Add? && Added(s, op.amountA, op.amountB, op.provider, op.now).Ok? {
      AddStep(s, op.amountA, op.amountB, op.provider, op.now);
      var shares := Added(s, op.amountA, op.amountB, op.provider, op.now).value.1;
      TotalAppend(records, DepositRecord(shares, op.now));
    }
    if op.Remove? && Removed(s, op.shares, op.provider, op.now).Ok? {
      CountDecides(records, 0, op.shares, op.now, s.lockup);
      ConsumeTotal(records, op.shares, op.now, s.lockup);
      ConsumeNonNegative(records, op.shares, op.now, s.lockup);
    }
  }

  lemma StepStaysCovered(s: State, op: Op)
    requires Healthy(s) && Meant(op) && AllCovered(s) && StaysOn(op)
    ensures AllCovered(Step(s, op)) && Overdraft(s, op) == 0
  {
    if !op.SetLockup? {
      CallerStaysCovered(s, op);
    }
    var t := Step(s, op);
    forall a
      ensures Covered(t, a)
    {
      assert Covered(s, a);
      if op.SetLockup? || a != op.provider {
        assert RecordsOf(t, a) == RecordsOf(s, a) && Get(t.positions, a) == Get(s.positions, a);
      }
    }
  }

  /** From any state, reached with the lock-up on or off, in which positions cover the records nobody overdraws. */
  lemma {:induction false} CoveredPoolNeverOverdrawn(s: State, ops: seq<Op>)
    requires Healthy(s) && AllMeant(ops) && AllCovered(s) && forall i | 0 <= i < |ops| :: StaysOn(ops[i])
    ensures AllCovered(Run(s, ops)) && Overdrafts(s, ops) == 0
    decreases |ops|
  {
    if ops != [] {
      var earlier, last := ops[..|ops| - 1], ops[|ops| - 1];
      CoveredPoolNeverOverdrawn(s, earlier);
      RunKeepsHealth(s, earlier);
      StepStaysCovered(Run(s, earlier), last);
    }
  }

  /** A time at which every record is unlocked. */
  function AllFree(records: seq<DepositRecord>, lockup: nat): (now: nat)
    ensures forall i | 0 <= i < |records| :: Unlocked(records[i], now, lockup)
  {
    if records == [] then 0
    else
      var t, rest := records[0].depositedAt + lockup, AllFree(records[1..], lockup);
      assert forall i | 1 <= i < |records| :: records[i] == records[1..][i - 1];
      if t >= rest then t else rest
  }

  lemma {:induction false} AllUnlocked(records: seq<DepositRecord>, now: nat, lockup: nat)
    requires forall i | 0 <= i < |records| :: Unlocked(records[i], now, lockup)
    ensures UnlockedOf(records, now, lockup) == records
    decreases |records|
  {
    if records != [] {
      AllUnlocked(records[1..], now, lockup);
    }
  }

  /** The guard can let a provider withdraw more than it holds exactly when its records exceed its position. */
  lemma GuardAllowsOverdraftIff(records: seq<DepositRecord>, held: int, lockup: nat)
    requires NonNegative(records) && lockup > 0 && held >= 0
    ensures (exists shares: nat, now: nat :: Guarded(records, shares, now, lockup).Some? && shares > held)
       <==> Total(records) > held
  {
    forall shares: nat, now: nat
      ensures Guarded(records, shares, now, lockup).Some? ==> shares <= Total(records)
    {
      CountDecides(records, 0, shares, now, lockup);
      UnlockedAtMostTotal(records, now, lockup);
    }
    if Total(records) > held {
      var now := AllFree(records, lockup);
      AllUnlocked(records, now, lockup);
      var shares: nat := Total(records);
      CountDecides(records, 0, shares, now, lockup);
      assert Guarded(records, shares, now, lockup).Some?;
    }
  }

  /** What the pool of the next lemma has gone through. */
  function OffAndOn(): seq<Op> {
    [Add(2, 1_000_000, 1_000_000, 1), Remove(2, 1_000_000, 2), SetLockup(5, 3)]
  }

  function NewPool(): State {
    State(Some(Pool(1_000_000, 1_000_000, 1_000_000)), map[1 := 1_000_000], map[1 := [DepositRecord(1_000_000, 0)]], 0)
  }

  function AfterDeposit(): State {
    State(Some(Pool(2_000_000, 2_000_000, 2_000_000)), map[1 := 1_000_000, 2 := 1_000_000],
          map[1 := [DepositRecord(1_000_000, 0)], 2 := [DepositRecord(1_000_000, 1)]], 0)
  }

  /** The state after those three calls: provider 2 has a record and no position. */
  function OffAndOnState(): State {
    State(Some(Pool(1_000_000, 1_000_000, 1_000_000)), map[1 := 1_000_000],
          map[1 := [DepositRecord(1_000_000, 0)], 2 := [DepositRecord(1_000_000, 1)]], 5)
  }

  lemma NewPoolCreated()
    ensures Created(1_000_000, 1_000_000, 30, 1, 0, 0) == Ok(NewPool())
  {
    CreatedIsHealthy(1_000_000, 1_000_000, 30, 1, 0, 0);
  }

  lemma DepositMade()
    ensures Step(NewPool(), Add(2, 1_000_000, 1_000_000, 1)) == AfterDeposit()
  {
    var s := NewPool();
    assert SharesToMint(s.pool.value, 1_000_000, 1_000_000) == Ok(1_000_000);
    assert s.positions[2 := 1_000_000] == AfterDeposit().positions;
    var none: seq<DepositRecord> := [];
    assert none + [DepositRecord(1_000_000, 1)] == [DepositRecord(1_000_000, 1)];
    assert s.records[2 := [DepositRecord(1_000_000, 1)]] == AfterDeposit().records;
  }

  lemma DepositTakenBack()
    ensures Step(AfterDeposit(), Remove(2, 1_000_000, 2)) == OffAndOnState().(lockup := 0)
  {
    var s := AfterDeposit();
    assert AmountsFor(s.pool.value, 1_000_000) == Ok((1_000_000, 1_000_000));
    assert Reduced(s.positions, 2, 1_000_000) == map[1 := 1_000_000];
  }

  lemma OffAndOnRun()
    ensures Created(1_000_000, 1_000_000, 30, 1, 0, 0).Ok?
    ensures Run(Created(1_000_000, 1_000_000, 30, 1, 0, 0).value, OffAndOn()) == OffAndOnState()
  {
    NewPoolCreated();
    DepositMade();
    DepositTakenBack();
    ThreeSteps(NewPool(), OffAndOn()[0], OffAndOn()[1], OffAndOn()[2]);
  }

  lemma ThreeSteps(s: State, a: Op, b: Op, c: Op)
    ensures Run(s, [a, b, c]) == Step(Step(Step(s, a), b), c)
  {
    assert [a, b, c][..2] == [a, b] && [a, b][..1] == [a] && [a][..0] == [];
    assert Run(s, [a]) == Step(s, a);
    assert Run(s, [a, b]) == Step(Step(s, a), b);
  }

  /** A lock-up switched on after a withdrawal: a provider without a position withdraws once more. */
  lemma ReenabledLockupCanOverdraw()
    ensures Created(1_000_000, 1_000_000, 30, 1, 0, 0).Ok?
    ensures Run(Created(1_000_000, 1_000_000, 30, 1, 0, 0).value, OffAndOn()) == OffAndOnState()
    ensures var s, op := OffAndOnState(), Remove(2, 500_000, 10);
            && Removed(s, 500_000, 2, 10).Ok? && Overdraft(s, op) == 500_000 && !Covered(s, 2)
  {
    OffAndOnRun();
    var s, op := OffAndOnState(), Remove(2, 500_000, 10);
    assert RecordsOf(s, 2) == [DepositRecord(1_000_000, 1)];
    assert Guarded(RecordsOf(s, 2), 500_000, 10, 5).Some?;
    TotalAppend([], DepositRecord(1_000_000, 1));
    assert [] + [DepositRecord(1_000_000, 1)] == RecordsOf(s, 2);
  }

  // ---- The duration in force at each deposit -----------------------------------------------------

  /** A deposit record and the lock-up that was in force when it was made. */
  datatype Deposit = Deposit(record: DepositRecord, lockup: nat)

  function RecordsIn(ds: seq<Deposit>): (r: seq<DepositRecord>)
    ensures |r| == |ds| && forall i | 0 <= i < |ds| :: r[i] == ds[i].record
  {
    seq(|ds|, i requires 0 <= i < |ds| => ds[i].record)
  }

  /** The documented rule: a deposit is locked for the duration it was made under. */
  predicate OwnUnlocked(d: Deposit, now: nat) {
    Unlocked(d.record, now, d.lockup)
  }

  function OwnTotal(ds: seq<Deposit>, now: nat): int {
    if ds == [] then 0
    else (if OwnUnlocked(ds[0], now) then ds[0].record.shares else 0) + OwnTotal(ds[1..], now)
  }

  /** What a pass leaves of one record, open to it or not. */
  function HeadLeft(r: DepositRecord, open: bool, remaining: int): seq<DepositRecord> {
    if remaining <= 0 || !open then [r]
    else if r.shares <= remaining then []
    else [r.(shares := r.shares - remaining)]
  }

  /** What a pass has still to consume after one record. */
  function StillWanted(r: DepositRecord, open: bool, remaining: int): int {
    if remaining <= 0 || !open then remaining else if r.shares <= remaining then remaining - r.shares else 0
  }

  function OwnConsume(ds: seq<Deposit>, remaining: int, now: nat): seq<DepositRecord>
    decreases |ds|
  {
    if ds == [] then []
    else
      var r, open := ds[0].record, OwnUnlocked(ds[0], now);
      HeadLeft(r, open, remaining) + OwnConsume(ds[1..], StillWanted(r, open, remaining), now)
  }

  /**
   * A withdrawal under the documented rule, with `lockup` now configured; None is a refusal. A duration of
   * zero disables enforcement entirely.
   */
  function Documented(ds: seq<Deposit>, shares: int, now: nat, lockup: nat): Option<seq<DepositRecord>> {
    if lockup == 0 then Some(RecordsIn(ds))
    else if OwnTotal(ds, now) < shares then None
    else Some(OwnConsume(ds, shares, now))
  }

  /** The records that still hold shares. */
  function Filled(records: seq<DepositRecord>): seq<DepositRecord> {
    if records == [] then []
    else (if records[0].shares != 0 then [records[0]] else []) + Filled(records[1..])
  }

  /** The guard of a withdrawal refuses and consumes as the documented rule does. */
  ghost predicate AgreesAt(ds: seq<Deposit>, lockup: nat, shares: nat, now: nat) {
    var code, own := Guarded(RecordsIn(ds), shares, now, lockup), Documented(ds, shares, now, lockup);
    code.None? == own.None? && (code.Some? ==> Filled(code.value) == Filled(own.value))
  }

  ghost predicate Agrees(ds: seq<Deposit>, lockup: nat) {
    forall shares: nat, now: nat :: AgreesAt(ds, lockup, shares, now)
  }

  /** Every deposit with shares was made under the current duration. */
  ghost predicate AllCurrent(ds: seq<Deposit>, lockup: nat) {
    forall i | 0 <= i < |ds| && ds[i].record.shares > 0 :: ds[i].lockup == lockup
  }

  lemma RecordsTail(ds: seq<Deposit>)
    requires ds != []
    ensures RecordsIn(ds)[1..] == RecordsIn(ds[1..])
  {
  }

  lemma ConsumeHead(records: seq<DepositRecord>, remaining: int, now: nat, lockup: nat)
    requires records != []
    ensures var r, open := records[0], Unlocked(records[0], now, lockup);
            ConsumeUnlocked(records, remaining, now, lockup)
              == HeadLeft(r, open, remaining)
                  + ConsumeUnlocked(records[1..], StillWanted(r, open, remaining), now, lockup)
  {
  }

  lemma FilledHead(r: DepositRecord, open: bool, remaining: int, rest: seq<DepositRecord>)
    ensures Filled(HeadLeft(r, open, remaining) + rest) == Filled(HeadLeft(r, open, remaining)) + Filled(rest)
    ensures r.shares == 0 ==> Filled(HeadLeft(r, open, remaining)) == [] && StillWanted(r, open, remaining) == remaining
  {
    var head := HeadLeft(r, open, remaining);
    if head != [] {
      assert (head + rest)[1..] == rest && head[1..] == [];
    } else {
      assert head + rest == rest;
    }
  }

  lemma {:induction false} CurrentTotals(ds: seq<Deposit>, lockup: nat, now: nat)
    requires NonNegative(RecordsIn(ds)) && AllCurrent(ds, lockup)
    ensures Total(UnlockedOf(RecordsIn(ds), now, lockup)) == OwnTotal(ds, now)
    decreases |ds|
  {
    if ds != [] {
      RecordsTail(ds);
      UnlockedHead(RecordsIn(ds), now, lockup);
      CurrentTotals(ds[1..], lockup, now);
    }
  }

  lemma {:induction false} CurrentAgrees(ds: seq<Deposit>, lockup: nat, remaining: int, now: nat)
    requires NonNegative(RecordsIn(ds)) && AllCurrent(ds, lockup)
    ensures Filled(ConsumeUnlocked(RecordsIn(ds), remaining, now, lockup)) == Filled(OwnConsume(ds, remaining, now))
    decreases |ds|
  {
    if ds != [] {
      var r, rest := ds[0].record, ds[1..];
      var open, own := Unlocked(r, now, lockup), OwnUnlocked(ds[0], now);
      RecordsTail(ds);
      ConsumeHead(RecordsIn(ds), remaining, now, lockup);
      FilledHead(r, open, remaining, ConsumeUnlocked(RecordsIn(rest), StillWanted(r, open, remaining), now, lockup));
      FilledHead(r, own, remaining, OwnConsume(rest, StillWanted(r, own, remaining), now));
      CurrentAgrees(rest, lockup, StillWanted(r, open, remaining), now);
    }
  }

  /** Consuming all that is unlocked leaves no unlocked shares. */
  lemma {:induction false} NothingUnlockedLeft(records: seq<DepositRecord>, remaining: int, now: nat, lockup: nat,
                                               r: DepositRecord)
    requires NonNegative(records) && remaining >= Total(UnlockedOf(records, now, lockup))
    requires r in ConsumeUnlocked(records, remaining, now, lockup) && r.shares > 0
    ensures !Unlocked(r, now, lockup)
    decreases |records|
  {
    var first, rest := records[0], records[1..];
    UnlockedHead(records, now, lockup);
    UnlockedNonNegative(rest, now, lockup);
    if r in ConsumeUnlocked(rest, remaining, now, lockup) && (remaining <= 0 || !Unlocked(first, now, lockup)) {
      NothingUnlockedLeft(rest, remaining, now, lockup, r);
    } else if remaining > 0 && Unlocked(first, now, lockup) {
      NothingUnlockedLeft(rest, remaining - first.shares, now, lockup, r);
    }
  }

  /** A deposit that the documented rule holds locked is kept as it is. */
  lemma {:induction false} OwnLockedKept(ds: seq<Deposit>, remaining: int, now: nat, k: nat)
    requires k < |ds| && !OwnUnlocked(ds[k], now)
    ensures ds[k].record in OwnConsume(ds, remaining, now)
    decreases |ds|
  {
    if k > 0 {
      OwnLockedKept(ds[1..], StillWanted(ds[0].record, OwnUnlocked(ds[0], now), remaining), now, k - 1);
    }
  }

  lemma {:induction false} FilledMember(records: seq<DepositRecord>, r: DepositRecord)
    requires r.shares != 0
    ensures r in Filled(records) <==> r in records
    decreases |records|
  {
    if records != [] {
      assert records == [records[0]] + records[1..];
      FilledMember(records[1..], r);
    }
  }

  /** Taking all that is unlocked, the guard lets go of every record it has unlocked. */
  lemma GuardReleases(records: seq<DepositRecord>, shares: nat, now: nat, lockup: nat, r: DepositRecord)
    requires NonNegative(records) && lockup > 0 && shares == Total(UnlockedOf(records, now, lockup))
    requires r.shares > 0 && Unlocked(r, now, lockup)
    ensures Guarded(records, shares, now, lockup).Some?
    ensures r !in Filled(Guarded(records, shares, now, lockup).value)
  {
    CountDecides(records, 0, shares, now, lockup);
    var left := ConsumeUnlocked(records, shares, now, lockup);
    FilledMember(left, r);
    if r in left {
      NothingUnlockedLeft(records, shares, now, lockup, r);
    }
  }

  /** The documented rule, if it accepts at all, keeps every deposit it holds locked. */
  lemma DocumentedKeeps(ds: seq<Deposit>, shares: nat, now: nat, lockup: nat, k: nat)
    requires k < |ds| && ds[k].record.shares > 0 && !OwnUnlocked(ds[k], now) && lockup > 0
    ensures Documented(ds, shares, now, lockup).Some? ==>
              ds[k].record in Filled(Documented(ds, shares, now, lockup).value)
  {
    OwnLockedKept(ds, shares, now, k);
    FilledMember(OwnConsume(ds, shares, now), ds[k].record);
  }

  /** A deposit made under a longer duration: the current one lets it go while the documented rule keeps it. */
  lemma LongerDisagrees(ds: seq<Deposit>, lockup: nat, k: nat)
    requires NonNegative(RecordsIn(ds)) && k < |ds| && ds[k].record.shares > 0 && ds[k].lockup > lockup > 0
    ensures !Agrees(ds, lockup)
  {
    var records, r := RecordsIn(ds), ds[k].record;
    var now := r.depositedAt + lockup;
    UnlockedNonNegative(records, now, lockup);
    var shares: nat := Total(UnlockedOf(records, now, lockup));
    GuardReleases(records, shares, now, lockup, r);
    DocumentedKeeps(ds, shares, now, lockup, k);
    assert !AgreesAt(ds, lockup, shares, now);
  }

  /** If no duration is longer than the current one, the documented rule unlocks at least as much. */
  lemma {:induction false} OwnUnlocksMore(ds: seq<Deposit>, lockup: nat, now: nat)
    requires NonNegative(RecordsIn(ds)) && forall i | 0 <= i < |ds| && ds[i].record.shares > 0 :: ds[i].lockup <= lockup
    ensures Total(UnlockedOf(RecordsIn(ds), now, lockup)) <= OwnTotal(ds, now)
    ensures forall k | 0 <= k < |ds| && ds[k].record.shares > 0 && OwnUnlocked(ds[k], now)
        && !Unlocked(ds[k].record, now, lockup) ::
              Total(UnlockedOf(RecordsIn(ds), now, lockup)) < OwnTotal(ds, now)
    decreases |ds|
  {
    if ds != [] {
      RecordsTail(ds);
      UnlockedHead(RecordsIn(ds), now, lockup);
      var rest := ds[1..];
      assert RecordsIn(ds)[0] == ds[0].record;
      OwnUnlocksMore(rest, lockup, now);
      forall k | 0 <= k < |ds| && ds[k].record.shares > 0 && OwnUnlocked(ds[k], now)
          && !Unlocked(ds[k].record, now, lockup)
        ensures Total(UnlockedOf(RecordsIn(ds), now, lockup)) < OwnTotal(ds, now)
      {
        if k > 0 {
          assert rest[k - 1] == ds[k];
        }
      }
    }
  }

  lemma ShorterDisagrees(ds: seq<Deposit>, lockup: nat, k: nat)
    requires NonNegative(RecordsIn(ds)) && forall i | 0 <= i < |ds| && ds[i].record.shares > 0 :: ds[i].lockup <= lockup
    requires k < |ds| && ds[k].record.shares > 0 && ds[k].lockup < lockup
    ensures !Agrees(ds, lockup)
  {
    var now := ds[k].record.depositedAt + ds[k].lockup;
    OwnUnlocksMore(ds, lockup, now);
    UnlockedNonNegative(RecordsIn(ds), now, lockup);
    var shares: nat := OwnTotal(ds, now);
    CountDecides(RecordsIn(ds), 0, shares, now, lockup);
    assert !AgreesAt(ds, lockup, shares, now);
  }

  /**
   * The guard agrees with the documented rule, for every amount and time, exactly when it is switched off
   * or every deposit that still holds shares was made under the current duration.
   */
  lemma AgreesIffAllCurrent(ds: seq<Deposit>, lockup: nat)
    requires NonNegative(RecordsIn(ds))
    ensures Agrees(ds, lockup) <==> lockup == 0 || AllCurrent(ds, lockup)
  {
    if lockup == 0 || AllCurrent(ds, lockup) {
      forall shares: nat, now: nat
        ensures AgreesAt(ds, lockup, shares, now)
      {
        if lockup > 0 {
          CurrentTotals(ds, lockup, now);
          CurrentAgrees(ds, lockup, shares, now);
          CountDecides(RecordsIn(ds), 0, shares, now, lockup);
        }
      }
    } else {
      var k :| 0 <= k < |ds| && ds[k].record.shares > 0 && ds[k].lockup != lockup;
      if j :| 0 <= j < |ds| && ds[j].record.shares > 0 && ds[j].lockup > lockup {
        LongerDisagrees(ds, lockup, j);
      } else {
        ShorterDisagrees(ds, lockup, k);
      }
    }
  }

  /** The two guards on the reserves pass. */
  predicate ReservesPass(s: State, shares: int) {
    s.pool.Some? &&
    var amounts := AmountsFor(s.pool.value, shares);
    && amounts.Ok?
    && ReserveError(s.pool.value.reserveA - amounts.value.0).None?
    && ReserveError(s.pool.value.reserveB - amounts.value.1).None?
  }

  /** With the lock-up off, or all deposits current, a call is refused as locked exactly as documented. */
  lemma LockedExactlyAsDocumented(s: State, ds: seq<Deposit>, shares: nat, provider: Address, now: nat)
    requires RecordsIn(ds) == RecordsOf(s, provider) && NonNegative(RecordsIn(ds))
    requires s.lockup == 0 || AllCurrent(ds, s.lockup)
    ensures Removed(s, shares, provider, now) == Err(DepositLocked)
       <==> ReservesPass(s, shares) && Documented(ds, shares, now, s.lockup).None?
  {
    AgreesIffAllCurrent(ds, s.lockup);
    assert AgreesAt(ds, s.lockup, shares, now);
  }

  /** With the lock-up off nothing is refused as locked, and no record is touched. */
  lemma OffNeverLocks(s: State, shares: int, provider: Address, now: nat)
    requires s.lockup == 0
    ensures Removed(s, shares, provider, now) != Err(DepositLocked)
    ensures Removed(s, shares, provider, now).Ok? ==> Removed(s, shares, provider, now).value.0.records == s.records
  {
  }

  /** Shares deposited under a lock-up of 10 are free at time 20, until the duration is raised to 1000. */
  lemma LongerLockupReachesBack()
    ensures var r := DepositRecord(5, 0);
            && Documented([Deposit(r, 10)], 5, 20, 1000).Some?
            && Guarded([r], 5, 20, 10).Some? && Guarded([r], 5, 20, 1000).None?
  {
  }

  // ---- Durations over a run -----------------------------------------------------------------------

  /** What the second pass leaves, with the durations the deposits were made under. */
  function ConsumeDeposits(ds: seq<Deposit>, remaining: int, now: nat, lockup: nat): seq<Deposit>
    decreases |ds|
  {
    if ds == [] then []
    else
      var d, rest := ds[0], ds[1..];
      if remaining <= 0 || !Unlocked(d.record, now, lockup) then [d] + ConsumeDeposits(rest, remaining, now, lockup)
      else if d.record.shares <= remaining then ConsumeDeposits(rest, remaining - d.record.shares, now, lockup)
      else [d.(record := d.record.(shares := d.record.shares - remaining))] + ConsumeDeposits(rest, 0, now, lockup)
  }

  lemma {:induction false} ConsumedRecords(ds: seq<Deposit>, remaining: int, now: nat, lockup: nat)
    ensures RecordsIn(ConsumeDeposits(ds, remaining, now, lockup))
        == ConsumeUnlocked(RecordsIn(ds), remaining, now, lockup)
    decreases |ds|
  {
    if ds != [] {
      var r := ds[0].record;
      RecordsTail(ds);
      assert RecordsIn(ds)[0] == r;
      var next := if remaining <= 0 || !Unlocked(r, now, lockup) then remaining
                  else if r.shares <= remaining then remaining - r.shares else 0;
      ConsumedRecords(ds[1..], next, now, lockup);
    }
  }

  /** The deposits of a provider after one call. */
  function DepositsAfter(s: State, ds: seq<Deposit>, op: Op, provider: Address): seq<Deposit> {
    match op
    case Add(p, a, b, now) =>
      if p == provider && Added(s, a, b, p, now).Ok?
      then ds + [Deposit(DepositRecord(Added(s, a, b, p, now).value.1, now), s.lockup)]
      else ds
    case Remove(p, shares, now) =>
      if p == provider && s.lockup > 0 && Removed(s, shares, p, now).Ok?
      then ConsumeDeposits(ds, shares, now, s.lockup)
      else ds
    case SetLockup(_, _) => ds
  }

  function DepositsOf(s: State, start: seq<Deposit>, ops: seq<Op>, provider: Address): seq<Deposit>
    decreases |ops|
  {
    if ops == [] then start
    else
      var earlier := ops[..|ops| - 1];
      DepositsAfter(Run(s, earlier), DepositsOf(s, start, earlier, provider), ops[|ops| - 1], provider)
  }

  lemma StepTracksDeposits(s: State, ds: seq<Deposit>, op: Op, provider: Address)
    requires RecordsIn(ds) == RecordsOf(s, provider)
    ensures RecordsIn(DepositsAfter(s, ds, op, provider)) == RecordsOf(Step(s, op), provider)
  {
    if op.Remove? {
      ConsumedRecords(ds, op.shares, op.now, s.lockup);
    }
  }

  lemma {:induction false} RunTracksDeposits(s: State, start: seq<Deposit>, ops: seq<Op>, provider: Address)
    requires RecordsIn(start) == RecordsOf(s, provider)
    ensures RecordsIn(DepositsOf(s, start, ops, provider)) == RecordsOf(Run(s, ops), provider)
    decreases |ops|
  {
    if ops != [] {
      var earlier := ops[..|ops| - 1];
      RunTracksDeposits(s, start, earlier, provider);
      StepTracksDeposits(Run(s, earlier), DepositsOf(s, start, earlier, provider), ops[|ops| - 1], provider);
    }
  }

  function FirstDeposits(s: State, provider: Address): seq<Deposit> {
    var records := RecordsOf(s, provider);
    seq(|records|, i requires 0 <= i < |records| => Deposit(records[i], s.lockup))
  }

  /**
   * After every run of a new pool, what a provider may withdraw agrees with the documented rule exactly
   * when the lock-up is off or all its deposits that still hold shares were made under the duration now
   * in force.
   */
  lemma RunAgreesIff(a: int, b: int, feeRate: nat, creator: Address, start: nat, lockup: nat, ops: seq<Op>,
                     provider: Address)
    requires Created(a, b, feeRate, creator, start, lockup).Ok? && AllMeant(ops) && TimesOrdered(start, ops)
    ensures var s := Created(a, b, feeRate, creator, start, lockup).value;
            var ds := DepositsOf(s, FirstDeposits(s, provider), ops, provider);
            && RecordsIn(ds) == RecordsOf(Run(s, ops), provider)
            && (Agrees(ds, Run(s, ops).lockup) <==> Run(s, ops).lockup == 0 || AllCurrent(ds, Run(s, ops).lockup))
  {
    var s := Created(a, b, feeRate, creator, start, lockup).value;
    CreatedIsHealthy(a, b, feeRate, creator, start, lockup);
    RunKeepsRecords(s, start, ops);
    RunTracksDeposits(s, FirstDeposits(s, provider), ops, provider);
    AgreesIffAllCurrent(DepositsOf(s, FirstDeposits(s, provider), ops, provider), Run(s, ops).lockup);
  }

  lemma {:induction false} ConsumeKeepsDurations(ds: seq<Deposit>, remaining: int, now: nat, lockup: nat, d: Deposit)
    requires d in ConsumeDeposits(ds, remaining, now, lockup)
    ensures exists i :: 0 <= i < |ds| && ds[i].lockup == d.lockup
    decreases |ds|
  {
    var r, rest := ds[0].record, ds[1..];
    var next := if remaining <= 0 || !Unlocked(r, now, lockup) then remaining
                else if r.shares <= remaining then remaining - r.shares else 0;
    if d in ConsumeDeposits(rest, next, now, lockup) {
      ConsumeKeepsDurations(rest, next, now, lockup, d);
      var i :| 0 <= i < |rest| && rest[i].lockup == d.lockup;
      assert ds[i + 1].lockup == d.lockup;
    } else {
      assert ds[0].lockup == d.lockup;
    }
  }

  ghost predicate AllUnder(ds: seq<Deposit>, lockup: nat) {
    forall i | 0 <= i < |ds| :: ds[i].lockup == lockup
  }

  lemma StepKeepsDuration(s: State, ds: seq<Deposit>, op: Op, provider: Address)
    requires AllUnder(ds, s.lockup) && (op.SetLockup? ==> op.seconds == s.lockup)
    ensures AllUnder(DepositsAfter(s, ds, op, provider), s.lockup) && Step(s, op).lockup == s.lockup
  {
    var after := DepositsAfter(s, ds, op, provider);
    if op.Remove? {
      forall i | 0 <= i < |after|
        ensures after[i].lockup == s.lockup
      {
        if after != ds {
          assert after[i] in ConsumeDeposits(ds, op.shares, op.now, s.lockup);
          ConsumeKeepsDurations(ds, op.shares, op.now, s.lockup, after[i]);
        }
      }
    }
  }

  /** In a run that never changes the duration, every deposit was made under the current one. */
  lemma {:induction false} UnchangedLockupIsCurrent(s: State, start: seq<Deposit>, ops: seq<Op>, provider: Address)
    requires AllUnder(start, s.lockup) && forall i | 0 <= i < |ops| && ops[i].SetLockup? :: ops[i].seconds == s.lockup
    ensures Run(s, ops).lockup == s.lockup && AllUnder(DepositsOf(s, start, ops, provider), s.lockup)
    decreases |ops|
  {
    if ops != [] {
      var earlier := ops[..|ops| - 1];
      UnchangedLockupIsCurrent(s, start, earlier, provider);
      StepKeepsDuration(Run(s, earlier), DepositsOf(s, start, earlier, provider), ops[|ops| - 1], provider);
    }
  }
}
