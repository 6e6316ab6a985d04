// One liquidity pool: its reserves, its shares, the providers' positions and their
// deposit records, over every run of deposits and withdrawals.
//
// Arithmetic that leaves `i128` and division by zero abort the call in the source;
// here they are the error `Panic`, and as with every error the state stays as it was.
module LiquidityPool {
  import opened Options
  import opened MachineInts
  import opened MapSum
  import opened IntegerSqrt
  import opened DepositLockup

  type Address = nat

  const MAX_FEE_RATE := 1000

  const MIN_POOL_RESERVE := 1_000

  datatype Pool = Pool(reserveA: int, reserveB: int, totalShares: int)

  /** What storage holds for one pool id; `lockup` is the configured duration in seconds. */
  datatype State = State(pool: Option<Pool>, positions: map<Address, int>,
                         records: map<Address, seq<DepositRecord>>, lockup: nat)

  datatype PoolError =
    InvalidAmount | InvalidFeeRate | PoolNotFound | InsufficientLiquidity | DepositLocked | Panic

  function RecordsOf(s: State, provider: Address): seq<DepositRecord> {
    if provider in s.records then s.records[provider] else []
  }

  // ---- The entrypoints as functions of the state ------------------------------------------

  function Created(amountA: int, amountB: int, feeRate: nat, creator: Address, now: nat, lockup: nat)
    : Result<State, PoolError>
  {
    if amountA <= 0 || amountB <= 0 then Err(InvalidAmount)
    else if feeRate > MAX_FEE_RATE then Err(InvalidFeeRate)
    else if amountA * amountB >= I128_MAX then Err(Panic)
    else
      var shares := Sqrt(amountA * amountB);
      Ok(State(Some(Pool(amountA, amountB, shares)), map[creator := shares],
               map[creator := [DepositRecord(shares, now)]], lockup))
  }

  /** The smaller of the two proportional share counts. */
  function SharesToMint(p: Pool, amountA: int, amountB: int): Result<int, PoolError> {
    if p.reserveA == 0 || p.reserveB == 0
       || !IsI128(amountA * p.totalShares) || !IsI128(amountB * p.totalShares) then Err(Panic)
    else
      var fromA := TruncDiv(amountA * p.totalShares, p.reserveA);
      var fromB := TruncDiv(amountB * p.totalShares, p.reserveB);
      if !IsI128(fromA) || !IsI128(fromB) then Err(Panic)
      else Ok(if fromA <= fromB then fromA else fromB)
  }

  function Added(s: State, amountA: int, amountB: int, provider: Address, now: nat): Result<(State, int), PoolError> {
    if s.pool.None? then Err(PoolNotFound)
    else
      var p := s.pool.value;
      match SharesToMint(p, amountA, amountB)
      case Err(e) => Err(e)
      case Ok(shares) =>
        var held := Get(s.positions, provider) + shares;
        if !IsI128(p.reserveA + amountA) || !IsI128(p.reserveB + amountB)
           || !IsI128(p.totalShares + shares) || !IsI128(held) then Err(Panic)
        else Ok((State(Some(Pool(p.reserveA + amountA, p.reserveB + amountB, p.totalShares + shares)),
                       s.positions[provider := held],
                       s.records[provider := RecordsOf(s, provider) + [DepositRecord(shares, now)]],
                       s.lockup), shares))
  }

  /** What `shares` are worth, rounded down. */
  function AmountsFor(p: Pool, shares: int): Result<(int, int), PoolError> {
    if p.totalShares == 0 || !IsI128(shares * p.reserveA) || !IsI128(shares * p.reserveB) then Err(Panic)
    else
      var amountA, amountB := TruncDiv(shares * p.reserveA, p.totalShares),
          TruncDiv(shares * p.reserveB, p.totalShares);
      if !IsI128(amountA) || !IsI128(amountB) then Err(Panic) else Ok((amountA, amountB))
  }

  /** The guard that each reserve keeps its minimum; None is success. */
  function ReserveError(left: int): Option<PoolError> {
    if !IsI128(left) then Some(Panic) else if left < MIN_POOL_RESERVE then Some(InsufficientLiquidity) else None
  }

  function Reduced(positions: map<Address, int>, provider: Address, shares: int): map<Address, int> {
    if provider !in positions then positions
    else if positions[provider] - shares > 0 then positions[provider := positions[provider] - shares]
    else positions - {provider}
  }

  function StoreRecords(records: map<Address, seq<DepositRecord>>, provider: Address, left: seq<DepositRecord>)
    : map<Address, seq<DepositRecord>>
  {
    if left == [] then records - {provider} else records[provider := left]
  }

  /** The lock-up guard: switched off at duration zero, where it neither refuses nor consumes. */
  function Guarded(records: seq<DepositRecord>, shares: int, now: nat, lockup: nat): Option<seq<DepositRecord>> {
    if lockup == 0 then Some(records) else Withdrawn(records, shares, now, lockup)
  }

  function Removed(s: State, shares: int, provider: Address, now: nat): Result<(State, (int, int)), PoolError> {
    if s.pool.None? then Err(PoolNotFound)
    else
      var p := s.pool.value;
      match AmountsFor(p, shares)
      case Err(e) => Err(e)
      case Ok((amountA, amountB)) =>
        var leftA, leftB, total := p.reserveA - amountA, p.reserveB - amountB, p.totalShares - shares;
        if ReserveError(leftA).Some? then Err(ReserveError(leftA).value)
        else if ReserveError(leftB).Some? then Err(ReserveError(leftB).value)
        else
          var left := Guarded(RecordsOf(s, provider), shares, now, s.lockup);
          if left.None? then Err(DepositLocked)
          else if !IsI128(total) || (provider in s.positions && !IsI128(s.positions[provider] - shares)) then Err(Panic)
          else Ok((State(Some(Pool(leftA, leftB, total)),
                         Reduced(s.positions, provider, shares),
                         if s.lockup == 0 then s.records else StoreRecords(s.records, provider, left.value),
                         s.lockup), (amountA, amountB)))
  }

  // ---- The contract ------------------------------------------------------------------------

  class PoolManager {
    var pool: Option<Pool>
    var positions: map<Address, int>
    var records: map<Address, seq<DepositRecord>>
    var lockup: nat

    function Value(): State
      reads this
    {
      State(pool, positions, records, lockup)
    }

    constructor (lockup: nat)
      ensures Value() == State(None, map[], map[], lockup)
    {
      pool := None;
      positions := map[];
      records := map[];
      this.lockup := lockup;
    }

    method SetLockupDuration(seconds: nat)
      modifies this
      ensures Value() == old(Value()).(lockup := seconds)
    {
      lockup := seconds;
    }

    method CreatePool(amountA: int, amountB: int, feeRate: nat, creator: Address, now: nat)
      returns (r: Result<int, PoolError>)
      requires Value() == State(None, map[], map[], lockup)
      modifies this
      ensures match Created(amountA, amountB, feeRate, creator, now, old(lockup))
              case Err(e) => r == Err(e) && Value() == old(Value())
              case Ok(s) => r == Ok(s.pool.value.totalShares) && Value() == s
    {
      if amountA <= 0 || amountB <= 0 {
        return Err(InvalidAmount);
      }
      if feeRate > MAX_FEE_RATE {
        return Err(InvalidFeeRate);
      }
      if amountA * amountB >= I128_MAX {
        return Err(Panic);
      }
      var shares := BabylonianSqrt(amountA * amountB);
      assert map[][creator := shares] == map[creator := shares];
      assert [] + [DepositRecord(shares, now)] == [DepositRecord(shares, now)];
      pool := Some(Pool(amountA, amountB, shares));
      positions := positions[creator := shares];
      PushDepositRecord(creator, shares, now);
      return Ok(shares);
    }

    method PushDepositRecord(provider: Address, shares: int, now: nat)
      modifies this`records
      ensures records == old(records)[provider := RecordsOf(old(Value()), provider) + [DepositRecord(shares, now)]]
    {
      var list := if provider in records then records[provider] else [];
      list := list + [DepositRecord(shares, now)];
      records := records[provider := list];
    }

    method AddLiquidity(amountA: int, amountB: int, provider: Address, now: nat) returns (r: Result<int, PoolError>)
      modifies this
      ensures match Added(old(Value()), amountA, amountB, provider, now)
              case Err(e) => r == Err(e) && Value() == old(Value())
              case Ok((s, shares)) => r == Ok(shares) && Value() == s
    {
      if pool.None? {
        return Err(PoolNotFound);
      }
      var p := pool.value;
      var minted := SharesToMint(p, amountA, amountB);
      if minted.Err? {
        return Err(minted.error);
      }
      var shares := minted.value;
      var held := (if provider in positions then positions[provider] else 0) + shares;
      if !IsI128(p.reserveA + amountA) || !IsI128(p.reserveB + amountB)
         || !IsI128(p.totalShares + shares) || !IsI128(held) {
        return Err(Panic);
      }
      pool := Some(Pool(p.reserveA + amountA, p.reserveB + amountB, p.totalShares + shares));
      positions := positions[provider := held];
      PushDepositRecord(provider, shares, now);
      return Ok(shares);
    }

    method RemoveLiquidity(shares: int, provider: Address, now: nat) returns (r: Result<(int, int), PoolError>)
      modifies this
      ensures match Removed(old(Value()), shares, provider, now)
              case Err(e) => r == Err(e) && Value() == old(Value())
              case Ok((s, amounts)) => r == Ok(amounts) && Value() == s
    {
      if pool.None? {
        return Err(PoolNotFound);
      }
      var p := pool.value;
      var amounts := AmountsFor(p, shares);
      if amounts.Err? {
        return Err(amounts.error);
      }
      var (amountA, amountB) := amounts.value;
      var guard := ReserveError(p.reserveA - amountA);
      if guard.Some? {
        return Err(guard.value);
      }
      guard := ReserveError(p.reserveB - amountB);
      if guard.Some? {
        return Err(guard.value);
      }
      var left := Some(if provider in records then records[provider] else []);
      if lockup > 0 {
        left := WithdrawFifo(left.value, shares, now, lockup);
        if left.None? {
          return Err(DepositLocked);
        }
      }
      if !IsI128(p.totalShares - shares) || (provider in positions && !IsI128(positions[provider] - shares)) {
        return Err(Panic);
      }
      if lockup > 0 {
        records := if left.value == [] then records - {provider} else records[provider := left.value];
      }
      pool := Some(Pool(p.reserveA - amountA, p.reserveB - amountB, p.totalShares - shares));
      ReducePosition(provider, shares);
      return Ok((amountA, amountB));
    }

    method ReducePosition(provider: Address, shares: int)
      modifies this`positions
      ensures positions == Reduced(old(positions), provider, shares)
    {
      if provider in positions {
        var left := positions[provider] - shares;
        if left > 0 {
          positions := positions[provider := left];
        } else {
          positions := positions - {provider};
        }
      }
    }
  }
}
