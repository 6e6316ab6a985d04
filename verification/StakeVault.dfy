// The stake vault: stake delegated per provider, a cached total, a limit on any provider's
// share of the total, and the events that let an indexer rebuild the balances.
//
// A call that aborts (a missing signature, an absent admin, unchecked arithmetic outside
// `i128`) is the error `Aborted`; as with every error the state stays as it was.
module StakeVault {
  import opened Options
  import opened MachineInts
  import opened MapSum

  const FULL_SHARE := 10_000

  datatype Address = ZeroAccount | ZeroContract | ThisVault | Other(id: nat)

  datatype VaultError =
    | NotAdmin | ConcentrationLimitExceeded | InvalidAmount | InsufficientStake | InvalidShare
    | VaultPaused | ArithmeticOverflow | InvalidAddress | Aborted

  datatype Operation = StakeDelegated | StakeWithdrawn

  datatype Event =
    | StakeChanged(operation: Operation, provider: Address, amount: int, providerBalance: int, totalBalance: int)
    | PauseChanged(paused: bool, actor: Address)

  /** Storage, with the values the source reads for a missing entry, and the events so far. */
  datatype Vault = Vault(admin: Option<Address>, maxBps: nat, total: int, stakes: map<Address, int>,
                         paused: bool, events: seq<Event>)

  const DEPLOYED := Vault(None, FULL_SHARE, 0, map[], false, [])

  predicate IsSentinel(a: Address) {
    !a.Other?
  }

  predicate LegalShare(bps: nat) {
    1 <= bps <= FULL_SHARE
  }

  // ---- The entrypoints as functions of the state ------------------------------------------

  function Initialized(v: Vault, admin: Address, bps: nat): Result<Vault, VaultError> {
    if IsSentinel(admin) then Err(InvalidAddress)
    else if !LegalShare(bps) then Err(InvalidShare)
    else Ok(v.(admin := Some(admin), maxBps := bps, total := 0))
  }

  function LimitSet(v: Vault, auth: set<Address>, bps: nat): Result<Vault, VaultError> {
    if v.admin.None? || v.admin.value !in auth then Err(Aborted)
    else if !LegalShare(bps) then Err(InvalidShare)
    else Ok(v.(maxBps := bps))
  }

  function PauseSet(v: Vault, auth: set<Address>, paused: bool): Result<Vault, VaultError> {
    if v.admin.None? then Err(NotAdmin)
    else if v.admin.value !in auth then Err(Aborted)
    else Ok(v.(paused := paused, events := v.events + [PauseChanged(paused, v.admin.value)]))
  }

  function WithinLimit(stake: int, total: int, bps: nat): Result<bool, VaultError> {
    if total <= 0 then Ok(true)
    else if !IsI128(stake * FULL_SHARE) || !IsI128(total * bps) then Err(ArithmeticOverflow)
    else Ok(stake * FULL_SHARE <= total * bps)
  }

  function Delegated(v: Vault, provider: Address, amount: int): Result<Vault, VaultError> {
    if IsSentinel(provider) then Err(InvalidAddress)
    else if amount <= 0 then Err(InvalidAmount)
    else if v.paused then Err(VaultPaused)
    else
      var total, stake := v.total + amount, Get(v.stakes, provider) + amount;
      if !IsI128(total) || !IsI128(stake) then Err(ArithmeticOverflow)
      else match WithinLimit(stake, total, v.maxBps)
        case Err(e) => Err(e)
        case Ok(within) =>
          if !within then Err(ConcentrationLimitExceeded)
          else Ok(v.(total := total, stakes := v.stakes[provider := stake],
                     events := v.events + [StakeChanged(StakeDelegated, provider, amount, stake, total)]))
  }

  function Withdrawn(v: Vault, auth: set<Address>, provider: Address, amount: int): Result<Vault, VaultError> {
    if IsSentinel(provider) then Err(InvalidAddress)
    else if amount <= 0 then Err(InvalidAmount)
    else if provider !in auth then Err(Aborted)
    else if amount > Get(v.stakes, provider) then Err(InsufficientStake)
    else
      var total, stake := v.total - amount, Get(v.stakes, provider) - amount;
      if !IsI128(total) then Err(Aborted)
      else Ok(v.(total := total, stakes := Stored(v.stakes, provider, stake),
                 events := v.events + [StakeChanged(StakeWithdrawn, provider, amount, stake, total)]))
  }

  /** An empty position is not stored. */
  function Stored(stakes: map<Address, int>, provider: Address, stake: int): map<Address, int> {
    if stake == 0 then stakes - {provider} else stakes[provider := stake]
  }

  datatype Call =
    | Initialize(newAdmin: Address, bps: nat)
    | SetLimit(auth: set<Address>, bps: nat)
    | SetPaused(auth: set<Address>, paused: bool)
    | Delegate(provider: Address, amount: int)
    | Withdraw(auth: set<Address>, provider: Address, amount: int)

  function Outcome(v: Vault, call: Call): Result<Vault, VaultError> {
    match call
    case Initialize(admin, bps) => Initialized(v, admin, bps)
    case SetLimit(auth, bps) => LimitSet(v, auth, bps)
    case SetPaused(auth, paused) => PauseSet(v, auth, paused)
    case Delegate(provider, amount) => Delegated(v, provider, amount)
    case Withdraw(auth, provider, amount) => Withdrawn(v, auth, provider, amount)
  }

  function Next(v: Vault, call: Call): Vault {
    match Outcome(v, call)
    case Ok(next) => next
    case Err(_) => v
  }

  function Run(v: Vault, calls: seq<Call>): Vault {
    if calls == [] then v else Next(Run(v, calls[..|calls| - 1]), calls[|calls| - 1])
  }

  // ---- The contract object -------------------------------------------------------------------

  ghost predicate Follows(before: Vault, call: Call, after: Vault, error: Option<VaultError>) {
    match Outcome(before, call)
    case Ok(next) => error.None? && after == next
    case Err(e) => error == Some(e) && after == before
  }

  class Contract {
    var admin: Option<Address>
    var maxBps: nat
    var total: int
    var stakes: map<Address, int>
    var paused: bool
    var events: seq<Event>

    ghost function State(): Vault
      reads this
    {
      Vault(admin, maxBps, total, stakes, paused, events)
    }

    constructor ()
      ensures State() == DEPLOYED
    {
      admin, maxBps, total, stakes, paused, events := None, FULL_SHARE, 0, map[], false, [];
    }

    method Initialize(newAdmin: Address, bps: nat) returns (error: Option<VaultError>)
      modifies this
      ensures Follows(old(State()), Call.Initialize(newAdmin, bps), State(), error)
    {
      if IsSentinel(newAdmin) {
        return Some(InvalidAddress);
      }
      if bps == 0 || bps > FULL_SHARE {
        return Some(InvalidShare);
      }
      admin := Some(newAdmin);
      maxBps := bps;
      total := 0;
      return None;
    }

    method SetMaxProviderShareBps(auth: set<Address>, bps: nat) returns (error: Option<VaultError>)
      modifies this
      ensures Follows(old(State()), SetLimit(auth, bps), State(), error)
    {
      if admin.None? || admin.value !in auth {
        return Some(Aborted);
      }
      if bps == 0 || bps > FULL_SHARE {
        return Some(InvalidShare);
      }
      maxBps := bps;
      return None;
    }

    method SetPaused(auth: set<Address>, newPaused: bool) returns (error: Option<VaultError>)
      modifies this
      ensures Follows(old(State()), Call.SetPaused(auth, newPaused), State(), error)
    {
      if admin.None? {
        return Some(NotAdmin);
      }
      if admin.value !in auth {
        return Some(Aborted);
      }
      paused := newPaused;
      events := events + [PauseChanged(paused, admin.value)];
      return None;
    }

    method Delegate(provider: Address, amount: int) returns (error: Option<VaultError>)
      modifies this
      ensures Follows(old(State()), Call.Delegate(provider, amount), State(), error)
    {
      if IsSentinel(provider) {
        return Some(InvalidAddress);
      }
      if amount <= 0 {
        return Some(InvalidAmount);
      }
      if paused {
        return Some(VaultPaused);
      }
      var newTotal, newStake := total + amount, Get(stakes, provider) + amount;
      if !IsI128(newTotal) || !IsI128(newStake) {
        return Some(ArithmeticOverflow);
      }
      var within := WithinLimit(newStake, newTotal, maxBps);
      if within.Err? {
        return Some(within.error);
      }
      if !within.value {
        return Some(ConcentrationLimitExceeded);
      }
      total := newTotal;
      stakes := stakes[provider := newStake];
      EmitStakeChanged(StakeDelegated, provider, amount, newStake, newTotal);
      return None;
    }

    method Withdraw(auth: set<Address>, provider: Address, amount: int) returns (error: Option<VaultError>)
      modifies this
      ensures Follows(old(State()), Call.Withdraw(auth, provider, amount), State(), error)
    {
      if IsSentinel(provider) {
        return Some(InvalidAddress);
      }
      if amount <= 0 {
        return Some(InvalidAmount);
      }
      if provider !in auth {
        return Some(Aborted);
      }
      var current := Get(stakes, provider);
      if amount > current {
        return Some(InsufficientStake);
      }
      var newStake, newTotal := current - amount, total - amount;
      if !IsI128(newTotal) {
        return Some(Aborted);
      }
      total := newTotal;
      if newStake == 0 {
        stakes := stakes - {provider};
      } else {
        stakes := stakes[provider := newStake];
      }
      EmitStakeChanged(StakeWithdrawn, provider, amount, newStake, newTotal);
      return None;
    }

    method EmitStakeChanged(operation: Operation, provider: Address, amount: int, providerBalance: int,
                            totalBalance: int)
      modifies this`events
      ensures events == old(events) + [StakeChanged(operation, provider, amount, providerBalance, totalBalance)]
    {
      events := events + [StakeChanged(operation, provider, amount, providerBalance, totalBalance)];
    }
  }

  // ---- The cached total over every run ----------------------------------------------------------

  /** No stored stake is empty, none belongs to a sentinel, and the configuration is legal. */
  ghost predicate WellFormed(v: Vault) {
    && LegalShare(v.maxBps) && IsI128(v.total)
    && (forall p | p in v.stakes :: 0 < v.stakes[p] <= I128_MAX && !IsSentinel(p))
    && (v.admin.Some? ==> !IsSentinel(v.admin.value))
  }

  ghost predicate Initializes(v: Vault, call: Call) {
    call.Initialize? && Outcome(v, call).Ok?
  }

  /** The stake the vault already held at the last successful `initialize`. */
  ghost function HeldAtInitialize(calls: seq<Call>): int {
    if calls == [] then 0
    else
      var before, last := calls[..|calls| - 1], calls[|calls| - 1];
      var v := Run(DEPLOYED, before);
      if Initializes(v, last) then Sum(v.stakes) else HeldAtInitialize(before)
  }

  /** Every call moves the cached total and the true sum by the same amount, except `initialize`. */
  lemma StepKeepsVault(v: Vault, call: Call)
    requires WellFormed(v)
    ensures var w := Next(v, call);
            && WellFormed(w)
            && (if Initializes(v, call) then w.total == 0 && w.stakes == v.stakes
                else Sum(w.stakes) - w.total == Sum(v.stakes) - v.total)
  {
    match call
    case Delegate(provider, amount) => DelegationKeeps(v, provider, amount);
    case Withdraw(auth, provider, amount) => WithdrawalKeeps(v, auth, provider, amount);
    case _ =>
  }

  lemma DelegationKeeps(v: Vault, provider: Address, amount: int)
    requires WellFormed(v)
    ensures Delegated(v, provider, amount).Ok? ==>
              var w := Delegated(v, provider, amount).value;
              WellFormed(w) && Sum(w.stakes) - w.total == Sum(v.stakes) - v.total
  {
    SumUpdate(v.stakes, provider, Get(v.stakes, provider) + amount);
  }

  lemma WithdrawalKeeps(v: Vault, auth: set<Address>, provider: Address, amount: int)
    requires WellFormed(v)
    ensures Withdrawn(v, auth, provider, amount).Ok? ==>
              var w := Withdrawn(v, auth, provider, amount).value;
              WellFormed(w) && Sum(w.stakes) - w.total == Sum(v.stakes) - v.total
  {
    SumStored(v.stakes, provider, Get(v.stakes, provider) - amount);
  }

  lemma SumStored(stakes: map<Address, int>, provider: Address, stake: int)
    ensures Sum(Stored(stakes, provider, stake)) == Sum(stakes) - Get(stakes, provider) + stake
  {
    SumRemove(stakes, provider);
    SumUpdate(stakes, provider, stake);
  }

  /** Over every run the true sum exceeds the cached total by what `initialize` last overlooked. */
  lemma {:induction false} RunKeepsVault(calls: seq<Call>)
    ensures var v := Run(DEPLOYED, calls);
            WellFormed(v) && Sum(v.stakes) == v.total + HeldAtInitialize(calls)
    decreases |calls|
  {
    if calls != [] {
      var before, last := calls[..|calls| - 1], calls[|calls| - 1];
      RunKeepsVault(before);
      StepKeepsVault(Run(DEPLOYED, before), last);
    }
  }

  /** Every successful `initialize` of the run met a vault without stake, as a first call does. */
  ghost predicate InitializedEmpty(calls: seq<Call>) {
    forall k | 0 <= k < |calls| ::
      Initializes(Run(DEPLOYED, calls[..k]), calls[k]) ==> Run(DEPLOYED, calls[..k]).stakes == map[]
  }

  lemma InitializedEmptyPrefix(calls: seq<Call>, n: nat)
    requires InitializedEmpty(calls) && n <= |calls|
    ensures InitializedEmpty(calls[..n])
  {
    var before := calls[..n];
    forall k | 0 <= k < n
      ensures Initializes(Run(DEPLOYED, before[..k]), before[k]) ==> Run(DEPLOYED, before[..k]).stakes == map[]
    {
      assert before[..k] == calls[..k] && before[k] == calls[k];
    }
  }

  /** `initialize` once and first, then any other calls. */
  lemma SingleInitialize(calls: seq<Call>)
    requires calls != [] && calls[0].Initialize?
    requires forall k | 1 <= k < |calls| :: !calls[k].Initialize?
    ensures InitializedEmpty(calls)
  {
  }

  lemma {:induction false} NothingHeld(calls: seq<Call>)
    requires InitializedEmpty(calls)
    ensures HeldAtInitialize(calls) == 0
    decreases |calls|
  {
    if calls != [] {
      InitializedEmptyPrefix(calls, |calls| - 1);
      NothingHeld(calls[..|calls| - 1]);
    }
  }

  ghost predicate Balanced(v: Vault) {
    WellFormed(v) && v.total == Sum(v.stakes)
  }

  /** The cached total is the sum of the stored stakes in every state of such a run. */
  lemma TotalIsSum(calls: seq<Call>)
    requires InitializedEmpty(calls)
    ensures Balanced(Run(DEPLOYED, calls))
  {
    RunKeepsVault(calls);
    NothingHeld(calls);
  }

  /** `initialize` leaves a true total exactly when the vault holds no stake. */
  lemma InitializeKeepsTotalIff(v: Vault, admin: Address, bps: nat)
    requires WellFormed(v) && Initialized(v, admin, bps).Ok?
    ensures Balanced(Next(v, Initialize(admin, bps))) <==> v.stakes == map[]
  {
    StepKeepsVault(v, Initialize(admin, bps));
    if v.stakes != map[] {
      var p :| p in v.stakes;
      ValueAtMostSum(v.stakes, p);
    }
  }

  /** A delegation, then a second `initialize`, and the cached total no longer counts the stake. */
  lemma SecondInitializeLosesStake()
    ensures var admin, provider := Other(0), Other(1);
            var v := Next(Next(Next(DEPLOYED, Initialize(admin, FULL_SHARE)), Delegate(provider, 5)),
                          Initialize(admin, FULL_SHARE));
            v.stakes == map[provider := 5] && v.total == 0
  {
    var v := Next(DEPLOYED, Initialize(Other(0), FULL_SHARE));
    assert Delegated(v, Other(1), 5).Ok?;
  }

  // ---- Withdrawals ---------------------------------------------------------------------------------

  /**
   * Neither subtraction goes below zero, and neither the pause nor the limit stands in the way:
   * an authorised provider can withdraw any part of what it holds.
   */
  lemma WithdrawalIsOpen(v: Vault, auth: set<Address>, provider: Address, amount: int)
    requires Balanced(v)
    ensures Withdrawn(v, auth, provider, amount).Ok? <==> provider in auth && 0 < amount <= Get(v.stakes, provider)
    ensures var w := Next(v, Withdraw(auth, provider, amount));
            && Balanced(w) && w.total >= 0
            && (provider in w.stakes ==> w.stakes[provider] > 0)
  {
    ValueAtMostSum(v.stakes, provider);
    StepKeepsVault(v, Withdraw(auth, provider, amount));
    var w := Next(v, Withdraw(auth, provider, amount));
    SumNonNegative(w.stakes);
  }

  /** A delegation and the withdrawal of the same amount leave the balances as they were. */
  lemma WithdrawalUndoesDelegation(v: Vault, auth: set<Address>, provider: Address, amount: int)
    requires Balanced(v) && Delegated(v, provider, amount).Ok? && provider in auth
    ensures var w := Next(v, Delegate(provider, amount));
            && Withdrawn(w, auth, provider, amount).Ok?
            && Next(w, Withdraw(auth, provider, amount))
                 == v.(events := Next(w, Withdraw(auth, provider, amount)).events)
  {
    StepKeepsVault(v, Delegate(provider, amount));
    ValueAtMostSum(v.stakes, provider);
    StoredBack(v.stakes, provider, Get(v.stakes, provider) + amount);
  }

  lemma StoredBack(stakes: map<Address, int>, provider: Address, stake: int)
    requires provider in stakes ==> stakes[provider] != 0
    ensures Stored(stakes[provider := stake], provider, Get(stakes, provider)) == stakes
  {
  }

  // ---- The concentration limit ---------------------------------------------------------------------

  /** The share of `stake` in `total` is above `bps`. */
  predicate Above(stake: int, total: int, bps: nat) {
    stake * FULL_SHARE > total * bps
  }

  /** A delegation is accepted exactly when the provider's new share is within the limit. */
  lemma DelegationRespectsLimit(v: Vault, provider: Address, amount: int)
    requires Balanced(v)
    ensures var total, stake := v.total + amount, Get(v.stakes, provider) + amount;
            Delegated(v, provider, amount).Ok? <==>
              && !IsSentinel(provider) && amount > 0 && !v.paused
              && stake * FULL_SHARE <= I128_MAX && total * v.maxBps <= I128_MAX && total <= I128_MAX
              && !Above(stake, total, v.maxBps)
    ensures var w := Next(v, Delegate(provider, amount));
            Delegated(v, provider, amount).Ok? ==>
              Balanced(w) && !Above(w.stakes[provider], w.total, w.maxBps) && w.total > 0
  {
    ValueAtMostSum(v.stakes, provider);
    StepKeepsVault(v, Delegate(provider, amount));
    var total, stake := v.total + amount, Get(v.stakes, provider) + amount;
    if amount > 0 {
      ShareFits(total, v.maxBps);
    }
  }

  lemma ShareFits(total: nat, bps: nat)
    ensures IsI128(total * bps) <==> total * bps <= I128_MAX
  {
    MulMonotone(0, total, bps);
  }

  /** A provider above the limit gets nothing more until its share is back under it. */
  lemma AboveLimitIsRejected(v: Vault, provider: Address, amount: int)
    requires Balanced(v) && Above(Get(v.stakes, provider), v.total, v.maxBps)
    ensures Delegated(v, provider, amount).Err?
  {
    DelegationRespectsLimit(v, provider, amount);
    if amount > 0 {
      StaysAbove(Get(v.stakes, provider), v.total, amount, v.maxBps);
    }
  }

  lemma StaysAbove(stake: int, total: int, amount: nat, bps: nat)
    requires Above(stake, total, bps) && bps <= FULL_SHARE
    ensures Above(stake + amount, total + amount, bps)
  {
    MulMonotone(bps, FULL_SHARE, amount);
    assert (total + amount) * bps == total * bps + bps * amount;
  }

  /** The share of `a` in `t` is at most the share of `b` in `u`. */
  predicate ShareAtMost(a: int, t: int, b: int, u: int) {
    a * u <= b * t
  }

  /**
   * A withdrawal never raises the withdrawer's own share, but it raises the share of every other
   * provider, exactly of those that hold stake.
   */
  lemma WithdrawalMovesShares(v: Vault, auth: set<Address>, provider: Address, amount: int, other: Address)
    requires Balanced(v) && Withdrawn(v, auth, provider, amount).Ok? && other != provider
    ensures var w := Next(v, Withdraw(auth, provider, amount));
            && ShareAtMost(Get(w.stakes, provider), w.total, Get(v.stakes, provider), v.total)
            && Get(w.stakes, other) == Get(v.stakes, other)
            && (!ShareAtMost(Get(w.stakes, other), w.total, Get(v.stakes, other), v.total) <==> other in v.stakes)
  {
    ValueAtMostSum(v.stakes, provider);
    SharesMove(Get(v.stakes, provider), v.total, amount, Get(v.stakes, other));
  }

  /** Of two equal providers one withdraws half, and the other's share rises from a half to two thirds. */
  lemma WithdrawalCanRaiseConcentration()
    ensures var p, q := Other(1), Other(2);
            var v := DEPLOYED.(total := 200, stakes := map[p := 100, q := 100]);
            var w := Next(v, Withdraw({q}, q, 50));
            && Balanced(v) && w.stakes == map[p := 100, q := 50] && w.total == 150
            && !Above(v.stakes[p], v.total, 6_000) && Above(w.stakes[p], w.total, 6_000)
  {
    var p, q := Other(1), Other(2);
    var none, one: map<Address, int> := map[], map[p := 100];
    SumUpdate(none, p, 100);
    SumUpdate(one, q, 100);
    assert none[p := 100] == one && one[q := 100] == map[p := 100, q := 100];
  }

  lemma SharesMove(stake: int, total: int, amount: int, other: int)
    requires 0 < amount <= stake <= total && other >= 0
    ensures ShareAtMost(stake - amount, total - amount, stake, total)
    ensures ShareAtMost(other, total - amount, other, total) <==> other == 0
  {
    MulMonotone(stake, total, amount);
    assert (stake - amount) * total == stake * total - total * amount;
    assert stake * (total - amount) == stake * total - stake * amount;
    assert other * (total - amount) == other * total - other * amount;
    MulOrder(1, other, amount);
  }

  /** The first delegation into an empty vault needs a limit of the full share. */
  lemma FirstDelegationNeedsFullShare(v: Vault, provider: Address, amount: int)
    requires Balanced(v) && v.stakes == map[]
    ensures Delegated(v, provider, amount).Ok? <==>
              && !IsSentinel(provider) && amount > 0 && !v.paused
              && amount * FULL_SHARE <= I128_MAX && v.maxBps == FULL_SHARE
  {
    DelegationRespectsLimit(v, provider, amount);
    if amount > 0 {
      MulMonotone(v.maxBps, FULL_SHARE, amount);
      assert v.maxBps < FULL_SHARE ==> (FULL_SHARE - v.maxBps) * amount >= amount by {
        MulOrder(1, FULL_SHARE - v.maxBps, amount);
      }
    }
  }

  /** No call of the run asks for the full share. */
  ghost predicate KeepsLimitLow(calls: seq<Call>) {
    forall k | 0 <= k < |calls| :: (calls[k].SetLimit? || calls[k].Initialize?) ==> calls[k].bps < FULL_SHARE
  }

  /** An empty vault whose limit is below the full share stays empty until the limit is raised to it. */
  lemma {:induction false} EmptyStaysEmpty(v: Vault, calls: seq<Call>)
    requires Balanced(v) && v.stakes == map[] && v.maxBps < FULL_SHARE && KeepsLimitLow(calls)
    ensures var w := Run(v, calls);
            Balanced(w) && w.stakes == map[] && w.total == 0 && w.maxBps < FULL_SHARE
    decreases |calls|
  {
    if calls != [] {
      var before, last := calls[..|calls| - 1], calls[|calls| - 1];
      assert forall k | 0 <= k < |before| :: before[k] == calls[k];
      EmptyStaysEmpty(v, before);
      var w := Run(v, before);
      StepKeepsVault(w, last);
      if last.Delegate? {
        FirstDelegationNeedsFullShare(w, last.provider, last.amount);
      }
    }
  }

  // ---- Rebuilding the balances from the events --------------------------------------------------------

  datatype Ledger = Ledger(stakes: map<Address, int>, total: int)

  /** What an indexer does with one event, using the amounts alone. */
  function Applied(l: Ledger, e: Event): Ledger {
    match e
    case PauseChanged(_, _) => l
    case StakeChanged(operation, provider, amount, _, _) =>
      var delta := if operation == StakeDelegated then amount else -amount;
      Ledger(Stored(l.stakes, provider, Get(l.stakes, provider) + delta), l.total + delta)
  }

  function Rebuilt(events: seq<Event>): Ledger {
    if events == [] then Ledger(map[], 0) else Applied(Rebuilt(events[..|events| - 1]), events[|events| - 1])
  }

  /** The balances an event names are those of the ledger once the event is applied. */
  predicate Reports(l: Ledger, e: Event) {
    e.StakeChanged? ==> e.providerBalance == Get(l.stakes, e.provider) && e.totalBalance == l.total
  }

  ghost predicate Truthful(events: seq<Event>) {
    forall k | 0 <= k < |events| :: Reports(Rebuilt(events[..k + 1]), events[k])
  }

  ghost predicate Mirrors(v: Vault) {
    Rebuilt(v.events) == Ledger(v.stakes, v.total) && Truthful(v.events)
  }

  lemma OneMoreEvent(events: seq<Event>, e: Event)
    requires Truthful(events) && Reports(Applied(Rebuilt(events), e), e)
    ensures Rebuilt(events + [e]) == Applied(Rebuilt(events), e) && Truthful(events + [e])
  {
    var more := events + [e];
    assert more[..|events|] == events && more[..|more|] == more;
    forall k | 0 <= k < |more|
      ensures Reports(Rebuilt(more[..k + 1]), more[k])
    {
      if k < |events| {
        assert more[..k + 1] == events[..k + 1];
      }
    }
  }

  /** A delegation's event, applied to the balances before it, gives those after it. */
  lemma DelegationReported(v: Vault, provider: Address, amount: int)
    requires WellFormed(v) && Delegated(v, provider, amount).Ok?
    ensures var w := Delegated(v, provider, amount).value;
            && |w.events| == |v.events| + 1 && w.events[..|v.events|] == v.events
            && Applied(Ledger(v.stakes, v.total), w.events[|v.events|]) == Ledger(w.stakes, w.total)
            && Reports(Ledger(w.stakes, w.total), w.events[|v.events|])
  {
    assert Get(v.stakes, provider) + amount > 0;
  }

  lemma WithdrawalReported(v: Vault, auth: set<Address>, provider: Address, amount: int)
    requires Withdrawn(v, auth, provider, amount).Ok?
    ensures var w := Withdrawn(v, auth, provider, amount).value;
            && |w.events| == |v.events| + 1 && w.events[..|v.events|] == v.events
            && Applied(Ledger(v.stakes, v.total), w.events[|v.events|]) == Ledger(w.stakes, w.total)
            && Reports(Ledger(w.stakes, w.total), w.events[|v.events|])
  {
  }

  /** A call emits at most one event, none if it is rejected, and the events still mirror the vault. */
  lemma StepMirrors(v: Vault, call: Call)
    requires Balanced(v) && Mirrors(v) && (Initializes(v, call) ==> v.stakes == map[])
    ensures var w := Next(v, call);
            && Mirrors(w) && |v.events| <= |w.events| <= |v.events| + 1 && w.events[..|v.events|] == v.events
            && (|w.events| > |v.events| <==> Outcome(v, call).Ok? && !call.Initialize? && !call.SetLimit?)
  {
    if Outcome(v, call).Ok? {
      if call.Delegate? || call.Withdraw? {
        if call.Delegate? {
          DelegationReported(v, call.provider, call.amount);
        } else {
          WithdrawalReported(v, call.auth, call.provider, call.amount);
        }
        var w := Next(v, call);
        assert w.events == v.events + [w.events[|v.events|]];
        OneMoreEvent(v.events, w.events[|v.events|]);
      } else if call.SetPaused? {
        OneMoreEvent(v.events, PauseChanged(call.paused, v.admin.value));
      }
    }
  }

  lemma RebuiltStep(events: seq<Event>, e: Event)
    ensures Rebuilt(events + [e]) == Applied(Rebuilt(events), e)
  {
    assert (events + [e])[..|events|] == events;
  }

  /** An event moves the rebuilt total by its amount, whatever the total. */
  lemma AppliedShift(stakes: map<Address, int>, total: int, gap: int, e: Event)
    ensures var l := Applied(Ledger(stakes, total), e);
            Applied(Ledger(stakes, total + gap), e) == Ledger(l.stakes, l.total + gap)
  {
  }

  /** The rebuilt ledger holds the stored stakes, and a total that is `gap` above the cached one. */
  ghost predicate RebuiltWithGap(v: Vault, gap: int) {
    Rebuilt(v.events) == Ledger(v.stakes, v.total + gap)
  }

  lemma EventKeepsGap(v: Vault, w: Vault, gap: int)
    requires RebuiltWithGap(v, gap) && |w.events| == |v.events| + 1 && w.events[..|v.events|] == v.events
    requires Applied(Ledger(v.stakes, v.total), w.events[|v.events|]) == Ledger(w.stakes, w.total)
    ensures RebuiltWithGap(w, gap)
  {
    var e := w.events[|v.events|];
    assert w.events == v.events + [e];
    RebuiltStep(v.events, e);
    AppliedShift(v.stakes, v.total, gap, e);
  }

  lemma StepKeepsGap(v: Vault, call: Call, gap: int)
    requires WellFormed(v) && RebuiltWithGap(v, gap) && !Initializes(v, call)
    ensures RebuiltWithGap(Next(v, call), gap)
  {
    if Outcome(v, call).Ok? {
      if call.Delegate? {
        DelegationReported(v, call.provider, call.amount);
        EventKeepsGap(v, Next(v, call), gap);
      } else if call.Withdraw? {
        WithdrawalReported(v, call.auth, call.provider, call.amount);
        EventKeepsGap(v, Next(v, call), gap);
      } else if call.SetPaused? {
        EventKeepsGap(v, Next(v, call), gap);
      }
    }
  }

  lemma {:induction false} RunKeepsGap(calls: seq<Call>)
    ensures RebuiltWithGap(Run(DEPLOYED, calls), HeldAtInitialize(calls))
    decreases |calls|
  {
    if calls != [] {
      var before, last := calls[..|calls| - 1], calls[|calls| - 1];
      RunKeepsGap(before);
      RunKeepsVault(before);
      if !Initializes(Run(DEPLOYED, before), last) {
        StepKeepsGap(Run(DEPLOYED, before), last, HeldAtInitialize(before));
      }
    }
  }

  /**
   * Over every run, repeated `initialize` included, folding the events rebuilds every provider balance and
   * their true sum; the cached total is that sum exactly when the last `initialize` overlooked nothing.
   */
  lemma EventsRebuildStakes(calls: seq<Call>)
    ensures var v := Run(DEPLOYED, calls);
            && Rebuilt(v.events) == Ledger(v.stakes, Sum(v.stakes))
            && (Rebuilt(v.events).total == v.total <==> HeldAtInitialize(calls) == 0)
  {
    RunKeepsGap(calls);
    RunKeepsVault(calls);
  }

  /**
   * If no `initialize` met stored stake, folding the events rebuilds every balance and the cached total, and
   * each event reports the balances that held when it was emitted.
   */
  lemma {:induction false} EventsRebuildBalances(calls: seq<Call>)
    requires InitializedEmpty(calls)
    ensures Mirrors(Run(DEPLOYED, calls))
    decreases |calls|
  {
    if calls != [] {
      var n := |calls| - 1;
      var before, last := calls[..n], calls[n];
      InitializedEmptyPrefix(calls, n);
      EventsRebuildBalances(before);
      TotalIsSum(before);
      assert Initializes(Run(DEPLOYED, calls[..n]), calls[n]) ==> Run(DEPLOYED, before).stakes == map[];
      StepMirrors(Run(DEPLOYED, before), last);
    }
  }
}
