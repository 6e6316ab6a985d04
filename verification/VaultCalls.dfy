// The stake vault told from its calls: which are accepted, what each refusal means, and
// that the configuration is the one the accepted calls gave last.
module VaultCalls {
  import opened Options
  import opened MachineInts
  import opened MapSum
  import opened StakeVault

  predicate AdminSigned(v: Vault, auth: set<Address>) {
    v.admin.Some? && v.admin.value in auth
  }

  /** The all-zero account, the all-zero contract and the vault itself. */
  predicate Unusable(a: Address) {
    a == ZeroAccount || a == ZeroContract || a == ThisVault
  }

  /** A configuration call is accepted from the signing admin, or to initialize from anyone, with a legal share. */
  lemma ConfigAcceptedIff(v: Vault, call: Call)
    ensures call.Initialize? ==> (Outcome(v, call).Ok? <==> !Unusable(call.newAdmin) && 1 <= call.bps <= 10_000)
    ensures call.SetLimit? ==> (Outcome(v, call).Ok? <==> AdminSigned(v, call.auth) && 1 <= call.bps <= 10_000)
    ensures call.SetPaused? ==> (Outcome(v, call).Ok? <==> AdminSigned(v, call.auth))
  {
  }

  /** What holds when a call is refused with an error. */
  predicate Means(v: Vault, call: Call, e: VaultError) {
    match e
    case InvalidAddress =>
      (call.Initialize? && Unusable(call.newAdmin)) || ((call.Delegate? || call.Withdraw?) && Unusable(call.provider))
    case InvalidShare => (call.Initialize? || call.SetLimit?) && !(1 <= call.bps <= 10_000)
    case NotAdmin => call.SetPaused? && v.admin.None?
    case InvalidAmount => (call.Delegate? || call.Withdraw?) && call.amount <= 0
    case VaultPaused => call.Delegate? && v.paused
    case ConcentrationLimitExceeded =>
      call.Delegate? && (Get(v.stakes, call.provider) + call.amount) * 10_000 > (v.total + call.amount) * v.maxBps
    case ArithmeticOverflow =>
      && call.Delegate?
      && var stake, total := Get(v.stakes, call.provider) + call.amount, v.total + call.amount;
         !IsI128(stake) || !IsI128(total) || !IsI128(stake * 10_000) || !IsI128(total * v.maxBps)
    case InsufficientStake => call.Withdraw? && call.amount > Get(v.stakes, call.provider)
    case Aborted =>
      || ((call.SetLimit? || call.SetPaused?) && !AdminSigned(v, call.auth))
      || (call.Withdraw? && (call.provider !in call.auth || !IsI128(v.total - call.amount)))
  }

  lemma RefusalMeans(v: Vault, call: Call)
    ensures Outcome(v, call).Err? ==> Means(v, call, Outcome(v, call).error)
  {
  }

  // ---- The configuration -----------------------------------------------------------------------------

  datatype Config = Config(admin: Option<Address>, maxBps: nat, paused: bool)

  /** The configuration after an accepted call. */
  function ConfigAfter(c: Config, call: Call): Config {
    match call
    case Initialize(newAdmin, bps) => c.(admin := Some(newAdmin), maxBps := bps)
    case SetLimit(_, bps) => c.(maxBps := bps)
    case SetPaused(_, paused) => c.(paused := paused)
    case Delegate(_, _) => c
    case Withdraw(_, _, _) => c
  }

  function ConfigOf(calls: seq<Call>): Config
    decreases |calls|
  {
    if calls == [] then Config(None, 10_000, false)
    else
      var earlier, last := calls[..|calls| - 1], calls[|calls| - 1];
      if Outcome(Run(DEPLOYED, earlier), last).Ok? then ConfigAfter(ConfigOf(earlier), last) else ConfigOf(earlier)
  }

  /** In every run the admin, the limit and the pause are the ones the accepted calls gave last. */
  lemma {:induction false} ConfigIsLastGiven(calls: seq<Call>)
    ensures var v := Run(DEPLOYED, calls); Config(v.admin, v.maxBps, v.paused) == ConfigOf(calls)
    decreases |calls|
  {
    if calls != [] {
      ConfigIsLastGiven(calls[..|calls| - 1]);
    }
  }

  /** An accepted change of the pause tells the new state and the admin, and changes nothing else. */
  lemma PauseIsAnnounced(v: Vault, auth: set<Address>, paused: bool)
    requires Outcome(v, SetPaused(auth, paused)).Ok?
    ensures var w := Next(v, SetPaused(auth, paused));
            && v.admin.Some? && w.events == v.events + [PauseChanged(paused, v.admin.value)]
            && w.total == v.total && w.stakes == v.stakes && w.maxBps == v.maxBps && w.admin == v.admin
  {
  }

  // ---- The stakes ------------------------------------------------------------------------------------

  /** What the accepted calls have delegated to `p` less what they have withdrawn. */
  function NetStake(calls: seq<Call>, p: Address): int
    decreases |calls|
  {
    if calls == [] then 0
    else
      var earlier, last := calls[..|calls| - 1], calls[|calls| - 1];
      NetStake(earlier, p) +
      if Outcome(Run(DEPLOYED, earlier), last).Err? then 0
      else match last
        case Delegate(provider, amount) => if provider == p then amount else 0
        case Withdraw(_, provider, amount) => if provider == p then -amount else 0
        case _ => 0
  }

  /** In every run the stake of a provider is what was delegated to it less what it withdrew. */
  lemma {:induction false} StakeIsNet(calls: seq<Call>, p: Address)
    ensures Get(Run(DEPLOYED, calls).stakes, p) == NetStake(calls, p)
    decreases |calls|
  {
    if calls != [] {
      StakeIsNet(calls[..|calls| - 1], p);
    }
  }
}
