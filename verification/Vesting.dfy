// Linear vesting, written three times in the source: with a cliff in the fee
// collector and in the stake vault, and without one in the optimised rewards.
module Vesting {
  import opened Options
  import opened MachineInts

  /** A plan; `cliff` is ignored by the version without one. */
  datatype Plan = Plan(total: int, start: nat, cliff: nat, duration: nat)

  datatype Version = FeeCollector | StakeVault | Optimized

  // ---- The three vesting curves -------------------------------------------------------------

  /** contracts/fee_collector: the product saturates. */
  function FeeCollectorVested(p: Plan, now: nat): int {
    if now < SaturateU64(p.start + p.cliff) then 0
    else
      var elapsed := if now >= p.start then now - p.start else 0;
      if elapsed >= p.duration then p.total
      else
        var vested := TruncDiv(Saturate(p.total * elapsed), p.duration);
        if vested <= p.total then vested else p.total
  }

  /** contracts/stake_vault/src/rewards.rs */
  function StakeVaultVested(p: Plan, now: nat): int {
    if now < SaturateU64(p.start + p.cliff) then 0
    else
      var elapsed := if now >= p.start then now - p.start else 0;
      if p.duration == 0 || elapsed >= p.duration then p.total
      else TruncDiv(p.total * elapsed, p.duration)
  }

  /** contracts/stake_vault/src/rewards_optimized.rs */
  function OptimizedVested(p: Plan, now: nat): int {
    if p.total <= 0 then 0
    else if now <= p.start then 0
    else if p.duration == 0 then p.total
    else
      var elapsed := now - p.start;
      if elapsed >= p.duration then p.total
      else TruncDiv(p.total * elapsed, p.duration)
  }

  function Vested(v: Version, p: Plan, now: nat): int {
    match v
    case FeeCollector => FeeCollectorVested(p, now)
    case StakeVault => StakeVaultVested(p, now)
    case Optimized => OptimizedVested(p, now)
  }

  /** The total is not negative, and no product leaves i128 in the versions that would abort there. */
  predicate Fits(v: Version, p: Plan) {
    0 <= p.total <= I128_MAX && (v.FeeCollector? || p.total * (p.duration - 1) <= I128_MAX)
  }

  // ---- Releasing ----------------------------------------------------------------------------

  datatype ReleaseError = CliffNotReached | NothingToRelease

  /** What a release pays at `now` and leaves as released, per version. */
  function Released(v: Version, p: Plan, released: int, now: nat): (int, int) {
    match v
    case FeeCollector =>
      if now < SaturateU64(p.start + p.cliff) then (0, released)
      else
        var amount := Saturate(FeeCollectorVested(p, now) - released);
        if amount == 0 then (0, released) else (amount, Saturate(released + amount))
    case StakeVault =>
      var amount := StakeVaultVested(p, now) - released;
      if amount > 0 then (amount, released + amount) else (0, released)
    case Optimized =>
      var amount := OptimizedVested(p, now) - released;
      if amount > 0 then (amount, released + amount) else (0, released)
  }

  class FeeCollectorSchedule {
    const plan: Plan
    var releasedAmount: int

    constructor (plan: Plan)
      ensures this.plan == plan && releasedAmount == 0
    {
      this.plan := plan;
      releasedAmount := 0;
    }

    /** The preview: what a release at `now` would pay, without changing the schedule. */
    method QuoteReleasable(now: nat) returns (r: Result<int, ReleaseError>)
      ensures now < SaturateU64(plan.start + plan.cliff) <==> r == Err(CliffNotReached)
      ensures r.Ok? ==> r.value == Released(FeeCollector, plan, releasedAmount, now).0 != 0
      ensures r.Err? ==> Released(FeeCollector, plan, releasedAmount, now) == (0, releasedAmount)
    {
      if now < SaturateU64(plan.start + plan.cliff) {
        return Err(CliffNotReached);
      }
      var amount := Saturate(FeeCollectorVested(plan, now) - releasedAmount);
      if amount == 0 {
        return Err(NothingToRelease);
      }
      return Ok(amount);
    }

    method ReleaseVestedRewards(now: nat) returns (r: Result<int, ReleaseError>)
      modifies this
      ensures var (paid, after) := Released(FeeCollector, plan, old(releasedAmount), now);
              && releasedAmount == after
              && (r.Ok? ==> r.value == paid != 0) && (r.Err? ==> paid == 0)
      ensures now < SaturateU64(plan.start + plan.cliff) <==> r == Err(CliffNotReached)
    {
      if now < SaturateU64(plan.start + plan.cliff) {
        return Err(CliffNotReached);
      }
      var amount := Saturate(FeeCollectorVested(plan, now) - releasedAmount);
      if amount == 0 {
        return Err(NothingToRelease);
      }
      releasedAmount := Saturate(releasedAmount + amount);
      return Ok(amount);
    }
  }

  class StakeVaultSchedule {
    const plan: Plan
    var released: int

    constructor (plan: Plan)
      ensures this.plan == plan && released == 0
    {
      this.plan := plan;
      released := 0;
    }

    method Release(now: nat) returns (amount: int)
      modifies this
      ensures (amount, released) == Released(StakeVault, plan, old(released), now)
    {
      amount := StakeVaultVested(plan, now) - released;
      if amount < 0 {
        amount := 0;
      }
      released := released + amount;
    }
  }

  class OptimizedSchedule {
    const plan: Plan
    var releasedAmount: int

    /** A negative total is taken as zero. */
    constructor (total: int, start: nat, duration: nat)
      ensures plan == Plan(if total > 0 then total else 0, start, 0, duration) && releasedAmount == 0
    {
      plan := Plan(if total > 0 then total else 0, start, 0, duration);
      releasedAmount := 0;
    }

    method ReleaseVestedRewards(now: nat) returns (claimable: int)
      modifies this
      ensures (claimable, releasedAmount) == Released(Optimized, plan, old(releasedAmount), now)
    {
      claimable := OptimizedVested(plan, now) - releasedAmount;
      if claimable < 0 {
        claimable := 0;
      }
      if claimable > 0 {
        releasedAmount := releasedAmount + claimable;
      }
    }
  }

  // ---- The curves rise and stay within the total ---------------------------------------------

  /** Part of the total, linear in the elapsed time, with or without a saturating product. */
  lemma LinearPart(total: nat, elapsed: nat, duration: nat)
    requires elapsed < duration && IsI128(total)
    ensures 0 <= total * elapsed <= total * (duration - 1)
    ensures 0 <= TruncDiv(Saturate(total * elapsed), duration) <= total
    ensures total * (duration - 1) <= I128_MAX ==> Saturate(total * elapsed) == total * elapsed
  {
    MulMonotone(0, total, elapsed);
    MulMonotone(elapsed, duration - 1, total);
    assert total * elapsed == elapsed * total && total * (duration - 1) == (duration - 1) * total;
    assert (duration - 1) * total == duration * total - total;
    var p := Saturate(total * elapsed);
    Quotient(p, duration);
    var q := TruncDiv(p, duration);
    assert (total + 1) * duration == duration * total + duration;
    MulOrder(total + 1, q, duration);
  }

  lemma LinearGrows(total: nat, few: nat, many: nat, duration: nat)
    requires few <= many && duration > 0
    ensures TruncDiv(Saturate(total * few), duration) <= TruncDiv(Saturate(total * many), duration)
  {
    MulMonotone(few, many, total);
    MulMonotone(0, total, few);
    assert total * few == few * total && total * many == many * total;
    var p, q := Saturate(total * few), Saturate(total * many);
    Quotient(p, duration);
    Quotient(q, duration);
    var a, b := TruncDiv(p, duration), TruncDiv(q, duration);
    assert (b + 1) * duration == b * duration + duration;
    MulOrder(b + 1, a, duration);
  }

  /** A curve rises with time and stays between zero and the total. */
  lemma VestedRises(v: Version, p: Plan, now: nat, later: nat)
    requires Fits(v, p) && now <= later
    ensures 0 <= Vested(v, p, now) <= Vested(v, p, later) <= p.total
  {
    VestedInRange(v, p, now);
    VestedInRange(v, p, later);
    var few := if now >= p.start then now - p.start else 0;
    var many := if later >= p.start then later - p.start else 0;
    if many < p.duration {
      LinearPart(p.total, few, p.duration);
      LinearPart(p.total, many, p.duration);
      LinearGrows(p.total, few, many, p.duration);
    }
  }

  lemma VestedInRange(v: Version, p: Plan, now: nat)
    requires Fits(v, p)
    ensures 0 <= Vested(v, p, now) <= p.total
  {
    var elapsed := if now >= p.start then now - p.start else 0;
    if elapsed < p.duration {
      LinearPart(p.total, elapsed, p.duration);
    }
  }

  /**
   * The curve pinned down by multiplication: nothing before the cliff, everything once the duration is
   * over, and in between the elapsed part of the total, short of it by less than one unit.
   */
  lemma CurveIsLinear(v: Version, p: Plan, now: nat)
    requires Fits(v, p) && p.total * (p.duration - 1) <= I128_MAX && p.start + p.cliff <= U64_MAX
    requires v == Optimized ==> p.cliff == 0
    ensures var vested := Vested(v, p, now);
            var elapsed := now - p.start;
            && (elapsed < p.cliff ==> vested == 0)
            && (p.cliff <= elapsed && p.duration <= elapsed && elapsed > 0 ==> vested == p.total)
            && (p.cliff <= elapsed < p.duration ==>
                  vested * p.duration <= p.total * elapsed < (vested + 1) * p.duration)
  {
    var elapsed := now - p.start;
    if p.cliff <= elapsed < p.duration {
      LinearPart(p.total, elapsed, p.duration);
      Quotient(p.total * elapsed, p.duration);
      var q := TruncDiv(p.total * elapsed, p.duration);
      assert (q + 1) * p.duration == q * p.duration + p.duration;
      StartsAtZero(p.total, elapsed, p.duration);
    }
  }

  lemma StartsAtZero(total: nat, elapsed: nat, duration: nat)
    requires duration > 0
    ensures total == 0 || elapsed == 0 ==> total * elapsed == 0 && TruncDiv(total * elapsed, duration) == 0
  {
  }

  // ---- The versions agree ----------------------------------------------------------------------

  /** The two cliffed versions agree everywhere. */
  lemma CliffedVersionsAgree(p: Plan, now: nat)
    requires Fits(StakeVault, p)
    ensures FeeCollectorVested(p, now) == StakeVaultVested(p, now)
  {
    var elapsed := if now >= p.start then now - p.start else 0;
    if elapsed < p.duration {
      LinearPart(p.total, elapsed, p.duration);
    }
  }

  /** The version without a cliff agrees at cliff 0 except at the start of an instant plan. */
  lemma CliffFreeAgreesIff(p: Plan, now: nat)
    requires Fits(Optimized, p) && p.cliff == 0 && p.start <= U64_MAX
    ensures OptimizedVested(p, now) == StakeVaultVested(p, now)
       <==> !(now == p.start && p.duration == 0 && p.total > 0)
  {
    if now == p.start && p.duration > 0 {
      LinearPart(p.total, 0, p.duration);
      assert p.total * 0 == 0;
    }
    if now > p.start && now - p.start < p.duration && p.total == 0 {
      assert p.total * (now - p.start) == 0;
    }
  }

  // ---- Path independence -----------------------------------------------------------------------

  /** What a sequence of releases pays in all, and what it leaves as released. */
  function ReleaseAll(v: Version, p: Plan, released: int, times: seq<nat>): (int, int)
    decreases |times|
  {
    if times == [] then (0, released)
    else
      var (paid, after) := Released(v, p, released, times[0]);
      var (more, end) := ReleaseAll(v, p, after, times[1..]);
      (paid + more, end)
  }

  ghost predicate Ordered(times: seq<nat>) {
    forall i, j | 0 <= i < j < |times| :: times[i] <= times[j]
  }

  /** One release pays up to the curve; releasing at most the curve never takes anything back. */
  lemma ReleaseCatchesUp(v: Version, p: Plan, released: int, now: nat)
    requires Fits(v, p) && 0 <= released <= Vested(v, p, now)
    ensures Released(v, p, released, now) == (Vested(v, p, now) - released, Vested(v, p, now))
  {
    VestedInRange(v, p, now);
  }

  lemma {:induction false} ReleasesReachCurve(v: Version, p: Plan, released: int, times: seq<nat>)
    requires Fits(v, p) && Ordered(times) && times != []
    requires 0 <= released <= Vested(v, p, times[0])
    ensures var end := Vested(v, p, times[|times| - 1]);
            ReleaseAll(v, p, released, times) == (end - released, end)
    decreases |times|
  {
    ReleaseCatchesUp(v, p, released, times[0]);
    if |times| > 1 {
      VestedRises(v, p, times[0], times[1]);
      ReleasesReachCurve(v, p, Vested(v, p, times[0]), times[1..]);
    } else {
      assert times[1..] == [];
    }
  }

  /**
   * Path independence: any releases at non-decreasing times pay in all exactly what one release at
   * the last time would, and never more than the total.
   */
  lemma PathIndependence(v: Version, p: Plan, released: int, times: seq<nat>)
    requires Fits(v, p) && Ordered(times) && times != []
    requires 0 <= released <= Vested(v, p, times[0])
    ensures ReleaseAll(v, p, released, times) == Released(v, p, released, times[|times| - 1])
    ensures ReleaseAll(v, p, released, times).1 == Vested(v, p, times[|times| - 1]) <= p.total
  {
    var last := times[|times| - 1];
    ReleasesReachCurve(v, p, released, times);
    VestedRises(v, p, times[0], last);
    ReleaseCatchesUp(v, p, released, last);
  }

  /** From a fresh schedule, the sum of all payments is the curve at the last time. */
  lemma PaymentsFollowCurve(v: Version, p: Plan, times: seq<nat>)
    requires Fits(v, p) && Ordered(times) && times != []
    ensures ReleaseAll(v, p, 0, times).0 == Vested(v, p, times[|times| - 1]) <= p.total
  {
    VestedInRange(v, p, times[0]);
    PathIndependence(v, p, 0, times);
    VestedInRange(v, p, times[|times| - 1]);
    ReleaseCatchesUp(v, p, 0, times[|times| - 1]);
  }
}
