// Distribution of an epoch's rebate claims under a cap on the epoch's fees.
module Rebates {
  import opened Options
  import opened MachineInts

  const MAX_REBATE_BPS_LIMIT := 10_000

  datatype Claim<User> = Claim(claimant: User, amount: int)

  datatype CapApplied = CapApplied(epoch: nat, requested: int, distributed: int)

  datatype Distribution<User> = Distribution(payouts: seq<Claim<User>>, capEvent: Option<CapApplied>)

  function Total<User>(claims: seq<Claim<User>>): int {
    if claims == [] then 0 else Total(claims[..|claims| - 1]) + claims[|claims| - 1].amount
  }

  function Cap(epochFees: int, maxRebateBps: nat): int {
    TruncDiv(Saturate(epochFees * maxRebateBps), MAX_REBATE_BPS_LIMIT)
  }

  function Adjusted(amount: int, cap: int, total: int): int
    requires total > 0
  {
    TruncDiv(Saturate(amount * cap), total)
  }

  function AdjustAll<User>(claims: seq<Claim<User>>, cap: int, total: int): (r: seq<Claim<User>>)
    requires total > 0
    ensures |r| == |claims|
    ensures forall i | 0 <= i < |r| :: r[i] == Claim(claims[i].claimant, Adjusted(claims[i].amount, cap, total))
  {
    seq(|claims|, i requires 0 <= i < |claims| => Claim(claims[i].claimant, Adjusted(claims[i].amount, cap, total)))
  }

  /** `distributed` as it is accumulated, saturating at every addition. */
  function SaturatingTotal<User>(claims: seq<Claim<User>>): int {
    if claims == [] then 0 else Saturate(SaturatingTotal(claims[..|claims| - 1]) + claims[|claims| - 1].amount)
  }

  function Distributed<User>(epoch: nat, epochFees: int, maxRebateBps: nat, claims: seq<Claim<User>>)
    : Distribution<User>
  {
    var total, cap := Total(claims), Cap(epochFees, maxRebateBps);
    if total <= 0 then Distribution([], None)
    else if total <= cap then Distribution(claims, None)
    else
      var payouts := AdjustAll(claims, cap, total);
      Distribution(payouts, Some(CapApplied(epoch, total, SaturatingTotal(payouts))))
  }

  /** Summing the requests stays inside i128 at every step. */
  ghost predicate SumsFit<User>(claims: seq<Claim<User>>) {
    forall k | 0 <= k <= |claims| :: IsI128(Total(claims[..k]))
  }

  /** No result is the abort of a sum that leaves i128. */
  method DistributeRebates<User>(epoch: nat, epochFees: int, maxRebateBps: nat, claims: seq<Claim<User>>)
    returns (d: Option<Distribution<User>>)
    ensures d.Some? <==> SumsFit(claims)
    ensures d.Some? ==> d.value == Distributed(epoch, epochFees, maxRebateBps, claims)
  {
    var requested := 0;
    for i := 0 to |claims|
      invariant requested == Total(claims[..i])
      invariant forall k | 0 <= k <= i :: IsI128(Total(claims[..k]))
    {
      assert claims[..i + 1][..i] == claims[..i];
      requested := requested + claims[i].amount;
      if !IsI128(requested) {
        return None;
      }
    }
    assert claims[..|claims|] == claims;
    if requested <= 0 {
      return Some(Distribution([], None));
    }
    var cap := TruncDiv(Saturate(epochFees * maxRebateBps), MAX_REBATE_BPS_LIMIT);
    if requested <= cap {
      return Some(Distribution(claims, None));
    }
    var payouts, distributed := ScaleClaims(claims, cap, requested);
    return Some(Distribution(payouts, Some(CapApplied(epoch, requested, distributed))));
  }

  /** The loop that scales every claim. */
  method ScaleClaims<User>(claims: seq<Claim<User>>, cap: int, total: int)
    returns (payouts: seq<Claim<User>>, distributed: int)
    requires total > 0
    ensures payouts == AdjustAll(claims, cap, total) && distributed == SaturatingTotal(payouts)
  {
    payouts, distributed := [], 0;
    ghost var goal := AdjustAll(claims, cap, total);
    for i := 0 to |claims|
      invariant payouts == goal[..i] && distributed == SaturatingTotal(payouts)
    {
      var adjusted := TruncDiv(Saturate(claims[i].amount * cap), total);
      distributed := Saturate(distributed + adjusted);
      ghost var before := payouts;
      payouts := payouts + [Claim(claims[i].claimant, adjusted)];
      assert payouts[..|payouts| - 1] == before;
    }
    assert goal[..|claims|] == goal;
  }

  // ---- Sums of rounded shares ---------------------------------------------------------------

  ghost predicate NonNegative<User>(claims: seq<Claim<User>>) {
    forall i | 0 <= i < |claims| :: claims[i].amount >= 0
  }

  lemma {:induction false} TotalNonNegative<User>(claims: seq<Claim<User>>)
    requires NonNegative(claims)
    ensures Total(claims) >= 0
    decreases |claims|
  {
    if claims != [] {
      TotalNonNegative(claims[..|claims| - 1]);
    }
  }

  /** One share: rounded down, and at most the exact one even where the product saturates. */
  lemma AdjustedBounds(amount: nat, cap: nat, total: int)
    requires total > 0
    ensures var a := Adjusted(amount, cap, total);
            && 0 <= a && total * a <= amount * cap
            && (amount * cap <= I128_MAX ==> amount * cap - total * a < total)
  {
    MulMonotone(0, amount, cap);
    var product := Saturate(amount * cap);
    assert 0 <= product <= amount * cap;
    Quotient(product, total);
    var a := Adjusted(amount, cap, total);
    assert a * total == total * a;
  }

  lemma AdjustedPrefix<User>(claims: seq<Claim<User>>, cap: int, total: int)
    requires total > 0 && claims != []
    ensures var n := |claims| - 1;
            Total(AdjustAll(claims, cap, total))
              == Total(AdjustAll(claims[..n], cap, total)) + Adjusted(claims[n].amount, cap, total)
  {
    var n := |claims| - 1;
    assert AdjustAll(claims, cap, total)[..n] == AdjustAll(claims[..n], cap, total);
  }

  ghost predicate ProductsFit<User>(claims: seq<Claim<User>>, cap: int) {
    forall i | 0 <= i < |claims| :: claims[i].amount * cap <= I128_MAX
  }

  /** Adding one rounded share to a sum of rounded shares. */
  lemma AddShare(total: int, cap: nat, requested: int, sum: int, amount: int, a: int, n: nat)
    requires total > 0 && total * sum <= requested * cap && total * a <= amount * cap
    ensures total * (sum + a) <= (requested + amount) * cap
    ensures requested * cap - total * sum <= n * (total - 1) && amount * cap - total * a < total ==>
              (requested + amount) * cap - total * (sum + a) <= (n + 1) * (total - 1)
  {
    assert total * (sum + a) == total * sum + total * a;
    assert (requested + amount) * cap == requested * cap + amount * cap;
    assert (n + 1) * (total - 1) == n * (total - 1) + (total - 1);
  }

  /** The rounded shares sum to at most the exact share, and miss less than one unit each. */
  lemma {:induction false} SharesSum<User>(claims: seq<Claim<User>>, cap: nat, total: int)
    requires NonNegative(claims) && total > 0
    ensures var sum := Total(AdjustAll(claims, cap, total));
            && 0 <= sum && total * sum <= Total(claims) * cap
            && (ProductsFit(claims, cap) ==> Total(claims) * cap - total * sum <= |claims| * (total - 1))
    decreases |claims|
  {
    if claims != [] {
      var n := |claims| - 1;
      var rest, last := claims[..n], claims[n].amount;
      assert forall i | 0 <= i < n :: rest[i] == claims[i];
      SharesSum(rest, cap, total);
      AdjustedPrefix(claims, cap, total);
      AdjustedBounds(last, cap, total);
      AddShare(total, cap, Total(rest), Total(AdjustAll(rest, cap, total)), last, Adjusted(last, cap, total), n);
    }
  }

  lemma AdjustedMonotone(x: nat, y: nat, cap: nat, total: int)
    requires x <= y && total > 0
    ensures Adjusted(x, cap, total) <= Adjusted(y, cap, total)
  {
    MulMonotone(0, x, cap);
    MulMonotone(x, y, cap);
    var p, q := Saturate(x * cap), Saturate(y * cap);
    Quotient(p, total);
    Quotient(q, total);
    var a, b := Adjusted(x, cap, total), Adjusted(y, cap, total);
    assert (b + 1) * total == b * total + total;
    MulOrder(b + 1, a, total);
  }

  lemma AdjustedAtMostClaim(amount: nat, cap: nat, total: int)
    requires cap < total
    ensures Adjusted(amount, cap, total) <= amount
  {
    AdjustedBounds(amount, cap, total);
    var a := Adjusted(amount, cap, total);
    MulMonotone(cap, total, amount);
    assert amount * cap == cap * amount;
    assert (amount + 1) * total == total * amount + total && a * total == total * a;
    MulOrder(amount + 1, a, total);
  }

  lemma {:induction false} SumsDoNotSaturate<User>(claims: seq<Claim<User>>)
    requires NonNegative(claims) && Total(claims) <= I128_MAX
    ensures SaturatingTotal(claims) == Total(claims) >= 0
    decreases |claims|
  {
    if claims != [] {
      SumsDoNotSaturate(claims[..|claims| - 1]);
    }
  }

  /** The cap is its share of the fees, rounded down, and never above the fees. */
  lemma CapWithinFees(epochFees: nat, maxRebateBps: nat)
    requires maxRebateBps <= 10_000
    ensures 0 <= Cap(epochFees, maxRebateBps) <= epochFees && Cap(epochFees, maxRebateBps) <= I128_MAX
    ensures Cap(epochFees, maxRebateBps) * 10_000 <= epochFees * maxRebateBps
    ensures epochFees * maxRebateBps <= I128_MAX ==>
              epochFees * maxRebateBps < (Cap(epochFees, maxRebateBps) + 1) * 10_000
  {
    MulMonotone(0, epochFees, maxRebateBps);
    MulMonotone(maxRebateBps, MAX_REBATE_BPS_LIMIT, epochFees);
    assert epochFees * maxRebateBps == maxRebateBps * epochFees;
  }

  /**
   * Payouts never sum above the cap, no payout exceeds its claim, a larger claim never gets less,
   * the event tells the true sum, and a cap that applies is used up to less than a unit per claim.
   */
  lemma RebatesRespectCap<User>(epoch: nat, epochFees: nat, maxRebateBps: nat, claims: seq<Claim<User>>)
    requires NonNegative(claims) && maxRebateBps <= 10_000
    ensures var d, cap := Distributed(epoch, epochFees, maxRebateBps, claims), Cap(epochFees, maxRebateBps);
            && Total(d.payouts) <= cap <= epochFees
            && (|d.payouts| == |claims| || (d.payouts == [] && Total(claims) == 0))
            && (forall i | 0 <= i < |d.payouts| ::
                  d.payouts[i].claimant == claims[i].claimant && 0 <= d.payouts[i].amount <= claims[i].amount)
            && (forall i, j | 0 <= i < |d.payouts| && 0 <= j < |d.payouts| && claims[i].amount <= claims[j].amount ::
                  d.payouts[i].amount <= d.payouts[j].amount)
            && (d.capEvent.Some? <==> Total(claims) > cap)
            && (d.capEvent.None? && d.payouts != [] ==> d.payouts == claims)
            && (d.capEvent.Some? ==>
                  d.capEvent.value == CapApplied(epoch, Total(claims), Total(d.payouts)))
            && (d.capEvent.Some? && ProductsFit(claims, cap) ==> cap - Total(d.payouts) < |claims|)
  {
    TotalNonNegative(claims);
    CapWithinFees(epochFees, maxRebateBps);
    var total, cap := Total(claims), Cap(epochFees, maxRebateBps);
    if total > cap {
      var payouts := AdjustAll(claims, cap, total);
      SharesSum(claims, cap, total);
      UsedUp(total, cap, Total(payouts), |claims|);
      forall i | 0 <= i < |claims|
        ensures 0 <= payouts[i].amount <= claims[i].amount
      {
        AdjustedBounds(claims[i].amount, cap, total);
        AdjustedAtMostClaim(claims[i].amount, cap, total);
      }
      forall i, j | 0 <= i < |claims| && 0 <= j < |claims| && claims[i].amount <= claims[j].amount
        ensures payouts[i].amount <= payouts[j].amount
      {
        AdjustedMonotone(claims[i].amount, claims[j].amount, cap, total);
      }
      SumsDoNotSaturate(payouts);
    }
  }

  lemma UsedUp(total: int, cap: nat, sum: int, n: nat)
    requires total > 0 && total * sum <= total * cap
    ensures sum <= cap
    ensures total * cap - total * sum <= n * (total - 1) && (n > 0) ==> cap - sum < n
  {
    assert (cap + 1) * total == total * cap + total && sum * total == total * sum;
    MulOrder(cap + 1, sum, total);
    assert (cap - sum) * total == total * cap - total * sum;
    assert n * (total - 1) == n * total - n;
    MulOrder(n, cap - sum, total);
  }

  // ---- When the payouts sum to the cap exactly ---------------------------------------------------

  /** What rounding drops from the scaled claims, over the common divisor. */
  function Remainders<User>(claims: seq<Claim<User>>, cap: int, total: int): int
    requires total > 0
  {
    if claims == [] then 0
    else Remainders(claims[..|claims| - 1], cap, total) + claims[|claims| - 1].amount * cap % total
  }

  ghost predicate WholeShares<User>(claims: seq<Claim<User>>, cap: int, total: int)
    requires total > 0
  {
    forall i | 0 <= i < |claims| :: claims[i].amount * cap % total == 0
  }

  lemma {:induction false} RemaindersVanish<User>(claims: seq<Claim<User>>, cap: int, total: int)
    requires total > 0
    ensures Remainders(claims, cap, total) >= 0
    ensures Remainders(claims, cap, total) == 0 <==> WholeShares(claims, cap, total)
    decreases |claims|
  {
    if claims != [] {
      var rest := claims[..|claims| - 1];
      RemaindersVanish(rest, cap, total);
      assert forall i | 0 <= i < |rest| :: rest[i] == claims[i];
    }
  }

  lemma AddRemainder(total: int, cap: nat, requested: int, sum: int, dropped: int, amount: nat)
    requires total > 0 && requested * cap == total * sum + dropped
    ensures (requested + amount) * cap == total * (sum + amount * cap / total) + (dropped + amount * cap % total)
  {
    var p := amount * cap;
    assert p == total * (p / total) + p % total;
    assert (requested + amount) * cap == requested * cap + p;
    assert total * (sum + p / total) == total * sum + total * (p / total);
  }

  lemma {:induction false} RemaindersAccount<User>(claims: seq<Claim<User>>, cap: nat, total: int)
    requires NonNegative(claims) && total > 0 && ProductsFit(claims, cap)
    ensures Total(claims) * cap == total * Total(AdjustAll(claims, cap, total)) + Remainders(claims, cap, total)
    decreases |claims|
  {
    if claims != [] {
      var n := |claims| - 1;
      var rest, last := claims[..n], claims[n].amount;
      assert forall i | 0 <= i < n :: rest[i] == claims[i];
      RemaindersAccount(rest, cap, total);
      AdjustedPrefix(claims, cap, total);
      MulMonotone(0, last, cap);
      Quotient(last * cap, total);
      AddRemainder(total, cap, Total(rest), Total(AdjustAll(rest, cap, total)), Remainders(rest, cap, total), last);
    }
  }

  lemma {:induction false} SaturatedShareFallsShort<User>(claims: seq<Claim<User>>, cap: nat, total: int)
    requires NonNegative(claims) && total > 0 && !ProductsFit(claims, cap)
    ensures total * Total(AdjustAll(claims, cap, total)) < Total(claims) * cap
    decreases |claims|
  {
    var n := |claims| - 1;
    var rest, last := claims[..n], claims[n].amount;
    assert forall i | 0 <= i < n :: rest[i] == claims[i];
    SharesSum(rest, cap, total);
    AdjustedPrefix(claims, cap, total);
    AdjustedBounds(last, cap, total);
    if last * cap > I128_MAX {
      SaturatedBound(last, cap, total);
    } else {
      SaturatedShareFallsShort(rest, cap, total);
    }
    AddStrictly(total, cap, Total(rest), Total(AdjustAll(rest, cap, total)), last, Adjusted(last, cap, total));
  }

  lemma SaturatedBound(amount: nat, cap: nat, total: int)
    requires total > 0 && amount * cap > I128_MAX
    ensures total * Adjusted(amount, cap, total) < amount * cap
  {
    Quotient(I128_MAX, total);
    var a := Adjusted(amount, cap, total);
    assert a * total == total * a;
  }

  lemma AddStrictly(total: int, cap: nat, requested: int, sum: int, amount: int, a: int)
    requires total * sum <= requested * cap && total * a <= amount * cap
    requires total * sum < requested * cap || total * a < amount * cap
    ensures total * (sum + a) < (requested + amount) * cap
  {
    assert total * (sum + a) == total * sum + total * a;
    assert (requested + amount) * cap == requested * cap + amount * cap;
  }

  /**
   * A cap that applies is paid out in full exactly when no scaled claim saturates and every one is a
   * whole number.
   */
  lemma CapIsExhaustedIff<User>(epoch: nat, epochFees: nat, maxRebateBps: nat, claims: seq<Claim<User>>)
    requires NonNegative(claims) && maxRebateBps <= 10_000
    requires Total(claims) > Cap(epochFees, maxRebateBps)
    ensures Total(claims) > 0
    ensures Total(Distributed(epoch, epochFees, maxRebateBps, claims).payouts) == Cap(epochFees, maxRebateBps)
       <==> ProductsFit(claims, Cap(epochFees, maxRebateBps))
            && WholeShares(claims, Cap(epochFees, maxRebateBps), Total(claims))
  {
    var total, cap := Total(claims), Cap(epochFees, maxRebateBps);
    CapWithinFees(epochFees, maxRebateBps);
    if ProductsFit(claims, cap) {
      RemaindersAccount(claims, cap, total);
      RemaindersVanish(claims, cap, total);
      NothingDropped(total, cap, Total(AdjustAll(claims, cap, total)), Remainders(claims, cap, total));
    } else {
      SaturatedShareFallsShort(claims, cap, total);
    }
  }

  /** Three claims of one unit under a cap of two are paid nothing. */
  lemma PayoutsCanMissCap<User>(user: User)
    ensures var claims := [Claim(user, 1), Claim(user, 1), Claim(user, 1)];
            && Cap(2, MAX_REBATE_BPS_LIMIT) == 2 && Total(claims) == 3
            && Total(Distributed(0, 2, MAX_REBATE_BPS_LIMIT, claims).payouts) == 0
  {
    var one, none := Claim(user, 1), Claim(user, 0);
    TotalOfThree(one);
    TotalOfThree(none);
    assert AdjustAll([one, one, one], 2, 3) == [none, none, none];
  }

  lemma TotalOfThree<User>(c: Claim<User>)
    ensures Total([c, c, c]) == 3 * c.amount
  {
    assert [c, c, c][..2] == [c, c] && [c, c][..1] == [c] && [c][..0] == [];
    assert Total([c, c]) == Total([c]) + c.amount;
  }

  lemma NothingDropped(total: int, cap: int, sum: int, dropped: int)
    requires total > 0 && total * cap == total * sum + dropped
    ensures sum == cap <==> dropped == 0
  {
    var gap := cap - sum;
    assert dropped == total * gap;
    assert gap >= 1 ==> total * gap >= total;
    assert gap <= -1 ==> total * gap <= -total;
  }
}
