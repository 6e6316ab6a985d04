// The per-deposit lock-up of a withdrawal: two passes over the provider's deposit
// records, counting and then consuming unlocked shares oldest first.
module DepositLockup {
  import opened Options

  datatype DepositRecord = DepositRecord(shares: int, depositedAt: nat)

  predicate Unlocked(r: DepositRecord, now: nat, lockup: nat) {
    now >= r.depositedAt + lockup
  }

  // ---- The two passes -------------------------------------------------------------------

  /** The first pass, which stops as soon as `shares` are covered. */
  function CountUnlocked(records: seq<DepositRecord>, counted: int, shares: int, now: nat, lockup: nat): int
    decreases |records|
  {
    if records == [] then counted
    else
      var next := counted + (if Unlocked(records[0], now, lockup) then records[0].shares else 0);
      if next >= shares then next else CountUnlocked(records[1..], next, shares, now, lockup)
  }

  /** The second pass. */
  function ConsumeUnlocked(records: seq<DepositRecord>, remaining: int, now: nat, lockup: nat): seq<DepositRecord>
    decreases |records|
  {
    if records == [] then []
    else
      var r, rest := records[0], records[1..];
      if remaining <= 0 || !Unlocked(r, now, lockup) then [r] + ConsumeUnlocked(rest, remaining, now, lockup)
      else if r.shares <= remaining then ConsumeUnlocked(rest, remaining - r.shares, now, lockup)
      else [r.(shares := r.shares - remaining)] + ConsumeUnlocked(rest, 0, now, lockup)
  }

  /** The records after withdrawing `shares`; None is `DepositLocked`. */
  function Withdrawn(records: seq<DepositRecord>, shares: int, now: nat, lockup: nat): Option<seq<DepositRecord>> {
    if CountUnlocked(records, 0, shares, now, lockup) < shares then None
    else Some(ConsumeUnlocked(records, shares, now, lockup))
  }

  method WithdrawFifo(records: seq<DepositRecord>, shares: int, now: nat, lockup: nat)
    returns (r: Option<seq<DepositRecord>>)
    ensures r == Withdrawn(records, shares, now, lockup)
  {
    var unlocked := 0;
    var i := 0;
    while i < |records|
      invariant 0 <= i <= |records|
      invariant CountUnlocked(records, 0, shares, now, lockup)
          == CountUnlocked(records[i..], unlocked, shares, now, lockup)
    {
      assert records[i..][0] == records[i] && records[i..][1..] == records[i + 1..];
      if now >= records[i].depositedAt + lockup {
        unlocked := unlocked + records[i].shares;
      }
      if unlocked >= shares {
        break;
      }
      i := i + 1;
    }
    assert unlocked == CountUnlocked(records, 0, shares, now, lockup);
    if unlocked < shares {
      return None;
    }
    var updated := Consume(records, shares, now, lockup);
    return Some(updated);
  }

  /** The loop of the second pass. */
  method Consume(records: seq<DepositRecord>, shares: int, now: nat, lockup: nat) returns (updated: seq<DepositRecord>)
    ensures updated == ConsumeUnlocked(records, shares, now, lockup)
  {
    var remaining := shares;
    updated := [];
    for i := 0 to |records|
      invariant updated + ConsumeUnlocked(records[i..], remaining, now, lockup)
          == ConsumeUnlocked(records, shares, now, lockup)
    {
      var record := records[i];
      assert records[i..][0] == record && records[i..][1..] == records[i + 1..];
      if remaining <= 0 {
        updated := updated + [record];
      } else if now >= record.depositedAt + lockup {
        if record.shares <= remaining {
          remaining := remaining - record.shares;
        } else {
          var leftover := record.shares - remaining;
          remaining := 0;
          updated := updated + [DepositRecord(leftover, record.depositedAt)];
        }
      } else {
        updated := updated + [record];
      }
    }
    assert records[|records|..] == [];
    assert updated + [] == updated;
  }

  // ---- What the passes mean -----------------------------------------------------------------

  ghost predicate NonNegative(records: seq<DepositRecord>) {
    forall i | 0 <= i < |records| :: records[i].shares >= 0
  }

  ghost predicate Chronological(records: seq<DepositRecord>) {
    forall i, j | 0 <= i < j < |records| :: records[i].depositedAt <= records[j].depositedAt
  }

  function Total(records: seq<DepositRecord>): int {
    if records == [] then 0 else records[0].shares + Total(records[1..])
  }

  function UnlockedOf(records: seq<DepositRecord>, now: nat, lockup: nat): seq<DepositRecord> {
    if records == [] then []
    else (if Unlocked(records[0], now, lockup) then [records[0]] else []) + UnlockedOf(records[1..], now, lockup)
  }

  function LockedOf(records: seq<DepositRecord>, now: nat, lockup: nat): seq<DepositRecord> {
    if records == [] then []
    else (if Unlocked(records[0], now, lockup) then [] else [records[0]]) + LockedOf(records[1..], now, lockup)
  }

  /** One entry per share, carrying the time it was deposited. */
  ghost function Units(records: seq<DepositRecord>): seq<nat>
    requires NonNegative(records)
  {
    if records == [] then []
    else
      assert NonNegative(records[1..]);
      Repeat(records[0].depositedAt, records[0].shares) + Units(records[1..])
  }

  ghost function Repeat(t: nat, n: nat): (s: seq<nat>)
    ensures |s| == n && forall i | 0 <= i < n :: s[i] == t
  {
    if n == 0 then [] else [t] + Repeat(t, n - 1)
  }

  /** The simple reading: take `k` shares off the front. */
  function DropFront(records: seq<DepositRecord>, k: int): seq<DepositRecord> {
    if records == [] || k <= 0 then records
    else if records[0].shares <= k then DropFront(records[1..], k - records[0].shares)
    else CutFirst(records, k)
  }

  lemma {:induction false} TotalNonNegative(records: seq<DepositRecord>)
    requires NonNegative(records)
    ensures Total(records) >= 0 && |Units(records)| == Total(records)
    decreases |records|
  {
    if records != [] {
      assert NonNegative(records[1..]);
      TotalNonNegative(records[1..]);
    }
  }

  lemma {:induction false} UnlockedNonNegative(records: seq<DepositRecord>, now: nat, lockup: nat)
    requires NonNegative(records)
    ensures NonNegative(UnlockedOf(records, now, lockup)) && 0 <= Total(UnlockedOf(records, now, lockup))
    decreases |records|
  {
    if records != [] {
      assert NonNegative(records[1..]);
      UnlockedNonNegative(records[1..], now, lockup);
      TotalNonNegative(UnlockedOf(records, now, lockup));
    }
  }

  lemma UnlockedHead(records: seq<DepositRecord>, now: nat, lockup: nat)
    requires records != []
    ensures Total(UnlockedOf(records, now, lockup))
         == (if Unlocked(records[0], now, lockup) then records[0].shares else 0)
             + Total(UnlockedOf(records[1..], now, lockup))
  {
    var tail := UnlockedOf(records[1..], now, lockup);
    if Unlocked(records[0], now, lockup) {
      assert ([records[0]] + tail)[1..] == tail;
    } else {
      assert [] + tail == tail;
    }
  }

  /** The count falls short exactly when the unlocked shares do. */
  lemma {:induction false} CountDecides(records: seq<DepositRecord>, counted: int, shares: int, now: nat, lockup: nat)
    requires NonNegative(records)
    ensures CountUnlocked(records, counted, shares, now, lockup) < shares
       <==> counted + Total(UnlockedOf(records, now, lockup)) < shares
    decreases |records|
  {
    if records != [] {
      var next := counted + (if Unlocked(records[0], now, lockup) then records[0].shares else 0);
      assert NonNegative(records[1..]);
      UnlockedHead(records, now, lockup);
      UnlockedNonNegative(records[1..], now, lockup);
      CountDecides(records[1..], next, shares, now, lockup);
    }
  }

  lemma {:induction false} NothingToConsume(records: seq<DepositRecord>, remaining: int, now: nat, lockup: nat)
    requires remaining <= 0
    ensures ConsumeUnlocked(records, remaining, now, lockup) == records
    decreases |records|
  {
    if records != [] {
      NothingToConsume(records[1..], remaining, now, lockup);
      assert [records[0]] + records[1..] == records;
    }
  }

  lemma {:induction false} AllLocked(records: seq<DepositRecord>, now: nat, lockup: nat)
    requires forall i | 0 <= i < |records| :: !Unlocked(records[i], now, lockup)
    ensures UnlockedOf(records, now, lockup) == []
    decreases |records|
  {
    if records != [] {
      AllLocked(records[1..], now, lockup);
    }
  }

  /** On chronological records with enough unlocked shares, the second pass drops from the front. */
  lemma {:induction false} ConsumeDropsFront(records: seq<DepositRecord>, remaining: int, now: nat, lockup: nat)
    requires NonNegative(records) && Chronological(records)
    requires remaining <= Total(UnlockedOf(records, now, lockup))
    ensures ConsumeUnlocked(records, remaining, now, lockup) == DropFront(records, remaining)
    decreases |records|
  {
    if remaining <= 0 {
      NothingToConsume(records, remaining, now, lockup);
    } else if records != [] {
      var r, rest := records[0], records[1..];
      assert NonNegative(rest) && Chronological(rest);
      UnlockedHead(records, now, lockup);
      if !Unlocked(r, now, lockup) {
        AllLocked(records, now, lockup);
      } else if r.shares <= remaining {
        ConsumeDropsFront(rest, remaining - r.shares, now, lockup);
      } else {
        NothingToConsume(rest, 0, now, lockup);
      }
    }
  }

  lemma RepeatDrop(t: nat, n: nat, k: nat, rest: seq<nat>)
    requires k <= n
    ensures (Repeat(t, n) + rest)[k..] == Repeat(t, n - k) + rest
  {
    assert Repeat(t, n)[k..] == Repeat(t, n - k);
    assert (Repeat(t, n) + rest)[k..] == Repeat(t, n)[k..] + rest;
  }

  function CutFirst(records: seq<DepositRecord>, k: int): seq<DepositRecord>
    requires records != []
  {
    [records[0].(shares := records[0].shares - k)] + records[1..]
  }

  lemma UnitsHead(records: seq<DepositRecord>, k: int)
    requires NonNegative(records) && records != [] && 0 <= k < records[0].shares
    ensures NonNegative(CutFirst(records, k))
    ensures Units(CutFirst(records, k)) == Units(records)[k..]
  {
    var cut := CutFirst(records, k);
    assert forall i | 0 < i < |cut| :: cut[i] == records[i];
    assert NonNegative(cut);
    assert cut[1..] == records[1..];
    RepeatDrop(records[0].depositedAt, records[0].shares, k, Units(records[1..]));
  }

  lemma SkipWhole(first: seq<nat>, rest: seq<nat>, k: nat)
    requires |first| <= k <= |first| + |rest|
    ensures (first + rest)[k..] == rest[k - |first|..]
  {
  }

  /** Dropping from the front removes exactly the first `k` shares. */
  lemma {:induction false} DropFrontUnits(records: seq<DepositRecord>, k: nat)
    requires NonNegative(records) && k <= Total(records)
    ensures NonNegative(DropFront(records, k))
    ensures k <= |Units(records)| && Units(DropFront(records, k)) == Units(records)[k..]
    decreases |records|
  {
    TotalNonNegative(records);
    if records != [] && k > 0 {
      var first := records[0].shares;
      assert NonNegative(records[1..]);
      if first <= k {
        DropFrontUnits(records[1..], k - first);
        SkipWhole(Repeat(records[0].depositedAt, first), Units(records[1..]), k);
      } else {
        UnitsHead(records, k);
      }
    }
  }

  lemma {:induction false} LockedKept(records: seq<DepositRecord>, remaining: int, now: nat, lockup: nat)
    ensures LockedOf(ConsumeUnlocked(records, remaining, now, lockup), now, lockup) == LockedOf(records, now, lockup)
    decreases |records|
  {
    if records != [] {
      var r, rest := records[0], records[1..];
      if remaining <= 0 || !Unlocked(r, now, lockup) {
        var tail := ConsumeUnlocked(rest, remaining, now, lockup);
        LockedKept(rest, remaining, now, lockup);
        assert ([r] + tail)[1..] == tail;
      } else if r.shares <= remaining {
        LockedKept(rest, remaining - r.shares, now, lockup);
      } else {
        var cut, tail := r.(shares := r.shares - remaining), ConsumeUnlocked(rest, 0, now, lockup);
        LockedKept(rest, 0, now, lockup);
        assert ([cut] + tail)[1..] == tail;
      }
    }
  }

  lemma {:induction false} DropFrontKeepsOrder(records: seq<DepositRecord>, k: int)
    requires Chronological(records)
    ensures Chronological(DropFront(records, k))
    decreases |records|
  {
    if records != [] && k > 0 {
      if records[0].shares <= k {
        DropFrontKeepsOrder(records[1..], k - records[0].shares);
      } else {
        var cut := DropFront(records, k);
        assert forall i | 0 <= i < |cut| :: cut[i].depositedAt == records[i].depositedAt;
      }
    }
  }

  /**
   * On chronological records without negative shares, a withdrawal is refused exactly when the
   * unlocked shares are too few. Otherwise exactly the oldest `shares` shares are gone, no locked
   * record has changed and the order is kept.
   */
  lemma WithdrawalTakesOldestUnlocked(records: seq<DepositRecord>, shares: nat, now: nat, lockup: nat)
    requires NonNegative(records) && Chronological(records)
    ensures Withdrawn(records, shares, now, lockup).None? <==> Total(UnlockedOf(records, now, lockup)) < shares
    ensures Withdrawn(records, shares, now, lockup).Some? ==>
              var left := Withdrawn(records, shares, now, lockup).value;
              && left == DropFront(records, shares)
              && NonNegative(left) && Chronological(left)
              && shares <= |Units(records)| && Units(left) == Units(records)[shares..]
              && LockedOf(left, now, lockup) == LockedOf(records, now, lockup)
  {
    CountDecides(records, 0, shares, now, lockup);
    if shares <= Total(UnlockedOf(records, now, lockup)) {
      ConsumeDropsFront(records, shares, now, lockup);
      UnlockedAtMostTotal(records, now, lockup);
      DropFrontUnits(records, shares);
      DropFrontKeepsOrder(records, shares);
      LockedKept(records, shares, now, lockup);
    }
  }

  lemma {:induction false} UnlockedAtMostTotal(records: seq<DepositRecord>, now: nat, lockup: nat)
    requires NonNegative(records)
    ensures Total(UnlockedOf(records, now, lockup)) <= Total(records)
    decreases |records|
  {
    if records != [] {
      assert NonNegative(records[1..]);
      UnlockedHead(records, now, lockup);
      UnlockedAtMostTotal(records[1..], now, lockup);
    }
  }

  /** No share leaves before its lock-up ends: every dropped share was unlocked. */
  lemma {:induction false} DroppedSharesWereUnlocked(records: seq<DepositRecord>, shares: nat, now: nat, lockup: nat,
                                                     i: nat)
    requires NonNegative(records) && Chronological(records)
    requires i < shares <= Total(UnlockedOf(records, now, lockup))
    ensures i < |Units(records)| && now >= Units(records)[i] + lockup
    decreases |records|
  {
    TotalNonNegative(records);
    UnlockedAtMostTotal(records, now, lockup);
    var r, rest := records[0], records[1..];
    UnlockedHead(records, now, lockup);
    if !Unlocked(r, now, lockup) {
      AllLocked(records, now, lockup);
    } else if i >= r.shares {
      assert NonNegative(rest) && Chronological(rest);
      DroppedSharesWereUnlocked(rest, shares - r.shares, now, lockup, i - r.shares);
    }
  }
}
