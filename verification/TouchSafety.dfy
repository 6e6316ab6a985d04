// For which decay schedules refreshing a record can never cost anything.
//
// The decay product saturates at the largest i128, so one reading never loses more than
// `MAX_LOSS` points, while a refresh in between lets the same span lose twice.
module TouchSafety {
  import opened MachineInts
  import opened Reputation
  import opened ReputationRuns

  /** The most a single decay can take away. */
  const MAX_LOSS := I128_MAX / BPS

  /** No refresh up to time `horizon` of a record with a score in bounds, not below zero, makes it worth less. */
  ghost predicate NeverHurts(s: Schedule, horizon: nat) {
    forall r: Record, middle: nat, later: nat |
      r.score >= 0 && InBounds(r.score, s) && r.lastUpdated <= middle <= later <= horizon ::
      ApplyDecay(r, later, s) <= ApplyDecay(Touched(r, middle, s), later, s)
  }

  /**
   * Nothing decays, or one decay reaches the lower bound, or the scores are too small for a refresh
   * to leave anything between zero and the score.
   */
  predicate SafeSchedule(s: Schedule) {
    || s.rateBps == 0
    || s.max - s.min <= MAX_LOSS
    || (s.rateBps == BPS && s.max <= MAX_LOSS)
    || s.max <= 1
  }

  // ---- Safe schedules ---------------------------------------------------------------------------

  lemma LossAtMost(score: nat, rateBps: nat, intervals: nat)
    requires IsI128(score)
    ensures 0 <= Lost(score, rateBps, intervals) <= MAX_LOSS
    ensures score * rateBps * intervals > I128_MAX ==> Lost(score, rateBps, intervals) == MAX_LOSS
  {
    LostGrows(score, rateBps, 0, intervals);
    if intervals > 0 {
      LostOfNonNegative(score, rateBps, intervals);
    } else {
      assert score * rateBps * 0 == 0;
    }
  }

  lemma DecayInBounds(r: Record, now: nat, s: Schedule)
    requires Bounded(s) && InBounds(r.score, s)
    ensures InBounds(ApplyDecay(r, now, s), s)
  {
  }

  lemma TouchedScore(r: Record, middle: nat, s: Schedule)
    requires Bounded(s) && InBounds(r.score, s)
    ensures Touched(r, middle, s) == Record(ApplyDecay(r, middle, s), middle)
  {
    DecayInBounds(r, middle, s);
  }

  /** A refresh that leaves nothing above zero stops the decay. */
  lemma TouchedToNothing(r: Record, middle: nat, later: nat, s: Schedule)
    requires Bounded(s) && r.score >= 0 && InBounds(r.score, s) && middle <= later
    requires ApplyDecay(r, middle, s) <= 0
    ensures ApplyDecay(r, later, s) <= ApplyDecay(Touched(r, middle, s), later, s)
  {
    UntouchedDecays(r, middle, later, s);
    TouchedScore(r, middle, s);
    var touched := Touched(r, middle, s);
    NegativeLosesNothing(touched.score, s.rateBps, DueIntervals(touched, later, s));
    DirectIsAllIntervals(touched, later, s);
  }

  /** A refresh that leaves the score as it was only postpones the decay. */
  lemma TouchedUnchanged(r: Record, middle: nat, later: nat, s: Schedule)
    requires Bounded(s) && r.score >= 0 && InBounds(r.score, s) && r.lastUpdated <= middle <= later
    requires ApplyDecay(r, middle, s) == r.score
    ensures ApplyDecay(r, later, s) <= ApplyDecay(Touched(r, middle, s), later, s)
  {
    TouchedScore(r, middle, s);
    var touched := Touched(r, middle, s);
    SplitLosesIntervals(r, touched, later, s);
    LostGrows(r.score, s.rateBps, DueIntervals(touched, later, s), DueIntervals(r, later, s));
    LostGrows(r.score, s.rateBps, 0, DueIntervals(touched, later, s));
    DirectIsAllIntervals(r, later, s);
    DirectIsAllIntervals(touched, later, s);
  }

  /** With a full rate, or a score of one, a refresh takes all or nothing. */
  lemma AllOrNothing(r: Record, middle: nat, s: Schedule)
    requires Bounded(s) && 0 <= r.score <= s.max && s.min <= 0
    requires r.score <= 1 || (s.rateBps == BPS && r.score <= MAX_LOSS)
    ensures ApplyDecay(r, middle, s) <= 0 || ApplyDecay(r, middle, s) == r.score
  {
    var n := DueIntervals(r, middle, s);
    DirectIsAllIntervals(r, middle, s);
    LostGrows(r.score, s.rateBps, 0, n);
    if n > 0 && r.score > 1 {
      LostOfNonNegative(r.score, BPS, n);
      ScaleMonotone(1, n, r.score * BPS);
      assert r.score * BPS * n >= r.score * BPS;
    }
  }

  lemma SafeTouch(r: Record, middle: nat, later: nat, s: Schedule)
    requires Bounded(s) && SafeSchedule(s) && r.score >= 0 && InBounds(r.score, s) && r.lastUpdated <= middle <= later
    ensures ApplyDecay(r, later, s) <= ApplyDecay(Touched(r, middle, s), later, s)
  {
    var product := r.score * s.rateBps * DueIntervals(r, later, s);
    if product <= I128_MAX {
      TouchNeverHurts(r, middle, later, s);
    } else if s.max - s.min <= MAX_LOSS {
      DirectIsAllIntervals(r, later, s);
      LossAtMost(r.score, s.rateBps, DueIntervals(r, later, s));
      TouchedScore(r, middle, s);
      DecayInBounds(r, middle, s);
      DecayInBounds(Touched(r, middle, s), later, s);
    } else {
      NoProductWithoutRate(r.score, s.rateBps, DueIntervals(r, later, s));
      AllOrNothing(r, middle, s);
      if ApplyDecay(r, middle, s) <= 0 {
        TouchedToNothing(r, middle, later, s);
      } else {
        TouchedUnchanged(r, middle, later, s);
      }
    }
  }

  lemma NoProductWithoutRate(score: nat, rateBps: nat, intervals: nat)
    ensures rateBps == 0 ==> score * rateBps * intervals == 0
  {
  }

  lemma SafeNeverHurts(s: Schedule, horizon: nat)
    requires Bounded(s) && SafeSchedule(s)
    ensures NeverHurts(s, horizon)
  {
    forall r: Record, middle: nat, later: nat |
      r.score >= 0 && InBounds(r.score, s) && r.lastUpdated <= middle <= later <= horizon
      ensures ApplyDecay(r, later, s) <= ApplyDecay(Touched(r, middle, s), later, s)
    {
      SafeTouch(r, middle, later, s);
    }
  }

  /** The same for the stored ledger: under a safe schedule a zero update never lowers a later reading. */
  lemma ZeroUpdateIsSafe(st: State, sentinels: set<Address>, provider: Address, middle: nat, later: nat)
    requires st.schedule.Some? && provider in st.records && provider !in sentinels
    requires var r, s := st.records[provider], st.schedule.value;
             && Bounded(s) && SafeSchedule(s) && r.score >= 0 && InBounds(r.score, s)
             && r.lastUpdated <= middle <= later
    ensures Updated(st, sentinels, provider, 0, middle).Ok?
    ensures var touched := Updated(st, sentinels, provider, 0, middle).value.0;
            Reading(st, provider, later).value <= Reading(touched, provider, later).value
  {
    SafeTouch(st.records[provider], middle, later, st.schedule.value);
  }

  // ---- Unsafe schedules -------------------------------------------------------------------------

  /** After `first` intervals, a refresh, and `second` more, one decay of the whole span is worth more. */
  lemma HurtsBy(s: Schedule, first: nat, second: nat)
    requires Bounded(s) && s.max >= 0 && first > 0
    requires s.max * s.rateBps * (first + second) > I128_MAX && s.max - MAX_LOSS > s.min
    requires var lost := Lost(s.max, s.rateBps, first);
             s.max - lost > 0 && s.max - lost >= s.min && lost + Lost(s.max - lost, s.rateBps, second) > MAX_LOSS
    ensures var r, middle := Record(s.max, 0), TimeOf(s, first);
            var later := middle + TimeOf(s, second);
            ApplyDecay(Touched(r, middle, s), later, s) < ApplyDecay(r, later, s)
  {
    var middle := TimeOf(s, first);
    TouchedAt(s, first, second);
    UntouchedAt(s, first, second);
  }

  lemma DecayAt(r: Record, s: Schedule, n: nat)
    requires Bounded(s) && r.score >= 0 && InBounds(r.score, s)
    ensures ApplyDecay(r, r.lastUpdated + TimeOf(s, n), s) == Clamp(r.score - Lost(r.score, s.rateBps, n), s)
  {
    DueAt(r, s, n);
    DirectIsAllIntervals(r, r.lastUpdated + TimeOf(s, n), s);
    LossAtMost(r.score, s.rateBps, n);
  }

  lemma TouchedAt(s: Schedule, first: nat, second: nat)
    requires Bounded(s) && s.max >= 0
    requires var rest := s.max - Lost(s.max, s.rateBps, first); rest > 0 && rest >= s.min
    ensures var r, middle := Record(s.max, 0), TimeOf(s, first);
            var rest := s.max - Lost(s.max, s.rateBps, first);
            ApplyDecay(Touched(r, middle, s), middle + TimeOf(s, second), s)
              == Clamp(rest - Lost(rest, s.rateBps, second), s)
  {
    var r, middle := Record(s.max, 0), TimeOf(s, first);
    DecayAt(r, s, first);
    LossAtMost(s.max, s.rateBps, first);
    TouchedScore(r, middle, s);
    DecayAt(Touched(r, middle, s), s, second);
  }

  lemma UntouchedAt(s: Schedule, first: nat, second: nat)
    requires Bounded(s) && s.max * s.rateBps * (first + second) > I128_MAX && s.max - MAX_LOSS > s.min && s.max >= 0
    ensures ApplyDecay(Record(s.max, 0), TimeOf(s, first) + TimeOf(s, second), s) == s.max - MAX_LOSS
  {
    var r, middle := Record(s.max, 0), TimeOf(s, first);
    var touched, later := Record(0, middle), middle + TimeOf(s, second);
    DueAt(r, s, first);
    DueAt(touched, s, second);
    SplitLosesIntervals(r, touched, later, s);
    ScaleMonotone(0, s.max, s.rateBps);
    ScaleMonotone(first + second, DueIntervals(r, later, s), s.max * s.rateBps);
    DirectIsAllIntervals(r, later, s);
    LossAtMost(s.max, s.rateBps, DueIntervals(r, later, s));
    assert s.max * s.rateBps * 0 == 0;
  }

  /** Scores that one decay cannot clear: the first decay already takes the most it can. */
  lemma LargeScoresHurt(s: Schedule)
    requires Bounded(s) && s.rateBps > 0 && s.max > MAX_LOSS && s.max - MAX_LOSS > s.min
    ensures !NeverHurts(s, 2 * TimeOf(s, BPS))
  {
    SaturatesAt(s.max, s.rateBps, BPS);
    SaturatesAt(s.max, s.rateBps, BPS + BPS);
    LossAtMost(s.max, s.rateBps, BPS);
    LosesAtLeastOne(s.max - MAX_LOSS, s.rateBps);
    HurtsBy(s, BPS, BPS);
    assert InBounds(s.max, s);
    var r, middle := Record(s.max, 0), TimeOf(s, BPS);
    assert r.lastUpdated <= middle <= 2 * middle;
  }

  lemma SaturatesAt(score: nat, rateBps: nat, intervals: nat)
    requires score > MAX_LOSS && rateBps > 0 && intervals >= BPS
    ensures score * rateBps * intervals > I128_MAX
  {
    ScaleMonotone(1, rateBps, score);
    ScaleMonotone(score, score * rateBps, intervals);
    ScaleMonotone(BPS, intervals, score);
    assert score * BPS > I128_MAX;
    assert score * intervals >= score * BPS;
  }

  lemma LosesAtLeastOne(score: nat, rateBps: nat)
    requires score > 0 && IsI128(score) && rateBps > 0
    ensures Lost(score, rateBps, BPS) >= 1
  {
    ScaleMonotone(1, rateBps, score);
    ScaleMonotone(1, score * rateBps, BPS);
    LostOfNonNegative(score, rateBps, BPS);
  }

  /** An interval count after which something, but not everything, is lost. */
  function SomeIntervals(score: nat, rateBps: nat): nat
    requires score * rateBps > 0
  {
    if score * rateBps >= BPS then 1 else (BPS + score * rateBps - 1) / (score * rateBps)
  }

  lemma LosesSome(score: nat, rateBps: nat)
    requires 2 <= score <= MAX_LOSS && 0 < rateBps < BPS
    ensures score * rateBps > 0 && SomeIntervals(score, rateBps) > 0
    ensures 0 < Lost(score, rateBps, SomeIntervals(score, rateBps)) < score
  {
    var q := score * rateBps;
    ScaleMonotone(1, rateBps, score);
    ScaleMonotone(rateBps, BPS - 1, score);
    assert q <= score * (BPS - 1) == score * BPS - score;
    var n := SomeIntervals(score, rateBps);
    if q < BPS {
      RoundedUp(BPS, q);
    }
    LostOfNonNegative(score, rateBps, n);
  }

  lemma RoundedUp(x: nat, q: nat)
    requires 0 < q < x
    ensures var n := (x + q - 1) / q; n > 0 && x <= q * n < x + q
  {
    var y := x + q - 1;
    assert y == q * (y / q) + y % q;
    MulOrder(y / q, 0, q);
  }

  /** Scores down to below zero: a refresh leaves something that decays in full once more. */
  lemma NegativeScoresHurt(s: Schedule)
    requires Bounded(s) && 0 < s.rateBps < BPS && 2 <= s.max <= MAX_LOSS && s.min < s.max - MAX_LOSS
    ensures !NeverHurts(s, TimeOf(s, SomeIntervals(s.max, s.rateBps)) + TimeOf(s, I128_MAX + 1))
  {
    LosesSome(s.max, s.rateBps);
    var first, second := SomeIntervals(s.max, s.rateBps), I128_MAX + 1;
    var rest := s.max - Lost(s.max, s.rateBps, first);
    ManyIntervalsSaturate(rest, s.rateBps, second);
    ManyIntervalsSaturate(s.max, s.rateBps, first + second);
    LossAtMost(rest, s.rateBps, second);
    HurtsBy(s, first, second);
    assert InBounds(s.max, s);
    var r, middle := Record(s.max, 0), TimeOf(s, first);
    assert r.lastUpdated <= middle <= middle + TimeOf(s, second);
  }

  lemma ManyIntervalsSaturate(score: nat, rateBps: nat, intervals: nat)
    requires score > 0 && rateBps > 0 && intervals > I128_MAX
    ensures score * rateBps * intervals > I128_MAX
  {
    ScaleMonotone(1, rateBps, score);
    ScaleMonotone(1, score * rateBps, intervals);
  }

  // ---- Exactly when -----------------------------------------------------------------------------

  /** Exactly the safe schedules never punish a refresh, at any time. */
  lemma TouchSafeIff(s: Schedule)
    requires Bounded(s)
    ensures (forall horizon :: NeverHurts(s, horizon)) <==> SafeSchedule(s)
  {
    if SafeSchedule(s) {
      forall horizon
        ensures NeverHurts(s, horizon)
      {
        SafeNeverHurts(s, horizon);
      }
    } else if s.max > MAX_LOSS {
      LargeScoresHurt(s);
    } else {
      NegativeScoresHurt(s);
    }
  }

  /**
   * Within the 64-bit clock: with bounds that are not negative, and a schedule of which 20000
   * intervals fit the clock, a refresh never hurts exactly when nothing decays or one decay can span
   * the bounds.
   */
  lemma TouchSafeWithinClock(s: Schedule)
    requires Bounded(s) && s.min >= 0 && 2 * TimeOf(s, BPS) <= U64_MAX
    ensures NeverHurts(s, U64_MAX) <==> s.rateBps == 0 || s.max - s.min <= MAX_LOSS
  {
    if s.rateBps == 0 || s.max - s.min <= MAX_LOSS {
      SafeNeverHurts(s, U64_MAX);
    } else {
      LargeScoresHurt(s);
      LongerHorizon(s, 2 * TimeOf(s, BPS), U64_MAX);
    }
  }

  lemma LongerHorizon(s: Schedule, horizon: nat, longer: nat)
    requires horizon <= longer
    ensures NeverHurts(s, longer) ==> NeverHurts(s, horizon)
  {
  }

  // ---- Exactly when, up to any time -------------------------------------------------------------

  /** The greatest score, refreshed after `first` intervals, loses no more by `second` later than one decay may take. */
  predicate PairIsSafe(s: Schedule, first: nat, second: nat) {
    var lost := Lost(s.max, s.rateBps, first);
    s.max - lost <= 0 || lost + Lost(s.max - lost, s.rateBps, second) <= MAX_LOSS
  }

  /** One decay spans the bounds, or every two spans that fit the horizon are safe for the greatest score. */
  ghost predicate SafeBy(s: Schedule, horizon: nat) {
    || s.max < 0
    || s.max - s.min <= MAX_LOSS
    || forall first: nat, second: nat | TimeOf(s, first) + TimeOf(s, second) <= horizon :: PairIsSafe(s, first, second)
  }

  lemma LossGrowsWithScore(score: nat, top: nat, rateBps: nat, n: nat)
    requires score <= top && IsI128(top)
    ensures Lost(score, rateBps, n) <= Lost(top, rateBps, n)
  {
    if n > 0 {
      LostOfNonNegative(score, rateBps, n);
      LostOfNonNegative(top, rateBps, n);
      ScaleMonotone(score, top, rateBps);
      ScaleMonotone(score * rateBps, top * rateBps, n);
    }
  }

  /** Where a score keeps something, a greater one keeps at least as much. */
  lemma RestGrows(score: nat, top: nat, rateBps: nat, n: nat)
    requires score <= top && IsI128(top) && score - Lost(score, rateBps, n) > 0
    ensures top - Lost(top, rateBps, n) >= score - Lost(score, rateBps, n)
  {
    if n > 0 {
      CappedLoss(score, rateBps, n);
      CappedLoss(top, rateBps, n);
      KeepsMore(score, top, rateBps * n);
    }
  }

  /** The loss with its two factors taken as one. */
  lemma CappedLoss(score: nat, rateBps: nat, n: nat)
    requires IsI128(score) && n > 0
    ensures Lost(score, rateBps, n)
        == (if score * (rateBps * n) <= I128_MAX then score * (rateBps * n) else I128_MAX) / BPS
  {
    LostOfNonNegative(score, rateBps, n);
    Associates(score, rateBps, n);
  }

  lemma Associates(x: int, y: int, z: int)
    ensures x * y * z == x * (y * z)
  {
  }

  lemma KeepsMore(score: nat, top: nat, q: nat)
    requires score <= top && IsI128(top)
    requires score > (if score * q <= I128_MAX then score * q else I128_MAX) / BPS
    ensures top - (if top * q <= I128_MAX then top * q else I128_MAX) / BPS
         >= score - (if score * q <= I128_MAX then score * q else I128_MAX) / BPS
  {
    var more := top - score;
    assert top * q == score * q + more * q;
    ScaleMonotone(0, score, q);
    ScaleMonotone(0, more, q);
    MulOrder(BPS, q, score);
    MulOrder(q, BPS, more);
  }

  /** An interval is only due once the grace period and the interval are over. */
  lemma TimeOfDue(r: Record, now: nat, s: Schedule)
    requires DueIntervals(r, now, s) > 0
    ensures r.lastUpdated + TimeOf(s, DueIntervals(r, now, s)) <= now
  {
    var x := now - r.lastUpdated - s.grace;
    assert x == x / s.interval * s.interval + x % s.interval;
  }

  lemma SafeByTouch(r: Record, middle: nat, later: nat, s: Schedule, horizon: nat)
    requires Bounded(s) && SafeBy(s, horizon) && r.score >= 0 && InBounds(r.score, s)
    requires r.lastUpdated <= middle <= later <= horizon
    ensures ApplyDecay(r, later, s) <= ApplyDecay(Touched(r, middle, s), later, s)
  {
    if s.max - s.min <= MAX_LOSS {
      SafeTouch(r, middle, later, s);
    } else if r.score * s.rateBps * DueIntervals(r, later, s) <= I128_MAX {
      TouchNeverHurts(r, middle, later, s);
    } else if ApplyDecay(r, middle, s) <= 0 {
      TouchedToNothing(r, middle, later, s);
    } else if ApplyDecay(r, middle, s) == r.score {
      TouchedUnchanged(r, middle, later, s);
    } else {
      SafePairTouch(r, middle, later, s, horizon);
    }
  }

  lemma SafePairTouch(r: Record, middle: nat, later: nat, s: Schedule, horizon: nat)
    requires Bounded(s) && SafeBy(s, horizon) && r.score >= 0 && InBounds(r.score, s) && s.max - s.min > MAX_LOSS
    requires r.lastUpdated <= middle <= later <= horizon && 0 < ApplyDecay(r, middle, s) != r.score
    requires r.score * s.rateBps * DueIntervals(r, later, s) > I128_MAX
    ensures ApplyDecay(r, later, s) <= ApplyDecay(Touched(r, middle, s), later, s)
  {
    TouchedScore(r, middle, s);
    var touched := Touched(r, middle, s);
    var first, second := DueIntervals(r, middle, s), DueIntervals(touched, later, s);
    DirectIsAllIntervals(r, middle, s);
    DirectIsAllIntervals(r, later, s);
    DirectIsAllIntervals(touched, later, s);
    UntouchedDecays(r, middle, later, s);
    LossAtMost(r.score, s.rateBps, first);
    LossAtMost(r.score, s.rateBps, DueIntervals(r, later, s));
    LossAtMost(touched.score, s.rateBps, second);
    DecayInBounds(touched, later, s);
    if second > 0 && touched.score == r.score - Lost(r.score, s.rateBps, first) {
      TimeOfDue(r, middle, s);
      TimeOfDue(touched, later, s);
      assert PairIsSafe(s, first, second);
      PairBounds(r.score, s, first, second);
    }
  }

  /** What holds for the greatest score holds for every score that keeps something. */
  lemma PairBounds(score: nat, s: Schedule, first: nat, second: nat)
    requires Bounded(s) && score <= s.max && PairIsSafe(s, first, second)
    requires score - Lost(score, s.rateBps, first) > 0
    ensures Lost(score, s.rateBps, first) + Lost(score - Lost(score, s.rateBps, first), s.rateBps, second) <= MAX_LOSS
  {
    LossAtMost(score, s.rateBps, first);
    LossAtMost(s.max, s.rateBps, first);
    RestGrows(score, s.max, s.rateBps, first);
    LossGrowsWithScore(score, s.max, s.rateBps, first);
    LossGrowsWithScore(score - Lost(score, s.rateBps, first), s.max - Lost(s.max, s.rateBps, first), s.rateBps, second);
  }

  /** Two spans that together lose more than one decay may take saturate it. */
  lemma UnsafePairSaturates(s: Schedule, first: nat, second: nat)
    requires Bounded(s) && s.max >= 0 && !PairIsSafe(s, first, second)
    ensures first > 0 && s.max * s.rateBps * (first + second) > I128_MAX
  {
    var p := s.max * s.rateBps;
    ScaleMonotone(0, s.max, s.rateBps);
    LossAtMost(s.max, s.rateBps, first);
    var rest := s.max - Lost(s.max, s.rateBps, first);
    LossAtMost(rest, s.rateBps, second);
    LossWithinProduct(s.max, s.rateBps, first);
    LossWithinProduct(rest, s.rateBps, second);
    ScaleMonotone(rest, s.max, s.rateBps);
    ScaleMonotone(rest * s.rateBps, p, second);
    assert p * (first + second) == p * first + p * second;
    assert Lost(s.max, s.rateBps, 0) == 0;
  }

  lemma LossWithinProduct(score: nat, rateBps: nat, n: nat)
    requires IsI128(score)
    ensures Lost(score, rateBps, n) * BPS <= score * rateBps * n
  {
    if n > 0 {
      LostOfNonNegative(score, rateBps, n);
      ScaleMonotone(0, score, rateBps);
      ScaleMonotone(0, score * rateBps, n);
    }
  }

  lemma UnsafePairHurts(s: Schedule, first: nat, second: nat)
    requires Bounded(s) && s.max >= 0 && s.max - s.min > MAX_LOSS && !PairIsSafe(s, first, second)
    ensures !NeverHurts(s, TimeOf(s, first) + TimeOf(s, second))
  {
    UnsafePairSaturates(s, first, second);
    LossAtMost(s.max, s.rateBps, first);
    HurtsBy(s, first, second);
    var r, middle := Record(s.max, 0), TimeOf(s, first);
    assert InBounds(r.score, s) && r.lastUpdated <= middle <= middle + TimeOf(s, second);
  }

  /**
   * For every schedule and every horizon, the end of the 64-bit clock among them: no refresh up to then
   * hurts exactly when one decay spans the bounds or the greatest score is safe over every two spans
   * that fit.
   */
  lemma TouchSafeUntil(s: Schedule, horizon: nat)
    requires Bounded(s)
    ensures NeverHurts(s, horizon) <==> SafeBy(s, horizon)
  {
    if SafeBy(s, horizon) {
      forall r: Record, middle: nat, later: nat |
        r.score >= 0 && InBounds(r.score, s) && r.lastUpdated <= middle <= later <= horizon
        ensures ApplyDecay(r, later, s) <= ApplyDecay(Touched(r, middle, s), later, s)
      {
        SafeByTouch(r, middle, later, s, horizon);
      }
    } else {
      var first: nat, second: nat :|
        TimeOf(s, first) + TimeOf(s, second) <= horizon && !PairIsSafe(s, first, second);
      UnsafePairHurts(s, first, second);
      LongerHorizon(s, TimeOf(s, first) + TimeOf(s, second), horizon);
    }
  }
}
