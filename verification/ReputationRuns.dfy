// Touching a record never hurts, and bounded decay checkpoints converge to the
// direct reading in every run.
module ReputationRuns {
  import opened Options
  import opened MachineInts
  import opened Reputation

  // ---- Touching a record ---------------------------------------------------------------------

  /** A score below zero never loses points. */
  lemma NegativeLosesNothing(score: int, rateBps: nat, intervals: nat)
    requires score <= 0
    ensures Lost(score, rateBps, intervals) <= 0
  {
    ScaleMonotone(score, 0, rateBps);
    ScaleMonotone(Saturate(score * rateBps), 0, intervals);
  }

  lemma ProductsAdd(p: nat, q: nat, first: nat, second: nat, all: nat)
    requires q <= p && first + second <= all
    ensures 0 <= p * first && 0 <= q * second && p * first + q * second <= p * all
  {
    ScaleMonotone(first + second, all, p);
    ScaleMonotone(q, p, second);
    assert p * (first + second) == p * first + p * second;
  }

  /** Losing in two steps, the second from the smaller score, loses no more than at once. */
  lemma LossesAdd(score: nat, smaller: nat, rateBps: nat, first: nat, second: nat, all: nat)
    requires smaller <= score && first + second <= all && score * rateBps * all <= I128_MAX && IsI128(score)
    ensures Lost(score, rateBps, first) + Lost(smaller, rateBps, second) <= Lost(score, rateBps, all)
  {
    ScaleMonotone(0, smaller, rateBps);
    ScaleMonotone(smaller, score, rateBps);
    var a, b, c := score * rateBps * first, smaller * rateBps * second, score * rateBps * all;
    ProductsAdd(score * rateBps, smaller * rateBps, first, second, all);
    ExactLoss(score, rateBps, first);
    ExactLoss(smaller, rateBps, second);
    ExactLoss(score, rateBps, all);
    DivSum(a, b, BPS);
    DivMonotone(a + b, c, BPS);
  }

  lemma ExactLoss(score: nat, rateBps: nat, intervals: nat)
    requires IsI128(score) && 0 <= score * rateBps * intervals <= I128_MAX
    ensures Lost(score, rateBps, intervals) == score * rateBps * intervals / BPS
  {
    if intervals > 0 {
      LostOfNonNegative(score, rateBps, intervals);
    } else {
      assert score * rateBps * 0 == 0;
    }
  }

  ghost predicate Bounded(s: Schedule) {
    ValidSchedule(s) && IsI128(s.min) && IsI128(s.max)
  }

  // ---- Idle records -------------------------------------------------------------------------------

  /** Left alone, the record is never worth more later than earlier, up to time `horizon`. */
  ghost predicate NeverRises(r: Record, s: Schedule, horizon: nat) {
    forall now: nat, later: nat | now <= later <= horizon :: ApplyDecay(r, later, s) <= ApplyDecay(r, now, s)
  }

  /** A negative score wins points back, at least one after enough intervals. */
  lemma NegativeGains(score: int, rateBps: nat)
    requires score < 0 < rateBps
    ensures Lost(score, rateBps, BPS) <= -1
  {
    ScaleMonotone(score, -1, rateBps);
    ScaleMonotone(Saturate(score * rateBps), -1, BPS);
  }

  lemma NoRateNoLoss(score: int, intervals: nat)
    ensures Lost(score, 0, intervals) == 0
  {
  }

  /**
   * Over a time in which enough intervals fall due, an idle score never rises exactly when it is not
   * negative, or nothing decays, or it stands at the upper bound.
   */
  lemma IdleNeverRisesIff(r: Record, s: Schedule, horizon: nat)
    requires Bounded(s) && InBounds(r.score, s) && r.lastUpdated + TimeOf(s, BPS) <= horizon
    ensures NeverRises(r, s, horizon) <==> r.score >= 0 || s.rateBps == 0 || r.score == s.max
  {
    if r.score >= 0 || s.rateBps == 0 || r.score == s.max {
      forall now: nat, later: nat | now <= later <= horizon
        ensures ApplyDecay(r, later, s) <= ApplyDecay(r, now, s)
      {
        if r.score >= 0 {
          UntouchedDecays(r, now, later, s);
        } else {
          StandsStill(r, now, s);
          StandsStill(r, later, s);
        }
      }
    } else {
      var later := r.lastUpdated + TimeOf(s, BPS);
      DueAt(r, s, BPS);
      DirectIsAllIntervals(r, later, s);
      NegativeGains(r.score, s.rateBps);
      assert ApplyDecay(r, later, s) > ApplyDecay(r, r.lastUpdated, s);
    }
  }

  lemma StandsStill(r: Record, now: nat, s: Schedule)
    requires Bounded(s) && InBounds(r.score, s) && r.score < 0 && (s.rateBps == 0 || r.score == s.max)
    ensures ApplyDecay(r, now, s) == r.score
  {
    var n := DueIntervals(r, now, s);
    DirectIsAllIntervals(r, now, s);
    NegativeLosesNothing(r.score, s.rateBps, n);
    if s.rateBps == 0 {
      NoRateNoLoss(r.score, n);
    }
  }

  /** A score of minus one hundred reads four hundred after five idle intervals. */
  lemma NegativeScoreRises()
    ensures ApplyDecay(Record(-100, 0), 5, Schedule(10_000, 1, 0, -1000, 1000)) == 400
  {
  }

  // ---- Refreshing -----------------------------------------------------------------------------------

  /** The record that `update_reputation(p, 0)` stores. */
  function Touched(r: Record, now: nat, s: Schedule): Record {
    Record(Clamp(Saturate(ApplyDecay(r, now, s) + 0), s), now)
  }

  /**
   * Touching a record never hurts: refreshed at any intermediate time, it is worth at least as much
   * later as if it had been left alone, as long as the decay product fits i128.
   */
  lemma TouchNeverHurts(r: Record, middle: nat, later: nat, s: Schedule)
    requires Bounded(s) && r.score >= 0 && InBounds(r.score, s)
    requires r.lastUpdated <= middle <= later
    requires r.score * s.rateBps * DueIntervals(r, later, s) <= I128_MAX
    ensures ApplyDecay(r, later, s) <= ApplyDecay(Touched(r, middle, s), later, s)
  {
    var touched := Touched(r, middle, s);
    var first, second, all := DueIntervals(r, middle, s), DueIntervals(touched, later, s), DueIntervals(r, later, s);
    UntouchedDecays(r, middle, later, s);
    assert touched.score == ApplyDecay(r, middle, s);
    SplitLosesIntervals(r, touched, later, s);
    DirectIsAllIntervals(r, middle, s);
    DirectIsAllIntervals(r, later, s);
    DirectIsAllIntervals(touched, later, s);
    LostGrows(r.score, s.rateBps, 0, first);
    if touched.score >= 0 {
      LossesAdd(r.score, touched.score, s.rateBps, first, second, all);
      LostGrows(touched.score, s.rateBps, 0, second);
      LostGrows(r.score, s.rateBps, 0, all);
    } else {
      NegativeLosesNothing(touched.score, s.rateBps, second);
    }
  }

  /** The same for the stored ledger: a zero update in between never lowers a later reading. */
  lemma ZeroUpdateNeverHurts(st: State, sentinels: set<Address>, provider: Address, middle: nat, later: nat)
    requires st.schedule.Some? && provider in st.records && provider !in sentinels
    requires var r, s := st.records[provider], st.schedule.value;
             && Bounded(s) && r.score >= 0 && InBounds(r.score, s) && r.lastUpdated <= middle <= later
             && r.score * s.rateBps * DueIntervals(r, later, s) <= I128_MAX
    ensures Updated(st, sentinels, provider, 0, middle).Ok?
    ensures var touched := Updated(st, sentinels, provider, 0, middle).value.0;
            Reading(st, provider, later).value <= Reading(touched, provider, later).value
  {
    TouchNeverHurts(st.records[provider], middle, later, st.schedule.value);
  }

  /**
   * An update changes the current reading by the given amount, stopping at the bounds, and what it
   * returns is what is read; nobody else's reading changes, at any time.
   */
  lemma UpdateMovesByDelta(st: State, sentinels: set<Address>, provider: Address, delta: int, now: nat,
                           other: Address, later: nat)
    requires Updated(st, sentinels, provider, delta, now).Ok? && other != provider
    requires var s := st.schedule.value; ValidSchedule(s) && Bounded(s)
    ensures var (after, score) := Updated(st, sentinels, provider, delta, now).value;
            var s, goal := st.schedule.value, Reading(st, provider, now).value + delta;
            && Reading(after, provider, now) == Ok(score)
            && InBounds(score, s)
            && (InBounds(goal, s) ==> score == goal)
            && (goal < s.min ==> score == s.min) && (goal > s.max ==> score == s.max)
            && Reading(after, other, later) == Reading(st, other, later)
  {
  }

  /** Without the bound on the product the law fails: saturation caps each loss, not their sum. */
  lemma TouchCanHurtWhenSaturated()
    ensures var s := Schedule(10_000, 1, 0, 0, I128_MAX);
            var r := Record(I128_MAX, 0);
            && Bounded(s) && InBounds(r.score, s)
            && ApplyDecay(Touched(r, 1, s), 2, s) < ApplyDecay(r, 2, s)
  {
    var s := Schedule(10_000, 1, 0, 0, I128_MAX);
    var r := Record(I128_MAX, 0);
    assert DueIntervals(r, 1, s) == 1 && DueIntervals(r, 2, s) == 2;
    LostOfNonNegative(I128_MAX, 10_000, 1);
    LostOfNonNegative(I128_MAX, 10_000, 2);
    var after := I128_MAX - I128_MAX / BPS;
    assert Touched(r, 1, s) == Record(after, 1);
    LostOfNonNegative(after, 10_000, 1);
  }

  /** Which calls are refused, and that an update changes nothing but the record of its provider. */
  lemma RefusalsAndEffects(st: State, sentinels: set<Address>, provider: Address, delta: int, now: nat)
    ensures Updated(st, sentinels, provider, delta, now) == Err(InvalidAddress) <==> provider in sentinels
    ensures Updated(st, sentinels, provider, delta, now) == Err(NotInitialized)
       <==> provider !in sentinels && st.schedule.None?
    ensures Updated(st, sentinels, provider, delta, now).Ok? ==>
              var after := Updated(st, sentinels, provider, delta, now).value.0;
              && after.schedule == st.schedule && after.checkpoints == st.checkpoints
              && provider in after.records && after.records - {provider} == st.records - {provider}
              && after.records[provider].lastUpdated == now
    ensures Advanced(st, provider, now) == Err(NotInitialized) <==> st.schedule.None?
    ensures Advanced(st, provider, now) == Err(InvalidReputationUpdate)
       <==> st.schedule.Some? && provider !in st.records
    ensures Reading(st, provider, now) == Err(NotInitialized) <==> st.schedule.None?
    ensures st.schedule.Some? && provider !in st.records ==> Reading(st, provider, now) == Ok(0)
  {
  }

  // ---- Bounded checkpoints ---------------------------------------------------------------------

  /** The stored checkpoint counts as one of the current record: its anchor is the last update. */
  predicate Belongs(st: State, provider: Address) {
    && provider in st.checkpoints && provider in st.records
    && st.checkpoints[provider].anchor == st.records[provider].lastUpdated
  }

  /** The stored score is the one of the current record after the intervals applied. */
  predicate Right(st: State, provider: Address)
    requires Belongs(st, provider) && st.schedule.Some?
  {
    var c := st.checkpoints[provider];
    c.score == DecayedScore(st.records[provider], c.intervalsApplied, st.schedule.value)
  }

  /**
   * A checkpoint of the current record never runs ahead of the intervals due, and once it has
   * applied one its stored score is right.
   */
  ghost predicate CheckpointOk(st: State, provider: Address, now: nat) {
    provider in st.checkpoints ==>
      && provider in st.records
      && st.checkpoints[provider].anchor <= st.records[provider].lastUpdated <= now
      && (Belongs(st, provider) && st.schedule.Some? ==>
            && st.checkpoints[provider].intervalsApplied <= DueIntervals(st.records[provider], now, st.schedule.value)
            && (st.checkpoints[provider].intervalsApplied > 0 ==> Right(st, provider)))
  }

  ghost predicate RecordOk(st: State, provider: Address, now: nat) {
    provider in st.records ==>
      && st.records[provider].lastUpdated <= now
      && (st.schedule.Some? ==> InBounds(st.records[provider].score, st.schedule.value))
  }

  ghost predicate LedgerOk(st: State, now: nat) {
    forall a :: CheckpointOk(st, a, now) && RecordOk(st, a, now)
  }

  lemma TimePasses(st: State, now: nat, later: nat)
    requires LedgerOk(st, now) && now <= later
    ensures LedgerOk(st, later)
  {
    forall a
      ensures CheckpointOk(st, a, later) && RecordOk(st, a, later)
    {
      assert CheckpointOk(st, a, now) && RecordOk(st, a, now);
      if a in st.records && st.schedule.Some? {
        DueGrows(st.records[a], now, later, st.schedule.value);
      }
    }
  }

  /**
   * One call: progress is bounded and never ahead of what is due, the score is the one for the
   * intervals applied, and a complete checkpoint equals the direct reading.
   */
  lemma AdvanceIsBounded(st: State, provider: Address, now: nat)
    requires LedgerOk(st, now) && Advanced(st, provider, now).Ok? && now <= U64_MAX
    ensures var (after, c) := Advanced(st, provider, now).value;
            var r, s, start := st.records[provider], st.schedule.value, StartingPoint(st, provider);
            var due := DueIntervals(r, now, s);
            && start.intervalsApplied <= c.intervalsApplied <= due
            && c.intervalsApplied == (if due <= start.intervalsApplied + 32 then due else start.intervalsApplied + 32)
            && c.score == DecayedScore(r, c.intervalsApplied, s)
            && (c.complete <==> c.intervalsApplied == due)
            && (c.complete ==>
                  Reading(st, provider, now) == Ok(c.score) && Reading(after, provider, now) == Ok(c.score))
            && LedgerOk(after, now)
  {
    var (after, c) := Advanced(st, provider, now).value;
    var r, s := st.records[provider], st.schedule.value;
    assert CheckpointOk(st, provider, now) && RecordOk(st, provider, now);
    DirectIsAllIntervals(r, now, s);
    DueAtMostTime(r, now, s);
    forall a
      ensures CheckpointOk(after, a, now) && RecordOk(after, a, now)
    {
      assert CheckpointOk(st, a, now) && RecordOk(st, a, now);
    }
  }

  lemma DueAtMostTime(r: Record, now: nat, s: Schedule)
    ensures DueIntervals(r, now, s) <= now
  {
    if DueIntervals(r, now, s) > 0 {
      var x := now - r.lastUpdated - s.grace;
      assert x == x / s.interval * s.interval + x % s.interval;
      ScaleMonotone(1, s.interval, x / s.interval);
    }
  }

  lemma UpdateKeepsLedger(st: State, sentinels: set<Address>, provider: Address, delta: int, now: nat)
    requires LedgerOk(st, now) && Updated(st, sentinels, provider, delta, now).Ok?
    requires ValidSchedule(st.schedule.value)
    ensures LedgerOk(Updated(st, sentinels, provider, delta, now).value.0, now)
  {
    var after := Updated(st, sentinels, provider, delta, now).value.0;
    forall a
      ensures CheckpointOk(after, a, now) && RecordOk(after, a, now)
    {
      assert CheckpointOk(st, a, now) && RecordOk(st, a, now);
    }
  }

  // ---- Runs ---------------------------------------------------------------------------------------

  datatype Op =
    | Update(provider: Address, delta: int, now: nat)
    | Advance(provider: Address, now: nat)

  function Step(st: State, sentinels: set<Address>, op: Op): State {
    match op
    case Update(p, delta, now) => (match Updated(st, sentinels, p, delta, now) case Ok((t, _)) => t case Err(_) => st)
    case Advance(p, now) => (match Advanced(st, p, now) case Ok((t, _)) => t case Err(_) => st)
  }

  function Run(st: State, sentinels: set<Address>, ops: seq<Op>): State
    decreases |ops|
  {
    if ops == [] then st else Step(Run(st, sentinels, ops[..|ops| - 1]), sentinels, ops[|ops| - 1])
  }

  ghost predicate TimesOrdered(ops: seq<Op>) {
    && (forall i | 0 <= i < |ops| :: ops[i].now <= U64_MAX)
    && (forall i, j | 0 <= i < j < |ops| :: ops[i].now <= ops[j].now)
  }

  function Fresh(s: Schedule): State {
    State(Some(s), map[], map[])
  }

  /** In every interleaving of updates and advances the ledger stays consistent, scores in bounds. */
  lemma {:induction false} RunKeepsLedger(s: Schedule, sentinels: set<Address>, ops: seq<Op>)
    requires ValidSchedule(s) && TimesOrdered(ops)
    ensures Run(Fresh(s), sentinels, ops).schedule == Some(s)
    ensures LedgerOk(Run(Fresh(s), sentinels, ops), if ops == [] then 0 else ops[|ops| - 1].now)
    decreases |ops|
  {
    if ops != [] {
      var earlier, last := ops[..|ops| - 1], ops[|ops| - 1];
      assert forall i | 0 <= i < |earlier| :: earlier[i] == ops[i];
      RunKeepsLedger(s, sentinels, earlier);
      var st := Run(Fresh(s), sentinels, earlier);
      TimePasses(st, if earlier == [] then 0 else earlier[|earlier| - 1].now, last.now);
      match last {
        case Update(p, delta, now) =>
          if Updated(st, sentinels, p, delta, now).Ok? {
            UpdateKeepsLedger(st, sentinels, p, delta, now);
          }
        case Advance(p, now) =>
          if Advanced(st, p, now).Ok? {
            AdvanceIsBounded(st, p, now);
          }
      }
    }
  }

  // ---- Stored checkpoints -----------------------------------------------------------------------

  /** The call changes the score in the very second the record was last updated. */
  predicate OverwritesInPlace(st: State, sentinels: set<Address>, op: Op) {
    && op.Update? && st.schedule.Some? && op.provider !in sentinels && op.provider in st.records
    && op.now == st.records[op.provider].lastUpdated
    && Clamp(Saturate(st.records[op.provider].score + op.delta), st.schedule.value) != st.records[op.provider].score
  }

  /** An update leaves a wrong checkpoint behind exactly when it overwrites the score in place. */
  lemma UpdateGoesStaleIff(st: State, sentinels: set<Address>, op: Op)
    requires st.schedule.Some? && op.Update? && LedgerOk(st, op.now)
    requires Belongs(st, op.provider) && Right(st, op.provider)
    ensures var after := Step(st, sentinels, op);
            Belongs(after, op.provider) && !Right(after, op.provider) <==> OverwritesInPlace(st, sentinels, op)
  {
    assert CheckpointOk(st, op.provider, op.now);
  }

  ghost predicate AllRight(st: State) {
    st.schedule.Some? && forall a | Belongs(st, a) :: Right(st, a)
  }

  lemma StepKeepsRight(st: State, sentinels: set<Address>, op: Op, a: Address)
    requires LedgerOk(st, op.now) && AllRight(st) && !OverwritesInPlace(st, sentinels, op)
    requires Belongs(Step(st, sentinels, op), a)
    ensures Step(st, sentinels, op).schedule.Some? && Right(Step(st, sentinels, op), a)
  {
    assert CheckpointOk(st, a, op.now) && RecordOk(st, a, op.now);
    if op.Update? {
      if a == op.provider && Belongs(st, a) {
        UpdateGoesStaleIff(st, sentinels, op);
      } else if a != op.provider {
        assert Step(st, sentinels, op).records[a] == st.records[a] && Belongs(st, a);
      }
    } else if a != op.provider {
      assert Step(st, sentinels, op).checkpoints[a] == st.checkpoints[a] && Belongs(st, a);
    }
  }

  lemma StepKeepsAllRight(st: State, sentinels: set<Address>, op: Op)
    requires LedgerOk(st, op.now) && AllRight(st) && !OverwritesInPlace(st, sentinels, op)
    ensures AllRight(Step(st, sentinels, op))
  {
    forall a | Belongs(Step(st, sentinels, op), a)
      ensures Right(Step(st, sentinels, op), a)
    {
      StepKeepsRight(st, sentinels, op, a);
    }
  }

  /** No update of the run overwrites a score in place. */
  ghost predicate NoOverwrites(s: Schedule, sentinels: set<Address>, ops: seq<Op>) {
    forall k | 0 <= k < |ops| :: !OverwritesInPlace(Run(Fresh(s), sentinels, ops[..k]), sentinels, ops[k])
  }

  lemma NoOverwritesBefore(s: Schedule, sentinels: set<Address>, ops: seq<Op>, n: nat)
    requires NoOverwrites(s, sentinels, ops) && n < |ops|
    ensures NoOverwrites(s, sentinels, ops[..n])
    ensures !OverwritesInPlace(Run(Fresh(s), sentinels, ops[..n]), sentinels, ops[n])
  {
    forall k | 0 <= k < n
      ensures !OverwritesInPlace(Run(Fresh(s), sentinels, ops[..n][..k]), sentinels, ops[..n][k])
    {
      assert ops[..n][..k] == ops[..k];
    }
  }

  lemma OrderedBefore(ops: seq<Op>, n: nat)
    requires TimesOrdered(ops) && n <= |ops|
    ensures TimesOrdered(ops[..n])
  {
  }

  lemma LedgerBefore(s: Schedule, sentinels: set<Address>, ops: seq<Op>, n: nat)
    requires ValidSchedule(s) && TimesOrdered(ops) && n < |ops|
    ensures LedgerOk(Run(Fresh(s), sentinels, ops[..n]), ops[n].now)
  {
    var earlier := ops[..n];
    OrderedBefore(ops, n);
    RunKeepsLedger(s, sentinels, earlier);
    TimePasses(Run(Fresh(s), sentinels, earlier), if earlier == [] then 0 else earlier[n - 1].now, ops[n].now);
  }

  /** In such a run every stored checkpoint of a current record has its right score. */
  lemma {:induction false} StoredCheckpointsAreRight(s: Schedule, sentinels: set<Address>, ops: seq<Op>)
    requires ValidSchedule(s) && TimesOrdered(ops) && NoOverwrites(s, sentinels, ops)
    ensures AllRight(Run(Fresh(s), sentinels, ops))
    decreases |ops|
  {
    if ops != [] {
      var n := |ops| - 1;
      var earlier, last := ops[..n], ops[n];
      OrderedBefore(ops, n);
      NoOverwritesBefore(s, sentinels, ops, n);
      StoredCheckpointsAreRight(s, sentinels, earlier);
      LedgerBefore(s, sentinels, ops, n);
      StepKeepsAllRight(Run(Fresh(s), sentinels, earlier), sentinels, last);
    }
  }

  /** Update, advance and update in one second: the checkpoint stays, complete, with the old score. */
  lemma StoredCheckpointCanBeStale()
    ensures var s := Schedule(100, 60, 0, 0, 1000);
            var st := Step(Step(Step(Fresh(s), {}, Update(1, 5, 7)), {}, Advance(1, 7)), {}, Update(1, 3, 7));
            && Belongs(st, 1) && st.checkpoints[1] == Checkpoint(7, 0, 5, true)
            && Reading(st, 1, 7).value == 8
  {
    var s := Schedule(100, 60, 0, 0, 1000);
    var one := Step(Fresh(s), {}, Update(1, 5, 7));
    assert one.records[1] == Record(5, 7);
    var two := Step(one, {}, Advance(1, 7));
    assert two.checkpoints[1] == Checkpoint(7, 0, 5, true);
  }

  /** After any run, an advance that reports completion has reached the direct reading. */
  lemma CompleteMeansConverged(s: Schedule, sentinels: set<Address>, ops: seq<Op>, provider: Address, now: nat)
    requires ValidSchedule(s) && TimesOrdered(ops) && now <= U64_MAX && forall i | 0 <= i < |ops| :: ops[i].now <= now
    requires Advanced(Run(Fresh(s), sentinels, ops), provider, now).Ok?
    ensures var st := Run(Fresh(s), sentinels, ops);
            var c := Advanced(st, provider, now).value.1;
            && c.intervalsApplied <= DueIntervals(st.records[provider], now, s)
            && c.intervalsApplied <= StartingPoint(st, provider).intervalsApplied + MAX_DECAY_INTERVALS_PER_CALL
            && (c.complete <==> c.intervalsApplied == DueIntervals(st.records[provider], now, s))
            && (c.complete ==> Reading(st, provider, now) == Ok(c.score))
  {
    RunKeepsLedger(s, sentinels, ops);
    var st := Run(Fresh(s), sentinels, ops);
    TimePasses(st, if ops == [] then 0 else ops[|ops| - 1].now, now);
    AdvanceIsBounded(st, provider, now);
  }

  /** `calls` advances at the same time. */
  function Repeatedly(st: State, provider: Address, now: nat, calls: nat): State
    decreases calls
  {
    if calls == 0 then st
    else
      var before := Repeatedly(st, provider, now, calls - 1);
      match Advanced(before, provider, now) case Ok((t, _)) => t case Err(_) => before
  }

  function Smaller(x: nat, y: nat): nat {
    if x <= y then x else y
  }

  /** Repeated calls advance by 32 intervals each, up to what is due. */
  lemma {:induction false} RepeatedProgress(st: State, provider: Address, now: nat, calls: nat)
    requires LedgerOk(st, now) && now <= U64_MAX && st.schedule.Some? && provider in st.records
    ensures var after := Repeatedly(st, provider, now, calls);
            && LedgerOk(after, now) && after.schedule == st.schedule && after.records == st.records
            && StartingPoint(after, provider).intervalsApplied
                 == Smaller(DueIntervals(st.records[provider], now, st.schedule.value),
                            StartingPoint(st, provider).intervalsApplied + 32 * calls)
    decreases calls
  {
    assert CheckpointOk(st, provider, now);
    if calls > 0 {
      RepeatedProgress(st, provider, now, calls - 1);
      AdvanceIsBounded(Repeatedly(st, provider, now, calls - 1), provider, now);
    }
  }

  /**
   * At a fixed time the `calls`-th advance completes, at the direct reading, exactly when 32 intervals
   * a call cover what is left: ceil(due / 32) calls from a fresh record, and no fewer.
   */
  lemma ConvergesAfter(st: State, provider: Address, now: nat, calls: nat)
    requires LedgerOk(st, now) && now <= U64_MAX && st.schedule.Some? && provider in st.records && calls > 0
    ensures var before := Repeatedly(st, provider, now, calls - 1);
            var due := DueIntervals(st.records[provider], now, st.schedule.value);
            && Advanced(before, provider, now).Ok?
            && var c := Advanced(before, provider, now).value.1;
               && (c.complete <==> due <= StartingPoint(st, provider).intervalsApplied + 32 * calls)
               && (c.complete ==> Reading(st, provider, now) == Ok(c.score))
  {
    var before := Repeatedly(st, provider, now, calls - 1);
    RepeatedProgress(st, provider, now, calls - 1);
    AdvanceIsBounded(before, provider, now);
  }
}
