// Reputation scores that decay linearly with inactivity, read directly or advanced
// in bounded checkpoints.
module Reputation {
  import opened Options
  import opened MachineInts

  type Address = nat

  const BPS := 10_000

  const MAX_DECAY_INTERVALS_PER_CALL := 32

  datatype Schedule = Schedule(rateBps: nat, interval: nat, grace: nat, min: int, max: int)

  datatype Record = Record(score: int, lastUpdated: nat)

  datatype Checkpoint = Checkpoint(anchor: nat, intervalsApplied: nat, score: int, complete: bool)

  datatype ReputationError =
    | AlreadyInitialized | InvalidAddress | NotInitialized | InvalidReputationUpdate | InvalidDecayConfig
    | IdempotencyKeyReused | AuthRequired

  /** The event of a changed schedule. */
  datatype ConfigChanged = ConfigChanged(oldValue: Schedule, newValue: Schedule, actor: Address)

  /** `validate_schedule`; None is acceptance. */
  function ScheduleError(s: Schedule): Option<ReputationError> {
    if s.rateBps > BPS || s.interval == 0 || s.min > s.max then Some(InvalidDecayConfig) else None
  }

  predicate ValidSchedule(s: Schedule) {
    ScheduleError(s) == None
  }

  function Clamp(value: int, s: Schedule): int {
    if value < s.min then s.min else if value > s.max then s.max else value
  }

  /** Points lost after some intervals, with the saturating products of the source. */
  function Lost(score: int, rateBps: nat, intervals: nat): int {
    TruncDiv(Saturate(Saturate(score * rateBps) * intervals), BPS)
  }

  /** The direct form: the score of a record at a given time. */
  function ApplyDecay(r: Record, now: nat, s: Schedule): int {
    if now <= r.lastUpdated then r.score
    else
      var elapsed := now - r.lastUpdated;
      if elapsed <= s.grace then r.score
      else if s.interval == 0 then r.score
      else
        var intervals := (elapsed - s.grace) / s.interval;
        if intervals == 0 then r.score
        else Clamp(Saturate(r.score - Lost(r.score, s.rateBps, intervals)), s)
  }

  /** The number of whole decay intervals due. */
  function DueIntervals(r: Record, now: nat, s: Schedule): nat {
    if s.interval == 0 || now <= r.lastUpdated then 0
    else if now - r.lastUpdated <= s.grace then 0
    else (now - r.lastUpdated - s.grace) / s.interval
  }

  /** The score after some of the due intervals. */
  function DecayedScore(r: Record, intervals: nat, s: Schedule): int {
    if intervals == 0 then r.score
    else Clamp(Saturate(r.score - Lost(r.score, s.rateBps, intervals)), s)
  }

  // ---- The entrypoints as functions of the state ----------------------------------------------

  datatype State = State(schedule: Option<Schedule>, records: map<Address, Record>,
                         checkpoints: map<Address, Checkpoint>)

  function Load(s: State, provider: Address, now: nat): Record {
    if provider in s.records then s.records[provider] else Record(0, now)
  }

  function Updated(s: State, sentinels: set<Address>, provider: Address, delta: int, now: nat)
    : Result<(State, int), ReputationError>
  {
    if provider in sentinels then Err(InvalidAddress)
    else if s.schedule.None? then Err(NotInitialized)
    else
      var decayed := ApplyDecay(Load(s, provider, now), now, s.schedule.value);
      var updated := Clamp(Saturate(decayed + delta), s.schedule.value);
      Ok((s.(records := s.records[provider := Record(updated, now)]), updated))
  }

  function Reading(s: State, provider: Address, now: nat): Result<int, ReputationError> {
    if s.schedule.None? then Err(NotInitialized)
    else Ok(ApplyDecay(Load(s, provider, now), now, s.schedule.value))
  }

  /** The checkpoint a call starts from: the stored one if it belongs to the current record. */
  function StartingPoint(s: State, provider: Address): Checkpoint
    requires provider in s.records
  {
    var r := s.records[provider];
    if provider in s.checkpoints && s.checkpoints[provider].anchor == r.lastUpdated then s.checkpoints[provider]
    else Checkpoint(r.lastUpdated, 0, r.score, false)
  }

  function Advanced(s: State, provider: Address, now: nat): Result<(State, Checkpoint), ReputationError> {
    if s.schedule.None? then Err(NotInitialized)
    else if provider !in s.records then Err(InvalidReputationUpdate)
    else
      var r, sched, start := s.records[provider], s.schedule.value, StartingPoint(s, provider);
      var target := DueIntervals(r, now, sched);
      var limit := SaturateU64(start.intervalsApplied + MAX_DECAY_INTERVALS_PER_CALL);
      var next := if target <= limit then target else limit;
      var applied := if start.intervalsApplied >= next then start.intervalsApplied else next;
      var c := Checkpoint(start.anchor, applied, DecayedScore(r, applied, sched), applied >= target);
      Ok((s.(checkpoints := s.checkpoints[provider := c]), c))
  }

  // ---- The contract --------------------------------------------------------------------------

  class ReputationLedger {
    const sentinels: set<Address>
    var admin: Option<Address>
    var schedule: Option<Schedule>
    var records: map<Address, Record>
    var checkpoints: map<Address, Checkpoint>
    var configEvents: seq<ConfigChanged>

    function Value(): State
      reads this
    {
      State(schedule, records, checkpoints)
    }

    constructor (sentinels: set<Address>)
      ensures this.sentinels == sentinels && Value() == State(None, map[], map[]) && admin == None && configEvents == []
    {
      this.sentinels := sentinels;
      admin, configEvents := None, [];
      schedule := None;
      records := map[];
      checkpoints := map[];
    }

    method ValidateSchedule(s: Schedule) returns (error: Option<ReputationError>)
      ensures error == ScheduleError(s)
    {
      if s.rateBps > BPS {
        return Some(InvalidDecayConfig);
      }
      if s.interval == 0 {
        return Some(InvalidDecayConfig);
      }
      if s.min > s.max {
        return Some(InvalidDecayConfig);
      }
      return None;
    }

    method Initialize(newAdmin: Address, s: Schedule) returns (error: Option<ReputationError>)
      modifies this`admin, this`schedule
      ensures error == if newAdmin in sentinels then Some(InvalidAddress)
                       else if old(admin).Some? then Some(AlreadyInitialized)
                       else ScheduleError(s)
      ensures (admin, schedule) == if error.None? then (Some(newAdmin), Some(s)) else (old(admin), old(schedule))
    {
      if newAdmin in sentinels {
        return Some(InvalidAddress);
      }
      if admin.Some? {
        return Some(AlreadyInitialized);
      }
      error := ValidateSchedule(s);
      if error.None? {
        admin, schedule := Some(newAdmin), Some(s);
      }
    }

    /** `keyIsFresh` is the verdict on the idempotency key. */
    method SetDecaySchedule(auth: set<Address>, s: Schedule, keyIsFresh: bool) returns (error: Option<ReputationError>)
      modifies this`schedule, this`configEvents
      ensures error == if admin.None? then Some(NotInitialized)
                       else if admin.value !in auth then Some(AuthRequired)
                       else if !keyIsFresh then Some(IdempotencyKeyReused)
                       else if !ValidSchedule(s) then Some(InvalidDecayConfig)
                       else if old(schedule).None? then Some(NotInitialized)
                       else None
      ensures if error.None?
              then schedule == Some(s)
                  && configEvents == old(configEvents) + [ConfigChanged(old(schedule).value, s, admin.value)]
              else schedule == old(schedule) && configEvents == old(configEvents)
    {
      if admin.None? {
        return Some(NotInitialized);
      }
      if admin.value !in auth {
        return Some(AuthRequired);
      }
      if !keyIsFresh {
        return Some(IdempotencyKeyReused);
      }
      error := ValidateSchedule(s);
      if error.Some? {
        return;
      }
      if schedule.None? {
        return Some(NotInitialized);
      }
      configEvents := configEvents + [ConfigChanged(schedule.value, s, admin.value)];
      schedule := Some(s);
    }

    method UpdateReputation(provider: Address, delta: int, now: nat) returns (r: Result<int, ReputationError>)
      modifies this`records
      ensures match Updated(old(Value()), sentinels, provider, delta, now)
              case Err(e) => r == Err(e) && Value() == old(Value())
              case Ok((s, score)) => r == Ok(score) && Value() == s
    {
      if provider in sentinels {
        return Err(InvalidAddress);
      }
      if schedule.None? {
        return Err(NotInitialized);
      }
      var record := if provider in records then records[provider] else Record(0, now);
      var decayed := ApplyDecay(record, now, schedule.value);
      var updated := Clamp(Saturate(decayed + delta), schedule.value);
      records := records[provider := Record(updated, now)];
      return Ok(updated);
    }

    method GetReputation(provider: Address, now: nat) returns (r: Result<int, ReputationError>)
      ensures r == Reading(Value(), provider, now)
    {
      if schedule.None? {
        return Err(NotInitialized);
      }
      var record := if provider in records then records[provider] else Record(0, now);
      return Ok(ApplyDecay(record, now, schedule.value));
    }

    method AdvanceReputationDecay(provider: Address, now: nat) returns (r: Result<Checkpoint, ReputationError>)
      modifies this`checkpoints
      ensures match Advanced(old(Value()), provider, now)
              case Err(e) => r == Err(e) && Value() == old(Value())
              case Ok((s, c)) => r == Ok(c) && Value() == s
    {
      if schedule.None? {
        return Err(NotInitialized);
      }
      if provider !in records {
        return Err(InvalidReputationUpdate);
      }
      var record := records[provider];
      var checkpoint := Checkpoint(record.lastUpdated, 0, record.score, false);
      if provider in checkpoints && checkpoints[provider].anchor == record.lastUpdated {
        checkpoint := checkpoints[provider];
      }
      var target := DueIntervals(record, now, schedule.value);
      var next := SaturateU64(checkpoint.intervalsApplied + MAX_DECAY_INTERVALS_PER_CALL);
      if target <= next {
        next := target;
      }
      if next > checkpoint.intervalsApplied {
        checkpoint := checkpoint.(intervalsApplied := next);
      }
      checkpoint := checkpoint.(score := DecayedScore(record, checkpoint.intervalsApplied, schedule.value));
      checkpoint := checkpoint.(complete := checkpoint.intervalsApplied >= target);
      checkpoints := checkpoints[provider := checkpoint];
      return Ok(checkpoint);
    }
  }

  // ---- Decay over time ------------------------------------------------------------------------

  /** Once all due intervals are applied, the checkpointed score is the direct one. */
  lemma DirectIsAllIntervals(r: Record, now: nat, s: Schedule)
    ensures ApplyDecay(r, now, s) == DecayedScore(r, DueIntervals(r, now, s), s)
  {
  }

  predicate InBounds(score: int, s: Schedule) {
    s.min <= score <= s.max
  }

  lemma {:induction false} ScaleMonotone(x: int, y: int, k: nat)
    requires x <= y
    ensures x * k <= y * k && k * x <= k * y
  {
    MulMonotone(x, y, k);
  }

  /** For a score that is not negative, the loss is a capped product, rounded down. */
  lemma LostOfNonNegative(score: nat, rateBps: nat, intervals: nat)
    requires IsI128(score) && intervals > 0
    ensures var product := score * rateBps * intervals;
            Lost(score, rateBps, intervals) == (if product <= I128_MAX then product else I128_MAX) / 10_000
  {
    var p := score * rateBps;
    assert p >= 0 by {
      ScaleMonotone(0, score, rateBps);
    }
    ScaleMonotone(1, intervals, p);
    assert p * intervals >= p;
    if p > I128_MAX {
      ScaleMonotone(1, intervals, I128_MAX);
    }
  }

  /** More intervals never lose less, saturation included. */
  lemma LostGrows(score: nat, rateBps: nat, few: nat, many: nat)
    requires IsI128(score) && few <= many
    ensures 0 <= Lost(score, rateBps, few) <= Lost(score, rateBps, many)
  {
    ScaleMonotone(0, score, rateBps);
    ScaleMonotone(few, many, score * rateBps);
    if few > 0 {
      LostOfNonNegative(score, rateBps, few);
      LostOfNonNegative(score, rateBps, many);
    } else if many > 0 {
      LostOfNonNegative(score, rateBps, many);
    }
  }

  lemma DueGrows(r: Record, now: nat, later: nat, s: Schedule)
    requires now <= later
    ensures DueIntervals(r, now, s) <= DueIntervals(r, later, s)
  {
    if s.interval > 0 && now > r.lastUpdated && now - r.lastUpdated > s.grace {
      DivMonotone(now - r.lastUpdated - s.grace, later - r.lastUpdated - s.grace, s.interval);
    }
  }

  lemma DivMonotone(x: nat, y: nat, d: nat)
    requires x <= y && d > 0
    ensures x / d <= y / d
  {
    var q, p := x / d, y / d;
    assert x == q * d + x % d && y == p * d + y % d;
    assert (p + 1) * d == p * d + d;
    MulOrder(p + 1, q, d);
  }

  /** Left alone, a score inside the bounds stays inside them and never rises. */
  lemma UntouchedDecays(r: Record, now: nat, later: nat, s: Schedule)
    requires ValidSchedule(s) && r.score >= 0 && IsI128(r.score) && InBounds(r.score, s) && now <= later
    ensures ApplyDecay(r, later, s) <= ApplyDecay(r, now, s) <= r.score
    ensures InBounds(ApplyDecay(r, now, s), s)
  {
    var few, many := DueIntervals(r, now, s), DueIntervals(r, later, s);
    DueGrows(r, now, later, s);
    LostGrows(r.score, s.rateBps, 0, few);
    LostGrows(r.score, s.rateBps, few, many);
    DirectIsAllIntervals(r, now, s);
    DirectIsAllIntervals(r, later, s);
  }

  /** How long after an update exactly `n` intervals are due. */
  function TimeOf(s: Schedule, n: nat): nat {
    s.grace + n * s.interval
  }

  lemma DueAt(r: Record, s: Schedule, n: nat)
    requires s.interval > 0
    ensures DueIntervals(r, r.lastUpdated + TimeOf(s, n), s) == n
  {
    if n > 0 {
      ScaleMonotone(1, n, s.interval);
      var now, span := r.lastUpdated + TimeOf(s, n), n * s.interval;
      assert now - r.lastUpdated - s.grace == span;
      DivExact(n, s.interval);
    } else {
      assert TimeOf(s, 0) == s.grace;
    }
  }

  lemma DivExact(n: nat, d: nat)
    requires d > 0
    ensures n * d / d == n
  {
    var q := n * d / d;
    assert n * d == q * d + n * d % d;
    assert (q + 1) * d == q * d + d && (n + 1) * d == n * d + d;
    MulOrder(q + 1, n, d);
    MulOrder(n + 1, q, d);
  }

  /** Splitting an elapsed time never yields more whole intervals than the whole. */
  lemma SplitLosesIntervals(r: Record, touched: Record, later: nat, s: Schedule)
    requires s.interval > 0 && r.lastUpdated <= touched.lastUpdated <= later
    ensures DueIntervals(r, touched.lastUpdated, s) + DueIntervals(touched, later, s) <= DueIntervals(r, later, s)
  {
    var first, second := DueIntervals(r, touched.lastUpdated, s), DueIntervals(touched, later, s);
    var x := touched.lastUpdated - r.lastUpdated - s.grace;
    var y := later - touched.lastUpdated - s.grace;
    if first == 0 {
      if second > 0 {
        DivMonotone(y, later - r.lastUpdated - s.grace, s.interval);
      }
    } else if second == 0 {
      DueGrows(r, touched.lastUpdated, later, s);
    } else {
      DivSum(x, y, s.interval);
      DivMonotone(x + y, later - r.lastUpdated - s.grace, s.interval);
    }
  }

  lemma DivSum(x: nat, y: nat, d: nat)
    requires d > 0
    ensures x / d + y / d <= (x + y) / d
  {
    var q, p, t := x / d, y / d, (x + y) / d;
    assert x == q * d + x % d && y == p * d + y % d && x + y == t * d + (x + y) % d;
    assert (q + p) * d == q * d + p * d && (t + 1) * d == t * d + d;
    MulOrder(t + 1, q + p, d);
  }
}
