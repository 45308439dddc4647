/**
 * The daily bonus feature: a streak model with change-guarded setters, a
 * configuration that maps days of a reward cycle to rewards, and the
 * controller that checks availability, breaks streaks and records claims.
 *
 * Timestamps are Unix milliseconds; `now` is a parameter wherever the code
 * reads the clock.
 */
module DailyBonus {
  import opened Common

  const MsPerHour: int := 3_600_000
  const MsPerDay: int := 86_400_000

  datatype DailyBonusState = Available | Claimed | StreakReset

  /** One day's reward; its icon is presentation and is not kept. */
  datatype DailyBonusReward = DailyBonusReward(day: int, rewardType: Option<string>, amount: int, isSpecial: bool)

  /** The configuration asset; the float streak multiplier is not part of this model. */
  datatype DailyBonusConfig = DailyBonusConfig(
    resetHourUtc: int,
    gracePeriodHours: int,
    streakBreakHours: int,
    rewards: seq<DailyBonusReward>,
    cycleLength: int,
    maxMultiplierStreak: int)

  /** The asset's field initialisers. */
  function DefaultConfig(): (c: DailyBonusConfig)
    ensures c.resetHourUtc == 0 && c.gracePeriodHours == 24 && c.streakBreakHours == 48
    ensures c.rewards == [] && c.cycleLength == 7 && c.maxMultiplierStreak == 7
  {
    DailyBonusConfig(0, 24, 48, [], 7, 7)
  }

  /**
   * Whether `GetRewardForDay(day)` returns rather than throws: with rewards
   * configured, the cycle length must be non-zero and the truncated remainder
   * of `day - 1` must not be negative.
   */
  predicate RewardIndexDefined(c: DailyBonusConfig, day: int) {
    c.rewards == [] || (c.cycleLength != 0 && TruncRem(day - 1, c.cycleLength) >= 0)
  }

  /** The reward for `day`: null without rewards; past the list's end, the last reward. */
  function GetRewardForDay(c: DailyBonusConfig, day: int): (r: Option<DailyBonusReward>)
    requires RewardIndexDefined(c, day)
    ensures r.None? <==> c.rewards == []
    ensures r.Some? ==> r.value in c.rewards
    ensures r.Some? && TruncRem(day - 1, c.cycleLength) < |c.rewards| ==>
              r.value == c.rewards[TruncRem(day - 1, c.cycleLength)]
    ensures r.Some? && TruncRem(day - 1, c.cycleLength) >= |c.rewards| ==>
              r.value == c.rewards[|c.rewards| - 1]
  {
    if c.rewards == [] then None
    else
      var index := TruncRem(day - 1, c.cycleLength);
      if index < |c.rewards| then Some(c.rewards[index]) else Some(c.rewards[|c.rewards| - 1])
  }

  /** Every day from 1 on has a reward when rewards are configured and the cycle is positive. */
  lemma PositiveDaysHaveRewards(c: DailyBonusConfig, day: int)
    requires c.rewards != [] && c.cycleLength > 0 && day >= 1
    ensures RewardIndexDefined(c, day) && GetRewardForDay(c, day).Some?
  {
  }

  /** Days congruent modulo the cycle length get the same reward. */
  lemma RewardRepeatsEachCycle(c: DailyBonusConfig, day: int, cycles: nat)
    requires c.cycleLength > 0 && day >= 1
    ensures RewardIndexDefined(c, day) && RewardIndexDefined(c, day + cycles * c.cycleLength)
    ensures GetRewardForDay(c, day) == GetRewardForDay(c, day + cycles * c.cycleLength)
  {
    ModCycles(day - 1, c.cycleLength, cycles);
  }

  lemma {:induction false} ModCycles(a: nat, m: int, k: nat)
    requires m > 0
    ensures (a + k * m) % m == a % m
  {
    if k > 0 {
      ModCycles(a, m, k - 1);
      var b := a + (k - 1) * m;
      ModUnique(b, b / m, m, b % m);
      assert a + k * m == (b / m + 1) * m + b % m;
      ModUnique(a + k * m, b / m + 1, m, b % m);
    }
  }

  /** Adding one to `x` moves its remainder one step on, wrapping to 0 at `m`. */
  lemma ModNext(x: nat, m: int)
    requires m > 0
    ensures (x + 1) % m == if x % m + 1 == m then 0 else x % m + 1
  {
    var q, r := x / m, x % m;
    assert x == q * m + r;
    if r + 1 < m {
      ModUnique(x + 1, q, m, r + 1);
    } else {
      assert (q + 1) * m == q * m + m;
      ModUnique(x + 1, q + 1, m, 0);
    }
  }

  /** Euclidean division is unique: a quotient and an in-range remainder determine `x % m`. */
  lemma ModUnique(x: int, q: int, m: int, r: int)
    requires m > 0 && 0 <= r < m && x == q * m + r
    ensures x % m == r
  {
    var q0, r0 := x / m, x % m;
    assert x == q0 * m + r0;
    if q0 > q {
      assert (q0 - q) * m == r - r0;
      MulAtLeastDivisor(q0 - q, m);
    } else if q0 < q {
      assert (q - q0) * m == r0 - r;
      MulAtLeastDivisor(q - q0, m);
    }
  }

  lemma MulAtLeastDivisor(a: int, m: int)
    requires a >= 1 && m > 0
    ensures a * m >= m
  {
    assert a * m == m + (a - 1) * m;
  }

  /** With at least one reward per cycle day, days 1..cycleLength get rewards[0..cycleLength-1] in order. */
  lemma FullCycleIndexesInOrder(c: DailyBonusConfig, day: int)
    requires 0 < c.cycleLength <= |c.rewards| && 1 <= day <= c.cycleLength
    ensures RewardIndexDefined(c, day) && GetRewardForDay(c, day) == Some(c.rewards[day - 1])
  {
  }

  /** What the guarded setters fire: one event when the value changes, none otherwise. */
  datatype BonusModelEvent = StreakChanged(streak: int) | StateChanged(state: DailyBonusState)

  function StreakEvents(before: int, after: int): (r: seq<BonusModelEvent>)
    ensures |r| <= 1
    ensures r == [] <==> before == after
    ensures r != [] ==> r == [StreakChanged(after)]
  {
    if before != after then [StreakChanged(after)] else []
  }

  function StateEvents(before: DailyBonusState, after: DailyBonusState): (r: seq<BonusModelEvent>)
    ensures |r| <= 1
    ensures r == [] <==> before == after
    ensures r != [] ==> r == [StateChanged(after)]
  {
    if before != after then [StateChanged(after)] else []
  }

  class DailyBonusModel {
    var currentStreak: int
    var maxStreak: int
    var lastClaimTimestamp: int
    var nextAvailableTimestamp: int
    var state: DailyBonusState
    var events: seq<BonusModelEvent>

    /** The streak never exceeds the best streak and never goes below zero. */
    predicate Valid()
      reads this
    {
      0 <= currentStreak <= maxStreak
    }

    /** A fresh model: all counters zero and the first enum value, `Available`. */
    constructor ()
      ensures Valid() && IsAvailable()
      ensures currentStreak == 0 && maxStreak == 0
      ensures lastClaimTimestamp == 0 && nextAvailableTimestamp == 0 && events == []
    {
      currentStreak := 0;
      maxStreak := 0;
      lastClaimTimestamp := 0;
      nextAvailableTimestamp := 0;
      state := Available;
      events := [];
    }

    predicate IsAvailable()
      reads this
    {
      state == Available
    }

    /** Milliseconds until the next bonus, never negative. */
    function TimeRemaining(now: int): (r: int)
      reads this
      ensures r >= 0
      ensures r == 0 <==> now >= nextAvailableTimestamp
      ensures r > 0 ==> now + r == nextAvailableTimestamp
    {
      if nextAvailableTimestamp - now > 0 then nextAvailableTimestamp - now else 0
    }

    /** The `CurrentStreak` setter: fires only on a change. */
    method SetCurrentStreak(value: int)
      modifies this`currentStreak, this`events
      ensures currentStreak == value
      ensures events == old(events) + StreakEvents(old(currentStreak), value)
    {
      if currentStreak != value {
        currentStreak := value;
        events := events + [StreakChanged(value)];
      }
    }

    /** The `State` setter: fires only on a change. */
    method SetState(value: DailyBonusState)
      modifies this`state, this`events
      ensures state == value
      ensures events == old(events) + StateEvents(old(state), value)
    {
      if state != value {
        state := value;
        events := events + [StateChanged(value)];
      }
    }

    method ResetStreak()
      modifies this`currentStreak, this`state, this`events
      ensures old(Valid()) ==> Valid()
      ensures currentStreak == 0 && state == StreakReset
      ensures events == old(events) + StreakEvents(old(currentStreak), 0) + StateEvents(old(state), StreakReset)
    {
      SetCurrentStreak(0);
      SetState(StreakReset);
    }

    method IncrementStreak()
      modifies this`currentStreak, this`maxStreak, this`events
      ensures old(Valid()) ==> Valid()
      ensures currentStreak == old(currentStreak) + 1
      ensures maxStreak == if old(currentStreak) + 1 > old(maxStreak) then old(currentStreak) + 1 else old(maxStreak)
      ensures events == old(events) + [StreakChanged(currentStreak)]
    {
      SetCurrentStreak(currentStreak + 1);
      if currentStreak > maxStreak {
        maxStreak := currentStreak;
      }
    }

    method RecordClaim(timestamp: int, nextAvailable: int)
      modifies this
      ensures old(Valid()) ==> Valid()
      ensures lastClaimTimestamp == timestamp && nextAvailableTimestamp == nextAvailable
      ensures state == Claimed && currentStreak == old(currentStreak) + 1
      ensures maxStreak == if old(currentStreak) + 1 > old(maxStreak) then old(currentStreak) + 1 else old(maxStreak)
      ensures events == old(events) + StateEvents(old(state), Claimed) + [StreakChanged(currentStreak)]
    {
      lastClaimTimestamp := timestamp;
      nextAvailableTimestamp := nextAvailable;
      SetState(Claimed);
      IncrementStreak();
    }
  }

  /** The start of the UTC day holding `t`: Unix days are whole multiples of a day. */
  function DayStart(t: int): (d: int)
    ensures d <= t < d + MsPerDay && d % MsPerDay == 0
  {
    t - t % MsPerDay
  }

  lemma WithinDay(t: int, d: int)
    requires d % MsPerDay == 0 && d <= t < d + MsPerDay
    ensures t % MsPerDay == t - d
  {
    var q := d / MsPerDay;
    assert d == q * MsPerDay;
    assert t == q * MsPerDay + (t - d);
  }

  /**
   * The first instant strictly after `now` whose time of day is
   * `resetHour`:00:00 UTC, in Unix milliseconds.
   */
  function NextResetTime(now: int, resetHour: int): (r: int)
    requires 0 <= resetHour < 24
    ensures now < r <= now + MsPerDay
    ensures r % MsPerDay == resetHour * MsPerHour
    ensures forall t :: now < t < r ==> t % MsPerDay != resetHour * MsPerHour
  {
    var d := DayStart(now);
    var today := d + resetHour * MsPerHour;
    var r := if today <= now then today + MsPerDay else today;
    assert r % MsPerDay == resetHour * MsPerHour by {
      if today <= now {
        WithinDay(r, d + MsPerDay);
      } else {
        WithinDay(r, d);
      }
    }
    assert forall t :: now < t < r ==> t % MsPerDay != resetHour * MsPerHour by {
      forall t | now < t < r
        ensures t % MsPerDay != resetHour * MsPerHour
      {
        if t < d + MsPerDay {
          WithinDay(t, d);
        } else {
          WithinDay(t, d + MsPerDay);
        }
      }
    }
    r
  }

  /** Whether a claim at `last` breaks the streak at `now`: more than `breakHours` have passed. */
  predicate BreaksStreak(now: int, last: int, breakHours: int) {
    last > 0 && now - last > breakHours * MsPerHour
  }

  /** The availability condition of the check: the reset time has come, or no claim was ever made. */
  predicate AvailableAt(now: int, last: int, next: int) {
    now >= next || last == 0
  }

  /**
   * Both conditions of the availability check only switch on as time passes:
   * once the streak is broken or the bonus available, it stays so later, and
   * nothing ever breaks a streak that has never been claimed.
   */
  lemma CheckConditionsPersist(now: int, later: int, last: int, next: int, breakHours: int)
    requires now <= later
    ensures BreaksStreak(now, last, breakHours) ==> BreaksStreak(later, last, breakHours)
    ensures AvailableAt(now, last, next) ==> AvailableAt(later, last, next)
    ensures last <= 0 ==> !BreaksStreak(later, last, breakHours)
    ensures last == 0 ==> AvailableAt(now, last, next)
  {
  }

  /**
   * Between a claim at `claimed` and the next reset, the bonus is not
   * available again and, when the break threshold is at least a day, the
   * streak does not break; from the reset on, it is available.
   */
  lemma ClaimHoldsUntilNextReset(claimed: int, resetHour: int, breakHours: int, now: int)
    requires 0 <= resetHour < 24 && claimed > 0 && breakHours >= 24
    ensures claimed <= now < NextResetTime(claimed, resetHour) ==>
              !AvailableAt(now, claimed, NextResetTime(claimed, resetHour))
              && !BreaksStreak(now, claimed, breakHours)
    ensures now >= NextResetTime(claimed, resetHour) ==> AvailableAt(now, claimed, NextResetTime(claimed, resetHour))
  {
  }

  datatype BonusEvent = BonusAvailable | BonusClaimed(reward: DailyBonusReward)

  class DailyBonusController {
    const model: DailyBonusModel
    const config: Option<DailyBonusConfig>
    var wasAvailable: bool
    var events: seq<BonusEvent>

    constructor (model: DailyBonusModel, config: Option<DailyBonusConfig>)
      ensures this.model == model && this.config == config
      ensures !wasAvailable && events == []
    {
      this.model := model;
      this.config := config;
      wasAvailable := false;
      events := [];
    }

    /** The cycle length, 7 without a configuration. */
    function CycleLength(): int {
      if config.Some? then config.value.cycleLength else 7
    }

    function ResetHour(): int {
      if config.Some? then config.value.resetHourUtc else 0
    }

    function StreakBreakHours(): int {
      if config.Some? then config.value.streakBreakHours else 48
    }

    /** The 1-based day of the cycle the next claim is for. */
    function CurrentDay(): (d: int)
      requires CycleLength() != 0
      reads model
      ensures model.currentStreak >= 0 ==> 1 <= d <= Abs(CycleLength())
      ensures model.currentStreak >= 0 ==> d - 1 == model.currentStreak % Abs(CycleLength())
    {
      TruncRem(model.currentStreak, CycleLength()) + 1
    }

    /** The current day advances by exactly one cycle position per claim and wraps at the cycle's end. */
    lemma CurrentDayAfterClaim(streak: nat)
      requires CycleLength() > 0
      ensures TruncRem(streak + 1, CycleLength()) + 1 ==
                if TruncRem(streak, CycleLength()) + 1 == CycleLength() then 1 else TruncRem(streak, CycleLength()) + 2
    {
      ModNext(streak, CycleLength());
    }

    /** The reward for `day`; null without a configuration. */
    function RewardForDay(day: int): (r: Option<DailyBonusReward>)
      requires config.Some? ==> RewardIndexDefined(config.value, day)
      ensures config.None? ==> r.None?
      ensures config.Some? ==> r == GetRewardForDay(config.value, day)
    {
      if config.Some? then GetRewardForDay(config.value, day) else None
    }

    /** The reward the next claim would grant. */
    function CurrentDayReward(): (r: Option<DailyBonusReward>)
      requires model.currentStreak >= 0 && CycleLength() != 0
      reads model
      ensures config.None? ==> r.None?
      ensures config.Some? ==> (r.None? <==> config.value.rewards == [])
      ensures r.Some? ==> r.value in config.value.rewards
    {
      assert config.Some? ==> RewardIndexDefined(config.value, CurrentDay());
      RewardForDay(CurrentDay())
    }

    /**
     * Claims today's bonus at `now`. Nothing happens when the bonus is not
     * available or no reward is configured; otherwise the claim is recorded
     * with the next reset time and the reward is announced and returned.
     */
    method ClaimBonus(now: int) returns (reward: Option<DailyBonusReward>)
      requires model.Valid() && CycleLength() != 0
      requires config.Some? ==> 0 <= config.value.resetHourUtc < 24
      modifies model, this`events
      ensures model.Valid()
      ensures !old(model.IsAvailable()) || old(CurrentDayReward()).None? ==>
                reward.None? && unchanged(model) && events == old(events)
      ensures old(model.IsAvailable()) && old(CurrentDayReward()).Some? ==>
                && reward == old(CurrentDayReward())
                && model.lastClaimTimestamp == now
                && model.nextAvailableTimestamp == NextResetTime(now, ResetHour())
                && model.state == Claimed && !model.IsAvailable()
                && model.currentStreak == old(model.currentStreak) + 1
                && model.maxStreak == (if old(model.currentStreak) + 1 > old(model.maxStreak)
                                       then old(model.currentStreak) + 1 else old(model.maxStreak))
                && model.events == old(model.events) + StateEvents(old(model.state), Claimed) + [StreakChanged(model.currentStreak)]
                && events == old(events) + [BonusClaimed(reward.value)]
    {
      if !model.IsAvailable() {
        return None;
      }
      reward := CurrentDayReward();
      if reward.None? {
        return None;
      }
      var nextAvailable := NextResetTime(now, ResetHour());
      model.RecordClaim(now, nextAvailable);
      events := events + [BonusClaimed(reward.value)];
    }

    /**
     * The periodic availability check at `now`: a streak older than the break
     * threshold is reset, the state turns `Available` once the reset time has
     * come (or before any claim), and `BonusAvailable` fires only on entering
     * `Available` when the previous check had not seen it available.
     */
    method CheckBonusAvailability(now: int)
      requires model.Valid()
      modifies model, this
      ensures model.Valid()
      ensures var broke := BreaksStreak(now, old(model.lastClaimTimestamp), StreakBreakHours());
              var available := AvailableAt(now, old(model.lastClaimTimestamp), old(model.nextAvailableTimestamp));
              var stateAfterBreak := if broke then StreakReset else old(model.state);
              && model.currentStreak == (if broke then 0 else old(model.currentStreak))
              && model.maxStreak == old(model.maxStreak)
              && model.lastClaimTimestamp == old(model.lastClaimTimestamp)
              && model.nextAvailableTimestamp == old(model.nextAvailableTimestamp)
              && model.state == (if available then Available else stateAfterBreak)
              && model.events == old(model.events)
                   + (if broke then StreakEvents(old(model.currentStreak), 0) + StateEvents(old(model.state), StreakReset) else [])
                   + StateEvents(stateAfterBreak, model.state)
              && events == old(events)
                   + (if available && stateAfterBreak != Available && !old(wasAvailable) then [BonusAvailable] else [])
              && wasAvailable == model.IsAvailable()
    {
      if model.lastClaimTimestamp > 0 {
        if now - model.lastClaimTimestamp > StreakBreakHours() * MsPerHour {
          model.ResetStreak();
        }
      }
      var isAvailable := now >= model.nextAvailableTimestamp || model.lastClaimTimestamp == 0;
      if isAvailable && model.state != Available {
        model.SetState(Available);
        if !wasAvailable {
          events := events + [BonusAvailable];
        }
      }
      wasAvailable := model.IsAvailable();
    }
  }
}
