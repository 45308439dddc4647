/**
 * The chest feature: a chest model that can be opened once its unlock time
 * has passed, a per-type configuration lookup, and the controller that opens
 * a chest and reveals its rewards one by one.
 *
 * Times are `DateTime` ticks given as integers; `now` is a parameter wherever
 * the code reads `DateTime.UtcNow`.
 */
module Chest {
  import opened Common

  datatype ChestType = Common | Rare | Epic | Legendary | Daily | Special

  datatype ChestState = Locked | Ready | Opening | Opened

  datatype RewardType = Currency | Item | Booster | Lives | Experience | Custom

  /** A reward stored in a chest; its icon is presentation and is not kept. */
  datatype ChestReward = ChestReward(rewardId: Option<string>, rewardType: RewardType, amount: int, displayName: Option<string>)

  /** The full constructor: the display name falls back to the reward id when it is null. */
  function NewChestReward(rewardId: Option<string>, rewardType: RewardType, amount: int, displayName: Option<string>): (r: ChestReward)
    ensures r.rewardId == rewardId && r.rewardType == rewardType && r.amount == amount
    ensures displayName.Some? ==> r.displayName == displayName
    ensures displayName.None? ==> r.displayName == rewardId
  {
    ChestReward(rewardId, rewardType, amount, if displayName.Some? then displayName else rewardId)
  }

  /** The value of a default-initialised `DateTime` (`DateTime.MinValue`), in ticks. */
  const MinTime: int := 0

  class ChestModel {
    var chestId: Option<string>
    var chestType: ChestType
    var state: ChestState
    var rewards: seq<ChestReward>
    var unlockTime: int

    /** The parameterless constructor: every field keeps its default value. */
    constructor Default()
      ensures chestId == None && chestType == ChestType.Common && state == Locked
      ensures rewards == [] && unlockTime == MinTime
    {
      chestId := None;
      chestType := ChestType.Common;
      state := Locked;
      rewards := [];
      unlockTime := MinTime;
    }

    /** The rewards constructor: a ready chest; a null reward list becomes empty. */
    constructor (chestId: Option<string>, chestType: ChestType, rewards: Option<seq<ChestReward>>)
      ensures this.chestId == chestId && this.chestType == chestType
      ensures state == Ready && this.rewards == rewards.GetOr([]) && unlockTime == MinTime
      ensures forall now :: CanOpen(now)
    {
      this.chestId := chestId;
      this.chestType := chestType;
      state := Ready;
      this.rewards := rewards.GetOr([]);
      unlockTime := MinTime;
    }

    /** Whether the chest may be opened at time `now`. */
    predicate CanOpen(now: int)
      reads this
    {
      state == Ready || (state == Locked && now >= unlockTime)
    }

    /** Time left until `unlockTime`, never negative. */
    function TimeRemaining(now: int): (r: int)
      reads this
      ensures r >= 0
      ensures r == 0 <==> now >= unlockTime
      ensures r > 0 ==> now + r == unlockTime
    {
      if unlockTime > now then unlockTime - now else 0
    }
  }

  /** A chest that is being opened or has been opened never opens again. */
  lemma OpeningOrOpenedNeverOpens(chest: ChestModel, now: int)
    requires chest.state == Opening || chest.state == Opened
    ensures !chest.CanOpen(now)
  {
  }

  /** A locked chest opens exactly when its unlock time has been reached. */
  lemma LockedOpensWhenNothingRemains(chest: ChestModel, now: int)
    requires chest.state == Locked
    ensures chest.CanOpen(now) <==> chest.TimeRemaining(now) == 0
  {
  }

  /**
   * Openability only arrives with time: a chest that can open at `t` can still open at
   * any later time, and one that cannot open later could not open before either.
   */
  lemma OpenabilityPersists(chest: ChestModel, t: int, later: int)
    requires t <= later
    ensures chest.CanOpen(t) ==> chest.CanOpen(later)
    ensures chest.CanOpen(later) && !chest.CanOpen(t) ==> chest.state == Locked && t < chest.unlockTime <= later
  {
  }

  /** Per-type configuration; sprites, colours and prefabs are presentation and are not kept. */
  datatype ChestTypeConfig = ChestTypeConfig(chestType: ChestType, displayName: Option<string>)

  datatype ChestConfig = ChestConfig(
    chestTypes: seq<ChestTypeConfig>,
    openDuration: real,
    rewardDisplayDelay: real,
    rewardDisplayInterval: real)

  /** The asset's defaults: no types, 2 s opening, 0.5 s before and 0.2 s between rewards. */
  function DefaultChestConfig(): (c: ChestConfig)
    ensures c.chestTypes == [] && c.openDuration == 2.0
    ensures c.rewardDisplayDelay == 0.5 && c.rewardDisplayInterval == 0.2
  {
    ChestConfig([], 2.0, 0.5, 0.2)
  }

  /** The first configuration in list order whose type is `t`, or null when none has it. */
  function GetTypeConfig(types: seq<ChestTypeConfig>, t: ChestType): (r: Option<ChestTypeConfig>)
    ensures r.None? <==> forall i :: 0 <= i < |types| ==> types[i].chestType != t
    ensures r.Some? ==> r.value.chestType == t
    ensures r.Some? ==> exists i :: 0 <= i < |types| && types[i] == r.value
                         && forall j :: 0 <= j < i ==> types[j].chestType != t
  {
    if types == [] then None
    else if types[0].chestType == t then Some(types[0])
    else
      var r := GetTypeConfig(types[1..], t);
      if r.Some? then
        ghost var i :| 0 <= i < |types[1..]| && types[1..][i] == r.value
                       && forall j :: 0 <= j < i ==> types[1..][j].chestType != t;
        assert types[i + 1] == r.value;
        r
      else r
  }

  /** Presentation calls the controller makes on the chest view. */
  datatype ChestViewCall =
    | PlayOpenAnimation(chest: ChestModel, typeConfig: Option<ChestTypeConfig>)
    | ShowReward(reward: ChestReward)
    | SkipAnimationCall

  /** The controller's events, in firing order. */
  datatype ChestEvent =
    | ChestOpeningEvent(chest: ChestModel)
    | RewardRevealed(reward: ChestReward)
    | ChestOpenedEvent(chest: ChestModel, rewards: seq<ChestReward>)

  function RevealEvents(rewards: seq<ChestReward>): (r: seq<ChestEvent>)
    ensures |r| == |rewards|
  {
    if rewards == [] then [] else [RewardRevealed(rewards[0])] + RevealEvents(rewards[1..])
  }

  function ShowCalls(hasView: bool, rewards: seq<ChestReward>): (r: seq<ChestViewCall>)
    ensures |r| == if hasView then |rewards| else 0
  {
    if !hasView || rewards == [] then [] else [ShowReward(rewards[0])] + ShowCalls(hasView, rewards[1..])
  }

  /** One reveal event per reward, in order; with a view, one show call per reward, in order. */
  lemma {:induction false} RevealLogs(hasView: bool, rewards: seq<ChestReward>)
    ensures forall i :: 0 <= i < |rewards| ==> RevealEvents(rewards)[i] == RewardRevealed(rewards[i])
    ensures hasView ==> forall i :: 0 <= i < |rewards| ==> ShowCalls(hasView, rewards)[i] == ShowReward(rewards[i])
  {
    if rewards != [] {
      RevealLogs(hasView, rewards[1..]);
    }
  }

  /** Revealing one more reward extends the events and the view calls by that reward. */
  lemma RevealNext(hasView: bool, rewards: seq<ChestReward>, i: nat)
    requires i < |rewards|
    ensures RevealEvents(rewards[..i + 1]) == RevealEvents(rewards[..i]) + [RewardRevealed(rewards[i])]
    ensures ShowCalls(hasView, rewards[..i + 1])
            == ShowCalls(hasView, rewards[..i]) + (if hasView then [ShowReward(rewards[i])] else [])
  {
    RevealLogs(hasView, rewards[..i + 1]);
    RevealLogs(hasView, rewards[..i]);
  }

  /**
   * How many rewards are revealed when a skip arrives before reveal number `skipAt`:
   * the specification function of `RevealRewards`, which states the property.
   */
  function RevealCount(n: nat, skipAt: Option<nat>): nat {
    match skipAt
    case None => n
    case Some(s) => if s < n then s else n
  }

  class ChestController {
    const config: Option<ChestConfig>
    const hasView: bool
    var currentChest: ChestModel?
    var isOpening: bool
    var skipRequested: bool
    var events: seq<ChestEvent>
    var viewLog: seq<ChestViewCall>

    constructor (config: Option<ChestConfig>, hasView: bool)
      ensures this.config == config && this.hasView == hasView
      ensures currentChest == null && !isOpening && !skipRequested
      ensures events == [] && viewLog == []
    {
      this.config := config;
      this.hasView := hasView;
      currentChest := null;
      isOpening := false;
      skipRequested := false;
      events := [];
      viewLog := [];
    }

    /** The configuration the view animates a chest of type `t` with; null without a configuration. */
    function TypeConfigFor(t: ChestType): (r: Option<ChestTypeConfig>)
      ensures config.None? ==> r.None?
      ensures config.Some? ==> r == GetTypeConfig(config.value.chestTypes, t)
    {
      if config.Some? then GetTypeConfig(config.value.chestTypes, t) else None
    }

    /** Requests that the remaining reveals be skipped and forwards the request to the view. */
    method SkipAnimation()
      modifies this`skipRequested, this`viewLog
      ensures skipRequested
      ensures viewLog == old(viewLog) + (if hasView then [SkipAnimationCall] else [])
    {
      skipRequested := true;
      if hasView {
        viewLog := viewLog + [SkipAnimationCall];
      }
    }

    /**
     * The reveal loop of an opening: rewards are announced in order until a
     * skip is seen. `skipAt == Some(i)` says `SkipAnimation` arrives during the
     * await that precedes reveal number `i` (for `i == |rewards|`, the last one).
     */
    method RevealRewards(rewards: seq<ChestReward>, skipAt: Option<nat>)
      requires !skipRequested
      modifies this`skipRequested, this`events, this`viewLog
      ensures var shown := rewards[..RevealCount(|rewards|, skipAt)];
              var skipped := skipAt.Some? && skipAt.value <= |rewards|;
              && events == old(events) + RevealEvents(shown)
              && viewLog == old(viewLog) + ShowCalls(hasView, shown)
                            + (if hasView && skipped then [SkipAnimationCall] else [])
              && skipRequested == skipped
    {
      var n := RevealCount(|rewards|, skipAt);
      ghost var events0, viewLog0 := events, viewLog;
      var i := 0;
      while i < |rewards|
        invariant 0 <= i <= n && !skipRequested
        invariant skipAt.Some? ==> i <= skipAt.value
        invariant events == events0 + RevealEvents(rewards[..i])
        invariant viewLog == viewLog0 + ShowCalls(hasView, rewards[..i])
      {
        if skipAt == Some(i) {
          SkipAnimation();
        }
        if skipRequested {
          break;
        }
        assert events == events0 + RevealEvents(rewards[..i]) && viewLog == viewLog0 + ShowCalls(hasView, rewards[..i]);
        RevealNext(hasView, rewards, i);
        events := events + [RewardRevealed(rewards[i])];
        if hasView {
          viewLog := viewLog + [ShowReward(rewards[i])];
        }
        i := i + 1;
      }
      assert i == n && rewards[..i] == rewards[..RevealCount(|rewards|, skipAt)];
      if skipAt == Some(|rewards|) && i == |rewards| {
        SkipAnimation();
      }
    }

    /**
     * Opens `chest` at time `now`. The awaits (open animation, reward delays)
     * are suspension points; `skipAt == Some(i)` says the host calls
     * `SkipAnimation` while the controller waits before reveal number `i`.
     */
    method OpenChest(chest: ChestModel?, now: int, skipAt: Option<nat>) returns (result: seq<ChestReward>)
      modifies this, chest
      ensures chest == null || old(isOpening) || !old(chest.CanOpen(now)) ==>
                result == [] && unchanged(this) && (chest != null ==> unchanged(chest))
      ensures chest != null && !old(isOpening) && old(chest.CanOpen(now)) ==>
                var shown := old(chest.rewards)[..RevealCount(|old(chest.rewards)|, skipAt)];
                var skipped := skipAt.Some? && skipAt.value <= |result|;
                && result == old(chest.rewards) == chest.rewards
                && chest.state == Opened
                && chest.chestId == old(chest.chestId) && chest.chestType == old(chest.chestType)
                && chest.unlockTime == old(chest.unlockTime)
                && events == old(events) + [ChestOpeningEvent(chest)] + RevealEvents(shown)
                             + [ChestOpenedEvent(chest, result)]
                && viewLog == old(viewLog)
                              + (if hasView then [PlayOpenAnimation(chest, TypeConfigFor(chest.chestType))] else [])
                              + ShowCalls(hasView, shown)
                              + (if hasView && skipped then [SkipAnimationCall] else [])
                && !isOpening && currentChest == null && skipRequested == skipped
    {
      if chest == null || isOpening || !chest.CanOpen(now) {
        return [];
      }
      isOpening := true;
      skipRequested := false;
      currentChest := chest;
      chest.state := Opening;
      events := events + [ChestOpeningEvent(chest)];
      if hasView {
        viewLog := viewLog + [PlayOpenAnimation(chest, TypeConfigFor(chest.chestType))];
      }
      var rewards := chest.rewards;
      RevealRewards(rewards, skipAt);
      chest.state := Opened;
      events := events + [ChestOpenedEvent(chest, rewards)];
      result := rewards;
      isOpening := false;
      currentChest := null;
    }

    /** Opening by id builds a ready common chest with no rewards and opens it. */
    method OpenChestById(chestId: Option<string>, now: int, skipAt: Option<nat>) returns (result: seq<ChestReward>)
      modifies this
      ensures old(isOpening) ==> result == [] && unchanged(this)
      ensures !old(isOpening) ==> result == [] && !isOpening && currentChest == null
      ensures !old(isOpening) ==> skipRequested == (skipAt == Some(0))
      ensures !old(isOpening) ==>
                exists c: ChestModel :: (fresh(c) && c.state == Opened && c.chestId == chestId
                  && c.chestType == ChestType.Common && c.rewards == []
                  && events == old(events) + [ChestOpeningEvent(c), ChestOpenedEvent(c, [])]
                  && viewLog == old(viewLog)
                                + (if hasView then [PlayOpenAnimation(c, TypeConfigFor(ChestType.Common))] else [])
                                + (if hasView && skipAt == Some(0) then [SkipAnimationCall] else []))
    {
      var chest := new ChestModel(chestId, ChestType.Common, Some([]));
      result := OpenChest(chest, now, skipAt);
      assert old(isOpening) || (RevealEvents([]) == [] && ShowCalls(hasView, []) == []);
    }
  }
}
