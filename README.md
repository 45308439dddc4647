# Spyke feature modules in Dafny

This project models the plain C# core of five Unity feature modules and proves properties of that core.

- **Tutorial** — steps that drive a tutorial view, ordered step sequences, a five-state tutorial model (Idle, Running, Paused, Completed, Cancelled) and the controller that starts, fast-forwards, runs, skips and cancels a sequence.
- **Inbox** — items that can be read, claimed and expire; a model that keeps them newest first; a controller that fetches, claims, marks and deletes items through an optional backend.
- **Leaderboard** — entry lists per (tab, scope) board; the current user's entry, which is shared by reference with the stored lists; a controller that switches boards and fetches all twelve boards.
- **Daily bonus** — a streak model with change-guarded setters; the cyclic reward table; a controller that checks availability, breaks streaks and records claims against the next UTC reset.
- **Chest** — chests that open once unlocked, a per-type configuration lookup, and a controller that opens a chest and reveals its rewards until a skip arrives.

Each C# file keeps its own form in the model:

- Mutable objects are Dafny classes. These are models, controllers, tutorial steps and sequences, inbox items, leaderboard entries and chests.
- Loops are methods with loop invariants, proved against specification functions.
- Configurations, rewards and enums are datatypes.
- C# events become event logs: a `seq` field to which each firing appends.
- In the tutorial and chest modules, calls on the optional view become a log of view calls, and a flag says whether the view is present. The inbox, leaderboard and daily bonus views are not modelled; "## Left out" lists the calls their controllers make.
- In the inbox and leaderboard modules, a flag says whether the optional backend is present.
- The clock becomes a `now` parameter.
- A backend's answers are parameters of the method that asks.
- A tutorial run's awaits are suspension points. At each one, a host function decides which controller call, if any, arrives.

Three behaviours of the tutorial code are easy to misread:

- **Starting while Paused.** Starting a sequence does not look at the previous state. The controller's start guard rejects only a Running model, so a Paused model accepts a new start.
- **Skip-all.** Skip-all cancels first, and cancelling clears the sequence. The completion that follows therefore does not record the sequence id, so the sequence can be offered again.
- **Cancel event.** The cancelled event reads the sequence id after the model has cleared it, so it always carries null.

## Model

| member | source | states |
|---|---|---|
| Common.TruncRem | Runtime/DailyBonus/DailyBonusConfig.cs:67 | C#'s `%`, which truncates toward zero: the remainder has the dividend's sign, is smaller in magnitude than the divisor, and equals the Euclidean remainder for a non-negative dividend |
| Chest.NewChestReward | Runtime/Chest/ChestReward.cs:45-52 | every argument is stored; a null display name falls back to the reward id |
| Chest.ChestModel.Default | Runtime/Chest/ChestModel.cs:73 | the parameterless chest: no id, Common type, Locked, no rewards, unlock time `DateTime.MinValue` |
| Chest.ChestModel.constructor | Runtime/Chest/ChestModel.cs:75-81 | a built chest is Ready, null rewards become an empty list, and it can open at every `now` |
| Chest.ChestModel.TimeRemaining | Runtime/Chest/ChestModel.cs:69-71 | never negative; zero exactly when the unlock time is reached; otherwise `now` plus the result is the unlock time |
| Chest.OpeningOrOpenedNeverOpens | Runtime/Chest/ChestModel.cs:63-64 | a chest that is Opening or Opened cannot open |
| Chest.OpenabilityPersists | Runtime/Chest/ChestModel.cs:63-64 | a chest that can open keeps being able to open as time passes; a chest that becomes openable was Locked and its unlock time fell in between |
| Chest.LockedOpensWhenNothingRemains | Runtime/Chest/ChestModel.cs:63-71 | a Locked chest can open exactly when its remaining time is zero |
| Chest.DefaultChestConfig | Runtime/Chest/ChestConfig.cs:14-19 | the asset's defaults: no types, 2 s opening, 0.5 s reward delay, 0.2 s reward interval |
| Chest.GetTypeConfig | Runtime/Chest/ChestConfig.cs:44-54 | null exactly when no configuration has the type; otherwise the first configuration in list order with that type |
| Chest.RevealLogs | Runtime/Chest/ChestController.cs:79-87 | the reveal log holds one event per reward in reward order, and with a view one show call per reward in the same order |
| Chest.ChestController.constructor | Runtime/Chest/ChestController.cs:14-19 | no current chest, not opening, no skip requested, empty logs |
| Chest.ChestController.TypeConfigFor | Runtime/Chest/ChestController.cs:64 | null without a configuration, otherwise the first-match lookup of the chest's type |
| Chest.ChestController.SkipAnimation | Runtime/Chest/ChestController.cs:109-113 | the skip flag is set and, with a view, the skip is forwarded to it |
| Chest.ChestController.RevealRewards | Runtime/Chest/ChestController.cs:73-87 | the rewards revealed are all of them without a skip and otherwise exactly the prefix before the skip position (capped at the reward count), in order, each with its event and show call; the skip flag ends set exactly when a skip arrived |
| Chest.ChestController.OpenChest | Runtime/Chest/ChestController.cs:32-99 | a null chest, an open in progress or a chest that cannot open gives an empty result and changes nothing; otherwise the chest ends Opened with id, type and unlock time kept, the full reward list is returned even after a skip, the events are opening, then the revealed prefix, then opened, and the controller is left not opening with no current chest |
| Chest.ChestController.OpenChestById | Runtime/Chest/ChestController.cs:101-107 | refused while an opening is in progress; otherwise opening by id builds a new Ready common chest with that id and no rewards, opens it with just the opening and opened events, returns an empty list, and with a view plays its open animation and forwards a skip that arrives before the (empty) reveal; the skip flag ends set exactly when that skip arrived |
| DailyBonus.DefaultConfig | Runtime/DailyBonus/DailyBonusConfig.cs:13-23 | reset hour 0, grace 24 h, streak break 48 h, no rewards, cycle 7, multiplier cap 7 |
| DailyBonus.GetRewardForDay | Runtime/DailyBonus/DailyBonusConfig.cs:63-69 | null exactly without rewards; otherwise the reward at the truncated remainder of `day - 1` by the cycle length, or the last reward past the list's end; the result is always one of the configured rewards |
| DailyBonus.PositiveDaysHaveRewards | Runtime/DailyBonus/DailyBonusConfig.cs:65-68 | with rewards and a positive cycle, every day from 1 on has a reward |
| DailyBonus.RewardRepeatsEachCycle | Runtime/DailyBonus/DailyBonusConfig.cs:67-68 | days that differ by whole cycles get the same reward |
| DailyBonus.FullCycleIndexesInOrder | Runtime/DailyBonus/DailyBonusConfig.cs:67-68 | with at least one reward per cycle day, days 1 to the cycle length get the rewards in list order |
| DailyBonus.StreakEvents | Runtime/DailyBonus/DailyBonusModel.cs:40-51 | the streak setter fires exactly when the value changes, carrying the new value |
| DailyBonus.StateEvents | Runtime/DailyBonus/DailyBonusModel.cs:83-94 | the state setter fires exactly when the value changes, carrying the new value |
| DailyBonus.DailyBonusModel.constructor | Runtime/DailyBonus/DailyBonusModel.cs:31-35 | a fresh model has zero streaks and timestamps and is Available, the enum's first value |
| DailyBonus.DailyBonusModel.TimeRemaining | Runtime/DailyBonus/DailyBonusModel.cs:104-111 | never negative; zero exactly once `now` reaches the next available time; otherwise `now` plus the result is that time |
| DailyBonus.DailyBonusModel.SetCurrentStreak | Runtime/DailyBonus/DailyBonusModel.cs:40-51 | stores the value and fires only on a change |
| DailyBonus.DailyBonusModel.SetState | Runtime/DailyBonus/DailyBonusModel.cs:83-94 | stores the value and fires only on a change |
| DailyBonus.DailyBonusModel.ResetStreak | Runtime/DailyBonus/DailyBonusModel.cs:126-130 | streak 0 and state StreakReset; the best streak is kept and `0 <= streak <= best` holds afterwards whenever it held before |
| DailyBonus.DailyBonusModel.IncrementStreak | Runtime/DailyBonus/DailyBonusModel.cs:135-142 | the streak grows by one, the best streak becomes the larger of itself and the new streak, and one streak event fires |
| DailyBonus.DailyBonusModel.RecordClaim | Runtime/DailyBonus/DailyBonusModel.cs:147-153 | both timestamps are stored, the state is Claimed, the streak grows by one, and the events come in setter order |
| DailyBonus.DayStart | Runtime/DailyBonus/DailyBonusController.cs:144-146 | the UTC midnight at or before `t`: a whole number of days, less than a day before `t` |
| DailyBonus.NextResetTime | Runtime/DailyBonus/DailyBonusController.cs:138-154 | the first instant strictly after `now` whose time of day is the reset hour: later than `now` by at most a day, at the reset hour, with no such instant in between |
| DailyBonus.CheckConditionsPersist | Runtime/DailyBonus/DailyBonusController.cs:109-123 | the streak-break and availability conditions of the check, once met, stay met as time passes; a never-claimed bonus never breaks a streak and is always available |
| DailyBonus.ClaimHoldsUntilNextReset | Runtime/DailyBonus/DailyBonusController.cs:105-136 | after a claim, the bonus is not available and, with a break threshold of at least a day, the streak does not break before the next reset; from the reset on, it is available |
| DailyBonus.DailyBonusController.constructor | Runtime/DailyBonus/DailyBonusController.cs:13-19 | stores model and configuration; not yet seen available; no events |
| DailyBonus.DailyBonusController.CurrentDay | Runtime/DailyBonus/DailyBonusController.cs:22 | for a non-negative streak, a day between 1 and the cycle length, one more than the streak's remainder by the cycle length |
| DailyBonus.DailyBonusController.CurrentDayAfterClaim | Runtime/DailyBonus/DailyBonusController.cs:22 | each claim moves the current day on by one and wraps from the cycle's last day to day 1 |
| DailyBonus.DailyBonusController.RewardForDay | Runtime/DailyBonus/DailyBonusController.cs:100-103 | null without a configuration, otherwise the configuration's reward for that day |
| DailyBonus.DailyBonusController.CurrentDayReward | Runtime/DailyBonus/DailyBonusController.cs:95-98 | null without a configuration or without rewards, otherwise a configured reward |
| DailyBonus.DailyBonusController.ClaimBonus | Runtime/DailyBonus/DailyBonusController.cs:62-93 | when the model's `IsAvailable` (DailyBonusModel.cs line 99) is false, or there is no reward: null and nothing changes; otherwise the reward computed before the claim is returned and announced, and the claim is recorded at `now` with the next reset time, leaving state Claimed, `IsAvailable` false, the streak one higher, the best streak the larger of itself and the new streak, and the model's state and streak events in setter order |
| DailyBonus.DailyBonusController.CheckBonusAvailability | Runtime/DailyBonus/DailyBonusController.cs:105-136 | a claim more than the break threshold ago resets the streak; the state turns Available when the reset time has come or nothing was ever claimed; the available event fires only on entering Available when the previous check had not seen it available; the remembered availability is the model's `IsAvailable`; the model's event log is spelled out |
| Leaderboard.LeaderboardEntry.constructor | Runtime/Leaderboard/LeaderboardEntry.cs:114-136 | every argument is stored in its field; the optional ones default to 0, null and false |
| Leaderboard.LeaderboardEntry.SetRank | Runtime/Leaderboard/LeaderboardEntry.cs:36-40 | changes the rank only |
| Leaderboard.LeaderboardEntry.SetScore | Runtime/Leaderboard/LeaderboardEntry.cs:45-49 | changes the score only |
| Leaderboard.LeaderboardEntry.SetSubScore | Runtime/Leaderboard/LeaderboardEntry.cs:54-58 | changes the sub-score only, so whether the entry is empty does not change |
| Leaderboard.RankedEntryIsNotEmpty | Runtime/Leaderboard/LeaderboardEntry.cs:108-112 | `IsEmpty` fails for an entry with a rank or a score, whatever its id and name |
| Leaderboard.IdentifiedEntryIsNotEmpty | Runtime/Leaderboard/LeaderboardEntry.cs:108-112 | `IsEmpty` fails for an entry with an id or a name, whatever its rank and score |
| Leaderboard.FirstCurrentUser | Runtime/Leaderboard/LeaderboardModel.cs:63-70 | none exactly when no entry is the current user's; otherwise the first such position |
| Leaderboard.FirstWithId | Runtime/Leaderboard/LeaderboardModel.cs:116-127 | none exactly when no entry has the id; otherwise the first such position |
| Leaderboard.EntriesOf | Runtime/Leaderboard/LeaderboardModel.cs:32-40 | a board never set reads as empty; a stored board reads as stored |
| Leaderboard.SetEntriesSpec | Runtime/Leaderboard/LeaderboardModel.cs:45-73 | the board holds exactly the given list; the first current-user entry of the list, if any, becomes the current user's entry and is announced before the data change |
| Leaderboard.SetEntriesIsolated | Runtime/Leaderboard/LeaderboardModel.cs:45-60 | a stored board reads back exactly as given, and no other board changes |
| Leaderboard.LeaderboardModel.constructor | Runtime/Leaderboard/LeaderboardModel.cs:11-12 | no boards, no current user's entry, no events |
| Leaderboard.LeaderboardModel.GetEntries | Runtime/Leaderboard/LeaderboardModel.cs:32-40 | the stored board, or empty for a board never set |
| Leaderboard.LeaderboardModel.SetEntries | Runtime/Leaderboard/LeaderboardModel.cs:45-73 | the new state is the storing function's, with a null list stored as empty |
| Leaderboard.LeaderboardModel.UpdateCurrentUserEntry | Runtime/Leaderboard/LeaderboardModel.cs:78-82 | stores the entry and announces it |
| Leaderboard.LeaderboardModel.UpdateCurrentUserScore | Runtime/Leaderboard/LeaderboardModel.cs:87-95 | a no-op without a current user's entry; otherwise score and sub-score change on that shared object, the rank is kept, every board position holding that object shows the new score, and the change is announced |
| Leaderboard.LeaderboardModel.GetCurrentUserRank | Runtime/Leaderboard/LeaderboardModel.cs:100-111 | the rank of the board's first current-user entry, or -1 without one |
| Leaderboard.LeaderboardModel.FindEntry | Runtime/Leaderboard/LeaderboardModel.cs:116-127 | the board's first entry with the id, or null |
| Leaderboard.LeaderboardModel.Clear | Runtime/Leaderboard/LeaderboardModel.cs:132-137 | no boards and no current user's entry; the data change is announced |
| Leaderboard.LeaderboardModel.ClearBoard | Runtime/Leaderboard/LeaderboardModel.cs:142-150 | an existing board is emptied and the change announced; a missing board changes nothing; the current user's entry is kept either way |
| Leaderboard.AllKeysCover | Runtime/Leaderboard/LeaderboardEnums.cs:6-22 | every (tab, scope) pair is one of the twelve boards in enumeration order |
| Leaderboard.WithoutMembers | Runtime/Leaderboard/LeaderboardController.cs:79-88 | skipping the current board keeps exactly the other boards, in order, without repeats, and one fewer of them |
| Leaderboard.FetchOrderVisitsEachBoardOnce | Runtime/Leaderboard/LeaderboardController.cs:71-91 | a fetch-all visits twelve boards, the current one first, each board exactly once |
| Leaderboard.FetchAllStoresAnswers | Runtime/Leaderboard/LeaderboardController.cs:71-91 | after fetching distinct boards, each board whose fetch succeeded holds exactly the backend's answer and every other board is as before |
| Leaderboard.LeaderboardController.constructor | Runtime/Leaderboard/LeaderboardController.cs:18-20 | Players tab, Global scope, not fetching |
| Leaderboard.LeaderboardController.SwitchTab | Runtime/Leaderboard/LeaderboardController.cs:113-120 | the tab is the given one; the event fires once, and only on a change |
| Leaderboard.LeaderboardController.SwitchScope | Runtime/Leaderboard/LeaderboardController.cs:122-129 | the scope is the given one; the event fires once, and only on a change |
| Leaderboard.LeaderboardController.FetchLeaderboard | Runtime/Leaderboard/LeaderboardController.cs:36-69 | refused without a request while fetching or without a backend; otherwise one request for exactly that board, success exactly when the backend answers, the answer stored under that board, a throwing fetch leaving the model alone, and the fetching flag down again |
| Leaderboard.LeaderboardController.FetchAllLeaderboards | Runtime/Leaderboard/LeaderboardController.cs:71-91 | refused, with no request, while fetching or without a backend; otherwise the requests are the fetch order (current board first, then the other eleven), the result is whether every board was answered, the model is the result of storing each answer in that order, and the fetching flag is down afterwards |
| Leaderboard.LeaderboardController.FetchOthers | Runtime/Leaderboard/LeaderboardController.cs:79-88 | every board other than the current one is fetched once, in enumeration order, and the result is whether all of those succeeded |
| Inbox.InboxItem.constructor | Runtime/Inbox/InboxItem.cs:120-148 | every argument is stored; a created time that is not positive becomes `now`; read and claimed start false |
| Inbox.ExpiryAndClaimRules | Runtime/Inbox/InboxItem.cs:108-118 | an item without expiration never expires; a claimed item is not claimable; a claimable item is collectable |
| Inbox.ExpiryIsPermanent | Runtime/Inbox/InboxItem.cs:116-118 | `IsExpired` is monotone in time: an item expired at some time stays expired later |
| Inbox.ClaimabilityOnlyLapses | Runtime/Inbox/InboxItem.cs:108-118 | `CanClaim` only lapses with time: an item claimable later was claimable earlier, one without expiration keeps its claimability, and one that lapses has expired |
| Inbox.InsertDesc | Runtime/Inbox/InboxModel.cs:156-159 | inserting into a newest-first list keeps it newest first and adds exactly that item |
| Inbox.SortDesc | Runtime/Inbox/InboxModel.cs:156-159 | a newest-first ordering of exactly the same items |
| Inbox.FirstWithId | Runtime/Inbox/InboxModel.cs:98-101 | none exactly when no item has the id; otherwise the first such position |
| Inbox.IndexOf | Runtime/Inbox/InboxModel.cs:89 | the list's remove-by-reference finds the first occurrence of the object, and none exactly when it is absent |
| Inbox.RemoveAt | Runtime/Inbox/InboxModel.cs:89 | removing one position keeps the items before and after it in order and drops exactly that item |
| Inbox.RemoveFirst | Runtime/Inbox/InboxModel.cs:89 | an absent object leaves the list as it is; otherwise exactly its first occurrence is dropped, the rest kept in order, and the list is one shorter |
| Inbox.ExpiredAndKeptSplit | Runtime/Inbox/InboxModel.cs:130-145 | the expired and the kept items together number the whole list, and nothing kept has expired |
| Inbox.KeptSorted | Runtime/Inbox/InboxModel.cs:130-145 | dropping expired items keeps a newest-first list newest first |
| Inbox.FilterMembers | Runtime/Inbox/InboxModel.cs:106-132 | each filter keeps exactly the items meeting its condition |
| Inbox.FilteredFrom | Runtime/Inbox/InboxModel.cs:106-125 | every item a filter returns comes from the list and meets its condition |
| Inbox.ClaimableInIsFilterOfCategory | Runtime/Inbox/InboxModel.cs:114-125 | the claimable items of a category are the claimable filter applied to that category's items |
| Inbox.UnreadCount | Runtime/Inbox/InboxModel.cs:22 | at most the list length, and zero exactly when every item is read |
| Inbox.ClaimableCount | Runtime/Inbox/InboxModel.cs:27 | the number of claimable items, zero exactly when none is claimable |
| Inbox.RemovedEvents | Runtime/Inbox/InboxModel.cs:133-137 | one removal event per removed item, in order |
| Inbox.InboxModel.constructor | Runtime/Inbox/InboxModel.cs:12 | no items, no events |
| Inbox.InboxModel.SortByCreatedTime | Runtime/Inbox/InboxModel.cs:156-159 | the items end newest first, holding exactly the same items |
| Inbox.InboxModel.SetItems | Runtime/Inbox/InboxModel.cs:57-66 | the items are exactly the given ones (none for null), newest first; one update event |
| Inbox.InboxModel.AddItem | Runtime/Inbox/InboxModel.cs:71-79 | null changes nothing; otherwise the items gain exactly that item, newest first, and the added and update events fire in that order |
| Inbox.InboxModel.GetItem | Runtime/Inbox/InboxModel.cs:98-101 | null exactly when no item has the id; otherwise the first item with it |
| Inbox.InboxModel.RemoveItem | Runtime/Inbox/InboxModel.cs:84-93 | true exactly when some item has the id; then exactly the first such item is removed, the rest keep their order, and the removed and update events fire; otherwise nothing changes |
| Inbox.InboxModel.ItemsByCategory | Runtime/Inbox/InboxModel.cs:106-109 | exactly the list's items of that category |
| Inbox.InboxModel.ClaimableItems | Runtime/Inbox/InboxModel.cs:114-117 | exactly the list's claimable items |
| Inbox.InboxModel.ClaimableItemsIn | Runtime/Inbox/InboxModel.cs:122-125 | exactly the list's claimable items of that category |
| Inbox.InboxModel.RemoveExpiredItems | Runtime/Inbox/InboxModel.cs:130-145 | the items are the unexpired ones in their order, the result is the number removed, one removal event fires per expired item, and the update event fires only when something was removed |
| Inbox.InboxModel.Clear | Runtime/Inbox/InboxModel.cs:150-154 | no items; one update event |
| Inbox.Accepted | Runtime/Inbox/InboxController.cs:96-103 | the items among the first `k` of the snapshot whose claim succeeds at their own claim time; never more than `k` |
| Inbox.AcceptedFrom | Runtime/Inbox/InboxController.cs:96-103 | every accepted item is one of the first `k` of the snapshot, and the backend, if there is one, accepted its id |
| Inbox.AcceptedMembers | Runtime/Inbox/InboxController.cs:96-103 | with unique ids, a snapshot item is among the accepted ones exactly when it has not expired at its own claim time and the backend, if there is one, accepts its id |
| Inbox.ClaimedEvents | Runtime/Inbox/InboxController.cs:86 | one claimed event per claimed item, as many as the items |
| Inbox.ClaimedEventsAt | Runtime/Inbox/InboxController.cs:86 | the claimed event at each position carries the item claimed at that position |
| Inbox.ClaimedEventsAppend | Runtime/Inbox/InboxController.cs:96-103 | the claimed events of two runs of claims one after the other are those of the first run followed by those of the second |
| Inbox.ClaimCalls | Runtime/Inbox/InboxController.cs:78-82 | at most one backend request per claim, and none without a backend |
| Inbox.ClaimedSoFarNext | Runtime/Inbox/InboxController.cs:96-103 | one more claim of the claim-all loop, succeeding exactly when the item has not expired by its claim time and the backend accepts, extends the accepted list, the claimed events and the backend requests by exactly that claim's share |
| Inbox.InboxController.constructor | Runtime/Inbox/InboxController.cs:14-18 | stores model and backend presence; not refreshing; empty logs |
| Inbox.InboxController.FetchInbox | Runtime/Inbox/InboxController.cs:34-61 | refused while refreshing; fails without a backend; otherwise one fetch request, and the items are the fetched ones newest first without the expired ones; the refreshing flag is down afterwards on every path that starts a refresh |
| Inbox.InboxController.ClaimItem | Runtime/Inbox/InboxController.cs:63-89 | succeeds exactly when the item exists, is claimable and the backend (if any) accepts; the backend is asked only for a claimable item; success leaves the item claimed and no longer claimable and fires one claimed event; no other item's flags change |
| Inbox.InboxController.ClaimEach | Runtime/Inbox/InboxController.cs:96-103 | the claimed items come from the snapshot; when the snapshot was claimable at `now` with unique ids, they are exactly the accepted ones in snapshot order, each read at its own clock time, with one claimed event per claimed item and, with a backend, one request per item not expired at its claim time, in order; each snapshot item ends claimed exactly when its claim succeeds, and items outside the snapshot keep their claimed flag |
| Inbox.InboxController.ClaimAt | Runtime/Inbox/InboxController.cs:98-101 | one round of claim-all: a listed item that was claimable when listed is claimed at its own clock time, succeeding exactly when it has not expired by then and the backend accepts; the backend is asked exactly when there is one and the item has not expired; one claimed event exactly on success; no other item's claimed flag changes, and with unique ids in the snapshot too, the later listed items stay claimable for the next rounds |
| Inbox.InboxController.ClaimAll | Runtime/Inbox/InboxController.cs:91-106 | the snapshot is the claimable items before the first claim, and each claim reads the clock again; with unique ids the result is exactly the accepted snapshot items in order, one claimed event fires per returned item in that order, the backend gets one claim request per snapshot item not expired at its claim time, each snapshot item ends claimed exactly when returned, and no other item's claimed flag changes |
| Inbox.InboxController.ClaimAllInCategory | Runtime/Inbox/InboxController.cs:108-123 | as claim-all, over the claimable items of the category only: the same result, claimed events, backend requests and flags |
| Inbox.InboxController.MarkAsRead | Runtime/Inbox/InboxController.cs:125-133 | the item with the id ends read; the update fires only when it existed and was unread; no other item changes |
| Inbox.InboxController.MarkAllAsRead | Runtime/Inbox/InboxController.cs:135-151 | every item ends read; the update fires once, exactly when some item was unread |
| Inbox.InboxController.DeleteItem | Runtime/Inbox/InboxController.cs:153-162 | with a backend, one delete request; a refusal changes nothing; otherwise the result is whether an item had the id, and then exactly the first such item is removed and the model fires its removed and updated events |
| Inbox.InboxController.GetClaimableCount | Runtime/Inbox/InboxController.cs:164-167 | the number of claimable items of the category |
| Inbox.InboxController.OnItemReceived | Runtime/Inbox/InboxController.cs:172-176 | the item is added as the model adds it (null ignored), with the model's added and updated events, and the received event fires either way |
| Tutorial.TutorialStep.constructor | Runtime/Tutorial/TutorialStep.cs:25-32 | a step from its serialized fields starts Pending with no completion fired |
| Tutorial.TutorialStep.Message | Runtime/Tutorial/TutorialStep.cs:124-128 | a message step: skippable, no delays, Pending |
| Tutorial.TutorialStep.Highlight | Runtime/Tutorial/TutorialStep.cs:153-158 | a highlight step on its target: skippable, no delays, Pending |
| Tutorial.TutorialStep.Pointer | Runtime/Tutorial/TutorialStep.cs:194-199 | a pointer step has no title: skippable, no delays, Pending |
| Tutorial.TutorialStep.Script | Runtime/Tutorial/TutorialStep.cs:130-209 | each kind first shows its message (a pointer step with no title); a highlight step then highlights its target and waits for a click on that same target or for a tap; a pointer step shows the pointer and waits for a tap; only the last call can be a wait, and there is one unless a message step does not wait for a tap |
| Tutorial.TutorialStep.Complete | Runtime/Tutorial/TutorialStep.cs:101-105 | state Completed and the completed event fires once |
| Tutorial.TutorialStep.Skip | Runtime/Tutorial/TutorialStep.cs:110-114 | state Skipped and the completed event fires once, whatever `canSkip` says |
| Tutorial.FirstStepWithId | Runtime/Tutorial/TutorialSequence.cs:78-81 | none exactly when no step has the id; otherwise the first such position |
| Tutorial.TutorialSequence.constructor | Runtime/Tutorial/TutorialSequence.cs:49-55 | the given fields and no steps |
| Tutorial.TutorialSequence.WithDefaults | Runtime/Tutorial/TutorialSequence.cs:49 | defaults: no name, priority 0, skippable as a whole, no steps |
| Tutorial.TutorialSequence.AddStep | Runtime/Tutorial/TutorialSequence.cs:60-64 | the step is appended, `StepCount` (line 47) grows by one, earlier steps are kept, and the same sequence is returned |
| Tutorial.TutorialSequence.GetStepAt | Runtime/Tutorial/TutorialSequence.cs:69-73 | null exactly outside 0 to the count, otherwise the step at that position |
| Tutorial.TutorialSequence.GetStepById | Runtime/Tutorial/TutorialSequence.cs:78-81 | null exactly when no step has the id, otherwise the first step with it |
| Tutorial.StateEvents | Runtime/Tutorial/TutorialModel.cs:32-43 | the state setter fires exactly when the value changes, carrying the new value |
| Tutorial.TutorialModel.constructor | Runtime/Tutorial/TutorialModel.cs:23-27 | Idle, no sequence, index -1, empty completion sets |
| Tutorial.TutorialModel.SetState | Runtime/Tutorial/TutorialModel.cs:32-43 | stores the state and fires only on a change |
| Tutorial.TutorialModel.CurrentStep | Runtime/Tutorial/TutorialModel.cs:58 | the step at the current index when there is a sequence and the index is in range, otherwise null |
| Tutorial.TutorialModel.Progress | Runtime/Tutorial/TutorialModel.cs:73-81 | 0 without a sequence or without steps; otherwise (index + 1) / step count, between 0 and 1 under the index invariant and 1 at the last step |
| Tutorial.TutorialModel.StartSequence | Runtime/Tutorial/TutorialModel.cs:101-106 | from any state: the sequence, index -1, Running |
| Tutorial.TutorialModel.CompleteCurrentSequence | Runtime/Tutorial/TutorialModel.cs:141-152 | records and announces the current sequence's id if there is one, then clears the sequence and enters Completed |
| Tutorial.TutorialModel.NextStep | Runtime/Tutorial/TutorialModel.cs:111-125 | without a sequence: false, nothing changes; otherwise the index grows; past the last step the sequence is recorded, cleared and Completed with exactly one completion event and false; else one step-changed event and true; the index invariant is kept |
| Tutorial.TutorialModel.CompleteCurrentStep | Runtime/Tutorial/TutorialModel.cs:130-136 | adds the current step's id to the completed steps, so `IsStepCompleted` (line 197) holds for it and for every id it held for; nothing without a current step |
| Tutorial.TutorialModel.Cancel | Runtime/Tutorial/TutorialModel.cs:157-162 | from any state: no sequence, index -1, Cancelled; completed sequences untouched |
| Tutorial.TutorialModel.Pause | Runtime/Tutorial/TutorialModel.cs:167-173 | Running becomes Paused; every other state is left alone; afterwards `IsRunning` (line 63) is false and `IsPaused` (line 68) holds exactly when the model was running or paused |
| Tutorial.TutorialModel.Resume | Runtime/Tutorial/TutorialModel.cs:178-184 | Paused becomes Running; every other state is left alone; afterwards `IsPaused` is false and `IsRunning` holds exactly when the model was running or paused |
| Tutorial.TutorialModel.MarkSequenceCompleted | Runtime/Tutorial/TutorialModel.cs:205-208 | adds the id to the completed sequences: `IsSequenceCompleted` (line 189) holds for it and is unchanged for every other id |
| Tutorial.TutorialModel.LoadCompletionData | Runtime/Tutorial/TutorialModel.cs:221-231 | the completed sequences become exactly the given ids, so `IsSequenceCompleted` holds exactly for them; null gives none |
| Tutorial.StepChangesSplit | Runtime/Tutorial/TutorialController.cs:67-90 | the step changes of the fast-forward followed by those of the run are every step change once, in order |
| Tutorial.StepIdsMembers | Runtime/Tutorial/TutorialModel.cs:130-136 | the ids a run records are exactly those carried by the steps it ran |
| Tutorial.LaunchCalls | Runtime/Tutorial/TutorialController.cs:58-73 | the fast-forward records no id and makes no view call, so a launch's ids and calls are those of the steps from the (clamped) start step, between the view's opening and its hiding |
| Tutorial.LaunchEvents | Runtime/Tutorial/TutorialController.cs:58-90 | the fast-forward's step changes and the run's together are every step change of the sequence once, then the completion, wherever the start step lies |
| Tutorial.RunEndsAtFullProgress | Runtime/Tutorial/TutorialController.cs:113-134 | an uninterrupted run of the remaining steps ends by setting progress 1, clearing the highlight and hiding the pointer |
| Tutorial.TutorialController.constructor | Runtime/Tutorial/TutorialController.cs:15-19 | no registrations, no cancellation, empty logs |
| Tutorial.TutorialController.RegisterSequence | Runtime/Tutorial/TutorialController.cs:192-198 | null is ignored; the latest registration for an id wins; a null id is refused by the dictionary |
| Tutorial.TutorialController.SkipCurrentStep | Runtime/Tutorial/TutorialController.cs:152-159 | the current step is skipped only when it exists and may be skipped; otherwise it is untouched |
| Tutorial.TutorialController.Pause | Runtime/Tutorial/TutorialController.cs:170-173 | the model's pause rule |
| Tutorial.TutorialController.Resume | Runtime/Tutorial/TutorialController.cs:175-178 | the model's resume rule |
| Tutorial.TutorialController.Cancel | Runtime/Tutorial/TutorialController.cs:180-190 | cancellation requested; the model cleared and Cancelled; the cancelled event carries null; the view is hidden |
| Tutorial.TutorialController.SkipAll | Runtime/Tutorial/TutorialController.cs:161-168 | nothing unless the current sequence may be skipped as a whole; then cancel, and the model ends Completed without recording the sequence id |
| Tutorial.TutorialController.Act | Runtime/Tutorial/TutorialController.cs:152-190 | any call the host makes during a suspension keeps the model's invariants, never records a completion, and either leaves the run where it was or cancels it |
| Tutorial.TutorialController.BeforeStep | Runtime/Tutorial/TutorialController.cs:101-111 | the delay before a step and the wait while paused: a cancellation there abandons the step, a pause nobody ends parks it, and an undisturbed running step passes straight through |
| Tutorial.TutorialController.PerformStep | Runtime/Tutorial/TutorialController.cs:113-123 | with a view the step's script runs and the step ends Completed; whatever the host does, unless it cancels, the step's id is recorded, the view calls are exactly the script and the new progress (index + 1) / count, and no controller event fires; undisturbed, the model stays Running with no model event |
| Tutorial.TutorialController.AfterStep | Runtime/Tutorial/TutorialController.cs:125-134 | the delay after a step, where a cancellation abandons it; a cancellation is never undone; whatever the host does, unless it cancels, the step is done and the view's highlight and pointer are cleared as the only view calls |
| Tutorial.TutorialController.RunStep | Runtime/Tutorial/TutorialController.cs:94-140 | one step made Active and run; a parked step leaves Paused with no id recorded and no view call; for any host, a step done uncancelled records exactly its own id and makes exactly its own view calls; undisturbed, it is done and Completed with a view |
| Tutorial.TutorialController.Advance | Runtime/Tutorial/TutorialController.cs:90-141 | one turn of the loop: the step runs and, unless abandoned or parked, the model moves on; the sequence is recorded and counted once exactly when the last step finished uncancelled; for any host, an uncancelled turn adds exactly that step's id and calls, and another step follows exactly when it was not the last |
| Tutorial.TutorialController.Turn | Runtime/Tutorial/TutorialController.cs:90-141 | one turn keeps what holds between turns of the run, including that the ids and view calls so far are exactly those of the steps run so far |
| Tutorial.TutorialController.Begin | Runtime/Tutorial/TutorialController.cs:90 | the loop's first move to the next step establishes what holds between turns |
| Tutorial.TutorialController.RunSteps | Runtime/Tutorial/TutorialController.cs:90-141 | the loop ends finished or parked in a pause; a finished uncancelled run records the sequence and fires its completion exactly once; for any host, the ids and view calls are exactly those of the steps run, each once in index order, up to the parked step or to the end when finished uncancelled; undisturbed, the model's step changes are every remaining step's, in order |
| Tutorial.TutorialController.ExecuteSteps | Runtime/Tutorial/TutorialController.cs:88-150 | as the loop, then the sequence completes unless cancelled and the view is hidden; for any host, a run finished uncancelled records exactly the remaining steps' ids and makes exactly their view calls then the hiding; undisturbed, the model's events are exactly those steps' changes and the completion |
| Tutorial.TutorialController.FinishRun | Runtime/Tutorial/TutorialController.cs:143-149 | a run not cancelled enters Completed without a second completion event; the view is hidden either way |
| Tutorial.TutorialController.FastForward | Runtime/Tutorial/TutorialController.cs:67-70 | moving `startStep` times lands on the step before `startStep`; moving past the last step completes and records the sequence |
| Tutorial.TutorialController.StartTutorial | Runtime/Tutorial/TutorialController.cs:38-74 | nothing for a null sequence, a Running model or a completed sequence (a Paused model is accepted); otherwise the run is launched; for any host, a run finished uncancelled fires one started event, records the ids of the steps from the start step on and makes the view's opening, those steps' calls and its hiding; undisturbed, it finishes uncancelled and the model events are the start, every step change and one completion |
| Tutorial.TutorialController.Launch | Runtime/Tutorial/TutorialController.cs:58-73 | the launch ends parked or finished; for any host, a launch finished uncancelled has exactly the started event, the ids and the view calls of the sequence from the start step; undisturbed, it finishes uncancelled with the whole sequence's model events |
| Tutorial.TutorialController.Prepare | Runtime/Tutorial/TutorialController.cs:58-70 | a fresh cancellation state, the sequence started, the started event, the view shown at progress 0, then the fast-forward |
| Tutorial.TutorialController.StartTutorialById | Runtime/Tutorial/TutorialController.cs:76-86 | a null id is refused by the dictionary; the run starts exactly when the id is registered, no tutorial is Running and that sequence is not completed; otherwise nothing changes; a started run ends as the registered sequence's launch does |

## Left out

- Views, installers and the controller and view interfaces: presentation and dependency-injection wiring. Tutorial and chest view calls appear only as entries of a view-call log.
- The inbox, leaderboard and daily bonus controllers' view calls are not logged; these controllers have no view flag. The dropped calls on the core paths are:
  - Inbox.InboxController.ClaimItem: `ShowClaimAnimation(item)` after a successful claim (InboxController.cs line 85), and so once per claimed item in the claim-all methods.
  - DailyBonus.DailyBonusController.ClaimBonus: `PlayClaimAnimation(reward)` after the claim is recorded (DailyBonusController.cs line 85).
  - Leaderboard.LeaderboardController.FetchLeaderboard: `ShowLoading(true)` when a fetch starts and `ShowLoading(false)` when it ends (LeaderboardController.cs lines 51 and 67).
  - The view refreshes in the event handlers, which are left out below.
- The controllers' `Initialize`/`Dispose` subscriptions and their handlers (`HandleItemsUpdated`, `HandleItemAdded`, `HandleDataChanged`, `RefreshView`, `HandleStepChanged`, `HandleSequenceCompleted`, and the daily bonus's `HandleStateChanged` and `HandleStreakChanged`): these re-raise model events or refresh a view. The model events themselves are logged.
- Pass-through members that only read or forward to the model:
  - `LeaderboardController.GetEntries`, `GetCurrentUserEntry`, `GetCurrentUserRank`, `UpdateLocalScore`, `HandleEntryClicked`.
  - `InboxController.UnreadCount`, `ClaimableCount`; `InboxModel.HasUnread`, `HasClaimable`, which are the counts compared with zero.
  - `TutorialController.IsRunning`, `CurrentStepIndex`, `CurrentSequenceId`, `Progress`, `IsSequenceCompleted`; `TutorialModel.GetCompletedSequences`.
  - `DailyBonusController.CurrentStreak`, `IsAvailable`, `TimeRemaining`.
- `DailyBonusController.Tick`, `CheckAndShowBonusAsync` and `UpdateViewTimer`: a frame timer and view calls.
- `DailyBonusConfig.GetMultiplier`: floating point.
- Tutorial.TutorialModel.Progress: the code divides in `float`. The model's progress is the exact `real` (index + 1) / count, so float rounding is not captured.
- Clocks: `DateTime.UtcNow` and `DateTimeOffset.UtcNow` become `now` parameters.
  - The inbox's claim-all reads the clock again for each claim, after the backend has answered the previous one. The model takes a clock function that gives the time at which each listed item's claim starts.
  - `ClaimBonusAsync` reads the clock twice, once for the claim time and once for the next reset. The model uses one `now` for both.
  - The daily bonus compares elapsed hours as a `double`. The model compares exact integer milliseconds, so double rounding on very large gaps is not captured.
- Delays and animation times are not timed. A step delay is a `real` whose only role is whether it is positive. Chest opening and reveal delays are suspension points. The opening delay without a configuration is 1 s, against the asset's 2 s default; this is not modelled.
- Sprites, icons, colours, prefabs and the `ToString` overrides.
- `Debug.Log` output.
- Integer widths: `int` and `long` are unbounded integers. Overflow of a streak, score, timestamp or step index is not modelled.
- Concurrency: overlapping async calls are not modelled, for example a second tutorial start while a run is parked in a pause, or a claim-all running beside a fetch.
- Backend exceptions: a fetch that throws is modelled for the leaderboard only. The inbox's backend calls always answer, and an exception in them is not modelled.
- Null elements inside lists (null steps in a sequence, null inbox items or leaderboard entries in a list): every list element is an object.
- Leaderboard aliasing: a board is a value in a map, not a shared list object. Two consequences are not modelled:
  - A caller holding the list returned by `GetEntries` does not see a later clear.
  - Passing a board's own list back to `SetEntries` is not modelled. There, the in-place clear empties the argument before it is copied.
- Leaderboard entry setters for name, avatar, frame and the current-user flag: nothing in the modelled core calls them, so those fields are constants.
- Tutorial cancellation: the `CancellationTokenSource` is a cancellation flag, checked where the awaits would throw. A view's own waits do not observe it.
- Tutorial pause wait: the host gets one call per pause wait. A run that is still paused after it is reported as `Suspended` rather than waiting on.
- Tutorial step `Cleanup` does nothing for every kind of step, so its calls are not logged.
- Tutorial step-changed events carry the index. The step they also carry is the current sequence's step at that index.
- Inbox sort order: the list sort is unstable, so the order of items with equal timestamps is not fixed.
  - `SetItems`, `AddItem` and `SortByCreatedTime` promise a newest-first list with the same items, not one particular order.
  - `Inbox.InboxController.FetchInbox` names the sorted list through a ghost result.
- Inbox.InboxController.ClaimEach: the exact claimed list, the claimed events, the backend requests and the final claimed flags are stated only when item ids are unique. With duplicate ids, a claim by id can hit an earlier item with the same id. In that case the contract says only that the claimed items come from the snapshot.
- Inbox.InboxController.ClaimAll: as for ClaimEach, the exact result, events, requests and flags are stated only for unique ids.
- Inbox.InboxController.ClaimAllInCategory: as for ClaimEach, the exact result, events, requests and flags are stated only for unique ids.
- Inbox.InboxController.ClaimAt: the outcome, event and request are stated only for a listed item that was claimable when listed, with unique ids.
- Tutorial.TutorialController.StartTutorial, Tutorial.TutorialController.Launch, Tutorial.TutorialController.StartTutorialById, Tutorial.TutorialController.RunSteps, Tutorial.TutorialController.ExecuteSteps: the controller events, recorded step ids and view calls are stated for any host that does not cancel. The model's own event log (state and step changes) is spelled out only for a host that never acts, because a pause, resume or skip adds state events at points the host chooses. A cancelled run states only how it ends and the completed sequences.
- Tutorial.TutorialController.RunStep, Tutorial.TutorialController.PerformStep: the step's final state and the model's event log are stated only for a host that never acts. A skip during the delay after the step leaves it Skipped.
- Chest.ChestController.OpenChestById: the chest is created inside the method. The contract says that some new common chest with the id and no rewards was opened, and gives the events and view calls in terms of that chest.
- DailyBonus.DailyBonusController.ClaimBonus: the claim time and the next reset come from one `now`, while the code reads the clock twice; the view's `PlayClaimAnimation` is not logged; a zero cycle length and a reset hour outside 0 to 23, which throw in the code, are required away.
- DailyBonus.GetRewardForDay: a zero cycle length, or a negative truncated index for days below 1, makes the code throw. The model requires these cases away.
- DailyBonus.DailyBonusController.CurrentDay, DailyBonus.DailyBonusController.CurrentDayReward, DailyBonus.DailyBonusController.ClaimBonus: a zero cycle length throws a division by zero in the code. A reset hour outside 0 to 23 makes the date constructor throw. The model requires both away.
