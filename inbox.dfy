/**
 * The inbox feature: items that can be read, claimed and expire; a model
 * that keeps them sorted newest first; and the controller that claims,
 * marks and deletes items, asking a backend when one is configured.
 *
 * Timestamps are Unix seconds; `now` is a parameter wherever the code reads
 * the clock. Backend answers are parameters of the methods that ask.
 */
module Inbox {
  import opened Common

  datatype InboxItemCategory = None | Life | Currency | Gift | Reward | TeamRequest | SystemMessage

  datatype InboxItemInteractionType = NoInteraction | Collectable | Sent | ReadOnly | Actionable

  /** One message. Only the read and claimed flags change after construction; sprites are not kept. */
  class InboxItem {
    const id: Option<string>
    const category: InboxItemCategory
    const interactionType: InboxItemInteractionType
    const senderId: Option<string>
    const senderName: Option<string>
    const title: Option<string>
    const message: Option<string>
    const rewardAmount: int
    const createdTimestamp: int
    /** 0 means the item never expires. */
    const expirationTimestamp: int
    var isRead: bool
    var isClaimed: bool

    /** A created timestamp that is not positive is replaced by `now`; both flags start false. */
    constructor (id: Option<string>, category: InboxItemCategory, interactionType: InboxItemInteractionType,
                 now: int, senderId: Option<string> := Option.None, senderName: Option<string> := Option.None,
                 title: Option<string> := Option.None, message: Option<string> := Option.None,
                 rewardAmount: int := 0, createdTimestamp: int := 0, expirationTimestamp: int := 0)
      ensures this.id == id && this.category == category && this.interactionType == interactionType
      ensures this.senderId == senderId && this.senderName == senderName
      ensures this.title == title && this.message == message && this.rewardAmount == rewardAmount
      ensures this.createdTimestamp == (if createdTimestamp > 0 then createdTimestamp else now)
      ensures this.expirationTimestamp == expirationTimestamp
      ensures !isRead && !isClaimed
    {
      this.id := id;
      this.category := category;
      this.interactionType := interactionType;
      this.senderId := senderId;
      this.senderName := senderName;
      this.title := title;
      this.message := message;
      this.rewardAmount := rewardAmount;
      this.createdTimestamp := if createdTimestamp > 0 then createdTimestamp else now;
      this.expirationTimestamp := expirationTimestamp;
      isRead := false;
      isClaimed := false;
    }

    /** Expired once `now` is past a set (positive) expiration time. */
    predicate IsExpired(now: int) {
      expirationTimestamp > 0 && now > expirationTimestamp
    }

    /** Claimable: collectable, not yet claimed and not expired. */
    predicate CanClaim(now: int)
      reads this
    {
      interactionType == Collectable && !isClaimed && !IsExpired(now)
    }
  }

  /** An item without expiration never expires; a claimed item is never claimable. */
  lemma ExpiryAndClaimRules(item: InboxItem, now: int)
    ensures item.expirationTimestamp == 0 ==> !item.IsExpired(now)
    ensures item.isClaimed ==> !item.CanClaim(now)
    ensures item.CanClaim(now) ==> item.interactionType == Collectable
  {
  }

  /** Expiry is monotone in time: an item expired at `t` stays expired later. */
  lemma ExpiryIsPermanent(item: InboxItem, t: int, later: int)
    requires t <= later && item.IsExpired(t)
    ensures item.IsExpired(later)
  {
  }

  /**
   * Claimability only lapses with time: an item claimable at `later` was claimable at
   * every earlier time, and an item with no expiration keeps its claimability for ever.
   */
  lemma ClaimabilityOnlyLapses(item: InboxItem, t: int, later: int)
    requires t <= later
    ensures item.CanClaim(later) ==> item.CanClaim(t)
    ensures item.expirationTimestamp == 0 ==> (item.CanClaim(t) <==> item.CanClaim(later))
    ensures item.CanClaim(t) && !item.CanClaim(later) ==> item.IsExpired(later)
  {
  }

  /** Newest first: created timestamps never increase along the list. */
  predicate SortedDesc(s: seq<InboxItem>) {
    forall i, j :: 0 <= i < j < |s| ==> s[i].createdTimestamp >= s[j].createdTimestamp
  }

  /** Inserts `x` before the first item strictly older than it. */
  function InsertDesc(x: InboxItem, s: seq<InboxItem>): (r: seq<InboxItem>)
    requires SortedDesc(s)
    ensures SortedDesc(r) && multiset(r) == multiset(s) + multiset{x}
    ensures |r| == |s| + 1 && (r[0] == x || (s != [] && r[0] == s[0]))
  {
    if s == [] || s[0].createdTimestamp <= x.createdTimestamp then
      SortedCons(x, s);
      [x] + s
    else
      var rest := InsertDesc(x, s[1..]);
      assert s == [s[0]] + s[1..];
      assert multiset([s[0]] + rest) == multiset{s[0]} + multiset(rest);
      SortedCons(s[0], rest);
      [s[0]] + rest
  }

  /** A head no older than the first item of a newest-first list keeps it newest first. */
  lemma SortedCons(h: InboxItem, t: seq<InboxItem>)
    requires SortedDesc(t) && (t != [] ==> h.createdTimestamp >= t[0].createdTimestamp)
    ensures SortedDesc([h] + t)
  {
    var r := [h] + t;
    forall i, j | 0 <= i < j < |r|
      ensures r[i].createdTimestamp >= r[j].createdTimestamp
    {
      if i == 0 {
        assert r[j] == t[j - 1];
      }
    }
  }

  /**
   * One ordering a newest-first sort may produce. The list sort the code
   * calls is unstable, so the methods that sort promise only that the result
   * is sorted and holds the same items.
   */
  function SortDesc(s: seq<InboxItem>): (r: seq<InboxItem>)
    ensures SortedDesc(r) && multiset(r) == multiset(s) && |r| == |s|
  {
    if s == [] then []
    else
      assert s == [s[0]] + s[1..];
      InsertDesc(s[0], SortDesc(s[1..]))
  }

  /** The index of the first item whose id equals `id` (null matches null). */
  function FirstWithId(s: seq<InboxItem>, id: Option<string>): (r: Option<nat>)
    ensures r.None? <==> forall i :: 0 <= i < |s| ==> s[i].id != id
    ensures r.Some? ==> r.value < |s| && s[r.value].id == id && forall j :: 0 <= j < r.value ==> s[j].id != id
  {
    if s == [] then Option.None
    else if s[0].id == id then Some(0)
    else
      match FirstWithId(s[1..], id)
      case None => Option.None
      case Some(i) => Some(i + 1)
  }

  /** `s` without its element at `i`. */
  function RemoveAt(s: seq<InboxItem>, i: nat): (r: seq<InboxItem>)
    requires i < |s|
    ensures |r| == |s| - 1
    ensures forall j :: 0 <= j < i ==> r[j] == s[j]
    ensures forall j :: i <= j < |r| ==> r[j] == s[j + 1]
    ensures multiset(r) == multiset(s) - multiset{s[i]}
  {
    assert s == s[..i] + [s[i]] + s[i + 1..];
    s[..i] + s[i + 1..]
  }

  /** The first index at which the object `x` occurs, as the list's remove-by-reference looks for it. */
  function IndexOf(s: seq<InboxItem>, x: InboxItem): (r: Option<nat>)
    ensures r.None? <==> x !in s
    ensures r.Some? ==> r.value < |s| && s[r.value] == x && forall j :: 0 <= j < r.value ==> s[j] != x
  {
    if s == [] then Option.None
    else if s[0] == x then Some(0)
    else
      match IndexOf(s[1..], x)
      case None => Option.None
      case Some(i) => Some(i + 1)
  }

  /** The list's remove-by-reference: drops the first occurrence of `x`, if any. */
  function RemoveFirst(s: seq<InboxItem>, x: InboxItem): (r: seq<InboxItem>)
    ensures x !in s ==> r == s
    ensures x in s ==> |r| == |s| - 1 && multiset(r) == multiset(s) - multiset{x}
    ensures x in s ==> exists i :: 0 <= i < |s| && s[i] == x && x !in s[..i] && r == s[..i] + s[i + 1..]
  {
    match IndexOf(s, x)
    case None => s
    case Some(i) => RemoveAt(s, i)
  }

  /** The expired items of `s`, in order. */
  function Expired(s: seq<InboxItem>, now: int): (r: seq<InboxItem>)
    ensures |r| <= |s|
  {
    if s == [] then [] else (if s[0].IsExpired(now) then [s[0]] else []) + Expired(s[1..], now)
  }

  /** The items of `s` that have not expired, in order. */
  function Kept(s: seq<InboxItem>, now: int): (r: seq<InboxItem>)
    ensures |r| <= |s|
  {
    if s == [] then [] else (if s[0].IsExpired(now) then [] else [s[0]]) + Kept(s[1..], now)
  }

  /** Nothing in `s` has expired at `now`. */
  predicate NoneExpiredIn(s: seq<InboxItem>, now: int) {
    forall i :: 0 <= i < |s| ==> !s[i].IsExpired(now)
  }

  lemma {:induction false} ExpiredAndKeptSplit(s: seq<InboxItem>, now: int)
    ensures |Expired(s, now)| + |Kept(s, now)| == |s|
    ensures NoneExpiredIn(Kept(s, now), now)
  {
    if s != [] {
      ExpiredAndKeptSplit(s[1..], now);
    }
  }

  /** Dropping expired items keeps a newest-first list newest first. */
  lemma {:induction false} KeptSorted(s: seq<InboxItem>, now: int)
    requires SortedDesc(s)
    ensures SortedDesc(Kept(s, now))
  {
    if s != [] {
      KeptSorted(s[1..], now);
      FilteredFrom(s[1..], InboxItemCategory.None, now);
      var t := Kept(s[1..], now);
      forall j | 0 <= j < |t|
        ensures s[0].createdTimestamp >= t[j].createdTimestamp
      {
        assert t[j] in s[1..];
        var k :| 0 <= k < |s[1..]| && s[1..][k] == t[j];
        assert s[k + 1] == t[j];
      }
    }
  }

  lemma {:induction false} KeptAppend(a: seq<InboxItem>, b: seq<InboxItem>, now: int)
    ensures Kept(a + b, now) == Kept(a, now) + Kept(b, now)
  {
    if a == [] {
      assert a + b == b;
    } else {
      assert (a + b)[0] == a[0];
      assert (a + b)[1..] == a[1..] + b;
      KeptAppend(a[1..], b, now);
    }
  }

  lemma {:induction false} KeptOfUnexpired(s: seq<InboxItem>, now: int)
    requires NoneExpiredIn(s, now)
    ensures Kept(s, now) == s && Expired(s, now) == []
  {
    if s != [] {
      KeptOfUnexpired(s[1..], now);
    }
  }

  /** The position of the first expired item of `s`, and how `s` splits around it. */
  lemma {:induction false} FirstExpired(s: seq<InboxItem>, now: int) returns (d: nat)
    requires Expired(s, now) != []
    ensures d < |s| && s[d] == Expired(s, now)[0] && s[d].IsExpired(now)
    ensures NoneExpiredIn(s[..d], now)
    ensures Expired(s[d + 1..], now) == Expired(s, now)[1..]
  {
    if s[0].IsExpired(now) {
      d := 0;
    } else {
      var e := FirstExpired(s[1..], now);
      d := e + 1;
      assert s[1..][e + 1..] == s[d + 1..];
      assert forall i :: 0 <= i < d ==> s[..d][i] == s[i];
      assert forall i :: 1 <= i < d ==> s[i] == s[1..][..e][i - 1];
    }
  }

  /** Removing `x` by reference from `prefix + [x] + suffix` takes out that `x` when no item of `prefix` is expired but `x` is. */
  lemma RemoveAfterUnexpired(prefix: seq<InboxItem>, x: InboxItem, suffix: seq<InboxItem>, now: int)
    requires NoneExpiredIn(prefix, now) && x.IsExpired(now)
    ensures RemoveFirst(prefix + [x] + suffix, x) == prefix + suffix
  {
    var s := prefix + [x] + suffix;
    assert s[|prefix|] == x;
    assert forall j :: 0 <= j < |prefix| ==> s[j] == prefix[j] && s[j] != x;
    assert IndexOf(s, x) == Some(|prefix|);
    assert RemoveAt(s, |prefix|) == prefix + suffix;
  }

  /** The unexpired items of `a + run + [x]` when nothing in `run` has expired and `x` has. */
  lemma KeptThrough(a: seq<InboxItem>, run: seq<InboxItem>, x: InboxItem, now: int)
    requires NoneExpiredIn(run, now) && x.IsExpired(now)
    ensures Kept(a + run + [x], now) == Kept(a, now) + run
  {
    KeptAppend(a + run, [x], now);
    KeptAppend(a, run, now);
    KeptOfUnexpired(run, now);
  }

  lemma NoneExpiredAppend(a: seq<InboxItem>, b: seq<InboxItem>, now: int)
    requires NoneExpiredIn(a, now) && NoneExpiredIn(b, now)
    ensures NoneExpiredIn(a + b, now)
  {
  }

  /** Removing by reference an expired item that follows a run of unexpired ones, on the pieces of the list. */
  lemma RemoveAfterRunPieces(a: seq<InboxItem>, run: seq<InboxItem>, x: InboxItem, rest: seq<InboxItem>, now: int)
    requires NoneExpiredIn(run, now) && x.IsExpired(now)
    ensures RemoveFirst(Kept(a, now) + (run + [x] + rest), x) == Kept(a + run + [x], now) + rest
  {
    var kept := Kept(a, now);
    ExpiredAndKeptSplit(a, now);
    NoneExpiredAppend(kept, run, now);
    RemoveAfterUnexpired(kept + run, x, rest, now);
    AppendAssoc(run, [x], rest);
    AppendAssoc(kept, run + [x], rest);
    AppendAssoc(kept, run, [x]);
    KeptThrough(a, run, x, now);
  }

  /** Removing by reference an expired item that follows a run of unexpired ones. */
  lemma RemoveAfterRun(s: seq<InboxItem>, j: nat, d: nat, now: int)
    requires j + d < |s| && NoneExpiredIn(s[j..j + d], now) && s[j + d].IsExpired(now)
    ensures RemoveFirst(Kept(s[..j], now) + s[j..], s[j + d]) == Kept(s[..j + d + 1], now) + s[j + d + 1..]
  {
    SplitAround(s, j, j + d);
    assert s[..j + d + 1] == s[..j] + s[j..j + d] + [s[j + d]];
    RemoveAfterRunPieces(s[..j], s[j..j + d], s[j + d], s[j + d + 1..], now);
  }

  /**
   * One round of the removal loop: with the expired items before `j`
   * already gone, removing the next expired item by reference leaves the
   * unexpired items up to and including its position, then the rest.
   */
  lemma RemovalStep(original: seq<InboxItem>, j: nat, now: int) returns (d: nat)
    requires j <= |original| && Expired(original[j..], now) != []
    ensures j + d < |original| && original[j + d] == Expired(original[j..], now)[0]
    ensures Expired(original[j + d + 1..], now) == Expired(original[j..], now)[1..]
    ensures RemoveFirst(Kept(original[..j], now) + original[j..], original[j + d])
            == Kept(original[..j + d + 1], now) + original[j + d + 1..]
  {
    var rest := original[j..];
    d := FirstExpired(rest, now);
    assert rest[d + 1..] == original[j + d + 1..];
    assert rest[..d] == original[j..j + d];
    RemoveAfterRun(original, j, d, now);
  }

  /** The items of `s` in category `c`, in order. */
  function InCategory(s: seq<InboxItem>, c: InboxItemCategory): (r: seq<InboxItem>)
    ensures |r| <= |s|
  {
    if s == [] then [] else (if s[0].category == c then [s[0]] else []) + InCategory(s[1..], c)
  }

  /** The claimable items of `s` at `now`, in order. */
  function Claimable(s: seq<InboxItem>, now: int): (r: seq<InboxItem>)
    reads s
    ensures |r| <= |s|
  {
    if s == [] then [] else (if s[0].CanClaim(now) then [s[0]] else []) + Claimable(s[1..], now)
  }

  /** The claimable items of `s` at `now` that are in category `c`, in order. */
  function ClaimableIn(s: seq<InboxItem>, c: InboxItemCategory, now: int): (r: seq<InboxItem>)
    reads s
    ensures |r| <= |s|
  {
    if s == [] then []
    else (if s[0].CanClaim(now) && s[0].category == c then [s[0]] else []) + ClaimableIn(s[1..], c, now)
  }

  function UnreadCount(s: seq<InboxItem>): (n: nat)
    reads s
    ensures n <= |s|
    ensures n == 0 <==> forall x :: x in s ==> x.isRead
  {
    if s == [] then 0 else (if s[0].isRead then 0 else 1) + UnreadCount(s[1..])
  }

  function ClaimableCount(s: seq<InboxItem>, now: int): (n: nat)
    reads s
    ensures n == |Claimable(s, now)|
    ensures n == 0 <==> forall x :: x in s ==> !x.CanClaim(now)
  {
    if s == [] then 0 else (if s[0].CanClaim(now) then 1 else 0) + ClaimableCount(s[1..], now)
  }

  /** Filtering by category and then by claimability is the category-restricted claimable list. */
  lemma {:induction false} ClaimableInIsFilterOfCategory(s: seq<InboxItem>, c: InboxItemCategory, now: int)
    ensures ClaimableIn(s, c, now) == Claimable(InCategory(s, c), now)
  {
    if s != [] {
      ClaimableInIsFilterOfCategory(s[1..], c, now);
      var head := if s[0].category == c then [s[0]] else [];
      assert InCategory(s, c) == head + InCategory(s[1..], c);
      if head != [] {
        assert (head + InCategory(s[1..], c))[1..] == InCategory(s[1..], c);
      } else {
        assert head + InCategory(s[1..], c) == InCategory(s[1..], c);
      }
    }
  }

  /** The filters keep exactly the items that satisfy their condition. */
  lemma {:induction false} FilterMembers(s: seq<InboxItem>, c: InboxItemCategory, now: int)
    ensures forall x :: x in Expired(s, now) <==> x in s && x.IsExpired(now)
    ensures forall x :: x in Kept(s, now) <==> x in s && !x.IsExpired(now)
    ensures forall x :: x in InCategory(s, c) <==> x in s && x.category == c
    ensures forall x :: x in Claimable(s, now) <==> x in s && x.CanClaim(now)
    ensures forall x :: x in ClaimableIn(s, c, now) <==> x in s && x.CanClaim(now) && x.category == c
  {
    if s != [] {
      FilterMembers(s[1..], c, now);
      assert forall x :: x in s <==> x == s[0] || x in s[1..];
    }
  }

  /** Every item a filter returns comes from its input and satisfies its condition (stated by position). */
  lemma {:induction false} FilteredFrom(s: seq<InboxItem>, c: InboxItemCategory, now: int)
    ensures forall i :: 0 <= i < |InCategory(s, c)| ==> InCategory(s, c)[i] in s && InCategory(s, c)[i].category == c
    ensures forall i :: 0 <= i < |Claimable(s, now)| ==> Claimable(s, now)[i] in s && Claimable(s, now)[i].CanClaim(now)
    ensures forall i :: 0 <= i < |ClaimableIn(s, c, now)| ==>
              ClaimableIn(s, c, now)[i] in s && ClaimableIn(s, c, now)[i].CanClaim(now) && ClaimableIn(s, c, now)[i].category == c
    ensures forall i :: 0 <= i < |Kept(s, now)| ==> Kept(s, now)[i] in s
  {
    if s != [] {
      FilteredFrom(s[1..], c, now);
      assert forall x :: x in s[1..] ==> x in s;
    }
  }

  /** A list without expired items is one in which nothing has expired. */
  lemma {:induction false} NoExpiredLeft(s: seq<InboxItem>, now: int)
    requires Expired(s, now) == []
    ensures NoneExpiredIn(s, now)
  {
    if s != [] {
      NoExpiredLeft(s[1..], now);
    }
  }

  datatype ModelEvent = ItemsUpdated | ItemAdded(item: InboxItem) | ItemRemoved(item: InboxItem)

  function RemovedEvents(s: seq<InboxItem>): (r: seq<ModelEvent>)
    ensures |r| == |s|
    ensures forall i :: 0 <= i < |s| ==> r[i] == ItemRemoved(s[i])
  {
    if s == [] then [] else [ItemRemoved(s[0])] + RemovedEvents(s[1..])
  }

  /**
   * Where the removal loop stands after removing `k` of the `expired` items:
   * the list holds the unexpired items before `j` and then everything from
   * `j` on, the expired items still to go are those from `j` on, and one
   * removal event was raised per item removed.
   */
  ghost predicate RemovalAt(original: seq<InboxItem>, expired: seq<InboxItem>, j: nat, k: nat,
                            items: seq<InboxItem>, base: seq<ModelEvent>, events: seq<ModelEvent>, now: int)
  {
    && j <= |original| && k <= |expired|
    && expired[k..] == Expired(original[j..], now)
    && items == Kept(original[..j], now) + original[j..]
    && events == base + RemovedEvents(expired[..k])
  }

  /** One round of the removal loop keeps `RemovalAt`, for some new position `j'`. */
  lemma RemovalRound(original: seq<InboxItem>, expired: seq<InboxItem>, j: nat, k: nat,
                     items: seq<InboxItem>, base: seq<ModelEvent>, events: seq<ModelEvent>, now: int)
    returns (j': nat)
    requires RemovalAt(original, expired, j, k, items, base, events, now) && k < |expired|
    ensures RemovalAt(original, expired, j', k + 1, RemoveFirst(items, expired[k]),
                      base, events + [ItemRemoved(expired[k])], now)
  {
    assert expired[k..][0] == expired[k] && expired[k..][1..] == expired[k + 1..];
    var d := RemovalStep(original, j, now);
    j' := j + d + 1;
    RemovedEventsNext(expired, k, base, events);
  }

  /** One more removal event extends the events of the removals so far. */
  lemma RemovedEventsNext(expired: seq<InboxItem>, k: nat, base: seq<ModelEvent>, events: seq<ModelEvent>)
    requires k < |expired| && events == base + RemovedEvents(expired[..k])
    ensures events + [ItemRemoved(expired[k])] == base + RemovedEvents(expired[..k + 1])
  {
    RemovedEventsStep(expired, k);
    AppendAssoc(base, RemovedEvents(expired[..k]), [ItemRemoved(expired[k])]);
  }

  /** When every expired item is removed, the list is the unexpired items and one event was raised per expired item. */
  lemma RemovalFinished(original: seq<InboxItem>, expired: seq<InboxItem>, j: nat,
                        items: seq<InboxItem>, base: seq<ModelEvent>, events: seq<ModelEvent>, now: int)
    requires expired == Expired(original, now) && RemovalAt(original, expired, j, |expired|, items, base, events, now)
    ensures items == Kept(original, now) && |expired| == |original| - |items|
    ensures events == base + RemovedEvents(expired)
  {
    assert expired[|expired|..] == [] && expired[..|expired|] == expired;
    RemovalDone(original, j, now);
    ExpiredAndKeptSplit(original, now);
  }

  lemma RemovedEventsStep(s: seq<InboxItem>, k: nat)
    requires k < |s|
    ensures RemovedEvents(s[..k + 1]) == RemovedEvents(s[..k]) + [ItemRemoved(s[k])]
  {
    assert s[..k + 1] == s[..k] + [s[k]];
    RemovedEventsAppend(s[..k], [s[k]]);
  }

  lemma {:induction false} RemovedEventsAppend(a: seq<InboxItem>, b: seq<InboxItem>)
    ensures RemovedEvents(a + b) == RemovedEvents(a) + RemovedEvents(b)
  {
    if a == [] {
      assert a + b == b;
    } else {
      assert (a + b)[1..] == a[1..] + b;
      RemovedEventsAppend(a[1..], b);
    }
  }

  /** Once no expired item is left after `j`, the loop's list is the unexpired items of the whole list. */
  lemma RemovalDone(original: seq<InboxItem>, j: nat, now: int)
    requires j <= |original| && Expired(original[j..], now) == []
    ensures Kept(original[..j], now) + original[j..] == Kept(original, now)
  {
    NoExpiredLeft(original[j..], now);
    KeptOfUnexpired(original[j..], now);
    KeptAppend(original[..j], original[j..], now);
    assert original[..j] + original[j..] == original;
  }

  class InboxModel {
    var items: seq<InboxItem>
    var events: seq<ModelEvent>

    constructor ()
      ensures items == [] && events == []
    {
      items := [];
      events := [];
    }

    /** Reorders the items newest first; which of two equally old items comes first is not fixed. */
    method SortByCreatedTime()
      modifies this`items
      ensures SortedDesc(items) && multiset(items) == multiset(old(items))
    {
      items := SortDesc(items);
    }

    /** Replaces all items with `given` (null clears), newest first. */
    method SetItems(given: Option<seq<InboxItem>>)
      modifies this
      ensures multiset(items) == multiset(given.GetOr([])) && SortedDesc(items)
      ensures events == old(events) + [ItemsUpdated]
    {
      items := [];
      if given.Some? {
        items := items + given.value;
      }
      SortByCreatedTime();
      events := events + [ItemsUpdated];
    }

    /** Adds one item and re-sorts; null is ignored. */
    method AddItem(item: InboxItem?)
      modifies this
      ensures item == null ==> items == old(items) && events == old(events)
      ensures item != null ==>
                && multiset(items) == multiset(old(items)) + multiset{item} && SortedDesc(items)
                && events == old(events) + [ItemAdded(item), ItemsUpdated]
    {
      if item == null {
        return;
      }
      items := items + [item];
      SortByCreatedTime();
      events := events + [ItemAdded(item), ItemsUpdated];
    }

    /** The first item whose id is `id`, or null. */
    function GetItem(id: Option<string>): (r: InboxItem?)
      reads this
      ensures r == null <==> forall i :: 0 <= i < |items| ==> items[i].id != id
      ensures r != null ==> r.id == id && r == items[FirstWithId(items, id).value]
    {
      match FirstWithId(items, id)
      case None => null
      case Some(i) => items[i]
    }

    /** Removes the first item whose id is `id`; false, and nothing changes, when there is none. */
    method RemoveItem(id: Option<string>) returns (removed: bool)
      modifies this
      ensures removed <==> old(FirstWithId(items, id)).Some?
      ensures !removed ==> items == old(items) && events == old(events)
      ensures removed ==>
                var i := old(FirstWithId(items, id)).value;
                items == RemoveAt(old(items), i)
                && events == old(events) + [ItemRemoved(old(items)[i]), ItemsUpdated]
      ensures SortedDesc(old(items)) ==> SortedDesc(items)
    {
      var item := GetItem(id);
      if item == null {
        return false;
      }
      ghost var i := FirstWithId(items, id).value;
      assert IndexOf(items, item) == Some(i) by {
        forall j | 0 <= j < i
          ensures items[j] != item
        {
          assert items[j].id != id;
        }
      }
      items := RemoveFirst(items, item);
      events := events + [ItemRemoved(item), ItemsUpdated];
      return true;
    }

    function ItemsByCategory(c: InboxItemCategory): (r: seq<InboxItem>)
      reads this
      ensures forall i :: 0 <= i < |r| ==> r[i] in items && r[i].category == c
      ensures forall x :: x in items && x.category == c ==> x in r
    {
      FilterMembers(items, c, 0);
      FilteredFrom(items, c, 0);
      InCategory(items, c)
    }

    function ClaimableItems(now: int): (r: seq<InboxItem>)
      reads this, items
      ensures forall i :: 0 <= i < |r| ==> r[i] in items && r[i].CanClaim(now)
      ensures forall x :: x in items && x.CanClaim(now) ==> x in r
    {
      FilterMembers(items, InboxItemCategory.None, now);
      FilteredFrom(items, InboxItemCategory.None, now);
      Claimable(items, now)
    }

    function ClaimableItemsIn(c: InboxItemCategory, now: int): (r: seq<InboxItem>)
      reads this, items
      ensures forall i :: 0 <= i < |r| ==> r[i] in items && r[i].CanClaim(now) && r[i].category == c
      ensures forall x :: x in items && x.CanClaim(now) && x.category == c ==> x in r
    {
      FilterMembers(items, c, now);
      FilteredFrom(items, c, now);
      ClaimableIn(items, c, now)
    }

    /**
     * Removes every expired item: the expired ones are collected first and
     * then each is removed by reference. The rest keep their order; the
     * update event fires only when something was removed.
     */
    method RemoveExpiredItems(now: int) returns (count: nat)
      modifies this
      ensures items == Kept(old(items), now)
      ensures count == |Expired(old(items), now)| == |old(items)| - |items|
      ensures events == old(events) + RemovedEvents(Expired(old(items), now))
                        + (if count > 0 then [ItemsUpdated] else [])
    {
      var expired := Expired(items, now);
      ghost var original, j := items, 0;
      var k := 0;
      assert original[..0] == [] && original[0..] == original;
      assert expired[..0] == [] && expired[0..] == expired && events == old(events) + [];
      while k < |expired|
        invariant RemovalAt(original, expired, j, k, items, old(events), events, now)
      {
        var item := expired[k];
        j := RemovalRound(original, expired, j, k, items, old(events), events, now);
        items := RemoveFirst(items, item);
        events := events + [ItemRemoved(item)];
        k := k + 1;
      }
      RemovalFinished(original, expired, j, items, old(events), events, now);
      count := |expired|;
      if count > 0 {
        events := events + [ItemsUpdated];
      }
    }

    method Clear()
      modifies this
      ensures items == [] && events == old(events) + [ItemsUpdated]
    {
      items := [];
      events := events + [ItemsUpdated];
    }
  }

  /** Item ids are pairwise distinct. */
  predicate UniqueIds(s: seq<InboxItem>) {
    forall i, j :: 0 <= i < j < |s| ==> s[i].id != s[j].id
  }

  /**
   * Whether a claim of `x` that starts at time `t` succeeds for an item
   * still unclaimed: it has not expired by then and the backend, if there
   * is one, accepts its id.
   */
  predicate Succeeds(x: InboxItem, t: int, hasNetwork: bool, answer: Option<string> -> bool) {
    !x.IsExpired(t) && (!hasNetwork || answer(x.id))
  }

  /**
   * The items among the first `k` of `snapshot` whose claim succeeds when
   * the claim of the item at position `j` starts at time `clock(j)`; the
   * clock is read again for each claim, after the backend has answered the
   * previous one.
   */
  function Accepted(snapshot: seq<InboxItem>, k: nat, hasNetwork: bool, answer: Option<string> -> bool, clock: nat -> int)
    : (r: seq<InboxItem>)
    requires k <= |snapshot|
    ensures |r| <= k
  {
    if k == 0 then []
    else
      Accepted(snapshot, k - 1, hasNetwork, answer, clock)
      + (if Succeeds(snapshot[k - 1], clock(k - 1), hasNetwork, answer) then [snapshot[k - 1]] else [])
  }

  /** One claimed event per item of `s`, in order. */
  function ClaimedEvents(s: seq<InboxItem>): (r: seq<ControllerEvent>)
    ensures |r| == |s|
  {
    if s == [] then [] else [ItemClaimed(s[0])] + ClaimedEvents(s[1..])
  }

  /**
   * The backend requests of the claims of the first `k` items of
   * `snapshot`: with a backend, one per item not yet expired at its own
   * claim time, in order.
   */
  function ClaimCalls(snapshot: seq<InboxItem>, k: nat, hasNetwork: bool, clock: nat -> int): (r: seq<NetworkCall>)
    requires k <= |snapshot|
    ensures |r| <= k
    ensures !hasNetwork ==> r == []
  {
    if k == 0 then []
    else
      ClaimCalls(snapshot, k - 1, hasNetwork, clock)
      + (if hasNetwork && !snapshot[k - 1].IsExpired(clock(k - 1)) then [ClaimCall(snapshot[k - 1].id)] else [])
  }

  /**
   * After the claims of the first `k` items of `snapshot`: the claimed list
   * is the accepted items, and the event and request logs, which stood at
   * `e0` and `c0` before the first claim, have gained their events and
   * requests.
   */
  predicate ClaimedSoFar(snapshot: seq<InboxItem>, k: nat, hasNetwork: bool, answer: Option<string> -> bool, clock: nat -> int,
                         claimed: seq<InboxItem>, e0: seq<ControllerEvent>, c0: seq<NetworkCall>,
                         e: seq<ControllerEvent>, c: seq<NetworkCall>)
  {
    && k <= |snapshot|
    && claimed == Accepted(snapshot, k, hasNetwork, answer, clock)
    && e == e0 + ClaimedEvents(claimed)
    && c == c0 + ClaimCalls(snapshot, k, hasNetwork, clock)
  }

  /** One more claim, succeeding exactly when `Succeeds` says, extends what was claimed so far. */
  lemma ClaimedSoFarNext(snapshot: seq<InboxItem>, k: nat, hasNetwork: bool, answer: Option<string> -> bool, clock: nat -> int,
                         claimed: seq<InboxItem>, e0: seq<ControllerEvent>, c0: seq<NetworkCall>,
                         e: seq<ControllerEvent>, c: seq<NetworkCall>,
                         ok: bool, claimed': seq<InboxItem>, e': seq<ControllerEvent>, c': seq<NetworkCall>)
    requires ClaimedSoFar(snapshot, k, hasNetwork, answer, clock, claimed, e0, c0, e, c) && k < |snapshot|
    requires ok == Succeeds(snapshot[k], clock(k), hasNetwork, answer)
    requires claimed' == claimed + (if ok then [snapshot[k]] else [])
    requires e' == e + (if ok then [ItemClaimed(snapshot[k])] else [])
    requires c' == c + (if hasNetwork && !snapshot[k].IsExpired(clock(k)) then [ClaimCall(snapshot[k].id)] else [])
    ensures ClaimedSoFar(snapshot, k + 1, hasNetwork, answer, clock, claimed', e0, c0, e', c')
  {
    var asked := if hasNetwork && !snapshot[k].IsExpired(clock(k)) then [ClaimCall(snapshot[k].id)] else [];
    var added := if ok then [snapshot[k]] else [];
    assert Accepted(snapshot, k + 1, hasNetwork, answer, clock) == claimed + added;
    assert ClaimCalls(snapshot, k + 1, hasNetwork, clock) == ClaimCalls(snapshot, k, hasNetwork, clock) + asked;
    AppendAssoc(c0, ClaimCalls(snapshot, k, hasNetwork, clock), asked);
    ClaimedEventsAppend(claimed, added);
    AppendAssoc(e0, ClaimedEvents(claimed), ClaimedEvents(added));
  }

  /** Claimed events of a concatenation are those of each part, in order. */
  lemma {:induction false} ClaimedEventsAppend(a: seq<InboxItem>, b: seq<InboxItem>)
    ensures ClaimedEvents(a + b) == ClaimedEvents(a) + ClaimedEvents(b)
  {
    if a == [] {
      assert a + b == b;
    } else {
      assert (a + b)[0] == a[0];
      assert (a + b)[1..] == a[1..] + b;
      ClaimedEventsAppend(a[1..], b);
    }
  }

  /** The claimed event at each position carries the item at that position. */
  lemma {:induction false} ClaimedEventsAt(s: seq<InboxItem>, j: nat)
    requires j < |s|
    ensures ClaimedEvents(s)[j] == ItemClaimed(s[j])
  {
    if j > 0 {
      ClaimedEventsAt(s[1..], j - 1);
    }
  }

  datatype ControllerEvent = InboxUpdated | ItemClaimed(item: InboxItem) | ItemReceived(received: InboxItem?)

  /** Requests sent to the backend, in order. */
  datatype NetworkCall = FetchCall | ClaimCall(id: Option<string>) | DeleteCall(id: Option<string>)

  class InboxController {
    const model: InboxModel
    const hasNetwork: bool
    var isRefreshing: bool
    var events: seq<ControllerEvent>
    var calls: seq<NetworkCall>

    constructor (model: InboxModel, hasNetwork: bool)
      ensures this.model == model && this.hasNetwork == hasNetwork
      ensures !isRefreshing && events == [] && calls == []
    {
      this.model := model;
      this.hasNetwork := hasNetwork;
      isRefreshing := false;
      events := [];
      calls := [];
    }

    /**
     * Replaces the inbox with what the backend sends (`fetched`, null for a
     * null list), newest first and without expired items. Refused while a
     * refresh is running; fails without a backend.
     */
    method FetchInbox(now: int, fetched: Option<seq<InboxItem>>) returns (ok: bool, ghost sorted: seq<InboxItem>)
      modifies this`isRefreshing, this`calls, model
      ensures old(isRefreshing) ==> !ok && isRefreshing && calls == old(calls) && unchanged(model)
      ensures !old(isRefreshing) && !hasNetwork ==> !ok && !isRefreshing && calls == old(calls) && unchanged(model)
      ensures !old(isRefreshing) && hasNetwork ==>
                && ok && !isRefreshing && calls == old(calls) + [FetchCall]
                && SortedDesc(sorted) && multiset(sorted) == multiset(fetched.GetOr([]))
                && model.items == Kept(sorted, now) && SortedDesc(model.items)
                && model.events == old(model.events) + [ItemsUpdated] + RemovedEvents(Expired(sorted, now))
                   + (if Expired(sorted, now) != [] then [ItemsUpdated] else [])
    {
      sorted := [];
      if isRefreshing {
        return false, sorted;
      }
      isRefreshing := true;
      if hasNetwork {
        calls := calls + [FetchCall];
        model.SetItems(fetched);
        sorted := model.items;
        var _ := model.RemoveExpiredItems(now);
        KeptSorted(sorted, now);
        ok := true;
      } else {
        ok := false;
      }
      isRefreshing := false;
    }

    /**
     * Claims the first item with id `id`. Refused when there is no such item
     * or it cannot be claimed; with a backend, `accepted` is its answer and a
     * refusal leaves the item unclaimed.
     */
    method ClaimItem(id: Option<string>, now: int, accepted: bool) returns (ok: bool)
      modifies this`events, this`calls, model.items
      ensures var item := old(model.GetItem(id));
              var asks := item != null && old(item.CanClaim(now)) && hasNetwork;
              && ok == (item != null && old(item.CanClaim(now)) && (!hasNetwork || accepted))
              && calls == old(calls) + (if asks then [ClaimCall(id)] else [])
              && (ok ==> item.isClaimed && !item.CanClaim(now) && item.isRead == old(item.isRead)
                         && events == old(events) + [ItemClaimed(item)])
              && (!ok ==> events == old(events))
              && forall x :: x in model.items && (!ok || x != item) ==> x.isClaimed == old(x.isClaimed)
      ensures forall x :: x in model.items ==> x.isRead == old(x.isRead)
    {
      var item := model.GetItem(id);
      if item == null {
        return false;
      }
      if !item.CanClaim(now) {
        return false;
      }
      if hasNetwork {
        calls := calls + [ClaimCall(id)];
        if !accepted {
          return false;
        }
      }
      item.isClaimed := true;
      events := events + [ItemClaimed(item)];
      return true;
    }

    /**
     * Claims each item of `snapshot` by id, in order, and returns those whose
     * claim succeeded; the claim at position `j` starts at `clock(j)`. With
     * distinct ids in the inbox, that is exactly the items not expired by
     * their own claim time that the backend accepts.
     */
    method ClaimEach(snapshot: seq<InboxItem>, now: int, clock: nat -> int, answer: Option<string> -> bool)
      returns (claimed: seq<InboxItem>)
      modifies this`events, this`calls, model.items
      ensures forall x :: x in claimed ==> x in snapshot
      ensures forall x :: x in model.items ==> x.isRead == old(x.isRead)
      ensures old(ClaimableSnapshot(model.items, snapshot, now)) ==>
                && claimed == Accepted(snapshot, |snapshot|, hasNetwork, answer, clock)
                && events == old(events) + ClaimedEvents(claimed)
                && calls == old(calls) + ClaimCalls(snapshot, |snapshot|, hasNetwork, clock)
                && (forall j :: 0 <= j < |snapshot| ==> (snapshot[j].isClaimed <==> Succeeds(snapshot[j], clock(j), hasNetwork, answer)))
                && (forall x :: x in model.items && x !in snapshot ==> x.isClaimed == old(x.isClaimed))
    {
      ghost var good := ClaimableSnapshot(model.items, snapshot, now);
      claimed := [];
      var i := 0;
      while i < |snapshot|
        invariant 0 <= i <= |snapshot|
        invariant forall x :: x in claimed ==> x in snapshot
        invariant forall x :: x in model.items ==> x.isRead == old(x.isRead)
        invariant good ==> ClaimableFrom(model.items, snapshot, i, now)
        invariant good ==> ClaimedSoFar(snapshot, i, hasNetwork, answer, clock, claimed, old(events), old(calls), events, calls)
        invariant good ==> forall j :: 0 <= j < i ==> (snapshot[j].isClaimed <==> Succeeds(snapshot[j], clock(j), hasNetwork, answer))
        invariant good ==> forall x :: x in model.items && x !in snapshot ==> x.isClaimed == old(x.isClaimed)
      {
        ghost var claimedBefore, eventsBefore, callsBefore := claimed, events, calls;
        var ok := ClaimAt(snapshot, i, clock, answer, now);
        claimed := claimed + (if ok then [snapshot[i]] else []);
        if good {
          ClaimedSoFarNext(snapshot, i, hasNetwork, answer, clock, claimedBefore, old(events), old(calls),
                           eventsBefore, callsBefore, ok, claimed, events, calls);
        }
        i := i + 1;
      }
    }

    /**
     * One claim of the claim-all loop: the item at position `i` of the
     * list, claimed by its id at time `clock(i)`. For a listed item that was
     * claimable when the list was taken at `now`, it succeeds exactly when
     * the item has not expired by then and the backend, if any, accepts;
     * no other item changes.
     */
    method ClaimAt(snapshot: seq<InboxItem>, i: nat, clock: nat -> int, answer: Option<string> -> bool, ghost now: int)
      returns (ok: bool)
      requires i < |snapshot|
      modifies this`events, this`calls, model.items
      ensures forall x :: x in model.items ==> x.isRead == old(x.isRead)
      ensures old(UniqueIds(model.items) && snapshot[i] in model.items && snapshot[i].CanClaim(now)) ==>
                && ok == Succeeds(snapshot[i], clock(i), hasNetwork, answer)
                && snapshot[i].isClaimed == ok
                && events == old(events) + (if ok then [ItemClaimed(snapshot[i])] else [])
                && calls == old(calls)
                           + (if hasNetwork && !snapshot[i].IsExpired(clock(i)) then [ClaimCall(snapshot[i].id)] else [])
                && forall x :: x in model.items && x != snapshot[i] ==> x.isClaimed == old(x.isClaimed)
      ensures old(UniqueIds(model.items) && snapshot[i] in model.items && snapshot[i].CanClaim(now) && UniqueIds(snapshot)) ==>
                forall j :: 0 <= j < |snapshot| && j != i ==> snapshot[j].isClaimed == old(snapshot[j].isClaimed)
      ensures old(ClaimableFrom(model.items, snapshot, i, now)) ==> ClaimableFrom(model.items, snapshot, i + 1, now)
    {
      if UniqueIds(model.items) && snapshot[i] in model.items {
        SameIdSameItem(model.items, snapshot[i]);
      }
      if UniqueIds(snapshot) {
        DistinctAfter(snapshot, i);
      }
      ok := ClaimItem(snapshot[i].id, clock(i), answer(snapshot[i].id));
    }

    /**
     * Claims every claimable item; the list is taken at `now`, before the
     * first claim, and the claim of its item `j` starts at `clock(j)`. With
     * unique ids, the claimed items are the accepted ones in list order, and
     * each listed item ends claimed exactly when it is among them.
     */
    method ClaimAll(now: int, clock: nat -> int, answer: Option<string> -> bool) returns (claimed: seq<InboxItem>)
      modifies this`events, this`calls, model.items
      ensures forall x :: x in claimed ==> x in old(model.ClaimableItems(now))
      ensures var snapshot := old(model.ClaimableItems(now));
              UniqueIds(model.items) ==>
                && claimed == Accepted(snapshot, |snapshot|, hasNetwork, answer, clock)
                && events == old(events) + ClaimedEvents(claimed)
                && calls == old(calls) + ClaimCalls(snapshot, |snapshot|, hasNetwork, clock)
                && (forall j :: 0 <= j < |snapshot| ==> (snapshot[j].isClaimed <==> snapshot[j] in claimed))
                && (forall x :: x in model.items && x !in snapshot ==> x.isClaimed == old(x.isClaimed))
    {
      var snapshot := model.ClaimableItems(now);
      if UniqueIds(model.items) {
        FilterUniqueIds(model.items, InboxItemCategory.None, now);
        AcceptedMembers(snapshot, |snapshot|, hasNetwork, answer, clock);
      }
      claimed := ClaimEach(snapshot, now, clock, answer);
    }

    /** Claims every claimable item of category `c`, as `ClaimAll` does for the whole list. */
    method ClaimAllInCategory(c: InboxItemCategory, now: int, clock: nat -> int, answer: Option<string> -> bool)
      returns (claimed: seq<InboxItem>)
      modifies this`events, this`calls, model.items
      ensures forall x :: x in claimed ==> x in old(model.ClaimableItemsIn(c, now))
      ensures var snapshot := old(model.ClaimableItemsIn(c, now));
              UniqueIds(model.items) ==>
                && claimed == Accepted(snapshot, |snapshot|, hasNetwork, answer, clock)
                && (forall j :: 0 <= j < |snapshot| ==> snapshot[j].category == c)
                && events == old(events) + ClaimedEvents(claimed)
                && calls == old(calls) + ClaimCalls(snapshot, |snapshot|, hasNetwork, clock)
                && (forall j :: 0 <= j < |snapshot| ==> (snapshot[j].isClaimed <==> snapshot[j] in claimed))
                && (forall x :: x in model.items && x !in snapshot ==> x.isClaimed == old(x.isClaimed))
    {
      var snapshot := model.ClaimableItemsIn(c, now);
      if UniqueIds(model.items) {
        FilterUniqueIds(model.items, c, now);
        AcceptedMembers(snapshot, |snapshot|, hasNetwork, answer, clock);
      }
      claimed := ClaimEach(snapshot, now, clock, answer);
    }

    /** Marks the first item with id `id` read; the update fires only when it was unread. */
    method MarkAsRead(id: Option<string>)
      modifies this`events, model.items
      ensures var item := old(model.GetItem(id));
              && (item != null ==> item.isRead)
              && events == old(events) + (if item != null && !old(item.isRead) then [InboxUpdated] else [])
              && forall x :: x in model.items && x != item ==> x.isRead == old(x.isRead)
      ensures forall x :: x in model.items ==> x.isClaimed == old(x.isClaimed)
    {
      var item := model.GetItem(id);
      if item != null && !item.isRead {
        item.isRead := true;
        events := events + [InboxUpdated];
      }
    }

    /** Marks every item read; the update fires once, and only when some item was unread. */
    method MarkAllAsRead()
      modifies this`events, model.items
      ensures UnreadCount(model.items) == 0
      ensures events == old(events) + (if old(UnreadCount(model.items)) > 0 then [InboxUpdated] else [])
      ensures forall x :: x in model.items ==> x.isClaimed == old(x.isClaimed)
    {
      var list := model.items;
      var hasChanges := false;
      var i := 0;
      while i < |list|
        invariant 0 <= i <= |list|
        invariant forall j :: 0 <= j < i ==> list[j].isRead
        invariant forall x :: x in list && x !in list[..i] ==> x.isRead == old(x.isRead)
        invariant forall x :: x in list ==> x.isClaimed == old(x.isClaimed)
        invariant hasChanges <==> exists j :: 0 <= j < i && !old(list[j].isRead)
        invariant events == old(events)
      {
        if !list[i].isRead {
          list[i].isRead := true;
          hasChanges := true;
        }
        assert list[..i + 1] == list[..i] + [list[i]];
        i := i + 1;
      }
      assert hasChanges <==> old(UnreadCount(model.items)) > 0 by {
        if hasChanges {
          var j :| 0 <= j < i && !old(list[j].isRead);
          assert list[j] in list;
        }
      }
      if hasChanges {
        events := events + [InboxUpdated];
      }
    }

    /** Deletes the first item with id `id` once the backend (if any) agrees, `accepted` being its answer. */
    method DeleteItem(id: Option<string>, accepted: bool) returns (ok: bool)
      modifies this`calls, model
      ensures hasNetwork ==> calls == old(calls) + [DeleteCall(id)]
      ensures !hasNetwork ==> calls == old(calls)
      ensures hasNetwork && !accepted ==> !ok && unchanged(model)
      ensures !hasNetwork || accepted ==>
                && (ok <==> old(FirstWithId(model.items, id)).Some?)
                && (!ok ==> model.items == old(model.items) && model.events == old(model.events))
                && (ok ==> var i := old(FirstWithId(model.items, id)).value;
                           && model.items == RemoveAt(old(model.items), i)
                           && model.events == old(model.events) + [ItemRemoved(old(model.items)[i]), ItemsUpdated])
    {
      if hasNetwork {
        calls := calls + [DeleteCall(id)];
        if !accepted {
          return false;
        }
      }
      ok := model.RemoveItem(id);
    }

    /** How many items of category `c` can be claimed at `now`. */
    function GetClaimableCount(c: InboxItemCategory, now: int): (n: nat)
      reads model, model.items
      ensures n == |model.ClaimableItemsIn(c, now)|
      ensures n <= |model.items|
    {
      |model.ClaimableItemsIn(c, now)|
    }

    /** An item pushed by the backend is added (null is ignored by the model) and announced either way. */
    method OnItemReceived(item: InboxItem?)
      modifies model, this`events
      ensures item == null ==> model.items == old(model.items)
      ensures item != null ==> multiset(model.items) == multiset(old(model.items)) + multiset{item}
                               && SortedDesc(model.items)
      ensures model.events == old(model.events) + (if item == null then [] else [ItemAdded(item), ItemsUpdated])
      ensures events == old(events) + [ItemReceived(item)]
    {
      model.AddItem(item);
      events := events + [ItemReceived(item)];
    }
  }

  /**
   * A snapshot the claim-all loop can rely on: ids are unique in the list and
   * in the snapshot, and every snapshot item is a claimable item of the list.
   */
  predicate ClaimableSnapshot(items: seq<InboxItem>, snapshot: seq<InboxItem>, now: int)
    reads snapshot
  {
    && UniqueIds(items) && UniqueIds(snapshot)
    && forall j :: 0 <= j < |snapshot| ==> snapshot[j] in items && snapshot[j].CanClaim(now)
  }

  /**
   * What the claim-all loop relies on before the claim at position `i`:
   * ids are unique in the list and in the snapshot, every snapshot item is
   * in the list, and those from `i` on are still claimable at `now`.
   */
  predicate ClaimableFrom(items: seq<InboxItem>, snapshot: seq<InboxItem>, i: nat, now: int)
    reads snapshot
  {
    && UniqueIds(items) && UniqueIds(snapshot)
    && (forall j :: 0 <= j < |snapshot| ==> snapshot[j] in items)
    && forall j :: i <= j < |snapshot| ==> snapshot[j].CanClaim(now)
  }

  /** With unique ids, the item at `i` is a different object from every other item. */
  lemma DistinctAfter(s: seq<InboxItem>, i: nat)
    requires UniqueIds(s) && i < |s|
    ensures forall j :: 0 <= j < |s| && j != i ==> s[j] != s[i]
  {
    forall j | 0 <= j < |s| && j != i
      ensures s[j] != s[i]
    {
      if j < i {
        assert s[j].id != s[i].id;
      } else {
        assert s[i].id != s[j].id;
      }
    }
  }

  /** Filtering keeps ids unique. */
  lemma {:induction false} FilterUniqueIds(s: seq<InboxItem>, c: InboxItemCategory, now: int)
    requires UniqueIds(s)
    ensures UniqueIds(Claimable(s, now)) && UniqueIds(ClaimableIn(s, c, now))
  {
    if s != [] {
      assert UniqueIds(s[1..]);
      FilterUniqueIds(s[1..], c, now);
      FilteredFrom(s[1..], c, now);
      forall x | x in s[1..]
        ensures x.id != s[0].id
      {
        var k :| 0 <= k < |s[1..]| && s[1..][k] == x;
        assert s[k + 1] == x;
      }
    }
  }

  /** Every accepted item is one of the first `k` of the snapshot and the backend, if any, accepted its id (stated by position). */
  lemma {:induction false} AcceptedFrom(s: seq<InboxItem>, k: nat, hasNetwork: bool, answer: Option<string> -> bool, clock: nat -> int)
    requires k <= |s|
    ensures forall i :: 0 <= i < |Accepted(s, k, hasNetwork, answer, clock)| ==>
              Accepted(s, k, hasNetwork, answer, clock)[i] in s[..k]
              && (!hasNetwork || answer(Accepted(s, k, hasNetwork, answer, clock)[i].id))
  {
    if k > 0 {
      AcceptedFrom(s, k - 1, hasNetwork, answer, clock);
      assert forall x :: x in s[..k - 1] ==> x in s[..k] by {
        assert s[..k] == s[..k - 1] + [s[k - 1]];
      }
    }
  }

  /**
   * With unique ids, an item among the first `k` of the snapshot is
   * accepted exactly when its claim succeeds at its own claim time.
   */
  lemma {:induction false} AcceptedMembers(s: seq<InboxItem>, k: nat, hasNetwork: bool, answer: Option<string> -> bool, clock: nat -> int)
    requires k <= |s| && UniqueIds(s)
    ensures forall j :: 0 <= j < k ==>
              (s[j] in Accepted(s, k, hasNetwork, answer, clock) <==> Succeeds(s[j], clock(j), hasNetwork, answer))
  {
    if k > 0 {
      AcceptedMembers(s, k - 1, hasNetwork, answer, clock);
      AcceptedFrom(s, k - 1, hasNetwork, answer, clock);
      DistinctAfter(s, k - 1);
      var rest := Accepted(s, k - 1, hasNetwork, answer, clock);
      assert s[k - 1] !in s[..k - 1];
      assert s[k - 1] !in rest;
    }
  }

  /** With distinct ids, looking an item up by its own id finds that very item. */
  lemma SameIdSameItem(s: seq<InboxItem>, x: InboxItem)
    requires UniqueIds(s) && x in s
    ensures FirstWithId(s, x.id).Some? && s[FirstWithId(s, x.id).value] == x
  {
    var k :| 0 <= k < |s| && s[k] == x;
  }
}
