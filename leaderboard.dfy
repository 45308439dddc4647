/**
 * The leaderboard feature: entries kept per (tab, scope) board, the current
 * user's entry (an object shared with the stored lists), rank and id lookups,
 * and the controller that switches boards and fetches them from a backend.
 *
 * The backend is an oracle: each fetch is answered by a value given to the
 * method, `None` standing for a fetch that throws.
 */
module Leaderboard {
  import opened Common

  datatype LeaderboardTab = Players | Teams | Friends

  datatype LeaderboardScope = Global | Local | Weekly | Daily

  datatype LeaderboardEntryType = User | Team

  /** A board is addressed by a tab and a scope. */
  datatype BoardKey = BoardKey(tab: LeaderboardTab, scope: LeaderboardScope)

  /**
   * One row of a board. Rank, score and sub-score are updated in place; the
   * identity and presentation fields are fixed once built.
   */
  class LeaderboardEntry {
    const id: Option<string>
    const entryType: LeaderboardEntryType
    const name: Option<string>
    const avatarId: int
    const avatarUrl: Option<string>
    const frameId: int
    const isCurrentUser: bool
    var rank: int
    var score: int
    var subScore: int

    /** Stores every argument; the optional ones default to 0, null and false. */
    constructor (id: Option<string>, entryType: LeaderboardEntryType, rank: int, score: int, name: Option<string>,
                 subScore: int := 0, avatarId: int := 0, avatarUrl: Option<string> := None, frameId: int := 0,
                 isCurrentUser: bool := false)
      ensures this.id == id && this.entryType == entryType && this.rank == rank && this.score == score
      ensures this.name == name && this.subScore == subScore && this.avatarId == avatarId
      ensures this.avatarUrl == avatarUrl && this.frameId == frameId && this.isCurrentUser == isCurrentUser
    {
      this.id := id;
      this.entryType := entryType;
      this.rank := rank;
      this.score := score;
      this.name := name;
      this.subScore := subScore;
      this.avatarId := avatarId;
      this.avatarUrl := avatarUrl;
      this.frameId := frameId;
      this.isCurrentUser := isCurrentUser;
    }

    /** An entry without data: no id, no name, rank and score zero; other fields do not matter. */
    predicate IsEmpty()
      reads this
    {
      IsNullOrEmpty(id) && rank == 0 && score == 0 && IsNullOrEmpty(name)
    }

    method SetRank(value: int)
      modifies this`rank
      ensures rank == value
    {
      rank := value;
    }

    method SetScore(value: int)
      modifies this`score
      ensures score == value
    {
      score := value;
    }

    method SetSubScore(value: int)
      modifies this`subScore
      ensures subScore == value
      ensures IsEmpty() <==> old(IsEmpty())
    {
      subScore := value;
    }
  }

  /** A freshly built entry with a rank or a score is never empty, whatever its id and name. */
  lemma RankedEntryIsNotEmpty(e: LeaderboardEntry)
    requires e.rank != 0 || e.score != 0
    ensures !e.IsEmpty()
  {
  }

  /** An entry with an id or a name is never empty, whatever its rank and score. */
  lemma IdentifiedEntryIsNotEmpty(e: LeaderboardEntry)
    requires !IsNullOrEmpty(e.id) || !IsNullOrEmpty(e.name)
    ensures !e.IsEmpty()
  {
  }

  /** The index of the first current-user entry of `list`. */
  function FirstCurrentUser(list: seq<LeaderboardEntry>): (r: Option<nat>)
    ensures r.None? <==> forall i :: 0 <= i < |list| ==> !list[i].isCurrentUser
    ensures r.Some? ==> r.value < |list| && list[r.value].isCurrentUser
                        && forall j :: 0 <= j < r.value ==> !list[j].isCurrentUser
  {
    if list == [] then None
    else if list[0].isCurrentUser then Some(0)
    else
      match FirstCurrentUser(list[1..])
      case None => None
      case Some(i) => Some(i + 1)
  }

  /** The index of the first entry of `list` whose id equals `id` (null matches null). */
  function FirstWithId(list: seq<LeaderboardEntry>, id: Option<string>): (r: Option<nat>)
    ensures r.None? <==> forall i :: 0 <= i < |list| ==> list[i].id != id
    ensures r.Some? ==> r.value < |list| && list[r.value].id == id
                        && forall j :: 0 <= j < r.value ==> list[j].id != id
  {
    if list == [] then None
    else if list[0].id == id then Some(0)
    else
      match FirstWithId(list[1..], id)
      case None => None
      case Some(i) => Some(i + 1)
  }

  datatype ModelEvent = DataChanged | CurrentUserEntryChanged(entry: LeaderboardEntry?)

  /** Everything the model holds, as one value: the boards, the current user's entry, the events fired. */
  datatype BoardState = BoardState(
    boards: map<BoardKey, seq<LeaderboardEntry>>,
    currentUser: LeaderboardEntry?,
    events: seq<ModelEvent>)

  /** The entries of board `k`; a board never set reads as empty. */
  function EntriesOf(boards: map<BoardKey, seq<LeaderboardEntry>>, k: BoardKey): (r: seq<LeaderboardEntry>)
    ensures k !in boards ==> r == []
    ensures k in boards ==> r == boards[k]
  {
    if k in boards then boards[k] else []
  }

  /**
   * The state after storing `list` as board `k`: the board holds exactly
   * `list`; the first current-user entry of `list`, if any, becomes the
   * current user's entry and is announced; then the data change is announced.
   */
  function SetEntriesSpec(s: BoardState, k: BoardKey, list: seq<LeaderboardEntry>): (r: BoardState)
    ensures r.boards == s.boards[k := list]
    ensures FirstCurrentUser(list).None? ==> r.currentUser == s.currentUser
                                              && r.events == s.events + [DataChanged]
    ensures FirstCurrentUser(list).Some? ==>
              var e := list[FirstCurrentUser(list).value];
              r.currentUser == e && r.events == s.events + [CurrentUserEntryChanged(e), DataChanged]
  {
    match FirstCurrentUser(list)
    case None => BoardState(s.boards[k := list], s.currentUser, s.events + [DataChanged])
    case Some(i) => BoardState(s.boards[k := list], list[i], s.events + [CurrentUserEntryChanged(list[i]), DataChanged])
  }

  /** Storing a board changes no other board, and reading it back gives exactly what was stored. */
  lemma SetEntriesIsolated(s: BoardState, k: BoardKey, list: seq<LeaderboardEntry>, other: BoardKey)
    ensures EntriesOf(SetEntriesSpec(s, k, list).boards, k) == list
    ensures other != k ==> EntriesOf(SetEntriesSpec(s, k, list).boards, other) == EntriesOf(s.boards, other)
  {
  }

  class LeaderboardModel {
    var boards: map<BoardKey, seq<LeaderboardEntry>>
    var currentUserEntry: LeaderboardEntry?
    var events: seq<ModelEvent>

    constructor ()
      ensures boards == map[] && currentUserEntry == null && events == []
    {
      boards := map[];
      currentUserEntry := null;
      events := [];
    }

    function State(): BoardState
      reads this
    {
      BoardState(boards, currentUserEntry, events)
    }

    function GetEntries(tab: LeaderboardTab, scope: LeaderboardScope): (r: seq<LeaderboardEntry>)
      reads this
      ensures BoardKey(tab, scope) !in boards ==> r == []
      ensures BoardKey(tab, scope) in boards ==> r == boards[BoardKey(tab, scope)]
    {
      EntriesOf(boards, BoardKey(tab, scope))
    }

    /** Replaces board (tab, scope) with `entries` (null stores an empty board). */
    method SetEntries(tab: LeaderboardTab, scope: LeaderboardScope, entries: Option<seq<LeaderboardEntry>>)
      modifies this
      ensures State() == SetEntriesSpec(old(State()), BoardKey(tab, scope), entries.GetOr([]))
    {
      var key := BoardKey(tab, scope);
      var list := entries.GetOr([]);
      boards := boards[key := list];
      var i := 0;
      while i < |list|
        invariant 0 <= i <= |list|
        invariant forall j :: 0 <= j < i ==> !list[j].isCurrentUser
        invariant boards == old(boards)[key := list]
        invariant currentUserEntry == old(currentUserEntry) && events == old(events)
      {
        if list[i].isCurrentUser {
          UpdateCurrentUserEntry(list[i]);
          break;
        }
        i := i + 1;
      }
      events := events + [DataChanged];
    }

    method UpdateCurrentUserEntry(entry: LeaderboardEntry?)
      modifies this`currentUserEntry, this`events
      ensures currentUserEntry == entry
      ensures events == old(events) + [CurrentUserEntryChanged(entry)]
    {
      currentUserEntry := entry;
      events := events + [CurrentUserEntryChanged(entry)];
    }

    /**
     * Sets the current user's score on the shared entry object, so every board
     * that holds that object shows the new score; a no-op without an entry.
     */
    method UpdateCurrentUserScore(score: int, subScore: int)
      modifies this`events, currentUserEntry
      ensures currentUserEntry == null ==> events == old(events)
      ensures currentUserEntry != null ==>
                && currentUserEntry.score == score && currentUserEntry.subScore == subScore
                && currentUserEntry.rank == old(currentUserEntry.rank)
                && events == old(events) + [CurrentUserEntryChanged(currentUserEntry)]
      ensures currentUserEntry != null ==>
                forall k, i :: k in boards && 0 <= i < |boards[k]| && boards[k][i] == currentUserEntry ==>
                  boards[k][i].score == score
    {
      if currentUserEntry != null {
        currentUserEntry.score := score;
        currentUserEntry.subScore := subScore;
        events := events + [CurrentUserEntryChanged(currentUserEntry)];
      }
    }

    /** The rank of the first current-user entry of board (tab, scope), or -1 when there is none. */
    method GetCurrentUserRank(tab: LeaderboardTab, scope: LeaderboardScope) returns (rank: int)
      ensures var list := GetEntries(tab, scope);
              match FirstCurrentUser(list)
              case None => rank == -1
              case Some(i) => rank == list[i].rank
    {
      var list := GetEntries(tab, scope);
      var i := 0;
      while i < |list|
        invariant 0 <= i <= |list|
        invariant forall j :: 0 <= j < i ==> !list[j].isCurrentUser
      {
        if list[i].isCurrentUser {
          return list[i].rank;
        }
        i := i + 1;
      }
      return -1;
    }

    /** The first entry of board (tab, scope) whose id is `id`, or null. */
    method FindEntry(tab: LeaderboardTab, scope: LeaderboardScope, id: Option<string>) returns (entry: LeaderboardEntry?)
      ensures var list := GetEntries(tab, scope);
              match FirstWithId(list, id)
              case None => entry == null
              case Some(i) => entry == list[i]
    {
      var list := GetEntries(tab, scope);
      var i := 0;
      while i < |list|
        invariant 0 <= i <= |list|
        invariant forall j :: 0 <= j < i ==> list[j].id != id
      {
        if list[i].id == id {
          return list[i];
        }
        i := i + 1;
      }
      return null;
    }

    /** Forgets every board and the current user's entry. */
    method Clear()
      modifies this
      ensures boards == map[] && currentUserEntry == null
      ensures events == old(events) + [DataChanged]
    {
      boards := map[];
      currentUserEntry := null;
      events := events + [DataChanged];
    }

    /** Empties board (tab, scope) if it exists; the current user's entry is kept. */
    method ClearBoard(tab: LeaderboardTab, scope: LeaderboardScope)
      modifies this`boards, this`events
      ensures BoardKey(tab, scope) in old(boards) ==>
                boards == old(boards)[BoardKey(tab, scope) := []] && events == old(events) + [DataChanged]
      ensures BoardKey(tab, scope) !in old(boards) ==> boards == old(boards) && events == old(events)
    {
      var key := BoardKey(tab, scope);
      if key in boards {
        boards := boards[key := []];
        events := events + [DataChanged];
      }
    }
  }

  /** Every board, in the declaration order of the two enumerations, tab-major. */
  function AllKeys(): (r: seq<BoardKey>)
    ensures |r| == 12
  {
    [BoardKey(Players, Global), BoardKey(Players, Local), BoardKey(Players, Weekly), BoardKey(Players, Daily),
     BoardKey(Teams, Global), BoardKey(Teams, Local), BoardKey(Teams, Weekly), BoardKey(Teams, Daily),
     BoardKey(Friends, Global), BoardKey(Friends, Local), BoardKey(Friends, Weekly), BoardKey(Friends, Daily)]
  }

  predicate Distinct(s: seq<BoardKey>) {
    forall i, j :: 0 <= i < j < |s| ==> s[i] != s[j]
  }

  /** Every board is one of the twelve. */
  lemma AllKeysCover(k: BoardKey)
    ensures k in AllKeys()
  {
    var index := (match k.tab case Players => 0 case Teams => 4 case Friends => 8)
                 + (match k.scope case Global => 0 case Local => 1 case Weekly => 2 case Daily => 3);
    assert AllKeys()[index] == k;
  }

  /** No board is listed twice. */
  lemma AllKeysDistinct()
    ensures Distinct(AllKeys())
  {
  }

  /** `keys` without `skip`, order kept. */
  function Without(keys: seq<BoardKey>, skip: BoardKey): (r: seq<BoardKey>)
  {
    if keys == [] then []
    else Without(keys[..|keys| - 1], skip) + (if keys[|keys| - 1] == skip then [] else [keys[|keys| - 1]])
  }

  lemma {:induction false} WithoutMembers(keys: seq<BoardKey>, skip: BoardKey)
    ensures forall k :: k in Without(keys, skip) <==> k in keys && k != skip
    ensures Distinct(keys) ==> Distinct(Without(keys, skip))
    ensures skip in keys && Distinct(keys) ==> |Without(keys, skip)| == |keys| - 1
    ensures skip !in keys ==> Without(keys, skip) == keys
  {
    if keys != [] {
      var init := keys[..|keys| - 1];
      var last := keys[|keys| - 1];
      assert keys == init + [last];
      WithoutMembers(init, skip);
      if Distinct(keys) {
        assert last !in init;
        assert Distinct(init);
      }
    }
  }

  /** The order in which fetching every board visits them: the current board first, then the others. */
  function FetchOrder(current: BoardKey): seq<BoardKey> {
    [current] + Without(AllKeys(), current)
  }

  /** Fetching every board visits each of the twelve boards exactly once, the current one first. */
  lemma FetchOrderVisitsEachBoardOnce(current: BoardKey)
    ensures |FetchOrder(current)| == 12 && FetchOrder(current)[0] == current
    ensures Distinct(FetchOrder(current))
    ensures forall k :: k in FetchOrder(current)
  {
    AllKeysCover(current);
    AllKeysDistinct();
    WithoutMembers(AllKeys(), current);
    forall k
      ensures k in FetchOrder(current)
    {
      AllKeysCover(k);
    }
  }

  /** What the backend answers for one board: `None` is a fetch that throws, `Some(None)` a null list. */
  type Response = Option<Option<seq<LeaderboardEntry>>>

  /** The model state after fetching `keys` in order, storing each answered board. */
  function FetchAllSpec(s: BoardState, keys: seq<BoardKey>, responses: BoardKey -> Response): BoardState
  {
    if keys == [] then s
    else
      var before := FetchAllSpec(s, keys[..|keys| - 1], responses);
      var last := keys[|keys| - 1];
      match responses(last)
      case None => before
      case Some(list) => SetEntriesSpec(before, last, list.GetOr([]))
  }

  /**
   * After fetching distinct boards, each board whose fetch succeeded holds
   * exactly what the backend sent; every other board is as it was.
   */
  lemma {:induction false} FetchAllStoresAnswers(s: BoardState, keys: seq<BoardKey>, responses: BoardKey -> Response, k: BoardKey)
    requires Distinct(keys)
    ensures k in keys && responses(k).Some? ==>
              EntriesOf(FetchAllSpec(s, keys, responses).boards, k) == responses(k).value.GetOr([])
    ensures k !in keys || responses(k).None? ==>
              (k in FetchAllSpec(s, keys, responses).boards <==> k in s.boards)
              && EntriesOf(FetchAllSpec(s, keys, responses).boards, k) == EntriesOf(s.boards, k)
  {
    if keys != [] {
      var init := keys[..|keys| - 1];
      var last := keys[|keys| - 1];
      assert keys == init + [last];
      assert Distinct(init);
      FetchAllStoresAnswers(s, init, responses, k);
      if k == last {
        assert k !in init;
      }
    }
  }

  /** Every board of `keys` was answered. */
  predicate AllAnswered(keys: seq<BoardKey>, responses: BoardKey -> Response) {
    forall k :: k in keys ==> responses(k).Some?
  }

  lemma AllAnsweredAppend(a: seq<BoardKey>, b: seq<BoardKey>, responses: BoardKey -> Response)
    ensures AllAnswered(a + b, responses) == (AllAnswered(a, responses) && AllAnswered(b, responses))
  {
    assert forall k :: k in a + b <==> k in a || k in b;
  }

  /** Fetching `a` and then `b` is fetching `a + b`. */
  lemma {:induction false} FetchAllAppend(s: BoardState, a: seq<BoardKey>, b: seq<BoardKey>, responses: BoardKey -> Response)
    ensures FetchAllSpec(FetchAllSpec(s, a, responses), b, responses) == FetchAllSpec(s, a + b, responses)
    decreases |b|
  {
    if b == [] {
      assert a + b == a;
    } else {
      assert (a + b)[..|a + b| - 1] == a + b[..|b| - 1];
      FetchAllAppend(s, a, b[..|b| - 1], responses);
    }
  }

  /** One more board fetched: the spec and the all-succeeded flag each take one more step. */
  lemma FetchAllSnoc(s: BoardState, done: seq<BoardKey>, key: BoardKey, responses: BoardKey -> Response,
                     ok: bool, before: BoardState, after: BoardState)
    requires before == FetchAllSpec(s, done, responses)
    requires ok == AllAnswered(done, responses)
    requires responses(key).None? ==> after == before
    requires responses(key).Some? ==> after == SetEntriesSpec(before, key, responses(key).value.GetOr([]))
    ensures after == FetchAllSpec(s, done + [key], responses)
    ensures (ok && responses(key).Some?) == AllAnswered(done + [key], responses)
  {
    assert (done + [key])[..|done|] == done;
  }

  /** Taking one more key of `keys` extends the kept keys by it unless it is the skipped one. */
  lemma WithoutStep(keys: seq<BoardKey>, i: nat, skip: BoardKey)
    requires i < |keys|
    ensures Without(keys[..i + 1], skip) == Without(keys[..i], skip) + (if keys[i] == skip then [] else [keys[i]])
  {
    assert keys[..i + 1][..i] == keys[..i];
  }

  datatype ControllerEvent = TabChanged(tab: LeaderboardTab) | ScopeChanged(scope: LeaderboardScope)

  class LeaderboardController {
    const model: LeaderboardModel
    const hasNetwork: bool
    var currentTab: LeaderboardTab
    var currentScope: LeaderboardScope
    var isFetching: bool
    var events: seq<ControllerEvent>
    /** The boards requested from the backend, in request order. */
    var fetchLog: seq<BoardKey>

    constructor (model: LeaderboardModel, hasNetwork: bool)
      ensures this.model == model && this.hasNetwork == hasNetwork
      ensures currentTab == Players && currentScope == Global
      ensures !isFetching && events == [] && fetchLog == []
    {
      this.model := model;
      this.hasNetwork := hasNetwork;
      currentTab := Players;
      currentScope := Global;
      isFetching := false;
      events := [];
      fetchLog := [];
    }

    method SwitchTab(tab: LeaderboardTab)
      modifies this`currentTab, this`events
      ensures currentTab == tab
      ensures events == old(events) + (if old(currentTab) == tab then [] else [TabChanged(tab)])
    {
      if currentTab == tab {
        return;
      }
      currentTab := tab;
      events := events + [TabChanged(tab)];
    }

    method SwitchScope(scope: LeaderboardScope)
      modifies this`currentScope, this`events
      ensures currentScope == scope
      ensures events == old(events) + (if old(currentScope) == scope then [] else [ScopeChanged(scope)])
    {
      if currentScope == scope {
        return;
      }
      currentScope := scope;
      events := events + [ScopeChanged(scope)];
    }

    /**
     * Fetches board (tab, scope), answered by `response`. Refused while a
     * fetch is in progress or without a backend; a throwing fetch leaves the
     * model alone. The fetching flag is down again afterwards on every path.
     */
    method FetchLeaderboard(tab: LeaderboardTab, scope: LeaderboardScope, response: Response) returns (ok: bool)
      modifies this`isFetching, this`fetchLog, model
      ensures !old(isFetching) ==> !isFetching
      ensures old(isFetching) || !hasNetwork ==>
                !ok && isFetching == old(isFetching) && fetchLog == old(fetchLog) && unchanged(model)
      ensures !old(isFetching) && hasNetwork ==>
                && fetchLog == old(fetchLog) + [BoardKey(tab, scope)]
                && ok == response.Some?
                && (response.None? ==> unchanged(model))
                && (response.Some? ==>
                      model.State() == SetEntriesSpec(old(model.State()), BoardKey(tab, scope), response.value.GetOr([])))
    {
      if isFetching {
        return false;
      }
      if !hasNetwork {
        return false;
      }
      isFetching := true;
      fetchLog := fetchLog + [BoardKey(tab, scope)];
      if response.Some? {
        model.SetEntries(tab, scope, response.value);
        ok := true;
      } else {
        ok := false;
      }
      isFetching := false;
    }

    /**
     * Fetches every board, the current one first and then the other eleven
     * in enumeration order, and reports whether all fetches succeeded. Every
     * fetch runs even after one has failed.
     */
    method FetchAllLeaderboards(responses: BoardKey -> Response) returns (ok: bool)
      modifies this`isFetching, this`fetchLog, model
      ensures var order := FetchOrder(BoardKey(old(currentTab), old(currentScope)));
              if !old(isFetching) && hasNetwork then
                && fetchLog == old(fetchLog) + order
                && ok == AllAnswered(order, responses)
                && model.State() == FetchAllSpec(old(model.State()), order, responses)
                && !isFetching
              else
                !ok && fetchLog == old(fetchLog) && unchanged(model) && isFetching == old(isFetching)
    {
      var current := BoardKey(currentTab, currentScope);
      ok := FetchLeaderboard(currentTab, currentScope, responses(current));
      if !old(isFetching) && hasNetwork {
        assert [current][..0] == [];
        assert ok == AllAnswered([current], responses);
      }
      var rest := FetchOthers(AllKeys(), current, responses);
      ok := ok && rest;
      if !old(isFetching) && hasNetwork {
        ghost var others := Without(AllKeys(), current);
        FetchAllAppend(old(model.State()), [current], others, responses);
        AllAnsweredAppend([current], others, responses);
        AppendAssoc(old(fetchLog), [current], others);
      }
    }

    /**
     * The loop of a fetch-all: every board of `keys` other than `current`,
     * in order, and whether all of those fetches succeeded.
     */
    method FetchOthers(keys: seq<BoardKey>, current: BoardKey, responses: BoardKey -> Response) returns (ok: bool)
      modifies this`isFetching, this`fetchLog, model
      ensures isFetching == old(isFetching)
      ensures var others := Without(keys, current);
              if !old(isFetching) && hasNetwork then
                && fetchLog == old(fetchLog) + others
                && ok == AllAnswered(others, responses)
                && model.State() == FetchAllSpec(old(model.State()), others, responses)
              else
                fetchLog == old(fetchLog) && unchanged(model)
    {
      ok := true;
      ghost var active := !old(isFetching) && hasNetwork;
      ghost var done: seq<BoardKey> := [];
      var i := 0;
      while i < |keys|
        invariant 0 <= i <= |keys| && done == Without(keys[..i], current)
        invariant isFetching == old(isFetching)
        invariant active ==> fetchLog == old(fetchLog) + done
        invariant active ==> ok == AllAnswered(done, responses)
        invariant active ==> model.State() == FetchAllSpec(old(model.State()), done, responses)
        invariant !active ==> fetchLog == old(fetchLog) && unchanged(model)
      {
        var key := keys[i];
        WithoutStep(keys, i, current);
        assert BoardKey(key.tab, key.scope) == key;
        if key != current {
          ghost var before := model.State();
          var result := FetchLeaderboard(key.tab, key.scope, responses(key));
          if active {
            FetchAllSnoc(old(model.State()), done, key, responses, ok, before, model.State());
            AppendAssoc(old(fetchLog), done, [key]);
          }
          ok := ok && result;
          done := done + [key];
        }
        i := i + 1;
      }
      assert keys[..|keys|] == keys;
    }
  }
}
