/** The player page's mutable state (`users`, `state.tournaments`,
    `state.currentUserId`, `state.ui.activeMatchId`, `banConfirmOverrides`)
    and the handlers that edit it in place. The rules each handler applies
    to the match live in `Draft`; this module finds the match, applies
    them, and writes the result back where the handler's object sits. */
module ClientState {
  import opened Wrappers
  import opened Js
  import opened Strings
  import opened Catalog
  import opened MatchModel
  import opened Normalize
  import opened Records
  import opened Draft

  // ---------------------------------------------------------------------
  // Users

  /** Account ids are compared after `toLowerCase()`. */
  predicate SameAccount(x: string, y: string) {
    ToLower(x) == ToLower(y)
  }

  /** `users.findIndex(...)` with the case-insensitive comparison. */
  function FindUserIndex(users: seq<User>, id: string): (i: int)
    ensures -1 <= i < |users|
    ensures i >= 0 ==> SameAccount(users[i].accountId, id)
    ensures i >= 0 ==> forall j :: 0 <= j < i ==> !SameAccount(users[j].accountId, id)
    ensures i < 0 ==> forall j :: 0 <= j < |users| ==> !SameAccount(users[j].accountId, id)
  {
    if users == [] then -1
    else if SameAccount(users[0].accountId, id) then 0
    else
      var k := FindUserIndex(users[1..], id);
      if k < 0 then -1 else k + 1
  }

  /** `findUser`: the first user whose id matches ignoring case. */
  function FindUser(users: seq<User>, id: string): (u: Option<User>)
    ensures u.Some? ==> u.value in users && SameAccount(u.value.accountId, id)
    ensures u.None? <==> forall j :: 0 <= j < |users| ==> !SameAccount(users[j].accountId, id)
  {
    var i := FindUserIndex(users, id);
    if i < 0 then None else Some(users[i])
  }

  /** No two users share an account id up to case. */
  predicate UniqueAccounts(users: seq<User>) {
    forall i, j :: 0 <= i < j < |users| ==> !SameAccount(users[i].accountId, users[j].accountId)
  }

  /** The list after `upsertUserList` stored `u`. */
  function Upserted(users: seq<User>, u: User): seq<User> {
    var i := FindUserIndex(users, u.accountId);
    if i >= 0 then users[i := u] else users + [u]
  }

  /** Upserting replaces the entry with the same account (up to case) or
      appends one; the list stays free of case-insensitive duplicates,
      `findUser` then returns the stored user, and every other user stays. */
  lemma UpsertedProperties(users: seq<User>, u: User)
    requires UniqueAccounts(users)
    ensures UniqueAccounts(Upserted(users, u))
    ensures FindUser(Upserted(users, u), u.accountId) == Some(u)
    ensures |Upserted(users, u)| == if FindUser(users, u.accountId).Some? then |users| else |users| + 1
    ensures forall j :: 0 <= j < |users| && !SameAccount(users[j].accountId, u.accountId) ==>
      users[j] in Upserted(users, u)
  {
    var i := FindUserIndex(users, u.accountId);
    var r := Upserted(users, u);
    if i >= 0 {
      forall j | 0 <= j < |users| && !SameAccount(users[j].accountId, u.accountId)
        ensures users[j] in r
      {
        assert r[j] == users[j];
      }
      forall j | 0 <= j < i
        ensures !SameAccount(r[j].accountId, u.accountId)
      {
        assert r[j] == users[j];
      }
      assert SameAccount(r[i].accountId, u.accountId);
      assert FindUserIndex(r, u.accountId) == i;
    } else {
      assert r[|users|] == u;
      forall j | 0 <= j < |users| && !SameAccount(users[j].accountId, u.accountId)
        ensures users[j] in r
      {
        assert r[j] == users[j];
      }
      assert FindUserIndex(r, u.accountId) == |users|;
    }
  }

  // ---------------------------------------------------------------------
  // Searching the tournaments' matches

  /** Index of the first match satisfying `p`, or -1. */
  function IndexWhere(ms: seq<Match>, p: Match -> bool): (k: int)
    ensures -1 <= k < |ms|
    ensures k >= 0 ==> p(ms[k]) && forall j :: 0 <= j < k ==> !p(ms[j])
    ensures k < 0 ==> forall j :: 0 <= j < |ms| ==> !p(ms[j])
  {
    if ms == [] then -1
    else if p(ms[0]) then 0
    else
      var k := IndexWhere(ms[1..], p);
      if k < 0 then -1 else k + 1
  }

  /** Match `k` of tournament `t` is the first in reading order satisfying `p`. */
  predicate FirstHit(ts: seq<Tournament>, p: Match -> bool, t: nat, k: nat) {
    && t < |ts| && k < |ts[t].matches| && p(ts[t].matches[k])
    && (forall t', k' :: 0 <= t' < t && 0 <= k' < |ts[t'].matches| ==> !p(ts[t'].matches[k']))
    && (forall k' :: 0 <= k' < k ==> !p(ts[t].matches[k']))
  }

  predicate NoHit(ts: seq<Tournament>, p: Match -> bool) {
    forall t, k :: 0 <= t < |ts| && 0 <= k < |ts[t].matches| ==> !p(ts[t].matches[k])
  }

  /** `r` is what the nested `for ... of` search returns. */
  predicate Searched(ts: seq<Tournament>, p: Match -> bool, r: Option<(nat, nat)>) {
    match r
    case None => NoHit(ts, p)
    case Some((t, k)) => FirstHit(ts, p, t, k)
  }

  function SearchFrom(ts: seq<Tournament>, p: Match -> bool, t: nat): (r: Option<(nat, nat)>)
    requires t <= |ts|
    ensures r.None? ==> forall t', k :: t <= t' < |ts| && 0 <= k < |ts[t'].matches| ==> !p(ts[t'].matches[k])
    ensures r.Some? ==> t <= r.value.0 < |ts| && r.value.1 < |ts[r.value.0].matches|
    ensures r.Some? ==> p(ts[r.value.0].matches[r.value.1])
    ensures r.Some? ==> forall t', k :: t <= t' < r.value.0 && 0 <= k < |ts[t'].matches| ==> !p(ts[t'].matches[k])
    ensures r.Some? ==> forall k :: 0 <= k < r.value.1 ==> !p(ts[r.value.0].matches[k])
    decreases |ts| - t
  {
    if t == |ts| then None
    else
      var k := IndexWhere(ts[t].matches, p);
      if k >= 0 then Some((t, k)) else SearchFrom(ts, p, t + 1)
  }

  /** The first match, in reading order, satisfying `p`. */
  function Search(ts: seq<Tournament>, p: Match -> bool): (r: Option<(nat, nat)>)
    ensures Searched(ts, p, r)
  {
    SearchFrom(ts, p, 0)
  }

  /** The first hit is unique, so a search loop that meets `Searched` has
      computed `Search`. */
  lemma SearchedUnique(ts: seq<Tournament>, p: Match -> bool, r1: Option<(nat, nat)>, r2: Option<(nat, nat)>)
    requires Searched(ts, p, r1) && Searched(ts, p, r2)
    ensures r1 == r2
  {
  }

  /** `match.id === matchId` */
  function MatchWithId(id: JsValue): Match -> bool {
    (m: Match) => SameValue(m.id, id)
  }

  /** `match.players.some((player) => player.accountId === accountId)` */
  function MatchWithPlayer(a: string): Match -> bool {
    (m: Match) => a in PlayerIds(m.players)
  }

  /** `findFirstMatchId`: the id of the first match `a` plays in, else `null`. */
  function FirstMatchId(ts: seq<Tournament>, a: string): (id: JsValue)
    ensures NoHit(ts, MatchWithPlayer(a)) ==> id == Null
  {
    match Search(ts, MatchWithPlayer(a))
    case None => Null
    case Some((t, k)) => ts[t].matches[k].id
  }

  /** `ts` with match `k` of tournament `t` replaced. */
  function SetMatch(ts: seq<Tournament>, t: nat, k: nat, m: Match): (r: seq<Tournament>)
    requires t < |ts| && k < |ts[t].matches|
    ensures |r| == |ts| && |r[t].matches| == |ts[t].matches| && r[t].matches[k] == m
    ensures forall j :: 0 <= j < |ts| && j != t ==> r[j] == ts[j]
    ensures forall j :: 0 <= j < |ts[t].matches| && j != k ==> r[t].matches[j] == ts[t].matches[j]
    ensures r[t] == ts[t].(matches := r[t].matches)
  {
    ts[t := ts[t].(matches := ts[t].matches[k := m])]
  }

  lemma SetMatchSame(ts: seq<Tournament>, t: nat, k: nat)
    requires t < |ts| && k < |ts[t].matches|
    ensures SetMatch(ts, t, k, ts[t].matches[k]) == ts
  {
    assert ts[t].matches[k := ts[t].matches[k]] == ts[t].matches;
  }

  // ---------------------------------------------------------------------
  // getActiveMatchEntry

  /** `getActiveUser`; an empty `currentUserId` stands for `null`. */
  function ActiveUser(users: seq<User>, currentUserId: string): Option<User> {
    if currentUserId == "" then None else FindUser(users, currentUserId)
  }

  /** Where `getActiveMatchEntry` finds the active match, before its player check. */
  function ActiveLocation(users: seq<User>, ts: seq<Tournament>, currentUserId: string,
                          activeMatchId: JsValue): (r: Option<(nat, nat)>)
    ensures r.Some? ==> r.value.0 < |ts| && r.value.1 < |ts[r.value.0].matches|
    ensures r.Some? ==> ActiveUser(users, currentUserId).Some?
    ensures r.Some? ==> ActiveUser(users, currentUserId).value.role == PlayerRole
  {
    match ActiveUser(users, currentUserId)
    case None => None
    case Some(u) =>
      if u.role != PlayerRole then None
      else
        var id := Or(activeMatchId, FirstMatchId(ts, u.accountId));
        if !Truthy(id) then None else Search(ts, MatchWithId(id))
  }

  /** The discarded `normalizeMatch` and the phase repair it runs on the match found. */
  function Refresh(m: Match): (r: Match)
    ensures r.players == m.players && r.bans == m.bans && r.id == m.id
  {
    EnsurePhase(RepairSelections(m))
  }

  /** The tournaments after `getActiveMatchEntry`. */
  function AfterLookup(users: seq<User>, ts: seq<Tournament>, currentUserId: string, activeMatchId: JsValue): (r: seq<Tournament>)
    ensures |r| == |ts| && forall t :: 0 <= t < |ts| ==> |r[t].matches| == |ts[t].matches|
  {
    match ActiveLocation(users, ts, currentUserId, activeMatchId)
    case None => ts
    case Some((t, k)) => SetMatch(ts, t, k, Refresh(ts[t].matches[k]))
  }

  datatype Entry = Entry(tournament: nat, matchIndex: nat, player: nat)

  /** What `getActiveMatchEntry` returns: the match and the active user's
      first player slot in it. */
  function LookupEntry(users: seq<User>, ts: seq<Tournament>, currentUserId: string, activeMatchId: JsValue): (e: Option<Entry>)
    ensures e.Some? ==> e.value.tournament < |ts| && e.value.matchIndex < |ts[e.value.tournament].matches|
    ensures e.Some? ==> ActiveUser(users, currentUserId).Some?
    ensures e.Some? ==> var m := ts[e.value.tournament].matches[e.value.matchIndex];
      e.value.player < |m.players|
      && m.players[e.value.player].accountId == ActiveUser(users, currentUserId).value.accountId
  {
    match ActiveLocation(users, ts, currentUserId, activeMatchId)
    case None => None
    case Some((t, k)) =>
      var i := PlayerIndex(ts[t].matches[k].players, ActiveUser(users, currentUserId).value.accountId);
      if i < 0 then None else Some(Entry(t, k, i))
  }

  /** The active match is only ever found for a player, and it is a match
      the player plays in. */
  lemma LookupEntryIsOwnMatch(users: seq<User>, ts: seq<Tournament>, currentUserId: string, activeMatchId: JsValue)
    requires LookupEntry(users, ts, currentUserId, activeMatchId).Some?
    ensures var e := LookupEntry(users, ts, currentUserId, activeMatchId).value;
      var u := ActiveUser(users, currentUserId).value;
      u.role == PlayerRole && u.accountId in PlayerIds(ts[e.tournament].matches[e.matchIndex].players)
  {
  }

  // ---------------------------------------------------------------------
  // The state each handler leaves

  /** The only match a handler may change is the active one: every other
      match, every tournament's other fields and all lengths stay. */
  predicate OnlyAt(ts: seq<Tournament>, ts': seq<Tournament>, loc: Option<(nat, nat)>) {
    && |ts'| == |ts|
    && (forall t :: 0 <= t < |ts| ==> ts'[t] == ts[t].(matches := ts'[t].matches))
    && (forall t :: 0 <= t < |ts| ==> |ts'[t].matches| == |ts[t].matches|)
    && (forall t, k :: 0 <= t < |ts| && 0 <= k < |ts[t].matches| && loc != Some((t, k)) ==>
          ts'[t].matches[k] == ts[t].matches[k])
  }

  lemma SetMatchOnlyAt(ts: seq<Tournament>, t: nat, k: nat, m: Match)
    requires t < |ts| && k < |ts[t].matches|
    ensures OnlyAt(ts, SetMatch(ts, t, k, m), Some((t, k)))
  {
  }

  lemma OnlyAtTrans(ts: seq<Tournament>, ts1: seq<Tournament>, ts2: seq<Tournament>, loc: Option<(nat, nat)>)
    requires OnlyAt(ts, ts1, loc) && OnlyAt(ts1, ts2, loc)
    ensures OnlyAt(ts, ts2, loc)
  {
  }

  /** `getActiveMatchEntry` changes at most the match it looks up. */
  lemma AfterLookupOnlyAt(users: seq<User>, ts: seq<Tournament>, currentUserId: string, activeMatchId: JsValue)
    ensures OnlyAt(ts, AfterLookup(users, ts, currentUserId, activeMatchId), ActiveLocation(users, ts, currentUserId, activeMatchId))
  {
    match ActiveLocation(users, ts, currentUserId, activeMatchId)
    case None =>
    case Some((t, k)) => SetMatchOnlyAt(ts, t, k, Refresh(ts[t].matches[k]));
  }

  /** Submitting the ban form on match `k` of tournament `t`: tournaments
      and warning overrides afterwards. */
  function BanWrite(ts: seq<Tournament>, t: nat, k: nat, a: string, overrides: set<string>,
                    form: map<string, string>): (seq<Tournament>, set<string>)
    requires t < |ts| && k < |ts[t].matches|
  {
    var m := ts[t].matches[k];
    match SubmitBans(m, a, form)
    case Fail(_) => (ts, overrides)
    case Pass(m') =>
      (SetMatch(ts, t, k, m'), BanWarning(overrides, m.id, a, CollectBans(form, MaxBanPerPlayer).value))
  }

  /** Tournaments and warning overrides after `handleBanSubmit`. */
  function BanSubmitted(users: seq<User>, ts: seq<Tournament>, currentUserId: string, activeMatchId: JsValue,
                        overrides: set<string>, form: map<string, string>): (seq<Tournament>, set<string>)
  {
    var ts1 := AfterLookup(users, ts, currentUserId, activeMatchId);
    match LookupEntry(users, ts, currentUserId, activeMatchId)
    case None => (ts1, overrides)
    case Some(e) =>
      BanWrite(ts1, e.tournament, e.matchIndex, ActiveUser(users, currentUserId).value.accountId, overrides, form)
  }

  /** Tournaments after `handleSelectionSubmit`, and whether it throws. */
  function SelectionSubmitted(users: seq<User>, ts: seq<Tournament>, currentUserId: string, activeMatchId: JsValue,
                              now: string): (seq<Tournament>, bool)
  {
    var ts1 := AfterLookup(users, ts, currentUserId, activeMatchId);
    match LookupEntry(users, ts, currentUserId, activeMatchId)
    case None => (ts1, false)
    case Some(e) =>
      var a := ActiveUser(users, currentUserId).value.accountId;
      match SubmitSelection(ts1[e.tournament].matches[e.matchIndex], a, now)
      case Throws(_) => (ts1, true)
      case Ok(Fail(_)) => (ts1, false)
      case Ok(Pass(m')) => (SetMatch(ts1, e.tournament, e.matchIndex, m'), false)
  }

  /** Which control of the match-flow form changed. */
  datatype FlowTarget =
    | NoTarget
    | FactionSelect(value: string)
    | PickSelect(pickIndex: Option<string>, value: string)
    | OtherControl

  /** The edit a match-flow control applies to the active match. */
  function FlowEdit(m: Match, a: string, target: FlowTarget): Match {
    match target
    case FactionSelect(value) => ChangeFaction(m, a, value)
    case PickSelect(pickIndex, value) => ChangePick(m, a, pickIndex, value)
    case _ => m
  }

  /** Tournaments after `handlePlayerMatchFlowChange`; an event with no
      target returns before the lookup. */
  function FlowChanged(users: seq<User>, ts: seq<Tournament>, currentUserId: string, activeMatchId: JsValue,
                       target: FlowTarget): seq<Tournament>
  {
    if target.NoTarget? then ts
    else
      var ts1 := AfterLookup(users, ts, currentUserId, activeMatchId);
      match LookupEntry(users, ts, currentUserId, activeMatchId)
      case None => ts1
      case Some(e) =>
        var a := ActiveUser(users, currentUserId).value.accountId;
        SetMatch(ts1, e.tournament, e.matchIndex, FlowEdit(ts1[e.tournament].matches[e.matchIndex], a, target))
  }

  /** Tournaments after `handlePlayerReady` for the match with id `matchId`. */
  function PlayerReadied(ts: seq<Tournament>, matchId: JsValue, a: string, now: string, draw: nat): seq<Tournament> {
    match Search(ts, MatchWithId(matchId))
    case None => ts
    case Some((t, k)) => ts[t := ReadyUp(ts[t], k, a, now, draw)]
  }

  /** Writing any match back at the looked-up entry changes only the
      active match. */
  lemma EntryEditOnlyAt(users: seq<User>, ts: seq<Tournament>, currentUserId: string, activeMatchId: JsValue, m: Match)
    requires LookupEntry(users, ts, currentUserId, activeMatchId).Some?
    ensures var e := LookupEntry(users, ts, currentUserId, activeMatchId).value;
      OnlyAt(ts, SetMatch(AfterLookup(users, ts, currentUserId, activeMatchId), e.tournament, e.matchIndex, m),
             ActiveLocation(users, ts, currentUserId, activeMatchId))
  {
    var e := LookupEntry(users, ts, currentUserId, activeMatchId).value;
    var ts1 := AfterLookup(users, ts, currentUserId, activeMatchId);
    AfterLookupOnlyAt(users, ts, currentUserId, activeMatchId);
    SetMatchOnlyAt(ts1, e.tournament, e.matchIndex, m);
    OnlyAtTrans(ts, ts1, SetMatch(ts1, e.tournament, e.matchIndex, m), ActiveLocation(users, ts, currentUserId, activeMatchId));
  }

  /** `handleBanSubmit` changes nothing but the active match. */
  lemma BanSubmittedOnlyAt(users: seq<User>, ts: seq<Tournament>, currentUserId: string, activeMatchId: JsValue,
                           overrides: set<string>, form: map<string, string>)
    ensures OnlyAt(ts, BanSubmitted(users, ts, currentUserId, activeMatchId, overrides, form).0,
                   ActiveLocation(users, ts, currentUserId, activeMatchId))
  {
    AfterLookupOnlyAt(users, ts, currentUserId, activeMatchId);
    var r := BanSubmitted(users, ts, currentUserId, activeMatchId, overrides, form).0;
    if LookupEntry(users, ts, currentUserId, activeMatchId).Some? && r != AfterLookup(users, ts, currentUserId, activeMatchId) {
      var e := LookupEntry(users, ts, currentUserId, activeMatchId).value;
      EntryEditOnlyAt(users, ts, currentUserId, activeMatchId, r[e.tournament].matches[e.matchIndex]);
    }
  }

  /** `handleSelectionSubmit` changes nothing but the active match. */
  lemma SelectionSubmittedOnlyAt(users: seq<User>, ts: seq<Tournament>, currentUserId: string, activeMatchId: JsValue,
                                 now: string)
    ensures OnlyAt(ts, SelectionSubmitted(users, ts, currentUserId, activeMatchId, now).0,
                   ActiveLocation(users, ts, currentUserId, activeMatchId))
  {
    AfterLookupOnlyAt(users, ts, currentUserId, activeMatchId);
    var r := SelectionSubmitted(users, ts, currentUserId, activeMatchId, now).0;
    if LookupEntry(users, ts, currentUserId, activeMatchId).Some? && r != AfterLookup(users, ts, currentUserId, activeMatchId) {
      var e := LookupEntry(users, ts, currentUserId, activeMatchId).value;
      EntryEditOnlyAt(users, ts, currentUserId, activeMatchId, r[e.tournament].matches[e.matchIndex]);
    }
  }

  /** `handlePlayerMatchFlowChange` changes nothing but the active match. */
  lemma FlowChangedOnlyAt(users: seq<User>, ts: seq<Tournament>, currentUserId: string, activeMatchId: JsValue,
                          target: FlowTarget)
    ensures OnlyAt(ts, FlowChanged(users, ts, currentUserId, activeMatchId, target),
                   ActiveLocation(users, ts, currentUserId, activeMatchId))
  {
    AfterLookupOnlyAt(users, ts, currentUserId, activeMatchId);
    if !target.NoTarget? && LookupEntry(users, ts, currentUserId, activeMatchId).Some? {
      var e := LookupEntry(users, ts, currentUserId, activeMatchId).value;
      var r := FlowChanged(users, ts, currentUserId, activeMatchId, target);
      EntryEditOnlyAt(users, ts, currentUserId, activeMatchId, r[e.tournament].matches[e.matchIndex]);
    }
  }

  lemma BanWriteKeepsOverrides(ts: seq<Tournament>, t: nat, k: nat, a: string, overrides: set<string>,
                                form: map<string, string>)
    requires t < |ts| && k < |ts[t].matches|
    ensures BanWrite(ts, t, k, a, overrides, form).1 == overrides
  {
    if SubmitBans(ts[t].matches[k], a, form).Pass? {
      SubmitBansKeepsOverrides(ts[t].matches[k], a, form, overrides);
    }
  }

  /** With one ban per player, an accepted ban list is never short, so
      `handleBanSubmit` never records a warning override. */
  lemma BanSubmittedKeepsOverrides(users: seq<User>, ts: seq<Tournament>, currentUserId: string, activeMatchId: JsValue,
                                   overrides: set<string>, form: map<string, string>)
    ensures BanSubmitted(users, ts, currentUserId, activeMatchId, overrides, form).1 == overrides
  {
    if LookupEntry(users, ts, currentUserId, activeMatchId).Some? {
      var e := LookupEntry(users, ts, currentUserId, activeMatchId).value;
      BanWriteKeepsOverrides(AfterLookup(users, ts, currentUserId, activeMatchId), e.tournament, e.matchIndex,
                             ActiveUser(users, currentUserId).value.accountId, overrides, form);
    }
  }

  // ---------------------------------------------------------------------
  // The handlers' steps

  /** The nested loops shared by `findMatchEntry` and `findFirstMatchId`. */
  method FindFirst(ts: seq<Tournament>, p: Match -> bool) returns (r: Option<(nat, nat)>)
    ensures r == Search(ts, p)
  {
    var t := 0;
    while t < |ts|
      invariant 0 <= t <= |ts|
      invariant forall t', k :: 0 <= t' < t && 0 <= k < |ts[t'].matches| ==> !p(ts[t'].matches[k])
    {
      var matches := ts[t].matches;
      var k := 0;
      while k < |matches|
        invariant 0 <= k <= |matches|
        invariant forall k' :: 0 <= k' < k ==> !p(matches[k'])
      {
        if p(matches[k]) {
          r := Some((t, k));
          SearchedUnique(ts, p, r, Search(ts, p));
          return;
        }
        k := k + 1;
      }
      t := t + 1;
    }
    r := None;
    SearchedUnique(ts, p, r, Search(ts, p));
  }

  /** `findMatchEntry` */
  method FindMatchEntry(ts: seq<Tournament>, matchId: JsValue) returns (r: Option<(nat, nat)>)
    ensures r == Search(ts, MatchWithId(matchId))
    ensures r.Some? ==> SameValue(ts[r.value.0].matches[r.value.1].id, matchId)
  {
    r := FindFirst(ts, MatchWithId(matchId));
  }

  /** `findFirstMatchId` */
  method FindFirstMatchId(ts: seq<Tournament>, a: string) returns (id: JsValue)
    ensures id == FirstMatchId(ts, a)
  {
    var r := FindFirst(ts, MatchWithPlayer(a));
    if r.None? {
      return Null;
    }
    id := ts[r.value.0].matches[r.value.1].id;
  }

  /** `getActiveMatchEntry`: it repairs the match it finds in place even
      when the player check then fails. */
  method ActiveMatchEntry(users: seq<User>, ts: seq<Tournament>, currentUserId: string, activeMatchId: JsValue)
    returns (ts': seq<Tournament>, entry: Option<Entry>)
    ensures ts' == AfterLookup(users, ts, currentUserId, activeMatchId)
    ensures entry == LookupEntry(users, ts, currentUserId, activeMatchId)
  {
    ts' := ts;
    var user := ActiveUser(users, currentUserId);
    if user.None? || user.value.role != PlayerRole {
      return ts', None;
    }
    var matchId := activeMatchId;
    if !Truthy(matchId) {
      matchId := FindFirstMatchId(ts, user.value.accountId);
    }
    if !Truthy(matchId) {
      return ts', None;
    }
    var found := FindMatchEntry(ts, matchId);
    if found.None? {
      return ts', None;
    }
    var (t, k) := found.value;
    var refreshed := EnsurePhase(RepairSelections(ts[t].matches[k]));
    ts' := SetMatch(ts, t, k, refreshed);
    var i := PlayerIndex(refreshed.players, user.value.accountId);
    if i < 0 {
      return ts', None;
    }
    return ts', Some(Entry(t, k, i));
  }

  /** The body of `handleBanSubmit` after the lookup; `bans` is the
      collected list, which the warning key check needs. */
  method SubmitBansSteps(m: Match, a: string, form: map<string, string>) returns (r: Checked<Match>, bans: seq<string>)
    ensures r == SubmitBans(m, a, form)
    ensures r.Pass? ==> CollectBans(form, MaxBanPerPlayer) == Pass(bans)
  {
    var collected := CollectBanFields(form);
    if collected.Fail? {
      return Fail(collected.reason), [];
    }
    bans := collected.value;
    var problem := BanProblem(bans);
    if problem.Some? {
      return Fail(problem.value), bans;
    }
    var m1 := m.(bans := m.bans[a := Strs(bans)]);
    var cleaned := CleanupSelectionsAfterBan(m1);
    var m2 := RepairSelections(cleaned);
    if HaveAllBans(m2) {
      m2 := m2.(phase := if AreSelectionsLocked(m2) then Locked else Picking);
    }
    return Pass(m2), bans;
  }

  /** `handleBanSubmit` from the entry on: writes the accepted match back. */
  method SubmitBansAt(ts: seq<Tournament>, t: nat, k: nat, a: string, overrides: set<string>, form: map<string, string>)
    returns (ts': seq<Tournament>, overrides': set<string>)
    requires t < |ts| && k < |ts[t].matches|
    ensures (ts', overrides') == BanWrite(ts, t, k, a, overrides, form)
  {
    var m := ts[t].matches[k];
    var outcome, bans := SubmitBansSteps(m, a, form);
    if outcome.Fail? {
      return ts, overrides;
    }
    overrides' := BanWarning(overrides, m.id, a, bans);
    ts' := SetMatch(ts, t, k, outcome.value);
  }

  /** `handleBanSubmit` on the state it reads and writes. */
  method BanSubmit(users: seq<User>, ts: seq<Tournament>, currentUserId: string, activeMatchId: JsValue,
                   overrides: set<string>, form: map<string, string>) returns (ts': seq<Tournament>, overrides': set<string>)
    ensures (ts', overrides') == BanSubmitted(users, ts, currentUserId, activeMatchId, overrides, form)
  {
    var entry;
    ts', entry := ActiveMatchEntry(users, ts, currentUserId, activeMatchId);
    overrides' := overrides;
    if entry.None? {
      return;
    }
    var a := ActiveUser(users, currentUserId).value.accountId;
    ts', overrides' := SubmitBansAt(ts', entry.value.tournament, entry.value.matchIndex, a, overrides, form);
  }

  /** The body of `handleSelectionSubmit` after the lookup. */
  method SubmitSelectionSteps(m: Match, a: string, now: string) returns (r: Result<Checked<Match>>)
    ensures r == SubmitSelection(m, a, now)
  {
    if a !in m.selections {
      return Throws(TypeError);
    }
    var selection := m.selections[a];
    if !Truthy(selection.faction) {
      return Ok(Fail(NoFaction));
    }
    var picks := FilterTruthy(selection.battlegroups);
    if |picks| != MaxPickSelection {
      return Ok(Fail(WrongPickCount));
    }
    if HasDuplicate(picks) {
      return Ok(Fail(DuplicatePicks));
    }
    var problem := CheckPicks(picks, selection.faction, OpponentBans(m, a));
    if problem.Some? {
      return Ok(Fail(problem.value));
    }
    var m1 := m.(selections := m.selections[a := selection.(battlegroups := picks, confirmed := true,
                                                            confirmedAt := Str(now))]);
    if AreSelectionsLocked(m1) {
      m1 := m1.(phase := if HaveAllBans(m1) then Locked else Banning);
    }
    return Ok(Pass(m1));
  }

  /** `handleSelectionSubmit` on the state it reads and writes; `thrown`
      when the user has no selection object and reading its faction throws. */
  method SelectionSubmit(users: seq<User>, ts: seq<Tournament>, currentUserId: string, activeMatchId: JsValue,
                         now: string) returns (ts': seq<Tournament>, thrown: bool)
    ensures (ts', thrown) == SelectionSubmitted(users, ts, currentUserId, activeMatchId, now)
  {
    var entry;
    ts', entry := ActiveMatchEntry(users, ts, currentUserId, activeMatchId);
    thrown := false;
    if entry.None? {
      return;
    }
    var a := ActiveUser(users, currentUserId).value.accountId;
    var t, k := entry.value.tournament, entry.value.matchIndex;
    var outcome := SubmitSelectionSteps(ts'[t].matches[k], a, now);
    if outcome.Throws? {
      return ts', true;
    }
    if outcome.value.Pass? {
      ts' := SetMatch(ts', t, k, outcome.value.value);
    }
  }

  /** The body of `handlePlayerMatchFlowChange` after the lookup. */
  method FlowEditSteps(m: Match, a: string, target: FlowTarget) returns (r: Match)
    ensures r == FlowEdit(m, a, target)
  {
    r := m;
    if a !in m.selections {
      return;
    }
    var selection := m.selections[a];
    match target {
      case FactionSelect(value) =>
        var edited := Selection(Or(Str(value), Null), [], false, Null);
        r := RepairSelections(m.(selections := m.selections[a := edited]));
      case PickSelect(pickIndex, value) =>
        var slot := PickSlot(pickIndex);
        if slot.None? {
          return;
        }
        var edited := selection.(battlegroups := EditSlot(selection.battlegroups, slot.value, value),
                                 confirmed := false, confirmedAt := Null);
        r := RepairSelections(m.(selections := m.selections[a := edited]));
      case _ =>
    }
  }

  /** `handlePlayerMatchFlowChange` on the state it reads and writes. */
  method FlowChange(users: seq<User>, ts: seq<Tournament>, currentUserId: string, activeMatchId: JsValue,
                    target: FlowTarget) returns (ts': seq<Tournament>)
    ensures ts' == FlowChanged(users, ts, currentUserId, activeMatchId, target)
  {
    if target.NoTarget? {
      return ts;
    }
    var entry;
    ts', entry := ActiveMatchEntry(users, ts, currentUserId, activeMatchId);
    if entry.None? {
      return;
    }
    var a := ActiveUser(users, currentUserId).value.accountId;
    var t, k := entry.value.tournament, entry.value.matchIndex;
    var edited := FlowEditSteps(ts'[t].matches[k], a, target);
    ts' := SetMatch(ts', t, k, edited);
  }

  /** `handlePlayerReady` on the tournaments it writes. */
  method PlayerReady(ts: seq<Tournament>, matchId: JsValue, a: string, now: string, draw: nat) returns (ts': seq<Tournament>)
    ensures ts' == PlayerReadied(ts, matchId, a, now, draw)
  {
    ts' := ts;
    var found := FindMatchEntry(ts, matchId);
    if found.None? {
      return;
    }
    var (t, k) := found.value;
    var tournament := ts[t];
    var m := tournament.matches[k];
    var i := PlayerIndex(m.players, a);
    if i < 0 || m.players[i].ready {
      return;
    }
    m := m.(players := m.players[i := m.players[i].(ready := true, readyAt := Str(now))]);
    if m.phase == Waiting {
      m := m.(phase := ReadyCheck);
    }
    tournament := tournament.(matches := tournament.matches[k := m]);
    if AllReady(m) {
      tournament := BeginMapSelection(tournament, k, draw, now);
    }
    ts' := ts[t := tournament];
  }

  // ---------------------------------------------------------------------
  // The state

  class DraftClient {
    var users: seq<User>
    var tournaments: seq<Tournament>
    /** `state.currentUserId`; empty when nobody is signed in. */
    var currentUserId: string
    /** `state.ui.activeMatchId` */
    var activeMatchId: JsValue
    var banConfirmOverrides: set<string>

    constructor()
      ensures users == [] && tournaments == [] && currentUserId == ""
      ensures activeMatchId == Null && banConfirmOverrides == {}
    {
      users := [];
      tournaments := [];
      currentUserId := "";
      activeMatchId := Null;
      banConfirmOverrides := {};
    }

    /** `getActiveMatchEntry` */
    method GetActiveMatchEntry() returns (entry: Option<Entry>)
      modifies this
      ensures users == old(users) && currentUserId == old(currentUserId)
      ensures activeMatchId == old(activeMatchId) && banConfirmOverrides == old(banConfirmOverrides)
      ensures tournaments == AfterLookup(users, old(tournaments), currentUserId, activeMatchId)
      ensures entry == LookupEntry(users, old(tournaments), currentUserId, activeMatchId)
    {
      tournaments, entry := ActiveMatchEntry(users, tournaments, currentUserId, activeMatchId);
    }

    /** `handleBanSubmit` */
    method HandleBanSubmit(form: map<string, string>)
      modifies this
      ensures users == old(users) && currentUserId == old(currentUserId) && activeMatchId == old(activeMatchId)
      ensures (tournaments, banConfirmOverrides)
        == BanSubmitted(users, old(tournaments), currentUserId, activeMatchId, old(banConfirmOverrides), form)
    {
      tournaments, banConfirmOverrides := BanSubmit(users, tournaments, currentUserId, activeMatchId, banConfirmOverrides, form);
    }

    /** `handleSelectionSubmit` */
    method HandleSelectionSubmit(now: string) returns (thrown: bool)
      modifies this
      ensures users == old(users) && currentUserId == old(currentUserId) && activeMatchId == old(activeMatchId)
      ensures banConfirmOverrides == old(banConfirmOverrides)
      ensures (tournaments, thrown) == SelectionSubmitted(users, old(tournaments), currentUserId, activeMatchId, now)
    {
      tournaments, thrown := SelectionSubmit(users, tournaments, currentUserId, activeMatchId, now);
    }

    /** `handlePlayerMatchFlowChange` */
    method HandleFlowChange(target: FlowTarget)
      modifies this
      ensures users == old(users) && currentUserId == old(currentUserId) && activeMatchId == old(activeMatchId)
      ensures banConfirmOverrides == old(banConfirmOverrides)
      ensures tournaments == FlowChanged(users, old(tournaments), currentUserId, activeMatchId, target)
    {
      tournaments := FlowChange(users, tournaments, currentUserId, activeMatchId, target);
    }

    /** `handlePlayerReady` */
    method HandlePlayerReady(matchId: JsValue, a: string, now: string, draw: nat)
      modifies this
      ensures users == old(users) && currentUserId == old(currentUserId) && activeMatchId == old(activeMatchId)
      ensures banConfirmOverrides == old(banConfirmOverrides)
      ensures tournaments == PlayerReadied(old(tournaments), matchId, a, now, draw)
    {
      tournaments := PlayerReady(tournaments, matchId, a, now, draw);
    }

    /** The timer `beginMapSelection` starts: it sets `picking` on the match
        at that position. */
    method RevealMapTimer(t: nat, k: nat)
      modifies this
      ensures users == old(users) && currentUserId == old(currentUserId) && activeMatchId == old(activeMatchId)
      ensures banConfirmOverrides == old(banConfirmOverrides)
      ensures if t < |old(tournaments)| && k < |old(tournaments)[t].matches|
        then tournaments == SetMatch(old(tournaments), t, k, RevealMap(old(tournaments)[t].matches[k]))
        else tournaments == old(tournaments)
    {
      if t < |tournaments| && k < |tournaments[t].matches| {
        tournaments := SetMatch(tournaments, t, k, RevealMap(tournaments[t].matches[k]));
      }
    }

    /** `upsertUserList` */
    method UpsertUserList(user: JsValue)
      modifies this
      ensures tournaments == old(tournaments) && currentUserId == old(currentUserId)
      ensures activeMatchId == old(activeMatchId) && banConfirmOverrides == old(banConfirmOverrides)
      ensures !Truthy(user) || NormalizeUser(user).accountId == "" ==> users == old(users)
      ensures Truthy(user) && NormalizeUser(user).accountId != "" ==> users == Upserted(old(users), NormalizeUser(user))
    {
      if !Truthy(user) {
        return;
      }
      var normalized := NormalizeUser(user);
      if normalized.accountId == "" {
        return;
      }
      var index := FindUserIndex(users, normalized.accountId);
      if index >= 0 {
        users := users[index := normalized];
      } else {
        users := users + [normalized];
      }
    }
  }
}
