/** The broadcast board: which tournament and match it shows by default,
    how it keeps the viewer's choice across data refreshes, which realtime
    messages it applies, and the stand-alone match normaliser it falls back
    on. Dates reach the model already parsed: `dateOf(v)` is
    `new Date(v).getTime()`. */
module Broadcast {
  import opened Wrappers
  import opened Js
  import opened MatchModel
  import opened Normalize
  import opened Records
  import opened Catalog

  const MaxSafeInteger: int := 9007199254740991

  // ---------------------------------------------------------------------
  // The default choice

  /** `STATUS_PRIORITY[status] ?? 3` */
  function StatusPriority(status: string): nat {
    if status == "live" then 0
    else if status == "scheduled" then 1
    else if status == "completed" then 2
    else 3
  }

  /** `PHASE_PRIORITY[phase] ?? 99` */
  function PhasePriority(phase: string): nat {
    if phase == "picking" then 0
    else if phase == "banning" then 1
    else if phase == "map-selected" then 2
    else if phase == "ready-check" then 3
    else if phase == "waiting" then 4
    else if phase == "locked" then 5
    else 99
  }

  /** The comparator's two keys: a priority, then a time in which a missing
      value counts as `Number.MAX_SAFE_INTEGER`. */
  datatype SortKey = SortKey(priority: nat, time: int)

  /** The comparator returns a value `<= 0`. */
  predicate KeyLe(a: SortKey, b: SortKey) {
    a.priority < b.priority || (a.priority == b.priority && a.time <= b.time)
  }

  function TimeKey(v: JsValue, dateOf: JsValue -> int): int {
    if Truthy(v) then dateOf(v) else MaxSafeInteger
  }

  /** `[...xs].sort(compare)` with a stable sort (as ECMAScript requires):
      an element is inserted in front of the first one it does not sort after. */
  function SortByKey<T>(xs: seq<T>, key: T -> SortKey): (r: seq<T>)
    ensures |r| == |xs|
    ensures multiset(r) == multiset(xs)
  {
    if xs == [] then []
    else
      assert xs == [xs[0]] + xs[1..];
      Insert(xs[0], SortByKey(xs[1..], key), key)
  }

  function Insert<T>(x: T, s: seq<T>, key: T -> SortKey): (r: seq<T>)
    ensures |r| == |s| + 1
    ensures multiset(r) == multiset(s) + multiset{x}
  {
    if s == [] || KeyLe(key(x), key(s[0])) then [x] + s
    else
      assert s == [s[0]] + s[1..];
      [s[0]] + Insert(x, s[1..], key)
  }

  /** The index of the first element whose key is minimal. */
  function FirstMin<T>(xs: seq<T>, key: T -> SortKey): (i: nat)
    requires |xs| > 0
    ensures i < |xs|
  {
    if |xs| == 1 then 0
    else
      var r := FirstMin(xs[1..], key) + 1;
      if KeyLe(key(xs[0]), key(xs[r])) then 0 else r
  }

  /** The first minimal element has a key no larger than any other and
      strictly smaller than every element before it. */
  lemma {:induction false} FirstMinIsFirstMinimal<T>(xs: seq<T>, key: T -> SortKey)
    requires |xs| > 0
    ensures forall j :: 0 <= j < |xs| ==> KeyLe(key(xs[FirstMin(xs, key)]), key(xs[j]))
    ensures forall j :: 0 <= j < FirstMin(xs, key) ==> !KeyLe(key(xs[j]), key(xs[FirstMin(xs, key)]))
  {
    if |xs| > 1 {
      var tail := xs[1..];
      FirstMinIsFirstMinimal(tail, key);
      var r := FirstMin(tail, key) + 1;
      assert xs[r] == tail[r - 1];
      forall j | 1 <= j < |xs|
        ensures KeyLe(key(xs[r]), key(xs[j]))
      {
        assert xs[j] == tail[j - 1];
      }
      if !KeyLe(key(xs[0]), key(xs[r])) {
        forall j | 1 <= j < r
          ensures !KeyLe(key(xs[j]), key(xs[r]))
        {
          assert xs[j] == tail[j - 1];
        }
      }
    }
  }

  /** What the stable sort puts first is the first minimal element. */
  lemma {:induction false} SortHeadIsFirstMin<T>(xs: seq<T>, key: T -> SortKey)
    requires |xs| > 0
    ensures SortByKey(xs, key)[0] == xs[FirstMin(xs, key)]
  {
    if |xs| > 1 {
      var tail := xs[1..];
      SortHeadIsFirstMin(tail, key);
      assert xs[FirstMin(tail, key) + 1] == tail[FirstMin(tail, key)];
    }
  }

  /** The element `[...xs].sort(compare)[0]` yields, if any. */
  function SortedFirst<T>(xs: seq<T>, key: T -> SortKey): (r: Option<T>)
    ensures r.None? <==> |xs| == 0
  {
    if |xs| == 0 then None else Some(SortByKey(xs, key)[0])
  }

  /** The sorted copy's head is an element of the list whose key is minimal
      and which comes before every other element with the same key. */
  lemma SortedFirstProperties<T>(xs: seq<T>, key: T -> SortKey)
    requires |xs| > 0
    ensures exists i ::
              && 0 <= i < |xs| && SortedFirst(xs, key) == Some(xs[i])
              && (forall j :: 0 <= j < |xs| ==> KeyLe(key(xs[i]), key(xs[j])))
              && (forall j :: 0 <= j < i ==> !KeyLe(key(xs[j]), key(xs[i])))
  {
    SortHeadIsFirstMin(xs, key);
    FirstMinIsFirstMinimal(xs, key);
    var i := FirstMin(xs, key);
    assert SortedFirst(xs, key) == Some(xs[i]);
  }

  function TournamentKey(dateOf: JsValue -> int): Tournament -> SortKey {
    (t: Tournament) => SortKey(StatusPriority(StatusName(t.status)), TimeKey(t.startTime, dateOf))
  }

  function MatchKey(dateOf: JsValue -> int): Match -> SortKey {
    (m: Match) => SortKey(PhasePriority(PhaseName(m.phase)), TimeKey(m.scheduled, dateOf))
  }

  /** `pickDefaultTournament(tournaments)`; the list it gets is always an array. */
  function PickDefaultTournament(ts: seq<Tournament>, dateOf: JsValue -> int): Option<Tournament> {
    SortedFirst(ts, TournamentKey(dateOf))
  }

  /** `pickDefaultMatch(tournament)` */
  function PickDefaultMatch(t: Tournament, dateOf: JsValue -> int): Option<Match> {
    SortedFirst(t.matches, MatchKey(dateOf))
  }

  /** The default tournament: none exactly for an empty list; otherwise one of
      the list with the smallest status priority, among those the earliest
      start, and the first such in list order. */
  lemma PickDefaultTournamentProperties(ts: seq<Tournament>, dateOf: JsValue -> int)
    ensures PickDefaultTournament(ts, dateOf).None? <==> ts == []
    ensures ts != [] ==>
      exists i ::
        && 0 <= i < |ts| && PickDefaultTournament(ts, dateOf) == Some(ts[i])
        && (forall j :: 0 <= j < |ts| ==> KeyLe(TournamentKey(dateOf)(ts[i]), TournamentKey(dateOf)(ts[j])))
        && (forall j :: 0 <= j < i ==> !KeyLe(TournamentKey(dateOf)(ts[j]), TournamentKey(dateOf)(ts[i])))
  {
    if ts != [] {
      SortedFirstProperties(ts, TournamentKey(dateOf));
    }
  }

  /** A live tournament always wins when there is one. */
  lemma LiveTournamentWins(ts: seq<Tournament>, dateOf: JsValue -> int)
    requires exists j :: 0 <= j < |ts| && ts[j].status == Live
    ensures PickDefaultTournament(ts, dateOf).Some? && PickDefaultTournament(ts, dateOf).value.status == Live
  {
    var j :| 0 <= j < |ts| && ts[j].status == Live;
    TopPriorityWins(ts, TournamentKey(dateOf), j);
    OnlyLiveFirst(PickDefaultTournament(ts, dateOf).value.status);
  }

  lemma OnlyLiveFirst(s: TournamentStatus)
    ensures StatusPriority(StatusName(s)) == 0 ==> s == Live
  {
  }

  /** When some element has priority 0, so does the sorted copy's head. */
  lemma TopPriorityWins<T>(xs: seq<T>, key: T -> SortKey, j: nat)
    requires j < |xs| && key(xs[j]).priority == 0
    ensures SortedFirst(xs, key).Some? && key(SortedFirst(xs, key).value).priority == 0
  {
    SortHeadIsFirstMin(xs, key);
    FirstMinIsFirstMinimal(xs, key);
    assert KeyLe(key(xs[FirstMin(xs, key)]), key(xs[j]));
  }

  /** The default match: none exactly for a tournament without matches;
      otherwise one with the smallest phase priority, among those the
      earliest scheduled, first in list order. */
  lemma PickDefaultMatchProperties(t: Tournament, dateOf: JsValue -> int)
    ensures PickDefaultMatch(t, dateOf).None? <==> t.matches == []
    ensures t.matches != [] ==>
      exists i ::
        && 0 <= i < |t.matches| && PickDefaultMatch(t, dateOf) == Some(t.matches[i])
        && (forall j :: 0 <= j < |t.matches| ==> KeyLe(MatchKey(dateOf)(t.matches[i]), MatchKey(dateOf)(t.matches[j])))
        && (forall j :: 0 <= j < i ==> !KeyLe(MatchKey(dateOf)(t.matches[j]), MatchKey(dateOf)(t.matches[i])))
  {
    if t.matches != [] {
      SortedFirstProperties(t.matches, MatchKey(dateOf));
    }
  }

  /** A match in `picking` always wins when there is one. */
  lemma PickingMatchWins(t: Tournament, dateOf: JsValue -> int)
    requires exists j :: 0 <= j < |t.matches| && t.matches[j].phase == Picking
    ensures PickDefaultMatch(t, dateOf).Some? && PickDefaultMatch(t, dateOf).value.phase == Picking
  {
    var j :| 0 <= j < |t.matches| && t.matches[j].phase == Picking;
    TopPriorityWins(t.matches, MatchKey(dateOf), j);
    OnlyPickingFirst(PickDefaultMatch(t, dateOf).value.phase);
  }

  lemma OnlyPickingFirst(p: Phase)
    ensures PhasePriority(PhaseName(p)) == 0 ==> p == Picking
  {
  }

  /** A missing start time sorts last: if a tournament of the chosen status
      priority has a start time before `MAX_SAFE_INTEGER`, the chosen one
      has a start time too. */
  lemma MissingStartTimeLast(ts: seq<Tournament>, dateOf: JsValue -> int)
    requires ts != []
    ensures var c := PickDefaultTournament(ts, dateOf).value;
      (exists j :: 0 <= j < |ts| && ts[j].status == c.status && Truthy(ts[j].startTime)
                   && dateOf(ts[j].startTime) < MaxSafeInteger)
      ==> Truthy(c.startTime)
  {
    PickDefaultTournamentProperties(ts, dateOf);
  }

  // ---------------------------------------------------------------------
  // Keeping the viewer's choice

  /** `xs.find((x) => x.id === id)` over tournaments. */
  function FindTournament(ts: seq<Tournament>, id: JsValue): (r: Option<Tournament>)
    ensures r.Some? ==> r.value in ts && SameValue(r.value.id, id)
    ensures r.None? <==> forall i :: 0 <= i < |ts| ==> !SameValue(ts[i].id, id)
  {
    if ts == [] then None
    else if SameValue(ts[0].id, id) then Some(ts[0])
    else FindTournament(ts[1..], id)
  }

  /** `tournament.matches.find((m) => m.id === id)` */
  function FindMatch(ms: seq<Match>, id: JsValue): (r: Option<Match>)
    ensures r.Some? ==> r.value in ms && SameValue(r.value.id, id)
    ensures r.None? <==> forall i :: 0 <= i < |ms| ==> !SameValue(ms[i].id, id)
  {
    if ms == [] then None
    else if SameValue(ms[0].id, id) then Some(ms[0])
    else FindMatch(ms[1..], id)
  }

  /** The tournament and match `ensureSelection` settles on. */
  function ChosenTournament(ts: seq<Tournament>, tournamentId: JsValue, dateOf: JsValue -> int): Option<Tournament> {
    var found := FindTournament(ts, tournamentId);
    if found.Some? then found else PickDefaultTournament(ts, dateOf)
  }

  function ChosenMatch(t: Tournament, matchId: JsValue, dateOf: JsValue -> int): Option<Match> {
    var found := FindMatch(t.matches, matchId);
    if found.Some? then found else PickDefaultMatch(t, dateOf)
  }

  /** The selected ids `ensureSelection` stores. */
  function ChosenIds(ts: seq<Tournament>, tournamentId: JsValue, matchId: JsValue, dateOf: JsValue -> int): (JsValue, JsValue) {
    match ChosenTournament(ts, tournamentId, dateOf)
    case None => (Null, Null)
    case Some(t) =>
      (t.id, match ChosenMatch(t, matchId, dateOf) case None => Null case Some(m) => m.id)
  }

  /** The tournament survives a refresh while its id is still present and
      the default replaces it once it is gone; with no tournament both ids
      are `null`. */
  lemma KeptTournamentId(ts: seq<Tournament>, tournamentId: JsValue, matchId: JsValue, dateOf: JsValue -> int)
    ensures ts == [] ==> ChosenIds(ts, tournamentId, matchId, dateOf) == (Null, Null)
    ensures (exists i :: 0 <= i < |ts| && SameValue(ts[i].id, tournamentId)) ==>
      ChosenIds(ts, tournamentId, matchId, dateOf).0 == tournamentId
    ensures (forall i :: 0 <= i < |ts| ==> !SameValue(ts[i].id, tournamentId)) && ts != [] ==>
      ChosenIds(ts, tournamentId, matchId, dateOf).0 == PickDefaultTournament(ts, dateOf).value.id
  {
    PickDefaultTournamentProperties(ts, dateOf);
  }

  /** Within the chosen tournament the match survives while its id is still
      present and the tournament's default replaces it once it is gone. */
  lemma KeptMatchId(ts: seq<Tournament>, tournamentId: JsValue, matchId: JsValue, dateOf: JsValue -> int)
    ensures var t := ChosenTournament(ts, tournamentId, dateOf);
      t.Some? && (exists k :: 0 <= k < |t.value.matches| && SameValue(t.value.matches[k].id, matchId)) ==>
      ChosenIds(ts, tournamentId, matchId, dateOf).1 == matchId
    ensures var t := ChosenTournament(ts, tournamentId, dateOf);
      t.Some? && (forall k :: 0 <= k < |t.value.matches| ==> !SameValue(t.value.matches[k].id, matchId)) ==>
      ChosenIds(ts, tournamentId, matchId, dateOf).1 == match PickDefaultMatch(t.value, dateOf) case None => Null case Some(m) => m.id
  {
    ChosenTournamentIn(ts, tournamentId, dateOf);
  }

  /** What `ensureSelection` settles on comes from the list. */
  lemma ChosenTournamentIn(ts: seq<Tournament>, tournamentId: JsValue, dateOf: JsValue -> int)
    ensures ChosenTournament(ts, tournamentId, dateOf).None? <==> ts == []
    ensures ChosenTournament(ts, tournamentId, dateOf).Some? ==>
      exists i :: 0 <= i < |ts| && ChosenTournament(ts, tournamentId, dateOf) == Some(ts[i])
  {
    PickDefaultTournamentProperties(ts, dateOf);
    var found := FindTournament(ts, tournamentId);
    if found.Some? {
      var i :| 0 <= i < |ts| && ts[i] == found.value;
    }
  }

  lemma ChosenMatchIn(t: Tournament, matchId: JsValue, dateOf: JsValue -> int)
    ensures ChosenMatch(t, matchId, dateOf).None? <==> t.matches == []
    ensures ChosenMatch(t, matchId, dateOf).Some? ==> ChosenMatch(t, matchId, dateOf).value in t.matches
  {
    PickDefaultMatchProperties(t, dateOf);
  }

  /** With distinct plain ids, looking a tournament up by its own id finds it. */
  lemma {:induction false} FindOwnTournament(ts: seq<Tournament>, i: nat)
    requires i < |ts| && !IsObjectLike(ts[i].id)
    requires forall j, k :: 0 <= j < k < |ts| ==> ts[j].id != ts[k].id
    ensures FindTournament(ts, ts[i].id) == Some(ts[i])
  {
    if i > 0 {
      assert ts[0].id != ts[i].id;
      FindOwnTournament(ts[1..], i - 1);
    }
  }

  /** A second `ensureSelection` over the same list keeps the tournament id
      the first one stored, when ids are plain values. */
  lemma ChosenTournamentIdStable(ts: seq<Tournament>, tournamentId: JsValue, matchId: JsValue, dateOf: JsValue -> int)
    requires forall i :: 0 <= i < |ts| ==> !IsObjectLike(ts[i].id)
    ensures var ids := ChosenIds(ts, tournamentId, matchId, dateOf);
      ChosenIds(ts, ids.0, ids.1, dateOf).0 == ids.0
  {
    ChosenTournamentIn(ts, tournamentId, dateOf);
    var t := ChosenTournament(ts, tournamentId, dateOf);
    if t.Some? {
      var i :| 0 <= i < |ts| && t == Some(ts[i]);
      assert FindTournament(ts, ts[i].id).Some?;
    }
  }

  /** It keeps the match id too once tournament ids are also distinct: with
      a duplicated id the second lookup may land on an earlier namesake. */
  lemma ChosenIdsStable(ts: seq<Tournament>, tournamentId: JsValue, matchId: JsValue, dateOf: JsValue -> int)
    requires forall i :: 0 <= i < |ts| ==> !IsObjectLike(ts[i].id)
    requires forall j, k :: 0 <= j < k < |ts| ==> ts[j].id != ts[k].id
    requires forall i, k :: 0 <= i < |ts| && 0 <= k < |ts[i].matches| ==> !IsObjectLike(ts[i].matches[k].id)
    ensures var ids := ChosenIds(ts, tournamentId, matchId, dateOf);
      ChosenIds(ts, ids.0, ids.1, dateOf) == ids
  {
    ChosenTournamentIn(ts, tournamentId, dateOf);
    var t := ChosenTournament(ts, tournamentId, dateOf);
    if t.Some? {
      var i :| 0 <= i < |ts| && t == Some(ts[i]);
      FindOwnTournament(ts, i);
      assert ChosenTournament(ts, ts[i].id, dateOf) == t;
      ChosenMatchIdStable(ts[i], matchId, dateOf);
    }
  }

  /** Within one tournament with plain match ids, choosing again by the id
      chosen keeps it, and no match stays no match. */
  lemma ChosenMatchIdStable(t: Tournament, matchId: JsValue, dateOf: JsValue -> int)
    requires forall k :: 0 <= k < |t.matches| ==> !IsObjectLike(t.matches[k].id)
    ensures var m := ChosenMatch(t, matchId, dateOf);
      m.Some? ==> ChosenMatch(t, m.value.id, dateOf).Some? && ChosenMatch(t, m.value.id, dateOf).value.id == m.value.id
    ensures ChosenMatch(t, matchId, dateOf).None? ==> ChosenMatch(t, Null, dateOf).None?
  {
    ChosenMatchIn(t, matchId, dateOf);
    var m := ChosenMatch(t, matchId, dateOf);
    if m.Some? {
      var k :| 0 <= k < |t.matches| && t.matches[k] == m.value;
      assert SameValue(t.matches[k].id, m.value.id);
      ChosenMatchIn(t, m.value.id, dateOf);
    } else {
      ChosenMatchIn(t, Null, dateOf);
    }
  }
  // ---------------------------------------------------------------------
  // Incoming data

  /** `normalizeTournamentList(list)` with the shared `normalizeTournament`:
      a non-array counts as empty; tournament `i` draws id suffix `stamp(i)`
      and its match `k` suffix `matchStamps(i, k)`. */
  function NormalizeTournamentList(list: JsValue, stamp: nat -> string, matchStamps: (nat, nat) -> string)
    : (r: Result<seq<Tournament>>)
    ensures r.Ok? && !list.Arr? ==> r.value == []
    ensures r.Ok? && list.Arr? ==> |r.value| == |list.items|
  {
    if !list.Arr? then Ok([]) else NormalizeEach(list.items, 0, stamp, matchStamps)
  }

  /** The match suffixes of tournament `i`. */
  function StampsOf(matchStamps: (nat, nat) -> string, i: nat): nat -> string {
    (k: nat) => matchStamps(i, k)
  }

  function NormalizeEach(items: seq<JsValue>, offset: nat, stamp: nat -> string, matchStamps: (nat, nat) -> string)
    : (r: Result<seq<Tournament>>)
    ensures r.Ok? ==> |r.value| == |items|
    ensures r.Ok? ==> forall i :: 0 <= i < |items| ==>
      NormalizeTournament(items[i], stamp(offset + i), StampsOf(matchStamps, offset + i)) == Ok(r.value[i])
  {
    MapOrThrow(items, offset, (v: JsValue, i: nat) => NormalizeTournament(v, stamp(i), StampsOf(matchStamps, i)))
  }

  /** `items.map((x, i) => f(x, offset + i))` where the first throw ends the
      whole call. */
  function MapOrThrow<T>(items: seq<JsValue>, offset: nat, f: (JsValue, nat) -> Result<T>): (r: Result<seq<T>>)
    ensures r.Ok? ==> |r.value| == |items|
    ensures r.Ok? ==> forall i :: 0 <= i < |items| ==> f(items[i], offset + i) == Ok(r.value[i])
    ensures r.Throws? ==> exists i :: 0 <= i < |items| && f(items[i], offset + i).Throws?
  {
    if items == [] then Ok([])
    else
      match f(items[0], offset)
      case Throws(e) => Throws(e)
      case Ok(t) =>
        match MapOrThrow(items[1..], offset + 1, f)
        case Throws(e) =>
          var k :| 0 <= k < |items| - 1 && f(items[1..][k], offset + 1 + k).Throws?;
          assert items[1..][k] == items[k + 1];
          Throws(e)
        case Ok(rest) =>
          assert forall i :: 1 <= i < |items| ==> items[1..][i - 1] == items[i];
          Ok([t] + rest)
  }

  /** What `handleRealtime` does with a message: nothing for an empty,
      unparsable or non-object payload or for any `type` but
      `'tournaments'`; otherwise it applies `payload.data`. `parse` stands
      for `JSON.parse`, `None` for a throw. */
  function RealtimeData(raw: string, parse: string -> Option<JsValue>): (r: Option<JsValue>)
    ensures r.Some? ==>
      && raw != "" && parse(raw).Some? && IsObjectLike(parse(raw).value)
      && Get(parse(raw).value, "type") == Str("tournaments") && r.value == Get(parse(raw).value, "data")
    ensures raw != "" && parse(raw).Some? && Get(parse(raw).value, "type") == Str("tournaments") ==> r.Some?
  {
    if raw == "" then None
    else
      match parse(raw)
      case None => None
      case Some(payload) =>
        if !Truthy(payload) || !IsObjectLike(payload) then None
        else if Get(payload, "type") == Str("tournaments") then Some(Get(payload, "data"))
        else None
  }

  /** The ready row's pick count: the truthy picks of a confirmed selection,
      0 otherwise. */
  function ReadyCount(m: Match, a: string): (n: nat)
    ensures a !in m.selections || !m.selections[a].confirmed ==> n == 0
    ensures n <= if a in m.selections then |m.selections[a].battlegroups| else 0
  {
    if a in m.selections && m.selections[a].confirmed then |FilterTruthy(m.selections[a].battlegroups)| else 0
  }

  /** On a normalised selection the row shows three picks once confirmed
      and none before. */
  lemma ReadyCountRepaired(m: Match, a: string)
    requires a in m.selections && Repaired(m.selections[a])
    ensures ReadyCount(m, a) == if m.selections[a].confirmed then MaxPickSelection else 0
  {
  }

  // ---------------------------------------------------------------------
  // The page state

  class BroadcastView {
    var tournaments: seq<Tournament>
    var selectedTournamentId: JsValue
    var selectedMatchId: JsValue
    /** `Date.now()` of the last applied data; `None` for the initial `null`. */
    var lastUpdated: Option<int>

    constructor()
      ensures tournaments == [] && selectedTournamentId == Null && selectedMatchId == Null && lastUpdated == None
    {
      tournaments := [];
      selectedTournamentId := Null;
      selectedMatchId := Null;
      lastUpdated := None;
    }

    /** `ensureSelection()` */
    method EnsureSelection(dateOf: JsValue -> int) returns (tournament: Option<Tournament>, match_: Option<Match>)
      modifies this
      ensures tournaments == old(tournaments) && lastUpdated == old(lastUpdated)
      ensures tournament == ChosenTournament(tournaments, old(selectedTournamentId), dateOf)
      ensures match_ == if tournament.None? then None else ChosenMatch(tournament.value, old(selectedMatchId), dateOf)
      ensures (selectedTournamentId, selectedMatchId) == ChosenIds(tournaments, old(selectedTournamentId), old(selectedMatchId), dateOf)
    {
      tournament := FindTournament(tournaments, selectedTournamentId);
      if tournament.None? {
        tournament := PickDefaultTournament(tournaments, dateOf);
      }
      if tournament.None? {
        selectedTournamentId := Null;
        selectedMatchId := Null;
        return tournament, None;
      }
      match_ := FindMatch(tournament.value.matches, selectedMatchId);
      if match_.None? {
        match_ := PickDefaultMatch(tournament.value, dateOf);
      }
      selectedTournamentId := tournament.value.id;
      selectedMatchId := if match_.Some? then match_.value.id else Null;
    }

    /** `applyTournamentData(next)`; `thrown` when normalising a tournament
        throws, which leaves the state as it was. */
    method ApplyTournamentData(next: JsValue, now: int, dateOf: JsValue -> int, stamp: nat -> string,
                               matchStamps: (nat, nat) -> string) returns (thrown: bool)
      modifies this
      ensures var r := NormalizeTournamentList(next, stamp, matchStamps);
        if r.Throws? then
          thrown && tournaments == old(tournaments) && lastUpdated == old(lastUpdated)
          && selectedTournamentId == old(selectedTournamentId) && selectedMatchId == old(selectedMatchId)
        else
          !thrown && tournaments == r.value && lastUpdated == Some(now)
          && (selectedTournamentId, selectedMatchId) == ChosenIds(r.value, old(selectedTournamentId), old(selectedMatchId), dateOf)
    {
      var normalized := NormalizeTournamentList(next, stamp, matchStamps);
      if normalized.Throws? {
        return true;
      }
      tournaments := normalized.value;
      var _, _ := EnsureSelection(dateOf);
      lastUpdated := Some(now);
      thrown := false;
    }

    /** `handleRealtime(raw)`: applies the data of a `tournaments` message and
        renders, which runs `ensureSelection` once more. */
    method HandleRealtime(raw: string, parse: string -> Option<JsValue>, now: int, dateOf: JsValue -> int,
                          stamp: nat -> string, matchStamps: (nat, nat) -> string) returns (thrown: bool)
      modifies this
      ensures RealtimeData(raw, parse).None? ==>
        !thrown && tournaments == old(tournaments) && lastUpdated == old(lastUpdated)
        && selectedTournamentId == old(selectedTournamentId) && selectedMatchId == old(selectedMatchId)
      ensures RealtimeData(raw, parse).Some? ==>
        var r := NormalizeTournamentList(RealtimeData(raw, parse).value, stamp, matchStamps);
        if r.Throws? then thrown && tournaments == old(tournaments)
          && selectedTournamentId == old(selectedTournamentId) && selectedMatchId == old(selectedMatchId)
        else
          var ids := ChosenIds(r.value, old(selectedTournamentId), old(selectedMatchId), dateOf);
          !thrown && tournaments == r.value && lastUpdated == Some(now)
          && (selectedTournamentId, selectedMatchId) == ChosenIds(r.value, ids.0, ids.1, dateOf)
    {
      var data := RealtimeData(raw, parse);
      if data.None? {
        return false;
      }
      thrown := ApplyTournamentData(data.value, now, dateOf, stamp, matchStamps);
      if !thrown {
        var _, _ := EnsureSelection(dateOf);
      }
    }

    /** `handleTournamentChange(event)`: stores the chosen id (`null` for the
        empty option), forgets the match and renders. */
    method HandleTournamentChange(value: string, dateOf: JsValue -> int)
      modifies this
      ensures tournaments == old(tournaments) && lastUpdated == old(lastUpdated)
      ensures (selectedTournamentId, selectedMatchId)
        == ChosenIds(tournaments, if value == "" then Null else Str(value), Null, dateOf)
    {
      selectedTournamentId := if value == "" then Null else Str(value);
      selectedMatchId := Null;
      var _, _ := EnsureSelection(dateOf);
    }

    /** `handleMatchChange(event)` */
    method HandleMatchChange(value: string, dateOf: JsValue -> int)
      modifies this
      ensures tournaments == old(tournaments) && lastUpdated == old(lastUpdated)
      ensures (selectedTournamentId, selectedMatchId)
        == ChosenIds(tournaments, old(selectedTournamentId), if value == "" then Null else Str(value), dateOf)
    {
      selectedMatchId := if value == "" then Null else Str(value);
      var _, _ := EnsureSelection(dateOf);
    }
  }

  /** After a tournament change the match shown is the new tournament's
      default, since no match id is `null`. */
  lemma TournamentChangeShowsDefaultMatch(ts: seq<Tournament>, tournamentId: JsValue, dateOf: JsValue -> int)
    requires forall i, k :: 0 <= i < |ts| && 0 <= k < |ts[i].matches| ==> ts[i].matches[k].id != Null
    ensures var t := ChosenTournament(ts, tournamentId, dateOf);
      t.Some? ==>
        ChosenIds(ts, tournamentId, Null, dateOf).1 == match PickDefaultMatch(t.value, dateOf) case None => Null case Some(m) => m.id
  {
    var t := ChosenTournament(ts, tournamentId, dateOf);
    if t.Some? {
      PickDefaultTournamentProperties(ts, dateOf);
      var i :| 0 <= i < |ts| && ts[i] == t.value;
      assert FindMatch(t.value.matches, Null).None?;
    }
  }

  // ---------------------------------------------------------------------
  // The stand-alone match normaliser

  /** A match as `normalizeMatchFallback` returns it: the phase stays the raw
      value, and selections and bans stay raw JSON per account. */
  datatype LooseMatch = LooseMatch(
    id: JsValue,
    round: JsValue,
    scheduled: JsValue,
    players: seq<Player>,
    mapName: JsValue,
    mapDecidedAt: JsValue,
    phase: JsValue,
    selections: map<string, JsValue>,
    bans: map<string, JsValue>)

  /** The default selection object the fallback stores. */
  function DefaultSelectionObj(): JsValue {
    Obj(map["faction" := Null, "battlegroups" := Arr([]), "confirmed" := Bool(false), "confirmedAt" := Null])
  }

  /** `match.players.map(...)`: reading `p.accountId` throws on a null entry. */
  function FallbackPlayers(v: JsValue): (r: Result<seq<Player>>)
    ensures r.Throws? <==> v.Arr? && exists i :: 0 <= i < |v.items| && IsNullish(v.items[i])
    ensures r.Ok? ==> |r.value| == if v.Arr? then |v.items| else 0
  {
    if !v.Arr? then Ok([])
    else if exists i :: 0 <= i < |v.items| && IsNullish(v.items[i]) then Throws(TypeError)
    else Ok(seq(|v.items|, i requires 0 <= i < |v.items| =>
      var p := v.items[i];
      Player(ToStr(Get(p, "accountId")), Or(Get(p, "displayName"), Get(p, "accountId")),
             Truthy(Get(p, "ready")), Or(Get(p, "readyAt"), Null))))
  }

  /** The copied selections or bans: `{ ...v }` for a truthy object, else `{}`. */
  function CopiedEntries(v: JsValue): map<string, JsValue> {
    if Truthy(v) && IsObjectLike(v) then Spread(v) else map[]
  }

  /** One `players.forEach` step for account `a`. A selection that is a
      truthy primitive silently keeps no `battlegroups` property. */
  function FillFor(sel: map<string, JsValue>, bans: map<string, JsValue>, a: string)
    : (r: (map<string, JsValue>, map<string, JsValue>))
  {
    var bans' := if a in bans && bans[a].Arr? then bans else bans[a := Arr([])];
    var sel1 := if a in sel && Truthy(sel[a]) then sel else sel[a := DefaultSelectionObj()];
    var s := sel1[a];
    var sel' := if Get(s, "battlegroups").Arr? || !s.Obj? then sel1
                else sel1[a := Obj(s.fields["battlegroups" := Arr([])])];
    (sel', bans')
  }

  /** The forEach over the first `n` players. */
  function FillUpTo(ps: seq<Player>, sel: map<string, JsValue>, bans: map<string, JsValue>, n: nat)
    : (map<string, JsValue>, map<string, JsValue>)
    requires n <= |ps|
  {
    if n == 0 then (sel, bans)
    else
      var r := FillUpTo(ps, sel, bans, n - 1);
      FillFor(r.0, r.1, ps[n - 1].accountId)
  }

  /** An account `FillFor` left in order: a ban array, and a truthy selection
      whose `battlegroups` is an array when it is an object. */
  predicate Filled(sel: map<string, JsValue>, bans: map<string, JsValue>, a: string) {
    && a in bans && bans[a].Arr?
    && a in sel && Truthy(sel[a])
    && (sel[a].Obj? ==> Get(sel[a], "battlegroups").Arr?)
  }

  lemma FillForProperties(sel: map<string, JsValue>, bans: map<string, JsValue>, a: string)
    ensures Filled(FillFor(sel, bans, a).0, FillFor(sel, bans, a).1, a)
    ensures forall b :: b != a && Filled(sel, bans, b) ==> Filled(FillFor(sel, bans, a).0, FillFor(sel, bans, a).1, b)
    ensures forall b :: b in sel && b != a ==> FillFor(sel, bans, a).0[b] == sel[b]
    ensures forall b :: b in bans && b != a ==> FillFor(sel, bans, a).1[b] == bans[b]
    ensures a in bans && bans[a].Arr? ==> FillFor(sel, bans, a).1[a] == bans[a]
  {
  }

  /** A step adds the player's key to both maps and no other. */
  lemma FillForKeys(sel: map<string, JsValue>, bans: map<string, JsValue>, a: string)
    ensures FillFor(sel, bans, a).0.Keys == sel.Keys + {a} && FillFor(sel, bans, a).1.Keys == bans.Keys + {a}
  {
  }

  /** After the loop every player is filled in. */
  lemma {:induction false} FillUpToFilled(ps: seq<Player>, sel: map<string, JsValue>, bans: map<string, JsValue>, n: nat)
    requires n <= |ps|
    ensures forall i :: 0 <= i < n ==> Filled(FillUpTo(ps, sel, bans, n).0, FillUpTo(ps, sel, bans, n).1, ps[i].accountId)
  {
    if n > 0 {
      FillUpToFilled(ps, sel, bans, n - 1);
      var r := FillUpTo(ps, sel, bans, n - 1);
      FillForProperties(r.0, r.1, ps[n - 1].accountId);
    }
  }

  /** Selections of accounts that are not players stay as they were. */
  lemma {:induction false} FillUpToOthers(ps: seq<Player>, sel: map<string, JsValue>, bans: map<string, JsValue>, n: nat)
    requires n <= |ps|
    ensures forall b :: b in sel && (forall i :: 0 <= i < n ==> ps[i].accountId != b) ==>
      b in FillUpTo(ps, sel, bans, n).0 && FillUpTo(ps, sel, bans, n).0[b] == sel[b]
  {
    if n > 0 {
      FillUpToOthers(ps, sel, bans, n - 1);
      var r := FillUpTo(ps, sel, bans, n - 1);
      FillForProperties(r.0, r.1, ps[n - 1].accountId);
    }
  }

  /** No selection key but a player's is added. */
  lemma {:induction false} FillUpToKeys(ps: seq<Player>, sel: map<string, JsValue>, bans: map<string, JsValue>, n: nat)
    requires n <= |ps|
    ensures FillUpTo(ps, sel, bans, n).0.Keys == sel.Keys + (set i | 0 <= i < n :: ps[i].accountId)
  {
    if n > 0 {
      var before := set i | 0 <= i < n - 1 :: ps[i].accountId;
      assert (set i | 0 <= i < n :: ps[i].accountId) == before + {ps[n - 1].accountId};
      FillUpToKeys(ps, sel, bans, n - 1);
      var r := FillUpTo(ps, sel, bans, n - 1);
      assert r.0.Keys == sel.Keys + before;
      FillForKeys(r.0, r.1, ps[n - 1].accountId);
    }
  }

  /** Ban arrays already present are kept. */
  lemma {:induction false} FillUpToKeepsBans(ps: seq<Player>, sel: map<string, JsValue>, bans: map<string, JsValue>, n: nat)
    requires n <= |ps|
    ensures forall b :: b in bans && bans[b].Arr? ==> b in FillUpTo(ps, sel, bans, n).1 && FillUpTo(ps, sel, bans, n).1[b] == bans[b]
  {
    if n > 0 {
      FillUpToKeepsBans(ps, sel, bans, n - 1);
      var r := FillUpTo(ps, sel, bans, n - 1);
      FillForProperties(r.0, r.1, ps[n - 1].accountId);
    }
  }

  /** The forEach as the code runs it. */
  method FillPlayerDefaults(ps: seq<Player>, sel: map<string, JsValue>, bans: map<string, JsValue>)
    returns (sel': map<string, JsValue>, bans': map<string, JsValue>)
    ensures (sel', bans') == FillUpTo(ps, sel, bans, |ps|)
  {
    sel', bans' := sel, bans;
    var i := 0;
    while i < |ps|
      invariant 0 <= i <= |ps|
      invariant (sel', bans') == FillUpTo(ps, sel, bans, i)
    {
      var a := ps[i].accountId;
      if !(a in bans' && bans'[a].Arr?) {
        bans' := bans'[a := Arr([])];
      }
      if !(a in sel' && Truthy(sel'[a])) {
        sel' := sel'[a := DefaultSelectionObj()];
      }
      var s := sel'[a];
      if !Get(s, "battlegroups").Arr? && s.Obj? {
        sel' := sel'[a := Obj(s.fields["battlegroups" := Arr([])])];
      }
      i := i + 1;
    }
  }

  /** `normalizeMatchFallback(match)`; `stamp` is the id suffix drawn for a
      match without id. */
  function NormalizeMatchFallback(raw: JsValue, stamp: string): (r: Result<LooseMatch>)
    ensures r.Throws? <==> FallbackPlayers(Get(raw, "players")).Throws?
  {
    match FallbackPlayers(Get(raw, "players"))
    case Throws(e) => Throws(e)
    case Ok(players) =>
      var filled := FillUpTo(players, CopiedEntries(Get(raw, "selections")), CopiedEntries(Get(raw, "bans")), |players|);
      Ok(LooseMatch(
        Or(Get(raw, "id"), Str("match-" + stamp)),
        Or(Get(raw, "round"), Str("경기")),
        Or(Get(raw, "scheduled"), Null),
        players,
        Or(Get(raw, "map"), Null),
        Or(Get(raw, "mapDecidedAt"), Null),
        Or(Get(raw, "phase"), Str("waiting")),
        filled.0,
        filled.1))
  }

  /** Every player gets a ban array and a selection (the default one when
      missing, with an array of battlegroups when it is an object); a
      missing phase becomes `waiting` and any other phase is kept as is. */
  lemma NormalizeMatchFallbackProperties(raw: JsValue, stamp: string)
    requires NormalizeMatchFallback(raw, stamp).Ok?
    ensures var m := NormalizeMatchFallback(raw, stamp).value;
      && (forall i :: 0 <= i < |m.players| ==> Filled(m.selections, m.bans, m.players[i].accountId))
      && (Truthy(Get(raw, "phase")) ==> m.phase == Get(raw, "phase"))
      && (!Truthy(Get(raw, "phase")) ==> m.phase == Str("waiting"))
      && Truthy(m.id) && Truthy(m.round)
  {
    var players := FallbackPlayers(Get(raw, "players")).value;
    FillUpToFilled(players, CopiedEntries(Get(raw, "selections")), CopiedEntries(Get(raw, "bans")), |players|);
  }

  /** Unlike the shared normaliser, which turns an unknown phase into
      `waiting`, the fallback keeps it. */
  lemma FallbackKeepsUnknownPhase(raw: JsValue, stamp: string)
    requires NormalizeMatchFallback(raw, stamp).Ok? && NormalizeMatch(raw, stamp).Ok?
    requires Truthy(Get(raw, "phase")) && ParsePhase(Get(raw, "phase")).None?
    ensures NormalizeMatchFallback(raw, stamp).value.phase == Get(raw, "phase")
    ensures NormalizeMatch(raw, stamp).value.phase == Waiting
  {
    NormalizeMatchPhase(raw, stamp);
  }
}
