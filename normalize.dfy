/** The client's `normalizeMatch`: it repairs an arbitrary parsed JSON
    value into the match shape of `MatchModel`. */
module Normalize {
  import opened Wrappers
  import opened Js
  import opened Catalog
  import opened MatchModel

  function MapGet(m: map<string, JsValue>, key: string): (v: JsValue)
    ensures key !in m ==> v == Undefined
  {
    if key in m then m[key] else Undefined
  }

  /** The in-place repair normalizeMatch applies to a player's selection:
      falsy faction becomes null, empty picks are dropped and at most three
      kept, and confirmation survives only with exactly three picks. */
  function RepairSelection(s: Selection): (r: Selection)
    ensures Repaired(r)
    ensures |r.battlegroups| <= |s.battlegroups|
    ensures forall v :: v in r.battlegroups ==> v in s.battlegroups
    ensures r.confirmed <==> s.confirmed && |r.battlegroups| == MaxPickSelection
  {
    var picks := Take(FilterTruthy(s.battlegroups), MaxPickSelection);
    var confirmed := s.confirmed && |picks| == MaxPickSelection;
    Selection(Or(s.faction, Null), picks, confirmed, if confirmed then Or(s.confirmedAt, Null) else Null)
  }

  /** The shape every player's selection has after normalisation. */
  predicate Repaired(s: Selection) {
    && (Truthy(s.faction) || s.faction == Null)
    && |s.battlegroups| <= MaxPickSelection
    && (forall i :: 0 <= i < |s.battlegroups| ==> Truthy(s.battlegroups[i]))
    && (s.confirmed ==> |s.battlegroups| == MaxPickSelection)
    && (s.confirmed ==> Truthy(s.confirmedAt) || s.confirmedAt == Null)
    && (!s.confirmed ==> s.confirmedAt == Null)
  }

  /** A selection is left alone by the repair exactly when it already has
      the repaired shape; so repairing twice is repairing once. */
  lemma RepairFixpoint(s: Selection)
    ensures RepairSelection(s) == s <==> Repaired(s)
  {
    if Repaired(s) {
      assert Take(FilterTruthy(s.battlegroups), MaxPickSelection) == s.battlegroups;
    }
  }

  lemma RepairIdempotent(s: Selection)
    ensures RepairSelection(RepairSelection(s)) == RepairSelection(s)
  {
    RepairFixpoint(RepairSelection(s));
  }

  /** A stored selection entry whose repair throws: a truthy value that is
      not an object, so its `battlegroups` cannot be set and the later
      `.filter` call reads a property of `undefined`. */
  predicate SelectionThrows(v: JsValue) {
    Truthy(v) && !IsObjectLike(v)
  }

  /** A stored selection entry as the repair reads it: a falsy entry is
      replaced by the default selection, a missing or non-array
      `battlegroups` by `[]`. */
  function SelectionFromRaw(v: JsValue): (r: Selection)
    ensures !Truthy(v) ==> r == DefaultSelection
  {
    if !IsObjectLike(v) then DefaultSelection
    else
      var bg := Get(v, "battlegroups");
      Selection(Get(v, "faction"), if bg.Arr? then bg.items else [],
                Truthy(Get(v, "confirmed")), Get(v, "confirmedAt"))
  }

  function PlayerFromRaw(p: JsValue): (r: Player)
    requires !IsNullish(p)
    ensures r.accountId == ToStr(Get(p, "accountId"))
    ensures r.ready <==> Truthy(Get(p, "ready"))
    ensures TruthyOrNull(r.readyAt)
  {
    Player(ToStr(Get(p, "accountId")), Or(Get(p, "displayName"), Get(p, "accountId")),
           Truthy(Get(p, "ready")), Or(Get(p, "readyAt"), Null))
  }

  /** `Array.isArray(match.players) ? match.players.map(...) : []`; reading
      `accountId` of a `null` entry throws. */
  function PlayersFromRaw(ps: JsValue): (r: Result<seq<Player>>)
    ensures r.Throws? <==> ps.Arr? && exists i :: 0 <= i < |ps.items| && IsNullish(ps.items[i])
    ensures r.Ok? && ps.Arr? ==> |r.value| == |ps.items|
    ensures r.Ok? && !ps.Arr? ==> r.value == []
    ensures r.Ok? ==> forall i :: 0 <= i < |r.value| ==> TruthyOrNull(r.value[i].readyAt)
  {
    if !ps.Arr? then Ok([])
    else if exists i :: 0 <= i < |ps.items| && IsNullish(ps.items[i]) then Throws(TypeError)
    else Ok(seq(|ps.items|, i requires 0 <= i < |ps.items| => PlayerFromRaw(ps.items[i])))
  }

  /** `x && typeof x === 'object' ? { ...x } : {}` */
  function SpreadObject(v: JsValue): map<string, JsValue> {
    if IsObjectLike(v) then Spread(v) else map[]
  }

  function StoredSelection(raw: JsValue, a: string): JsValue {
    MapGet(SpreadObject(Get(raw, "selections")), a)
  }

  function StoredBans(raw: JsValue, a: string): JsValue {
    MapGet(SpreadObject(Get(raw, "bans")), a)
  }

  /** The selection normalizeMatch gives the player with account id `a`. */
  function NormalizedSelection(raw: JsValue, a: string): Selection {
    RepairSelection(SelectionFromRaw(StoredSelection(raw, a)))
  }

  /** The ban list normalizeMatch gives the player with account id `a`:
      the stored array cut to `MaxBanPerPlayer` entries, else `[]`. */
  function NormalizedBans(raw: JsValue, a: string): (b: seq<JsValue>)
    ensures |b| <= MaxBanPerPlayer
  {
    var v := StoredBans(raw, a);
    Take(if v.Arr? then v.items else [], MaxBanPerPlayer)
  }

  /** The `selections` object normalizeMatch leaves: one repaired entry
      per given account id. */
  function SelectionsOf(raw: JsValue, ids: set<string>): (sels: map<string, Selection>)
    ensures sels.Keys == ids
    ensures forall a :: a in sels ==> sels[a] == NormalizedSelection(raw, a)
  {
    map a | a in ids :: NormalizedSelection(raw, a)
  }

  /** The `bans` object normalizeMatch leaves: one cut-down list per given
      account id. */
  function BansOf(raw: JsValue, ids: set<string>): (bans: map<string, seq<JsValue>>)
    ensures bans.Keys == ids
    ensures forall a :: a in bans ==> bans[a] == NormalizedBans(raw, a)
  {
    map a | a in ids :: NormalizedBans(raw, a)
  }

  /** The entries of a spread copy whose key is not in `ids`: what is left
      of the copy as stored once those keys are replaced. */
  function Unvisited(stored: map<string, JsValue>, ids: set<string>): (r: map<string, JsValue>)
    ensures r.Keys == stored.Keys - ids
    ensures forall a :: a in r ==> r[a] == stored[a]
  {
    map a | a in stored && a !in ids :: stored[a]
  }

  lemma MapExt<V>(m1: map<string, V>, m2: map<string, V>)
    requires m1.Keys == m2.Keys
    requires forall a :: a in m1 ==> m1[a] == m2[a]
    ensures m1 == m2
  {
  }

  /** Some player's stored selection makes the repair throw. */
  predicate SelectionsThrow(raw: JsValue, players: seq<Player>) {
    exists a :: a in PlayerIds(players) && SelectionThrows(StoredSelection(raw, a))
  }

  /** `normalizeMatch(match)`. `stamp` stands for the time-and-random
      suffix the code draws when the match has no id. */
  function NormalizeMatch(raw: JsValue, stamp: string): (r: Result<Match>)
  {
    if IsNullish(raw) then Throws(TypeError)
    else
      match PlayersFromRaw(Get(raw, "players"))
      case Throws(e) => Throws(e)
      case Ok(players) =>
        if SelectionsThrow(raw, players) then Throws(TypeError)
        else Ok(BuildMatch(raw, players, stamp))
  }

  /** The record normalizeMatch returns once no exception was raised. */
  function BuildMatch(raw: JsValue, players: seq<Player>, stamp: string): (m: Match)
    ensures m.players == players
    ensures Truthy(m.id) && Truthy(m.round)
    ensures TruthyOrNull(m.scheduled) && TruthyOrNull(m.mapName) && TruthyOrNull(m.mapDecidedAt)
    ensures m.selections.Keys == PlayerIds(players) && m.bans.Keys == PlayerIds(players)
    ensures forall a :: a in m.selections ==> m.selections[a] == NormalizedSelection(raw, a)
    ensures forall a :: a in m.bans ==> m.bans[a] == NormalizedBans(raw, a)
    ensures m.otherSelections.Keys == SpreadObject(Get(raw, "selections")).Keys - PlayerIds(players)
    ensures m.otherBans.Keys == SpreadObject(Get(raw, "bans")).Keys - PlayerIds(players)
    ensures forall a :: a in m.otherSelections ==> m.otherSelections[a] == StoredSelection(raw, a)
    ensures forall a :: a in m.otherBans ==> m.otherBans[a] == StoredBans(raw, a)
  {
    var ids := PlayerIds(players);
    var phase := ParsePhase(Get(raw, "phase"));
    Match(
      Or(Get(raw, "id"), Str("match-" + stamp)),
      Or(Get(raw, "round"), Str("경기")),
      Or(Get(raw, "scheduled"), Null),
      players,
      Or(Get(raw, "map"), Null),
      Or(Get(raw, "mapDecidedAt"), Null),
      if phase.Some? then phase.value else Waiting,
      SelectionsOf(raw, ids),
      BansOf(raw, ids),
      Unvisited(SpreadObject(Get(raw, "selections")), ids),
      Unvisited(SpreadObject(Get(raw, "bans")), ids))
  }

  /** `x || null`: a truthy value or `null`. */
  predicate TruthyOrNull(v: JsValue) {
    Truthy(v) || v == Null
  }

  /** The shape normalizeMatch guarantees: every player has a ban list of
      at most one entry and a repaired selection, the entries carried as
      read belong to account ids that are not players, and the optional
      fields are truthy or `null`. */
  predicate WellFormed(m: Match) {
    && Truthy(m.id) && Truthy(m.round)
    && TruthyOrNull(m.scheduled) && TruthyOrNull(m.mapName) && TruthyOrNull(m.mapDecidedAt)
    && (forall i :: 0 <= i < |m.players| ==> TruthyOrNull(m.players[i].readyAt))
    && m.selections.Keys == PlayerIds(m.players)
    && m.bans.Keys == PlayerIds(m.players)
    && m.otherSelections.Keys !! PlayerIds(m.players)
    && m.otherBans.Keys !! PlayerIds(m.players)
    && (forall a :: a in m.selections ==> Repaired(m.selections[a]))
    && (forall a :: a in m.bans ==> |m.bans[a]| <= MaxBanPerPlayer)
  }

  /** WellFormed, and every display name is what a further pass would
      compute from it: then a pass changes nothing. */
  predicate Canonical(m: Match) {
    WellFormed(m) && forall i :: 0 <= i < |m.players| ==> DisplayStable(m.players[i])
  }

  predicate DisplayStable(p: Player) {
    Or(p.displayName, Str(p.accountId)) == p.displayName
  }

  /** The exceptions normalizeMatch can raise, and nothing else: a `null`
      match, a `null` player entry, or a player's truthy non-object
      selection entry. */
  lemma NormalizeMatchThrows(raw: JsValue, stamp: string)
    ensures NormalizeMatch(raw, stamp).Throws? <==>
      || IsNullish(raw)
      || PlayersFromRaw(Get(raw, "players")).Throws?
      || SelectionsThrow(raw, PlayersFromRaw(Get(raw, "players")).value)
  {
  }

  /** Every player gets a ban list cut to one entry and a selection whose
      picks are truthy and at most three; confirmation needs exactly three
      picks, and an unconfirmed selection has no confirmation time. */
  lemma NormalizeMatchWellFormed(raw: JsValue, stamp: string)
    requires NormalizeMatch(raw, stamp).Ok?
    ensures WellFormed(NormalizeMatch(raw, stamp).value)
  {
    var players := PlayersFromRaw(Get(raw, "players")).value;
    assert NormalizeMatch(raw, stamp).value == BuildMatch(raw, players, stamp);
    BuildMatchWellFormed(raw, players, stamp);
  }

  lemma BuildMatchWellFormed(raw: JsValue, players: seq<Player>, stamp: string)
    requires forall i :: 0 <= i < |players| ==> TruthyOrNull(players[i].readyAt)
    ensures WellFormed(BuildMatch(raw, players, stamp))
  {
    var m := BuildMatch(raw, players, stamp);
    assert m.otherSelections.Keys !! PlayerIds(players) && m.otherBans.Keys !! PlayerIds(players);
    forall a | a in m.selections
      ensures Repaired(m.selections[a])
    {
      assert m.selections[a] == RepairSelection(SelectionFromRaw(StoredSelection(raw, a)));
    }
    forall a | a in m.bans
      ensures |m.bans[a]| <= MaxBanPerPlayer
    {
      assert m.bans[a] == NormalizedBans(raw, a);
    }
  }

  /** The stored objects of the result hold every key of the stored
      `selections` and `bans` plus one per player, and an entry under an
      account id that is not a player's is the stored one. */
  lemma NormalizeKeepsOtherEntries(raw: JsValue, stamp: string)
    requires NormalizeMatch(raw, stamp).Ok?
    ensures var m := NormalizeMatch(raw, stamp).value;
      SelectionsObject(m).Keys == SpreadObject(Get(raw, "selections")).Keys + PlayerIds(m.players)
    ensures var m := NormalizeMatch(raw, stamp).value;
      BansObject(m).Keys == SpreadObject(Get(raw, "bans")).Keys + PlayerIds(m.players)
    ensures var m := NormalizeMatch(raw, stamp).value;
      forall a :: a in SpreadObject(Get(raw, "selections")) && a !in PlayerIds(m.players) ==>
        SelectionsObject(m)[a] == SpreadObject(Get(raw, "selections"))[a]
    ensures var m := NormalizeMatch(raw, stamp).value;
      forall a :: a in SpreadObject(Get(raw, "bans")) && a !in PlayerIds(m.players) ==>
        BansObject(m)[a] == SpreadObject(Get(raw, "bans"))[a]
  {
    var players := PlayersFromRaw(Get(raw, "players")).value;
    var m := BuildMatch(raw, players, stamp);
    assert NormalizeMatch(raw, stamp).value == m;
    var sels := map a | a in m.selections :: EncodeSelection(m.selections[a]);
    var bans := map a | a in m.bans :: Arr(m.bans[a]);
    assert SelectionsObject(m) == m.otherSelections + sels;
    assert BansObject(m) == m.otherBans + bans;
    OverlayKeeps(m.otherSelections, sels, SpreadObject(Get(raw, "selections")), PlayerIds(m.players));
    OverlayKeeps(m.otherBans, bans, SpreadObject(Get(raw, "bans")), PlayerIds(m.players));
  }

  /** Writing one entry per id over the unvisited rest of a stored object
      gives back every stored key plus the ids, and the stored entries
      under the other keys. */
  lemma OverlayKeeps<T>(rest: map<string, T>, over: map<string, T>, stored: map<string, T>, ids: set<string>)
    requires rest.Keys == stored.Keys - ids
    requires forall a :: a in rest ==> rest[a] == stored[a]
    requires over.Keys == ids
    ensures (rest + over).Keys == stored.Keys + ids
    ensures forall a :: a in stored && a !in ids ==> (rest + over)[a] == stored[a]
  {
  }

  /** A phase outside the six names becomes `waiting`; a known one is kept. */
  lemma NormalizeMatchPhase(raw: JsValue, stamp: string)
    requires NormalizeMatch(raw, stamp).Ok?
    ensures ParsePhase(Get(raw, "phase")).None? ==> NormalizeMatch(raw, stamp).value.phase == Waiting
    ensures forall p: Phase :: Get(raw, "phase") == Str(PhaseName(p)) ==> NormalizeMatch(raw, stamp).value.phase == p
  {
    forall p: Phase | Get(raw, "phase") == Str(PhaseName(p))
      ensures NormalizeMatch(raw, stamp).value.phase == p
    {
      ParsePhaseName(p);
    }
  }

  /** What a further pass does to a player's display name: it falls back
      to the account id, now a string. */
  function FixDisplay(m: Match): (r: Match)
    ensures |r.players| == |m.players|
    ensures forall i :: 0 <= i < |m.players| ==>
              r.players[i] == m.players[i].(displayName := Or(m.players[i].displayName, Str(m.players[i].accountId)))
    ensures r == m.(players := r.players)
  {
    m.(players := seq(|m.players|, i requires 0 <= i < |m.players| =>
      m.players[i].(displayName := Or(m.players[i].displayName, Str(m.players[i].accountId)))))
  }

  lemma PlayerRoundTrip(p: Player)
    requires TruthyOrNull(p.readyAt)
    ensures PlayerFromRaw(EncodePlayer(p)) == p.(displayName := Or(p.displayName, Str(p.accountId)))
  {
  }

  lemma EncodedPlayers(m: Match)
    requires forall i :: 0 <= i < |m.players| ==> TruthyOrNull(m.players[i].readyAt)
    ensures PlayersFromRaw(Get(EncodeMatch(m), "players")) == Ok(FixDisplay(m).players)
    ensures PlayerIds(FixDisplay(m).players) == PlayerIds(m.players)
  {
    var encoded := seq(|m.players|, i requires 0 <= i < |m.players| => EncodePlayer(m.players[i]));
    assert Get(EncodeMatch(m), "players") == Arr(encoded);
    var fixed := FixDisplay(m);
    forall i | 0 <= i < |m.players|
      ensures PlayerFromRaw(encoded[i]) == fixed.players[i]
    {
      PlayerRoundTrip(m.players[i]);
    }
    assert forall i :: 0 <= i < |encoded| ==> !IsNullish(encoded[i]);
    assert PlayersFromRaw(Arr(encoded)).value == fixed.players;
    assert forall i :: 0 <= i < |m.players| ==> fixed.players[i].accountId == m.players[i].accountId;
  }

  lemma EncodedStored(m: Match, a: string)
    requires a in m.selections && a in m.bans
    ensures StoredSelection(EncodeMatch(m), a) == EncodeSelection(m.selections[a])
    ensures StoredBans(EncodeMatch(m), a) == Arr(m.bans[a])
  {
    EncodedObjects(m);
    var sels, bans := SelectionsObject(m), BansObject(m);
    assert a in sels && sels[a] == EncodeSelection(m.selections[a]);
    assert a in bans && bans[a] == Arr(m.bans[a]);
  }

  /** A repaired selection and a short ban list, stored as they are,
      normalise back to themselves. */
  lemma StoredEntry(raw: JsValue, a: string, s: Selection, bans: seq<JsValue>)
    requires StoredSelection(raw, a) == EncodeSelection(s) && StoredBans(raw, a) == Arr(bans)
    requires Repaired(s) && |bans| <= MaxBanPerPlayer
    ensures !SelectionThrows(StoredSelection(raw, a))
    ensures NormalizedSelection(raw, a) == s
    ensures NormalizedBans(raw, a) == bans
  {
    assert SelectionFromRaw(EncodeSelection(s)) == s;
    RepairFixpoint(s);
  }

  lemma EncodedScalars(m: Match)
    ensures Get(EncodeMatch(m), "id") == m.id && Get(EncodeMatch(m), "round") == m.round
    ensures Get(EncodeMatch(m), "scheduled") == m.scheduled && Get(EncodeMatch(m), "map") == m.mapName
    ensures Get(EncodeMatch(m), "mapDecidedAt") == m.mapDecidedAt
    ensures Get(EncodeMatch(m), "phase") == Str(PhaseName(m.phase))
  {
  }

  /** BuildMatch reproduces a match from any raw value whose fields and
      per-player entries normalise to the match's own. */
  lemma BuildFromFields(raw: JsValue, players: seq<Player>, stamp: string, m: Match)
    requires Get(raw, "id") == m.id && Truthy(m.id) && Get(raw, "round") == m.round && Truthy(m.round)
    requires Get(raw, "scheduled") == m.scheduled && TruthyOrNull(m.scheduled)
    requires Get(raw, "map") == m.mapName && TruthyOrNull(m.mapName)
    requires Get(raw, "mapDecidedAt") == m.mapDecidedAt && TruthyOrNull(m.mapDecidedAt)
    requires Get(raw, "phase") == Str(PhaseName(m.phase))
    requires m.selections.Keys == PlayerIds(players) && m.bans.Keys == PlayerIds(players)
    requires forall a :: a in m.selections ==> NormalizedSelection(raw, a) == m.selections[a]
    requires forall a :: a in m.bans ==> NormalizedBans(raw, a) == m.bans[a]
    requires m.otherSelections == Unvisited(SpreadObject(Get(raw, "selections")), PlayerIds(players))
    requires m.otherBans == Unvisited(SpreadObject(Get(raw, "bans")), PlayerIds(players))
    ensures BuildMatch(raw, players, stamp) == m.(players := players)
  {
    var b := BuildMatch(raw, players, stamp);
    ParsePhaseName(m.phase);
    MapExt(b.selections, m.selections);
    MapExt(b.bans, m.bans);
  }

  lemma EncodedObjects(m: Match)
    ensures SpreadObject(Get(EncodeMatch(m), "selections")) == SelectionsObject(m)
    ensures SpreadObject(Get(EncodeMatch(m), "bans")) == BansObject(m)
  {
  }

  /** Setting the overlaid keys aside gives back what lies under them. */
  lemma UnvisitedOverlay(under: map<string, JsValue>, over: map<string, JsValue>, ids: set<string>)
    requires under.Keys !! ids && over.Keys == ids
    ensures Unvisited(under + over, ids) == under
  {
    MapExt(Unvisited(under + over, ids), under);
  }

  /** The stored form gives the carried entries back once the players'
      entries, which sit on top of them, are set aside. */
  lemma EncodedOthers(m: Match)
    requires m.otherSelections.Keys !! PlayerIds(m.players) && m.otherBans.Keys !! PlayerIds(m.players)
    requires m.selections.Keys == PlayerIds(m.players) && m.bans.Keys == PlayerIds(m.players)
    ensures Unvisited(SpreadObject(Get(EncodeMatch(m), "selections")), PlayerIds(m.players)) == m.otherSelections
    ensures Unvisited(SpreadObject(Get(EncodeMatch(m), "bans")), PlayerIds(m.players)) == m.otherBans
  {
    EncodedObjects(m);
    UnvisitedOverlay(m.otherSelections, map a | a in m.selections :: EncodeSelection(m.selections[a]), PlayerIds(m.players));
    UnvisitedOverlay(m.otherBans, map a | a in m.bans :: Arr(m.bans[a]), PlayerIds(m.players));
  }

  /** Normalising the stored form of a well-formed match gives the match
      back, except that display names fall back to the account id. */
  lemma NormalizeEncoded(m: Match, stamp: string)
    requires WellFormed(m)
    ensures NormalizeMatch(EncodeMatch(m), stamp) == Ok(FixDisplay(m))
  {
    var raw := EncodeMatch(m);
    var fixed := FixDisplay(m);
    EncodedPlayers(m);
    forall a | a in m.selections
      ensures !SelectionThrows(StoredSelection(raw, a))
      ensures NormalizedSelection(raw, a) == m.selections[a]
      ensures NormalizedBans(raw, a) == m.bans[a]
    {
      EncodedStored(m, a);
      StoredEntry(raw, a, m.selections[a], m.bans[a]);
    }
    assert !SelectionsThrow(raw, fixed.players);
    EncodedScalars(m);
    EncodedOthers(m);
    BuildFromFields(raw, fixed.players, stamp, m);
  }

  /** After the display-name fallback a well-formed match is canonical. */
  lemma FixDisplayCanonical(m: Match)
    requires WellFormed(m)
    ensures Canonical(FixDisplay(m))
  {
    var fixed := FixDisplay(m);
    assert PlayerIds(fixed.players) == PlayerIds(m.players) by {
      assert forall i :: 0 <= i < |m.players| ==> fixed.players[i].accountId == m.players[i].accountId;
    }
  }

  lemma FixDisplayOfCanonical(m: Match)
    requires Canonical(m)
    ensures FixDisplay(m) == m
  {
    var f := FixDisplay(m);
    assert f.players == m.players;
  }

  /** A canonical match is a fixed point of normalisation. */
  lemma NormalizeCanonical(m: Match, stamp: string)
    requires Canonical(m)
    ensures NormalizeMatch(EncodeMatch(m), stamp) == Ok(m)
  {
    NormalizeEncoded(m, stamp);
    FixDisplayOfCanonical(m);
  }

  /** Normalising twice reaches a fixed point: a third pass changes
      nothing, whatever ids the passes would generate. */
  lemma NormalizeStableAfterTwoPasses(raw: JsValue, s1: string, s2: string, s3: string)
    requires NormalizeMatch(raw, s1).Ok?
    ensures NormalizeMatch(EncodeMatch(NormalizeMatch(raw, s1).value), s2).Ok?
    ensures var m2 := NormalizeMatch(EncodeMatch(NormalizeMatch(raw, s1).value), s2).value;
            NormalizeMatch(EncodeMatch(m2), s3) == Ok(m2)
  {
    var m1 := NormalizeMatch(raw, s1).value;
    NormalizeMatchWellFormed(raw, s1);
    NormalizeEncoded(m1, s2);
    FixDisplayCanonical(m1);
    NormalizeCanonical(FixDisplay(m1), s3);
  }

  /** Normalising the stored form of a well-formed match changes nothing
      exactly when every display name is already stable. */
  lemma SecondPassFixpoint(m: Match, stamp: string)
    requires WellFormed(m)
    ensures NormalizeMatch(EncodeMatch(m), stamp) == Ok(m) <==> Canonical(m)
  {
    NormalizeEncoded(m, stamp);
    if Canonical(m) {
      FixDisplayOfCanonical(m);
    } else {
      var i :| 0 <= i < |m.players| && !DisplayStable(m.players[i]);
      assert FixDisplay(m).players[i] != m.players[i];
    }
  }

  /** A stored player whose display name is falsy and whose account id is
      falsy but not a string (a missing one, say) comes out of the first
      pass with the raw id as display name, which the next pass replaces
      by its text. */
  lemma UnnamedPlayerUnstable(raw: JsValue, stamp: string, i: nat)
    requires NormalizeMatch(raw, stamp).Ok?
    requires Get(raw, "players").Arr? && i < |Get(raw, "players").items|
    requires var p := Get(raw, "players").items[i];
             !Truthy(Get(p, "displayName")) && !Truthy(Get(p, "accountId")) && !Get(p, "accountId").Str?
    ensures !Canonical(NormalizeMatch(raw, stamp).value)
  {
    var players := PlayersFromRaw(Get(raw, "players")).value;
    assert NormalizeMatch(raw, stamp).value.players == players;
    var p := Get(raw, "players").items[i];
    assert players[i] == PlayerFromRaw(p);
    assert !DisplayStable(players[i]);
  }

  /** Hence one pass is not always a fixed point, while two passes are
      (NormalizeStableAfterTwoPasses). */
  lemma OnePassNotFixpoint(raw: JsValue, s1: string, s2: string, i: nat)
    requires NormalizeMatch(raw, s1).Ok?
    requires Get(raw, "players").Arr? && i < |Get(raw, "players").items|
    requires var p := Get(raw, "players").items[i];
             !Truthy(Get(p, "displayName")) && !Truthy(Get(p, "accountId")) && !Get(p, "accountId").Str?
    ensures NormalizeMatch(EncodeMatch(NormalizeMatch(raw, s1).value), s2) != NormalizeMatch(raw, s1)
  {
    NormalizeMatchWellFormed(raw, s1);
    UnnamedPlayerUnstable(raw, s1, i);
    SecondPassFixpoint(NormalizeMatch(raw, s1).value, s2);
  }

  lemma PlayerIdsSnoc(ps: seq<Player>, i: nat)
    requires i < |ps|
    ensures PlayerIds(ps[..i + 1]) == PlayerIds(ps[..i]) + {ps[i].accountId}
  {
    assert ps[..i + 1] == ps[..i] + [ps[i]];
    var left, right := PlayerIds(ps[..i + 1]), PlayerIds(ps[..i]) + {ps[i].accountId};
    forall a | a in left ensures a in right {
      var k :| 0 <= k < i + 1 && ps[..i + 1][k].accountId == a;
      if k < i { assert ps[..i][k].accountId == a; }
    }
    forall a | a in right ensures a in left {
      if a != ps[i].accountId {
        var k :| 0 <= k < i && ps[..i][k].accountId == a;
        assert ps[..i + 1][k].accountId == a;
      } else {
        assert ps[..i + 1][i].accountId == a;
      }
    }
  }

  /** The loop state of normalizeMatch after its first `i` players. The
      object the loop updates, `{ ...match.selections }`, is `rest` with the
      entries of `selections` written over it: the visited players'
      repaired selections, and the entries still as stored. */
  predicate SelectionsFilled(raw: JsValue, players: seq<Player>, i: nat,
                             selections: map<string, Selection>, rest: map<string, JsValue>)
    requires i <= |players|
  {
    && SelectionsRepaired(raw, players, i, selections)
    && rest == Unvisited(SpreadObject(Get(raw, "selections")), PlayerIds(players[..i]))
  }

  predicate SelectionsRepaired(raw: JsValue, players: seq<Player>, i: nat, selections: map<string, Selection>)
    requires i <= |players|
  {
    && selections.Keys == PlayerIds(players[..i])
    && (forall a :: a in selections ==> selections[a] == NormalizedSelection(raw, a))
    && (forall a :: a in selections ==> !SelectionThrows(StoredSelection(raw, a)))
  }

  /** ... and the same for `{ ...match.bans }`. */
  predicate BansFilled(raw: JsValue, players: seq<Player>, i: nat,
                       bans: map<string, seq<JsValue>>, rest: map<string, JsValue>)
    requires i <= |players|
  {
    && BansCut(raw, players, i, bans)
    && rest == Unvisited(SpreadObject(Get(raw, "bans")), PlayerIds(players[..i]))
  }

  predicate BansCut(raw: JsValue, players: seq<Player>, i: nat, bans: map<string, seq<JsValue>>)
    requires i <= |players|
  {
    && bans.Keys == PlayerIds(players[..i])
    && (forall a :: a in bans ==> bans[a] == NormalizedBans(raw, a))
  }

  /** Replacing the entry of one more account id takes it out of what is
      left as stored. */
  lemma UnvisitedStep(stored: map<string, JsValue>, ids: set<string>, a: string)
    ensures Unvisited(stored, ids) - {a} == Unvisited(stored, ids + {a})
    ensures a !in ids ==> MapGet(Unvisited(stored, ids), a) == MapGet(stored, a)
  {
    MapExt(Unvisited(stored, ids) - {a}, Unvisited(stored, ids + {a}));
  }

  /** One step of the players' loop keeps the ban lists filled; `own` is
      `bans[player.accountId]` made an array. */
  lemma FillBansStep(raw: JsValue, players: seq<Player>, i: nat,
                     bans: map<string, seq<JsValue>>, rest: map<string, JsValue>, own: seq<JsValue>)
    requires i < |players| && BansFilled(raw, players, i, bans, rest)
    requires var a := players[i].accountId;
             own == if a in bans then bans[a] else
                      (var b := MapGet(rest, a); if b.Arr? then b.items else [])
    ensures BansFilled(raw, players, i + 1, bans[players[i].accountId := Take(own, MaxBanPerPlayer)],
                       rest - {players[i].accountId})
  {
    var a := players[i].accountId;
    PlayerIdsSnoc(players, i);
    UnvisitedStep(SpreadObject(Get(raw, "bans")), PlayerIds(players[..i]), a);
    if a !in bans {
      assert MapGet(rest, a) == StoredBans(raw, a);
    }
    BansCutStep(raw, players, i, bans, own);
  }

  lemma BansCutStep(raw: JsValue, players: seq<Player>, i: nat, bans: map<string, seq<JsValue>>, own: seq<JsValue>)
    requires i < |players| && BansCut(raw, players, i, bans)
    requires var a := players[i].accountId;
             own == if a in bans then bans[a] else
                      (var b := StoredBans(raw, a); if b.Arr? then b.items else [])
    ensures BansCut(raw, players, i + 1, bans[players[i].accountId := Take(own, MaxBanPerPlayer)])
  {
    var a := players[i].accountId;
    PlayerIdsSnoc(players, i);
    if a in bans {
      assert |bans[a]| <= MaxBanPerPlayer;
      assert Take(own, MaxBanPerPlayer) == own;
    }
    var next := bans[a := Take(own, MaxBanPerPlayer)];
    forall b | b in next
      ensures next[b] == NormalizedBans(raw, b)
    {
      if b != a {
        assert next[b] == bans[b];
      }
    }
  }

  /** One step of the players' loop keeps the selections filled;
      `selection` is `selections[player.accountId]`, or the default. */
  lemma FillSelectionStep(raw: JsValue, players: seq<Player>, i: nat,
                          selections: map<string, Selection>, rest: map<string, JsValue>, selection: Selection)
    requires i < |players| && SelectionsFilled(raw, players, i, selections, rest)
    requires !SelectionThrows(StoredSelection(raw, players[i].accountId))
    requires var a := players[i].accountId;
             selection == if a in selections then selections[a] else SelectionFromRaw(MapGet(rest, a))
    ensures SelectionsFilled(raw, players, i + 1, selections[players[i].accountId := RepairSelection(selection)],
                             rest - {players[i].accountId})
  {
    var a := players[i].accountId;
    PlayerIdsSnoc(players, i);
    UnvisitedStep(SpreadObject(Get(raw, "selections")), PlayerIds(players[..i]), a);
    if a !in selections {
      assert MapGet(rest, a) == StoredSelection(raw, a);
    }
    SelectionsRepairedStep(raw, players, i, selections, selection);
  }

  lemma SelectionsRepairedStep(raw: JsValue, players: seq<Player>, i: nat,
                               selections: map<string, Selection>, selection: Selection)
    requires i < |players| && SelectionsRepaired(raw, players, i, selections)
    requires !SelectionThrows(StoredSelection(raw, players[i].accountId))
    requires var a := players[i].accountId;
             selection == if a in selections then selections[a] else SelectionFromRaw(StoredSelection(raw, a))
    ensures SelectionsRepaired(raw, players, i + 1, selections[players[i].accountId := RepairSelection(selection)])
  {
    var a := players[i].accountId;
    var next := selections[a := RepairSelection(selection)];
    PlayerIdsSnoc(players, i);
    assert RepairSelection(selection) == NormalizedSelection(raw, a) by {
      if a in selections {
        RepairIdempotent(SelectionFromRaw(StoredSelection(raw, a)));
      }
    }
    forall b | b in next
      ensures next[b] == NormalizedSelection(raw, b) && !SelectionThrows(StoredSelection(raw, b))
    {
      if b != a {
        assert next[b] == selections[b];
      }
    }
  }

  /** Once every player is visited the loop has built BuildMatch's maps. */
  lemma FillDone(raw: JsValue, players: seq<Player>,
                 selections: map<string, Selection>, bans: map<string, seq<JsValue>>,
                 rest: map<string, JsValue>, restBans: map<string, JsValue>)
    requires SelectionsFilled(raw, players, |players|, selections, rest)
    requires BansFilled(raw, players, |players|, bans, restBans)
    ensures selections == SelectionsOf(raw, PlayerIds(players))
    ensures bans == BansOf(raw, PlayerIds(players))
    ensures rest == Unvisited(SpreadObject(Get(raw, "selections")), PlayerIds(players))
    ensures restBans == Unvisited(SpreadObject(Get(raw, "bans")), PlayerIds(players))
    ensures !SelectionsThrow(raw, players)
  {
    assert players[..|players|] == players;
    MapExt(selections, SelectionsOf(raw, PlayerIds(players)));
    MapExt(bans, BansOf(raw, PlayerIds(players)));
  }

  /** The body of the players' `forEach` of normalizeMatch for player `i`:
      cut the player's ban list (the stored one, or the list already
      filled for a repeated account id), then repair the player's
      selection (the stored entry the first time), or report the exception
      that repair raises. */
  method FillEntry(raw: JsValue, players: seq<Player>, i: nat,
                   selections: map<string, Selection>, rest: map<string, JsValue>,
                   bans: map<string, seq<JsValue>>, restBans: map<string, JsValue>)
    returns (thrown: bool, selections': map<string, Selection>, rest': map<string, JsValue>,
             bans': map<string, seq<JsValue>>, restBans': map<string, JsValue>)
    requires i < |players|
    requires SelectionsFilled(raw, players, i, selections, rest) && BansFilled(raw, players, i, bans, restBans)
    ensures thrown ==> SelectionsThrow(raw, players)
    ensures !thrown ==> SelectionsFilled(raw, players, i + 1, selections', rest')
    ensures !thrown ==> BansFilled(raw, players, i + 1, bans', restBans')
  {
    var a := players[i].accountId;
    var own := if a in bans then bans[a] else (var b := MapGet(restBans, a); if b.Arr? then b.items else []);
    FillBansStep(raw, players, i, bans, restBans, own);
    bans', restBans' := bans[a := Take(own, MaxBanPerPlayer)], restBans - {a};
    var selection: Selection;
    if a in selections {
      selection := selections[a];
    } else {
      var stored := MapGet(rest, a);
      UnvisitedStep(SpreadObject(Get(raw, "selections")), PlayerIds(players[..i]), a);
      if SelectionThrows(stored) {
        assert a in PlayerIds(players);
        return true, selections, rest, bans', restBans';
      }
      selection := SelectionFromRaw(stored);
    }
    FillSelectionStep(raw, players, i, selections, rest, selection);
    selections', rest' := selections[a := RepairSelection(selection)], rest - {a};
    thrown := false;
  }

  /** The players' `forEach` of normalizeMatch over the spread copies of
      `selections` and `bans`, which stops with an exception at the first
      player whose stored selection cannot be repaired. */
  method FillEntries(raw: JsValue, players: seq<Player>)
    returns (thrown: bool, selections: map<string, Selection>, bans: map<string, seq<JsValue>>,
             otherSelections: map<string, JsValue>, otherBans: map<string, JsValue>)
    ensures thrown <==> SelectionsThrow(raw, players)
    ensures !thrown ==> selections == SelectionsOf(raw, PlayerIds(players))
    ensures !thrown ==> bans == BansOf(raw, PlayerIds(players))
    ensures !thrown ==> otherSelections == Unvisited(SpreadObject(Get(raw, "selections")), PlayerIds(players))
    ensures !thrown ==> otherBans == Unvisited(SpreadObject(Get(raw, "bans")), PlayerIds(players))
  {
    selections, otherSelections := map[], SpreadObject(Get(raw, "selections"));
    bans, otherBans := map[], SpreadObject(Get(raw, "bans"));
    assert players[..0] == [];
    MapExt(otherSelections, Unvisited(SpreadObject(Get(raw, "selections")), {}));
    MapExt(otherBans, Unvisited(SpreadObject(Get(raw, "bans")), {}));
    var i := 0;
    while i < |players|
      invariant 0 <= i <= |players|
      invariant SelectionsFilled(raw, players, i, selections, otherSelections)
      invariant BansFilled(raw, players, i, bans, otherBans)
    {
      thrown, selections, otherSelections, bans, otherBans :=
        FillEntry(raw, players, i, selections, otherSelections, bans, otherBans);
      if thrown {
        return;
      }
      i := i + 1;
    }
    FillDone(raw, players, selections, bans, otherSelections, otherBans);
    thrown := false;
  }

  /** normalizeMatch as the code runs it. */
  method NormalizeMatchSteps(raw: JsValue, stamp: string) returns (r: Result<Match>)
    ensures r == NormalizeMatch(raw, stamp)
  {
    if IsNullish(raw) {
      return Throws(TypeError);
    }
    var parsed := PlayersFromRaw(Get(raw, "players"));
    if parsed.Throws? {
      return Throws(parsed.error);
    }
    var players := parsed.value;
    var thrown, selections, bans, otherSelections, otherBans := FillEntries(raw, players);
    if thrown {
      return Throws(TypeError);
    }
    var phase := ParsePhase(Get(raw, "phase"));
    r := Ok(Match(
      Or(Get(raw, "id"), Str("match-" + stamp)),
      Or(Get(raw, "round"), Str("경기")),
      Or(Get(raw, "scheduled"), Null),
      players,
      Or(Get(raw, "map"), Null),
      Or(Get(raw, "mapDecidedAt"), Null),
      if phase.Some? then phase.value else Waiting,
      selections,
      bans,
      otherSelections,
      otherBans));
  }
}
