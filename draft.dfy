/** The player-facing draft of one match: the rules the client applies when
    a player confirms readiness, bans a battlegroup, confirms faction and
    picks, or edits a choice, and the phase repairs it runs whenever it
    looks the active match up. Everything here works on match and
    tournament values; `ClientState` applies the results in place. */
module Draft {
  import opened Wrappers
  import opened Js
  import opened Strings
  import opened Text
  import opened Catalog
  import opened MatchModel
  import opened Normalize
  import opened Records

  // ---------------------------------------------------------------------
  // Queries on a match

  /** Index of the first player whose account differs from `a`, or -1. */
  function OpponentIndex(ps: seq<Player>, a: string): (i: int)
    ensures -1 <= i < |ps|
    ensures i >= 0 ==> ps[i].accountId != a && forall j :: 0 <= j < i ==> ps[j].accountId == a
    ensures i < 0 ==> forall j :: 0 <= j < |ps| ==> ps[j].accountId == a
  {
    if ps == [] then -1
    else if ps[0].accountId != a then 0
    else
      var k := OpponentIndex(ps[1..], a);
      if k < 0 then -1 else k + 1
  }

  /** `getOpponentPlayer`: the first player who is not `a`, if any. */
  function Opponent(m: Match, a: string): (o: Option<Player>)
    ensures o.Some? ==> o.value in m.players && o.value.accountId != a
    ensures o.None? ==> forall j :: 0 <= j < |m.players| ==> m.players[j].accountId == a
  {
    var i := OpponentIndex(m.players, a);
    if i < 0 then None else Some(m.players[i])
  }

  /** `match.bans[a] || []` */
  function BansFor(m: Match, a: string): seq<JsValue> {
    if a in m.bans then m.bans[a] else []
  }

  /** `haveAllBans`: every player has banned as many battlegroups as allowed. */
  predicate HaveAllBans(m: Match) {
    forall i :: 0 <= i < |m.players| ==> |BansFor(m, m.players[i].accountId)| >= MaxBanPerPlayer
  }

  /** A player's selection exists, is confirmed and holds exactly three picks. */
  predicate SelectionLocked(m: Match, a: string) {
    a in m.selections && m.selections[a].confirmed
    && |m.selections[a].battlegroups| == MaxPickSelection
  }

  /** `areSelectionsLocked` */
  predicate AreSelectionsLocked(m: Match) {
    forall i :: 0 <= i < |m.players| ==> SelectionLocked(m, m.players[i].accountId)
  }

  predicate AllReady(m: Match) {
    forall i :: 0 <= i < |m.players| ==> m.players[i].ready
  }

  /** What a `normalizeMatch(match)` whose result is discarded still does to
      the match: it repairs, in place, the selection object of every player
      that has one (the other maps it builds are copies). */
  function RepairSelections(m: Match): (r: Match)
    ensures r == m.(selections := r.selections)
    ensures r.selections.Keys == m.selections.Keys
    ensures forall k :: k in r.selections && k in PlayerIds(m.players) ==>
      Repaired(r.selections[k])
      && (forall v :: v in r.selections[k].battlegroups ==> v in m.selections[k].battlegroups)
    ensures forall k :: k in r.selections && (k !in PlayerIds(m.players) || Repaired(m.selections[k])) ==>
      r.selections[k] == m.selections[k]
    ensures forall k :: k in r.selections && k in PlayerIds(m.players) ==>
      r.selections[k] == RepairSelection(m.selections[k])
  {
    var sel := map k | k in m.selections ::
      if k in PlayerIds(m.players) then RepairSelection(m.selections[k]) else m.selections[k];
    assert forall k :: k in sel && Repaired(m.selections[k]) ==> sel[k] == m.selections[k] by {
      forall k | k in sel && Repaired(m.selections[k]) {
        RepairFixpoint(m.selections[k]);
      }
    }
    m.(selections := sel)
  }

  /** Repairing is idempotent: a second discarded normalisation changes nothing. */
  lemma RepairSelectionsIdempotent(m: Match)
    ensures RepairSelections(RepairSelections(m)) == RepairSelections(m)
  {
    var r := RepairSelections(m);
    var rr := RepairSelections(r);
    assert rr.selections == r.selections;
  }

  // ---------------------------------------------------------------------
  // cleanupSelectionsAfterBan

  /** `picks.filter((id) => !bans.includes(id))` */
  function StripBanned(picks: seq<JsValue>, bans: seq<JsValue>): (r: seq<JsValue>)
    ensures forall v :: v in r <==> v in picks && !Includes(bans, v)
    ensures |r| <= |picks|
    ensures |r| == |picks| ==> r == picks
    ensures (forall v :: v in picks ==> !Includes(bans, v)) ==> r == picks
  {
    if picks == [] then []
    else if Includes(bans, picks[0]) then StripBanned(picks[1..], bans)
    else
      assert picks == [picks[0]] + picks[1..];
      [picks[0]] + StripBanned(picks[1..], bans)
  }

  /** One selection is the other, or a shrunk and unconfirmed copy of it. */
  predicate SelectionShrunk(s1: Selection, s2: Selection) {
    s2 == s1
    || (s2.faction == s1.faction && !s2.confirmed && s2.confirmedAt == Null
        && forall v :: v in s2.battlegroups ==> v in s1.battlegroups)
  }

  /** `m2` differs from `m1` only by selections that lost picks and, having
      lost them, are no longer confirmed. */
  predicate Shrunk(m1: Match, m2: Match) {
    && m2 == m1.(selections := m2.selections)
    && m2.selections.Keys == m1.selections.Keys
    && forall k :: k in m2.selections ==> SelectionShrunk(m1.selections[k], m2.selections[k])
  }

  /** The opponent of `p` holds no pick that appears in `bans`. */
  predicate BanRespected(m: Match, p: Player, bans: seq<JsValue>) {
    var o := Opponent(m, p.accountId);
    o.Some? && o.value.accountId in m.selections ==>
      forall v :: v in m.selections[o.value.accountId].battlegroups ==> !Includes(bans, v)
  }

  /** The body of the `forEach` for player `p`. */
  function CleanupFor(m: Match, p: Player): (r: Match)
    ensures r == m.(selections := r.selections)
    ensures Shrunk(m, r)
    ensures BanRespected(r, p, BansFor(m, p.accountId))
  {
    var o := Opponent(m, p.accountId);
    if o.None? then m
    else
      var oa := o.value.accountId;
      if oa !in m.selections then m
      else
        var s := m.selections[oa];
        var filtered := StripBanned(s.battlegroups, BansFor(m, p.accountId));
        if |filtered| != |s.battlegroups| then
          m.(selections := m.selections[oa := s.(battlegroups := filtered, confirmed := false, confirmedAt := Null)])
        else m
  }

  /** The state after the `forEach` has visited the first `n` players. */
  function CleanupUpTo(m: Match, n: nat): (r: Match)
    requires n <= |m.players|
    ensures r == m.(selections := r.selections)
    ensures r.players == m.players && r.bans == m.bans
  {
    if n == 0 then m else CleanupFor(CleanupUpTo(m, n - 1), m.players[n - 1])
  }

  function CleanupAfterBan(m: Match): Match {
    CleanupUpTo(m, |m.players|)
  }

  lemma ShrunkTrans(m1: Match, m2: Match, m3: Match)
    requires Shrunk(m1, m2) && Shrunk(m2, m3)
    ensures Shrunk(m1, m3)
  {
    forall k | k in m3.selections
      ensures SelectionShrunk(m1.selections[k], m3.selections[k])
    {
      assert SelectionShrunk(m1.selections[k], m2.selections[k]);
      assert SelectionShrunk(m2.selections[k], m3.selections[k]);
    }
  }

  lemma BanRespectedShrunk(m1: Match, m2: Match, p: Player, bans: seq<JsValue>)
    requires Shrunk(m1, m2) && BanRespected(m1, p, bans)
    ensures BanRespected(m2, p, bans)
  {
    assert m2.players == m1.players;
    assert Opponent(m2, p.accountId) == Opponent(m1, p.accountId);
  }

  /** After the first `n` visits: only removals happened, and each visited
      player's bans are gone from that player's opponent's picks. */
  lemma {:induction false} CleanupUpToProperties(m: Match, n: nat)
    requires n <= |m.players|
    ensures Shrunk(m, CleanupUpTo(m, n))
    ensures forall i :: 0 <= i < n ==>
      BanRespected(CleanupUpTo(m, n), m.players[i], BansFor(m, m.players[i].accountId))
  {
    if n > 0 {
      var prev := CleanupUpTo(m, n - 1);
      var r := CleanupUpTo(m, n);
      var p := m.players[n - 1];
      CleanupUpToProperties(m, n - 1);
      assert r == CleanupFor(prev, p);
      assert prev.bans == m.bans;
      assert BansFor(prev, p.accountId) == BansFor(m, p.accountId);
      ShrunkTrans(m, prev, r);
      forall i | 0 <= i < n - 1
        ensures BanRespected(r, m.players[i], BansFor(m, m.players[i].accountId))
      {
        BanRespectedShrunk(prev, r, m.players[i], BansFor(m, m.players[i].accountId));
      }
    }
  }

  /** `cleanupSelectionsAfterBan` leaves no opponent pick that the player
      banned, only ever removes picks, unconfirms the selections it shrinks
      and changes nothing else. */
  lemma CleanupAfterBanProperties(m: Match)
    ensures Shrunk(m, CleanupAfterBan(m))
    ensures forall i :: 0 <= i < |m.players| ==>
      BanRespected(CleanupAfterBan(m), m.players[i], BansFor(m, m.players[i].accountId))
  {
    CleanupUpToProperties(m, |m.players|);
  }

  /** When no player's opponent picked something that player banned, the
      cleanup changes nothing. */
  lemma {:induction false} CleanupUpToIdle(m: Match, n: nat)
    requires n <= |m.players|
    requires forall i :: 0 <= i < |m.players| ==>
      BanRespected(m, m.players[i], BansFor(m, m.players[i].accountId))
    ensures CleanupUpTo(m, n) == m
  {
    if n > 0 {
      CleanupUpToIdle(m, n - 1);
      CleanupForIdle(m, m.players[n - 1]);
    }
  }

  lemma CleanupForIdle(m: Match, p: Player)
    requires BanRespected(m, p, BansFor(m, p.accountId))
    ensures CleanupFor(m, p) == m
  {
    var o := Opponent(m, p.accountId);
    if o.Some? && o.value.accountId in m.selections {
      var s := m.selections[o.value.accountId];
      assert StripBanned(s.battlegroups, BansFor(m, p.accountId)) == s.battlegroups;
    }
  }

  lemma CleanupAfterBanIdle(m: Match)
    requires forall i :: 0 <= i < |m.players| ==>
      BanRespected(m, m.players[i], BansFor(m, m.players[i].accountId))
    ensures CleanupAfterBan(m) == m
  {
    CleanupUpToIdle(m, |m.players|);
  }

  /** One visit of the `forEach`: strip `player`'s bans from the opponent's
      picks, unconfirming the selection when anything was removed. */
  method CleanupVisit(r: Match, player: Player) returns (r': Match)
    ensures r' == CleanupFor(r, player)
  {
    r' := r;
    var opponent := Opponent(r, player.accountId);
    if opponent.None? {
      return;
    }
    var bans := BansFor(r, player.accountId);
    var oa := opponent.value.accountId;
    if oa !in r.selections {
      return;
    }
    var selection := r.selections[oa];
    var filtered := StripBanned(selection.battlegroups, bans);
    if |filtered| != |selection.battlegroups| {
      r' := r.(selections := r.selections[oa := selection.(battlegroups := filtered,
                                                          confirmed := false,
                                                          confirmedAt := Null)]);
    }
  }

  /** `cleanupSelectionsAfterBan`, the `forEach` over the players. */
  method CleanupSelectionsAfterBan(m: Match) returns (r: Match)
    ensures r == CleanupAfterBan(m)
  {
    r := m;
    var i := 0;
    while i < |m.players|
      invariant 0 <= i <= |m.players|
      invariant r == CleanupUpTo(m, i)
    {
      r := CleanupVisit(r, m.players[i]);
      i := i + 1;
    }
  }

  // ---------------------------------------------------------------------
  // Validation outcomes

  /** Why a ban or a pick submission is refused (each shows an error toast). */
  datatype Reason =
    | UnknownBattlegroup
    | NoBans
    | DuplicateBans
    | OneBanPerFaction
    | NoFaction
    | WrongPickCount
    | DuplicatePicks
    | WrongFaction
    | OpponentBanned

  datatype Checked<T> = Pass(value: T) | Fail(reason: Reason)

  /** `new Set(xs).size !== xs.length` */
  predicate HasDuplicate(xs: seq<JsValue>) {
    exists i, j :: 0 <= i < j < |xs| && SameValue(xs[i], xs[j])
  }

  function Strs(xs: seq<string>): (r: seq<JsValue>)
    ensures |r| == |xs| && forall i :: 0 <= i < |xs| ==> r[i] == Str(xs[i])
  {
    seq(|xs|, i requires 0 <= i < |xs| => Str(xs[i]))
  }

  // ---------------------------------------------------------------------
  // handleBanSubmit

  /** `form.elements['ban' + index]?.value?.toString()`; a missing field reads
      as empty, which the loop skips just like an empty one. */
  function BanField(form: map<string, string>, index: nat): string {
    var key := "ban" + NatToString(index);
    if key in form then form[key] else ""
  }

  /** The ban fields 1..n, read in order: an unknown id stops everything,
      empty fields are skipped. */
  function CollectBans(form: map<string, string>, n: nat): (r: Checked<seq<string>>)
    ensures r.Fail? ==> r.reason == UnknownBattlegroup
    ensures r.Pass? ==> |r.value| <= n
    ensures r.Pass? ==> forall i :: 0 <= i < |r.value| ==> r.value[i] != "" && IsKnown(Str(r.value[i]))
  {
    if n == 0 then Pass([])
    else
      match CollectBans(form, n - 1)
      case Fail(e) => Fail(e)
      case Pass(bans) =>
        var value := BanField(form, n);
        if value == "" then Pass(bans)
        else if !IsKnown(Str(value)) then Fail(UnknownBattlegroup)
        else Pass(bans + [value])
  }

  /** The fields are accepted exactly when none holds an unknown id. */
  lemma {:induction false} CollectBansPasses(form: map<string, string>, n: nat)
    ensures CollectBans(form, n).Pass? <==> forall k :: 1 <= k <= n ==> FieldAcceptable(form, k)
  {
    if n > 0 {
      CollectBansPasses(form, n - 1);
      assert (forall k :: 1 <= k <= n ==> FieldAcceptable(form, k)) <==>
        (forall k :: 1 <= k <= n - 1 ==> FieldAcceptable(form, k)) && FieldAcceptable(form, n);
      assert CollectBans(form, n).Pass? <==> CollectBans(form, n - 1).Pass? && FieldAcceptable(form, n);
    }
  }

  /** A ban field that is empty or names a known battlegroup. */
  predicate FieldAcceptable(form: map<string, string>, k: nat) {
    BanField(form, k) == "" || IsKnown(Str(BanField(form, k)))
  }

  /** Every non-empty ban field lands in the collected list. */
  lemma {:induction false} CollectBansKeepsFields(form: map<string, string>, n: nat, k: nat)
    requires CollectBans(form, n).Pass?
    requires 1 <= k <= n && BanField(form, k) != ""
    ensures BanField(form, k) in CollectBans(form, n).value
  {
    CollectBansStep(form, n);
    var prev := CollectBans(form, n - 1).value;
    var cur := CollectBans(form, n).value;
    var field := BanField(form, n);
    if k < n {
      CollectBansKeepsFields(form, n - 1, k);
      InAppended(prev, cur, field, BanField(form, k));
    } else {
      assert cur == prev + [field];
      assert cur[|prev|] == field;
    }
  }

  lemma InAppended(prev: seq<string>, cur: seq<string>, field: string, x: string)
    requires cur == prev || cur == prev + [field]
    requires x in prev
    ensures x in cur
  {
    if cur != prev {
      var j :| 0 <= j < |prev| && prev[j] == x;
      assert cur[j] == x;
    }
  }

  /** Reading field `n` either skips it or appends it. */
  lemma CollectBansStep(form: map<string, string>, n: nat)
    requires n > 0 && CollectBans(form, n).Pass?
    ensures CollectBans(form, n - 1).Pass?
    ensures BanField(form, n) == "" ==> CollectBans(form, n) == CollectBans(form, n - 1)
    ensures BanField(form, n) != "" ==>
      CollectBans(form, n).value == CollectBans(form, n - 1).value + [BanField(form, n)]
  {
  }

  /** With every field 1..n empty nothing is collected. */
  lemma {:induction false} CollectBansNone(form: map<string, string>, n: nat)
    requires forall k :: 1 <= k <= n ==> BanField(form, k) == ""
    ensures CollectBans(form, n) == Pass([])
  {
    if n > 0 {
      CollectBansNone(form, n - 1);
    }
  }

  /** Whatever is collected came from some non-empty field. */
  lemma {:induction false} CollectBansFromFields(form: map<string, string>, n: nat)
    requires CollectBans(form, n).Pass? && |CollectBans(form, n).value| > 0
    ensures exists k :: 1 <= k <= n && BanField(form, k) != ""
  {
    var prev := CollectBans(form, n - 1);
    if BanField(form, n) == "" {
      assert prev == CollectBans(form, n);
      CollectBansFromFields(form, n - 1);
    }
  }

  /** The `for` loop over `ban1` .. `banN` of `handleBanSubmit`. */
  method CollectBanFields(form: map<string, string>) returns (r: Checked<seq<string>>)
    ensures r == CollectBans(form, MaxBanPerPlayer)
  {
    var bans: seq<string> := [];
    var index := 1;
    while index <= MaxBanPerPlayer
      invariant 1 <= index <= MaxBanPerPlayer + 1
      invariant CollectBans(form, index - 1) == Pass(bans)
    {
      var value := BanField(form, index);
      if value == "" {
        index := index + 1;
        continue;
      }
      if !IsKnown(Str(value)) {
        CollectBansFailStays(form, index, MaxBanPerPlayer);
        return Fail(UnknownBattlegroup);
      }
      bans := bans + [value];
      index := index + 1;
    }
    return Pass(bans);
  }

  lemma {:induction false} CollectBansFailStays(form: map<string, string>, k: nat, n: nat)
    requires k <= n && CollectBans(form, k).Fail?
    ensures CollectBans(form, n) == Fail(UnknownBattlegroup)
  {
    if k < n {
      CollectBansFailStays(form, k, n - 1);
    }
  }

  /** `BATTLEGROUP_MAP.get(id)?.factionId || null` */
  function BanFactions(bans: seq<string>): (r: seq<JsValue>)
    ensures |r| == |bans|
    ensures forall i :: 0 <= i < |bans| && IsKnown(Str(bans[i])) ==> r[i] == Str(FactionOf(Str(bans[i])).value)
  {
    seq(|bans|, i requires 0 <= i < |bans| =>
      match FactionOf(Str(bans[i])) case Some(f) => Str(f) case None => Null)
  }

  /** The checks on the collected list, in the order the handler makes them. */
  function BanProblem(bans: seq<string>): (r: Option<Reason>)
    ensures r.None? <==> |bans| > 0 && !HasDuplicate(Strs(bans)) && !HasDuplicate(BanFactions(bans))
    ensures r.None? ==> forall i, j :: 0 <= i < j < |bans| ==> bans[i] != bans[j]
    ensures r.None? && (forall i :: 0 <= i < |bans| ==> IsKnown(Str(bans[i]))) ==>
      forall i, j :: 0 <= i < j < |bans| ==> FactionOf(Str(bans[i])) != FactionOf(Str(bans[j]))
  {
    if |bans| == 0 then Some(NoBans)
    else if HasDuplicate(Strs(bans)) then Some(DuplicateBans)
    else if HasDuplicate(BanFactions(bans)) then Some(OneBanPerFaction)
    else
      assert forall i, j :: 0 <= i < j < |bans| ==> bans[i] != bans[j] by {
        forall i, j | 0 <= i < j < |bans| ensures bans[i] != bans[j] {
          assert !SameValue(Strs(bans)[i], Strs(bans)[j]);
        }
      }
      None
  }

  /** What an accepted ban list does: it replaces the player's bans, strips
      the banned ids from opponents' picks, repairs the selections, and once
      every player has banned moves to `locked` or back to `picking`. */
  function AfterBans(m: Match, a: string, bans: seq<string>): (r: Match)
  {
    var m1 := m.(bans := m.bans[a := Strs(bans)]);
    var m2 := RepairSelections(CleanupAfterBan(m1));
    if HaveAllBans(m2) then m2.(phase := if AreSelectionsLocked(m2) then Locked else Picking)
    else m2
  }

  /** The outcome of submitting the ban form as player `a`. */
  function SubmitBans(m: Match, a: string, form: map<string, string>): (r: Checked<Match>)
    ensures r.Pass? ==> exists bans :: CollectBans(form, MaxBanPerPlayer) == Pass(bans) && r.value == AfterBans(m, a, bans)
  {
    match CollectBans(form, MaxBanPerPlayer)
    case Fail(e) => Fail(e)
    case Pass(bans) =>
      match BanProblem(bans)
      case Some(e) => Fail(e)
      case None => Pass(AfterBans(m, a, bans))
  }

  /** When the ban form is refused, and for which reason. */
  lemma SubmitBansRefusals(m: Match, a: string, form: map<string, string>)
    ensures (exists k :: 1 <= k <= MaxBanPerPlayer && !FieldAcceptable(form, k))
      ==> SubmitBans(m, a, form) == Fail(UnknownBattlegroup)
    ensures (forall k :: 1 <= k <= MaxBanPerPlayer ==> BanField(form, k) == "")
      ==> SubmitBans(m, a, form) == Fail(NoBans)
    ensures SubmitBans(m, a, form).Pass? ==>
      exists k :: 1 <= k <= MaxBanPerPlayer && BanField(form, k) != ""
  {
    CollectBansPasses(form, MaxBanPerPlayer);
    if (forall k :: 1 <= k <= MaxBanPerPlayer ==> BanField(form, k) == "") {
      CollectBansNone(form, MaxBanPerPlayer);
    }
    if SubmitBans(m, a, form).Pass? {
      CollectBansFromFields(form, MaxBanPerPlayer);
    }
  }

  /** An accepted ban list is stored for the player; players, the other
      players' bans and everything but selections and phase are unchanged. */
  lemma AfterBansProperties(m: Match, a: string, bans: seq<string>)
    ensures AfterBans(m, a, bans).bans == m.bans[a := Strs(bans)]
    ensures AfterBans(m, a, bans).players == m.players
    ensures AfterBans(m, a, bans) == m.(bans := m.bans[a := Strs(bans)],
                                        selections := AfterBans(m, a, bans).selections,
                                        phase := AfterBans(m, a, bans).phase)
  {
    var m1 := m.(bans := m.bans[a := Strs(bans)]);
    var c := CleanupAfterBan(m1);
    var m2 := RepairSelections(c);
    CleanupAfterBanProperties(m1);
    assert m2 == c.(selections := m2.selections);
  }

  /** After the cleanup no opponent keeps a pick any player banned. */
  lemma AfterBansRespected(m: Match, a: string, bans: seq<string>)
    ensures forall i :: 0 <= i < |m.players| ==>
      BanRespected(AfterBans(m, a, bans), m.players[i], BansFor(AfterBans(m, a, bans), m.players[i].accountId))
  {
    var m1 := m.(bans := m.bans[a := Strs(bans)]);
    var c := CleanupAfterBan(m1);
    var r := AfterBans(m, a, bans);
    CleanupAfterBanProperties(m1);
    AfterBansProperties(m, a, bans);
    forall i | 0 <= i < |m.players|
      ensures BanRespected(r, m.players[i], BansFor(r, m.players[i].accountId))
    {
      var p := m.players[i];
      assert BanRespected(c, p, BansFor(m1, p.accountId));
      assert Opponent(r, p.accountId) == Opponent(c, p.accountId);
      assert BansFor(r, p.accountId) == BansFor(m1, p.accountId);
    }
  }

  /** Once every player has banned, an accepted ban list settles the phase:
      `locked` exactly when both selections are locked, `picking` otherwise;
      before that the phase is left as it was. */
  lemma AfterBansPhase(m: Match, a: string, bans: seq<string>)
    requires |bans| >= MaxBanPerPlayer
    ensures var r := AfterBans(m, a, bans);
      HaveAllBans(r) <==> forall i :: 0 <= i < |m.players| && m.players[i].accountId != a ==>
        |BansFor(m, m.players[i].accountId)| >= MaxBanPerPlayer
    ensures var r := AfterBans(m, a, bans);
      HaveAllBans(r) ==> (r.phase == Locked <==> AreSelectionsLocked(r)) && (r.phase == Picking <==> !AreSelectionsLocked(r))
    ensures var r := AfterBans(m, a, bans); !HaveAllBans(r) ==> r.phase == m.phase
  {
    var r := AfterBans(m, a, bans);
    AfterBansProperties(m, a, bans);
    assert forall x :: BansFor(r, x) == if x == a then Strs(bans) else BansFor(m, x);
  }

  /** `handleBanSubmit` adds the warning key `matchId:accountId` only for a
      short ban list; with one ban per player an accepted list is never short. */
  function BanWarning(overrides: set<string>, matchId: JsValue, a: string, bans: seq<string>): (r: set<string>)
    ensures |bans| >= MaxBanPerPlayer ==> r == overrides
    ensures |bans| < MaxBanPerPlayer ==> r == overrides + {ToStr(matchId) + ":" + a}
  {
    if |bans| < MaxBanPerPlayer then overrides + {ToStr(matchId) + ":" + a} else overrides
  }

  /** Whatever match it is applied to, an accepted ban form leaves the
      warning overrides as they were. */
  lemma SubmitBansKeepsOverrides(m: Match, a: string, form: map<string, string>, overrides: set<string>)
    requires SubmitBans(m, a, form).Pass?
    ensures BanWarning(overrides, m.id, a, CollectBans(form, MaxBanPerPlayer).value) == overrides
  {
    AcceptedBansSkipWarning(form, overrides, m.id, a);
  }

  lemma AcceptedBansSkipWarning(form: map<string, string>, overrides: set<string>, matchId: JsValue, a: string)
    requires CollectBans(form, MaxBanPerPlayer).Pass?
    requires BanProblem(CollectBans(form, MaxBanPerPlayer).value).None?
    ensures BanWarning(overrides, matchId, a, CollectBans(form, MaxBanPerPlayer).value) == overrides
  {
  }

  // ---------------------------------------------------------------------
  // handleSelectionSubmit

  /** One pick passes the loop's three checks. */
  predicate PickAllowed(id: JsValue, faction: JsValue, opponentBans: seq<JsValue>) {
    Lookup(id).Some? && faction == Str(Lookup(id).value.factionId) && !Includes(opponentBans, id)
  }

  /** The three checks of one loop iteration, in order. */
  function PickCheck(id: JsValue, faction: JsValue, opponentBans: seq<JsValue>): (r: Option<Reason>)
    ensures r.None? <==> PickAllowed(id, faction, opponentBans)
    ensures r.Some? ==> r.value in {UnknownBattlegroup, WrongFaction, OpponentBanned}
  {
    var meta := Lookup(id);
    if meta.None? then Some(UnknownBattlegroup)
    else if faction != Str(meta.value.factionId) then Some(WrongFaction)
    else if Includes(opponentBans, id) then Some(OpponentBanned)
    else None
  }

  /** The first failing check of the `for (const id of picks)` loop. */
  function PickProblem(picks: seq<JsValue>, faction: JsValue, opponentBans: seq<JsValue>): (r: Option<Reason>)
    ensures r.None? <==> forall i :: 0 <= i < |picks| ==> PickAllowed(picks[i], faction, opponentBans)
    ensures r.Some? ==> r.value in {UnknownBattlegroup, WrongFaction, OpponentBanned}
  {
    if picks == [] then None
    else
      var first := PickCheck(picks[0], faction, opponentBans);
      if first.Some? then first
      else
        var rest := PickProblem(picks[1..], faction, opponentBans);
        assert forall i :: 1 <= i < |picks| ==> picks[i] == picks[1..][i - 1];
        rest
  }

  /** The loop itself, returning at the first refused id. */
  method CheckPicks(picks: seq<JsValue>, faction: JsValue, opponentBans: seq<JsValue>) returns (r: Option<Reason>)
    ensures r == PickProblem(picks, faction, opponentBans)
  {
    var i := 0;
    while i < |picks|
      invariant 0 <= i <= |picks|
      invariant PickProblem(picks[i..], faction, opponentBans) == PickProblem(picks, faction, opponentBans)
    {
      var id := picks[i];
      assert picks[i..][0] == id && picks[i..][1..] == picks[i + 1..];
      var meta := Lookup(id);
      if meta.None? {
        return Some(UnknownBattlegroup);
      }
      if faction != Str(meta.value.factionId) {
        return Some(WrongFaction);
      }
      if Includes(opponentBans, id) {
        return Some(OpponentBanned);
      }
      i := i + 1;
    }
    assert picks[i..] == [];
    return None;
  }

  /** `opponent ? match.bans[opponent.accountId] || [] : []` */
  function OpponentBans(m: Match, a: string): seq<JsValue> {
    match Opponent(m, a)
    case None => []
    case Some(o) => BansFor(m, o.accountId)
  }

  /** The checks of `handleSelectionSubmit`, in order. */
  function SelectionProblem(m: Match, a: string): (r: Option<Reason>)
    requires a in m.selections
    ensures r.None? <==>
      var s := m.selections[a];
      var picks := FilterTruthy(s.battlegroups);
      && Truthy(s.faction)
      && |picks| == MaxPickSelection
      && !HasDuplicate(picks)
      && forall i :: 0 <= i < |picks| ==> PickAllowed(picks[i], s.faction, OpponentBans(m, a))
  {
    var s := m.selections[a];
    var picks := FilterTruthy(s.battlegroups);
    if !Truthy(s.faction) then Some(NoFaction)
    else if |picks| != MaxPickSelection then Some(WrongPickCount)
    else if HasDuplicate(picks) then Some(DuplicatePicks)
    else PickProblem(picks, s.faction, OpponentBans(m, a))
  }

  /** An accepted selection: picks stored, confirmed now; once every player
      is locked the phase moves to `locked`, or to `banning` while bans are
      missing. */
  function AcceptSelection(m: Match, a: string, picks: seq<JsValue>, now: string): (r: Match)
    requires a in m.selections
  {
    var m1 := m.(selections := m.selections[a := m.selections[a].(battlegroups := picks, confirmed := true,
                                                                  confirmedAt := Str(now))]);
    if AreSelectionsLocked(m1) then m1.(phase := if HaveAllBans(m1) then Locked else Banning) else m1
  }

  /** The outcome of confirming the selection of player `a`; a player with no
      selection object makes the handler throw on `selection.faction`. */
  function SubmitSelection(m: Match, a: string, now: string): (r: Result<Checked<Match>>)
    ensures r.Throws? <==> a !in m.selections
    ensures r.Ok? && r.value.Pass? ==> r.value.value == AcceptSelection(m, a, FilterTruthy(m.selections[a].battlegroups), now)
  {
    if a !in m.selections then Throws(TypeError)
    else
      match SelectionProblem(m, a)
      case Some(e) => Ok(Fail(e))
      case None => Ok(Pass(AcceptSelection(m, a, FilterTruthy(m.selections[a].battlegroups), now)))
  }

  /** An accepted confirmation locks the player's selection with three
      distinct picks of the chosen faction, none banned by the opponent;
      nothing but that selection and the phase changes. */
  lemma SubmitSelectionAccepted(m: Match, a: string, now: string)
    requires a in m.selections
    requires SubmitSelection(m, a, now).Ok? && SubmitSelection(m, a, now).value.Pass?
    ensures var r := SubmitSelection(m, a, now).value.value;
      && SelectionLocked(r, a)
      && r.selections[a].faction == m.selections[a].faction
      && r.selections[a].confirmedAt == Str(now)
      && !HasDuplicate(r.selections[a].battlegroups)
      && (forall i :: 0 <= i < MaxPickSelection ==>
            FactionOf(r.selections[a].battlegroups[i]) == Some(m.selections[a].faction.s)
            && !Includes(OpponentBans(m, a), r.selections[a].battlegroups[i]))
      && r == m.(selections := m.selections[a := r.selections[a]], phase := r.phase)
  {
    var picks := FilterTruthy(m.selections[a].battlegroups);
    assert SelectionProblem(m, a).None?;
    forall i | 0 <= i < MaxPickSelection
      ensures FactionOf(picks[i]) == Some(m.selections[a].faction.s)
    {
      assert PickAllowed(picks[i], m.selections[a].faction, OpponentBans(m, a));
      FactionOfLookup(picks[i]);
    }
  }

  /** `FactionOf` agrees with the catalog entry `Lookup` finds. */
  lemma FactionOfLookup(id: JsValue)
    requires Lookup(id).Some?
    ensures FactionOf(id) == Some(Lookup(id).value.factionId)
  {
  }

  /** When the accepted confirmation completes the locks, the phase becomes
      `locked` if all bans are in and `banning` otherwise; until then it is
      left as it was. */
  lemma SubmitSelectionPhase(m: Match, a: string, now: string)
    requires a in m.selections
    requires SubmitSelection(m, a, now).Ok? && SubmitSelection(m, a, now).value.Pass?
    ensures var r := SubmitSelection(m, a, now).value.value;
      (AreSelectionsLocked(r) <==> forall i :: 0 <= i < |m.players| && m.players[i].accountId != a ==>
         SelectionLocked(m, m.players[i].accountId))
      && (AreSelectionsLocked(r) ==> (r.phase == Locked <==> HaveAllBans(m)) && (r.phase == Banning <==> !HaveAllBans(m)))
      && (!AreSelectionsLocked(r) ==> r.phase == m.phase)
  {
    assert SelectionProblem(m, a).None?;
    AcceptSelectionPhase(m, a, FilterTruthy(m.selections[a].battlegroups), now);
  }

  lemma AcceptSelectionPhase(m: Match, a: string, picks: seq<JsValue>, now: string)
    requires a in m.selections && |picks| == MaxPickSelection
    ensures var r := AcceptSelection(m, a, picks, now);
      (AreSelectionsLocked(r) <==> forall i :: 0 <= i < |m.players| && m.players[i].accountId != a ==>
         SelectionLocked(m, m.players[i].accountId))
      && (AreSelectionsLocked(r) ==> (r.phase == Locked <==> HaveAllBans(m)) && (r.phase == Banning <==> !HaveAllBans(m)))
      && (!AreSelectionsLocked(r) ==> r.phase == m.phase)
  {
    var m1 := m.(selections := m.selections[a := m.selections[a].(battlegroups := picks, confirmed := true,
                                                                  confirmedAt := Str(now))]);
    assert forall x :: BansFor(m1, x) == BansFor(m, x);
    assert HaveAllBans(m1) == HaveAllBans(m);
    assert forall x :: SelectionLocked(m1, x) <==> x == a || SelectionLocked(m, x);
  }

  // ---------------------------------------------------------------------
  // ensureMatchPhaseProgression

  /** The phase repair run on the active match each time it is looked up. */
  function EnsurePhase(m: Match): (r: Match)
    ensures r == m.(phase := r.phase)
    ensures m.phase in {Waiting, ReadyCheck, Locked} ==> r == m
  {
    if m.phase == MapSelected && |m.players| == 2 && AllReady(m) then m.(phase := Picking)
    else if m.phase == Picking && AreSelectionsLocked(m) then m.(phase := if HaveAllBans(m) then Locked else Banning)
    else if m.phase == Banning && !AreSelectionsLocked(m) && !HaveAllBans(m) then m.(phase := Picking)
    else if m.phase == Banning && HaveAllBans(m) then m.(phase := if AreSelectionsLocked(m) then Locked else Picking)
    else m
  }

  /** The repair only ever moves to `locked` with every ban in and every
      selection locked, agrees with the phase rules of the ban and pick
      handlers, and leaves `picking`, `banning` and `map-selected` alone
      when no rule applies. */
  lemma EnsurePhaseProperties(m: Match)
    ensures EnsurePhase(m).phase == Locked && m.phase != Locked ==> HaveAllBans(m) && AreSelectionsLocked(m)
    ensures m.phase == Banning && HaveAllBans(m) ==>
      EnsurePhase(m).phase == (if AreSelectionsLocked(m) then Locked else Picking)
    ensures m.phase == Picking && AreSelectionsLocked(m) ==>
      EnsurePhase(m).phase == (if HaveAllBans(m) then Locked else Banning)
    ensures m.phase == Picking && !AreSelectionsLocked(m) ==> EnsurePhase(m) == m
    ensures m.phase == MapSelected ==>
      (EnsurePhase(m).phase == Picking <==> |m.players| == 2 && AllReady(m))
    ensures m.phase == MapSelected && !EnsurePhase(m).phase.Picking? ==> EnsurePhase(m) == m
    ensures m.phase == Banning && AreSelectionsLocked(m) && !HaveAllBans(m) ==> EnsurePhase(m) == m
  {
  }

  /** Repairing a settled phase a second time changes nothing more. */
  lemma EnsurePhaseSettles(m: Match)
    requires EnsurePhase(m).phase in {Locked, Waiting, ReadyCheck}
    ensures EnsurePhase(EnsurePhase(m)) == EnsurePhase(m)
  {
  }

  // ---------------------------------------------------------------------
  // handlePlayerReady and beginMapSelection

  /** Index of the first player with account `a`, or -1. */
  function PlayerIndex(ps: seq<Player>, a: string): (i: int)
    ensures -1 <= i < |ps|
    ensures i >= 0 ==> ps[i].accountId == a && forall j :: 0 <= j < i ==> ps[j].accountId != a
    ensures i < 0 ==> a !in PlayerIds(ps)
  {
    if ps == [] then -1
    else if ps[0].accountId == a then 0
    else
      var k := PlayerIndex(ps[1..], a);
      assert k < 0 ==> forall j :: 0 <= j < |ps| ==> ps[j].accountId != a by {
        if k < 0 {
          forall j | 0 <= j < |ps| ensures ps[j].accountId != a {
            if j > 0 { assert ps[j] == ps[1..][j - 1]; }
          }
        }
      }
      if k < 0 then -1 else k + 1
  }

  /** Marks the first player with account `a` ready at `now`; `None` when
      there is no such player or that player is ready already. */
  function MarkReady(m: Match, a: string, now: string): (r: Option<Match>)
    ensures r.None? <==> PlayerIndex(m.players, a) < 0 || m.players[PlayerIndex(m.players, a)].ready
  {
    var i := PlayerIndex(m.players, a);
    if i < 0 || m.players[i].ready then None
    else
      var m1 := m.(players := m.players[i := m.players[i].(ready := true, readyAt := Str(now))]);
      Some(if m1.phase == Waiting then m1.(phase := ReadyCheck) else m1)
  }

  /** `tournament.mapPool?.length ? tournament.mapPool : DEFAULT_MAP_POOL` */
  function PoolOf(t: Tournament): (pool: seq<JsValue>)
    ensures |pool| > 0
  {
    if |t.mapPool| > 0 then t.mapPool else DefaultPool()
  }

  /** `beginMapSelection` for match `mi`. The random index is
      `draw % |pool|`, so every map of the pool can be drawn. */
  function BeginMapSelection(t: Tournament, mi: nat, draw: nat, now: string): (r: Tournament)
    requires mi < |t.matches|
  {
    var m := t.matches[mi];
    if Truthy(m.mapName) then t
    else
      var pool := PoolOf(t);
      t.(status := Live,
         matches := t.matches[mi := m.(mapName := pool[draw % |pool|], mapDecidedAt := Str(now), phase := MapSelected)])
  }

  /** `handlePlayerReady` on match `mi` of tournament `t`. */
  function ReadyUp(t: Tournament, mi: nat, a: string, now: string, draw: nat): (r: Tournament)
    requires mi < |t.matches|
    ensures |r.matches| == |t.matches|
  {
    match MarkReady(t.matches[mi], a, now)
    case None => t
    case Some(m1) =>
      var t1 := t.(matches := t.matches[mi := m1]);
      if AllReady(m1) then BeginMapSelection(t1, mi, draw, now) else t1
  }

  /** Readiness: nothing changes for a stranger or a player who is ready
      already; otherwise exactly that player becomes ready at `now`, a
      waiting match enters the ready check, and when the last player is
      ready a map is drawn from the pool (unless one is set) and the
      tournament goes live. Other matches are untouched. */
  lemma ReadyUpProperties(t: Tournament, mi: nat, a: string, now: string, draw: nat)
    requires mi < |t.matches|
    ensures var m := t.matches[mi]; var i := PlayerIndex(m.players, a);
      (i < 0 || m.players[i].ready) ==> ReadyUp(t, mi, a, now, draw) == t
    ensures var m := t.matches[mi]; var i := PlayerIndex(m.players, a);
      var r := ReadyUp(t, mi, a, now, draw); var m' := r.matches[mi];
      (i >= 0 && !m.players[i].ready) ==>
        && (forall j :: 0 <= j < |t.matches| && j != mi ==> r.matches[j] == t.matches[j])
        && |m'.players| == |m.players|
        && m'.players[i] == m.players[i].(ready := true, readyAt := Str(now))
        && (forall j :: 0 <= j < |m.players| && j != i ==> m'.players[j] == m.players[j])
        && m'.selections == m.selections && m'.bans == m.bans
        && (m.phase == Waiting && !AllReady(m') ==> m'.phase == ReadyCheck)
        && (AllReady(m') && !Truthy(m.mapName) ==>
              m'.mapName in PoolOf(t) && m'.mapDecidedAt == Str(now) && m'.phase == MapSelected && r.status == Live)
        && (Truthy(m.mapName) ==> m'.mapName == m.mapName && r.status == t.status)
  {
  }

  /** The 5-second timer of `beginMapSelection`: the phase becomes `picking`
      whatever it is by then. */
  function RevealMap(m: Match): (r: Match)
    ensures r == m.(phase := Picking)
  {
    m.(phase := Picking)
  }

  /** `isTournamentRelevantForViewer` */
  predicate RelevantForViewer(t: Tournament) {
    t.status == Live || t.status == Completed
    || exists i :: 0 <= i < |t.matches| && t.matches[i].phase !in {Waiting, ReadyCheck}
  }

  /** Drawing the map makes the tournament relevant to viewers. */
  lemma ReadyUpRelevance(t: Tournament, mi: nat, a: string, now: string, draw: nat)
    requires mi < |t.matches|
    requires RelevantForViewer(t) || (AllReady(ReadyUp(t, mi, a, now, draw).matches[mi]) && !Truthy(t.matches[mi].mapName)
                                       && MarkReady(t.matches[mi], a, now).Some?)
    ensures RelevantForViewer(ReadyUp(t, mi, a, now, draw))
  {
    var r := ReadyUp(t, mi, a, now, draw);
    ReadyUpProperties(t, mi, a, now, draw);
    if RelevantForViewer(t) && MarkReady(t.matches[mi], a, now).Some? && !(r.status == Live) {
      if !(t.status == Live || t.status == Completed) {
        var i :| 0 <= i < |t.matches| && t.matches[i].phase !in {Waiting, ReadyCheck};
        if i == mi {
          assert r.matches[mi].phase != Waiting && r.matches[mi].phase != ReadyCheck;
        } else {
          assert r.matches[i] == t.matches[i];
        }
      }
    }
  }

  // ---------------------------------------------------------------------
  // handlePlayerMatchFlowChange

  /** Choosing a faction: `faction = value || null`, picks cleared,
      unconfirmed, then the in-place repair. */
  function ChangeFaction(m: Match, a: string, value: string): (r: Match)
  {
    if a !in m.selections then m
    else RepairSelections(m.(selections := m.selections[a := Selection(Or(Str(value), Null), [], false, Null)]))
  }

  lemma ChangeFactionProperties(m: Match, a: string, value: string)
    ensures a !in m.selections ==> ChangeFaction(m, a, value) == m
    ensures a in m.selections ==>
      var r := ChangeFaction(m, a, value);
      && r.selections.Keys == m.selections.Keys
      && r.selections[a] == Selection(if value == "" then Null else Str(value), [], false, Null)
      && (forall k :: k in m.selections && k != a ==>
            r.selections[k] == if k in PlayerIds(m.players) then RepairSelection(m.selections[k]) else m.selections[k])
      && r == m.(selections := r.selections)
  {
  }

  /** `Number.parseInt(pickIndex || '0', 10) - 1`, refused when NaN or negative. */
  function PickSlot(pickIndex: Option<string>): (slot: Option<nat>)
    ensures pickIndex.None? || pickIndex == Some("") ==> slot.None?
  {
    var text := if pickIndex.Some? && pickIndex.value != "" then pickIndex.value else "0";
    match ParseInt(text)
    case None => None
    case Some(n) => if n - 1 < 0 then None else Some(n - 1)
  }

  /** `battlegroups[slot] = value || ''` (a JavaScript array grows to reach
      the slot; the gap is modelled as empty strings), then
      `.map((id) => id || '').slice(0, 3)`. */
  function EditSlot(bs: seq<JsValue>, slot: nat, value: string): (r: seq<JsValue>)
    ensures |r| == var len := if slot < |bs| then |bs| else slot + 1;
                   if len <= MaxPickSelection then len else MaxPickSelection
    ensures slot < MaxPickSelection ==> |r| > slot && r[slot] == Str(value)
    ensures forall i :: 0 <= i < |r| && i != slot && i < |bs| && Truthy(bs[i]) ==> r[i] == bs[i]
    ensures forall i :: 0 <= i < |r| && i != slot && (i >= |bs| || !Truthy(bs[i])) ==> r[i] == Str("")
  {
    var v := Or(Str(value), Str(""));
    var filled := if slot < |bs| then bs[slot := v] else bs + seq(slot - |bs|, _ => Str("")) + [v];
    Take(seq(|filled|, i requires 0 <= i < |filled| => Or(filled[i], Str(""))), MaxPickSelection)
  }

  /** Choosing the battlegroup of one pick slot. */
  function ChangePick(m: Match, a: string, pickIndex: Option<string>, value: string): (r: Match)
  {
    if a !in m.selections then m
    else
      match PickSlot(pickIndex)
      case None => m
      case Some(slot) =>
        var s := m.selections[a];
        RepairSelections(m.(selections := m.selections[a := s.(battlegroups := EditSlot(s.battlegroups, slot, value),
                                                               confirmed := false, confirmedAt := Null)]))
  }

  lemma FilterTruthyFalsy(e: seq<JsValue>)
    requires forall i :: 0 <= i < |e| ==> !Truthy(e[i])
    ensures FilterTruthy(e) == []
  {
    if e != [] {
      FilterTruthyFalsy(e[1..]);
    }
  }

  /** Falsy padding after truthy picks is dropped by the filter. */
  lemma {:induction false} FilterTruthyPadded(bs: seq<JsValue>, e: seq<JsValue>)
    requires |bs| <= |e|
    requires forall i :: 0 <= i < |bs| ==> Truthy(bs[i]) && e[i] == bs[i]
    requires forall i :: |bs| <= i < |e| ==> !Truthy(e[i])
    ensures FilterTruthy(e) == bs
  {
    if bs == [] {
      FilterTruthyFalsy(e);
    } else {
      assert Truthy(e[0]);
      assert FilterTruthy(e) == [e[0]] + FilterTruthy(e[1..]);
      var bs', e' := bs[1..], e[1..];
      assert forall i :: 0 <= i < |bs'| ==> Truthy(bs'[i]) && e'[i] == bs'[i] by {
        forall i | 0 <= i < |bs'| ensures Truthy(bs'[i]) && e'[i] == bs'[i] {
          assert bs'[i] == bs[i + 1] && e'[i] == e[i + 1];
        }
      }
      assert forall i :: |bs'| <= i < |e'| ==> !Truthy(e'[i]) by {
        forall i | |bs'| <= i < |e'| ensures !Truthy(e'[i]) {
          assert e'[i] == e[i + 1];
        }
      }
      FilterTruthyPadded(bs', e');
      assert bs == [bs[0]] + bs';
    }
  }

  /** The picks an edit leaves once the repair has run. */
  lemma EditSlotPicks(bs: seq<JsValue>, slot: nat, value: string)
    ensures var p := Take(FilterTruthy(EditSlot(bs, slot, value)), MaxPickSelection);
      && (slot < MaxPickSelection && value != "" ==> Str(value) in p)
      && ((forall i :: 0 <= i < |bs| ==> Truthy(bs[i])) && |bs| <= MaxPickSelection && slot < |bs| && value != "" ==>
            p == bs[slot := Str(value)])
      && ((forall i :: 0 <= i < |bs| ==> Truthy(bs[i])) && |bs| <= MaxPickSelection && slot >= MaxPickSelection ==>
            p == bs)
  {
    var e := EditSlot(bs, slot, value);
    assert Take(FilterTruthy(e), MaxPickSelection) == FilterTruthy(e);
    if slot < MaxPickSelection && value != "" {
      assert e[slot] in e;
    }
    if (forall i :: 0 <= i < |bs| ==> Truthy(bs[i])) && |bs| <= MaxPickSelection {
      if slot < |bs| && value != "" {
        assert e == bs[slot := Str(value)];
      }
      if slot >= MaxPickSelection {
        FilterTruthyPadded(bs, e);
      }
    }
  }

  /** Editing a slot unconfirms the selection; a chosen id in one of the first
      three slots is kept; on a repaired selection, replacing an existing
      pick with a chosen id changes just that pick, and a slot past the
      third changes no pick. */
  lemma ChangePickProperties(m: Match, a: string, pickIndex: Option<string>, value: string)
    requires a in m.selections && a in PlayerIds(m.players) && PickSlot(pickIndex).Some?
    ensures var r := ChangePick(m, a, pickIndex, value); var slot := PickSlot(pickIndex).value;
      && !r.selections[a].confirmed && r.selections[a].confirmedAt == Null
      && r.selections[a].faction == Or(m.selections[a].faction, Null)
      && (slot < MaxPickSelection && value != "" ==> Str(value) in r.selections[a].battlegroups)
      && (Repaired(m.selections[a]) && slot < |m.selections[a].battlegroups| && value != "" ==>
            r.selections[a].battlegroups == m.selections[a].battlegroups[slot := Str(value)])
      && (Repaired(m.selections[a]) && slot >= MaxPickSelection ==>
            r.selections[a].battlegroups == m.selections[a].battlegroups)
  {
    var slot := PickSlot(pickIndex).value;
    var s := m.selections[a];
    var edited := s.(battlegroups := EditSlot(s.battlegroups, slot, value), confirmed := false, confirmedAt := Null);
    var r := ChangePick(m, a, pickIndex, value);
    assert r.selections[a] == RepairSelection(edited);
    EditSlotPicks(s.battlegroups, slot, value);
  }
}
