/** Merge-by-key with a JavaScript `Map`: `map.set(k, v)` keeps a key's
    first insertion position and its last value, and `map.values()`
    lists values in insertion order. `mergeUsers`, `mergeTournaments` and
    `getTournamentParticipants` are loops over such a map. */
module Merge {
  import opened Wrappers
  import opened Js
  import opened MatchModel
  import opened Normalize
  import opened Records

  datatype Entry<V> = Entry(key: JsValue, value: V)

  /** The position of key `k` in the map, or -1. */
  function FindKey<V>(es: seq<Entry<V>>, k: JsValue): (i: int)
    ensures -1 <= i < |es|
    ensures i >= 0 ==> SameValue(es[i].key, k) && forall j :: 0 <= j < i ==> !SameValue(es[j].key, k)
    ensures i < 0 ==> forall j :: 0 <= j < |es| ==> !SameValue(es[j].key, k)
  {
    if es == [] then -1
    else if SameValue(es[0].key, k) then 0
    else
      var i := FindKey(es[1..], k);
      if i < 0 then -1 else i + 1
  }

  /** `map.set(k, v)`: overwrite the value in place, or append. */
  function SetKey<V>(es: seq<Entry<V>>, k: JsValue, v: V): (r: seq<Entry<V>>)
  {
    var i := FindKey(es, k);
    if i >= 0 then es[i := Entry(es[i].key, v)] else es + [Entry(k, v)]
  }

  /** The map after setting every pair of `ps` in turn. */
  function MergeAll<V>(ps: seq<Entry<V>>): (r: seq<Entry<V>>)
    decreases |ps|
  {
    if ps == [] then [] else
      var p := ps[|ps| - 1];
      SetKey(MergeAll(ps[..|ps| - 1]), p.key, p.value)
  }

  /** `Array.from(map.values())` */
  function Values<V>(es: seq<Entry<V>>): (vs: seq<V>)
    ensures |vs| == |es| && forall i :: 0 <= i < |es| ==> vs[i] == es[i].value
  {
    seq(|es|, i requires 0 <= i < |es| => es[i].value)
  }

  predicate KeysDistinct<V>(es: seq<Entry<V>>) {
    forall i, j :: 0 <= i < j < |es| ==> !SameValue(es[i].key, es[j].key)
  }

  predicate HasKey<V>(es: seq<Entry<V>>, k: JsValue) {
    exists i :: 0 <= i < |es| && SameValue(es[i].key, k)
  }

  /** The value of the last pair for key `k`. */
  function LastValue<V>(ps: seq<Entry<V>>, k: JsValue): V
    requires HasKey(ps, k)
    decreases |ps|
  {
    var p := ps[|ps| - 1];
    if SameValue(p.key, k) then p.value
    else
      assert HasKey(ps[..|ps| - 1], k) by {
        var i :| 0 <= i < |ps| && SameValue(ps[i].key, k);
        assert ps[..|ps| - 1][i] == ps[i];
      }
      LastValue(ps[..|ps| - 1], k)
  }

  lemma MergeAllSnoc<V>(ps: seq<Entry<V>>, p: Entry<V>)
    ensures MergeAll(ps + [p]) == SetKey(MergeAll(ps), p.key, p.value)
  {
    assert (ps + [p])[..|ps|] == ps;
  }

  /** Setting a key keeps the keys pairwise distinct, adds that key and no
      other, and leaves the key order unchanged but for an append. */
  lemma SetKeyKeys<V>(es: seq<Entry<V>>, k: JsValue, v: V)
    requires KeysDistinct(es)
    ensures KeysDistinct(SetKey(es, k, v))
    ensures forall x :: HasKey(SetKey(es, k, v), x) <==> HasKey(es, x) || SameValue(k, x)
    ensures FindKey(es, k) >= 0 ==> |SetKey(es, k, v)| == |es|
    ensures FindKey(es, k) < 0 ==> |SetKey(es, k, v)| == |es| + 1
    ensures forall i :: 0 <= i < |es| ==> SetKey(es, k, v)[i].key == es[i].key
  {
    var r := SetKey(es, k, v);
    var i := FindKey(es, k);
    forall x ensures HasKey(r, x) <==> HasKey(es, x) || SameValue(k, x) {
      if HasKey(r, x) {
        var j :| 0 <= j < |r| && SameValue(r[j].key, x);
        if j < |es| { assert SameValue(es[j].key, x); }
      }
      if HasKey(es, x) {
        var j :| 0 <= j < |es| && SameValue(es[j].key, x);
        assert r[j].key == es[j].key;
      }
      if SameValue(k, x) {
        if i >= 0 { assert r[i].key == es[i].key; } else { assert r[|es|].key == k; }
      }
    }
  }

  /** The merged map has pairwise distinct keys: a key set twice is kept once. */
  lemma {:induction false} MergeAllDistinct<V>(ps: seq<Entry<V>>)
    ensures KeysDistinct(MergeAll(ps))
    decreases |ps|
  {
    if ps != [] {
      MergeAllDistinct(ps[..|ps| - 1]);
      var p := ps[|ps| - 1];
      SetKeyKeys(MergeAll(ps[..|ps| - 1]), p.key, p.value);
    }
  }

  /** A key is in the merged map exactly when some pair carries it. */
  lemma {:induction false} MergeAllKeys<V>(ps: seq<Entry<V>>, k: JsValue)
    ensures HasKey(MergeAll(ps), k) <==> HasKey(ps, k)
    ensures |MergeAll(ps)| <= |ps|
    decreases |ps|
  {
    if ps != [] {
      var init, p := ps[..|ps| - 1], ps[|ps| - 1];
      MergeAllKeys(init, k);
      MergeAllDistinct(init);
      SetKeyKeys(MergeAll(init), p.key, p.value);
      if HasKey(ps, k) && !SameValue(p.key, k) {
        var i :| 0 <= i < |ps| && SameValue(ps[i].key, k);
        assert init[i] == ps[i];
      }
      if HasKey(init, k) {
        var i :| 0 <= i < |init| && SameValue(init[i].key, k);
        assert ps[i] == init[i];
      }
    }
  }

  /** The value kept for a key is the one set last. */
  lemma {:induction false} MergeAllLastWins<V>(ps: seq<Entry<V>>, k: JsValue)
    requires HasKey(ps, k)
    ensures FindKey(MergeAll(ps), k) >= 0
    ensures MergeAll(ps)[FindKey(MergeAll(ps), k)].value == LastValue(ps, k)
    decreases |ps|
  {
    var init, p := ps[..|ps| - 1], ps[|ps| - 1];
    var m := MergeAll(init);
    MergeAllDistinct(init);
    SetKeyKeys(m, p.key, p.value);
    var r := MergeAll(ps);
    assert r == SetKey(m, p.key, p.value);
    var i := FindKey(m, p.key);
    if SameValue(p.key, k) {
      if i >= 0 {
        assert FindKey(r, k) == i by { FindKeySameKeys(m, r, k); }
      } else {
        assert FindKey(m, k) < 0;
        assert r[|m|].key == k;
        FindKeyAppend(m, r, k);
      }
    } else {
      assert HasKey(init, k) by {
        var j :| 0 <= j < |ps| && SameValue(ps[j].key, k);
        assert init[j] == ps[j];
      }
      MergeAllLastWins(init, k);
      var j := FindKey(m, k);
      if i >= 0 {
        FindKeySameKeys(m, r, k);
        assert j != i;
      } else {
        FindKeyPrefix(m, r, k);
      }
      assert r[j] == m[j];
    }
  }

  /** FindKey finds the first matching position. */
  lemma FindKeyIs<V>(es: seq<Entry<V>>, k: JsValue, i: int)
    requires -1 <= i < |es|
    requires i >= 0 ==> SameValue(es[i].key, k)
    requires forall j :: 0 <= j < |es| && (i < 0 || j < i) ==> !SameValue(es[j].key, k)
    ensures FindKey(es, k) == i
  {
  }

  lemma FindKeySameKeys<V>(es: seq<Entry<V>>, r: seq<Entry<V>>, k: JsValue)
    requires |r| == |es| && forall i :: 0 <= i < |es| ==> r[i].key == es[i].key
    ensures FindKey(r, k) == FindKey(es, k)
  {
    FindKeyIs(r, k, FindKey(es, k));
  }

  lemma FindKeyPrefix<V>(es: seq<Entry<V>>, r: seq<Entry<V>>, k: JsValue)
    requires |r| == |es| + 1 && forall i :: 0 <= i < |es| ==> r[i].key == es[i].key
    requires FindKey(es, k) >= 0
    ensures FindKey(r, k) == FindKey(es, k)
  {
    FindKeyIs(r, k, FindKey(es, k));
  }

  lemma FindKeyAppend<V>(es: seq<Entry<V>>, r: seq<Entry<V>>, k: JsValue)
    requires |r| == |es| + 1 && forall i :: 0 <= i < |es| ==> r[i].key == es[i].key
    requires FindKey(es, k) < 0 && SameValue(r[|es|].key, k)
    ensures FindKey(r, k) == |es|
  {
    FindKeyIs(r, k, |es|);
  }

  // Users

  /** The pair `list.forEach` sets for one stored user: only a user with a
      truthy `accountId`, keyed by that raw id. */
  function UserPair(user: JsValue): (ps: seq<Entry<User>>)
  {
    if Truthy(Get(user, "accountId")) then [Entry(Get(user, "accountId"), NormalizeUser(user))] else []
  }

  function ListUserPairs(list: seq<JsValue>): seq<Entry<User>>
    decreases |list|
  {
    if list == [] then [] else ListUserPairs(list[..|list| - 1]) + UserPair(list[|list| - 1])
  }

  /** The pairs set by all array sources, in order; other sources are skipped. */
  function UserPairs(sources: seq<JsValue>): seq<Entry<User>>
    decreases |sources|
  {
    if sources == [] then []
    else
      var last := sources[|sources| - 1];
      UserPairs(sources[..|sources| - 1]) + (if last.Arr? then ListUserPairs(last.items) else [])
  }

  /** `mergeUsers(...sources)` */
  function MergeUsers(sources: seq<JsValue>): (users: seq<User>)
  {
    Values(MergeAll(UserPairs(sources)))
  }

  /** The inner `list.forEach` of mergeUsers over the map so far; `done` are
      the pairs set before. */
  method MergeUserList(entries: seq<Entry<User>>, list: seq<JsValue>, ghost done: seq<Entry<User>>)
    returns (entries': seq<Entry<User>>)
    requires entries == MergeAll(done)
    ensures entries' == MergeAll(done + ListUserPairs(list))
  {
    entries' := entries;
    var j := 0;
    assert list[..0] == [];
    assert done + ListUserPairs(list[..0]) == done;
    while j < |list|
      invariant 0 <= j <= |list|
      invariant entries' == MergeAll(done + ListUserPairs(list[..j]))
    {
      assert list[..j + 1][..j] == list[..j];
      var user := list[j];
      ghost var before := done + ListUserPairs(list[..j]);
      assert done + ListUserPairs(list[..j + 1]) == before + UserPair(user);
      if Truthy(Get(user, "accountId")) {
        MergeAllSnoc(before, Entry(Get(user, "accountId"), NormalizeUser(user)));
        entries' := SetKey(entries', Get(user, "accountId"), NormalizeUser(user));
      } else {
        assert before + UserPair(user) == before;
      }
      j := j + 1;
    }
    assert list[..j] == list;
  }

  /** mergeUsers as the code runs it: a `Map` filled by two nested loops. */
  method MergeUsersSteps(sources: seq<JsValue>) returns (users: seq<User>)
    ensures users == MergeUsers(sources)
  {
    var entries: seq<Entry<User>> := [];
    var i := 0;
    while i < |sources|
      invariant 0 <= i <= |sources|
      invariant entries == MergeAll(UserPairs(sources[..i]))
    {
      assert sources[..i + 1][..i] == sources[..i] && sources[..i + 1][i] == sources[i];
      if sources[i].Arr? {
        entries := MergeUserList(entries, sources[i].items, UserPairs(sources[..i]));
        assert UserPairs(sources[..i + 1]) == UserPairs(sources[..i]) + ListUserPairs(sources[i].items);
      } else {
        assert UserPairs(sources[..i + 1]) == UserPairs(sources[..i]) + [] == UserPairs(sources[..i]);
      }
      i := i + 1;
    }
    assert sources[..i] == sources;
    users := Values(entries);
  }

  /** Every merged user is the normalised last stored user with its raw
      id, one per id, and every stored user with a truthy id is there. */
  lemma MergeUsersProperties(sources: seq<JsValue>, k: JsValue)
    ensures KeysDistinct(MergeAll(UserPairs(sources)))
    ensures HasKey(MergeAll(UserPairs(sources)), k) <==> HasKey(UserPairs(sources), k)
    ensures HasKey(UserPairs(sources), k) ==>
              var es := MergeAll(UserPairs(sources));
              FindKey(es, k) >= 0 && MergeUsers(sources)[FindKey(es, k)] == LastValue(UserPairs(sources), k)
  {
    MergeAllDistinct(UserPairs(sources));
    MergeAllKeys(UserPairs(sources), k);
    if HasKey(UserPairs(sources), k) {
      MergeAllLastWins(UserPairs(sources), k);
    }
  }

  /** Every value in the merged map is the value of some pair. */
  lemma {:induction false} MergeAllValues<V>(ps: seq<Entry<V>>)
    ensures forall i :: 0 <= i < |MergeAll(ps)| ==> exists j :: 0 <= j < |ps| && ps[j].value == MergeAll(ps)[i].value
    decreases |ps|
  {
    if ps != [] {
      var init, p := ps[..|ps| - 1], ps[|ps| - 1];
      MergeAllValues(init);
      MergeAllDistinct(init);
      var m := MergeAll(init);
      SetKeyKeys(m, p.key, p.value);
      assert MergeAll(ps) == SetKey(m, p.key, p.value);
      var f := FindKey(m, p.key);
      forall i | 0 <= i < |MergeAll(ps)|
        ensures exists j :: 0 <= j < |ps| && ps[j].value == MergeAll(ps)[i].value
      {
        var r := MergeAll(ps);
        if i == |m| || i == f {
          assert ps[|ps| - 1].value == r[i].value;
        } else {
          assert r[i] == m[i];
          var j :| 0 <= j < |init| && init[j].value == m[i].value;
          assert ps[j] == init[j];
        }
      }
    } else {
      assert MergeAll(ps) == [];
    }
  }

  // Tournaments

  /** The id suffixes drawn for the matches of the `j`-th tournament of
      source `i`. */
  function TournamentStamps(stamps: (nat, nat, nat) -> string, i: nat, j: nat): nat -> string {
    (k: nat) => stamps(i, j, k)
  }

  /** The pair set for one stored tournament: only one with a truthy `id`,
      keyed by that raw id; normalising it may throw. */
  function TournamentPair(t: JsValue, st: nat -> string): Result<seq<Entry<Tournament>>> {
    if !Truthy(Get(t, "id")) then Ok([])
    else
      match NormalizeTournament(t, "", st)
      case Throws(e) => Throws(e)
      case Ok(n) => Ok([Entry(Get(t, "id"), n)])
  }

  function ListTournamentPairs(list: seq<JsValue>, stamps: (nat, nat, nat) -> string, i: nat): Result<seq<Entry<Tournament>>>
    decreases |list|
  {
    if list == [] then Ok([])
    else
      match ListTournamentPairs(list[..|list| - 1], stamps, i)
      case Throws(e) => Throws(e)
      case Ok(ps) =>
        match TournamentPair(list[|list| - 1], TournamentStamps(stamps, i, |list| - 1))
        case Throws(e) => Throws(e)
        case Ok(q) => Ok(ps + q)
  }

  function TournamentPairs(sources: seq<JsValue>, stamps: (nat, nat, nat) -> string): Result<seq<Entry<Tournament>>>
    decreases |sources|
  {
    if sources == [] then Ok([])
    else
      var last := sources[|sources| - 1];
      match TournamentPairs(sources[..|sources| - 1], stamps)
      case Throws(e) => Throws(e)
      case Ok(ps) =>
        if !last.Arr? then Ok(ps)
        else
          match ListTournamentPairs(last.items, stamps, |sources| - 1)
          case Throws(e) => Throws(e)
          case Ok(q) => Ok(ps + q)
  }

  /** `mergeTournaments(...sources)`; `stamps(i, j, k)` is the id suffix
      the `k`-th match of the `j`-th tournament of source `i` draws. */
  function MergeTournaments(sources: seq<JsValue>, stamps: (nat, nat, nat) -> string): Result<seq<Tournament>> {
    match TournamentPairs(sources, stamps)
    case Throws(_) => Throws(TypeError)
    case Ok(ps) => Ok(Values(MergeAll(ps)))
  }

  /** Every pair's tournament is a normalised one. */
  predicate PairsWellFormed(ps: seq<Entry<Tournament>>) {
    forall j :: 0 <= j < |ps| ==> WellFormedTournament(ps[j].value)
  }

  lemma {:induction false} ListTournamentPairsWellFormed(list: seq<JsValue>, stamps: (nat, nat, nat) -> string, i: nat)
    requires ListTournamentPairs(list, stamps, i).Ok?
    ensures PairsWellFormed(ListTournamentPairs(list, stamps, i).value)
    decreases |list|
  {
    if list != [] {
      ListTournamentPairsWellFormed(list[..|list| - 1], stamps, i);
      var t := list[|list| - 1];
      if Truthy(Get(t, "id")) {
        NormalizeTournamentWellFormed(t, "", TournamentStamps(stamps, i, |list| - 1));
      }
    }
  }

  lemma {:induction false} TournamentPairsWellFormed(sources: seq<JsValue>, stamps: (nat, nat, nat) -> string)
    requires TournamentPairs(sources, stamps).Ok?
    ensures PairsWellFormed(TournamentPairs(sources, stamps).value)
    decreases |sources|
  {
    if sources != [] {
      TournamentPairsWellFormed(sources[..|sources| - 1], stamps);
      var last := sources[|sources| - 1];
      if last.Arr? {
        ListTournamentPairsWellFormed(last.items, stamps, |sources| - 1);
      }
    }
  }

  /** The merged tournaments have pairwise distinct raw ids; each is the
      normalised last stored tournament with its id, and each is
      well-formed. */
  lemma MergeTournamentsProperties(sources: seq<JsValue>, stamps: (nat, nat, nat) -> string, k: JsValue)
    requires TournamentPairs(sources, stamps).Ok?
    ensures var ps := TournamentPairs(sources, stamps).value;
            && KeysDistinct(MergeAll(ps))
            && (HasKey(MergeAll(ps), k) <==> HasKey(ps, k))
            && (HasKey(ps, k) ==>
                  && FindKey(MergeAll(ps), k) >= 0
                  && MergeTournaments(sources, stamps).value[FindKey(MergeAll(ps), k)] == LastValue(ps, k))
    ensures forall i :: 0 <= i < |MergeTournaments(sources, stamps).value| ==>
              WellFormedTournament(MergeTournaments(sources, stamps).value[i])
  {
    var ps := TournamentPairs(sources, stamps).value;
    MergeAllDistinct(ps);
    MergeAllKeys(ps, k);
    if HasKey(ps, k) {
      MergeAllLastWins(ps, k);
    }
    TournamentPairsWellFormed(sources, stamps);
    MergeAllValues(ps);
  }

  /** The inner `list.forEach` of mergeTournaments over source `i`. */
  method MergeTournamentList(entries: seq<Entry<Tournament>>, list: seq<JsValue>, stamps: (nat, nat, nat) -> string,
                             i: nat, ghost done: seq<Entry<Tournament>>)
    returns (r: Result<seq<Entry<Tournament>>>)
    requires entries == MergeAll(done)
    ensures ListTournamentPairs(list, stamps, i).Throws? <==> r.Throws?
    ensures r.Ok? ==> r.value == MergeAll(done + ListTournamentPairs(list, stamps, i).value)
  {
    var current := entries;
    var j := 0;
    assert list[..0] == [];
    assert done + ListTournamentPairs(list[..0], stamps, i).value == done;
    while j < |list|
      invariant 0 <= j <= |list|
      invariant ListTournamentPairs(list[..j], stamps, i).Ok?
      invariant current == MergeAll(done + ListTournamentPairs(list[..j], stamps, i).value)
    {
      var t := list[j];
      ListTournamentStep(list, stamps, i, j, done);
      ghost var before := done + ListTournamentPairs(list[..j], stamps, i).value;
      if Truthy(Get(t, "id")) {
        var n := NormalizeTournament(t, "", TournamentStamps(stamps, i, j));
        if n.Throws? {
          ListTournamentPairsThrow(list, stamps, i, j + 1);
          return Throws(n.error);
        }
        MergeAllSnoc(before, Entry(Get(t, "id"), n.value));
        current := SetKey(current, Get(t, "id"), n.value);
      }
      j := j + 1;
    }
    assert list[..j] == list;
    r := Ok(current);
  }

  /** Extending the list by tournament `j` adds its pair, or throws. */
  lemma ListTournamentStep(list: seq<JsValue>, stamps: (nat, nat, nat) -> string, i: nat, j: nat,
                           done: seq<Entry<Tournament>>)
    requires j < |list| && ListTournamentPairs(list[..j], stamps, i).Ok?
    ensures var t, before := list[j], done + ListTournamentPairs(list[..j], stamps, i).value;
            var n := NormalizeTournament(t, "", TournamentStamps(stamps, i, j));
            && (Truthy(Get(t, "id")) && n.Throws? ==> ListTournamentPairs(list[..j + 1], stamps, i).Throws?)
            && (Truthy(Get(t, "id")) && n.Ok? ==>
                  && ListTournamentPairs(list[..j + 1], stamps, i).Ok?
                  && done + ListTournamentPairs(list[..j + 1], stamps, i).value == before + [Entry(Get(t, "id"), n.value)])
            && (!Truthy(Get(t, "id")) ==>
                  && ListTournamentPairs(list[..j + 1], stamps, i).Ok?
                  && done + ListTournamentPairs(list[..j + 1], stamps, i).value == before)
  {
    assert list[..j + 1][..j] == list[..j] && list[..j + 1][j] == list[j];
    var ps := ListTournamentPairs(list[..j], stamps, i).value;
    assert done + (ps + []) == done + ps;
  }

  /** An exception in the first `j` tournaments of a list is an
      exception of the whole list. */
  lemma {:induction false} ListTournamentPairsThrow(list: seq<JsValue>, stamps: (nat, nat, nat) -> string, i: nat, j: nat)
    requires j <= |list| && ListTournamentPairs(list[..j], stamps, i).Throws?
    ensures ListTournamentPairs(list, stamps, i).Throws?
    decreases |list| - j
  {
    if j < |list| {
      assert list[..j + 1][..j] == list[..j];
      ListTournamentPairsThrow(list, stamps, i, j + 1);
    } else {
      assert list[..j] == list;
    }
  }

  /** mergeTournaments as the code runs it; an exception in any
      normalisation aborts the whole merge. */
  method MergeTournamentsSteps(sources: seq<JsValue>, stamps: (nat, nat, nat) -> string) returns (r: Result<seq<Tournament>>)
    ensures r == MergeTournaments(sources, stamps)
  {
    var entries: seq<Entry<Tournament>> := [];
    var i := 0;
    while i < |sources|
      invariant 0 <= i <= |sources|
      invariant TournamentPairs(sources[..i], stamps).Ok?
      invariant entries == MergeAll(TournamentPairs(sources[..i], stamps).value)
    {
      assert sources[..i + 1][..i] == sources[..i] && sources[..i + 1][i] == sources[i];
      if sources[i].Arr? {
        var next := MergeTournamentList(entries, sources[i].items, stamps, i, TournamentPairs(sources[..i], stamps).value);
        if next.Throws? {
          assert TournamentPairs(sources[..i + 1], stamps).Throws?;
          TournamentPairsThrow(sources, stamps, i + 1);
          return Throws(TypeError);
        }
        entries := next.value;
      }
      i := i + 1;
    }
    assert sources[..i] == sources;
    r := Ok(Values(entries));
  }

  lemma {:induction false} TournamentPairsThrow(sources: seq<JsValue>, stamps: (nat, nat, nat) -> string, j: nat)
    requires j <= |sources| && TournamentPairs(sources[..j], stamps).Throws?
    ensures TournamentPairs(sources, stamps).Throws?
    decreases |sources| - j
  {
    if j < |sources| {
      assert sources[..j + 1][..j] == sources[..j];
      TournamentPairsThrow(sources, stamps, j + 1);
    } else {
      assert sources[..j] == sources;
    }
  }

  // Participants

  datatype Participant = Participant(accountId: string, displayName: JsValue)

  function PlayerPairs(players: seq<Player>): seq<Entry<Participant>>
    decreases |players|
  {
    if players == [] then []
    else
      var p := players[|players| - 1];
      PlayerPairs(players[..|players| - 1]) + [Entry(Str(p.accountId), Participant(p.accountId, p.displayName))]
  }

  function ParticipantPairs(matches: seq<Match>): seq<Entry<Participant>>
    decreases |matches|
  {
    if matches == [] then []
    else ParticipantPairs(matches[..|matches| - 1]) + PlayerPairs(matches[|matches| - 1].players)
  }

  /** `getTournamentParticipants(tournament)`: one entry per account id,
      with its last display name, in order of first appearance. */
  function TournamentParticipants(t: Tournament): seq<Participant> {
    Values(MergeAll(ParticipantPairs(t.matches)))
  }

  /** The inner `match.players.forEach` of getTournamentParticipants. */
  method SetPlayers(entries: seq<Entry<Participant>>, players: seq<Player>, ghost done: seq<Entry<Participant>>)
    returns (entries': seq<Entry<Participant>>)
    requires entries == MergeAll(done)
    ensures entries' == MergeAll(done + PlayerPairs(players))
  {
    entries' := entries;
    var j := 0;
    assert done + PlayerPairs(players[..0]) == done by { assert players[..0] == []; }
    while j < |players|
      invariant 0 <= j <= |players|
      invariant entries' == MergeAll(done + PlayerPairs(players[..j]))
    {
      var p := players[j];
      assert players[..j + 1][..j] == players[..j] && players[..j + 1][j] == p;
      var e := Entry(Str(p.accountId), Participant(p.accountId, p.displayName));
      assert done + PlayerPairs(players[..j + 1]) == (done + PlayerPairs(players[..j])) + [e];
      MergeAllSnoc(done + PlayerPairs(players[..j]), e);
      entries' := SetKey(entries', e.key, e.value);
      j := j + 1;
    }
    assert players[..j] == players;
  }

  /** getTournamentParticipants as the code runs it. */
  method TournamentParticipantsSteps(t: Tournament) returns (participants: seq<Participant>)
    ensures participants == TournamentParticipants(t)
  {
    var entries: seq<Entry<Participant>> := [];
    var i := 0;
    while i < |t.matches|
      invariant 0 <= i <= |t.matches|
      invariant entries == MergeAll(ParticipantPairs(t.matches[..i]))
    {
      assert t.matches[..i + 1][..i] == t.matches[..i] && t.matches[..i + 1][i] == t.matches[i];
      entries := SetPlayers(entries, t.matches[i].players, ParticipantPairs(t.matches[..i]));
      i := i + 1;
    }
    assert t.matches[..i] == t.matches;
    participants := Values(entries);
  }

  lemma {:induction false} PlayerPairsKeys(players: seq<Player>, a: string)
    ensures HasKey(PlayerPairs(players), Str(a)) <==> exists i :: 0 <= i < |players| && players[i].accountId == a
    decreases |players|
  {
    if players != [] {
      var init := players[..|players| - 1];
      PlayerPairsKeys(init, a);
      var ps := PlayerPairs(players);
      assert ps == PlayerPairs(init) + [ps[|ps| - 1]];
      if exists i :: 0 <= i < |players| && players[i].accountId == a {
        var i :| 0 <= i < |players| && players[i].accountId == a;
        if i < |init| {
          assert init[i] == players[i];
          var j :| 0 <= j < |PlayerPairs(init)| && SameValue(PlayerPairs(init)[j].key, Str(a));
          assert ps[j] == PlayerPairs(init)[j];
        } else {
          assert SameValue(ps[|ps| - 1].key, Str(a));
        }
      }
      if HasKey(ps, Str(a)) {
        var j :| 0 <= j < |ps| && SameValue(ps[j].key, Str(a));
        if j < |PlayerPairs(init)| {
          assert PlayerPairs(init)[j] == ps[j];
          var i :| 0 <= i < |init| && init[i].accountId == a;
          assert players[i] == init[i];
        } else {
          assert players[|players| - 1].accountId == a;
        }
      }
    }
  }

  lemma {:induction false} ParticipantPairsKeys(matches: seq<Match>, a: string)
    ensures HasKey(ParticipantPairs(matches), Str(a)) <==> exists m :: m in matches && IsPlayer(m, a)
    decreases |matches|
  {
    if matches != [] {
      var init, last := matches[..|matches| - 1], matches[|matches| - 1];
      ParticipantPairsKeys(init, a);
      PlayerPairsKeys(last.players, a);
      var left, right := ParticipantPairs(init), PlayerPairs(last.players);
      assert ParticipantPairs(matches) == left + right;
      HasKeyConcat(left, right, Str(a));
      assert HasKey(right, Str(a)) <==> IsPlayer(last, a);
      if IsPlayer(last, a) {
        assert last in matches;
      }
      if exists m :: m in matches && IsPlayer(m, a) {
        var m :| m in matches && IsPlayer(m, a);
        if m != last {
          var k :| 0 <= k < |matches| && matches[k] == m;
          assert k < |init| && init[k] == m;
        }
      }
      if exists m :: m in init && IsPlayer(m, a) {
        var m :| m in init && IsPlayer(m, a);
        var k :| 0 <= k < |init| && init[k] == m;
        assert matches[k] == m;
      }
    }
  }

  lemma HasKeyConcat<V>(a: seq<Entry<V>>, b: seq<Entry<V>>, k: JsValue)
    ensures HasKey(a + b, k) <==> HasKey(a, k) || HasKey(b, k)
  {
    if HasKey(a + b, k) {
      var j :| 0 <= j < |a + b| && SameValue((a + b)[j].key, k);
      if j >= |a| { assert b[j - |a|] == (a + b)[j]; }
    }
    if HasKey(b, k) {
      var j :| 0 <= j < |b| && SameValue(b[j].key, k);
      assert (a + b)[|a| + j] == b[j];
    }
    if HasKey(a, k) {
      var j :| 0 <= j < |a| && SameValue(a[j].key, k);
      assert (a + b)[j] == a[j];
    }
  }

  /** Each player of the tournament is listed once: the participant list
      has pairwise distinct account ids, and an account id is listed
      exactly when it plays in some match. */
  lemma TournamentParticipantsProperties(t: Tournament, a: string)
    ensures KeysDistinct(MergeAll(ParticipantPairs(t.matches)))
    ensures (exists i :: 0 <= i < |TournamentParticipants(t)| && TournamentParticipants(t)[i].accountId == a)
            <==> exists m :: m in t.matches && IsPlayer(m, a)
  {
    var ps := ParticipantPairs(t.matches);
    MergeAllDistinct(ps);
    MergeAllKeys(ps, Str(a));
    ParticipantPairsKeys(t.matches, a);
    ParticipantPairsKeyed(t.matches);
    KeysAreAccountIds(ps);
    var es := MergeAll(ps);
    if exists i :: 0 <= i < |es| && es[i].value.accountId == a {
      var i :| 0 <= i < |es| && es[i].value.accountId == a;
      assert SameValue(es[i].key, Str(a));
    }
    if HasKey(es, Str(a)) {
      var i :| 0 <= i < |es| && SameValue(es[i].key, Str(a));
      assert TournamentParticipants(t)[i].accountId == a;
    }
  }

  predicate KeyedByAccount(es: seq<Entry<Participant>>) {
    forall i :: 0 <= i < |es| ==> es[i].key == Str(es[i].value.accountId)
  }

  lemma {:induction false} ParticipantPairsKeyed(matches: seq<Match>)
    ensures KeyedByAccount(ParticipantPairs(matches))
    decreases |matches|
  {
    if matches != [] {
      ParticipantPairsKeyed(matches[..|matches| - 1]);
      PlayerPairsKeyed(matches[|matches| - 1].players);
    }
  }

  lemma {:induction false} PlayerPairsKeyed(players: seq<Player>)
    ensures KeyedByAccount(PlayerPairs(players))
    decreases |players|
  {
    if players != [] {
      PlayerPairsKeyed(players[..|players| - 1]);
    }
  }

  /** Every participant entry is keyed by its own account id. */
  lemma {:induction false} KeysAreAccountIds(ps: seq<Entry<Participant>>)
    requires KeyedByAccount(ps)
    ensures KeyedByAccount(MergeAll(ps))
    decreases |ps|
  {
    if ps != [] {
      var init := ps[..|ps| - 1];
      KeysAreAccountIds(init);
      MergeAllDistinct(init);
      var p := ps[|ps| - 1];
      var m := MergeAll(init);
      var i := FindKey(m, p.key);
      if i >= 0 {
        assert m[i].key == p.key;
      }
    }
  }
}
