/** The client's user and tournament normalisers (`normalizeUser`,
    `normalizeTournament`) and `createEmptyMatch`. Like normalizeMatch
    they repair an arbitrary parsed JSON value into a record of
    `MatchModel`; the generated ids stand for `Date.now()` and
    `Math.random()` draws and are parameters. */
module Records {
  import opened Wrappers
  import opened Js
  import opened Catalog
  import opened MatchModel
  import opened Normalize

  /** `x || ''`: a truthy value or the empty string. */
  predicate TruthyOrEmpty(v: JsValue) {
    Truthy(v) || v == Str("")
  }

  /** `normalizeUser(user)`; the caller has already checked `user?.accountId`,
      and a `null` user would throw on the first property read. */
  function NormalizeUser(user: JsValue): (u: User)
    requires !IsNullish(user)
    ensures u.accountId == ToStr(Get(user, "accountId"))
    ensures u.role == PlayerRole <==> Get(user, "role") == Str("player")
    ensures ParseRole(Get(user, "role")).None? ==> u.role == ViewerRole
    ensures ParseRole(Get(user, "role")).Some? ==> Get(user, "role") == Str(RoleName(u.role))
    ensures u.role == PlayerRole ==> Truthy(u.rank)
    ensures u.role != PlayerRole ==> u.rank == Null
    ensures TruthyOrEmpty(u.password) && TruthyOrEmpty(u.email)
    ensures u.seed <==> Truthy(Get(user, "seed"))
  {
    var role := ParseRole(Get(user, "role"));
    var r := if role.Some? then role.value else ViewerRole;
    User(ToStr(Get(user, "accountId")),
         Or(Get(user, "displayName"), Get(user, "accountId")),
         r,
         Or(Get(user, "password"), Str("")),
         Or(Get(user, "email"), Str("")),
         if r == PlayerRole then Or(Get(user, "rank"), Str("언랭크")) else Null,
         Truthy(Get(user, "seed")))
  }

  /** The users normalizeUser leaves alone. */
  predicate CanonicalUser(u: User) {
    && Or(u.displayName, Str(u.accountId)) == u.displayName
    && (u.role == PlayerRole ==> Truthy(u.rank))
    && (u.role != PlayerRole ==> u.rank == Null)
    && TruthyOrEmpty(u.password) && TruthyOrEmpty(u.email)
  }

  /** Normalising a stored user gives it back exactly when it is canonical. */
  lemma NormalizeUserRoundTrip(u: User)
    ensures NormalizeUser(EncodeUser(u)) == u <==> CanonicalUser(u)
  {
    var raw := EncodeUser(u);
    assert Get(raw, "role") == Str(RoleName(u.role));
    assert ParseRole(Str(RoleName(u.role))) == Some(u.role) by {
      match u.role
      case PlayerRole =>
      case ViewerRole =>
      case AdminRole =>
    }
  }

  /** A user with a truthy account id, the only kind mergeUsers keeps,
      comes out canonical, so normalising it again changes nothing. */
  lemma NormalizeUserIdempotent(raw: JsValue)
    requires !IsNullish(raw) && Truthy(Get(raw, "accountId"))
    ensures CanonicalUser(NormalizeUser(raw))
    ensures NormalizeUser(EncodeUser(NormalizeUser(raw))) == NormalizeUser(raw)
  {
    NormalizeUserRoundTrip(NormalizeUser(raw));
  }

  /** `{ withgo: links?.withgo || '', soop: links?.soop || '' }` */
  function StreamLinksFromRaw(v: JsValue): (links: StreamLinks)
    ensures TruthyOrEmpty(links.withgo) && TruthyOrEmpty(links.soop)
    ensures Truthy(Get(v, "withgo")) ==> links.withgo == Get(v, "withgo")
    ensures Truthy(Get(v, "soop")) ==> links.soop == Get(v, "soop")
  {
    StreamLinks(Or(Get(v, "withgo"), Str("")), Or(Get(v, "soop"), Str("")))
  }

  function DefaultPool(): (pool: seq<JsValue>)
    ensures |pool| == |DefaultMapPool|
    ensures forall i :: 0 <= i < |pool| ==> pool[i] == Str(DefaultMapPool[i])
  {
    seq(|DefaultMapPool|, i requires 0 <= i < |DefaultMapPool| => Str(DefaultMapPool[i]))
  }

  /** A non-empty stored pool is copied as it is; anything else becomes a
      copy of the default pool. */
  function MapPoolFromRaw(v: JsValue): (pool: seq<JsValue>)
    ensures |pool| > 0
    ensures v.Arr? && |v.items| > 0 ==> pool == v.items
    ensures !(v.Arr? && |v.items| > 0) ==> pool == DefaultPool()
  {
    if v.Arr? && |v.items| > 0 then v.items else DefaultPool()
  }

  /** `Array.isArray(v) ? v.map(normalizeMatch) : []`; match `i` draws id
      suffix `stamps(i)` when it has no id. */
  function NormalizeMatches(v: JsValue, stamps: nat -> string): (r: Result<seq<Match>>)
    ensures r.Throws? <==> v.Arr? && exists i :: 0 <= i < |v.items| && NormalizeMatch(v.items[i], stamps(i)).Throws?
    ensures r.Ok? ==> |r.value| == if v.Arr? then |v.items| else 0
    ensures r.Ok? ==> forall i :: 0 <= i < |r.value| ==> Ok(r.value[i]) == NormalizeMatch(v.items[i], stamps(i))
  {
    if !v.Arr? then Ok([])
    else if exists i :: 0 <= i < |v.items| && NormalizeMatch(v.items[i], stamps(i)).Throws? then Throws(TypeError)
    else Ok(seq(|v.items|, i requires 0 <= i < |v.items| => NormalizeMatch(v.items[i], stamps(i)).value))
  }

  /** The stored form `createEmptyMatch` hands to normalizeMatch. */
  function EmptyMatchRaw(stamp: string): JsValue {
    Obj(map["id" := Str("match-" + stamp), "round" := Str("경기"), "scheduled" := Null,
            "players" := Arr([]), "map" := Null, "mapDecidedAt" := Null, "phase" := Str("waiting"),
            "selections" := Obj(map[]), "bans" := Obj(map[])])
  }

  /** `createEmptyMatch()`: a waiting match without players, which
      normalisation leaves alone. */
  function CreateEmptyMatch(stamp: string): (m: Match)
    ensures m.id == Str("match-" + stamp) && m.players == [] && m.phase == Waiting
    ensures Canonical(m)
  {
    Match(Str("match-" + stamp), Str("경기"), Null, [], Null, Null, Waiting, map[], map[], map[], map[])
  }

  /** CreateEmptyMatch is what normalizeMatch makes of its stored form. */
  lemma CreateEmptyMatchNormalized(stamp: string, s: string)
    ensures NormalizeMatch(EmptyMatchRaw(stamp), s) == Ok(CreateEmptyMatch(stamp))
  {
    var m := CreateEmptyMatch(stamp);
    var e := EncodeMatch(m);
    assert e == EmptyMatchRaw(stamp) by {
      assert |e.fields["players"].items| == 0;
      assert e.fields["selections"].fields.Keys == {};
      assert e.fields["bans"].fields.Keys == {};
      assert e.fields == EmptyMatchRaw(stamp).fields;
    }
    NormalizeCanonical(m, s);
  }

  /** `normalizeTournament(tournament)`; `stamp` is the id suffix drawn
      when the tournament has no id and `stamps(i)` the one drawn for
      match `i` (and, for an empty list, for the empty match). */
  function NormalizeTournament(raw: JsValue, stamp: string, stamps: nat -> string): (r: Result<Tournament>)
    ensures r.Throws? <==> IsNullish(raw) || NormalizeMatches(Get(raw, "matches"), stamps).Throws?
  {
    if IsNullish(raw) then Throws(TypeError)
    else
      match NormalizeMatches(Get(raw, "matches"), stamps)
      case Throws(e) => Throws(e)
      case Ok(matches) =>
        var status := ParseStatus(Get(raw, "status"));
        Ok(Tournament(
          Or(Get(raw, "id"), Str("t-" + stamp)),
          Or(Get(raw, "name"), Str("토너먼트")),
          Or(Get(raw, "startTime"), Null),
          if status.Some? then status.value else Scheduled,
          Or(Get(raw, "result"), Null),
          StreamLinksFromRaw(Get(raw, "streamLinks")),
          MapPoolFromRaw(Get(raw, "mapPool")),
          if |matches| == 0 then [CreateEmptyMatch(stamps(0))] else matches))
  }

  /** The shape normalizeTournament guarantees. */
  predicate WellFormedTournament(t: Tournament) {
    && Truthy(t.id) && Truthy(t.name)
    && TruthyOrNull(t.startTime) && TruthyOrNull(t.result)
    && TruthyOrEmpty(t.streamLinks.withgo) && TruthyOrEmpty(t.streamLinks.soop)
    && |t.mapPool| > 0
    && |t.matches| > 0
    && forall i :: 0 <= i < |t.matches| ==> WellFormed(t.matches[i])
  }

  /** A normalised tournament has a non-empty map pool, at least one
      match, every match well-formed, one match per stored match (or the
      single empty match), and an unknown status becomes `scheduled`. */
  lemma NormalizeTournamentWellFormed(raw: JsValue, stamp: string, stamps: nat -> string)
    requires NormalizeTournament(raw, stamp, stamps).Ok?
    ensures WellFormedTournament(NormalizeTournament(raw, stamp, stamps).value)
    ensures var t := NormalizeTournament(raw, stamp, stamps).value;
            var ms := Get(raw, "matches");
            |t.matches| == if ms.Arr? && |ms.items| > 0 then |ms.items| else 1
    ensures ParseStatus(Get(raw, "status")).None? ==> NormalizeTournament(raw, stamp, stamps).value.status == Scheduled
  {
    var t := NormalizeTournament(raw, stamp, stamps).value;
    var matches := NormalizeMatches(Get(raw, "matches"), stamps).value;
    forall i | 0 <= i < |matches|
      ensures WellFormed(matches[i])
    {
      NormalizeMatchWellFormed(Get(raw, "matches").items[i], stamps(i));
    }
  }

  /** The tournaments normalizeTournament leaves alone. */
  predicate CanonicalTournament(t: Tournament) {
    && Truthy(t.id) && Truthy(t.name)
    && TruthyOrNull(t.startTime) && TruthyOrNull(t.result)
    && TruthyOrEmpty(t.streamLinks.withgo) && TruthyOrEmpty(t.streamLinks.soop)
    && |t.mapPool| > 0
    && |t.matches| > 0
    && forall i :: 0 <= i < |t.matches| ==> Canonical(t.matches[i])
  }

  lemma EncodedMatches(t: Tournament, stamps: nat -> string)
    requires forall i :: 0 <= i < |t.matches| ==> Canonical(t.matches[i])
    ensures NormalizeMatches(Get(EncodeTournament(t), "matches"), stamps) == Ok(t.matches)
  {
    var items := seq(|t.matches|, i requires 0 <= i < |t.matches| => EncodeMatch(t.matches[i]));
    assert Get(EncodeTournament(t), "matches") == Arr(items);
    forall i | 0 <= i < |items|
      ensures NormalizeMatch(items[i], stamps(i)) == Ok(t.matches[i])
    {
      NormalizeCanonical(t.matches[i], stamps(i));
    }
    var r := NormalizeMatches(Arr(items), stamps);
    assert r.Ok?;
    assert r.value == t.matches;
  }

  /** Normalising a stored canonical tournament gives it back, whatever
      ids the pass would draw. */
  lemma NormalizeTournamentRoundTrip(t: Tournament, stamp: string, stamps: nat -> string)
    requires CanonicalTournament(t)
    ensures NormalizeTournament(EncodeTournament(t), stamp, stamps) == Ok(t)
  {
    var raw := EncodeTournament(t);
    EncodedMatches(t, stamps);
    assert Get(raw, "status") == Str(StatusName(t.status));
    assert ParseStatus(Str(StatusName(t.status))) == Some(t.status) by {
      match t.status
      case Scheduled =>
      case Live =>
      case Completed =>
    }
    assert Get(raw, "streamLinks") == Obj(map["withgo" := t.streamLinks.withgo, "soop" := t.streamLinks.soop]);
    assert Get(raw, "mapPool") == Arr(t.mapPool);
  }
}
