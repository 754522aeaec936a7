/** The pure parts of the Discord status bot (`server/discordBot.js`): the
    uptime text, the tournament and phase counters, the overall health
    rule, the storage prefix and the last segment of a metadata path. The
    Discord client, the metadata server and the bucket are left out; what
    they return is a parameter. */
module Status {
  import opened Wrappers
  import opened Js
  import opened Strings

  // ---------------------------------------------------------------- uptime

  datatype Uptime = Uptime(d: nat, h: nat, m: nat, s: nat)

  /** The days, hours, minutes and seconds `formatUptime` computes from a
      whole number of seconds. */
  function Decompose(total: nat): (u: Uptime)
    ensures u.s < 60 && u.m < 60 && u.h < 24
    ensures u.d * 86400 + u.h * 3600 + u.m * 60 + u.s == total
  {
    var totalMinutes := total / 60;
    var totalHours := totalMinutes / 60;
    var u := Uptime(totalHours / 24, totalHours % 24, totalMinutes % 60, total % 60);
    assert totalHours == u.d * 24 + u.h;
    assert totalMinutes == totalHours * 60 + u.m;
    assert total == totalMinutes * 60 + u.s;
    u
  }

  /** The decomposition is the only one with those bounds. */
  lemma DecomposeUnique(total: nat, u: Uptime)
    requires u.s < 60 && u.m < 60 && u.h < 24
    requires u.d * 86400 + u.h * 3600 + u.m * 60 + u.s == total
    ensures Decompose(total) == u
  {
    var totalMinutes := u.d * 1440 + u.h * 60 + u.m;
    var totalHours := u.d * 24 + u.h;
    assert total == totalMinutes * 60 + u.s;
    assert totalMinutes == totalHours * 60 + u.m;
    DivModOf(total, totalMinutes, u.s, 60);
    DivModOf(totalMinutes, totalHours, u.m, 60);
    DivModOf(totalHours, u.d, u.h, 24);
  }

  lemma DivModOf(n: nat, q: nat, r: nat, k: nat)
    requires 0 <= r < k && n == q * k + r
    ensures n / k == q && n % k == r
  {
    var q', r' := n / k, n % k;
    assert (q - q') * k == r' - r;
    if q > q' {
      MulAtLeast(q - q', k);
    } else if q < q' {
      MulAtLeast(q' - q, k);
    }
  }

  lemma MulAtLeast(a: int, k: nat)
    requires a >= 1
    ensures a * k >= k
  {
    assert a * k == (a - 1) * k + k;
  }

  /** Every unit with its suffix, largest first. */
  function AllParts(u: Uptime): seq<string> {
    [NatToString(u.d) + "일", NatToString(u.h) + "시간", NatToString(u.m) + "분", NatToString(u.s) + "초"]
  }

  /** The position of the first unit shown: the largest non-zero unit, and
      the seconds when all of days, hours and minutes are zero. */
  function FirstShown(u: Uptime): (k: nat)
    ensures k <= 3
    ensures k > 0 ==> u.d == 0
    ensures k > 1 ==> u.h == 0
    ensures k > 2 ==> u.m == 0
    ensures k == 0 || (k == 1 && u.h != 0) || (k == 2 && u.m != 0) || k == 3
  {
    if u.d != 0 then 0 else if u.h != 0 then 1 else if u.m != 0 then 2 else 3
  }

  /** The `parts` list `formatUptime` builds: a unit is pushed when it is
      non-zero or a larger unit was pushed, and the seconds always. So the
      list is every part from the first non-zero unit on. */
  function UptimeParts(u: Uptime): (parts: seq<string>)
    ensures parts == AllParts(u)[FirstShown(u)..]
  {
    var withDays := if u.d != 0 then [NatToString(u.d) + "일"] else [];
    var withHours := if u.h != 0 || |withDays| > 0 then withDays + [NatToString(u.h) + "시간"] else withDays;
    var withMinutes := if u.m != 0 || |withHours| > 0 then withHours + [NatToString(u.m) + "분"] else withHours;
    withMinutes + [NatToString(u.s) + "초"]
  }

  /** `formatUptime(seconds)` for a whole number of seconds. */
  function FormatUptime(seconds: nat): string {
    Join(UptimeParts(Decompose(seconds)), " ")
  }

  /** Seconds come last and are always there; days only when non-zero;
      hours, minutes when they or a larger unit are non-zero. */
  lemma UptimePartsShape(u: Uptime)
    ensures var parts := UptimeParts(u);
      1 <= |parts| <= 4 && parts[|parts| - 1] == NatToString(u.s) + "초"
      && (|parts| == 4 <==> u.d != 0)
      && (|parts| >= 3 <==> u.d != 0 || u.h != 0)
      && (|parts| >= 2 <==> u.d != 0 || u.h != 0 || u.m != 0)
  {
  }

  // -------------------------------------------------------------- counters

  /** The counters of `statusCounts` and `phaseCounts`, in order; the catch-all
      `other` is the last of each. */
  const StatusKeys: seq<string> := ["scheduled", "live", "completed", "other"]
  const PhaseKeys: seq<string> := ["waiting", "ready-check", "map-selected", "banning", "picking", "locked", "other"]

  /** Where `key` sits among the counters, or -1. */
  function Slot(keys: seq<string>, key: string): (i: int)
    ensures -1 <= i < |keys|
    ensures i == -1 <==> key !in keys
    ensures i >= 0 ==> keys[i] == key
  {
    if keys == [] then -1
    else if keys[0] == key then 0
    else
      var k := Slot(keys[1..], key);
      if k == -1 then -1 else k + 1
  }

  /** One `counts[key] != null ? counts[key] += 1 : counts.other += 1`. A
      key among `inherited` reads an inherited property that is not `null`,
      so the `+= 1` lands on that property and no counter moves. */
  function Tally(keys: seq<string>, inherited: set<string>, counts: seq<nat>, key: string): (c: seq<nat>)
    requires |counts| == |keys| > 0
    ensures |c| == |counts|
  {
    var i := Slot(keys, key);
    if i >= 0 then counts[i := counts[i] + 1]
    else if key in inherited then counts
    else counts[|keys| - 1 := counts[|keys| - 1] + 1]
  }

  /** A tally adds one to the counter named `key`, or to `other` when no
      counter and no inherited name matches, and to nothing else. */
  lemma TallyEffect(keys: seq<string>, inherited: set<string>, counts: seq<nat>, key: string, i: nat)
    requires |counts| == |keys| > 0 && Distinct(keys) && i < |keys|
    ensures Tally(keys, inherited, counts, key)[i]
      == counts[i] + (if keys[i] == key || (i == |keys| - 1 && key !in keys && key !in inherited) then 1 else 0)
  {
  }

  function Zeros(n: nat): (z: seq<nat>)
    ensures |z| == n && forall i :: 0 <= i < n ==> z[i] == 0
  {
    seq(n, i => 0)
  }

  /** The counters after tallying the key of every element of `xs`. */
  function Count(keys: seq<string>, inherited: set<string>, keyOf: JsValue -> string, xs: seq<JsValue>): (c: seq<nat>)
    requires |keys| > 0 && Distinct(keys)
    ensures |c| == |keys|
  {
    if xs == [] then Zeros(|keys|)
    else Tally(keys, inherited, Count(keys, inherited, keyOf, xs[..|xs| - 1]), keyOf(xs[|xs| - 1]))
  }

  function Sum(c: seq<nat>): nat {
    if c == [] then 0 else Sum(c[..|c| - 1]) + c[|c| - 1]
  }

  /** How many keys of `xs` fall on an inherited name and are not counted. */
  function Missed(keys: seq<string>, inherited: set<string>, keyOf: JsValue -> string, xs: seq<JsValue>): nat {
    if xs == [] then 0
    else
      var k := keyOf(xs[|xs| - 1]);
      Missed(keys, inherited, keyOf, xs[..|xs| - 1]) + (if k !in keys && k in inherited then 1 else 0)
  }

  lemma {:induction false} SumZeros(n: nat)
    ensures Sum(Zeros(n)) == 0
  {
    if n > 0 {
      assert Zeros(n)[..n - 1] == Zeros(n - 1);
      SumZeros(n - 1);
    }
  }

  /** Summing the counters after one tally. */
  lemma {:induction false} SumOfBumps(a: seq<nat>, b: seq<nat>, bump: seq<nat>)
    requires |a| == |b| == |bump|
    requires forall i :: 0 <= i < |a| ==> b[i] == a[i] + bump[i]
    ensures Sum(b) == Sum(a) + Sum(bump)
  {
    if a != [] {
      var n := |a| - 1;
      SumOfBumps(a[..n], b[..n], bump[..n]);
    }
  }

  lemma {:induction false} SumOfIndicator(n: nat, k: int)
    ensures Sum(seq(n, i => if i == k then 1 else 0)) == if 0 <= k < n then 1 else 0
  {
    if n > 0 {
      assert seq(n, i => if i == k then 1 else 0)[..n - 1] == seq(n - 1, i => if i == k then 1 else 0);
      SumOfIndicator(n - 1, k);
    }
  }

  /** A tally adds one to the total, except on an inherited name. */
  lemma TallySum(keys: seq<string>, inherited: set<string>, counts: seq<nat>, key: string)
    requires |counts| == |keys| > 0 && Distinct(keys)
    ensures Sum(Tally(keys, inherited, counts, key)) == Sum(counts) + (if key !in keys && key in inherited then 0 else 1)
  {
    var c := Tally(keys, inherited, counts, key);
    var k := if key in keys then Slot(keys, key) else if key in inherited then -1 else |keys| - 1;
    var bump := seq(|keys|, i => if i == k then 1 else 0);
    forall i | 0 <= i < |keys|
      ensures c[i] == counts[i] + bump[i]
    {
      TallyEffect(keys, inherited, counts, key, i);
      if key in keys && keys[i] == key {
        assert i == Slot(keys, key);
      }
    }
    SumOfBumps(counts, c, bump);
    SumOfIndicator(|keys|, k);
  }

  /** Every element is counted once unless its key is an inherited name. */
  lemma {:induction false} CountSum(keys: seq<string>, inherited: set<string>, keyOf: JsValue -> string, xs: seq<JsValue>)
    requires |keys| > 0 && Distinct(keys)
    ensures Sum(Count(keys, inherited, keyOf, xs)) + Missed(keys, inherited, keyOf, xs) == |xs|
  {
    if xs == [] {
      SumZeros(|keys|);
    } else {
      var n := |xs| - 1;
      CountSum(keys, inherited, keyOf, xs[..n]);
      TallySum(keys, inherited, Count(keys, inherited, keyOf, xs[..n]), keyOf(xs[n]));
    }
  }

  /** With no inherited names nothing is missed. */
  lemma {:induction false} NoneMissed(keys: seq<string>, keyOf: JsValue -> string, xs: seq<JsValue>)
    ensures Missed(keys, {}, keyOf, xs) == 0
  {
    if xs != [] {
      NoneMissed(keys, keyOf, xs[..|xs| - 1]);
    }
  }

  /** `t.status || 'scheduled'` as a property key. */
  function StatusKey(t: JsValue): string {
    ToStr(Or(Get(t, "status"), Str("scheduled")))
  }

  /** `m.phase || 'waiting'` as a property key. */
  function PhaseKey(m: JsValue): string {
    ToStr(Or(Get(m, "phase"), Str("waiting")))
  }

  /** `Array.isArray(t.matches) ? t.matches : []` */
  function MatchesOf(t: JsValue): seq<JsValue> {
    var ms := Get(t, "matches");
    if ms.Arr? then ms.items else []
  }

  /** The matches of every tournament, in order. */
  function AllMatches(list: seq<JsValue>): seq<JsValue> {
    if list == [] then [] else AllMatches(list[..|list| - 1]) + MatchesOf(list[|list| - 1])
  }

  /** Reading `status` of a `null` tournament or `phase` of a `null` match
      throws. */
  predicate ReadThrows(list: seq<JsValue>) {
    (exists i :: 0 <= i < |list| && IsNullish(list[i]))
    || (exists j :: 0 <= j < |AllMatches(list)| && IsNullish(AllMatches(list)[j]))
  }

  datatype Stats = Stats(
    ok: bool,
    tournaments: nat,
    matches: nat,
    statusCounts: Option<seq<nat>>,
    phaseCounts: Option<seq<nat>>,
    message: Option<string>)

  const ReadFailed: string := "대회 데이터 읽기 실패"

  /** The `catch` branch: no counts, and the error's message or a default. */
  function Failure(e: string): Stats {
    Stats(false, 0, 0, None, None, Some(if e != "" then e else ReadFailed))
  }

  /** `getTournamentStats()`, given what `readJsonFile(TOURNAMENTS_FILE, [])`
      produced. `inherited` is the set of names the counter objects answer
      for without owning them: `ObjectPrototypeNames` for the code as
      written. */
  function TournamentStats(read: Result<JsValue>, inherited: set<string>): (r: Stats)
    ensures read.Throws? ==> r == Failure(read.error)
    ensures r.ok ==> r.statusCounts.Some? && |r.statusCounts.value| == |StatusKeys|
                     && r.phaseCounts.Some? && |r.phaseCounts.value| == |PhaseKeys|
                     && r.message.None?
    ensures !r.ok ==> r.tournaments == 0 && r.matches == 0 && r.statusCounts.None? && r.phaseCounts.None?
  {
    match read
    case Throws(e) => Failure(e)
    case Ok(v) =>
      var list := if v.Arr? then v.items else [];
      if ReadThrows(list) then Failure(TypeError)
      else
        var ms := AllMatches(list);
        Stats(true, |list|, |ms|, Some(Count(StatusKeys, inherited, StatusKey, list)),
              Some(Count(PhaseKeys, inherited, PhaseKey, ms)), None)
  }

  lemma KeysDistinct()
    ensures Distinct(StatusKeys) && Distinct(PhaseKeys)
    ensures StatusKeys[|StatusKeys| - 1] == "other" && PhaseKeys[|PhaseKeys| - 1] == "other"
  {
  }

  /** With own-property lookups the status counters add up to the number
      of tournaments and the phase counters to the number of matches. */
  lemma CountsAddUp(read: Result<JsValue>)
    ensures var r := TournamentStats(read, {});
      r.ok ==> Sum(r.statusCounts.value) == r.tournaments && Sum(r.phaseCounts.value) == r.matches
  {
    KeysDistinct();
    if read.Ok? {
      var list := if read.value.Arr? then read.value.items else [];
      CountSum(StatusKeys, {}, StatusKey, list);
      NoneMissed(StatusKeys, StatusKey, list);
      CountSum(PhaseKeys, {}, PhaseKey, AllMatches(list));
      NoneMissed(PhaseKeys, PhaseKey, AllMatches(list));
    }
  }

  /** As written, each tournament whose status is an inherited name (such as
      `toString`) is missing from the total. */
  lemma CountsAsWritten(read: Result<JsValue>)
    ensures var r := TournamentStats(read, ObjectPrototypeNames);
      var list := if read.Ok? && read.value.Arr? then read.value.items else [];
      r.ok ==> Sum(r.statusCounts.value) + Missed(StatusKeys, ObjectPrototypeNames, StatusKey, list) == r.tournaments
  {
    KeysDistinct();
    if read.Ok? {
      var list := if read.value.Arr? then read.value.items else [];
      CountSum(StatusKeys, ObjectPrototypeNames, StatusKey, list);
    }
  }

  /** One tournament with `status: "toString"`: counted as a tournament but in
      no counter. */
  lemma InheritedStatusUncounted()
    ensures var r := TournamentStats(Ok(Arr([Obj(map["status" := Str("toString")])])), ObjectPrototypeNames);
      r.ok && r.tournaments == 1 && Sum(r.statusCounts.value) == 0
  {
    var t := Obj(map["status" := Str("toString")]);
    KeysDistinct();
    assert [t][..0] == [];
    assert AllMatches([t]) == [];
    InheritedKeyIgnored(StatusKeys, "toString", Count(StatusKeys, ObjectPrototypeNames, StatusKey, []));
    StatusOfToString(t);
    SumZeros(4);
  }

  lemma StatusOfToString(t: JsValue)
    requires t == Obj(map["status" := Str("toString")])
    ensures StatusKey(t) == "toString"
  {
    assert Get(t, "status") == Str("toString");
  }

  /** A key that is an inherited name and no counter leaves the counters alone. */
  lemma InheritedKeyIgnored(keys: seq<string>, key: string, counts: seq<nat>)
    requires |counts| == |keys| > 0 && Distinct(keys)
    requires key !in keys && key in ObjectPrototypeNames
    ensures Tally(keys, ObjectPrototypeNames, counts, key) == counts
  {
  }

  /** A missing or empty status is counted as `scheduled`, an unknown one as
      `other`; the same for phases with `waiting`. */
  lemma DefaultKeys(t: JsValue)
    ensures !Truthy(Get(t, "status")) ==> StatusKey(t) == "scheduled"
    ensures !Truthy(Get(t, "phase")) ==> PhaseKey(t) == "waiting"
  {
  }

  /** `getTournamentStats`, as the nested `forEach` loops run it. */
  method GetTournamentStats(read: Result<JsValue>) returns (r: Stats)
    ensures r == TournamentStats(read, ObjectPrototypeNames)
  {
    if read.Throws? {
      return Failure(read.error);
    }
    var list := if read.value.Arr? then read.value.items else [];
    KeysDistinct();
    var statusCounts := Zeros(|StatusKeys|);
    var phaseCounts := Zeros(|PhaseKeys|);
    var matchCount := 0;
    var i := 0;
    while i < |list|
      invariant 0 <= i <= |list|
      invariant !ReadThrows(list[..i])
      invariant statusCounts == Count(StatusKeys, ObjectPrototypeNames, StatusKey, list[..i])
      invariant phaseCounts == Count(PhaseKeys, ObjectPrototypeNames, PhaseKey, AllMatches(list[..i]))
      invariant matchCount == |AllMatches(list[..i])|
    {
      var t := list[i];
      if IsNullish(t) {
        ThrowsWithin(list, i + 1);
        return Failure(TypeError);
      }
      CountStep(StatusKeys, ObjectPrototypeNames, StatusKey, [], list, i);
      statusCounts := Tally(StatusKeys, ObjectPrototypeNames, statusCounts, StatusKey(t));
      var matches := MatchesOf(t);
      matchCount := matchCount + |matches|;
      var counted := CountPhases(PhaseKeys, ObjectPrototypeNames, PhaseKey, phaseCounts, matches, AllMatches(list[..i]));
      if counted.NullMatch? {
        ThrowsOnMatch(list, i, counted.at);
        return Failure(TypeError);
      }
      phaseCounts := counted.value;
      StepDone(list, i, matches);
      i := i + 1;
    }
    assert list[..i] == list;
    return Stats(true, |list|, matchCount, Some(statusCounts), Some(phaseCounts), None);
  }

  datatype Counted = Counted(value: seq<nat>) | NullMatch(at: nat)

  /** The inner `matches.forEach`, continuing the counters of the matches
      `before`; `NullMatch(j)` when reading match `j` throws. The counter
      names, the inherited names and the key read from a match are passed in. */
  method CountPhases(keys: seq<string>, inherited: set<string>, keyOf: JsValue -> string, counts: seq<nat>,
                     matches: seq<JsValue>, ghost before: seq<JsValue>) returns (r: Counted)
    requires |keys| > 0 && Distinct(keys)
    requires counts == Count(keys, inherited, keyOf, before)
    ensures r.NullMatch? ==> r.at < |matches| && IsNullish(matches[r.at])
    ensures r.Counted? ==> forall k :: 0 <= k < |matches| ==> !IsNullish(matches[k])
    ensures r.Counted? ==> r.value == Count(keys, inherited, keyOf, before + matches)
  {
    var phaseCounts := counts;
    var j := 0;
    assert before + matches[..0] == before;
    while j < |matches|
      invariant 0 <= j <= |matches|
      invariant forall k :: 0 <= k < j ==> !IsNullish(matches[k])
      invariant phaseCounts == Count(keys, inherited, keyOf, before + matches[..j])
    {
      var m := matches[j];
      if IsNullish(m) {
        return NullMatch(j);
      }
      CountStep(keys, inherited, keyOf, before, matches, j);
      phaseCounts := Tally(keys, inherited, phaseCounts, keyOf(m));
      j := j + 1;
    }
    assert matches[..j] == matches;
    return Counted(phaseCounts);
  }

  /** Counting one more element of `xs` is one more tally. */
  lemma CountStep(keys: seq<string>, inherited: set<string>, keyOf: JsValue -> string,
                  before: seq<JsValue>, xs: seq<JsValue>, j: nat)
    requires j < |xs| && |keys| > 0 && Distinct(keys)
    ensures Tally(keys, inherited, Count(keys, inherited, keyOf, before + xs[..j]), keyOf(xs[j]))
            == Count(keys, inherited, keyOf, before + xs[..j + 1])
  {
    assert (before + xs[..j + 1])[..|before + xs[..j + 1]| - 1] == before + xs[..j];
  }

  /** Extending the tournament prefix by one appends its matches. */
  lemma StepDone(list: seq<JsValue>, i: nat, matches: seq<JsValue>)
    requires i < |list| && matches == MatchesOf(list[i])
    requires !ReadThrows(list[..i]) && !IsNullish(list[i])
    requires forall k :: 0 <= k < |matches| ==> !IsNullish(matches[k])
    ensures list[..i + 1][..i] == list[..i]
    ensures AllMatches(list[..i + 1]) == AllMatches(list[..i]) + matches[..|matches|]
    ensures !ReadThrows(list[..i + 1])
  {
    var p := list[..i + 1];
    assert p[..i] == list[..i];
    assert matches[..|matches|] == matches;
    var all := AllMatches(p);
    forall j | 0 <= j < |all|
      ensures !IsNullish(all[j])
    {
      if j >= |AllMatches(list[..i])| {
        assert all[j] == matches[j - |AllMatches(list[..i])|];
      }
    }
  }

  /** A `null` tournament in the list makes the read throw. */
  lemma ThrowsWithin(list: seq<JsValue>, n: nat)
    requires 0 < n <= |list| && IsNullish(list[n - 1])
    ensures ReadThrows(list)
  {
  }

  /** A `null` match of a tournament in the list makes the read throw. */
  lemma ThrowsOnMatch(list: seq<JsValue>, i: nat, j: nat)
    requires i < |list| && j < |MatchesOf(list[i])| && IsNullish(MatchesOf(list[i])[j])
    ensures ReadThrows(list)
  {
    MatchesWithin(list, |list|, i);
    assert list[..|list|] == list;
    var k := |AllMatches(list[..i])| + j;
    assert AllMatches(list)[k] == MatchesOf(list[i])[j];
  }

  /** The matches of tournament `i` sit in `AllMatches` right after those of
      the tournaments before it. */
  lemma {:induction false} MatchesWithin(list: seq<JsValue>, n: nat, i: nat)
    requires i < n <= |list|
    ensures var before := |AllMatches(list[..i])|;
      before + |MatchesOf(list[i])| <= |AllMatches(list[..n])|
      && AllMatches(list[..n])[before..before + |MatchesOf(list[i])|] == MatchesOf(list[i])
  {
    assert list[..n][..n - 1] == list[..n - 1];
    if n == |list| {
      assert list[..n] == list;
    }
    if i < n - 1 {
      MatchesWithin(list, n - 1, i);
    } else {
      assert list[..n][..n - 1] == list[..i];
    }
  }

  // ----------------------------------------------------------- overall health

  /** `checkStorageHealth()` reduced to its verdict. A backend other than
      `gcs` is healthy; with `gcs`, a missing bucket is not, and otherwise
      the bucket check (`bucketFound`, or the error it threw) decides. */
  function StorageOk(backend: string, bucket: Option<string>, bucketFound: Result<bool>): bool {
    if backend != "gcs" then true
    else if bucket.None? || bucket.value == "" then false
    else bucketFound == Ok(true)
  }

  /** `storage.ok && tournaments.ok && (gcp.ok || !gcp.isGcp)` */
  predicate OverallOk(storageOk: bool, tournamentsOk: bool, gcpOk: bool, isGcp: bool) {
    storageOk && tournamentsOk && (gcpOk || !isGcp)
  }

  /** Off Google Cloud and on the local file backend only the tournament
      read decides the overall status, and a bad bucket always fails it. */
  lemma OverallOkCases(read: Result<JsValue>, backend: string, bucket: Option<string>,
                       bucketFound: Result<bool>, gcpOk: bool, isGcp: bool)
    ensures backend != "gcs" && !isGcp ==>
      (OverallOk(StorageOk(backend, bucket, bucketFound), TournamentStats(read, ObjectPrototypeNames).ok, gcpOk, isGcp)
       <==> TournamentStats(read, ObjectPrototypeNames).ok)
    ensures backend == "gcs" && bucketFound != Ok(true) ==>
      !OverallOk(StorageOk(backend, bucket, bucketFound), TournamentStats(read, ObjectPrototypeNames).ok, gcpOk, isGcp)
  {
  }

  // ------------------------------------------------------------- path pieces

  /** `(DATA_PREFIX || '').replace(/(^\/+|\/+$)/g, '') || null` */
  function StoragePrefix(dataPrefix: Option<string>): (r: Option<string>)
    ensures r.Some? ==> r.value != "" && r.value[0] != '/' && r.value[|r.value| - 1] != '/'
    ensures var raw := dataPrefix.GetOr("");
      r.Some? ==> exists i, j :: 0 <= i <= j <= |raw| && r.value == raw[i..j]
    ensures var raw := dataPrefix.GetOr("");
      r.None? <==> forall k :: 0 <= k < |raw| ==> raw[k] == '/'
  {
    var raw := if dataPrefix.Some? then dataPrefix.value else "";
    var stripped := StripChar(raw, '/');
    if stripped == "" then None else Some(stripped)
  }

  /** `path.split('/').pop()`: the text after the last `/`. */
  function LastSegment(path: string): (r: string)
    ensures '/' !in r
    ensures |r| <= |path| && r == path[|path| - |r|..]
    ensures |r| == |path| || path[|path| - |r| - 1] == '/'
  {
    var parts := Split(path, '/');
    JoinSplit(path, '/');
    LastOfJoin(parts, "/");
    parts[|parts| - 1]
  }

  /** The last part of a join ends it, after a separator when there are more. */
  lemma {:induction false} LastOfJoin(parts: seq<string>, sep: string)
    requires |parts| >= 1
    ensures var j := Join(parts, sep); var last := parts[|parts| - 1];
      |last| <= |j| && j[|j| - |last|..] == last
      && (|parts| > 1 ==> |last| + |sep| <= |j| && j[|j| - |last| - |sep|..|j| - |last|] == sep)
  {
    if |parts| > 1 {
      LastOfJoin(parts[1..], sep);
      JoinHead(parts, sep);
      if |parts| == 2 {
        JoinHead(parts[1..], sep);
      }
    }
  }

  /** `zonePath ? zonePath.split('/').pop() : null`, and the same for the
      machine type. */
  function MetadataName(path: Option<string>): (r: Option<string>)
    ensures r.None? <==> path.None? || path.value == ""
  {
    if path.Some? && path.value != "" then Some(LastSegment(path.value)) else None
  }
}
