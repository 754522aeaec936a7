/** Start-up seeding (`server/bootstrap.js`): the stored users get a default
    `admin` account when none exists, every plain-text password is replaced
    by its hash, and the list is written back when either changed anything.
    The stored list arrives as the result of `readJsonFile`, hashing is a
    parameter, and any exception ends in the returned warning. */
module Bootstrap {
  import opened Wrappers
  import opened Js
  import opened Strings
  import opened DataStore
  import Passwords

  const AdminId: string := "admin"
  const AdminName: string := "Broadcast Admin"

  /** The seeded id is already in lower case. */
  lemma AdminIdLower()
    ensures ToLower(AdminId) == AdminId
  {
    assert forall i :: 0 <= i < |AdminId| ==> LowerChar(AdminId[i]) == AdminId[i];
  }

  /** The seeded account, given the hash of `ADMIN_PASSWORD`. */
  function AdminRecord(hashed: string): (u: JsValue)
    ensures u.Obj?
    ensures Get(u, "accountId") == Str(AdminId) && Get(u, "role") == Str("admin")
    ensures Get(u, "displayName") == Str(AdminName) && Get(u, "password") == Str(hashed)
  {
    Obj(map["accountId" := Str(AdminId), "displayName" := Str(AdminName), "role" := Str("admin"),
            "password" := Str(hashed), "email" := Str(""), "elo" := Null, "seed" := Bool(false)])
  }

  /** `u.accountId?.toLowerCase() === 'admin'`: a nullish user throws, a
      nullish id is no match, and an id that is neither nullish nor a
      string has no `toLowerCase` to call. */
  function IsAdmin(u: JsValue): (r: Result<bool>)
    ensures r.Throws? <==> IsNullish(u) || !(IsNullish(Get(u, "accountId")) || Get(u, "accountId").Str?)
    ensures r == Ok(true) <==> !IsNullish(u) && Get(u, "accountId").Str? && ToLower(Get(u, "accountId").s) == AdminId
  {
    if IsNullish(u) then Throws(TypeError)
    else
      var id := Get(u, "accountId");
      if IsNullish(id) then Ok(false)
      else if id.Str? then Ok(ToLower(id.s) == AdminId)
      else Throws(TypeError)
  }

  /** `users.some(...)` over `IsAdmin`: it stops at the first match, so
      only users before it can throw. */
  function HasAdmin(users: seq<JsValue>): (r: Result<bool>)
    ensures r == Ok(false) <==> forall i :: 0 <= i < |users| ==> IsAdmin(users[i]) == Ok(false)
    ensures r == Ok(true) ==> exists i :: 0 <= i < |users| && IsAdmin(users[i]) == Ok(true)
    ensures r.Throws? ==> exists i :: 0 <= i < |users| && IsAdmin(users[i]).Throws?
  {
    if users == [] then Ok(false)
    else
      match IsAdmin(users[0])
      case Throws(e) => Throws(e)
      case Ok(found) =>
        if found then Ok(true)
        else
          var rest := HasAdmin(users[1..]);
          assert forall i :: 1 <= i < |users| ==> users[i] == users[1..][i - 1];
          rest
  }

  /** A list with no admin and no throwing entry answers for the entry
      appended to it. */
  lemma {:induction false} HasAdminAppend(users: seq<JsValue>, u: JsValue)
    requires HasAdmin(users) == Ok(false)
    ensures HasAdmin(users + [u]) == IsAdmin(u)
  {
    if users == [] {
      assert [u][1..] == [];
    } else {
      assert (users + [u])[1..] == users[1..] + [u];
      assert forall i :: 1 <= i < |users| ==> users[i] == users[1..][i - 1];
      HasAdminAppend(users[1..], u);
    }
  }

  /** `HasAdmin` depends only on what `IsAdmin` says of each entry. */
  lemma {:induction false} HasAdminPointwise(a: seq<JsValue>, b: seq<JsValue>)
    requires |a| == |b| && forall k :: 0 <= k < |a| ==> IsAdmin(a[k]) == IsAdmin(b[k])
    ensures HasAdmin(a) == HasAdmin(b)
  {
    if a != [] {
      assert forall k :: 0 <= k < |a| - 1 ==> a[1..][k] == a[k + 1] && b[1..][k] == b[k + 1];
      HasAdminPointwise(a[1..], b[1..]);
    }
  }

  /** The test of the migration loop: a truthy string password not in the
      `s2$` scheme. Reading `password` of a nullish user throws. */
  function NeedsMigration(u: JsValue): (r: Result<bool>)
    ensures r.Throws? <==> IsNullish(u)
    ensures r.Throws? ==> r.error == TypeError
    ensures r == Ok(true) <==>
      !IsNullish(u) && Get(u, "password").Str? && Get(u, "password").s != ""
      && !StartsWith(Get(u, "password").s, Passwords.SchemePrefix)
  {
    if IsNullish(u) then Throws(TypeError)
    else
      var pw := Get(u, "password");
      Ok(Truthy(pw) && pw.Str? && !StartsWith(pw.s, Passwords.SchemePrefix))
  }

  /** The user after one turn of the loop: `u.password = hashPassword(...)`
      when it needed migrating, the same user otherwise. */
  function Migrated(u: JsValue, hash: string -> string): (r: JsValue)
    ensures NeedsMigration(u) != Ok(true) ==> r == u
    ensures NeedsMigration(u) == Ok(true) ==>
      r.Obj? && r.fields.Keys == u.fields.Keys
      && Get(r, "password") == Str(hash(Get(u, "password").s))
      && forall k :: k != "password" ==> Get(r, k) == Get(u, k)
  {
    if NeedsMigration(u) == Ok(true) then Obj(u.fields["password" := Str(hash(Get(u, "password").s))])
    else u
  }

  /** The loop over `users`, in order: the migrated list and the `migrated`
      flag, or the exception of the first nullish user. */
  function MigrateAll(users: seq<JsValue>, hash: string -> string): (r: Result<(seq<JsValue>, bool)>)
    ensures r.Throws? ==> r.error == TypeError
    decreases |users|
  {
    if users == [] then Ok(([], false))
    else
      var last := users[|users| - 1];
      match MigrateAll(users[..|users| - 1], hash)
      case Throws(e) => Throws(e)
      case Ok(done) =>
        match NeedsMigration(last)
        case Throws(e) => Throws(e)
        case Ok(needed) => Ok((done.0 + [Migrated(last, hash)], done.1 || needed))
  }

  /** The loop succeeds exactly when no user is nullish; it migrates each
      user on its own, and the flag says whether any needed it. */
  lemma {:induction false} MigrateAllPointwise(users: seq<JsValue>, hash: string -> string)
    ensures MigrateAll(users, hash).Ok? <==> forall k :: 0 <= k < |users| ==> !IsNullish(users[k])
    ensures MigrateAll(users, hash).Ok? ==>
      var (migrated, flag) := MigrateAll(users, hash).value;
      |migrated| == |users|
      && (forall k :: 0 <= k < |users| ==> migrated[k] == Migrated(users[k], hash))
      && (flag <==> exists k :: 0 <= k < |users| && NeedsMigration(users[k]) == Ok(true))
    decreases |users|
  {
    if users != [] {
      var front := users[..|users| - 1];
      var last := users[|users| - 1];
      MigrateAllPointwise(front, hash);
      assert forall k :: 0 <= k < |front| ==> front[k] == users[k];
      if MigrateAll(users, hash).Ok? {
        var (done, f) := MigrateAll(front, hash).value;
        var needed := NeedsMigration(last).value;
        assert MigrateAll(users, hash).value == (done + [Migrated(last, hash)], f || needed);
        if needed {
          assert NeedsMigration(users[|users| - 1]) == Ok(true);
        }
        if f {
          var k :| 0 <= k < |front| && NeedsMigration(front[k]) == Ok(true);
          assert NeedsMigration(users[k]) == Ok(true);
        }
      }
    }
  }

  /** A list in which no user needs migrating comes out of the loop as it
      went in, with the flag down. */
  lemma {:induction false} NothingToMigrate(users: seq<JsValue>, hash: string -> string)
    requires forall k :: 0 <= k < |users| ==> NeedsMigration(users[k]) == Ok(false)
    ensures MigrateAll(users, hash) == Ok((users, false))
    decreases |users|
  {
    if users != [] {
      var front := users[..|users| - 1];
      assert forall k :: 0 <= k < |front| ==> front[k] == users[k];
      NothingToMigrate(front, hash);
      assert front + [users[|users| - 1]] == users;
    }
  }

  /** `hashPassword` writes values in the `s2$` scheme. */
  ghost predicate HashesInScheme(hash: string -> string) {
    forall p :: StartsWith(hash(p), Passwords.SchemePrefix)
  }

  /** With such a hash no truthy string password is left outside the
      scheme, and migrating again changes nothing. */
  lemma MigrationSettles(users: seq<JsValue>, hash: string -> string)
    requires HashesInScheme(hash) && MigrateAll(users, hash).Ok?
    ensures var migrated := MigrateAll(users, hash).value.0;
      (forall k :: 0 <= k < |migrated| ==> NeedsMigration(migrated[k]) == Ok(false))
      && MigrateAll(migrated, hash) == Ok((migrated, false))
  {
    MigrateAllPointwise(users, hash);
    var migrated := MigrateAll(users, hash).value.0;
    forall k | 0 <= k < |migrated|
      ensures NeedsMigration(migrated[k]) == Ok(false)
    {
      var u := users[k];
      if NeedsMigration(u) == Ok(true) {
        assert StartsWith(hash(Get(u, "password").s), Passwords.SchemePrefix);
      }
    }
    NothingToMigrate(migrated, hash);
  }

  /** The `for` loop of lines 26-32 on a copy of `users`: each user's
      password is replaced in place when it needs migrating. */
  method MigratePasswords(users: seq<JsValue>, hash: string -> string) returns (r: Result<(seq<JsValue>, bool)>)
    ensures r == MigrateAll(users, hash)
  {
    var current := users;
    var migrated := false;
    var i := 0;
    while i < |current|
      invariant 0 <= i <= |current| == |users|
      invariant forall k :: i <= k < |current| ==> current[k] == users[k]
      invariant MigrateAll(users[..i], hash) == Ok((current[..i], migrated))
    {
      var u := current[i];
      assert u == users[i];
      if IsNullish(u) {
        MigrateAllPointwise(users, hash);
        return Throws(TypeError);
      }
      var pw := Get(u, "password");
      if Truthy(pw) && pw.Str? && !StartsWith(pw.s, Passwords.SchemePrefix) {
        current := current[i := Obj(u.fields["password" := Str(hash(pw.s))])];
        migrated := true;
      }
      assert users[..i + 1][..i] == users[..i];
      assert current[..i + 1] == current[..i] + [current[i]];
      i := i + 1;
    }
    assert users[..i] == users;
    assert current[..i] == current;
    return Ok((current, migrated));
  }

  /** What `bootstrap()` decides on `read`, the result of
      `readJsonFile(USERS_FILE, [])`: the list to write (`None` when nothing
      changed), or the exception that ends in the warning. */
  function Plan(read: Result<JsValue>, adminPassword: string, hash: string -> string)
    : Result<Option<seq<JsValue>>>
  {
    match read
    case Throws(e) => Throws(e)
    case Ok(existing) =>
      var users := Items(existing);
      match HasAdmin(users)
      case Throws(e) => Throws(e)
      case Ok(hasAdmin) =>
        var seeded := if hasAdmin then users else users + [AdminRecord(hash(adminPassword))];
        match MigrateAll(seeded, hash)
        case Throws(e) => Throws(e)
        case Ok((migrated, changed)) => Ok(if !hasAdmin || changed then Some(migrated) else None)
  }

  /** The admin is appended exactly when no stored account is `admin` in
      any letter case, so the list grows by at most one; the stored users
      keep their order and only their passwords change. */
  lemma AdminSeededWhenMissing(read: Result<JsValue>, adminPassword: string, hash: string -> string)
    requires Plan(read, adminPassword, hash).Ok? && Plan(read, adminPassword, hash).value.Some?
    ensures var users := Items(read.value);
      var written := Plan(read, adminPassword, hash).value.value;
      (|written| == |users| + 1 <==> HasAdmin(users) == Ok(false))
      && (|written| == |users| <==> HasAdmin(users) == Ok(true))
      && (forall k :: 0 <= k < |users| ==> written[k] == Migrated(users[k], hash))
      && (HasAdmin(users) == Ok(false) ==> written[|users|] == Migrated(AdminRecord(hash(adminPassword)), hash))
  {
    var users := Items(read.value);
    var hasAdmin := HasAdmin(users).value;
    var seeded := if hasAdmin then users else users + [AdminRecord(hash(adminPassword))];
    MigrateAllPointwise(seeded, hash);
    assert forall k :: 0 <= k < |users| ==> seeded[k] == users[k];
  }

  /** With a hash in the scheme the seeded admin keeps the hash of
      `ADMIN_PASSWORD`, with role `admin`. */
  lemma SeededAdminRecord(read: Result<JsValue>, adminPassword: string, hash: string -> string)
    requires HashesInScheme(hash)
    requires Plan(read, adminPassword, hash).Ok? && HasAdmin(Items(read.value)) == Ok(false)
    ensures var written := Plan(read, adminPassword, hash).value;
      written.Some? && |written.value| == |Items(read.value)| + 1
      && written.value[|Items(read.value)|] == AdminRecord(hash(adminPassword))
  {
    AdminSeededWhenMissing(read, adminPassword, hash);
    assert StartsWith(hash(adminPassword), Passwords.SchemePrefix);
  }

  /** The migration leaves the account id alone. */
  lemma MigratedKeepsId(u: JsValue, hash: string -> string)
    ensures IsAdmin(Migrated(u, hash)) == IsAdmin(u)
  {
    if NeedsMigration(u) == Ok(true) {
      assert Get(Migrated(u, hash), "accountId") == Get(u, "accountId");
    }
  }

  /** Migrating a list keeps every answer of the admin search. */
  lemma MigrationKeepsAdmin(users: seq<JsValue>, hash: string -> string)
    requires MigrateAll(users, hash).Ok?
    ensures HasAdmin(MigrateAll(users, hash).value.0) == HasAdmin(users)
  {
    var written := MigrateAll(users, hash).value.0;
    MigrateAllPointwise(users, hash);
    forall k | 0 <= k < |users|
      ensures IsAdmin(written[k]) == IsAdmin(users[k])
    {
      MigratedKeepsId(users[k], hash);
    }
    HasAdminPointwise(written, users);
  }

  /** After a write the written list has an admin: the one found, whose id
      the migration leaves alone, or the one seeded. */
  lemma WrittenHasAdmin(read: Result<JsValue>, adminPassword: string, hash: string -> string)
    requires Plan(read, adminPassword, hash).Ok? && Plan(read, adminPassword, hash).value.Some?
    ensures HasAdmin(Plan(read, adminPassword, hash).value.value) == Ok(true)
  {
    var users := Items(read.value);
    var written := Plan(read, adminPassword, hash).value.value;
    if HasAdmin(users) == Ok(true) {
      assert written == MigrateAll(users, hash).value.0;
      MigrationKeepsAdmin(users, hash);
    } else {
      var admin := AdminRecord(hash(adminPassword));
      var seeded := users + [admin];
      assert written == MigrateAll(seeded, hash).value.0;
      MigrationKeepsAdmin(seeded, hash);
      HasAdminAppend(users, admin);
      AdminIdLower();
      assert IsAdmin(admin) == Ok(true);
    }
  }

  /** Bootstrapping settles: after its write an admin exists, every
      password is in the scheme, and a second run on the written list
      writes nothing. */
  lemma BootstrapSettles(read: Result<JsValue>, adminPassword: string, hash: string -> string)
    requires HashesInScheme(hash)
    requires Plan(read, adminPassword, hash).Ok? && Plan(read, adminPassword, hash).value.Some?
    ensures var written := Plan(read, adminPassword, hash).value.value;
      HasAdmin(written) == Ok(true)
      && (forall k :: 0 <= k < |written| ==> NeedsMigration(written[k]) == Ok(false))
      && Plan(Ok(Arr(written)), adminPassword, hash) == Ok(None)
  {
    var users := Items(read.value);
    var seeded := if HasAdmin(users).value then users else users + [AdminRecord(hash(adminPassword))];
    var written := Plan(read, adminPassword, hash).value.value;
    assert written == MigrateAll(seeded, hash).value.0;
    WrittenHasAdmin(read, adminPassword, hash);
    MigrationSettles(seeded, hash);
    assert Items(Arr(written)) == written;
  }

  /** Only a failed read or a throwing entry ends in the warning: a user
      that is nullish, or one the admin search reaches with an `accountId`
      that is not a string. */
  lemma PlanThrows(read: Result<JsValue>, adminPassword: string, hash: string -> string)
    requires read.Ok?
    ensures Plan(read, adminPassword, hash).Throws? <==>
      HasAdmin(Items(read.value)).Throws? || exists k :: 0 <= k < |Items(read.value)| && IsNullish(Items(read.value)[k])
  {
    var users := Items(read.value);
    if HasAdmin(users).Ok? {
      var seeded := if HasAdmin(users).value then users else users + [AdminRecord(hash(adminPassword))];
      assert Plan(read, adminPassword, hash).Throws? <==> MigrateAll(seeded, hash).Throws?;
      SeededThrows(users, seeded, hash);
    }
  }

  /** The seeded list throws in the loop exactly when a stored user is
      nullish: the seeded admin is an object. */
  lemma SeededThrows(users: seq<JsValue>, seeded: seq<JsValue>, hash: string -> string)
    requires seeded == users || (|seeded| == |users| + 1 && seeded[..|users|] == users && seeded[|users|].Obj?)
    ensures MigrateAll(seeded, hash).Throws? <==> exists k :: 0 <= k < |users| && IsNullish(users[k])
  {
    MigrateAllOk(seeded, hash);
    if seeded != users {
      assert forall k :: 0 <= k < |users| ==> seeded[k] == users[k];
    }
  }

  /** The loop succeeds exactly when no user is nullish. */
  lemma MigrateAllOk(users: seq<JsValue>, hash: string -> string)
    ensures MigrateAll(users, hash).Ok? <==> forall k :: 0 <= k < |users| ==> !IsNullish(users[k])
  {
    MigrateAllPointwise(users, hash);
  }

  /** `bootstrap()` against the file store: the result is the warning it
      logs, `None` when it finished cleanly. */
  method Run(store: DiskStore, read: Result<JsValue>, adminPassword: string, hash: string -> string,
             stringify: JsValue -> string, writeFault: Option<string>, now: int) returns (warning: Option<string>)
    modifies store
    ensures Plan(read, adminPassword, hash).Throws? ==>
      warning == Some(Plan(read, adminPassword, hash).error)
      && store.files == old(store.files) && store.events == old(store.events)
    ensures Plan(read, adminPassword, hash) == Ok(None) ==>
      warning == None && store.files == old(store.files) && store.events == old(store.events)
    ensures Plan(read, adminPassword, hash).Ok? && Plan(read, adminPassword, hash).value.Some? && writeFault.Some? ==>
      warning == writeFault && store.files == old(store.files) && store.events == old(store.events)
    ensures Plan(read, adminPassword, hash).Ok? && Plan(read, adminPassword, hash).value.Some? && writeFault.None? ==>
      var written := Arr(Plan(read, adminPassword, hash).value.value);
      warning == None
      && store.files == old(store.files)[store.usersFile := stringify(written)]
      && store.events == old(store.events)
                         + OptionToSeq(Notify(store.usersFile, written, store.usersFile, store.tournamentsFile, now))
  {
    if read.Throws? {
      return Some(read.error);
    }
    var users := Items(read.value);
    var hasAdmin := HasAdmin(users);
    if hasAdmin.Throws? {
      return Some(hasAdmin.error);
    }
    if !hasAdmin.value {
      users := users + [AdminRecord(hash(adminPassword))];
    }
    var migration := MigratePasswords(users, hash);
    if migration.Throws? {
      return Some(migration.error);
    }
    if !hasAdmin.value || migration.value.1 {
      var written := store.WriteJsonFile(store.usersFile, Arr(migration.value.0), stringify, writeFault, now);
      if written.Throws? {
        return Some(written.error);
      }
    }
    return None;
  }
}
