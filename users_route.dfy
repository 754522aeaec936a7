/** Registration, `POST /users` (`server/routes/users.js`): the body is
    normalised into a user record, checked, compared case-insensitively with
    the stored accounts and appended. The stored list arrives as the result
    of `readJsonFile`; hashing is a parameter; the write goes through the
    data store. */
module UsersRoute {
  import opened Wrappers
  import opened Js
  import opened Strings
  import opened Text
  import opened DataStore
  import opened Http

  const MissingFields: string := "accountId와 password는 모두 필요합니다."
  const AdminRefused: string := "admin 계정은 생성할 수 없습니다."
  const AlreadyRegistered: string := "이미 등록된 계정 ID입니다."
  const CreateFailed: string := "사용자 생성에 실패했습니다."
  const Unranked: string := "언랭크"

  /** The normalised fields of the request body, the password still plain. */
  datatype Form = Form(accountId: string, password: string, role: string, displayName: string,
                       email: string, rank: JsValue, seed: bool)

  /** Lines 23-32: the destructuring of `req.body || {}` and the
      normalisation of each field. */
  function ReadForm(body: JsValue): (f: Form)
    ensures f.accountId == SanitizeString(Get(body, "accountId"))
    ensures f.password == (if Get(body, "password").Str? then Get(body, "password").s else "")
    ensures f.role == "player" <==> Get(body, "role") == Str("player")
    ensures f.role == "player" || f.role == "viewer"
    ensures SanitizeString(Get(body, "displayName")) != "" ==> f.displayName == SanitizeString(Get(body, "displayName"))
    ensures SanitizeString(Get(body, "displayName")) == "" ==> f.displayName == f.accountId
    ensures f.role == "viewer" ==> f.rank == Null
    ensures f.role == "player" ==> f.rank.Str? && f.rank.s != ""
    ensures f.role == "player" && SanitizeString(Get(body, "rank")) != "" ==> f.rank == Str(SanitizeString(Get(body, "rank")))
    ensures f.seed <==> Truthy(Get(body, "seed"))
  {
    var accountId := SanitizeString(Get(body, "accountId"));
    var password := if Get(body, "password").Str? then Get(body, "password").s else "";
    var role := if Get(body, "role") == Str("player") then "player" else "viewer";
    var shownName := SanitizeString(Get(body, "displayName"));
    var rankText := SanitizeString(Get(body, "rank"));
    Form(accountId, password, role,
         if shownName != "" then shownName else accountId,
         SanitizeString(Get(body, "email")),
         if role == "player" then Str(if rankText != "" then rankText else Unranked) else Null,
         Truthy(Get(body, "seed")))
  }

  /** `newUser`, with the hashed password. */
  function UserRecord(f: Form, hashed: string): (u: JsValue)
    ensures u.Obj?
  {
    Obj(map["accountId" := Str(f.accountId), "displayName" := Str(f.displayName), "role" := Str(f.role),
            "password" := Str(hashed), "email" := Str(f.email), "rank" := f.rank, "seed" := Bool(f.seed)])
  }

  /** The record stores the hash as its password and the account id it was
      registered under. */
  lemma UserRecordFields(f: Form, hashed: string)
    ensures Get(UserRecord(f, hashed), "password") == Str(hashed)
    ensures Get(UserRecord(f, hashed), "accountId") == Str(f.accountId)
  {
    var fields := UserRecord(f, hashed).fields;
    assert "password" != "seed" && "password" != "rank" && "password" != "email";
    assert "accountId" != "seed" && "accountId" != "rank" && "accountId" != "email" && "accountId" != "password"
      && "accountId" != "role" && "accountId" != "displayName";
  }

  /** `user.accountId.toLowerCase()`: a `TypeError` for a nullish user and
      for an `accountId` that is not a string. */
  function AccountKey(user: JsValue): (r: Result<string>)
    ensures r.Ok? <==> Get(user, "accountId").Str?
    ensures r.Ok? ==> r.value == ToLower(Get(user, "accountId").s)
  {
    if IsNullish(user) then Throws(TypeError)
    else
      var id := Get(user, "accountId");
      if id.Str? then Ok(ToLower(id.s)) else Throws(TypeError)
  }

  /** `users.some(user => user.accountId.toLowerCase() === id.toLowerCase())`:
      it stops at the first match, so only entries before it can throw. */
  function AnyAccountIs(users: seq<JsValue>, id: string): (r: Result<bool>)
    ensures r == Ok(false) <==> forall i :: 0 <= i < |users| ==> AccountKey(users[i]).Ok? && AccountKey(users[i]).value != ToLower(id)
    ensures r == Ok(true) ==> exists i :: 0 <= i < |users| && AccountKey(users[i]) == Ok(ToLower(id))
    ensures r.Throws? ==> exists i :: 0 <= i < |users| && AccountKey(users[i]).Throws?
  {
    if users == [] then Ok(false)
    else
      match AccountKey(users[0])
      case Throws(e) => Throws(e)
      case Ok(key) =>
        if key == ToLower(id) then Ok(true)
        else
          var rest := AnyAccountIs(users[1..], id);
          assert forall i :: 1 <= i < |users| ==> users[i] == users[1..][i - 1];
          rest
  }

  /** What the handler does after its checks: answer at once, or hand
      `users` to `writeJsonFile` and answer `created` once it succeeds. */
  datatype Outcome = Answer(reply: Reply) | Append(users: seq<JsValue>, created: Reply)

  /** Whether the normalised form passes the checks of lines 34-39. */
  predicate Acceptable(f: Form) {
    f.accountId != "" && f.password != "" && ToLower(f.accountId) != "admin"
  }

  /** The handler on the normalised body `f`. `read` is what
      `readJsonFile(USERS_FILE, [])` gave and `hash` is `hashPassword`. */
  function Register(f: Form, read: Result<JsValue>, hash: string -> string): (o: Outcome)
    ensures f.accountId == "" || f.password == "" ==> o == Answer(Reply(400, Notice(MissingFields)))
    ensures f.accountId != "" && f.password != "" && ToLower(f.accountId) == "admin" ==>
      o == Answer(Reply(403, Notice(AdminRefused)))
    ensures o.Append? <==> Acceptable(f) && read.Ok? && AnyAccountIs(Items(read.value), f.accountId) == Ok(false)
    ensures o.Append? ==>
      o.users == Items(read.value) + [UserRecord(f, hash(f.password))]
      && o.created == Reply(201, Json(Obj(PublicUser(UserRecord(f, hash(f.password))))))
    ensures o.Answer? && o.reply.status == 409 <==>
      Acceptable(f) && read.Ok? && AnyAccountIs(Items(read.value), f.accountId) == Ok(true)
    ensures o.Answer? ==> o.reply.status in {400, 403, 409, 500}
  {
    if f.accountId == "" || f.password == "" then Answer(Reply(400, Notice(MissingFields)))
    else if ToLower(f.accountId) == "admin" then Answer(Reply(403, Notice(AdminRefused)))
    else
      match read
      case Throws(_) => Answer(Reply(500, Notice(CreateFailed)))
      case Ok(existing) =>
        var users := Items(existing);
        match AnyAccountIs(users, f.accountId)
        case Throws(_) => Answer(Reply(500, Notice(CreateFailed)))
        case Ok(true) => Answer(Reply(409, Notice(AlreadyRegistered)))
        case Ok(false) =>
          var newUser := UserRecord(f, hash(f.password));
          Append(users + [newUser], Reply(201, Json(Obj(PublicUser(newUser)))))
  }

  /** The checks on the body come before the read: a refused body gets the
      same answer whatever the store holds, and nothing is written. */
  lemma RefusedBeforeRead(f: Form, read1: Result<JsValue>, read2: Result<JsValue>, hash: string -> string)
    requires !Acceptable(f)
    ensures Register(f, read1, hash) == Register(f, read2, hash)
    ensures Register(f, read1, hash).Answer?
    ensures Register(f, read1, hash).reply.status in {400, 403}
  {
  }

  /** A registered account is stored with the hash of the submitted
      password, after the accounts already stored, and the 201 body carries
      every field but the password. */
  lemma CreatedUser(f: Form, read: Result<JsValue>, hash: string -> string)
    requires Register(f, read, hash).Append?
    ensures var o := Register(f, read, hash);
      var added := o.users[|o.users| - 1];
      |o.users| == |Items(read.value)| + 1
      && o.users[..|Items(read.value)|] == Items(read.value)
      && Get(added, "password") == Str(hash(f.password))
      && Get(added, "accountId") == Str(f.accountId)
      && o.created.body.Json? && o.created.body.value.Obj?
      && "password" !in o.created.body.value.fields
      && o.created.body.value.fields.Keys == added.fields.Keys - {"password"}
  {
    var o := Register(f, read, hash);
    var added := UserRecord(f, hash(f.password));
    assert o.users == Items(read.value) + [added];
    assert o.users[|o.users| - 1] == added;
    assert o.users[..|Items(read.value)|] == Items(read.value);
    UserRecordFields(f, hash(f.password));
    PublicUserKeys(added.fields);
  }

  /** The account ids of a user list, compared in lower case, are distinct
      strings. */
  predicate DistinctAccounts(users: seq<JsValue>) {
    (forall i :: 0 <= i < |users| ==> AccountKey(users[i]).Ok?)
    && (forall i, j :: 0 <= i < j < |users| ==> AccountKey(users[i]) != AccountKey(users[j]))
  }

  /** Registration keeps account ids unique up to letter case, and never
      adds an `admin` account. */
  lemma RegistrationKeepsAccountsDistinct(f: Form, read: Result<JsValue>, hash: string -> string)
    requires read.Ok? && DistinctAccounts(Items(read.value))
    requires Register(f, read, hash).Append?
    ensures DistinctAccounts(Register(f, read, hash).users)
    ensures AccountKey(Register(f, read, hash).users[|Items(read.value)|]) == Ok(ToLower(f.accountId))
    ensures ToLower(f.accountId) != "admin"
  {
    var users := Items(read.value);
    var added := UserRecord(f, hash(f.password));
    var written := users + [added];
    assert Register(f, read, hash).users == written;
    UserRecordFields(f, hash(f.password));
    assert AccountKey(added) == Ok(ToLower(f.accountId));
    forall i, j | 0 <= i < j < |written|
      ensures AccountKey(written[i]) != AccountKey(written[j])
    {
      assert written[i] == users[i];
      if j < |users| {
        assert written[j] == users[j];
      } else {
        assert written[j] == added;
      }
    }
    assert written[|users|] == added;
  }

  /** `POST /users` against the file store: the body is normalised, then
      `Register` decides; an accepted user is written through the store
      before the 201 answer, and a failed write answers 500. */
  method PostUsers(store: DiskStore, body: JsValue, read: Result<JsValue>, hash: string -> string,
                   stringify: JsValue -> string, writeFault: Option<string>, now: int) returns (reply: Reply)
    modifies store
    ensures var o := Register(ReadForm(body), read, hash);
      o.Answer? ==> reply == o.reply && store.files == old(store.files) && store.events == old(store.events)
    ensures var o := Register(ReadForm(body), read, hash);
      o.Append? && writeFault.Some? ==>
        reply == Reply(500, Notice(CreateFailed)) && store.files == old(store.files) && store.events == old(store.events)
    ensures var o := Register(ReadForm(body), read, hash);
      o.Append? && writeFault.None? ==>
        reply == o.created
        && store.files == old(store.files)[store.usersFile := stringify(Arr(o.users))]
        && store.events == old(store.events)
                           + OptionToSeq(Notify(store.usersFile, Arr(o.users), store.usersFile, store.tournamentsFile, now))
  {
    var o := Register(ReadForm(body), read, hash);
    if o.Answer? {
      return o.reply;
    }
    var written := store.WriteJsonFile(store.usersFile, Arr(o.users), stringify, writeFault, now);
    if written.Throws? {
      return Reply(500, Notice(CreateFailed));
    }
    return o.created;
  }
}
