/** Sign-in, sign-out and the current user (`server/routes/auth.js`).
    Stored passwords are checked with `verifyPassword`, whose scrypt and
    UTF-8 encoder are parameters; signing and verifying tokens are the
    parameters `sign` and `verify`; the stored list arrives as the result
    of `readJsonFile`. */
module AuthRoute {
  import opened Wrappers
  import opened Js
  import opened Strings
  import opened Text
  import opened Http
  import opened Passwords
  import opened Cookies
  import DataStore
  import UsersRoute

  const MissingCredentials: string := "계정 ID와 비밀번호를 모두 입력해주세요."
  const BadCredentials: string := "계정 ID 또는 비밀번호가 올바르지 않습니다."
  const ServerError: string := "로그인 처리 중 서버 오류가 발생했습니다."

  /** The sanitised `accountId` and the `password` string of the body. */
  datatype Credentials = Credentials(id: string, password: string)

  function ReadCredentials(body: JsValue): Credentials {
    var pw := Get(body, "password");
    Credentials(SanitizeString(Get(body, "accountId")), if pw.Str? then pw.s else "")
  }

  /** The test of `users.find`: `u.accountId && u.accountId.toLowerCase()
      === id.toLowerCase()`. A nullish entry, or a truthy id that is not a
      string, throws a `TypeError`. */
  function IsAccount(user: JsValue, id: string): (r: Result<bool>)
    ensures r.Throws? <==> IsNullish(user) || (Truthy(Get(user, "accountId")) && !Get(user, "accountId").Str?)
    ensures r == Ok(true) <==> !IsNullish(user) && Get(user, "accountId").Str? && Get(user, "accountId").s != ""
                               && ToLower(Get(user, "accountId").s) == ToLower(id)
  {
    if IsNullish(user) then Throws(TypeError)
    else
      var accountId := Get(user, "accountId");
      if !Truthy(accountId) then Ok(false)
      else if accountId.Str? then Ok(ToLower(accountId.s) == ToLower(id))
      else Throws(TypeError)
  }

  /** `users.find(...) || null`: the first entry that is the account. */
  function FindAccount(users: seq<JsValue>, id: string): (r: Result<Option<JsValue>>)
    ensures r == Ok(None) <==> forall i :: 0 <= i < |users| ==> IsAccount(users[i], id) == Ok(false)
    ensures r.Ok? && r.value.Some? ==>
      exists i :: 0 <= i < |users| && users[i] == r.value.value && IsAccount(users[i], id) == Ok(true)
                  && forall j :: 0 <= j < i ==> IsAccount(users[j], id) == Ok(false)
    ensures r.Throws? ==> exists i :: 0 <= i < |users| && IsAccount(users[i], id).Throws?
  {
    if users == [] then Ok(None)
    else
      match IsAccount(users[0], id)
      case Throws(e) => Throws(e)
      case Ok(true) => Ok(Some(users[0]))
      case Ok(false) =>
        var rest := FindAccount(users[1..], id);
        assert forall i :: 1 <= i < |users| ==> users[i] == users[1..][i - 1];
        rest
  }

  /** Looking an account up ignores letter case. */
  lemma {:induction false} FindAccountIgnoresCase(users: seq<JsValue>, a: string, b: string)
    requires ToLower(a) == ToLower(b)
    ensures FindAccount(users, a) == FindAccount(users, b)
  {
    if users != [] {
      assert IsAccount(users[0], a) == IsAccount(users[0], b);
      FindAccountIgnoresCase(users[1..], a, b);
    }
  }

  /** The claims `signJwt` signs, and the fields of the profile bodies. */
  datatype Claims = Claims(sub: JsValue, role: JsValue, displayName: JsValue)

  function ClaimsOf(user: JsValue): Claims {
    Claims(Get(user, "accountId"), Get(user, "role"), Get(user, "displayName"))
  }

  /** The token payload `{ sub, role, displayName }`. */
  function Payload(c: Claims): (p: JsValue)
    ensures p.Obj? && Get(p, "sub") == c.sub && Get(p, "role") == c.role && Get(p, "displayName") == c.displayName
  {
    assert "sub" != "role" && "sub" != "displayName" && "role" != "displayName";
    Obj(map["sub" := c.sub, "role" := c.role, "displayName" := c.displayName])
  }

  /** The body `{ accountId, role, displayName }` of a sign-in and of `/me`. */
  function Profile(c: Claims): (p: JsValue)
    ensures p.Obj? && Get(p, "accountId") == c.sub && Get(p, "role") == c.role && Get(p, "displayName") == c.displayName
  {
    assert "accountId" != "role" && "accountId" != "displayName" && "role" != "displayName";
    Obj(map["accountId" := c.sub, "role" := c.role, "displayName" := c.displayName])
  }

  /** A response and the `Set-Cookie` header it carries, if any. */
  datatype Session = Session(reply: Reply, setCookie: Option<string>)

  /** How the store read and the lookup went: the account, if any. */
  function Lookup(c: Credentials, read: Result<JsValue>): Result<Option<JsValue>> {
    if read.Throws? then Throws(read.error) else FindAccount(DataStore.Items(read.value), c.id)
  }

  /** `POST /login` on the normalised credentials. */
  function LogIn(c: Credentials, read: Result<JsValue>, scrypt: Scrypt, utf8: string -> seq<Byte>,
                 sign: Claims -> string, isProd: bool, encode: string -> string): (s: Session)
    ensures c.id == "" || c.password == "" ==> s == Session(Reply(400, Notice(MissingCredentials)), None)
    ensures s.setCookie.Some? <==> s.reply.status == 200
    ensures s.reply.status == 200 <==>
      c.id != "" && c.password != "" && Lookup(c, read).Ok? && Lookup(c, read).value.Some?
      && VerifyPassword(c.password, Get(Lookup(c, read).value.value, "password"), scrypt, utf8) == Ok(true)
    ensures s.reply.status == 200 ==>
      var user := Lookup(c, read).value.value;
      s.reply.body == Json(Profile(ClaimsOf(user)))
      && s.setCookie == Some(AuthCookie(sign(ClaimsOf(user)), isProd, encode))
    ensures c.id != "" && c.password != "" && Lookup(c, read) == Ok(None) ==>
      s == Session(Reply(401, Notice(BadCredentials)), None)
    ensures c.id != "" && c.password != "" && Lookup(c, read).Ok? && Lookup(c, read).value.Some?
            && VerifyPassword(c.password, Get(Lookup(c, read).value.value, "password"), scrypt, utf8) == Ok(false) ==>
      s == Session(Reply(401, Notice(BadCredentials)), None)
    ensures s.reply.status in {200, 400, 401, 500}
  {
    if c.id == "" || c.password == "" then Session(Reply(400, Notice(MissingCredentials)), None)
    else
      match Lookup(c, read)
      case Throws(_) => Session(Reply(500, Notice(ServerError)), None)
      case Ok(None) => Session(Reply(401, Notice(BadCredentials)), None)
      case Ok(Some(user)) =>
        match VerifyPassword(c.password, Get(user, "password"), scrypt, utf8)
        case Throws(_) => Session(Reply(500, Notice(ServerError)), None)
        case Ok(false) => Session(Reply(401, Notice(BadCredentials)), None)
        case Ok(true) =>
          var token := sign(ClaimsOf(user));
          Session(Reply(200, Json(Profile(ClaimsOf(user)))), Some(AuthCookie(token, isProd, encode)))
  }

  /** `POST /logout`: 204, no body, and the clearing cookie. */
  function LogOut(isProd: bool): (s: Session)
    ensures s.reply == Reply(204, Empty)
    ensures s.setCookie.Some?
    ensures forall decode: string -> Option<string> :: decode("") == Some("") ==>
      TokenFromRequest(None, Some(CookiePairOf(s.setCookie.value)), decode) == Ok(None)
  {
    forall decode: string -> Option<string> | decode("") == Some("")
      ensures TokenFromRequest(None, Some(CookiePairOf(ClearedCookie(isProd))), decode) == Ok(None)
    {
      ClearedCookieYieldsNoToken(isProd, decode);
    }
    Session(Reply(204, Empty), Some(ClearedCookie(isProd)))
  }

  /** `GET /me`: `null` without a usable token, otherwise the claims of the
      verified payload. A `Cookie` header that does not decode throws. */
  function Me(authorization: Option<string>, cookie: Option<string>, decode: string -> Option<string>,
              verify: string -> JsValue): (r: Result<Reply>)
    ensures r.Throws? <==> TokenFromRequest(authorization, cookie, decode).Throws?
    ensures r.Ok? ==> r.value.status == 200
    ensures r.Ok? && (TokenFromRequest(authorization, cookie, decode).value.None?
                      || TokenFromRequest(authorization, cookie, decode).value.value == "") ==>
      r.value.body == Json(Null)
    ensures r.Ok? && TokenFromRequest(authorization, cookie, decode).value.Some?
            && TokenFromRequest(authorization, cookie, decode).value.value != "" ==>
      var payload := verify(TokenFromRequest(authorization, cookie, decode).value.value);
      r.value.body == if Truthy(payload) then Json(Profile(Claims(Get(payload, "sub"), Get(payload, "role"),
                                                                  Get(payload, "displayName"))))
                      else Json(Null)
  {
    match TokenFromRequest(authorization, cookie, decode)
    case Throws(e) => Throws(e)
    case Ok(token) =>
      if token.None? || token.value == "" then Ok(Reply(200, Json(Null)))
      else
        var payload := verify(token.value);
        if !Truthy(payload) then Ok(Reply(200, Json(Null)))
        else Ok(Reply(200, Json(Profile(Claims(Get(payload, "sub"), Get(payload, "role"), Get(payload, "displayName"))))))
  }

  /** A wrong password and an unknown account get the same answer. */
  lemma FailuresLookAlike(c: Credentials, read1: Result<JsValue>, read2: Result<JsValue>, scrypt: Scrypt,
                          utf8: string -> seq<Byte>, sign: Claims -> string, isProd: bool, encode: string -> string)
    requires c.id != "" && c.password != ""
    requires Lookup(c, read1) == Ok(None)
    requires Lookup(c, read2).Ok? && Lookup(c, read2).value.Some?
    requires VerifyPassword(c.password, Get(Lookup(c, read2).value.value, "password"), scrypt, utf8) == Ok(false)
    ensures LogIn(c, read1, scrypt, utf8, sign, isProd, encode) == LogIn(c, read2, scrypt, utf8, sign, isProd, encode)
  {
  }

  /** The first account after `n` others that are not it is found. */
  lemma {:induction false} FindAfter(users: seq<JsValue>, user: JsValue, id: string)
    requires forall i :: 0 <= i < |users| ==> IsAccount(users[i], id) == Ok(false)
    requires IsAccount(user, id) == Ok(true)
    ensures FindAccount(users + [user], id) == Ok(Some(user))
  {
    if users != [] {
      assert (users + [user])[1..] == users[1..] + [user];
      FindAfter(users[1..], user, id);
    } else {
      assert [] + [user] == [user];
    }
  }

  /** A freshly registered account signs in with its password, under its id
      in any letter case, once the list `POST /users` wrote is read back
      and the registration hashed with an honest scrypt. */
  lemma RegisteredUserCanLogIn(f: UsersRoute.Form, read: Result<JsValue>, salt: seq<Byte>, hash: string -> string,
                               scrypt: Scrypt, utf8: string -> seq<Byte>, id: string,
                               sign: Claims -> string, isProd: bool, encode: string -> string)
    requires |salt| == SaltLength && KeyLengthsHonoured(scrypt)
    requires forall p :: hash(p) == HashPassword(p, salt, scrypt)
    requires UsersRoute.Register(f, read, hash).Append?
    requires id != "" && ToLower(id) == ToLower(f.accountId)
    ensures var stored := Ok(Arr(UsersRoute.Register(f, read, hash).users));
      LogIn(Credentials(id, f.password), stored, scrypt, utf8, sign, isProd, encode).reply.status == 200
  {
    var users := DataStore.Items(read.value);
    var added := UsersRoute.UserRecord(f, hash(f.password));
    assert UsersRoute.Register(f, read, hash).users == users + [added];
    UsersRoute.UserRecordFields(f, hash(f.password));
    assert UsersRoute.AnyAccountIs(users, f.accountId) == Ok(false);
    forall i | 0 <= i < |users|
      ensures IsAccount(users[i], id) == Ok(false)
    {
      assert UsersRoute.AccountKey(users[i]).Ok?;
    }
    assert IsAccount(added, id) == Ok(true);
    FindAfter(users, added, id);
    VerifyOwnHash(f.password, salt, scrypt, utf8);
  }

  /** The cookie a sign-in sets, sent back, lets `/me` answer with the same
      profile, whenever the token verifies to the payload it was signed
      from and its cookie encoding round-trips. */
  lemma SignInThenMe(claims: Claims, sign: Claims -> string, verify: string -> JsValue, isProd: bool,
                     encode: string -> string, decode: string -> Option<string>)
    requires sign(claims) != "" && ';' !in encode(sign(claims)) && Trimmed(encode(sign(claims)))
    requires decode(encode(sign(claims))) == Some(sign(claims))
    requires verify(sign(claims)) == Payload(claims)
    ensures Me(None, Some(CookiePairOf(AuthCookie(sign(claims), isProd, encode))), decode, verify)
            == Ok(Reply(200, Json(Profile(claims))))
  {
    AuthCookieRoundTrip(sign(claims), isProd, encode, decode);
  }
}
