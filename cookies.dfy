/** The auth cookie and bearer token handling of the server: the `Cookie`
    request header parser (section 4.2 of RFC 6265), the `Set-Cookie`
    values for signing in and out (section 4.1 of RFC 6265), and the token
    lookup that prefers an `Authorization: Bearer` header (section 2.1 of
    RFC 6750). `decodeURIComponent` and `encodeURIComponent` are
    parameters; a `None` from `decode` is the `URIError` it throws. */
module Cookies {
  import opened Wrappers
  import opened Strings

  const JwtCookieName: string := "token"
  const BearerPrefix: string := "Bearer "
  const URIError: string := "URIError"

  /** One `;`-separated part split at its first `=`, key and value trimmed;
      a part without `=` contributes nothing. */
  function CookiePair(part: string): (r: Option<(string, string)>)
    ensures r.None? <==> '=' !in part
  {
    var idx := IndexOf(part, '=');
    if idx == -1 then None else Some((Trim(part[..idx]), Trim(part[idx + 1..])))
  }

  predicate HasKey(pair: Option<(string, string)>, key: string) {
    pair.Some? && pair.value.0 == key
  }

  /** One call of `parseCookies`' reducer, on the part's split. */
  function Step(acc: Result<map<string, string>>, pair: Option<(string, string)>, decode: string -> Option<string>)
    : Result<map<string, string>>
  {
    match acc
    case Throws(e) => Throws(e)
    case Ok(jar) =>
      match pair
      case None => Ok(jar)
      case Some(kv) =>
        match decode(kv.1)
        case None => Throws(URIError)
        case Some(v) => Ok(jar[kv.0 := v])
  }

  /** The accumulator of `parseCookies`' reduce after its first `n` parts. */
  function CookiesUpTo(pairs: seq<Option<(string, string)>>, n: nat, decode: string -> Option<string>)
    : Result<map<string, string>>
    requires n <= |pairs|
  {
    if n == 0 then Ok(map[]) else Step(CookiesUpTo(pairs, n - 1, decode), pairs[n - 1], decode)
  }

  function PairsOf(parts: seq<string>): (pairs: seq<Option<(string, string)>>)
    ensures |pairs| == |parts|
  {
    seq(|parts|, i requires 0 <= i < |parts| => CookiePair(parts[i]))
  }

  /** `parseCookies(req)`: `None` is a request without a `Cookie` header. */
  function CookieJar(header: Option<string>, decode: string -> Option<string>): (r: Result<map<string, string>>)
    ensures header.None? || header == Some("") ==> r == Ok(map[])
  {
    if header.None? || header.value == "" then Ok(map[])
    else
      var pairs := PairsOf(Split(header.value, ';'));
      CookiesUpTo(pairs, |pairs|, decode)
  }

  /** A reduce that did not throw did not throw on a shorter prefix either. */
  lemma StepOk(acc: Result<map<string, string>>, pair: Option<(string, string)>, decode: string -> Option<string>)
    requires Step(acc, pair, decode).Ok?
    ensures acc.Ok?
    ensures pair.Some? ==> decode(pair.value.1).Some?
  {
  }

  /** A key is present exactly when some part carries it. */
  lemma {:induction false} CookieKeys(pairs: seq<Option<(string, string)>>, n: nat, decode: string -> Option<string>, key: string)
    requires n <= |pairs| && CookiesUpTo(pairs, n, decode).Ok?
    ensures key in CookiesUpTo(pairs, n, decode).value <==> exists i :: 0 <= i < n && HasKey(pairs[i], key)
  {
    if n > 0 {
      StepOk(CookiesUpTo(pairs, n - 1, decode), pairs[n - 1], decode);
      CookieKeys(pairs, n - 1, decode, key);
      if key in CookiesUpTo(pairs, n, decode).value && !HasKey(pairs[n - 1], key) {
        assert key in CookiesUpTo(pairs, n - 1, decode).value;
      }
    }
  }

  /** When a key repeats, the value of the LAST part carrying it wins. */
  lemma {:induction false} LaterCookieWins(pairs: seq<Option<(string, string)>>, n: nat, decode: string -> Option<string>,
                                           key: string, i: nat)
    requires n <= |pairs| && CookiesUpTo(pairs, n, decode).Ok?
    requires i < n && HasKey(pairs[i], key)
    requires forall j :: i < j < n ==> !HasKey(pairs[j], key)
    ensures key in CookiesUpTo(pairs, n, decode).value
    ensures Some(CookiesUpTo(pairs, n, decode).value[key]) == decode(pairs[i].value.1)
  {
    StepOk(CookiesUpTo(pairs, n - 1, decode), pairs[n - 1], decode);
    if i < n - 1 {
      LaterCookieWins(pairs, n - 1, decode, key, i);
    }
  }

  /** `parseCookies(req)`: the header check, each part split at its first
      `=`, then the reduce. */
  method ParseCookies(header: Option<string>, decode: string -> Option<string>) returns (r: Result<map<string, string>>)
    ensures r == CookieJar(header, decode)
  {
    if header.None? || header.value == "" {
      return Ok(map[]);
    }
    var pairs := PairsOf(Split(header.value, ';'));
    r := ReducePairs(pairs, decode);
  }

  /** `parseCookies`' reduce over the split parts, as the loop it runs. */
  method ReducePairs(pairs: seq<Option<(string, string)>>, decode: string -> Option<string>)
    returns (r: Result<map<string, string>>)
    ensures r == CookiesUpTo(pairs, |pairs|, decode)
  {
    var acc: map<string, string> := map[];
    var i := 0;
    while i < |pairs|
      invariant 0 <= i <= |pairs|
      invariant CookiesUpTo(pairs, i, decode) == Ok(acc)
    {
      var pair := pairs[i];
      if pair.Some? {
        var v := decode(pair.value.1);
        if v.None? {
          ThrowsPersist(pairs, i + 1, |pairs|, decode);
          return Throws(URIError);
        }
        acc := acc[pair.value.0 := v.value];
      }
      i := i + 1;
    }
    return Ok(acc);
  }

  /** Once a decode throws, the whole reduce throws that error. */
  lemma {:induction false} ThrowsPersist(pairs: seq<Option<(string, string)>>, n: nat, m: nat, decode: string -> Option<string>)
    requires n <= m <= |pairs| && CookiesUpTo(pairs, n, decode) == Throws(URIError)
    ensures CookiesUpTo(pairs, m, decode) == Throws(URIError)
    decreases m - n
  {
    if n < m {
      ThrowsPersist(pairs, n + 1, m, decode);
    }
  }

  /** `getTokenFromReq(req)`: the trimmed rest of a `Bearer ` Authorization
      header (the prefix compared case-sensitively), otherwise the non-empty
      `token` cookie, otherwise `null` (`None`). */
  function TokenFromRequest(authorization: Option<string>, cookie: Option<string>, decode: string -> Option<string>)
    : (r: Result<Option<string>>)
    ensures authorization.Some? && StartsWith(authorization.value, BearerPrefix) ==>
      r == Ok(Some(Trim(authorization.value[|BearerPrefix|..])))
    ensures !(authorization.Some? && StartsWith(authorization.value, BearerPrefix)) ==>
      (r.Throws? <==> CookieJar(cookie, decode).Throws?)
    ensures !(authorization.Some? && StartsWith(authorization.value, BearerPrefix)) && r.Ok? ==>
      (r.value.Some? <==> JwtCookieName in CookieJar(cookie, decode).value && CookieJar(cookie, decode).value[JwtCookieName] != "")
  {
    if authorization.Some? && authorization.value != "" && StartsWith(authorization.value, BearerPrefix) then
      Ok(Some(Trim(authorization.value[|BearerPrefix|..])))
    else
      match CookieJar(cookie, decode)
      case Throws(e) => Throws(e)
      case Ok(jar) =>
        if JwtCookieName in jar && jar[JwtCookieName] != "" then Ok(Some(jar[JwtCookieName])) else Ok(None)
  }

  /** `[...].filter(Boolean).join('; ')` */
  function JoinAttributes(items: seq<string>): string {
    Join(NonEmpty(items), "; ")
  }

  function NonEmpty(items: seq<string>): (r: seq<string>)
    ensures |r| <= |items|
  {
    if items == [] then []
    else if items[0] == "" then NonEmpty(items[1..])
    else [items[0]] + NonEmpty(items[1..])
  }

  /** The `Set-Cookie` value of `setAuthCookie(res, token)`. */
  function AuthCookie(token: string, isProd: bool, encode: string -> string): string {
    JoinAttributes([JwtCookieName + "=" + encode(token), "Path=/", "HttpOnly", "SameSite=Lax",
                    if isProd then "Secure" else ""])
  }

  /** The `Set-Cookie` value of `clearAuthCookie(res)`. */
  function ClearedCookie(isProd: bool): string {
    JoinAttributes([JwtCookieName + "=; Path=/", "HttpOnly", "SameSite=Lax",
                    if isProd then "Secure" else "", "Max-Age=0"])
  }

  /** The sign-in cookie is the cookie-pair `token=<encoded>` followed by
      `Path=/`, `HttpOnly` and `SameSite=Lax`, and by `Secure` only in
      production, joined with `; `. */
  lemma AuthCookieFormat(token: string, isProd: bool, encode: string -> string)
    ensures AuthCookie(token, isProd, encode)
      == Join([JwtCookieName + "=" + encode(token), "Path=/", "HttpOnly", "SameSite=Lax"]
              + (if isProd then ["Secure"] else []), "; ")
  {
    var items := [JwtCookieName + "=" + encode(token), "Path=/", "HttpOnly", "SameSite=Lax", if isProd then "Secure" else ""];
    assert items[0] != "" by { assert |items[0]| >= 6; }
    assert NonEmpty(items[4..]) == if isProd then ["Secure"] else [];
    assert NonEmpty(items[3..]) == ["SameSite=Lax"] + NonEmpty(items[4..]);
    assert NonEmpty(items[2..]) == ["HttpOnly"] + NonEmpty(items[3..]);
    assert NonEmpty(items[1..]) == ["Path=/"] + NonEmpty(items[2..]);
    assert NonEmpty(items) == [items[0]] + NonEmpty(items[1..]);
    assert NonEmpty(items) == [items[0], "Path=/", "HttpOnly", "SameSite=Lax"] + (if isProd then ["Secure"] else []);
  }

  /** The sign-out cookie has an empty value and ends with `Max-Age=0`. */
  lemma ClearedCookieFormat(isProd: bool)
    ensures ClearedCookie(isProd)
      == Join([JwtCookieName + "=; Path=/", "HttpOnly", "SameSite=Lax"]
              + (if isProd then ["Secure"] else []) + ["Max-Age=0"], "; ")
  {
    var items := [JwtCookieName + "=; Path=/", "HttpOnly", "SameSite=Lax", if isProd then "Secure" else "", "Max-Age=0"];
    assert NonEmpty(items[4..]) == ["Max-Age=0"];
    assert NonEmpty(items[3..]) == (if isProd then ["Secure"] else []) + ["Max-Age=0"];
    assert NonEmpty(items[2..]) == ["SameSite=Lax"] + NonEmpty(items[3..]);
    assert NonEmpty(items[1..]) == ["HttpOnly"] + NonEmpty(items[2..]);
    assert NonEmpty(items) == [items[0]] + NonEmpty(items[1..]);
    assert NonEmpty(items) == [items[0], "HttpOnly", "SameSite=Lax"] + (if isProd then ["Secure"] else []) + ["Max-Age=0"];
  }

  /** The cookie-pair of a `Set-Cookie` value: the text before its first `;`
      (section 4.1.1 of RFC 6265), which is what the browser sends back. */
  function CookiePairOf(setCookie: string): string {
    var i := IndexOf(setCookie, ';');
    if i == -1 then setCookie else setCookie[..i]
  }

  /** A `Cookie` header of one part outside `;` is that part's step alone. */
  lemma JarOfSinglePart(h: string, decode: string -> Option<string>)
    requires h != "" && Split(h, ';') == [h]
    ensures CookieJar(Some(h), decode) == Step(Ok(map[]), CookiePair(h), decode)
  {
    var pairs := PairsOf([h]);
    assert |pairs| == 1 && pairs[0] == CookiePair(h);
    assert CookiesUpTo(pairs, 1, decode) == Step(CookiesUpTo(pairs, 0, decode), pairs[0], decode);
  }

  lemma NoCharInPair(name: string, value: string, c: char)
    requires c !in name && c !in value && c != '='
    ensures c !in name + "=" + value
  {
    var pair := name + "=" + value;
    forall k | 0 <= k < |pair|
      ensures pair[k] != c
    {
      if k < |name| {
        assert pair[k] == name[k];
      } else if k > |name| {
        assert pair[k] == value[k - |name| - 1];
      }
    }
  }

  /** `name=value` splits back into its trimmed name and value. */
  lemma SplitPair(name: string, value: string)
    requires '=' !in name && Trimmed(name) && Trimmed(value)
    ensures CookiePair(name + "=" + value) == Some((name, value))
  {
    var pair := name + "=" + value;
    assert pair[..|name|] == name && pair[|name|] == '=';
    IndexOfAt(pair, '=', |name|);
    assert pair[|name| + 1..] == value;
    TrimOfTrimmed(value);
    TrimOfTrimmed(name);
  }

  /** A header holding the single cookie `name=value`. */
  lemma SingleCookieHeader(name: string, value: string, decode: string -> Option<string>)
    requires '=' !in name && ';' !in name && ';' !in value && Trimmed(name) && Trimmed(value)
    ensures CookieJar(Some(name + "=" + value), decode) == Step(Ok(map[]), Some((name, value)), decode)
  {
    var pair := name + "=" + value;
    NoCharInPair(name, value, ';');
    SplitWithoutSeparator(pair, ';');
    SplitPair(name, value);
    JarOfSinglePart(pair, decode);
  }

  lemma CookieNameIsToken()
    ensures '=' !in JwtCookieName && ';' !in JwtCookieName && Trimmed(JwtCookieName)
  {
    assert JwtCookieName == ['t', 'o', 'k', 'e', 'n'];
  }

  /** A `Cookie` header holding just `token=<value>` yields that value. */
  lemma SingleTokenCookie(value: string, decode: string -> Option<string>)
    requires ';' !in value && Trimmed(value)
    ensures TokenFromRequest(None, Some(JwtCookieName + "=" + value), decode)
      == if decode(value).None? then Throws(URIError)
         else if decode(value).value == "" then Ok(None) else Ok(decode(value))
  {
    CookieNameIsToken();
    var h := JwtCookieName + "=" + value;
    SingleCookieHeader(JwtCookieName, value, decode);
    var jar := CookieJar(Some(h), decode);
    if decode(value).Some? {
      assert jar == Ok(map[JwtCookieName := decode(value).value]);
    } else {
      assert jar == Throws(URIError);
    }
  }

  /** The cookie-pair of attributes joined with `; ` is the first one. */
  lemma PairOfJoined(parts: seq<string>)
    requires |parts| > 1 && ';' !in parts[0]
    ensures CookiePairOf(Join(parts, "; ")) == parts[0]
  {
    var sc := Join(parts, "; ");
    assert sc == parts[0] + "; " + Join(parts[1..], "; ");
    assert sc[..|parts[0]|] == parts[0] && sc[|parts[0]|] == ';';
    IndexOfAt(sc, ';', |parts[0]|);
  }

  /** Round trip: the cookie `setAuthCookie` issues, sent back in a `Cookie`
      header without an Authorization header, yields the same token,
      whenever the encoding has no `;` and no surrounding blanks and the
      decoder inverts it. */
  lemma AuthCookieRoundTrip(token: string, isProd: bool, encode: string -> string, decode: string -> Option<string>)
    requires token != "" && ';' !in encode(token)
    requires Trimmed(encode(token))
    requires decode(encode(token)) == Some(token)
    ensures TokenFromRequest(None, Some(CookiePairOf(AuthCookie(token, isProd, encode))), decode) == Ok(Some(token))
  {
    AuthCookieFormat(token, isProd, encode);
    CookieNameIsToken();
    NoCharInPair(JwtCookieName, encode(token), ';');
    PairOfJoined([JwtCookieName + "=" + encode(token), "Path=/", "HttpOnly", "SameSite=Lax"] + (if isProd then ["Secure"] else []));
    SingleTokenCookie(encode(token), decode);
  }

  /** After sign-out the browser sends `token=`, which yields no token. */
  lemma ClearedCookieYieldsNoToken(isProd: bool, decode: string -> Option<string>)
    requires decode("") == Some("")
    ensures TokenFromRequest(None, Some(CookiePairOf(ClearedCookie(isProd))), decode) == Ok(None)
  {
    ClearedCookieFormat(isProd);
    var first := JwtCookieName + "=; Path=/";
    var parts := [first, "HttpOnly", "SameSite=Lax"] + (if isProd then ["Secure"] else []) + ["Max-Age=0"];
    var sc := Join(parts, "; ");
    assert sc == first + "; " + Join(parts[1..], "; ");
    assert sc[..6] == JwtCookieName + "=" && sc[6] == ';';
    assert ';' !in sc[..6];
    IndexOfAt(sc, ';', 6);
    SingleTokenCookie("", decode);
    assert JwtCookieName + "=" == JwtCookieName + "=" + "";
  }

  /** The bearer header always wins over the cookie. */
  lemma BearerWins(token: string, cookie: Option<string>, decode: string -> Option<string>)
    ensures TokenFromRequest(Some(BearerPrefix + token), cookie, decode) == Ok(Some(Trim(token)))
  {
    var h := BearerPrefix + token;
    assert h[..|BearerPrefix|] == BearerPrefix;
    assert h[|BearerPrefix|..] == token;
  }

  /** The prefix is case-sensitive: `bearer x` is not a bearer header and
      the cookie decides. */
  lemma LowercaseBearerIgnored(token: string, cookie: Option<string>, decode: string -> Option<string>)
    ensures TokenFromRequest(Some("bearer " + token), cookie, decode) == TokenFromRequest(None, cookie, decode)
  {
    var h := "bearer " + token;
    assert h[0] == 'b';
  }
}
