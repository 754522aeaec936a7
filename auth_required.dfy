/** The guard `authRequired(requiredRole)` (`server/middleware/authRequired.js`):
    it answers 401 without a usable token or with one that does not verify,
    records the payload on the request, answers 403 when a role is required
    and the payload's differs, and otherwise passes the request on. */
module AuthRequired {
  import opened Wrappers
  import opened Js
  import opened Cookies

  /** What the guard does with a request: answer it, or call `next()` once. */
  datatype Verdict = Refuse(status: nat, message: string) | Next

  const AuthenticationRequired: string := "Authentication required"
  const InvalidToken: string := "Invalid or expired token"
  const Forbidden: string := "Forbidden"

  /** The verdict for a token (`None` without one) and its verification. */
  function Decide(token: Option<string>, requiredRole: JsValue, verify: string -> JsValue): (v: Verdict)
    ensures token.None? || token.value == "" ==> v == Refuse(401, AuthenticationRequired)
    ensures token.Some? && token.value != "" && !Truthy(verify(token.value)) ==> v == Refuse(401, InvalidToken)
    ensures v == Refuse(403, Forbidden) <==>
      token.Some? && token.value != "" && Truthy(verify(token.value))
      && Truthy(requiredRole) && !SameValue(Get(verify(token.value), "role"), requiredRole)
    ensures v.Next? <==>
      token.Some? && token.value != "" && Truthy(verify(token.value))
      && (!Truthy(requiredRole) || SameValue(Get(verify(token.value), "role"), requiredRole))
  {
    if token.None? || token.value == "" then Refuse(401, AuthenticationRequired)
    else
      var payload := verify(token.value);
      if !Truthy(payload) then Refuse(401, InvalidToken)
      else if Truthy(requiredRole) && !SameValue(Get(payload, "role"), requiredRole) then Refuse(403, Forbidden)
      else Next
  }

  /** With the default `null` role every verified token gets through. */
  lemma DefaultRoleAdmitsAnyValidToken(token: string, verify: string -> JsValue)
    requires token != "" && Truthy(verify(token))
    ensures Decide(Some(token), Null, verify) == Next
  {
  }

  /** A role is only ever matched by a string role in the payload: a
      required role never admits a payload without one. */
  lemma RoleMustMatch(token: string, role: string, verify: string -> JsValue)
    requires token != "" && role != "" && Truthy(verify(token))
    ensures Decide(Some(token), Str(role), verify) == Next <==> Get(verify(token), "role") == Str(role)
  {
  }

  /** The parts of an Express request the guard reads, and `req.user`,
      which it writes (`None` while unset). */
  class Request {
    const authorization: Option<string>
    const cookie: Option<string>
    var user: Option<JsValue>

    constructor(authorization: Option<string>, cookie: Option<string>)
      ensures this.authorization == authorization && this.cookie == cookie && user.None?
    {
      this.authorization := authorization;
      this.cookie := cookie;
      user := None;
    }
  }

  /** The middleware `authRequired(requiredRole)` returns, run on `req`.
      A `Cookie` header that does not decode throws out of it. `req.user`
      is set as soon as the token verifies, before the role is checked, so
      a request refused with 403 carries it too. */
  method Guard(req: Request, requiredRole: JsValue, decode: string -> Option<string>, verify: string -> JsValue)
    returns (r: Result<Verdict>)
    modifies req
    ensures var token := TokenFromRequest(req.authorization, req.cookie, decode);
      token.Throws? ==> r.Throws? && req.user == old(req.user)
    ensures var token := TokenFromRequest(req.authorization, req.cookie, decode);
      token.Ok? ==> r == Ok(Decide(token.value, requiredRole, verify))
    ensures var token := TokenFromRequest(req.authorization, req.cookie, decode);
      token.Ok? && token.value.Some? && token.value.value != "" && Truthy(verify(token.value.value)) ==>
        req.user == Some(verify(token.value.value))
    ensures var token := TokenFromRequest(req.authorization, req.cookie, decode);
      !(token.Ok? && token.value.Some? && token.value.value != "" && Truthy(verify(token.value.value))) ==>
        req.user == old(req.user)
  {
    var token := TokenFromRequest(req.authorization, req.cookie, decode);
    if token.Throws? {
      return Throws(token.error);
    }
    var t := token.value;
    if t.None? || t.value == "" {
      return Ok(Refuse(401, AuthenticationRequired));
    }
    var payload := verify(t.value);
    if !Truthy(payload) {
      return Ok(Refuse(401, InvalidToken));
    }
    req.user := Some(payload);
    if Truthy(requiredRole) && !SameValue(Get(payload, "role"), requiredRole) {
      return Ok(Refuse(403, Forbidden));
    }
    return Ok(Next);
  }
}
