/** The request logging middleware (`server/middleware/requestLogger.js`):
    the client address it reports and the two log records it writes, one
    when the request comes in and one when the response finishes. The
    clock readings are parameters; the `finish` listener is the function
    `Completed`, applied to the time it fires. */
module RequestLogger {
  import opened Wrappers
  import opened Js
  import opened Strings

  /** The parts of an Express request the middleware reads. */
  datatype Request = Request(
    verb: JsValue,
    originalUrl: JsValue,
    headers: JsValue,
    ip: JsValue,
    connection: JsValue,
    socket: JsValue)

  /** `a && b` */
  function And(a: JsValue, b: JsValue): (r: JsValue)
    ensures Truthy(r) <==> Truthy(a) && Truthy(b)
  {
    if Truthy(a) then b else a
  }

  /** The fallbacks after `X-Forwarded-For`, in the order they are tried:
      `req.ip`, `connection.remoteAddress`, `socket.remoteAddress` and
      `connection.socket.remoteAddress`. */
  function AddressCandidates(req: Request): (c: seq<JsValue>)
    ensures |c| == 4
  {
    [req.ip, Get(req.connection, "remoteAddress"), Get(req.socket, "remoteAddress"),
     Get(Get(req.connection, "socket"), "remoteAddress")]
  }

  predicate HasForwardedFor(req: Request) {
    var forwarded := Get(req.headers, "x-forwarded-for");
    forwarded.Str? && |forwarded.s| > 0
  }

  /** `getClientIp(req)` */
  function ClientIp(req: Request): (r: JsValue)
    ensures HasForwardedFor(req) ==>
      var f := Get(req.headers, "x-forwarded-for").s;
      r == Str(Trim(if ',' in f then f[..IndexOf(f, ',')] else f))
    ensures !HasForwardedFor(req) ==>
      (r == Null <==> forall i :: 0 <= i < 4 ==> !Truthy(AddressCandidates(req)[i]))
    ensures !HasForwardedFor(req) && r != Null ==>
      exists i :: 0 <= i < 4 && r == AddressCandidates(req)[i] && Truthy(r)
                  && forall j :: 0 <= j < i ==> !Truthy(AddressCandidates(req)[j])
  {
    var forwarded := Get(req.headers, "x-forwarded-for");
    if forwarded.Str? && |forwarded.s| > 0 then
      SplitHead(forwarded.s, ',');
      Str(Trim(Split(forwarded.s, ',')[0]))
    else
      var c := AddressCandidates(req);
      var viaSocket := And(req.connection, And(Get(req.connection, "socket"), c[3]));
      assert Truthy(viaSocket) ==> viaSocket == c[3];
      Or(c[0], Or(c[1], Or(c[2], Or(viaSocket, Null))))
  }

  /** The fields of the `Incoming request` record. */
  datatype Incoming = Incoming(verb: JsValue, url: JsValue, ip: JsValue, userAgent: JsValue, referer: JsValue)

  /** The fields of the `Request completed` record. */
  datatype Finished = Finished(verb: JsValue, url: JsValue, status: JsValue, durationMs: int, ip: JsValue)

  /** What the `finish` listener needs from the time the request came in. */
  datatype Pending = Pending(start: int, verb: JsValue, url: JsValue, ip: JsValue)

  /** One run of `requestLogger(req, res, next)`: the record it logs at
      once, the listener it leaves behind and how many times it called
      `next`. */
  datatype Run = Run(incoming: Incoming, pending: Pending, nextCalls: nat)

  function RequestLogger(req: Request, start: int): (r: Run)
    ensures r.nextCalls == 1
    ensures r.pending.start == start
    ensures r.incoming.ip == r.pending.ip == ClientIp(req)
    ensures r.incoming.userAgent == Or(Get(req.headers, "user-agent"), Null)
    ensures r.incoming.referer == Or(Get(req.headers, "referer"), Or(Get(req.headers, "referrer"), Null))
  {
    var ip := ClientIp(req);
    var userAgent := Or(Get(req.headers, "user-agent"), Null);
    var referer := Or(Get(req.headers, "referer"), Or(Get(req.headers, "referrer"), Null));
    Run(Incoming(req.verb, req.originalUrl, ip, userAgent, referer),
        Pending(start, req.verb, req.originalUrl, ip), 1)
  }

  /** The `Request completed` record when the `finish` event fires at
      `finish` with the given status code. */
  function Completed(p: Pending, finish: int, status: JsValue): (done: Finished)
    ensures done.durationMs == finish - p.start
    ensures done.ip == p.ip && done.status == status
  {
    Finished(p.verb, p.url, status, finish - p.start, p.ip)
  }

  /** Both records report the same client address and request line, and
      the duration is the time between the run and the `finish` event. */
  lemma CompletionMatchesIncoming(req: Request, start: int, finish: int, status: JsValue)
    ensures var run := RequestLogger(req, start);
      var done := Completed(run.pending, finish, status);
      done.ip == run.incoming.ip && done.verb == run.incoming.verb
      && done.url == run.incoming.url && done.durationMs == finish - start
  {
  }

  /** A forwarded list yields its first entry without surrounding blanks. */
  lemma ForwardedFirstEntry(req: Request, first: string, rest: string)
    requires ',' !in first && Trimmed(first) && first != ""
    requires Get(req.headers, "x-forwarded-for") == Str(first + "," + rest)
    ensures ClientIp(req) == Str(first)
  {
    var f := first + "," + rest;
    assert f[..|first|] == first && f[|first|] == ',';
    IndexOfAt(f, ',', |first|);
    TrimOfTrimmed(first);
  }
}
