/** `requireAuth` of backend/src/middleware/auth.ts: bearer-header parsing, token
    verification, and attaching the decoded identity to the request. */
module AuthMiddleware {
  import opened Wrappers
  import opened Strings
  import opened Users
  import opened Libraries
  import opened Http

  /** The exact, case-sensitive prefix an `Authorization` header must carry. */
  const BEARER: string := "Bearer "

  /** `header.startsWith('Bearer ')` and then `header.split(' ')[1]`: the text after the
      prefix up to the next space, for a header that carries the prefix. */
  function BearerToken(header: Option<string>): (t: Option<string>)
    ensures t.Some? <==> header.Some? && StartsWith(header.value, BEARER)
    ensures t.Some? ==>
      var rest := header.value[|BEARER|..];
      t.value == rest[..IndexOf(rest, ' ')]
  {
    if header.Some? && StartsWith(header.value, BEARER) then
      var h := header.value;
      var rest := h[|BEARER|..];
      assert h == "Bearer" + [' '] + rest;
      SplitAfterFirst("Bearer", ' ', rest);
      FirstPiece(rest, ' ');
      Some(Split(h, ' ')[1])
    else
      None
  }

  /** How the middleware ends: a 401 with an error text, or the decoded claims. */
  datatype Outcome = Rejected(error: string) | Authenticated(user: Claims)

  /** What `requireAuth` decides for a request with this `Authorization` header. */
  function Authenticate(header: Option<string>, lib: Lib, secret: string, now: int): (r: Outcome)
    ensures r.Authenticated? <==>
      BearerToken(header).Some? && VerifyToken(lib, BearerToken(header).value, secret, now).Decoded?
    ensures r.Authenticated? ==> r.user == VerifyToken(lib, BearerToken(header).value, secret, now).claims
    ensures BearerToken(header).None? ==> r == Rejected("Unauthorized")
    ensures BearerToken(header).Some? && r.Rejected? ==> r == Rejected("Invalid token")
  {
    match BearerToken(header)
    case None => Rejected("Unauthorized")
    case Some(token) =>
      match VerifyToken(lib, token, secret, now)
      case Decoded(claims) => Authenticated(claims)
      case _ => Rejected("Invalid token")
  }

  /** An expired token and a forged or malformed one are refused with the same error. */
  lemma FailuresIndistinguishable(h1: Option<string>, h2: Option<string>, lib: Lib, secret: string, now: int)
    requires BearerToken(h1).Some? && VerifyToken(lib, BearerToken(h1).value, secret, now) == Expired
    requires BearerToken(h2).Some? && VerifyToken(lib, BearerToken(h2).value, secret, now) == Malformed
    ensures Authenticate(h1, lib, secret, now) == Authenticate(h2, lib, secret, now) == Rejected("Invalid token")
  {
  }

  /** A header of just `Bearer ` yields the empty token, which verification refuses. */
  lemma EmptyBearerRejected(lib: Lib, secret: string, now: int)
    ensures BearerToken(Some(BEARER)) == Some("")
    ensures Authenticate(Some(BEARER), lib, secret, now) == Rejected("Invalid token")
  {
  }

  /** Worked examples of the exact-prefix rule of `Authenticate`: no header, another
      case, no space, another scheme are all refused as unauthorized. */
  lemma PrefixIsExact(lib: Lib, secret: string, now: int)
    ensures Authenticate(None, lib, secret, now) == Rejected("Unauthorized")
    ensures Authenticate(Some("bearer abc"), lib, secret, now) == Rejected("Unauthorized")
    ensures Authenticate(Some("Bearer"), lib, secret, now) == Rejected("Unauthorized")
    ensures Authenticate(Some("Token abc"), lib, secret, now) == Rejected("Unauthorized")
  {
    assert !StartsWith("bearer abc", BEARER) by { assert "bearer abc"[0] != BEARER[0]; }
    assert !StartsWith("Token abc", BEARER) by { assert "Token abc"[0] != BEARER[0]; }
  }

  /** A space-free token after the prefix is passed to verification whole. */
  lemma TokenAfterPrefix(token: string)
    requires ' ' !in token
    ensures BearerToken(Some(BEARER + token)) == Some(token)
  {
    var h := BEARER + token;
    assert StartsWith(h, BEARER);
    assert h[|BEARER|..] == token;
    assert IndexOf(token, ' ') == |token|;
    assert token[..|token|] == token;
  }

  /** Anything after a second space is ignored: the token ends at the first space after the prefix. */
  lemma TokenEndsAtSpace(token: string, extra: string)
    requires ' ' !in token
    ensures BearerToken(Some(BEARER + token + " " + extra)) == Some(token)
  {
    var h := BEARER + token + " " + extra;
    assert StartsWith(h, BEARER);
    var rest := h[|BEARER|..];
    assert rest == token + " " + extra;
    assert rest[|token|] == ' ';
    assert forall j :: 0 <= j < |token| ==> rest[j] == token[j];
    assert IndexOf(rest, ' ') == |token|;
    assert rest[..|token|] == token;
  }

  /** The incoming request; `user` is what the middleware attaches. */
  class AuthRequest {
    const authorization: Option<string>
    var user: Option<Claims>

    constructor (authorization: Option<string>)
      ensures this.authorization == authorization && user == None
    {
      this.authorization := authorization;
      user := None;
    }
  }

  /** The response being built: `res.status(...)` and `res.json(...)`. */
  class Response {
    var statusCode: nat
    var sent: Option<Body>

    constructor ()
      ensures statusCode == 200 && sent == None
    {
      statusCode, sent := 200, None;
    }

    method Status(code: nat)
      modifies this
      ensures statusCode == code && sent == old(sent)
    {
      statusCode := code;
    }

    method Send(body: Body)
      modifies this
      ensures sent == Some(body) && statusCode == old(statusCode)
    {
      sent := Some(body);
    }
  }

  /** The `next` callback, counted. */
  class Next {
    var calls: nat

    constructor ()
      ensures calls == 0
    {
      calls := 0;
    }

    method Call()
      modifies this
      ensures calls == old(calls) + 1
    {
      calls := calls + 1;
    }
  }

  /** `requireAuth(req, res, next)`: on success `req.user` is the decoded claims and
      `next` runs once, the response untouched; otherwise a 401 with the error text is
      sent, `req.user` stays as it was and `next` does not run. */
  method RequireAuth(req: AuthRequest, res: Response, next: Next, lib: Lib, secret: string, now: int)
    modifies req, res, next
    ensures match Authenticate(req.authorization, lib, secret, now)
      case Authenticated(claims) =>
        && req.user == Some(claims) && next.calls == old(next.calls) + 1
        && res.statusCode == old(res.statusCode) && res.sent == old(res.sent)
      case Rejected(error) =>
        && req.user == old(req.user) && next.calls == old(next.calls)
        && res.statusCode == 401 && res.sent == Some(ErrorBody(error))
  {
    var header := req.authorization;
    if !(header.Some? && StartsWith(header.value, BEARER)) {
      res.Status(401);
      res.Send(ErrorBody("Unauthorized"));
      return;
    }
    ghost var rest := header.value[|BEARER|..];
    assert header.value == "Bearer" + [' '] + rest;
    SplitAfterFirst("Bearer", ' ', rest);
    var token := Split(header.value, ' ')[1];
    var verdict := VerifyToken(lib, token, secret, now);
    if verdict.Decoded? {
      req.user := Some(verdict.claims);
      next.Call();
    } else {
      res.Status(401);
      res.Send(ErrorBody("Invalid token"));
    }
  }
}
