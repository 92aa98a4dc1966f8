/**
 * app/api/auth/refresh/route.ts: `POST` trades a refresh token for a new
 * token pair. The four helpers it imports are not defined by lib/auth.ts,
 * so they are parameters here with no behaviour of their own.
 */
module AuthRefresh {
  import opened Wrappers
  import opened Js
  import opened Http

  datatype TokenPair = TokenPair(accessToken: string, refreshToken: string)

  /** `getRefreshToken`, `verifyRefreshToken` (None: it rejects),
      `generateTokens` for given claims at a time (None: it throws) and the
      cookies `setTokens` writes for a pair. */
  datatype Helpers = Helpers(
    getRefreshToken: Request -> Option<string>,
    verifyRefreshToken: string -> Option<Json>,
    generateTokens: (map<string, Json>, int) -> Option<TokenPair>,
    setTokens: TokenPair -> map<string, Cookie>)

  const MissingToken := "リフレッシュトークンが必要です。"
  const ServerError := "サーバーエラーが発生しました。"

  /** `{ userId: payload.userId, email: payload.email }`; a property that is
      `undefined` is left out, as JSON serialisation does. */
  function ClaimsOf(payload: Json): (r: Result<map<string, Json>, ()>)
    ensures r.Err? <==> payload.JNull?
    ensures r.Ok? ==> r.value.Keys <= {"userId", "email"}
  {
    match Get(payload, "userId")
    case Err(_) => Err(())
    case Ok(id) =>
      match Get(payload, "email")
      case Err(_) => Err(())
      case Ok(email) =>
        var withId: map<string, Json> := if id.Some? then map["userId" := id.value] else map[];
        Ok(if email.Some? then withId["email" := email.value] else withId)
  }

  datatype Outcome = Rejected(reply: Reply) | Refreshed(pair: TokenPair)

  /** The decision of `POST(req)` at `now`, before any cookie is written. */
  function Decide(h: Helpers, req: Request, now: int): (r: Outcome)
    ensures r.Rejected? ==> r.reply.status in {400, 500}
    ensures r.Rejected? && r.reply.status == 400 <==> h.getRefreshToken(req).None? || h.getRefreshToken(req).value == ""
    ensures r.Refreshed? ==>
      var payload := h.verifyRefreshToken(h.getRefreshToken(req).value);
      payload.Some? && ClaimsOf(payload.value).Ok?
      && h.generateTokens(ClaimsOf(payload.value).value, now) == Some(r.pair)
  {
    var token := h.getRefreshToken(req);
    if token.None? || token.value == "" then Rejected(JsonReply(400, ErrorBody(MissingToken)))
    else
      match h.verifyRefreshToken(token.value)
      case None => Rejected(JsonReply(500, ErrorBody(ServerError)))
      case Some(payload) =>
        match ClaimsOf(payload)
        case Err(_) => Rejected(JsonReply(500, ErrorBody(ServerError)))
        case Ok(claims) =>
          match h.generateTokens(claims, now)
          case None => Rejected(JsonReply(500, ErrorBody(ServerError)))
          case Some(pair) => Refreshed(pair)
  }

  /** `POST(req)`: a fresh response, and the new pair's cookies written
      into that same response. */
  method Post(h: Helpers, req: Request, now: int) returns (res: Response)
    ensures fresh(res)
    ensures Decide(h, req, now).Rejected? ==> res.reply == Decide(h, req, now).reply && res.cookies == map[]
    ensures Decide(h, req, now).Refreshed? ==>
      res.reply == JsonReply(200, SuccessBody) && res.cookies == h.setTokens(Decide(h, req, now).pair)
  {
    match Decide(h, req, now)
    case Rejected(reply) =>
      res := new Response(reply);
    case Refreshed(pair) =>
      res := new Response(JsonReply(200, SuccessBody));
      res.SetCookies(h.setTokens(pair));
  }

  /** Without a refresh token the answer is 400 whatever the other helpers
      would do: nothing is verified and no pair is generated. */
  lemma MissingTokenGeneratesNothing(h1: Helpers, h2: Helpers, req: Request, now: int)
    requires h1.getRefreshToken == h2.getRefreshToken
    requires h1.getRefreshToken(req).None? || h1.getRefreshToken(req).value == ""
    ensures Decide(h1, req, now) == Decide(h2, req, now) == Rejected(JsonReply(400, ErrorBody(MissingToken)))
  {
  }

  /** A refresh token that fails verification gives 500, not 401. */
  lemma VerificationFailureIs500(h: Helpers, req: Request, now: int)
    requires h.getRefreshToken(req).Some? && h.getRefreshToken(req).value != ""
    requires h.verifyRefreshToken(h.getRefreshToken(req).value).None?
    ensures Decide(h, req, now) == Rejected(JsonReply(500, ErrorBody(ServerError)))
  {
  }

  /** The new pair depends on the verified payload only through its
      `userId` and `email`. */
  lemma PairFromUserIdAndEmail(h: Helpers, req: Request, now: int, p1: Json, p2: Json)
    requires p1.JObj? && p2.JObj?
    requires ("userId" in p1.fields <==> "userId" in p2.fields) && ("email" in p1.fields <==> "email" in p2.fields)
    requires "userId" in p1.fields ==> p1.fields["userId"] == p2.fields["userId"]
    requires "email" in p1.fields ==> p1.fields["email"] == p2.fields["email"]
    ensures ClaimsOf(p1) == ClaimsOf(p2)
  {
  }

  /** No record of used refresh tokens is kept: a token that verified once
      verifies again, and every replay yields the pair generated at its own
      time. */
  lemma Replay(h: Helpers, req: Request, now1: int, now2: int)
    requires Decide(h, req, now1).Refreshed?
    requires h.generateTokens(ClaimsOf(h.verifyRefreshToken(h.getRefreshToken(req).value).value).value, now2).Some?
    ensures Decide(h, req, now2).Refreshed?
    ensures Decide(h, req, now2).pair
         == h.generateTokens(ClaimsOf(h.verifyRefreshToken(h.getRefreshToken(req).value).value).value, now2).value
  {
  }
}
