/**
 * The opening every document route shares: `const token = getToken(req);
 * if (!token) return 401`. It runs before the try block, so a URIError out
 * of the Cookie header escapes the handler.
 */
module RouteGuard {
  import opened Wrappers
  import opened Http
  import LibAuth

  const AuthRequired := "認証トークンが必要です。"
  const InvalidToken := "無効な認証トークンです。"

  /** The token the rest of the handler works with, or the reply that ends
      the request first. */
  function TokenOf(req: Request): (r: Result<string, Reply>)
    ensures r.Ok? <==> LibAuth.GetToken(req.cookieHeader).Found? && LibAuth.GetToken(req.cookieHeader).value != ""
    ensures r.Ok? ==> r.value == LibAuth.GetToken(req.cookieHeader).value
    ensures r.Err? ==> r.error == (if LibAuth.GetToken(req.cookieHeader).Throws? then Crash else JsonReply(401, ErrorBody(AuthRequired)))
  {
    match LibAuth.GetToken(req.cookieHeader)
    case Throws => Err(Crash)
    case Absent => Err(JsonReply(401, ErrorBody(AuthRequired)))
    case Found(t) => if t == "" then Err(JsonReply(401, ErrorBody(AuthRequired))) else Ok(t)
  }

  /** Without a Cookie header the answer is 401, and an empty `auth_token`
      counts as none. */
  lemma NoCookieIs401(req: Request)
    requires req.cookieHeader.None? || LibAuth.GetToken(req.cookieHeader) == LibAuth.Found("")
    ensures TokenOf(req) == Err(JsonReply(401, ErrorBody(AuthRequired)))
  {
    LibAuth.NoHeaderNoToken();
  }
}
