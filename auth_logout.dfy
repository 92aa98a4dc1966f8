/**
 * app/api/auth/logout/route.ts: `POST` answers 200 and overwrites the
 * session cookie with an empty, already expired one. It reads nothing from
 * the request.
 */
module AuthLogout {
  import opened Wrappers
  import opened Http
  import LibAuth

  const LoggedOutMessage := "ログアウト成功"

  /** The clearing cookie's attributes: httpOnly, path `/`, sameSite lax,
      `expires = new Date(0)`, secure only in production. */
  function ClearingOptions(nodeEnv: string): (o: CookieOptions)
    ensures o.httpOnly && o.path == Some("/") && o.sameSite == Some(Lax) && o.expires == Some(0)
    ensures o.secure <==> nodeEnv == "production"
    ensures o.maxAge.None?
  {
    CookieOptions(true, nodeEnv == "production", Some("/"), None, Some(Lax), Some(0))
  }

  /** `POST(request)` with `NODE_ENV` = `nodeEnv`. */
  method Post(req: Request, nodeEnv: string) returns (res: Response)
    ensures fresh(res)
    ensures res.reply == JsonReply(200, MessageBody(LoggedOutMessage))
    ensures res.cookies == map[LibAuth.AuthCookie := Cookie("", ClearingOptions(nodeEnv))]
  {
    res := new Response(JsonReply(200, MessageBody(LoggedOutMessage)));
    res.SetCookie(LibAuth.AuthCookie, "", ClearingOptions(nodeEnv));
  }

  /** What a browser's jar keeps after the logout response, at any time
      after the epoch: the session cookie is gone, every other cookie (a
      refresh cookie included) is as it was. */
  function AfterLogout(jar: map<string, string>, nodeEnv: string, now: int): map<string, string> {
    ApplySetCookie(jar, LibAuth.AuthCookie, Cookie("", ClearingOptions(nodeEnv)), now)
  }

  lemma LogoutClearsSessionOnly(jar: map<string, string>, nodeEnv: string, now: int)
    requires now >= 0
    ensures AfterLogout(jar, nodeEnv, now) == jar - {LibAuth.AuthCookie}
    ensures forall k :: k in jar && k != LibAuth.AuthCookie ==> k in AfterLogout(jar, nodeEnv, now) && AfterLogout(jar, nodeEnv, now)[k] == jar[k]
  {
  }

  /** Logging out twice leaves the jar as logging out once. */
  lemma LogoutIdempotent(jar: map<string, string>, nodeEnv: string, now1: int, now2: int)
    requires 0 <= now1 && 0 <= now2
    ensures AfterLogout(AfterLogout(jar, nodeEnv, now1), nodeEnv, now2) == AfterLogout(jar, nodeEnv, now1)
  {
    LogoutClearsSessionOnly(jar, nodeEnv, now1);
    LogoutClearsSessionOnly(AfterLogout(jar, nodeEnv, now1), nodeEnv, now2);
    assert jar - {LibAuth.AuthCookie} - {LibAuth.AuthCookie} == jar - {LibAuth.AuthCookie};
  }
}
