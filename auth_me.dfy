/**
 * app/api/auth/me/route.ts: `GET` resolves the session to a user profile
 * by a chain of early returns: cookie, token, id, store lookup.
 */
module AuthMe {
  import opened Wrappers
  import opened Js
  import opened Store
  import opened Http
  import Jwt
  import LibAuth

  const NoToken := "認証トークンが必要です。"
  const BadUserId := "無効なユーザーIDです。"
  const NoUser := "ユーザーが見つかりません。"
  const BadToken := "無効な認証トークンです。"

  /** `parseInt(decoded.userId, 10)`: the claim is turned into a string
      first, then its leading digits are read. */
  function UserIdOf(payload: map<string, Json>): (r: Option<int>)
    ensures "userId" !in payload ==> r.None?
    ensures "userId" in payload && payload["userId"].JNum? && payload["userId"].n >= 0 ==>
      r == Some(payload["userId"].n)
  {
    if "userId" !in payload then
      ParseIntOfUndefined();
      ParseInt(ToStringValue(None))
    else if payload["userId"].JNum? && payload["userId"].n >= 0 then
      ParseIntOfString(payload["userId"].n);
      ParseInt(ToStringValue(Some(payload["userId"])))
    else
      ParseInt(ToStringValue(Some(payload["userId"])))
  }

  /** `GET(req)` with `JWT_SECRET` = `secret`, at `now`, against `db`. */
  function Me(lib: Jwt.Library, req: Request, secret: Option<string>, now: int, db: Db): (r: Reply)
    ensures r.status in {200, 400, 401, 404} && r.allow == []
    ensures r.status == 200 <==>
      CookieValue(req, LibAuth.AuthCookie).Some? && CookieValue(req, LibAuth.AuthCookie).value != ""
      && Jwt.Verify(lib, CookieValue(req, LibAuth.AuthCookie).value, secret, now).Ok?
      && UserIdOf(Jwt.Verify(lib, CookieValue(req, LibAuth.AuthCookie).value, secret, now).value).Some?
      && db.online
      && UserById(db.users, UserIdOf(Jwt.Verify(lib, CookieValue(req, LibAuth.AuthCookie).value, secret, now).value).value).Some?
    ensures r.status == 404 <==>
      CookieValue(req, LibAuth.AuthCookie).Some? && CookieValue(req, LibAuth.AuthCookie).value != ""
      && Jwt.Verify(lib, CookieValue(req, LibAuth.AuthCookie).value, secret, now).Ok?
      && UserIdOf(Jwt.Verify(lib, CookieValue(req, LibAuth.AuthCookie).value, secret, now).value).Some?
      && db.online
      && UserById(db.users, UserIdOf(Jwt.Verify(lib, CookieValue(req, LibAuth.AuthCookie).value, secret, now).value).value).None?
    ensures r.status == 404 ==> r == JsonReply(404, ErrorBody(NoUser))
    ensures r.status == 200 ==>
      var id := UserIdOf(Jwt.Verify(lib, CookieValue(req, LibAuth.AuthCookie).value, secret, now).value).value;
      var u := UserById(db.users, id).value;
      u in db.users && r.body == ProfileBody(ProfileOf(u)) && r.body.user.id == id
  {
    var token := CookieValue(req, LibAuth.AuthCookie);
    if token.None? || token.value == "" then JsonReply(401, ErrorBody(NoToken))
    else
      match Jwt.Verify(lib, token.value, secret, now)
      case Err(_) => JsonReply(401, ErrorBody(BadToken))
      case Ok(decoded) =>
        match UserIdOf(decoded)
        case None => JsonReply(400, ErrorBody(BadUserId))
        case Some(id) =>
          if !db.online then JsonReply(401, ErrorBody(BadToken))
          else
            match UserById(db.users, id)
            case None => JsonReply(404, ErrorBody(NoUser))
            case Some(user) => JsonReply(200, ProfileBody(ProfileOf(user)))
  }

  /** No cookie: 401 before the token, the id or the store is consulted. */
  lemma NoCookieFirst(lib: Jwt.Library, req: Request, secret: Option<string>, now: int, db: Db)
    requires LibAuth.AuthCookie !in req.cookies
    ensures Me(lib, req, secret, now, db) == JsonReply(401, ErrorBody(NoToken))
  {
  }

  /** A verified claim naming an id no stored user has is a 404. */
  lemma UnknownUserIs404(lib: Jwt.Library, req: Request, secret: Option<string>, now: int, db: Db)
    requires CookieValue(req, LibAuth.AuthCookie).Some? && CookieValue(req, LibAuth.AuthCookie).value != ""
    requires Jwt.Verify(lib, CookieValue(req, LibAuth.AuthCookie).value, secret, now).Ok?
    requires UserIdOf(Jwt.Verify(lib, CookieValue(req, LibAuth.AuthCookie).value, secret, now).value).Some?
    requires db.online
    requires UserById(db.users, UserIdOf(Jwt.Verify(lib, CookieValue(req, LibAuth.AuthCookie).value, secret, now).value).value).None?
    ensures Me(lib, req, secret, now, db) == JsonReply(404, ErrorBody(NoUser))
  {
  }

  /** A claim with no leading digits (NaN) is a 400, not a 401, and the store
      is not consulted. */
  lemma NaNIdIsBadRequest(lib: Jwt.Library, req: Request, secret: Option<string>, now: int, db1: Db, db2: Db)
    requires CookieValue(req, LibAuth.AuthCookie).Some?
    requires Jwt.Verify(lib, CookieValue(req, LibAuth.AuthCookie).value, secret, now).Ok?
    requires UserIdOf(Jwt.Verify(lib, CookieValue(req, LibAuth.AuthCookie).value, secret, now).value).None?
    ensures Me(lib, req, secret, now, db1) == Me(lib, req, secret, now, db2) == JsonReply(400, ErrorBody(BadUserId))
  {
    assert CookieValue(req, LibAuth.AuthCookie).value != "";
  }

  /** Thrown errors, from verification or from the store, all become the
      same 401. */
  lemma ThrownErrorsAre401(lib: Jwt.Library, req: Request, secret: Option<string>, now: int, db: Db)
    requires CookieValue(req, LibAuth.AuthCookie).Some? && CookieValue(req, LibAuth.AuthCookie).value != ""
    requires var v := Jwt.Verify(lib, CookieValue(req, LibAuth.AuthCookie).value, secret, now);
      v.Err? || (UserIdOf(v.value).Some? && !db.online)
    ensures Me(lib, req, secret, now, db) == JsonReply(401, ErrorBody(BadToken))
  {
  }

  /** A session issued by login (claims `{ userId }`) for a stored user
      resolves to that user's profile, and the profile has no password. */
  lemma LoginSessionResolves(lib: Jwt.Library, req: Request, secret: Option<string>, issued: int, now: int, db: Db, u: User)
    requires Jwt.Sound(lib) && Jwt.Configured(secret) && db.online
    requires u.id >= 0 && UserById(db.users, u.id) == Some(u)
    requires now / 1000 < issued / 1000 + Jwt.HourSeconds
    requires CookieValue(req, LibAuth.AuthCookie)
          == Some(Jwt.Sign(lib, map["userId" := JNum(u.id)], secret, Jwt.HourSeconds, issued).value)
    ensures Me(lib, req, secret, now, db) == JsonReply(200, ProfileBody(Profile(u.id, u.name, u.email)))
  {
    var claims := map["userId" := JNum(u.id)];
    Jwt.SignThenVerify(lib, claims, secret, Jwt.HourSeconds, issued, now);
    var payload := Jwt.Payload(Jwt.Issue(claims, secret.value, Jwt.HourSeconds, issued));
    assert payload["userId"] == JNum(u.id);
    ParseIntOfString(u.id);
  }
}
