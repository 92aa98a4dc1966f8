/**
 * app/api/auth/login/route.ts: `POST` checks the credentials, signs a
 * one-hour session token over `{ userId }` and writes it into the
 * response's cookie jar. The handler has no try/catch, so anything that
 * throws (a body that is not JSON, a lookup Prisma refuses, a missing
 * secret) escapes to Next.js as a 500.
 */
module AuthLogin {
  import opened Wrappers
  import opened Js
  import opened Store
  import opened Http
  import Jwt
  import LibAuth

  const AuthFailed := "認証に失敗しました。"
  const LoggedInMessage := "ログイン成功"

  /** The attributes of the session cookie: httpOnly, path `/`, one hour,
      secure only in production. */
  function SessionCookieOptions(nodeEnv: string): (o: CookieOptions)
    ensures o.httpOnly && o.path == Some("/") && o.maxAge == Some(Jwt.HourSeconds)
    ensures o.secure <==> nodeEnv == "production"
    ensures o.sameSite.None? && o.expires.None?
  {
    CookieOptions(true, nodeEnv == "production", Some("/"), Some(60 * 60), None, None)
  }

  /** How the handler ends: an escaped exception, the 401, or a signed
      token for the matched user. */
  datatype Outcome = Crashed | Refused | Signed(token: string, user: User)

  /** The credential check and signing; `findUnique({ where: { email } })`
      throws on an email that is not a string (`undefined` included), and
      bcrypt's `compare` throws on a password that is not one. */
  function Decide(lib: Jwt.Library, compare: (string, string) -> bool, body: Option<Json>, db: Db,
                  secret: Option<string>, now: int): (r: Outcome)
    ensures r.Signed? ==>
      UserByEmail(db.users, r.user.email) == Some(r.user) && Jwt.Configured(secret)
      && r.token == lib.encode(Jwt.Issue(map["userId" := JNum(r.user.id)], secret.value, Jwt.HourSeconds, now))
    ensures r.Signed? ==>
      body.Some? && db.online && StringField(body.value, "email") == Some(r.user.email)
      && StringField(body.value, "password").Some? && compare(StringField(body.value, "password").value, r.user.password)
    ensures r.Refused? <==>
      body.Some? && db.online && StringField(body.value, "email").Some?
      && var found := UserByEmail(db.users, StringField(body.value, "email").value);
      (found.None?
       || (StringField(body.value, "password").Some? && !compare(StringField(body.value, "password").value, found.value.password)))
  {
    match body
    case None => Crashed
    case Some(data) =>
      match Get(data, "email")
      case Err(_) => Crashed
      case Ok(email) =>
        if !db.online || email.None? || !email.value.JStr? then Crashed
        else
          match UserByEmail(db.users, email.value.s)
          case None => Refused
          case Some(user) =>
            var password := Get(data, "password").value;
            if password.None? || !password.value.JStr? then Crashed
            else if !compare(password.value.s, user.password) then Refused
            else
              match Jwt.Sign(lib, map["userId" := JNum(user.id)], secret, Jwt.HourSeconds, now)
              case None => Crashed
              case Some(token) => Signed(token, user)
  }

  /** `POST(req)` against `db`, with `JWT_SECRET`, `NODE_ENV` and `now`. */
  method Post(lib: Jwt.Library, compare: (string, string) -> bool, req: Request, db: Db,
              secret: Option<string>, nodeEnv: string, now: int) returns (res: Response)
    ensures fresh(res)
    ensures Decide(lib, compare, req.body, db, secret, now).Crashed? ==> res.reply == Crash && res.cookies == map[]
    ensures Decide(lib, compare, req.body, db, secret, now).Refused? ==>
      res.reply == JsonReply(401, ErrorBody(AuthFailed)) && res.cookies == map[]
    ensures Decide(lib, compare, req.body, db, secret, now).Signed? ==>
      res.reply == JsonReply(200, MessageBody(LoggedInMessage))
      && res.cookies == map[LibAuth.AuthCookie :=
           Cookie(Decide(lib, compare, req.body, db, secret, now).token, SessionCookieOptions(nodeEnv))]
  {
    match Decide(lib, compare, req.body, db, secret, now)
    case Crashed =>
      res := new Response(Crash);
    case Refused =>
      res := new Response(JsonReply(401, ErrorBody(AuthFailed)));
    case Signed(token, _) =>
      res := new Response(JsonReply(200, MessageBody(LoggedInMessage)));
      res.SetCookie(LibAuth.AuthCookie, token, SessionCookieOptions(nodeEnv));
  }

  /** The body of a login request with both fields as strings. */
  function Credentials(email: string, password: string): Json {
    JObj(map["email" := JStr(email), "password" := JStr(password)])
  }

  /** An unknown email and a wrong password are indistinguishable, and for
      an unknown email the comparison is not evaluated at all. */
  lemma UnknownEmailLikeWrongPassword(lib: Jwt.Library, c1: (string, string) -> bool, c2: (string, string) -> bool,
                                      email: string, p1: string, p2: string, db: Db, secret: Option<string>, now: int)
    requires db.online
    requires UserByEmail(db.users, email).None?
    ensures Decide(lib, c1, Some(Credentials(email, p1)), db, secret, now)
         == Decide(lib, c2, Some(Credentials(email, p2)), db, secret, now)
         == Refused
  {
  }

  lemma WrongPasswordRefused(lib: Jwt.Library, compare: (string, string) -> bool, email: string, password: string,
                             db: Db, secret: Option<string>, now: int)
    requires db.online
    requires UserByEmail(db.users, email).Some? && !compare(password, UserByEmail(db.users, email).value.password)
    ensures Decide(lib, compare, Some(Credentials(email, password)), db, secret, now) == Refused
  {
  }

  /** With the right password and a configured secret, the token carries
      only `userId` (plus the `iat` jsonwebtoken adds) and expires an hour
      after it is issued; it verifies to exactly that payload. */
  lemma SessionToken(lib: Jwt.Library, compare: (string, string) -> bool, email: string, password: string,
                     db: Db, secret: Option<string>, now: int, later: int)
    requires Jwt.Sound(lib) && Jwt.Configured(secret) && db.online
    requires UserByEmail(db.users, email).Some? && compare(password, UserByEmail(db.users, email).value.password)
    requires later / 1000 < now / 1000 + Jwt.HourSeconds
    ensures var r := Decide(lib, compare, Some(Credentials(email, password)), db, secret, now);
      r.Signed? && r.user == UserByEmail(db.users, email).value
      && Jwt.Verify(lib, r.token, secret, later)
         == Ok(map["userId" := JNum(r.user.id), "iat" := JNum(now / 1000), "exp" := JNum(now / 1000 + Jwt.HourSeconds)])
  {
    var user := UserByEmail(db.users, email).value;
    var claims := map["userId" := JNum(user.id)];
    Jwt.SignThenVerify(lib, claims, secret, Jwt.HourSeconds, now, later);
  }

  /** A missing secret makes `jwt.sign` throw after the credentials passed. */
  lemma MissingSecretCrashes(lib: Jwt.Library, compare: (string, string) -> bool, email: string, password: string,
                             db: Db, now: int)
    requires db.online
    requires UserByEmail(db.users, email).Some? && compare(password, UserByEmail(db.users, email).value.password)
    ensures Decide(lib, compare, Some(Credentials(email, password)), db, None, now) == Crashed
  {
  }

  /** A body without `email` reaches Prisma as `where: { email: undefined }`,
      which throws. */
  lemma MissingEmailCrashes(lib: Jwt.Library, compare: (string, string) -> bool, db: Db, secret: Option<string>, now: int)
    ensures Decide(lib, compare, Some(JObj(map[])), db, secret, now) == Crashed
  {
  }
}
