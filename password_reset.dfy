/**
 * app/api/auth/password-reset/route.ts: `POST` issues a signed reset token
 * for a known e-mail, stores a reset record and mails the link. The whole
 * body is one try block whose catch answers 500.
 */
module PasswordReset {
  import opened Wrappers
  import opened Js
  import opened Store
  import opened Http
  import Jwt

  const EmailRequired := "メールアドレスが必要です。"
  const UnknownUser := "ユーザーが存在しません。"
  const MailSent := "パスワードリセットメールを送信しました。"
  const ServerFailure := "サーバーエラー"
  const Subject := "パスワードリセット"
  const LinkPrefix := "http://localhost:3000/auth/reset-password/"

  /** One hour, in milliseconds. */
  const HourMillis := 3600000

  function ResetLink(token: string): (url: string)
    ensures |url| == |LinkPrefix| + |token| && url[..|LinkPrefix|] == LinkPrefix && url[|LinkPrefix|..] == token
  {
    LinkPrefix + token
  }

  /** `POST(req)` at `now`; `mailOk` says whether `sendMail` resolves. */
  function Post(lib: Jwt.Library, body: Option<Json>, db: Db, secret: Option<string>, now: int, mailOk: bool): (h: Handled)
    ensures h.reply.status in {200, 400, 404, 500} && h.reply.allow == []
    ensures h.db == db || exists r :: h.db == db.(resetTokens := db.resetTokens + [r])
    ensures h.reply.status == 200 ==> |h.sent| == 1 && h.db != db
    ensures h.reply.status != 200 ==> h.sent == []
  {
    var serverError := Handled(JsonReply(500, MessageBody(ServerFailure)), db, []);
    if body.None? || body.value.JNull? then serverError
    else
      var email := Get(body.value, "email").value;
      if Falsy(email) then Handled(JsonReply(400, ErrorBody(EmailRequired)), db, [])
      else if !db.online || !email.value.JStr? then serverError
      else
        match UserByEmail(db.users, email.value.s)
        case None => Handled(JsonReply(404, ErrorBody(UnknownUser)), db, [])
        case Some(user) =>
          match Jwt.Sign(lib, map["userId" := JNum(user.id), "email" := JStr(user.email)], secret, Jwt.HourSeconds, now)
          case None => serverError
          case Some(token) =>
            var record := ResetToken(token, user.id, Some(now), now + HourMillis);
            var stored := db.(resetTokens := db.resetTokens + [record]);
            if !mailOk then Handled(JsonReply(500, MessageBody(ServerFailure)), stored, [])
            else Handled(JsonReply(200, MessageBody(MailSent)), stored, [Mail(email.value.s, Subject, Some(ResetLink(token)))])
  }

  function Request(email: string): Json {
    JObj(map["email" := JStr(email)])
  }

  lemma MissingEmailIs400(lib: Jwt.Library, db: Db, secret: Option<string>, now: int, mailOk: bool)
    ensures Post(lib, Some(JObj(map[])), db, secret, now, mailOk).reply == JsonReply(400, ErrorBody(EmailRequired))
    ensures Post(lib, Some(Request("")), db, secret, now, mailOk).reply == JsonReply(400, ErrorBody(EmailRequired))
  {
  }

  lemma UnknownEmailIs404(lib: Jwt.Library, email: string, db: Db, secret: Option<string>, now: int, mailOk: bool)
    requires email != "" && db.online && UserByEmail(db.users, email).None?
    ensures Post(lib, Some(Request(email)), db, secret, now, mailOk) == Handled(JsonReply(404, ErrorBody(UnknownUser)), db, [])
  {
  }

  /** For a known user: the record names the user, was created now and
      expires in an hour, and is stored before the mail goes out (it stays
      when the mail fails). The one mail goes to the requested address and
      links to the prefix followed by exactly the token, which verifies to
      `userId` and `email` for the next hour. */
  lemma KnownUserGetsLink(lib: Jwt.Library, email: string, db: Db, secret: Option<string>, now: int, later: int, mailOk: bool)
    requires Jwt.Sound(lib) && Jwt.Configured(secret)
    requires email != "" && db.online && UserByEmail(db.users, email).Some?
    requires later / 1000 < now / 1000 + Jwt.HourSeconds
    ensures var user := UserByEmail(db.users, email).value;
      var h := Post(lib, Some(Request(email)), db, secret, now, mailOk);
      var record := h.db.resetTokens[|h.db.resetTokens| - 1];
      |h.db.resetTokens| == |db.resetTokens| + 1 && h.db == db.(resetTokens := db.resetTokens + [record])
      && record.userId == user.id && record.createdAt == Some(now) && record.expires == now + HourMillis
      && Jwt.Verify(lib, record.token, secret, later)
         == Ok(map["userId" := JNum(user.id), "email" := JStr(user.email),
                   "iat" := JNum(now / 1000), "exp" := JNum(now / 1000 + Jwt.HourSeconds)])
      && (mailOk ==> h.reply == JsonReply(200, MessageBody(MailSent))
                     && h.sent == [Mail(email, Subject, Some(LinkPrefix + record.token))])
      && (!mailOk ==> h.reply == JsonReply(500, MessageBody(ServerFailure)) && h.sent == [])
  {
    var user := UserByEmail(db.users, email).value;
    Jwt.SignThenVerify(lib, map["userId" := JNum(user.id), "email" := JStr(user.email)], secret, Jwt.HourSeconds, now, later);
  }

  /** Without a secret signing throws before anything is stored or sent. */
  lemma MissingSecretStoresNothing(lib: Jwt.Library, email: string, db: Db, now: int, mailOk: bool)
    requires email != "" && db.online && UserByEmail(db.users, email).Some?
    ensures Post(lib, Some(Request(email)), db, None, now, mailOk) == Handled(JsonReply(500, MessageBody(ServerFailure)), db, [])
  {
  }
}
