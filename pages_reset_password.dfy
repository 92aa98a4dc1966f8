/**
 * pages/api/auth/reset-password.ts: the Pages-router variant of the reset
 * request. Only POST is served; the token is 32 random bytes in hex rather
 * than a signed token, and the record carries no creation time. Next.js
 * parses the body before the handler runs, so malformed JSON is its 400
 * whatever the method. The body is destructured before the try block, so
 * only the store and mail steps are covered by its 500.
 */
module PagesResetPassword {
  import opened Wrappers
  import opened Js
  import opened Store
  import opened Http

  const EmailRequired := "メールアドレスが必要です。"
  const UnknownUser := "ユーザーが存在しません。"
  const MailSent := "パスワードリセットメールを送信しました。"
  const ServerFailure := "サーバーエラー"
  const Subject := "パスワードリセット"
  const LinkPrefix := "http://localhost:3000/auth/reset-password/"
  const HourMillis := 3600000

  newtype Byte = x: int | 0 <= x < 256

  predicate IsLowerHex(c: char) {
    IsAsciiDigit(c) || 'a' <= c <= 'f'
  }

  function HexDigit(n: int): (c: char)
    requires 0 <= n < 16
    ensures IsLowerHex(c)
  {
    if n < 10 then ('0' as int + n) as char else ('a' as int + n - 10) as char
  }

  /** `buffer.toString('hex')`: two lowercase digits per byte, high nibble
      first. */
  function Hex(bytes: seq<Byte>): (s: string)
    ensures |s| == 2 * |bytes|
    ensures forall i :: 0 <= i < |s| ==> IsLowerHex(s[i])
  {
    if bytes == [] then []
    else [HexDigit(bytes[0] as int / 16), HexDigit(bytes[0] as int % 16)] + Hex(bytes[1..])
  }

  function HexValue(c: char): int
    requires IsLowerHex(c)
  {
    if IsAsciiDigit(c) then c as int - '0' as int else c as int - 'a' as int + 10
  }

  /** Reading the hex string back: the inverse of `Hex`. */
  function Unhex(s: string): (bytes: seq<Byte>)
    requires |s| % 2 == 0 && forall i :: 0 <= i < |s| ==> IsLowerHex(s[i])
  {
    if s == [] then []
    else [(16 * HexValue(s[0]) + HexValue(s[1])) as Byte] + Unhex(s[2..])
  }

  /** Distinct byte strings give distinct tokens. */
  lemma {:induction false} UnhexHex(bytes: seq<Byte>)
    ensures Unhex(Hex(bytes)) == bytes
  {
    if bytes != [] {
      var b := bytes[0] as int;
      var s := Hex(bytes);
      assert s[2..] == Hex(bytes[1..]);
      assert HexValue(HexDigit(b / 16)) == b / 16;
      assert HexValue(HexDigit(b % 16)) == b % 16;
      UnhexHex(bytes[1..]);
    }
  }

  /** `handler(req, res)`: `bytes` are the 32 bytes `crypto.randomBytes(32)`
      produced, `mailOk` whether `sendMail` resolves. */
  function Handler(req: Request, db: Db, bytes: seq<Byte>, now: int, mailOk: bool): (h: Handled)
    requires |bytes| == 32
    ensures h.reply.status in {200, 400, 405, 500}
    ensures h.reply.status == 405 <==> req.body.Some? && req.verb != "POST"
    ensures h.reply.status == 405 ==> h.reply.allow == ["POST"] && h.db == db
    ensures req.body.None? ==> h == Handled(InvalidJson, db, [])
    ensures h.reply.status == 200 ==> |h.sent| == 1
    ensures h.reply.status != 200 ==> h.sent == []
    ensures h.reply.status == 200 || h.db != db ==>
      req.body.Some? && StringField(req.body.value, "email").Some?
      && UserByEmail(db.users, StringField(req.body.value, "email").value).Some?
      && h.db == db.(resetTokens := db.resetTokens
           + [ResetToken(Hex(bytes), UserByEmail(db.users, StringField(req.body.value, "email").value).value.id, None, now + HourMillis)])
    ensures h.reply.status == 200 ==>
      h.db != db && h.sent == [Mail(StringField(req.body.value, "email").value, Subject, Some(LinkPrefix + Hex(bytes)))]
  {
    if req.body.None? then Handled(InvalidJson, db, [])
    else if req.verb != "POST" then Handled(Reply(405, NotAllowedText(req.verb), ["POST"]), db, [])
    else if req.body.value.JNull? then Handled(Crash, db, [])
    else
      var email := Get(req.body.value, "email").value;
      if Falsy(email) then Handled(JsonReply(400, MessageBody(EmailRequired)), db, [])
      else if !db.online || !email.value.JStr? then Handled(JsonReply(500, MessageBody(ServerFailure)), db, [])
      else
        match UserByEmail(db.users, email.value.s)
        case None => Handled(JsonReply(400, MessageBody(UnknownUser)), db, [])
        case Some(user) =>
          var token := Hex(bytes);
          var stored := db.(resetTokens := db.resetTokens + [ResetToken(token, user.id, None, now + HourMillis)]);
          if !mailOk then Handled(JsonReply(500, MessageBody(ServerFailure)), stored, [])
          else Handled(JsonReply(200, MessageBody(MailSent)), stored, [Mail(email.value.s, Subject, Some(LinkPrefix + token))])
  }

  /** An unknown e-mail is a 400, like a missing one (not a 404). */
  lemma UnknownUserIs400(req: Request, db: Db, bytes: seq<Byte>, now: int, mailOk: bool, email: string)
    requires |bytes| == 32 && req.verb == "POST" && db.online
    requires req.body == Some(JObj(map["email" := JStr(email)])) && email != ""
    requires UserByEmail(db.users, email).None?
    ensures Handler(req, db, bytes, now, mailOk) == Handled(JsonReply(400, MessageBody(UnknownUser)), db, [])
  {
  }

  /** For a known user the stored token is 64 lowercase hex digits that
      encode the random bytes, the record names the user and expires an
      hour from now, and it is stored before the mail (and kept if the mail
      fails). */
  lemma KnownUserRecord(req: Request, db: Db, bytes: seq<Byte>, now: int, mailOk: bool, email: string)
    requires |bytes| == 32 && req.verb == "POST" && db.online
    requires req.body == Some(JObj(map["email" := JStr(email)])) && email != ""
    requires UserByEmail(db.users, email).Some?
    ensures var h := Handler(req, db, bytes, now, mailOk);
      |h.db.resetTokens| == |db.resetTokens| + 1 && h.db.resetTokens[..|db.resetTokens|] == db.resetTokens
      && var r := h.db.resetTokens[|db.resetTokens|];
      |r.token| == 64 && (forall i :: 0 <= i < 64 ==> IsLowerHex(r.token[i])) && Unhex(r.token) == bytes
      && r.userId == UserByEmail(db.users, email).value.id && r.createdAt.None? && r.expires == now + HourMillis
      && (mailOk <==> h.reply.status == 200)
      && (mailOk ==> h.sent == [Mail(email, Subject, Some(LinkPrefix + r.token))])
  {
    UnhexHex(bytes);
    var h := Handler(req, db, bytes, now, mailOk);
    assert h.db.resetTokens[..|db.resetTokens|] == db.resetTokens;
  }

  lemma OtherMethodsNotAllowed(req: Request, db: Db, bytes: seq<Byte>, now: int, mailOk: bool)
    requires |bytes| == 32 && req.verb != "POST" && req.body.Some?
    ensures Handler(req, db, bytes, now, mailOk) == Handled(Reply(405, NotAllowedText(req.verb), ["POST"]), db, [])
  {
  }
}
