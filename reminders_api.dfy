/**
 * app/api/reminders/route.ts: listing the invoices due for a reminder and
 * sending one reminder on request. The selection, the recipient rule and
 * the mail are those of the daily job. `mailOk` is whether the mail
 * service accepts the send.
 */
module RemindersApi {
  import opened Wrappers
  import opened Js
  import opened Store
  import opened Http
  import Jwt
  import LibAuth
  import opened RouteGuard
  import opened ReminderJob

  const IdRequired := "請求書IDが必要です。"
  const UnknownInvoice := "指定された請求書が存在しません。"
  const AlreadyPaid := "この請求書は既に支払い済みです。"
  const NoRecipient := "請求書のクライアント情報が不足しています。"
  const ServerFailure := "サーバーエラーが発生しました。"
  const ReminderSent := "リマインダーメールが送信されました。"

  /** `GET`: every failure inside the try, a store failure included, is
      reported as an invalid token. */
  function HandleGet(lib: Jwt.Library, req: Request, db: Db, secret: Option<string>, now: int): (r: Reply)
    ensures r.status in {200, 401, 500}
    ensures r.status == 500 ==> r == Crash
    ensures r.status == 200 <==>
      TokenOf(req).Ok? && LibAuth.VerifyToken(lib, TokenOf(req).value, secret, now).Ok? && db.online
    ensures r.status == 200 ==> r.body == DueInvoicesBody(Due(db.invoices, now))
    ensures TokenOf(req).Err? ==> r == TokenOf(req).error
    ensures TokenOf(req).Ok? && (LibAuth.VerifyToken(lib, TokenOf(req).value, secret, now).Err? || !db.online) ==>
      r == JsonReply(401, ErrorBody(InvalidToken))
  {
    match TokenOf(req)
    case Err(reply) => reply
    case Ok(token) =>
      if LibAuth.VerifyToken(lib, token, secret, now).Err? || !db.online then JsonReply(401, ErrorBody(InvalidToken))
      else JsonReply(200, DueInvoicesBody(Due(db.invoices, now)))
  }

  function Fail(status: int, message: string, db: Db): (h: Handled)
    ensures h.reply == JsonReply(status, ErrorBody(message)) && h.db == db && h.sent == []
  {
    Handled(JsonReply(status, ErrorBody(message)), db, [])
  }

  /** The checks on the requested invoice, once its id was read from a
      non-null body. The date window is not checked here. */
  function Remind(data: Json, db: Db, mailOk: bool): (h: Handled)
    requires !data.JNull?
    ensures h.db == db && h.reply.status in {200, 400, 404, 500}
    ensures |h.sent| <= 1 && (|h.sent| == 1 <==> h.reply.status == 200)
    ensures h.reply.status == 200 ==>
      Get(data, "invoiceId").value.Some? &&
      var id := Get(data, "invoiceId").value.value;
      id.JNum? && InvoiceById(db.invoices, id.n).Some?
      && var inv := InvoiceById(db.invoices, id.n).value;
      inv.status == JStr(Unpaid) && Recipient(inv, db.clients).Some?
      && h.sent == [ReminderFor(inv, Recipient(inv, db.clients).value)]
  {
    var invoiceId := Get(data, "invoiceId").value;
    if Falsy(invoiceId) then Fail(400, IdRequired, db)
    else if !db.online || !invoiceId.value.JNum? then Fail(500, ServerFailure, db)
    else match InvoiceById(db.invoices, invoiceId.value.n)
      case None => Fail(404, UnknownInvoice, db)
      case Some(inv) =>
        if inv.status != JStr(Unpaid) then Fail(400, AlreadyPaid, db)
        else match Recipient(inv, db.clients)
          case None => Fail(400, NoRecipient, db)
          case Some(to) =>
            if !mailOk then Fail(500, ServerFailure, db)
            else Handled(JsonReply(200, MessageBody(ReminderSent)), db, [ReminderFor(inv, to)])
  }

  /** `POST`: every failure inside the try, a refused token included, is
      a 500. */
  function HandlePost(lib: Jwt.Library, req: Request, db: Db, secret: Option<string>, now: int, mailOk: bool): (h: Handled)
    ensures h.db == db && h.reply.status in {200, 400, 401, 404, 500}
    ensures TokenOf(req).Err? ==> h.reply == TokenOf(req).error && h.sent == []
    ensures |h.sent| <= 1 && (|h.sent| == 1 <==> h.reply.status == 200)
  {
    match TokenOf(req)
    case Err(reply) => Handled(reply, db, [])
    case Ok(token) =>
      if LibAuth.VerifyToken(lib, token, secret, now).Err? || req.body.None? || req.body.value.JNull?
      then Fail(500, ServerFailure, db)
      else Remind(req.body.value, db, mailOk)
  }

  /** A refused token is 401 on GET and 500 on POST, and nothing is sent. */
  lemma RefusedTokenStatus(lib: Jwt.Library, req: Request, db: Db, secret: Option<string>, now: int, mailOk: bool)
    requires TokenOf(req).Ok? && LibAuth.VerifyToken(lib, TokenOf(req).value, secret, now).Err?
    ensures HandleGet(lib, req, db, secret, now) == JsonReply(401, ErrorBody(InvalidToken))
    ensures HandlePost(lib, req, db, secret, now, mailOk) == Fail(500, ServerFailure, db)
  {
  }

  /** A failing store on GET looks like a bad token. */
  lemma StoreFailureLooksLikeBadToken(lib: Jwt.Library, req: Request, db: Db, secret: Option<string>, now: int)
    requires TokenOf(req).Ok? && !db.online
    ensures HandleGet(lib, req, db, secret, now) == JsonReply(401, ErrorBody(InvalidToken))
  {
  }

  /** The request form `{ invoiceId }`. */
  function Form(invoiceId: int): Json {
    JObj(map["invoiceId" := JNum(invoiceId)])
  }

  /** The refusals, in order: unknown invoice 404, paid invoice 400, no
      recipient 400; none of them sends anything. */
  lemma Refusals(db: Db, id: int, mailOk: bool)
    requires db.online && id != 0
    ensures InvoiceById(db.invoices, id).None? ==> Remind(Form(id), db, mailOk) == Fail(404, UnknownInvoice, db)
    ensures InvoiceById(db.invoices, id).Some? && InvoiceById(db.invoices, id).value.status != JStr(Unpaid) ==>
      Remind(Form(id), db, mailOk) == Fail(400, AlreadyPaid, db)
    ensures (InvoiceById(db.invoices, id).Some? && InvoiceById(db.invoices, id).value.status == JStr(Unpaid)
             && Recipient(InvoiceById(db.invoices, id).value, db.clients).None?) ==>
      Remind(Form(id), db, mailOk) == Fail(400, NoRecipient, db)
  {
  }

  /** A missing or zero id is a 400 before the store is read. */
  lemma IdRequiredFirst(data: Json, db: Db, mailOk: bool)
    requires !data.JNull? && Falsy(Get(data, "invoiceId").value)
    ensures Remind(data, db, mailOk) == Fail(400, IdRequired, db)
  {
  }

  /** Any unpaid invoice with a recipient is reminded on request, due or
      not: the route applies no date window. */
  lemma NoWindowOnRequest(db: Db, id: int, now: int)
    requires db.online && id != 0
    requires InvoiceById(db.invoices, id).Some?
    requires var inv := InvoiceById(db.invoices, id).value;
      inv.status == JStr(Unpaid) && Recipient(inv, db.clients).Some? && inv.dueDate > Horizon(now)
    ensures var inv := InvoiceById(db.invoices, id).value;
      !IsDue(inv, now)
      && Remind(Form(id), db, true).sent == [ReminderFor(inv, Recipient(inv, db.clients).value)]
  {
  }
}
