/**
 * app/api/orders/route.ts: listing orders and creating one. Unlike the
 * invoice route, both handlers tell a token jsonwebtoken refuses (401) from
 * every other failure (500). `new Date(x)` is the parameter `parseDate`
 * (None is an Invalid Date).
 */
module OrdersApi {
  import opened Wrappers
  import opened Js
  import opened Store
  import opened Http
  import Jwt
  import LibAuth
  import opened RouteGuard
  import opened LineItems

  const FetchFailed := "注文の取得に失敗しました。"
  const CreateFailed := "注文の作成に失敗しました。"
  const MissingFields := "すべての必須フィールドを入力してください。"
  const DuplicateNumber := "この発注番号は既に存在します。"

  /** The catch block: JsonWebTokenError is told apart from the rest. */
  function Refusal(e: LibAuth.VerifyFailure, failed: string): (r: Reply)
    ensures r == (if e.Rejected? then JsonReply(401, ErrorBody(InvalidToken)) else JsonReply(500, ErrorBody(failed)))
  {
    if e.Rejected? then JsonReply(401, ErrorBody(InvalidToken)) else JsonReply(500, ErrorBody(failed))
  }

  /** `GET`: the whole table once the token verifies. */
  function HandleGet(lib: Jwt.Library, req: Request, db: Db, secret: Option<string>, now: int): (r: Reply)
    ensures r.status in {200, 401, 500}
    ensures r.status == 200 <==>
      TokenOf(req).Ok? && LibAuth.VerifyToken(lib, TokenOf(req).value, secret, now).Ok? && db.online
    ensures r.status == 200 ==> r.body == OrderListBody(db.orders)
    ensures TokenOf(req).Err? ==> r == TokenOf(req).error
    ensures TokenOf(req).Ok? && LibAuth.VerifyToken(lib, TokenOf(req).value, secret, now).Err? ==>
      r == Refusal(LibAuth.VerifyToken(lib, TokenOf(req).value, secret, now).error, FetchFailed)
    ensures TokenOf(req).Ok? && LibAuth.VerifyToken(lib, TokenOf(req).value, secret, now).Ok? && !db.online ==>
      r == JsonReply(500, ErrorBody(FetchFailed))
  {
    match TokenOf(req)
    case Err(reply) => reply
    case Ok(token) =>
      match LibAuth.VerifyToken(lib, token, secret, now)
      case Err(e) => Refusal(e, FetchFailed)
      case Ok(_) =>
        if !db.online then JsonReply(500, ErrorBody(FetchFailed))
        else JsonReply(200, OrderListBody(db.orders))
  }

  function Fail(status: int, message: string, db: Db): (h: Handled)
    ensures h.reply == JsonReply(status, ErrorBody(message)) && h.db == db && h.sent == []
  {
    Handled(JsonReply(status, ErrorBody(message)), db, [])
  }

  /** Falsy among the six required fields. */
  predicate MissingField(data: Json)
    requires !data.JNull?
  {
    Falsy(Get(data, "orderNumber").value) || Falsy(Get(data, "clientId").value)
    || Falsy(Get(data, "issueDate").value) || Falsy(Get(data, "dueDate").value)
    || Falsy(Get(data, "status").value) || Falsy(Get(data, "items").value)
  }

  /** A stored order whose `totalAmount` is the sum of its item totals,
      each of which is quantity times unit price. */
  predicate Priced(o: Order) {
    o.totalAmount == SumOfTotals(o.items)
    && forall k :: 0 <= k < |o.items| ==> o.items[k].totalPrice == o.items[k].quantity * o.items[k].unitPrice
  }

  /** The try block after the body parsed to a non-null value. The store
      refuses a non-string `orderNumber`, a `clientId` that names no client,
      a NaN amount and an Invalid Date; each of those is a 500 here. */
  function Create(parseDate: Json -> Option<int>, data: Json, db: Db): (h: Handled)
    requires !data.JNull?
    ensures h.sent == [] && h.reply.status in {201, 400, 500}
    ensures h.reply.status != 201 ==> h.db == db
    ensures MissingField(data) ==> h == Fail(400, MissingFields, db)
    ensures h.reply.status == 201 ==>
      !MissingField(data) && h.reply.body.OrderBody? && h.db == db.(orders := db.orders + [h.reply.body.order])
      && var o := h.reply.body.order;
      o.id == NextId(OrderIds(db.orders)) && Get(data, "orderNumber").value == Some(JStr(o.orderNumber))
      && OrderByNumber(db.orders, o.orderNumber).None?
      && Get(data, "clientId").value == Some(JNum(o.clientId)) && ClientById(db.clients, o.clientId).Some?
      && parseDate(Get(data, "issueDate").value.value) == Some(o.issueDate)
      && parseDate(Get(data, "dueDate").value.value) == Some(o.dueDate)
      && o.status == Get(data, "status").value.value
      && Parsed(Get(data, "items").value.value) == Some(o.items)
      && Priced(o) && Total(Get(data, "items").value.value) == Some(o.totalAmount)
  {
    var orderNumber := Get(data, "orderNumber").value;
    var clientId := Get(data, "clientId").value;
    var issueDate := Get(data, "issueDate").value;
    var dueDate := Get(data, "dueDate").value;
    var status := Get(data, "status").value;
    var items := Get(data, "items").value;
    if MissingField(data) then Fail(400, MissingFields, db)
    else if !db.online || !orderNumber.value.JStr? then Fail(500, CreateFailed, db)
    else if OrderByNumber(db.orders, orderNumber.value.s).Some? then Fail(400, DuplicateNumber, db)
    else
      var total := Total(items.value);
      var lines := Parsed(items.value);
      var issue := parseDate(issueDate.value);
      var due := parseDate(dueDate.value);
      if total.None? || lines.None? || !clientId.value.JNum? || ClientById(db.clients, clientId.value.n).None?
         || issue.None? || due.None?
      then Fail(500, CreateFailed, db)
      else
        TotalMatchesParsed(items.value);
        var o := Order(NextId(OrderIds(db.orders)), orderNumber.value.s, clientId.value.n, issue.value, due.value,
          status.value, total.value, lines.value);
        Handled(JsonReply(201, OrderBody(o)), db.(orders := db.orders + [o]), [])
  }

  /** `POST`. */
  function HandlePost(lib: Jwt.Library, parseDate: Json -> Option<int>, req: Request, db: Db, secret: Option<string>, now: int): (h: Handled)
    ensures h.sent == [] && h.reply.status in {201, 400, 401, 500}
    ensures h.reply.status != 201 ==> h.db == db
    ensures TokenOf(req).Err? ==> h.reply == TokenOf(req).error
    ensures h.reply.status == 201 ==>
      TokenOf(req).Ok? && LibAuth.VerifyToken(lib, TokenOf(req).value, secret, now).Ok?
      && h.reply.body.OrderBody? && h.db == db.(orders := db.orders + [h.reply.body.order]) && Priced(h.reply.body.order)
  {
    match TokenOf(req)
    case Err(reply) => Handled(reply, db, [])
    case Ok(token) =>
      match LibAuth.VerifyToken(lib, token, secret, now)
      case Err(e) => Handled(Refusal(e, CreateFailed), db, [])
      case Ok(_) =>
        if req.body.None? || req.body.value.JNull? then Fail(500, CreateFailed, db)
        else Create(parseDate, req.body.value, db)
  }

  /** A refused token is 401 on both handlers, and nothing is stored. */
  lemma RefusedTokenIs401(lib: Jwt.Library, parseDate: Json -> Option<int>, req: Request, db: Db, secret: Option<string>, now: int)
    requires TokenOf(req).Ok? && Jwt.Configured(secret)
    requires Jwt.Verify(lib, TokenOf(req).value, secret, now).Err?
    ensures HandleGet(lib, req, db, secret, now) == JsonReply(401, ErrorBody(InvalidToken))
    ensures HandlePost(lib, parseDate, req, db, secret, now) == Fail(401, InvalidToken, db)
  {
  }

  /** Without a secret both handlers answer 500, whatever the token. */
  lemma MissingSecretIs500(lib: Jwt.Library, parseDate: Json -> Option<int>, req: Request, db: Db, secret: Option<string>, now: int)
    requires TokenOf(req).Ok? && !Jwt.Configured(secret)
    ensures HandleGet(lib, req, db, secret, now) == JsonReply(500, ErrorBody(FetchFailed))
    ensures HandlePost(lib, parseDate, req, db, secret, now) == Fail(500, CreateFailed, db)
  {
  }

  /** A missing field is reported before the store is touched: even an
      offline store gives the 400. */
  lemma MissingFieldBeforeStore(parseDate: Json -> Option<int>, data: Json, db: Db)
    requires !data.JNull? && MissingField(data)
    ensures Create(parseDate, data, db) == Fail(400, MissingFields, db)
    ensures Create(parseDate, data, db.(online := false)) == Fail(400, MissingFields, db.(online := false))
  {
  }

  /** An order number already in use is a 400 and nothing is stored, even
      when the items could not be priced. */
  lemma DuplicateNumberRefused(parseDate: Json -> Option<int>, data: Json, db: Db, existing: Order)
    requires !data.JNull? && !MissingField(data) && db.online
    requires existing in db.orders && Get(data, "orderNumber").value == Some(JStr(existing.orderNumber))
    ensures Create(parseDate, data, db) == Fail(400, DuplicateNumber, db)
  {
    var i :| 0 <= i < |db.orders| && db.orders[i] == existing;
    assert OrderByNumber(db.orders, existing.orderNumber).Some?;
  }

  /** A complete request for a known client with priced items and valid
      dates stores exactly the posted order, under the next id, with the
      items' total as its amount. */
  lemma CompleteOrderCreated(parseDate: Json -> Option<int>, data: Json, db: Db)
    requires !data.JNull? && !MissingField(data) && db.online
    requires var n := Get(data, "orderNumber").value.value; n.JStr? && OrderByNumber(db.orders, n.s).None?
    requires var c := Get(data, "clientId").value.value; c.JNum? && ClientById(db.clients, c.n).Some?
    requires Total(Get(data, "items").value.value).Some?
    requires parseDate(Get(data, "issueDate").value.value).Some? && parseDate(Get(data, "dueDate").value.value).Some?
    ensures var items := Get(data, "items").value.value;
      Parsed(items).Some? && Total(items).value == SumOfTotals(Parsed(items).value)
      && var o := Order(NextId(OrderIds(db.orders)), Get(data, "orderNumber").value.value.s,
        Get(data, "clientId").value.value.n,
        parseDate(Get(data, "issueDate").value.value).value, parseDate(Get(data, "dueDate").value.value).value,
        Get(data, "status").value.value, Total(items).value, Parsed(items).value);
      Create(parseDate, data, db) == Handled(JsonReply(201, OrderBody(o)), db.(orders := db.orders + [o]), [])
  {
    TotalMatchesParsed(Get(data, "items").value.value);
  }
}
