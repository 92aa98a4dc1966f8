/**
 * app/api/invoices/route.ts: listing invoices and creating one. Creation
 * runs an ordered chain of checks on the posted fields, scans the items,
 * resolves the order and its client, assigns issuer and recipient from
 * `direction`, generates the invoice number and stores the invoice with its
 * items. `new Date(x)` is the parameter `parseDate` (None is an Invalid
 * Date, whose time value is NaN); `Date.now()` is `now`.
 */
module InvoicesApi {
  import opened Wrappers
  import opened Js
  import opened Store
  import opened Http
  import Jwt
  import LibAuth
  import opened RouteGuard
  import opened LineItems

  const FetchFailed := "請求書の取得に失敗しました。"
  const CreateFailed := "請求書の作成に失敗しました。"
  const MissingFields := "すべての必須フィールドを入力してください。"
  const DueNotAfterIssue := "支払期日は発行日より後の日付を指定してください。"
  const NoDescription := "アイテムの説明を入力してください。"
  const BadQuantity := "数量は1以上の数値でなければなりません。"
  const BadUnitPrice := "単価は0以上の数値でなければなりません。"
  const NoOrderOrClient := "関連する注文またはクライアントが見つかりません。"
  const BadDirection := "無効な方向性が指定されました。"
  const DuplicateNumber := "この請求書番号は既に存在します。"
  const ClientToUser := "client_to_user"
  const UserToClient := "user_to_client"
  const NumberPrefix := "INV-"

  // ------------------------------------------------------------------ GET

  /** `GET`: the whole table once the token verifies. A token jsonwebtoken
      refuses is 401; a missing secret or a store failure is 500. */
  function HandleGet(lib: Jwt.Library, req: Request, db: Db, secret: Option<string>, now: int): (r: Reply)
    ensures r.status in {200, 401, 500}
    ensures r.status == 200 <==>
      TokenOf(req).Ok? && LibAuth.VerifyToken(lib, TokenOf(req).value, secret, now).Ok? && db.online
    ensures r.status == 200 ==> r.body == InvoiceListBody(db.invoices)
    ensures TokenOf(req).Err? ==> r == TokenOf(req).error
    ensures TokenOf(req).Ok? && LibAuth.VerifyToken(lib, TokenOf(req).value, secret, now).Ok? && !db.online ==>
      r == JsonReply(500, ErrorBody(FetchFailed))
    ensures TokenOf(req).Ok? && LibAuth.VerifyToken(lib, TokenOf(req).value, secret, now).Err? ==>
      r == (if LibAuth.VerifyToken(lib, TokenOf(req).value, secret, now).error.Rejected?
            then JsonReply(401, ErrorBody(InvalidToken))
            else JsonReply(500, ErrorBody(FetchFailed)))
  {
    match TokenOf(req)
    case Err(reply) => reply
    case Ok(token) =>
      match LibAuth.VerifyToken(lib, token, secret, now)
      case Err(e) =>
        if e.Rejected? then JsonReply(401, ErrorBody(InvalidToken)) else JsonReply(500, ErrorBody(FetchFailed))
      case Ok(_) =>
        if !db.online then JsonReply(500, ErrorBody(FetchFailed))
        else JsonReply(200, InvoiceListBody(db.invoices))
  }

  // ---------------------------------------------------------------- items

  /** Why the item scan stops. */
  datatype ItemProblem =
    | MissingDescription
    | QuantityBelowOne
    | UnitPriceNegative
    /** `item.description` of a null item: a TypeError. */
    | ItemThrows

  function MessageOf(p: ItemProblem): string {
    match p
    case MissingDescription => NoDescription
    case QuantityBelowOne => BadQuantity
    case UnitPriceNegative => BadUnitPrice
    case ItemThrows => CreateFailed
  }

  /** `typeof v === 'number' && v >= bound`, the negation of one item test. */
  predicate NumberAtLeast(v: Option<Json>, bound: int) {
    v.Some? && v.value.JNum? && v.value.n >= bound
  }

  /** The three tests of one loop iteration, in order. */
  function ItemCheck(item: Json): (r: Option<ItemProblem>)
    ensures r.None? <==>
      !item.JNull? && !Falsy(Get(item, "description").value)
      && NumberAtLeast(Get(item, "quantity").value, 1) && NumberAtLeast(Get(item, "unitPrice").value, 0)
  {
    if item.JNull? then Some(ItemThrows)
    else if Falsy(Get(item, "description").value) then Some(MissingDescription)
    else if !NumberAtLeast(Get(item, "quantity").value, 1) then Some(QuantityBelowOne)
    else if !NumberAtLeast(Get(item, "unitPrice").value, 0) then Some(UnitPriceNegative)
    else None
  }

  /** The specification of the scan: the verdict of the first item that
      fails a test, None when every item passes. */
  function FirstItemProblem(items: seq<Json>): (r: Option<ItemProblem>)
    ensures r.None? <==> forall i :: 0 <= i < |items| ==> ItemCheck(items[i]).None?
  {
    if items == [] then None
    else if ItemCheck(items[0]).Some? then ItemCheck(items[0])
    else FirstItemProblem(items[1..])
  }

  /** The item that fails first decides, whatever follows it. */
  lemma {:induction false} FirstProblemAt(items: seq<Json>, i: int)
    requires 0 <= i < |items| && ItemCheck(items[i]).Some?
    requires forall j :: 0 <= j < i ==> ItemCheck(items[j]).None?
    ensures FirstItemProblem(items) == ItemCheck(items[i])
  {
    if i > 0 {
      FirstProblemAt(items[1..], i - 1);
    }
  }

  /** The `for (const item of items)` loop, returning at the first failure. */
  method CheckItems(items: seq<Json>) returns (problem: Option<ItemProblem>)
    ensures problem == FirstItemProblem(items)
  {
    var i := 0;
    while i < |items|
      invariant 0 <= i <= |items|
      invariant forall j :: 0 <= j < i ==> ItemCheck(items[j]).None?
    {
      var item := items[i];
      if item.JNull? {
        FirstProblemAt(items, i);
        return Some(ItemThrows);
      }
      if Falsy(Get(item, "description").value) {
        FirstProblemAt(items, i);
        return Some(MissingDescription);
      }
      var quantity := Get(item, "quantity").value;
      if !(quantity.Some? && quantity.value.JNum?) || quantity.value.n < 1 {
        FirstProblemAt(items, i);
        return Some(QuantityBelowOne);
      }
      var unitPrice := Get(item, "unitPrice").value;
      if !(unitPrice.Some? && unitPrice.value.JNum?) || unitPrice.value.n < 0 {
        FirstProblemAt(items, i);
        return Some(UnitPriceNegative);
      }
      i := i + 1;
    }
    return None;
  }

  /** The loop over any posted `items` value: a string iterates its
      characters, whose `description` is undefined; numbers, booleans and
      objects are not iterable (a TypeError). */
  function ItemsProblem(items: Json): Option<ItemProblem> {
    match items
    case JArr(elems) => FirstItemProblem(elems)
    case JStr(s) => if s == "" then None else Some(MissingDescription)
    case _ => Some(ItemThrows)
  }

  /** Items that pass the scan always price: quantities and prices are
      numbers, so neither the `reduce` nor the `map` meets a NaN. */
  lemma CheckedItemsPrice(items: Json)
    requires items.JArr? && ItemsProblem(items).None?
    ensures Total(items).Some? && Parsed(items).Some?
    ensures Total(items).value == SumOfTotals(Parsed(items).value)
  {
    forall i | 0 <= i < |items.elems| ensures Product(items.elems[i]).Some? {
      assert ItemCheck(items.elems[i]).None?;
    }
    TotalMatchesParsed(items);
  }

  // -------------------------------------------------------------- parties

  /** The four nullable party ids of an invoice. */
  datatype Parties = Parties(
    issuerUserId: Option<Json>,
    issuerClientId: Option<int>,
    recipientUserId: Option<Json>,
    recipientClientId: Option<int>)

  /** The direction rule; `user` is the value written for the user side.
      None is an unknown direction. */
  function PartiesFor(direction: Json, clientId: int, user: Option<Json>): (r: Option<Parties>)
    ensures r.Some? <==> direction == JStr(ClientToUser) || direction == JStr(UserToClient)
    ensures direction == JStr(ClientToUser) ==> r == Some(Parties(None, Some(clientId), user, None))
    ensures direction == JStr(UserToClient) ==> r == Some(Parties(user, None, None, Some(clientId)))
  {
    if direction == JStr(ClientToUser) then Some(Parties(None, Some(clientId), user, None))
    else if direction == JStr(UserToClient) then Some(Parties(user, None, None, Some(clientId)))
    else None
  }

  /** The four `let` variables, null first, then set by the direction
      branch. */
  method AssignParties(direction: Json, clientId: int, user: Option<Json>) returns (r: Option<Parties>)
    ensures r == PartiesFor(direction, clientId, user)
  {
    var issuerUserId: Option<Json> := None;
    var issuerClientId: Option<int> := None;
    var recipientUserId: Option<Json> := None;
    var recipientClientId: Option<int> := None;
    if direction == JStr(ClientToUser) {
      issuerClientId := Some(clientId);
      recipientUserId := user;
    } else if direction == JStr(UserToClient) {
      issuerUserId := user;
      recipientClientId := Some(clientId);
    } else {
      return None;
    }
    r := Some(Parties(issuerUserId, issuerClientId, recipientUserId, recipientClientId));
  }

  /** A payload property read with `payload.key`. */
  function Claim(payload: map<string, Json>, key: string): Option<Json> {
    if key in payload then Some(payload[key]) else None
  }

  /** The claim the route reads for the user side: `user.id`. */
  const AsWrittenKey := "id"

  /** The claim a session token carries its user in. */
  const SessionKey := "userId"

  /** As written, the user side is `user.id`: the verified payload's `id`. */
  function PartiesAsWritten(direction: Json, clientId: int, payload: map<string, Json>): Option<Parties> {
    PartiesFor(direction, clientId, Claim(payload, AsWrittenKey))
  }

  /** As intended, the user side is the `userId` the session token carries. */
  function PartiesOf(direction: Json, clientId: int, payload: map<string, Json>): Option<Parties> {
    PartiesFor(direction, clientId, Claim(payload, SessionKey))
  }

  /** The four party ids a stored invoice carries. */
  function PartiesOfInvoice(inv: Invoice): Parties {
    Parties(inv.issuerUserId, inv.issuerClientId, inv.recipientUserId, inv.recipientClientId)
  }

  /** How many of the four ids are set, a JSON null counting as unset. */
  function SetCount(p: Parties): (n: nat)
    ensures n <= 4
  {
    (if p.issuerUserId.Some? && !p.issuerUserId.value.JNull? then 1 else 0)
    + (if p.issuerClientId.Some? then 1 else 0)
    + (if p.recipientUserId.Some? && !p.recipientUserId.value.JNull? then 1 else 0)
    + (if p.recipientClientId.Some? then 1 else 0)
  }

  /** The payload of the session token the login route issues. */
  function SessionPayload(userId: int, secret: string, now: int): map<string, Json> {
    Jwt.Payload(Jwt.Issue(map["userId" := JNum(userId)], secret, Jwt.HourSeconds, now))
  }

  /** As written, a session token has no `id` claim, so one party is a
      client and the user side stays null. */
  lemma AsWrittenLosesUser(direction: Json, clientId: int, userId: int, secret: string, now: int)
    requires direction == JStr(ClientToUser) || direction == JStr(UserToClient)
    ensures var p := PartiesAsWritten(direction, clientId, SessionPayload(userId, secret, now));
      p.Some? && SetCount(p.value) == 1
      && p.value.issuerUserId.None? && p.value.recipientUserId.None?
  {
    assert AsWrittenKey !in SessionPayload(userId, secret, now);
  }

  /** Read from `userId`, exactly two ids are set for a session token: one
      client and the user. */
  lemma ExactlyTwoParties(direction: Json, clientId: int, userId: int, secret: string, now: int)
    requires direction == JStr(ClientToUser) || direction == JStr(UserToClient)
    ensures var p := PartiesOf(direction, clientId, SessionPayload(userId, secret, now));
      p.Some? && SetCount(p.value) == 2
      && (p.value.issuerUserId == Some(JNum(userId)) || p.value.recipientUserId == Some(JNum(userId)))
      && (p.value.issuerClientId == Some(clientId) || p.value.recipientClientId == Some(clientId))
  {
    assert SessionPayload(userId, secret, now)[SessionKey] == JNum(userId);
  }

  // ----------------------------------------------------------------- POST

  function Fail(status: int, message: string, db: Db): (h: Handled)
    ensures h.reply == JsonReply(status, ErrorBody(message)) && h.db == db && h.sent == []
  {
    Handled(JsonReply(status, ErrorBody(message)), db, [])
  }

  /** The posted `direction`, `'client_to_user'` when it is undefined. */
  function DirectionOf(data: Json): Json
    requires !data.JNull?
  {
    Get(data, "direction").value.GetOr(JStr(ClientToUser))
  }

  /** `new Date(issueDate)` and `new Date(dueDate)` compare by time value;
      a NaN on either side makes `<=` false. */
  predicate DueNotAfter(parseDate: Json -> Option<int>, issueDate: Json, dueDate: Json) {
    parseDate(issueDate).Some? && parseDate(dueDate).Some? && parseDate(dueDate).value <= parseDate(issueDate).value
  }

  /** Falsy among the five required fields. */
  predicate MissingField(data: Json)
    requires !data.JNull?
  {
    Falsy(Get(data, "orderId").value) || Falsy(Get(data, "issueDate").value) || Falsy(Get(data, "dueDate").value)
    || Falsy(Get(data, "status").value) || Falsy(Get(data, "items").value)
  }

  /** The invoice number generated at `now`. */
  function NumberAt(now: int): string {
    NumberPrefix + IntToString(now)
  }

  /** A stored invoice whose `totalAmount` is the sum of its item totals,
      each of which is quantity times unit price. */
  predicate Priced(inv: Invoice) {
    inv.totalAmount == SumOfTotals(inv.items)
    && forall k :: 0 <= k < |inv.items| ==> inv.items[k].totalPrice == inv.items[k].quantity * inv.items[k].unitPrice
  }

  /** The body of the try block once the body parsed to a non-null value;
      `user` is the verified payload and `key` the claim the user side of
      the parties is read from (`AsWrittenKey` in the route). */
  function Create(parseDate: Json -> Option<int>, data: Json, user: map<string, Json>, key: string, db: Db, now: int): (h: Handled)
    requires !data.JNull?
    ensures h.sent == [] && h.reply.status in {201, 400, 500}
    ensures h.reply.status != 201 ==> h.db == db
    ensures MissingField(data) ==> h == Fail(400, MissingFields, db)
    ensures h.reply.status == 201 ==>
      !MissingField(data) && h.reply.body.InvoiceBody? && h.db == db.(invoices := db.invoices + [h.reply.body.invoice])
      && var inv := h.reply.body.invoice;
      inv.id == NextId(InvoiceIds(db.invoices)) && inv.invoiceNumber == NumberAt(now)
      && InvoiceByNumber(db.invoices, NumberAt(now)).None? && Priced(inv)
      && Get(data, "orderId").value == Some(JNum(inv.orderId))
      && OrderById(db.orders, inv.orderId).Some? && ClientById(db.clients, OrderById(db.orders, inv.orderId).value.clientId).Some?
      && parseDate(Get(data, "issueDate").value.value) == Some(inv.issueDate)
      && parseDate(Get(data, "dueDate").value.value) == Some(inv.dueDate)
      && inv.status == Get(data, "status").value.value
      && Parsed(Get(data, "items").value.value) == Some(inv.items)
      && Total(Get(data, "items").value.value) == Some(inv.totalAmount)
      && Some(PartiesOfInvoice(inv))
         == PartiesFor(DirectionOf(data), ClientById(db.clients, OrderById(db.orders, inv.orderId).value.clientId).value.id, Claim(user, key))
  {
    var orderId := Get(data, "orderId").value;
    var issueDate := Get(data, "issueDate").value;
    var dueDate := Get(data, "dueDate").value;
    var status := Get(data, "status").value;
    var items := Get(data, "items").value;
    if MissingField(data) then Fail(400, MissingFields, db)
    else if DueNotAfter(parseDate, issueDate.value, dueDate.value) then Fail(400, DueNotAfterIssue, db)
    else match ItemsProblem(items.value)
      case Some(ItemThrows) => Fail(500, CreateFailed, db)
      case Some(p) => Fail(400, MessageOf(p), db)
      case None =>
        if !db.online || !orderId.value.JNum? then Fail(500, CreateFailed, db)
        else match OrderById(db.orders, orderId.value.n)
          case None => Fail(400, NoOrderOrClient, db)
          case Some(order) =>
            match ClientById(db.clients, order.clientId)
            case None => Fail(400, NoOrderOrClient, db)
            case Some(client) =>
              match PartiesFor(DirectionOf(data), client.id, Claim(user, key))
              case None => Fail(400, BadDirection, db)
              case Some(parties) =>
                var number := NumberAt(now);
                if InvoiceByNumber(db.invoices, number).Some? then Fail(400, DuplicateNumber, db)
                else
                  var issue := parseDate(issueDate.value);
                  var due := parseDate(dueDate.value);
                  var total := Total(items.value);
                  var lines := Parsed(items.value);
                  if issue.None? || due.None? || total.None? || lines.None? then Fail(500, CreateFailed, db)
                  else
                    TotalMatchesParsed(items.value);
                    var inv := Invoice(NextId(InvoiceIds(db.invoices)), number, order.id, issue.value, due.value,
                      status.value, total.value,
                      parties.issuerUserId, parties.issuerClientId, parties.recipientUserId, parties.recipientClientId,
                      lines.value);
                    Handled(JsonReply(201, InvoiceBody(inv)), db.(invoices := db.invoices + [inv]), [])
  }

  /** `POST`. The token gate runs outside the try; inside it every failure,
      a refused token included, is the same 500. As written, the user side
      of the parties is the verified payload's `id`. */
  function HandlePost(lib: Jwt.Library, parseDate: Json -> Option<int>, req: Request, db: Db, secret: Option<string>, now: int): (h: Handled)
    ensures h.sent == [] && h.reply.status in {201, 400, 401, 500}
    ensures h.reply.status != 201 ==> h.db == db
    ensures TokenOf(req).Err? ==> h.reply == TokenOf(req).error
    ensures h.reply.status == 201 ==>
      TokenOf(req).Ok? && LibAuth.VerifyToken(lib, TokenOf(req).value, secret, now).Ok?
      && h.reply.body.InvoiceBody? && h.db == db.(invoices := db.invoices + [h.reply.body.invoice])
      && Priced(h.reply.body.invoice) && h.reply.body.invoice.invoiceNumber == NumberAt(now)
      && req.body.Some? && !req.body.value.JNull?
      && var inv := h.reply.body.invoice;
      OrderById(db.orders, inv.orderId).Some? && ClientById(db.clients, OrderById(db.orders, inv.orderId).value.clientId).Some?
      && Some(PartiesOfInvoice(inv))
         == PartiesAsWritten(DirectionOf(req.body.value), ClientById(db.clients, OrderById(db.orders, inv.orderId).value.clientId).value.id,
              LibAuth.VerifyToken(lib, TokenOf(req).value, secret, now).value)
  {
    match TokenOf(req)
    case Err(reply) => Handled(reply, db, [])
    case Ok(token) =>
      match LibAuth.VerifyToken(lib, token, secret, now)
      case Err(_) => Fail(500, CreateFailed, db)
      case Ok(user) =>
        if req.body.None? || req.body.value.JNull? then Fail(500, CreateFailed, db)
        else Create(parseDate, req.body.value, user, AsWrittenKey, db, now)
  }

  // --------------------------------------------------------------- lemmas

  /** The same refused token is 401 on GET but 500 on POST. */
  lemma RefusedTokenStatus(lib: Jwt.Library, parseDate: Json -> Option<int>, req: Request, db: Db, secret: Option<string>, now: int)
    requires TokenOf(req).Ok? && Jwt.Configured(secret)
    requires Jwt.Verify(lib, TokenOf(req).value, secret, now).Err?
    ensures HandleGet(lib, req, db, secret, now) == JsonReply(401, ErrorBody(InvalidToken))
    ensures HandlePost(lib, parseDate, req, db, secret, now) == Fail(500, CreateFailed, db)
  {
  }

  /** A date pair in the wrong order is refused before the items are read. */
  lemma DueDateOrder(parseDate: Json -> Option<int>, data: Json, user: map<string, Json>, key: string, db: Db, now: int)
    requires !data.JNull? && !MissingField(data)
    requires DueNotAfter(parseDate, Get(data, "issueDate").value.value, Get(data, "dueDate").value.value)
    ensures Create(parseDate, data, user, key, db, now) == Fail(400, DueNotAfterIssue, db)
  {
  }

  /** An unparsable date passes the order check but never produces an
      invoice. */
  lemma InvalidDateNotCaughtEarly(parseDate: Json -> Option<int>, data: Json, user: map<string, Json>, key: string, db: Db, now: int)
    requires !data.JNull? && !MissingField(data)
    requires parseDate(Get(data, "issueDate").value.value).None?
    ensures Create(parseDate, data, user, key, db, now).reply != JsonReply(400, ErrorBody(DueNotAfterIssue))
    ensures Create(parseDate, data, user, key, db, now).reply.status != 201
  {
    assert NoDescription[0] != DueNotAfterIssue[0] && BadQuantity[0] != DueNotAfterIssue[0];
    assert NoOrderOrClient[0] != DueNotAfterIssue[0] && BadDirection[0] != DueNotAfterIssue[0];
    assert DuplicateNumber[0] != DueNotAfterIssue[0] && MissingFields[0] != DueNotAfterIssue[0];
    assert BadUnitPrice[0] != DueNotAfterIssue[0];
  }

  /** The first offending item decides the reply. */
  lemma ItemProblemDecides(parseDate: Json -> Option<int>, data: Json, user: map<string, Json>, key: string, db: Db, now: int, i: int)
    requires !data.JNull? && !MissingField(data)
    requires !DueNotAfter(parseDate, Get(data, "issueDate").value.value, Get(data, "dueDate").value.value)
    requires var items := Get(data, "items").value.value;
      items.JArr? && 0 <= i < |items.elems| && ItemCheck(items.elems[i]).Some?
      && forall j :: 0 <= j < i ==> ItemCheck(items.elems[j]).None?
    ensures var p := ItemCheck(Get(data, "items").value.value.elems[i]).value;
      Create(parseDate, data, user, key, db, now) == Fail(if p == ItemThrows then 500 else 400, MessageOf(p), db)
  {
    FirstProblemAt(Get(data, "items").value.value.elems, i);
  }

  /** A missing order is reported even when `direction` is invalid too:
      the lookup comes first. */
  lemma OrderBeforeDirection(parseDate: Json -> Option<int>, data: Json, user: map<string, Json>, key: string, db: Db, now: int)
    requires !data.JNull? && !MissingField(data)
    requires !DueNotAfter(parseDate, Get(data, "issueDate").value.value, Get(data, "dueDate").value.value)
    requires ItemsProblem(Get(data, "items").value.value).None?
    requires db.online && Get(data, "orderId").value.value.JNum?
    requires OrderById(db.orders, Get(data, "orderId").value.value.n).None?
    ensures Create(parseDate, data, user, key, db, now) == Fail(400, NoOrderOrClient, db)
  {
  }

  /** With the order and client found, an unknown direction is a 400 and
      nothing is stored. */
  lemma UnknownDirection(parseDate: Json -> Option<int>, data: Json, user: map<string, Json>, key: string, db: Db, now: int)
    requires !data.JNull? && !MissingField(data)
    requires !DueNotAfter(parseDate, Get(data, "issueDate").value.value, Get(data, "dueDate").value.value)
    requires ItemsProblem(Get(data, "items").value.value).None?
    requires db.online && Get(data, "orderId").value.value.JNum?
    requires var order := OrderById(db.orders, Get(data, "orderId").value.value.n);
      order.Some? && ClientById(db.clients, order.value.clientId).Some?
    requires DirectionOf(data) != JStr(ClientToUser) && DirectionOf(data) != JStr(UserToClient)
    ensures Create(parseDate, data, user, key, db, now) == Fail(400, BadDirection, db)
  {
  }

  /** A number already in use is a 400 and nothing is stored. */
  lemma DuplicateNumberRefused(parseDate: Json -> Option<int>, data: Json, user: map<string, Json>, key: string, db: Db, now: int)
    requires !data.JNull? && !MissingField(data)
    requires !DueNotAfter(parseDate, Get(data, "issueDate").value.value, Get(data, "dueDate").value.value)
    requires ItemsProblem(Get(data, "items").value.value).None?
    requires db.online && Get(data, "orderId").value.value.JNum?
    requires var order := OrderById(db.orders, Get(data, "orderId").value.value.n);
      order.Some? && ClientById(db.clients, order.value.clientId).Some?
    requires DirectionOf(data) == JStr(ClientToUser) || DirectionOf(data) == JStr(UserToClient)
    requires InvoiceByNumber(db.invoices, NumberAt(now)).Some?
    ensures Create(parseDate, data, user, key, db, now) == Fail(400, DuplicateNumber, db)
  {
  }

  /** Without `direction` the client issues and the user receives. */
  lemma DefaultDirection(parseDate: Json -> Option<int>, data: Json, user: map<string, Json>, key: string, db: Db, now: int)
    requires data.JObj? && "direction" !in data.fields
    ensures var h := Create(parseDate, data, user, key, db, now);
      h.reply.status == 201 ==>
        h.reply.body.invoice.issuerUserId.None? && h.reply.body.invoice.issuerClientId.Some?
        && h.reply.body.invoice.recipientUserId == Claim(user, key) && h.reply.body.invoice.recipientClientId.None?
  {
  }

  /** As written, an invoice created for a session token records no user:
      only the client side of the parties is set. */
  lemma AsWrittenCreateLosesUser(parseDate: Json -> Option<int>, data: Json, userId: int, secret: string, db: Db, now: int)
    requires !data.JNull?
    ensures var h := Create(parseDate, data, SessionPayload(userId, secret, now), AsWrittenKey, db, now);
      h.reply.status == 201 ==>
        SetCount(PartiesOfInvoice(h.reply.body.invoice)) == 1
        && h.reply.body.invoice.issuerUserId.None? && h.reply.body.invoice.recipientUserId.None?
  {
    var h := Create(parseDate, data, SessionPayload(userId, secret, now), AsWrittenKey, db, now);
    if h.reply.status == 201 {
      AsWrittenLosesUser(DirectionOf(data), ClientById(db.clients, OrderById(db.orders, h.reply.body.invoice.orderId).value.clientId).value.id, userId, secret, now);
    }
  }

  /** Read from `userId`, an invoice created for a session token records
      exactly two parties: the order's client and the token's user. */
  lemma CorrectedCreateKeepsUser(parseDate: Json -> Option<int>, data: Json, userId: int, secret: string, db: Db, now: int)
    requires !data.JNull?
    ensures var h := Create(parseDate, data, SessionPayload(userId, secret, now), SessionKey, db, now);
      h.reply.status == 201 ==>
        var inv := h.reply.body.invoice;
        SetCount(PartiesOfInvoice(inv)) == 2
        && (inv.issuerUserId == Some(JNum(userId)) || inv.recipientUserId == Some(JNum(userId)))
        && (inv.issuerClientId == Some(OrderById(db.orders, inv.orderId).value.clientId)
            || inv.recipientClientId == Some(OrderById(db.orders, inv.orderId).value.clientId))
  {
    var h := Create(parseDate, data, SessionPayload(userId, secret, now), SessionKey, db, now);
    if h.reply.status == 201 {
      ExactlyTwoParties(DirectionOf(data), ClientById(db.clients, OrderById(db.orders, h.reply.body.invoice.orderId).value.clientId).value.id, userId, secret, now);
    }
  }
}
