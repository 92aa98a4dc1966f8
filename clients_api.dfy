/**
 * pages/api/clients/index.ts: the Pages-router client collection. GET
 * lists every client; POST creates one from six required fields; any
 * other method is 405. Next.js parses the body before the handler runs,
 * so malformed JSON is its 400 whatever the method. The POST body is
 * destructured before the try block, so a `null` body escapes the handler.
 */
module ClientsApi {
  import opened Wrappers
  import opened Js
  import opened Store
  import opened Http

  const FetchFailed := "取引先の取得に失敗しました。"
  const MissingFields := "必要な情報が不足しています。"
  const CreateFailed := "取引先の作成に失敗しました。"

  /** The six fields of a client, in the order they are destructured. */
  const Fields := ["companyName", "address", "contactName", "contactEmail", "contactPhone", "registrationNumber"]

  /** The posted value of field `k`. */
  function Field(body: Json, k: nat): Option<Json>
    requires !body.JNull? && k < |Fields|
  {
    Get(body, Fields[k]).value
  }

  /** The text of a truthy field the store accepts as a string column. */
  predicate Text(v: Option<Json>) {
    v.Some? && v.value.JStr?
  }

  function TextOf(v: Option<Json>): string
    requires Text(v)
  {
    v.value.s
  }

  /** The client the store creates for a body whose six fields are strings. */
  function NewClient(db: Db, body: Json): (c: Client)
    requires !body.JNull? && forall k :: 0 <= k < |Fields| ==> Text(Field(body, k))
    ensures c.id == NextId(ClientIds(db.clients)) && ClientById(db.clients, c.id).None?
    ensures c.companyName == TextOf(Field(body, 0)) && c.address == TextOf(Field(body, 1))
      && c.contactName == TextOf(Field(body, 2)) && c.contactEmail == TextOf(Field(body, 3))
      && c.contactPhone == TextOf(Field(body, 4)) && c.registrationNumber == TextOf(Field(body, 5))
  {
    var c := Client(NextId(ClientIds(db.clients)), TextOf(Field(body, 0)), TextOf(Field(body, 1)), TextOf(Field(body, 2)),
      TextOf(Field(body, 3)), TextOf(Field(body, 4)), TextOf(Field(body, 5)));
    assert forall i :: 0 <= i < |db.clients| ==> db.clients[i].id != c.id by {
      forall i | 0 <= i < |db.clients| ensures db.clients[i].id != c.id {
        assert ClientIds(db.clients)[i] == db.clients[i].id;
      }
    }
    c
  }

  /** `handler(req, res)`. */
  function Handler(req: Request, db: Db): (h: Handled)
    ensures h.sent == [] && h.reply.status in {200, 201, 400, 405, 500}
    ensures h.reply.status == 405 <==> req.body.Some? && req.verb != "GET" && req.verb != "POST"
    ensures h.reply.status == 405 ==> h.reply == Reply(405, NotAllowedText(req.verb), ["GET", "POST"])
    ensures h.reply.status != 201 ==> h.db == db
    ensures req.body.None? ==> h == Handled(InvalidJson, db, [])
    ensures req.verb == "GET" && req.body.Some? ==> h == Handled(if db.online then JsonReply(200, ClientsBody(db.clients)) else JsonReply(500, ErrorBody(FetchFailed)), db, [])
    ensures h.reply.status == 201 ==>
      req.verb == "POST" && req.body.Some? && !req.body.value.JNull?
      && (forall k :: 0 <= k < |Fields| ==> Text(Field(req.body.value, k)))
      && h.reply.body == ClientBody(NewClient(db, req.body.value))
      && h.db == db.(clients := db.clients + [NewClient(db, req.body.value)])
  {
    if req.body.None? then Handled(InvalidJson, db, [])
    else if req.verb == "GET" then
      Handled(if db.online then JsonReply(200, ClientsBody(db.clients)) else JsonReply(500, ErrorBody(FetchFailed)), db, [])
    else if req.verb == "POST" then
      if req.body.value.JNull? then Handled(Crash, db, [])
      else
        var body := req.body.value;
        if exists k :: 0 <= k < |Fields| && Falsy(Field(body, k)) then Handled(JsonReply(400, ErrorBody(MissingFields)), db, [])
        else if !db.online || !(forall k :: 0 <= k < |Fields| ==> Text(Field(body, k))) then
          Handled(JsonReply(500, ErrorBody(CreateFailed)), db, [])
        else
          var c := NewClient(db, body);
          Handled(JsonReply(201, ClientBody(c)), db.(clients := db.clients + [c]), [])
    else Handled(Reply(405, NotAllowedText(req.verb), ["GET", "POST"]), db, [])
  }

  /** The JSON body of a form with the six fields. */
  function Form(companyName: string, address: string, contactName: string, contactEmail: string,
                contactPhone: string, registrationNumber: string): Json
  {
    JObj(map["companyName" := JStr(companyName), "address" := JStr(address), "contactName" := JStr(contactName),
             "contactEmail" := JStr(contactEmail), "contactPhone" := JStr(contactPhone),
             "registrationNumber" := JStr(registrationNumber)])
  }

  /** Any one empty field is a 400 and nothing is created, whether or not
      the store is up. */
  lemma EmptyFieldRefused(req: Request, db: Db, body: Json, k: nat)
    requires req.verb == "POST" && req.body == Some(body) && !body.JNull?
    requires k < |Fields| && Falsy(Field(body, k))
    ensures Handler(req, db) == Handled(JsonReply(400, ErrorBody(MissingFields)), db, [])
  {
  }

  /** A complete form creates exactly that client, with a fresh id, and
      answers 201 with it. */
  lemma CompleteFormCreates(req: Request, db: Db, companyName: string, address: string, contactName: string,
                            contactEmail: string, contactPhone: string, registrationNumber: string)
    requires req.verb == "POST" && db.online
    requires req.body == Some(Form(companyName, address, contactName, contactEmail, contactPhone, registrationNumber))
    requires companyName != "" && address != "" && contactName != ""
    requires contactEmail != "" && contactPhone != "" && registrationNumber != ""
    ensures var h := Handler(req, db);
      h.reply.status == 201 && h.reply.body.ClientBody?
      && h.reply.body.client == Client(h.reply.body.client.id, companyName, address, contactName, contactEmail, contactPhone, registrationNumber)
      && ClientById(db.clients, h.reply.body.client.id).None?
      && h.db.clients == db.clients + [h.reply.body.client]
  {
    var body := req.body.value;
    FormFields(companyName, address, contactName, contactEmail, contactPhone, registrationNumber);
    forall k | 0 <= k < |Fields| ensures Text(Field(body, k)) && !Falsy(Field(body, k)) {
      assert k == 0 || k == 1 || k == 2 || k == 3 || k == 4 || k == 5;
    }
  }

  /** Each field of a form reads back as the string it was built from. */
  lemma FormFields(companyName: string, address: string, contactName: string, contactEmail: string,
                   contactPhone: string, registrationNumber: string)
    ensures var body := Form(companyName, address, contactName, contactEmail, contactPhone, registrationNumber);
      Field(body, 0) == Some(JStr(companyName)) && Field(body, 1) == Some(JStr(address))
      && Field(body, 2) == Some(JStr(contactName)) && Field(body, 3) == Some(JStr(contactEmail))
      && Field(body, 4) == Some(JStr(contactPhone)) && Field(body, 5) == Some(JStr(registrationNumber))
  {
  }

  /** GET is the whole table, in store order. */
  lemma ListAll(req: Request, db: Db)
    requires req.verb == "GET" && req.body.Some? && db.online
    ensures Handler(req, db).reply == JsonReply(200, ClientsBody(db.clients))
  {
  }
}
