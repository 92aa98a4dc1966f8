/**
 * Requests, JSON replies, cookies and outgoing mail, as the handlers see
 * them. `Response` is the one mutable object: Next.js lets a handler write
 * cookies into a response after creating it.
 */
module Http {
  import opened Wrappers
  import opened Js
  import opened Store

  datatype Url = Url(origin: string, path: string)

  /** `new URL(path, base)` for an absolute path. */
  function Resolve(path: string, base: Url): (u: Url)
    requires |path| > 0 && path[0] == '/'
    ensures u.origin == base.origin && u.path == path
  {
    Url(base.origin, path)
  }

  datatype SameSite = Lax | Strict

  /** The attributes handed to `response.cookies.set`; `expires` is a time
      in milliseconds. */
  datatype CookieOptions = CookieOptions(
    httpOnly: bool,
    secure: bool,
    path: Option<string>,
    maxAge: Option<int>,
    sameSite: Option<SameSite>,
    expires: Option<int>)

  datatype Cookie = Cookie(value: string, options: CookieOptions)

  /** A request: method (`verb`), URL, the raw `Cookie` header, the cookies Next.js
      parsed from it and the JSON body (None when the body is not JSON).
      For a Pages-router handler the body is what Next.js's body parser
      hands it: None for a malformed JSON body, an empty object for an
      empty one, and a string for a body of another content type. */
  datatype Request = Request(
    verb: string,
    url: Url,
    cookieHeader: Option<string>,
    cookies: map<string, string>,
    body: Option<Json>)

  /** `request.cookies.get(name)?.value`. */
  function CookieValue(req: Request, name: string): Option<string> {
    if name in req.cookies then Some(req.cookies[name]) else None
  }

  datatype Body =
    | ErrorBody(error: string)
    | MessageBody(message: string)
    | SuccessBody
    | ProfileBody(user: Profile)
    | RegisteredBody(profile: Profile, token: string)
    | UserRecordBody(record: User)
    | FieldErrorsBody(errors: map<string, string>)
    | ClientsBody(clients: seq<Client>)
    | ClientBody(client: Client)
    | OrderBody(order: Order)
    | OrderListBody(orders: seq<Order>)
    | InvoiceBody(invoice: Invoice)
    | InvoiceListBody(invoices: seq<Invoice>)
    | DueInvoicesBody(due: seq<Invoice>)
    | NotAllowedText(verb: string)
    /** The plain-text message of a request the body parser refuses. */
    | ParserErrorText(message: string)
    /** What Next.js answers when a handler throws. */
    | Unhandled

  /** Status, body and the `Allow` header (empty when not set). */
  datatype Reply = Reply(status: int, body: Body, allow: seq<string>)

  function JsonReply(status: int, body: Body): (r: Reply)
    ensures r.status == status && r.body == body && r.allow == []
  {
    Reply(status, body, [])
  }

  /** The Pages router parses the body before the handler runs, whatever
      the method, and answers malformed JSON itself. */
  const InvalidJson := Reply(400, ParserErrorText("Invalid JSON"), [])

  /** An exception that escapes a handler. */
  const Crash := JsonReply(500, Unhandled)

  /** An e-mail handed to the mail service; `link` is the URL it carries. */
  datatype Mail = Mail(to: string, subject: string, link: Option<string>)

  /** What a handler leaves behind: its reply, the store after its writes
      and the mails the mail service accepted. */
  datatype Handled = Handled(reply: Reply, db: Db, sent: seq<Mail>)

  /** A `NextResponse` whose cookie jar is written in place. */
  class Response {
    const reply: Reply
    var cookies: map<string, Cookie>

    constructor (reply: Reply)
      ensures this.reply == reply && cookies == map[]
    {
      this.reply := reply;
      cookies := map[];
    }

    /** `response.cookies.set(name, value, options)`. */
    method SetCookie(name: string, value: string, options: CookieOptions)
      modifies this
      ensures cookies == old(cookies)[name := Cookie(value, options)]
    {
      cookies := cookies[name := Cookie(value, options)];
    }

    /** Several `cookies.set` calls at once, made by a helper whose order of
        writes is not known; a later write of a name wins. */
    method SetCookies(writes: map<string, Cookie>)
      modifies this
      ensures cookies == old(cookies) + writes
    {
      cookies := cookies + writes;
    }
  }

  /** A `Set-Cookie` that deletes: its `expires` is not after `now`, or its
      max-age is not positive. */
  predicate Expired(c: Cookie, now: int) {
    (c.options.expires.Some? && c.options.expires.value <= now)
    || (c.options.maxAge.Some? && c.options.maxAge.value <= 0)
  }

  /** What a browser jar keeps of a `Set-Cookie`: an expired cookie is
      removed, any other one is stored under its name; the other cookies
      are untouched. */
  function ApplySetCookie(jar: map<string, string>, name: string, c: Cookie, now: int): (r: map<string, string>)
    ensures r.Keys <= jar.Keys + {name}
    ensures forall k :: k in jar && k != name ==> k in r && r[k] == jar[k]
    ensures Expired(c, now) ==> name !in r
    ensures !Expired(c, now) ==> name in r && r[name] == c.value
  {
    if Expired(c, now) then jar - {name} else jar[name := c.value]
  }
}
