/**
 * The relational store as values: one sequence per table. `online` false
 * stands for a store that throws on every call. ids are the store's
 * auto-incremented integers.
 */
module Store {
  import opened Wrappers
  import opened Js

  datatype User = User(id: int, name: string, email: string, password: string)

  /** The `{ id, name, email }` projection the handlers return. */
  datatype Profile = Profile(id: int, name: string, email: string)

  function ProfileOf(u: User): Profile {
    Profile(u.id, u.name, u.email)
  }

  /** A row of the `resetToken` table; `createdAt` is set by one of the two
      reset handlers only. Times are milliseconds. */
  datatype ResetToken = ResetToken(token: string, userId: int, createdAt: Option<int>, expires: int)

  datatype Client = Client(
    id: int,
    companyName: string,
    address: string,
    contactName: string,
    contactEmail: string,
    contactPhone: string,
    registrationNumber: string)

  /** A stored line item of an order or an invoice. */
  datatype LineItem = LineItem(description: Option<Json>, quantity: int, unitPrice: int, totalPrice: int)

  /** An order; `orderNumber` is a unique column. */
  datatype Order = Order(
    id: int,
    orderNumber: string,
    clientId: int,
    issueDate: int,
    dueDate: int,
    status: Json,
    totalAmount: int,
    items: seq<LineItem>)

  /** The four party ids are nullable columns (None is null);
      `invoiceNumber` is a unique column. */
  datatype Invoice = Invoice(
    id: int,
    invoiceNumber: string,
    orderId: int,
    issueDate: int,
    dueDate: int,
    status: Json,
    totalAmount: int,
    issuerUserId: Option<Json>,
    issuerClientId: Option<int>,
    recipientUserId: Option<Json>,
    recipientClientId: Option<int>,
    items: seq<LineItem>)

  datatype Db = Db(
    users: seq<User>,
    resetTokens: seq<ResetToken>,
    clients: seq<Client>,
    orders: seq<Order>,
    invoices: seq<Invoice>,
    online: bool)

  /** `findUnique({ where: { email } })`. */
  function UserByEmail(users: seq<User>, email: string): (r: Option<User>)
    ensures r.Some? ==> r.value in users && r.value.email == email
    ensures r.None? <==> forall i :: 0 <= i < |users| ==> users[i].email != email
  {
    if users == [] then None
    else if users[0].email == email then Some(users[0])
    else UserByEmail(users[1..], email)
  }

  /** `findUnique({ where: { id } })`. */
  function UserById(users: seq<User>, id: int): (r: Option<User>)
    ensures r.Some? ==> r.value in users && r.value.id == id
    ensures r.None? <==> forall i :: 0 <= i < |users| ==> users[i].id != id
  {
    if users == [] then None
    else if users[0].id == id then Some(users[0])
    else UserById(users[1..], id)
  }

  function ClientById(clients: seq<Client>, id: int): (r: Option<Client>)
    ensures r.Some? ==> r.value in clients && r.value.id == id
    ensures r.None? <==> forall i :: 0 <= i < |clients| ==> clients[i].id != id
  {
    if clients == [] then None
    else if clients[0].id == id then Some(clients[0])
    else ClientById(clients[1..], id)
  }

  function OrderById(orders: seq<Order>, id: int): (r: Option<Order>)
    ensures r.Some? ==> r.value in orders && r.value.id == id
    ensures r.None? <==> forall i :: 0 <= i < |orders| ==> orders[i].id != id
  {
    if orders == [] then None
    else if orders[0].id == id then Some(orders[0])
    else OrderById(orders[1..], id)
  }

  function InvoiceById(invoices: seq<Invoice>, id: int): (r: Option<Invoice>)
    ensures r.Some? ==> r.value in invoices && r.value.id == id
    ensures r.None? <==> forall i :: 0 <= i < |invoices| ==> invoices[i].id != id
  {
    if invoices == [] then None
    else if invoices[0].id == id then Some(invoices[0])
    else InvoiceById(invoices[1..], id)
  }

  /** `findUnique({ where: { orderNumber } })`. */
  function OrderByNumber(orders: seq<Order>, orderNumber: string): (r: Option<Order>)
    ensures r.Some? ==> r.value in orders && r.value.orderNumber == orderNumber
    ensures r.None? <==> forall i :: 0 <= i < |orders| ==> orders[i].orderNumber != orderNumber
  {
    if orders == [] then None
    else if orders[0].orderNumber == orderNumber then Some(orders[0])
    else OrderByNumber(orders[1..], orderNumber)
  }

  /** `findUnique({ where: { invoiceNumber } })`. */
  function InvoiceByNumber(invoices: seq<Invoice>, invoiceNumber: string): (r: Option<Invoice>)
    ensures r.Some? ==> r.value in invoices && r.value.invoiceNumber == invoiceNumber
    ensures r.None? <==> forall i :: 0 <= i < |invoices| ==> invoices[i].invoiceNumber != invoiceNumber
  {
    if invoices == [] then None
    else if invoices[0].invoiceNumber == invoiceNumber then Some(invoices[0])
    else InvoiceByNumber(invoices[1..], invoiceNumber)
  }

  /** The next auto-increment value: above every id in use. */
  function NextId(ids: seq<int>): (r: int)
    ensures forall i :: 0 <= i < |ids| ==> ids[i] < r
  {
    if ids == [] then 1
    else
      var rest := NextId(ids[1..]);
      if ids[0] < rest then rest else ids[0] + 1
  }

  function UserIds(users: seq<User>): (ids: seq<int>)
    ensures |ids| == |users| && forall i :: 0 <= i < |users| ==> ids[i] == users[i].id
  {
    seq(|users|, i requires 0 <= i < |users| => users[i].id)
  }

  function OrderIds(orders: seq<Order>): (ids: seq<int>)
    ensures |ids| == |orders| && forall i :: 0 <= i < |orders| ==> ids[i] == orders[i].id
  {
    seq(|orders|, i requires 0 <= i < |orders| => orders[i].id)
  }

  function InvoiceIds(invoices: seq<Invoice>): (ids: seq<int>)
    ensures |ids| == |invoices| && forall i :: 0 <= i < |invoices| ==> ids[i] == invoices[i].id
  {
    seq(|invoices|, i requires 0 <= i < |invoices| => invoices[i].id)
  }

  function ClientIds(clients: seq<Client>): (ids: seq<int>)
    ensures |ids| == |clients| && forall i :: 0 <= i < |clients| ==> ids[i] == clients[i].id
  {
    seq(|clients|, i requires 0 <= i < |clients| => clients[i].id)
  }
}
