/**
 * lib/reminder.ts: the daily job that mails a reminder for every unpaid
 * invoice falling due within three days (overdue ones included). The
 * selection, the recipient rule and the mail it sends are shared with
 * app/api/reminders/route.ts. Mail delivery is the parameter `accept`:
 * whether the n-th send attempt of a run resolves.
 */
module ReminderJob {
  import opened Wrappers
  import opened Js
  import opened Store
  import opened Http

  const Unpaid := "未払い"
  const DayMillis := 86400000

  /** `threeDaysLater`: three days after `now` (an integer day count, with
      no daylight-saving shift). */
  function Horizon(now: int): int {
    now + 3 * DayMillis
  }

  /** The `findMany` filter: status `'未払い'` and `dueDate <= threeDaysLater`. */
  predicate IsDue(inv: Invoice, now: int) {
    inv.status == JStr(Unpaid) && inv.dueDate <= Horizon(now)
  }

  /** The selected invoices, in table order. */
  function Due(invoices: seq<Invoice>, now: int): (r: seq<Invoice>)
    ensures |r| <= |invoices|
    ensures forall k :: 0 <= k < |r| ==> IsDue(r[k], now)
  {
    if invoices == [] then []
    else
      var front := Due(invoices[..|invoices| - 1], now);
      var last := invoices[|invoices| - 1];
      if IsDue(last, now) then front + [last] else front
  }

  /** An invoice is selected exactly when it is in the table and due. */
  lemma {:induction false} DueIff(invoices: seq<Invoice>, now: int, inv: Invoice)
    ensures inv in Due(invoices, now) <==> inv in invoices && IsDue(inv, now)
  {
    if invoices != [] {
      var front := invoices[..|invoices| - 1];
      DueIff(front, now, inv);
      assert invoices == front + [invoices[|invoices| - 1]];
    }
  }

  /** Overdue invoices are selected too: the window has no lower end. */
  lemma OverdueSelected(invoices: seq<Invoice>, now: int, inv: Invoice)
    requires inv in invoices && inv.status == JStr(Unpaid) && inv.dueDate <= now
    ensures inv in Due(invoices, now)
  {
    DueIff(invoices, now, inv);
  }

  /** `invoice.recipientClient?.contactEmail` when it is truthy. */
  function Recipient(inv: Invoice, clients: seq<Client>): (r: Option<string>)
    ensures r.Some? <==>
      inv.recipientClientId.Some? && ClientById(clients, inv.recipientClientId.value).Some?
      && ClientById(clients, inv.recipientClientId.value).value.contactEmail != ""
    ensures r.Some? ==> r.value == ClientById(clients, inv.recipientClientId.value).value.contactEmail
  {
    if inv.recipientClientId.None? then None
    else match ClientById(clients, inv.recipientClientId.value)
      case None => None
      case Some(c) => if c.contactEmail == "" then None else Some(c.contactEmail)
  }

  function Subject(invoiceNumber: string): string {
    "リマインダー: 請求書 " + invoiceNumber + " の支払い期限が近づいています"
  }

  /** The reminder for one invoice, to the given address. */
  function ReminderFor(inv: Invoice, to: string): Mail {
    Mail(to, Subject(inv.invoiceNumber), None)
  }

  /** The mails a run sends when every attempt resolves: one per invoice
      with a recipient, in order; the others are skipped. */
  function Planned(invoices: seq<Invoice>, clients: seq<Client>): (r: seq<Mail>)
    ensures |r| <= |invoices|
  {
    if invoices == [] then []
    else
      var front := Planned(invoices[..|invoices| - 1], clients);
      var last := invoices[|invoices| - 1];
      match Recipient(last, clients)
      case None => front
      case Some(to) => front + [ReminderFor(last, to)]
  }

  /** `m` is the reminder of invoice `i`, to its recipient. */
  predicate ReminderOf(invoices: seq<Invoice>, clients: seq<Client>, i: int, m: Mail) {
    0 <= i < |invoices| && Recipient(invoices[i], clients).Some?
    && m == ReminderFor(invoices[i], Recipient(invoices[i], clients).value)
  }

  /** Every planned mail is the reminder of one of the invoices, sent to
      its recipient's contact address. */
  lemma {:induction false} PlannedAddressed(invoices: seq<Invoice>, clients: seq<Client>, k: int)
    requires 0 <= k < |Planned(invoices, clients)|
    ensures exists i :: ReminderOf(invoices, clients, i, Planned(invoices, clients)[k])
  {
    var front := invoices[..|invoices| - 1];
    var last := invoices[|invoices| - 1];
    if k < |Planned(front, clients)| {
      PlannedAddressed(front, clients, k);
      var i :| ReminderOf(front, clients, i, Planned(front, clients)[k]);
      assert invoices[i] == front[i];
      assert ReminderOf(invoices, clients, i, Planned(invoices, clients)[k]);
    } else {
      assert ReminderOf(invoices, clients, |invoices| - 1, Planned(invoices, clients)[k]);
    }
  }

  /** An invoice without a usable recipient adds no mail. */
  lemma SkippedSendsNothing(invoices: seq<Invoice>, clients: seq<Client>, inv: Invoice)
    requires Recipient(inv, clients).None?
    ensures Planned(invoices + [inv], clients) == Planned(invoices, clients)
  {
    assert (invoices + [inv])[..|invoices|] == invoices;
  }

  /** With every invoice addressed, one mail per invoice. */
  lemma {:induction false} AllAddressed(invoices: seq<Invoice>, clients: seq<Client>)
    requires forall i :: 0 <= i < |invoices| ==> Recipient(invoices[i], clients).Some?
    ensures |Planned(invoices, clients)| == |invoices|
  {
    if invoices != [] {
      AllAddressed(invoices[..|invoices| - 1], clients);
    }
  }

  /** `sendReminderEmails()`: load the due invoices, then send in order.
      The first send that rejects ends the run (the outer catch swallows
      it), so what was sent is the longest prefix of the plan whose
      attempts all resolved. A store that throws sends nothing. */
  method SendReminderEmails(db: Db, now: int, accept: nat -> bool) returns (sent: seq<Mail>)
    ensures !db.online ==> sent == []
    ensures db.online ==>
      var planned := Planned(Due(db.invoices, now), db.clients);
      sent <= planned
      && (forall k :: 0 <= k < |sent| ==> accept(k))
      && (|sent| < |planned| ==> !accept(|sent|))
  {
    sent := [];
    if !db.online {
      return;
    }
    var invoices := Due(db.invoices, now);
    var i := 0;
    while i < |invoices|
      invariant 0 <= i <= |invoices|
      invariant sent == Planned(invoices[..i], db.clients)
      invariant forall k :: 0 <= k < |sent| ==> accept(k)
    {
      var invoice := invoices[i];
      PlannedStep(invoices, db.clients, i);
      var to := Recipient(invoice, db.clients);
      if to.None? {
        i := i + 1;
        continue;
      }
      if !accept(|sent|) {
        PlannedPrefix(invoices, db.clients, i + 1);
        PrefixOfPrefix(sent, Planned(invoices[..i + 1], db.clients), Planned(invoices, db.clients));
        return;
      }
      sent := sent + [ReminderFor(invoice, to.value)];
      i := i + 1;
    }
    assert invoices[..i] == invoices;
  }

  /** A proper prefix of a prefix is a proper prefix. */
  lemma PrefixOfPrefix(a: seq<Mail>, b: seq<Mail>, c: seq<Mail>)
    requires |a| < |b| && a == b[..|a|] && b <= c
    ensures a <= c && |a| < |c|
  {
    assert c[..|a|] == b[..|a|];
  }

  /** One more invoice extends the plan by its reminder, if any. */
  lemma PlannedStep(invoices: seq<Invoice>, clients: seq<Client>, i: int)
    requires 0 <= i < |invoices|
    ensures Planned(invoices[..i + 1], clients) ==
      Planned(invoices[..i], clients)
      + (if Recipient(invoices[i], clients).Some? then [ReminderFor(invoices[i], Recipient(invoices[i], clients).value)] else [])
  {
    assert invoices[..i + 1][..i] == invoices[..i];
  }

  /** The plan of a prefix is a prefix of the plan. */
  lemma {:induction false} PlannedPrefix(invoices: seq<Invoice>, clients: seq<Client>, n: int)
    requires 0 <= n <= |invoices|
    ensures Planned(invoices[..n], clients) <= Planned(invoices, clients)
    decreases |invoices| - n
  {
    if n < |invoices| {
      PlannedPrefix(invoices, clients, n + 1);
      assert invoices[..n + 1][..n] == invoices[..n];
    } else {
      assert invoices[..n] == invoices;
    }
  }
}
