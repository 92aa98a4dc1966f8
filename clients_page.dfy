/**
 * app/clients/page.tsx: the client list screen. Modelled are the filter
 * that derives the shown list from the loaded one, the category choices
 * built from the loaded clients, and the modal that edits one client.
 * `toLowerCase` is the parameter `lower`.
 */
module ClientsPage {
  import opened Wrappers
  import opened Js
  import opened Seqs

  const All := "すべて"

  datatype Category = Category(id: int, name: string)

  /** A loaded client, as far as the screen uses it. */
  datatype Listed = Listed(id: int, companyName: string, contactName: string, category: Option<Category>)

  /** The `filter` callback of `applyFilters`. */
  predicate Matches(lower: string -> string, c: Listed, searchTerm: string, categoryFilter: string) {
    (Includes(lower(c.companyName), lower(searchTerm)) || Includes(lower(c.contactName), lower(searchTerm)))
    && (categoryFilter == "" || categoryFilter == All || (c.category.Some? && c.category.value.name == categoryFilter))
  }

  /** `applyFilters`: the loaded clients that match, in their order. */
  function ApplyFilters(lower: string -> string, clients: seq<Listed>, searchTerm: string, categoryFilter: string): (r: seq<Listed>)
    ensures SubsequenceOf(r, clients)
    ensures forall c :: c in r <==> c in clients && Matches(lower, c, searchTerm, categoryFilter)
    ensures forall c {:trigger Count(r, c)} ::
      Count(r, c) == if Matches(lower, c, searchTerm, categoryFilter) then Count(clients, c) else 0
  {
    var keep := (c: Listed) => Matches(lower, c, searchTerm, categoryFilter);
    FilterSubsequence(clients, keep);
    FilterMembers(clients, keep);
    forall c ensures Count(Filter(clients, keep), c) == if keep(c) then Count(clients, c) else 0 {
      FilterCount(clients, keep, c);
    }
    Filter(clients, keep)
  }

  /** An empty search with no specific category shows every client. */
  lemma EverythingShown(lower: string -> string, clients: seq<Listed>, categoryFilter: string)
    requires lower("") == ""
    requires categoryFilter == "" || categoryFilter == All
    ensures ApplyFilters(lower, clients, "", categoryFilter) == clients
  {
    forall k | 0 <= k < |clients| ensures Matches(lower, clients[k], "", categoryFilter) {
      assert OccursAt(lower(clients[k].companyName), "", 0);
    }
    FilterAll(clients, (c: Listed) => Matches(lower, c, "", categoryFilter));
  }

  /** Once a specific category is chosen, a client without one is hidden. */
  lemma UncategorisedHidden(lower: string -> string, clients: seq<Listed>, searchTerm: string, categoryFilter: string, c: Listed)
    requires categoryFilter != "" && categoryFilter != All && c.category.None?
    ensures c !in ApplyFilters(lower, clients, searchTerm, categoryFilter)
  {
  }

  /** `client.category?.name` kept by `.filter(Boolean)`. */
  function NameOf(c: Listed): Option<string> {
    if c.category.Some? && c.category.value.name != "" then Some(c.category.value.name) else None
  }

  /** Some client carries the truthy category name `x`. */
  predicate Named(clients: seq<Listed>, x: string) {
    exists k :: 0 <= k < |clients| && NameOf(clients[k]) == Some(x)
  }

  /** The truthy category names, in client order, repeats included (the
      order is stated by `NamesOrder`). */
  function Names(clients: seq<Listed>): (r: seq<string>)
    ensures forall x :: x in r <==> Named(clients, x)
  {
    if clients == [] then []
    else
      var front := clients[..|clients| - 1];
      var rest := Names(front);
      assert forall x :: Named(front, x) ==> Named(clients, x) by {
        forall x | Named(front, x) ensures Named(clients, x) {
          var k :| 0 <= k < |front| && NameOf(front[k]) == Some(x);
          assert clients[k] == front[k];
        }
      }
      match NameOf(clients[|clients| - 1])
      case None => rest
      case Some(n) => rest + [n]
  }

  /** Index of the first client carrying the category name `x`. */
  function FirstClient(clients: seq<Listed>, x: string): (k: nat)
    requires Named(clients, x)
    ensures k < |clients| && NameOf(clients[k]) == Some(x)
    ensures forall j :: 0 <= j < k ==> NameOf(clients[j]) != Some(x)
  {
    if NameOf(clients[0]) == Some(x) then 0
    else
      assert Named(clients[1..], x) by {
        var k :| 0 <= k < |clients| && NameOf(clients[k]) == Some(x);
        assert clients[1..][k - 1] == clients[k];
      }
      1 + FirstClient(clients[1..], x)
  }

  /** A name already carried by an earlier client is first carried there. */
  lemma FirstClientFront(clients: seq<Listed>, x: string)
    requires clients != [] && Named(clients[..|clients| - 1], x)
    ensures Named(clients, x)
    ensures FirstClient(clients, x) == FirstClient(clients[..|clients| - 1], x)
  {
    var front := clients[..|clients| - 1];
    var i := FirstClient(front, x);
    assert clients[i] == front[i];
    assert forall k :: 0 <= k < i ==> NameOf(clients[k]) != Some(x) by {
      forall k | 0 <= k < i ensures NameOf(clients[k]) != Some(x) {
        assert clients[k] == front[k];
      }
    }
  }

  /** A name that first appears earlier in `Names` is first carried by an
      earlier client. */
  lemma {:induction false} NamesFirstOrder(clients: seq<Listed>, x: string, y: string)
    requires x in Names(clients) && y in Names(clients)
    requires FirstIndex(Names(clients), x) < FirstIndex(Names(clients), y)
    ensures FirstClient(clients, x) < FirstClient(clients, y)
  {
    var front := clients[..|clients| - 1];
    var rest := Names(front);
    var all := Names(clients);
    assert rest <= all && |all| <= |rest| + 1;
    if x in rest && y in rest {
      if all != rest {
        assert all[..|all| - 1] == rest;
        FirstIndexFront(all, x);
        FirstIndexFront(all, y);
      }
      NamesFirstOrder(front, x, y);
      FirstClientFront(clients, x);
      FirstClientFront(clients, y);
    } else if x in rest {
      // `y` is new with the last client, which is where it is first carried.
      FirstClientFront(clients, x);
    }
  }

  /** `Names` lists the names in the order of the clients that first carry
      them: of two names, the one first listed is first carried, and
      conversely. */
  lemma NamesOrder(clients: seq<Listed>, x: string, y: string)
    requires Named(clients, x) && Named(clients, y)
    ensures x in Names(clients) && y in Names(clients)
    ensures FirstIndex(Names(clients), x) < FirstIndex(Names(clients), y)
        <==> FirstClient(clients, x) < FirstClient(clients, y)
  {
    var all := Names(clients);
    if FirstIndex(all, x) < FirstIndex(all, y) {
      NamesFirstOrder(clients, x, y);
    } else if FirstIndex(all, y) < FirstIndex(all, x) {
      NamesFirstOrder(clients, y, x);
    } else {
      assert x == y;
    }
  }

  /** `[...new Set(names)]`: each name once, at its first appearance. */
  function Distinct(s: seq<string>): (r: seq<string>)
    ensures forall x :: x in r <==> x in s
    ensures forall i, j :: 0 <= i < j < |r| ==> r[i] != r[j]
  {
    if s == [] then []
    else
      var front := Distinct(s[..|s| - 1]);
      var last := s[|s| - 1];
      assert forall x :: x in s <==> x in s[..|s| - 1] || x == last by {
        assert s == s[..|s| - 1] + [last];
      }
      if last in front then front else front + [last]
  }

  /** Index of the first occurrence of `x` in `s`. */
  function FirstIndex(s: seq<string>, x: string): (i: nat)
    requires x in s
    ensures i < |s| && s[i] == x && forall j :: 0 <= j < i ==> s[j] != x
  {
    if s[0] == x then 0 else 1 + FirstIndex(s[1..], x)
  }

  /** The first occurrence of a value already in the front is in the front. */
  lemma FirstIndexFront(s: seq<string>, x: string)
    requires s != [] && x in s[..|s| - 1]
    ensures FirstIndex(s, x) == FirstIndex(s[..|s| - 1], x)
  {
    var i := FirstIndex(s[..|s| - 1], x);
    var j := FirstIndex(s, x);
    assert s[i] == x;
  }

  /** The distinct names come in order of first appearance. */
  lemma {:induction false} DistinctFirstAppearanceOrder(s: seq<string>)
    ensures forall i, j :: 0 <= i < j < |Distinct(s)| ==> FirstIndex(s, Distinct(s)[i]) < FirstIndex(s, Distinct(s)[j])
  {
    if s != [] {
      var pre := s[..|s| - 1];
      DistinctFirstAppearanceOrder(pre);
      var front := Distinct(pre);
      var r := Distinct(s);
      var last := s[|s| - 1];
      forall x | x in front ensures FirstIndex(s, x) == FirstIndex(pre, x) && FirstIndex(s, x) < |s| - 1 {
        FirstIndexFront(s, x);
      }
      if last !in front {
        assert last !in pre;
        assert FirstIndex(s, last) == |s| - 1;
      }
      forall i, j | 0 <= i < j < |r| ensures FirstIndex(s, r[i]) < FirstIndex(s, r[j]) {
        assert r[i] == front[i];
        if j < |front| {
          assert r[j] == front[j];
        }
      }
    }
  }

  /** `categoryNames`: `'すべて'` first, then the distinct truthy category
      names in order of first appearance. A category that is itself named
      `'すべて'` is listed a second time. */
  function CategoryNames(clients: seq<Listed>): (r: seq<string>)
    ensures |r| >= 1 && r[0] == All
    ensures forall x :: x in r[1..] <==> Named(clients, x)
    ensures forall i, j :: 1 <= i < j < |r| ==> r[i] != r[j]
    ensures forall i, j :: 1 <= i < j < |r| ==>
      Named(clients, r[i]) && Named(clients, r[j]) && FirstClient(clients, r[i]) < FirstClient(clients, r[j])
  {
    var all := Names(clients);
    var names := Distinct(all);
    assert ([All] + names)[1..] == names;
    DistinctFirstAppearanceOrder(all);
    forall i, j | 0 <= i < j < |names|
      ensures Named(clients, names[i]) && Named(clients, names[j])
      ensures FirstClient(clients, names[i]) < FirstClient(clients, names[j])
    {
      NamesOrder(clients, names[i], names[j]);
    }
    [All] + names
  }

  /** The modal's state: the client being edited (None for a new one) and
      whether the modal is shown. */
  class Modal {
    var selected: Option<Listed>
    var isOpen: bool

    /** A closed modal holds no selection. */
    predicate Valid()
      reads this
    {
      !isOpen ==> selected.None?
    }

    constructor ()
      ensures selected.None? && !isOpen && Valid()
    {
      selected := None;
      isOpen := false;
    }

    /** `openModal(client = null)`. */
    method Open(client: Option<Listed>)
      requires Valid()
      modifies this
      ensures selected == client && isOpen && Valid()
    {
      selected := client;
      isOpen := true;
    }

    /** `closeModal()`. */
    method Close()
      requires Valid()
      modifies this
      ensures selected.None? && !isOpen && Valid()
    {
      selected := None;
      isOpen := false;
    }
  }
}
