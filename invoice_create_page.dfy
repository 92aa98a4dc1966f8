/**
 * app/invoices/create/page.tsx: the line items of the invoice being drawn
 * up. The page holds its items in an array of item objects. Adding an
 * item builds a new array with a fresh blank item at the end; changing a
 * field builds a new array too, but assigns into the element object that
 * the old array shares with it, so the previous list sees the change.
 */
module InvoiceCreatePage {
  /** One `InvoiceItem` object, whose fields the page assigns in place. */
  class Item {
    var description: string
    var quantity: int
    var unitPrice: int

    constructor (description: string, quantity: int, unitPrice: int)
      ensures this.description == description && this.quantity == quantity && this.unitPrice == unitPrice
    {
      this.description := description;
      this.quantity := quantity;
      this.unitPrice := unitPrice;
    }
  }

  /** The value an item holds at one moment. */
  datatype Row = Row(description: string, quantity: int, unitPrice: int)

  /** `{ description: '', quantity: 0, unitPrice: 0 }`. */
  const Blank := Row("", 0, 0)

  function RowOf(it: Item): Row
    reads it
  {
    Row(it.description, it.quantity, it.unitPrice)
  }

  /** The rows of a list of items, in order. */
  function RowsOf(s: seq<Item>): (r: seq<Row>)
    reads s
    ensures |r| == |s| && forall i :: 0 <= i < |s| ==> r[i] == RowOf(s[i])
  {
    seq(|s|, i requires 0 <= i < |s| reads s => RowOf(s[i]))
  }

  lemma RowsOfSnoc(s: seq<Item>, x: Item)
    ensures RowsOf(s + [x]) == RowsOf(s) + [RowOf(x)]
  {
    assert (s + [x])[..|s|] == s;
  }

  /** `total + item.quantity * item.unitPrice`, folded from 0 left to right. */
  function RowsTotal(rows: seq<Row>): int {
    if rows == [] then 0
    else RowsTotal(rows[..|rows| - 1]) + rows[|rows| - 1].quantity * rows[|rows| - 1].unitPrice
  }

  /** `handleItemChange(index, field, value)`: the field to set and its value. */
  datatype Change =
    | SetDescription(text: string)
    | SetQuantity(count: int)
    | SetUnitPrice(price: int)

  /** The row after one field is set. */
  function Apply(r: Row, c: Change): (r': Row)
    ensures c.SetDescription? ==> r' == r.(description := c.text)
    ensures c.SetQuantity? ==> r' == r.(quantity := c.count)
    ensures c.SetUnitPrice? ==> r' == r.(unitPrice := c.price)
  {
    match c
    case SetDescription(t) => r.(description := t)
    case SetQuantity(n) => r.(quantity := n)
    case SetUnitPrice(p) => r.(unitPrice := p)
  }

  /** The total of a concatenation is the sum of the totals. */
  lemma {:induction false} TotalAppend(a: seq<Row>, b: seq<Row>)
    ensures RowsTotal(a + b) == RowsTotal(a) + RowsTotal(b)
    decreases |b|
  {
    if b == [] {
      assert a + b == a;
    } else {
      var b' := b[..|b| - 1];
      TotalAppend(a, b');
      assert (a + b)[..|a + b| - 1] == a + b';
    }
  }

  /** Each row contributes its own product, wherever it stands. */
  lemma TotalSplit(rows: seq<Row>, i: int)
    requires 0 <= i < |rows|
    ensures RowsTotal(rows) == RowsTotal(rows[..i]) + rows[i].quantity * rows[i].unitPrice + RowsTotal(rows[i + 1..])
  {
    assert rows == rows[..i] + [rows[i]] + rows[i + 1..];
    TotalAppend(rows[..i] + [rows[i]], rows[i + 1..]);
    TotalAppend(rows[..i], [rows[i]]);
  }

  /** Replacing one row moves the total by the difference of the products. */
  lemma TotalUpdate(rows: seq<Row>, i: int, r: Row)
    requires 0 <= i < |rows|
    ensures RowsTotal(rows[i := r]) == RowsTotal(rows) - rows[i].quantity * rows[i].unitPrice + r.quantity * r.unitPrice
  {
    TotalSplit(rows, i);
    TotalSplit(rows[i := r], i);
    assert rows[i := r][..i] == rows[..i];
    assert rows[i := r][i + 1..] == rows[i + 1..];
  }

  /** A blank row adds nothing, and an empty list totals 0. */
  lemma TotalWithBlank(rows: seq<Row>)
    ensures RowsTotal(rows + [Blank]) == RowsTotal(rows)
    ensures RowsTotal([]) == 0
  {
    assert (rows + [Blank])[..|rows|] == rows;
  }

  /** The total is the sum of the products, in any grouping: a row of
      quantity 2 and price 300 next to one of 1 and 500 totals 1100. */
  lemma TotalExample()
    ensures RowsTotal([Row("a", 2, 300), Row("b", 1, 500)]) == 1100
  {
    assert [Row("a", 2, 300), Row("b", 1, 500)][..1] == [Row("a", 2, 300)];
  }

  /** `[...a]` grown to `n` slots, the new ones holding `fill`: the element
      objects are shared, not copied. */
  method Spread(a: array<Item>, n: nat, fill: Item) returns (b: array<Item>)
    requires a.Length <= n
    ensures fresh(b) && b.Length == n
    ensures forall i :: 0 <= i < a.Length ==> b[i] == a[i]
    ensures forall i :: a.Length <= i < n ==> b[i] == fill
  {
    b := new Item[n](_ => fill);
    var i := 0;
    while i < a.Length
      invariant 0 <= i <= a.Length
      invariant forall j :: 0 <= j < i ==> b[j] == a[j]
      invariant forall j :: a.Length <= j < n ==> b[j] == fill
    {
      b[i] := a[i];
      i := i + 1;
    }
  }

  /** An array whose element objects are pairwise different. */
  predicate Distinct(s: seq<Item>) {
    forall i, j :: 0 <= i < j < |s| ==> s[i] != s[j]
  }

  /** The `items` state of the page. */
  class Page {
    var items: array<Item>

    /** Every item is its own object: the page only ever adds fresh ones. */
    predicate Valid()
      reads this, items
    {
      Distinct(items[..])
    }

    function Rows(): seq<Row>
      reads this, items, items[..]
    {
      RowsOf(items[..])
    }

    /** `calculateTotal()`. */
    function CalculateTotal(): int
      reads this, items, items[..]
    {
      RowsTotal(Rows())
    }

    /** The initial state: one blank item. */
    constructor ()
      ensures Valid() && Rows() == [Blank] && fresh(items) && fresh(items[0])
      ensures CalculateTotal() == 0
    {
      var blank := new Item("", 0, 0);
      items := new Item[1](_ => blank);
      new;
      assert items[..] == [blank];
      assert Rows() == [] + [Blank];
      TotalWithBlank([]);
    }

    /** `handleAddItem()`: the earlier items are kept as they are, one fresh
        blank item follows, and the total does not move. */
    method HandleAddItem()
      requires Valid()
      modifies this
      ensures Valid() && fresh(items) && items.Length == old(items.Length) + 1
      ensures fresh(items[items.Length - 1]) && items[..] == old(items[..]) + [items[items.Length - 1]]
      ensures Rows() == old(Rows()) + [Blank]
      ensures CalculateTotal() == old(CalculateTotal())
    {
      var blank := new Item("", 0, 0);
      ghost var olds := items[..];
      ghost var before := RowsOf(olds);
      var next := Spread(items, items.Length + 1, blank);
      assert next[..] == olds + [blank];
      items := next;
      assert Distinct(olds + [blank]) by {
        assert blank !in olds;
      }
      RowsOfSnoc(olds, blank);
      assert RowOf(blank) == Blank;
      assert Rows() == before + [Blank];
      TotalWithBlank(before);
    }

    /** `handleItemChange(index, field, value)`: the new list is a fresh
        array holding the same objects, and only the row at `index` changes,
        in the named field only. The object is shared, so the list that was
        current before the call holds the changed row as well. */
    method HandleItemChange(index: int, change: Change)
      requires Valid() && 0 <= index < items.Length
      modifies this, items[index]
      ensures Valid() && fresh(items) && items.Length == old(items.Length)
      ensures forall i :: 0 <= i < items.Length ==> items[i] == old(items[i])
      ensures Rows() == old(Rows())[index := Apply(old(Rows())[index], change)]
      ensures RowsOf(old(items)[..]) == Rows()
      ensures CalculateTotal() == old(CalculateTotal())
        - old(items[index].quantity) * old(items[index].unitPrice)
        + items[index].quantity * items[index].unitPrice
    {
      ghost var before := RowsOf(items[..]);
      var prior := items;
      var next := Spread(items, items.Length, items[index]);
      assert next[..] == items[..];
      items := next;
      var it := items[index];
      match change {
        case SetDescription(t) => it.description := t;
        case SetQuantity(n) => it.quantity := n;
        case SetUnitPrice(p) => it.unitPrice := p;
      }
      forall i | 0 <= i < items.Length
        ensures RowsOf(items[..])[i] == before[index := Apply(before[index], change)][i]
      {
        if i != index {
          assert items[i] != it;
        }
      }
      assert prior[..] == items[..];
      TotalUpdate(before, index, Apply(before[index], change));
    }
  }
}
