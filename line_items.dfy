/**
 * The two expressions the document routes apply to the posted `items`:
 * the `reduce` that computes `totalAmount` and the `map` that builds the
 * stored item rows. Both coerce `quantity` and `unitPrice` to numbers.
 */
module LineItems {
  import opened Wrappers
  import opened Js
  import opened Store

  /** `item.quantity * item.unitPrice`: None is NaN, or the TypeError of a
      null item. */
  function Product(item: Json): (r: Option<int>)
    ensures r.Some? <==> !item.JNull? && ToNumber(Get(item, "quantity").value).Some? && ToNumber(Get(item, "unitPrice").value).Some?
  {
    if item.JNull? then None
    else
      var q := ToNumber(Get(item, "quantity").value);
      var p := ToNumber(Get(item, "unitPrice").value);
      if q.Some? && p.Some? then Some(q.value * p.value) else None
  }

  /** `items.reduce((sum, item) => sum + item.quantity * item.unitPrice, 0)`
      on an array: a NaN product makes the whole sum NaN. */
  function Reduce(items: seq<Json>): (r: Option<int>)
    ensures r.Some? <==> forall i :: 0 <= i < |items| ==> Product(items[i]).Some?
  {
    if items == [] then Some(0)
    else
      var s := Reduce(items[..|items| - 1]);
      var p := Product(items[|items| - 1]);
      if s.Some? && p.Some? then Some(s.value + p.value) else None
  }

  /** `items.reduce(...)` on any value: only arrays have `reduce`. */
  function Total(items: Json): Option<int> {
    if items.JArr? then Reduce(items.elems) else None
  }

  /** The stored row of one item: its `description`, `Number(quantity)`,
      `Number(unitPrice)` and their product. */
  function Line(item: Json): (r: Option<LineItem>)
    ensures r.Some? <==> Product(item).Some?
    ensures r.Some? ==> r.value.totalPrice == r.value.quantity * r.value.unitPrice == Product(item).value
    ensures r.Some? ==> r.value.description == Get(item, "description").value
  {
    if item.JNull? then None
    else
      var q := ToNumber(Get(item, "quantity").value);
      var p := ToNumber(Get(item, "unitPrice").value);
      if q.Some? && p.Some? then Some(LineItem(Get(item, "description").value, q.value, p.value, q.value * p.value))
      else None
  }

  /** `items.map(...)`, item by item; a row that cannot be built fails the
      whole create. */
  function Lines(items: seq<Json>): (r: Option<seq<LineItem>>)
    ensures r.Some? <==> forall i :: 0 <= i < |items| ==> Line(items[i]).Some?
    ensures r.Some? ==> |r.value| == |items| && forall i :: 0 <= i < |items| ==> r.value[i] == Line(items[i]).value
  {
    if items == [] then Some([])
    else
      var front := Lines(items[..|items| - 1]);
      var last := Line(items[|items| - 1]);
      if front.Some? && last.Some? then Some(front.value + [last.value]) else None
  }

  function Parsed(items: Json): Option<seq<LineItem>> {
    if items.JArr? then Lines(items.elems) else None
  }

  /** The sum of the stored item totals. */
  function SumOfTotals(lines: seq<LineItem>): int {
    if lines == [] then 0 else SumOfTotals(lines[..|lines| - 1]) + lines[|lines| - 1].totalPrice
  }

  /** The `reduce` and the `map` agree: both succeed on the same items, and
      the stored item totals add up to `totalAmount`. */
  lemma {:induction false} ReduceMatchesLines(items: seq<Json>)
    ensures Reduce(items).Some? <==> Lines(items).Some?
    ensures Reduce(items).Some? ==> Reduce(items).value == SumOfTotals(Lines(items).value)
  {
    if items != [] {
      var front := items[..|items| - 1];
      ReduceMatchesLines(front);
      if Lines(items).Some? {
        var ls := Lines(items).value;
        assert ls[..|ls| - 1] == Lines(front).value;
      }
    }
  }

  /** The same agreement for whatever value was posted as `items`. */
  lemma TotalMatchesParsed(items: Json)
    ensures Total(items).Some? <==> Parsed(items).Some?
    ensures Total(items).Some? ==> Total(items).value == SumOfTotals(Parsed(items).value)
  {
    if items.JArr? {
      ReduceMatchesLines(items.elems);
    }
  }
}
