/** The packing-slip editor of the web client: the list of lines being
    built (`selectedItems`), the handlers that change it, what the submit
    button sends, the totals shown, and the stock overview computed from the
    item and slip lists. Every handler is a function from the old line list
    to the new one, as React state updates are. */
module SlipEditor {
  import opened Records
  import opened Fulfilment

  /** An item as the client lists it: its id and its document. */
  datatype Listed = Listed(id: Id, item: Item)

  /** The slip the form was opened from, in edit mode. */
  datatype Editing = Editing(id: Id, slip: PackingSlip)

  /** The request the submit button sends: a POST in create mode, a PUT in
      edit mode. */
  datatype Submission = Create(request: SlipRequest) | Update(id: Id, body: UpdateBody)

  /** One row of the stock overview. */
  datatype OverviewRow = OverviewRow(name: string, inQty: int, outQty: int, stock: int)

  // ---------------------------------------------------------------------
  // Counting over the line list
  // ---------------------------------------------------------------------

  /** How many lines name item `id`. */
  function Count(lines: seq<OrderLine>, id: Id): (n: nat)
    ensures n <= |lines|
  {
    if lines == [] then 0 else (if lines[0].itemId == id then 1 else 0) + Count(lines[1..], id)
  }

  lemma {:induction false} CountZero(lines: seq<OrderLine>, id: Id)
    ensures Count(lines, id) == 0 <==> forall k :: 0 <= k < |lines| ==> lines[k].itemId != id
  {
    if lines != [] {
      CountZero(lines[1..], id);
      assert forall k :: 1 <= k < |lines| ==> lines[k] == lines[1..][k - 1];
    }
  }

  /** What a line asks for: the part shipped plus the part on backorder. */
  function Demand(l: OrderLine): int
  {
    l.quantity + OrZero(l.backorderQuantity)
  }

  /** Σ Demand over the lines naming item `id`. */
  function Requested(lines: seq<OrderLine>, id: Id): int
  {
    if lines == [] then 0
    else (if lines[0].itemId == id then Demand(lines[0]) else 0) + Requested(lines[1..], id)
  }

  /** `lines.map(l => l.itemId === id ? f(l) : l)`. */
  function UpdateMatching(lines: seq<OrderLine>, id: Id, f: OrderLine -> OrderLine): (r: seq<OrderLine>)
    decreases |lines|
    ensures |r| == |lines|
    ensures forall k :: 0 <= k < |lines| ==> r[k] == if lines[k].itemId == id then f(lines[k]) else lines[k]
  {
    if lines == [] then []
    else
      var rest := UpdateMatching(lines[1..], id, f);
      var r := [if lines[0].itemId == id then f(lines[0]) else lines[0]] + rest;
      assert forall k :: 1 <= k < |lines| ==> r[k] == rest[k - 1] && lines[k] == lines[1..][k - 1];
      r
  }

  lemma UpdateMatchingTail(lines: seq<OrderLine>, id: Id, f: OrderLine -> OrderLine)
    requires lines != []
    ensures UpdateMatching(lines, id, f) ==
            [if lines[0].itemId == id then f(lines[0]) else lines[0]] + UpdateMatching(lines[1..], id, f)
    ensures UpdateMatching(lines, id, f)[1..] == UpdateMatching(lines[1..], id, f)
  {
  }

  /** Mapping every line of `id` to a line of `id` asking `delta` more adds
      `delta` per such line. */
  lemma {:induction false} RequestedShift(lines: seq<OrderLine>, id: Id, f: OrderLine -> OrderLine, delta: int)
    requires forall l: OrderLine {:trigger f(l)} :: l.itemId == id ==> f(l).itemId == id && Demand(f(l)) == Demand(l) + delta
    ensures Requested(UpdateMatching(lines, id, f), id) == Requested(lines, id) + delta * Count(lines, id)
    ensures Count(UpdateMatching(lines, id, f), id) == Count(lines, id)
  {
    if lines != [] {
      var r, rest := UpdateMatching(lines, id, f), UpdateMatching(lines[1..], id, f);
      UpdateMatchingTail(lines, id, f);
      RequestedShift(lines[1..], id, f, delta);
      var c := Count(lines[1..], id);
      if lines[0].itemId == id {
        assert r[0] == f(lines[0]);
        assert Requested(r, id) == Demand(lines[0]) + delta + Requested(rest, id);
        assert Count(lines, id) == c + 1;
        MultiplyStep(delta, c);
      } else {
        assert r[0] == lines[0];
        assert Requested(r, id) == Requested(rest, id);
        assert Count(lines, id) == c;
      }
    }
  }

  /** ... and leaves every other item's lines as they were. */
  lemma {:induction false} UpdateMatchingKeepsOthers(lines: seq<OrderLine>, id: Id, f: OrderLine -> OrderLine, other: Id)
    requires other != id
    requires forall l: OrderLine {:trigger f(l)} :: l.itemId == id ==> f(l).itemId == id
    ensures Requested(UpdateMatching(lines, id, f), other) == Requested(lines, other)
    ensures Count(UpdateMatching(lines, id, f), other) == Count(lines, other)
  {
    if lines != [] {
      var r, rest := UpdateMatching(lines, id, f), UpdateMatching(lines[1..], id, f);
      UpdateMatchingTail(lines, id, f);
      UpdateMatchingKeepsOthers(lines[1..], id, f, other);
      assert r[0].itemId == other <==> lines[0].itemId == other;
      assert lines[0].itemId == other ==> r[0] == lines[0];
    }
  }

  /** Mapping every line of `id` to a line of `id` asking exactly `v`. */
  lemma {:induction false} RequestedSet(lines: seq<OrderLine>, id: Id, f: OrderLine -> OrderLine, v: int)
    requires forall l: OrderLine {:trigger f(l)} :: l.itemId == id ==> f(l).itemId == id && Demand(f(l)) == v
    ensures Requested(UpdateMatching(lines, id, f), id) == v * Count(lines, id)
  {
    if lines != [] {
      var r, rest := UpdateMatching(lines, id, f), UpdateMatching(lines[1..], id, f);
      UpdateMatchingTail(lines, id, f);
      RequestedSet(lines[1..], id, f, v);
      var c := Count(lines[1..], id);
      if lines[0].itemId == id {
        assert r[0] == f(lines[0]);
        assert Requested(r, id) == v + Requested(rest, id);
        assert Count(lines, id) == c + 1;
        MultiplyStep(v, c);
      } else {
        assert r[0] == lines[0];
        assert Requested(r, id) == Requested(rest, id);
        assert Count(lines, id) == c;
        calc {
          Requested(r, id);
          Requested(rest, id);
          v * c;
          v * Count(lines, id);
        }
      }
    }
  }

  lemma MultiplyStep(v: int, c: int)
    ensures v * (c + 1) == v * c + v
  {
  }

  lemma {:induction false} RequestedAppend(a: seq<OrderLine>, b: seq<OrderLine>, id: Id)
    ensures Requested(a + b, id) == Requested(a, id) + Requested(b, id)
    ensures Count(a + b, id) == Count(a, id) + Count(b, id)
  {
    if a != [] {
      assert (a + b)[0] == a[0] && (a + b)[1..] == a[1..] + b;
      RequestedAppend(a[1..], b, id);
    } else {
      assert a + b == b;
    }
  }

  // ---------------------------------------------------------------------
  // confirmAddItem
  // ---------------------------------------------------------------------

  /** A line holding the item after a merge: the shipped part added to its
      quantity, the short part to its backorder (a missing one counting as
      0), and the new price; it asks for both parts more. */
  function Grown(l: OrderLine, shipped: int, short: int, price: int): (g: OrderLine)
    ensures g.itemId == l.itemId && g.name == l.name
    ensures g.quantity == l.quantity + shipped
    ensures g.backorderQuantity == Some(OrZero(l.backorderQuantity) + short)
    ensures g.price == price
    ensures Demand(g) == Demand(l) + shipped + short
  {
    l.(quantity := l.quantity + shipped,
       backorderQuantity := Some(OrZero(l.backorderQuantity) + short),
       price := price)
  }

  /** Adding `quantity` of the selected item at `price`: the quantity is
      split into what the listed stock covers and the rest on backorder; a
      line already holding the item (every such line, in fact) grows by
      both parts and takes the new price; otherwise a line is appended. */
  function ConfirmAddItem(lines: seq<OrderLine>, selected: Option<Listed>, quantity: int, price: int)
    : (r: seq<OrderLine>)
    ensures selected.None? ==> r == lines
    ensures selected.Some? && Count(lines, selected.value.id) == 0 ==>
              r == lines + [OrderLine(selected.value.id, selected.value.item.name,
                                      Allocated(quantity, selected.value.item.quantity), price,
                                      Some(Backordered(quantity, selected.value.item.quantity)))]
    ensures selected.Some? && Count(lines, selected.value.id) > 0 ==>
              |r| == |lines| &&
              (forall k :: 0 <= k < |lines| && lines[k].itemId != selected.value.id ==> r[k] == lines[k]) &&
              (forall k :: 0 <= k < |lines| && lines[k].itemId == selected.value.id ==>
                 r[k] == Grown(lines[k], Allocated(quantity, selected.value.item.quantity),
                               Backordered(quantity, selected.value.item.quantity), price) &&
                 Demand(r[k]) == Demand(lines[k]) + quantity)
  {
    if selected.None? then lines
    else
      var s := selected.value;
      CountZero(lines, s.id);
      var shipped := Allocated(quantity, s.item.quantity);
      var short := Backordered(quantity, s.item.quantity);
      if FindFirst(lines, (l: OrderLine) => l.itemId == s.id).Some? then
        var r := UpdateMatching(lines, s.id, (l: OrderLine) => Grown(l, shipped, short, price));
        assert forall k :: 0 <= k < |lines| && lines[k].itemId == s.id ==>
                 r[k] == Grown(lines[k], shipped, short, price);
        r
      else
        lines + [OrderLine(s.id, s.item.name, shipped, price, Some(short))]
  }

  /** The whole amount asked for is recorded: the requested total for the
      item grows by `quantity` per line holding it (one line if none did),
      and nothing else is requested differently. */
  lemma ConfirmAddRecordsRequest(lines: seq<OrderLine>, s: Listed, quantity: int, price: int)
    ensures var r := ConfirmAddItem(lines, Some(s), quantity, price);
            var n := Count(lines, s.id);
            && Requested(r, s.id) == Requested(lines, s.id) + quantity * (if n == 0 then 1 else n)
            && Count(r, s.id) == (if n == 0 then 1 else n)
            && forall other :: other != s.id ==>
                 Requested(r, other) == Requested(lines, other) && Count(r, other) == Count(lines, other)
  {
    var shipped := Allocated(quantity, s.item.quantity);
    var short := Backordered(quantity, s.item.quantity);
    if Count(lines, s.id) == 0 {
      var line := OrderLine(s.id, s.item.name, shipped, price, Some(short));
      RequestedAppend(lines, [line], s.id);
      forall other | other != s.id
        ensures Requested(lines + [line], other) == Requested(lines, other)
        ensures Count(lines + [line], other) == Count(lines, other)
      {
        RequestedAppend(lines, [line], other);
      }
    } else {
      var f := (l: OrderLine) => Grown(l, shipped, short, price);
      RequestedShift(lines, s.id, f, quantity);
      forall other | other != s.id
        ensures Requested(UpdateMatching(lines, s.id, f), other) == Requested(lines, other)
        ensures Count(UpdateMatching(lines, s.id, f), other) == Count(lines, other)
      {
        UpdateMatchingKeepsOthers(lines, s.id, f, other);
      }
      assert ConfirmAddItem(lines, Some(s), quantity, price) == UpdateMatching(lines, s.id, f);
    }
  }

  /** The merge splits the added quantity against the whole listed stock
      and ignores what the line already ships: a line shipping 5 of a stock
      of 10, given 8 more, ships 13. */
  lemma MergeCanShipAboveStock()
    ensures var it := Item("bolt", 10, 100, 150, 100, 0, [], EmptySnapshot, None);
            var r := ConfirmAddItem([OrderLine("a", "bolt", 5, 100, Some(0))], Some(Listed("a", it)), 8, 100);
            r == [OrderLine("a", "bolt", 13, 100, Some(0))] && r[0].quantity > it.quantity
  {
    var it := Item("bolt", 10, 100, 150, 100, 0, [], EmptySnapshot, None);
    var lines := [OrderLine("a", "bolt", 5, 100, Some(0))];
    assert Count(lines, "a") == 1 + Count([], "a");
    var r := ConfirmAddItem(lines, Some(Listed("a", it)), 8, 100);
    assert r[0] == OrderLine("a", "bolt", 13, 100, Some(0));
  }

  /** A list with one line per item keeps that shape. */
  lemma ConfirmAddKeepsItemsDistinct(lines: seq<OrderLine>, s: Listed, quantity: int, price: int)
    requires DistinctItems(lines)
    ensures DistinctItems(ConfirmAddItem(lines, Some(s), quantity, price))
  {
  }

  /** A new line ships no more than the listed stock and backorders a
      non-negative rest, and the billed total grows by the shipped part. */
  lemma ConfirmAddNewLine(lines: seq<OrderLine>, s: Listed, quantity: int, price: int)
    requires Count(lines, s.id) == 0
    ensures var r := ConfirmAddItem(lines, Some(s), quantity, price);
            && r[|lines|].quantity <= s.item.quantity
            && OrZero(r[|lines|].backorderQuantity) >= 0
            && (OrZero(r[|lines|].backorderQuantity) == 0 <==> quantity <= s.item.quantity)
            && TotalAmount(r) == TotalAmount(lines) + price * Allocated(quantity, s.item.quantity)
  {
    var line := OrderLine(s.id, s.item.name, Allocated(quantity, s.item.quantity), price,
                          Some(Backordered(quantity, s.item.quantity)));
    TotalAmountAppend(lines, [line]);
    assert TotalAmount([line]) == price * line.quantity + TotalAmount([]);
  }

  // ---------------------------------------------------------------------
  // removeFromPackingSlip
  // ---------------------------------------------------------------------

  /** `lines.filter(l => l.itemId !== id)`. */
  function RemoveLine(lines: seq<OrderLine>, id: Id): (r: seq<OrderLine>)
    ensures |r| == |lines| - Count(lines, id)
    ensures Count(r, id) == 0
    decreases |lines|
  {
    if lines == [] then []
    else
      var rest := RemoveLine(lines[1..], id);
      if lines[0].itemId != id then [lines[0]] + rest else rest
  }

  /** The lines kept are exactly the lines for other items. */
  lemma {:induction false} RemoveLineMembers(lines: seq<OrderLine>, id: Id)
    ensures forall l :: l in RemoveLine(lines, id) <==> l in lines && l.itemId != id
  {
    if lines != [] {
      RemoveLineMembers(lines[1..], id);
      assert forall l :: l in lines <==> l == lines[0] || l in lines[1..];
    }
  }

  /** Removing keeps the other items' lines as they were. */
  lemma {:induction false} RemoveKeepsOtherItems(lines: seq<OrderLine>, id: Id, other: Id)
    requires other != id
    ensures Requested(RemoveLine(lines, id), other) == Requested(lines, other)
    ensures Count(RemoveLine(lines, id), other) == Count(lines, other)
    ensures TotalAmount(RemoveLine(lines, id)) == TotalAmount(lines) - LineTotal(lines, id)
  {
    if lines != [] {
      RemoveKeepsOtherItems(lines[1..], id, other);
      if lines[0].itemId != id {
        assert ([lines[0]] + RemoveLine(lines[1..], id))[1..] == RemoveLine(lines[1..], id);
      }
    }
  }

  /** Σ price × quantity over the lines of one item. */
  function LineTotal(lines: seq<OrderLine>, id: Id): int
  {
    if lines == [] then 0
    else (if lines[0].itemId == id then lines[0].price * lines[0].quantity else 0) + LineTotal(lines[1..], id)
  }

  /** A list without the item is left as it is. */
  lemma {:induction false} RemoveAbsentIsIdentity(lines: seq<OrderLine>, id: Id)
    requires Count(lines, id) == 0
    ensures RemoveLine(lines, id) == lines
  {
    if lines != [] {
      assert lines == [lines[0]] + lines[1..];
      RemoveAbsentIsIdentity(lines[1..], id);
    }
  }

  lemma {:induction false} RemoveAppend(a: seq<OrderLine>, b: seq<OrderLine>, id: Id)
    ensures RemoveLine(a + b, id) == RemoveLine(a, id) + RemoveLine(b, id)
  {
    if a != [] {
      assert (a + b)[0] == a[0] && (a + b)[1..] == a[1..] + b;
      RemoveAppend(a[1..], b, id);
      var head := if a[0].itemId != id then [a[0]] else [];
      assert RemoveLine(a + b, id) == head + RemoveLine(a[1..] + b, id);
      assert RemoveLine(a, id) == head + RemoveLine(a[1..], id);
    } else {
      assert a + b == b;
    }
  }

  /** Removing twice is removing once. */
  lemma RemoveIsIdempotent(lines: seq<OrderLine>, id: Id)
    ensures RemoveLine(RemoveLine(lines, id), id) == RemoveLine(lines, id)
  {
    RemoveAbsentIsIdentity(RemoveLine(lines, id), id);
  }

  /** Removing an item just added to a list that did not hold it gives the
      list back. */
  lemma RemoveUndoesAdd(lines: seq<OrderLine>, s: Listed, quantity: int, price: int)
    requires Count(lines, s.id) == 0
    ensures RemoveLine(ConfirmAddItem(lines, Some(s), quantity, price), s.id) == lines
  {
    var line := OrderLine(s.id, s.item.name, Allocated(quantity, s.item.quantity), price,
                          Some(Backordered(quantity, s.item.quantity)));
    RemoveAppend(lines, [line], s.id);
    RemoveAbsentIsIdentity(lines, s.id);
    assert RemoveLine([line], s.id) == RemoveLine([], s.id);
  }

  // ---------------------------------------------------------------------
  // updatePackingSlipItemQuantity
  // ---------------------------------------------------------------------

  /** `items.find(i => i._id === id)`. */
  function FindListed(stock: seq<Listed>, id: Id): (r: Option<Listed>)
    ensures r.Some? ==> r.value.id == id
  {
    FindFirst(stock, (s: Listed) => s.id == id)
  }

  /** Edit mode, and `editingSlip.items.find(i => i.itemId === id)` finds a
      line: the slip being edited has a line for `id`. */
  predicate OnOriginalSlip(editing: Option<Editing>, id: Id)
  {
    editing.Some? && exists k :: 0 <= k < |editing.value.slip.items| && editing.value.slip.items[k].itemId == id
  }

  /** The map callback of updatePackingSlipItemQuantity for a line of the
      item, given the listed stock `onHand`. For an item of the slip being
      edited, a quantity within stock is shipped whole; above stock, the
      callback's own `item` (the line, shadowing the stock item) keeps its
      shipped quantity and the backorder becomes `newQ` minus it. Otherwise
      the quantity is split by the stock as when adding. */
  function ResizedLine(l: OrderLine, newQ: int, onHand: int, original: bool): (r: OrderLine)
    ensures r.(quantity := l.quantity, backorderQuantity := l.backorderQuantity) == l
    ensures Demand(r) == newQ
    ensures !original ==>
              r.quantity == Allocated(newQ, onHand) && r.backorderQuantity == Some(Backordered(newQ, onHand))
    ensures !original ==>
              r.quantity <= onHand && OrZero(r.backorderQuantity) >= 0 &&
              (OrZero(r.backorderQuantity) == 0 <==> newQ <= onHand)
    ensures original && newQ <= onHand ==> r.quantity == newQ && r.backorderQuantity == Some(0)
    ensures original && newQ > onHand ==>
              r.quantity == l.quantity && r.backorderQuantity == Some(newQ - l.quantity)
  {
    if original then
      if newQ <= onHand then l.(quantity := newQ, backorderQuantity := Some(0))
      else l.(quantity := l.quantity, backorderQuantity := Some(newQ - l.quantity))
    else
      l.(quantity := Allocated(newQ, onHand), backorderQuantity := Some(Backordered(newQ, onHand)))
  }

  /** Setting the quantity of item `id` to `newQ`. Nothing happens for a
      quantity below 1, an item missing from the listed stock, or an item
      not on the slip; otherwise every line of the item is resized. */
  function UpdateQuantity(lines: seq<OrderLine>, stock: seq<Listed>, editing: Option<Editing>,
                          id: Id, newQ: int): (r: seq<OrderLine>)
    ensures newQ < 1 || FindListed(stock, id).None? || Count(lines, id) == 0 ==>
              r == lines
    ensures |r| == |lines|
    ensures forall k :: 0 <= k < |lines| && lines[k].itemId != id ==> r[k] == lines[k]
    ensures var found := FindListed(stock, id);
            newQ >= 1 && found.Some? ==>
              forall k :: 0 <= k < |lines| && lines[k].itemId == id ==>
                r[k] == ResizedLine(lines[k], newQ, found.value.item.quantity, OnOriginalSlip(editing, id))
  {
    var found := FindListed(stock, id);
    CountZero(lines, id);
    if newQ < 1 || found.None? || FindFirst(lines, (l: OrderLine) => l.itemId == id).None? then lines
    else
      var onHand := found.value.item.quantity;
      var original := OnOriginalSlip(editing, id);
      UpdateMatching(lines, id, (l: OrderLine) => ResizedLine(l, newQ, onHand, original))
  }

  /** After a change the item's lines together ask for `newQ` each, and
      every change touches only the shipped and backordered quantities. */
  lemma UpdateQuantityRequested(lines: seq<OrderLine>, stock: seq<Listed>, editing: Option<Editing>,
                                id: Id, newQ: int)
    requires newQ >= 1 && FindListed(stock, id).Some?
    ensures var r := UpdateQuantity(lines, stock, editing, id, newQ);
            && Requested(r, id) == newQ * Count(lines, id)
            && forall k :: 0 <= k < |lines| ==>
                 r[k].(quantity := lines[k].quantity, backorderQuantity := lines[k].backorderQuantity) == lines[k]
  {
    var r := UpdateQuantity(lines, stock, editing, id, newQ);
    var f := (l: OrderLine) =>
      ResizedLine(l, newQ, FindListed(stock, id).value.item.quantity,
                  OnOriginalSlip(editing, id));
    RequestedSet(lines, id, f, newQ);
    CountZero(lines, id);
    if Count(lines, id) == 0 {
      assert UpdateMatching(lines, id, f) == lines;
    } else {
      assert r == UpdateMatching(lines, id, f);
    }
  }

  /** So an edit that lowers a line below what it already ships, while the
      stock is short, records a negative backorder. */
  lemma EditCanRecordNegativeBackorder()
    ensures var line := OrderLine("a", "bolt", 10, 100, Some(0));
            var stocked := Listed("a", Item("bolt", 0, 100, 150, 100, 0, [], EmptySnapshot, None));
            var original := PackingSlip("PS20240105001", Date(2024, 1, 5),
                                        [SlipLine("a", "bolt", 10, 100, 0)], 1000,
                                        Customer("c", "", "", "", "", ""), "", false);
            UpdateQuantity([line], [stocked], Some(Editing("s", original)), "a", 5) ==
              [line.(backorderQuantity := Some(-5))]
  {
    var line := OrderLine("a", "bolt", 10, 100, Some(0));
    var stocked := Listed("a", Item("bolt", 0, 100, 150, 100, 0, [], EmptySnapshot, None));
    var original := PackingSlip("PS20240105001", Date(2024, 1, 5),
                                [SlipLine("a", "bolt", 10, 100, 0)], 1000,
                                Customer("c", "", "", "", "", ""), "", false);
    var editing := Some(Editing("s", original));
    assert FindListed([stocked], "a") == Some(stocked);
    assert original.items[0].itemId == "a";
    assert OnOriginalSlip(editing, "a");
    var r := UpdateQuantity([line], [stocked], editing, "a", 5);
    assert r[0] == ResizedLine(line, 5, 0, true);
  }

  // ---------------------------------------------------------------------
  // Submitting
  // ---------------------------------------------------------------------

  /** The lines as sent: every backorder present (`|| 0`). */
  function Sent(lines: seq<OrderLine>): (r: seq<OrderLine>)
    ensures |r| == |lines|
    ensures forall k :: 0 <= k < |lines| ==>
              r[k].backorderQuantity == Some(OrZero(lines[k].backorderQuantity)) &&
              r[k].(backorderQuantity := lines[k].backorderQuantity) == lines[k]
  {
    seq(|lines|, k requires 0 <= k < |lines| =>
      lines[k].(backorderQuantity := Some(OrZero(lines[k].backorderQuantity))))
  }

  /** The submit button: nothing is sent without a line or without a
      customer name; otherwise a POST in create mode and a PUT carrying the
      edited slip's completion flag in edit mode. */
  function SubmitPayload(lines: seq<OrderLine>, customer: Customer, notes: string,
                         editing: Option<Editing>): (r: Option<Submission>)
    ensures r.None? <==> |lines| == 0 || customer.name == ""
    ensures r.Some? ==> (r.value.Create? <==> editing.None?)
    ensures r.Some? && r.value.Create? ==>
              r.value.request.customer == customer && r.value.request.notes == notes &&
              r.value.request.lines == Sent(lines) &&
              StoreLines(r.value.request.lines) == StoreLines(lines) &&
              TotalAmount(r.value.request.lines) == TotalAmount(lines)
    ensures r.Some? && r.value.Update? ==>
              r.value.id == editing.value.id && r.value.body.Replace? &&
              r.value.body.lines == Sent(lines) &&
              r.value.body.customer == customer && r.value.body.notes == notes &&
              StoreLines(r.value.body.lines) == StoreLines(lines) &&
              TotalAmount(r.value.body.lines) == TotalAmount(lines) &&
              r.value.body.isCompleted == editing.value.slip.isCompleted
  {
    if |lines| == 0 || customer.name == "" then None
    else
      var sent := Sent(lines);
      TotalAmountIgnoresBackorder(sent, lines);
      assert StoreLines(sent) == StoreLines(lines);
      if editing.None? then Some(Create(SlipRequest(sent, customer, notes)))
      else Some(Update(editing.value.id, Replace(sent, customer, notes, editing.value.slip.isCompleted)))
  }

  /** The client never reopens a slip by editing it: the stored slip keeps
      its completion flag, its customer and notes become the form's, and
      its lines are the form's lines. */
  lemma EditSubmissionKeepsCompletion(lines: seq<OrderLine>, customer: Customer, notes: string, e: Editing)
    requires |lines| > 0 && customer.name != ""
    ensures var sub := SubmitPayload(lines, customer, notes, Some(e));
            var stored := UpdatedSlip(e.slip, sub.value.body);
            && stored.isCompleted == e.slip.isCompleted
            && stored.items == StoreLines(lines) && stored.totalAmount == TotalAmount(lines)
            && stored.customer == customer && stored.notes == notes
            && stored.slipNumber == e.slip.slipNumber
  {
  }

  // ---------------------------------------------------------------------
  // Totals shown
  // ---------------------------------------------------------------------

  /** The slip list's amount: Σ quantity × price over the stored lines. */
  function ListedTotal(lines: seq<SlipLine>): int
  {
    if lines == [] then 0 else lines[0].quantity * lines[0].price + ListedTotal(lines[1..])
  }

  lemma {:induction false} ListedTotalOfStored(lines: seq<OrderLine>)
    ensures ListedTotal(StoreLines(lines)) == TotalAmount(lines)
  {
    if lines != [] {
      assert StoreLines(lines)[1..] == StoreLines(lines[1..]);
      ListedTotalOfStored(lines[1..]);
    }
  }

  /** Every slip the handlers write shows in the list the amount stored on
      it, which is also the total the editor showed before sending. */
  lemma ListedTotalMatchesStored(req: SlipRequest, number: string, today: Date, slip: PackingSlip, body: UpdateBody)
    ensures ListedTotal(NewSlip(req, number, today).items) == NewSlip(req, number, today).totalAmount
    ensures ListedTotal(slip.items) == slip.totalAmount ==>
              ListedTotal(UpdatedSlip(slip, body).items) == UpdatedSlip(slip, body).totalAmount
  {
    ListedTotalOfStored(req.lines);
    if body.Replace? {
      ListedTotalOfStored(body.lines);
    }
  }

  // ---------------------------------------------------------------------
  // Stock overview
  // ---------------------------------------------------------------------

  /** Σ over the slips of the quantity shipped of item `id`. */
  function OutQty(slips: seq<PackingSlip>, id: Id): int
  {
    if slips == [] then 0 else OutQty(slips[..|slips| - 1], id) + Shipped(slips[|slips| - 1].items, id)
  }

  /** The out column is never negative when no line quantity is. */
  lemma {:induction false} OutQtyNonNegative(slips: seq<PackingSlip>, id: Id)
    requires forall j, k :: 0 <= j < |slips| && 0 <= k < |slips[j].items| ==> slips[j].items[k].quantity >= 0
    ensures OutQty(slips, id) >= 0
  {
    if slips != [] {
      assert forall j :: 0 <= j < |slips| - 1 ==> slips[..|slips| - 1][j] == slips[j];
      OutQtyNonNegative(slips[..|slips| - 1], id);
      ShippedNonNegative(slips[|slips| - 1].items, id);
    }
  }

  /** `slipMap[id] || 0`. */
  function Lookup(m: map<Id, int>, id: Id): int
  {
    if id in m then m[id] else 0
  }

  /** The `slipMap` loop: the quantity shipped per item over all slips. */
  method ShippedPerItem(slips: seq<PackingSlip>) returns (slipMap: map<Id, int>)
    ensures forall id :: Lookup(slipMap, id) == OutQty(slips, id)
  {
    slipMap := map[];
    var i := 0;
    while i < |slips|
      invariant 0 <= i <= |slips|
      invariant forall id :: Lookup(slipMap, id) == OutQty(slips[..i], id)
    {
      var lines := slips[i].items;
      var j := 0;
      while j < |lines|
        invariant 0 <= j <= |lines|
        invariant forall id :: Lookup(slipMap, id) == OutQty(slips[..i], id) + Shipped(lines[..j], id)
      {
        var line := lines[j];
        ghost var before := slipMap;
        if line.itemId !in slipMap || slipMap[line.itemId] == 0 {
          slipMap := slipMap[line.itemId := 0];
        }
        assert Lookup(slipMap, line.itemId) == Lookup(before, line.itemId);
        slipMap := slipMap[line.itemId := slipMap[line.itemId] + line.quantity];
        forall id
          ensures Lookup(slipMap, id) ==
                  Lookup(before, id) + (if line.itemId == id then line.quantity else 0)
          ensures Shipped(lines[..j + 1], id) ==
                  Shipped(lines[..j], id) + (if line.itemId == id then line.quantity else 0)
          ensures Lookup(slipMap, id) == OutQty(slips[..i], id) + Shipped(lines[..j + 1], id)
        {
          assert lines[..j + 1] == lines[..j] + [line];
          ShippedAppend(lines[..j], [line], id);
          assert Shipped([line], id) == (if line.itemId == id then line.quantity else 0) + Shipped([], id);
        }
        j := j + 1;
      }
      assert lines[..j] == lines;
      assert slips[..i + 1][..i] == slips[..i];
      i := i + 1;
    }
    assert slips[..i] == slips;
  }

  /** The overview table: each listed item with what was received over its
      purchase history, what the slips ship of it, and its current stock.
      An empty item list leaves the table as it was (`None`). */
  method StockOverview(items: seq<Listed>, slips: seq<PackingSlip>) returns (rows: Option<seq<OverviewRow>>)
    ensures rows.None? <==> |items| == 0
    ensures rows.Some? ==> |rows.value| == |items|
    ensures rows.Some? ==> forall k :: 0 <= k < |items| ==>
              rows.value[k] == OverviewRow(items[k].item.name, Received(items[k].item.purchaseHistory),
                                           OutQty(slips, items[k].id), items[k].item.quantity)
  {
    if |items| == 0 {
      return None;
    }
    var slipMap := ShippedPerItem(slips);
    rows := Some(seq(|items|, k requires 0 <= k < |items| =>
      OverviewRow(items[k].item.name, Received(items[k].item.purchaseHistory),
                  Lookup(slipMap, items[k].id), items[k].item.quantity)));
  }

  /** A saved slip adds its lines of an item to the item's out quantity. */
  lemma OutQtyOfCreatedSlip(slips: seq<PackingSlip>, req: SlipRequest, number: string, today: Date, id: Id)
    ensures OutQty(slips + [NewSlip(req, number, today)], id) == OutQty(slips, id) + Demanded(req.lines, id)
  {
    var s := slips + [NewSlip(req, number, today)];
    assert s[..|s| - 1] == slips;
    ShippedStoreLines(req.lines, id);
  }

  /** When every line fits in stock, creating and saving a slip moves
      quantity from stock to the out column and keeps their sum. */
  lemma CreateKeepsStockPlusOut(items: map<Id, Item>, slips: seq<PackingSlip>, req: SlipRequest,
                                number: string, today: Date, id: Id)
    requires NoClamp(items, req.lines) && id in items
    ensures ApplyDecrements(items, req.lines).Done?
    ensures ApplyDecrements(items, req.lines).items[id].quantity +
              OutQty(slips + [NewSlip(req, number, today)], id) ==
            items[id].quantity + OutQty(slips, id)
  {
    NoClampSubtractsDemand(items, req.lines, id);
    OutQtyOfCreatedSlip(slips, req, number, today, id);
  }

  // ---------------------------------------------------------------------
  // A worked case
  // ---------------------------------------------------------------------

  /** Ten in stock and fifteen asked for at 2.00: the line ships ten and
      backorders five, the server takes the stock to zero, and ten at 2.00
      is billed. */
  lemma ShortStockScenario()
    ensures var it := Item("bolt", 10, 120, 200, 120, 5, [], EmptySnapshot, None);
            var lines := ConfirmAddItem([], Some(Listed("a", it)), 15, 200);
            && lines == [OrderLine("a", "bolt", 10, 200, Some(5))]
            && ApplyDecrements(map["a" := it], lines).Done?
            && ApplyDecrements(map["a" := it], lines).items["a"].quantity == 0
            && TotalAmount(lines) == 2000
  {
    var it := Item("bolt", 10, 120, 200, 120, 5, [], EmptySnapshot, None);
    var lines := ConfirmAddItem([], Some(Listed("a", it)), 15, 200);
    assert lines == [OrderLine("a", "bolt", 10, 200, Some(5))];
    assert ApplyDecrements(map["a" := it], lines) ==
           ApplyDecrements(map["a" := it.(quantity := 0)], []);
    assert TotalAmount(lines) == 200 * 10 + TotalAmount([]);
  }
}
