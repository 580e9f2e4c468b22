/** What the packing-slip and item handlers of the backend do to the stored
    records, as functions of the records before the request. The handlers
    themselves (module Server) loop over slip lines and update the stores in
    place. The slip handlers, the stock receipt and the item PUT are proved
    to leave the stores as these functions say; the item upsert is proved to
    give one of `MergedItem` and `CreatedItem`, chosen by whether an item of
    that name exists. */
module Fulfilment {
  import opened Records

  // ---------------------------------------------------------------------
  // Allocation and amounts

  /** `Math.min(requested, stock)`: the part of a request taken from stock. */
  function Allocated(requested: int, stock: int): (a: int)
    ensures a <= requested && a <= stock
    ensures a == requested || a == stock
  {
    if requested <= stock then requested else stock
  }

  /** `Math.max(0, requested - stock)`: the part left on backorder. */
  function Backordered(requested: int, stock: int): (b: int)
    ensures 0 <= b
    ensures Allocated(requested, stock) + b == requested
    ensures b == 0 <==> requested <= stock
  {
    if requested - stock > 0 then requested - stock else 0
  }

  /** `lines.reduce((sum, l) => sum + l.price * l.quantity, 0)`, in cents. */
  function TotalAmount(lines: seq<OrderLine>): int
  {
    if lines == [] then 0 else lines[0].price * lines[0].quantity + TotalAmount(lines[1..])
  }

  /** The total of a slip is never negative when no price or quantity is. */
  lemma {:induction false} TotalAmountNonNegative(lines: seq<OrderLine>)
    requires forall k :: 0 <= k < |lines| ==> lines[k].price >= 0 && lines[k].quantity >= 0
    ensures TotalAmount(lines) >= 0
  {
    if lines != [] {
      assert forall k :: 1 <= k < |lines| ==> lines[1..][k - 1] == lines[k];
      TotalAmountNonNegative(lines[1..]);
    }
  }

  lemma {:induction false} TotalAmountAppend(a: seq<OrderLine>, b: seq<OrderLine>)
    ensures TotalAmount(a + b) == TotalAmount(a) + TotalAmount(b)
  {
    if a != [] {
      assert (a + b)[1..] == a[1..] + b;
      TotalAmountAppend(a[1..], b);
    } else {
      assert a + b == b;
    }
  }

  /** The backorder quantity plays no part in the amount. */
  lemma {:induction false} TotalAmountIgnoresBackorder(a: seq<OrderLine>, b: seq<OrderLine>)
    requires |a| == |b|
    requires forall k :: 0 <= k < |a| ==>
               a[k].(backorderQuantity := b[k].backorderQuantity) == b[k]
    ensures TotalAmount(a) == TotalAmount(b)
  {
    if a != [] {
      TotalAmountIgnoresBackorder(a[1..], b[1..]);
    }
  }

  /** A submitted line as stored: `{...line, backorderQuantity: line.backorderQuantity || 0}`. */
  function StoredLine(l: OrderLine): SlipLine
  {
    SlipLine(l.itemId, l.name, l.quantity, l.price, OrZero(l.backorderQuantity))
  }

  function StoreLines(lines: seq<OrderLine>): (r: seq<SlipLine>)
    ensures |r| == |lines|
    ensures forall k :: 0 <= k < |lines| ==> r[k] == StoredLine(lines[k])
  {
    seq(|lines|, k requires 0 <= k < |lines| => StoredLine(lines[k]))
  }

  // ---------------------------------------------------------------------
  // Creating a slip

  /** The body of POST /api/packing-slips. */
  datatype SlipRequest = SlipRequest(lines: seq<OrderLine>, customer: Customer, notes: string)

  /** The record a successful create saves: submitted lines verbatim
      (backorder defaulted to 0), the amount over the submitted quantities,
      and the completion flag at its default. */
  function NewSlip(req: SlipRequest, number: string, today: Date): (s: PackingSlip)
    ensures s.slipNumber == number && s.date == today && !s.isCompleted
    ensures s.items == StoreLines(req.lines) && s.totalAmount == TotalAmount(req.lines)
    ensures s.customer == req.customer && s.notes == req.notes
  {
    PackingSlip(number, today, StoreLines(req.lines), TotalAmount(req.lines),
                req.customer, req.notes, false)
  }

  /** `inventoryItem.quantity -= Math.min(line.quantity, inventoryItem.quantity)`:
      the request comes off the stock, or the stock goes to zero when the
      request is larger; the result is never negative. */
  function Take(it: Item, requested: int): (r: Item)
    ensures r.(quantity := it.quantity) == it
    ensures r.quantity == if requested <= it.quantity then it.quantity - requested else 0
    ensures 0 <= r.quantity
  {
    it.(quantity := it.quantity - Allocated(requested, it.quantity))
  }

  /** The item store after the create loop: `Done` when every line's item
      exists, `Aborted` at the first missing item, keeping the decrements of
      the lines before it. */
  datatype Decrement = Done(items: map<Id, Item>) | Aborted(items: map<Id, Item>, missing: Id)

  function ApplyDecrements(items: map<Id, Item>, lines: seq<OrderLine>): (r: Decrement)
    ensures r.items.Keys == items.Keys
    ensures r.Aborted? ==> r.missing !in items
    decreases |lines|
  {
    if lines == [] then Done(items)
    else
      var id := lines[0].itemId;
      if id !in items then Aborted(items, id)
      else ApplyDecrements(items[id := Take(items[id], lines[0].quantity)], lines[1..])
  }

  /** Σ quantity over the submitted lines for one item. */
  function Demanded(lines: seq<OrderLine>, id: Id): int
  {
    if lines == [] then 0
    else (if lines[0].itemId == id then lines[0].quantity else 0) + Demanded(lines[1..], id)
  }

  /** Σ quantity over the stored lines for one item. */
  function Shipped(lines: seq<SlipLine>, id: Id): int
  {
    if lines == [] then 0
    else (if lines[0].itemId == id then lines[0].quantity else 0) + Shipped(lines[1..], id)
  }

  /** An item's shipped quantity is never negative when no line quantity is. */
  lemma {:induction false} ShippedNonNegative(lines: seq<SlipLine>, id: Id)
    requires forall k :: 0 <= k < |lines| ==> lines[k].quantity >= 0
    ensures Shipped(lines, id) >= 0
  {
    if lines != [] {
      assert forall k :: 1 <= k < |lines| ==> lines[1..][k - 1] == lines[k];
      ShippedNonNegative(lines[1..], id);
    }
  }

  lemma {:induction false} ShippedAppend(a: seq<SlipLine>, b: seq<SlipLine>, id: Id)
    ensures Shipped(a + b, id) == Shipped(a, id) + Shipped(b, id)
  {
    if a != [] {
      assert (a + b)[1..] == a[1..] + b;
      ShippedAppend(a[1..], b, id);
    } else {
      assert a + b == b;
    }
  }

  lemma {:induction false} ShippedStoreLines(lines: seq<OrderLine>, id: Id)
    ensures Shipped(StoreLines(lines), id) == Demanded(lines, id)
  {
    if lines != [] {
      assert StoreLines(lines)[1..] == StoreLines(lines[1..]);
      ShippedStoreLines(lines[1..], id);
    }
  }

  /** Every line finds its item and asks for no more than the stock left
      when its turn comes, so `Math.min` never clamps. */
  predicate NoClamp(items: map<Id, Item>, lines: seq<OrderLine>)
    decreases |lines|
  {
    lines == [] ||
    (lines[0].itemId in items &&
     lines[0].quantity <= items[lines[0].itemId].quantity &&
     NoClamp(items[lines[0].itemId := Take(items[lines[0].itemId], lines[0].quantity)], lines[1..]))
  }

  predicate DistinctItems(lines: seq<OrderLine>)
  {
    forall i, j :: 0 <= i < j < |lines| ==> lines[i].itemId != lines[j].itemId
  }

  /** A non-negative stock never goes negative: each line takes at most what is there. */
  lemma {:induction false} DecrementsKeepStockNonNegative(items: map<Id, Item>, lines: seq<OrderLine>)
    requires forall id :: id in items ==> items[id].quantity >= 0
    ensures forall id :: id in ApplyDecrements(items, lines).items ==>
              ApplyDecrements(items, lines).items[id].quantity >= 0
    decreases |lines|
  {
    if lines != [] && lines[0].itemId in items {
      var id := lines[0].itemId;
      DecrementsKeepStockNonNegative(items[id := Take(items[id], lines[0].quantity)], lines[1..]);
    }
  }

  /** Creating a slip changes nothing but quantities, and only those of items
      some line names. */
  lemma {:induction false} DecrementsOnlyTouchNamedQuantities(items: map<Id, Item>, lines: seq<OrderLine>, id: Id)
    requires id in items
    ensures ApplyDecrements(items, lines).items[id].(quantity := items[id].quantity) == items[id]
    ensures (forall k :: 0 <= k < |lines| ==> lines[k].itemId != id) ==>
              ApplyDecrements(items, lines).items[id] == items[id]
    decreases |lines|
  {
    if lines != [] && lines[0].itemId in items {
      var i0 := lines[0].itemId;
      DecrementsOnlyTouchNamedQuantities(items[i0 := Take(items[i0], lines[0].quantity)], lines[1..], id);
    }
  }

  /** Create's stock loop runs to the end exactly when every line's item exists. */
  lemma {:induction false} DecrementsDoneIffAllPresent(items: map<Id, Item>, lines: seq<OrderLine>)
    ensures ApplyDecrements(items, lines).Done? <==> forall k :: 0 <= k < |lines| ==> lines[k].itemId in items
    decreases |lines|
  {
    if lines != [] && lines[0].itemId in items {
      var id := lines[0].itemId;
      var next := items[id := Take(items[id], lines[0].quantity)];
      DecrementsDoneIffAllPresent(next, lines[1..]);
      assert forall k :: 1 <= k < |lines| ==> lines[k] == lines[1..][k - 1];
    }
  }

  /** An unknown item at line `j` aborts the create, and the decrements of
      lines `0..j-1` stay applied: there is no rollback. */
  lemma {:induction false} AbortKeepsEarlierDecrements(items: map<Id, Item>, lines: seq<OrderLine>, j: nat)
    requires j < |lines| && lines[j].itemId !in items
    requires forall k :: 0 <= k < j ==> lines[k].itemId in items
    ensures ApplyDecrements(items, lines[..j]).Done?
    ensures ApplyDecrements(items, lines) ==
              Aborted(ApplyDecrements(items, lines[..j]).items, lines[j].itemId)
    decreases j
  {
    if j > 0 {
      var id := lines[0].itemId;
      var next := items[id := Take(items[id], lines[0].quantity)];
      assert lines[1..][..j - 1] == lines[..j][1..];
      AbortKeepsEarlierDecrements(next, lines[1..], j - 1);
    }
  }

  /** With distinct items that all exist, each item drops by exactly
      `min(line.quantity, stock)`. */
  lemma {:induction false} DistinctDecrements(items: map<Id, Item>, lines: seq<OrderLine>)
    requires DistinctItems(lines)
    requires forall k :: 0 <= k < |lines| ==> lines[k].itemId in items
    ensures ApplyDecrements(items, lines).Done?
    ensures forall k :: 0 <= k < |lines| ==>
              ApplyDecrements(items, lines).items[lines[k].itemId] ==
              Take(items[lines[k].itemId], lines[k].quantity)
    decreases |lines|
  {
    if lines != [] {
      var id := lines[0].itemId;
      var next := items[id := Take(items[id], lines[0].quantity)];
      var rest := lines[1..];
      assert forall k :: 0 <= k < |rest| ==> rest[k] == lines[k + 1];
      DistinctDecrements(next, rest);
      DecrementsOnlyTouchNamedQuantities(next, rest, id);
    }
  }

  /** Without clamping, every line finds its item. */
  lemma {:induction false} NoClampCompletes(items: map<Id, Item>, lines: seq<OrderLine>)
    requires NoClamp(items, lines)
    ensures ApplyDecrements(items, lines).Done?
    decreases |lines|
  {
    if lines != [] {
      var id0 := lines[0].itemId;
      NoClampCompletes(items[id0 := Take(items[id0], lines[0].quantity)], lines[1..]);
    }
  }

  /** Without clamping, each item loses exactly its demanded quantity. */
  lemma {:induction false} NoClampSubtractsDemand(items: map<Id, Item>, lines: seq<OrderLine>, id: Id)
    requires NoClamp(items, lines) && id in items
    ensures ApplyDecrements(items, lines).Done?
    ensures ApplyDecrements(items, lines).items[id] ==
              items[id].(quantity := items[id].quantity - Demanded(lines, id))
    decreases |lines|
  {
    if lines != [] {
      var id0 := lines[0].itemId;
      var next := items[id0 := Take(items[id0], lines[0].quantity)];
      NoClampSubtractsDemand(next, lines[1..], id);
      assert Demanded(lines, id) == (if id0 == id then lines[0].quantity else 0) + Demanded(lines[1..], id);
    }
  }

  /** Distinct, existing items asked for within their stock never clamp. */
  lemma {:induction false} DistinctWithinStockNoClamp(items: map<Id, Item>, lines: seq<OrderLine>)
    requires DistinctItems(lines)
    requires forall k :: 0 <= k < |lines| ==>
               lines[k].itemId in items && lines[k].quantity <= items[lines[k].itemId].quantity
    ensures NoClamp(items, lines)
    decreases |lines|
  {
    if lines != [] {
      var id := lines[0].itemId;
      var next := items[id := Take(items[id], lines[0].quantity)];
      var rest := lines[1..];
      assert forall k :: 0 <= k < |rest| ==> rest[k] == lines[k + 1] && rest[k].itemId != id;
      DistinctWithinStockNoClamp(next, rest);
    }
  }

  // ---------------------------------------------------------------------
  // Cancelling a slip

  /** `inventoryItem.quantity += line.quantity` for every line whose item
      still exists; lines whose item is gone are skipped. */
  function RestoreStock(items: map<Id, Item>, lines: seq<SlipLine>): (r: map<Id, Item>)
    ensures r.Keys == items.Keys
    decreases |lines|
  {
    if lines == [] then items
    else
      var id := lines[0].itemId;
      if id in items
      then RestoreStock(items[id := items[id].(quantity := items[id].quantity + lines[0].quantity)], lines[1..])
      else RestoreStock(items, lines[1..])
  }

  /** Cancelling adds back, to every item that still exists, the sum of the
      stored line quantities for it, and changes nothing else about it. */
  lemma {:induction false} RestoreAddsShipped(items: map<Id, Item>, lines: seq<SlipLine>, id: Id)
    requires id in items
    ensures RestoreStock(items, lines)[id] ==
              items[id].(quantity := items[id].quantity + Shipped(lines, id))
    decreases |lines|
  {
    if lines != [] {
      var id0 := lines[0].itemId;
      if id0 in items {
        RestoreAddsShipped(items[id0 := items[id0].(quantity := items[id0].quantity + lines[0].quantity)], lines[1..], id);
      } else {
        RestoreAddsShipped(items, lines[1..], id);
      }
    }
  }

  /** Create then cancel: when no line was clamped, every item returns to
      its stock before the create. */
  lemma CreateThenCancelRestoresStock(items: map<Id, Item>, lines: seq<OrderLine>)
    requires NoClamp(items, lines)
    ensures ApplyDecrements(items, lines).Done?
    ensures RestoreStock(ApplyDecrements(items, lines).items, StoreLines(lines)) == items
  {
    NoClampCompletes(items, lines);
    var after := ApplyDecrements(items, lines).items;
    forall id | id in items ensures RestoreStock(after, StoreLines(lines))[id] == items[id] {
      NoClampSubtractsDemand(items, lines, id);
      RestoreAddsShipped(after, StoreLines(lines), id);
      ShippedStoreLines(lines, id);
    }
  }

  /** Create stores the requested quantity while it takes at most the stock,
      and cancel adds back the requested quantity: a line asking for more
      than the stock leaves the item with the requested quantity. */
  lemma ClampedCreateThenCancelYieldsRequest(items: map<Id, Item>, line: OrderLine)
    requires line.itemId in items && 0 <= items[line.itemId].quantity < line.quantity
    ensures ApplyDecrements(items, [line]).Done?
    ensures RestoreStock(ApplyDecrements(items, [line]).items, StoreLines([line]))[line.itemId].quantity
            == line.quantity
  {
    var id := line.itemId;
    var taken := items[id := Take(items[id], line.quantity)];
    assert [line][1..] == [];
    assert ApplyDecrements(items, [line]) == ApplyDecrements(taken, []) == Done(taken);
    var after := ApplyDecrements(items, [line]).items;
    assert after[id].quantity == 0;
    assert StoreLines([line]) == [StoredLine(line)];
    assert RestoreStock(after, [StoredLine(line)]) ==
           RestoreStock(after[line.itemId := after[line.itemId].(quantity := line.quantity)], []);
  }

  // ---------------------------------------------------------------------
  // Updating a slip

  /** The body of PUT /api/packing-slips/:id: either `{isCompleted}` alone,
      or a full slip. */
  datatype UpdateBody =
    | MarkCompleted(sent: bool)
    | Replace(lines: seq<OrderLine>, customer: Customer, notes: string, isCompleted: bool)

  function UpdatedSlip(slip: PackingSlip, body: UpdateBody): (r: PackingSlip)
    ensures r.slipNumber == slip.slipNumber && r.date == slip.date
    ensures body.MarkCompleted? ==> r.isCompleted && r.(isCompleted := slip.isCompleted) == slip
    ensures body.Replace? ==>
              r.items == StoreLines(body.lines) && r.totalAmount == TotalAmount(body.lines) &&
              r.customer == body.customer && r.notes == body.notes &&
              r.isCompleted == body.isCompleted
  {
    match body
    case MarkCompleted(_) => slip.(isCompleted := true)
    case Replace(lines, customer, notes, done) =>
      slip.(items := StoreLines(lines), totalAmount := TotalAmount(lines),
            customer := customer, notes := notes, isCompleted := done)
  }

  /** Marking completed ignores the value sent, and doing it twice is doing it once. */
  lemma MarkCompletedIsIdempotent(slip: PackingSlip, a: bool, b: bool)
    ensures UpdatedSlip(slip, MarkCompleted(a)) == UpdatedSlip(slip, MarkCompleted(b))
    ensures UpdatedSlip(UpdatedSlip(slip, MarkCompleted(a)), MarkCompleted(b)) ==
            UpdatedSlip(slip, MarkCompleted(a))
  {
  }

  /** A full update can take a completed slip back to not completed. */
  lemma ReplaceCanReopen(slip: PackingSlip, lines: seq<OrderLine>, c: Customer, notes: string)
    requires slip.isCompleted
    ensures !UpdatedSlip(slip, Replace(lines, c, notes, false)).isCompleted
  {
  }

  // ---------------------------------------------------------------------
  // Items

  /** Σ quantity over a purchase history: the stock received, never
      negative when no purchase is. */
  function Received(history: seq<Purchase>): (n: int)
    ensures (forall k :: 0 <= k < |history| ==> history[k].quantity >= 0) ==> n >= 0
  {
    assert forall k :: 1 <= k < |history| ==> history[1..][k - 1] == history[k];
    if history == [] then 0 else history[0].quantity + Received(history[1..])
  }

  lemma {:induction false} ReceivedAppend(a: seq<Purchase>, b: seq<Purchase>)
    ensures Received(a + b) == Received(a) + Received(b)
  {
    if a != [] {
      assert (a + b)[1..] == a[1..] + b;
      ReceivedAppend(a[1..], b);
    } else {
      assert a + b == b;
    }
  }

  /** PUT /api/items/:id/add-stock on an existing item, once the vendor
      (when one was named) has been found. */
  function StockReceipt(item: Item, quantity: int, price: int, vendorId: Option<Id>,
                        vendorName: Option<string>, today: Date): (r: Item)
    ensures r.quantity == item.quantity + quantity && r.latestPrice == price
    ensures r.purchaseHistory == item.purchaseHistory + [Purchase(price, quantity, today, vendorId, vendorName)]
    ensures r.(quantity := item.quantity, latestPrice := item.latestPrice,
               purchaseHistory := item.purchaseHistory) == item
  {
    item.(quantity := item.quantity + quantity, latestPrice := price,
          purchaseHistory := item.purchaseHistory + [Purchase(price, quantity, today, vendorId, vendorName)])
  }

  /** A receipt raises stock and received stock alike, so their difference
      (what has left through slips, other edits aside) is kept. */
  lemma ReceiptKeepsStockMinusReceived(item: Item, quantity: int, price: int, vendorId: Option<Id>,
                                       vendorName: Option<string>, today: Date)
    ensures var r := StockReceipt(item, quantity, price, vendorId, vendorName, today);
            r.quantity - Received(r.purchaseHistory) == item.quantity - Received(item.purchaseHistory)
  {
    var p := Purchase(price, quantity, today, vendorId, vendorName);
    ReceivedAppend(item.purchaseHistory, [p]);
    assert Received([p]) == quantity;
  }

  /** The item fields of POST /api/items and PUT /api/items/:id; `None` is
      a field that is missing (or, for numbers, NaN). The item schema's
      `vendor` is a nested path without `_id`, so a vendor id sent in the
      body is read (for the default purchase) but never stored. */
  datatype ItemBody = ItemBody(name: string, quantity: int, price: int, sellingPrice: int,
                               latestPrice: int, reorderLevel: Option<int>,
                               purchaseHistory: Option<seq<Purchase>>,
                               vendor: Option<VendorSnapshot>, imageUrl: Option<string>)

  /** The purchase record the POST handler builds when none is sent. */
  function DefaultPurchase(body: ItemBody, today: Date): (p: Purchase)
    ensures p.price == body.price && p.quantity == body.quantity && p.date == today
    ensures body.vendor.None? ==> p.vendorId.None? && p.vendorName.None?
    ensures body.vendor.Some? ==> p.vendorId == body.vendor.value.id && p.vendorName == body.vendor.value.name
  {
    Purchase(body.price, body.quantity, today,
             if body.vendor.Some? then body.vendor.value.id else None,
             if body.vendor.Some? then body.vendor.value.name else None)
  }

  /** The history entries POST appends to an existing item: the sent history
      when non-empty, otherwise one default record. */
  function AppendedPurchases(body: ItemBody, today: Date): (r: seq<Purchase>)
    ensures |r| >= 1
  {
    if body.purchaseHistory.Some? && |body.purchaseHistory.value| > 0
    then body.purchaseHistory.value
    else [DefaultPurchase(body, today)]
  }

  /** POST /api/items when an item with that name exists. */
  function MergedItem(existing: Item, body: ItemBody, today: Date): (r: Item)
    ensures r.name == existing.name
    ensures r.quantity == existing.quantity + body.quantity
    ensures r.price == body.price && r.sellingPrice == body.sellingPrice && r.latestPrice == body.latestPrice
    ensures r.reorderLevel == OrDefault(body.reorderLevel, existing.reorderLevel)
    ensures r.purchaseHistory == existing.purchaseHistory + AppendedPurchases(body, today)
    ensures r.vendor == (if body.vendor.Some? then body.vendor.value.(id := None) else existing.vendor)
    ensures r.imageUrl == (if Truthy(body.imageUrl) then body.imageUrl else existing.imageUrl)
  {
    existing.(quantity := existing.quantity + body.quantity,
              price := body.price, sellingPrice := body.sellingPrice, latestPrice := body.latestPrice,
              reorderLevel := OrDefault(body.reorderLevel, existing.reorderLevel),
              purchaseHistory := existing.purchaseHistory + AppendedPurchases(body, today),
              vendor := if body.vendor.Some? then body.vendor.value.(id := None) else existing.vendor,
              imageUrl := if Truthy(body.imageUrl) then body.imageUrl else existing.imageUrl)
  }

  /** POST /api/items when no item has that name. */
  function CreatedItem(body: ItemBody, today: Date): (r: Item)
    ensures r.name == body.name && r.quantity == body.quantity
    ensures r.reorderLevel == OrDefault(body.reorderLevel, 0)
    ensures body.purchaseHistory.Some? ==> r.purchaseHistory == body.purchaseHistory.value
    ensures body.purchaseHistory.None? ==> r.purchaseHistory == [DefaultPurchase(body, today)]
    ensures r.price == body.price && r.sellingPrice == body.sellingPrice && r.latestPrice == body.latestPrice
    ensures r.vendor == (if body.vendor.Some? then body.vendor.value.(id := None) else EmptySnapshot)
    ensures r.imageUrl == body.imageUrl
  {
    Item(body.name, body.quantity, body.price, body.sellingPrice, body.latestPrice,
         OrDefault(body.reorderLevel, 0),
         if body.purchaseHistory.Some? then body.purchaseHistory.value else [DefaultPurchase(body, today)],
         if body.vendor.Some? then body.vendor.value.(id := None) else EmptySnapshot,
         body.imageUrl)
  }

  /** PUT /api/items/:id: a full replace of the listed fields; a missing
      history, vendor or image is not written. */
  function ReplacedItem(current: Item, body: ItemBody): (r: Item)
    ensures r.name == body.name && r.quantity == body.quantity
    ensures r.price == body.price && r.sellingPrice == body.sellingPrice && r.latestPrice == body.latestPrice
    ensures r.reorderLevel == OrDefault(body.reorderLevel, 0)
    ensures body.purchaseHistory.Some? ==> r.purchaseHistory == body.purchaseHistory.value
    ensures body.purchaseHistory.None? ==> r.purchaseHistory == current.purchaseHistory
    ensures r.vendor == (if body.vendor.Some? then body.vendor.value.(id := None) else current.vendor)
    ensures r.imageUrl == (if body.imageUrl.Some? then body.imageUrl else current.imageUrl)
  {
    Item(body.name, body.quantity, body.price, body.sellingPrice, body.latestPrice,
         OrDefault(body.reorderLevel, 0),
         if body.purchaseHistory.Some? then body.purchaseHistory.value else current.purchaseHistory,
         if body.vendor.Some? then body.vendor.value.(id := None) else current.vendor,
         if body.imageUrl.Some? then body.imageUrl else current.imageUrl)
  }
}
