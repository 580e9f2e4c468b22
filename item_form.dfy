/** The item form of the web client (add and edit): the body its submit
    handler sends, and what the item handlers make of that body. Form
    inputs are taken after `Number(...)`, as integers (cents for prices). */
module ItemForm {
  import opened Records
  import opened Fulfilment

  /** A vendor as the client lists it. */
  datatype ListedVendor = ListedVendor(id: Id, vendor: Vendor)

  /** The form's state; an empty `selectedVendorId` is "no vendor chosen". */
  datatype Form = Form(name: string, quantity: int, price: int, sellingPrice: int,
                       reorderLevel: int, imageUrl: string,
                       selectedVendorId: Id, selectedVendorName: string)

  /** The purchase record the form sends for this submission. */
  function NewPurchase(form: Form, today: Date): (p: Purchase)
    ensures p.price == form.price && p.quantity == form.quantity && p.date == today
    ensures p.vendorId == Some(form.selectedVendorId) && p.vendorName == Some(form.selectedVendorName)
  {
    Purchase(form.price, form.quantity, today, Some(form.selectedVendorId), Some(form.selectedVendorName))
  }

  /** A vendor's details as the form copies them, without the id. */
  function Snapshot(v: Vendor): VendorSnapshot
  {
    VendorSnapshot(None, Some(v.name), Some(v.contact), Some(v.phone),
                   Some(v.email), Some(v.address), Some(v.notes))
  }

  /** The `vendor` object sent: all details of the first listed vendor with
      the chosen id, or `{}` when the id is not in the client's vendor list.
      The id itself is not copied. */
  function VendorPayload(vendors: seq<ListedVendor>, vendorId: Id): (s: VendorSnapshot)
    ensures s.id.None?
    ensures (forall k :: 0 <= k < |vendors| ==> vendors[k].id != vendorId) ==> s == EmptySnapshot
    ensures forall k :: 0 <= k < |vendors| && vendors[k].id == vendorId &&
                        (forall j :: 0 <= j < k ==> vendors[j].id != vendorId) ==>
                          s == Snapshot(vendors[k].vendor) &&
                          s.name == Some(vendors[k].vendor.name) && s.contact == Some(vendors[k].vendor.contact) &&
                          s.phone == Some(vendors[k].vendor.phone) && s.email == Some(vendors[k].vendor.email) &&
                          s.address == Some(vendors[k].vendor.address) && s.notes == Some(vendors[k].vendor.notes)
    ensures s != EmptySnapshot ==>
              exists k :: 0 <= k < |vendors| && vendors[k].id == vendorId &&
                          s.name == Some(vendors[k].vendor.name)
  {
    match FindFirst(vendors, (v: ListedVendor) => v.id == vendorId)
    case None => EmptySnapshot
    case Some(v) =>
      assert forall k :: (0 <= k < |vendors| && vendors[k].id == vendorId &&
                          forall j :: 0 <= j < k ==> vendors[j].id != vendorId) ==> vendors[k] == v;
      Snapshot(v.vendor)
  }

  /** handleSubmit: nothing is sent until a vendor is chosen. In edit mode
      the stock sent is the edited copy's, and the history is that copy's
      history plus the new purchase; in add mode the history is the new
      purchase alone. The cost price is sent as both price and latest
      price; an empty image field falls back to the edited copy's image. */
  function ItemPayload(form: Form, editing: Option<Item>, vendors: seq<ListedVendor>, today: Date)
    : (r: Option<ItemBody>)
    ensures r.None? <==> form.selectedVendorId == ""
    ensures r.Some? ==>
              && r.value.name == form.name
              && r.value.price == form.price && r.value.latestPrice == form.price
              && r.value.sellingPrice == form.sellingPrice
              && r.value.reorderLevel == Some(form.reorderLevel)
              && r.value.vendor == Some(VendorPayload(vendors, form.selectedVendorId))
              && r.value.purchaseHistory.Some?
    ensures r.Some? && editing.None? ==>
              r.value.quantity == form.quantity &&
              r.value.purchaseHistory == Some([NewPurchase(form, today)]) &&
              r.value.imageUrl == (if form.imageUrl != "" then Some(form.imageUrl) else None)
    ensures r.Some? && editing.Some? ==>
              r.value.quantity == editing.value.quantity &&
              r.value.purchaseHistory == Some(editing.value.purchaseHistory + [NewPurchase(form, today)]) &&
              r.value.imageUrl == (if form.imageUrl != "" then Some(form.imageUrl) else editing.value.imageUrl)
  {
    if form.selectedVendorId == "" then None
    else
      var purchase := NewPurchase(form, today);
      Some(ItemBody(form.name,
                    if editing.Some? then editing.value.quantity else form.quantity,
                    form.price, form.sellingPrice, form.price,
                    Some(OrDefault(Some(form.reorderLevel), 0)),
                    Some(if editing.Some? then editing.value.purchaseHistory + [purchase] else [purchase]),
                    Some(VendorPayload(vendors, form.selectedVendorId)),
                    if form.imageUrl != "" then Some(form.imageUrl)
                    else if editing.Some? then editing.value.imageUrl else None))
  }

  /** Saving an edit (PUT /api/items/:id) stores the edited copy's stock,
      whatever the stored item holds by then, and records the new purchase
      without adding its quantity to stock: the received total grows by the
      form's quantity while the stock does not move. With the image field
      empty and no image on the edited copy, no image is sent and the stored
      one stays. */
  lemma EditRecordsPurchaseWithoutStock(current: Item, form: Form, e: Item,
                                        vendors: seq<ListedVendor>, today: Date)
    requires form.selectedVendorId != ""
    ensures var stored := ReplacedItem(current, ItemPayload(form, Some(e), vendors, today).value);
            && stored.quantity == e.quantity
            && stored.purchaseHistory == e.purchaseHistory + [NewPurchase(form, today)]
            && Received(stored.purchaseHistory) == Received(e.purchaseHistory) + form.quantity
            && stored.reorderLevel == form.reorderLevel
            && stored.imageUrl == (if form.imageUrl != "" then Some(form.imageUrl)
                                   else if e.imageUrl.Some? then e.imageUrl else current.imageUrl)
            && stored.vendor == VendorPayload(vendors, form.selectedVendorId)
  {
    ReceivedAppend(e.purchaseHistory, [NewPurchase(form, today)]);
    assert Received([NewPurchase(form, today)]) == form.quantity + Received([]);
  }

  /** Adding a new item (POST /api/items, no item of that name) stores the
      form's quantity and a history of the one purchase, so stock and
      received total agree. */
  lemma AddCreatesItemWithOnePurchase(form: Form, vendors: seq<ListedVendor>, today: Date, serverToday: Date)
    requires form.selectedVendorId != ""
    ensures var stored := CreatedItem(ItemPayload(form, None, vendors, today).value, serverToday);
            && stored.quantity == form.quantity
            && stored.purchaseHistory == [NewPurchase(form, today)]
            && Received(stored.purchaseHistory) == stored.quantity
            && stored.reorderLevel == form.reorderLevel
            && stored.vendor == VendorPayload(vendors, form.selectedVendorId)
  {
    assert Received([NewPurchase(form, today)]) == form.quantity + Received([]);
  }

  /** Adding under the name of an existing item (POST /api/items, merge)
      adds the form's quantity to stock and appends exactly the one
      purchase, so stock minus received total is kept. */
  lemma AddMergesIntoExisting(existing: Item, form: Form, vendors: seq<ListedVendor>,
                              today: Date, serverToday: Date)
    requires form.selectedVendorId != ""
    ensures var stored := MergedItem(existing, ItemPayload(form, None, vendors, today).value, serverToday);
            && stored.quantity == existing.quantity + form.quantity
            && stored.purchaseHistory == existing.purchaseHistory + [NewPurchase(form, today)]
            && stored.quantity - Received(stored.purchaseHistory) ==
                 existing.quantity - Received(existing.purchaseHistory)
            && stored.reorderLevel == (if form.reorderLevel != 0 then form.reorderLevel else existing.reorderLevel)
  {
    ReceivedAppend(existing.purchaseHistory, [NewPurchase(form, today)]);
    assert Received([NewPurchase(form, today)]) == form.quantity + Received([]);
  }
}
