/** The backend's packing-slip and item handlers over an in-memory store.
    Each MongoDB collection is a map from id to record; each handler is a
    method that updates the maps step by step as the handler updates the
    documents, and returns either the response record or the error it
    sends. Each method's postcondition states the whole new state and the
    response: in terms of a function of module Fulfilment (the slip
    handlers and the item updates), of module SlipNumbers (the slip
    number), as a key removed from the map (deleting an item), or, for the
    item upsert, as one of two outcomes chosen by whether an item of that
    name exists. */
module Server {
  import opened Records
  import opened SlipNumbers
  import opened Fulfilment

  /** The slip numbers in use. */
  function SlipNumbersOf(slips: map<Id, PackingSlip>): (nums: set<string>)
    ensures forall id :: id in slips ==> slips[id].slipNumber in nums
    ensures forall s :: s in nums ==> exists id :: id in slips && slips[id].slipNumber == s
  {
    set id | id in slips :: slips[id].slipNumber
  }

  class Store {
    var items: map<Id, Item>
    var slips: map<Id, PackingSlip>
    var vendors: map<Id, Vendor>

    constructor (items0: map<Id, Item>, slips0: map<Id, PackingSlip>, vendors0: map<Id, Vendor>)
      ensures items == items0 && slips == slips0 && vendors == vendors0
    {
      items, slips, vendors := items0, slips0, vendors0;
    }

    /** The query `findOne({slipNumber: /^prefix/}).sort({slipNumber: -1})`:
        the lexicographically greatest slip number starting with `prefix`. */
    method LastSlipNumber(prefix: string) returns (last: Option<string>)
      ensures IsLastWithPrefix(SlipNumbersOf(slips), prefix, last)
      ensures last == LastWithPrefix(SlipNumbersOf(slips), prefix)
    {
      ghost var all := SlipNumbersOf(slips);
      var rest := SlipNumbersOf(slips);
      last := None;
      while rest != {}
        invariant rest <= all
        invariant last.None? ==> forall s :: s in all - rest ==> !HasPrefix(s, prefix)
        invariant last.Some? ==> last.value in all && HasPrefix(last.value, prefix)
        invariant last.Some? ==> forall s :: s in all - rest && HasPrefix(s, prefix) ==> LexLe(s, last.value)
        decreases |rest|
      {
        var s :| s in rest;
        if HasPrefix(s, prefix) {
          if last.None? {
            LexLeReflexive(s);
            last := Some(s);
          } else if LexLe(last.value, s) {
            forall t | t in all - rest && HasPrefix(t, prefix) ensures LexLe(t, s) {
              LexLeTransitive(t, last.value, s);
            }
            LexLeReflexive(s);
            last := Some(s);
          } else {
            LexLeTotal(last.value, s);
          }
        }
        rest := rest - {s};
      }
      LastUnique(all, prefix, last, LastWithPrefix(all, prefix));
    }

    /** `generateSlipNumber`, reading today's date from `today`. */
    method GenerateSlipNumber(today: Date) returns (number: string)
      ensures number == NextSlipNumber(today, LastWithPrefix(SlipNumbersOf(slips), DatePrefix(today)))
    {
      var last := LastSlipNumber(DatePrefix(today));
      number := NextSlipNumber(today, last);
    }

    /** The decrement loop of POST /api/packing-slips: each line takes
        `min(quantity, stock)` from its item, in order; an unknown item ends
        the loop with the earlier decrements kept. */
    method TakeStock(lines: seq<OrderLine>) returns (missing: Option<Id>)
      modifies this
      ensures slips == old(slips) && vendors == old(vendors)
      ensures items == ApplyDecrements(old(items), lines).items
      ensures missing.None? <==> ApplyDecrements(old(items), lines).Done?
      ensures missing.Some? ==> missing.value == ApplyDecrements(old(items), lines).missing
    {
      var i := 0;
      while i < |lines|
        invariant 0 <= i <= |lines|
        invariant ApplyDecrements(old(items), lines) == ApplyDecrements(items, lines[i..])
        invariant slips == old(slips) && vendors == old(vendors)
      {
        var line := lines[i];
        assert lines[i..][0] == line && lines[i..][1..] == lines[i + 1..];
        if line.itemId !in items {
          return Some(line.itemId);
        }
        var stocked := items[line.itemId];
        var actual := Allocated(line.quantity, stocked.quantity);
        assert stocked.(quantity := stocked.quantity - actual) == Take(stocked, line.quantity);
        items := items[line.itemId := stocked.(quantity := stocked.quantity - actual)];
        i := i + 1;
      }
      missing := None;
    }

    /** POST /api/packing-slips. The number is generated first, the stock is
        taken next, and the slip is saved last, where the unique index on
        `slipNumber` can refuse it. */
    method CreateSlip(req: SlipRequest, today: Date, newId: Id) returns (r: Result<PackingSlip>)
      requires newId !in slips
      modifies this
      ensures vendors == old(vendors)
      ensures items == ApplyDecrements(old(items), req.lines).items
      ensures var d := ApplyDecrements(old(items), req.lines);
              d.Aborted? ==> r == Err(ItemMissing(d.missing)) && slips == old(slips)
      ensures var number := NextSlipNumber(today, LastWithPrefix(SlipNumbersOf(old(slips)), DatePrefix(today)));
              var d := ApplyDecrements(old(items), req.lines);
              && (d.Done? && number in SlipNumbersOf(old(slips)) ==>
                    r == Err(DuplicateSlipNumber(number)) && slips == old(slips))
              && (d.Done? && number !in SlipNumbersOf(old(slips)) ==>
                    r == Ok(NewSlip(req, number, today)) && slips == old(slips)[newId := r.value])
    {
      var number := GenerateSlipNumber(today);
      var slip := NewSlip(req, number, today);
      var missing := TakeStock(req.lines);
      if missing.Some? {
        return Err(ItemMissing(missing.value));
      }
      if number in SlipNumbersOf(slips) {
        return Err(DuplicateSlipNumber(number));
      }
      slips := slips[newId := slip];
      r := Ok(slip);
    }

    /** DELETE /api/packing-slips/:id: every line gives its quantity back to
        its item when the item still exists, then the slip is removed. */
    method CancelSlip(id: Id) returns (r: Result<()>)
      modifies this
      ensures vendors == old(vendors)
      ensures id !in old(slips) ==>
                r == Err(NotFound(PackingSlipEntity)) && items == old(items) && slips == old(slips)
      ensures id in old(slips) ==>
                r == Ok(()) && items == RestoreStock(old(items), old(slips)[id].items) &&
                slips == old(slips) - {id}
    {
      if id !in slips {
        return Err(NotFound(PackingSlipEntity));
      }
      var lines := slips[id].items;
      var i := 0;
      while i < |lines|
        invariant 0 <= i <= |lines|
        invariant RestoreStock(old(items), lines) == RestoreStock(items, lines[i..])
        invariant slips == old(slips) && vendors == old(vendors)
      {
        var line := lines[i];
        assert lines[i..][0] == line && lines[i..][1..] == lines[i + 1..];
        if line.itemId in items {
          var stocked := items[line.itemId];
          items := items[line.itemId := stocked.(quantity := stocked.quantity + line.quantity)];
        }
        i := i + 1;
      }
      slips := slips - {id};
      r := Ok(());
    }

    /** PUT /api/packing-slips/:id. No item is read or written on either path. */
    method UpdateSlip(id: Id, body: UpdateBody) returns (r: Result<PackingSlip>)
      modifies this
      ensures items == old(items) && vendors == old(vendors)
      ensures id !in old(slips) ==> r == Err(NotFound(PackingSlipEntity)) && slips == old(slips)
      ensures id in old(slips) ==>
                r == Ok(UpdatedSlip(old(slips)[id], body)) && slips == old(slips)[id := r.value]
    {
      if id !in slips {
        return Err(NotFound(PackingSlipEntity));
      }
      var updated := UpdatedSlip(slips[id], body);
      slips := slips[id := updated];
      r := Ok(updated);
    }

    /** PUT /api/items/:id/add-stock. A vendor is looked up only when a
        (non-empty) vendor id is sent. */
    method AddStock(id: Id, quantity: int, price: int, vendorId: Option<Id>, today: Date)
      returns (r: Result<Item>)
      modifies this
      ensures slips == old(slips) && vendors == old(vendors)
      ensures id !in old(items) ==> r == Err(NotFound(ItemEntity)) && items == old(items)
      ensures id in old(items) && Truthy(vendorId) && vendorId.value !in vendors ==>
                r == Err(NotFound(VendorEntity)) && items == old(items)
      ensures id in old(items) && !Truthy(vendorId) ==>
                r == Ok(StockReceipt(old(items)[id], quantity, price, None, None, today)) &&
                items == old(items)[id := r.value]
      ensures id in old(items) && Truthy(vendorId) && vendorId.value in vendors ==>
                r == Ok(StockReceipt(old(items)[id], quantity, price, vendorId,
                                     Some(vendors[vendorId.value].name), today)) &&
                items == old(items)[id := r.value]
    {
      if id !in items {
        return Err(NotFound(ItemEntity));
      }
      var supplierId: Option<Id> := None;
      var supplierName: Option<string> := None;
      if Truthy(vendorId) {
        if vendorId.value !in vendors {
          return Err(NotFound(VendorEntity));
        }
        supplierId := vendorId;
        supplierName := Some(vendors[vendorId.value].name);
      }
      var updated := StockReceipt(items[id], quantity, price, supplierId, supplierName, today);
      items := items[id := updated];
      r := Ok(updated);
    }

    /** POST /api/items: merge into an item with the same name when there is
        one (which one, if several share the name, is not fixed), otherwise
        create a new item. */
    method UpsertItem(body: ItemBody, today: Date, newId: Id) returns (r: Item)
      requires newId !in items
      modifies this
      ensures slips == old(slips) && vendors == old(vendors)
      ensures (exists id :: id in old(items) && old(items)[id].name == body.name) ==>
                exists id :: id in old(items) && old(items)[id].name == body.name &&
                             r == MergedItem(old(items)[id], body, today) &&
                             items == old(items)[id := r]
      ensures (forall id :: id in old(items) ==> old(items)[id].name != body.name) ==>
                r == CreatedItem(body, today) && items == old(items)[newId := r]
    {
      if exists id :: id in items && items[id].name == body.name {
        var id :| id in items && items[id].name == body.name;
        r := MergedItem(items[id], body, today);
        items := items[id := r];
      } else {
        r := CreatedItem(body, today);
        items := items[newId := r];
      }
    }

    /** PUT /api/items/:id. */
    method ReplaceItem(id: Id, body: ItemBody) returns (r: Result<Item>)
      modifies this
      ensures slips == old(slips) && vendors == old(vendors)
      ensures id !in old(items) ==> r == Err(NotFound(ItemEntity)) && items == old(items)
      ensures id in old(items) ==>
                r == Ok(ReplacedItem(old(items)[id], body)) && items == old(items)[id := r.value]
    {
      if id !in items {
        return Err(NotFound(ItemEntity));
      }
      var updated := ReplacedItem(items[id], body);
      items := items[id := updated];
      r := Ok(updated);
    }

    /** DELETE /api/items/:id. Slips that name the item are left as they are. */
    method DeleteItem(id: Id) returns (r: Result<()>)
      modifies this
      ensures slips == old(slips) && vendors == old(vendors)
      ensures id !in old(items) ==> r == Err(NotFound(ItemEntity)) && items == old(items)
      ensures id in old(items) ==> r == Ok(()) && items == old(items) - {id}
    {
      if id !in items {
        return Err(NotFound(ItemEntity));
      }
      items := items - {id};
      r := Ok(());
    }
  }

  /** Removing a key just inserted gives the map back. */
  lemma InsertThenRemove(m: map<Id, PackingSlip>, k: Id, v: PackingSlip)
    requires k !in m
    ensures m[k := v] - {k} == m
  {
  }

  /** A client of the store: creating a slip whose lines all fit in stock and
      then cancelling it leaves both collections as they were. A create that
      fails on the slip number keeps its decrements, so nothing is restored. */
  method CreateThenCancel(store: Store, req: SlipRequest, today: Date, newId: Id)
    returns (created: Result<PackingSlip>)
    requires newId !in store.slips
    requires NoClamp(store.items, req.lines)
    modifies store
    ensures created.Ok? ==> store.items == old(store.items) && store.slips == old(store.slips)
    ensures created.Err? ==>
              created.failure.DuplicateSlipNumber? &&
              store.items == ApplyDecrements(old(store.items), req.lines).items
  {
    ghost var itemsBefore, slipsBefore := store.items, store.slips;
    CreateThenCancelRestoresStock(itemsBefore, req.lines);
    created := store.CreateSlip(req, today, newId);
    if created.Ok? {
      assert store.slips == slipsBefore[newId := created.value];
      assert store.slips[newId].items == StoreLines(req.lines);
      var cancelled := store.CancelSlip(newId);
      assert store.slips == slipsBefore[newId := created.value] - {newId};
      InsertThenRemove(slipsBefore, newId, created.value);
    }
  }
}
