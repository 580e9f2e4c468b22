/** Records shared by the backend handlers and the web client: the stored
    documents (items, packing slips, vendors), their embedded sub-records,
    and the small JavaScript idioms (`x || 0`, `if (s)`, `Array.find`) that
    the handlers apply to request bodies. Prices are integer cents, dates
    are (year, month, day), every quantity is an `int`. */
module Records {

  /** A MongoDB object id, in its string form. */
  type Id = string

  datatype Option<T> = None | Some(value: T)

  datatype Result<T> = Ok(value: T) | Err(failure: Failure)

  /** What a 404 response names. */
  datatype Entity = PackingSlipEntity | ItemEntity | VendorEntity

  /** The error responses of the modelled handlers:
      404 for a missing target, 500 for an unknown item during slip
      creation, and 500 for the unique index on `slipNumber`. */
  datatype Failure =
    | NotFound(entity: Entity)
    | ItemMissing(itemId: Id)
    | DuplicateSlipNumber(slipNumber: string)

  datatype Date = Date(year: nat, month: nat, day: nat)

  /** One entry of an item's `purchaseHistory`. */
  datatype Purchase = Purchase(price: int, quantity: int, date: Date,
                               vendorId: Option<Id>, vendorName: Option<string>)

  /** The `vendor` sub-document kept inside an item; `{}` has every field absent. */
  datatype VendorSnapshot = VendorSnapshot(id: Option<Id>, name: Option<string>,
                                           contact: Option<string>, phone: Option<string>,
                                           email: Option<string>, address: Option<string>,
                                           notes: Option<string>)

  const EmptySnapshot: VendorSnapshot :=
    VendorSnapshot(None, None, None, None, None, None, None)

  datatype Vendor = Vendor(name: string, contact: string, phone: string,
                           email: string, address: string, notes: string)

  datatype Item = Item(name: string, quantity: int, price: int, sellingPrice: int,
                       latestPrice: int, reorderLevel: int,
                       purchaseHistory: seq<Purchase>, vendor: VendorSnapshot,
                       imageUrl: Option<string>)

  /** A slip line as the client builds it and sends it; `backorderQuantity`
      may be missing. */
  datatype OrderLine = OrderLine(itemId: Id, name: string, quantity: int, price: int,
                                 backorderQuantity: Option<int>)

  /** A slip line as stored (the schema defaults `backorderQuantity` to 0). */
  datatype SlipLine = SlipLine(itemId: Id, name: string, quantity: int, price: int,
                               backorderQuantity: int)

  datatype Customer = Customer(name: string, contact: string, phone: string,
                               email: string, address: string, company: string)

  datatype PackingSlip = PackingSlip(slipNumber: string, date: Date,
                                     items: seq<SlipLine>, totalAmount: int,
                                     customer: Customer, notes: string,
                                     isCompleted: bool)

  /** JavaScript `x || 0` on a number that may be missing (or NaN). */
  function OrZero(x: Option<int>): (r: int)
    ensures x.Some? ==> r == x.value
    ensures x.None? ==> r == 0
  {
    if x.Some? then x.value else 0
  }

  /** JavaScript `Number(x) || d`: a missing value and a zero both give `d`. */
  function OrDefault(x: Option<int>, d: int): (r: int)
    ensures r == d || (x.Some? && r == x.value && r != 0)
    ensures x.Some? && x.value != 0 ==> r == x.value
  {
    if x.Some? && x.value != 0 then x.value else d
  }

  /** JavaScript truthiness of a string that may be missing. */
  predicate Truthy(s: Option<string>)
  {
    s.Some? && s.value != ""
  }

  /** `Array.prototype.find`: the first element satisfying `p`. */
  function FindFirst<T>(xs: seq<T>, p: T -> bool): (r: Option<T>)
    ensures r.None? <==> forall k :: 0 <= k < |xs| ==> !p(xs[k])
    ensures r.Some? ==> exists k :: 0 <= k < |xs| && xs[k] == r.value && p(r.value) &&
                                    forall j :: 0 <= j < k ==> !p(xs[j])
  {
    if xs == [] then None
    else if p(xs[0]) then Some(xs[0])
    else
      var r := FindFirst(xs[1..], p);
      assert forall k :: 1 <= k < |xs| ==> xs[k] == xs[1..][k - 1];
      r
  }
}
