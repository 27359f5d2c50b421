/** The order-creation workflow (`CreateOrderService.execute`) as a pure
    validate-then-transform pipeline. The customer lookup and the inventory
    snapshot are inputs; the order store is a function parameter; the
    inventory update batch is returned instead of being sent. */
module CreateOrder {
  import opened Wrappers
  import opened Seqs
  import opened Inventory

  /** One requested line: a product id and the quantity wanted. */
  datatype RequestedProduct = RequestedProduct(id: Id, quantity: int)

  /** The customer record returned by the customer lookup (opaque). */
  datatype Customer = Customer(id: Id)

  /** A priced line item handed to the order store. */
  datatype PricedLine = PricedLine(productId: Id, quantity: int, price: int)

  /** A persisted line item of the created order (`order_products`). */
  datatype OrderProduct = OrderProduct(productId: Id, quantity: int)

  /** The order aggregate the store returns. */
  datatype Order = Order(customer: Customer, orderProducts: seq<OrderProduct>)

  /** One entry of the bulk inventory update: the new stock of a product. */
  datatype QuantityUpdate = QuantityUpdate(id: Id, quantity: int)

  /** A completed placement: the created order and the update batch sent to
      the inventory. */
  datatype Placement = Placement(order: Order, updates: seq<QuantityUpdate>)

  /** The errors the workflow throws. The first four are its validation
      errors; `UnmatchedOrderProduct` is the runtime fault of reading
      `.quantity` of an `undefined` first match when a persisted line item
      names a product the snapshot does not hold. */
  datatype OrderError =
    | CustomerNotFound
    | NoProductsFound
    | ProductNotFound(id: Id)
    | InsufficientStock(quantity: int, id: Id)
    | UnmatchedOrderProduct(productId: Id)

  /** Every requested id is among the snapshot's ids. */
  predicate AllKnown(requested: seq<RequestedProduct>, snapshot: seq<ProductRecord>)
  {
    forall p :: p in requested ==> p.id in Ids(snapshot)
  }

  /** `existsProducts.filter(p => p.id === id)[0].quantity`: defined only
      for a known id, and then the stock of the record at the earliest
      position carrying it. */
  function StockOf(snapshot: seq<ProductRecord>, id: Id): (q: int)
    requires id in Ids(snapshot)
    ensures q == snapshot[Earliest(snapshot, id)].quantity
  {
    FirstMatchAt(snapshot, id, Earliest(snapshot, id));
    FirstMatch(snapshot, id).value.quantity
  }

  /** `existsProducts.filter(p => p.id === id)[0].price`: defined only for a
      known id, and then the price of the record at the earliest position
      carrying it. */
  function PriceOf(snapshot: seq<ProductRecord>, id: Id): (price: int)
    requires id in Ids(snapshot)
    ensures price == snapshot[Earliest(snapshot, id)].price
  {
    FirstMatchAt(snapshot, id, Earliest(snapshot, id));
    FirstMatch(snapshot, id).value.price
  }

  /** The callback `product => !existenstProductIds.includes(product.id)`;
      `Inexistent` states what filtering by it keeps. */
  function NotIn(ids: seq<Id>): RequestedProduct -> bool
  {
    (p: RequestedProduct) => p.id !in ids
  }

  /** The callback comparing a requested quantity with the first matching
      record's stock; it may only be applied to ids the snapshot holds.
      `OverRequested` states what filtering by it keeps. */
  function Exceeds(snapshot: seq<ProductRecord>): RequestedProduct --> bool
  {
    (p: RequestedProduct) requires p.id in Ids(snapshot) => StockOf(snapshot, p.id) < p.quantity
  }

  /** `checkInexistentProducts`: the requested lines whose id the snapshot
      lacks; empty exactly when every requested id is known. */
  function Inexistent(requested: seq<RequestedProduct>, snapshot: seq<ProductRecord>): (missing: seq<RequestedProduct>)
    ensures forall p :: p in missing <==> p in requested && p.id !in Ids(snapshot)
    ensures |missing| == 0 <==> AllKnown(requested, snapshot)
  {
    Filter(requested, NotIn(Ids(snapshot)))
  }

  /** `findProductsWhithQuantityAvailable`: the requested lines asking for
      more than the first matching record's stock. It can only be computed
      once every id is known, because the comparison reads that record. */
  function OverRequested(requested: seq<RequestedProduct>, snapshot: seq<ProductRecord>): (short: seq<RequestedProduct>)
    requires AllKnown(requested, snapshot)
    ensures forall p :: p in short <==> p in requested && StockOf(snapshot, p.id) < p.quantity
  {
    Filter(requested, Exceeds(snapshot))
  }

  /** `lines` are the priced line items of `requested`: one per requested
      line, in the same order, each carrying its id and quantity and the price
      of the first matching snapshot record. */
  ghost predicate PricedFrom(lines: seq<PricedLine>, requested: seq<RequestedProduct>, snapshot: seq<ProductRecord>)
    requires AllKnown(requested, snapshot)
  {
    && |lines| == |requested|
    && forall i :: 0 <= i < |requested| ==>
         lines[i] == PricedLine(requested[i].id, requested[i].quantity, PriceOf(snapshot, requested[i].id))
  }

  /** `serializedProduct`: the priced line items of the request. */
  function Serialize(requested: seq<RequestedProduct>, snapshot: seq<ProductRecord>): (lines: seq<PricedLine>)
    requires AllKnown(requested, snapshot)
    ensures PricedFrom(lines, requested, snapshot)
  {
    if |requested| == 0 then []
    else
      var p := requested[0];
      [PricedLine(p.id, p.quantity, PriceOf(snapshot, p.id))] + Serialize(requested[1..], snapshot)
  }

  /** The validation chain of `execute` followed by the line-item pricing.
      Checks run in the source's order: customer, non-empty snapshot, id
      existence, stock. A request exactly equal to the stock passes. */
  function Validate(customer: Option<Customer>, snapshot: seq<ProductRecord>, requested: seq<RequestedProduct>): (r: Result<seq<PricedLine>, OrderError>)
    ensures customer.None? ==> r == Failure(CustomerNotFound)
    ensures customer.Some? && |snapshot| == 0 ==> r == Failure(NoProductsFound)
    ensures r.Success? <==>
      && customer.Some?
      && |snapshot| > 0
      && AllKnown(requested, snapshot)
      && forall p :: p in requested ==> p.quantity <= StockOf(snapshot, p.id)
    ensures r.Success? ==> PricedFrom(r.value, requested, snapshot)
    ensures r.Failure? ==> !r.error.UnmatchedOrderProduct?
  {
    if customer.None? then Failure(CustomerNotFound)
    else if |snapshot| == 0 then Failure(NoProductsFound)
    else
      var missing := Inexistent(requested, snapshot);
      if |missing| > 0 then Failure(ProductNotFound(missing[0].id))
      else
        var short := OverRequested(requested, snapshot);
        if |short| > 0 then Failure(InsufficientStock(short[0].quantity, short[0].id))
        else Success(Serialize(requested, snapshot))
  }

  /** `i` is the first requested line whose id the snapshot lacks. */
  ghost predicate FirstMissingAt(requested: seq<RequestedProduct>, snapshot: seq<ProductRecord>, i: int)
  {
    && 0 <= i < |requested|
    && requested[i].id !in Ids(snapshot)
    && forall j :: 0 <= j < i ==> requested[j].id in Ids(snapshot)
  }

  /** `i` is the first requested line asking for more than the stock of its
      first matching record. */
  ghost predicate FirstShortAt(requested: seq<RequestedProduct>, snapshot: seq<ProductRecord>, i: int)
    requires AllKnown(requested, snapshot)
  {
    && 0 <= i < |requested|
    && StockOf(snapshot, requested[i].id) < requested[i].quantity
    && forall j :: 0 <= j < i ==> requested[j].quantity <= StockOf(snapshot, requested[j].id)
  }

  /** An unknown id is reported as `ProductNotFound` naming the first unknown
      line, before any stock is compared. */
  lemma MissingProductReported(customer: Option<Customer>, snapshot: seq<ProductRecord>, requested: seq<RequestedProduct>, i: int)
    requires customer.Some? && |snapshot| > 0
    requires FirstMissingAt(requested, snapshot, i)
    ensures Validate(customer, snapshot, requested) == Failure(ProductNotFound(requested[i].id))
  {
    assert FirstKeptAt(requested, NotIn(Ids(snapshot)), i);
    FilterStartsAtFirstKept(requested, NotIn(Ids(snapshot)), i);
  }

  /** A `ProductNotFound` error always names the first unknown line. */
  lemma ProductNotFoundNamesFirstMissing(customer: Option<Customer>, snapshot: seq<ProductRecord>, requested: seq<RequestedProduct>)
    returns (i: int)
    requires Validate(customer, snapshot, requested).Failure?
    requires Validate(customer, snapshot, requested).error.ProductNotFound?
    ensures FirstMissingAt(requested, snapshot, i)
    ensures Validate(customer, snapshot, requested).error.id == requested[i].id
  {
    var keep := NotIn(Ids(snapshot));
    FilterHeadIsFirstKept(requested, keep);
    i :| FirstKeptAt(requested, keep, i) && Filter(requested, keep)[0] == requested[i];
  }

  /** Once every id is known, a line over its stock is reported as
      `InsufficientStock` naming the first such line's quantity and id. */
  lemma ShortageReported(customer: Option<Customer>, snapshot: seq<ProductRecord>, requested: seq<RequestedProduct>, i: int)
    requires customer.Some? && |snapshot| > 0
    requires AllKnown(requested, snapshot)
    requires FirstShortAt(requested, snapshot, i)
    ensures Validate(customer, snapshot, requested) == Failure(InsufficientStock(requested[i].quantity, requested[i].id))
  {
    assert FirstKeptAt(requested, Exceeds(snapshot), i);
    FilterStartsAtFirstKept(requested, Exceeds(snapshot), i);
  }

  /** An `InsufficientStock` error always comes from a request whose ids are
      all known, and names the first line over its stock. */
  lemma InsufficientStockNamesFirstShort(customer: Option<Customer>, snapshot: seq<ProductRecord>, requested: seq<RequestedProduct>)
    returns (i: int)
    requires Validate(customer, snapshot, requested).Failure?
    requires Validate(customer, snapshot, requested).error.InsufficientStock?
    ensures AllKnown(requested, snapshot)
    ensures FirstShortAt(requested, snapshot, i)
    ensures Validate(customer, snapshot, requested).error == InsufficientStock(requested[i].quantity, requested[i].id)
  {
    var keep := Exceeds(snapshot);
    FilterHeadIsFirstKept(requested, keep);
    i :| FirstKeptAt(requested, keep, i) && Filter(requested, keep)[0] == requested[i];
  }

  /** Every snapshot record carries a requested id: the inventory lookup is
      asked for the requested ids only. */
  ghost predicate SnapshotOfRequest(snapshot: seq<ProductRecord>, requested: seq<RequestedProduct>)
  {
    forall r :: r in snapshot ==> exists p :: p in requested && p.id == r.id
  }

  /** A non-empty snapshot that holds only requested ids has a requested
      line whose id it knows. */
  lemma SomeRequestedIdKnown(snapshot: seq<ProductRecord>, requested: seq<RequestedProduct>) returns (p: RequestedProduct)
    requires SnapshotOfRequest(snapshot, requested)
    requires |snapshot| > 0
    ensures p in requested && p.id in Ids(snapshot)
  {
    assert snapshot[0] in snapshot;
    p :| p in requested && p.id == snapshot[0].id;
  }

  /** When the snapshot holds only requested ids and none of the requested
      ids is found, the snapshot is empty, so the error is `NoProductsFound`
      and never `ProductNotFound`. */
  lemma NothingKnownIsNothingFound(customer: Option<Customer>, snapshot: seq<ProductRecord>, requested: seq<RequestedProduct>)
    requires customer.Some?
    requires SnapshotOfRequest(snapshot, requested)
    ensures (forall p :: p in requested ==> p.id !in Ids(snapshot)) ==>
              |snapshot| == 0 && Validate(customer, snapshot, requested) == Failure(NoProductsFound)
  {
    if |snapshot| > 0 {
      var p := SomeRequestedIdKnown(snapshot, requested);
    }
  }

  /** Each priced line takes the price of the record at the earliest snapshot
      position carrying its id; duplicated requested ids are neither merged
      nor priced differently. */
  lemma LinePricedFromEarliestRecord(customer: Option<Customer>, snapshot: seq<ProductRecord>, requested: seq<RequestedProduct>, i: int, k: int)
    requires Validate(customer, snapshot, requested).Success?
    requires 0 <= i < |requested|
    requires EarliestAt(snapshot, requested[i].id, k)
    ensures |Validate(customer, snapshot, requested).value| == |requested|
    ensures Validate(customer, snapshot, requested).value[i]
            == PricedLine(requested[i].id, requested[i].quantity, snapshot[k].price)
  {
    FirstMatchAt(snapshot, requested[i].id, k);
  }

  /** The line items as the order store persists them (id and quantity). */
  function PersistedView(lines: seq<PricedLine>): (ops: seq<OrderProduct>)
    ensures |ops| == |lines|
    ensures forall i :: 0 <= i < |lines| ==>
              ops[i] == OrderProduct(lines[i].productId, lines[i].quantity)
  {
    if |lines| == 0 then []
    else [OrderProduct(lines[0].productId, lines[0].quantity)] + PersistedView(lines[1..])
  }

  /** `ordersProductsQuantity`: one update per persisted line item, in
      order; it faults on the first item whose id the snapshot lacks.
      `DecrementsPointwise` gives the value of each update. */
  function Decrements(orderProducts: seq<OrderProduct>, snapshot: seq<ProductRecord>): (r: Result<seq<QuantityUpdate>, OrderError>)
    ensures r.Success? <==> forall i :: 0 <= i < |orderProducts| ==> orderProducts[i].productId in Ids(snapshot)
    ensures r.Success? ==> |r.value| == |orderProducts|
    ensures r.Failure? ==> r.error.UnmatchedOrderProduct?
  {
    if |orderProducts| == 0 then Success([])
    else
      var op := orderProducts[0];
      if op.productId !in Ids(snapshot) then Failure(UnmatchedOrderProduct(op.productId))
      else
        match Decrements(orderProducts[1..], snapshot)
        case Failure(e) => Failure(e)
        case Success(rest) => Success([QuantityUpdate(op.productId, StockOf(snapshot, op.productId) - op.quantity)] + rest)
  }

  /** Each update sets the item's product to the snapshot's first-match
      stock minus the item's own quantity. */
  lemma {:induction false} DecrementsPointwise(orderProducts: seq<OrderProduct>, snapshot: seq<ProductRecord>)
    requires Decrements(orderProducts, snapshot).Success?
    ensures forall i :: 0 <= i < |orderProducts| ==>
              && orderProducts[i].productId in Ids(snapshot)
              && Decrements(orderProducts, snapshot).value[i]
                 == QuantityUpdate(orderProducts[i].productId,
                                   StockOf(snapshot, orderProducts[i].productId) - orderProducts[i].quantity)
  {
    if |orderProducts| > 0 {
      DecrementsPointwise(orderProducts[1..], snapshot);
      forall i | 1 <= i < |orderProducts|
        ensures orderProducts[i] == orderProducts[1..][i - 1]
      {
      }
    }
  }

  /** `i` is the first persisted line item whose id the snapshot lacks. */
  ghost predicate FirstUnmatchedAt(orderProducts: seq<OrderProduct>, snapshot: seq<ProductRecord>, i: int)
  {
    && 0 <= i < |orderProducts|
    && orderProducts[i].productId !in Ids(snapshot)
    && forall j :: 0 <= j < i ==> orderProducts[j].productId in Ids(snapshot)
  }

  /** The decrement computation faults on the first unmatched item. */
  lemma {:induction false} DecrementFaultNamesFirstUnmatched(orderProducts: seq<OrderProduct>, snapshot: seq<ProductRecord>, i: int)
    requires FirstUnmatchedAt(orderProducts, snapshot, i)
    ensures Decrements(orderProducts, snapshot) == Failure(UnmatchedOrderProduct(orderProducts[i].productId))
  {
    if i > 0 {
      assert FirstUnmatchedAt(orderProducts[1..], snapshot, i - 1);
      DecrementFaultNamesFirstUnmatched(orderProducts[1..], snapshot, i - 1);
    }
  }

  /** Every persisted item names a snapshot product and asks for no more
      than that product's first-match stock. */
  ghost predicate WithinStock(orderProducts: seq<OrderProduct>, snapshot: seq<ProductRecord>)
  {
    forall k :: 0 <= k < |orderProducts| ==>
      && orderProducts[k].productId in Ids(snapshot)
      && orderProducts[k].quantity <= StockOf(snapshot, orderProducts[k].productId)
  }

  /** The validated priced lines, as a faithful store persists them, are
      within stock. */
  lemma ValidatedViewWithinStock(customer: Option<Customer>, snapshot: seq<ProductRecord>, requested: seq<RequestedProduct>)
    requires Validate(customer, snapshot, requested).Success?
    ensures WithinStock(PersistedView(Validate(customer, snapshot, requested).value), snapshot)
  {
    forall j | 0 <= j < |requested|
      ensures requested[j].id in Ids(snapshot) && requested[j].quantity <= StockOf(snapshot, requested[j].id)
    {
      assert requested[j] in requested;
    }
  }

  /** Persisted items that are the validated priced lines (same ids and
      quantities, same multiplicity, in any order) are within stock. */
  lemma ValidatedItemsWithinStock(customer: Option<Customer>, snapshot: seq<ProductRecord>, requested: seq<RequestedProduct>, orderProducts: seq<OrderProduct>)
    requires Validate(customer, snapshot, requested).Success?
    requires multiset(orderProducts) == multiset(PersistedView(Validate(customer, snapshot, requested).value))
    ensures WithinStock(orderProducts, snapshot)
  {
    var view := PersistedView(Validate(customer, snapshot, requested).value);
    ValidatedViewWithinStock(customer, snapshot, requested);
    forall k | 0 <= k < |orderProducts|
      ensures orderProducts[k].productId in Ids(snapshot)
      ensures orderProducts[k].quantity <= StockOf(snapshot, orderProducts[k].productId)
    {
      assert orderProducts[k] in multiset(view);
      var j :| 0 <= j < |view| && view[j] == orderProducts[k];
    }
  }

  /** Items within stock get an update for each, and none is below zero. */
  lemma DecrementsNonNegative(orderProducts: seq<OrderProduct>, snapshot: seq<ProductRecord>)
    requires WithinStock(orderProducts, snapshot)
    ensures Decrements(orderProducts, snapshot).Success?
    ensures forall i :: 0 <= i < |orderProducts| ==> Decrements(orderProducts, snapshot).value[i].quantity >= 0
  {
    DecrementsPointwise(orderProducts, snapshot);
  }

  /** Every update is computed from the same snapshot, so persisted items
      sharing an id are not cumulated: each update is that id's snapshot
      stock minus its own item's quantity alone. */
  lemma DuplicateIdsNotCumulated(orderProducts: seq<OrderProduct>, snapshot: seq<ProductRecord>, i: int, j: int)
    requires Decrements(orderProducts, snapshot).Success?
    requires 0 <= i < |orderProducts| && 0 <= j < |orderProducts|
    requires orderProducts[i].productId == orderProducts[j].productId
    ensures Decrements(orderProducts, snapshot).value[i].quantity + orderProducts[i].quantity
         == Decrements(orderProducts, snapshot).value[j].quantity + orderProducts[j].quantity
  {
    DecrementsPointwise(orderProducts, snapshot);
  }

  /** `execute`: validate and price, create the order through the store, then
      compute the inventory update batch from the persisted line items and
      the same snapshot. */
  function Execute(customer: Option<Customer>, snapshot: seq<ProductRecord>, requested: seq<RequestedProduct>,
                   create: (Customer, seq<PricedLine>) -> Order): (r: Result<Placement, OrderError>)
    ensures customer.None? ==> r == Failure(CustomerNotFound)
    ensures r.Failure? && !r.error.UnmatchedOrderProduct? ==>
              Validate(customer, snapshot, requested) == Failure(r.error)
    ensures r.Failure? && r.error.UnmatchedOrderProduct? ==>
              Validate(customer, snapshot, requested).Success?
    ensures Validate(customer, snapshot, requested).Success? ==>
              (r.Success? <==>
                 forall op :: op in create(customer.value, Validate(customer, snapshot, requested).value).orderProducts ==>
                   op.productId in Ids(snapshot))
    ensures r.Success? ==>
      && Validate(customer, snapshot, requested).Success?
      && r.value.order == create(customer.value, Validate(customer, snapshot, requested).value)
      && (forall op :: op in r.value.order.orderProducts ==> op.productId in Ids(snapshot))
      && |r.value.updates| == |r.value.order.orderProducts|
      && forall i :: 0 <= i < |r.value.updates| ==>
           var op := r.value.order.orderProducts[i];
           r.value.updates[i] == QuantityUpdate(op.productId, StockOf(snapshot, op.productId) - op.quantity)
  {
    match Validate(customer, snapshot, requested)
    case Failure(e) => Failure(e)
    case Success(lines) =>
      var order := create(customer.value, lines);
      match Decrements(order.orderProducts, snapshot)
      case Failure(e) => Failure(e)
      case Success(updates) =>
        DecrementsPointwise(order.orderProducts, snapshot);
        Success(Placement(order, updates))
  }

  /** A rejected request never reaches the order store: the outcome is the
      validation error whatever the store would have done. */
  lemma RejectionPrecedesPersistence(customer: Option<Customer>, snapshot: seq<ProductRecord>, requested: seq<RequestedProduct>,
                                     create: (Customer, seq<PricedLine>) -> Order, other: (Customer, seq<PricedLine>) -> Order)
    requires Validate(customer, snapshot, requested).Failure?
    ensures Execute(customer, snapshot, requested, create) == Execute(customer, snapshot, requested, other)
    ensures Execute(customer, snapshot, requested, create) == Failure(Validate(customer, snapshot, requested).error)
  {
  }

  /** With a store that persists exactly the priced lines it is given (same
      ids, quantities and multiplicity), the workflow succeeds exactly when
      validation does, and no update drives a stock below zero. */
  lemma FaithfulStorePlacesOrder(customer: Option<Customer>, snapshot: seq<ProductRecord>, requested: seq<RequestedProduct>,
                                 create: (Customer, seq<PricedLine>) -> Order)
    requires Validate(customer, snapshot, requested).Success? ==>
               multiset(create(customer.value, Validate(customer, snapshot, requested).value).orderProducts)
               == multiset(PersistedView(Validate(customer, snapshot, requested).value))
    ensures Execute(customer, snapshot, requested, create).Success? <==> Validate(customer, snapshot, requested).Success?
    ensures Execute(customer, snapshot, requested, create).Success? ==>
              forall u :: u in Execute(customer, snapshot, requested, create).value.updates ==> u.quantity >= 0
  {
    if Validate(customer, snapshot, requested).Success? {
      var order := create(customer.value, Validate(customer, snapshot, requested).value);
      ValidatedItemsWithinStock(customer, snapshot, requested, order.orderProducts);
      DecrementsNonNegative(order.orderProducts, snapshot);
    }
  }
}
