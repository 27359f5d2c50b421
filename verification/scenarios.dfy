/** Worked examples of the order workflow on small inventories, proved as lemmas. */
module Scenarios {
  import opened Wrappers
  import opened Inventory
  import opened CreateOrder

  /** An order store that persists exactly the lines it is given: same
      customer, and the lines' ids and quantities with their multiplicity. */
  function EchoStore(customer: Customer, lines: seq<PricedLine>): (order: Order)
    ensures order.customer == customer
    ensures multiset(order.orderProducts) == multiset(PersistedView(lines))
  {
    Order(customer, PersistedView(lines))
  }

  const c1 := Customer("c1")
  const stock := [ProductRecord("p1", 10, 5)]

  /** In the one-record inventory, p1 resolves to that record. */
  lemma StockResolvesP1()
    ensures Ids(stock) == ["p1"]
    ensures StockOf(stock, "p1") == 5 && PriceOf(stock, "p1") == 10
  {
  }

  /** Three of five in stock: one line priced at 10, stock updated to 2. */
  lemma PlacedOrder()
    ensures Validate(Some(c1), stock, [RequestedProduct("p1", 3)]) == Success([PricedLine("p1", 3, 10)])
    ensures Execute(Some(c1), stock, [RequestedProduct("p1", 3)], EchoStore)
            == Success(Placement(Order(c1, [OrderProduct("p1", 3)]), [QuantityUpdate("p1", 2)]))
  {
    StockResolvesP1();
    var lines := Validate(Some(c1), stock, [RequestedProduct("p1", 3)]).value;
    assert lines == [PricedLine("p1", 3, 10)];
    assert PersistedView(lines) == [OrderProduct("p1", 3)];
    assert Decrements([OrderProduct("p1", 3)], stock).value == [QuantityUpdate("p1", 2)];
  }

  /** Six of five in stock: rejected, naming quantity 6 and id p1. */
  lemma OverStockRejected()
    ensures Execute(Some(c1), stock, [RequestedProduct("p1", 6)], EchoStore)
            == Failure(InsufficientStock(6, "p1"))
  {
  }

  /** Exactly the available stock passes and leaves zero. */
  lemma ExactStockAccepted()
    ensures Execute(Some(c1), stock, [RequestedProduct("p1", 5)], EchoStore)
            == Success(Placement(Order(c1, [OrderProduct("p1", 5)]), [QuantityUpdate("p1", 0)]))
  {
    StockResolvesP1();
    var lines := Validate(Some(c1), stock, [RequestedProduct("p1", 5)]).value;
    assert lines == [PricedLine("p1", 5, 10)];
    assert PersistedView(lines) == [OrderProduct("p1", 5)];
    assert Decrements([OrderProduct("p1", 5)], stock).value == [QuantityUpdate("p1", 0)];
  }

  /** An unknown customer is rejected before the products are looked at. */
  lemma UnknownCustomerRejected(snapshot: seq<ProductRecord>, requested: seq<RequestedProduct>)
    ensures Execute(None, snapshot, requested, EchoStore) == Failure(CustomerNotFound)
  {
  }

  /** An id the inventory lacks is reported by name, even when it comes after
      a line that is over its stock: existence is checked first. */
  lemma MissingProductRejected()
    ensures Execute(Some(c1), stock, [RequestedProduct("p1", 9), RequestedProduct("missing", 1)], EchoStore)
            == Failure(ProductNotFound("missing"))
  {
  }

  /** When no requested id is found the lookup returns nothing and the
      error is `NoProductsFound`, not `ProductNotFound`. */
  lemma NothingFoundRejected()
    ensures Execute(Some(c1), [], [RequestedProduct("missing", 1)], EchoStore) == Failure(NoProductsFound)
  {
  }

  /** Two lines of three against a stock of five both pass, and both set the
      stock to two: duplicated ids are checked and decremented independently. */
  lemma DuplicateLinesCheckedIndependently()
    ensures Execute(Some(c1), stock, [RequestedProduct("p1", 3), RequestedProduct("p1", 3)], EchoStore)
            == Success(Placement(Order(c1, [OrderProduct("p1", 3), OrderProduct("p1", 3)]),
                                 [QuantityUpdate("p1", 2), QuantityUpdate("p1", 2)]))
  {
    StockResolvesP1();
    var requested := [RequestedProduct("p1", 3), RequestedProduct("p1", 3)];
    assert forall p :: p in requested ==> p == RequestedProduct("p1", 3);
    var lines := Validate(Some(c1), stock, requested).value;
    assert lines == [PricedLine("p1", 3, 10), PricedLine("p1", 3, 10)];
    var ops := [OrderProduct("p1", 3), OrderProduct("p1", 3)];
    assert PersistedView(lines) == ops;
    assert forall op :: op in ops ==> op == OrderProduct("p1", 3);
    assert Decrements(ops, stock).value == [QuantityUpdate("p1", 2), QuantityUpdate("p1", 2)];
  }

  /** With the echoing store the workflow succeeds exactly when validation
      does, and never drives a stock below zero. */
  lemma EchoStoreKeepsStock(customer: Option<Customer>, snapshot: seq<ProductRecord>, requested: seq<RequestedProduct>)
    ensures Execute(customer, snapshot, requested, EchoStore).Success? <==> Validate(customer, snapshot, requested).Success?
    ensures Execute(customer, snapshot, requested, EchoStore).Success? ==>
              forall u :: u in Execute(customer, snapshot, requested, EchoStore).value.updates ==> u.quantity >= 0
  {
    FaithfulStorePlacesOrder(customer, snapshot, requested, EchoStore);
  }
}
