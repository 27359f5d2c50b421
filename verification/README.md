# Order creation workflow — a Dafny model

This project models `CreateOrderService.execute`, the one piece of business
logic in the orders module. A customer asks for a list of
`{id, quantity}` product lines. The service then:

1. looks up the customer and rejects the request if there is none;
2. reads an inventory snapshot for the requested ids and rejects the request
   if the snapshot is empty;
3. rejects the request if some requested id is not among the snapshot's ids,
   naming the first such line;
4. rejects the request if some line asks for more than the stock of the first
   snapshot record with its id, naming the first such line;
5. prices each line from that same first matching record;
6. creates the order through the order store;
7. computes one inventory update per persisted line item, setting the stock
   to the snapshot stock minus the item's quantity, and sends the batch.

The model is purely functional:

- `wrappers.dfy` — `Option` and `Result`.
- `seqs.dfy` — `Filter`, the array `filter` the service uses for every lookup and line check,
  and two lemmas that tie `filter(...)[0]` to the first accepted position.
- `inventory.dfy` — snapshot records, their ids, and `FirstMatch`,
  the `existsProducts.filter(p => p.id === id)[0]` lookup. It is written as
  a front-to-back scan, and a lemma proves it equal to the head of the
  filter.
- `create_order.dfy` — the request, line item, order and error datatypes.
  It holds the validation chain `Validate`, the pricing map `Serialize`,
  the decrement map `Decrements` and the whole workflow `Execute`, plus
  lemmas about them.
- `scenarios.dfy` — worked examples, proved as lemmas: a placed order,
  over-stock, exact stock, unknown customer, an unknown id, an empty
  snapshot, duplicated lines, and the workflow with a store that persists
  exactly the lines it is given.

The customer lookup result and the inventory snapshot are inputs. The order
store (`ordersRepository.create`) is a function parameter
`(Customer, seq<PricedLine>) -> Order`. The inventory update batch
(`productsRepository.updateQuantity`) is returned inside `Placement` rather
than sent.

The `[0]` lookups at lines 58 and 71 of the service are unguarded. They are
safe only because of the existence check. In the model, the stock comparison
`Exceeds` and the pricing `Serialize` may only be applied to known ids, so
`Validate` verifies only because the existence check comes first. The same
lookup at line 85 runs over the *persisted* line items, and nothing checks it
there. A store that persisted an id missing from the snapshot would make
JavaScript throw a `TypeError` on `undefined.quantity`. This is modelled as
the error `UnmatchedOrderProduct`; `Execute` raises it exactly when some
persisted id is missing from the snapshot. `FaithfulStorePlacesOrder` shows it cannot
happen when the store persists the lines it was given.

Two edge cases of the code:

- The emptiness test at line 40 looks at the snapshot, not at the request.
  `NoProductsFound` is raised whenever the snapshot is empty, including for an
  empty request (`Validate`, `NothingFoundRejected`). The snapshot is fetched
  for the requested ids (line 38). When it holds only records with requested
  ids, a request whose ids are all unknown finds it empty. Such a request gets
  `NoProductsFound` and never `ProductNotFound`
  (`NothingKnownIsNothingFound`).
- The unguarded lookup at line 85 runs after the order has been persisted.
  It can fail there from the code itself, not only from a failing
  collaborator (`Decrements`, `Execute`).

## Model

| member | source | states |
|---|---|---|
| Seqs.Filter | src/modules/orders/services/CreateOrderService.ts:46-60 | the filtered array holds exactly the elements the callback accepts, and it is empty iff no element is accepted; a partial callback must be defined on every element |
| Seqs.FilterStartsAtFirstKept | src/modules/orders/services/CreateOrderService.ts:50-52 | if position i is the first accepted one, `filter(...)[0]` exists and is the element at i |
| Seqs.FilterHeadIsFirstKept | src/modules/orders/services/CreateOrderService.ts:62-64 | a non-empty filter's `[0]` is the element at the first accepted position |
| Inventory.Ids | src/modules/orders/services/CreateOrderService.ts:44 | the id list has one entry per snapshot record, position by position |
| Inventory.Matches | src/modules/orders/services/CreateOrderService.ts:58 | filtering the snapshot by id keeps exactly the records with that id, and is non-empty iff the id is among the snapshot ids |
| Inventory.FirstMatch | src/modules/orders/services/CreateOrderService.ts:71 | the `[0]` lookup is undefined iff the id is not in the snapshot; otherwise it is a snapshot record with that id |
| Inventory.FilterHeadIsFirstMatch | src/modules/orders/services/CreateOrderService.ts:85 | the scan returns undefined when `filter(p => p.id === id)` is empty and the filter's `[0]` otherwise |
| Inventory.FirstMatchAt | src/modules/orders/services/CreateOrderService.ts:58 | the first match is the record at the earliest snapshot position carrying the id, even when the snapshot repeats an id |
| Inventory.FirstMatchIsEarliest | src/modules/orders/services/CreateOrderService.ts:58 | whatever the first match returns sits at the earliest position carrying the id |
| Inventory.Earliest | src/modules/orders/services/CreateOrderService.ts:58 | every id among the snapshot ids has an earliest position carrying it: that record carries the id and no earlier one does |
| CreateOrder.StockOf | src/modules/orders/services/CreateOrderService.ts:58 | the stock read by `filter(p => p.id === id)[0].quantity` is defined only for an id the snapshot holds, and is the quantity of the record at the earliest position with that id |
| CreateOrder.PriceOf | src/modules/orders/services/CreateOrderService.ts:71 | the price read by `filter(p => p.id === id)[0].price` is defined only for an id the snapshot holds, and is the price of the record at the earliest position with that id |
| CreateOrder.Inexistent | src/modules/orders/services/CreateOrderService.ts:46-48 | filtering by the callback `NotIn` (`!existenstProductIds.includes(product.id)`) keeps exactly the requested lines whose id is not in the snapshot; there are none iff every id is known |
| CreateOrder.OverRequested | src/modules/orders/services/CreateOrderService.ts:56-60 | filtering by the callback `Exceeds` (first match's stock `<` requested quantity) is computable only once every id is known, and keeps exactly the lines asking for more than their first match's stock |
| CreateOrder.Serialize | src/modules/orders/services/CreateOrderService.ts:68-72 | one priced line per requested line, same order, no merging of duplicates; each line carries the request's id and quantity and the first match's price |
| CreateOrder.Validate | src/modules/orders/services/CreateOrderService.ts:31-72 | an absent customer gives CustomerNotFound whatever the products; otherwise an empty snapshot gives NoProductsFound; success holds iff the customer exists, the snapshot is non-empty, every id is known and every quantity is at most its stock (equal passes); success returns the priced lines |
| CreateOrder.MissingProductReported | src/modules/orders/services/CreateOrderService.ts:44-54 | when the first unknown id is at line i, the result is ProductNotFound of that id, whatever the stock of the other lines |
| CreateOrder.ProductNotFoundNamesFirstMissing | src/modules/orders/services/CreateOrderService.ts:50-54 | a ProductNotFound error always names the first line in input order whose id is unknown |
| CreateOrder.ShortageReported | src/modules/orders/services/CreateOrderService.ts:56-66 | with every id known and line i the first over its stock, the result is InsufficientStock with line i's quantity and id |
| CreateOrder.InsufficientStockNamesFirstShort | src/modules/orders/services/CreateOrderService.ts:62-66 | an InsufficientStock error only arises once every id is known, and names the first line over its stock |
| CreateOrder.NothingKnownIsNothingFound | src/modules/orders/services/CreateOrderService.ts:38-54 | with a customer, a snapshot holding only requested ids, and every requested id unknown, the snapshot is empty and the result is NoProductsFound, not ProductNotFound |
| CreateOrder.LinePricedFromEarliestRecord | src/modules/orders/services/CreateOrderService.ts:68-72 | on success, line i carries the requested id and quantity and the price of the snapshot record at the earliest position with that id |
| CreateOrder.PersistedView | src/modules/orders/services/CreateOrderService.ts:74-77 | the items a faithful store persists: one per priced line, position by position, with the line's product id and quantity |
| CreateOrder.Decrements | src/modules/orders/services/CreateOrderService.ts:82-87 | the batch exists iff every persisted id is in the snapshot, and then has one update per persisted item; otherwise it fails with the unmatched-item fault |
| CreateOrder.DecrementsPointwise | src/modules/orders/services/CreateOrderService.ts:82-87 | update i is for persisted item i's product and sets its stock to the snapshot's first-match stock minus item i's quantity |
| CreateOrder.DecrementFaultNamesFirstUnmatched | src/modules/orders/services/CreateOrderService.ts:82-87 | the decrement computation fails on the first persisted item whose id the snapshot lacks |
| CreateOrder.ValidatedViewWithinStock | src/modules/orders/services/CreateOrderService.ts:56-77 | when validation succeeds, every priced line as persisted names a snapshot product and asks for no more than its first-match stock |
| CreateOrder.ValidatedItemsWithinStock | src/modules/orders/services/CreateOrderService.ts:56-87 | when the persisted items are the validated lines (same ids, quantities and multiplicity, any order), each names a snapshot product and asks for no more than its first-match stock |
| CreateOrder.DecrementsNonNegative | src/modules/orders/services/CreateOrderService.ts:82-87 | for persisted items within stock, the update batch exists and no update is below zero |
| CreateOrder.DuplicateIdsNotCumulated | src/modules/orders/services/CreateOrderService.ts:82-87 | two persisted items with the same id are decremented from the same snapshot stock, each by its own quantity only |
| CreateOrder.Execute | src/modules/orders/services/CreateOrderService.ts:31-92 | an absent customer fails with CustomerNotFound; validation errors are returned unchanged; once validation passes, the workflow faults iff some item the store persisted has an id missing from the snapshot, and succeeds otherwise; on success the order is the store's result for the customer and priced lines, every persisted id is in the snapshot, and there is one update per persisted item equal to snapshot stock minus item quantity |
| CreateOrder.RejectionPrecedesPersistence | src/modules/orders/services/CreateOrderService.ts:31-77 | when validation fails the outcome is that error and does not depend on the order store, so nothing is persisted |
| CreateOrder.FaithfulStorePlacesOrder | src/modules/orders/services/CreateOrderService.ts:68-89 | with a store that persists the lines it is given, the workflow succeeds iff validation does, and no update is negative |
| Scenarios.PlacedOrder | src/modules/orders/services/CreateOrderService.ts:68-91 | three of p1 (price 10, stock 5) yields the line (p1, 3, 10) and the update (p1, 2) |
| Scenarios.OverStockRejected | src/modules/orders/services/CreateOrderService.ts:56-66 | six of p1 with stock 5 fails with InsufficientStock(6, p1) |
| Scenarios.ExactStockAccepted | src/modules/orders/services/CreateOrderService.ts:56-60 | five of p1 with stock 5 succeeds and sets the stock to 0 |
| Scenarios.UnknownCustomerRejected | src/modules/orders/services/CreateOrderService.ts:32-36 | an absent customer fails with CustomerNotFound for any snapshot and request |
| Scenarios.MissingProductRejected | src/modules/orders/services/CreateOrderService.ts:44-54 | an unknown id fails with ProductNotFound naming it, even after an over-stock line |
| Scenarios.NothingFoundRejected | src/modules/orders/services/CreateOrderService.ts:38-42 | an empty snapshot fails with NoProductsFound |
| Scenarios.EchoStoreKeepsStock | src/modules/orders/services/CreateOrderService.ts:74-89 | with a store that persists exactly the lines it is given, the workflow succeeds iff validation does, and every update it sends is non-negative |
| Scenarios.DuplicateLinesCheckedIndependently | src/modules/orders/services/CreateOrderService.ts:56-87 | two lines of 3 against a stock of 5 both pass, and both updates set the stock to 2 |

## Left out

- Repository calls (`findById`, `findAllById`, `create`, `updateQuantity`) are asynchronous I/O. Their results are inputs, the store is a function parameter, and the update batch is returned rather than sent.
- How `findAllById` builds the snapshot from the requested ids is not part of this model. The snapshot is an arbitrary sequence of records; `SnapshotOfRequest` states the one property of it that `NothingKnownIsNothingFound` relies on.
- Dependency injection of the three repositories is plumbing.
- The diagnostic `console.log` of the created order is a side effect with no functional role.
- Error message texts are replaced by error constructors carrying the same id and quantity payloads.
- The TypeORM order entity is reduced to its customer and its persisted line items' product id and quantity.
- Quantities and prices are unbounded integers. JavaScript numbers are doubles, so fractional quantities, NaN and precision loss are not modelled.
- Concurrency between the snapshot read and the update is outside a sequential model. So is the missing transaction between order creation and inventory update, and so are failures of the collaborators themselves.
