/** The inventory snapshot the order workflow reads once from the product
    repository (`findAllById`), and the first-match lookup
    `existsProducts.filter(p => p.id === id)[0]` it performs against it. */
module Inventory {
  import opened Wrappers
  import opened Seqs

  /** Product and customer identifiers are opaque strings. */
  type Id = string

  /** One inventory record: id, unit price and available stock. */
  datatype ProductRecord = ProductRecord(id: Id, price: int, quantity: int)

  /** `existsProducts.map(product => product.id)`: the snapshot's ids, in order. */
  function Ids(snapshot: seq<ProductRecord>): (ids: seq<Id>)
    ensures |ids| == |snapshot|
    ensures forall i :: 0 <= i < |snapshot| ==> ids[i] == snapshot[i].id
  {
    if |snapshot| == 0 then [] else [snapshot[0].id] + Ids(snapshot[1..])
  }

  /** `existsProducts.filter(p => p.id === id)`: every record carrying `id`,
      and it is empty exactly when `id` is not among the snapshot's ids. */
  function Matches(snapshot: seq<ProductRecord>, id: Id): (m: seq<ProductRecord>)
    ensures forall r :: r in m <==> r in snapshot && r.id == id
    ensures |m| > 0 <==> id in Ids(snapshot)
  {
    Filter(snapshot, (r: ProductRecord) => r.id == id)
  }

  /** The record the service reads as `existsProducts.filter(p => p.id === id)[0]`:
      the first record carrying `id`, scanning the snapshot from the front,
      with JavaScript's `undefined` written as `None`.
      `FilterHeadIsFirstMatch` shows it equals the head of the filter. */
  function FirstMatch(snapshot: seq<ProductRecord>, id: Id): (r: Option<ProductRecord>)
    ensures r.None? <==> id !in Ids(snapshot)
    ensures r.Some? ==> r.value in snapshot && r.value.id == id
  {
    if |snapshot| == 0 then None
    else if snapshot[0].id == id then Some(snapshot[0])
    else FirstMatch(snapshot[1..], id)
  }

  /** `filter(p => p.id === id)[0]` is the first match: `undefined` when the
      filter is empty, its head otherwise. */
  lemma {:induction false} FilterHeadIsFirstMatch(snapshot: seq<ProductRecord>, id: Id)
    ensures |Matches(snapshot, id)| == 0 ==> FirstMatch(snapshot, id) == None
    ensures |Matches(snapshot, id)| > 0 ==> FirstMatch(snapshot, id) == Some(Matches(snapshot, id)[0])
  {
    if |snapshot| > 0 && snapshot[0].id != id {
      assert Matches(snapshot, id) == Matches(snapshot[1..], id);
      FilterHeadIsFirstMatch(snapshot[1..], id);
    }
  }

  /** `i` is the earliest position of the snapshot that carries `id`. */
  ghost predicate EarliestAt(snapshot: seq<ProductRecord>, id: Id, i: int)
  {
    && 0 <= i < |snapshot|
    && snapshot[i].id == id
    && forall j :: 0 <= j < i ==> snapshot[j].id != id
  }

  /** The first match is the record at the earliest position carrying the id,
      so duplicated ids in the snapshot resolve to their first occurrence. */
  lemma {:induction false} FirstMatchAt(snapshot: seq<ProductRecord>, id: Id, i: int)
    requires EarliestAt(snapshot, id, i)
    ensures FirstMatch(snapshot, id) == Some(snapshot[i])
  {
    if i > 0 {
      assert snapshot[0].id != id;
      assert EarliestAt(snapshot[1..], id, i - 1);
      FirstMatchAt(snapshot[1..], id, i - 1);
    }
  }

  /** Conversely, whatever the first match returns sits at the earliest
      position carrying the id; `i` is that position. */
  lemma {:induction false} FirstMatchIsEarliest(snapshot: seq<ProductRecord>, id: Id) returns (i: int)
    requires FirstMatch(snapshot, id).Some?
    ensures EarliestAt(snapshot, id, i) && FirstMatch(snapshot, id) == Some(snapshot[i])
  {
    if snapshot[0].id == id {
      i := 0;
    } else {
      var rest := snapshot[1..];
      assert FirstMatch(snapshot, id) == FirstMatch(rest, id);
      var k := FirstMatchIsEarliest(rest, id);
      forall j | 0 < j <= k
        ensures snapshot[j].id != id
      {
        assert snapshot[j] == rest[j - 1];
      }
      i := k + 1;
    }
  }

  /** The earliest position of the snapshot that carries a known id. */
  ghost function Earliest(snapshot: seq<ProductRecord>, id: Id): (i: int)
    requires id in Ids(snapshot)
    ensures EarliestAt(snapshot, id, i)
    decreases |snapshot|
  {
    if snapshot[0].id == id then 0
    else
      var k := Earliest(snapshot[1..], id);
      assert forall j :: 0 < j <= k ==> snapshot[j] == snapshot[1..][j - 1];
      k + 1
  }
}
