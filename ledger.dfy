// The inventory ledger (table inventory_transactions): one signed entry per stock
// movement, of four kinds, optionally linked to the request it was issued for.

module Ledger {
  import opened Base

  datatype TxnType = Initial | Purchase | Adjustment | Issue

  /** One ledger entry. Quantities are positive for stock in, negative for stock out.
      Prices are in minor units; timestamps are naive datetimes in microseconds. */
  datatype Txn = Txn(
    inventoryId: nat,
    kind: TxnType,
    quantity: int,
    relatedRequest: Option<nat>,
    performedBy: nat,
    timestamp: int,
    supplierId: Option<nat>,
    unitPrice: Option<int>)

  /** Net stock movement the ledger records for one item. */
  function Balance(ledger: seq<Txn>, id: nat): int
  {
    if |ledger| == 0 then 0
    else
      var last := ledger[|ledger| - 1];
      Balance(ledger[..|ledger| - 1], id) + (if last.inventoryId == id then last.quantity else 0)
  }

  lemma {:induction false} BalanceAppend(a: seq<Txn>, b: seq<Txn>, id: nat)
    ensures Balance(a + b, id) == Balance(a, id) + Balance(b, id)
    decreases |b|
  {
    if |b| == 0 {
      assert a + b == a;
    } else {
      var b' := b[..|b| - 1];
      assert (a + b)[..|a + b| - 1] == a + b';
      assert (a + b)[|a + b| - 1] == b[|b| - 1];
      BalanceAppend(a, b', id);
    }
  }

  /** Appending one entry moves exactly its own item's balance, by its quantity. */
  lemma BalanceSnoc(ledger: seq<Txn>, t: Txn, id: nat)
    ensures Balance(ledger + [t], id) == Balance(ledger, id) + (if t.inventoryId == id then t.quantity else 0)
  {
    assert (ledger + [t])[..|ledger|] == ledger;
  }

  /** An item no entry mentions has balance zero. */
  lemma {:induction false} BalanceAbsent(ledger: seq<Txn>, id: nat)
    requires forall k :: 0 <= k < |ledger| ==> ledger[k].inventoryId != id
    ensures Balance(ledger, id) == 0
    decreases |ledger|
  {
    if |ledger| > 0 {
      BalanceAbsent(ledger[..|ledger| - 1], id);
    }
  }

  /** The entries that survive deleting an item (ON DELETE CASCADE removes its own). */
  function WithoutItem(ledger: seq<Txn>, id: nat): (r: seq<Txn>)
    ensures forall t :: t in r <==> t in ledger && t.inventoryId != id
  {
    if |ledger| == 0 then []
    else
      var rest := WithoutItem(ledger[..|ledger| - 1], id);
      var last := ledger[|ledger| - 1];
      assert forall t :: t in ledger <==> t in ledger[..|ledger| - 1] || t == last;
      if last.inventoryId == id then rest else rest + [last]
  }

  /** The cascade keeps each entry of another item as often as the ledger holds it. */
  lemma {:induction false} WithoutItemCounts(ledger: seq<Txn>, id: nat)
    ensures forall t :: multiset(WithoutItem(ledger, id))[t] == if t.inventoryId != id then multiset(ledger)[t] else 0
    decreases |ledger|
  {
    if |ledger| > 0 {
      WithoutItemCounts(ledger[..|ledger| - 1], id);
      assert ledger == ledger[..|ledger| - 1] + [ledger[|ledger| - 1]];
    }
  }

  /** The cascade keeps the surviving entries in ledger order: filtering a concatenation
      filters each part. */
  lemma {:induction false} WithoutItemSplits(a: seq<Txn>, b: seq<Txn>, id: nat)
    ensures WithoutItem(a + b, id) == WithoutItem(a, id) + WithoutItem(b, id)
    decreases |b|
  {
    if b == [] {
      assert a + b == a;
    } else {
      var init := b[..|b| - 1];
      assert (a + b)[..|a + b| - 1] == a + init;
      WithoutItemSplits(a, init, id);
    }
  }

  /** Removing one item's entries leaves every other item's balance as it was. */
  lemma {:induction false} BalanceWithoutItem(ledger: seq<Txn>, id: nat, other: nat)
    requires other != id
    ensures Balance(WithoutItem(ledger, id), other) == Balance(ledger, other)
    decreases |ledger|
  {
    if |ledger| > 0 {
      var init := ledger[..|ledger| - 1];
      BalanceWithoutItem(init, id, other);
      var last := ledger[|ledger| - 1];
      if last.inventoryId != id {
        BalanceSnoc(WithoutItem(init, id), last, other);
      }
    }
  }

  /** Entries linked to a request keep it from being deleted (inventory_transactions has a
      foreign key on related_request_id without ON DELETE). */
  predicate Referenced(ledger: seq<Txn>, requestId: nat)
  {
    exists k :: 0 <= k < |ledger| && ledger[k].relatedRequest == Some(requestId)
  }
}
