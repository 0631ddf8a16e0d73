// Supplier records (table inventory_suppliers): one record per item and supplier name,
// holding the last price paid and the date of the last purchase, kept up to date by
// every purchase line that names a supplier.

module Suppliers {
  import opened Base
  import opened Ledger
  import opened Schema

  predicate Matches(r: SupplierRecord, inventoryId: nat, name: string)
  {
    r.inventoryId == inventoryId && r.name == name
  }

  function FindSupplierFrom(records: seq<SupplierRecord>, inventoryId: nat, name: string, from: nat): (r: Option<nat>)
    requires from <= |records|
    decreases |records| - from
    ensures r.Some? ==>
              && from <= r.value < |records| && Matches(records[r.value], inventoryId, name)
              && forall k :: from <= k < r.value ==> !Matches(records[k], inventoryId, name)
    ensures r.None? ==> forall k :: from <= k < |records| ==> !Matches(records[k], inventoryId, name)
  {
    if from == |records| then None
    else if Matches(records[from], inventoryId, name) then Some(from)
    else FindSupplierFrom(records, inventoryId, name, from + 1)
  }

  /** `filter_by(inventory_id=…, supplier_name=…).first()`: the earliest matching record
      (rows come back in insertion order; the name comparison is exact). */
  function FindSupplier(records: seq<SupplierRecord>, inventoryId: nat, name: string): (r: Option<nat>)
    ensures r.Some? ==>
              && r.value < |records| && Matches(records[r.value], inventoryId, name)
              && forall k :: 0 <= k < r.value ==> !Matches(records[k], inventoryId, name)
    ensures r.None? ==> forall k :: 0 <= k < |records| ==> !Matches(records[k], inventoryId, name)
  {
    FindSupplierFrom(records, inventoryId, name, 0)
  }

  /**
   * The tables after get_or_create_supplier succeeds: a matching record takes the given
   * price (when there is one) and `now` as its last purchase date; otherwise a record is
   * added under the next id, dated `newStamp` (the column default: the import instant).
   */
  function Upserted(t: Tables, inventoryId: nat, name: string, unitPrice: Option<int>, now: int, newStamp: int): Tables
  {
    match FindSupplier(t.suppliers, inventoryId, name)
    case Some(k) =>
      var rec := t.suppliers[k];
      t.(suppliers := t.suppliers[k := rec.(unitPrice := if unitPrice.Some? then unitPrice else rec.unitPrice,
                                            lastPurchaseDate := now)])
    case None =>
      t.(suppliers := t.suppliers + [SupplierRecord(t.nextId, inventoryId, name, unitPrice, newStamp)],
         nextId := t.nextId + 1)
  }

  /** The id of the record get_or_create_supplier returns. */
  function UpsertedId(t: Tables, inventoryId: nat, name: string): nat
  {
    match FindSupplier(t.suppliers, inventoryId, name)
    case Some(k) => t.suppliers[k].id
    case None => t.nextId
  }

  /**
   * InventorySupplier.get_or_create_supplier. It commits the whole session (not only the
   * supplier record). When the database refuses the write (`fails`), it rolls the session
   * back and reports an error.
   */
  method GetOrCreateSupplier(st: Store, inventoryId: nat, name: string, unitPrice: Option<int>, now: int, fails: bool)
    returns (r: Result<nat, Error>)
    modifies st
    ensures fails ==> r == Err(SupplierFailed) && st.work == old(st.durable) && st.durable == old(st.durable)
    ensures !fails ==>
              && r == Ok(UpsertedId(old(st.work), inventoryId, name))
              && st.work == Upserted(old(st.work), inventoryId, name, unitPrice, now, st.importTime)
              && st.durable == st.work
  {
    if fails {
      st.Rollback();
      return Err(SupplierFailed);
    }
    var id := UpsertedId(st.work, inventoryId, name);
    st.work := Upserted(st.work, inventoryId, name, unitPrice, now, st.importTime);
    st.Commit();
    r := Ok(id);
  }

  /** At most one record per item and supplier name. */
  predicate UniquePairs(records: seq<SupplierRecord>)
  {
    forall i, j :: 0 <= i < j < |records| ==>
      !(records[i].inventoryId == records[j].inventoryId && records[i].name == records[j].name)
  }

  /** After the upsert the lookup finds the record whose id was returned, carrying the price
      given and dated `now` (an existing record) or `newStamp` (a new one). */
  lemma UpsertedFinds(t: Tables, inventoryId: nat, name: string, unitPrice: Option<int>, now: int, newStamp: int)
    ensures var t' := Upserted(t, inventoryId, name, unitPrice, now, newStamp);
            var k := FindSupplier(t'.suppliers, inventoryId, name);
            && k.Some?
            && t'.suppliers[k.value].id == UpsertedId(t, inventoryId, name)
            && (unitPrice.Some? ==> t'.suppliers[k.value].unitPrice == unitPrice)
            && t'.suppliers[k.value].lastPurchaseDate
               == (if FindSupplier(t.suppliers, inventoryId, name).Some? then now else newStamp)
  {
    var t' := Upserted(t, inventoryId, name, unitPrice, now, newStamp);
    match FindSupplier(t.suppliers, inventoryId, name)
    case Some(k) =>
      assert Matches(t'.suppliers[k], inventoryId, name);
      assert forall j :: 0 <= j < k ==> t'.suppliers[j] == t.suppliers[j];
    case None =>
      var n := |t.suppliers|;
      assert Matches(t'.suppliers[n], inventoryId, name);
      assert forall j :: 0 <= j < n ==> t'.suppliers[j] == t.suppliers[j];
  }

  /** The upsert changes only the matching record, or only appends one; items, ledger,
      categories and requests are untouched. */
  lemma UpsertedFrame(t: Tables, inventoryId: nat, name: string, unitPrice: Option<int>, now: int, newStamp: int)
    ensures var t' := Upserted(t, inventoryId, name, unitPrice, now, newStamp);
            && t'.items == t.items && t'.ledger == t.ledger && t'.categories == t.categories && t'.requests == t.requests
            && |t.suppliers| <= |t'.suppliers| <= |t.suppliers| + 1
            && (forall k :: 0 <= k < |t.suppliers| && !Matches(t.suppliers[k], inventoryId, name) ==>
                  t'.suppliers[k] == t.suppliers[k])
            && (|t'.suppliers| == |t.suppliers| + 1 <==> FindSupplier(t.suppliers, inventoryId, name).None?)
  {
  }

  /** Upserting never creates a second record for the same item and supplier. */
  lemma UpsertedKeepsUnique(t: Tables, inventoryId: nat, name: string, unitPrice: Option<int>, now: int, newStamp: int)
    requires UniquePairs(t.suppliers)
    ensures UniquePairs(Upserted(t, inventoryId, name, unitPrice, now, newStamp).suppliers)
  {
    var t' := Upserted(t, inventoryId, name, unitPrice, now, newStamp);
    match FindSupplier(t.suppliers, inventoryId, name)
    case Some(k) =>
      forall i, j | 0 <= i < j < |t'.suppliers|
        ensures !(t'.suppliers[i].inventoryId == t'.suppliers[j].inventoryId && t'.suppliers[i].name == t'.suppliers[j].name)
      {
        assert t'.suppliers[i].inventoryId == t.suppliers[i].inventoryId && t'.suppliers[i].name == t.suppliers[i].name;
        assert t'.suppliers[j].inventoryId == t.suppliers[j].inventoryId && t'.suppliers[j].name == t.suppliers[j].name;
      }
    case None =>
  }

  /** The upsert keeps the foreign keys when the item exists. */
  lemma UpsertedIntegrity(t: Tables, inventoryId: nat, name: string, unitPrice: Option<int>, now: int, newStamp: int)
    requires Integrity(t) && inventoryId in t.items
    ensures Integrity(Upserted(t, inventoryId, name, unitPrice, now, newStamp))
  {
    var t' := Upserted(t, inventoryId, name, unitPrice, now, newStamp);
    forall k | 0 <= k < |t'.suppliers|
      ensures t'.suppliers[k].id < t'.nextId && t'.suppliers[k].inventoryId in t'.items
    {
      if k < |t.suppliers| && FindSupplier(t.suppliers, inventoryId, name).Some? {
        assert t'.suppliers[k].id == t.suppliers[k].id;
      }
    }
  }

  /** The item's records, in table order. */
  function RecordsOf(records: seq<SupplierRecord>, inventoryId: nat): (r: seq<SupplierRecord>)
    ensures forall x :: x in r <==> x in records && x.inventoryId == inventoryId
  {
    if |records| == 0 then []
    else
      var rest := RecordsOf(records[1..], inventoryId);
      if records[0].inventoryId == inventoryId then [records[0]] + rest else rest
  }

  /** The item's records, each as often as the table holds it. */
  lemma {:induction false} RecordsOfCounts(records: seq<SupplierRecord>, inventoryId: nat)
    ensures forall x :: multiset(RecordsOf(records, inventoryId))[x] ==
                        if x.inventoryId == inventoryId then multiset(records)[x] else 0
  {
    if |records| > 0 {
      RecordsOfCounts(records[1..], inventoryId);
      assert records == [records[0]] + records[1..];
    }
  }

  /** The item's records keep their table order. */
  lemma {:induction false} RecordsOfSplits(a: seq<SupplierRecord>, b: seq<SupplierRecord>, inventoryId: nat)
    ensures RecordsOf(a + b, inventoryId) == RecordsOf(a, inventoryId) + RecordsOf(b, inventoryId)
  {
    if a == [] {
      assert a + b == b;
    } else {
      assert (a + b)[1..] == a[1..] + b;
      RecordsOfSplits(a[1..], b, inventoryId);
    }
  }

  function LastPurchase(r: SupplierRecord): int
  {
    r.lastPurchaseDate
  }

  /** get_suppliers_for_inventory: exactly the item's records, most recent purchase first. */
  function SuppliersFor(records: seq<SupplierRecord>, inventoryId: nat): (r: seq<SupplierRecord>)
    ensures multiset(r) == multiset(RecordsOf(records, inventoryId))
    ensures forall x :: x in r <==> x in records && x.inventoryId == inventoryId
    ensures forall i, j :: 0 <= i < j < |r| ==> r[i].lastPurchaseDate >= r[j].lastPurchaseDate
  {
    var r := SortDesc(RecordsOf(records, inventoryId), LastPurchase);
    assert forall x :: x in r <==> x in multiset(r);
    r
  }
}
