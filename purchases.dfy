// Recording a purchase (several lines, each restocking one item from a supplier) and
// the purchase listing with its supplier, item and date filters.
//
// The purchase form handler changes the session step by step and commits it both in
// the middle of the loop (each supplier upsert commits) and at the end. Its effect is
// stated by RunFrom, a function over the pair (pending state, committed state); the
// all-or-nothing purchase it was meant to be is Purchased, and NewPurchaseAtomic
// carries it out.

module Purchases {
  import opened Base
  import opened Ledger
  import opened Schema
  import opened Suppliers
  import opened Calendar

  /** One line of the purchase form after int() and float(): None where the conversion
      raised ValueError (a blank price converts to 0). Prices are in minor units. */
  datatype PurchaseLine = PurchaseLine(inventoryId: Option<int>, quantity: Option<int>, supplier: string,
                                       unitPrice: Option<int>)

  predicate Parsed(l: PurchaseLine)
  {
    l.inventoryId.Some? && l.quantity.Some? && l.unitPrice.Some?
  }

  /** The line names an existing item and a positive quantity. */
  predicate Acceptable(t: Tables, l: PurchaseLine)
  {
    Parsed(l) && l.inventoryId.value >= 0 && l.inventoryId.value as nat in t.items && l.quantity.value > 0
  }

  predicate AllAcceptable(t: Tables, lines: seq<PurchaseLine>)
  {
    forall k :: 0 <= k < |lines| ==> Acceptable(t, lines[k])
  }

  function ItemOf(l: PurchaseLine): nat
    requires Parsed(l) && l.inventoryId.value >= 0
  {
    l.inventoryId.value as nat
  }

  /** The item after the line's stock arrives; a named supplier and a non-zero price also
      replace the item's own supplier and price. */
  function Restocked(t: Tables, l: PurchaseLine): (r: Tables)
    requires Acceptable(t, l)
    ensures r.items.Keys == t.items.Keys
    ensures r.(items := t.items) == t
  {
    var id := ItemOf(l);
    var item := t.items[id];
    t.(items := t.items[id := item.(quantity := item.quantity + l.quantity.value,
                                    supplier := if l.supplier != "" then Some(l.supplier) else item.supplier,
                                    unitPrice := if l.unitPrice.value != 0 then l.unitPrice else item.unitPrice)])
  }

  /** Restocking raises the line's item by the line's quantity; only a named supplier and
      a non-zero price replace the item's own, and every other item is left as it was. */
  lemma RestockedItem(t: Tables, l: PurchaseLine)
    requires Acceptable(t, l)
    ensures var r := Restocked(t, l);
            forall id :: id in t.items && id != ItemOf(l) ==> r.items[id] == t.items[id]
    ensures var before := t.items[ItemOf(l)];
            var after := Restocked(t, l).items[ItemOf(l)];
            && after.quantity == before.quantity + l.quantity.value
            && after.supplier == (if l.supplier == "" then before.supplier else Some(l.supplier))
            && after.unitPrice == (if l.unitPrice.value == 0 then before.unitPrice else l.unitPrice)
            && after.(quantity := before.quantity, supplier := before.supplier, unitPrice := before.unitPrice) == before
  {
  }

  /** The "purchase" ledger entry of a line. */
  function PurchaseEntry(l: PurchaseLine, userId: nat, at: int, supplierId: Option<nat>): Txn
    requires Parsed(l) && l.inventoryId.value >= 0
  {
    Txn(ItemOf(l), Purchase, l.quantity.value, None, userId, at, supplierId, l.unitPrice)
  }

  /** One accepted line carried out in full: the stock arrives, the named supplier's record is
      upserted unless that write fails, and the purchase entry is appended. */
  function Bought(t: Tables, l: PurchaseLine, fails: bool, userId: nat, entryTime: int, newStamp: int, now: int): (r: Tables)
    requires Acceptable(t, l)
    ensures r.items == Restocked(t, l).items
  {
    var w := Restocked(t, l);
    var named := l.supplier != "" && !fails;
    var u := if named then Upserted(w, ItemOf(l), l.supplier, l.unitPrice, now, newStamp) else w;
    var sid := if named then Some(UpsertedId(w, ItemOf(l), l.supplier)) else None;
    UpsertedFrame(w, ItemOf(l), l.supplier, l.unitPrice, now, newStamp);
    u.(ledger := u.ledger + [PurchaseEntry(l, userId, entryTime, sid)])
  }

  /** The stock the lines bring to item `id`. */
  function Arrived(lines: seq<PurchaseLine>, id: nat): int
    requires forall k :: 0 <= k < |lines| ==> Parsed(lines[k]) && lines[k].inventoryId.value >= 0
  {
    if |lines| == 0 then 0
    else
      var l := lines[|lines| - 1];
      Arrived(lines[..|lines| - 1], id) + (if ItemOf(l) == id then l.quantity.value else 0)
  }

  /** Every line carried out in order; the supplier write of line k fails when k is in `failing`. */
  function Purchased(t: Tables, lines: seq<PurchaseLine>, failing: set<nat>, userId: nat, entryTime: int,
                     newStamp: int, now: int): (r: Tables)
    requires AllAcceptable(t, lines)
    ensures r.items.Keys == t.items.Keys
    decreases |lines|
  {
    if |lines| == 0 then t
    else
      var n := |lines| - 1;
      var before := Purchased(t, lines[..n], failing, userId, entryTime, newStamp, now);
      Bought(before, lines[n], n in failing, userId, entryTime, newStamp, now)
  }

  /** A whole purchase raises each item's stock by exactly the quantities of the lines
      that name it. */
  lemma {:induction false} PurchasedStock(t: Tables, lines: seq<PurchaseLine>, failing: set<nat>, userId: nat,
                                          entryTime: int, newStamp: int, now: int)
    requires AllAcceptable(t, lines)
    ensures var r := Purchased(t, lines, failing, userId, entryTime, newStamp, now);
            forall id :: id in t.items ==> r.items[id].quantity == t.items[id].quantity + Arrived(lines, id)
    decreases |lines|
  {
    if |lines| > 0 {
      var n := |lines| - 1;
      assert AllAcceptable(t, lines[..n]);
      PurchasedStock(t, lines[..n], failing, userId, entryTime, newStamp, now);
      RestockedItem(Purchased(t, lines[..n], failing, userId, entryTime, newStamp, now), lines[n]);
    }
  }

  /** The pending state of the session and what has been committed. */
  datatype Session = Session(work: Tables, durable: Tables)

  /**
   * new_purchase from line i on, as written. A line that does not convert rolls back; a line
   * naming no item or a non-positive quantity redirects, and the request's teardown drops
   * what is pending. Purchase entries get the column default as timestamp, the import
   * instant. Each supplier upsert commits everything pending, or rolls it all back when
   * its write fails. The end commits.
   */
  function RunFrom(s: Session, lines: seq<PurchaseLine>, i: nat, failing: set<nat>, userId: nat, now: int,
                   importTime: int): (Session, Result<(), Error>)
    requires i <= |lines|
    decreases |lines| - i
  {
    if i == |lines| then (Session(s.work, s.work), Ok(()))
    else
      var l := lines[i];
      if !Parsed(l) then (Session(s.durable, s.durable), Err(InvalidInput))
      else if !Acceptable(s.work, l) then (Session(s.durable, s.durable), Err(InvalidLine))
      else
        var w := Restocked(s.work, l);
        var next :=
          if l.supplier == "" then
            Session(w.(ledger := w.ledger + [PurchaseEntry(l, userId, importTime, None)]), s.durable)
          else if i in failing then
            Session(s.durable.(ledger := s.durable.ledger + [PurchaseEntry(l, userId, importTime, None)]), s.durable)
          else
            var u := Upserted(w, ItemOf(l), l.supplier, l.unitPrice, now, importTime);
            Session(u.(ledger := u.ledger + [PurchaseEntry(l, userId, importTime, Some(UpsertedId(w, ItemOf(l), l.supplier)))]), u);
        RunFrom(next, lines, i + 1, failing, userId, now, importTime)
  }

  /** The purchase form handler as written (admin only). */
  method NewPurchase(st: Store, isAdmin: bool, userId: nat, lines: seq<PurchaseLine>, failing: set<nat>, now: int)
    returns (r: Result<(), Error>)
    requires st.work == st.durable
    modifies st
    ensures !isAdmin ==> r == Err(PermissionDenied) && unchanged(st)
    ensures isAdmin ==>
              var run := RunFrom(Session(old(st.work), old(st.durable)), lines, 0, failing, userId, now, st.importTime);
              st.work == run.0.work && st.durable == run.0.durable && r == run.1
  {
    if !isAdmin {
      return Err(PermissionDenied);
    }
    ghost var start := Session(st.work, st.durable);
    var i := 0;
    while i < |lines|
      invariant 0 <= i <= |lines|
      invariant RunFrom(Session(st.work, st.durable), lines, i, failing, userId, now, st.importTime)
                == RunFrom(start, lines, 0, failing, userId, now, st.importTime)
    {
      var l := lines[i];
      if !Parsed(l) {
        st.Rollback();
        return Err(InvalidInput);
      }
      if !Acceptable(st.work, l) {
        st.Rollback();
        return Err(InvalidLine);
      }
      var id := ItemOf(l);
      st.work := Restocked(st.work, l);
      var supplierId: Option<nat> := None;
      if l.supplier != "" {
        var upsert := GetOrCreateSupplier(st, id, l.supplier, l.unitPrice, now, i in failing);
        if upsert.Ok? {
          supplierId := Some(upsert.value);
        }
      }
      st.work := st.work.(ledger := st.work.ledger + [PurchaseEntry(l, userId, st.importTime, supplierId)]);
      i := i + 1;
    }
    st.Commit();
    r := Ok(());
  }

  /** When every line is accepted and no supplier write fails, the handler as written commits
      exactly the in-order purchase, with entries stamped at the import instant. */
  lemma {:induction false} RunAllAccepted(t: Tables, d: Tables, lines: seq<PurchaseLine>, i: nat, failing: set<nat>,
                                          userId: nat, now: int, importTime: int)
    requires i <= |lines| && AllAcceptable(t, lines)
    requires forall k :: 0 <= k < |lines| && lines[k].supplier != "" ==> k !in failing
    ensures var p := Purchased(t, lines, failing, userId, importTime, importTime, now);
            RunFrom(Session(Purchased(t, lines[..i], failing, userId, importTime, importTime, now), d), lines, i,
                    failing, userId, now, importTime)
            == (Session(p, p), Ok(()))
    decreases |lines| - i
  {
    if i == |lines| {
      assert lines[..i] == lines;
    } else {
      var w := Purchased(t, lines[..i], failing, userId, importTime, importTime, now);
      PurchasedSnoc(t, lines, i, failing, userId, importTime, importTime, now);
      var l := lines[i];
      RunStepAccepted(Session(w, d), lines, i, failing, userId, now, importTime);
      var d' := if l.supplier == "" then d else Upserted(Restocked(w, l), ItemOf(l), l.supplier, l.unitPrice, now, importTime);
      RunAllAccepted(t, d', lines, i + 1, failing, userId, now, importTime);
    }
  }

  /** One accepted line whose supplier write succeeds: the handler goes on from the line's
      purchase, with what the upsert committed (if it ran) as the durable state. */
  lemma RunStepAccepted(s: Session, lines: seq<PurchaseLine>, i: nat, failing: set<nat>, userId: nat, now: int,
                        importTime: int)
    requires i < |lines| && Acceptable(s.work, lines[i])
    requires lines[i].supplier != "" ==> i !in failing
    ensures var l := lines[i];
            var d' := if l.supplier == "" then s.durable
                      else Upserted(Restocked(s.work, l), ItemOf(l), l.supplier, l.unitPrice, now, importTime);
            RunFrom(s, lines, i, failing, userId, now, importTime)
            == RunFrom(Session(Bought(s.work, l, i in failing, userId, importTime, importTime, now), d'),
                       lines, i + 1, failing, userId, now, importTime)
  {
  }

  /** A whole accepted purchase, from an empty start. */
  lemma NewPurchaseAllAccepted(t: Tables, d: Tables, lines: seq<PurchaseLine>, failing: set<nat>, userId: nat,
                               now: int, importTime: int)
    requires AllAcceptable(t, lines)
    requires forall k :: 0 <= k < |lines| && lines[k].supplier != "" ==> k !in failing
    ensures var p := Purchased(t, lines, failing, userId, importTime, importTime, now);
            RunFrom(Session(t, d), lines, 0, failing, userId, now, importTime) == (Session(p, p), Ok(()))
  {
    assert lines[..0] == [];
    RunAllAccepted(t, d, lines, 0, failing, userId, now, importTime);
  }

  /** One line keeps the ledger invariant: the item's quantity and its balance both grow by
      the line's quantity. */
  lemma BoughtConsistent(t: Tables, l: PurchaseLine, fails: bool, userId: nat, entryTime: int, newStamp: int, now: int)
    requires Acceptable(t, l) && Consistent(t)
    ensures Consistent(Bought(t, l, fails, userId, entryTime, newStamp, now))
  {
    var w := Restocked(t, l);
    var named := l.supplier != "" && !fails;
    var u := if named then Upserted(w, ItemOf(l), l.supplier, l.unitPrice, now, newStamp) else w;
    UpsertedFrame(w, ItemOf(l), l.supplier, l.unitPrice, now, newStamp);
    var sid := if named then Some(UpsertedId(w, ItemOf(l), l.supplier)) else None;
    var e := PurchaseEntry(l, userId, entryTime, sid);
    forall j | j in u.items
      ensures Balance(u.ledger + [e], j) == u.items[j].quantity
    {
      BalanceSnoc(t.ledger, e, j);
    }
  }

  /** A whole purchase keeps the ledger invariant. */
  lemma {:induction false} PurchasedConsistent(t: Tables, lines: seq<PurchaseLine>, failing: set<nat>, userId: nat,
                                               entryTime: int, newStamp: int, now: int)
    requires AllAcceptable(t, lines) && Consistent(t)
    ensures Consistent(Purchased(t, lines, failing, userId, entryTime, newStamp, now))
    decreases |lines|
  {
    if |lines| > 0 {
      var n := |lines| - 1;
      PurchasedConsistent(t, lines[..n], failing, userId, entryTime, newStamp, now);
      var before := Purchased(t, lines[..n], failing, userId, entryTime, newStamp, now);
      BoughtConsistent(before, lines[n], n in failing, userId, entryTime, newStamp, now);
    }
  }

  lemma BoughtIntegrity(t: Tables, l: PurchaseLine, fails: bool, userId: nat, entryTime: int, newStamp: int, now: int)
    requires Acceptable(t, l) && Integrity(t)
    ensures Integrity(Bought(t, l, fails, userId, entryTime, newStamp, now))
  {
    var w := Restocked(t, l);
    RestockedIntegrity(t, l);
    var named := l.supplier != "" && !fails;
    var u := if named then Upserted(w, ItemOf(l), l.supplier, l.unitPrice, now, newStamp) else w;
    var sid := if named then Some(UpsertedId(w, ItemOf(l), l.supplier)) else None;
    if named {
      UpsertedIntegrity(w, ItemOf(l), l.supplier, l.unitPrice, now, newStamp);
      UpsertedFrame(w, ItemOf(l), l.supplier, l.unitPrice, now, newStamp);
    }
    assert Bought(t, l, fails, userId, entryTime, newStamp, now) == u.(ledger := u.ledger + [PurchaseEntry(l, userId, entryTime, sid)]);
    EntryIntegrity(u, PurchaseEntry(l, userId, entryTime, sid));
  }

  /** Restocking changes one item's quantity, supplier and price, so every key still resolves. */
  lemma RestockedIntegrity(t: Tables, l: PurchaseLine)
    requires Acceptable(t, l) && Integrity(t)
    ensures Integrity(Restocked(t, l))
  {
  }

  /** Appending an entry for an existing item, tied to no request, keeps every key resolving. */
  lemma EntryIntegrity(t: Tables, e: Txn)
    requires Integrity(t) && e.inventoryId in t.items && e.relatedRequest.None?
    ensures Integrity(t.(ledger := t.ledger + [e]))
  {
    var t' := t.(ledger := t.ledger + [e]);
    forall k | 0 <= k < |t'.ledger|
      ensures t'.ledger[k].inventoryId in t'.items
      ensures t'.ledger[k].relatedRequest.Some? ==> t'.ledger[k].relatedRequest.value in t'.requests
    {
      if k < |t.ledger| {
        assert t'.ledger[k] == t.ledger[k];
      }
    }
  }

  /** A whole purchase keeps the foreign keys. */
  lemma {:induction false} PurchasedIntegrity(t: Tables, lines: seq<PurchaseLine>, failing: set<nat>, userId: nat,
                                              entryTime: int, newStamp: int, now: int)
    requires AllAcceptable(t, lines) && Integrity(t)
    ensures Integrity(Purchased(t, lines, failing, userId, entryTime, newStamp, now))
    decreases |lines|
  {
    if |lines| > 0 {
      var n := |lines| - 1;
      PurchasedIntegrity(t, lines[..n], failing, userId, entryTime, newStamp, now);
      var before := Purchased(t, lines[..n], failing, userId, entryTime, newStamp, now);
      BoughtIntegrity(before, lines[n], n in failing, userId, entryTime, newStamp, now);
    }
  }

  /** `e` is the purchase entry of line `l`: its item, quantity, price, user and time. */
  predicate RecordsLine(e: Txn, l: PurchaseLine, userId: nat, entryTime: int)
  {
    && Parsed(l) && l.inventoryId.value >= 0
    && e.kind == Purchase && e.inventoryId == ItemOf(l) && e.quantity == l.quantity.value
    && e.unitPrice == l.unitPrice && e.timestamp == entryTime && e.performedBy == userId
  }

  /** One line appends exactly its purchase entry to the ledger. */
  lemma BoughtLedger(t: Tables, l: PurchaseLine, fails: bool, userId: nat, entryTime: int, newStamp: int, now: int)
    requires Acceptable(t, l)
    ensures var b := Bought(t, l, fails, userId, entryTime, newStamp, now);
            && |b.ledger| == |t.ledger| + 1
            && b.ledger[..|t.ledger|] == t.ledger
            && RecordsLine(b.ledger[|t.ledger|], l, userId, entryTime)
  {
    var w := Restocked(t, l);
    UpsertedFrame(w, ItemOf(l), l.supplier, l.unitPrice, now, newStamp);
  }

  /** `ledger` is `base` followed by the purchase entries of `lines`, in order. */
  predicate EntriesOf(ledger: seq<Txn>, base: seq<Txn>, lines: seq<PurchaseLine>, userId: nat, entryTime: int)
  {
    && |ledger| == |base| + |lines|
    && ledger[..|base|] == base
    && forall k :: |base| <= k < |ledger| ==> RecordsLine(ledger[k], lines[k - |base|], userId, entryTime)
  }

  /** One more line's entry extends the entries of the lines before it. */
  lemma EntriesOfSnoc(ledger: seq<Txn>, base: seq<Txn>, lines: seq<PurchaseLine>, userId: nat, entryTime: int,
                      after: seq<Txn>)
    requires |lines| > 0 && EntriesOf(ledger, base, lines[..|lines| - 1], userId, entryTime)
    requires |after| == |ledger| + 1 && after[..|ledger|] == ledger
    requires RecordsLine(after[|ledger|], lines[|lines| - 1], userId, entryTime)
    ensures EntriesOf(after, base, lines, userId, entryTime)
  {
    var n := |lines| - 1;
    assert after[..|base|] == ledger[..|base|];
    forall k | |base| <= k < |after|
      ensures RecordsLine(after[k], lines[k - |base|], userId, entryTime)
    {
      if k < |ledger| {
        assert after[k] == ledger[k];
        assert lines[..n][k - |base|] == lines[k - |base|];
      }
    }
  }

  /** A purchase appends one "purchase" entry per line, in line order, each for the line's
      item and quantity at the line's price and stamped `entryTime`; earlier entries stay. */
  lemma {:induction false} PurchasedEntries(t: Tables, lines: seq<PurchaseLine>, failing: set<nat>, userId: nat,
                                            entryTime: int, newStamp: int, now: int)
    requires AllAcceptable(t, lines)
    ensures EntriesOf(Purchased(t, lines, failing, userId, entryTime, newStamp, now).ledger, t.ledger, lines, userId, entryTime)
    decreases |lines|
  {
    if |lines| == 0 {
      assert t.ledger[..|t.ledger|] == t.ledger;
    } else {
      var n := |lines| - 1;
      PurchasedEntries(t, lines[..n], failing, userId, entryTime, newStamp, now);
      var before := Purchased(t, lines[..n], failing, userId, entryTime, newStamp, now);
      BoughtLedger(before, lines[n], n in failing, userId, entryTime, newStamp, now);
      EntriesOfSnoc(before.ledger, t.ledger, lines, userId, entryTime,
                    Purchased(t, lines, failing, userId, entryTime, newStamp, now).ledger);
    }
  }

  /** As written, every entry of an accepted purchase carries the import instant, whatever
      the time of the purchase. */
  lemma AsWrittenPurchaseStampedAtImport(t: Tables, lines: seq<PurchaseLine>, failing: set<nat>, userId: nat,
                                         now: int, importTime: int)
    requires AllAcceptable(t, lines)
    requires forall k :: 0 <= k < |lines| && lines[k].supplier != "" ==> k !in failing
    ensures var run := RunFrom(Session(t, t), lines, 0, failing, userId, now, importTime);
            && run.1 == Ok(())
            && |run.0.durable.ledger| == |t.ledger| + |lines|
            && run.0.durable.ledger[..|t.ledger|] == t.ledger
            && forall k :: |t.ledger| <= k < |run.0.durable.ledger| ==> run.0.durable.ledger[k].timestamp == importTime
  {
    NewPurchaseAllAccepted(t, t, lines, failing, userId, now, importTime);
    PurchasedEntries(t, lines, failing, userId, importTime, importTime, now);
  }

  /** A paper item with no stock, no entries and no suppliers. */
  const Shelf := Tables(map[1 := Category("Stationery", None)],
                        map[2 := Item("Paper", None, 0, 1, None, None, "Headquarters", 0)],
                        [], [], map[], 3)

  /** As written, a purchase whose second line names no item still commits the first line's
      stock increase (through the supplier upsert's commit) but not its purchase entry. */
  lemma InterruptedPurchaseBreaksLedger()
    ensures Consistent(Shelf)
    ensures var lines := [PurchaseLine(Some(2), Some(5), "Acme", Some(100)), PurchaseLine(Some(7), Some(1), "", Some(0))];
            var run := RunFrom(Session(Shelf, Shelf), lines, 0, {}, 1, 10, 0);
            && run.1 == Err(InvalidLine)
            && run.0.durable.items[2].quantity == 5
            && run.0.durable.ledger == []
            && !Consistent(run.0.durable)
  {
    var lines := [PurchaseLine(Some(2), Some(5), "Acme", Some(100)), PurchaseLine(Some(7), Some(1), "", Some(0))];
    var w := Restocked(Shelf, lines[0]);
    var u := Upserted(w, 2, "Acme", Some(100), 10, 0);
    assert u.items[2].quantity == 5 && u.ledger == [];
    var next := Session(u.(ledger := u.ledger + [PurchaseEntry(lines[0], 1, 0, Some(UpsertedId(w, 2, "Acme")))]), u);
    assert RunFrom(Session(Shelf, Shelf), lines, 0, {}, 1, 10, 0) == RunFrom(next, lines, 1, {}, 1, 10, 0);
    assert !Acceptable(next.work, lines[1]);
    assert Balance(u.ledger, 2) == 0;
  }

  /** As written, a failing supplier write rolls back the line's stock increase, yet the
      line's purchase entry is still added and committed. */
  lemma FailedSupplierWriteBreaksLedger()
    ensures var lines := [PurchaseLine(Some(2), Some(5), "Acme", Some(100))];
            var run := RunFrom(Session(Shelf, Shelf), lines, 0, {0}, 1, 10, 0);
            && run.1 == Ok(())
            && run.0.durable.items[2].quantity == 0
            && Balance(run.0.durable.ledger, 2) == 5
            && !Consistent(run.0.durable)
  {
    var lines := [PurchaseLine(Some(2), Some(5), "Acme", Some(100))];
    var e := PurchaseEntry(lines[0], 1, 0, None);
    var next := Session(Shelf.(ledger := [e]), Shelf);
    assert Parsed(lines[0]) && Acceptable(Shelf, lines[0]) && 0 in {0} && lines[0].supplier != "";
    assert Shelf.ledger + [e] == [e];
    assert RunFrom(Session(Shelf, Shelf), lines, 0, {0}, 1, 10, 0) == RunFrom(next, lines, 1, {0}, 1, 10, 0);
    assert Balance([e], 2) == Balance([], 2) + 5;
  }

  /** One more acceptable line extends the purchase by that line. */
  lemma PurchasedSnoc(t: Tables, lines: seq<PurchaseLine>, i: nat, failing: set<nat>, userId: nat, entryTime: int,
                      newStamp: int, now: int)
    requires i < |lines| && AllAcceptable(t, lines[..i]) && Acceptable(t, lines[i])
    ensures AllAcceptable(t, lines[..i + 1])
    ensures Purchased(t, lines[..i + 1], failing, userId, entryTime, newStamp, now)
            == Bought(Purchased(t, lines[..i], failing, userId, entryTime, newStamp, now), lines[i], i in failing,
                      userId, entryTime, newStamp, now)
  {
    var done := lines[..i + 1];
    assert done[..i] == lines[..i];
    forall k | 0 <= k < |done|
      ensures Acceptable(t, done[k])
    {
      if k < i {
        assert done[k] == lines[..i][k];
      }
    }
  }

  /** The first refusal among lines i.., in the handler's order of checks. */
  function RefusalFrom(t: Tables, lines: seq<PurchaseLine>, i: nat): (r: Option<Error>)
    requires i <= |lines|
    decreases |lines| - i
    ensures r.None? <==> forall k :: i <= k < |lines| ==> Acceptable(t, lines[k])
    ensures r.Some? ==> r.value == InvalidInput || r.value == InvalidLine
  {
    if i == |lines| then None
    else if !Parsed(lines[i]) then Some(InvalidInput)
    else if !Acceptable(t, lines[i]) then Some(InvalidLine)
    else RefusalFrom(t, lines, i + 1)
  }

  /**
   * The purchase as intended: nothing is committed before the end, so a refused line leaves
   * the database as it was; a failing supplier write only leaves its line without a
   * supplier record; entries and new supplier records are stamped with the purchase time.
   */
  method NewPurchaseAtomic(st: Store, isAdmin: bool, userId: nat, lines: seq<PurchaseLine>, failing: set<nat>, now: int)
    returns (r: Result<(), Error>)
    requires st.work == st.durable
    modifies st
    ensures !isAdmin ==> r == Err(PermissionDenied) && unchanged(st)
    ensures isAdmin ==>
              var refusal := RefusalFrom(old(st.work), lines, 0);
              && st.work == st.durable
              && (refusal.Some? ==> r == Err(refusal.value) && st.durable == old(st.durable))
              && (refusal.None? ==> r == Ok(()) && st.durable == Purchased(old(st.work), lines, failing, userId, now, now, now))
    ensures Consistent(old(st.work)) ==> Consistent(st.durable)
    ensures Integrity(old(st.work)) ==> Integrity(st.durable)
  {
    if !isAdmin {
      return Err(PermissionDenied);
    }
    ghost var t := st.work;
    var refusal := StageLines(st, lines, failing, userId, now);
    if refusal.Some? {
      return Err(refusal.value);
    }
    st.Commit();
    r := Ok(());
    if Consistent(t) {
      PurchasedConsistent(t, lines, failing, userId, now, now, now);
    }
    if Integrity(t) {
      PurchasedIntegrity(t, lines, failing, userId, now, now, now);
    }
  }

  /** The loop of the corrected purchase: the lines are staged on the pending state, which
      the session takes only once every line is accepted, so the first refused line leaves
      the session as it was; nothing is committed. */
  method StageLines(st: Store, lines: seq<PurchaseLine>, failing: set<nat>, userId: nat, now: int)
    returns (refusal: Option<Error>)
    requires st.work == st.durable
    modifies st
    ensures refusal == RefusalFrom(old(st.work), lines, 0)
    ensures st.durable == old(st.durable)
    ensures refusal.Some? ==> st.work == st.durable
    ensures refusal.None? ==> AllAcceptable(old(st.work), lines)
                              && st.work == Purchased(old(st.work), lines, failing, userId, now, now, now)
  {
    var t := st.work;
    var w := t;
    var i := 0;
    while i < |lines|
      invariant 0 <= i <= |lines|
      invariant st.work == t && st.durable == old(st.durable)
      invariant AllAcceptable(t, lines[..i])
      invariant RefusalFrom(t, lines, 0) == RefusalFrom(t, lines, i)
      invariant w == Purchased(t, lines[..i], failing, userId, now, now, now)
      invariant w.items.Keys == t.items.Keys
    {
      var l := lines[i];
      if !Parsed(l) {
        return Some(InvalidInput);
      }
      if !Acceptable(w, l) {
        return Some(InvalidLine);
      }
      assert Acceptable(t, l);
      PurchasedSnoc(t, lines, i, failing, userId, now, now, now);
      w := Bought(w, l, i in failing, userId, now, now, now);
      i := i + 1;
    }
    assert lines[..i] == lines;
    st.work := w;
    return None;
  }

  /** The corrected purchase stamps every new entry with the purchase time. */
  lemma AtomicPurchaseStampedNow(t: Tables, lines: seq<PurchaseLine>, failing: set<nat>, userId: nat, now: int)
    requires AllAcceptable(t, lines)
    ensures var p := Purchased(t, lines, failing, userId, now, now, now);
            forall k :: |t.ledger| <= k < |p.ledger| ==> p.ledger[k].timestamp == now && p.ledger[k].kind == Purchase
  {
    PurchasedEntries(t, lines, failing, userId, now, now, now);
  }
}
