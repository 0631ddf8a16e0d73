// Categories and inventory items: creation, editing and deletion by an administrator,
// and manual quantity adjustment. Every change of an item's quantity is written to the
// ledger in the same commit, which keeps the ledger invariant (Schema.Consistent).

module Inventory {
  import opened Base
  import opened Ledger
  import opened Schema

  method CreateCategory(st: Store, isAdmin: bool, name: string, description: Option<string>)
    returns (r: Result<nat, Error>)
    modifies st
    ensures !isAdmin ==> r == Err(PermissionDenied) && unchanged(st)
    ensures isAdmin && CategoryNameTaken(old(st.work.categories), name, None) ==>
              r == Err(DuplicateName) && unchanged(st)
    ensures isAdmin && !CategoryNameTaken(old(st.work.categories), name, None) ==>
              && r == Ok(old(st.work.nextId))
              && st.work == old(st.work).(categories := old(st.work.categories)[r.value := Category(name, description)],
                                          nextId := r.value + 1)
              && st.durable == st.work
    ensures Integrity(old(st.work)) ==> Integrity(st.work)
    ensures Consistent(old(st.work)) ==> Consistent(st.work)
    ensures DistinctCategoryNames(old(st.work)) ==> DistinctCategoryNames(st.work)
  {
    if !isAdmin {
      return Err(PermissionDenied);
    }
    if CategoryNameTaken(st.work.categories, name, None) {
      return Err(DuplicateName);
    }
    var id := st.FreshId();
    st.work := st.work.(categories := st.work.categories[id := Category(name, description)]);
    st.Commit();
    r := Ok(id);
  }

  /** A non-empty new name replaces the old one unless another category already has it;
      a given description always replaces the old one. */
  method UpdateCategory(st: Store, isAdmin: bool, id: nat, name: Option<string>, description: Option<string>)
    returns (r: Result<Category, Error>)
    modifies st
    ensures !isAdmin ==> r == Err(PermissionDenied) && unchanged(st)
    ensures isAdmin && id !in old(st.work.categories) ==> r == Err(NotFound) && unchanged(st)
    ensures isAdmin && id in old(st.work.categories) ==>
              var c := old(st.work.categories[id]);
              var renamed := Truthy(name) && name.value != c.name;
              && (renamed && CategoryNameTaken(old(st.work.categories), name.value, Some(id)) ==>
                    r == Err(DuplicateName) && unchanged(st))
              && (!(renamed && CategoryNameTaken(old(st.work.categories), name.value, Some(id))) ==>
                    var c' := c.(name := if renamed then name.value else c.name,
                                 description := if description.Some? then description else c.description);
                    && r == Ok(c')
                    && st.work == old(st.work).(categories := old(st.work.categories)[id := c'])
                    && st.durable == st.work)
    ensures Integrity(old(st.work)) ==> Integrity(st.work)
    ensures Consistent(old(st.work)) ==> Consistent(st.work)
    ensures DistinctCategoryNames(old(st.work)) ==> DistinctCategoryNames(st.work)
  {
    if !isAdmin {
      return Err(PermissionDenied);
    }
    if id !in st.work.categories {
      return Err(NotFound);
    }
    var c := st.work.categories[id];
    if Truthy(name) && name.value != c.name {
      if CategoryNameTaken(st.work.categories, name.value, Some(id)) {
        return Err(DuplicateName);
      }
      c := c.(name := name.value);
    }
    if description.Some? {
      c := c.(description := description);
    }
    st.work := st.work.(categories := st.work.categories[id := c]);
    st.Commit();
    r := Ok(c);
  }

  /** A category that still has items cannot be deleted. */
  method DeleteCategory(st: Store, isAdmin: bool, id: nat) returns (r: Result<(), Error>)
    modifies st
    ensures !isAdmin ==> r == Err(PermissionDenied) && unchanged(st)
    ensures isAdmin && id !in old(st.work.categories) ==> r == Err(NotFound) && unchanged(st)
    ensures isAdmin && id in old(st.work.categories) ==>
              && ((exists i :: i in old(st.work.items) && old(st.work.items[i].categoryId) == id) ==>
                    r == Err(HasItems) && unchanged(st))
              && ((forall i :: i in old(st.work.items) ==> old(st.work.items[i].categoryId) != id) ==>
                    && r == Ok(())
                    && st.work == old(st.work).(categories := old(st.work.categories) - {id})
                    && st.durable == st.work)
    ensures Integrity(old(st.work)) ==> Integrity(st.work)
    ensures Consistent(old(st.work)) ==> Consistent(st.work)
    ensures DistinctCategoryNames(old(st.work)) ==> DistinctCategoryNames(st.work)
  {
    if !isAdmin {
      return Err(PermissionDenied);
    }
    if id !in st.work.categories {
      return Err(NotFound);
    }
    if exists i :: i in st.work.items && st.work.items[i].categoryId == id {
      return Err(HasItems);
    }
    st.work := st.work.(categories := st.work.categories - {id});
    st.Commit();
    r := Ok(());
  }

  /** The ledger entry recording an item's opening stock. */
  function InitialEntry(id: nat, quantity: int, userId: nat, at: int, unitPrice: Option<int>): Txn
  {
    Txn(id, Initial, quantity, None, userId, at, None, unitPrice)
  }

  /** The ledger entry recording a manual adjustment. */
  function AdjustmentEntry(id: nat, change: int, userId: nat, now: int): Txn
  {
    Txn(id, Adjustment, change, None, userId, now, None, None)
  }

  /** The tables after creating `item` under the next id, with its initial entry. */
  function WithNewItem(t: Tables, item: Item, userId: nat): Tables
  {
    var id := t.nextId;
    t.(items := t.items[id := item],
       ledger := t.ledger + [InitialEntry(id, item.quantity, userId, item.createdAt, item.unitPrice)],
       nextId := id + 1)
  }

  /** A new item in an existing category keeps the foreign keys. */
  lemma NewItemIntegrity(t: Tables, item: Item, userId: nat)
    requires Integrity(t) && item.categoryId in t.categories
    ensures Integrity(WithNewItem(t, item, userId))
  {
  }

  /** A new item's initial entry is the only entry for its fresh id, so its balance is its
      quantity and every other balance stays. */
  lemma NewItemConsistent(t: Tables, item: Item, userId: nat)
    requires Integrity(t) && Consistent(t)
    ensures Consistent(WithNewItem(t, item, userId))
  {
    var t' := WithNewItem(t, item, userId);
    var e := InitialEntry(t.nextId, item.quantity, userId, item.createdAt, item.unitPrice);
    forall j | j in t'.items
      ensures Balance(t'.ledger, j) == t'.items[j].quantity
    {
      BalanceSnoc(t.ledger, e, j);
      if j == t.nextId {
        BalanceAbsent(t.ledger, j);
      }
    }
  }

  lemma NewItemDistinct(t: Tables, item: Item, userId: nat)
    requires Integrity(t) && DistinctItemNames(t) && !ItemNameTaken(t.items, item.name, None)
    ensures DistinctItemNames(WithNewItem(t, item, userId))
  {
  }

  /**
   * Creates an item and, in a second commit, its "initial" ledger entry for the whole
   * quantity, stamped with the item's creation time. Refused with a name any item has up to
   * case, an unknown category, or a location outside Locations. The quantity is not checked.
   */
  method CreateInventory(st: Store, isAdmin: bool, userId: nat, name: string, categoryId: nat, quantity: int,
                         description: Option<string>, unitPrice: Option<int>, location: Option<string>,
                         supplier: Option<string>)
    returns (r: Result<nat, Error>)
    modifies st
    ensures !isAdmin ==> r == Err(PermissionDenied) && unchanged(st)
    ensures isAdmin && ItemNameTaken(old(st.work.items), name, None) ==> r == Err(DuplicateName) && unchanged(st)
    ensures isAdmin && !ItemNameTaken(old(st.work.items), name, None) && categoryId !in old(st.work.categories) ==>
              r == Err(InvalidCategory) && unchanged(st)
    ensures isAdmin && !ItemNameTaken(old(st.work.items), name, None) && categoryId in old(st.work.categories) ==>
              && (location.None? || location.value !in Locations ==> r == Err(InvalidLocation) && unchanged(st))
              && (location.Some? && location.value in Locations ==>
                    && r == Ok(old(st.work.nextId))
                    && st.work == WithNewItem(old(st.work),
                         Item(name, description, quantity, categoryId, unitPrice, supplier, location.value, st.importTime),
                         userId)
                    && st.durable == st.work)
    ensures Integrity(old(st.work)) ==> Integrity(st.work)
    ensures Integrity(old(st.work)) && Consistent(old(st.work)) ==> Consistent(st.work)
    ensures Integrity(old(st.work)) && DistinctItemNames(old(st.work)) ==> DistinctItemNames(st.work)
  {
    if !isAdmin {
      return Err(PermissionDenied);
    }
    if ItemNameTaken(st.work.items, name, None) {
      return Err(DuplicateName);
    }
    if categoryId !in st.work.categories {
      return Err(InvalidCategory);
    }
    if location.None? || location.value !in Locations {
      return Err(InvalidLocation);
    }
    ghost var before := st.work;
    var id := st.FreshId();
    var item := Item(name, description, quantity, categoryId, unitPrice, supplier, location.value, st.importTime);
    st.work := st.work.(items := st.work.items[id := item]);
    st.Commit();
    var e := InitialEntry(id, quantity, userId, item.createdAt, unitPrice);
    st.work := st.work.(ledger := st.work.ledger + [e]);
    st.Commit();
    r := Ok(id);
    assert st.work == WithNewItem(before, item, userId);
    if Integrity(before) {
      NewItemIntegrity(before, item, userId);
      if Consistent(before) {
        NewItemConsistent(before, item, userId);
      }
      if DistinctItemNames(before) {
        NewItemDistinct(before, item, userId);
      }
    }
  }

  /**
   * Moves an item's quantity by `change` and records an "adjustment" entry for it, in one
   * commit. Refused, with nothing changed, when the new quantity would be negative.
   */
  method AdjustQuantity(st: Store, isAdmin: bool, userId: nat, id: nat, change: int, now: int)
    returns (r: Result<Item, Error>)
    modifies st
    ensures !isAdmin ==> r == Err(PermissionDenied) && unchanged(st)
    ensures isAdmin && id !in old(st.work.items) ==> r == Err(NotFound) && unchanged(st)
    ensures isAdmin && id in old(st.work.items) && old(st.work.items[id].quantity) + change < 0 ==>
              r == Err(InsufficientQuantity) && unchanged(st)
    ensures isAdmin && id in old(st.work.items) && old(st.work.items[id].quantity) + change >= 0 ==>
              && st.work == Moved(old(st.work), AdjustmentEntry(id, change, userId, now))
              && st.durable == st.work
              && r == Ok(st.work.items[id])
    ensures r.Ok? ==> r.value.quantity >= 0
    ensures Integrity(old(st.work)) ==> Integrity(st.work)
    ensures Consistent(old(st.work)) ==> Consistent(st.work)
    ensures DistinctItemNames(old(st.work)) ==> DistinctItemNames(st.work)
  {
    if !isAdmin {
      return Err(PermissionDenied);
    }
    if id !in st.work.items {
      return Err(NotFound);
    }
    var newQuantity := st.work.items[id].quantity + change;
    if newQuantity < 0 {
      return Err(InsufficientQuantity);
    }
    var e := AdjustmentEntry(id, change, userId, now);
    if Consistent(st.work) {
      MovedConsistent(st.work, e);
    }
    st.work := Moved(st.work, e);
    st.Commit();
    r := Ok(st.work.items[id]);
  }

  /** The item's fields after an edit, quantity aside: a non-empty name, a category and each
      given description, price, location and supplier replace the old value. */
  function Edited(item: Item, name: Option<string>, categoryId: Option<nat>, description: Option<string>,
                  unitPrice: Option<int>, location: Option<string>, supplier: Option<string>): Item
  {
    item.(name := if Truthy(name) then name.value else item.name,
          categoryId := if categoryId.Some? then categoryId.value else item.categoryId,
          description := if description.Some? then description else item.description,
          unitPrice := if unitPrice.Some? then unitPrice else item.unitPrice,
          location := if location.Some? then location.value else item.location,
          supplier := if supplier.Some? then supplier else item.supplier)
  }

  /** Why the field edits of an existing item are refused, checked in the order the source
      checks: a rename onto another item's name, an unknown category, an unknown location. */
  function FieldRefusal(t: Tables, id: nat, name: Option<string>, categoryId: Option<nat>,
                        location: Option<string>): Option<Error>
    requires id in t.items
  {
    var item := t.items[id];
    if Truthy(name) && name.value != item.name && ItemNameTaken(t.items, name.value, Some(id)) then Some(DuplicateName)
    else if categoryId.Some? && categoryId.value !in t.categories then Some(InvalidCategory)
    else if location.Some? && location.value !in Locations then Some(InvalidLocation)
    else None
  }

  /** Why a whole edit is refused: the field checks, then a quantity change that would
      leave the stock negative. */
  function EditRefusal(t: Tables, id: nat, name: Option<string>, categoryId: Option<nat>,
                       location: Option<string>, quantity: Option<int>): Option<Error>
    requires id in t.items
  {
    var fields := FieldRefusal(t, id, name, categoryId, location);
    if fields.Some? then fields
    else if quantity.Some? && quantity.value != t.items[id].quantity && quantity.value < 0 then Some(InsufficientQuantity)
    else None
  }

  /** Writing back an edited item whose quantity is unchanged keeps every invariant, given
      that its name is its own or free and its category exists. */
  lemma EditKeeps(t: Tables, id: nat, item: Item)
    requires id in t.items && item.quantity == t.items[id].quantity
    requires item.name == t.items[id].name || !ItemNameTaken(t.items, item.name, Some(id))
    ensures Integrity(t) && item.categoryId in t.categories ==> Integrity(t.(items := t.items[id := item]))
    ensures Consistent(t) ==> Consistent(t.(items := t.items[id := item]))
    ensures DistinctItemNames(t) ==> DistinctItemNames(t.(items := t.items[id := item]))
  {
  }

  /**
   * The edits of an item other than its quantity, applied to the session in the source's
   * order and not committed. A refusal leaves the fields edited before it pending.
   */
  method StageFieldEdits(st: Store, id: nat, name: Option<string>, categoryId: Option<nat>,
                         description: Option<string>, unitPrice: Option<int>, location: Option<string>,
                         supplier: Option<string>)
    returns (refusal: Option<Error>)
    requires id in st.work.items
    modifies st
    ensures refusal == FieldRefusal(old(st.work), id, name, categoryId, location)
    ensures st.durable == old(st.durable)
    ensures id in st.work.items
    ensures st.work == old(st.work).(items := old(st.work.items)[id := st.work.items[id]])
    ensures st.work.items[id].quantity == old(st.work.items[id].quantity)
    ensures refusal.None? ==>
              st.work.items[id] == Edited(old(st.work.items[id]), name, categoryId, description, unitPrice, location, supplier)
    ensures st.work.items[id].name == old(st.work.items[id].name)
            || !ItemNameTaken(old(st.work.items), st.work.items[id].name, Some(id))
    ensures st.work.items[id].categoryId == old(st.work.items[id].categoryId)
            || st.work.items[id].categoryId in old(st.work.categories)
    ensures Integrity(old(st.work)) ==> Integrity(st.work)
    ensures Consistent(old(st.work)) ==> Consistent(st.work)
    ensures DistinctItemNames(old(st.work)) ==> DistinctItemNames(st.work)
  {
    var item, fields := EditFields(st.work, id, name, categoryId, description, unitPrice, location, supplier);
    EditKeeps(st.work, id, item);
    st.work := st.work.(items := st.work.items[id := item]);
    refusal := fields;
  }

  /** The item as the field edits leave it, the edits taken in the source's order; at a
      refusal, the item as the edits before it left it. */
  method EditFields(t: Tables, id: nat, name: Option<string>, categoryId: Option<nat>,
                    description: Option<string>, unitPrice: Option<int>, location: Option<string>,
                    supplier: Option<string>)
    returns (item: Item, refusal: Option<Error>)
    requires id in t.items
    ensures refusal == FieldRefusal(t, id, name, categoryId, location)
    ensures item.quantity == t.items[id].quantity
    ensures refusal.None? ==> item == Edited(t.items[id], name, categoryId, description, unitPrice, location, supplier)
    ensures item.name == t.items[id].name || !ItemNameTaken(t.items, item.name, Some(id))
    ensures item.categoryId == t.items[id].categoryId || item.categoryId in t.categories
  {
    item := t.items[id];
    if Truthy(name) && name.value != item.name {
      if ItemNameTaken(t.items, name.value, Some(id)) {
        return item, Some(DuplicateName);
      }
      item := item.(name := name.value);
    }
    if categoryId.Some? {
      if categoryId.value !in t.categories {
        return item, Some(InvalidCategory);
      }
      item := item.(categoryId := categoryId.value);
    }
    if description.Some? {
      item := item.(description := description);
    }
    if unitPrice.Some? {
      item := item.(unitPrice := unitPrice);
    }
    if location.Some? {
      if location.value !in Locations {
        return item, Some(InvalidLocation);
      }
      item := item.(location := location.value);
    }
    if supplier.Some? {
      item := item.(supplier := supplier);
    }
    refusal := None;
  }

  /**
   * Edits an item. A new quantity goes through AdjustQuantity (an "adjustment" entry for
   * the difference), whose commit also writes the other edits. A refused edit commits
   * nothing; the fields edited before the refusal stay pending in the session only.
   */
  method UpdateInventory(st: Store, isAdmin: bool, userId: nat, id: nat, name: Option<string>,
                         categoryId: Option<nat>, quantity: Option<int>, description: Option<string>,
                         unitPrice: Option<int>, location: Option<string>, supplier: Option<string>, now: int)
    returns (r: Result<Item, Error>)
    modifies st
    ensures !isAdmin ==> r == Err(PermissionDenied) && unchanged(st)
    ensures isAdmin && id !in old(st.work.items) ==> r == Err(NotFound) && unchanged(st)
    ensures isAdmin && id in old(st.work.items) ==>
              var refusal := EditRefusal(old(st.work), id, name, categoryId, location, quantity);
              && (refusal.Some? ==>
                    && r == Err(refusal.value)
                    && st.durable == old(st.durable)
                    && id in st.work.items
                    && st.work == old(st.work).(items := old(st.work.items)[id := st.work.items[id]])
                    && st.work.items[id].quantity == old(st.work.items[id].quantity))
              && (refusal.None? ==>
                    var item := old(st.work.items[id]);
                    var edited := Edited(item, name, categoryId, description, unitPrice, location, supplier);
                    && st.durable == st.work
                    && (quantity.None? || quantity.value == item.quantity ==>
                          st.work == old(st.work).(items := old(st.work.items)[id := edited]))
                    && (quantity.Some? && quantity.value != item.quantity ==>
                          st.work == Moved(old(st.work).(items := old(st.work.items)[id := edited]),
                                           AdjustmentEntry(id, quantity.value - item.quantity, userId, now))
                          && st.work.items[id].quantity == quantity.value)
                    && r == Ok(st.work.items[id]))
    ensures Integrity(old(st.work)) ==> Integrity(st.work)
    ensures Consistent(old(st.work)) ==> Consistent(st.work)
    ensures DistinctItemNames(old(st.work)) ==> DistinctItemNames(st.work)
  {
    if !isAdmin {
      return Err(PermissionDenied);
    }
    if id !in st.work.items {
      return Err(NotFound);
    }
    ghost var t0 := st.work;
    var refusal := StageFieldEdits(st, id, name, categoryId, description, unitPrice, location, supplier);
    if refusal.Some? {
      return Err(refusal.value);
    }
    assert st.work == t0.(items := t0.items[id := Edited(t0.items[id], name, categoryId, description, unitPrice, location, supplier)]);
    r := SaveQuantity(st, userId, id, quantity, now);
  }

  /** The end of an accepted edit: a changed quantity goes through AdjustQuantity, whose
      commit also writes the staged fields; otherwise the session is committed as it is. */
  method SaveQuantity(st: Store, userId: nat, id: nat, quantity: Option<int>, now: int)
    returns (r: Result<Item, Error>)
    requires id in st.work.items
    modifies st
    ensures var current := old(st.work.items[id].quantity);
            && (quantity.Some? && quantity.value != current && quantity.value < 0 ==>
                  r == Err(InsufficientQuantity) && unchanged(st))
            && (quantity.None? || quantity.value == current ==>
                  st.work == old(st.work) && st.durable == st.work && r == Ok(st.work.items[id]))
            && (quantity.Some? && quantity.value != current && quantity.value >= 0 ==>
                  && st.work == Moved(old(st.work), AdjustmentEntry(id, quantity.value - current, userId, now))
                  && st.durable == st.work
                  && st.work.items[id].quantity == quantity.value
                  && r == Ok(st.work.items[id]))
    ensures Integrity(old(st.work)) ==> Integrity(st.work)
    ensures Consistent(old(st.work)) ==> Consistent(st.work)
    ensures DistinctItemNames(old(st.work)) ==> DistinctItemNames(st.work)
  {
    var current := st.work.items[id].quantity;
    if quantity.Some? && quantity.value != current {
      r := AdjustQuantity(st, true, userId, id, quantity.value - current, now);
      if r.Ok? {
        assert st.work.items[id].quantity == current + (quantity.value - current);
      }
      return;
    }
    st.Commit();
    r := Ok(st.work.items[id]);
  }

  /** The supplier records that survive deleting an item. */
  function SuppliersWithout(suppliers: seq<SupplierRecord>, id: nat): (r: seq<SupplierRecord>)
    ensures forall s :: s in r <==> s in suppliers && s.inventoryId != id
  {
    if |suppliers| == 0 then []
    else
      var rest := SuppliersWithout(suppliers[1..], id);
      assert forall s :: s in suppliers <==> s == suppliers[0] || s in suppliers[1..];
      if suppliers[0].inventoryId == id then rest else [suppliers[0]] + rest
  }

  /** Each record of another item survives as often as the table holds it. */
  lemma {:induction false} SuppliersWithoutCounts(suppliers: seq<SupplierRecord>, id: nat)
    ensures forall s :: multiset(SuppliersWithout(suppliers, id))[s] ==
                        if s.inventoryId != id then multiset(suppliers)[s] else 0
  {
    if |suppliers| > 0 {
      SuppliersWithoutCounts(suppliers[1..], id);
      assert suppliers == [suppliers[0]] + suppliers[1..];
    }
  }

  /** The surviving supplier records keep their table order. */
  lemma {:induction false} SuppliersWithoutSplits(a: seq<SupplierRecord>, b: seq<SupplierRecord>, id: nat)
    ensures SuppliersWithout(a + b, id) == SuppliersWithout(a, id) + SuppliersWithout(b, id)
  {
    if a == [] {
      assert a + b == b;
    } else {
      assert (a + b)[1..] == a[1..] + b;
      SuppliersWithoutSplits(a[1..], b, id);
    }
  }

  /** The request lines that survive deleting an item. */
  function LinesWithout(lines: seq<RequestItem>, id: nat): (r: seq<RequestItem>)
    ensures forall l :: l in r <==> l in lines && l.inventoryId != id
  {
    if |lines| == 0 then []
    else
      var rest := LinesWithout(lines[1..], id);
      assert forall l :: l in lines <==> l == lines[0] || l in lines[1..];
      if lines[0].inventoryId == id then rest else [lines[0]] + rest
  }

  /** Each line for another item survives as often as the request holds it. */
  lemma {:induction false} LinesWithoutCounts(lines: seq<RequestItem>, id: nat)
    ensures forall l :: multiset(LinesWithout(lines, id))[l] == if l.inventoryId != id then multiset(lines)[l] else 0
  {
    if |lines| > 0 {
      LinesWithoutCounts(lines[1..], id);
      assert lines == [lines[0]] + lines[1..];
    }
  }

  /** The surviving lines keep their order. */
  lemma {:induction false} LinesWithoutSplits(a: seq<RequestItem>, b: seq<RequestItem>, id: nat)
    ensures LinesWithout(a + b, id) == LinesWithout(a, id) + LinesWithout(b, id)
  {
    if a == [] {
      assert a + b == b;
    } else {
      assert (a + b)[1..] == a[1..] + b;
      LinesWithoutSplits(a[1..], b, id);
    }
  }

  /** Every request without its lines for the deleted item: no request loses anything
      else, and no line left refers to the item. */
  function RequestsWithout(requests: map<nat, Request>, id: nat): (r: map<nat, Request>)
    ensures r.Keys == requests.Keys
    ensures forall rid :: rid in r ==> r[rid].(items := requests[rid].items) == requests[rid]
    ensures forall rid, k :: rid in r && 0 <= k < |r[rid].items| ==> r[rid].items[k].inventoryId != id
    ensures forall rid, l: RequestItem :: rid in r && l.inventoryId != id ==> multiset(r[rid].items)[l] == multiset(requests[rid].items)[l]
  {
    var r := map rid | rid in requests :: requests[rid].(items := LinesWithout(requests[rid].items, id));
    assert forall rid, k :: rid in r && 0 <= k < |r[rid].items| ==> r[rid].items[k] in r[rid].items;
    assert forall rid, l: RequestItem :: rid in r && l.inventoryId != id ==>
             multiset(r[rid].items)[l] == multiset(requests[rid].items)[l] by {
      forall rid | rid in requests {
        LinesWithoutCounts(requests[rid].items, id);
      }
    }
    r
  }

  /**
   * Deletes an item. The database cascades the deletion to its ledger entries, supplier
   * records and request lines, so every other item keeps its balance.
   */
  method DeleteInventory(st: Store, isAdmin: bool, id: nat) returns (r: Result<(), Error>)
    modifies st
    ensures !isAdmin ==> r == Err(PermissionDenied) && unchanged(st)
    ensures isAdmin && id !in old(st.work.items) ==> r == Err(NotFound) && unchanged(st)
    ensures isAdmin && id in old(st.work.items) ==>
              && r == Ok(())
              && st.work == old(st.work).(items := old(st.work.items) - {id},
                                          ledger := WithoutItem(old(st.work.ledger), id),
                                          suppliers := SuppliersWithout(old(st.work.suppliers), id),
                                          requests := RequestsWithout(old(st.work.requests), id))
              && st.durable == st.work
    ensures Integrity(old(st.work)) ==> Integrity(st.work)
    ensures Consistent(old(st.work)) ==> Consistent(st.work)
    ensures DistinctItemNames(old(st.work)) ==> DistinctItemNames(st.work)
  {
    if !isAdmin {
      return Err(PermissionDenied);
    }
    if id !in st.work.items {
      return Err(NotFound);
    }
    ghost var before := st.work;
    st.work := st.work.(items := st.work.items - {id},
                        ledger := WithoutItem(st.work.ledger, id),
                        suppliers := SuppliersWithout(st.work.suppliers, id),
                        requests := RequestsWithout(st.work.requests, id));
    st.Commit();
    r := Ok(());
    if Consistent(before) {
      forall j | j in st.work.items
        ensures Balance(st.work.ledger, j) == st.work.items[j].quantity
      {
        BalanceWithoutItem(before.ledger, id, j);
      }
    }
    if Integrity(before) {
      DeleteKeepsIntegrity(before, id);
    }
  }

  lemma DeleteKeepsIntegrity(t: Tables, id: nat)
    requires Integrity(t)
    ensures Integrity(t.(items := t.items - {id},
                         ledger := WithoutItem(t.ledger, id),
                         suppliers := SuppliersWithout(t.suppliers, id),
                         requests := RequestsWithout(t.requests, id)))
  {
    LedgerAfterDelete(t.ledger, id, t.items, t.requests);
    SuppliersAfterDelete(t.suppliers, id, t.items, t.nextId);
    RequestsAfterDelete(t.requests, id, t.items, t.nextId);
  }

  /** The surviving ledger entries name surviving items and existing requests. */
  lemma LedgerAfterDelete(ledger: seq<Txn>, id: nat, items: map<nat, Item>, requests: map<nat, Request>)
    requires forall k :: 0 <= k < |ledger| ==> ledger[k].inventoryId in items
    requires forall k :: 0 <= k < |ledger| && ledger[k].relatedRequest.Some? ==> ledger[k].relatedRequest.value in requests
    ensures var l := WithoutItem(ledger, id);
            && (forall k :: 0 <= k < |l| ==> l[k].inventoryId in items - {id})
            && (forall k :: 0 <= k < |l| && l[k].relatedRequest.Some? ==> l[k].relatedRequest.value in requests)
  {
    var l := WithoutItem(ledger, id);
    forall k | 0 <= k < |l|
      ensures l[k].inventoryId in items - {id}
      ensures l[k].relatedRequest.Some? ==> l[k].relatedRequest.value in requests
    {
      assert l[k] in ledger;
    }
  }

  /** The surviving supplier records name surviving items. */
  lemma SuppliersAfterDelete(suppliers: seq<SupplierRecord>, id: nat, items: map<nat, Item>, nextId: nat)
    requires forall k :: 0 <= k < |suppliers| ==> suppliers[k].id < nextId && suppliers[k].inventoryId in items
    ensures var s := SuppliersWithout(suppliers, id);
            forall k :: 0 <= k < |s| ==> s[k].id < nextId && s[k].inventoryId in items - {id}
  {
    var s := SuppliersWithout(suppliers, id);
    forall k | 0 <= k < |s|
      ensures s[k].id < nextId && s[k].inventoryId in items - {id}
    {
      assert s[k] in suppliers;
    }
  }

  /** The surviving request lines name surviving items. */
  lemma RequestsAfterDelete(requests: map<nat, Request>, id: nat, items: map<nat, Item>, nextId: nat)
    requires forall rid, k :: rid in requests && 0 <= k < |requests[rid].items| ==>
               requests[rid].items[k].inventoryId in items && requests[rid].items[k].id < nextId
    ensures var r := RequestsWithout(requests, id);
            forall rid, k :: rid in r && 0 <= k < |r[rid].items| ==>
              r[rid].items[k].inventoryId in items - {id} && r[rid].items[k].id < nextId
  {
    var r := RequestsWithout(requests, id);
    forall rid, k | rid in r && 0 <= k < |r[rid].items|
      ensures r[rid].items[k].inventoryId in items - {id} && r[rid].items[k].id < nextId
    {
      assert r[rid].items[k] in LinesWithout(requests[rid].items, id);
    }
  }
}
