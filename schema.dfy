// The database the application works on: the rows of its tables as values, the
// integrity rules the schema enforces, the ledger invariant, and the SQLAlchemy
// session through which every change goes (pending work, commit, rollback).

module Schema {
  import opened Base
  import opened Ledger

  datatype Category = Category(name: string, description: Option<string>)

  /** A row of `inventories`. Prices are in minor units. */
  datatype Item = Item(
    name: string,
    description: Option<string>,
    quantity: int,
    categoryId: nat,
    unitPrice: Option<int>,
    supplier: Option<string>,
    location: string,
    createdAt: int)

  /** A row of `inventory_suppliers`: the price and last purchase date of one supplier for one item. */
  datatype SupplierRecord = SupplierRecord(
    id: nat,
    inventoryId: nat,
    name: string,
    unitPrice: Option<int>,
    lastPurchaseDate: int)

  datatype RequestStatus = Pending | Approved | PartiallyApproved | Rejected | Collected

  datatype ItemStatus = ItemPending | ItemApproved | ItemRejected | ItemCollected

  /** A row of `request_items`. */
  datatype RequestItem = RequestItem(
    id: nat,
    inventoryId: nat,
    quantity: int,
    quantityApproved: int,
    status: ItemStatus)

  /** A row of `requests`, together with its items (they are deleted with it). */
  datatype Request = Request(
    reference: string,
    userId: nat,
    status: RequestStatus,
    location: string,
    adminMessage: Option<string>,
    deletedAt: Option<int>,
    deletedBy: Option<nat>,
    deletionReason: Option<string>,
    approvedBy: Option<nat>,
    directorate: string,
    department: Option<string>,
    unit: string,
    createdAt: int,
    items: seq<RequestItem>)

  /** The tables. Autoincrement ids come from one counter; their values carry no meaning. */
  datatype Tables = Tables(
    categories: map<nat, Category>,
    items: map<nat, Item>,
    ledger: seq<Txn>,
    suppliers: seq<SupplierRecord>,
    requests: map<nat, Request>,
    nextId: nat)

  /** A new database; autoincrement ids start at 1. */
  const EmptyTables := Tables(map[], map[], [], [], map[], 1)

  /** Error outcomes of the model operations, one per distinct refusal of the source. */
  datatype Error =
    | PermissionDenied
    | NotFound
    | DuplicateName
    | InvalidCategory
    | InvalidLocation
    | HasItems
    | InsufficientQuantity
    | InvalidTransition
    | NotCollectable
    | CollectionFailed
    | NotSoftDeleted
    | StillReferenced
    | SupplierFailed
    | MissingFields
    | InvalidInput
    | InvalidLine
    | CannotDeleteCollected

  /** The ledger invariant: every item's quantity is the net of its ledger entries. */
  ghost predicate Consistent(t: Tables)
  {
    forall id :: id in t.items ==> Balance(t.ledger, id) == t.items[id].quantity
  }

  /** The foreign keys the schema declares, and fresh ids above every id in use. */
  ghost predicate Integrity(t: Tables)
  {
    && (forall id :: id in t.categories ==> id < t.nextId)
    && (forall id :: id in t.items ==> id < t.nextId && t.items[id].categoryId in t.categories)
    && (forall id :: id in t.requests ==> id < t.nextId)
    && (forall k :: 0 <= k < |t.suppliers| ==> t.suppliers[k].id < t.nextId && t.suppliers[k].inventoryId in t.items)
    && (forall k :: 0 <= k < |t.ledger| ==> t.ledger[k].inventoryId in t.items)
    && (forall k :: 0 <= k < |t.ledger| && t.ledger[k].relatedRequest.Some? ==>
          t.ledger[k].relatedRequest.value in t.requests)
    && (forall id, k :: id in t.requests && 0 <= k < |t.requests[id].items| ==>
          t.requests[id].items[k].inventoryId in t.items && t.requests[id].items[k].id < t.nextId)
  }

  /** Item names are unique up to case (the column is unique and every writer checks with ILIKE). */
  ghost predicate DistinctItemNames(t: Tables)
  {
    forall i, j :: i in t.items && j in t.items && i != j ==> !SameIgnoringCase(t.items[i].name, t.items[j].name)
  }

  ghost predicate DistinctCategoryNames(t: Tables)
  {
    forall i, j :: i in t.categories && j in t.categories && i != j ==>
      !SameIgnoringCase(t.categories[i].name, t.categories[j].name)
  }

  /** A stock movement of an existing item: its quantity moves by the entry's quantity and the
      entry is appended to the ledger. Every writer of stock does exactly this. */
  function Moved(t: Tables, e: Txn): Tables
    requires e.inventoryId in t.items
  {
    var item := t.items[e.inventoryId];
    t.(items := t.items[e.inventoryId := item.(quantity := item.quantity + e.quantity)], ledger := t.ledger + [e])
  }

  /** A movement keeps every item's quantity equal to the net of its ledger entries. */
  lemma MovedConsistent(t: Tables, e: Txn)
    requires e.inventoryId in t.items
    requires Consistent(t)
    ensures Consistent(Moved(t, e))
  {
    forall id | id in Moved(t, e).items
      ensures Balance(Moved(t, e).ledger, id) == Moved(t, e).items[id].quantity
    {
      BalanceSnoc(t.ledger, e, id);
    }
  }

  /** A movement keeps the foreign keys when the entry's request exists. */
  lemma MovedIntegrity(t: Tables, e: Txn)
    requires e.inventoryId in t.items
    requires e.relatedRequest.Some? ==> e.relatedRequest.value in t.requests
    requires Integrity(t)
    ensures Integrity(Moved(t, e))
  {
  }

  /** A name already used by another item, compared as ILIKE does. */
  predicate ItemNameTaken(items: map<nat, Item>, name: string, except: Option<nat>)
  {
    exists id :: id in items && Some(id) != except && SameIgnoringCase(items[id].name, name)
  }

  predicate CategoryNameTaken(categories: map<nat, Category>, name: string, except: Option<nat>)
  {
    exists id :: id in categories && Some(id) != except && SameIgnoringCase(categories[id].name, name)
  }

  /** Locations an item may be stored at (Inventory.LOCATIONS). */
  const Locations: seq<string> := ["Headquarters"]

  /**
   * The database session. `work` is what the application sees (committed rows plus its
   * pending changes); `durable` is what the last commit wrote. A request ends by
   * discarding whatever it did not commit (`Rollback`).
   */
  class Store {
    var work: Tables
    var durable: Tables

    /** The instant the models were imported. Columns declared with
        `default=datetime.now(UTC)` (not a callable) all receive this one value. */
    const importTime: int

    constructor (importTime: int)
      ensures work == EmptyTables && durable == EmptyTables && this.importTime == importTime
    {
      work := EmptyTables;
      durable := EmptyTables;
      this.importTime := importTime;
    }

    /** db.session.commit(): the pending state becomes durable. */
    method Commit()
      modifies this
      ensures work == old(work) && durable == old(work)
    {
      durable := work;
    }

    /** db.session.rollback(): pending changes are discarded. */
    method Rollback()
      modifies this
      ensures work == old(durable) && durable == old(durable)
    {
      work := durable;
    }

    /** A fresh autoincrement id. */
    method FreshId() returns (id: nat)
      modifies this
      ensures id == old(work.nextId)
      ensures work == old(work).(nextId := id + 1) && durable == old(durable)
    {
      id := work.nextId;
      work := work.(nextId := id + 1);
    }
  }
}
