// Requests for stock (tables requests and request_items): the status table, per-item
// decisions, approval, collection (which issues stock out through the ledger), soft
// deletion, restoring and permanent deletion, and the queries that hide deleted requests.

module Requests {
  import opened Base
  import opened Ledger
  import opened Schema

  // ---------------------------------------------------------------------------
  // The status table of Request.update_status.

  /** allowed_transitions: pending may become approved, rejected or partially approved;
      approved and partially approved may become collected; nothing leaves rejected or
      collected. */
  predicate Allowed(from: RequestStatus, to: RequestStatus)
  {
    match from
    case Pending => to == Approved || to == Rejected || to == PartiallyApproved
    case Approved => to == Collected
    case PartiallyApproved => to == Collected
    case Rejected => false
    case Collected => false
  }

  /** How many steps of the table can still follow a status. */
  function Rank(s: RequestStatus): nat
  {
    match s
    case Pending => 2
    case Approved => 1
    case PartiallyApproved => 1
    case Rejected => 0
    case Collected => 0
  }

  lemma AllowedLowersRank(from: RequestStatus, to: RequestStatus)
    requires Allowed(from, to)
    ensures Rank(to) < Rank(from)
  {
  }

  /** A history of statuses each reached from the previous one through the table. */
  predicate Chain(s: seq<RequestStatus>)
  {
    forall k :: 0 <= k < |s| - 1 ==> Allowed(s[k], s[k + 1])
  }

  /** Every history through the table is short: at most Rank(first) further steps. */
  lemma {:induction false} ChainLength(s: seq<RequestStatus>)
    requires |s| > 0 && Chain(s)
    ensures |s| <= Rank(s[0]) + 1
    decreases |s|
  {
    if |s| > 1 {
      var rest := s[1..];
      forall k | 0 <= k < |rest| - 1
        ensures Allowed(rest[k], rest[k + 1])
      {
        assert rest[k] == s[k + 1] && rest[k + 1] == s[k + 2];
      }
      ChainLength(rest);
      AllowedLowersRank(s[0], s[1]);
    }
  }

  /** Rejected and collected are terminal: no history through the table leaves them. */
  lemma TerminalStatesAreFinal(s: seq<RequestStatus>)
    requires |s| > 0 && Chain(s) && (s[0] == Rejected || s[0] == Collected)
    ensures |s| == 1
  {
    ChainLength(s);
  }

  /** Through the table a pending request is collected only after being approved (fully or
      partially), and then never changes again. */
  lemma CollectedOnlyAfterApproval(s: seq<RequestStatus>)
    requires |s| > 1 && Chain(s) && s[0] == Pending && s[|s| - 1] == Collected
    ensures |s| == 3 && (s[1] == Approved || s[1] == PartiallyApproved)
  {
    ChainLength(s);
    assert Allowed(s[0], s[1]);
    if |s| == 3 {
      assert Allowed(s[1], s[2]);
    }
  }

  // ---------------------------------------------------------------------------
  // Field updates of one request.

  /** A truthy Python value: a user id of 0 counts as absent. */
  predicate GivenId(o: Option<nat>)
  {
    o.Some? && o.value != 0
  }

  /** The request with a new status; a message or an approver is recorded only when given. */
  function WithStatus(req: Request, status: RequestStatus, adminMessage: Option<string>, approvedBy: Option<nat>)
    : (r: Request)
    ensures r.status == status && r.items == req.items && r.deletedAt == req.deletedAt
    ensures r.adminMessage == (if Truthy(adminMessage) then adminMessage else req.adminMessage)
    ensures r.approvedBy == (if GivenId(approvedBy) then approvedBy else req.approvedBy)
    ensures r.(status := req.status, adminMessage := req.adminMessage, approvedBy := req.approvedBy) == req
  {
    req.(status := status,
         adminMessage := if Truthy(adminMessage) then adminMessage else req.adminMessage,
         approvedBy := if GivenId(approvedBy) then approvedBy else req.approvedBy)
  }

  function WithRequest(t: Tables, id: nat, req: Request): Tables
  {
    t.(requests := t.requests[id := req])
  }

  /** Request.update_status: a move the table does not allow is refused and nothing changes;
      an allowed move is committed with the given message and approver. */
  method UpdateStatus(st: Store, id: nat, status: RequestStatus, adminMessage: Option<string>, approvedBy: Option<nat>)
    returns (r: Result<(), Error>)
    requires id in st.work.requests
    modifies st
    ensures !Allowed(old(st.work.requests[id].status), status) ==> r == Err(InvalidTransition) && unchanged(st)
    ensures Allowed(old(st.work.requests[id].status), status) ==>
              && r == Ok(())
              && st.work == WithRequest(old(st.work), id, WithStatus(old(st.work.requests[id]), status, adminMessage, approvedBy))
              && st.durable == st.work
  {
    var req := st.work.requests[id];
    if !Allowed(req.status, status) {
      return Err(InvalidTransition);
    }
    st.work := WithRequest(st.work, id, WithStatus(req, status, adminMessage, approvedBy));
    st.Commit();
    r := Ok(());
  }

  predicate HasItemStatus(items: seq<RequestItem>, s: ItemStatus)
  {
    exists k :: 0 <= k < |items| && items[k].status == s
  }

  /** Request.update_status_based_on_items: partially approved exactly when the items are a
      mix of approved and rejected ones (whatever the current status); otherwise nothing. */
  method UpdateStatusBasedOnItems(st: Store, id: nat)
    requires id in st.work.requests
    modifies st
    ensures var req := old(st.work.requests[id]);
            && (HasItemStatus(req.items, ItemApproved) && HasItemStatus(req.items, ItemRejected) ==>
                  && st.work == WithRequest(old(st.work), id, req.(status := PartiallyApproved))
                  && st.durable == st.work)
            && (!(HasItemStatus(req.items, ItemApproved) && HasItemStatus(req.items, ItemRejected)) ==> unchanged(st))
  {
    var req := st.work.requests[id];
    if HasItemStatus(req.items, ItemApproved) && HasItemStatus(req.items, ItemRejected) {
      st.work := WithRequest(st.work, id, req.(status := PartiallyApproved));
      st.Commit();
    }
  }

  // ---------------------------------------------------------------------------
  // Soft deletion.

  function SoftDeleted(req: Request, userId: nat, reason: Option<string>, now: int): Request
  {
    req.(deletedAt := Some(now), deletedBy := Some(userId), deletionReason := reason)
  }

  function Restored(req: Request): Request
  {
    req.(deletedAt := None, deletedBy := None, deletionReason := None)
  }

  /** Restoring undoes a soft deletion of a request that was not deleted before. */
  lemma RestoreUndoesSoftDelete(req: Request, userId: nat, reason: Option<string>, now: int)
    requires req.deletedAt.None? && req.deletedBy.None? && req.deletionReason.None?
    ensures Restored(SoftDeleted(req, userId, reason, now)) == req
  {
  }

  /** Request.soft_delete: records when, by whom and why, and commits. */
  method SoftDelete(st: Store, id: nat, userId: nat, reason: Option<string>, now: int)
    requires id in st.work.requests
    modifies st
    ensures st.work == WithRequest(old(st.work), id, SoftDeleted(old(st.work.requests[id]), userId, reason, now))
    ensures st.durable == st.work
  {
    st.work := WithRequest(st.work, id, SoftDeleted(st.work.requests[id], userId, reason, now));
    st.Commit();
  }

  /** Request.restore: clears the three deletion fields and commits. */
  method Restore(st: Store, id: nat)
    requires id in st.work.requests
    modifies st
    ensures st.work == WithRequest(old(st.work), id, Restored(old(st.work.requests[id])))
    ensures st.durable == st.work
  {
    st.work := WithRequest(st.work, id, Restored(st.work.requests[id]));
    st.Commit();
  }

  /**
   * Request.permanent_delete_if_soft_deleted. Only a soft-deleted request is deleted, with
   * its items. The ledger's reference to a request has no ON DELETE action, so deleting a
   * request some issue entry refers to fails at commit and the session is rolled back.
   */
  method PermanentDelete(st: Store, id: nat) returns (r: Result<(), Error>)
    requires id in st.work.requests
    modifies st
    ensures old(st.work.requests[id].deletedAt).None? ==> r == Err(NotSoftDeleted) && unchanged(st)
    ensures old(st.work.requests[id].deletedAt).Some? && Referenced(old(st.work.ledger), id) ==>
              r == Err(StillReferenced) && st.work == old(st.durable) && st.durable == old(st.durable)
    ensures old(st.work.requests[id].deletedAt).Some? && !Referenced(old(st.work.ledger), id) ==>
              && r == Ok(())
              && st.work == old(st.work).(requests := old(st.work.requests) - {id})
              && st.durable == st.work
    ensures r.Ok? && Integrity(old(st.work)) ==> Integrity(st.work)
    ensures r.Ok? && Consistent(old(st.work)) ==> Consistent(st.work)
  {
    if st.work.requests[id].deletedAt.None? {
      return Err(NotSoftDeleted);
    }
    if Referenced(st.work.ledger, id) {
      st.Rollback();
      return Err(StillReferenced);
    }
    st.work := st.work.(requests := st.work.requests - {id});
    st.Commit();
    r := Ok(());
  }

  // ---------------------------------------------------------------------------
  // The queries. Each listing scans the table in the database's `order`, keeps the rows
  // its filter selects and sorts them newest first.

  /** The requests not soft-deleted. */
  function ActiveRequests(t: Tables): (r: set<nat>)
    ensures forall id :: id in r <==> id in t.requests && t.requests[id].deletedAt.None?
  {
    set id | id in t.requests && t.requests[id].deletedAt.None?
  }

  /** One user's requests not soft-deleted. */
  function UserRequests(t: Tables, userId: nat): (r: set<nat>)
    ensures r <= ActiveRequests(t)
    ensures forall id :: id in r <==> id in ActiveRequests(t) && t.requests[id].userId == userId
  {
    set id | id in t.requests && t.requests[id].deletedAt.None? && t.requests[id].userId == userId
  }

  /** get_request_by_id: the request unless it is soft-deleted. */
  function RequestById(t: Tables, id: nat): (r: Option<Request>)
    ensures r.Some? <==> id in ActiveRequests(t)
    ensures r.Some? ==> r.value == t.requests[id]
  {
    if id in t.requests && t.requests[id].deletedAt.None? then Some(t.requests[id]) else None
  }

  /** The soft-deleted requests. */
  function DeletedRequests(t: Tables): (r: set<nat>)
    ensures forall id :: id in r <==> id in t.requests && t.requests[id].deletedAt.Some?
  {
    set id | id in t.requests && t.requests[id].deletedAt.Some?
  }

  /** get_all_requests: the requests not soft-deleted, each as often as the scan meets it,
      newest first. */
  function GetAllRequests(t: Tables, order: seq<nat>): (r: seq<nat>)
    ensures forall id :: multiset(r)[id] == if id in ActiveRequests(t) then multiset(order)[id] else 0
    ensures forall k :: 0 <= k < |r| ==> r[k] in ActiveRequests(t)
    ensures forall i, j :: 0 <= i < j < |r| ==> t.requests[r[i]].createdAt >= t.requests[r[j]].createdAt
  {
    var p := id => id in ActiveRequests(t);
    var key := id => if id in t.requests then t.requests[id].createdAt else 0;
    FilteredSorted(order, p, key);
    SortDesc(Filter(order, p), key)
  }

  /** get_user_requests: one user's requests not soft-deleted, newest first. */
  function GetUserRequests(t: Tables, order: seq<nat>, userId: nat): (r: seq<nat>)
    ensures forall id :: multiset(r)[id] == if id in UserRequests(t, userId) then multiset(order)[id] else 0
    ensures forall k :: 0 <= k < |r| ==> r[k] in UserRequests(t, userId)
    ensures forall i, j :: 0 <= i < j < |r| ==> t.requests[r[i]].createdAt >= t.requests[r[j]].createdAt
  {
    var p := id => id in UserRequests(t, userId);
    var key := id => if id in t.requests then t.requests[id].createdAt else 0;
    FilteredSorted(order, p, key);
    SortDesc(Filter(order, p), key)
  }

  /** get_deleted_requests: the soft-deleted requests, most recently deleted first. */
  function GetDeletedRequests(t: Tables, order: seq<nat>): (r: seq<nat>)
    ensures forall id :: multiset(r)[id] == if id in DeletedRequests(t) then multiset(order)[id] else 0
    ensures forall k :: 0 <= k < |r| ==> r[k] in DeletedRequests(t)
    ensures forall i, j :: 0 <= i < j < |r| ==>
              t.requests[r[i]].deletedAt.value >= t.requests[r[j]].deletedAt.value
  {
    var p := id => id in DeletedRequests(t);
    var key := id => if id in t.requests && t.requests[id].deletedAt.Some? then t.requests[id].deletedAt.value else 0;
    FilteredSorted(order, p, key);
    SortDesc(Filter(order, p), key)
  }

  /** Over a scan of the table, the normal and the deleted listing together hold every
      request exactly as often as the scan does. */
  lemma ListingsPartition(t: Tables, order: seq<nat>)
    requires forall k :: 0 <= k < |order| ==> order[k] in t.requests
    ensures multiset(GetAllRequests(t, order)) + multiset(GetDeletedRequests(t, order)) == multiset(order)
  {
    forall id
      ensures multiset(GetAllRequests(t, order))[id] + multiset(GetDeletedRequests(t, order))[id] == multiset(order)[id]
    {
      if id !in t.requests {
        assert id !in order;
      }
    }
  }

  /** get_request_by_id finds a request exactly when get_all_requests lists it. */
  lemma RequestByIdListed(t: Tables, order: seq<nat>, id: nat)
    requires forall x :: x in t.requests ==> x in order
    ensures RequestById(t, id).Some? <==> id in GetAllRequests(t, order)
  {
    var r := GetAllRequests(t, order);
    assert id in r <==> id in multiset(r);
    assert id in order <==> id in multiset(order);
  }

  /** Every request is listed by exactly one of get_all_requests and get_deleted_requests. */
  lemma QueriesPartitionRequests(t: Tables)
    ensures ActiveRequests(t) + DeletedRequests(t) == t.requests.Keys
    ensures ActiveRequests(t) * DeletedRequests(t) == {}
  {
  }

  /** A soft-deleted request leaves the normal queries and appears among the deleted ones;
      restoring it brings it back. */
  lemma SoftDeleteMovesBetweenQueries(t: Tables, id: nat, userId: nat, reason: Option<string>, now: int)
    requires id in t.requests
    ensures var d := WithRequest(t, id, SoftDeleted(t.requests[id], userId, reason, now));
            && id !in ActiveRequests(d) && RequestById(d, id).None? && id in DeletedRequests(d)
            && ActiveRequests(d) == ActiveRequests(t) - {id}
            && var r := WithRequest(d, id, Restored(d.requests[id]));
               id in ActiveRequests(r) && id !in DeletedRequests(r)
  {
  }

  // ---------------------------------------------------------------------------
  // Request items.

  /** RequestItem.create_request_item's row: pending, approved quantity defaulting to the
      requested one. */
  function NewRequestItem(id: nat, inventoryId: nat, quantity: int): (it: RequestItem)
  {
    RequestItem(id, inventoryId, quantity, quantity, ItemPending)
  }

  /** RequestItem.approve: approved, with whatever quantity is given. */
  function ApproveItem(it: RequestItem, q: int): RequestItem
  {
    it.(status := ItemApproved, quantityApproved := q)
  }

  /** RequestItem.reject: rejected, nothing approved. */
  function RejectItem(it: RequestItem): RequestItem
  {
    it.(status := ItemRejected, quantityApproved := 0)
  }

  /** The item decisions keep the requested quantity and differ only in status and approved
      quantity; approval is not bounded by the requested quantity. */
  lemma ItemDecisions(id: nat, inventoryId: nat, quantity: int, q: int)
    ensures var it := NewRequestItem(id, inventoryId, quantity);
            && it.status == ItemPending && it.quantityApproved == quantity
            && ApproveItem(it, q).status == ItemApproved && ApproveItem(it, q).quantityApproved == q
            && ApproveItem(it, q).quantity == quantity
            && RejectItem(it).status == ItemRejected && RejectItem(it).quantityApproved == 0
            && RejectItem(ApproveItem(it, q)) == RejectItem(it)
            && ApproveItem(RejectItem(it), q) == ApproveItem(it, q)
  {
  }

  /** RequestItem.validate_inventory_quantity. */
  predicate Covers(stock: int, q: int)
  {
    stock >= q
  }

  /** RequestItem.process_collection on the item's stock: the new stock, or None when the
      stock does not cover the approved quantity (and then the stock is not touched). */
  function ProcessCollection(stock: int, approved: int): (r: Option<int>)
    ensures r.None? <==> !Covers(stock, approved)
    ensures r.Some? ==> r.value + approved == stock && r.value >= 0
  {
    if !Covers(stock, approved) then None
    else if stock - approved < 0 then None
    else Some(stock - approved)
  }

  /** RequestItem.create_request_item: adds the item to its request and commits. The database
      refuses an item whose inventory row does not exist (foreign keys are enforced). */
  method CreateRequestItem(st: Store, requestId: nat, inventoryId: nat, quantity: int)
    returns (r: Result<nat, Error>)
    requires requestId in st.work.requests
    modifies st
    ensures inventoryId !in old(st.work.items) ==>
              r == Err(NotFound) && st.work == old(st.durable) && st.durable == old(st.durable)
    ensures inventoryId in old(st.work.items) ==>
              var req := old(st.work.requests[requestId]);
              && r == Ok(old(st.work.nextId))
              && st.work == old(st.work).(requests := old(st.work.requests)[requestId :=
                              req.(items := req.items + [NewRequestItem(r.value, inventoryId, quantity)])],
                                          nextId := r.value + 1)
              && st.durable == st.work
  {
    if inventoryId !in st.work.items {
      st.Rollback();
      return Err(NotFound);
    }
    var id := st.FreshId();
    var req := st.work.requests[requestId];
    st.work := st.work.(requests := st.work.requests[requestId := req.(items := req.items + [NewRequestItem(id, inventoryId, quantity)])]);
    st.Commit();
    r := Ok(id);
  }

  // ---------------------------------------------------------------------------
  // Request.approve.

  /** Each item's stock covers its approved quantity (an item without stock row fails too). */
  predicate AllCovered(items: map<nat, Item>, ris: seq<RequestItem>)
  {
    forall k :: 0 <= k < |ris| ==>
      ris[k].inventoryId in items && Covers(items[ris[k].inventoryId].quantity, ris[k].quantityApproved)
  }

  function ApprovedItems(ris: seq<RequestItem>): (r: seq<RequestItem>)
    ensures |r| == |ris|
    ensures forall k :: 0 <= k < |ris| ==> r[k] == ApproveItem(ris[k], ris[k].quantityApproved)
  {
    seq(|ris|, k requires 0 <= k < |ris| => ApproveItem(ris[k], ris[k].quantityApproved))
  }

  /** Request.approve: every item is checked against stock before anything changes; if one
      falls short the session is rolled back, otherwise the request and all its items
      become approved (each keeping its approved quantity) in one commit. */
  method Approve(st: Store, id: nat, adminMessage: Option<string>, approvedBy: Option<nat>)
    returns (r: Result<(), Error>)
    requires id in st.work.requests
    modifies st
    ensures var req := old(st.work.requests[id]);
            && (!AllCovered(old(st.work.items), req.items) ==>
                  r == Err(InsufficientQuantity) && st.work == old(st.durable) && st.durable == old(st.durable))
            && (AllCovered(old(st.work.items), req.items) ==>
                  && r == Ok(())
                  && st.work == WithRequest(old(st.work), id,
                                            WithStatus(req, Approved, adminMessage, approvedBy).(items := ApprovedItems(req.items)))
                  && st.durable == st.work)
  {
    var req := st.work.requests[id];
    var i := 0;
    while i < |req.items|
      invariant 0 <= i <= |req.items|
      invariant AllCovered(st.work.items, req.items[..i])
      invariant unchanged(st)
    {
      var it := req.items[i];
      if it.inventoryId !in st.work.items || !Covers(st.work.items[it.inventoryId].quantity, it.quantityApproved) {
        assert !AllCovered(st.work.items, req.items) by {
          assert req.items[i] == it;
        }
        st.Rollback();
        return Err(InsufficientQuantity);
      }
      assert req.items[..i + 1] == req.items[..i] + [it];
      i := i + 1;
    }
    assert req.items[..i] == req.items;
    var approved: seq<RequestItem> := [];
    var j := 0;
    while j < |req.items|
      invariant 0 <= j <= |req.items|
      invariant |approved| == j
      invariant forall k :: 0 <= k < j ==> approved[k] == ApproveItem(req.items[k], req.items[k].quantityApproved)
    {
      approved := approved + [ApproveItem(req.items[j], req.items[j].quantityApproved)];
      j := j + 1;
    }
    assert approved == ApprovedItems(req.items);
    st.work := WithRequest(st.work, id, WithStatus(req, Approved, adminMessage, approvedBy).(items := approved));
    st.Commit();
    r := Ok(());
  }

  // ---------------------------------------------------------------------------
  // Request.mark_collected.

  predicate Collectable(s: RequestStatus)
  {
    s == Approved || s == PartiallyApproved
  }

  /** The ledger entry issuing a collected item: its approved quantity out, linked to the request. */
  function IssueEntry(it: RequestItem, requestId: nat, userId: nat, now: int): Txn
  {
    Txn(it.inventoryId, Issue, -it.quantityApproved, Some(requestId), userId, now, None, None)
  }

  /** One item of the collection loop: an approved item whose stock covers it is issued
      (stock down, issue entry added); an approved item that is not covered fails the
      collection; other items are skipped. */
  function IssueStep(t: Tables, it: RequestItem, requestId: nat, userId: nat, now: int): (r: Option<Tables>)
  {
    if it.status != ItemApproved then Some(t)
    else if it.inventoryId !in t.items then None
    else match ProcessCollection(t.items[it.inventoryId].quantity, it.quantityApproved)
      case None => None
      case Some(_) => Some(Moved(t, IssueEntry(it, requestId, userId, now)))
  }

  /** The collection loop over the items, in order; None when some item fails. */
  function Drained(t: Tables, requestId: nat, items: seq<RequestItem>, userId: nat, now: int): (r: Option<Tables>)
    ensures r.Some? ==>
              && r.value.requests == t.requests && r.value.items.Keys == t.items.Keys
              && r.value.categories == t.categories && r.value.suppliers == t.suppliers
              && r.value.nextId == t.nextId
    decreases |items|
  {
    if |items| == 0 then Some(t)
    else
      match Drained(t, requestId, items[..|items| - 1], userId, now)
      case None => None
      case Some(u) => IssueStep(u, items[|items| - 1], requestId, userId, now)
  }

  /** A failure stays a failure when more items follow. */
  lemma {:induction false} DrainedFailureExtends(t: Tables, requestId: nat, items: seq<RequestItem>, j: nat, userId: nat, now: int)
    requires j <= |items| && Drained(t, requestId, items[..j], userId, now).None?
    ensures Drained(t, requestId, items, userId, now).None?
    decreases |items| - j
  {
    if j < |items| {
      var init := items[..|items| - 1];
      assert init[..j] == items[..j];
      DrainedFailureExtends(t, requestId, init, j, userId, now);
    } else {
      assert items[..j] == items;
    }
  }

  /** The items after collection: approved ones collected, the others as they were. */
  function CollectedItems(ris: seq<RequestItem>): (r: seq<RequestItem>)
    ensures |r| == |ris|
    ensures forall k :: 0 <= k < |ris| ==>
              r[k] == if ris[k].status == ItemApproved then ris[k].(status := ItemCollected) else ris[k]
  {
    seq(|ris|, k requires 0 <= k < |ris| => if ris[k].status == ItemApproved then ris[k].(status := ItemCollected) else ris[k])
  }

  /** The request after a successful collection. */
  function Closed(t: Tables, id: nat, req: Request, adminNote: Option<string>, approvedBy: Option<nat>): Tables
  {
    WithRequest(t, id, WithStatus(req, Collected, adminNote, approvedBy).(items := CollectedItems(req.items)))
  }

  /**
   * Request.mark_collected. Only an approved or partially approved request may be collected.
   * Each approved item is issued in turn; if one is not covered by stock, everything is
   * rolled back. Otherwise the approved items become collected, the request becomes
   * collected, and all of it is committed together.
   */
  method MarkCollected(st: Store, id: nat, userId: nat, adminNote: Option<string>, approvedBy: Option<nat>, now: int)
    returns (r: Result<(), Error>)
    requires id in st.work.requests
    modifies st
    ensures var t := old(st.work);
            var req := t.requests[id];
            var drained := Drained(t, id, req.items, userId, now);
            && (!Collectable(req.status) ==>
                  r == Err(NotCollectable) && st.work == old(st.durable) && st.durable == old(st.durable))
            && (Collectable(req.status) && drained.None? ==>
                  r == Err(CollectionFailed) && st.work == old(st.durable) && st.durable == old(st.durable))
            && (Collectable(req.status) && drained.Some? ==>
                  && r == Ok(())
                  && st.work == Closed(drained.value, id, req, adminNote, approvedBy)
                  && st.durable == st.work)
  {
    var req := st.work.requests[id];
    if !Collectable(req.status) {
      st.Rollback();
      return Err(NotCollectable);
    }
    var i := 0;
    while i < |req.items|
      invariant 0 <= i <= |req.items|
      invariant Drained(old(st.work), id, req.items[..i], userId, now) == Some(st.work)
      invariant st.durable == old(st.durable)
    {
      var it := req.items[i];
      assert req.items[..i + 1][..i] == req.items[..i];
      if it.status == ItemApproved {
        if it.inventoryId !in st.work.items || ProcessCollection(st.work.items[it.inventoryId].quantity, it.quantityApproved).None? {
          DrainedFailureExtends(old(st.work), id, req.items, i + 1, userId, now);
          st.Rollback();
          return Err(CollectionFailed);
        }
        st.work := Moved(st.work, IssueEntry(it, id, userId, now));
      }
      i := i + 1;
    }
    assert req.items[..i] == req.items;
    st.work := Closed(st.work, id, req, adminNote, approvedBy);
    st.Commit();
    r := Ok(());
  }

  /** The issue entries a collection appends: one per approved item, in item order. */
  function Issues(items: seq<RequestItem>, requestId: nat, userId: nat, now: int): seq<Txn>
    decreases |items|
  {
    if |items| == 0 then []
    else
      var last := items[|items| - 1];
      Issues(items[..|items| - 1], requestId, userId, now)
      + (if last.status == ItemApproved then [IssueEntry(last, requestId, userId, now)] else [])
  }

  /** What the approved items of a request take from one inventory item. */
  function Demand(items: seq<RequestItem>, inventoryId: nat): int
    decreases |items|
  {
    if |items| == 0 then 0
    else
      var last := items[|items| - 1];
      Demand(items[..|items| - 1], inventoryId)
      + (if last.status == ItemApproved && last.inventoryId == inventoryId then last.quantityApproved else 0)
  }

  /** A successful collection appends exactly the issue entries of the approved items and
      takes exactly their approved quantities from stock. */
  lemma {:induction false} DrainedEffect(t: Tables, requestId: nat, items: seq<RequestItem>, userId: nat, now: int)
    requires Drained(t, requestId, items, userId, now).Some?
    ensures var u := Drained(t, requestId, items, userId, now).value;
            && u.ledger == t.ledger + Issues(items, requestId, userId, now)
            && forall x :: x in t.items ==> u.items[x].quantity == t.items[x].quantity - Demand(items, x)
    decreases |items|
  {
    if |items| > 0 {
      var init := items[..|items| - 1];
      DrainedEffect(t, requestId, init, userId, now);
    }
  }

  /** A collection never takes an item's stock below zero. */
  lemma {:induction false} DrainedKeepsStockNonNegative(t: Tables, requestId: nat, items: seq<RequestItem>, userId: nat, now: int)
    requires Drained(t, requestId, items, userId, now).Some?
    requires forall x :: x in t.items ==> t.items[x].quantity >= 0
    ensures var u := Drained(t, requestId, items, userId, now).value;
            forall x :: x in u.items ==> u.items[x].quantity >= 0
    decreases |items|
  {
    if |items| > 0 {
      DrainedKeepsStockNonNegative(t, requestId, items[..|items| - 1], userId, now);
    }
  }

  /** A collection keeps every quantity equal to the net of its ledger entries. */
  lemma {:induction false} DrainedConsistent(t: Tables, requestId: nat, items: seq<RequestItem>, userId: nat, now: int)
    requires Drained(t, requestId, items, userId, now).Some? && Consistent(t)
    ensures Consistent(Drained(t, requestId, items, userId, now).value)
    decreases |items|
  {
    if |items| > 0 {
      var init := items[..|items| - 1];
      DrainedConsistent(t, requestId, init, userId, now);
      var u := Drained(t, requestId, init, userId, now).value;
      var last := items[|items| - 1];
      if last.status == ItemApproved {
        MovedConsistent(u, IssueEntry(last, requestId, userId, now));
      }
    }
  }

  /** A collection of an existing request keeps the foreign keys. */
  lemma {:induction false} DrainedIntegrity(t: Tables, requestId: nat, items: seq<RequestItem>, userId: nat, now: int)
    requires Drained(t, requestId, items, userId, now).Some? && Integrity(t) && requestId in t.requests
    ensures Integrity(Drained(t, requestId, items, userId, now).value)
    decreases |items|
  {
    if |items| > 0 {
      var init := items[..|items| - 1];
      DrainedIntegrity(t, requestId, init, userId, now);
      var u := Drained(t, requestId, init, userId, now).value;
      var last := items[|items| - 1];
      if last.status == ItemApproved {
        MovedIntegrity(u, IssueEntry(last, requestId, userId, now));
      }
    }
  }

  /** Items with nothing approved are not issued: the loop leaves the tables as they are. */
  lemma {:induction false} NothingApprovedNothingIssued(t: Tables, requestId: nat, items: seq<RequestItem>, userId: nat, now: int)
    requires forall k :: 0 <= k < |items| ==> items[k].status != ItemApproved
    ensures Drained(t, requestId, items, userId, now) == Some(t)
    decreases |items|
  {
    if |items| > 0 {
      NothingApprovedNothingIssued(t, requestId, items[..|items| - 1], userId, now);
    }
  }

  /** After a collection the request is collected and has no approved item left, so a second
      collection is refused, and even its loop would issue nothing. */
  lemma CollectedOnce(t: Tables, id: nat, req: Request, adminNote: Option<string>, approvedBy: Option<nat>, userId: nat, now: int)
    ensures var c := Closed(t, id, req, adminNote, approvedBy);
            && id in c.requests && !Collectable(c.requests[id].status)
            && Drained(c, id, c.requests[id].items, userId, now) == Some(c)
  {
    var c := Closed(t, id, req, adminNote, approvedBy);
    NothingApprovedNothingIssued(c, id, c.requests[id].items, userId, now);
  }

  /** The state a successful collection leaves: ledger consistency and the foreign keys hold
      when they held before. */
  lemma ClosedKeepsInvariants(t: Tables, id: nat, req: Request, adminNote: Option<string>, approvedBy: Option<nat>, userId: nat, now: int)
    requires id in t.requests && req == t.requests[id]
    requires Drained(t, id, req.items, userId, now).Some?
    requires Consistent(t) && Integrity(t)
    ensures var c := Closed(Drained(t, id, req.items, userId, now).value, id, req, adminNote, approvedBy);
            Consistent(c) && Integrity(c)
  {
    DrainedConsistent(t, id, req.items, userId, now);
    DrainedIntegrity(t, id, req.items, userId, now);
  }
}
