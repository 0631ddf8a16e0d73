// The request pages: stock badges, filing a request from the form, the administrator's
// review of the items (which decides the request's status), and the deletion pages.

module RequestViews {
  import opened Base
  import opened Ledger
  import opened Schema
  import opened Requests

  // ---------------------------------------------------------------------------
  // Stock badges.

  /** get_stock_status: the CSS class of an item's stock level. */
  function StockStatus(quantity: int): string
  {
    if quantity == 0 then "out-of-stock"
    else if quantity < 15 then "low-stock"
    else "in-stock"
  }

  /** get_stock_status_text: the label shown for an item's stock level. */
  function StockStatusText(quantity: int): string
  {
    if quantity == 0 then "Out of Stock"
    else if quantity < 15 then "Low Stock"
    else "In Stock"
  }

  /** The label that goes with each class. */
  function Label(status: string): string
  {
    if status == "out-of-stock" then "Out of Stock"
    else if status == "low-stock" then "Low Stock"
    else "In Stock"
  }

  /** The two helpers agree on every quantity, and they split the quantities into: exactly
      zero, below 15 (negative stock included), and 15 or more. */
  lemma StockBadgesAgree(quantity: int)
    ensures StockStatusText(quantity) == Label(StockStatus(quantity))
    ensures StockStatus(quantity) == "out-of-stock" <==> quantity == 0
    ensures StockStatus(quantity) == "low-stock" <==> quantity != 0 && quantity < 15
    ensures StockStatus(quantity) == "in-stock" <==> quantity >= 15
  {
  }

  // ---------------------------------------------------------------------------
  // Filing a request.

  /** The values of DirectorateEnum. */
  const Directorates: seq<string> :=
    ["ACE", "Audit", "DSSRI", "HPPITI", "CS&A", "MDGIF", "F&A", "Procurement", "HSEC", "ERSP", "ICT"]

  /** The positions of the form whose id and quantity fields are both non-empty, in
      increasing order. */
  function FilledPositions(ids: seq<string>, quantities: seq<string>): (r: seq<nat>)
    ensures forall a, b :: 0 <= a < b < |r| ==> r[a] < r[b]
    ensures forall k :: 0 <= k < |r| ==> r[k] < |ids| && r[k] < |quantities|
    ensures forall i :: i in r <==> 0 <= i < |ids| && i < |quantities| && ids[i] != "" && quantities[i] != ""
    decreases |ids|
  {
    if |ids| == 0 then []
    else
      var n := |ids| - 1;
      var init := FilledPositions(ids[..n], quantities);
      assert forall i :: 0 <= i < n ==> ids[..n][i] == ids[i];
      assert forall i :: i in init <==> 0 <= i < n && i < |quantities| && ids[i] != "" && quantities[i] != "";
      assert forall k :: 0 <= k < |init| ==> init[k] in init;
      if ids[n] != "" && n < |quantities| && quantities[n] != "" then init + [n] else init
  }

  /**
   * The item rows of the form: the i-th inventory id with the i-th quantity, kept when both
   * are non-empty. None when a non-empty id has no quantity field at all (an IndexError,
   * caught by the view's outer handler).
   */
  function FormRows(ids: seq<string>, quantities: seq<string>): (r: Option<seq<(string, string)>>)
    ensures r.None? <==> exists i :: 0 <= i < |ids| && ids[i] != "" && i >= |quantities|
    ensures r.Some? ==> |r.value| <= |ids|
    ensures r.Some? ==> forall row :: row in r.value <==>
              exists i :: 0 <= i < |ids| && ids[i] != "" && quantities[i] != "" && row == (ids[i], quantities[i])
    ensures r.Some? ==> var ix := FilledPositions(ids, quantities);
              && |r.value| == |ix|
              && forall k :: 0 <= k < |ix| ==> r.value[k] == (ids[ix[k]], quantities[ix[k]])
    decreases |ids|
  {
    if |ids| == 0 then Some([])
    else
      var n := |ids| - 1;
      var init := FormRows(ids[..n], quantities);
      assert forall i :: 0 <= i < n ==> ids[..n][i] == ids[i];
      if init.None? then None
      else if ids[n] == "" then Some(init.value)
      else if n >= |quantities| then None
      else if quantities[n] == "" then Some(init.value)
      else Some(init.value + [(ids[n], quantities[n])])
  }

  /** The checks one row goes through: a numeric id of an existing item, a numeric quantity,
      no more than the item's stock. */
  function LineCheck(items: map<nat, Item>, row: (string, string)): (r: Result<(nat, int), Error>)
    ensures r.Ok? <==>
              && ParseInt(row.0).Some? && ParseInt(row.0).value >= 0 && ParseInt(row.0).value as nat in items
              && ParseInt(row.1).Some? && ParseInt(row.1).value <= items[ParseInt(row.0).value as nat].quantity
    ensures r.Ok? ==> r.value == (ParseInt(row.0).value as nat, ParseInt(row.1).value)
  {
    match ParseInt(row.0)
    case None => Err(InvalidInput)
    case Some(n) =>
      if n < 0 || n as nat !in items then Err(NotFound)
      else
        match ParseInt(row.1)
        case None => Err(InvalidInput)
        case Some(q) => if q > items[n as nat].quantity then Err(InsufficientQuantity) else Ok((n as nat, q))
  }

  /** The outcome of checking each row against the items. */
  function RowChecks(items: map<nat, Item>, rows: seq<(string, string)>): (r: seq<Result<(nat, int), Error>>)
    ensures |r| == |rows|
    ensures forall k :: 0 <= k < |rows| ==> r[k] == LineCheck(items, rows[k])
  {
    seq(|rows|, k requires 0 <= k < |rows| => LineCheck(items, rows[k]))
  }

  /** The lines accepted before the first refusal, and that refusal, if any. */
  function Checked(checks: seq<Result<(nat, int), Error>>): (r: (seq<(nat, int)>, Option<Error>))
    ensures |r.0| <= |checks|
    ensures forall k :: 0 <= k < |r.0| ==> checks[k] == Ok(r.0[k])
    ensures r.1.None? ==> |r.0| == |checks|
    ensures r.1.Some? ==> |r.0| < |checks| && checks[|r.0|] == Err(r.1.value)
  {
    if checks == [] then ([], None)
    else if checks[0].Err? then ([], Some(checks[0].error))
    else
      var rest := Checked(checks[1..]);
      ([checks[0].value] + rest.0, rest.1)
  }

  /** Checking the rows one at a time comes to Checked: the accepted prefix, then the first
      refusal or the end of the rows. */
  lemma {:induction false} CheckedPrefix(checks: seq<Result<(nat, int), Error>>, done: seq<(nat, int)>)
    requires |done| <= |checks|
    requires forall k :: 0 <= k < |done| ==> checks[k] == Ok(done[k])
    ensures |done| < |checks| && checks[|done|].Err? ==> Checked(checks) == (done, Some(checks[|done|].error))
    ensures |done| == |checks| ==> Checked(checks) == (done, None)
  {
    if done != [] {
      CheckedPrefix(checks[1..], done[1..]);
      assert [done[0]] + done[1..] == done;
    }
  }

  /** A new request as Request.create_request stores it: pending, stamped at import time. */
  function NewRequest(reference: string, userId: nat, location: string, directorate: string,
                      department: Option<string>, unit: string, importTime: int): Request
  {
    Request(reference, userId, Pending, location, None, None, None, None, None,
            directorate, department, unit, importTime, [])
  }

  /** The items of a request filed with `lines`, numbered from `first`. */
  function ItemsFrom(first: nat, lines: seq<(nat, int)>): (r: seq<RequestItem>)
    ensures |r| == |lines|
    ensures forall k :: 0 <= k < |lines| ==> r[k] == NewRequestItem(first + k, lines[k].0, lines[k].1)
  {
    seq(|lines|, k requires 0 <= k < |lines| => NewRequestItem(first + k, lines[k].0, lines[k].1))
  }

  /** The tables once the request (under the next id) and the items for `lines` are stored. */
  function Filed(t: Tables, req: Request, lines: seq<(nat, int)>): Tables
  {
    t.(requests := t.requests[t.nextId := req.(items := ItemsFrom(t.nextId + 1, lines))],
       nextId := t.nextId + 1 + |lines|)
  }

  /** Filing one more line appends one item under the next id. */
  lemma FiledSnoc(t: Tables, req: Request, lines: seq<(nat, int)>, line: (nat, int))
    ensures var f := Filed(t, req, lines);
            var q := f.requests[t.nextId];
            Filed(t, req, lines + [line])
              == f.(requests := f.requests[t.nextId := q.(items := q.items + [NewRequestItem(f.nextId, line.0, line.1)])],
                    nextId := f.nextId + 1)
  {
    assert ItemsFrom(t.nextId + 1, lines + [line])
           == ItemsFrom(t.nextId + 1, lines) + [NewRequestItem(t.nextId + 1 + |lines|, line.0, line.1)];
  }

  /** Filing a request whose lines name existing items keeps the foreign keys and the ledger
      invariant. */
  lemma FiledKeepsInvariants(t: Tables, req: Request, lines: seq<(nat, int)>)
    requires forall k :: 0 <= k < |lines| ==> lines[k].0 in t.items
    ensures Integrity(t) ==> Integrity(Filed(t, req, lines))
    ensures Consistent(t) ==> Consistent(Filed(t, req, lines))
  {
  }

  /** As written, a refused line does not undo the request: it stays stored with the lines
      accepted before the refused one (none when the first line is refused). */
  lemma RefusedRequestPersists(t: Tables, req: Request, rows: seq<(string, string)>)
    requires Integrity(t) && Checked(RowChecks(t.items, rows)).1.Some?
    ensures var c := Checked(RowChecks(t.items, rows));
            var f := Filed(t, req, c.0);
            && t.nextId !in t.requests
            && t.nextId in f.requests && |f.requests[t.nextId].items| < |rows|
  {
  }

  /** One accepted row: Request.create_request_item stores it under the next id and commits. */
  method ItemRowsStep(st: Store, ghost t: Tables, req: Request, ghost done: seq<(nat, int)>, requestId: nat, line: (nat, int))
    requires requestId == t.nextId && line.0 in t.items
    requires st.work == Filed(t, req, done)
    modifies st
    ensures st.work == Filed(t, req, done + [line]) && st.durable == st.work
  {
    FiledSnoc(t, req, done, line);
    var _ := CreateRequestItem(st, requestId, line.0, line.1);
  }

  /** The item loop of create_request: each accepted row is stored and committed; the first
      refused row rolls back nothing committed and ends the loop. */
  method FileRows(st: Store, ghost t: Tables, requestId: nat, req: Request, rows: seq<(string, string)>)
    returns (refusal: Option<Error>)
    requires requestId == t.nextId
    requires st.work == Filed(t, req, []) && st.durable == st.work
    modifies st
    ensures var c := Checked(RowChecks(t.items, rows));
            && st.work == Filed(t, req, c.0) && st.durable == st.work
            && refusal == c.1
  {
    ghost var checks := RowChecks(t.items, rows);
    ghost var done: seq<(nat, int)> := [];
    var i := 0;
    while i < |rows|
      invariant 0 <= i <= |rows|
      invariant |done| == i
      invariant forall k :: 0 <= k < i ==> checks[k] == Ok(done[k])
      invariant st.work == Filed(t, req, done) && st.durable == st.work
    {
      assert st.work.items == t.items;
      var check := LineCheck(st.work.items, rows[i]);
      assert checks[i] == check;
      if check.Err? {
        CheckedPrefix(checks, done);
        st.Rollback();
        return Some(check.error);
      }
      ItemRowsStep(st, t, req, done, requestId, check.value);
      ghost var done' := done + [check.value];
      forall k | 0 <= k <= i
        ensures checks[k] == Ok(done'[k])
      {
        if k < i {
          assert done'[k] == done[k];
        } else {
          assert done'[k] == check.value;
        }
      }
      done := done';
      i := i + 1;
    }
    CheckedPrefix(checks, done);
    return None;
  }

  /**
   * create_request (POST). The form is checked for its required fields, the request is
   * created and committed, and then each row is checked and, if accepted, stored as an
   * item with its own commit. A refused row (unparsable, an unknown item, more than the
   * stock) rolls back only what is not yet committed: the request and the rows before it
   * stay.
   */
  method CreateRequest(st: Store, userId: nat, reference: string, location: Option<string>, directorate: Option<string>,
                       department: Option<string>, unit: Option<string>, ids: seq<string>, quantities: seq<string>)
    returns (r: Result<nat, Error>)
    requires st.work == st.durable
    modifies st
    ensures FormRows(ids, quantities).None? ==> r == Err(InvalidInput) && unchanged(st)
    ensures FormRows(ids, quantities).Some? ==>
              var rows := FormRows(ids, quantities).value;
              var t := old(st.work);
              && (!Truthy(directorate) || !Truthy(unit) || !Truthy(location) || rows == [] ==>
                    r == Err(MissingFields) && unchanged(st))
              && (Truthy(directorate) && Truthy(unit) && Truthy(location) && rows != [] ==>
                    && (directorate.value !in Directorates ==> r == Err(InvalidInput) && unchanged(st))
                    && (directorate.value in Directorates ==>
                          var c := Checked(RowChecks(t.items, rows));
                          var req := NewRequest(reference, userId, location.value, directorate.value, department,
                                                unit.value, st.importTime);
                          && st.work == Filed(t, req, c.0)
                          && st.durable == st.work
                          && r == (if c.1.Some? then Err(c.1.value) else Ok(t.nextId))))
  {
    var formRows := FormRows(ids, quantities);
    if formRows.None? {
      // The IndexError is caught and rolled back before anything was added.
      return Err(InvalidInput);
    }
    var rows := formRows.value;
    if !Truthy(directorate) || !Truthy(unit) || !Truthy(location) || rows == [] {
      return Err(MissingFields);
    }
    if directorate.value !in Directorates {
      // Request.create_request refuses the directorate before adding anything, so
      // its rollback finds nothing pending.
      return Err(InvalidInput);
    }
    ghost var t := st.work;
    var req := NewRequest(reference, userId, location.value, directorate.value, department, unit.value, st.importTime);
    var requestId := st.FreshId();
    st.work := st.work.(requests := st.work.requests[requestId := req]);
    st.Commit();
    var refusal := FileRows(st, t, requestId, req, rows);
    if refusal.Some? {
      return Err(refusal.value);
    }
    st.Commit();
    r := Ok(requestId);
  }

  /** The corrected create_request: every row is checked before anything is stored, so a
      refused row leaves no request behind; an accepted form is stored in one commit. */
  method CreateRequestAtomic(st: Store, userId: nat, reference: string, location: Option<string>, directorate: Option<string>,
                             department: Option<string>, unit: Option<string>, ids: seq<string>, quantities: seq<string>)
    returns (r: Result<nat, Error>)
    requires st.work == st.durable
    modifies st
    ensures r.Err? ==> unchanged(st)
    ensures FormRows(ids, quantities).None? ==> r == Err(InvalidInput)
    ensures FormRows(ids, quantities).Some? ==>
              var rows := FormRows(ids, quantities).value;
              var c := Checked(RowChecks(old(st.work.items), rows));
              && (!Truthy(directorate) || !Truthy(unit) || !Truthy(location) || rows == [] ==> r == Err(MissingFields))
              && (Truthy(directorate) && Truthy(unit) && Truthy(location) && rows != [] ==>
                    && (directorate.value !in Directorates ==> r == Err(InvalidInput))
                    && (directorate.value in Directorates && c.1.Some? ==> r == Err(c.1.value))
                    && (directorate.value in Directorates && c.1.None? ==>
                          && r == Ok(old(st.work.nextId))
                          && |c.0| == |rows|
                          && st.work == Filed(old(st.work), NewRequest(reference, userId, location.value, directorate.value,
                                                                       department, unit.value, st.importTime), c.0)
                          && st.durable == st.work))
    ensures Integrity(old(st.work)) ==> Integrity(st.work)
    ensures Consistent(old(st.work)) ==> Consistent(st.work)
  {
    var formRows := FormRows(ids, quantities);
    if formRows.None? {
      return Err(InvalidInput);
    }
    var rows := formRows.value;
    if !Truthy(directorate) || !Truthy(unit) || !Truthy(location) || rows == [] {
      return Err(MissingFields);
    }
    if directorate.value !in Directorates {
      return Err(InvalidInput);
    }
    var c := Checked(RowChecks(st.work.items, rows));
    if c.1.Some? {
      return Err(c.1.value);
    }
    var req := NewRequest(reference, userId, location.value, directorate.value, department, unit.value, st.importTime);
    assert forall k :: 0 <= k < |c.0| ==> c.0[k].0 in st.work.items by {
      forall k | 0 <= k < |c.0|
        ensures c.0[k].0 in st.work.items
      {
        assert LineCheck(st.work.items, rows[k]) == Ok(c.0[k]);
      }
    }
    FiledKeepsInvariants(st.work, req, c.0);
    r := Ok(st.work.nextId);
    st.work := Filed(st.work, req, c.0);
    st.Commit();
  }

  // ---------------------------------------------------------------------------
  // The administrator's review (update_request_status, POST).

  /** The form fields for one item: item_status_<id> and approved_quantity_<id>. */
  datatype Decision = Decision(status: Option<string>, approvedQuantity: Option<string>)

  /** What the review records for one item in all_statuses. */
  datatype Verdict = Approve | Reject | Undecided

  function DecisionFor(decisions: map<nat, Decision>, itemId: nat): Decision
  {
    if itemId in decisions then decisions[itemId] else Decision(None, None)
  }

  /** One item of the review: "approved" needs a numeric quantity the stock covers; "rejected"
      rejects; anything else (or nothing) leaves the item pending. */
  function Decide(items: map<nat, Item>, it: RequestItem, d: Decision): (r: Result<(RequestItem, Verdict), Error>)
    ensures r.Ok? && r.value.1 == Approve ==>
              d.status == Some("approved") && r.value.0.status == ItemApproved
              && it.inventoryId in items && Covers(items[it.inventoryId].quantity, r.value.0.quantityApproved)
    ensures r.Ok? && r.value.1 == Reject ==> d.status == Some("rejected") && r.value.0 == RejectItem(it)
    ensures r.Ok? && r.value.1 == Undecided ==> r.value.0 == it
    ensures r.Ok? <==>
              (|| d.status != Some("approved")
               || (&& it.inventoryId in items && d.approvedQuantity.Some? && ParseInt(d.approvedQuantity.value).Some?
                   && Covers(items[it.inventoryId].quantity, ParseInt(d.approvedQuantity.value).value)))
    ensures d.status == Some("approved") && r.Ok? ==>
              && d.approvedQuantity.Some? && ParseInt(d.approvedQuantity.value).Some?
              && r.value == (ApproveItem(it, ParseInt(d.approvedQuantity.value).value), Approve)
    ensures d.status == Some("rejected") ==> r == Ok((RejectItem(it), Reject))
    ensures d.status != Some("approved") && d.status != Some("rejected") ==> r == Ok((it, Undecided))
  {
    if Truthy(d.status) && d.status.value == "approved" then
      if it.inventoryId !in items then Err(NotFound)
      else if d.approvedQuantity.None? then Err(InvalidInput)
      else
        match ParseInt(d.approvedQuantity.value)
        case None => Err(InvalidInput)
        case Some(q) =>
          if !Covers(items[it.inventoryId].quantity, q) then Err(InsufficientQuantity)
          else Ok((ApproveItem(it, q), Approve))
    else if Truthy(d.status) && d.status.value == "rejected" then Ok((RejectItem(it), Reject))
    else Ok((it, Undecided))
  }

  /** The review loop over the items, in order: the new items and the verdicts, or the first
      refusal. */
  function Review(items: map<nat, Item>, ris: seq<RequestItem>, decisions: map<nat, Decision>)
    : (r: Result<(seq<RequestItem>, seq<Verdict>), Error>)
    ensures r.Ok? ==> |r.value.0| == |ris| && |r.value.1| == |ris|
    ensures r.Ok? ==> forall k :: 0 <= k < |ris| ==>
              Decide(items, ris[k], DecisionFor(decisions, ris[k].id)) == Ok((r.value.0[k], r.value.1[k]))
    decreases |ris|
  {
    if |ris| == 0 then Ok(([], []))
    else
      var n := |ris| - 1;
      match Review(items, ris[..n], decisions)
      case Err(e) => Err(e)
      case Ok((done, vs)) =>
        match Decide(items, ris[n], DecisionFor(decisions, ris[n].id))
        case Err(e) => Err(e)
        case Ok((it, v)) => Ok((done + [it], vs + [v]))
  }

  /**
   * The aggregate status, decided only when no item is left pending: all approved gives
   * approved (an empty list counts as all approved), all rejected gives rejected, and a mix
   * gives partially approved.
   */
  function Aggregate(vs: seq<Verdict>): (r: Option<RequestStatus>)
    ensures r.None? <==> Undecided in vs
    ensures r == Some(Approved) <==> forall k :: 0 <= k < |vs| ==> vs[k] == Approve
    ensures r == Some(Rejected) <==> |vs| > 0 && forall k :: 0 <= k < |vs| ==> vs[k] == Reject
    ensures r == Some(PartiallyApproved) <==> Approve in vs && Reject in vs && Undecided !in vs
  {
    if Undecided in vs then None
    else if forall k :: 0 <= k < |vs| ==> vs[k] == Approve then
      assert |vs| > 0 ==> vs[0] != Reject;
      Some(Approved)
    else if forall k :: 0 <= k < |vs| ==> vs[k] == Reject then Some(Rejected)
    else if Approve in vs && Reject in vs then Some(PartiallyApproved)
    else assert false; None
  }

  /** The request once reviewed: the new items; when decided, the status and approver
      (the reviewer, except for a rejection); a given message in every case. */
  function Reviewed(req: Request, newItems: seq<RequestItem>, vs: seq<Verdict>, userId: nat, adminMessage: Option<string>)
    : (r: Request)
  {
    var base := req.(items := newItems,
                     adminMessage := if Truthy(adminMessage) then adminMessage else req.adminMessage);
    match Aggregate(vs)
    case None => base
    case Some(s) => base.(status := s, approvedBy := if s == Rejected then None else Some(userId))
  }

  /**
   * update_request_status (POST), as written: it sets the status directly, whatever the
   * request's current status. A refused item (not covered by stock) returns without
   * committing; an error parsing a quantity, or an item without its inventory row, rolls back.
   * An undecided review still commits the item changes and the message.
   */
  method UpdateRequestStatus(st: Store, isAdmin: bool, userId: nat, id: nat, adminMessage: Option<string>,
                             decisions: map<nat, Decision>)
    returns (r: Result<Option<RequestStatus>, Error>)
    modifies st
    ensures !isAdmin ==> r == Err(PermissionDenied) && unchanged(st)
    ensures isAdmin && RequestById(old(st.work), id).None? ==> r == Err(NotFound) && unchanged(st)
    ensures isAdmin && RequestById(old(st.work), id).Some? ==>
              var req := old(st.work.requests[id]);
              var review := Review(old(st.work.items), req.items, decisions);
              && (review == Err(InsufficientQuantity) ==> r == Err(InsufficientQuantity) && unchanged(st))
              && (review.Err? && review != Err(InsufficientQuantity) ==>
                    r == Err(review.error) && st.work == old(st.durable) && st.durable == old(st.durable))
              && (review.Ok? ==>
                    && r == Ok(Aggregate(review.value.1))
                    && st.work == WithRequest(old(st.work), id, Reviewed(req, review.value.0, review.value.1, userId, adminMessage))
                    && st.durable == st.work)
  {
    if !isAdmin {
      return Err(PermissionDenied);
    }
    if RequestById(st.work, id).None? {
      return Err(NotFound);
    }
    var req := st.work.requests[id];
    var review := ReviewItems(st.work.items, req.items, decisions);
    if review.Err? {
      if review.error == InsufficientQuantity {
        return Err(InsufficientQuantity);
      }
      st.Rollback();
      return Err(review.error);
    }
    var (newItems, verdicts) := review.value;
    st.work := WithRequest(st.work, id, Reviewed(req, newItems, verdicts, userId, adminMessage));
    st.Commit();
    r := Ok(Aggregate(verdicts));
  }

  /** The review loop of update_request_status: each item decided in turn, stopping at the
      first refusal. */
  method ReviewItems(items: map<nat, Item>, ris: seq<RequestItem>, decisions: map<nat, Decision>)
    returns (r: Result<(seq<RequestItem>, seq<Verdict>), Error>)
    ensures r == Review(items, ris, decisions)
  {
    var newItems: seq<RequestItem> := [];
    var verdicts: seq<Verdict> := [];
    var i := 0;
    while i < |ris|
      invariant 0 <= i <= |ris|
      invariant Review(items, ris[..i], decisions) == Ok((newItems, verdicts))
    {
      assert ris[..i + 1][..i] == ris[..i];
      var decided := Decide(items, ris[i], DecisionFor(decisions, ris[i].id));
      if decided.Err? {
        ReviewFailureExtends(items, ris, decisions, i + 1);
        return Err(decided.error);
      }
      newItems := newItems + [decided.value.0];
      verdicts := verdicts + [decided.value.1];
      i := i + 1;
    }
    assert ris[..i] == ris;
    r := Ok((newItems, verdicts));
  }

  /** A refusal stays the same refusal when more items follow. */
  lemma {:induction false} ReviewFailureExtends(items: map<nat, Item>, ris: seq<RequestItem>, decisions: map<nat, Decision>, j: nat)
    requires j <= |ris| && Review(items, ris[..j], decisions).Err?
    ensures Review(items, ris, decisions) == Review(items, ris[..j], decisions)
    decreases |ris| - j
  {
    if j < |ris| {
      var init := ris[..|ris| - 1];
      assert init[..j] == ris[..j];
      ReviewFailureExtends(items, init, decisions, j);
    } else {
      assert ris[..j] == ris;
    }
  }

  /** The decided status always obeys one rule of the table: it is one a pending request may
      move to. */
  lemma DecidedStatusesLeavePending(vs: seq<Verdict>)
    requires Aggregate(vs).Some?
    ensures Allowed(Pending, Aggregate(vs).value)
  {
  }

  /** As written the review reopens a collected request: approving its (collected) item
      again makes it approved, a move the table forbids, and the collection that follows
      takes the stock a second time. */
  // A collected request: one item of two units, issued from a stock of seven.
  const CollectedItem := RequestItem(4, 2, 2, 2, ItemCollected)
  const CollectedRequest := Request("REQ-1", 1, Collected, "Headquarters", None, None, None, None, Some(1),
                                    "ICT", None, "Unit", 0, [CollectedItem])
  const CollectedLedger := [Txn(2, Initial, 7, None, 1, 0, None, None), Txn(2, Issue, -2, Some(3), 1, 0, None, None)]
  const CollectedTables := Tables(map[1 := Category("Stationery", None)],
                                  map[2 := Item("Paper", None, 5, 1, None, None, "Headquarters", 0)],
                                  CollectedLedger, [], map[3 := CollectedRequest], 5)
  /** The review form approving the item again. */
  const ApproveAgain := map[4 := Decision(Some("approved"), Some("2"))]

  lemma CollectedTablesConsistent()
    ensures Consistent(CollectedTables)
  {
    assert Balance(CollectedLedger, 2) == 5 by {
      assert CollectedLedger[..1][..0] == [];
    }
  }

  lemma ParseTwo()
    ensures ParseInt("2") == Some(2)
  {
    assert ShowInt(2) == "2";
    ParseShowInt(2);
  }

  /** An "approved" decision whose quantity parses to one the stock covers approves the item. */
  lemma DecideApproves(items: map<nat, Item>, it: RequestItem, d: Decision, q: int)
    requires d.status == Some("approved") && it.inventoryId in items
    requires d.approvedQuantity.Some? && ParseInt(d.approvedQuantity.value) == Some(q)
    requires Covers(items[it.inventoryId].quantity, q)
    ensures Decide(items, it, d) == Ok((ApproveItem(it, q), Approve))
  {
  }

  /** The form's decision for the collected item approves it again, for two units. */
  lemma DecideApprovesAgain()
    ensures Decide(CollectedTables.items, CollectedItem, DecisionFor(ApproveAgain, CollectedItem.id))
            == Ok((ApproveItem(CollectedItem, 2), Approve))
  {
    ParseTwo();
    var d := DecisionFor(ApproveAgain, CollectedItem.id);
    assert d == Decision(Some("approved"), Some("2"));
    assert CollectedTables.items[2].quantity == 5;
    DecideApproves(CollectedTables.items, CollectedItem, d, 2);
  }

  lemma ReviewApprovesAgain()
    ensures Review(CollectedTables.items, CollectedRequest.items, ApproveAgain)
            == Ok(([ApproveItem(CollectedItem, 2)], [Approve]))
  {
    var items := CollectedTables.items;
    var ris := CollectedRequest.items;
    var it := ApproveItem(CollectedItem, 2);
    assert ris == [CollectedItem] && ris[..0] == [];
    DecideApprovesAgain();
    assert Review(items, ris[..0], ApproveAgain) == Ok(([], []));
    assert [] + [it] == [it] && [] + [Approve] == [Approve];
  }

  lemma CollectingAgainIssuesAgain()
    ensures var again := Reviewed(CollectedRequest, [ApproveItem(CollectedItem, 2)], [Approve], 1, None);
            var t2 := WithRequest(CollectedTables, 3, again);
            && Collectable(again.status)
            && Drained(t2, 3, again.items, 1, 10) == Some(Moved(t2, IssueEntry(ApproveItem(CollectedItem, 2), 3, 1, 10)))
            && Moved(t2, IssueEntry(ApproveItem(CollectedItem, 2), 3, 1, 10)).items[2].quantity == 3
  {
    var approved := ApproveItem(CollectedItem, 2);
    assert Aggregate([Approve]) == Some(Approved);
    var again := Reviewed(CollectedRequest, [approved], [Approve], 1, None);
    var t2 := WithRequest(CollectedTables, 3, again);
    assert again.items == [approved];
    assert again.items[..0] == [];
    assert Drained(t2, 3, again.items[..0], 1, 10) == Some(t2);
    assert ProcessCollection(5, 2) == Some(3);
  }

  /** As written, the review accepts a collected request: approving its item again makes it
      approved (a move the status table forbids), and collecting it then issues the stock a
      second time. */
  lemma ReviewReopensCollectedRequest()
    ensures CollectedRequest.status == Collected
    ensures Review(CollectedTables.items, CollectedRequest.items, ApproveAgain)
            == Ok(([ApproveItem(CollectedItem, 2)], [Approve]))
    ensures Aggregate([Approve]) == Some(Approved) && !Allowed(Collected, Approved)
  {
    ReviewApprovesAgain();
  }

  /** The corrected review follows the status table: only a pending request is reviewed;
      any other is refused with nothing changed. */
  method UpdateRequestStatusGuarded(st: Store, isAdmin: bool, userId: nat, id: nat, adminMessage: Option<string>,
                                    decisions: map<nat, Decision>)
    returns (r: Result<Option<RequestStatus>, Error>)
    modifies st
    ensures isAdmin && RequestById(old(st.work), id).Some? && old(st.work.requests[id].status) != Pending ==>
              r == Err(InvalidTransition) && unchanged(st)
    ensures r.Ok? && r.value.Some? ==>
              id in old(st.work.requests) && Allowed(old(st.work.requests[id].status), r.value.value)
    ensures !isAdmin ==> r == Err(PermissionDenied) && unchanged(st)
    ensures isAdmin && RequestById(old(st.work), id).None? ==> r == Err(NotFound) && unchanged(st)
    ensures isAdmin && RequestById(old(st.work), id).Some? && old(st.work.requests[id].status) == Pending ==>
              var req := old(st.work.requests[id]);
              var review := Review(old(st.work.items), req.items, decisions);
              review.Ok? ==>
                && r == Ok(Aggregate(review.value.1))
                && st.work == WithRequest(old(st.work), id, Reviewed(req, review.value.0, review.value.1, userId, adminMessage))
                && st.durable == st.work
  {
    if isAdmin && RequestById(st.work, id).Some? && st.work.requests[id].status != Pending {
      return Err(InvalidTransition);
    }
    ghost var before := st.work;
    r := UpdateRequestStatus(st, isAdmin, userId, id, adminMessage, decisions);
    if r.Ok? && r.value.Some? {
      DecidedStatusesLeavePending(Review(before.items, before.requests[id].items, decisions).value.1);
    }
  }

  // ---------------------------------------------------------------------------
  // Deletion pages.

  /** delete_request's permission rule: an administrator may delete any request that is not
      collected; anyone else only their own pending request. */
  function DeleteRefusal(isAdmin: bool, userId: nat, req: Request): (r: Option<Error>)
    ensures r.None? <==> (isAdmin && req.status != Collected) || (!isAdmin && req.userId == userId && req.status == Pending)
  {
    if isAdmin then (if req.status == Collected then Some(CannotDeleteCollected) else None)
    else if req.userId == userId && req.status == Pending then None
    else Some(PermissionDenied)
  }

  /** Nobody may delete a collected request, and a non-administrator may delete nothing but
      their own pending request. */
  lemma DeletionRules(isAdmin: bool, userId: nat, req: Request)
    ensures req.status == Collected ==> DeleteRefusal(isAdmin, userId, req).Some?
    ensures !isAdmin && (req.userId != userId || req.status != Pending) ==> DeleteRefusal(isAdmin, userId, req) == Some(PermissionDenied)
    ensures isAdmin && req.status == Collected ==> DeleteRefusal(isAdmin, userId, req) == Some(CannotDeleteCollected)
  {
  }

  /** delete_request: a request not found (or already soft-deleted) is reported missing
      before permission is looked at; a permitted one is soft-deleted. */
  method DeleteRequest(st: Store, isAdmin: bool, userId: nat, id: nat, reason: Option<string>, now: int)
    returns (r: Result<(), Error>)
    modifies st
    ensures RequestById(old(st.work), id).None? ==> r == Err(NotFound) && unchanged(st)
    ensures RequestById(old(st.work), id).Some? ==>
              var req := old(st.work.requests[id]);
              && (DeleteRefusal(isAdmin, userId, req).Some? ==> r == Err(DeleteRefusal(isAdmin, userId, req).value) && unchanged(st))
              && (DeleteRefusal(isAdmin, userId, req).None? ==>
                    && r == Ok(())
                    && st.work == WithRequest(old(st.work), id, SoftDeleted(req, userId, reason, now))
                    && st.durable == st.work)
  {
    var found := RequestById(st.work, id);
    if found.None? {
      return Err(NotFound);
    }
    var refusal := DeleteRefusal(isAdmin, userId, found.value);
    if refusal.Some? {
      return Err(refusal.value);
    }
    SoftDelete(st, id, userId, reason, now);
    r := Ok(());
  }

  /** restore_request: an administrator restores any request, deleted or not. */
  method RestoreRequest(st: Store, isAdmin: bool, id: nat) returns (r: Result<(), Error>)
    modifies st
    ensures !isAdmin ==> r == Err(PermissionDenied) && unchanged(st)
    ensures isAdmin && id !in old(st.work.requests) ==> r == Err(NotFound) && unchanged(st)
    ensures isAdmin && id in old(st.work.requests) ==>
              && r == Ok(())
              && st.work == WithRequest(old(st.work), id, Restored(old(st.work.requests[id])))
              && st.durable == st.work
  {
    if !isAdmin {
      return Err(PermissionDenied);
    }
    if id !in st.work.requests {
      return Err(NotFound);
    }
    Restore(st, id);
    r := Ok(());
  }

  /** permanent_delete_request: an administrator deletes a soft-deleted request for good. */
  method PermanentDeleteRequest(st: Store, isAdmin: bool, id: nat) returns (r: Result<(), Error>)
    modifies st
    ensures !isAdmin ==> r == Err(PermissionDenied) && unchanged(st)
    ensures isAdmin && id !in old(st.work.requests) ==> r == Err(NotFound) && unchanged(st)
    ensures isAdmin && id in old(st.work.requests) ==>
              && (old(st.work.requests[id].deletedAt).None? ==> r == Err(NotSoftDeleted) && unchanged(st))
              && (old(st.work.requests[id].deletedAt).Some? && Referenced(old(st.work.ledger), id) ==>
                    r == Err(StillReferenced) && st.work == old(st.durable) && st.durable == old(st.durable))
              && (old(st.work.requests[id].deletedAt).Some? && !Referenced(old(st.work.ledger), id) ==>
                    && r == Ok(())
                    && st.work == old(st.work).(requests := old(st.work.requests) - {id})
                    && st.durable == st.work)
  {
    if !isAdmin {
      return Err(PermissionDenied);
    }
    if id !in st.work.requests {
      return Err(NotFound);
    }
    r := PermanentDelete(st, id);
  }

  /** The soft-deleted requests no ledger entry refers to: those a permanent delete removes. */
  function Removable(t: Tables): (r: set<nat>)
    ensures r <= DeletedRequests(t)
    ensures forall id :: id in r <==> id in DeletedRequests(t) && !Referenced(t.ledger, id)
  {
    set id | id in DeletedRequests(t) && !Referenced(t.ledger, id)
  }

  /**
   * delete_all_deleted_requests: every soft-deleted request is permanently deleted in turn
   * (the order does not matter); the count reported is the number deleted, which is the
   * number of soft-deleted requests no issue entry refers to.
   */
  method DeleteAllDeletedRequests(st: Store, isAdmin: bool) returns (r: Result<nat, Error>)
    requires st.work == st.durable
    modifies st
    ensures !isAdmin ==> r == Err(PermissionDenied) && unchanged(st)
    ensures isAdmin ==>
              && r == Ok(|Removable(old(st.work))|)
              && st.work == old(st.work).(requests := old(st.work.requests) - Removable(old(st.work)))
              && st.durable == st.work
  {
    if !isAdmin {
      return Err(PermissionDenied);
    }
    ghost var t := st.work;
    var todo := DeletedRequests(st.work);
    var count := 0;
    ghost var removed: set<nat> := {};
    while todo != {}
      invariant todo <= DeletedRequests(t)
      invariant removed == set id | id in DeletedRequests(t) && id !in todo && !Referenced(t.ledger, id)
      invariant count == |removed|
      invariant st.work == t.(requests := t.requests - removed) && st.durable == st.work
      decreases |todo|
    {
      var x :| x in todo;
      assert x !in removed;
      var ok := PermanentDelete(st, x);
      if ok.Ok? {
        count := count + 1;
        removed := removed + {x};
        assert st.work.requests == t.requests - removed;
      }
      todo := todo - {x};
    }
    assert removed == Removable(t);
    r := Ok(count);
  }
}
