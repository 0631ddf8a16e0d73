// The purchase history page: purchase entries of the ledger, narrowed by supplier name,
// item name and a date range typed as YYYY-MM-DD, newest first.

module PurchaseList {
  import opened Base
  import opened Ledger
  import opened Schema
  import opened Calendar

  /** The time bounds the date fields give, or None when Python raises an uncaught error. */
  datatype Bounds = Bounds(lo: Option<int>, hi: Option<int>, invalid: bool)

  /** The last microsecond of day `e`: e + timedelta(days=1) - timedelta(microseconds=1),
      or None where adding the day overflows (Python raises OverflowError, which the view
      does not catch). */
  function EndOfDay(e: Date): (r: Option<int>)
    requires ValidDate(e)
    ensures r.None? <==> e == MaxDate
    ensures r.Some? ==> r.value == Instant(NextDay(e), 0, 0) - 1
  {
    if e == MaxDate then None
    else Some(Instant(e, 0, 0) + MicrosPerDay - 1)
  }

  /**
   * The date block of list_purchases. The start is parsed first and its filter applied at
   * once; an unparsable start abandons the block before the end is looked at, an unparsable
   * end keeps the start filter. Either sets the "invalid" flag.
   */
  function DateBounds(startStr: string, endStr: string): Option<Bounds>
  {
    var start := if startStr == "" then Some(None) else
      match ParseDate(startStr)
      case None => None
      case Some(d) => Some(Some(Instant(d, 0, 0)));
    if start.None? then Some(Bounds(None, None, true))
    else if endStr == "" then Some(Bounds(start.value, None, false))
    else
      match ParseDate(endStr)
      case None => Some(Bounds(start.value, None, true))
      case Some(e) =>
        match EndOfDay(e)
        case None => None
        case Some(hi) => Some(Bounds(start.value, Some(hi), false))
  }

  /** The supplier join: the entry names a supplier record whose name contains the needle. */
  predicate SupplierMatches(records: seq<SupplierRecord>, e: Txn, needle: string)
  {
    e.supplierId.Some? &&
    exists k :: 0 <= k < |records| && records[k].id == e.supplierId.value && ContainsIgnoringCase(records[k].name, needle)
  }

  predicate ItemMatches(items: map<nat, Item>, e: Txn, needle: string)
  {
    e.inventoryId in items && ContainsIgnoringCase(items[e.inventoryId].name, needle)
  }

  /** The WHERE clause the view builds; an empty needle adds no join and no filter. */
  predicate Selected(t: Tables, e: Txn, supplier: string, item: string, b: Bounds)
  {
    && e.kind == Purchase
    && (supplier != "" ==> SupplierMatches(t.suppliers, e, supplier))
    && (item != "" ==> ItemMatches(t.items, e, item))
    && (b.lo.Some? ==> e.timestamp >= b.lo.value)
    && (b.hi.Some? ==> e.timestamp <= b.hi.value)
  }

  /** The selected entries, each as often as the ledger holds it. */
  function Selection(t: Tables, ledger: seq<Txn>, supplier: string, item: string, b: Bounds): (r: seq<Txn>)
    ensures forall x :: multiset(r)[x] == if Selected(t, x, supplier, item, b) then multiset(ledger)[x] else 0
  {
    if |ledger| == 0 then []
    else
      var init := ledger[..|ledger| - 1];
      var last := ledger[|ledger| - 1];
      assert ledger == init + [last];
      var rest := Selection(t, init, supplier, item, b);
      if Selected(t, last, supplier, item, b) then rest + [last] else rest
  }

  function When(e: Txn): int
  {
    e.timestamp
  }

  /** What the page shows: the entries and the filter values echoed back into the form. */
  datatype Listing = Listing(
    entries: seq<Txn>,
    supplier: string,
    item: string,
    startDate: string,
    endDate: string,
    invalidDate: bool)

  /**
   * list_purchases. Every argument is stripped first. None is a server error (an end date
   * of 9999-12-31). When a date is invalid both date fields are echoed back empty.
   */
  function ListPurchases(t: Tables, supplierArg: string, itemArg: string, startArg: string, endArg: string)
    : (r: Option<Listing>)
    ensures r.None? <==> DateBounds(Strip(startArg), Strip(endArg)).None?
    ensures r.Some? ==>
              var b := DateBounds(Strip(startArg), Strip(endArg)).value;
              && (forall x :: multiset(r.value.entries)[x]
                   == if Selected(t, x, Strip(supplierArg), Strip(itemArg), b) then multiset(t.ledger)[x] else 0)
              && (forall i, j :: 0 <= i < j < |r.value.entries| ==> r.value.entries[i].timestamp >= r.value.entries[j].timestamp)
              && r.value.invalidDate == b.invalid
              && r.value.supplier == Strip(supplierArg) && r.value.item == Strip(itemArg)
              && r.value.startDate == (if b.invalid then "" else Strip(startArg))
              && r.value.endDate == (if b.invalid then "" else Strip(endArg))
  {
    var supplier := Strip(supplierArg);
    var item := Strip(itemArg);
    var startStr := Strip(startArg);
    var endStr := Strip(endArg);
    match DateBounds(startStr, endStr)
    case None => None
    case Some(b) =>
      var entries := SortDesc(Selection(t, t.ledger, supplier, item, b), When);
      Some(Listing(entries, supplier, item,
                   if b.invalid then "" else startStr,
                   if b.invalid then "" else endStr,
                   b.invalid))
  }

  /** The end bound covers the whole end day, to its last microsecond, and nothing of the next. */
  lemma EndOfDayCoversDay(e: Date, hour: int, minute: int, micros: int)
    requires ValidDate(e) && e != MaxDate
    requires 0 <= hour < 24 && 0 <= minute < 60 && 0 <= micros < MicrosPerMinute
    ensures Instant(e, hour, minute) + micros <= EndOfDay(e).value
    ensures EndOfDay(e).value < Instant(NextDay(e), 0, 0)
  {
  }

  /** An invalid start date lifts both date filters, even a valid end date. */
  lemma InvalidStartDropsBoth(startStr: string, endStr: string)
    requires startStr != "" && ParseDate(startStr).None?
    ensures DateBounds(startStr, endStr) == Some(Bounds(None, None, true))
  {
  }

  /** An invalid end date keeps a valid start date's filter. */
  lemma InvalidEndKeepsStart(startStr: string, endStr: string)
    requires ParseDate(startStr).Some? && endStr != "" && ParseDate(endStr).None?
    ensures DateBounds(startStr, endStr) == Some(Bounds(Some(Instant(ParseDate(startStr).value, 0, 0)), None, true))
  {
  }

  /** Without filters the page lists every purchase entry and nothing else. */
  lemma UnfilteredListsAllPurchases(t: Tables, x: Txn)
    ensures var r := ListPurchases(t, "", "", "", "");
            && r.Some?
            && (x in r.value.entries <==> x in t.ledger && x.kind == Purchase)
  {
    var r := ListPurchases(t, "", "", "", "").value;
    assert Strip("") == "";
    assert x in r.entries <==> multiset(r.entries)[x] > 0;
    assert x in t.ledger <==> multiset(t.ledger)[x] > 0;
  }
}
