// The inventory report: for every item of the report, the ledger replayed over a window
// [start, end] into opening stock, purchases, adjustments and issues by location, the
// closing stock and its value; rows grouped by category with per-category and grand totals.
// Also the stand-alone opening-stock query.

module Report {
  import opened Base
  import opened Ledger
  import opened Schema

  // ---------------------------------------------------------------------------
  // Filters
  // ---------------------------------------------------------------------------

  /** The report form's filters: `int(x) if x else None` for the two ids; the location text as given. */
  datatype Filters = Filters(categoryId: Option<int>, itemId: Option<int>, location: Option<string>)

  /** The filters block of the report view. It sits outside the view's try block, so a
      non-numeric id raises and ends the request with a server error: None. */
  function ParseFilters(categoryArg: Option<string>, itemArg: Option<string>, locationArg: Option<string>)
    : (r: Option<Filters>)
    ensures r.None? <==> (Truthy(categoryArg) && ParseInt(categoryArg.value).None?)
                         || (Truthy(itemArg) && ParseInt(itemArg.value).None?)
    ensures r.Some? ==>
              && (r.value.categoryId.Some? <==> Truthy(categoryArg))
              && (r.value.categoryId.Some? ==> r.value.categoryId == ParseInt(categoryArg.value))
              && (r.value.itemId.Some? <==> Truthy(itemArg))
              && (r.value.itemId.Some? ==> r.value.itemId == ParseInt(itemArg.value))
              && (r.value.location.Some? <==> Truthy(locationArg))
  {
    var category := if Truthy(categoryArg) then ParseInt(categoryArg.value) else Some(0);
    var item := if Truthy(itemArg) then ParseInt(itemArg.value) else Some(0);
    if category.None? || item.None? then None
    else
      Some(Filters(if Truthy(categoryArg) then category else None,
                   if Truthy(itemArg) then item else None,
                   if Truthy(locationArg) then locationArg else None))
  }

  /** A filter applies when it is set and not zero (`if filters.get(...)`). */
  predicate Applies(f: Option<int>)
  {
    f.Some? && f.value != 0
  }

  /** The item query: items created by the end of the window whose category row exists (an
      inner join), narrowed by the category and item filters. The location is not consulted. */
  predicate Candidate(t: Tables, f: Filters, end: int, id: nat)
  {
    && id in t.items
    && t.items[id].categoryId in t.categories
    && t.items[id].createdAt <= end
    && (Applies(f.categoryId) ==> t.items[id].categoryId == f.categoryId.value)
    && (Applies(f.itemId) ==> id == f.itemId.value)
  }

  /** `order` is the order the database returns the rows of the item table in: every item once. */
  ghost predicate RowOrder(t: Tables, order: seq<nat>)
  {
    && (forall id :: id in t.items <==> id in order)
    && (forall i, j :: 0 <= i < j < |order| ==> order[i] != order[j])
  }

  /** The candidates, in row order. */
  function Candidates(t: Tables, f: Filters, end: int, order: seq<nat>): (r: seq<nat>)
    ensures forall id :: id in r <==> id in order && Candidate(t, f, end, id)
    ensures forall k :: 0 <= k < |r| ==> Candidate(t, f, end, r[k])
    ensures (forall i, j :: 0 <= i < j < |order| ==> order[i] != order[j]) ==>
              forall i, j :: 0 <= i < j < |r| ==> r[i] != r[j]
  {
    if order == [] then []
    else
      var init := order[..|order| - 1];
      var last := order[|order| - 1];
      assert order == init + [last];
      var rest := Candidates(t, f, end, init);
      if Candidate(t, f, end, last) then rest + [last] else rest
  }

  // ---------------------------------------------------------------------------
  // Replaying the ledger
  // ---------------------------------------------------------------------------

  /** The report column an entry is added to. */
  datatype Column = OpeningCol | PurchasesCol | AdjustmentsCol | HqCol | JabiCol | NoCol

  /** The location of the request an entry is linked to, if that request row exists (the
      outer join; a soft-deleted request is still a row). */
  function RequestLocation(t: Tables, e: Txn): Option<string>
  {
    if e.relatedRequest.Some? && e.relatedRequest.value in t.requests
    then Some(t.requests[e.relatedRequest.value].location)
    else None
  }

  /** Where an entry goes: anything before the window into the opening stock; inside the
      window by kind, issues by the location of their request; after the window nowhere. */
  function Route(t: Tables, e: Txn, start: int, end: int): Column
  {
    if e.timestamp < start then OpeningCol
    else if e.timestamp > end then NoCol
    else match e.kind
      case Initial => OpeningCol
      case Purchase => PurchasesCol
      case Adjustment => AdjustmentsCol
      case Issue =>
        if RequestLocation(t, e) == Some("Headquarters") then HqCol
        else if RequestLocation(t, e) == Some("Jabi") then JabiCol
        else NoCol
  }

  /** The five accumulated fields of one item. */
  datatype Counters = Counters(opening: int, purchases: int, adjustments: int, hq: int, jabi: int)

  const NoCounters := Counters(0, 0, 0, 0, 0)

  function Bump(c: Counters, col: Column, q: int): Counters
  {
    match col
    case OpeningCol => c.(opening := c.opening + q)
    case PurchasesCol => c.(purchases := c.purchases + q)
    case AdjustmentsCol => c.(adjustments := c.adjustments + q)
    case HqCol => c.(hq := c.hq + q)
    case JabiCol => c.(jabi := c.jabi + q)
    case NoCol => c
  }

  /** The counters of item `id` after replaying `entries` in order. */
  function Tally(t: Tables, entries: seq<Txn>, id: nat, start: int, end: int): Counters
  {
    if entries == [] then NoCounters
    else
      var last := entries[|entries| - 1];
      var c := Tally(t, entries[..|entries| - 1], id, start, end);
      if last.inventoryId == id then Bump(c, Route(t, last, start, end), last.quantity) else c
  }

  /** The closing stock as the report computes it. */
  function Closing(c: Counters): int
  {
    c.opening + c.purchases + c.adjustments + c.hq + c.jabi
  }

  /** The effect of one more entry, kind by kind and column by column. */
  lemma TallySnoc(t: Tables, es: seq<Txn>, e: Txn, id: nat, start: int, end: int)
    ensures var c := Tally(t, es, id, start, end);
            var d := Tally(t, es + [e], id, start, end);
            var q := e.quantity;
            && (e.inventoryId != id || start <= end < e.timestamp ==> d == c)
            && (e.inventoryId == id && e.timestamp < start ==> d == c.(opening := c.opening + q))
            && (e.inventoryId == id && start <= e.timestamp <= end ==>
                  && (e.kind == Initial ==> d == c.(opening := c.opening + q))
                  && (e.kind == Purchase ==> d == c.(purchases := c.purchases + q))
                  && (e.kind == Adjustment ==> d == c.(adjustments := c.adjustments + q))
                  && (e.kind == Issue && RequestLocation(t, e) == Some("Headquarters") ==> d == c.(hq := c.hq + q))
                  && (e.kind == Issue && RequestLocation(t, e) == Some("Jabi") ==> d == c.(jabi := c.jabi + q))
                  && (RequestLocation(t, e) !in {Some("Headquarters"), Some("Jabi")} && e.kind == Issue ==> d == c))
  {
    assert (es + [e])[..|es|] == es;
  }

  /** An entry the report counts in some column. */
  predicate Counted(t: Tables, e: Txn, start: int, end: int)
  {
    Route(t, e, start, end) != NoCol
  }

  /** When every entry of the item is counted, the closing stock is its ledger balance. */
  lemma {:induction false} ClosingIsBalance(t: Tables, es: seq<Txn>, id: nat, start: int, end: int)
    requires forall k :: 0 <= k < |es| && es[k].inventoryId == id ==> Counted(t, es[k], start, end)
    ensures Closing(Tally(t, es, id, start, end)) == Balance(es, id)
    decreases |es|
  {
    if es != [] {
      ClosingIsBalance(t, es[..|es| - 1], id, start, end);
    }
  }

  /** Hence, on a consistent database, the report closes at the item's stock when no entry
      of the item is later than the window and every issue in it went to Headquarters or Jabi. */
  lemma ClosingMatchesStock(t: Tables, id: nat, start: int, end: int)
    requires Consistent(t) && id in t.items
    requires forall k :: 0 <= k < |t.ledger| && t.ledger[k].inventoryId == id ==>
               && t.ledger[k].timestamp <= end
               && (t.ledger[k].kind == Issue && t.ledger[k].timestamp >= start ==>
                     RequestLocation(t, t.ledger[k]) in {Some("Headquarters"), Some("Jabi")})
    ensures Closing(Tally(t, t.ledger, id, start, end)) == t.items[id].quantity
  {
    ClosingIsBalance(t, t.ledger, id, start, end);
  }

  /** An issue inside the window whose request is gone or elsewhere is in no column: the
      closing stock then sits above the stock by the quantity issued. */
  lemma OrphanIssueUncounted(t: Tables, es: seq<Txn>, e: Txn, start: int, end: int)
    requires e.kind == Issue && start <= e.timestamp <= end
    requires RequestLocation(t, e) != Some("Headquarters") && RequestLocation(t, e) != Some("Jabi")
    ensures Tally(t, es + [e], e.inventoryId, start, end) == Tally(t, es, e.inventoryId, start, end)
    ensures Balance(es + [e], e.inventoryId) == Balance(es, e.inventoryId) + e.quantity
  {
    TallySnoc(t, es, e, e.inventoryId, start, end);
    BalanceSnoc(es, e, e.inventoryId);
  }

  // ---------------------------------------------------------------------------
  // Rows, groups and totals
  // ---------------------------------------------------------------------------

  /** One row of the report. Money is in minor units. */
  datatype Row = Row(
    name: string,
    description: string,
    unitPrice: int,
    categoryName: string,
    opening: int,
    purchases: int,
    adjustments: int,
    hq: int,
    jabi: int,
    closing: int,
    totalValue: int)

  /** The summed fields; the unit price is not one of them. */
  datatype Totals = Totals(
    opening: int,
    purchases: int,
    adjustments: int,
    hq: int,
    jabi: int,
    closing: int,
    totalValue: int)

  const NoTotals := Totals(0, 0, 0, 0, 0, 0, 0)

  /** A listable item: it exists and so does its category. */
  predicate Listable(t: Tables, ids: seq<nat>)
  {
    forall k :: 0 <= k < |ids| ==> ids[k] in t.items && t.items[ids[k]].categoryId in t.categories
  }

  /** `Decimal(item.unit_price or '0.0')`. */
  function PriceOf(item: Item): int
  {
    if item.unitPrice.Some? then item.unitPrice.value else 0
  }

  /** The row of item `id` with counters `c`: closing stock and value filled in. */
  function RowOf(t: Tables, id: nat, c: Counters): (r: Row)
    requires id in t.items && t.items[id].categoryId in t.categories
    ensures r.closing == r.opening + r.purchases + r.adjustments + r.hq + r.jabi
    ensures r.totalValue == r.closing * r.unitPrice
    ensures r.unitPrice == PriceOf(t.items[id]) && r.categoryName == t.categories[t.items[id].categoryId].name
    ensures r.opening == c.opening && r.purchases == c.purchases && r.adjustments == c.adjustments
            && r.hq == c.hq && r.jabi == c.jabi
  {
    var item := t.items[id];
    var closing := Closing(c);
    Row(item.name, if item.description.Some? then item.description.value else "", PriceOf(item),
        t.categories[item.categoryId].name, c.opening, c.purchases, c.adjustments, c.hq, c.jabi,
        closing, closing * PriceOf(item))
  }

  /** The rows of the items, in order, each replayed over the whole ledger. */
  function Rows(t: Tables, ids: seq<nat>, start: int, end: int): (r: seq<Row>)
    requires Listable(t, ids)
    ensures |r| == |ids|
    ensures forall k :: 0 <= k < |ids| ==> r[k] == RowOf(t, ids[k], Tally(t, t.ledger, ids[k], start, end))
  {
    seq(|ids|, k requires 0 <= k < |ids| => RowOf(t, ids[k], Tally(t, t.ledger, ids[k], start, end)))
  }

  function Contribution(r: Row): Totals
  {
    Totals(r.opening, r.purchases, r.adjustments, r.hq, r.jabi, r.closing, r.totalValue)
  }

  function Plus(a: Totals, b: Totals): Totals
  {
    Totals(a.opening + b.opening, a.purchases + b.purchases, a.adjustments + b.adjustments,
           a.hq + b.hq, a.jabi + b.jabi, a.closing + b.closing, a.totalValue + b.totalValue)
  }

  /** Field-by-field sum of the rows. */
  function SumRows(rows: seq<Row>): Totals
  {
    if rows == [] then NoTotals
    else Plus(SumRows(rows[..|rows| - 1]), Contribution(rows[|rows| - 1]))
  }

  /** report_data: each row appended to the list of its category name. */
  function Group(rows: seq<Row>): map<string, seq<Row>>
  {
    if rows == [] then map[]
    else
      var g := Group(rows[..|rows| - 1]);
      var r := rows[|rows| - 1];
      g[r.categoryName := (if r.categoryName in g then g[r.categoryName] else []) + [r]]
  }

  /** category_totals: each row added into the totals of its category name. */
  function GroupTotals(rows: seq<Row>): map<string, Totals>
  {
    if rows == [] then map[]
    else
      var g := GroupTotals(rows[..|rows| - 1]);
      var r := rows[|rows| - 1];
      g[r.categoryName := Plus(if r.categoryName in g then g[r.categoryName] else NoTotals, Contribution(r))]
  }

  /** The rows of one category, in order. */
  function RowsIn(rows: seq<Row>, c: string): (r: seq<Row>)
    ensures forall x :: x in r ==> x in rows && x.categoryName == c
  {
    if rows == [] then []
    else
      var rest := RowsIn(rows[..|rows| - 1], c);
      var last := rows[|rows| - 1];
      if last.categoryName == c then rest + [last] else rest
  }

  /** A category's rows keep their order. */
  lemma {:induction false} RowsInSplits(a: seq<Row>, b: seq<Row>, c: string)
    ensures RowsIn(a + b, c) == RowsIn(a, c) + RowsIn(b, c)
    decreases |b|
  {
    if b == [] {
      assert a + b == a;
    } else {
      var init := b[..|b| - 1];
      assert (a + b)[..|a + b| - 1] == a + init;
      RowsInSplits(a, init, c);
    }
  }

  /** The category names in order of first appearance (the key order of report_data). */
  function CategoryOrder(rows: seq<Row>): seq<string>
  {
    if rows == [] then []
    else
      var o := CategoryOrder(rows[..|rows| - 1]);
      var c := rows[|rows| - 1].categoryName;
      if c in o then o else o + [c]
  }

  lemma {:induction false} RowsInEmpty(rows: seq<Row>, c: string)
    requires forall k :: 0 <= k < |rows| ==> rows[k].categoryName != c
    ensures RowsIn(rows, c) == []
  {
    if rows != [] {
      RowsInEmpty(rows[..|rows| - 1], c);
    }
  }

  /** Each category's group is exactly its rows in order, and there is a group for a name
      exactly when some row has that category: every row is in one group, its own. */
  lemma {:induction false} GroupIsPartition(rows: seq<Row>, c: string)
    ensures c in Group(rows) <==> exists k :: 0 <= k < |rows| && rows[k].categoryName == c
    ensures c in Group(rows) ==> Group(rows)[c] == RowsIn(rows, c)
  {
    if rows != [] {
      var init := rows[..|rows| - 1];
      GroupIsPartition(init, c);
      if c !in Group(init) {
        RowsInEmpty(init, c);
      }
      if exists k :: 0 <= k < |init| && init[k].categoryName == c {
        var k :| 0 <= k < |init| && init[k].categoryName == c;
        assert rows[k] == init[k];
      }
      if exists k :: 0 <= k < |rows| && rows[k].categoryName == c {
        var k :| 0 <= k < |rows| && rows[k].categoryName == c;
        if k < |init| {
          assert init[k] == rows[k];
        }
      }
    }
  }

  /** Each category total is the sum of that category's rows. */
  lemma {:induction false} GroupTotalsAreSums(rows: seq<Row>, c: string)
    ensures c in GroupTotals(rows) <==> c in Group(rows)
    ensures c in GroupTotals(rows) ==> GroupTotals(rows)[c] == SumRows(RowsIn(rows, c))
  {
    if rows != [] {
      var init := rows[..|rows| - 1];
      GroupTotalsAreSums(init, c);
      if c !in GroupTotals(init) && rows[|rows| - 1].categoryName == c {
        GroupIsPartition(init, c);
        RowsInEmpty(init, c);
        assert RowsIn(rows, c) == [rows[|rows| - 1]];
        assert [rows[|rows| - 1]][..0] == [];
      }
      if rows[|rows| - 1].categoryName == c {
        var s := RowsIn(rows, c);
        assert s[..|s| - 1] == RowsIn(init, c);
      }
    }
  }

  /** The category order lists each group once. */
  lemma {:induction false} CategoryOrderKeys(rows: seq<Row>)
    ensures forall c :: c in CategoryOrder(rows) <==> c in GroupTotals(rows)
    ensures forall i, j :: 0 <= i < j < |CategoryOrder(rows)| ==> CategoryOrder(rows)[i] != CategoryOrder(rows)[j]
  {
    if rows != [] {
      CategoryOrderKeys(rows[..|rows| - 1]);
    }
  }

  /** The sum of the totals of the given categories. */
  function SumOver(cats: seq<string>, m: map<string, Totals>): Totals
    requires forall c :: c in cats ==> c in m
  {
    if cats == [] then NoTotals
    else Plus(SumOver(cats[..|cats| - 1], m), m[cats[|cats| - 1]])
  }

  lemma {:induction false} SumOverFrame(cats: seq<string>, m: map<string, Totals>, c: string, v: Totals)
    requires forall x :: x in cats ==> x in m
    requires c !in cats
    ensures SumOver(cats, m[c := v]) == SumOver(cats, m)
  {
    if cats != [] {
      SumOverFrame(cats[..|cats| - 1], m, c, v);
    }
  }

  lemma {:induction false} SumOverBump(cats: seq<string>, m: map<string, Totals>, c: string, d: Totals)
    requires forall x :: x in cats ==> x in m
    requires forall i, j :: 0 <= i < j < |cats| ==> cats[i] != cats[j]
    requires c in cats
    ensures SumOver(cats, m[c := Plus(m[c], d)]) == Plus(SumOver(cats, m), d)
  {
    var init := cats[..|cats| - 1];
    var last := cats[|cats| - 1];
    if last == c {
      assert c !in init;
      SumOverFrame(init, m, c, Plus(m[c], d));
    } else {
      assert c in init;
      SumOverBump(init, m, c, d);
    }
  }

  /** Adding a row's contribution into its category's totals adds it to the sum over the
      categories, the category joining the order if it is new. */
  lemma SumOverAdd(o: seq<string>, g: map<string, Totals>, c: string, d: Totals)
    requires forall x :: x in o <==> x in g
    requires forall i, j :: 0 <= i < j < |o| ==> o[i] != o[j]
    ensures var g' := g[c := Plus(if c in g then g[c] else NoTotals, d)];
            var o' := if c in o then o else o + [c];
            && (forall x :: x in o' ==> x in g')
            && SumOver(o', g') == Plus(SumOver(o, g), d)
  {
    var g' := g[c := Plus(if c in g then g[c] else NoTotals, d)];
    if c in o {
      SumOverBump(o, g, c, d);
    } else {
      assert (o + [c])[..|o|] == o;
      SumOverFrame(o, g, c, Plus(NoTotals, d));
      assert SumOver(o + [c], g') == Plus(SumOver(o, g'), g'[c]);
    }
  }

  /** The grand totals are the sum of the category totals, over the categories in order. */
  lemma {:induction false} GrandIsSumOfCategories(rows: seq<Row>)
    ensures forall c :: c in CategoryOrder(rows) ==> c in GroupTotals(rows)
    ensures SumRows(rows) == SumOver(CategoryOrder(rows), GroupTotals(rows))
  {
    if rows == [] {
    } else {
      var init := rows[..|rows| - 1];
      var r := rows[|rows| - 1];
      GrandIsSumOfCategories(init);
      CategoryOrderKeys(init);
      SumOverAdd(CategoryOrder(init), GroupTotals(init), r.categoryName, Contribution(r));
    }
  }

  // ---------------------------------------------------------------------------
  // generate_report
  // ---------------------------------------------------------------------------

  /** The three results; `grand` is None for the empty dictionary of an empty report. */
  datatype ReportData = ReportData(data: map<string, seq<Row>>, categoryTotals: map<string, Totals>, grand: Option<Totals>)

  /** abort(413): more than 5000 candidate items. */
  datatype ReportError = PayloadTooLarge

  const MaxReportItems := 5000

  /** What generate_report computes. */
  function ReportOf(t: Tables, order: seq<nat>, f: Filters, start: int, end: int): Result<ReportData, ReportError>
  {
    var ids := Candidates(t, f, end, order);
    if |ids| > MaxReportItems then Err(PayloadTooLarge)
    else if ids == [] then Ok(ReportData(map[], map[], None))
    else
      var rows := Rows(t, ids, start, end);
      Ok(ReportData(Group(rows), GroupTotals(rows), Some(SumRows(rows))))
  }

  /** The first loop of generate_report: zeroed counters for every candidate. */
  method ZeroCounters(ids: seq<nat>) returns (counters: map<nat, Counters>)
    ensures forall id :: id in counters <==> id in ids
    ensures forall id :: id in counters ==> counters[id] == NoCounters
  {
    counters := map[];
    var k := 0;
    while k < |ids|
      invariant 0 <= k <= |ids|
      invariant forall id :: id in counters <==> id in ids[..k]
      invariant forall id :: id in counters ==> counters[id] == NoCounters
    {
      assert ids[..k + 1] == ids[..k] + [ids[k]];
      counters := counters[ids[k] := NoCounters];
      k := k + 1;
    }
    assert ids[..k] == ids;
  }

  /** The second loop: every ledger entry of a candidate bumps the column it is routed to. */
  method ReplayLedger(t: Tables, zero: map<nat, Counters>, start: int, end: int) returns (counters: map<nat, Counters>)
    requires forall id :: id in zero ==> zero[id] == NoCounters
    ensures counters.Keys == zero.Keys
    ensures forall id :: id in counters ==> counters[id] == Tally(t, t.ledger, id, start, end)
  {
    counters := zero;
    var i := 0;
    while i < |t.ledger|
      invariant 0 <= i <= |t.ledger|
      invariant counters.Keys == zero.Keys
      invariant forall id :: id in counters ==> counters[id] == Tally(t, t.ledger[..i], id, start, end)
    {
      var e := t.ledger[i];
      assert t.ledger[..i + 1][..i] == t.ledger[..i];
      if e.inventoryId in counters {
        counters := counters[e.inventoryId := Bump(counters[e.inventoryId], Route(t, e, start, end), e.quantity)];
      }
      i := i + 1;
    }
    assert t.ledger[..i] == t.ledger;
  }

  /** One more row, as the three accumulations see it. */
  lemma AccumulateSnoc(rows: seq<Row>, row: Row)
    ensures var c := row.categoryName;
            var g := Group(rows);
            var gt := GroupTotals(rows);
            && Group(rows + [row]) == g[c := (if c in g then g[c] else []) + [row]]
            && GroupTotals(rows + [row]) == gt[c := Plus(if c in gt then gt[c] else NoTotals, Contribution(row))]
            && SumRows(rows + [row]) == Plus(SumRows(rows), Contribution(row))
  {
    assert (rows + [row])[..|rows|] == rows;
  }

  /** The rows of one more item extend the rows of the items before it. */
  lemma RowsSnoc(t: Tables, ids: seq<nat>, j: nat, start: int, end: int)
    requires Listable(t, ids) && j < |ids|
    ensures Listable(t, ids[..j]) && Listable(t, ids[..j + 1])
    ensures Rows(t, ids[..j + 1], start, end)
            == Rows(t, ids[..j], start, end) + [RowOf(t, ids[j], Tally(t, t.ledger, ids[j], start, end))]
  {
    assert forall k :: 0 <= k < j + 1 ==> ids[..j + 1][k] == ids[k];
  }

  /** The third loop: each item's row completed, appended to its category's list and added
      into its category's totals and the grand totals. */
  method GroupRows(t: Tables, ids: seq<nat>, counters: map<nat, Counters>, start: int, end: int)
    returns (data: map<string, seq<Row>>, categoryTotals: map<string, Totals>, grand: Totals)
    requires Listable(t, ids)
    requires forall k :: 0 <= k < |ids| ==> ids[k] in counters && counters[ids[k]] == Tally(t, t.ledger, ids[k], start, end)
    ensures data == Group(Rows(t, ids, start, end))
    ensures categoryTotals == GroupTotals(Rows(t, ids, start, end))
    ensures grand == SumRows(Rows(t, ids, start, end))
  {
    data := map[];
    categoryTotals := map[];
    grand := NoTotals;
    ghost var rows: seq<Row> := [];
    var j := 0;
    while j < |ids|
      invariant 0 <= j <= |ids|
      invariant Listable(t, ids[..j]) && rows == Rows(t, ids[..j], start, end)
      invariant data == Group(rows) && categoryTotals == GroupTotals(rows) && grand == SumRows(rows)
    {
      var id := ids[j];
      var row := RowOf(t, id, counters[id]);
      RowsSnoc(t, ids, j, start, end);
      AccumulateSnoc(rows, row);
      var c := row.categoryName;
      data := data[c := (if c in data then data[c] else []) + [row]];
      categoryTotals := categoryTotals[c := Plus(if c in categoryTotals then categoryTotals[c] else NoTotals, Contribution(row))];
      grand := Plus(grand, Contribution(row));
      rows := rows + [row];
      j := j + 1;
    }
    assert ids[..j] == ids;
  }

  /**
   * generate_report. The candidate items are fetched; each gets zeroed counters; the ledger
   * entries of the candidates are replayed into them; then the rows are completed and grouped.
   */
  method GenerateReport(t: Tables, order: seq<nat>, f: Filters, start: int, end: int)
    returns (r: Result<ReportData, ReportError>)
    requires RowOrder(t, order)
    ensures r == ReportOf(t, order, f, start, end)
  {
    var ids := Candidates(t, f, end, order);
    if |ids| > MaxReportItems {
      return Err(PayloadTooLarge);
    }
    if ids == [] {
      return Ok(ReportData(map[], map[], None));
    }
    var zero := ZeroCounters(ids);
    var counters := ReplayLedger(t, zero, start, end);
    assert forall k :: 0 <= k < |ids| ==> ids[k] in counters by {
      forall k | 0 <= k < |ids|
        ensures ids[k] in counters
      {
        assert ids[k] in ids;
      }
    }
    var data, categoryTotals, grand := GroupRows(t, ids, counters, start, end);
    r := Ok(ReportData(data, categoryTotals, Some(grand)));
  }

  /** The size limit aborts rather than truncating; an empty candidate set gives three
      empty results; otherwise every candidate has a row. */
  lemma ReportOutcomes(t: Tables, order: seq<nat>, f: Filters, start: int, end: int)
    ensures var ids := Candidates(t, f, end, order);
            var r := ReportOf(t, order, f, start, end);
            && (r == Err(PayloadTooLarge) <==> |ids| > MaxReportItems)
            && (r == Ok(ReportData(map[], map[], None)) <==> ids == [])
            && (r.Ok? && r.value.grand.Some? ==>
                  forall k :: 0 <= k < |ids| ==>
                    var row := Rows(t, ids, start, end)[k];
                    row.categoryName in r.value.data && row in r.value.data[row.categoryName])
  {
    var ids := Candidates(t, f, end, order);
    if 0 < |ids| <= MaxReportItems {
      assert Listable(t, ids) by {
        forall k | 0 <= k < |ids|
          ensures ids[k] in t.items && t.items[ids[k]].categoryId in t.categories
        {
          assert ids[k] in ids;
        }
      }
      var rows := Rows(t, ids, start, end);
      forall k | 0 <= k < |ids|
        ensures rows[k].categoryName in Group(rows) && rows[k] in Group(rows)[rows[k].categoryName]
      {
        GroupIsPartition(rows, rows[k].categoryName);
        RowsInHas(rows, k);
      }
    }
  }

  lemma {:induction false} RowsInHas(rows: seq<Row>, k: nat)
    requires k < |rows|
    ensures rows[k] in RowsIn(rows, rows[k].categoryName)
  {
    if k < |rows| - 1 {
      RowsInHas(rows[..|rows| - 1], k);
    }
  }

  /** In a filled report every row balances, the category totals are the sums of their
      groups, and the grand totals are the sum of the category totals. */
  lemma FilledReport(t: Tables, order: seq<nat>, f: Filters, start: int, end: int)
    requires ReportOf(t, order, f, start, end).Ok? && ReportOf(t, order, f, start, end).value.grand.Some?
    ensures var d := ReportOf(t, order, f, start, end).value;
            && (forall c, k :: c in d.data && 0 <= k < |d.data[c]| ==>
                  var row := d.data[c][k];
                  && row.categoryName == c
                  && row.closing == row.opening + row.purchases + row.adjustments + row.hq + row.jabi
                  && row.totalValue == row.closing * row.unitPrice)
            && (forall c :: c in d.categoryTotals <==> c in d.data)
            && (forall c :: c in d.categoryTotals ==> d.categoryTotals[c] == SumRows(d.data[c]))
            && (exists cats ::
                  && (forall c :: c in cats <==> c in d.categoryTotals)
                  && (forall i, j :: 0 <= i < j < |cats| ==> cats[i] != cats[j])
                  && d.grand.value == SumOver(cats, d.categoryTotals))
  {
    var ids := Candidates(t, f, end, order);
    assert Listable(t, ids) by {
      forall k | 0 <= k < |ids|
        ensures ids[k] in t.items && t.items[ids[k]].categoryId in t.categories
      {
        assert ids[k] in ids;
      }
    }
    var rows := Rows(t, ids, start, end);
    forall c, k | c in Group(rows) && 0 <= k < |Group(rows)[c]|
      ensures var row := Group(rows)[c][k];
              && row.categoryName == c
              && row.closing == row.opening + row.purchases + row.adjustments + row.hq + row.jabi
              && row.totalValue == row.closing * row.unitPrice
    {
      GroupIsPartition(rows, c);
      var row := Group(rows)[c][k];
      assert row in RowsIn(rows, c);
      var m :| 0 <= m < |rows| && rows[m] == row;
    }
    forall c
      ensures c in GroupTotals(rows) <==> c in Group(rows)
      ensures c in GroupTotals(rows) ==> GroupTotals(rows)[c] == SumRows(Group(rows)[c])
    {
      GroupTotalsAreSums(rows, c);
      GroupIsPartition(rows, c);
    }
    GrandOverEveryCategory(rows);
  }

  /** The grand totals are the sum of the category totals, each category counted once. */
  lemma GrandOverEveryCategory(rows: seq<Row>)
    ensures exists cats ::
              && (forall c :: c in cats <==> c in GroupTotals(rows))
              && (forall i, j :: 0 <= i < j < |cats| ==> cats[i] != cats[j])
              && SumRows(rows) == SumOver(cats, GroupTotals(rows))
  {
    GrandIsSumOfCategories(rows);
    CategoryOrderKeys(rows);
    var cats := CategoryOrder(rows);
    assert SumRows(rows) == SumOver(cats, GroupTotals(rows));
  }

  /** The location filter is read from the form but never used. */
  lemma {:induction false} CandidatesIgnoreLocation(t: Tables, f: Filters, end: int, order: seq<nat>, location: Option<string>)
    ensures Candidates(t, f.(location := location), end, order) == Candidates(t, f, end, order)
  {
    if order != [] {
      CandidatesIgnoreLocation(t, f, end, order[..|order| - 1], location);
    }
  }

  lemma LocationIsIgnored(t: Tables, order: seq<nat>, f: Filters, start: int, end: int, location: Option<string>)
    ensures ReportOf(t, order, f.(location := location), start, end) == ReportOf(t, order, f, start, end)
  {
    CandidatesIgnoreLocation(t, f, end, order, location);
  }

  // ---------------------------------------------------------------------------
  // get_opening_stock
  // ---------------------------------------------------------------------------

  predicate IsInitialOf(e: Txn, id: nat)
  {
    e.inventoryId == id && e.kind == Initial
  }

  /** The quantity of the item's first initial entry, if it has one. */
  function FirstInitial(ledger: seq<Txn>, id: nat): (r: Option<int>)
    ensures r.None? <==> forall k :: 0 <= k < |ledger| ==> !IsInitialOf(ledger[k], id)
    ensures r.Some? ==> exists k :: 0 <= k < |ledger| && IsInitialOf(ledger[k], id) && ledger[k].quantity == r.value
                                    && forall j :: 0 <= j < k ==> !IsInitialOf(ledger[j], id)
  {
    if ledger == [] then None
    else if IsInitialOf(ledger[0], id) then Some(ledger[0].quantity)
    else
      var rest := ledger[1..];
      var r := FirstInitial(rest, id);
      assert forall k :: 0 <= k < |rest| ==> rest[k] == ledger[k + 1];
      if r.Some? then
        var k :| 0 <= k < |rest| && IsInitialOf(rest[k], id) && rest[k].quantity == r.value
                 && forall j :: 0 <= j < k ==> !IsInitialOf(rest[j], id);
        assert IsInitialOf(ledger[k + 1], id) && forall j :: 0 <= j < k + 1 ==> !IsInitialOf(ledger[j], id);
        r
      else r
  }

  /** The net of the item's entries dated before `start`. */
  function BalanceBefore(ledger: seq<Txn>, id: nat, start: int): int
  {
    if ledger == [] then 0
    else
      var last := ledger[|ledger| - 1];
      BalanceBefore(ledger[..|ledger| - 1], id, start)
        + (if last.inventoryId == id && last.timestamp < start then last.quantity else 0)
  }

  /**
   * get_opening_stock. A missing item gives 0; an item created after the window gives
   * None; an item created inside the window gives its initial entry's quantity (0 without
   * one); otherwise the net of its entries before the window.
   */
  method GetOpeningStock(t: Tables, id: nat, start: int, end: int) returns (r: Option<int>)
    ensures id !in t.items ==> r == Some(0)
    ensures id in t.items && t.items[id].createdAt > end ==> r == None
    ensures id in t.items && start < t.items[id].createdAt <= end ==>
              r == Some(if FirstInitial(t.ledger, id).Some? then FirstInitial(t.ledger, id).value else 0)
    ensures id in t.items && t.items[id].createdAt <= start && t.items[id].createdAt <= end ==>
              r == Some(BalanceBefore(t.ledger, id, start))
  {
    if id !in t.items {
      return Some(0);
    }
    var item := t.items[id];
    if item.createdAt > end {
      return None;
    }
    if item.createdAt > start && item.createdAt <= end {
      var initial := FirstInitial(t.ledger, id);
      return Some(if initial.Some? then initial.value else 0);
    }
    var opening := 0;
    var i := 0;
    while i < |t.ledger|
      invariant 0 <= i <= |t.ledger|
      invariant opening == BalanceBefore(t.ledger[..i], id, start)
    {
      var e := t.ledger[i];
      assert t.ledger[..i + 1][..i] == t.ledger[..i];
      if e.inventoryId == id && e.timestamp < start {
        opening := opening + e.quantity;
      }
      i := i + 1;
    }
    assert t.ledger[..i] == t.ledger;
    r := Some(opening);
  }

  /** When no entry of the item is as late as `start`, the opening stock is its whole
      balance, which on a consistent database is its stock. */
  lemma {:induction false} BalanceBeforeIsBalance(ledger: seq<Txn>, id: nat, start: int)
    requires forall k :: 0 <= k < |ledger| && ledger[k].inventoryId == id ==> ledger[k].timestamp < start
    ensures BalanceBefore(ledger, id, start) == Balance(ledger, id)
    decreases |ledger|
  {
    if ledger != [] {
      BalanceBeforeIsBalance(ledger[..|ledger| - 1], id, start);
    }
  }

  /** The report's opening stock agrees with get_opening_stock's sum when the item's
      initial entries all predate the window. */
  lemma {:induction false} ReportOpeningAgrees(t: Tables, es: seq<Txn>, id: nat, start: int, end: int)
    requires forall k :: 0 <= k < |es| && IsInitialOf(es[k], id) ==> es[k].timestamp < start
    ensures Tally(t, es, id, start, end).opening == BalanceBefore(es, id, start)
    decreases |es|
  {
    if es != [] {
      ReportOpeningAgrees(t, es[..|es| - 1], id, start, end);
    }
  }
}
