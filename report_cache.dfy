// The report cache (table report_cache): generated reports kept for a day under a random
// id, readable only by the user who generated them. Each of the four payload columns holds
// a JSON document; Decimal values are written as their string form.

module ReportCache {
  import opened Base

  /** A JSON value as the application hands it to the encoder; `JDecimal` is a Python
      Decimal, carried as the text `str()` gives for it. */
  datatype Json =
    | JNull
    | JBool(b: bool)
    | JInt(i: int)
    | JDecimal(text: string)
    | JStr(s: string)
    | JArray(items: seq<Json>)
    | JObject(members: seq<(string, Json)>)

  /** `{}`. */
  const EmptyObject := JObject([])

  /** A value JSON can hold as it is: no Decimal anywhere inside. */
  predicate Plain(v: Json)
  {
    match v
    case JDecimal(_) => false
    case JArray(items) => forall k :: 0 <= k < |items| ==> Plain(items[k])
    case JObject(members) => forall k :: 0 <= k < |members| ==> Plain(members[k].1)
    case _ => true
  }

  /**
   * json.dumps(value, cls=DecimalEncoder), seen as the document it writes: the encoder's
   * `default` turns each Decimal into its string; everything else is written as it is.
   * The column then holds this document.
   */
  function Dump(v: Json): Json
  {
    match v
    case JDecimal(text) => JStr(text)
    case JArray(items) => JArray(seq(|items|, k requires 0 <= k < |items| => Dump(items[k])))
    case JObject(members) => JObject(seq(|members|, k requires 0 <= k < |members| => (members[k].0, Dump(members[k].1))))
    case _ => v
  }

  /** The getter: json.loads of the column, or `{}` when the column is empty. */
  function Load(column: Option<Json>): (r: Json)
    ensures column.None? ==> r == EmptyObject
    ensures column.Some? ==> r == column.value
  {
    if column.None? then EmptyObject else column.value
  }

  /** Nothing the encoder writes holds a Decimal. */
  lemma {:induction false} DumpIsPlain(v: Json)
    ensures Plain(Dump(v))
  {
    match v
    case JArray(items) =>
      forall k | 0 <= k < |items|
        ensures Plain(Dump(items[k]))
      {
        DumpIsPlain(items[k]);
      }
    case JObject(members) =>
      forall k | 0 <= k < |members|
        ensures Plain(Dump(members[k].1))
      {
        DumpIsPlain(members[k].1);
      }
    case _ =>
  }

  /** A value without Decimals is written exactly as it is. */
  lemma {:induction false} DumpKeepsPlain(v: Json)
    requires Plain(v)
    ensures Dump(v) == v
  {
    match v
    case JArray(items) =>
      forall k | 0 <= k < |items|
        ensures Dump(items[k]) == items[k]
      {
        DumpKeepsPlain(items[k]);
      }
      assert Dump(v).items == items;
    case JObject(members) =>
      forall k | 0 <= k < |members|
        ensures Dump(members[k].1) == members[k].1
      {
        DumpKeepsPlain(members[k].1);
      }
      assert Dump(v).members == members;
    case _ =>
  }

  /** Writing keeps the shape: the same keys in the same order, the same list lengths, and a
      Decimal becomes the string of its text. */
  lemma DumpKeepsShape(v: Json)
    ensures v.JDecimal? ==> Dump(v) == JStr(v.text)
    ensures v.JArray? ==> Dump(v).JArray? && |Dump(v).items| == |v.items|
    ensures v.JObject? ==> Dump(v).JObject? && |Dump(v).members| == |v.members|
                           && forall k :: 0 <= k < |v.members| ==> Dump(v).members[k].0 == v.members[k].0
  {
  }

  /** Setting a payload and reading it back gives the value with every Decimal replaced
      by its string; a value without Decimals comes back unchanged, and what comes back
      reads back the same when stored again. */
  lemma SetThenGet(v: Json)
    ensures Load(Some(Dump(v))) == Dump(v) && Plain(Load(Some(Dump(v))))
    ensures Plain(v) ==> Load(Some(Dump(v))) == v
    ensures Load(Some(Dump(Load(Some(Dump(v)))))) == Load(Some(Dump(v)))
  {
    DumpIsPlain(v);
    if Plain(v) {
      DumpKeepsPlain(v);
    }
    DumpKeepsPlain(Dump(v));
  }

  // ---------------------------------------------------------------------------
  // Entries
  // ---------------------------------------------------------------------------

  /** How long an entry is kept: 24 hours, in microseconds. */
  const Lifetime := 24 * 60 * 60 * 1000000

  /** A row of report_cache. The four payload columns are None while unset. */
  datatype CacheEntry = CacheEntry(
    id: string,
    userId: nat,
    createdAt: int,
    expiresAt: int,
    reportData: Option<Json>,
    categoryTotals: Option<Json>,
    grandTotals: Option<Json>,
    meta: Option<Json>)

  /** ReportCache(user_id=...) with its column defaults; the uuid and the clock are parameters. */
  function NewEntry(id: string, userId: nat, now: int): (e: CacheEntry)
    ensures e.id == id && e.userId == userId
    ensures e.createdAt == now && e.expiresAt == e.createdAt + Lifetime
    ensures Load(e.reportData) == EmptyObject && Load(e.categoryTotals) == EmptyObject
            && Load(e.grandTotals) == EmptyObject && Load(e.meta) == EmptyObject
  {
    CacheEntry(id, userId, now, now + Lifetime, None, None, None, None)
  }

  /** The report view's new entry: the four payloads set through their setters. */
  function FilledEntry(id: string, userId: nat, now: int, reportData: Json, categoryTotals: Json,
                       grandTotals: Json, meta: Json): (e: CacheEntry)
    ensures e.id == id && e.userId == userId && e.expiresAt == now + Lifetime
    ensures Load(e.reportData) == Dump(reportData) && Load(e.categoryTotals) == Dump(categoryTotals)
            && Load(e.grandTotals) == Dump(grandTotals) && Load(e.meta) == Dump(meta)
  {
    NewEntry(id, userId, now).(reportData := Some(Dump(reportData)), categoryTotals := Some(Dump(categoryTotals)),
                              grandTotals := Some(Dump(grandTotals)), meta := Some(Dump(meta)))
  }

  /** The report view reads back from its new entry exactly the payloads it stored when
      they hold no Decimal, and every Decimal as its string otherwise. */
  lemma FilledEntryReadsBack(id: string, userId: nat, now: int, reportData: Json, categoryTotals: Json,
                             grandTotals: Json, meta: Json)
    ensures var e := FilledEntry(id, userId, now, reportData, categoryTotals, grandTotals, meta);
            && Plain(Load(e.reportData)) && Plain(Load(e.categoryTotals))
            && Plain(Load(e.grandTotals)) && Plain(Load(e.meta))
            && (Plain(reportData) ==> Load(e.reportData) == reportData)
            && (Plain(categoryTotals) ==> Load(e.categoryTotals) == categoryTotals)
            && (Plain(grandTotals) ==> Load(e.grandTotals) == grandTotals)
            && (Plain(meta) ==> Load(e.meta) == meta)
  {
    SetThenGet(reportData);
    SetThenGet(categoryTotals);
    SetThenGet(grandTotals);
    SetThenGet(meta);
  }

  predicate Expired(e: CacheEntry, now: int)
  {
    e.expiresAt < now
  }

  /** The entries cleanup keeps, in order. */
  function Unexpired(entries: seq<CacheEntry>, now: int): (r: seq<CacheEntry>)
    ensures forall e :: e in r <==> e in entries && !Expired(e, now)
  {
    if entries == [] then []
    else
      var init := entries[..|entries| - 1];
      var last := entries[|entries| - 1];
      assert entries == init + [last];
      var rest := Unexpired(init, now);
      if Expired(last, now) then rest else rest + [last]
  }

  /** Cleanup keeps each unexpired entry as often as the table holds it. */
  lemma {:induction false} UnexpiredCounts(entries: seq<CacheEntry>, now: int)
    ensures forall e :: multiset(Unexpired(entries, now))[e] == if !Expired(e, now) then multiset(entries)[e] else 0
  {
    if entries != [] {
      UnexpiredCounts(entries[..|entries| - 1], now);
      assert entries == entries[..|entries| - 1] + [entries[|entries| - 1]];
    }
  }

  /** Cleanup keeps the surviving entries in table order. */
  lemma {:induction false} UnexpiredSplits(a: seq<CacheEntry>, b: seq<CacheEntry>, now: int)
    ensures Unexpired(a + b, now) == Unexpired(a, now) + Unexpired(b, now)
    decreases |b|
  {
    if b == [] {
      assert a + b == a;
    } else {
      var init := b[..|b| - 1];
      assert (a + b)[..|a + b| - 1] == a + init;
      UnexpiredSplits(a, init, now);
    }
  }

  /** The number of expired entries. */
  function ExpiredCount(entries: seq<CacheEntry>, now: int): (n: nat)
    ensures n + |Unexpired(entries, now)| == |entries|
  {
    if entries == [] then 0
    else
      var init := entries[..|entries| - 1];
      ExpiredCount(init, now) + if Expired(entries[|entries| - 1], now) then 1 else 0
  }

  /** A new entry survives every cleanup up to 24 hours after it was made and is deleted by
      the first one after, wherever it sits in the table. */
  lemma NewEntryLivesADay(before: seq<CacheEntry>, after: seq<CacheEntry>, id: string, userId: nat, now: int, later: int)
    ensures var e := NewEntry(id, userId, now);
            e in Unexpired(before + [e] + after, later) <==> later <= now + Lifetime
  {
  }

  /** Cleaning twice at the same instant deletes nothing the second time. */
  lemma {:induction false} CleanupIdempotent(entries: seq<CacheEntry>, now: int)
    ensures Unexpired(Unexpired(entries, now), now) == Unexpired(entries, now)
    ensures ExpiredCount(Unexpired(entries, now), now) == 0
  {
    if entries != [] {
      var init := entries[..|entries| - 1];
      var last := entries[|entries| - 1];
      CleanupIdempotent(init, now);
      var rest := Unexpired(init, now);
      if !Expired(last, now) {
        assert (rest + [last])[..|rest|] == rest;
      }
    }
  }

  /** The first entry with the given id and owner. */
  function FirstOwned(entries: seq<CacheEntry>, reportId: string, userId: nat): (r: Option<CacheEntry>)
    ensures r.Some? <==> exists k :: 0 <= k < |entries| && entries[k].id == reportId && entries[k].userId == userId
    ensures r.Some? ==> r.value in entries && r.value.id == reportId && r.value.userId == userId
  {
    if entries == [] then None
    else if entries[0].id == reportId && entries[0].userId == userId then Some(entries[0])
    else
      var r := FirstOwned(entries[1..], reportId, userId);
      assert forall k :: 0 <= k < |entries| - 1 ==> entries[1..][k] == entries[k + 1];
      if r.None? then
        assert forall k :: 1 <= k < |entries| ==> entries[k] == entries[1..][k - 1];
        r
      else r
  }

  /** Outcomes of writing the table. */
  datatype CacheError = DuplicateId

  /** The report_cache table. */
  class CacheTable {
    var entries: seq<CacheEntry>

    constructor ()
      ensures entries == []
    {
      entries := [];
    }

    /** db.session.add + commit of a new entry; the primary key refuses a duplicate id. */
    method Add(e: CacheEntry) returns (r: Result<(), CacheError>)
      modifies this
      ensures (exists k :: 0 <= k < |old(entries)| && old(entries)[k].id == e.id) ==>
                r == Err(DuplicateId) && entries == old(entries)
      ensures (forall k :: 0 <= k < |old(entries)| ==> old(entries)[k].id != e.id) ==>
                r == Ok(()) && entries == old(entries) + [e]
    {
      var i := 0;
      while i < |entries|
        invariant 0 <= i <= |entries|
        invariant forall k :: 0 <= k < i ==> entries[k].id != e.id
      {
        if entries[i].id == e.id {
          return Err(DuplicateId);
        }
        i := i + 1;
      }
      entries := entries + [e];
      r := Ok(());
    }

    /** ReportCache.get_for_user: the entry only when both its id and its owner match. An
        expired entry not yet cleaned up is still returned. */
    function GetForUser(reportId: string, userId: nat): (r: Option<CacheEntry>)
      reads this
      ensures r.Some? <==> exists k :: 0 <= k < |entries| && entries[k].id == reportId && entries[k].userId == userId
      ensures r.Some? ==> r.value in entries && r.value.id == reportId && r.value.userId == userId
    {
      FirstOwned(entries, reportId, userId)
    }

    /** ReportCache.cleanup_expired: deletes exactly the entries that expired before `now`,
        keeps the rest in order, and returns how many it deleted. */
    method CleanupExpired(now: int) returns (deleted: nat)
      modifies this
      ensures entries == Unexpired(old(entries), now)
      ensures deleted == ExpiredCount(old(entries), now) == |old(entries)| - |entries|
    {
      var all := entries;
      var kept: seq<CacheEntry> := [];
      deleted := 0;
      var i := 0;
      while i < |all|
        invariant 0 <= i <= |all|
        invariant kept == Unexpired(all[..i], now)
        invariant deleted == ExpiredCount(all[..i], now)
      {
        assert all[..i + 1][..i] == all[..i];
        if Expired(all[i], now) {
          deleted := deleted + 1;
        } else {
          kept := kept + [all[i]];
        }
        i := i + 1;
      }
      assert all[..i] == all;
      entries := kept;
    }
  }
}
