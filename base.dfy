// Shared vocabulary: optional values, results, and the few string operations of
// Python and SQL that the application relies on (strip, split, case-insensitive
// comparison as ILIKE performs it).

module Base {

  datatype Option<T> = None | Some(value: T)

  datatype Result<T, E> = Ok(value: T) | Err(error: E)

  /** Python truthiness of a form value that may be absent: absent and "" are false. */
  predicate Truthy(o: Option<string>)
  {
    o.Some? && o.value != ""
  }

  /** The characters Python's str.isspace accepts (and str.strip removes). */
  predicate IsSpace(c: char)
  {
    ('\U{9}' <= c <= '\U{D}') || ('\U{1C}' <= c <= '\U{20}') || c == '\U{85}' || c == '\U{A0}'
    || c == '\U{1680}' || ('\U{2000}' <= c <= '\U{200A}') || c == '\U{2028}' || c == '\U{2029}'
    || c == '\U{202F}' || c == '\U{205F}' || c == '\U{3000}'
  }

  /** str.lstrip(): drop leading whitespace. */
  function StripLeft(s: string): (r: string)
    ensures |r| <= |s| && r == s[|s| - |r|..]
    ensures forall k :: 0 <= k < |s| - |r| ==> IsSpace(s[k])
    ensures r != [] ==> !IsSpace(r[0])
  {
    if s != [] && IsSpace(s[0]) then StripLeft(s[1..]) else s
  }

  /** str.rstrip(): drop trailing whitespace. */
  function StripRight(s: string): (r: string)
    ensures |r| <= |s| && r == s[..|r|]
    ensures forall k :: |r| <= k < |s| ==> IsSpace(s[k])
    ensures r != [] ==> !IsSpace(r[|r| - 1])
  {
    if s != [] && IsSpace(s[|s| - 1]) then StripRight(s[..|s| - 1]) else s
  }

  /** str.strip(): both of the above; what is left neither starts nor ends with whitespace. */
  function Strip(s: string): (r: string)
    ensures |r| <= |s|
    ensures r != [] ==> !IsSpace(r[0]) && !IsSpace(r[|r| - 1])
  {
    StripRight(StripLeft(s))
  }

  predicate IsDigit(c: char)
  {
    '0' <= c <= '9'
  }

  function DigitValue(c: char): int
  {
    c as int - '0' as int
  }

  predicate AllDigits(s: string)
  {
    forall k :: 0 <= k < |s| ==> IsDigit(s[k])
  }

  /** The value of a string of decimal digits. */
  function DigitsValue(s: string): nat
    requires AllDigits(s)
    decreases |s|
  {
    if |s| == 0 then 0 else 10 * DigitsValue(s[..|s| - 1]) + DigitValue(s[|s| - 1])
  }

  /** int(s) on a decimal literal: surrounding whitespace, an optional sign, one or more
      ASCII digits. None where Python raises ValueError. */
  function ParseInt(s: string): (r: Option<int>)
  {
    var t := Strip(s);
    var signed := |t| > 0 && (t[0] == '-' || t[0] == '+');
    var digits := if signed then t[1..] else t;
    if |digits| == 0 || !AllDigits(digits) then None
    else
      var n: int := DigitsValue(digits);
      if signed && t[0] == '-' then Some(-n) else Some(n)
  }

  /** str(n) for a natural number. */
  function ShowNat(n: nat): (r: string)
    ensures |r| > 0 && AllDigits(r)
    ensures DigitsValue(r) == n
  {
    if n < 10 then ['0' + n as char]
    else
      var r := ShowNat(n / 10) + ['0' + (n % 10) as char];
      assert r[..|r| - 1] == ShowNat(n / 10);
      r
  }

  /** str(i). */
  function ShowInt(i: int): string
  {
    if i < 0 then "-" + ShowNat(-i) else ShowNat(i)
  }

  /** Stripping a string that neither starts nor ends with whitespace keeps it whole. */
  lemma StripKeeps(s: string)
    requires s != [] && !IsSpace(s[0]) && !IsSpace(s[|s| - 1])
    ensures Strip(s) == s
  {
    assert StripLeft(s) == s;
  }

  lemma DigitNotSpace(c: char)
    requires IsDigit(c)
    ensures !IsSpace(c)
  {
  }

  /** int() of a string of digits is its value. */
  lemma ParseDigits(s: string)
    requires |s| > 0 && AllDigits(s)
    ensures ParseInt(s) == Some(DigitsValue(s))
  {
    DigitNotSpace(s[0]);
    DigitNotSpace(s[|s| - 1]);
    StripKeeps(s);
  }

  /** int() of "-" and a string of digits is minus their value. */
  lemma ParseNegativeDigits(s: string, d: string)
    requires s == "-" + d && |d| > 0 && AllDigits(d)
    ensures ParseInt(s) == Some(-(DigitsValue(d) as int))
  {
    DigitNotSpace(d[|d| - 1]);
    assert s[|s| - 1] == d[|d| - 1] && s[0] == '-' && s[1..] == d;
    StripKeeps(s);
  }

  /** int(str(i)) == i. */
  lemma ParseShowInt(i: int)
    ensures ParseInt(ShowInt(i)) == Some(i)
  {
    if i < 0 {
      ParseNegativeDigits(ShowInt(i), ShowNat(-i));
    } else {
      ParseDigits(ShowInt(i));
    }
  }

  /** ASCII lower-casing of one character, the case folding ILIKE applies. */
  function Lower(c: char): char
  {
    if 'A' <= c <= 'Z' then (c as int + 32) as char else c
  }

  function Fold(s: string): (r: string)
    ensures |r| == |s|
    ensures forall k :: 0 <= k < |s| ==> r[k] == Lower(s[k])
  {
    if s == [] then [] else [Lower(s[0])] + Fold(s[1..])
  }

  /** `column ILIKE pattern` for a pattern without wildcards: equality up to case. */
  predicate SameIgnoringCase(a: string, b: string)
  {
    Fold(a) == Fold(b)
  }

  /** Does `sep` occur in `s` at position i? */
  predicate OccursAt(s: string, sep: string, i: int)
  {
    0 <= i && i + |sep| <= |s| && s[i..i + |sep|] == sep
  }

  /** Python's `sep in s`. */
  predicate Occurs(s: string, sep: string)
  {
    exists i :: 0 <= i <= |s| - |sep| && OccursAt(s, sep, i)
  }

  /** `column ILIKE '%needle%'`: the needle occurs somewhere, up to case. */
  predicate ContainsIgnoringCase(hay: string, needle: string)
  {
    Occurs(Fold(hay), Fold(needle))
  }

  /** str.find(sep) from position `from`: the first occurrence at or after it. */
  function FindFrom(s: string, sep: string, from: nat): (r: Option<nat>)
    requires from <= |s|
    decreases |s| - from
    ensures r.Some? ==>
              && from <= r.value && OccursAt(s, sep, r.value)
              && forall k :: from <= k < r.value ==> !OccursAt(s, sep, k)
    ensures r.None? ==> forall k :: from <= k ==> !OccursAt(s, sep, k)
  {
    if OccursAt(s, sep, from) then Some(from)
    else if from + |sep| >= |s| then None
    else FindFrom(s, sep, from + 1)
  }

  function Find(s: string, sep: string): (r: Option<nat>)
    ensures r.Some? <==> Occurs(s, sep)
    ensures r.Some? ==> OccursAt(s, sep, r.value) && forall k :: 0 <= k < r.value ==> !OccursAt(s, sep, k)
  {
    FindFrom(s, sep, 0)
  }

  /** Python's str.join. */
  function Join(parts: seq<string>, sep: string): string
  {
    if |parts| == 0 then ""
    else if |parts| == 1 then parts[0]
    else parts[0] + sep + Join(parts[1..], sep)
  }

  /** Python's str.split(sep) for a non-empty separator: cut at every occurrence found
      scanning from the left. Joining the pieces back gives the input, and no piece
      contains the separator. */
  function Split(s: string, sep: string): (r: seq<string>)
    requires sep != ""
    decreases |s|
    ensures |r| >= 1
    ensures Join(r, sep) == s
    ensures forall k :: 0 <= k < |r| ==> !Occurs(r[k], sep)
  {
    match Find(s, sep)
    case None => [s]
    case Some(i) =>
      var head := s[..i];
      var tail := s[i + |sep|..];
      var rest := Split(tail, sep);
      var r := [head] + rest;
      NoneBeforeFirst(s, sep, i);
      assert r[1..] == rest;
      assert s == head + sep + tail;
      assert forall k :: 1 <= k < |r| ==> r[k] == rest[k - 1];
      r
  }

  /** The text in front of the first occurrence of sep does not contain sep. */
  lemma NoneBeforeFirst(s: string, sep: string, i: nat)
    requires sep != "" && i <= |s|
    requires forall k :: 0 <= k < i ==> !OccursAt(s, sep, k)
    ensures !Occurs(s[..i], sep)
  {
    forall k | 0 <= k <= i - |sep| && OccursAt(s[..i], sep, k) ensures false {
      assert s[k..k + |sep|] == s[..i][k..k + |sep|];
      assert OccursAt(s, sep, k);
    }
  }

  /** Two overlapping occurrences of sep force sep's first character to recur inside it. */
  lemma OverlapRepeatsFirst(s: string, sep: string, i: int, j: int)
    requires OccursAt(s, sep, i) && OccursAt(s, sep, j) && i < j < i + |sep|
    ensures sep[j - i] == sep[0]
  {
    assert s[i..i + |sep|][j - i] == s[j];
    assert s[j..j + |sep|][0] == s[j];
  }

  /** Splitting a + sep + b where neither piece contains sep, and sep cannot overlap
      the end of `a` (its first character occurs nowhere else in it), gives exactly [a, b]. */
  lemma {:induction false} SplitTwo(a: string, sep: string, b: string)
    requires sep != "" && !Occurs(a, sep) && !Occurs(b, sep)
    requires forall k :: 1 <= k < |sep| ==> sep[k] != sep[0]
    ensures Split(a + sep + b, sep) == [a, b]
  {
    var s := a + sep + b;
    assert OccursAt(s, sep, |a|) by { assert s[|a|..|a| + |sep|] == sep; }
    var f := Find(s, sep);
    assert f.Some?;
    var i := f.value;
    assert i <= |a|;
    if i < |a| {
      if i + |sep| <= |a| {
        assert a[i..i + |sep|] == s[i..i + |sep|];
        assert OccursAt(a, sep, i);
        assert false;
      } else {
        OverlapRepeatsFirst(s, sep, i, |a|);
        assert false;
      }
    }
    assert i == |a|;
    assert s[i + |sep|..] == b;
    assert s[..i] == a;
  }

  /** The elements of `s` that satisfy `p`, in order, each as often as `s` holds it: the
      rows a `WHERE` clause keeps. */
  function Filter<T(!new)>(s: seq<T>, p: T -> bool): (r: seq<T>)
    ensures forall x :: multiset(r)[x] == if p(x) then multiset(s)[x] else 0
    ensures forall k :: 0 <= k < |r| ==> p(r[k])
  {
    if s == [] then []
    else
      assert s == [s[0]] + s[1..];
      (if p(s[0]) then [s[0]] else []) + Filter(s[1..], p)
  }

  /** Non-increasing by `key`: the order of an `ORDER BY key DESC` query. */
  predicate SortedDesc<T>(s: seq<T>, key: T -> int)
  {
    forall i, j :: 0 <= i < j < |s| ==> key(s[i]) >= key(s[j])
  }

  function InsertDesc<T>(x: T, s: seq<T>, key: T -> int): (r: seq<T>)
    requires SortedDesc(s, key)
    ensures SortedDesc(r, key) && multiset(r) == multiset(s) + multiset{x}
  {
    if |s| == 0 then [x]
    else if key(x) >= key(s[0]) then [x] + s
    else
      var rest := InsertDesc(x, s[1..], key);
      assert s == [s[0]] + s[1..];
      HeadBoundsInsert(s[0], s[1..], x, rest, key);
      ConsSortedDesc(s[0], rest, key);
      [s[0]] + rest
  }

  /** A key at least that of `x` and of every element of `tail` bounds everything in a
      sequence holding exactly `tail` and `x`. */
  lemma HeadBoundsInsert<T>(h: T, tail: seq<T>, x: T, rest: seq<T>, key: T -> int)
    requires multiset(rest) == multiset(tail) + multiset{x} && key(h) >= key(x)
    requires forall k :: 0 <= k < |tail| ==> key(h) >= key(tail[k])
    ensures forall j :: 0 <= j < |rest| ==> key(h) >= key(rest[j])
  {
    forall j | 0 <= j < |rest|
      ensures key(h) >= key(rest[j])
    {
      assert rest[j] in multiset(tail) + multiset{x};
      if rest[j] != x {
        assert rest[j] in tail;
      }
    }
  }

  /** A head whose key bounds a sorted tail gives a sorted sequence. */
  lemma ConsSortedDesc<T>(h: T, rest: seq<T>, key: T -> int)
    requires SortedDesc(rest, key)
    requires forall j :: 0 <= j < |rest| ==> key(h) >= key(rest[j])
    ensures SortedDesc([h] + rest, key)
  {
    var r := [h] + rest;
    forall i, j | 0 <= i < j < |r|
      ensures key(r[i]) >= key(r[j])
    {
      assert r[j] == rest[j - 1];
      if i > 0 {
        assert r[i] == rest[i - 1];
      }
    }
  }

  /** The rows of `s` ordered by `key`, largest first (ties in no promised order). */
  function SortDesc<T>(s: seq<T>, key: T -> int): (r: seq<T>)
    ensures SortedDesc(r, key) && multiset(r) == multiset(s)
  {
    if |s| == 0 then []
    else
      assert s == [s[0]] + s[1..];
      InsertDesc(s[0], SortDesc(s[1..], key), key)
  }

  /** A query with a `WHERE` and an `ORDER BY key DESC`: it holds what the filter keeps, as
      often as the table does, sorted by the key. */
  lemma FilteredSorted<T(!new)>(s: seq<T>, p: T -> bool, key: T -> int)
    ensures var r := SortDesc(Filter(s, p), key);
            && (forall x :: multiset(r)[x] == if p(x) then multiset(s)[x] else 0)
            && (forall k :: 0 <= k < |r| ==> p(r[k]))
            && SortedDesc(r, key)
  {
    var r := SortDesc(Filter(s, p), key);
    forall k | 0 <= k < |r|
      ensures p(r[k])
    {
      assert r[k] in multiset(r);
    }
  }
}
