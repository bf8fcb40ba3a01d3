/**
 * What the storage collaborator's queries mean, as functions over a table's
 * rows: `.eq`/`.gt` filters, `.order(column, { ascending: false })` and
 * `.range(from, to)`.
 */
module Query {

  /** The rows satisfying `p`, in table order. */
  function Filter<T>(s: seq<T>, p: T -> bool): (r: seq<T>)
    ensures |r| <= |s|
    ensures forall i :: 0 <= i < |r| ==> p(r[i])
    decreases |s|
  {
    if s == [] then []
    else
      var rest := Filter(s[1..], p);
      if p(s[0]) then [s[0]] + rest else rest
  }

  /** The filter holds exactly the rows that satisfy `p`, each no more often than the table does. */
  lemma {:induction false} FilterMembers<T>(s: seq<T>, p: T -> bool)
    ensures forall x :: x in Filter(s, p) ==> x in s
    ensures forall x :: x in s && p(x) ==> x in Filter(s, p)
    ensures multiset(Filter(s, p)) <= multiset(s)
    decreases |s|
  {
    if s != [] {
      FilterMembers(s[1..], p);
      assert s == [s[0]] + s[1..];
    }
  }

  /** The number of rows satisfying `p`. */
  function Count<T>(s: seq<T>, p: T -> bool): nat
  {
    |Filter(s, p)|
  }

  lemma {:induction false} FilterAppend<T>(s: seq<T>, t: seq<T>, p: T -> bool)
    ensures Filter(s + t, p) == Filter(s, p) + Filter(t, p)
    decreases |s|
  {
    if s == [] {
      assert s + t == t;
    } else {
      assert (s + t)[1..] == s[1..] + t;
      FilterAppend(s[1..], t, p);
    }
  }

  /** Every row satisfies `p`: filtering keeps the table as it is. */
  lemma {:induction false} FilterAll<T>(s: seq<T>, p: T -> bool)
    requires forall i :: 0 <= i < |s| ==> p(s[i])
    ensures Filter(s, p) == s
    decreases |s|
  {
    if s != [] {
      FilterAll(s[1..], p);
    }
  }

  /** Filters that agree on every row give the same result. */
  lemma {:induction false} FilterExt<T>(s: seq<T>, p: T -> bool, q: T -> bool)
    requires forall i :: 0 <= i < |s| ==> p(s[i]) == q(s[i])
    ensures Filter(s, p) == Filter(s, q)
    decreases |s|
  {
    if s != [] {
      FilterExt(s[1..], p, q);
    }
  }

  /** No row satisfies `p`: the filter is empty. */
  lemma {:induction false} FilterNone<T>(s: seq<T>, p: T -> bool)
    requires forall i :: 0 <= i < |s| ==> !p(s[i])
    ensures Filter(s, p) == []
    decreases |s|
  {
    if s != [] {
      FilterNone(s[1..], p);
    }
  }

  /** Exactly the row at `i` satisfies `p`: the filter is that row alone. */
  lemma FilterSingleton<T>(s: seq<T>, p: T -> bool, i: nat)
    requires i < |s| && p(s[i])
    requires forall j :: 0 <= j < |s| && j != i ==> !p(s[j])
    ensures Filter(s, p) == [s[i]]
  {
    var a, b := s[..i], s[i + 1..];
    assert s == (a + [s[i]]) + b;
    OutsideIndexUnmatched(s, p, i);
    FilterSingle(s[i], p);
    FilterAppend(a, [s[i]], p);
    FilterAppend(a + [s[i]], b, p);
  }

  lemma OutsideIndexUnmatched<T>(s: seq<T>, p: T -> bool, i: nat)
    requires i < |s|
    requires forall j :: 0 <= j < |s| && j != i ==> !p(s[j])
    ensures Filter(s[..i], p) == [] && Filter(s[i + 1..], p) == []
  {
    var a, b := s[..i], s[i + 1..];
    assert forall j :: 0 <= j < |a| ==> a[j] == s[j];
    assert forall j :: 0 <= j < |b| ==> b[j] == s[i + 1 + j];
    FilterNone(a, p);
    FilterNone(b, p);
  }

  /** Filtering out the one unmatched element splices it out. */
  lemma FilterDropOne<T>(s: seq<T>, p: T -> bool, i: nat)
    requires i < |s| && !p(s[i])
    requires forall j :: 0 <= j < |s| && j != i ==> p(s[j])
    ensures Filter(s, p) == s[..i] + s[i + 1..]
  {
    var a, b := s[..i], s[i + 1..];
    assert s == (a + [s[i]]) + b;
    OutsideIndexMatched(s, p, i);
    FilterSingle(s[i], p);
    FilterAppend(a, [s[i]], p);
    assert Filter(a + [s[i]], p) == a;
    FilterAppend(a + [s[i]], b, p);
  }

  lemma OutsideIndexMatched<T>(s: seq<T>, p: T -> bool, i: nat)
    requires i < |s|
    requires forall j :: 0 <= j < |s| && j != i ==> p(s[j])
    ensures Filter(s[..i], p) == s[..i] && Filter(s[i + 1..], p) == s[i + 1..]
  {
    var a, b := s[..i], s[i + 1..];
    assert forall j :: 0 <= j < |a| ==> a[j] == s[j];
    assert forall j :: 0 <= j < |b| ==> b[j] == s[i + 1 + j];
    FilterAll(a, p);
    FilterAll(b, p);
  }

  lemma FilterSingle<T>(x: T, p: T -> bool)
    ensures Filter([x], p) == if p(x) then [x] else []
  {
    assert [x][1..] == [];
  }

  /** One more row adds one to the count exactly when it satisfies `p`. */
  lemma CountAppendOne<T>(s: seq<T>, x: T, p: T -> bool)
    ensures Count(s + [x], p) == Count(s, p) + (if p(x) then 1 else 0)
  {
    FilterAppend(s, [x], p);
    FilterSingle(x, p);
  }

  /** Replacing the row at `i` moves the count by what the old and new rows contribute. */
  lemma CountUpdate<T>(s: seq<T>, i: nat, x: T, p: T -> bool)
    requires i < |s|
    ensures Count(s[i := x], p)
            == Count(s, p) - (if p(s[i]) then 1 else 0) + (if p(x) then 1 else 0)
  {
    var a, b := s[..i], s[i + 1..];
    assert s == a + [s[i]] + b;
    assert s[i := x] == a + [x] + b;
    FilterAppend(a + [s[i]], b, p);
    FilterAppend(a, [s[i]], p);
    FilterAppend(a + [x], b, p);
    FilterAppend(a, [x], p);
    FilterSingle(x, p);
    FilterSingle(s[i], p);
  }

  /** Filtering twice by the same predicate is filtering once. */
  lemma {:induction false} FilterIdempotent<T>(s: seq<T>, p: T -> bool)
    ensures Filter(Filter(s, p), p) == Filter(s, p)
  {
    var r := Filter(s, p);
    FilterAll(r, p);
  }

  /** `key` does not increase along `s`. */
  ghost predicate SortedDesc<T>(s: seq<T>, key: T -> int)
  {
    forall i, j :: 0 <= i < j < |s| ==> key(s[i]) >= key(s[j])
  }

  /** `x` placed before the first row whose key is not larger than its own. */
  function InsertDesc<T>(x: T, s: seq<T>, key: T -> int): (r: seq<T>)
    ensures |r| == |s| + 1
    ensures r[0] == x || (s != [] && r[0] == s[0])
    decreases |s|
  {
    if s == [] then [x]
    else if key(x) > key(s[0]) then [x] + s
    else [s[0]] + InsertDesc(x, s[1..], key)
  }

  /** Inserting into a sorted table keeps it sorted. */
  lemma {:induction false} InsertDescSorted<T>(x: T, s: seq<T>, key: T -> int)
    requires SortedDesc(s, key)
    ensures SortedDesc(InsertDesc(x, s, key), key)
    decreases |s|
  {
    if s != [] && key(x) <= key(s[0]) {
      var tail := s[1..];
      InsertDescSorted(x, tail, key);
      var rest := InsertDesc(x, tail, key);
      var r := [s[0]] + rest;
      assert key(s[0]) >= key(rest[0]);
      forall i, j | 0 <= i < j < |r| ensures key(r[i]) >= key(r[j]) {
        if i == 0 && j > 1 {
          assert key(rest[0]) >= key(rest[j - 1]);
        }
      }
    }
  }

  /** Inserting adds exactly the one row. */
  lemma {:induction false} InsertDescPerm<T>(x: T, s: seq<T>, key: T -> int)
    ensures multiset(InsertDesc(x, s, key)) == multiset(s) + multiset{x}
    decreases |s|
  {
    if s != [] && key(x) <= key(s[0]) {
      InsertDescPerm(x, s[1..], key);
      assert s == [s[0]] + s[1..];
    }
  }

  /** `.order(column, { ascending: false })`: the rows, largest key first (insertion sort). */
  function SortDesc<T>(s: seq<T>, key: T -> int): (r: seq<T>)
    ensures |r| == |s|
    decreases |s|
  {
    if s == [] then [] else InsertDesc(s[0], SortDesc(s[1..], key), key)
  }

  /** The ordered rows are sorted by key and are the same rows. */
  lemma {:induction false} SortDescSortedPerm<T>(s: seq<T>, key: T -> int)
    ensures SortedDesc(SortDesc(s, key), key)
    ensures multiset(SortDesc(s, key)) == multiset(s)
    decreases |s|
  {
    if s != [] {
      SortDescSortedPerm(s[1..], key);
      InsertDescSorted(s[0], SortDesc(s[1..], key), key);
      InsertDescPerm(s[0], SortDesc(s[1..], key), key);
      assert s == [s[0]] + s[1..];
    }
  }

  /** `.range(from, to)`: the rows at positions `from` to `to`, both included. */
  function Range<T>(s: seq<T>, from: nat, to: int): (r: seq<T>)
    ensures |r| <= |s|
    ensures to + 1 <= |s| && from <= to + 1 ==> |r| == to + 1 - from
    ensures from <= |s| < to + 1 ==> |r| == |s| - from
    ensures forall k :: 0 <= k < |r| ==> from + k < |s| && r[k] == s[from + k]
  {
    var lo := if from <= |s| then from else |s|;
    var hi := if to + 1 < lo then lo else if to + 1 <= |s| then to + 1 else |s|;
    s[lo..hi]
  }
}
