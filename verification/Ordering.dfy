/** Stable sorting, by any preorder and by an integer key, and why a strict order is arranged only one way. */
module Ordering {
  import opened Sums

  /** Puts a row after every row it does not strictly precede. */
  function Insert<T(!new)>(le: (T, T) -> bool, sorted: seq<T>, row: T): seq<T> {
    if sorted == [] then [row]
    else if le(sorted[|sorted| - 1], row) then sorted + [row]
    else Insert(le, sorted[..|sorted| - 1], row) + [sorted[|sorted| - 1]]
  }

  function Sort<T(!new)>(le: (T, T) -> bool, rows: seq<T>): seq<T> {
    if rows == [] then [] else Insert(le, Sort(le, rows[..|rows| - 1]), rows[|rows| - 1])
  }

  ghost predicate Ordered<T(!new)>(before: (T, T) -> bool, rows: seq<T>) {
    forall i, j :: 0 <= i < j < |rows| ==> before(rows[i], rows[j])
  }

  ghost predicate Preorder<T(!new)>(le: (T, T) -> bool) {
    && (forall a, b :: le(a, b) || le(b, a))
    && forall a, b, c :: le(a, b) && le(b, c) ==> le(a, c)
  }

  lemma {:induction false} InsertPermutes<T(!new)>(le: (T, T) -> bool, sorted: seq<T>, row: T)
    ensures multiset(Insert(le, sorted, row)) == multiset(sorted) + multiset{row}
    ensures forall x :: x in Insert(le, sorted, row) <==> x in sorted || x == row
  {
    if sorted != [] {
      InsertPermutes(le, sorted[..|sorted| - 1], row);
      WithoutLast(sorted);
    }
  }

  lemma {:induction false} InsertSorts<T(!new)>(le: (T, T) -> bool, sorted: seq<T>, row: T)
    requires Preorder(le) && Ordered(le, sorted)
    ensures Ordered(le, Insert(le, sorted, row))
  {
    if sorted != [] {
      var init, last := sorted[..|sorted| - 1], sorted[|sorted| - 1];
      if le(last, row) {
        assert forall i :: 0 <= i < |init| ==> le(sorted[i], last);
      } else {
        InsertSorts(le, init, row);
        InsertPermutes(le, init, row);
        var r := Insert(le, init, row);
        forall i | 0 <= i < |r| ensures le(r[i], last) {
          assert r[i] in r;
          if r[i] in init {
            var k :| 0 <= k < |init| && init[k] == r[i];
            assert le(sorted[k], sorted[|sorted| - 1]);
          }
        }
      }
    }
  }

  /** Sorting permutes the rows into order. */
  lemma {:induction false} SortIsRight<T(!new)>(le: (T, T) -> bool, rows: seq<T>)
    requires Preorder(le)
    ensures Ordered(le, Sort(le, rows)) && multiset(Sort(le, rows)) == multiset(rows)
    ensures |Sort(le, rows)| == |rows|
  {
    if rows != [] {
      var init, last := rows[..|rows| - 1], rows[|rows| - 1];
      SortIsRight(le, init);
      hide Preorder, Ordered, Insert;
      InsertSorts(le, Sort(le, init), last);
      InsertPermutes(le, Sort(le, init), last);
      WithoutLast(rows);
    }
    SameLength(Sort(le, rows), rows);
  }

  lemma {:induction false} InsertSum<T(!new)>(le: (T, T) -> bool, sorted: seq<T>, row: T, f: T -> int)
    ensures Sum(Insert(le, sorted, row), f) == Sum(sorted, f) + f(row)
  {
    if sorted != [] {
      var init, last := sorted[..|sorted| - 1], sorted[|sorted| - 1];
      InsertSum(le, init, row, f);
      if le(last, row) {
        assert (sorted + [row])[..|sorted|] == sorted;
      } else {
        var r := Insert(le, init, row);
        assert (r + [last])[..|r|] == r;
      }
    }
  }

  /** Sorting leaves every sum over the rows as it was. */
  lemma {:induction false} SortSum<T(!new)>(le: (T, T) -> bool, rows: seq<T>, f: T -> int)
    ensures Sum(Sort(le, rows), f) == Sum(rows, f)
  {
    if rows != [] {
      var init := rows[..|rows| - 1];
      SortSum(le, init, f);
      InsertSum(le, Sort(le, init), rows[|rows| - 1], f);
    }
  }

  // ---------------------------------------------------------------- by a key

  function ByKey<T(!new)>(key: T -> int): (T, T) -> bool { (a, b) => key(a) <= key(b) }

  function SortBy<T(!new)>(key: T -> int, rows: seq<T>): seq<T> { Sort(ByKey(key), rows) }

  ghost predicate Ascending<T(!new)>(key: T -> int, rows: seq<T>) {
    forall i, j :: 0 <= i < j < |rows| ==> key(rows[i]) <= key(rows[j])
  }

  ghost predicate StrictlyAscending<T(!new)>(key: T -> int, rows: seq<T>) {
    forall i, j :: 0 <= i < j < |rows| ==> key(rows[i]) < key(rows[j])
  }

  lemma SortByIsRight<T(!new)>(key: T -> int, rows: seq<T>)
    ensures Ascending(key, SortBy(key, rows)) && multiset(SortBy(key, rows)) == multiset(rows)
    ensures |SortBy(key, rows)| == |rows|
  {
    SortIsRight(ByKey(key), rows);
    var sorted := SortBy(key, rows);
    forall i, j | 0 <= i < j < |sorted| ensures key(sorted[i]) <= key(sorted[j]) {
      assert ByKey(key)(sorted[i], sorted[j]);
    }
  }

  lemma SortByMembers<T(!new)>(key: T -> int, rows: seq<T>)
    ensures forall row :: row in SortBy(key, rows) <==> row in rows
  {
    SortByIsRight(key, rows);
    forall row ensures row in SortBy(key, rows) <==> row in rows {
      assert row in multiset(SortBy(key, rows)) <==> row in multiset(rows);
    }
  }

  lemma SortBySum<T(!new)>(key: T -> int, rows: seq<T>, f: T -> int)
    ensures Sum(SortBy(key, rows), f) == Sum(rows, f)
  {
    SortSum(ByKey(key), rows, f);
  }

  // ---------------------------------------------------------------- one arrangement

  ghost predicate Asymmetric<T(!new)>(before: (T, T) -> bool) {
    forall x, y :: before(x, y) ==> !before(y, x)
  }

  /** Under an asymmetric order the same rows can be arranged in order in only one way. */
  lemma {:induction false} SortedOnce<T(!new)>(before: (T, T) -> bool, a: seq<T>, b: seq<T>)
    requires Asymmetric(before)
    requires Ordered(before, a) && Ordered(before, b) && multiset(a) == multiset(b)
    ensures a == b
    decreases |a|
  {
    SameLength(a, b);
    if a != [] {
      LastIsLast(before, a, b);
      WithoutLast(a);
      WithoutLast(b);
      var p, q := a[..|a| - 1], b[..|b| - 1];
      assert Ordered(before, p) && Ordered(before, q);
      hide Ordered, Asymmetric;
      SortedOnce(before, p, q);
    }
  }

  lemma WithoutLast<T>(s: seq<T>)
    requires s != []
    ensures s == s[..|s| - 1] + [s[|s| - 1]]
    ensures multiset(s[..|s| - 1]) == multiset(s) - multiset{s[|s| - 1]}
  {
    assert s == s[..|s| - 1] + [s[|s| - 1]];
  }

  lemma SameLength<T>(a: seq<T>, b: seq<T>)
    requires multiset(a) == multiset(b)
    ensures |a| == |b|
  {
    assert |multiset(a)| == |multiset(b)|;
  }

  lemma LastIsLast<T(!new)>(before: (T, T) -> bool, a: seq<T>, b: seq<T>)
    requires Asymmetric(before)
    requires Ordered(before, a) && Ordered(before, b) && multiset(a) == multiset(b) && |a| == |b| > 0
    ensures a[|a| - 1] == b[|b| - 1]
  {
    var n := |a| - 1;
    var x, y := a[n], b[n];
    assert x in multiset(b) && y in multiset(a);
    var k :| 0 <= k <= n && b[k] == x;
    var j :| 0 <= j <= n && a[j] == y;
  }

  /** Rows already in strict order are what sorting any arrangement of them gives. */
  lemma SortByFinds<T(!new)>(key: T -> int, rows: seq<T>, sorted: seq<T>)
    requires multiset(rows) == multiset(sorted) && StrictlyAscending(key, sorted)
    ensures SortBy(key, rows) == sorted
  {
    SortByIsRight(key, rows);
    var r := SortBy(key, rows);
    forall i, j | 0 <= i < j < |r| ensures key(r[i]) < key(r[j]) {
      NoKeyTwice(key, sorted, r, i, j);
    }
    SortedOnce((x: T, y: T) => key(x) < key(y), r, sorted);
  }

  lemma NoKeyTwice<T(!new)>(key: T -> int, sorted: seq<T>, r: seq<T>, i: nat, j: nat)
    requires multiset(r) == multiset(sorted) && StrictlyAscending(key, sorted) && i < j < |r|
    ensures key(r[i]) != key(r[j])
  {
    assert r[i] in multiset(sorted) && r[j] in multiset(sorted);
    var p :| 0 <= p < |sorted| && sorted[p] == r[i];
    var q :| 0 <= q < |sorted| && sorted[q] == r[j];
    OnceCountsOne(sorted, p);
    if r[i] == r[j] {
      TwiceCountsTwo(r, i, j);
    }
  }

  lemma TwiceCountsTwo<T>(r: seq<T>, i: nat, j: nat)
    requires i < j < |r| && r[i] == r[j]
    ensures multiset(r)[r[i]] >= 2
  {
    assert r == r[..j] + r[j..];
    assert r[i] == r[..j][i] && r[j] == r[j..][0];
    assert r[i] in multiset(r[..j]) && r[i] in multiset(r[j..]);
  }

  lemma OnceCountsOne<T>(s: seq<T>, p: nat)
    requires p < |s| && forall k :: 0 <= k < |s| && k != p ==> s[k] != s[p]
    ensures multiset(s)[s[p]] == 1
  {
    assert s == s[..p] + [s[p]] + s[p + 1..];
    assert s[p] !in s[..p] && s[p] !in s[p + 1..];
    assert s[p] !in multiset(s[..p]) && s[p] !in multiset(s[p + 1..]);
  }
}
