/**
Standard competition ranking: best mark first, names ordering rows within a tie, and a rank that
counts how many rows did strictly better.  Names are represented by their place in byte order.
*/
module Ranking {
  import opened Ordering

  /** Points alone, or titles and then podiums. */
  datatype Mark = Mark(major: int, minor: int) {
    predicate Beats(other: Mark) {
      major > other.major || (major == other.major && minor > other.minor)
    }
  }

  /** How a table reads its rows. */
  datatype Columns<!T> = Columns(mark: T -> Mark, name: T -> int)

  /** The sort's comparison: not strictly after. */
  predicate Before<T(!new)>(view: Columns<T>, a: T, b: T) {
    view.mark(a).Beats(view.mark(b)) || (view.mark(a) == view.mark(b) && view.name(a) <= view.name(b))
  }

  function Precedes<T(!new)>(view: Columns<T>): (T, T) -> bool { (a, b) => Before(view, a, b) }

  /** A stable sort: a later row goes after every row it does not strictly precede. */
  function Sort<T(!new)>(view: Columns<T>, rows: seq<T>): seq<T> { Ordering.Sort(Precedes(view), rows) }

  ghost predicate IsSorted<T(!new)>(view: Columns<T>, rows: seq<T>) {
    forall i, j :: 0 <= i < j < |rows| ==> Before(view, rows[i], rows[j])
  }

  /** How many rows did strictly better than a mark. */
  function Better<T(!new)>(view: Columns<T>, rows: seq<T>, mark: Mark): nat {
    if rows == [] then 0
    else Better(view, rows[..|rows| - 1], mark) + (if view.mark(rows[|rows| - 1]).Beats(mark) then 1 else 0)
  }

  function RankOf<T(!new)>(view: Columns<T>, rows: seq<T>, row: T): nat {
    1 + Better(view, rows, view.mark(row))
  }

  /** Sorts the rows in place and then walks them once, starting a new rank where the mark changes. */
  method CompetitionRank<T(!new)>(view: Columns<T>, rows: array<T>) returns (ranks: array<nat>)
    modifies rows
    ensures fresh(ranks) && ranks.Length == rows.Length
    ensures rows[..] == Sort(view, old(rows[..]))
    ensures forall i :: 0 <= i < rows.Length ==> ranks[i] == RankOf(view, old(rows[..]), rows[i])
  {
    hide Sort, IsSorted;
    ghost var before := rows[..];
    var sorted := Sort(view, rows[..]);
    SortIsRight(view, before);
    assert |sorted| == rows.Length by { assert |multiset(sorted)| == |multiset(before)|; }
    forall i | 0 <= i < rows.Length {
      rows[i] := sorted[i];
    }
    assert rows[..] == sorted;
    ranks := new nat[rows.Length];
    var current, previous := 0, Mark(0, 0);
    for index := 0 to rows.Length
      invariant rows[..] == sorted
      invariant index > 0 ==> previous == view.mark(sorted[index - 1])
      invariant index > 0 ==> current == RankOf(view, sorted, sorted[index - 1])
      invariant forall i :: 0 <= i < index ==> ranks[i] == RankOf(view, sorted, sorted[i])
    {
      var mark := view.mark(rows[index]);
      if index == 0 || previous != mark {
        NewScoreStartsARank(view, sorted, index);
        current := index + 1;
        previous := mark;
      }
      ranks[index] := current;
    }
    forall i | 0 <= i < rows.Length ensures ranks[i] == RankOf(view, before, rows[i]) {
      BetterIsAboutMembers(view, sorted, before, view.mark(sorted[i]));
    }
  }

  // ---------------------------------------------------------------- sorting

  /** Sorting permutes the rows into order. */
  lemma SortIsRight<T(!new)>(view: Columns<T>, rows: seq<T>)
    ensures IsSorted(view, Sort(view, rows)) && multiset(Sort(view, rows)) == multiset(rows)
  {
    Ordering.SortIsRight(Precedes(view), rows);
    var sorted := Sort(view, rows);
    forall i, j | 0 <= i < j < |sorted| ensures Before(view, sorted[i], sorted[j]) {
      assert Precedes(view)(sorted[i], sorted[j]);
    }
  }

  // ---------------------------------------------------------------- counting the better ones

  lemma {:induction false} BetterConcat<T(!new)>(view: Columns<T>, a: seq<T>, b: seq<T>, mark: Mark)
    ensures Better(view, a + b, mark) == Better(view, a, mark) + Better(view, b, mark)
  {
    if b == [] {
      assert a + b == a;
    } else {
      assert (a + b)[..|a + b| - 1] == a + b[..|b| - 1];
      BetterConcat(view, a, b[..|b| - 1], mark);
    }
  }

  lemma BetterWithoutOne<T(!new)>(view: Columns<T>, rows: seq<T>, k: nat, mark: Mark)
    requires k < |rows|
    ensures multiset(rows) == multiset(rows[..k] + rows[k + 1..]) + multiset{rows[k]}
    ensures Better(view, rows, mark)
            == Better(view, rows[..k] + rows[k + 1..], mark) + (if view.mark(rows[k]).Beats(mark) then 1 else 0)
  {
    var x, one, y := rows[..k], [rows[k]], rows[k + 1..];
    assert rows == x + one + y;
    assert one[..0] == [];
    BetterConcat(view, x, y, mark);
    BetterConcat(view, x + one, y, mark);
    BetterConcat(view, x, one, mark);
  }

  lemma Cancel<T>(a: multiset<T>, b: multiset<T>, x: T)
    requires a + multiset{x} == b + multiset{x}
    ensures a == b
  {
    assert a == (a + multiset{x}) - multiset{x};
    assert b == (b + multiset{x}) - multiset{x};
  }

  /** The count does not depend on the order of the rows. */
  lemma {:induction false} BetterIsAboutMembers<T(!new)>(view: Columns<T>, a: seq<T>, b: seq<T>, mark: Mark)
    requires multiset(a) == multiset(b)
    ensures Better(view, a, mark) == Better(view, b, mark)
    decreases |a|
  {
    if a == [] {
      assert |multiset(b)| == 0;
    } else {
      var init, last := a[..|a| - 1], a[|a| - 1];
      assert a == init + [last];
      assert multiset(a) == multiset(init) + multiset{last};
      assert last in multiset(b);
      var k :| 0 <= k < |b| && b[k] == last;
      BetterWithoutOne(view, b, k, mark);
      Cancel(multiset(init), multiset(b[..k] + b[k + 1..]), last);
      BetterIsAboutMembers(view, init, b[..k] + b[k + 1..], mark);
    }
  }

  lemma {:induction false} BetterWhenAll<T(!new)>(view: Columns<T>, rows: seq<T>, mark: Mark)
    requires forall i :: 0 <= i < |rows| ==> view.mark(rows[i]).Beats(mark)
    ensures Better(view, rows, mark) == |rows|
  {
    if rows != [] {
      BetterWhenAll(view, rows[..|rows| - 1], mark);
    }
  }

  lemma {:induction false} BetterWhenNone<T(!new)>(view: Columns<T>, rows: seq<T>, mark: Mark)
    requires forall i :: 0 <= i < |rows| ==> !view.mark(rows[i]).Beats(mark)
    ensures Better(view, rows, mark) == 0
  {
    if rows != [] {
      BetterWhenNone(view, rows[..|rows| - 1], mark);
    }
  }

  /** In sorted order, the first row of a mark has exactly the rows above it beating it. */
  lemma NewScoreStartsARank<T(!new)>(view: Columns<T>, rows: seq<T>, i: nat)
    requires IsSorted(view, rows) && i < |rows|
    requires i > 0 ==> view.mark(rows[i - 1]) != view.mark(rows[i])
    ensures RankOf(view, rows, rows[i]) == i + 1
  {
    var mark := view.mark(rows[i]);
    forall k | 0 <= k < i ensures view.mark(rows[k]).Beats(mark) {
      assert Before(view, rows[i - 1], rows[i]);
      if k < i - 1 { assert Before(view, rows[k], rows[i - 1]); }
    }
    forall k | i <= k < |rows| ensures !view.mark(rows[k]).Beats(mark) {
      if i < k { assert Before(view, rows[i], rows[k]); }
    }
    assert rows == rows[..i] + rows[i..];
    BetterConcat(view, rows[..i], rows[i..], mark);
    BetterWhenAll(view, rows[..i], mark);
    BetterWhenNone(view, rows[i..], mark);
  }

  lemma {:induction false} BetterIsMonotone<T(!new)>(view: Columns<T>, rows: seq<T>, high: Mark, low: Mark)
    requires high.Beats(low)
    ensures Better(view, rows, high) <= Better(view, rows, low)
    ensures (exists i :: 0 <= i < |rows| && view.mark(rows[i]) == high) ==>
              Better(view, rows, high) < Better(view, rows, low)
  {
    if rows != [] {
      var init := rows[..|rows| - 1];
      BetterIsMonotone(view, init, high, low);
      if i :| 0 <= i < |rows| && view.mark(rows[i]) == high {
        if i < |init| { assert init[i] == rows[i]; }
      }
    }
  }

  /** Two rows share a rank exactly when they share a mark, and a better mark ranks strictly higher. */
  lemma RanksFollowScores<T(!new)>(view: Columns<T>, rows: seq<T>, a: T, b: T)
    requires a in rows && b in rows
    ensures RankOf(view, rows, a) == RankOf(view, rows, b) <==> view.mark(a) == view.mark(b)
    ensures RankOf(view, rows, a) < RankOf(view, rows, b) <==> view.mark(a).Beats(view.mark(b))
  {
    if view.mark(a).Beats(view.mark(b)) {
      BetterIsMonotone(view, rows, view.mark(a), view.mark(b));
    } else if view.mark(b).Beats(view.mark(a)) {
      BetterIsMonotone(view, rows, view.mark(b), view.mark(a));
    }
  }

  // ---------------------------------------------------------------- podiums

  /** The rows of a rank no worse than `depth`, in the board's order. */
  function Podium<T(!new)>(view: Columns<T>, board: seq<T>, all: seq<T>, depth: nat): seq<T> {
    if board == [] then []
    else
      var before, last := Podium(view, board[..|board| - 1], all, depth), board[|board| - 1];
      if RankOf(view, all, last) <= depth then before + [last] else before
  }

  /** A podium is a prefix of the board that splits no tie: it ends only where the mark drops. */
  lemma {:induction false} PodiumIsAPrefix<T(!new)>(view: Columns<T>, all: seq<T>, k: nat, depth: nat)
    requires IsSorted(view, all) && k <= |all|
    ensures var p := Podium(view, all[..k], all, depth);
      && p <= all[..k]
      && (forall i :: |p| <= i < k ==> RankOf(view, all, all[i]) > depth)
      && (forall i, j :: 0 <= i < |p| <= j < k ==> view.mark(all[i]).Beats(view.mark(all[j])))
  {
    if k > 0 {
      PodiumIsAPrefix(view, all, k - 1, depth);
      assert all[..k][..k - 1] == all[..k - 1];
      var p := Podium(view, all[..k - 1], all, depth);
      if RankOf(view, all, all[k - 1]) <= depth {
        if |p| < k - 1 {
          assert Before(view, all[|p|], all[k - 1]);
          RanksFollowScores(view, all, all[|p|], all[k - 1]);
        }
        assert p == all[..k - 1];
        assert p + [all[k - 1]] == all[..k];
      } else {
        forall i | 0 <= i < |p| ensures view.mark(all[i]).Beats(view.mark(all[k - 1])) {
          assert all[i] == p[i];
          PodiumRanks(view, all[..k - 1], all, depth, i);
          RanksFollowScores(view, all, all[i], all[k - 1]);
        }
      }
    }
  }

  lemma {:induction false} PodiumRanks<T(!new)>(view: Columns<T>, board: seq<T>, all: seq<T>, depth: nat, i: nat)
    requires i < |Podium(view, board, all, depth)|
    ensures RankOf(view, all, Podium(view, board, all, depth)[i]) <= depth
  {
    if board != [] {
      var init := board[..|board| - 1];
      if i < |Podium(view, init, all, depth)| {
        PodiumRanks(view, init, all, depth, i);
      }
    }
  }
}
