/** Sequences without repeats, their members, and sums in which one member counts. */
module Distinctness {
  import opened Sums

  ghost predicate Distinct<T(!new)>(s: seq<T>) {
    forall i, j :: 0 <= i < j < |s| ==> s[i] != s[j]
  }

  function Members<T(==)>(s: seq<T>): set<T> {
    set x | x in s
  }

  /** A sequence has as many members as places exactly when none is repeated. */
  lemma {:induction false} SetSize(values: seq<int>)
    ensures |Members(values)| <= |values|
    ensures |Members(values)| == |values| <==> Distinct(values)
  {
    if values != [] {
      var init, last := values[..|values| - 1], values[|values| - 1];
      SetSize(init);
      assert Members(values) == Members(init) + {last};
      if last in init {
        var k :| 0 <= k < |init| && init[k] == last;
        assert values[k] == values[|values| - 1];
      } else if Distinct(init) {
        assert forall i :: 0 <= i < |init| ==> values[i] == init[i];
      } else {
        var i, j :| 0 <= i < j < |init| && init[i] == init[j];
        assert values[i] == values[j];
      }
    }
  }

  lemma SumAtMostOnce(values: seq<int>, f: int -> int, value: int)
    requires Distinct(values) && forall x :: x in values && x != value ==> f(x) == 0
    ensures Sum(values, f) == (if value in values then f(value) else 0)
  {
    if value in values {
      var k :| 0 <= k < |values| && values[k] == value;
      forall i | 0 <= i < |values| && i != k ensures f(values[i]) == 0 {
        assert values[i] in values && values[i] != values[k];
      }
      SumSpike(values, f, k);
    } else {
      forall x | x in values ensures f(x) == 0 {
        assert x != value;
      }
      SumZero(values, f);
    }
  }
}
