/** Finite sums over sequences, and how they rearrange. */
module Sums {

  function Sum<T(!new)>(s: seq<T>, f: T -> int): int {
    if s == [] then 0 else Sum(s[..|s| - 1], f) + f(s[|s| - 1])
  }

  lemma {:induction false} SumConcat<T(!new)>(a: seq<T>, b: seq<T>, f: T -> int)
    ensures Sum(a + b, f) == Sum(a, f) + Sum(b, f)
  {
    if b == [] {
      assert a + b == a;
    } else {
      assert (a + b)[..|a + b| - 1] == a + b[..|b| - 1];
      SumConcat(a, b[..|b| - 1], f);
    }
  }

  lemma {:induction false} SumSame<T(!new)>(s: seq<T>, f: T -> int, g: T -> int)
    requires forall x :: x in s ==> f(x) == g(x)
    ensures Sum(s, f) == Sum(s, g)
  {
    if s != [] {
      SumSame(s[..|s| - 1], f, g);
    }
  }

  lemma {:induction false} SumZero<T(!new)>(s: seq<T>, f: T -> int)
    requires forall x :: x in s ==> f(x) == 0
    ensures Sum(s, f) == 0
  {
    if s != [] {
      SumZero(s[..|s| - 1], f);
    }
  }

  lemma {:induction false} SumUpdate<T(!new)>(s: seq<T>, f: T -> int, k: nat, x: T)
    requires k < |s|
    ensures Sum(s[k := x], f) == Sum(s, f) - f(s[k]) + f(x)
  {
    var n := |s| - 1;
    if k == n {
      assert s[k := x][..n] == s[..n];
    } else {
      assert s[k := x][..n] == s[..n][k := x];
      SumUpdate(s[..n], f, k, x);
    }
  }

  /** A sum with one term that counts. */
  lemma {:induction false} SumSpike<T(!new)>(s: seq<T>, f: T -> int, k: nat)
    requires k < |s| && forall i :: 0 <= i < |s| && i != k ==> f(s[i]) == 0
    ensures Sum(s, f) == f(s[k])
  {
    var init := s[..|s| - 1];
    if k < |init| {
      SumSpike(init, f, k);
    } else {
      forall x | x in init ensures f(x) == 0 {
        var i :| 0 <= i < |init| && init[i] == x;
        assert f(s[i]) == 0;
      }
      SumZero(init, f);
    }
  }

  function First<A(!new), B(!new)>(g: (A, B) -> int, a: A): B -> int { b => g(a, b) }

  function Second<A(!new), B(!new)>(g: (A, B) -> int, b: B): A -> int { a => g(a, b) }

  function Rows<A(!new), B(!new)>(t: seq<B>, g: (A, B) -> int): A -> int { a => Sum(t, First(g, a)) }

  function Cols<A(!new), B(!new)>(s: seq<A>, g: (A, B) -> int): B -> int { b => Sum(s, Second(g, b)) }

  lemma {:induction false} SumSplit<T(!new)>(s: seq<T>, h: T -> int, f: T -> int, g: T -> int)
    requires forall x :: x in s ==> h(x) == f(x) + g(x)
    ensures Sum(s, h) == Sum(s, f) + Sum(s, g)
  {
    if s != [] {
      SumSplit(s[..|s| - 1], h, f, g);
    }
  }

  /** A double sum may be taken in either order. */
  lemma {:induction false} SumSwap<A(!new), B(!new)>(s: seq<A>, t: seq<B>, g: (A, B) -> int)
    ensures Sum(s, Rows(t, g)) == Sum(t, Cols(s, g))
  {
    if s == [] {
      SumZero(t, Cols(s, g));
    } else {
      var init, last := s[..|s| - 1], s[|s| - 1];
      SumSwap(init, t, g);
      SumSplit(t, Cols(s, g), Cols(init, g), First(g, last));
    }
  }
}
