/** An exchange of heroes, as it is written to the swap log, and when that records it. */
module Exchange {
  import opened Distinctness
  import opened Holdings
  import opened RosterPolicy

  /** Departures and arrivals paired by position, stopping at the shorter list. */
  function Zip(round: int, out: seq<int>, into: seq<int>): seq<Swap> {
    if out == [] || into == [] then [] else [Swap(round, out[0], into[0])] + Zip(round, out[1..], into[1..])
  }

  function Exchanges(round: int, held: seq<int>, proposed: seq<int>): seq<Swap> {
    Zip(round, Missing(held, proposed), Missing(proposed, held))
  }

  lemma {:induction false} MissingIsDistinct(from: seq<int>, other: seq<int>)
    requires Distinct(from)
    ensures Distinct(Missing(from, other)) && Members(Missing(from, other)) == Members(from) - Members(other)
  {
    if from != [] {
      var init := from[..|from| - 1];
      MissingIsDistinct(init, other);
      assert from[|from| - 1] !in init;
    }
  }

  /** Departures and arrivals are listed as the rosters list them. */
  lemma {:induction false} MissingInOrder(front: seq<int>, back: seq<int>, other: seq<int>)
    ensures Missing(front + back, other) == Missing(front, other) + Missing(back, other)
  {
    if back == [] {
      assert front + back == front;
    } else {
      assert (front + back)[..|front + back| - 1] == front + back[..|back| - 1];
      MissingInOrder(front, back[..|back| - 1], other);
    }
  }

  lemma {:induction false} ZipAt(round: int, out: seq<int>, into: seq<int>)
    ensures |Zip(round, out, into)| == (if |out| < |into| then |out| else |into|)
    ensures forall k :: 0 <= k < |Zip(round, out, into)| ==> Zip(round, out, into)[k] == Swap(round, out[k], into[k])
  {
    if out != [] && into != [] {
      ZipAt(round, out[1..], into[1..]);
    }
  }

  /** The log after part of a submission has been appended. */
  lemma {:induction false} PartialExchange(
      opening: set<int>, log: seq<Swap>, round: int, out: seq<int>, into: seq<int>, k: nat)
    requires Distinct(out) && Distinct(into) && Members(out) !! Members(into)
    requires Members(out) <= AfterAll(opening, log) && Members(into) !! AfterAll(opening, log)
    requires k <= |Zip(round, out, into)| && k <= |out| && k <= |into|
    ensures AfterAll(opening, log + Zip(round, out, into)[..k])
            == AfterAll(opening, log) - Members(out[..k]) + Members(into[..k])
  {
    ZipAt(round, out, into);
    var z := Zip(round, out, into);
    if k == 0 {
      assert log + z[..0] == log;
    } else {
      PartialExchange(opening, log, round, out, into, k - 1);
      var longer := log + z[..k];
      assert longer[..|longer| - 1] == log + z[..k - 1];
      assert z[k - 1] == Swap(round, out[k - 1], into[k - 1]);
      NotArrivingYet(out, into, k);
      OneMoreMember(out, k);
      OneMoreMember(into, k);
      hide Distinct, Members, Zip;
      OneMoreTrade(AfterAll(opening, log), Members(out[..k - 1]), Members(into[..k - 1]), z[k - 1]);
    }
  }

  lemma NotArrivingYet(out: seq<int>, into: seq<int>, k: nat)
    requires Members(out) !! Members(into) && 0 < k <= |out| && k <= |into|
    ensures out[k - 1] !in Members(into[..k - 1])
  {
    assert out[k - 1] in Members(out);
    assert forall x :: x in into[..k - 1] ==> x in Members(into);
  }

  lemma OneMoreMember(s: seq<int>, k: nat)
    requires 0 < k <= |s|
    ensures Members(s[..k]) == Members(s[..k - 1]) + {s[k - 1]}
  {
    assert s[..k] == s[..k - 1] + [s[k - 1]];
  }

  lemma OneMoreTrade(held: set<int>, gone: set<int>, come: set<int>, swap: Swap)
    requires swap.heroOut !in come
    ensures After(held - gone + come, swap) == held - (gone + {swap.heroOut}) + (come + {swap.heroIn})
  {
  }

  lemma ArrivalsEqualDepartures(held: seq<int>, proposed: seq<int>)
    requires Distinct(held) && Distinct(proposed)
    ensures |Missing(held, proposed)| == |Missing(proposed, held)| <==> |held| == |proposed|
  {
    MissingIsDistinct(held, proposed);
    MissingIsDistinct(proposed, held);
    SetSize(held);
    SetSize(proposed);
    SetSize(Missing(held, proposed));
    SetSize(Missing(proposed, held));
    var a, b := Members(held), Members(proposed);
    assert |a - b| == |a| - |a * b|;
    assert |b - a| == |b| - |b * a|;
    assert a * b == b * a;
  }

  /**
  What a submission logs turns the roster held into the roster proposed exactly when the two are
  the same size.  `validate_swap` compares the proposal with the tournament's roster size, so this
  is whether the roster held already has that size.
  */
  lemma ExchangesRecordTheSubmission(opening: set<int>, log: seq<Swap>, round: int, held: seq<int>, proposed: seq<int>)
    requires Distinct(held) && Distinct(proposed) && Members(held) == AfterAll(opening, log)
    ensures AfterAll(opening, log + Exchanges(round, held, proposed)) == Members(proposed) <==> |held| == |proposed|
  {
    var out, into := Missing(held, proposed), Missing(proposed, held);
    MissingIsDistinct(held, proposed);
    MissingIsDistinct(proposed, held);
    ArrivalsEqualDepartures(held, proposed);
    ZipAt(round, out, into);
    var z := Zip(round, out, into);
    PartialExchange(opening, log, round, out, into, |z|);
    assert z[..|z|] == z;
    if |out| == |into| {
      assert out[..|z|] == out && into[..|z|] == into;
    } else if |out| > |into| {
      assert out[|z|] in Members(out) && out[|z|] !in out[..|z|];
    } else {
      assert into[|z|] in Members(into) && into[|z|] !in into[..|z|];
    }
  }

  /** Each of the swaps a submission logs takes out a hero still held and brings in one not held. */
  lemma NextExchangeFits(opening: set<int>, log: seq<Swap>, round: int, held: seq<int>, proposed: seq<int>, m: nat)
    requires Distinct(held) && Distinct(proposed) && Members(held) == AfterAll(opening, log)
    requires m < |Exchanges(round, held, proposed)|
    ensures var z := Exchanges(round, held, proposed);
      var roster := AfterAll(opening, log + z[..m]);
      z[m].heroOut in roster && z[m].heroIn !in roster
  {
    var out, into := Missing(held, proposed), Missing(proposed, held);
    MissingIsDistinct(held, proposed);
    MissingIsDistinct(proposed, held);
    ZipAt(round, out, into);
    PartialExchange(opening, log, round, out, into, m);
    hide Zip, AfterAll;
    assert out[m] in Members(out) && out[m] !in out[..m];
    assert into[m] in Members(into) && into[m] !in into[..m];
    assert out[m] !in Members(into);
  }

  lemma ExchangesKeepTheLogWellFormed(
      opening: set<int>, log: seq<Swap>, round: int, held: seq<int>, proposed: seq<int>)
    requires WellFormed(opening, log) && Distinct(held) && Distinct(proposed)
    requires Members(held) == AfterAll(opening, log)
    requires round >= 1 && forall k :: 0 <= k < |log| ==> log[k].round <= round
    ensures WellFormed(opening, log + Exchanges(round, held, proposed))
  {
    var z := Exchanges(round, held, proposed);
    ZipAt(round, Missing(held, proposed), Missing(proposed, held));
    hide Distinct, Members, AfterAll, Zip;
    var all := log + z;
    forall k | 0 <= k < |all|
      ensures var roster := AfterAll(opening, all[..k]); all[k].heroOut in roster && all[k].heroIn !in roster
    {
      if k < |log| {
        assert all[..k] == log[..k];
      } else {
        assert all[..k] == log + z[..k - |log|];
        NextExchangeFits(opening, log, round, held, proposed, k - |log|);
      }
    }
  }

  /** A submission logs something exactly when it changes who is on the roster. */
  lemma LoggedIffChanged(round: int, held: seq<int>, proposed: seq<int>)
    requires Distinct(held) && Distinct(proposed) && |held| == |proposed|
    ensures Exchanges(round, held, proposed) == [] <==> Members(proposed) == Members(held)
    ensures |Exchanges(round, held, proposed)| == |Missing(proposed, held)|
    ensures forall k :: 0 <= k < |Exchanges(round, held, proposed)| ==>
              Exchanges(round, held, proposed)[k].round == round
  {
    var out, into := Missing(held, proposed), Missing(proposed, held);
    ArrivalsEqualDepartures(held, proposed);
    ZipAt(round, out, into);
    MissingIsDistinct(held, proposed);
    MissingIsDistinct(proposed, held);
    EmptyIffNoMembers(out);
    EmptyIffNoMembers(into);
    assert Members(out) == Members(held) - Members(proposed);
    assert Members(into) == Members(proposed) - Members(held);
  }

  lemma EmptyIffNoMembers(s: seq<int>)
    ensures s == [] <==> Members(s) == {}
  {
    if s != [] {
      assert s[0] in Members(s);
    }
  }
}
