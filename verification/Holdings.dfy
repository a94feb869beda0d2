/**
Which heroes an entry held, over which rounds, rebuilt from the roster held now and the swap log.
*/
module Holdings {
  import opened Options
  import opened Distinctness

  datatype Swap = Swap(round: int, heroOut: int, heroIn: int)

  /** A stretch of rounds; `untilRound` is exclusive, and absent for a hero that has not left. */
  datatype Holding = Holding(hero: int, fromRound: int, untilRound: Option<int>) {
    predicate Covers(round: int) {
      round >= fromRound && (untilRound.None? || round < untilRound.value)
    }
  }

  // ---------------------------------------------------------------- what history means

  /** The roster after one swap. */
  function After(roster: set<int>, swap: Swap): set<int> {
    roster - {swap.heroOut} + {swap.heroIn}
  }

  function AfterAll(opening: set<int>, swaps: seq<Swap>): set<int> {
    if swaps == [] then opening
    else After(AfterAll(opening, swaps[..|swaps| - 1]), swaps[|swaps| - 1])
  }

  /** The roster a round is played with: every swap logged for that round or an earlier one made. */
  function RosterAt(opening: set<int>, swaps: seq<Swap>, round: int): set<int> {
    if swaps == [] then opening
    else
      var before := RosterAt(opening, swaps[..|swaps| - 1], round);
      var last := swaps[|swaps| - 1];
      if last.round <= round then After(before, last) else before
  }

  /** Each outgoing hero held, each incoming hero not, rounds from 1 on and never going back. */
  ghost predicate WellFormed(opening: set<int>, swaps: seq<Swap>) {
    && (forall k :: 0 <= k < |swaps| ==> swaps[k].round >= 1)
    && (forall j, k :: 0 <= j < k < |swaps| ==> swaps[j].round <= swaps[k].round)
    && (forall k :: 0 <= k < |swaps| ==>
          var held := AfterAll(opening, swaps[..k]);
          swaps[k].heroOut in held && swaps[k].heroIn !in held)
  }

  // ---------------------------------------------------------------- the reconstruction

  function IndexOf(heroes: seq<int>, hero: int): (i: nat)
    ensures i <= |heroes|
    ensures i < |heroes| ==> heroes[i] == hero
    ensures forall k :: 0 <= k < i ==> heroes[k] != hero
  {
    if heroes == [] || heroes[0] == hero then 0 else 1 + IndexOf(heroes[1..], hero)
  }

  function UndoOne(roster: seq<int>, swap: Swap): seq<int> {
    var i := IndexOf(roster, swap.heroIn);
    if i < |roster| then roster[i := swap.heroOut] else roster + [swap.heroOut]
  }

  function Undo(roster: seq<int>, swaps: seq<Swap>): seq<int>
    decreases |swaps|
  {
    if swaps == [] then roster
    else Undo(UndoOne(roster, swaps[|swaps| - 1]), swaps[..|swaps| - 1])
  }

  /** The rewind never meets a hero that is not on the roster. */
  ghost predicate RewindIsTotal(roster: seq<int>, swaps: seq<Swap>)
    decreases |swaps|
  {
    swaps == [] ||
    (swaps[|swaps| - 1].heroIn in roster
     && RewindIsTotal(UndoOne(roster, swaps[|swaps| - 1]), swaps[..|swaps| - 1]))
  }

  function OpenIndex(holdings: seq<Holding>, hero: int): (i: nat)
    ensures i <= |holdings|
    ensures i < |holdings| ==> holdings[i].hero == hero && holdings[i].untilRound.None?
    ensures forall k :: 0 <= k < i ==> !(holdings[k].hero == hero && holdings[k].untilRound.None?)
  {
    if holdings == [] || (holdings[0].hero == hero && holdings[0].untilRound.None?) then 0
    else 1 + OpenIndex(holdings[1..], hero)
  }

  function Close(holdings: seq<Holding>, hero: int, round: int): seq<Holding> {
    var i := OpenIndex(holdings, hero);
    if i < |holdings| then holdings[i := holdings[i].(untilRound := Some(round))] else holdings
  }

  function ReplayOne(holdings: seq<Holding>, swap: Swap): seq<Holding> {
    Close(holdings, swap.heroOut, swap.round) + [Holding(swap.heroIn, swap.round, None)]
  }

  function Replay(holdings: seq<Holding>, swaps: seq<Swap>): seq<Holding> {
    if swaps == [] then holdings
    else ReplayOne(Replay(holdings, swaps[..|swaps| - 1]), swaps[|swaps| - 1])
  }

  function FromTheStart(heroes: seq<int>): seq<Holding> {
    seq(|heroes|, i requires 0 <= i < |heroes| => Holding(heroes[i], 1, None))
  }

  function HoldingsOf(heroes: seq<int>, swaps: seq<Swap>): seq<Holding> {
    Replay(FromTheStart(Undo(heroes, swaps)), swaps)
  }

  /** Rewind newest first, then replay oldest first, in place on two vectors. */
  method ComputeHoldings(heroes: seq<int>, swaps: seq<Swap>) returns (holdings: seq<Holding>)
    ensures holdings == HoldingsOf(heroes, swaps)
  {
    var opening := heroes;
    var k := |swaps|;
    assert swaps[..k] == swaps;
    while k > 0
      invariant 0 <= k <= |swaps|
      invariant Undo(opening, swaps[..k]) == Undo(heroes, swaps)
    {
      assert swaps[..k][..k - 1] == swaps[..k - 1];
      k := k - 1;
      var index := IndexOf(opening, swaps[k].heroIn);
      if index < |opening| {
        opening := opening[index := swaps[k].heroOut];
      } else {
        opening := opening + [swaps[k].heroOut];
      }
    }
    holdings := FromTheStart(opening);
    for i := 0 to |swaps|
      invariant holdings == Replay(FromTheStart(opening), swaps[..i])
    {
      var open := OpenIndex(holdings, swaps[i].heroOut);
      if open < |holdings| {
        holdings := holdings[open := holdings[open].(untilRound := Some(swaps[i].round))];
      }
      holdings := holdings + [Holding(swaps[i].heroIn, swaps[i].round, None)];
      assert swaps[..i + 1][..i] == swaps[..i];
    }
    assert swaps[..|swaps|] == swaps;
  }

  // ---------------------------------------------------------------- counting

  /** How many holdings give this hero to this entry in this round. */
  function Covering(holdings: seq<Holding>, hero: int, round: int): nat {
    if holdings == [] then 0
    else
      (if holdings[0].hero == hero && holdings[0].Covers(round) then 1 else 0)
      + Covering(holdings[1..], hero, round)
  }

  function Open(holdings: seq<Holding>, hero: int): nat {
    if holdings == [] then 0
    else
      (if holdings[0].hero == hero && holdings[0].untilRound.None? then 1 else 0) + Open(holdings[1..], hero)
  }

  lemma {:induction false} CountsAppend(a: seq<Holding>, h: Holding, hero: int, round: int)
    ensures Covering(a + [h], hero, round)
            == Covering(a, hero, round) + (if h.hero == hero && h.Covers(round) then 1 else 0)
    ensures Open(a + [h], hero) == Open(a, hero) + (if h.hero == hero && h.untilRound.None? then 1 else 0)
  {
    if a != [] {
      assert (a + [h])[1..] == a[1..] + [h];
      CountsAppend(a[1..], h, hero, round);
    }
  }

  /** Closing takes one open holding away, and one covering of each round it no longer reaches. */
  lemma {:induction false} CountsClose(a: seq<Holding>, closed: int, q: int, hero: int, round: int)
    requires forall k :: 0 <= k < |a| ==> a[k].fromRound <= q
    ensures var hit := hero == closed && Open(a, hero) > 0;
      && Open(Close(a, closed, q), hero) == Open(a, hero) - (if hit then 1 else 0)
      && Covering(Close(a, closed, q), hero, round)
         == Covering(a, hero, round) - (if hit && round >= q then 1 else 0)
  {
    if a != [] {
      if a[0].hero == closed && a[0].untilRound.None? {
        assert Close(a, closed, q)[1..] == a[1..];
      } else {
        assert Close(a, closed, q) == [a[0]] + Close(a[1..], closed, q);
        CountsClose(a[1..], closed, q, hero, round);
      }
    }
  }

  lemma {:induction false} StartCounts(heroes: seq<int>, hero: int, round: int)
    requires Distinct(heroes) && round >= 1
    ensures Covering(FromTheStart(heroes), hero, round) == (if hero in heroes then 1 else 0)
    ensures Open(FromTheStart(heroes), hero) == (if hero in heroes then 1 else 0)
  {
    if heroes != [] {
      assert FromTheStart(heroes)[1..] == FromTheStart(heroes[1..]);
      StartCounts(heroes[1..], hero, round);
      assert hero in heroes <==> hero == heroes[0] || hero in heroes[1..];
    }
  }

  // ---------------------------------------------------------------- the theorems

  lemma WellFormedPrefix(opening: set<int>, swaps: seq<Swap>)
    requires WellFormed(opening, swaps) && swaps != []
    ensures WellFormed(opening, swaps[..|swaps| - 1])
    ensures var last := swaps[|swaps| - 1];
      var held := AfterAll(opening, swaps[..|swaps| - 1]);
      last.heroOut in held && last.heroIn !in held && last.round >= 1
  {
    var n := |swaps| - 1;
    var init := swaps[..n];
    forall k | 0 <= k < n
      ensures var held := AfterAll(opening, init[..k]); init[k].heroOut in held && init[k].heroIn !in held
    {
      assert init[..k] == swaps[..k];
    }
  }

  lemma UndoOneStep(before: set<int>, roster: seq<int>, swap: Swap)
    requires Distinct(roster) && Members(roster) == After(before, swap)
    requires swap.heroOut in before && swap.heroIn !in before
    ensures swap.heroIn in roster
    ensures Distinct(UndoOne(roster, swap)) && Members(UndoOne(roster, swap)) == before
    ensures |UndoOne(roster, swap)| == |roster|
  {
    assert swap.heroIn in Members(roster);
    var i := IndexOf(roster, swap.heroIn);
    var back := roster[i := swap.heroOut];
    assert swap.heroOut !in Members(roster);
    forall x ensures x in Members(back) <==> x in before {
      if x in before && x != swap.heroOut {
        assert x in Members(roster);
        var k :| 0 <= k < |roster| && roster[k] == x;
        assert back[k] == x;
      }
      if x == swap.heroOut {
        assert back[i] == x;
      }
      if x in back && x != swap.heroOut {
        var k :| 0 <= k < |back| && back[k] == x;
        assert k != i && x in Members(roster);
      }
    }
  }

  /** The rewind recovers the opening roster and never takes the branch for a missing hero. */
  lemma {:induction false} RewindRecoversTheOpening(opening: set<int>, heroes: seq<int>, swaps: seq<Swap>)
    requires WellFormed(opening, swaps) && Distinct(heroes)
    requires Members(heroes) == AfterAll(opening, swaps)
    ensures Members(Undo(heroes, swaps)) == opening && Distinct(Undo(heroes, swaps))
    ensures RewindIsTotal(heroes, swaps) && |Undo(heroes, swaps)| == |heroes|
    decreases |swaps|
  {
    if swaps != [] {
      var n := |swaps| - 1;
      WellFormedPrefix(opening, swaps);
      UndoOneStep(AfterAll(opening, swaps[..n]), heroes, swaps[n]);
      RewindRecoversTheOpening(opening, UndoOne(heroes, swaps[n]), swaps[..n]);
    }
  }

  lemma {:induction false} LateRoundsSeeEverySwap(opening: set<int>, swaps: seq<Swap>, round: int)
    requires forall k :: 0 <= k < |swaps| ==> swaps[k].round <= round
    ensures RosterAt(opening, swaps, round) == AfterAll(opening, swaps)
  {
    if swaps != [] {
      LateRoundsSeeEverySwap(opening, swaps[..|swaps| - 1], round);
    }
  }

  lemma {:induction false} ReplayStartsBy(holdings: seq<Holding>, swaps: seq<Swap>, q: int)
    requires forall k :: 0 <= k < |holdings| ==> holdings[k].fromRound <= q
    requires forall k :: 0 <= k < |swaps| ==> swaps[k].round <= q
    ensures forall k :: 0 <= k < |Replay(holdings, swaps)| ==> Replay(holdings, swaps)[k].fromRound <= q
  {
    if swaps != [] {
      ReplayStartsBy(holdings, swaps[..|swaps| - 1], q);
    }
  }

  lemma {:induction false} ReplayCounts(opening: seq<int>, swaps: seq<Swap>, hero: int, round: int)
    requires Distinct(opening) && WellFormed(Members(opening), swaps) && round >= 1
    ensures var hs := Replay(FromTheStart(opening), swaps);
      && Open(hs, hero) == (if hero in AfterAll(Members(opening), swaps) then 1 else 0)
      && Covering(hs, hero, round) == (if hero in RosterAt(Members(opening), swaps, round) then 1 else 0)
    decreases |swaps|
  {
    if swaps == [] {
      StartCounts(opening, hero, round);
    } else {
      var n := |swaps| - 1;
      var init, last := swaps[..n], swaps[n];
      WellFormedPrefix(Members(opening), swaps);
      ReplayCounts(opening, init, hero, round);
      ReplayStartsBy(FromTheStart(opening), init, last.round);
      var hs := Replay(FromTheStart(opening), init);
      CountsClose(hs, last.heroOut, last.round, hero, round);
      CountsAppend(Close(hs, last.heroOut, last.round), Holding(last.heroIn, last.round, None), hero, round);
      if last.round <= round {
        LateRoundsSeeEverySwap(Members(opening), init, round);
      }
    }
  }

  /**
  Holdings are the history.  For every well-formed log, whatever order the present roster is listed
  in, a hero is covered exactly once in each round it was on the roster, and never otherwise.
  */
  lemma HoldingsAreTheHistory(opening: set<int>, heroes: seq<int>, swaps: seq<Swap>, hero: int, round: int)
    requires WellFormed(opening, swaps) && Distinct(heroes)
    requires Members(heroes) == AfterAll(opening, swaps) && round >= 1
    ensures Covering(HoldingsOf(heroes, swaps), hero, round)
            == (if hero in RosterAt(opening, swaps, round) then 1 else 0)
  {
    RewindRecoversTheOpening(opening, heroes, swaps);
    ReplayCounts(Undo(heroes, swaps), swaps, hero, round);
  }

  /** A trade in round `q` leaves who held what in every earlier round as it was. */
  lemma TradesNeverRewriteHistory(
      opening: set<int>, before: seq<int>, after: seq<int>, swaps: seq<Swap>, trade: seq<Swap>, hero: int, round: int)
    requires WellFormed(opening, swaps + trade) && Distinct(before) && Distinct(after)
    requires Members(before) == AfterAll(opening, swaps) && Members(after) == AfterAll(opening, swaps + trade)
    requires round >= 1 && forall k :: 0 <= k < |trade| ==> round < trade[k].round
    ensures Covering(HoldingsOf(after, swaps + trade), hero, round)
            == Covering(HoldingsOf(before, swaps), hero, round)
  {
    HoldingsAreTheHistory(opening, after, swaps + trade, hero, round);
    WellFormedAnyPrefix(opening, swaps, trade);
    HoldingsAreTheHistory(opening, before, swaps, hero, round);
    LaterSwapsDoNotShow(opening, swaps, trade, round);
  }

  lemma WellFormedAnyPrefix(opening: set<int>, swaps: seq<Swap>, trade: seq<Swap>)
    requires WellFormed(opening, swaps + trade)
    ensures WellFormed(opening, swaps)
  {
    var all := swaps + trade;
    assert forall k :: 0 <= k < |swaps| ==> all[k] == swaps[k];
    forall k | 0 <= k < |swaps|
      ensures var held := AfterAll(opening, swaps[..k]); swaps[k].heroOut in held && swaps[k].heroIn !in held
    {
      assert all[..k] == swaps[..k];
    }
  }

  lemma {:induction false} LaterSwapsDoNotShow(opening: set<int>, swaps: seq<Swap>, trade: seq<Swap>, round: int)
    requires forall k :: 0 <= k < |trade| ==> round < trade[k].round
    ensures RosterAt(opening, swaps + trade, round) == RosterAt(opening, swaps, round)
    decreases |trade|
  {
    if trade == [] {
      assert swaps + trade == swaps;
    } else {
      var n := |trade| - 1;
      assert (swaps + trade)[..|swaps| + n] == swaps + trade[..n];
      LaterSwapsDoNotShow(opening, swaps, trade[..n], round);
    }
  }

  // ---------------------------------------------------------------- how many, and from when

  lemma ClosingKeepsPlaces(holdings: seq<Holding>, hero: int, round: int)
    ensures |Close(holdings, hero, round)| == |holdings|
    ensures forall k :: 0 <= k < |holdings| ==>
              Close(holdings, hero, round)[k].hero == holdings[k].hero
              && Close(holdings, hero, round)[k].fromRound == holdings[k].fromRound
  {
  }

  /** The holdings started with stay first, and each swap adds one of its incoming hero from its round on. */
  lemma {:induction false} HoldingAt(holdings: seq<Holding>, swaps: seq<Swap>, k: nat)
    requires k < |holdings| + |swaps|
    ensures |Replay(holdings, swaps)| == |holdings| + |swaps|
    ensures var n, h := |holdings|, Replay(holdings, swaps)[k];
      && h.hero == (if k < n then holdings[k].hero else swaps[k - n].heroIn)
      && h.fromRound == (if k < n then holdings[k].fromRound else swaps[k - n].round)
  {
    if swaps != [] {
      var m := |swaps| - 1;
      var before := Replay(holdings, swaps[..m]);
      ClosingKeepsPlaces(before, swaps[m].heroOut, swaps[m].round);
      hide Close;
      if k < |holdings| + m {
        HoldingAt(holdings, swaps[..m], k);
      } else {
        ReplaySize(holdings, swaps[..m]);
      }
    }
  }

  lemma {:induction false} ReplaySize(holdings: seq<Holding>, swaps: seq<Swap>)
    ensures |Replay(holdings, swaps)| == |holdings| + |swaps|
  {
    if swaps != [] {
      ReplaySize(holdings, swaps[..|swaps| - 1]);
      ClosingKeepsPlaces(Replay(holdings, swaps[..|swaps| - 1]), swaps[|swaps| - 1].heroOut, swaps[|swaps| - 1].round);
    }
  }

  /** Undoing a swap puts the hero that left back in the place of the one that came, and moves no other. */
  lemma UndoKeepsPlaces(roster: seq<int>, swap: Swap, i: nat)
    requires Distinct(roster) && swap.heroIn in roster && i < |roster|
    ensures |UndoOne(roster, swap)| == |roster|
    ensures UndoOne(roster, swap)[i] == if roster[i] == swap.heroIn then swap.heroOut else roster[i]
  {
  }

  lemma {:induction false} NotYetCovered(holdings: seq<Holding>, hero: int, round: int)
    requires forall k :: 0 <= k < |holdings| ==> holdings[k].fromRound > round
    ensures Covering(holdings, hero, round) == 0
  {
    if holdings != [] {
      NotYetCovered(holdings[1..], hero, round);
    }
  }

  /** A hero traded away and won back has two holdings: there are as many as heroes held and swaps made. */
  lemma HoldingsAreCounted(opening: set<int>, heroes: seq<int>, swaps: seq<Swap>, hero: int, round: int)
    requires WellFormed(opening, swaps) && Distinct(heroes) && Members(heroes) == AfterAll(opening, swaps)
    ensures |HoldingsOf(heroes, swaps)| == |heroes| + |swaps|
    ensures round < 1 ==> Covering(HoldingsOf(heroes, swaps), hero, round) == 0
  {
    RewindRecoversTheOpening(opening, heroes, swaps);
    var start, all := FromTheStart(Undo(heroes, swaps)), HoldingsOf(heroes, swaps);
    ReplaySize(start, swaps);
    hide AfterAll, Replay, Undo, Members, Distinct;
    if round < 1 {
      forall k | 0 <= k < |all| ensures all[k].fromRound > round {
        HoldingAt(start, swaps, k);
      }
      NotYetCovered(all, hero, round);
    }
  }
}
