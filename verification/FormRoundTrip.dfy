/** Opening a saved match in the form and sending it back. */
module FormRoundTrip {
  import opened Options
  import opened Ordering
  import opened MatchResults
  import opened MatchForms
  import P = MatchPolicy

  /** As the server orders a match: sides by position, games by number, each game's sides by position. */
  ghost predicate InServerOrder(m: Saved) {
    && (forall i :: 0 <= i < |m.participants| ==> m.participants[i].side == i)
    && StrictlyAscending(ByNumber(), m.games)
    && forall g :: g in m.games ==> forall i :: 0 <= i < |g.participants| ==> g.participants[i].side == i
  }

  /** What the policy leaves a recorded ban able to say about sides. */
  ghost predicate Placed(bans: seq<Ban>, sides: nat) {
    forall b :: b in bans && b.side.Some? ==> !b.banType.PreBan? && 0 <= b.side.value < sides
  }

  ghost predicate NoneDraftedWhereStruck(m: Saved) {
    forall p, b :: p in m.participants && b in m.bans ==> b.hero !in p.drafted
  }

  // ---------------------------------------------------------------- drafts and games

  lemma {:induction false} WithoutConcat(a: seq<int>, b: seq<int>, dropped: seq<int>)
    ensures Without(a + b, dropped) == Without(a, dropped) + Without(b, dropped)
  {
    if b == [] {
      assert a + b == a;
    } else {
      assert (a + b)[..|a + b| - 1] == a + b[..|b| - 1];
      WithoutConcat(a, b[..|b| - 1], dropped);
    }
  }

  lemma {:induction false} AllDropped(heroes: seq<int>, dropped: seq<int>)
    requires forall h :: h in heroes ==> h in dropped
    ensures Without(heroes, dropped) == []
  {
    if heroes != [] {
      AllDropped(heroes[..|heroes| - 1], dropped);
      assert heroes[|heroes| - 1] in heroes;
    }
  }

  lemma {:induction false} SidedBansAreBans(bans: seq<Ban>, side: int)
    ensures forall h :: h in Struck(SidedBans(bans, side)) ==> exists b :: b in bans && b.hero == h
  {
    if bans != [] {
      var init, last := bans[..|bans| - 1], bans[|bans| - 1];
      SidedBansAreBans(init, side);
      assert forall b :: b in bans <==> b in init || b == last;
      forall h | h in Struck(SidedBans(bans, side)) ensures exists b :: b in bans && b.hero == h {
        if !last.banType.PreBan? && last.side == Some(side) {
          assert Struck(SidedBans(bans, side)) == Struck(SidedBans(init, side)) + [last.hero];
        }
      }
    }
  }

  /** What seeding unions in, saving subtracts out. */
  lemma DraftComesBack(p: Participant, bans: seq<Ban>)
    requires forall b :: b in bans ==> b.hero !in p.drafted
    ensures Draft(SeededSide(p, bans)) == p.drafted
  {
    var struck := Struck(SidedBans(bans, p.side));
    SidedBansAreBans(bans, p.side);
    WithoutConcat(p.drafted, struck, struck);
    NothingDropped(p.drafted, struck);
    AllDropped(struck, struck);
  }

  lemma ServerOrderIsKept(m: Saved)
    requires InServerOrder(m)
    ensures SortBy(BySide(), m.participants) == m.participants && SortBy(ByNumber(), m.games) == m.games
    ensures forall g :: g in m.games ==> SortBy(ByPlaySide(), g.participants) == g.participants
  {
    SortByFinds(BySide(), m.participants, m.participants);
    SortByFinds(ByNumber(), m.games, m.games);
    forall g | g in m.games ensures SortBy(ByPlaySide(), g.participants) == g.participants {
      SortByFinds(ByPlaySide(), g.participants, g.participants);
    }
  }

  // ---------------------------------------------------------------- bans

  lemma {:induction false} TaggedCounts(bans: seq<Ban>, side: int, b: Ban)
    ensures multiset(Tagged(SidedBans(bans, side), side))[b]
            == if !b.banType.PreBan? && b.side == Some(side) then multiset(bans)[b] else 0
  {
    if bans != [] {
      var init, last := bans[..|bans| - 1], bans[|bans| - 1];
      TaggedCounts(init, side, b);
      WithoutLast(bans);
      if !last.banType.PreBan? && last.side == Some(side) {
        var before := SidedBans(init, side);
        assert Tagged(before + [SidedBan(last.hero, last.banType)], side) == Tagged(before, side) + [last];
      }
    }
  }

  lemma {:induction false} UntaggedCounts(bans: seq<Ban>, b: Ban)
    requires forall x :: x in bans && x.banType.PreBan? ==> x.side.None?
    ensures multiset(Untagged(PreBans(bans)))[b] == if b.banType.PreBan? && b.side.None? then multiset(bans)[b] else 0
  {
    if bans != [] {
      var init, last := bans[..|bans| - 1], bans[|bans| - 1];
      UntaggedCounts(init, b);
      WithoutLast(bans);
      if last.banType.PreBan? {
        assert last == Ban(last.hero, PreBan, None);
        assert Untagged(PreBans(init) + [last.hero]) == Untagged(PreBans(init)) + [last];
      }
    }
  }

  lemma {:induction false} SideBansCount(sides: seq<SideForm>, bans: seq<Ban>, b: Ban)
    requires forall i :: 0 <= i < |sides| ==> sides[i].bans == SidedBans(bans, i)
    ensures multiset(SideBans(sides))[b]
            == if !b.banType.PreBan? && b.side.Some? && 0 <= b.side.value < |sides| then multiset(bans)[b] else 0
  {
    if sides != [] {
      var n := |sides| - 1;
      SideBansCount(sides[..n], bans, b);
      TaggedCounts(bans, n, b);
    }
  }

  /** Every ban comes back, type and side, exactly when none of the typed ones lacks its side. */
  lemma BansComeBack(f: Form, bans: seq<Ban>)
    requires forall i :: 0 <= i < |f.sides| ==> f.sides[i].bans == SidedBans(bans, i)
    requires f.preBans == PreBans(bans) && Placed(bans, |f.sides|)
    ensures multiset(ToPayload(f).bans) == multiset(bans)
            <==> forall b :: b in bans ==> b.banType.PreBan? || b.side.Some?
  {
    var sent := ToPayload(f).bans;
    forall b: Ban ensures multiset(sent)[b] == if b.banType.PreBan? || b.side.Some? then multiset(bans)[b] else 0 {
      SideBansCount(f.sides, bans, b);
      UntaggedCounts(bans, b);
      assert multiset(sent)[b] == multiset(SideBans(f.sides))[b] + multiset(Untagged(f.preBans))[b];
      assert b in bans <==> multiset(bans)[b] > 0;
    }
    if b :| b in bans && !b.banType.PreBan? && b.side.None? {
      assert multiset(sent)[b] == 0 && b in multiset(bans);
    } else {
      forall b ensures multiset(sent)[b] == multiset(bans)[b] {
        assert b in bans <==> multiset(bans)[b] > 0;
      }
    }
  }

  // ---------------------------------------------------------------- the round trip

  function PlaysOf(g: SavedGame): seq<P.PlayInput> {
    seq(|g.participants|, i requires 0 <= i < |g.participants| => SeededPlay(g.participants[i]))
  }

  /**
  A recorded match opened and sent back: each side's draft in order, the same games by number with
  their stats, and the same bans if and only if every typed ban has a side.
  */
  lemma RoundTrip(m: Saved)
    requires InServerOrder(m) && Placed(m.bans, |m.participants|) && NoneDraftedWhereStruck(m)
    ensures var s := ToPayload(FormFromMatch(m));
      && |s.drafts| == |m.participants| && |s.games| == |m.games|
      && (forall i :: 0 <= i < |m.participants| ==> s.drafts[i] == m.participants[i].drafted)
      && (forall i :: 0 <= i < |m.games| ==>
            s.games[i] == P.GameInput(m.games[i].number, m.games[i].board, PlaysOf(m.games[i])))
      && (multiset(s.bans) == multiset(m.bans) <==> forall b :: b in m.bans ==> b.banType.PreBan? || b.side.Some?)
  {
    DraftsComeBack(m);
    GamesComeBack(m);
    var f := FormFromMatch(m);
    assert ToPayload(f).games == f.games;
    assert forall i :: 0 <= i < |f.sides| ==> ToPayload(f).drafts[i] == Draft(f.sides[i]);
    assert f.preBans == PreBans(m.bans);
    hide FormFromMatch, ToPayload, SidedBans, Draft, InServerOrder, Placed, PlaysOf;
    BansComeBack(f, m.bans);
  }

  lemma DraftsComeBack(m: Saved)
    requires InServerOrder(m) && NoneDraftedWhereStruck(m)
    ensures var sides := FormFromMatch(m).sides;
      && |sides| == |m.participants|
      && forall i :: 0 <= i < |sides| ==>
           sides[i].bans == SidedBans(m.bans, i) && Draft(sides[i]) == m.participants[i].drafted
  {
    ServerOrderIsKept(m);
    hide Draft, SortBy, StrictlyAscending;
    var sides := FormFromMatch(m).sides;
    forall i | 0 <= i < |sides|
      ensures sides[i].bans == SidedBans(m.bans, i) && Draft(sides[i]) == m.participants[i].drafted
    {
      assert m.participants[i] in m.participants;
      assert sides[i] == SeededSide(m.participants[i], m.bans);
      DraftComesBack(m.participants[i], m.bans);
    }
  }

  lemma GamesComeBack(m: Saved)
    requires InServerOrder(m)
    ensures |FormFromMatch(m).games| == |m.games|
    ensures forall i :: 0 <= i < |m.games| ==>
              FormFromMatch(m).games[i] == P.GameInput(m.games[i].number, m.games[i].board, PlaysOf(m.games[i]))
  {
    ServerOrderIsKept(m);
    hide SortBy, InServerOrder;
    forall i | 0 <= i < |m.games|
      ensures FormFromMatch(m).games[i] == P.GameInput(m.games[i].number, m.games[i].board, PlaysOf(m.games[i]))
    {
      assert m.games[i] in m.games;
      assert FormFromMatch(m).games[i] == SeededGame(m.games[i]);
    }
  }

  // ---------------------------------------------------------------- in whatever order a match comes

  lemma SortedWhicheverWay<T(!new)>(key: T -> int, a: seq<T>, b: seq<T>)
    requires multiset(a) == multiset(b) && forall i, j :: 0 <= i < j < |a| ==> key(a[i]) != key(a[j])
    ensures SortBy(key, a) == SortBy(key, b)
  {
    SortByIsRight(key, a);
    var sorted := SortBy(key, a);
    forall i, j | 0 <= i < j < |sorted| ensures key(sorted[i]) < key(sorted[j]) {
      KeysStayApart(key, a, sorted, i, j);
    }
    SortByFinds(key, b, sorted);
  }

  lemma KeysStayApart<T(!new)>(key: T -> int, a: seq<T>, sorted: seq<T>, i: nat, j: nat)
    requires multiset(a) == multiset(sorted) && i < j < |sorted|
    requires forall p, q :: 0 <= p < q < |a| ==> key(a[p]) != key(a[q])
    ensures key(sorted[i]) != key(sorted[j])
  {
    assert sorted[i] in multiset(a) && sorted[j] in multiset(a);
    var p :| 0 <= p < |a| && a[p] == sorted[i];
    var q :| 0 <= q < |a| && a[q] == sorted[j];
    if sorted[i] == sorted[j] {
      TwiceCountsTwo(sorted, i, j);
      OnceCountsOne(a, p);
    } else {
      assert p != q;
    }
  }

  /** A game seeds the same row whichever way round its sides are listed. */
  lemma SidesInAnyOrder(g: SavedGame, h: SavedGame)
    requires g.number == h.number && g.board == h.board && multiset(g.participants) == multiset(h.participants)
    requires forall i, j :: 0 <= i < j < |g.participants| ==> g.participants[i].side != g.participants[j].side
    ensures SeededGame(g) == SeededGame(h)
  {
    SortedWhicheverWay(ByPlaySide(), g.participants, h.participants);
  }

  /** And a match the same form, whichever order its sides and games are listed in. */
  lemma MatchesInAnyOrder(m: Saved, n: Saved)
    requires m.link == n.link && m.bans == n.bans
    requires multiset(m.participants) == multiset(n.participants) && multiset(m.games) == multiset(n.games)
    requires forall i, j :: 0 <= i < j < |m.participants| ==> m.participants[i].side != m.participants[j].side
    requires forall i, j :: 0 <= i < j < |m.games| ==> m.games[i].number != m.games[j].number
    ensures FormFromMatch(m) == FormFromMatch(n)
  {
    SortedWhicheverWay(BySide(), m.participants, n.participants);
    SortedWhicheverWay(ByNumber(), m.games, n.games);
  }

  /** Bans are listed in the order they come in, each under its side, before the draft, or as yet unassigned. */
  lemma {:induction false} BansInTheirOrder(front: seq<Ban>, back: seq<Ban>, side: int)
    ensures SidedBans(front + back, side) == SidedBans(front, side) + SidedBans(back, side)
    ensures PreBans(front + back) == PreBans(front) + PreBans(back)
    ensures Unassigned(front + back) == Unassigned(front) + Unassigned(back)
  {
    if back == [] {
      assert front + back == front;
    } else {
      assert (front + back)[..|front + back| - 1] == front + back[..|back| - 1];
      BansInTheirOrder(front, back[..|back| - 1], side);
    }
  }

  /** Two sides' bans are sent side by side, and the pre-bans after them. */
  lemma BansAreSentInTurn(f: Form)
    requires |f.sides| == 2
    ensures ToPayload(f).bans == Tagged(f.sides[0].bans, 0) + Tagged(f.sides[1].bans, 1) + Untagged(f.preBans)
    ensures ToPayload(f).games == f.games
  {
    assert f.sides[..1] == [f.sides[0]] && f.sides[..1][..0] == [];
    assert SideBans(f.sides[..1]) == [] + Tagged(f.sides[0].bans, 0);
  }
}
