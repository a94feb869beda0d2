/** When a form with nothing left to object to is a submission the server accepts. */
module FormAcceptance {
  import opened Options
  import opened Distinctness
  import opened StatNames
  import opened MatchResults
  import opened MatchForms
  import opened FormPolicy
  import P = MatchPolicy

  /** A ban filed under one side names a hero on another side's arsenal. */
  ghost predicate BansAcross(f: Form) {
    exists i, j :: 0 <= i < |f.sides| && 0 <= j < |f.sides| && i != j && Crosses(f.sides[i], f.sides[j])
  }

  ghost predicate Crosses(from: SideForm, other: SideForm) {
    exists h :: h in Struck(from.bans) && h in other.arsenal
  }

  /** Some game is played by one hero against itself. */
  ghost predicate Mirrors(f: Form) {
    exists g :: g in f.games && !Distinct(P.Heroes(g))
  }

  // ---------------------------------------------------------------- the bans as sent

  lemma {:induction false} SideBansNameTheStruck(sides: seq<SideForm>)
    ensures P.BanHeroes(SideBans(sides)) == SideStruck(sides)
  {
    if sides != [] {
      var n := |sides| - 1;
      SideBansNameTheStruck(sides[..n]);
      assert P.BanHeroes(Tagged(sides[n].bans, n)) == Struck(sides[n].bans);
    }
  }

  lemma PayloadBans(f: Form)
    ensures P.BanHeroes(ToPayload(f).bans) == AllStruck(f)
  {
    SideBansNameTheStruck(f.sides);
    assert P.BanHeroes(Untagged(f.preBans)) == f.preBans;
  }

  lemma {:induction false} SideBansAreTyped(sides: seq<SideForm>)
    ensures forall b :: b in SideBans(sides) ==> b.side.Some? && 0 <= b.side.value < |sides| && !b.banType.PreBan?
  {
    if sides != [] {
      SideBansAreTyped(sides[..|sides| - 1]);
    }
  }

  lemma NoImpossibleSide(f: Form)
    requires |f.sides| == 2
    ensures forall b :: b in ToPayload(f).bans ==> !P.ImpossibleSide(b)
  {
    SideBansAreTyped(f.sides);
  }

  lemma PayloadNamesBans(f: Form, hero: int)
    ensures P.BannedIn(ToPayload(f), hero) <==>
              hero in f.preBans || exists i :: 0 <= i < |f.sides| && hero in Struck(f.sides[i].bans)
  {
    PayloadBans(f);
    var bans := ToPayload(f).bans;
    assert P.BannedIn(ToPayload(f), hero) <==> hero in P.BanHeroes(bans) by { NamesAreListed(bans, hero); }
    if hero in SideStruck(f.sides) {
      StruckOnASide(f.sides, hero);
    }
    if i :| 0 <= i < |f.sides| && hero in Struck(f.sides[i].bans) {
      SideStruckHas(f.sides, i, hero);
    }
    hide ToPayload, Struck, P.BanHeroes;
  }

  lemma NamesAreListed(bans: seq<Ban>, hero: int)
    ensures (exists b :: b in bans && b.hero == hero) <==> hero in P.BanHeroes(bans)
  {
    if b :| b in bans && b.hero == hero {
      var i :| 0 <= i < |bans| && bans[i] == b;
      assert P.BanHeroes(bans)[i] == hero;
    }
    if hero in P.BanHeroes(bans) {
      var i :| 0 <= i < |bans| && P.BanHeroes(bans)[i] == hero;
      assert bans[i] in bans;
    }
  }

  // ---------------------------------------------------------------- the drafts as sent

  lemma PayloadNamesDrafts(f: Form, hero: int)
    ensures P.DraftedIn(ToPayload(f), hero) <==>
              exists j :: 0 <= j < |f.sides| && hero in f.sides[j].arsenal && hero !in Struck(f.sides[j].bans)
  {
    var drafts := ToPayload(f).drafts;
    if j :| 0 <= j < |f.sides| && hero in f.sides[j].arsenal && hero !in Struck(f.sides[j].bans) {
      assert drafts[j] in drafts && hero in drafts[j];
    }
    if d :| d in drafts && hero in d {
      var j :| 0 <= j < |drafts| && drafts[j] == d;
      assert hero in Draft(f.sides[j]);
    }
  }

  /** No hero is struck from two sides, or from a side and before the draft. */
  lemma {:induction false} StruckFromOneSide(sides: seq<SideForm>, i: nat, j: nat, hero: int)
    requires Distinct(SideStruck(sides)) && i < j < |sides|
    requires hero in Struck(sides[i].bans)
    ensures hero !in Struck(sides[j].bans)
    decreases |sides|
  {
    var n := |sides| - 1;
    var before, last := SideStruck(sides[..n]), Struck(sides[n].bans);
    if j < n {
      DistinctPrefix(before, last);
      StruckFromOneSide(sides[..n], i, j, hero);
    } else {
      SideStruckHas(sides[..n], i, hero);
      DistinctAcross(before, last, hero);
    }
  }

  lemma DistinctPrefix(a: seq<int>, b: seq<int>)
    requires Distinct(a + b)
    ensures Distinct(a) && Distinct(b)
  {
    assert forall i :: 0 <= i < |a| ==> (a + b)[i] == a[i];
    assert forall i :: 0 <= i < |b| ==> (a + b)[|a| + i] == b[i];
  }

  lemma DistinctAcross(a: seq<int>, b: seq<int>, x: int)
    requires Distinct(a + b) && x in a
    ensures x !in b
  {
    var i :| 0 <= i < |a| && a[i] == x;
    assert (a + b)[i] == x;
    forall j | 0 <= j < |b| ensures b[j] != x {
      assert (a + b)[|a| + j] == b[j];
    }
  }

  /** A banned hero is on a draft as sent exactly when a ban crosses over. */
  lemma BannedAndDrafted(f: Form)
    requires BansClean(f)
    ensures (exists h :: P.BannedIn(ToPayload(f), h) && P.DraftedIn(ToPayload(f), h)) <==> BansAcross(f)
  {
    DistinctPrefix(SideStruck(f.sides), f.preBans);
    if h :| P.BannedIn(ToPayload(f), h) && P.DraftedIn(ToPayload(f), h) {
      PayloadNamesBans(f, h);
      PayloadNamesDrafts(f, h);
      var j :| 0 <= j < |f.sides| && h in f.sides[j].arsenal && h !in Struck(f.sides[j].bans);
      assert f.sides[j] in f.sides && OnADraft(f, h);
      var i :| 0 <= i < |f.sides| && h in Struck(f.sides[i].bans);
      assert Crosses(f.sides[i], f.sides[j]);
    }
    if BansAcross(f) {
      var i, j :| 0 <= i < |f.sides| && 0 <= j < |f.sides| && i != j && Crosses(f.sides[i], f.sides[j]);
      var h :| h in Struck(f.sides[i].bans) && h in f.sides[j].arsenal;
      if i < j {
        StruckFromOneSide(f.sides, i, j, h);
      } else if h in Struck(f.sides[j].bans) {
        StruckFromOneSide(f.sides, j, i, h);
      }
      PayloadNamesBans(f, h);
      PayloadNamesDrafts(f, h);
    }
  }

  lemma FieldedIsFieldable(f: Form, heroPool: seq<int>, g: P.GameInput, side: nat)
    requires Structural(f) && Filled(f.games) && side < |f.sides| && FieldsItsOwn(f, heroPool, side)
    requires g in f.games && side < |g.participants|
    ensures IsFieldable(f, side, g.participants[side].hero)
  {
    assert !BlankHero(g);
    assert g.participants[side] in g.participants;
    assert g.participants[side].hero in FieldedIn(f.games, side);
  }

  lemma NothingUndrafted(f: Form, heroPool: seq<int>)
    requires Structural(f) && Filled(f.games) && FieldsItsOwn(f, heroPool, 0) && FieldsItsOwn(f, heroPool, 1)
    ensures forall g :: g in f.games ==> !P.FieldsUndrafted(g, ToPayload(f).drafts)
  {
    forall g, i | g in f.games && 0 <= i < |g.participants| && i < |f.sides|
      ensures g.participants[i].hero in ToPayload(f).drafts[i]
    {
      FieldedIsFieldable(f, heroPool, g, i);
    }
  }

  lemma PlayedIsFieldable(f: Form, heroPool: seq<int>, h: int) returns (j: nat)
    requires Structural(f) && Filled(f.games) && FieldsItsOwn(f, heroPool, 0) && FieldsItsOwn(f, heroPool, 1)
    requires P.PlayedIn(ToPayload(f), h)
    ensures j < 2 && IsFieldable(f, j, h)
  {
    var g :| g in f.games && h in P.Heroes(g);
    j :| 0 <= j < |g.participants| && P.Heroes(g)[j] == h;
    var k :| 0 <= k < |f.games| && f.games[k] == g;
    hide Filled, FieldsItsOwn, IsFieldable, ToPayload;
    FieldedIsFieldable(f, heroPool, g, j);
  }

  /** A banned hero that is played must be on the arsenal of the side that did not strike it. */
  lemma BannedAndPlayed(f: Form, heroPool: seq<int>, h: int)
    requires Structural(f) && Filled(f.games) && FieldsItsOwn(f, heroPool, 0) && FieldsItsOwn(f, heroPool, 1)
    requires P.BannedIn(ToPayload(f), h) && P.PlayedIn(ToPayload(f), h)
    ensures BansAcross(f)
  {
    var j := PlayedIsFieldable(f, heroPool, h);
    PayloadNamesBans(f, h);
    hide ToPayload, Structural, Filled, FieldsItsOwn;
    var i :| 0 <= i < |f.sides| && h in Struck(f.sides[i].bans);
    assert Crosses(f.sides[i], f.sides[j]);
  }

  // ---------------------------------------------------------------- the shape as sent

  lemma DenseNumbers(f: Form)
    requires Structural(f)
    ensures P.NumberedFromOne(f.games)
  {
    assert P.Numbers(f.games) == P.OneTo(|f.games|);
    forall k | 1 <= k <= |f.games| ensures multiset(P.Numbers(f.games))[k] == 1 {
      P.OneToCounts(|f.games|, k);
    }
  }

  lemma DraftsAreDistinct(f: Form)
    requires SidesClean(f.sides)
    ensures forall d :: d in ToPayload(f).drafts ==> Distinct(d)
  {
    var drafts := ToPayload(f).drafts;
    forall d | d in drafts ensures Distinct(d) {
      var i :| 0 <= i < |drafts| && drafts[i] == d;
      assert SideClean(f.sides[i]);
      WithoutIsDistinct(f.sides[i].arsenal, Struck(f.sides[i].bans));
    }
  }

  // ---------------------------------------------------------------- the theorem

  /**
  A form the wizard has nothing to say about is accepted exactly when the server's own lists resolve
  it, no ban names a hero on the other side's arsenal, and no game has one hero on both sides.
  */
  lemma CleanFormsAreAccepted(pools: P.Pools, f: Form, heroPool: seq<int>)
    requires Structural(f) && FirstIssue(f, heroPool) == None
    ensures P.Accepted(pools, ToPayload(f)) <==> P.Resolves(pools, ToPayload(f)) && !BansAcross(f) && !Mirrors(f)
  {
    SilentMeansClean(f, heroPool);
    hide FirstIssue;
    P.AcceptedMeans(pools, ToPayload(f));
    CleanIsWellShaped(f, heroPool);
    CleanIsApart(f, heroPool);
  }

  lemma CleanIsWellShaped(f: Form, heroPool: seq<int>)
    requires Structural(f) && Clean(f, heroPool)
    ensures P.WellShaped(ToPayload(f))
  {
    assert FieldsItsOwn(f, heroPool, 0) && FieldsItsOwn(f, heroPool, 1);
    forall g | g in f.games ensures |g.participants| == 2 {
      var i :| 0 <= i < |f.games| && f.games[i] == g;
    }
    hide FieldsItsOwn, P.NumberedFromOne, Distinct, P.OneWinner, P.LoserSurvives, P.ImpossibleSide, P.FieldsUndrafted;
    DenseNumbers(f);
    PayloadBans(f);
    NoImpossibleSide(f);
    DraftsAreDistinct(f);
    NothingUndrafted(f, heroPool);
  }

  lemma CleanIsApart(f: Form, heroPool: seq<int>)
    requires Structural(f) && Clean(f, heroPool)
    ensures P.Apart(ToPayload(f)) <==> !BansAcross(f) && !Mirrors(f)
  {
    assert FieldsItsOwn(f, heroPool, 0) && FieldsItsOwn(f, heroPool, 1);
    assert ToPayload(f).games == f.games;
    BannedAndDrafted(f);
    hide ToPayload, P.DraftedIn, P.PlayedIn, BansAcross, Structural, FieldsItsOwn, Distinct, BansClean;
    if b :| b in ToPayload(f).bans && (P.DraftedIn(ToPayload(f), b.hero) || P.PlayedIn(ToPayload(f), b.hero)) {
      assert P.BannedIn(ToPayload(f), b.hero);
      if P.PlayedIn(ToPayload(f), b.hero) {
        BannedAndPlayed(f, heroPool, b.hero);
      }
    }
  }

  /** With separate arsenals, and each side's bans inside its own, only the server's lists are left. */
  lemma SeparateArsenalsAreAccepted(pools: P.Pools, f: Form, heroPool: seq<int>)
    requires Structural(f) && FirstIssue(f, heroPool) == None
    requires forall h :: h in f.sides[0].arsenal ==> h !in f.sides[1].arsenal
    requires forall i, h :: 0 <= i < 2 && h in Struck(f.sides[i].bans) ==> h in f.sides[i].arsenal
    ensures P.Accepted(pools, ToPayload(f)) <==> P.Resolves(pools, ToPayload(f))
  {
    CleanFormsAreAccepted(pools, f, heroPool);
    SilentMeansClean(f, heroPool);
    assert !BansAcross(f);
    assert FieldsItsOwn(f, heroPool, 0) && FieldsItsOwn(f, heroPool, 1) && Filled(f.games);
    hide Clean, FirstIssue, BansAcross, FieldsItsOwn, ToPayload, P.Resolves, P.Accepted;
    NoMirrors(f, heroPool);
  }

  lemma NoMirrors(f: Form, heroPool: seq<int>)
    requires Structural(f) && Filled(f.games) && FieldsItsOwn(f, heroPool, 0) && FieldsItsOwn(f, heroPool, 1)
    requires forall h :: h in f.sides[0].arsenal ==> h !in f.sides[1].arsenal
    ensures !Mirrors(f)
  {
    forall g | g in f.games ensures Distinct(P.Heroes(g)) {
      var i :| 0 <= i < |f.games| && f.games[i] == g;
      assert |g.participants| == 2;
      hide Structural, Filled, FieldsItsOwn;
      FieldedIsFieldable(f, heroPool, g, 0);
      FieldedIsFieldable(f, heroPool, g, 1);
    }
  }

  function CrossedGame(): P.GameInput {
    P.GameInput(1, 7, [P.PlayInput(1, 0, false, []), P.PlayInput(3, 5, true, [])])
  }

  /** Hero 3 is on both arsenals, struck from one, and fielded by the other. */
  function CrossedForm(): Form {
    Form("link", [SideForm([1, 3], [SidedBan(3, OpponentBan)]), SideForm([2, 3], [])], [CrossedGame()], [], [])
  }

  lemma CrossedBans()
    ensures var f := CrossedForm();
      && Struck(f.sides[0].bans) == [3] && Struck(f.sides[1].bans) == [] && AllStruck(f) == [3]
  {
    var f := CrossedForm();
    var first := f.sides[..1];
    assert Struck(f.sides[0].bans) == [3] && Struck(f.sides[1].bans) == [];
    assert first[..0] == [] && SideStruck(first[..0]) == [];
    assert SideStruck(first) == [] + [3];
    assert SideStruck(f.sides) == [3] + [];
  }

  lemma CrossedFields()
    ensures FieldedIn([CrossedGame()], 0) == [1] && FieldedIn([CrossedGame()], 1) == [3]
    ensures P.OneWinner(CrossedGame()) && !P.LoserSurvives(CrossedGame()) && !BlankHero(CrossedGame())
    ensures P.Heroes(CrossedGame()) == [1, 3]
  {
    assert [CrossedGame()][..0] == [];
    assert P.SoleWinner(CrossedGame().participants, 1);
  }

  lemma CrossedSidesAreClean()
    ensures SidesClean(CrossedForm().sides) && BansClean(CrossedForm())
  {
    var f := CrossedForm();
    CrossedBans();
    hide Struck, AllStruck;
    assert SideClean(f.sides[0]) && SideClean(f.sides[1]);
  }

  lemma CrossedGamesAreClean()
    ensures Structural(CrossedForm())
    ensures Filled(CrossedForm().games) && AllDecided(CrossedForm().games)
    ensures FieldsItsOwn(CrossedForm(), [1, 2, 3], 0) && FieldsItsOwn(CrossedForm(), [1, 2, 3], 1)
  {
    CrossedBans();
    CrossedFields();
    hide AllStruck, FieldedIn, P.OneWinner, P.LoserSurvives, BlankHero, Struck;
  }

  lemma TheLinkIsThere()
    ensures TrimEnd(TrimStart("link")) != []
  {
    assert TrimStart("link") == "link" && TrimEnd("link") == "link";
  }

  lemma CrossedBreaks(pools: P.Pools)
    ensures P.Breaks(P.BannedHeroPlayed, pools, ToPayload(CrossedForm()), 2)
    ensures P.Breaks(P.BannedHeroDrafted, pools, ToPayload(CrossedForm()), 2)
  {
    var f := CrossedForm();
    CrossedBans();
    CrossedFields();
    PayloadNamesBans(f, 3);
    PayloadNamesDrafts(f, 3);
    hide Struck, AllStruck, FieldedIn, P.Heroes, P.DraftedIn, Draft, SideBans, Untagged;
    assert f.sides[1].arsenal[1] == 3;
    assert CrossedGame() in ToPayload(f).games && 3 in P.Heroes(CrossedGame());
    var b :| b in ToPayload(f).bans && b.hero == 3;
  }

  /** The form is silent about a hero struck from one side and played by the other; the server is not. */
  lemma CrossedFormIsRefused(pools: P.Pools)
    ensures Structural(CrossedForm()) && FirstIssue(CrossedForm(), [1, 2, 3]) == None
    ensures P.Breaks(P.BannedHeroPlayed, pools, ToPayload(CrossedForm()), 2)
    ensures P.Breaks(P.BannedHeroDrafted, pools, ToPayload(CrossedForm()), 2)
  {
    hide SidesClean, BansClean, Filled, AllDecided, FieldsItsOwn, Structural, FirstIssue, ToPayload, P.Breaks;
    hide TrimEnd, TrimStart;
    CrossedSidesAreClean();
    CrossedGamesAreClean();
    TheLinkIsThere();
    SilentMeansClean(CrossedForm(), [1, 2, 3]);
    CrossedBreaks(pools);
  }
}
