/** A recorded match opened for correction: exactly when the form has nothing to say about it. */
module Reopening {
  import opened Distinctness
  import opened StatNames
  import opened MatchResults
  import opened MatchForms
  import opened FormPolicy
  import opened FormAcceptance
  import opened Conservation
  import opened Correction
  import P = MatchPolicy
  import R = FormRoundTrip
  import O = Ordering

  /** Each arsenal is the draft and then what was struck from it, as seeding leaves it. */
  ghost predicate Seeded(f: Form) {
    |f.sides| == 2
    && forall i :: 0 <= i < 2 ==> f.sides[i].arsenal == Draft(f.sides[i]) + Struck(f.sides[i].bans)
  }

  /** What the server's policy does not settle for the form. */
  ghost predicate Ready(f: Form, heroPool: seq<int>)
    requires |f.sides| == 2
  {
    && TrimEnd(TrimStart(f.link)) != [] && f.unassigned == []
    && UNSET !in Draft(f.sides[0]) && UNSET !in Draft(f.sides[1])
    && !P.BannedIn(ToPayload(f), UNSET)
    && forall g :: g in f.games ==> g.board != UNSET && PlaysFrom(g, heroPool)
  }

  ghost predicate PlaysFrom(g: P.GameInput, heroPool: seq<int>) {
    forall p :: p in g.participants ==> p.hero in heroPool
  }

  // ---------------------------------------------------------------- arsenals and bans

  lemma DistinctJoined(a: seq<int>, b: seq<int>)
    requires Distinct(a) && Distinct(b) && forall x :: x in a ==> x !in b
    ensures Distinct(a + b)
  {
    forall i, j | 0 <= i < j < |a + b| ensures (a + b)[i] != (a + b)[j] {
      if i < |a| <= j {
        assert a[i] in a && b[j - |a|] in b;
      }
    }
  }

  lemma {:induction false} StruckIsDistinct(sides: seq<SideForm>, i: nat)
    requires Distinct(SideStruck(sides)) && i < |sides|
    ensures Distinct(Struck(sides[i].bans))
    decreases |sides|
  {
    var n := |sides| - 1;
    DistinctPrefix(SideStruck(sides[..n]), Struck(sides[n].bans));
    if i < n {
      StruckIsDistinct(sides[..n], i);
    }
  }

  /** No two bans as sent name one hero, so neither do the bans of a side, nor a side and the pre-bans. */
  lemma SentBansAreDistinct(pools: P.Pools, f: Form)
    requires P.Accepted(pools, ToPayload(f))
    ensures Distinct(AllStruck(f)) && Distinct(SideStruck(f.sides))
  {
    P.AcceptedMeans(pools, ToPayload(f));
    PayloadBans(f);
    DistinctPrefix(SideStruck(f.sides), f.preBans);
  }

  lemma StruckIsSent(f: Form, hero: int)
    requires hero in f.preBans || exists i :: 0 <= i < |f.sides| && hero in Struck(f.sides[i].bans)
    ensures exists b :: b in ToPayload(f).bans && b.hero == hero
  {
    PayloadNamesBans(f, hero);
  }

  lemma BannedIsApart(pools: P.Pools, f: Form, hero: int)
    requires P.Accepted(pools, ToPayload(f))
    requires hero in f.preBans || exists i :: 0 <= i < |f.sides| && hero in Struck(f.sides[i].bans)
    ensures forall i :: 0 <= i < |f.sides| ==> hero !in Draft(f.sides[i])
    ensures !P.PlayedIn(ToPayload(f), hero)
  {
    P.AcceptedMeans(pools, ToPayload(f));
    StruckIsSent(f, hero);
    hide P.Accepted, P.WellShaped, P.Resolves, P.PlayedIn;
    var drafts := ToPayload(f).drafts;
    assert forall i :: 0 <= i < |f.sides| ==> drafts[i] == Draft(f.sides[i]) && drafts[i] in drafts;
  }

  lemma ArsenalIsDistinct(pools: P.Pools, f: Form, i: nat)
    requires Seeded(f) && P.Accepted(pools, ToPayload(f)) && i < 2
    ensures Distinct(f.sides[i].arsenal)
  {
    SentBansAreDistinct(pools, f);
    StruckIsDistinct(f.sides, i);
    P.AcceptedMeans(pools, ToPayload(f));
    hide P.Accepted, P.GameIsRight, P.NumberedFromOne, P.Resolves, P.Apart;
    assert ToPayload(f).drafts[i] == Draft(f.sides[i]) && ToPayload(f).drafts[i] in ToPayload(f).drafts;
    forall x | x in Draft(f.sides[i]) ensures x !in Struck(f.sides[i].bans) {
    }
    hide Distinct, ToPayload, Draft;
    DistinctJoined(Draft(f.sides[i]), Struck(f.sides[i].bans));
  }

  lemma SidesNeedTheirHeroes(pools: P.Pools, f: Form)
    requires Seeded(f) && P.Accepted(pools, ToPayload(f))
    ensures SidesClean(f.sides) <==> UNSET !in f.sides[0].arsenal && UNSET !in f.sides[1].arsenal
  {
    ArsenalIsDistinct(pools, f, 0);
    ArsenalIsDistinct(pools, f, 1);
    forall i | 0 <= i < 2 ensures SideClean(f.sides[i]) <==> UNSET !in f.sides[i].arsenal {
      assert forall x :: x in Struck(f.sides[i].bans) ==> x in f.sides[i].arsenal;
    }
    hide SideClean, Seeded, P.Accepted;
  }

  lemma NoPreBanOnADraft(pools: P.Pools, f: Form, hero: int)
    requires Seeded(f) && P.Accepted(pools, ToPayload(f)) && hero in f.preBans
    ensures !OnADraft(f, hero)
  {
    SentBansAreDistinct(pools, f);
    BannedIsApart(pools, f, hero);
    hide P.Accepted, ToPayload, Draft;
    forall s | s in f.sides ensures hero !in s.arsenal {
      var i :| 0 <= i < |f.sides| && f.sides[i] == s;
      if hero in Struck(s.bans) {
        SideStruckHas(f.sides, i, hero);
        DistinctAcross(SideStruck(f.sides), f.preBans, hero);
      }
    }
  }

  /** What is left of the ban checks is that none is blank. */
  lemma BansNeedTheirHeroes(pools: P.Pools, f: Form)
    requires Seeded(f) && P.Accepted(pools, ToPayload(f))
    ensures BansClean(f) <==> UNSET !in f.preBans
  {
    SentBansAreDistinct(pools, f);
    forall h | h in f.preBans ensures !OnADraft(f, h) {
      NoPreBanOnADraft(pools, f, h);
    }
    hide OnADraft, P.Accepted, Distinct, AllStruck, Seeded;
  }

  // ---------------------------------------------------------------- games

  /** In an accepted submission a side fields only heroes the form would offer it, pool aside. */
  lemma PlayedIsOffered(pools: P.Pools, f: Form, g: P.GameInput, i: nat)
    requires Seeded(f) && P.Accepted(pools, ToPayload(f)) && g in f.games && i < 2
    ensures |g.participants| == 2 && IsFieldable(f, i, g.participants[i].hero)
    ensures g.participants[i].hero in Draft(f.sides[i])
  {
    P.AcceptedMeans(pools, ToPayload(f));
    hide P.Accepted, P.NumberedFromOne, P.Resolves, P.Apart, P.OneWinner, P.LoserSurvives, Distinct;
    assert ToPayload(f).games == f.games && P.GameIsRight(ToPayload(f), g);
    assert ToPayload(f).drafts[i] == Draft(f.sides[i]);
    var hero := g.participants[i].hero;
    assert P.Heroes(g)[i] == hero;
    assert hero in Draft(f.sides[i]);
    if hero in f.preBans {
      BannedIsApart(pools, f, hero);
    }
  }

  lemma FieldedIsPlayed(pools: P.Pools, f: Form, heroPool: seq<int>, i: nat)
    requires Seeded(f) && P.Accepted(pools, ToPayload(f)) && i < 2
    ensures FieldsItsOwn(f, heroPool, i) <==>
              forall g :: g in f.games && |g.participants| == 2 && g.participants[i].hero != UNSET ==>
                g.participants[i].hero in heroPool
  {
    hide P.Accepted, IsFieldable, ToPayload, Draft;
    forall g | g in f.games ensures |g.participants| == 2 && IsFieldable(f, i, g.participants[i].hero) {
      PlayedIsOffered(pools, f, g, i);
    }
    hide Seeded;
    forall h ensures h in FieldedIn(f.games, i) <==>
        h != UNSET && exists g :: g in f.games && |g.participants| == 2 && g.participants[i].hero == h
    {
    }
  }

  lemma GamesAreDecided(pools: P.Pools, f: Form)
    requires P.Accepted(pools, ToPayload(f))
    ensures AllDecided(f.games) && f.games != []
  {
    P.AcceptedMeans(pools, ToPayload(f));
    assert ToPayload(f).games == f.games;
    forall g | g in f.games ensures P.OneWinner(g) && !P.LoserSurvives(g) {
      assert P.GameIsRight(ToPayload(f), g);
    }
  }

  /** With no blank on a draft, the games' own checks come down to boards and the form's list of heroes. */
  lemma GamesNeedTheirBoards(pools: P.Pools, f: Form, heroPool: seq<int>)
    requires Seeded(f) && P.Accepted(pools, ToPayload(f))
    requires UNSET !in Draft(f.sides[0]) && UNSET !in Draft(f.sides[1])
    ensures Filled(f.games) && FieldsItsOwn(f, heroPool, 0) && FieldsItsOwn(f, heroPool, 1)
            <==> forall g :: g in f.games ==> g.board != UNSET && PlaysFrom(g, heroPool)
  {
    GamesAreDecided(pools, f);
    FieldedIsPlayed(pools, f, heroPool, 0);
    FieldedIsPlayed(pools, f, heroPool, 1);
    forall g | g in f.games
      ensures |g.participants| == 2 && !BlankHero(g)
      ensures g.participants[0].hero != UNSET && g.participants[1].hero != UNSET
      ensures PlaysFrom(g, heroPool) <==> g.participants[0].hero in heroPool && g.participants[1].hero in heroPool
    {
      PlayedIsOffered(pools, f, g, 0);
      PlayedIsOffered(pools, f, g, 1);
      TwoPlay(g, heroPool);
    }
    hide P.Accepted, ToPayload, Seeded, FieldsItsOwn, BlankHero, PlaysFrom, Draft, AllDecided;
  }

  lemma TwoPlay(g: P.GameInput, heroPool: seq<int>)
    requires |g.participants| == 2
    ensures BlankHero(g) <==> g.participants[0].hero == UNSET || g.participants[1].hero == UNSET
    ensures PlaysFrom(g, heroPool) <==> g.participants[0].hero in heroPool && g.participants[1].hero in heroPool
  {
    assert forall p :: p in g.participants <==> p == g.participants[0] || p == g.participants[1];
  }

  // ---------------------------------------------------------------- the theorems

  lemma BlankBans(f: Form)
    requires |f.sides| == 2
    ensures P.BannedIn(ToPayload(f), UNSET)
            <==> UNSET in f.preBans || UNSET in Struck(f.sides[0].bans) || UNSET in Struck(f.sides[1].bans)
  {
    PayloadNamesBans(f, UNSET);
  }

  lemma BlankArsenal(f: Form, i: nat)
    requires Seeded(f) && i < 2
    ensures UNSET in f.sides[i].arsenal <==> UNSET in Draft(f.sides[i]) || UNSET in Struck(f.sides[i].bans)
  {
  }

  lemma TwoSidesClean(f: Form, heroPool: seq<int>)
    requires |f.sides| == 2
    ensures Clean(f, heroPool)
            <==> TrimEnd(TrimStart(f.link)) != [] && f.unassigned == [] && SidesClean(f.sides) && BansClean(f)
                 && Filled(f.games) && FieldsItsOwn(f, heroPool, 0) && FieldsItsOwn(f, heroPool, 1)
                 && AllDecided(f.games)
  {
    hide TrimEnd, TrimStart, SidesClean, BansClean, Filled, FieldsItsOwn, AllDecided;
  }

  /** A seeded form the server would accept: what the form itself still asks for. */
  lemma SilentOnSeeded(pools: P.Pools, f: Form, heroPool: seq<int>)
    requires Seeded(f) && P.Accepted(pools, ToPayload(f))
    ensures FirstIssue(f, heroPool).None? <==> Ready(f, heroPool)
  {
    assert |f.sides| == 2;
    hide TrimEnd, TrimStart, FirstIssue, Clean, SidesClean, BansClean, Filled, FieldsItsOwn, AllDecided, Seeded, Draft;
    hide ToPayload, P.BannedIn, P.Accepted, PlaysFrom, Struck;
    SilentMeansClean(f, heroPool);
    TwoSidesClean(f, heroPool);
    GamesAreDecided(pools, f);
    SidesNeedTheirHeroes(pools, f);
    BansNeedTheirHeroes(pools, f);
    BlankBans(f);
    BlankArsenal(f, 0);
    BlankArsenal(f, 1);
    if UNSET !in Draft(f.sides[0]) && UNSET !in Draft(f.sides[1]) {
      GamesNeedTheirBoards(pools, f, heroPool);
    }
  }

  /**
  What the form still asks of a recorded match: a link, a side for every typed ban, no blank id,
  and every hero that was played on the list of heroes it has been given.
  */
  ghost predicate Reopenable(d: Saved, heroPool: seq<int>) {
    && TrimEnd(TrimStart(d.link)) != [] && AllSided(d)
    && (forall p :: p in d.participants ==> UNSET !in p.drafted)
    && (forall b :: b in d.bans ==> b.hero != UNSET)
    && forall g :: g in d.games ==> g.board != UNSET && forall p :: p in g.participants ==> p.hero in heroPool
  }

  lemma {:induction false} UnassignedMeans(bans: seq<Ban>)
    ensures Unassigned(bans) == [] <==> forall b :: b in bans ==> b.banType.PreBan? || b.side.Some?
  {
    if bans != [] {
      var init, last := bans[..|bans| - 1], bans[|bans| - 1];
      UnassignedMeans(init);
      assert forall b :: b in bans <==> b in init || b == last;
    }
  }

  lemma SeedingSeeds(pools: P.Pools, s: P.Submission, m: Match, d: Saved)
    requires P.Accepted(pools, s) && ReadsBack(s, m) && Shows(d, m)
    ensures var f := FormFromMatch(d);
      && Seeded(f) && f.link == d.link && f.unassigned == Unassigned(d.bans) && |d.participants| == 2
      && forall i :: 0 <= i < 2 ==> Draft(f.sides[i]) == d.participants[i].drafted
  {
    AcceptedIsLegal(pools, s, m);
    ShownInServerOrder(s, m, d);
    assert |d.participants| == 2 && R.NoneDraftedWhereStruck(d);
    hide P.Accepted, ReadsBack, Legal, Shows, Draft, SidedBans;
    R.DraftsComeBack(d);
    R.ServerOrderIsKept(d);
    hide R.InServerOrder, R.NoneDraftedWhereStruck, O.SortBy;
    var f := FormFromMatch(d);
    forall i | 0 <= i < 2 ensures f.sides[i].arsenal == Draft(f.sides[i]) + Struck(f.sides[i].bans) {
      assert f.sides[i] == SeededSide(d.participants[i], d.bans);
    }
  }

  /** The form asks of the games it is seeded with what is asked of the games on record. */
  lemma SeededGamesAreShown(pools: P.Pools, s: P.Submission, m: Match, d: Saved, heroPool: seq<int>)
    requires P.Accepted(pools, s) && ReadsBack(s, m) && Shows(d, m)
    ensures (forall g :: g in FormFromMatch(d).games ==> g.board != UNSET && PlaysFrom(g, heroPool))
            <==> forall g :: g in d.games ==> g.board != UNSET && forall p :: p in g.participants ==> p.hero in heroPool
  {
    ShownInServerOrder(s, m, d);
    hide P.Accepted, ReadsBack, Shows;
    R.GamesComeBack(d);
    var games := FormFromMatch(d).games;
    hide R.InServerOrder, FormFromMatch, PlaysFrom, R.PlaysOf;
    forall i | 0 <= i < |games|
      ensures PlaysFrom(games[i], heroPool) <==> forall p :: p in d.games[i].participants ==> p.hero in heroPool
      ensures games[i].board == d.games[i].board && games[i] in games && d.games[i] in d.games
    {
      SameHeroes(d.games[i], games[i], heroPool);
    }
  }

  lemma SameHeroes(g: SavedGame, r: P.GameInput, heroPool: seq<int>)
    requires r.participants == R.PlaysOf(g)
    ensures PlaysFrom(r, heroPool) <==> forall p :: p in g.participants ==> p.hero in heroPool
  {
    forall i | 0 <= i < |g.participants|
      ensures r.participants[i] in r.participants && r.participants[i].hero == g.participants[i].hero
    {
    }
  }

  /**
  Opening a recorded match, the form has nothing to say exactly when it is reopenable: there is a
  link, every typed ban has a side, no id is blank, and the heroes played are on the form's list.
  */
  lemma SilentOnReopening(pools: P.Pools, s: P.Submission, m: Match, d: Saved, heroPool: seq<int>)
    requires P.Accepted(pools, s) && ReadsBack(s, m) && Shows(d, m)
    ensures FirstIssue(FormFromMatch(d), heroPool).None? <==> Reopenable(d, heroPool)
  {
    hide TrimEnd, TrimStart, P.Accepted, ReadsBack, Shows, Seeded, Draft, FormFromMatch, ToPayload, PlaysFrom;
    var f := FormFromMatch(d);
    SeedingSeeds(pools, s, m, d);
    UnassignedMeans(d.bans);
    assert f.unassigned == [] <==> AllSided(d);
    if AllSided(d) {
      SavingUnchangedChangesNothing(pools, s, m, d);
      assert P.Accepted(pools, ToPayload(f));
      SilentOnSeeded(pools, f, heroPool);
      SeededGamesAreShown(pools, s, m, d, heroPool);
      BansSent(pools, s, m, d);
      assert forall p :: p in d.participants <==> p == d.participants[0] || p == d.participants[1];
      hide FirstIssue, AllSided;
    } else {
      SilentMeansClean(f, heroPool);
    }
  }

  lemma BansSent(pools: P.Pools, s: P.Submission, m: Match, d: Saved)
    requires P.Accepted(pools, s) && ReadsBack(s, m) && Shows(d, m) && AllSided(d)
    ensures P.BannedIn(ToPayload(FormFromMatch(d)), UNSET) <==> exists b :: b in d.bans && b.hero == UNSET
  {
    ResentPieces(pools, s, m, d);
    assert m.bans == d.bans;
    var sent := Resent(d).bans;
    hide P.Accepted, ReadsBack, Shows, AllSided, FormFromMatch, ToPayload;
    forall b ensures b in sent <==> b in d.bans {
      assert b in multiset(sent) <==> b in multiset(d.bans);
    }
  }
}
