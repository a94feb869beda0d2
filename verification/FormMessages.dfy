/** Which message the form shows: the first thing wrong with it, each in its own terms. */
module FormMessages {
  import opened Options
  import opened Distinctness
  import opened Ordering
  import opened StatNames
  import opened MatchForms
  import opened FormPolicy
  import opened FormAcceptance
  import P = MatchPolicy

  /** What each message says of the form. */
  ghost predicate Wrong(f: Form, heroPool: seq<int>, issue: Issue) {
    match issue
    case LinkMissing => forall i :: 0 <= i < |f.link| ==> IsSpace(f.link[i])
    case BanUnassigned => f.unassigned != []
    case DraftBlank(side) => side < |f.sides| && UNSET in f.sides[side].arsenal
    case DraftRepeats(side) => side < |f.sides| && !Distinct(f.sides[side].arsenal)
    case BanBlank(side) => side < |f.sides| && exists b :: b in f.sides[side].bans && b.hero == UNSET
    case PreBanBlank => UNSET in f.preBans
    case BannedTwice => exists h :: h != UNSET && multiset(P.BanHeroes(ToPayload(f).bans))[h] > 1
    case PreBannedDrafted => exists h, s :: h in f.preBans && h != UNSET && s in f.sides && h in s.arsenal
    case NoGames => |f.games| == 0
    case BoardBlank => exists g :: g in f.games && g.board == UNSET
    case HeroBlank => exists g, p :: g in f.games && p in g.participants && p.hero == UNSET
    case FieldsStray(side) => side < |f.sides| && Strays(f, heroPool, side)
    case NotOneWinner => exists g :: g in f.games && !P.OneWinner(g)
    case LoserSurvives => exists g, p :: g in f.games && p in g.participants && !p.isWinner && p.health > 0
  }

  /** Some game has the side playing a hero that the form would not offer it. */
  ghost predicate Strays(f: Form, heroPool: seq<int>, side: nat)
    requires side < |f.sides|
  {
    exists g :: g in f.games && side < |g.participants| &&
      var h := g.participants[side].hero;
      h != UNSET && (h !in heroPool || h !in f.sides[side].arsenal || h in f.preBans
                     || exists b :: b in f.sides[side].bans && b.hero == h)
  }

  /** The place of each check: sides are gone through one after the other, all else in one go. */
  function Place(issue: Issue): (int, int) {
    match issue
    case LinkMissing => (0, 0)
    case BanUnassigned => (1, 0)
    case DraftBlank(side) => (2, 3 * side)
    case DraftRepeats(side) => (2, 3 * side + 1)
    case BanBlank(side) => (2, 3 * side + 2)
    case PreBanBlank => (3, 0)
    case BannedTwice => (3, 1)
    case PreBannedDrafted => (3, 2)
    case NoGames => (4, 0)
    case BoardBlank => (4, 1)
    case HeroBlank => (4, 2)
    case FieldsStray(side) => (5, side)
    case NotOneWinner => (6, 0)
    case LoserSurvives => (6, 1)
  }

  predicate Earlier(a: Issue, b: Issue) {
    Place(a).0 < Place(b).0 || (Place(a).0 == Place(b).0 && Place(a).1 < Place(b).1)
  }

  /** Among the checks of one place, nothing is wrong; or this is the first that is. */
  ghost predicate FirstOf(f: Form, heroPool: seq<int>, major: int, found: Option<Issue>) {
    match found
    case None => forall e :: Place(e).0 == major ==> !Wrong(f, heroPool, e)
    case Some(issue) =>
      Place(issue).0 == major && Wrong(f, heroPool, issue)
      && forall e :: Place(e).0 == major && Earlier(e, issue) ==> !Wrong(f, heroPool, e)
  }

  // ---------------------------------------------------------------- place by place

  lemma {:induction false} OnlySpaces(s: string)
    ensures TrimStart(s) == [] <==> forall i :: 0 <= i < |s| ==> IsSpace(s[i])
    ensures TrimEnd(s) == [] <==> forall i :: 0 <= i < |s| ==> IsSpace(s[i])
    ensures TrimStart(s) != [] ==> !IsSpace(TrimStart(s)[0])
    decreases |s|
  {
    hide IsSpace;
    if s != [] {
      OnlySpaces(s[1..]);
      OnlySpaces(s[..|s| - 1]);
      if IsSpace(s[0]) {
        assert forall i :: 1 <= i < |s| ==> s[i] == s[1..][i - 1];
      }
    }
  }

  lemma LinkOf(f: Form, heroPool: seq<int>)
    ensures Wrong(f, heroPool, LinkMissing) <==> TrimEnd(TrimStart(f.link)) == []
  {
    OnlySpaces(f.link);
    OnlySpaces(TrimStart(f.link));
  }

  lemma RepeatsIsNotDistinct(heroes: seq<int>)
    ensures Repeats(heroes) <==> !Distinct(heroes)
  {
  }

  lemma StruckHas(bans: seq<SidedBan>, hero: int)
    ensures hero in Struck(bans) <==> exists b :: b in bans && b.hero == hero
  {
    if b :| b in bans && b.hero == hero {
      var i :| 0 <= i < |bans| && bans[i] == b;
      assert Struck(bans)[i] == hero;
    }
    if hero in Struck(bans) {
      var i :| 0 <= i < |bans| && Struck(bans)[i] == hero;
      assert bans[i] in bans;
    }
  }

  /** One side's three checks, in their order. */
  lemma OneSide(f: Form, heroPool: seq<int>, side: nat)
    requires side < |f.sides|
    ensures var found := SideIssue(f.sides[side], side);
      && (found.None? ==> !Wrong(f, heroPool, DraftBlank(side)) && !Wrong(f, heroPool, DraftRepeats(side))
                          && !Wrong(f, heroPool, BanBlank(side)))
      && (found.Some? ==>
            && Wrong(f, heroPool, found.value)
            && (found.value == DraftBlank(side) || found.value == DraftRepeats(side) || found.value == BanBlank(side))
            && (found.value != DraftBlank(side) ==> !Wrong(f, heroPool, DraftBlank(side)))
            && (found.value == BanBlank(side) ==> !Wrong(f, heroPool, DraftRepeats(side))))
  {
    RepeatsIsNotDistinct(f.sides[side].arsenal);
    StruckHas(f.sides[side].bans, UNSET);
    hide Repeats, Distinct, Struck;
  }

  ghost predicate SideIsRight(f: Form, heroPool: seq<int>, side: nat) {
    !Wrong(f, heroPool, DraftBlank(side)) && !Wrong(f, heroPool, DraftRepeats(side))
    && !Wrong(f, heroPool, BanBlank(side))
  }

  /** The checks of the first `n` sides. */
  ghost predicate FirstOfSides(f: Form, heroPool: seq<int>, n: nat, found: Option<Issue>)
    requires n <= |f.sides|
  {
    match found
    case None => forall side: nat :: side < n ==> SideIsRight(f, heroPool, side)
    case Some(issue) =>
      Place(issue).0 == 2 && Wrong(f, heroPool, issue)
      && forall e :: Place(e).0 == 2 && Earlier(e, issue) ==> !Wrong(f, heroPool, e)
  }

  lemma EarlierSidesAreRight(f: Form, heroPool: seq<int>, side: nat, issue: Issue, e: Issue)
    requires forall k: nat :: k < side ==> SideIsRight(f, heroPool, k)
    requires issue == DraftBlank(side) || issue == DraftRepeats(side) || issue == BanBlank(side)
    requires issue != DraftBlank(side) ==> !Wrong(f, heroPool, DraftBlank(side))
    requires issue == BanBlank(side) ==> !Wrong(f, heroPool, DraftRepeats(side))
    requires Place(e).0 == 2 && Earlier(e, issue)
    ensures !Wrong(f, heroPool, e)
  {
    hide Wrong;
    assert e == DraftBlank(e.side) || e == DraftRepeats(e.side) || e == BanBlank(e.side);
    if e.side < side {
      assert SideIsRight(f, heroPool, e.side);
    }
  }

  lemma {:induction false} Sides(f: Form, heroPool: seq<int>, n: nat)
    requires n <= |f.sides|
    ensures FirstOfSides(f, heroPool, n, SidesIssue(f.sides[..n]))
  {
    hide Wrong, SideIssue, SideIsRight;
    if n > 0 {
      Sides(f, heroPool, n - 1);
      OneSide(f, heroPool, n - 1);
      assert f.sides[..n][..n - 1] == f.sides[..n - 1];
      var before, here := SidesIssue(f.sides[..n - 1]), SideIssue(f.sides[n - 1], n - 1);
      if before.None? && here.Some? {
        forall e | Place(e).0 == 2 && Earlier(e, here.value) ensures !Wrong(f, heroPool, e) {
          EarlierSidesAreRight(f, heroPool, n - 1, here.value, e);
        }
      }
      if before.None? && here.None? {
        RightSide(f, heroPool, n - 1);
      }
    }
  }

  lemma RightSide(f: Form, heroPool: seq<int>, side: nat)
    requires side < |f.sides| && SideIssue(f.sides[side], side).None?
    ensures SideIsRight(f, heroPool, side)
  {
    OneSide(f, heroPool, side);
    hide Wrong, SideIssue;
  }

  lemma SidesAsAPlace(f: Form, heroPool: seq<int>)
    ensures FirstOf(f, heroPool, 2, SidesIssue(f.sides))
  {
    Sides(f, heroPool, |f.sides|);
    assert f.sides[..|f.sides|] == f.sides;
    hide SidesIssue, Distinct;
    forall e | Place(e).0 == 2 && SidesIssue(f.sides).None? ensures !Wrong(f, heroPool, e) {
      if e.side < |f.sides| {
        assert SideIsRight(f, heroPool, e.side);
      }
    }
  }

  lemma TwiceIsCountedTwice(heroes: seq<int>, h: int)
    ensures multiset(heroes)[h] > 1 <==> exists i, j :: 0 <= i < j < |heroes| && heroes[i] == heroes[j] == h
  {
    if i, j :| 0 <= i < j < |heroes| && heroes[i] == heroes[j] == h {
      TwiceCountsTwo(heroes, i, j);
    } else if h in heroes {
      var p :| 0 <= p < |heroes| && heroes[p] == h;
      forall k | 0 <= k < |heroes| && k != p ensures heroes[k] != heroes[p] {
        assert heroes[if k < p then k else p] != h || heroes[if k < p then p else k] != h;
      }
      OnceCountsOne(heroes, p);
    }
  }

  lemma StruckTwiceMeans(heroes: seq<int>)
    ensures StruckTwice(heroes) <==> exists h :: h != UNSET && multiset(heroes)[h] > 1
  {
    if StruckTwice(heroes) {
      var i, j :| 0 <= i < j < |heroes| && heroes[i] == heroes[j] && heroes[j] != UNSET;
      TwiceIsCountedTwice(heroes, heroes[j]);
      assert multiset(heroes)[heroes[j]] > 1;
    }
    if h :| h != UNSET && multiset(heroes)[h] > 1 {
      TwiceIsCountedTwice(heroes, h);
      var i, j :| 0 <= i < j < |heroes| && heroes[i] == heroes[j] == h;
    }
  }

  lemma BansAsAPlace(f: Form, heroPool: seq<int>)
    ensures FirstOf(f, heroPool, 3, BanIssue(f))
  {
    PayloadBans(f);
    StruckTwiceMeans(AllStruck(f));
    hide AllStruck, StruckTwice, ToPayload, P.BanHeroes, Distinct;
    assert StruckTwice(AllStruck(f)) <==> Wrong(f, heroPool, BannedTwice);
    assert (exists h :: h in f.preBans && h != UNSET && OnADraft(f, h)) <==> Wrong(f, heroPool, PreBannedDrafted);
    hide Wrong, OnADraft;
    assert Wrong(f, heroPool, PreBanBlank) <==> HasBlank(f.preBans) by { PreBansOf(f, heroPool); }
    assert forall e :: Place(e).0 == 3 ==> e == PreBanBlank || e == BannedTwice || e == PreBannedDrafted;
  }

  lemma PreBansOf(f: Form, heroPool: seq<int>)
    ensures Wrong(f, heroPool, PreBanBlank) <==> HasBlank(f.preBans)
  {
  }

  lemma BlanksAsAPlace(f: Form, heroPool: seq<int>)
    ensures FirstOf(f, heroPool, 4, BlankIssue(f.games))
  {
    assert (exists g :: g in f.games && BlankHero(g)) <==> Wrong(f, heroPool, HeroBlank);
    hide BlankHero, Distinct, ToPayload;
    assert forall e :: Place(e).0 == 4 ==> e == NoGames || e == BoardBlank || e == HeroBlank;
  }

  lemma StrayHere(f: Form, heroPool: seq<int>, side: nat)
    requires side < |f.sides|
    ensures HasStray(f, heroPool, side) <==> Strays(f, heroPool, side)
  {
    forall h ensures h in Struck(f.sides[side].bans) <==> exists b :: b in f.sides[side].bans && b.hero == h {
      StruckHas(f.sides[side].bans, h);
    }
    hide Struck;
    if HasStray(f, heroPool, side) {
      var h :| h in FieldedIn(f.games, side) && h !in FieldableHeroes(f, heroPool, side);
      var g :| g in f.games && side < |g.participants| && g.participants[side].hero == h;
    }
    if Strays(f, heroPool, side) {
      var g :| g in f.games && side < |g.participants| &&
        var h := g.participants[side].hero;
        h != UNSET && (h !in heroPool || h !in f.sides[side].arsenal || h in f.preBans
                       || exists b :: b in f.sides[side].bans && b.hero == h);
      var h := g.participants[side].hero;
      assert h in FieldedIn(f.games, side) && h !in FieldableHeroes(f, heroPool, side);
    }
  }

  lemma {:induction false} Strayings(f: Form, heroPool: seq<int>, n: nat)
    requires n <= |f.sides|
    ensures match StrayIssue(f, heroPool, n)
            case None => forall side: nat :: side < n ==> !Strays(f, heroPool, side)
            case Some(issue) =>
              issue.FieldsStray? && issue.side < n && Strays(f, heroPool, issue.side)
              && forall side: nat :: side < issue.side ==> !Strays(f, heroPool, side)
  {
    if n > 0 {
      Strayings(f, heroPool, n - 1);
      StrayHere(f, heroPool, n - 1);
    }
    hide Strays, HasStray;
  }

  lemma StraysAsAPlace(f: Form, heroPool: seq<int>)
    ensures FirstOf(f, heroPool, 5, StrayIssue(f, heroPool, |f.sides|))
  {
    Strayings(f, heroPool, |f.sides|);
    hide Strays, StrayIssue, Distinct, ToPayload;
    assert forall e :: Place(e).0 == 5 ==> e.FieldsStray?;
  }

  lemma GamesAsAPlace(f: Form, heroPool: seq<int>)
    ensures FirstOf(f, heroPool, 6, GameIssue(f.games))
  {
    forall g: P.GameInput ensures P.Winners(g.participants) == 1 <==> P.OneWinner(g) {
      P.WinnersCount(g);
    }
    assert (exists g :: g in f.games && P.LoserSurvives(g)) <==> Wrong(f, heroPool, LoserSurvives);
    hide P.OneWinner, P.Winners, P.LoserSurvives, Distinct, ToPayload;
    assert forall e :: Place(e).0 == 6 ==> e == NotOneWinner || e == LoserSurvives;
  }

  // ---------------------------------------------------------------- the theorem

  lemma PlacesDiffer(a: Issue, b: Issue)
    requires Place(a) == Place(b)
    ensures a == b
  {
  }

  /** Of the checks from one place on, nothing is wrong; or this is the first that is. */
  ghost predicate FirstFrom(f: Form, heroPool: seq<int>, major: int, found: Option<Issue>) {
    match found
    case None => forall e :: Place(e).0 >= major ==> !Wrong(f, heroPool, e)
    case Some(issue) =>
      Place(issue).0 >= major && Wrong(f, heroPool, issue)
      && forall e :: Place(e).0 >= major && Earlier(e, issue) ==> !Wrong(f, heroPool, e)
  }

  lemma OnePlaceMore(f: Form, heroPool: seq<int>, major: int, here: Option<Issue>, later: Option<Issue>)
    requires FirstOf(f, heroPool, major, here) && FirstFrom(f, heroPool, major + 1, later)
    ensures FirstFrom(f, heroPool, major, Or(here, later))
  {
    hide Wrong, Place;
  }

  lemma LinkAsAPlace(f: Form, heroPool: seq<int>)
    ensures FirstOf(f, heroPool, 0, if TrimEnd(TrimStart(f.link)) == [] then Some(LinkMissing) else None)
    ensures FirstOf(f, heroPool, 1, if f.unassigned != [] then Some(BanUnassigned) else None)
  {
    LinkOf(f, heroPool);
    assert Wrong(f, heroPool, BanUnassigned) <==> f.unassigned != [];
    hide Wrong, TrimEnd, TrimStart;
    assert forall e :: Place(e).0 == 0 ==> e == LinkMissing;
    assert forall e :: Place(e).0 == 1 ==> e == BanUnassigned;
  }

  lemma NothingAfter(f: Form, heroPool: seq<int>)
    ensures FirstFrom(f, heroPool, 7, None)
  {
    hide Wrong;
  }

  /** What the form shows, place by place. */
  lemma FirstWrong(f: Form, heroPool: seq<int>)
    ensures FirstFrom(f, heroPool, 0, FirstIssue(f, heroPool))
  {
    var games, strays := GameIssue(f.games), StrayIssue(f, heroPool, |f.sides|);
    var blanks, bans, sides := BlankIssue(f.games), BanIssue(f), SidesIssue(f.sides);
    var link := if TrimEnd(TrimStart(f.link)) == [] then Some(LinkMissing) else None;
    var unassigned := if f.unassigned != [] then Some(BanUnassigned) else None;
    hide FirstFrom, FirstOf, TrimEnd, TrimStart, SidesIssue, BanIssue, BlankIssue, StrayIssue, GameIssue;
    LinkAsAPlace(f, heroPool);
    SidesAsAPlace(f, heroPool);
    BansAsAPlace(f, heroPool);
    BlanksAsAPlace(f, heroPool);
    StraysAsAPlace(f, heroPool);
    GamesAsAPlace(f, heroPool);
    NothingAfter(f, heroPool);
    OnePlaceMore(f, heroPool, 6, games, None);
    OnePlaceMore(f, heroPool, 5, strays, games);
    OnePlaceMore(f, heroPool, 4, blanks, Or(strays, games));
    OnePlaceMore(f, heroPool, 3, bans, Or(blanks, Or(strays, games)));
    OnePlaceMore(f, heroPool, 2, sides, Or(bans, Or(blanks, Or(strays, games))));
    OnePlaceMore(f, heroPool, 1, unassigned, Or(sides, Or(bans, Or(blanks, Or(strays, games)))));
    OnePlaceMore(f, heroPool, 0, link, Or(unassigned, Or(sides, Or(bans, Or(blanks, Or(strays, games))))));
  }

  /** The message shown is exactly the one that is true of the form when no earlier one is. */
  lemma MessageIsTheFirst(f: Form, heroPool: seq<int>, issue: Issue)
    ensures FirstIssue(f, heroPool) == Some(issue)
            <==> Wrong(f, heroPool, issue) && forall e :: Earlier(e, issue) ==> !Wrong(f, heroPool, e)
  {
    FirstWrong(f, heroPool);
    assert forall e :: Place(e).0 >= 0;
    hide FirstIssue, Wrong;
    if Wrong(f, heroPool, issue) && forall e :: Earlier(e, issue) ==> !Wrong(f, heroPool, e) {
      var shown := FirstIssue(f, heroPool).value;
      assert !Earlier(shown, issue) && !Earlier(issue, shown);
      PlacesDiffer(shown, issue);
    }
  }
}
