/** What an accepted submission conserves once it is read back as a match and priced. */
module Conservation {
  import opened Options
  import opened Distinctness
  import opened Sums
  import opened Ordering
  import opened Rounding
  import opened StatNames
  import opened MatchResults
  import opened Scoring
  import opened Standings
  import P = MatchPolicy
  import HeroStats
  import H = Holdings

  // ---------------------------------------------------------------- writing and reading back

  /** A participant's stats under their normalised names, later rows overwriting earlier ones. */
  function StoredStats(stats: seq<P.Stat>): map<string, int> {
    if stats == [] then map[]
    else StoredStats(stats[..|stats| - 1])[Normalise(stats[|stats| - 1].name) := stats[|stats| - 1].value]
  }

  function Stored(side: int, p: P.PlayInput): GameParticipant {
    GameParticipant(side, p.hero, p.health, p.isWinner, StoredStats(p.stats))
  }

  ghost predicate SameGame(g: P.GameInput, r: Game) {
    && r.number == g.number && r.board == g.board && |r.participants| == |g.participants|
    && forall i :: 0 <= i < |g.participants| ==> r.participants[i] == Stored(i, g.participants[i])
  }

  /** Sides by position, each draft once and in the order of the names. */
  ghost predicate DraftsReadBack(s: P.Submission, m: Match) {
    && |m.participants| == |s.drafts|
    && forall i :: 0 <= i < |s.drafts| ==>
         m.participants[i].side == i && Distinct(m.participants[i].drafted)
         && forall h :: h in m.participants[i].drafted <==> h in s.drafts[i]
  }

  /** Games by number, under fresh ids. */
  ghost predicate GamesReadBack(s: P.Submission, m: Match) {
    && |m.games| == |s.games|
    && (forall i, j :: 0 <= i < j < |m.games| ==>
          m.games[i].number < m.games[j].number && m.games[i].id != m.games[j].id)
    && NoneInvented(s, m) && NoneLost(s, m)
  }

  ghost predicate NoneInvented(s: P.Submission, m: Match) {
    forall r :: r in m.games ==> exists g :: g in s.games && SameGame(g, r)
  }

  ghost predicate NoneLost(s: P.Submission, m: Match) {
    forall g :: g in s.games ==> exists r :: r in m.games && SameGame(g, r)
  }

  /** The match a submission reads back as, its bans in the order of the names. */
  ghost predicate ReadsBack(s: P.Submission, m: Match) {
    DraftsReadBack(s, m) && GamesReadBack(s, m) && multiset(m.bans) == multiset(s.bans)
  }

  ghost predicate Decided(g: Game) {
    && |g.participants| == 2
    && g.participants[0].hero != g.participants[1].hero
    && (g.participants[0].isWinner <==> !g.participants[1].isWinner)
    && forall p :: p in g.participants && !p.isWinner ==> p.health <= 0
  }

  /** Each fielded hero is on the draft of the side that fielded it. */
  ghost predicate FieldsItsDraft(m: Match, g: Game) {
    forall i :: 0 <= i < |g.participants| && i < |m.participants| ==>
      g.participants[i].hero in m.participants[i].drafted
  }

  ghost predicate Legal(m: Match) {
    && |m.participants| == 2 && m.games != []
    && (forall g :: g in m.games ==> Decided(g) && FieldsItsDraft(m, g))
    && (forall b :: b in m.bans ==>
          (forall p :: p in m.participants ==> b.hero !in p.drafted) && forall g :: g in m.games ==> !Fields(g, b.hero))
  }

  lemma LegalGame(g: P.GameInput, r: Game)
    requires SameGame(g, r)
    requires |g.participants| == 2 && Distinct(P.Heroes(g)) && P.OneWinner(g) && !P.LoserSurvives(g)
    ensures Decided(r)
  {
    assert P.Heroes(g)[0] != P.Heroes(g)[1];
    var i :| 0 <= i < |g.participants| && P.SoleWinner(g.participants, i);
    forall k | 0 <= k < 2 && !r.participants[k].isWinner ensures r.participants[k].health <= 0 {
      assert g.participants[k] in g.participants;
    }
  }

  lemma AcceptedGamesAreLegal(pools: P.Pools, s: P.Submission, m: Match)
    requires P.Accepted(pools, s) && DraftsReadBack(s, m) && GamesReadBack(s, m)
    ensures forall r :: r in m.games ==> Decided(r) && FieldsItsDraft(m, r)
  {
    P.AcceptedMeans(pools, s);
    hide NoneLost;
    forall r | r in m.games ensures Decided(r) && FieldsItsDraft(m, r) {
      var g :| g in s.games && SameGame(g, r);
      hide P.Accepted, P.OneWinner, P.LoserSurvives, P.FieldsUndrafted, Distinct, SameGame, Decided, FieldsItsDraft;
      hide DraftsReadBack, GamesReadBack;
      assert P.GameIsRight(s, g) && Distinct(P.Heroes(g));
      LegalGame(g, r);
    }
  }

  lemma CleanBan(s: P.Submission, m: Match, hero: int)
    requires DraftsReadBack(s, m) && !P.DraftedIn(s, hero)
    ensures forall p :: p in m.participants ==> hero !in p.drafted
  {
    forall p | p in m.participants ensures hero !in p.drafted {
      var i :| 0 <= i < |m.participants| && m.participants[i] == p;
      assert s.drafts[i] in s.drafts;
    }
  }

  lemma SameGameFields(g: P.GameInput, r: Game, hero: int)
    requires SameGame(g, r)
    ensures Fields(r, hero) <==> hero in P.Heroes(g)
  {
    if p :| p in r.participants && p.hero == hero {
      var i :| 0 <= i < |r.participants| && r.participants[i] == p;
      assert P.Heroes(g)[i] == hero;
    }
    if hero in P.Heroes(g) {
      var i :| 0 <= i < |g.participants| && P.Heroes(g)[i] == hero;
      assert r.participants[i] in r.participants && r.participants[i].hero == hero;
    }
  }

  lemma PlayedGetsFielded(s: P.Submission, m: Match, hero: int)
    requires NoneLost(s, m) && P.PlayedIn(s, hero)
    ensures exists r :: r in m.games && Fields(r, hero)
  {
    var g :| g in s.games && hero in P.Heroes(g);
    var r :| r in m.games && SameGame(g, r);
    SameGameFields(g, r, hero);
  }

  lemma FieldedWasPlayed(s: P.Submission, m: Match, r: Game, hero: int)
    requires NoneInvented(s, m) && r in m.games && Fields(r, hero)
    ensures P.PlayedIn(s, hero)
  {
    var g :| g in s.games && SameGame(g, r);
    SameGameFields(g, r, hero);
  }

  lemma PlayedIsFielded(s: P.Submission, m: Match, hero: int)
    requires GamesReadBack(s, m)
    ensures P.PlayedIn(s, hero) <==> exists r :: r in m.games && Fields(r, hero)
  {
    hide Fields, P.PlayedIn, NoneLost, NoneInvented;
    if P.PlayedIn(s, hero) {
      PlayedGetsFielded(s, m, hero);
    }
    if r :| r in m.games && Fields(r, hero) {
      FieldedWasPlayed(s, m, r, hero);
    }
  }

  lemma AcceptedBansAreClean(pools: P.Pools, s: P.Submission, m: Match, b: Ban)
    requires P.Accepted(pools, s) && ReadsBack(s, m) && b in m.bans
    ensures forall p :: p in m.participants ==> b.hero !in p.drafted
    ensures forall g :: g in m.games ==> !Fields(g, b.hero)
  {
    hide P.Accepted, DraftsReadBack, GamesReadBack, P.DraftedIn, P.PlayedIn, Fields, P.Breaks;
    assert b in multiset(s.bans);
    P.AcceptedMeans(pools, s);
    CleanBan(s, m, b.hero);
    PlayedIsFielded(s, m, b.hero);
  }

  lemma AcceptedIsLegal(pools: P.Pools, s: P.Submission, m: Match)
    requires P.Accepted(pools, s) && ReadsBack(s, m)
    ensures Legal(m)
  {
    P.AcceptedMeans(pools, s);
    assert |m.participants| == 2 && m.games != [];
    hide P.Accepted, DraftsReadBack, GamesReadBack, Fields, P.Breaks, FieldsItsDraft, Decided;
    AcceptedGamesAreLegal(pools, s, m);
    forall b | b in m.bans
      ensures forall p :: p in m.participants ==> b.hero !in p.drafted
      ensures forall g :: g in m.games ==> !Fields(g, b.hero)
    {
      AcceptedBansAreClean(pools, s, m, b);
    }
  }

  lemma BanHeroesWithout(bans: seq<Ban>, k: nat)
    requires k < |bans|
    ensures var rest := bans[..k] + bans[k + 1..];
      && |rest| == |bans| - 1 && multiset(rest) == multiset(bans) - multiset{bans[k]}
      && multiset(P.BanHeroes(bans)) == multiset(P.BanHeroes(rest)) + multiset{bans[k].hero}
  {
    var x, y := bans[..k], bans[k + 1..];
    assert bans == x + [bans[k]] + y;
    assert P.BanHeroes(bans) == P.BanHeroes(x) + [bans[k].hero] + P.BanHeroes(y);
    assert P.BanHeroes(x + y) == P.BanHeroes(x) + P.BanHeroes(y);
  }

  lemma {:induction false} BanHeroesPermute(a: seq<Ban>, b: seq<Ban>)
    requires multiset(a) == multiset(b)
    ensures multiset(P.BanHeroes(a)) == multiset(P.BanHeroes(b))
    decreases |a|
  {
    SameLength(a, b);
    if a != [] {
      var n := |a| - 1;
      assert a[n] in multiset(b);
      var k :| 0 <= k < |b| && b[k] == a[n];
      hide P.BanHeroes;
      BanHeroesWithout(a, n);
      BanHeroesWithout(b, k);
      BanHeroesPermute(a[..n] + a[n + 1..], b[..k] + b[k + 1..]);
    }
  }

  lemma BansAgain(a: seq<Ban>, b: seq<Ban>)
    requires multiset(a) == multiset(b) && Distinct(P.BanHeroes(a))
    ensures Distinct(P.BanHeroes(b))
    ensures forall x :: x in b <==> x in a
  {
    BanHeroesPermute(a, b);
    P.RepeatedIsNotDistinct(P.BanHeroes(a));
    P.RepeatedIsNotDistinct(P.BanHeroes(b));
    forall x ensures x in b <==> x in a {
      assert x in multiset(a) <==> x in multiset(b);
    }
  }

  // ---------------------------------------------------------------- summing over the contexts

  function MeasureBy(metric: Metric): Context -> int { (c: Context) => Measure(metric, c) }

  function PointsBy(rules: Rules, metric: Metric): Context -> int { (c: Context) => Contribution(c, rules, metric) }

  function PlayedBy(m: Match, g: Game, i: nat): Context
    requires i < |g.participants|
  {
    Context(m, g.participants[i].hero, Played(g, g.participants[i]))
  }

  lemma PairSum(m: Match, g: Game, f: Context -> int)
    requires |g.participants| == 2
    ensures Sum(PlayedInGame(m, g, g.participants), f) == f(PlayedBy(m, g, 0)) + f(PlayedBy(m, g, 1))
  {
    var cs := PlayedInGame(m, g, g.participants);
    assert cs == [PlayedBy(m, g, 0), PlayedBy(m, g, 1)];
    assert cs[..1] == [PlayedBy(m, g, 0)] && cs[..1][..0] == [];
    assert Sum(cs[..1], f) == f(PlayedBy(m, g, 0));
  }

  /** What each game adds, the series adds up. */
  lemma {:induction false} PlayedSum(m: Match, games: seq<Game>, f: Context -> int, each: Game -> int)
    requires forall g :: g in games ==> |g.participants| == 2 && f(PlayedBy(m, g, 0)) + f(PlayedBy(m, g, 1)) == each(g)
    ensures Sum(PlayedIn(m, games), f) == Sum(games, each)
  {
    if games != [] {
      var init, last := games[..|games| - 1], games[|games| - 1];
      PlayedSum(m, init, f, each);
      assert last in games;
      PairSum(m, last, f);
      SumConcat(PlayedIn(m, init), PlayedInGame(m, last, last.participants), f);
    }
  }

  /** A per-game metric sums over the played contexts alone. */
  lemma PerGameSum(m: Match, f: Context -> int, each: Game -> int)
    requires forall c: Context :: !c.role.Played? ==> f(c) == 0
    requires forall g :: g in m.games ==>
               |g.participants| == 2 && f(PlayedBy(m, g, 0)) + f(PlayedBy(m, g, 1)) == each(g)
    ensures Sum(HeroContexts(m), f) == Sum(m.games, each)
  {
    PartsSum(m, f);
    PlayedSum(m, m.games, f, each);
    SumZero(InRole(m, DraftedHeroes(m), Drafted), f);
    SumZero(InRole(m, BannedHeroes(m), Banned), f);
  }

  function OneEachGame(): Game -> int { (g: Game) => 1 }

  lemma {:induction false} CountedGames(games: seq<Game>)
    ensures Sum(games, OneEachGame()) == |games|
  {
    if games != [] {
      CountedGames(games[..|games| - 1]);
    }
  }

  // ---------------------------------------------------------------- the laws

  /** One win and one loss a game. */
  lemma WinsAndLossesBalance(m: Match)
    requires forall g :: g in m.games ==> Decided(g)
    ensures Sum(HeroContexts(m), MeasureBy(Win)) == |m.games|
    ensures Sum(HeroContexts(m), MeasureBy(Loss)) == |m.games|
  {
    PerGameSum(m, MeasureBy(Win), OneEachGame());
    PerGameSum(m, MeasureBy(Loss), OneEachGame());
    CountedGames(m.games);
  }

  lemma SoleOpponent(m: Match, g: Game, i: nat)
    requires Decided(g) && i < 2
    ensures PlayedBy(m, g, i).Opponents() == [g.participants[1 - i]]
    ensures GapOrZero(PlayedBy(m, g, i)) == g.participants[i].health - g.participants[1 - i].health
  {
    var ps, hero := g.participants, g.participants[i].hero;
    assert ps == [ps[0], ps[1]] && ps[..1] == [ps[0]] && ps[..1][..0] == [];
    assert OpponentsOf(ps[..1][..0], hero) == [];
    assert OpponentsOf(ps[..1], hero) == if i == 0 then [] else [ps[0]];
    assert OpponentsOf(ps, hero) == [ps[1 - i]];
  }

  lemma Negated(gap: int, coefficient: int)
    ensures -gap * coefficient == -(gap * coefficient)
  {
  }

  /** What one side gains in health the other loses, to the rounded hundredth. */
  lemma TwoWayCancelsInAGame(m: Match, g: Game, rules: Rules)
    requires Decided(g)
    ensures Contribution(PlayedBy(m, g, 0), rules, HealthDifferentialTwoWay)
            + Contribution(PlayedBy(m, g, 1), rules, HealthDifferentialTwoWay) == 0
  {
    SoleOpponent(m, g, 0);
    SoleOpponent(m, g, 1);
    hide GapOrZero, Round2;
    var gap, k := GapOrZero(PlayedBy(m, g, 0)), rules.CoefficientOf(HealthDifferentialTwoWay);
    assert GapOrZero(PlayedBy(m, g, 1)) == -gap;
    Negated(gap, k);
    RoundingIsOdd(gap * k);
  }

  lemma TwoWayCancels(m: Match, rules: Rules)
    requires forall g :: g in m.games ==> Decided(g)
    ensures Sum(HeroContexts(m), PointsBy(rules, HealthDifferentialTwoWay)) == 0
  {
    var f := PointsBy(rules, HealthDifferentialTwoWay);
    forall g | g in m.games ensures f(PlayedBy(m, g, 0)) + f(PlayedBy(m, g, 1)) == 0 {
      TwoWayCancelsInAGame(m, g, rules);
    }
    forall c: Context | !c.role.Played? ensures f(c) == 0 {
      assert Measure(HealthDifferentialTwoWay, c) == 0;
    }
    hide Contribution;
    PerGameSum(m, f, (g: Game) => 0);
    SumZero(m.games, (g: Game) => 0);
  }

  lemma {:induction false} OneEach(m: Match, heroes: seq<int>)
    ensures Sum(InRole(m, heroes, Drafted), MeasureBy(Appearance)) == |heroes|
  {
    if heroes != [] {
      var init := heroes[..|heroes| - 1];
      assert InRole(m, heroes, Drafted)[..|heroes| - 1] == InRole(m, init, Drafted);
      OneEach(m, init);
    }
  }

  /** The draft is priced once, however many games are played. */
  lemma AppearancesAreTheDraft(m: Match)
    requires Legal(m)
    ensures Sum(HeroContexts(m), MeasureBy(Appearance)) == |DraftedIn(m.participants)|
    ensures Distinct(DraftedIn(m.participants))
  {
    var f := MeasureBy(Appearance);
    PartsSum(m, f);
    forall c | c in PlayedContexts(m) ensures f(c) == 0 {
      PlayedInMembers(m, m.games, c);
    }
    SumZero(PlayedContexts(m), f);
    SumZero(InRole(m, BannedHeroes(m), Banned), f);
    OneEach(m, DraftedHeroes(m));
    StruckMembers(m.bans, ContextHeroes(PlayedContexts(m)));
    NothingDropped(DraftedIn(m.participants), BannedHeroes(m));
    DraftedInIsDistinct(m.participants);
  }

  function OfType(bans: seq<Ban>, banType: BanType): nat {
    if bans == [] then 0
    else OfType(bans[..|bans| - 1], banType) + (if bans[|bans| - 1].banType == banType then 1 else 0)
  }

  lemma {:induction false} FirstBanIsIts(bans: seq<Ban>, i: nat)
    requires Distinct(P.BanHeroes(bans)) && i < |bans|
    ensures FirstBan(bans, bans[i].hero) == Some(bans[i].banType)
  {
    assert forall k :: 0 <= k < |bans| ==> P.BanHeroes(bans)[k] == bans[k].hero;
    if i > 0 {
      assert P.BanHeroes(bans)[1..] == P.BanHeroes(bans[1..]);
      assert P.BanHeroes(bans)[0] != P.BanHeroes(bans)[i];
      FirstBanIsIts(bans[1..], i - 1);
    }
  }

  lemma OneMoreStruck(bans: seq<Ban>, played: seq<int>)
    requires bans != []
    requires bans[|bans| - 1].hero !in played && bans[|bans| - 1].hero !in StruckHeroes(bans[..|bans| - 1], played)
    ensures StruckHeroes(bans, played) == StruckHeroes(bans[..|bans| - 1], played) + [bans[|bans| - 1].hero]
  {
  }

  lemma {:induction false} EveryBanStrikes(bans: seq<Ban>, played: seq<int>)
    requires forall i, j :: 0 <= i < j < |bans| ==> bans[i].hero != bans[j].hero
    requires forall i :: 0 <= i < |bans| ==> bans[i].hero !in played
    ensures StruckHeroes(bans, played) == P.BanHeroes(bans)
  {
    if bans != [] {
      var n := |bans| - 1;
      var init := bans[..n];
      EveryBanStrikes(init, played);
      hide StruckHeroes;
      assert forall k :: 0 <= k < n ==> P.BanHeroes(init)[k] == bans[k].hero;
      OneMoreStruck(bans, played);
      assert P.BanHeroes(bans) == P.BanHeroes(init) + [bans[n].hero];
    }
  }

  /** The first `n` bans' contexts measure the type asked for, once each. */
  lemma {:induction false} BansOfType(m: Match, n: nat, metric: Metric, banType: BanType)
    requires Distinct(P.BanHeroes(m.bans)) && n <= |m.bans|
    requires (metric == SelfBanned && banType == SelfBan) || (metric == OpponentBanned && banType == OpponentBan)
    ensures Sum(InRole(m, P.BanHeroes(m.bans[..n]), Banned), MeasureBy(metric)) == OfType(m.bans[..n], banType)
  {
    if n > 0 {
      BansOfType(m, n - 1, metric, banType);
      FirstBanIsIts(m.bans, n - 1);
      hide FirstBan, Distinct;
      var cs := InRole(m, P.BanHeroes(m.bans[..n]), Banned);
      assert m.bans[..n][..n - 1] == m.bans[..n - 1];
      assert cs[..n - 1] == InRole(m, P.BanHeroes(m.bans[..n - 1]), Banned);
      assert cs[n - 1] == Context(m, m.bans[n - 1].hero, Banned);
    }
  }

  /** Each ban is priced once, under its own type; a pre-ban under neither. */
  lemma BansArePricedOnce(m: Match, metric: Metric, banType: BanType)
    requires Legal(m) && Distinct(P.BanHeroes(m.bans))
    requires (metric == SelfBanned && banType == SelfBan) || (metric == OpponentBanned && banType == OpponentBan)
    ensures Sum(HeroContexts(m), MeasureBy(metric)) == OfType(m.bans, banType)
  {
    var f, played := MeasureBy(metric), ContextHeroes(PlayedContexts(m));
    PartsSum(m, f);
    forall c | c in PlayedContexts(m) ensures f(c) == 0 {
      PlayedInMembers(m, m.games, c);
    }
    SumZero(PlayedContexts(m), f);
    SumZero(InRole(m, DraftedHeroes(m), Drafted), f);
    forall i | 0 <= i < |m.bans| ensures m.bans[i].hero !in played {
      assert m.bans[i] in m.bans;
      PlayedHeroesAreFielded(m, m.bans[i].hero);
    }
    forall i, j | 0 <= i < j < |m.bans| ensures m.bans[i].hero != m.bans[j].hero {
      assert P.BanHeroes(m.bans)[i] != P.BanHeroes(m.bans)[j];
    }
    hide Legal, MeasureBy, Distinct;
    EveryBanStrikes(m.bans, played);
    BansOfType(m, |m.bans|, metric, banType);
    assert m.bans[..|m.bans|] == m.bans;
  }

  /** Only the winner scores the lead, and its lead is at least the health it kept. */
  lemma WinnersLead(m: Match, g: Game, i: nat)
    requires Decided(g) && i < 2 && g.participants[i].isWinner
    ensures Measure(HealthDifferential, PlayedBy(m, g, i)) == g.participants[i].health - g.participants[1 - i].health
    ensures Measure(HealthDifferential, PlayedBy(m, g, i)) >= Measure(HealthRemaining, PlayedBy(m, g, i))
    ensures Measure(HealthDifferential, PlayedBy(m, g, 1 - i)) == 0
  {
    SoleOpponent(m, g, i);
    hide GapOrZero;
    assert g.participants[1 - i] in g.participants;
  }

  /** The sides of a game that finished on exactly nothing; overkill is not nothing. */
  function OnNothing(): Game -> int { (g: Game) => SidesOnNothing(g.participants) }

  function SidesOnNothing(participants: seq<GameParticipant>): nat {
    if participants == [] then 0
    else
      SidesOnNothing(participants[..|participants| - 1])
      + (if participants[|participants| - 1].health == 0 then 1 else 0)
  }

  lemma ShutoutInAGame(m: Match, g: Game, i: nat)
    requires Decided(g) && i < 2
    ensures Measure(Shutout, PlayedBy(m, g, i)) == if g.participants[1 - i].health == 0 then 1 else 0
  {
    SoleOpponent(m, g, i);
    assert g.participants[1 - i] in PlayedBy(m, g, i).Opponents();
  }

  /** Each shutout has its own side that finished on nothing, a winner that did included. */
  lemma ShutoutsAreSidesOnNothing(m: Match)
    requires forall g :: g in m.games ==> Decided(g)
    ensures Sum(HeroContexts(m), MeasureBy(Shutout)) == Sum(m.games, OnNothing())
  {
    var f := MeasureBy(Shutout);
    forall g | g in m.games ensures |g.participants| == 2
      ensures f(PlayedBy(m, g, 0)) + f(PlayedBy(m, g, 1)) == OnNothing()(g)
    {
      ShutoutInAGame(m, g, 0);
      ShutoutInAGame(m, g, 1);
      assert g.participants[..1] == [g.participants[0]] && g.participants[..1][..0] == [];
      assert SidesOnNothing(g.participants[..1]) == if g.participants[0].health == 0 then 1 else 0;
    }
    PerGameSum(m, f, OnNothing());
  }

  lemma {:induction false} FieldedAtLeastOnce(games: seq<Game>, g: Game, hero: int)
    requires g in games && Fields(g, hero)
    ensures GamesFielding(games, hero) >= 1
  {
    var init, last := games[..|games| - 1], games[|games| - 1];
    if g != last {
      FieldedAtLeastOnce(init, g, hero);
    }
  }

  lemma NoHeroTwiceInLegal(m: Match)
    requires Legal(m)
    ensures forall g :: g in m.games ==> NoHeroTwice(g)
  {
    hide Fields;
    forall g | g in m.games ensures NoHeroTwice(g) {
      assert Decided(g);
    }
  }

  /** A fielded hero has its draft once, a context for each of its games, and no ban. */
  lemma FieldedHeroes(m: Match, hero: int)
    requires Legal(m) && exists g :: g in m.games && Fields(g, hero)
    ensures Count(HeroContexts(m), hero, WasDrafted) == 1
    ensures Count(HeroContexts(m), hero, WasPlayed) == GamesFielding(m.games, hero) >= 1
    ensures Count(HeroContexts(m), hero, WasBanned) == 0
  {
    var g :| g in m.games && Fields(g, hero);
    assert |m.participants| == 2 && Decided(g) && FieldsItsDraft(m, g);
    hide Legal, Fields, NoHeroTwice, HeroContexts, Count, GamesFielding, Decided, FieldsItsDraft;
    NoHeroTwiceInLegal(m);
    SeriesContextsAreOnce(m, hero);
    CountParts(m, hero, WasPlayed);
    PlayedContextsArePerGame(m, m.games, hero);
    FieldedAtLeastOnce(m.games, g, hero);
  }

  /** A banned hero has exactly the one context. */
  lemma BannedHeroesHaveOne(m: Match, b: Ban)
    requires Legal(m) && b in m.bans
    ensures Count(HeroContexts(m), b.hero, WasBanned) == 1
    ensures Count(HeroContexts(m), b.hero, WasDrafted) == 0
    ensures Count(HeroContexts(m), b.hero, WasPlayed) == 0
  {
    SeriesContextsAreOnce(m, b.hero);
    CountParts(m, b.hero, WasPlayed);
    forall c | c in PlayedContexts(m) ensures c.hero != b.hero {
      PlayedInMembers(m, m.games, c);
      assert !Fields(c.role.game, b.hero);
    }
    CountNone(PlayedContexts(m), b.hero, WasPlayed);
  }

  /** Everything an accepted submission conserves. */
  lemma AcceptedMatchesConserve(pools: P.Pools, s: P.Submission, m: Match, rules: Rules)
    requires P.Accepted(pools, s) && ReadsBack(s, m)
    ensures Sum(HeroContexts(m), MeasureBy(Win)) == Sum(HeroContexts(m), MeasureBy(Loss)) == |s.games|
    ensures Sum(HeroContexts(m), PointsBy(rules, HealthDifferentialTwoWay)) == 0
    ensures Sum(HeroContexts(m), MeasureBy(Shutout)) == Sum(m.games, OnNothing())
    ensures Sum(HeroContexts(m), MeasureBy(Appearance)) == |set d, h | d in s.drafts && h in d :: h|
    ensures Sum(HeroContexts(m), MeasureBy(SelfBanned)) == OfType(m.bans, SelfBan)
    ensures Sum(HeroContexts(m), MeasureBy(OpponentBanned)) == OfType(m.bans, OpponentBan)
    ensures forall hero :: P.PlayedIn(s, hero) ==>
              && Count(HeroContexts(m), hero, WasDrafted) == 1
              && Count(HeroContexts(m), hero, WasPlayed) == GamesFielding(m.games, hero) >= 1
              && Count(HeroContexts(m), hero, WasBanned) == 0
    ensures forall hero :: P.BannedIn(s, hero) ==>
              && Count(HeroContexts(m), hero, WasBanned) == 1
              && Count(HeroContexts(m), hero, WasDrafted) == 0
              && Count(HeroContexts(m), hero, WasPlayed) == 0
  {
    AcceptedIsLegal(pools, s, m);
    assert forall g :: g in m.games ==> Decided(g);
    hide P.Accepted, DraftsReadBack, GamesReadBack, HeroContexts, Count, Decided, GamesFielding, MeasureBy, PointsBy;
    WinsAndLossesBalance(m);
    ShutoutsAreSidesOnNothing(m);
    TwoWayCancels(m, rules);
    AppearancesAreTheDraft(m);
    RecordedBansAreDistinct(pools, s, m);
    BansArePricedOnce(m, SelfBanned, SelfBan);
    BansArePricedOnce(m, OpponentBanned, OpponentBan);
    DraftSize(s, m);
    assert |m.games| == |s.games| by { AsManyGames(s, m); }
    hide P.PlayedIn, Legal, Fields, DraftedIn;
    forall hero | P.PlayedIn(s, hero)
      ensures Count(HeroContexts(m), hero, WasDrafted) == 1
      ensures Count(HeroContexts(m), hero, WasPlayed) == GamesFielding(m.games, hero) >= 1
      ensures Count(HeroContexts(m), hero, WasBanned) == 0
    {
      PlayedIsFielded(s, m, hero);
      FieldedHeroes(m, hero);
    }
    forall hero | P.BannedIn(s, hero)
      ensures Count(HeroContexts(m), hero, WasBanned) == 1
      ensures Count(HeroContexts(m), hero, WasDrafted) == 0
      ensures Count(HeroContexts(m), hero, WasPlayed) == 0
    {
      var b :| b in s.bans && b.hero == hero;
      assert b in multiset(m.bans);
      BannedHeroesHaveOne(m, b);
    }
  }

  lemma RecordedBansAreDistinct(pools: P.Pools, s: P.Submission, m: Match)
    requires P.Accepted(pools, s) && multiset(m.bans) == multiset(s.bans)
    ensures Distinct(P.BanHeroes(m.bans))
  {
    P.AcceptedMeans(pools, s);
    BansAgain(s.bans, m.bans);
  }

  lemma AsManyGames(s: P.Submission, m: Match)
    requires GamesReadBack(s, m)
    ensures |m.games| == |s.games|
  {
  }

  lemma DraftSize(s: P.Submission, m: Match)
    requires DraftsReadBack(s, m)
    ensures |DraftedIn(m.participants)| == |set d, h | d in s.drafts && h in d :: h|
  {
    var heroes, drafted := DraftedIn(m.participants), set d, h | d in s.drafts && h in d :: h;
    forall h ensures h in heroes <==> h in drafted {
      if d :| d in s.drafts && h in d {
        var i :| 0 <= i < |s.drafts| && s.drafts[i] == d;
        assert m.participants[i] in m.participants;
      }
      if p :| p in m.participants && h in p.drafted {
        var i :| 0 <= i < |m.participants| && m.participants[i] == p;
        assert s.drafts[i] in s.drafts;
      }
    }
    DraftedInIsDistinct(m.participants);
    SetSize(heroes);
    assert Members(heroes) == drafted;
  }

  // ---------------------------------------------------------------- across the hero tables

  function HeroMatchBy(rules: Rules, contexts: seq<Context>, metric: Metric): int -> int {
    hero => HeroStats.HeroInMatch(rules, contexts, hero, InColumn(ForMetric(metric)))
  }

  function HeroPointsBy(rules: Rules, matches: seq<Match>, metric: Metric): int -> int {
    hero => HeroStats.HeroPoints(rules, matches, hero, InColumn(ForMetric(metric)))
  }

  /** Grouped by hero or not, a match's contexts are worth the same, if the pool has every hero. */
  lemma {:induction false} PoolInMatch(rules: Rules, pool: seq<int>, contexts: seq<Context>, metric: Metric)
    requires Distinct(pool) && forall c :: c in contexts ==> c.hero in pool
    ensures Sum(pool, HeroMatchBy(rules, contexts, metric)) == Sum(contexts, PointsBy(rules, metric))
  {
    if contexts == [] {
      SumZero(pool, HeroMatchBy(rules, contexts, metric));
    } else {
      var init, c := contexts[..|contexts| - 1], contexts[|contexts| - 1];
      PoolInMatch(rules, pool, init, metric);
      var worth := Contribution(c, rules, metric);
      var g := (h: int) => if h == c.hero then worth else 0;
      assert c in contexts;
      SumAtMostOnce(pool, g, c.hero);
      forall hero
        ensures HeroMatchBy(rules, contexts, metric)(hero) == HeroMatchBy(rules, init, metric)(hero) + g(hero)
      {
        assert H.RosterAt({hero}, [], c.result.round) == {hero};
      }
      hide HeroMatchBy;
      SumSplit(pool, HeroMatchBy(rules, contexts, metric), HeroMatchBy(rules, init, metric), g);
    }
  }

  /** A match some accepted submission reads back as. */
  ghost predicate Recorded(pools: P.Pools, m: Match) {
    exists s :: P.Accepted(pools, s) && ReadsBack(s, m)
  }

  lemma ContextHeroIsNamed(s: P.Submission, m: Match, c: Context)
    requires ReadsBack(s, m) && c in HeroContexts(m)
    ensures P.NamedIn(s, c.hero)
  {
    hide GamesReadBack, P.PlayedIn, Fields;
    if c in PlayedContexts(m) {
      PlayedInMembers(m, m.games, c);
      assert Fields(c.role.game, c.hero) by { ItsOwnGameFields(c); }
      PlayedIsFielded(s, m, c.hero);
    } else if c in InRole(m, DraftedHeroes(m), Drafted) {
      var p :| p in m.participants && c.hero in p.drafted;
      var i :| 0 <= i < |m.participants| && m.participants[i] == p;
      assert s.drafts[i] in s.drafts && c.hero in s.drafts[i];
    } else {
      assert c.hero in BannedHeroes(m);
      StruckMembers(m.bans, ContextHeroes(PlayedContexts(m)));
      var b :| b in m.bans && b.hero == c.hero;
      assert b in multiset(m.bans);
    }
  }

  lemma ItsOwnGameFields(c: Context)
    requires c.role.Played? && c.role.participant in c.role.game.participants && c.hero == c.role.participant.hero
    ensures Fields(c.role.game, c.hero)
  {
  }

  lemma RecordedHeroesAreInPool(pools: P.Pools, m: Match)
    requires Recorded(pools, m)
    ensures forall c :: c in HeroContexts(m) ==> c.hero in pools.pool
  {
    hide P.Accepted, ReadsBack, P.NamedIn;
    var s :| P.Accepted(pools, s) && ReadsBack(s, m);
    P.AcceptedMeans(pools, s);
    hide HeroContexts;
    forall c | c in HeroContexts(m) ensures c.hero in pools.pool {
      ContextHeroIsNamed(s, m, c);
    }
  }

  lemma RecordedTwoWayCancels(pools: P.Pools, m: Match, rules: Rules)
    requires Recorded(pools, m)
    ensures Sum(HeroContexts(m), PointsBy(rules, HealthDifferentialTwoWay)) == 0
  {
    hide P.Accepted, ReadsBack, Decided;
    var s :| P.Accepted(pools, s) && ReadsBack(s, m);
    AcceptedIsLegal(pools, s, m);
    TwoWayCancels(m, rules);
  }

  /**
  Down a whole tournament the two-way differential column of the hero table sums to nothing: what
  any hero of the pool gained, others lost.
  */
  lemma {:induction false} TwoWayColumnCancels(pools: P.Pools, rules: Rules, pool: seq<int>, matches: seq<Match>)
    requires Distinct(pool) && forall h :: h in pools.pool ==> h in pool
    requires forall m :: m in matches ==> Recorded(pools, m)
    ensures Sum(pool, HeroPointsBy(rules, matches, HealthDifferentialTwoWay)) == 0
  {
    hide Recorded, HeroContexts, Distinct, NaiveInMatch;
    var metric := HealthDifferentialTwoWay;
    if matches == [] {
      SumZero(pool, HeroPointsBy(rules, matches, metric));
    } else {
      var init, last := matches[..|matches| - 1], matches[|matches| - 1];
      TwoWayColumnCancels(pools, rules, pool, init);
      assert last in matches;
      RecordedHeroesAreInPool(pools, last);
      RecordedTwoWayCancels(pools, last, rules);
      PoolInMatch(rules, pool, HeroContexts(last), metric);
      SumSplit(pool, HeroPointsBy(rules, matches, metric), HeroPointsBy(rules, init, metric),
               HeroMatchBy(rules, HeroContexts(last), metric));
    }
  }
}
