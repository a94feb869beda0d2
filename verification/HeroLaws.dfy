/** What each hero measures over a match, read off the games, drafts and bans instead of the contexts. */
module HeroLaws {
  import opened Distinctness
  import opened Sums
  import opened MatchResults
  import opened Scoring
  import opened Conservation
  import P = MatchPolicy

  /** A hero's share of a sum over contexts. */
  function OfHero(hero: int, f: Context -> int): Context -> int { (c: Context) => if c.hero == hero then f(c) else 0 }

  /** A metric summed over a hero's contexts of a match, before any coefficient. */
  function HeroTotal(m: Match, hero: int, metric: Metric): int {
    Sum(HeroContexts(m), OfHero(hero, MeasureBy(metric)))
  }

  // ---------------------------------------------------------------- the references

  predicate Won(g: Game, hero: int) { exists p :: p in g.participants && p.hero == hero && p.isWinner }

  /** Played by the hero and won by another. */
  predicate LostTo(g: Game, hero: int) {
    Fields(g, hero) && exists q :: q in g.participants && q.hero != hero && q.isWinner
  }

  function WinsBy(hero: int): Game -> int { (g: Game) => if Won(g, hero) then 1 else 0 }

  function LossesBy(hero: int): Game -> int { (g: Game) => if LostTo(g, hero) then 1 else 0 }

  /** The health the hero's participant finished a game on. */
  function KeptBy(hero: int): Game -> int {
    (g: Game) => Sum(g.participants, (p: GameParticipant) => if p.hero == hero then p.health else 0)
  }

  /** The health everyone else in a game finished on. */
  function FacedBy(hero: int): Game -> int {
    (g: Game) => Sum(g.participants, (p: GameParticipant) => if p.hero == hero then 0 else p.health)
  }

  function LeadOf(hero: int): Game -> int {
    (g: Game) => if Fields(g, hero) then KeptBy(hero)(g) - FacedBy(hero)(g) else 0
  }

  function WinningLeadOf(hero: int): Game -> int { (g: Game) => if Won(g, hero) then LeadOf(hero)(g) else 0 }

  /** Games in which everyone but the hero finished on nothing. */
  function SweptBy(hero: int): Game -> int {
    (g: Game) =>
      if Fields(g, hero) && (forall p :: p in g.participants && p.hero != hero ==> p.health == 0) then 1 else 0
  }

  function PerGame(metric: Metric, hero: int): Game -> int {
    match metric
    case Win => WinsBy(hero)
    case Loss => LossesBy(hero)
    case HealthRemaining => KeptBy(hero)
    case HealthDifferential => WinningLeadOf(hero)
    case HealthDifferentialTwoWay => LeadOf(hero)
    case Shutout => SweptBy(hero)
    case _ => (g: Game) => 0
  }

  predicate IsPerGame(metric: Metric) { !metric.Appearance? && !metric.SelfBanned? && !metric.OpponentBanned? }

  // ---------------------------------------------------------------- game by game

  lemma TwoInAGame(g: Game, f: GameParticipant -> int)
    requires |g.participants| == 2
    ensures Sum(g.participants, f) == f(g.participants[0]) + f(g.participants[1])
    ensures forall p :: p in g.participants <==> p == g.participants[0] || p == g.participants[1]
  {
    assert g.participants[..1] == [g.participants[0]] && g.participants[..1][..0] == [];
    assert Sum(g.participants[..1], f) == f(g.participants[0]);
  }

  /** The game's record of a hero, side by side. */
  lemma RecordOfTheGame(g: Game, hero: int)
    requires Decided(g)
    ensures var a, b := g.participants[0], g.participants[1];
      && (Won(g, hero) <==> (a.hero == hero && a.isWinner) || (b.hero == hero && b.isWinner))
      && (LostTo(g, hero) <==> (a.hero == hero && b.isWinner) || (b.hero == hero && a.isWinner))
      && (SweptBy(hero)(g) == 1 <==> (a.hero == hero && b.health == 0) || (b.hero == hero && a.health == 0))
      && (Fields(g, hero) <==> a.hero == hero || b.hero == hero)
  {
    var a, b := g.participants[0], g.participants[1];
    assert a in g.participants && b in g.participants;
    assert forall p :: p in g.participants <==> p == a || p == b;
  }

  lemma HealthOfTheGame(g: Game, hero: int)
    requires Decided(g)
    ensures var a, b := g.participants[0], g.participants[1];
      && KeptBy(hero)(g) == (if a.hero == hero then a.health else 0) + (if b.hero == hero then b.health else 0)
      && FacedBy(hero)(g) == (if a.hero == hero then 0 else a.health) + (if b.hero == hero then 0 else b.health)
  {
    TwoInAGame(g, (p: GameParticipant) => if p.hero == hero then p.health else 0);
    TwoInAGame(g, (p: GameParticipant) => if p.hero == hero then 0 else p.health);
  }

  lemma LeadOfTheGame(g: Game, hero: int)
    requires Decided(g)
    ensures var a, b := g.participants[0], g.participants[1];
      && LeadOf(hero)(g)
         == (if a.hero == hero then a.health - b.health else if b.hero == hero then b.health - a.health else 0)
      && WinningLeadOf(hero)(g) == if Won(g, hero) then LeadOf(hero)(g) else 0
  {
    HealthOfTheGame(g, hero);
    RecordOfTheGame(g, hero);
    hide KeptBy, FacedBy, Won, Fields;
  }

  lemma PairIsTheGames(m: Match, g: Game, hero: int, metric: Metric)
    requires Decided(g) && IsPerGame(metric)
    ensures var f := OfHero(hero, MeasureBy(metric));
      f(PlayedBy(m, g, 0)) + f(PlayedBy(m, g, 1)) == PerGame(metric, hero)(g)
  {
    SoleOpponent(m, g, 0);
    SoleOpponent(m, g, 1);
    RecordOfTheGame(g, hero);
    HealthOfTheGame(g, hero);
    ShutoutInAGame(m, g, 0);
    ShutoutInAGame(m, g, 1);
    assert SweptBy(hero)(g) == 0 || SweptBy(hero)(g) == 1;
    LeadOfTheGame(g, hero);
    hide GapOrZero, KeptBy, FacedBy, LeadOf, WinningLeadOf, Won, LostTo, Fields, SweptBy;
  }

  /** A per-game metric of one hero is that hero's record in the games, whatever the contexts are. */
  lemma HeroMetricIsItsGames(m: Match, hero: int, metric: Metric)
    requires (forall g :: g in m.games ==> Decided(g)) && IsPerGame(metric)
    ensures HeroTotal(m, hero, metric) == Sum(m.games, PerGame(metric, hero))
  {
    var f := OfHero(hero, MeasureBy(metric));
    forall g | g in m.games
      ensures |g.participants| == 2 && f(PlayedBy(m, g, 0)) + f(PlayedBy(m, g, 1)) == PerGame(metric, hero)(g)
    {
      PairIsTheGames(m, g, hero, metric);
    }
    forall c: Context | !c.role.Played? ensures f(c) == 0 {
    }
    hide Decided, PerGame;
    PerGameSum(m, f, PerGame(metric, hero));
  }

  // ---------------------------------------------------------------- drafts and bans

  /** A metric that measures one amount in each of a hero's contexts of a kind, and nothing elsewhere. */
  lemma {:induction false} KindSum(cs: seq<Context>, hero: int, kind: Kind, f: Context -> int, each: int)
    requires forall c :: c in cs ==> f(c) == if c.hero == hero && KindOf(c.role) == kind then each else 0
    ensures Sum(cs, f) == each * Count(cs, hero, kind)
  {
    if cs != [] {
      var init, last := cs[..|cs| - 1], cs[|cs| - 1];
      assert last in cs;
      KindSum(init, hero, kind, f, each);
      assert each * (Count(init, hero, kind) + 1) == each * Count(init, hero, kind) + each;
    }
  }

  /** One appearance for a hero on a draft that has no ban's context, and none for any other. */
  lemma HeroAppearsOnce(m: Match, hero: int)
    ensures HeroTotal(m, hero, Appearance) == Count(HeroContexts(m), hero, WasDrafted)
  {
    hide HeroContexts;
    KindSum(HeroContexts(m), hero, WasDrafted, OfHero(hero, MeasureBy(Appearance)), 1);
  }

  lemma ContextsAreTheMatchs(m: Match)
    ensures forall c :: c in HeroContexts(m) ==> c.result == m
  {
    forall c | c in PlayedContexts(m) ensures c.result == m {
      PlayedInMembers(m, m.games, c);
    }
  }

  /** Each of a legal match's bans measures once for its own hero, under its own type and no other. */
  lemma HeroIsBannedAsItWas(m: Match, b: Ban, metric: Metric)
    requires Legal(m) && Distinct(P.BanHeroes(m.bans)) && b in m.bans
    requires metric == SelfBanned || metric == OpponentBanned
    ensures HeroTotal(m, b.hero, metric)
            == if b.banType == (if metric == SelfBanned then SelfBan else OpponentBan) then 1 else 0
  {
    var i :| 0 <= i < |m.bans| && m.bans[i] == b;
    forall k | 0 <= k < i ensures m.bans[k].hero != b.hero {
      assert P.BanHeroes(m.bans)[k] != P.BanHeroes(m.bans)[i];
    }
    FirstBanIsFirst(m.bans, i);
    BannedHeroesHaveOne(m, b);
    ContextsAreTheMatchs(m);
    hide HeroContexts, FirstBan, Legal, Distinct;
    var each := if b.banType == (if metric == SelfBanned then SelfBan else OpponentBan) then 1 else 0;
    KindSum(HeroContexts(m), b.hero, WasBanned, OfHero(b.hero, MeasureBy(metric)), each);
  }

  /** A hero no ban names is priced for none. */
  lemma UnbannedHeroesAreNot(m: Match, hero: int, metric: Metric)
    requires forall b :: b in m.bans ==> b.hero != hero
    requires metric == SelfBanned || metric == OpponentBanned
    ensures HeroTotal(m, hero, metric) == 0
  {
    ContextsAreTheMatchs(m);
    hide HeroContexts, FirstBan;
    SumZero(HeroContexts(m), OfHero(hero, MeasureBy(metric)));
  }

  /** For every hero of every accepted submission, what each of the nine metrics comes to. */
  lemma AcceptedHeroesEarnTheirOwn(pools: P.Pools, s: P.Submission, m: Match, hero: int)
    requires P.Accepted(pools, s) && ReadsBack(s, m)
    ensures forall metric :: IsPerGame(metric) ==>
              HeroTotal(m, hero, metric) == Sum(m.games, PerGame(metric, hero))
    ensures HeroTotal(m, hero, Appearance) == if P.DraftedIn(s, hero) then 1 else 0
    ensures HeroTotal(m, hero, SelfBanned)
            == if exists b :: b in s.bans && b.hero == hero && b.banType == SelfBan then 1 else 0
    ensures HeroTotal(m, hero, OpponentBanned)
            == if exists b :: b in s.bans && b.hero == hero && b.banType == OpponentBan then 1 else 0
  {
    AcceptedIsLegal(pools, s, m);
    RecordedBansAreDistinct(pools, s, m);
    assert forall g :: g in m.games ==> Decided(g);
    forall metric | IsPerGame(metric) ensures HeroTotal(m, hero, metric) == Sum(m.games, PerGame(metric, hero)) {
      HeroMetricIsItsGames(m, hero, metric);
    }
    hide HeroTotal, Decided, P.Accepted, GamesReadBack;
    AcceptedAppearance(s, m, hero);
    AcceptedBans(s, m, hero, SelfBanned);
    AcceptedBans(s, m, hero, OpponentBanned);
  }

  lemma DraftsAreRecorded(s: P.Submission, m: Match, hero: int)
    requires DraftsReadBack(s, m)
    ensures (exists p :: p in m.participants && hero in p.drafted) <==> P.DraftedIn(s, hero)
  {
    if p :| p in m.participants && hero in p.drafted {
      var i :| 0 <= i < |m.participants| && m.participants[i] == p;
      assert s.drafts[i] in s.drafts && hero in s.drafts[i];
    }
    if d :| d in s.drafts && hero in d {
      var i :| 0 <= i < |s.drafts| && s.drafts[i] == d;
      assert m.participants[i] in m.participants;
    }
  }

  lemma AcceptedAppearance(s: P.Submission, m: Match, hero: int)
    requires Legal(m) && DraftsReadBack(s, m)
    ensures HeroTotal(m, hero, Appearance) == if P.DraftedIn(s, hero) then 1 else 0
  {
    DraftsAreRecorded(s, m, hero);
    HeroAppearsOnce(m, hero);
    SeriesContextsAreOnce(m, hero);
    hide HeroTotal, HeroContexts, Count, Fields, P.DraftedIn, DraftsReadBack;
    if exists p :: p in m.participants && hero in p.drafted {
      assert forall b :: b in m.bans ==> b.hero != hero;
    }
  }

  lemma AcceptedBans(s: P.Submission, m: Match, hero: int, metric: Metric)
    requires Legal(m) && Distinct(P.BanHeroes(m.bans)) && multiset(m.bans) == multiset(s.bans)
    requires metric == SelfBanned || metric == OpponentBanned
    ensures HeroTotal(m, hero, metric)
            == if exists b :: b in s.bans && b.hero == hero
                              && b.banType == (if metric == SelfBanned then SelfBan else OpponentBan) then 1 else 0
  {
    forall b ensures b in s.bans <==> b in m.bans {
      assert b in multiset(s.bans) <==> b in multiset(m.bans);
    }
    hide HeroTotal, Legal;
    if b :| b in m.bans && b.hero == hero {
      HeroIsBannedAsItWas(m, b, metric);
      forall x | x in m.bans && x.hero == hero ensures x == b {
        var i :| 0 <= i < |m.bans| && m.bans[i] == b;
        var k :| 0 <= k < |m.bans| && m.bans[k] == x;
        assert P.BanHeroes(m.bans)[i] == P.BanHeroes(m.bans)[k];
      }
    } else {
      UnbannedHeroesAreNot(m, hero, metric);
    }
  }
}
