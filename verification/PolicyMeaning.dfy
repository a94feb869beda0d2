/** What each rule of a match submission forbids, said of the submission itself. */
module PolicyMeaning {
  import opened Distinctness
  import opened Options
  import opened StatNames
  import opened MatchResults
  import opened MatchPolicy

  /** The hero is somewhere in the submission: on a draft, among the bans, or playing. */
  ghost predicate Mentions(s: Submission, hero: int) {
    || (exists d :: d in s.drafts && hero in d)
    || (exists b :: b in s.bans && b.hero == hero)
    || (exists g, p :: g in s.games && p in g.participants && p.hero == hero)
  }

  predicate IsNumbered(games: seq<GameInput>, k: int) { exists g :: g in games && g.number == k }

  ghost predicate Forbids(rule: MatchRule, pools: Pools, s: Submission, sides: nat) {
    match rule
    case InvalidParticipantCount => |s.drafts| < sides || |s.drafts| > sides
    case InvalidGameCount => |s.games| == 0
    case GameNumbersNotSequential =>
      exists k :: 1 <= k <= |s.games| && !IsNumbered(s.games, k)
    case MapNotInPool => !((set g | g in s.games :: g.board) <= pools.boards)
    case InvalidGameParticipantCount =>
      exists g :: g in s.games && (|g.participants| < sides || |g.participants| > sides)
    case DuplicateHero =>
      exists g, i, j :: g in s.games && 0 <= i < j < |g.participants|
                        && g.participants[i].hero == g.participants[j].hero
    case DuplicateBan => exists i, j :: 0 <= i < j < |s.bans| && s.bans[i].hero == s.bans[j].hero
    case BanSideInvalid =>
      exists b :: b in s.bans && b.side != None && (b.banType == PreBan || b.side.value !in {0, 1})
    case DuplicatePick => exists d, i, j :: d in s.drafts && 0 <= i < j < |d| && d[i] == d[j]
    case BannedHeroDrafted => exists b, d :: b in s.bans && d in s.drafts && b.hero in d
    case PlayedHeroNotDrafted =>
      exists g, i :: g in s.games && 0 <= i < |g.participants| && i < |s.drafts|
                     && g.participants[i].hero !in s.drafts[i]
    case BannedHeroPlayed =>
      exists b, g, p :: b in s.bans && g in s.games && p in g.participants && p.hero == b.hero
    case NotExactlyOneWinner => exists g :: g in s.games && !WonByOne(g)
    case LoserHasPositiveHealth => exists g, p :: g in s.games && p in g.participants && p.health > 0 && !p.isWinner
    case UnknownHero => exists h :: h !in pools.heroes && Mentions(s, h)
    case HeroNotInPool => exists h :: h in pools.heroes - pools.pool && Mentions(s, h)
    case StatNameMalformed =>
      exists g, p, t :: g in s.games && p in g.participants && t in p.stats && !IsWellFormed(Normalise(t.name))
    case DuplicateStat => exists g, p :: g in s.games && p in g.participants && NamesRepeat(p.stats)
    case StatValueNegative => exists g, p, t :: g in s.games && p in g.participants && t in p.stats && t.value < 0
  }

  ghost predicate NamesRepeat(stats: seq<Stat>) {
    exists i, j :: 0 <= i < j < |stats| && Normalise(stats[i].name) == Normalise(stats[j].name)
  }

  /** Someone won, and no two did. */
  ghost predicate WonByOne(g: GameInput) {
    && (exists i :: 0 <= i < |g.participants| && g.participants[i].isWinner)
    && forall i, j :: 0 <= i < j < |g.participants| ==> !(g.participants[i].isWinner && g.participants[j].isWinner)
  }

  // ---------------------------------------------------------------- rule by rule

  function Range(n: nat): (r: set<int>)
    ensures |r| == n && forall k :: k in r <==> 1 <= k <= n
  {
    if n == 0 then {} else Range(n - 1) + {n}
  }

  lemma NumbersAreGames(games: seq<GameInput>, k: int)
    ensures k in Numbers(games) <==> IsNumbered(games, k)
  {
    if k in Numbers(games) {
      var i :| 0 <= i < |games| && Numbers(games)[i] == k;
      assert games[i] in games;
    }
    if g :| g in games && g.number == k {
      var i :| 0 <= i < |games| && games[i] == g;
      assert Numbers(games)[i] == k;
    }
  }

  lemma OnceInDistinct(s: seq<int>, x: int)
    requires Distinct(s) && x in s
    ensures multiset(s)[x] == 1
  {
    var p :| 0 <= p < |s| && s[p] == x;
    assert s == s[..p] + [s[p]] + s[p + 1..];
    assert s[p] !in s[..p] && s[p] !in s[p + 1..];
  }

  lemma AllOfThemOnce(numbers: seq<int>)
    requires forall k :: 1 <= k <= |numbers| ==> k in numbers
    ensures Distinct(numbers)
  {
    var range := Range(|numbers|);
    assert range <= Members(numbers);
    SetSize(numbers);
    Subset(range, Members(numbers));
  }

  /** N games are numbered 1 to N exactly when none of 1 to N is missing. */
  lemma NumbersAreMissing(games: seq<GameInput>)
    ensures NumberedFromOne(games) <==> forall k :: 1 <= k <= |games| ==> IsNumbered(games, k)
  {
    var numbers := Numbers(games);
    forall k | 1 <= k <= |games| ensures k in numbers <==> IsNumbered(games, k) {
      NumbersAreGames(games, k);
    }
    hide IsNumbered;
    if forall k :: 1 <= k <= |games| ==> IsNumbered(games, k) {
      assert forall k :: 1 <= k <= |games| ==> k in numbers;
      AllOfThemOnce(numbers);
      forall k | 1 <= k <= |games| ensures multiset(numbers)[k] == 1 {
        OnceInDistinct(numbers, k);
      }
    }
    forall k | NumberedFromOne(games) && 1 <= k <= |games| ensures IsNumbered(games, k) {
      assert multiset(numbers)[k] == 1;
    }
  }

  lemma Subset(a: set<int>, b: set<int>)
    requires a <= b
    ensures |a| <= |b|
  {
    assert b == a + (b - a);
  }

  lemma WinnersAreOne(g: GameInput)
    ensures OneWinner(g) <==> WonByOne(g)
  {
    if i :| 0 <= i < |g.participants| && SoleWinner(g.participants, i) {
      assert g.participants[i].isWinner;
    }
    if WonByOne(g) {
      var i :| 0 <= i < |g.participants| && g.participants[i].isWinner;
      assert SoleWinner(g.participants, i);
    }
  }

  lemma HeroesPlay(g: GameInput, hero: int)
    ensures hero in Heroes(g) <==> exists p :: p in g.participants && p.hero == hero
  {
    if hero in Heroes(g) {
      var i :| 0 <= i < |g.participants| && Heroes(g)[i] == hero;
      assert g.participants[i] in g.participants;
    }
    if p :| p in g.participants && p.hero == hero {
      var i :| 0 <= i < |g.participants| && g.participants[i] == p;
      assert Heroes(g)[i] == hero;
    }
  }

  lemma NamedIsMentioned(s: Submission, hero: int)
    ensures NamedIn(s, hero) <==> Mentions(s, hero)
  {
    forall g: GameInput ensures hero in Heroes(g) <==> exists p :: p in g.participants && p.hero == hero {
      HeroesPlay(g, hero);
    }
    hide Heroes;
  }

  lemma RuleAboutNumbers(pools: Pools, s: Submission, sides: nat)
    ensures Breaks(GameNumbersNotSequential, pools, s, sides) <==> Forbids(GameNumbersNotSequential, pools, s, sides)
  {
    NumbersAreMissing(s.games);
    assert |s.games| == 0 <==> s.games == [];
    hide NumberedFromOne, IsNumbered;
  }

  lemma RulesAboutGames(rule: MatchRule, pools: Pools, s: Submission, sides: nat)
    requires rule in {MapNotInPool, InvalidGameParticipantCount, DuplicateHero, NotExactlyOneWinner,
                      LoserHasPositiveHealth, PlayedHeroNotDrafted}
    ensures Breaks(rule, pools, s, sides) <==> Forbids(rule, pools, s, sides)
  {
    match rule
    case DuplicateHero =>
      forall g: GameInput ensures !Distinct(Heroes(g)) <==>
          exists i, j :: 0 <= i < j < |g.participants| && g.participants[i].hero == g.participants[j].hero {
        HeroesRepeat(g);
      }
    case NotExactlyOneWinner =>
      forall g: GameInput ensures OneWinner(g) <==> WonByOne(g) {
        WinnersAreOne(g);
      }
      hide OneWinner, WonByOne;
    case _ =>
  }

  lemma HeroesRepeat(g: GameInput)
    ensures !Distinct(Heroes(g)) <==>
            exists i, j :: 0 <= i < j < |g.participants| && g.participants[i].hero == g.participants[j].hero
  {
    if i, j :| 0 <= i < j < |g.participants| && g.participants[i].hero == g.participants[j].hero {
      assert Heroes(g)[i] == Heroes(g)[j];
    }
  }

  lemma RulesAboutBans(rule: MatchRule, pools: Pools, s: Submission, sides: nat)
    requires rule in {DuplicateBan, BanSideInvalid, DuplicatePick, BannedHeroDrafted, BannedHeroPlayed}
    ensures Breaks(rule, pools, s, sides) <==> Forbids(rule, pools, s, sides)
  {
    match rule
    case DuplicateBan =>
      if i, j :| 0 <= i < j < |s.bans| && s.bans[i].hero == s.bans[j].hero {
        assert BanHeroes(s.bans)[i] == BanHeroes(s.bans)[j];
      }
    case BannedHeroPlayed =>
      forall g: GameInput, hero: int ensures hero in Heroes(g) <==> exists p :: p in g.participants && p.hero == hero {
        HeroesPlay(g, hero);
      }
      hide Heroes;
    case _ =>
  }

  lemma RulesAboutLists(rule: MatchRule, pools: Pools, s: Submission, sides: nat)
    requires rule in {UnknownHero, HeroNotInPool}
    ensures Breaks(rule, pools, s, sides) <==> Forbids(rule, pools, s, sides)
  {
    forall h: int ensures NamedIn(s, h) <==> Mentions(s, h) {
      NamedIsMentioned(s, h);
    }
    hide NamedIn, Mentions;
  }

  lemma RulesAboutStats(rule: MatchRule, pools: Pools, s: Submission, sides: nat)
    requires rule in {StatNameMalformed, DuplicateStat, StatValueNegative}
    ensures Breaks(rule, pools, s, sides) <==> Forbids(rule, pools, s, sides)
  {
    hide IsWellFormed, Normalise;
  }

  /** Each of the nineteen rules is broken by exactly what it forbids. */
  lemma BreaksIsForbidden(rule: MatchRule, pools: Pools, s: Submission, sides: nat)
    ensures Breaks(rule, pools, s, sides) <==> Forbids(rule, pools, s, sides)
  {
    if rule == GameNumbersNotSequential {
      RuleAboutNumbers(pools, s, sides);
    } else if rule in {StatNameMalformed, DuplicateStat, StatValueNegative} {
      RulesAboutStats(rule, pools, s, sides);
    } else if rule in {UnknownHero, HeroNotInPool} {
      RulesAboutLists(rule, pools, s, sides);
    } else if rule in {DuplicateBan, BanSideInvalid, DuplicatePick, BannedHeroDrafted, BannedHeroPlayed} {
      RulesAboutBans(rule, pools, s, sides);
    } else if rule in {MapNotInPool, InvalidGameParticipantCount, DuplicateHero, NotExactlyOneWinner,
                       LoserHasPositiveHealth, PlayedHeroNotDrafted} {
      RulesAboutGames(rule, pools, s, sides);
    }
  }

  /** The order in which a report lists the rules that are broken. */
  function ReportOrder(): seq<MatchRule> {
    [InvalidParticipantCount, InvalidGameCount, GameNumbersNotSequential, MapNotInPool, InvalidGameParticipantCount,
     DuplicateHero, DuplicateBan, BanSideInvalid, DuplicatePick, BannedHeroDrafted, PlayedHeroNotDrafted,
     BannedHeroPlayed, NotExactlyOneWinner, LoserHasPositiveHealth, UnknownHero, HeroNotInPool, StatNameMalformed,
     DuplicateStat, StatValueNegative]
  }

  lemma PlacesAreTheOrder(k: nat)
    requires k < |ReportOrder()|
    ensures |ReportOrder()| == RULES && Place(ReportOrder()[k]) == k
  {
  }

  /** A report in order lists its rules as they stand in the list above. */
  lemma ReportsFollowTheOrder(violations: seq<MatchRule>, i: nat, j: nat, p: nat, q: nat)
    requires InOrder(violations, RULES) && i < j < |violations|
    requires p < |ReportOrder()| && q < |ReportOrder()|
    requires ReportOrder()[p] == violations[i] && ReportOrder()[q] == violations[j]
    ensures p < q
  {
    PlacesAreTheOrder(p);
    PlacesAreTheOrder(q);
    hide ReportOrder, Place;
  }
}
