/**
The leaderboard fold.  Each context is priced once, grouped by hero, and credited to an entry
through the holdings rebuilt from its swap log; what that refines is the plain sum over the
contexts of the heroes it held in the round each match was played.
*/
module Standings {
  import opened Options
  import opened Distinctness
  import opened Sums
  import opened Rounding
  import opened MatchResults
  import opened Scoring
  import opened RosterRoles
  import H = Holdings

  datatype Column = ForMetric(metric: Metric) | ForRoleBonus

  /** What can be asked of a context: one column, everything, or everything if in one round. */
  datatype Tally = InColumn(column: Column) | Everything | InRound(round: int)

  datatype EntryRoster = EntryRoster(
    entry: int, manager: int, handle: int, heroes: seq<int>, swaps: seq<H.Swap>, roles: seq<Assignment>)

  /** One hero's part in one match, priced once whoever holds the hero. */
  datatype Priced = Priced(hero: int, round: int, entries: seq<Entry>, stats: Option<map<string, int>>)

  datatype Row = Row(
    rank: int, entry: int, manager: int, handle: int, total: int, roundPoints: int, breakdown: map<Column, int>)

  function StatsOf(c: Context): Option<map<string, int>> {
    if c.role.Played? then Some(c.role.participant.stats) else None
  }

  function Price(c: Context, rules: Rules): Priced {
    Priced(c.hero, c.result.round, Breakdown(c, rules), StatsOf(c))
  }

  function PriceAll(contexts: seq<Context>, rules: Rules): seq<Priced> {
    if contexts == [] then []
    else PriceAll(contexts[..|contexts| - 1], rules) + [Price(contexts[|contexts| - 1], rules)]
  }

  function PricedIn(matches: seq<Match>, rules: Rules): seq<Priced> {
    if matches == [] then []
    else PricedIn(matches[..|matches| - 1], rules) + PriceAll(HeroContexts(matches[|matches| - 1]), rules)
  }

  function OfHero(priced: seq<Priced>, hero: int): seq<Priced> {
    if priced == [] then []
    else
      var rest, last := OfHero(priced[..|priced| - 1], hero), priced[|priced| - 1];
      if last.hero == hero then rest + [last] else rest
  }

  /** The bonus this entry's role for the hero earns from one game's stats. */
  function BonusOf(
    roles: seq<Assignment>, book: Option<RoleBook>, hero: int, round: int, stats: Option<map<string, int>>): (r: int)
    ensures IsHundredths(r) && r >= 0
  {
    var role := RoleAt(roles, hero, round);
    if book.Some? && role.Some? && stats.Some? && role.value in book.value
    then RoleBonus(book.value[role.value], stats.value)
    else 0
  }

  function Bonus(entry: EntryRoster, book: Option<RoleBook>, a: Priced): (r: int)
    ensures IsHundredths(r)
  {
    BonusOf(entry.roles, book, a.hero, a.round, a.stats)
  }

  function Points(entry: EntryRoster, book: Option<RoleBook>, a: Priced, tally: Tally): int {
    match tally
    case InColumn(ForMetric(metric)) => PointsIn(a.entries, metric)
    case InColumn(ForRoleBonus) => Bonus(entry, book, a)
    case Everything => Total(a.entries) + Bonus(entry, book, a)
    case InRound(round) => if a.round == round then Total(a.entries) + Bonus(entry, book, a) else 0
  }

  /** What one holding earns from its hero's appearances. */
  function HeldPoints(entry: EntryRoster, book: Option<RoleBook>, h: H.Holding, apps: seq<Priced>, tally: Tally): int {
    if apps == [] then 0
    else
      var last := apps[|apps| - 1];
      HeldPoints(entry, book, h, apps[..|apps| - 1], tally)
      + (if h.Covers(last.round) then Points(entry, book, last, tally) else 0)
  }

  /** The fold as it is computed: holding by holding, over that hero's appearances. */
  function FoldedPoints(
    entry: EntryRoster, book: Option<RoleBook>, holdings: seq<H.Holding>, priced: seq<Priced>, tally: Tally): int
  {
    if holdings == [] then 0
    else
      var last := holdings[|holdings| - 1];
      FoldedPoints(entry, book, holdings[..|holdings| - 1], priced, tally)
      + HeldPoints(entry, book, last, OfHero(priced, last.hero), tally)
  }

  // ---------------------------------------------------------------- the naive sum

  /** What one context is worth to this entry, straight from the match. */
  function Worth(entry: EntryRoster, book: Option<RoleBook>, rules: Rules, c: Context, tally: Tally): int {
    var bonus := BonusOf(entry.roles, book, c.hero, c.result.round, StatsOf(c));
    match tally
    case InColumn(ForMetric(metric)) => Contribution(c, rules, metric)
    case InColumn(ForRoleBonus) => bonus
    case Everything => Sum(rules.scored, metric => Contribution(c, rules, metric)) + bonus
    case InRound(round) =>
      if c.result.round == round then Sum(rules.scored, metric => Contribution(c, rules, metric)) + bonus else 0
  }

  function NaiveInMatch(
    entry: EntryRoster, book: Option<RoleBook>, rules: Rules, opening: set<int>, contexts: seq<Context>,
    tally: Tally): int
  {
    if contexts == [] then 0
    else
      var c := contexts[|contexts| - 1];
      NaiveInMatch(entry, book, rules, opening, contexts[..|contexts| - 1], tally)
      + (if c.hero in H.RosterAt(opening, entry.swaps, c.result.round) then Worth(entry, book, rules, c, tally) else 0)
  }

  /** Every context of every hero held in the round its match was played, and nothing else. */
  function NaiveSum(
    entry: EntryRoster, book: Option<RoleBook>, rules: Rules, opening: set<int>, matches: seq<Match>, tally: Tally): int
  {
    if matches == [] then 0
    else
      NaiveSum(entry, book, rules, opening, matches[..|matches| - 1], tally)
      + NaiveInMatch(entry, book, rules, opening, HeroContexts(matches[|matches| - 1]), tally)
  }

  // ---------------------------------------------------------------- regrouping

  /** The same sum appearance by appearance, each as often as a holding covers it. */
  function CoveredPoints(
    entry: EntryRoster, book: Option<RoleBook>, holdings: seq<H.Holding>, priced: seq<Priced>, tally: Tally): int
  {
    if priced == [] then 0
    else
      var last := priced[|priced| - 1];
      CoveredPoints(entry, book, holdings, priced[..|priced| - 1], tally)
      + H.Covering(holdings, last.hero, last.round) * Points(entry, book, last, tally)
  }

  lemma HeldOneMore(
      entry: EntryRoster, book: Option<RoleBook>, h: H.Holding, priced: seq<Priced>, a: Priced, tally: Tally)
    ensures HeldPoints(entry, book, h, OfHero(priced + [a], h.hero), tally)
            == HeldPoints(entry, book, h, OfHero(priced, h.hero), tally)
               + (if h.hero == a.hero && h.Covers(a.round) then Points(entry, book, a, tally) else 0)
  {
    hide Points, H.Holding.Covers;
    assert (priced + [a])[..|priced|] == priced;
    var apps := OfHero(priced, h.hero);
    assert (apps + [a])[..|apps|] == apps;
  }

  lemma {:induction false} FoldOneMore(
      entry: EntryRoster, book: Option<RoleBook>, holdings: seq<H.Holding>, priced: seq<Priced>, a: Priced,
      tally: Tally)
    ensures FoldedPoints(entry, book, holdings, priced + [a], tally)
            == FoldedPoints(entry, book, holdings, priced, tally)
               + H.Covering(holdings, a.hero, a.round) * Points(entry, book, a, tally)
  {
    hide Points, H.Holding.Covers, H.Covering, HeldPoints, OfHero;
    if holdings == [] {
      NoHoldingsCover(a.hero, a.round);
    } else {
      var init, last := holdings[..|holdings| - 1], holdings[|holdings| - 1];
      FoldOneMore(entry, book, init, priced, a, tally);
      assert init + [last] == holdings;
      H.CountsAppend(init, last, a.hero, a.round);
      HeldOneMore(entry, book, last, priced, a, tally);
    }
  }

  lemma NoHoldingsCover(hero: int, round: int)
    ensures H.Covering([], hero, round) == 0
  {
  }

  lemma {:induction false} NoAppearancesNoPoints(
      entry: EntryRoster, book: Option<RoleBook>, holdings: seq<H.Holding>, tally: Tally)
    ensures FoldedPoints(entry, book, holdings, [], tally) == 0
  {
    if holdings != [] {
      NoAppearancesNoPoints(entry, book, holdings[..|holdings| - 1], tally);
    }
  }

  /** Grouping by holding and grouping by appearance come to the same, for any log at all. */
  lemma {:induction false} FoldCountsCoverings(
      entry: EntryRoster, book: Option<RoleBook>, holdings: seq<H.Holding>, priced: seq<Priced>, tally: Tally)
    ensures FoldedPoints(entry, book, holdings, priced, tally) == CoveredPoints(entry, book, holdings, priced, tally)
    decreases |priced|
  {
    if priced == [] {
      NoAppearancesNoPoints(entry, book, holdings, tally);
    } else {
      var init, last := priced[..|priced| - 1], priced[|priced| - 1];
      FoldCountsCoverings(entry, book, holdings, init, tally);
      assert init + [last] == priced;
      FoldOneMore(entry, book, holdings, init, last, tally);
    }
  }

  lemma {:induction false} CoveredConcat(
      entry: EntryRoster, book: Option<RoleBook>, holdings: seq<H.Holding>, a: seq<Priced>, b: seq<Priced>,
      tally: Tally)
    ensures CoveredPoints(entry, book, holdings, a + b, tally)
            == CoveredPoints(entry, book, holdings, a, tally) + CoveredPoints(entry, book, holdings, b, tally)
  {
    if b == [] {
      assert a + b == a;
    } else {
      assert (a + b)[..|a + b| - 1] == a + b[..|b| - 1];
      CoveredConcat(entry, book, holdings, a, b[..|b| - 1], tally);
    }
  }

  /** An appearance's price is the context's worth. */
  lemma PriceIsWorth(entry: EntryRoster, book: Option<RoleBook>, rules: Rules, c: Context, tally: Tally)
    requires rules.Valid()
    ensures Points(entry, book, Price(c, rules), tally) == Worth(entry, book, rules, c, tally)
  {
    ScoreIsTheSum(c, rules);
    if tally.InColumn? && tally.column.ForMetric? {
      BreakdownHoldsContributions(c, rules, tally.column.metric);
    }
  }

  /** A log that describes this entry's roster from the given opening one. */
  ghost predicate Describes(entry: EntryRoster, opening: set<int>) {
    && H.WellFormed(opening, entry.swaps) && Distinct(entry.heroes)
    && Members(entry.heroes) == H.AfterAll(opening, entry.swaps)
  }

  lemma HeldOrNot(entry: EntryRoster, opening: set<int>, hero: int, round: int)
    requires Describes(entry, opening) && round >= 1
    ensures H.Covering(H.HoldingsOf(entry.heroes, entry.swaps), hero, round)
            == (if hero in H.RosterAt(opening, entry.swaps, round) then 1 else 0)
  {
    H.HoldingsAreTheHistory(opening, entry.heroes, entry.swaps, hero, round);
  }

  lemma {:induction false} CoveredIsNaiveInMatch(
      entry: EntryRoster, book: Option<RoleBook>, rules: Rules, opening: set<int>, contexts: seq<Context>, tally: Tally)
    requires rules.Valid() && Describes(entry, opening)
    requires forall c :: c in contexts ==> c.result.round >= 1
    ensures CoveredPoints(entry, book, H.HoldingsOf(entry.heroes, entry.swaps), PriceAll(contexts, rules), tally)
            == NaiveInMatch(entry, book, rules, opening, contexts, tally)
  {
    hide Points, Worth, Describes, Breakdown, StatsOf, Rules.Valid, H.HoldingsOf, H.RosterAt, H.Covering;
    if contexts != [] {
      var init, c := contexts[..|contexts| - 1], contexts[|contexts| - 1];
      CoveredIsNaiveInMatch(entry, book, rules, opening, init, tally);
      assert c in contexts;
      HeldOrNot(entry, opening, c.hero, c.result.round);
      PriceIsWorth(entry, book, rules, c, tally);
      var priced := PriceAll(init, rules);
      assert (priced + [Price(c, rules)])[..|priced|] == priced;
    }
  }

  lemma ContextsShareTheMatch(m: Match)
    ensures forall c :: c in HeroContexts(m) ==> c.result == m
  {
    forall c | c in HeroContexts(m) ensures c.result == m {
      if c in PlayedContexts(m) {
        PlayedInMembers(m, m.games, c);
      }
    }
  }

  lemma {:induction false} CoveredIsNaive(
      entry: EntryRoster, book: Option<RoleBook>, rules: Rules, opening: set<int>, matches: seq<Match>, tally: Tally)
    requires rules.Valid() && Describes(entry, opening)
    requires forall m :: m in matches ==> m.round >= 1
    ensures CoveredPoints(entry, book, H.HoldingsOf(entry.heroes, entry.swaps), PricedIn(matches, rules), tally)
            == NaiveSum(entry, book, rules, opening, matches, tally)
  {
    if matches != [] {
      var init, last := matches[..|matches| - 1], matches[|matches| - 1];
      CoveredIsNaive(entry, book, rules, opening, init, tally);
      assert last in matches;
      ContextsShareTheMatch(last);
      CoveredIsNaiveInMatch(entry, book, rules, opening, HeroContexts(last), tally);
      CoveredConcat(entry, book, H.HoldingsOf(entry.heroes, entry.swaps), PricedIn(init, rules),
                    PriceAll(HeroContexts(last), rules), tally);
    }
  }

  /** The fold through the holdings is the naive sum over the rosters of the time. */
  lemma FoldIsNaive(
      entry: EntryRoster, book: Option<RoleBook>, rules: Rules, opening: set<int>, matches: seq<Match>, tally: Tally)
    requires rules.Valid() && Describes(entry, opening)
    requires forall m :: m in matches ==> m.round >= 1
    ensures FoldedPoints(entry, book, H.HoldingsOf(entry.heroes, entry.swaps), PricedIn(matches, rules), tally)
            == NaiveSum(entry, book, rules, opening, matches, tally)
  {
    FoldCountsCoverings(entry, book, H.HoldingsOf(entry.heroes, entry.swaps), PricedIn(matches, rules), tally);
    CoveredIsNaive(entry, book, rules, opening, matches, tally);
  }
}
