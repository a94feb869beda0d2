/** The hero tables: the same contexts grouped by hero, whoever held the hero at the time. */
module HeroStats {
  import opened Options
  import opened Distinctness
  import opened Sums
  import opened Rounding
  import opened MatchResults
  import opened Scoring
  import opened Standings
  import Leaderboard
  import H = Holdings

  /** A roster of one hero, held throughout. */
  function Solo(hero: int): EntryRoster {
    EntryRoster(0, 0, 0, [hero], [], [])
  }

  /** What a hero earned over these matches: what a manager holding just that hero would show. */
  function HeroPoints(rules: Rules, matches: seq<Match>, hero: int, tally: Tally): int {
    NaiveSum(Solo(hero), None, rules, {hero}, matches, tally)
  }

  function HeroInMatch(rules: Rules, contexts: seq<Context>, hero: int, tally: Tally): int {
    NaiveInMatch(Solo(hero), None, rules, {hero}, contexts, tally)
  }

  type Tallies = map<int, map<Metric, int>>

  ghost predicate Dense(tallies: Tallies, rules: Rules, pool: seq<int>) {
    && (forall hero :: hero in tallies <==> hero in pool)
    && (forall hero :: hero in tallies ==> forall metric :: metric in tallies[hero] <==> metric in rules.scored)
  }

  method AddEntries(entries: seq<Entry>, before: map<Metric, int>) returns (after: map<Metric, int>)
    requires forall e :: e in entries ==> e.metric in before
    ensures after.Keys == before.Keys
    ensures forall metric :: metric in before ==> after[metric] == before[metric] + PointsIn(entries, metric)
  {
    after := before;
    for k := 0 to |entries|
      invariant after.Keys == before.Keys
      invariant forall metric :: metric in before ==> after[metric] == before[metric] + PointsIn(entries[..k], metric)
    {
      var e := entries[k];
      assert e in entries;
      assert entries[..k + 1][..k] == entries[..k];
      after := after[e.metric := after[e.metric] + e.points];
    }
    assert entries[..|entries|] == entries;
  }

  ghost predicate TalliedIn(tallies: Tallies, base: Tallies, rules: Rules, contexts: seq<Context>) {
    && tallies.Keys == base.Keys
    && (forall hero :: hero in base ==> tallies[hero].Keys == base[hero].Keys)
    && (forall hero, metric :: hero in base && metric in base[hero] ==>
          tallies[hero][metric] == base[hero][metric] + HeroInMatch(rules, contexts, hero, InColumn(ForMetric(metric))))
  }

  /** One more context counts for its own hero only. */
  lemma OneMoreContext(rules: Rules, contexts: seq<Context>, c: Context, hero: int, metric: Metric)
    requires rules.Valid()
    ensures HeroInMatch(rules, contexts + [c], hero, InColumn(ForMetric(metric)))
            == HeroInMatch(rules, contexts, hero, InColumn(ForMetric(metric)))
               + (if c.hero == hero then PointsIn(Breakdown(c, rules), metric) else 0)
  {
    assert (contexts + [c])[..|contexts|] == contexts;
    BreakdownHoldsContributions(c, rules, metric);
  }

  /** A context of a hero outside the pool leaves the tallies right; so does crediting one inside it. */
  lemma TallyStep(tallies: Tallies, after: Tallies, base: Tallies, rules: Rules, contexts: seq<Context>, c: Context)
    requires rules.Valid() && TalliedIn(tallies, base, rules, contexts)
    requires after.Keys == base.Keys
    requires forall hero :: hero in base && hero != c.hero ==> after[hero] == tallies[hero]
    requires c.hero in base ==>
               after[c.hero].Keys == tallies[c.hero].Keys
               && forall metric :: metric in tallies[c.hero] ==>
                    after[c.hero][metric] == tallies[c.hero][metric] + PointsIn(Breakdown(c, rules), metric)
    ensures TalliedIn(after, base, rules, contexts + [c])
  {
    forall hero, metric | hero in base && metric in base[hero]
      ensures after[hero][metric]
              == base[hero][metric] + HeroInMatch(rules, contexts + [c], hero, InColumn(ForMetric(metric)))
    {
      OneMoreContext(rules, contexts, c, hero, metric);
      hide HeroInMatch, PointsIn, Breakdown;
    }
  }

  method TallyMatch(contexts: seq<Context>, rules: Rules, base: Tallies) returns (tallies: Tallies)
    requires rules.Valid()
    requires forall hero :: hero in base ==> forall metric :: metric in base[hero] <==> metric in rules.scored
    ensures TalliedIn(tallies, base, rules, contexts)
  {
    hide HeroInMatch, PointsIn, Breakdown, Rules.Valid;
    tallies := base;
    NothingTallied(base, rules);
    for j := 0 to |contexts|
      invariant TalliedIn(tallies, base, rules, contexts[..j])
    {
      var c := contexts[j];
      assert contexts[..j + 1] == contexts[..j] + [c];
      ghost var before := tallies;
      if c.hero in tallies {
        var entries := ComputeBreakdown(c, rules);
        EntriesAreScored(c, rules);
        var credited := AddEntries(entries, tallies[c.hero]);
        tallies := tallies[c.hero := credited];
      }
      TallyStep(before, tallies, base, rules, contexts[..j], c);
    }
    assert contexts[..|contexts|] == contexts;
  }

  lemma NothingTallied(base: Tallies, rules: Rules)
    ensures TalliedIn(base, base, rules, [])
  {
  }

  lemma EntriesAreScored(c: Context, rules: Rules)
    ensures forall e :: e in Breakdown(c, rules) ==> e.metric in rules.scored
  {
    Leaderboard.BreakdownMetrics(c, rules, rules.scored);
  }

  ghost predicate Tallied(tallies: Tallies, rules: Rules, pool: seq<int>, matches: seq<Match>) {
    && Dense(tallies, rules, pool)
    && (forall hero, metric :: hero in tallies && metric in tallies[hero] ==>
          tallies[hero][metric] == HeroPoints(rules, matches, hero, InColumn(ForMetric(metric))))
  }

  lemma TallyOneMore(tallies: Tallies, base: Tallies, rules: Rules, pool: seq<int>, matches: seq<Match>, m: Match)
    requires Tallied(base, rules, pool, matches) && TalliedIn(tallies, base, rules, HeroContexts(m))
    ensures Tallied(tallies, rules, pool, matches + [m])
  {
    assert (matches + [m])[..|matches|] == matches;
    forall hero, metric | hero in tallies && metric in tallies[hero]
      ensures tallies[hero][metric] == HeroPoints(rules, matches + [m], hero, InColumn(ForMetric(metric)))
    {
      hide HeroContexts;
      assert metric in base[hero];
    }
  }

  /** Every pool hero's points by metric, and overall, over all the matches. */
  method HeroBoard(matches: seq<Match>, rules: Rules, pool: seq<int>)
    returns (tallies: Tallies, overall: map<int, int>)
    requires rules.Valid()
    ensures Tallied(tallies, rules, pool, matches)
    ensures forall hero :: hero in overall <==> hero in pool
    ensures forall hero :: hero in overall ==> overall[hero] == HeroPoints(rules, matches, hero, Everything)
  {
    var zeros := map i | 0 <= i < |rules.scored| :: rules.scored[i] := 0;
    tallies := map k | 0 <= k < |pool| :: pool[k] := zeros;
    for i := 0 to |matches|
      invariant Tallied(tallies, rules, pool, matches[..i])
    {
      assert matches[..i + 1] == matches[..i] + [matches[i]];
      var contexts := ComputeHeroContexts(matches[i]);
      assert Dense(tallies, rules, pool);
      ghost var base := tallies;
      hide Tallied, TalliedIn, HeroContexts;
      tallies := TallyMatch(contexts, rules, tallies);
      TallyOneMore(tallies, base, rules, pool, matches[..i], matches[i]);
    }
    assert matches[..|matches|] == matches;
    overall := map hero | hero in tallies :: Round2(OverallOf(tallies[hero], rules.scored));
    forall hero | hero in tallies
      ensures Round2(OverallOf(tallies[hero], rules.scored)) == HeroPoints(rules, matches, hero, Everything)
    {
      OverallIsEverything(tallies[hero], rules, matches, hero);
    }
  }

  function OverallOf(tally: map<Metric, int>, scored: seq<Metric>): int {
    Sum(scored, metric => if metric in tally then Round2(tally[metric]) else 0)
  }

  lemma {:induction false} MatchIsHundredths(rules: Rules, contexts: seq<Context>, hero: int, metric: Metric)
    requires rules.Valid()
    ensures IsHundredths(HeroInMatch(rules, contexts, hero, InColumn(ForMetric(metric))))
  {
    hide Contribution, PointsIn, Breakdown, Rules.Valid;
    if contexts != [] {
      MatchIsHundredths(rules, contexts[..|contexts| - 1], hero, metric);
      BreakdownHoldsContributions(contexts[|contexts| - 1], rules, metric);
    }
  }

  lemma {:induction false} HeroIsHundredths(rules: Rules, matches: seq<Match>, hero: int, metric: Metric)
    requires rules.Valid()
    ensures IsHundredths(HeroPoints(rules, matches, hero, InColumn(ForMetric(metric))))
  {
    hide HeroContexts;
    if matches != [] {
      HeroIsHundredths(rules, matches[..|matches| - 1], hero, metric);
      MatchIsHundredths(rules, HeroContexts(matches[|matches| - 1]), hero, metric);
    }
  }

  /** The metric columns of a hero add up to everything it earned, rounding or no rounding. */
  lemma OverallIsEverything(tally: map<Metric, int>, rules: Rules, matches: seq<Match>, hero: int)
    requires rules.Valid() && forall metric :: metric in tally <==> metric in rules.scored
    requires forall metric :: metric in tally ==>
               tally[metric] == HeroPoints(rules, matches, hero, InColumn(ForMetric(metric)))
    ensures Round2(OverallOf(tally, rules.scored)) == HeroPoints(rules, matches, hero, Everything)
  {
    var f := metric => if metric in tally then Round2(tally[metric]) else 0;
    forall metric | metric in rules.scored
      ensures f(metric) == HeroPoints(rules, matches, hero, InColumn(ForMetric(metric))) && IsHundredths(f(metric))
    {
      HeroIsHundredths(rules, matches, hero, metric);
      RoundingKeepsHundredths(tally[metric]);
    }
    SumOfHundredths(rules.scored, f);
    Leaderboard.ColumnsPartitionEverything(Solo(hero), None, rules, {hero}, matches);
    assert Leaderboard.BoardColumns(rules, None) == Leaderboard.MetricColumns(rules.scored);
    Leaderboard.MetricColumnsSum(rules.scored, f, Leaderboard.NaiveBy(Solo(hero), None, rules, {hero}, matches));
  }

  // ---------------------------------------------------------------- the two folds agree

  function InMatchBy(rules: Rules, contexts: seq<Context>): int -> int {
    hero => HeroInMatch(rules, contexts, hero, Everything)
  }

  function OverallBy(rules: Rules, matches: seq<Match>): int -> int {
    hero => HeroPoints(rules, matches, hero, Everything)
  }

  /** A manager with no swaps and no roles. */
  ghost predicate Loyal(entry: EntryRoster) {
    entry.swaps == [] && Distinct(entry.heroes)
  }

  lemma {:induction false} LoyalInMatch(entry: EntryRoster, rules: Rules, contexts: seq<Context>)
    requires Loyal(entry)
    ensures NaiveInMatch(entry, None, rules, Members(entry.heroes), contexts, Everything)
            == Sum(entry.heroes, InMatchBy(rules, contexts))
  {
    if contexts == [] {
      SumZero(entry.heroes, InMatchBy(rules, contexts));
    } else {
      var init, c := contexts[..|contexts| - 1], contexts[|contexts| - 1];
      LoyalInMatch(entry, rules, init);
      var worth := Worth(entry, None, rules, c, Everything);
      var g := (h: int) => if h == c.hero then worth else 0;
      SumAtMostOnce(entry.heroes, g, c.hero);
      forall hero ensures InMatchBy(rules, contexts)(hero) == InMatchBy(rules, init)(hero) + g(hero) {
        assert H.RosterAt({hero}, [], c.result.round) == {hero};
      }
      assert H.RosterAt(Members(entry.heroes), entry.swaps, c.result.round) == Members(entry.heroes);
      SumSplit(entry.heroes, InMatchBy(rules, contexts), InMatchBy(rules, init), g);
    }
  }

  lemma {:induction false} LoyalSum(entry: EntryRoster, rules: Rules, matches: seq<Match>)
    requires Loyal(entry)
    ensures NaiveSum(entry, None, rules, Members(entry.heroes), matches, Everything)
            == Sum(entry.heroes, OverallBy(rules, matches))
  {
    hide NaiveInMatch, HeroContexts;
    if matches == [] {
      SumZero(entry.heroes, OverallBy(rules, matches));
    } else {
      var init, contexts := matches[..|matches| - 1], HeroContexts(matches[|matches| - 1]);
      LoyalSum(entry, rules, init);
      LoyalInMatch(entry, rules, contexts);
      SumSplit(entry.heroes, OverallBy(rules, matches), OverallBy(rules, init), InMatchBy(rules, contexts));
    }
  }

  /** Roster heroes in the hero tables, and roster heroes since taken out of the pool. */
  function ShownPart(overall: map<int, int>): int -> int { hero => if hero in overall then overall[hero] else 0 }

  function HiddenPart(overall: map<int, int>, rules: Rules, matches: seq<Match>): int -> int {
    hero => if hero in overall then 0 else HeroPoints(rules, matches, hero, Everything)
  }

  /**
  The leaderboard and the hero tables against each other.  A manager with no swaps and no roles
  totals the overall points its heroes show in the tables and, beyond them, whatever was earned by
  roster heroes that are not in the pool any more; the two agree exactly when that is nothing.
  */
  lemma LoyalManagersTotalTheirHeroes(
      row: Row, entry: EntryRoster, rules: Rules, pool: seq<int>, overall: map<int, int>, matches: seq<Match>)
    requires Loyal(entry) && Leaderboard.RowIsNaive(row, entry, None, rules, Members(entry.heroes), matches)
    requires forall hero :: hero in overall <==> hero in pool
    requires forall hero :: hero in overall ==> overall[hero] == HeroPoints(rules, matches, hero, Everything)
    ensures row.total
            == Sum(entry.heroes, ShownPart(overall)) + Sum(entry.heroes, HiddenPart(overall, rules, matches))
    ensures row.total == Sum(entry.heroes, ShownPart(overall))
            <==> Sum(entry.heroes, HiddenPart(overall, rules, matches)) == 0
    ensures (forall hero :: hero in entry.heroes ==> hero in pool) ==>
              row.total == Sum(entry.heroes, ShownPart(overall))
  {
    LoyalSum(entry, rules, matches);
    SumSplit(entry.heroes, OverallBy(rules, matches), ShownPart(overall), HiddenPart(overall, rules, matches));
    if forall hero :: hero in entry.heroes ==> hero in pool {
      SumZero(entry.heroes, HiddenPart(overall, rules, matches));
    }
  }
}
