/** How far rounding every contribution on its own can take a total from the unrounded sum. */
module Exactness {
  import opened Options
  import opened Sums
  import opened Rounding
  import opened MatchResults
  import opened Scoring
  import opened RosterRoles
  import opened Standings
  import Leaderboard
  import H = Holdings

  /** Half a hundredth for each of so many contributions. */
  predicate Within(a: int, b: int, contributions: nat) { Abs(a - b) <= HUNDREDTH / 2 * contributions }

  lemma WithinAdds(a: int, b: int, n: nat, c: int, d: int, k: nat)
    requires Within(a, b, n) && Within(c, d, k)
    ensures Within(a + c, b + d, n + k)
  {
  }

  lemma OneRounding(measured: int, k: int)
    ensures Within(Round2(measured * k), measured * k, if measured != 0 then 1 else 0)
  {
    RoundingErrs(measured * k);
    NothingMeasured();
    assert measured == 0 ==> measured * k == 0;
  }

  function ExactBy(c: Context, rules: Rules): Metric -> int {
    metric => Measure(metric, c) * rules.CoefficientOf(metric)
  }

  function RoundedBy(c: Context, rules: Rules): Metric -> int {
    metric => Contribution(c, rules, metric)
  }

  /** How many of the metrics measure anything in a context: the contributions it makes. */
  function Contributions(c: Context, scored: seq<Metric>): nat {
    if scored == [] then 0
    else Contributions(c, scored[..|scored| - 1]) + (if Measure(scored[|scored| - 1], c) != 0 then 1 else 0)
  }

  lemma {:induction false} ContextErrs(c: Context, rules: Rules, scored: seq<Metric>)
    requires forall metric :: metric in scored ==> metric in rules.scored
    ensures Within(Sum(scored, RoundedBy(c, rules)), Sum(scored, ExactBy(c, rules)), Contributions(c, scored))
  {
    if scored != [] {
      var init, last := scored[..|scored| - 1], scored[|scored| - 1];
      ContextErrs(c, rules, init);
      assert last in scored;
      hide Measure, Round2, Rules.CoefficientOf, Within;
      OneRounding(Measure(last, c), rules.CoefficientOf(last));
      WithinAdds(Sum(init, RoundedBy(c, rules)), Sum(init, ExactBy(c, rules)), Contributions(c, init),
                 RoundedBy(c, rules)(last), ExactBy(c, rules)(last), if Measure(last, c) != 0 then 1 else 0);
    }
  }

  // ---------------------------------------------------------------- role bonuses

  function Floored(v: int): int { if v < 0 then 0 else v }

  lemma FlooringKeepsWithin(a: int, b: int, n: nat)
    requires Within(a, b, n)
    ensures Within(Floored(a), Floored(b), n)
  {
  }

  function Recorded(stats: map<string, int>, stat: string): int { if stat in stats then stats[stat] else 0 }

  /** What a role's weights make of a game's stats, with nothing rounded. */
  function ExactWeights(weights: seq<Weight>, stats: map<string, int>): int {
    if weights == [] then 0
    else
      var last := weights[|weights| - 1];
      ExactWeights(weights[..|weights| - 1], stats) + last.value * Recorded(stats, last.stat)
  }

  /** How many of the weights have a stat recorded in the game. */
  function Weighed(weights: seq<Weight>, stats: map<string, int>): nat {
    if weights == [] then 0
    else Weighed(weights[..|weights| - 1], stats) + (if weights[|weights| - 1].stat in stats then 1 else 0)
  }

  /** A recorded stat earns itself times its weight, to half a hundredth; one not recorded earns nothing. */
  lemma OneStat(stats: map<string, int>, w: Weight)
    ensures Within(StatPoints(stats, w), w.value * Recorded(stats, w.stat), if w.stat in stats then 1 else 0)
  {
    if w.stat in stats {
      RoundingErrs(stats[w.stat] * w.value);
    }
  }

  lemma {:induction false} WeightsErr(weights: seq<Weight>, stats: map<string, int>, f: Weight -> int)
    requires forall w :: w in weights ==> f(w) == StatPoints(stats, w)
    ensures Within(Sum(weights, f), ExactWeights(weights, stats), Weighed(weights, stats))
  {
    if weights != [] {
      var init, last := weights[..|weights| - 1], weights[|weights| - 1];
      WeightsErr(init, stats, f);
      assert last in weights;
      hide Within, StatPoints, Recorded;
      OneStat(stats, last);
      WithinAdds(Sum(init, f), ExactWeights(init, stats), Weighed(init, stats), f(last),
                 last.value * Recorded(stats, last.stat), if last.stat in stats then 1 else 0);
    }
  }

  /** A bonus is the exact weighted sum, or nothing if that is negative, to half a hundredth a recorded stat. */
  lemma BonusErrs(role: RosterRole, stats: map<string, int>)
    ensures Within(RoleBonus(role, stats), Floored(ExactWeights(role.weights, stats)), Weighed(role.weights, stats))
  {
    var f := (w: Weight) => StatPoints(stats, w);
    WeightsErr(role.weights, stats, f);
    StatPointsAreHundredths(role.weights, stats);
    FlooringKeepsWithin(Sum(role.weights, f), ExactWeights(role.weights, stats), Weighed(role.weights, stats));
  }

  /** The role this entry gives the context's hero in the match's round, if the book has it and the hero played. */
  function RoleOf(entry: EntryRoster, book: Option<RoleBook>, c: Context): Option<RosterRole> {
    var role := RoleAt(entry.roles, c.hero, c.result.round);
    if c.role.Played? && book.Some? && role.Some? && role.value in book.value
    then Some(book.value[role.value])
    else None
  }

  function ExactBonus(entry: EntryRoster, book: Option<RoleBook>, c: Context): int {
    var role := RoleOf(entry, book, c);
    if role.Some? then Floored(ExactWeights(role.value.weights, c.role.participant.stats)) else 0
  }

  function BonusParts(entry: EntryRoster, book: Option<RoleBook>, c: Context): nat {
    var role := RoleOf(entry, book, c);
    if role.Some? then Weighed(role.value.weights, c.role.participant.stats) else 0
  }

  function ContextBonus(entry: EntryRoster, book: Option<RoleBook>, c: Context): int {
    BonusOf(entry.roles, book, c.hero, c.result.round, StatsOf(c))
  }

  lemma ContextBonusErrs(entry: EntryRoster, book: Option<RoleBook>, c: Context)
    ensures Within(ContextBonus(entry, book, c), ExactBonus(entry, book, c), BonusParts(entry, book, c))
  {
    var role := RoleOf(entry, book, c);
    if role.Some? {
      BonusErrs(role.value, c.role.participant.stats);
    }
    hide RoleAt, RoleBonus, ExactWeights, Weighed;
  }

  // ---------------------------------------------------------------- totals

  /** What a context is worth with nothing rounded, and in how many parts it is rounded. */
  function ExactWorth(entry: EntryRoster, book: Option<RoleBook>, rules: Rules, c: Context): int {
    Sum(rules.scored, ExactBy(c, rules)) + ExactBonus(entry, book, c)
  }

  function Parts(entry: EntryRoster, book: Option<RoleBook>, rules: Rules, c: Context): nat {
    Contributions(c, rules.scored) + BonusParts(entry, book, c)
  }

  lemma WorthErrs(entry: EntryRoster, book: Option<RoleBook>, rules: Rules, c: Context)
    ensures Within(Worth(entry, book, rules, c, Everything), ExactWorth(entry, book, rules, c),
                   Parts(entry, book, rules, c))
  {
    ContextErrs(c, rules, rules.scored);
    ContextBonusErrs(entry, book, c);
    SumSame(rules.scored, metric => Contribution(c, rules, metric), RoundedBy(c, rules));
    hide Within, ExactBonus, BonusParts;
    WithinAdds(Sum(rules.scored, RoundedBy(c, rules)), Sum(rules.scored, ExactBy(c, rules)),
               Contributions(c, rules.scored), ContextBonus(entry, book, c), ExactBonus(entry, book, c),
               BonusParts(entry, book, c));
  }

  function ExactInMatch(
    entry: EntryRoster, book: Option<RoleBook>, rules: Rules, opening: set<int>, contexts: seq<Context>): int
  {
    if contexts == [] then 0
    else
      var c := contexts[|contexts| - 1];
      ExactInMatch(entry, book, rules, opening, contexts[..|contexts| - 1])
      + (if c.hero in H.RosterAt(opening, entry.swaps, c.result.round) then ExactWorth(entry, book, rules, c) else 0)
  }

  /** The unrounded sum over every context of every hero held at the time. */
  function ExactSum(
    entry: EntryRoster, book: Option<RoleBook>, rules: Rules, opening: set<int>, matches: seq<Match>): int
  {
    if matches == [] then 0
    else
      ExactSum(entry, book, rules, opening, matches[..|matches| - 1])
      + ExactInMatch(entry, book, rules, opening, HeroContexts(matches[|matches| - 1]))
  }

  function CountInMatch(
    entry: EntryRoster, book: Option<RoleBook>, rules: Rules, opening: set<int>, contexts: seq<Context>): nat
  {
    if contexts == [] then 0
    else
      var c := contexts[|contexts| - 1];
      CountInMatch(entry, book, rules, opening, contexts[..|contexts| - 1])
      + (if c.hero in H.RosterAt(opening, entry.swaps, c.result.round) then Parts(entry, book, rules, c) else 0)
  }

  function CountAll(
    entry: EntryRoster, book: Option<RoleBook>, rules: Rules, opening: set<int>, matches: seq<Match>): nat
  {
    if matches == [] then 0
    else
      CountAll(entry, book, rules, opening, matches[..|matches| - 1])
      + CountInMatch(entry, book, rules, opening, HeroContexts(matches[|matches| - 1]))
  }

  lemma {:induction false} MatchErrs(
      entry: EntryRoster, book: Option<RoleBook>, rules: Rules, opening: set<int>, contexts: seq<Context>)
    ensures Within(NaiveInMatch(entry, book, rules, opening, contexts, Everything),
                   ExactInMatch(entry, book, rules, opening, contexts),
                   CountInMatch(entry, book, rules, opening, contexts))
  {
    if contexts != [] {
      var init, c := contexts[..|contexts| - 1], contexts[|contexts| - 1];
      MatchErrs(entry, book, rules, opening, init);
      WorthErrs(entry, book, rules, c);
      hide Within, Worth, ExactWorth, Parts;
      if c.hero in H.RosterAt(opening, entry.swaps, c.result.round) {
        WithinAdds(NaiveInMatch(entry, book, rules, opening, init, Everything),
                   ExactInMatch(entry, book, rules, opening, init), CountInMatch(entry, book, rules, opening, init),
                   Worth(entry, book, rules, c, Everything), ExactWorth(entry, book, rules, c),
                   Parts(entry, book, rules, c));
      }
    }
  }

  lemma {:induction false} TotalErrs(
      entry: EntryRoster, book: Option<RoleBook>, rules: Rules, opening: set<int>, matches: seq<Match>)
    ensures Within(NaiveSum(entry, book, rules, opening, matches, Everything),
                   ExactSum(entry, book, rules, opening, matches), CountAll(entry, book, rules, opening, matches))
  {
    hide NaiveInMatch, ExactInMatch, CountInMatch, HeroContexts;
    if matches != [] {
      var init, contexts := matches[..|matches| - 1], HeroContexts(matches[|matches| - 1]);
      TotalErrs(entry, book, rules, opening, init);
      MatchErrs(entry, book, rules, opening, contexts);
      hide Within;
      WithinAdds(NaiveSum(entry, book, rules, opening, init, Everything), ExactSum(entry, book, rules, opening, init),
                 CountAll(entry, book, rules, opening, init),
                 NaiveInMatch(entry, book, rules, opening, contexts, Everything),
                 ExactInMatch(entry, book, rules, opening, contexts),
                 CountInMatch(entry, book, rules, opening, contexts));
    }
  }

  /**
  With roles on or off, the total a row shows is within half a hundredth of a point, for each metric
  measured and each weighted stat recorded, of the sum in which only whole bonuses are floored and
  nothing is rounded.
  */
  lemma ShownTotalErrs(
      row: Row, entry: EntryRoster, book: Option<RoleBook>, rules: Rules, opening: set<int>, matches: seq<Match>)
    requires Leaderboard.RowIsNaive(row, entry, book, rules, opening, matches)
    ensures Within(row.total, ExactSum(entry, book, rules, opening, matches),
                   CountAll(entry, book, rules, opening, matches))
  {
    TotalErrs(entry, book, rules, opening, matches);
  }
}
