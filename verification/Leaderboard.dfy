/** The leaderboard as it is computed: maps filled in nested loops, rows ranked in place. */
module Leaderboard {
  import opened Options
  import opened Sums
  import opened Rounding
  import opened MatchResults
  import opened Scoring
  import opened RosterRoles
  import opened Standings
  import opened Ranking
  import H = Holdings

  type Totals = map<Column, int>

  function Lookup(byHero: map<int, seq<Priced>>, hero: int): seq<Priced> {
    if hero in byHero then byHero[hero] else []
  }

  function MetricColumns(scored: seq<Metric>): seq<Column> {
    seq(|scored|, i requires 0 <= i < |scored| => ForMetric(scored[i]))
  }

  /** A column for each scored metric and, where there is a role book, a last one for its bonuses. */
  function BoardColumns(rules: Rules, book: Option<RoleBook>): seq<Column> {
    MetricColumns(rules.scored) + (if book.Some? then [ForRoleBonus] else [])
  }

  function LatestRound(matches: seq<Match>): (latest: int)
    ensures matches == [] ==> latest == 0
    ensures matches != [] ==>
              (exists m :: m in matches && m.round == latest) && forall m :: m in matches ==> m.round <= latest
  {
    if matches == [] then 0
    else
      var init, last := matches[..|matches| - 1], matches[|matches| - 1];
      if init == [] || LatestRound(init) < last.round then last.round else LatestRound(init)
  }

  // ---------------------------------------------------------------- grouping by hero

  /** Prices one match's contexts and files each under its hero. */
  method FileContexts(
      contexts: seq<Context>, rules: Rules, before: map<int, seq<Priced>>, ghost done: seq<Priced>)
    returns (byHero: map<int, seq<Priced>>)
    requires forall hero :: Lookup(before, hero) == OfHero(done, hero)
    ensures forall hero :: Lookup(byHero, hero) == OfHero(done + PriceAll(contexts, rules), hero)
  {
    byHero := before;
    ghost var filed := done;
    assert done + PriceAll(contexts[..0], rules) == done;
    for j := 0 to |contexts|
      invariant filed == done + PriceAll(contexts[..j], rules)
      invariant forall hero :: Lookup(byHero, hero) == OfHero(filed, hero)
    {
      hide Breakdown;
      assert contexts[..j + 1][..j] == contexts[..j];
      var entries := ComputeBreakdown(contexts[j], rules);
      var priced := Priced(contexts[j].hero, contexts[j].result.round, entries, StatsOf(contexts[j]));
      byHero := byHero[priced.hero := Lookup(byHero, priced.hero) + [priced]];
      assert (filed + [priced])[..|filed|] == filed;
      filed := filed + [priced];
    }
    assert contexts[..|contexts|] == contexts;
  }

  /** Every context of every match, priced once. */
  method GroupByHero(matches: seq<Match>, rules: Rules) returns (byHero: map<int, seq<Priced>>)
    ensures forall hero :: Lookup(byHero, hero) == OfHero(PricedIn(matches, rules), hero)
  {
    byHero := map[];
    for i := 0 to |matches|
      invariant forall hero :: Lookup(byHero, hero) == OfHero(PricedIn(matches[..i], rules), hero)
    {
      hide HeroContexts, OfHero, PriceAll;
      assert matches[..i + 1][..i] == matches[..i];
      var contexts := ComputeHeroContexts(matches[i]);
      byHero := FileContexts(contexts, rules, byHero, PricedIn(matches[..i], rules));
    }
    assert matches[..|matches|] == matches;
  }

  // ---------------------------------------------------------------- crediting one entry

  predicate IsColumn(column: Column, rules: Rules, book: Option<RoleBook>) {
    match column
    case ForMetric(metric) => metric in rules.scored
    case ForRoleBonus => book.Some?
  }

  ghost predicate HasColumns(totals: Totals, rules: Rules, book: Option<RoleBook>) {
    forall column :: column in totals <==> IsColumn(column, rules, book)
  }

  /** Every entry is in a scored column and in whole hundredths. */
  ghost predicate WellPriced(a: Priced, rules: Rules) {
    forall e :: e in a.entries ==> e.metric in rules.scored && IsHundredths(e.points)
  }

  method CreditAppearance(
      entry: EntryRoster, rules: Rules, book: Option<RoleBook>, a: Priced, currentRound: int,
      totals: Totals, roundPoints: int)
    returns (after: Totals, roundAfter: int)
    requires HasColumns(totals, rules, book) && WellPriced(a, rules)
    ensures HasColumns(after, rules, book)
    ensures forall column :: column in totals ==>
              after[column] == totals[column] + Points(entry, book, a, InColumn(column))
    ensures roundAfter == roundPoints + Points(entry, book, a, InRound(currentRound))
  {
    hide RoleAt, RoleBonus, IsHundredths;
    after, roundAfter := totals, roundPoints;
    for j := 0 to |a.entries|
      invariant HasColumns(after, rules, book)
      invariant forall metric :: metric in rules.scored ==>
                  after[ForMetric(metric)] == totals[ForMetric(metric)] + PointsIn(a.entries[..j], metric)
      invariant book.Some? ==> after[ForRoleBonus] == totals[ForRoleBonus]
      invariant roundAfter == roundPoints + (if a.round == currentRound then Total(a.entries[..j]) else 0)
    {
      var e := a.entries[j];
      assert e in a.entries;
      assert a.entries[..j + 1][..j] == a.entries[..j];
      after := after[ForMetric(e.metric) := after[ForMetric(e.metric)] + e.points];
      if a.round == currentRound {
        roundAfter := roundAfter + e.points;
      }
    }
    assert a.entries[..|a.entries|] == a.entries;
    var role := RoleAt(entry.roles, a.hero, a.round);
    if book.Some? && role.Some? && a.stats.Some? && role.value in book.value {
      var bonus := RoleBonus(book.value[role.value], a.stats.value);
      after := after[ForRoleBonus := after[ForRoleBonus] + bonus];
      if a.round == currentRound {
        roundAfter := roundAfter + bonus;
      }
    }
  }

  method CreditHolding(
      entry: EntryRoster, rules: Rules, book: Option<RoleBook>, h: H.Holding, apps: seq<Priced>, currentRound: int,
      totals: Totals, roundPoints: int)
    returns (after: Totals, roundAfter: int)
    requires HasColumns(totals, rules, book) && forall a :: a in apps ==> WellPriced(a, rules)
    ensures HasColumns(after, rules, book)
    ensures forall column :: column in totals ==>
              after[column] == totals[column] + HeldPoints(entry, book, h, apps, InColumn(column))
    ensures roundAfter == roundPoints + HeldPoints(entry, book, h, apps, InRound(currentRound))
  {
    hide Points, WellPriced, H.Holding.Covers;
    after, roundAfter := totals, roundPoints;
    for j := 0 to |apps|
      invariant HasColumns(after, rules, book)
      invariant forall column :: column in totals ==>
                  after[column] == totals[column] + HeldPoints(entry, book, h, apps[..j], InColumn(column))
      invariant roundAfter == roundPoints + HeldPoints(entry, book, h, apps[..j], InRound(currentRound))
    {
      assert apps[..j + 1][..j] == apps[..j];
      assert apps[j] in apps;
      if h.Covers(apps[j].round) {
        after, roundAfter := CreditAppearance(entry, rules, book, apps[j], currentRound, after, roundAfter);
      }
    }
    assert apps[..|apps|] == apps;
  }

  /** Dense: every column starts at nothing, scored or not. */
  method Zeros(rules: Rules, book: Option<RoleBook>) returns (totals: Totals)
    ensures HasColumns(totals, rules, book)
    ensures forall column :: column in totals ==> totals[column] == 0
  {
    totals := map i | 0 <= i < |rules.scored| :: ForMetric(rules.scored[i]) := 0;
    if book.Some? {
      totals := totals[ForRoleBonus := 0];
    }
  }

  method CreditEntry(
      entry: EntryRoster, rules: Rules, book: Option<RoleBook>, byHero: map<int, seq<Priced>>, currentRound: int,
      ghost priced: seq<Priced>)
    returns (totals: Totals, roundPoints: int)
    requires forall hero :: Lookup(byHero, hero) == OfHero(priced, hero)
    requires forall a :: a in priced ==> WellPriced(a, rules)
    ensures HasColumns(totals, rules, book)
    ensures var holdings := H.HoldingsOf(entry.heroes, entry.swaps);
      && (forall column :: column in totals ==>
            totals[column] == FoldedPoints(entry, book, holdings, priced, InColumn(column)))
      && roundPoints == FoldedPoints(entry, book, holdings, priced, InRound(currentRound))
  {
    hide Points, HeldPoints, WellPriced, OfHero, IsColumn, H.HoldingsOf;
    totals := Zeros(rules, book);
    roundPoints := 0;
    var holdings := H.ComputeHoldings(entry.heroes, entry.swaps);
    for i := 0 to |holdings|
      invariant HasColumns(totals, rules, book)
      invariant forall column :: column in totals ==>
                  totals[column] == FoldedPoints(entry, book, holdings[..i], priced, InColumn(column))
      invariant roundPoints == FoldedPoints(entry, book, holdings[..i], priced, InRound(currentRound))
    {
      assert holdings[..i + 1][..i] == holdings[..i];
      var apps := Lookup(byHero, holdings[i].hero);
      OfHeroMembers(priced, holdings[i].hero);
      totals, roundPoints := CreditHolding(entry, rules, book, holdings[i], apps, currentRound, totals, roundPoints);
    }
    assert holdings[..|holdings|] == holdings;
  }

  lemma {:induction false} OfHeroMembers(priced: seq<Priced>, hero: int)
    ensures forall a :: a in OfHero(priced, hero) ==> a in priced && a.hero == hero
  {
    if priced != [] {
      OfHeroMembers(priced[..|priced| - 1], hero);
    }
  }

  // ---------------------------------------------------------------- rows and the board

  lemma {:induction false} PricedInIsWellPriced(matches: seq<Match>, rules: Rules)
    requires rules.Valid()
    ensures forall a :: a in PricedIn(matches, rules) ==> WellPriced(a, rules)
  {
    if matches != [] {
      PricedInIsWellPriced(matches[..|matches| - 1], rules);
      PriceAllIsWellPriced(HeroContexts(matches[|matches| - 1]), rules);
    }
  }

  lemma {:induction false} PriceAllIsWellPriced(contexts: seq<Context>, rules: Rules)
    requires rules.Valid()
    ensures forall a :: a in PriceAll(contexts, rules) ==> WellPriced(a, rules)
  {
    if contexts != [] {
      PriceAllIsWellPriced(contexts[..|contexts| - 1], rules);
      var c := contexts[|contexts| - 1];
      BreakdownTotal(c, rules, rules.scored);
      BreakdownMetrics(c, rules, rules.scored);
    }
  }

  lemma {:induction false} BreakdownMetrics(c: Context, rules: Rules, scored: seq<Metric>)
    ensures forall e :: e in BreakdownOf(c, rules, scored) ==> e.metric in scored
  {
    if scored != [] {
      BreakdownMetrics(c, rules, scored[..|scored| - 1]);
    }
  }

  lemma {:induction false} EntriesAreHundredths(entries: seq<Entry>, metric: Metric)
    requires forall e :: e in entries ==> IsHundredths(e.points)
    ensures IsHundredths(PointsIn(entries, metric)) && IsHundredths(Total(entries))
  {
    hide IsHundredths;
    SumOfHundredths(entries, (e: Entry) => e.points);
    if entries != [] {
      var init, last := entries[..|entries| - 1], entries[|entries| - 1];
      EntriesAreHundredths(init, metric);
      HundredthsAdd(PointsIn(init, metric), last.points);
    }
  }

  lemma PointsAreHundredths(entry: EntryRoster, rules: Rules, book: Option<RoleBook>, a: Priced, tally: Tally)
    requires WellPriced(a, rules)
    ensures IsHundredths(Points(entry, book, a, tally))
  {
    EntriesAreHundredths(a.entries, if tally.InColumn? && tally.column.ForMetric? then tally.column.metric else Win);
  }

  lemma {:induction false} HeldIsHundredths(
      entry: EntryRoster, rules: Rules, book: Option<RoleBook>, h: H.Holding, apps: seq<Priced>, tally: Tally)
    requires forall a :: a in apps ==> WellPriced(a, rules)
    ensures IsHundredths(HeldPoints(entry, book, h, apps, tally))
  {
    hide Points, WellPriced;
    if apps != [] {
      HeldIsHundredths(entry, rules, book, h, apps[..|apps| - 1], tally);
      PointsAreHundredths(entry, rules, book, apps[|apps| - 1], tally);
    }
  }

  /** What the fold adds up is already in hundredths, so rounding it changes nothing. */
  lemma {:induction false} FoldIsHundredths(
      entry: EntryRoster, rules: Rules, book: Option<RoleBook>, holdings: seq<H.Holding>, priced: seq<Priced>,
      tally: Tally)
    requires forall a :: a in priced ==> WellPriced(a, rules)
    ensures IsHundredths(FoldedPoints(entry, book, holdings, priced, tally))
    ensures Round2(FoldedPoints(entry, book, holdings, priced, tally))
            == FoldedPoints(entry, book, holdings, priced, tally)
  {
    hide HeldPoints, WellPriced, OfHero;
    if holdings != [] {
      var last := holdings[|holdings| - 1];
      FoldIsHundredths(entry, rules, book, holdings[..|holdings| - 1], priced, tally);
      OfHeroMembers(priced, last.hero);
      HeldIsHundredths(entry, rules, book, last, OfHero(priced, last.hero), tally);
    }
    RoundingKeepsHundredths(FoldedPoints(entry, book, holdings, priced, tally));
  }

  function At(totals: Totals, column: Column): int {
    if column in totals then totals[column] else 0
  }

  function ColumnSum(columns: seq<Column>, totals: Totals): int {
    Sum(columns, (column: Column) => At(totals, column))
  }

  /** One entry's row, before it is ranked. */
  method ScoreEntry(
      entry: EntryRoster, rules: Rules, book: Option<RoleBook>, byHero: map<int, seq<Priced>>, currentRound: int,
      ghost priced: seq<Priced>)
    returns (row: Row)
    requires forall hero :: Lookup(byHero, hero) == OfHero(priced, hero)
    requires forall a :: a in priced ==> WellPriced(a, rules)
    ensures row.entry == entry.entry && row.manager == entry.manager && row.handle == entry.handle && row.rank == 0
    ensures HasColumns(row.breakdown, rules, book)
    ensures var holdings := H.HoldingsOf(entry.heroes, entry.swaps);
      && (forall column :: column in row.breakdown ==>
            row.breakdown[column] == FoldedPoints(entry, book, holdings, priced, InColumn(column)))
      && row.roundPoints == FoldedPoints(entry, book, holdings, priced, InRound(currentRound))
    ensures row.total == ColumnSum(BoardColumns(rules, book), row.breakdown)
  {
    var totals, roundPoints := CreditEntry(entry, rules, book, byHero, currentRound, priced);
    ghost var holdings := H.HoldingsOf(entry.heroes, entry.swaps);
    var breakdown := map column | column in totals :: Round2(totals[column]);
    forall column | column in totals
      ensures breakdown[column] == totals[column] && IsHundredths(totals[column])
    {
      FoldIsHundredths(entry, rules, book, holdings, priced, InColumn(column));
    }
    FoldIsHundredths(entry, rules, book, holdings, priced, InRound(currentRound));
    var columns := BoardColumns(rules, book);
    SumOfHundredths(columns, (column: Column) => At(breakdown, column));
    row := Row(0, entry.entry, entry.manager, entry.handle, Round2(ColumnSum(columns, breakdown)), Round2(roundPoints),
               breakdown);
  }

  /** What a row must say: naive sums, column by column, and their exact total. */
  ghost predicate RowIsNaive(
    row: Row, entry: EntryRoster, book: Option<RoleBook>, rules: Rules, opening: set<int>, matches: seq<Match>)
  {
    && HasColumns(row.breakdown, rules, book)
    && (forall column :: column in row.breakdown ==>
          row.breakdown[column] == NaiveSum(entry, book, rules, opening, matches, InColumn(column)))
    && row.roundPoints == NaiveSum(entry, book, rules, opening, matches, InRound(LatestRound(matches)))
    && row.total == ColumnSum(BoardColumns(rules, book), row.breakdown)
    && row.total == NaiveSum(entry, book, rules, opening, matches, Everything)
  }

  lemma {:induction false} MetricColumnsSum(scored: seq<Metric>, f: Metric -> int, g: Column -> int)
    requires forall metric :: metric in scored ==> g(ForMetric(metric)) == f(metric)
    ensures Sum(MetricColumns(scored), g) == Sum(scored, f)
  {
    if scored != [] {
      var init := scored[..|scored| - 1];
      assert MetricColumns(scored)[..|scored| - 1] == MetricColumns(init);
      MetricColumnsSum(init, f, g);
    }
  }

  function WorthBy(entry: EntryRoster, book: Option<RoleBook>, rules: Rules, c: Context): Column -> int {
    column => Worth(entry, book, rules, c, InColumn(column))
  }

  function MatchBy(
    entry: EntryRoster, book: Option<RoleBook>, rules: Rules, opening: set<int>, contexts: seq<Context>): Column -> int
  {
    column => NaiveInMatch(entry, book, rules, opening, contexts, InColumn(column))
  }

  function NaiveBy(
    entry: EntryRoster, book: Option<RoleBook>, rules: Rules, opening: set<int>, matches: seq<Match>): Column -> int
  {
    column => NaiveSum(entry, book, rules, opening, matches, InColumn(column))
  }

  /** The columns partition what a context is worth. */
  lemma ColumnsPartitionWorth(entry: EntryRoster, book: Option<RoleBook>, rules: Rules, c: Context)
    requires rules.Valid()
    ensures Sum(BoardColumns(rules, book), WorthBy(entry, book, rules, c)) == Worth(entry, book, rules, c, Everything)
  {
    var g := WorthBy(entry, book, rules, c);
    MetricColumnsSum(rules.scored, metric => Contribution(c, rules, metric), g);
    var tail := if book.Some? then [ForRoleBonus] else [];
    SumConcat(MetricColumns(rules.scored), tail, g);
    if book.Some? {
      assert tail[..0] == [];
    }
  }

  lemma {:induction false} ColumnsPartitionMatch(
      entry: EntryRoster, book: Option<RoleBook>, rules: Rules, opening: set<int>, contexts: seq<Context>)
    requires rules.Valid()
    ensures Sum(BoardColumns(rules, book), MatchBy(entry, book, rules, opening, contexts))
            == NaiveInMatch(entry, book, rules, opening, contexts, Everything)
  {
    hide Worth, BoardColumns, Rules.Valid;
    var columns, h := BoardColumns(rules, book), MatchBy(entry, book, rules, opening, contexts);
    if contexts == [] {
      SumZero(columns, h);
    } else {
      var init, c := contexts[..|contexts| - 1], contexts[|contexts| - 1];
      ColumnsPartitionMatch(entry, book, rules, opening, init);
      ColumnsPartitionWorth(entry, book, rules, c);
      if c.hero in H.RosterAt(opening, entry.swaps, c.result.round) {
        SumSplit(columns, h, MatchBy(entry, book, rules, opening, init), WorthBy(entry, book, rules, c));
      } else {
        SumSame(columns, h, MatchBy(entry, book, rules, opening, init));
      }
    }
  }

  lemma {:induction false} ColumnsPartitionEverything(
      entry: EntryRoster, book: Option<RoleBook>, rules: Rules, opening: set<int>, matches: seq<Match>)
    requires rules.Valid()
    ensures Sum(BoardColumns(rules, book), NaiveBy(entry, book, rules, opening, matches))
            == NaiveSum(entry, book, rules, opening, matches, Everything)
  {
    hide NaiveInMatch, HeroContexts, BoardColumns, Rules.Valid;
    var columns, h := BoardColumns(rules, book), NaiveBy(entry, book, rules, opening, matches);
    if matches == [] {
      SumZero(columns, h);
    } else {
      var init, contexts := matches[..|matches| - 1], HeroContexts(matches[|matches| - 1]);
      ColumnsPartitionEverything(entry, book, rules, opening, init);
      ColumnsPartitionMatch(entry, book, rules, opening, contexts);
      SumSplit(columns, h, NaiveBy(entry, book, rules, opening, init), MatchBy(entry, book, rules, opening, contexts));
    }
  }

  /** What the loops leave in a row: the fold, column by column and for the latest round, and the columns' sum. */
  ghost predicate RowIsFolded(
    row: Row, entry: EntryRoster, book: Option<RoleBook>, rules: Rules, matches: seq<Match>)
  {
    var holdings, priced := H.HoldingsOf(entry.heroes, entry.swaps), PricedIn(matches, rules);
    && HasColumns(row.breakdown, rules, book)
    && (forall column :: column in row.breakdown ==>
          row.breakdown[column] == FoldedPoints(entry, book, holdings, priced, InColumn(column)))
    && row.roundPoints == FoldedPoints(entry, book, holdings, priced, InRound(LatestRound(matches)))
    && row.total == ColumnSum(BoardColumns(rules, book), row.breakdown)
  }

  /** For an entry whose log describes its roster, the computed row is the naive one. */
  lemma RowRefinesTheNaiveSum(
      row: Row, entry: EntryRoster, book: Option<RoleBook>, rules: Rules, opening: set<int>, matches: seq<Match>)
    requires rules.Valid() && Describes(entry, opening) && forall m :: m in matches ==> m.round >= 1
    ensures RowIsFolded(row, entry, book, rules, matches) <==> RowIsNaive(row, entry, book, rules, opening, matches)
  {
    hide Describes, FoldedPoints, NaiveSum, PricedIn, H.HoldingsOf, Rules.Valid, LatestRound;
    forall column | column in row.breakdown
      ensures FoldedPoints(entry, book, H.HoldingsOf(entry.heroes, entry.swaps), PricedIn(matches, rules),
                           InColumn(column))
              == NaiveSum(entry, book, rules, opening, matches, InColumn(column))
    {
      FoldIsNaive(entry, book, rules, opening, matches, InColumn(column));
    }
    FoldIsNaive(entry, book, rules, opening, matches, InRound(LatestRound(matches)));
    if RowIsFolded(row, entry, book, rules, matches) {
      ColumnsTotal(row.breakdown, entry, book, rules, opening, matches);
    }
  }

  lemma ColumnsTotal(
      totals: Totals, entry: EntryRoster, book: Option<RoleBook>, rules: Rules, opening: set<int>, matches: seq<Match>)
    requires rules.Valid() && HasColumns(totals, rules, book)
    requires forall column :: column in totals ==>
               totals[column] == NaiveSum(entry, book, rules, opening, matches, InColumn(column))
    ensures ColumnSum(BoardColumns(rules, book), totals) == NaiveSum(entry, book, rules, opening, matches, Everything)
  {
    hide NaiveSum, Rules.Valid;
    var columns := BoardColumns(rules, book);
    assert forall column :: column in columns ==> IsColumn(column, rules, book);
    SumSame(columns, (column: Column) => At(totals, column), NaiveBy(entry, book, rules, opening, matches));
    ColumnsPartitionEverything(entry, book, rules, opening, matches);
  }

  function ByTotal(): Columns<Row> {
    Columns((row: Row) => Mark(row.total, 0), (row: Row) => row.handle)
  }

  /** A row that belongs to a roster and says what it must. */
  ghost predicate Scores(
    row: Row, entry: EntryRoster, book: Option<RoleBook>, rules: Rules, opening: set<int>, matches: seq<Match>)
  {
    row.entry == entry.entry && row.manager == entry.manager && row.handle == entry.handle
    && RowIsNaive(row, entry, book, rules, opening, matches)
  }

  method ScoreNaively(
      entry: EntryRoster, rules: Rules, book: Option<RoleBook>, byHero: map<int, seq<Priced>>, matches: seq<Match>,
      ghost opening: set<int>)
    returns (row: Row)
    requires forall hero :: Lookup(byHero, hero) == OfHero(PricedIn(matches, rules), hero)
    requires rules.Valid() && Describes(entry, opening) && forall m :: m in matches ==> m.round >= 1
    ensures Scores(row, entry, book, rules, opening, matches)
  {
    PricedInIsWellPriced(matches, rules);
    hide RowIsNaive, Describes, Rules.Valid, WellPriced, FoldedPoints, PricedIn, HasColumns;
    row := ScoreEntry(entry, rules, book, byHero, LatestRound(matches), PricedIn(matches, rules));
    RowRefinesTheNaiveSum(row, entry, book, rules, opening, matches);
  }

  /** A row for every roster, in roster order, all against one pricing of the matches. */
  method ScoreAll(matches: seq<Match>, rules: Rules, rosters: seq<EntryRoster>, book: Option<RoleBook>,
                  ghost openings: seq<set<int>>)
    returns (scored: seq<Row>)
    requires rules.Valid() && forall m :: m in matches ==> m.round >= 1
    requires |openings| == |rosters| && forall i :: 0 <= i < |rosters| ==> Describes(rosters[i], openings[i])
    ensures |scored| == |rosters|
    ensures forall i :: 0 <= i < |rosters| ==> Scores(scored[i], rosters[i], book, rules, openings[i], matches)
  {
    hide *;
    var byHero := GroupByHero(matches, rules);
    scored := [];
    for i := 0 to |rosters|
      invariant |scored| == i
      invariant forall k :: 0 <= k < i ==> Scores(scored[k], rosters[k], book, rules, openings[k], matches)
    {
      var row := ScoreNaively(rosters[i], rules, book, byHero, matches, openings[i]);
      scored := scored + [row];
    }
  }

  // ---------------------------------------------------------------- ranks

  /** A finished board: in order, each row carrying its rank among all of them. */
  ghost predicate Ranked(rows: seq<Row>) {
    IsSorted(ByTotal(), rows) && forall row :: row in rows ==> row.rank == RankOf(ByTotal(), rows, row)
  }

  function WithRanks(rows: seq<Row>, all: seq<Row>): seq<Row> {
    seq(|rows|, i requires 0 <= i < |rows| => rows[i].(rank := RankOf(ByTotal(), all, rows[i])))
  }

  lemma {:induction false} RanksAreNoMarks(rows: seq<Row>, all: seq<Row>, mark: Mark)
    ensures Better(ByTotal(), WithRanks(rows, all), mark) == Better(ByTotal(), rows, mark)
  {
    if rows != [] {
      var init := rows[..|rows| - 1];
      RanksAreNoMarks(init, all, mark);
      assert WithRanks(rows, all)[..|rows| - 1] == WithRanks(init, all);
    }
  }

  /** Sorting and then ranking against the rows as they came makes a finished board. */
  lemma SortedAndRanked(unranked: seq<Row>)
    ensures Ranked(WithRanks(Sort(ByTotal(), unranked), unranked))
  {
    var view, sorted := ByTotal(), Sort(ByTotal(), unranked);
    var board := WithRanks(sorted, unranked);
    SortIsRight(view, unranked);
    forall i, j | 0 <= i < j < |board| ensures Before(view, board[i], board[j]) {
      assert Before(view, sorted[i], sorted[j]);
    }
    forall row | row in board ensures row.rank == RankOf(view, board, row) {
      var i :| 0 <= i < |board| && board[i] == row;
      var mark := view.mark(sorted[i]);
      BetterIsAboutMembers(view, sorted, unranked, mark);
      RanksAreNoMarks(sorted, unranked, mark);
    }
  }

  /** The whole board: scored, then ordered and ranked in place. */
  method Board(matches: seq<Match>, rules: Rules, rosters: seq<EntryRoster>, book: Option<RoleBook>,
               ghost openings: seq<set<int>>)
    returns (rows: array<Row>, ghost unranked: seq<Row>)
    requires rules.Valid() && forall m :: m in matches ==> m.round >= 1
    requires |openings| == |rosters| && forall i :: 0 <= i < |rosters| ==> Describes(rosters[i], openings[i])
    ensures |unranked| == |rosters|
    ensures forall i :: 0 <= i < |rosters| ==> Scores(unranked[i], rosters[i], book, rules, openings[i], matches)
    ensures rows[..] == WithRanks(Sort(ByTotal(), unranked), unranked) && Ranked(rows[..])
  {
    hide Scores, Describes, Rules.Valid, Sort, RankOf, Ranked;
    var scored := ScoreAll(matches, rules, rosters, book, openings);
    unranked := scored;
    rows := new Row[|scored|](i requires 0 <= i < |scored| => scored[i]);
    assert rows[..] == scored;
    var ranks := CompetitionRank(ByTotal(), rows);
    ghost var sorted := rows[..];
    for i := 0 to rows.Length
      invariant forall k :: 0 <= k < rows.Length ==> ranks[k] == RankOf(ByTotal(), unranked, sorted[k])
      invariant forall k :: 0 <= k < rows.Length ==>
                  rows[k] == if k < i then sorted[k].(rank := RankOf(ByTotal(), unranked, sorted[k])) else sorted[k]
    {
      rows[i] := rows[i].(rank := ranks[i]);
    }
    assert rows[..] == WithRanks(sorted, unranked);
    SortedAndRanked(unranked);
  }
}
