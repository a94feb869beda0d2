/** The leaderboard at any moment of a season, against the rosters the season was played with. */
module SeasonBoard {
  import opened Options
  import opened MatchResults
  import opened Scoring
  import opened RosterRoles
  import opened Standings
  import opened RosterMachine
  import opened RosterRuns
  import Leaderboard
  import H = Holdings

  /** What is stored of an entry at some moment: the roster held now, and the log. */
  ghost predicate Stores(entry: EntryRoster, s: State) {
    entry.heroes == s.slots && entry.swaps == s.log
  }

  /** The rosters the rounds are owed, looked at from some moment of the run. */
  ghost function Rosters(s: State): int -> set<int> { round => RosterDuring(s, round) }

  /** What the contexts of one match earned for the roster of its round. */
  function EarnedInMatch(
    rosters: int -> set<int>, entry: EntryRoster, book: Option<RoleBook>, rules: Rules, contexts: seq<Context>,
    tally: Tally): int
  {
    if contexts == [] then 0
    else
      var c := contexts[|contexts| - 1];
      EarnedInMatch(rosters, entry, book, rules, contexts[..|contexts| - 1], tally)
      + (if c.hero in rosters(c.result.round) then Worth(entry, book, rules, c, tally) else 0)
  }

  function Earned(
    rosters: int -> set<int>, entry: EntryRoster, book: Option<RoleBook>, rules: Rules, matches: seq<Match>,
    tally: Tally): int
  {
    if matches == [] then 0
    else
      Earned(rosters, entry, book, rules, matches[..|matches| - 1], tally)
      + EarnedInMatch(rosters, entry, book, rules, HeroContexts(matches[|matches| - 1]), tally)
  }

  /** At any moment of a run whose swaps were recorded, what is stored describes the opening roster. */
  lemma StoredEntriesDescribe(run: seq<State>, i: nat, entry: EntryRoster)
    requires IsRun(run) && SwappedAtSize(run) && i < |run| && run[i].status.Locked? && Stores(entry, run[i])
    ensures Describes(entry, run[i].opening)
  {
    RunKeepsInv(run, i);
  }

  lemma {:induction false} EarnedIsNaiveInMatch(
      rosters: int -> set<int>, entry: EntryRoster, book: Option<RoleBook>, rules: Rules, opening: set<int>,
      contexts: seq<Context>, tally: Tally)
    requires forall c :: c in contexts ==> H.RosterAt(opening, entry.swaps, c.result.round) == rosters(c.result.round)
    ensures NaiveInMatch(entry, book, rules, opening, contexts, tally)
            == EarnedInMatch(rosters, entry, book, rules, contexts, tally)
  {
    hide Worth, H.RosterAt;
    if contexts != [] {
      assert contexts[|contexts| - 1] in contexts;
      EarnedIsNaiveInMatch(rosters, entry, book, rules, opening, contexts[..|contexts| - 1], tally);
    }
  }

  /** Sums agree when the log gives each match's round the roster it is owed. */
  lemma {:induction false} EarnedIsNaive(
      rosters: int -> set<int>, entry: EntryRoster, book: Option<RoleBook>, rules: Rules, opening: set<int>,
      matches: seq<Match>, tally: Tally)
    requires forall m :: m in matches ==> H.RosterAt(opening, entry.swaps, m.round) == rosters(m.round)
    ensures NaiveSum(entry, book, rules, opening, matches, tally)
            == Earned(rosters, entry, book, rules, matches, tally)
  {
    hide NaiveInMatch, EarnedInMatch, HeroContexts, H.RosterAt;
    if matches != [] {
      var init, last := matches[..|matches| - 1], matches[|matches| - 1];
      EarnedIsNaive(rosters, entry, book, rules, opening, init, tally);
      assert last in matches;
      ContextsShareTheMatch(last);
      EarnedIsNaiveInMatch(rosters, entry, book, rules, opening, HeroContexts(last), tally);
    }
  }

  /** What a row must say of the season: column by column, the latest round, and the total. */
  ghost predicate RowIsEarned(
    row: Row, s: State, entry: EntryRoster, book: Option<RoleBook>, rules: Rules, matches: seq<Match>)
  {
    && (forall column :: column in row.breakdown <==> Leaderboard.IsColumn(column, rules, book))
    && (forall column :: column in row.breakdown ==>
          row.breakdown[column] == Earned(Rosters(s), entry, book, rules, matches, InColumn(column)))
    && row.roundPoints == Earned(Rosters(s), entry, book, rules, matches, InRound(Leaderboard.LatestRound(matches)))
    && row.total == Earned(Rosters(s), entry, book, rules, matches, Everything)
  }

  /**
  The season's theorem.  Take the entry as stored at any moment of any run of drafting, locking,
  advancing, retuning and swapping whose swaps were recorded.  The row the board computes from it is
  the sum over the contexts of exactly the heroes on the roster when each match's round was played.
  */
  lemma BoardRemembersTheRun(
      run: seq<State>, i: nat, row: Row, entry: EntryRoster, book: Option<RoleBook>, rules: Rules, matches: seq<Match>)
    requires IsRun(run) && SwappedAtSize(run) && i < |run| && run[i].status.Locked? && Stores(entry, run[i])
    requires forall m :: m in matches ==> m.round >= 1
    requires Leaderboard.RowIsNaive(row, entry, book, rules, run[i].opening, matches)
    ensures RowIsEarned(row, run[i], entry, book, rules, matches)
  {
    RunKeepsInv(run, i);
    var s, rosters := run[i], Rosters(run[i]);
    hide IsRun, SwappedAtSize, NaiveSum, Earned, RosterDuring, H.RosterAt, Inv;
    forall m | m in matches ensures H.RosterAt(s.opening, entry.swaps, m.round) == rosters(m.round) {
      RosterIsRemembered(s, m.round);
    }
    forall column | column in row.breakdown
      ensures row.breakdown[column] == Earned(rosters, entry, book, rules, matches, InColumn(column))
    {
      EarnedIsNaive(rosters, entry, book, rules, s.opening, matches, InColumn(column));
    }
    EarnedIsNaive(rosters, entry, book, rules, s.opening, matches, InRound(Leaderboard.LatestRound(matches)));
    EarnedIsNaive(rosters, entry, book, rules, s.opening, matches, Everything);
  }

  /** Scores the entry stored at one moment of a run. */
  method ScoreStored(
      ghost run: seq<State>, ghost i: nat, entry: EntryRoster, rules: Rules, book: Option<RoleBook>,
      matches: seq<Match>)
    returns (row: Row)
    requires IsRun(run) && SwappedAtSize(run) && i < |run| && run[i].status.Locked? && Stores(entry, run[i])
    requires rules.Valid() && forall m :: m in matches ==> m.round >= 1
    ensures RowIsEarned(row, run[i], entry, book, rules, matches)
  {
    StoredEntriesDescribe(run, i, entry);
    hide IsRun, SwappedAtSize, Stores, RowIsEarned, Describes, Leaderboard.RowIsNaive, Leaderboard.Lookup;
    hide OfHero, PricedIn;
    var byHero := Leaderboard.GroupByHero(matches, rules);
    row := Leaderboard.ScoreNaively(entry, rules, book, byHero, matches, run[i].opening);
    BoardRemembersTheRun(run, i, row, entry, book, rules, matches);
  }
}
