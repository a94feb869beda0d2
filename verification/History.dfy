/** Trades and re-assignments change the future of a total and never its past. */
module History {
  import opened Options
  import opened MatchResults
  import opened Scoring
  import opened RosterRoles
  import opened Standings
  import H = Holdings

  /** The same entry some swaps and assignments later, none of them for round `round` or before. */
  ghost predicate Follows(
    after: EntryRoster, before: EntryRoster, trade: seq<H.Swap>, more: seq<Assignment>, round: int)
  {
    && after.swaps == before.swaps + trade && after.roles == before.roles + more
    && (forall k :: 0 <= k < |trade| ==> round < trade[k].round)
    && forall a :: a in more ==> round < a.fromRound
  }

  /** What a context of that round is worth, and whether it counts, are as they were. */
  lemma ContextStands(
      after: EntryRoster, before: EntryRoster, trade: seq<H.Swap>, more: seq<Assignment>, book: Option<RoleBook>,
      rules: Rules, opening: set<int>, c: Context, tally: Tally)
    requires Follows(after, before, trade, more, c.result.round)
    ensures H.RosterAt(opening, after.swaps, c.result.round) == H.RosterAt(opening, before.swaps, c.result.round)
    ensures Worth(after, book, rules, c, tally) == Worth(before, book, rules, c, tally)
  {
    H.LaterSwapsDoNotShow(opening, before.swaps, trade, c.result.round);
    ReassignmentsNeverRewriteHistory(before.roles, more, c.hero, c.result.round);
    assert BonusOf(after.roles, book, c.hero, c.result.round, StatsOf(c))
           == BonusOf(before.roles, book, c.hero, c.result.round, StatsOf(c));
  }

  lemma {:induction false} MatchStands(
      after: EntryRoster, before: EntryRoster, trade: seq<H.Swap>, more: seq<Assignment>, book: Option<RoleBook>,
      rules: Rules, opening: set<int>, contexts: seq<Context>, tally: Tally)
    requires forall c :: c in contexts ==> Follows(after, before, trade, more, c.result.round)
    ensures NaiveInMatch(after, book, rules, opening, contexts, tally)
            == NaiveInMatch(before, book, rules, opening, contexts, tally)
  {
    if contexts != [] {
      hide Follows, Worth, H.RosterAt;
      var init, c := contexts[..|contexts| - 1], contexts[|contexts| - 1];
      MatchStands(after, before, trade, more, book, rules, opening, init, tally);
      assert c in contexts;
      ContextStands(after, before, trade, more, book, rules, opening, c, tally);
    }
  }

  lemma {:induction false} SumStands(
      after: EntryRoster, before: EntryRoster, trade: seq<H.Swap>, more: seq<Assignment>, book: Option<RoleBook>,
      rules: Rules, opening: set<int>, matches: seq<Match>, tally: Tally)
    requires forall m :: m in matches ==> Follows(after, before, trade, more, m.round)
    ensures NaiveSum(after, book, rules, opening, matches, tally)
            == NaiveSum(before, book, rules, opening, matches, tally)
  {
    if matches != [] {
      hide Follows, NaiveInMatch, HeroContexts;
      var init, last := matches[..|matches| - 1], matches[|matches| - 1];
      SumStands(after, before, trade, more, book, rules, opening, init, tally);
      assert last in matches;
      ContextsShareTheMatch(last);
      MatchStands(after, before, trade, more, book, rules, opening, HeroContexts(last), tally);
    }
  }

  /**
  Over the matches of rounds before a trade or a re-assignment, the fold gives what it gave before
  it, though the holdings are rebuilt from a different roster and a longer log.
  */
  lemma FoldStands(
      after: EntryRoster, before: EntryRoster, trade: seq<H.Swap>, more: seq<Assignment>, book: Option<RoleBook>,
      rules: Rules, opening: set<int>, matches: seq<Match>, tally: Tally)
    requires rules.Valid() && Describes(before, opening) && Describes(after, opening)
    requires forall m :: m in matches ==> m.round >= 1 && Follows(after, before, trade, more, m.round)
    ensures FoldedPoints(after, book, H.HoldingsOf(after.heroes, after.swaps), PricedIn(matches, rules), tally)
            == FoldedPoints(before, book, H.HoldingsOf(before.heroes, before.swaps), PricedIn(matches, rules), tally)
  {
    hide Describes, Rules.Valid, Follows, FoldedPoints, NaiveSum, PricedIn, H.HoldingsOf;
    FoldIsNaive(before, book, rules, opening, matches, tally);
    FoldIsNaive(after, book, rules, opening, matches, tally);
    SumStands(after, before, trade, more, book, rules, opening, matches, tally);
  }
}
