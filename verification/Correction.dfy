/** A recorded match opened for correction and saved unchanged: accepted again, and stored the same. */
module Correction {
  import opened Distinctness
  import opened Ordering
  import opened StatNames
  import opened MatchResults
  import opened MatchForms
  import opened FormRoundTrip
  import opened Conservation
  import P = MatchPolicy

  // ---------------------------------------------------------------- a saved match as shown

  /** The stored stats, each name once, in whatever order they are listed. */
  ghost predicate ShowsStats(stats: seq<P.Stat>, stored: map<string, int>) {
    && (forall i, j :: 0 <= i < j < |stats| ==> stats[i].name != stats[j].name)
    && (forall t :: t in stats ==> t.name in stored && stored[t.name] == t.value)
    && (forall name :: name in stored ==> exists t :: t in stats && t.name == name)
  }

  ghost predicate ShowsPlay(p: SavedPlay, q: GameParticipant) {
    p.side == q.side && p.hero == q.hero && p.health == q.health && p.isWinner == q.isWinner
    && ShowsStats(p.stats, q.stats)
  }

  ghost predicate ShowsGame(g: SavedGame, r: Game) {
    && g.number == r.number && g.board == r.board && |g.participants| == |r.participants|
    && forall i :: 0 <= i < |g.participants| ==> ShowsPlay(g.participants[i], r.participants[i])
  }

  ghost predicate Shows(d: Saved, m: Match) {
    && d.participants == m.participants && d.bans == m.bans && |d.games| == |m.games|
    && forall i :: 0 <= i < |m.games| ==> ShowsGame(d.games[i], m.games[i])
  }

  // ---------------------------------------------------------------- stats

  lemma {:induction false} StoredNames(stats: seq<P.Stat>)
    ensures forall name :: name in StoredStats(stats) ==>
              exists t :: t in stats && Normalise(t.name) == name && t.value == StoredStats(stats)[name]
    ensures forall t :: t in stats ==> Normalise(t.name) in StoredStats(stats)
  {
    hide Normalise;
    if stats != [] {
      var init, last := stats[..|stats| - 1], stats[|stats| - 1];
      StoredNames(init);
      assert forall t :: t in stats <==> t in init || t == last;
    }
  }

  /** Stats stored once, listed, and stored again are the same stats. */
  lemma StoredAgain(stats: seq<P.Stat>, stored: map<string, int>)
    requires ShowsStats(stats, stored) && forall name :: name in stored ==> IsWellFormed(name)
    ensures StoredStats(stats) == stored
  {
    StoredNames(stats);
    forall t | t in stats ensures Normalise(t.name) == t.name {
      WellFormedNamesAreNormal(t.name);
    }
    hide Normalise, IsWellFormed;
    forall name | name in StoredStats(stats) ensures name in stored && StoredStats(stats)[name] == stored[name] {
      var t :| t in stats && Normalise(t.name) == name && t.value == StoredStats(stats)[name];
    }
    forall name | name in stored ensures name in StoredStats(stats) {
      var t :| t in stats && t.name == name;
    }
  }

  lemma StoredFromAccepted(stats: seq<P.Stat>)
    requires !P.HasMalformed(stats) && !P.HasNegative(stats)
    ensures forall name :: name in StoredStats(stats) ==> IsWellFormed(name) && StoredStats(stats)[name] >= 0
  {
    StoredNames(stats);
  }

  /** Stats as shown break none of the stat rules. */
  lemma ShownStatsAreClean(stats: seq<P.Stat>, stored: map<string, int>)
    requires ShowsStats(stats, stored)
    requires forall name :: name in stored ==> IsWellFormed(name) && stored[name] >= 0
    ensures !P.HasMalformed(stats) && !P.HasRepeat(stats) && !P.HasNegative(stats)
  {
    forall t | t in stats ensures Normalise(t.name) == t.name {
      WellFormedNamesAreNormal(t.name);
    }
    hide Normalise, IsWellFormed;
    assert forall i :: 0 <= i < |stats| ==> stats[i] in stats;
  }

  // ---------------------------------------------------------------- one game

  lemma ResentGame(before: P.GameInput, d: SavedGame, r: Game, sent: P.GameInput)
    requires SameGame(before, r) && ShowsGame(d, r) && sent == P.GameInput(d.number, d.board, PlaysOf(d))
    requires !P.Malformed(before) && !P.Negative(before)
    ensures SameGame(sent, r)
    ensures !P.Malformed(sent) && !P.Doubled(sent) && !P.Negative(sent)
  {
    forall i | 0 <= i < |r.participants|
      ensures StoredStats(d.participants[i].stats) == r.participants[i].stats
      ensures !P.HasMalformed(sent.participants[i].stats) && !P.HasRepeat(sent.participants[i].stats)
      ensures !P.HasNegative(sent.participants[i].stats)
    {
      assert before.participants[i] in before.participants;
      assert ShowsPlay(d.participants[i], r.participants[i]);
      assert r.participants[i] == Stored(i, before.participants[i]);
      hide P.HasMalformed, P.HasNegative, P.HasRepeat, IsWellFormed, StoredStats, ShowsStats;
      StoredFromAccepted(before.participants[i].stats);
      StoredAgain(d.participants[i].stats, r.participants[i].stats);
      ShownStatsAreClean(d.participants[i].stats, r.participants[i].stats);
    }
    hide P.HasMalformed, P.HasNegative, P.HasRepeat, StoredStats, ShowsStats;
  }

  lemma DecidedGame(g: P.GameInput, r: Game)
    requires SameGame(g, r) && Decided(r)
    ensures |g.participants| == 2 && Distinct(P.Heroes(g)) && P.OneWinner(g) && !P.LoserSurvives(g)
  {
    assert r.participants[0] == Stored(0, g.participants[0]) && r.participants[1] == Stored(1, g.participants[1]);
    assert P.SoleWinner(g.participants, if g.participants[0].isWinner then 0 else 1);
    forall p | p in g.participants && !p.isWinner ensures p.health <= 0 {
      var i :| 0 <= i < 2 && g.participants[i] == p;
      assert r.participants[i] in r.participants;
    }
  }

  // ---------------------------------------------------------------- numbers

  /** N strictly ascending numbers between 1 and N are all of them. */
  lemma {:induction false} DenseWhenAscending(numbers: seq<int>, i: nat)
    requires forall a, b :: 0 <= a < b < |numbers| ==> numbers[a] < numbers[b]
    requires forall a :: 0 <= a < |numbers| ==> 1 <= numbers[a] <= |numbers|
    requires i < |numbers|
    ensures i + 1 <= numbers[i] <= |numbers|
    ensures numbers[|numbers| - 1 - i] <= |numbers| - i
  {
    if i > 0 {
      DenseWhenAscending(numbers, i - 1);
      assert numbers[i - 1] < numbers[i];
      assert numbers[|numbers| - 1 - i] < numbers[|numbers| - i];
    }
  }

  /** Games numbered from one are recorded in the places of their numbers. */
  lemma RecordedInPlace(s: P.Submission, m: Match)
    requires P.NumberedFromOne(s.games) && GamesReadBack(s, m)
    ensures forall i :: 0 <= i < |m.games| ==> m.games[i].number == i + 1
  {
    hide NoneLost, SameGame;
    var n := |m.games|;
    var numbers := seq(n, i requires 0 <= i < n => m.games[i].number);
    P.SortedNumbers(s.games);
    SortByMembers(k => k, P.Numbers(s.games));
    forall i | 0 <= i < n ensures 1 <= numbers[i] <= n {
      assert m.games[i] in m.games;
      var g :| g in s.games && SameGame(g, m.games[i]);
      BoardsMatch(g, m.games[i]);
      var k :| 0 <= k < |s.games| && s.games[k] == g;
      assert P.Numbers(s.games)[k] == numbers[i];
      assert numbers[i] in P.OneTo(n);
    }
    forall i | 0 <= i < n ensures m.games[i].number == i + 1 {
      DenseWhenAscending(numbers, i);
      DenseWhenAscending(numbers, n - 1 - i);
    }
  }

  lemma NumberedAgain(s: P.Submission, m: Match, sent: P.Submission)
    requires P.NumberedFromOne(s.games) && GamesReadBack(s, m) && |sent.games| == |m.games|
    requires forall i :: 0 <= i < |m.games| ==> sent.games[i].number == m.games[i].number
    ensures P.NumberedFromOne(sent.games)
  {
    RecordedInPlace(s, m);
    var n := |m.games|;
    assert P.Numbers(sent.games) == P.OneTo(n);
    forall k | 1 <= k <= n ensures multiset(P.Numbers(sent.games))[k] == 1 {
      P.OneToCounts(n, k);
    }
  }

  // ---------------------------------------------------------------- the theorem

  function Resent(d: Saved): P.Submission { ToPayload(FormFromMatch(d)) }

  ghost predicate AllSided(d: Saved) { forall b :: b in d.bans ==> b.banType.PreBan? || b.side.Some? }

  lemma AcceptedIsPlaced(pools: P.Pools, s: P.Submission, m: Match)
    requires P.Accepted(pools, s) && ReadsBack(s, m)
    ensures Placed(m.bans, 2)
  {
    P.AcceptedMeans(pools, s);
    hide DraftsReadBack, GamesReadBack, P.Accepted, P.Resolves, P.Apart, P.GameIsRight, P.NumberedFromOne, Distinct;
    forall b | b in m.bans && b.side.Some? ensures !b.banType.PreBan? && 0 <= b.side.value < 2 {
      assert b in multiset(s.bans);
      assert !P.ImpossibleSide(b);
    }
  }

  lemma ShownInServerOrder(s: P.Submission, m: Match, d: Saved)
    requires ReadsBack(s, m) && Shows(d, m)
    ensures InServerOrder(d)
  {
    hide NoneLost;
    forall g | g in d.games ensures forall i :: 0 <= i < |g.participants| ==> g.participants[i].side == i {
      var k :| 0 <= k < |d.games| && d.games[k] == g;
      assert m.games[k] in m.games && ShowsGame(d.games[k], m.games[k]);
      var before :| before in s.games && SameGame(before, m.games[k]);
      forall i | 0 <= i < |g.participants| ensures g.participants[i].side == i {
        assert ShowsPlay(g.participants[i], m.games[k].participants[i]);
      }
    }
    forall i, j | 0 <= i < j < |d.games| ensures ByNumber()(d.games[i]) < ByNumber()(d.games[j]) {
      assert ShowsGame(d.games[i], m.games[i]) && ShowsGame(d.games[j], m.games[j]);
    }
  }

  /** What the form sends back, piece by piece. */
  lemma ResentPieces(pools: P.Pools, s: P.Submission, m: Match, d: Saved)
    requires P.Accepted(pools, s) && ReadsBack(s, m) && Shows(d, m) && AllSided(d)
    ensures var sent := Resent(d);
      && |sent.drafts| == |m.participants| && |sent.games| == |m.games| && multiset(sent.bans) == multiset(m.bans)
      && (forall i :: 0 <= i < |m.participants| ==> sent.drafts[i] == m.participants[i].drafted)
      && forall i :: 0 <= i < |m.games| ==>
           sent.games[i] == P.GameInput(d.games[i].number, d.games[i].board, PlaysOf(d.games[i]))
  {
    AcceptedIsLegal(pools, s, m);
    assert |m.participants| == 2;
    AcceptedIsPlaced(pools, s, m);
    ShownInServerOrder(s, m, d);
    assert NoneDraftedWhereStruck(d);
    hide ReadsBack, P.Accepted, Legal, InServerOrder, Placed, NoneDraftedWhereStruck, PlaysOf, FormFromMatch, ToPayload;
    RoundTrip(d);
  }

  /** Each game as sent back against the game on record, and the stats in it. */
  lemma ResentGames(pools: P.Pools, s: P.Submission, m: Match, d: Saved)
    requires P.Accepted(pools, s) && ReadsBack(s, m) && Shows(d, m) && AllSided(d)
    ensures |Resent(d).games| == |m.games|
    ensures forall i :: 0 <= i < |m.games| ==>
              && SameGame(Resent(d).games[i], m.games[i]) && m.games[i].board in pools.boards
              && !P.Malformed(Resent(d).games[i]) && !P.Doubled(Resent(d).games[i]) && !P.Negative(Resent(d).games[i])
  {
    ResentPieces(pools, s, m, d);
    P.AcceptedMeans(pools, s);
    hide P.Accepted, PlaysOf, Resent, SameGame, ShowsGame, NoneLost, DraftsReadBack, P.Malformed, P.Doubled, P.Negative;
    hide P.WellShaped, P.Apart, P.NamedIn;
    forall i | 0 <= i < |m.games|
      ensures SameGame(Resent(d).games[i], m.games[i]) && m.games[i].board in pools.boards
      ensures !P.Malformed(Resent(d).games[i]) && !P.Doubled(Resent(d).games[i]) && !P.Negative(Resent(d).games[i])
    {
      assert m.games[i] in m.games;
      var before :| before in s.games && SameGame(before, m.games[i]);
      BoardsMatch(before, m.games[i]);
      ResentGame(before, d.games[i], m.games[i], Resent(d).games[i]);
    }
  }

  lemma BoardsMatch(g: P.GameInput, r: Game)
    requires SameGame(g, r)
    ensures g.board == r.board && g.number == r.number
  {
  }

  /** The match sent back is the one on record. */
  lemma ResentReadsBack(pools: P.Pools, s: P.Submission, m: Match, d: Saved)
    requires P.Accepted(pools, s) && ReadsBack(s, m) && Shows(d, m) && AllSided(d)
    ensures ReadsBack(Resent(d), m)
  {
    var sent := Resent(d);
    ResentPieces(pools, s, m, d);
    ResentGames(pools, s, m, d);
    hide P.Accepted, Resent, SameGame, Shows, P.Malformed, P.Doubled, P.Negative, PlaysOf, NoneInvented, NoneLost;
    assert DraftsReadBack(sent, m);
    GamesAgain(sent, m);
  }

  lemma GamesAgain(sent: P.Submission, m: Match)
    requires |sent.games| == |m.games| && forall i :: 0 <= i < |m.games| ==> SameGame(sent.games[i], m.games[i])
    ensures NoneInvented(sent, m) && NoneLost(sent, m)
  {
    hide SameGame;
    forall r | r in m.games ensures exists g :: g in sent.games && SameGame(g, r) {
      var i :| 0 <= i < |m.games| && m.games[i] == r;
      assert sent.games[i] in sent.games;
    }
    forall g | g in sent.games ensures exists r :: r in m.games && SameGame(g, r) {
      var i :| 0 <= i < |sent.games| && sent.games[i] == g;
      assert m.games[i] in m.games;
    }
  }

  lemma RecordedGameIsRight(sent: P.Submission, m: Match, g: P.GameInput, r: Game)
    requires Legal(m) && DraftsReadBack(sent, m) && r in m.games && SameGame(g, r)
    ensures P.GameIsRight(sent, g) && Distinct(P.Heroes(g))
  {
    assert Decided(r) && FieldsItsDraft(m, r);
    hide Legal;
    DecidedGame(g, r);
    hide Decided, P.OneWinner, P.LoserSurvives, P.Heroes, Distinct;
    forall i | 0 <= i < |g.participants| && i < |sent.drafts| ensures g.participants[i].hero in sent.drafts[i] {
      assert r.participants[i].hero in m.participants[i].drafted;
    }
  }

  lemma ResentGamesAreRight(pools: P.Pools, s: P.Submission, m: Match, d: Saved)
    requires P.Accepted(pools, s) && ReadsBack(s, m) && Shows(d, m) && AllSided(d)
    ensures forall g :: g in Resent(d).games ==>
              && P.GameIsRight(Resent(d), g) && Distinct(P.Heroes(g)) && g.board in pools.boards
              && !P.Malformed(g) && !P.Doubled(g) && !P.Negative(g)
  {
    hide P.Accepted, Resent, SameGame, Shows, P.Malformed, P.Doubled, P.Negative, Legal, P.GameIsRight, AllSided;
    hide DraftsReadBack, GamesReadBack, P.Heroes, Distinct;
    AcceptedIsLegal(pools, s, m);
    ResentGames(pools, s, m, d);
    ResentReadsBack(pools, s, m, d);
    var sent := Resent(d);
    forall g | g in sent.games
      ensures P.GameIsRight(sent, g) && Distinct(P.Heroes(g)) && g.board in pools.boards
      ensures !P.Malformed(g) && !P.Doubled(g) && !P.Negative(g)
    {
      var i :| 0 <= i < |sent.games| && sent.games[i] == g;
      assert m.games[i] in m.games;
      RecordedGameIsRight(sent, m, g, m.games[i]);
      BoardsMatch(g, m.games[i]);
    }
  }

  lemma ResentNumbers(pools: P.Pools, s: P.Submission, m: Match, d: Saved)
    requires P.Accepted(pools, s) && ReadsBack(s, m) && Shows(d, m) && AllSided(d)
    ensures P.NumberedFromOne(Resent(d).games) && Resent(d).games != [] && |Resent(d).drafts| == 2
    ensures forall draft :: draft in Resent(d).drafts ==> Distinct(draft)
  {
    P.AcceptedMeans(pools, s);
    hide P.GameIsRight, P.Resolves, P.Apart, P.BanHeroes, P.ImpossibleSide;
    ResentPieces(pools, s, m, d);
    ResentGames(pools, s, m, d);
    hide P.Accepted, Resent, SameGame, Shows, P.Malformed, P.Doubled, P.Negative, P.NumberedFromOne;
    hide NoneInvented, NoneLost;
    var sent := Resent(d);
    forall i | 0 <= i < |m.games| ensures sent.games[i].number == m.games[i].number {
      BoardsMatch(sent.games[i], m.games[i]);
    }
    NumberedAgain(s, m, sent);
    forall draft | draft in sent.drafts ensures Distinct(draft) {
      var i :| 0 <= i < |sent.drafts| && sent.drafts[i] == draft;
    }
  }

  /** A submission that reads back as the same match names no hero the other does not. */
  lemma NamesAgain(s: P.Submission, sent: P.Submission, m: Match, hero: int)
    requires ReadsBack(s, m) && ReadsBack(sent, m)
    ensures P.PlayedIn(sent, hero) ==> P.PlayedIn(s, hero)
    ensures P.DraftedIn(sent, hero) ==> P.DraftedIn(s, hero)
    ensures P.BannedIn(sent, hero) ==> P.BannedIn(s, hero)
  {
    hide GamesReadBack, Fields, P.PlayedIn;
    PlayedIsFielded(s, m, hero);
    PlayedIsFielded(sent, m, hero);
    if P.DraftedIn(sent, hero) {
      var draft :| draft in sent.drafts && hero in draft;
      var i :| 0 <= i < |sent.drafts| && sent.drafts[i] == draft;
      assert hero in m.participants[i].drafted;
      assert s.drafts[i] in s.drafts && hero in s.drafts[i];
    }
    if b :| b in sent.bans && b.hero == hero {
      assert b in multiset(s.bans);
    }
  }

  lemma ResentBans(pools: P.Pools, s: P.Submission, m: Match, d: Saved)
    requires P.Accepted(pools, s) && ReadsBack(s, m) && ReadsBack(Resent(d), m)
    ensures Distinct(P.BanHeroes(Resent(d).bans))
    ensures forall b :: b in Resent(d).bans ==>
              !P.ImpossibleSide(b) && !P.DraftedIn(Resent(d), b.hero) && !P.PlayedIn(Resent(d), b.hero)
  {
    P.AcceptedMeans(pools, s);
    hide P.Accepted, P.ImpossibleSide, P.DraftedIn, P.PlayedIn, P.BanHeroes, Distinct, Resent, P.GameIsRight;
    hide P.Resolves, P.NumberedFromOne, DraftsReadBack, GamesReadBack;
    BansAgain(s.bans, Resent(d).bans);
    forall b | b in Resent(d).bans
      ensures !P.ImpossibleSide(b) && !P.DraftedIn(Resent(d), b.hero) && !P.PlayedIn(Resent(d), b.hero)
    {
      NamesAgain(s, Resent(d), m, b.hero);
    }
  }

  /**
  A recorded match whose typed bans all have a side, opened for correction and saved unchanged, is
  accepted again, and the match on record is one the submission reads back as.
  */
  lemma SavingUnchangedChangesNothing(pools: P.Pools, s: P.Submission, m: Match, d: Saved)
    requires P.Accepted(pools, s) && ReadsBack(s, m) && Shows(d, m) && AllSided(d)
    ensures P.Accepted(pools, Resent(d)) && ReadsBack(Resent(d), m)
  {
    hide ReadsBack, Shows, Resent, AllSided, P.GameIsRight, Distinct, P.NumberedFromOne, P.BanHeroes, P.Accepted;
    hide P.Heroes, P.ImpossibleSide, P.DraftedIn, P.PlayedIn, P.BannedIn, P.Malformed, P.Doubled, P.Negative;
    var sent := Resent(d);
    ResentReadsBack(pools, s, m, d);
    ResentGamesAreRight(pools, s, m, d);
    ResentNumbers(pools, s, m, d);
    ResentBans(pools, s, m, d);
    P.AcceptedMeans(pools, s);
    P.AcceptedMeans(pools, sent);
    forall hero | P.NamedIn(sent, hero) ensures hero in pools.heroes && hero in pools.pool {
      NamesAgain(s, sent, m, hero);
    }
  }

  // ---------------------------------------------------------------- one record

  /**
  One record under two sets of game ids: the same drafts, the same games place by place, and the
  same bans.  Drafts and bans are compared without their order, which is that of the heroes' names.
  */
  ghost predicate SameRecord(m: Match, n: Match) {
    && |m.participants| == |n.participants| && |m.games| == |n.games| && multiset(m.bans) == multiset(n.bans)
    && (forall i :: 0 <= i < |m.participants| ==>
          m.participants[i].side == n.participants[i].side
          && multiset(m.participants[i].drafted) == multiset(n.participants[i].drafted))
    && forall i :: 0 <= i < |m.games| ==> SameButId(m.games[i], n.games[i])
  }

  ghost predicate SameButId(g: Game, r: Game) {
    g.number == r.number && g.board == r.board && g.participants == r.participants
  }

  lemma SameGameTwice(g: P.GameInput, r: Game, q: Game)
    requires SameGame(g, r) && SameGame(g, q)
    ensures SameButId(r, q)
  {
  }

  lemma SameDraft(a: seq<int>, b: seq<int>)
    requires Distinct(a) && Distinct(b) && forall h :: h in a <==> h in b
    ensures multiset(a) == multiset(b)
  {
    forall h: int ensures multiset(a)[h] == multiset(b)[h] {
      CountsOnce(a, h);
      CountsOnce(b, h);
    }
  }

  lemma CountsOnce(a: seq<int>, h: int)
    requires Distinct(a)
    ensures multiset(a)[h] == if h in a then 1 else 0
  {
    if h in a {
      var p :| 0 <= p < |a| && a[p] == h;
      OnceCountsOne(a, p);
    }
  }

  lemma CameFrom(s: P.Submission, m: Match, i: nat) returns (g: P.GameInput)
    requires NoneInvented(s, m) && i < |m.games|
    ensures g in s.games && SameGame(g, m.games[i]) && g.number == m.games[i].number
  {
    assert m.games[i] in m.games;
    hide SameGame;
    g :| g in s.games && SameGame(g, m.games[i]);
    BoardsMatch(g, m.games[i]);
  }

  lemma WentTo(s: P.Submission, m: Match, g: P.GameInput) returns (i: nat)
    requires NoneLost(s, m) && g in s.games
    ensures i < |m.games| && SameGame(g, m.games[i]) && g.number == m.games[i].number
  {
    hide SameGame;
    var r :| r in m.games && SameGame(g, r);
    i :| 0 <= i < |m.games| && m.games[i] == r;
    BoardsMatch(g, r);
  }

  lemma GamesAreOneRecord(s: P.Submission, m: Match, n: Match, i: nat)
    requires P.NumberedFromOne(s.games) && GamesReadBack(s, m) && GamesReadBack(s, n) && i < |m.games|
    ensures SameButId(m.games[i], n.games[i])
  {
    hide P.NumberedFromOne, SameGame, SameButId, NoneInvented, NoneLost;
    RecordedInPlace(s, m);
    RecordedInPlace(s, n);
    var g := CameFrom(s, m, i);
    var k := WentTo(s, n, g);
    SameGameTwice(g, m.games[i], n.games[k]);
  }

  lemma DraftsAreOneRecord(s: P.Submission, m: Match, n: Match, i: nat)
    requires DraftsReadBack(s, m) && DraftsReadBack(s, n) && i < |m.participants|
    ensures m.participants[i].side == n.participants[i].side
    ensures multiset(m.participants[i].drafted) == multiset(n.participants[i].drafted)
  {
    SameDraft(m.participants[i].drafted, n.participants[i].drafted);
  }

  /** What an accepted submission reads back as is one record, whichever ids its games are given. */
  lemma OneRecord(pools: P.Pools, s: P.Submission, m: Match, n: Match)
    requires P.Accepted(pools, s) && ReadsBack(s, m) && ReadsBack(s, n)
    ensures SameRecord(m, n)
  {
    assert |m.participants| == |n.participants| && |m.games| == |n.games| && multiset(m.bans) == multiset(n.bans);
    assert P.NumberedFromOne(s.games) by { P.AcceptedMeans(pools, s); }
    hide P.Accepted, DraftsReadBack, GamesReadBack, SameButId, P.NumberedFromOne;
    forall i | 0 <= i < |m.games| ensures SameButId(m.games[i], n.games[i]) {
      GamesAreOneRecord(s, m, n, i);
    }
    forall i | 0 <= i < |m.participants|
      ensures m.participants[i].side == n.participants[i].side
      ensures multiset(m.participants[i].drafted) == multiset(n.participants[i].drafted)
    {
      DraftsAreOneRecord(s, m, n, i);
    }
  }

  /** Whatever is stored when the unchanged form is saved is the record it was opened from. */
  lemma StoredAsItWas(pools: P.Pools, s: P.Submission, m: Match, d: Saved, n: Match)
    requires P.Accepted(pools, s) && ReadsBack(s, m) && Shows(d, m) && AllSided(d)
    requires ReadsBack(Resent(d), n)
    ensures P.Accepted(pools, Resent(d)) && SameRecord(m, n)
  {
    hide P.Accepted, ReadsBack, Shows, AllSided, Resent, SameRecord;
    SavingUnchangedChangesNothing(pools, s, m, d);
    OneRecord(pools, Resent(d), m, n);
  }
}
