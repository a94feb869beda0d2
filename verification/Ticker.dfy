/** A match as the ticker shows it: points by game and side, the draft banked against a first game. */
module Ticker {
  import opened Options
  import opened Distinctness
  import opened Sums
  import opened Ordering
  import opened Rounding
  import opened MatchResults
  import opened Scoring

  datatype TickerSide = TickerSide(hero: int, health: int, isWinner: bool, points: int)

  datatype TickerGame = TickerGame(number: int, board: int, sides: seq<TickerSide>)

  type Key = (int, int)

  function Number(): Game -> int { (g: Game) => g.number }

  function LoserLast(): GameParticipant -> int { (p: GameParticipant) => if p.isWinner then 0 else 1 }

  /** The first of these games to field a hero, by id. */
  function FirstIn(games: seq<Game>, hero: int): Option<int> {
    if games == [] then None
    else
      var before, last := FirstIn(games[..|games| - 1], hero), games[|games| - 1];
      if before.None? && Fields(last, hero) then Some(last.id) else before
  }

  /** The game a hero's draft is banked against: its lowest-numbered. */
  function FirstGame(m: Match, hero: int): Option<int> { FirstIn(SortBy(Number(), m.games), hero) }

  /** The last Played context filed under a game and a hero. */
  function PlayedAt(contexts: seq<Context>, key: Key): Option<Context> {
    if contexts == [] then None
    else
      var last := contexts[|contexts| - 1];
      if last.role.Played? && (last.role.game.id, last.hero) == key then Some(last)
      else PlayedAt(contexts[..|contexts| - 1], key)
  }

  /** The last Drafted context of a hero whose first game this is. */
  function BankedAt(m: Match, contexts: seq<Context>, key: Key): Option<Context> {
    if contexts == [] then None
    else
      var last := contexts[|contexts| - 1];
      if last.role.Drafted? && FirstGame(m, last.hero) == Some(key.0) && last.hero == key.1 then Some(last)
      else BankedAt(m, contexts[..|contexts| - 1], key)
  }

  function ScoreOf(c: Option<Context>, rules: Rules): int {
    match c
    case None => 0
    case Some(context) => Score(context, rules)
  }

  /** The pair is scored, and so rounded, one by one, and then rounded again. */
  function RowPoints(m: Match, rules: Rules, key: Key): int {
    Round2(ScoreOf(PlayedAt(HeroContexts(m), key), rules) + ScoreOf(BankedAt(m, HeroContexts(m), key), rules))
  }

  function SideOf(m: Match, rules: Rules, g: Game, p: GameParticipant): TickerSide {
    TickerSide(p.hero, p.health, p.isWinner, RowPoints(m, rules, (g.id, p.hero)))
  }

  function SidesOf(m: Match, rules: Rules, g: Game, participants: seq<GameParticipant>): seq<TickerSide> {
    seq(|participants|, i requires 0 <= i < |participants| => SideOf(m, rules, g, participants[i]))
  }

  function GameRow(m: Match, rules: Rules, g: Game): TickerGame {
    TickerGame(g.number, g.board, SidesOf(m, rules, g, SortBy(LoserLast(), g.participants)))
  }

  function GameRows(m: Match, rules: Rules, games: seq<Game>): seq<TickerGame> {
    if games == [] then [] else GameRows(m, rules, games[..|games| - 1]) + [GameRow(m, rules, games[|games| - 1])]
  }

  // ---------------------------------------------------------------- the maps it is built from

  function Found<K(==), V>(filed: map<K, V>, key: K): Option<V> {
    if key in filed then Some(filed[key]) else None
  }

  method FileFirstGames(m: Match) returns (first: map<int, int>)
    ensures forall hero :: Found(first, hero) == FirstGame(m, hero)
  {
    var byNumber := SortBy(Number(), m.games);
    first := map[];
    for i := 0 to |byNumber|
      invariant forall hero :: Found(first, hero) == FirstIn(byNumber[..i], hero)
    {
      var g := byNumber[i];
      ghost var before := first;
      for j := 0 to |g.participants|
        invariant forall hero :: Found(first, hero) ==
                    if Found(before, hero).None? && (exists p :: p in g.participants[..j] && p.hero == hero)
                    then Some(g.id) else Found(before, hero)
      {
        assert forall p :: p in g.participants[..j + 1] <==> p in g.participants[..j] || p == g.participants[j];
        if g.participants[j].hero !in first {
          first := first[g.participants[j].hero := g.id];
        }
      }
      assert g.participants[..|g.participants|] == g.participants;
      assert byNumber[..i + 1][..i] == byNumber[..i];
    }
    assert byNumber[..|byNumber|] == byNumber;
  }

  method FileContexts(m: Match, contexts: seq<Context>, first: map<int, int>)
    returns (played: map<Key, Context>, banked: map<Key, Context>)
    requires forall hero :: Found(first, hero) == FirstGame(m, hero)
    ensures forall key :: Found(played, key) == PlayedAt(contexts, key)
    ensures forall key :: Found(banked, key) == BankedAt(m, contexts, key)
  {
    hide FirstGame;
    played, banked := map[], map[];
    for i := 0 to |contexts|
      invariant forall key :: Found(played, key) == PlayedAt(contexts[..i], key)
      invariant forall key :: Found(banked, key) == BankedAt(m, contexts[..i], key)
    {
      var c := contexts[i];
      assert contexts[..i + 1][..i] == contexts[..i];
      if c.role.Played? {
        played := played[(c.role.game.id, c.hero) := c];
      }
      if c.role.Drafted? {
        assert Found(first, c.hero) == FirstGame(m, c.hero);
        if c.hero in first {
          banked := banked[(first[c.hero], c.hero) := c];
        }
      }
    }
    assert contexts[..|contexts|] == contexts;
  }

  /** The ticker's rows, out of maps filled in loops. */
  method TickerGames(m: Match, rules: Rules) returns (rows: seq<TickerGame>)
    ensures rows == GameRows(m, rules, m.games)
  {
    hide HeroContexts, Round2, ScoreOf, PlayedAt, BankedAt, FirstGame, SortBy;
    var contexts := ComputeHeroContexts(m);
    var first := FileFirstGames(m);
    var played, banked := FileContexts(m, contexts, first);
    rows := [];
    for i := 0 to |m.games|
      invariant rows == GameRows(m, rules, m.games[..i])
    {
      var g := m.games[i];
      var order := SortBy(LoserLast(), g.participants);
      var sides: seq<TickerSide> := [];
      for j := 0 to |order|
        invariant sides == SidesOf(m, rules, g, order[..j])
      {
        var p := order[j];
        var key := (g.id, p.hero);
        var points := ScoreOf(Found(played, key), rules) + ScoreOf(Found(banked, key), rules);
        assert order[..j + 1][..j] == order[..j];
        sides := sides + [TickerSide(p.hero, p.health, p.isWinner, Round2(points))];
      }
      assert order[..|order|] == order;
      assert m.games[..i + 1][..i] == m.games[..i];
      rows := rows + [TickerGame(g.number, g.board, sides)];
    }
    assert m.games[..|m.games|] == m.games;
  }

  // ---------------------------------------------------------------- which context each row shows

  ghost predicate Playable(m: Match) {
    && (forall i, j :: 0 <= i < j < |m.games| ==> m.games[i].id != m.games[j].id)
    && forall g :: g in m.games ==> NoHeroTwice(g)
  }

  predicate IsFielded(m: Match, hero: int) { exists g :: g in m.games && Fields(g, hero) }

  lemma {:induction false} FirstInFinds(games: seq<Game>, hero: int)
    ensures match FirstIn(games, hero)
            case None => forall g :: g in games ==> !Fields(g, hero)
            case Some(id) => exists k :: 0 <= k < |games| && games[k].id == id && Fields(games[k], hero)
                               && forall j :: 0 <= j < k ==> !Fields(games[j], hero)
  {
    hide Fields;
    if games != [] {
      var n := |games| - 1;
      FirstInFinds(games[..n], hero);
      assert forall g :: g in games <==> g in games[..n] || g == games[n];
      if FirstIn(games[..n], hero).Some? {
        var id := FirstIn(games[..n], hero).value;
        var k :| 0 <= k < n && games[..n][k].id == id && Fields(games[..n][k], hero)
                 && forall j :: 0 <= j < k ==> !Fields(games[..n][j], hero);
        assert forall j :: 0 <= j < k ==> games[..n][j] == games[j];
        assert games[k] == games[..n][k];
      } else if Fields(games[n], hero) {
        assert forall j :: 0 <= j < n ==> games[..n][j] == games[j];
      }
    }
  }

  /** The draft goes to the lowest-numbered game that fields the hero, and to none if none does. */
  lemma FirstGameIsLowest(m: Match, hero: int)
    ensures FirstGame(m, hero).None? <==> !IsFielded(m, hero)
    ensures FirstGame(m, hero).Some? ==>
              exists g :: g in m.games && g.id == FirstGame(m, hero).value && Fields(g, hero)
                && forall other :: other in m.games && Fields(other, hero) ==> g.number <= other.number
  {
    var sorted := SortBy(Number(), m.games);
    SortByIsRight(Number(), m.games);
    SortByMembers(Number(), m.games);
    hide Fields, SortBy;
    FirstInFinds(sorted, hero);
    if FirstGame(m, hero).Some? {
      var k :| 0 <= k < |sorted| && sorted[k].id == FirstGame(m, hero).value && Fields(sorted[k], hero)
               && forall j :: 0 <= j < k ==> !Fields(sorted[j], hero);
      assert sorted[k] in m.games;
      forall other | other in m.games && Fields(other, hero) ensures sorted[k].number <= other.number {
        assert other in sorted;
        var j :| 0 <= j < |sorted| && sorted[j] == other;
        assert k <= j;
        assert k < j ==> Number()(sorted[k]) <= Number()(sorted[j]);
      }
    }
  }

  lemma {:induction false} PlayedAtFinds(contexts: seq<Context>, key: Key)
    ensures match PlayedAt(contexts, key)
            case None => forall c :: c in contexts ==> !(c.role.Played? && (c.role.game.id, c.hero) == key)
            case Some(c) => c in contexts && c.role.Played? && (c.role.game.id, c.hero) == key
  {
    if contexts != [] {
      PlayedAtFinds(contexts[..|contexts| - 1], key);
    }
  }

  lemma {:induction false} BankedAtFinds(m: Match, contexts: seq<Context>, key: Key)
    ensures match BankedAt(m, contexts, key)
            case None =>
              FirstGame(m, key.1) == Some(key.0) ==> forall c :: c in contexts && c.role.Drafted? ==> c.hero != key.1
            case Some(c) => c in contexts && c.role.Drafted? && c.hero == key.1 && FirstGame(m, c.hero) == Some(key.0)
  {
    hide FirstGame;
    if contexts != [] {
      BankedAtFinds(m, contexts[..|contexts| - 1], key);
    }
  }

  lemma OneContextAKey(m: Match, c: Context, d: Context)
    requires Playable(m) && c in PlayedContexts(m) && d in PlayedContexts(m)
    requires c.role.Played? && d.role.Played? && c.role.game.id == d.role.game.id && c.hero == d.hero
    ensures c == d
  {
    PlayedInMembers(m, m.games, c);
    PlayedInMembers(m, m.games, d);
    var g := c.role.game;
    assert d.role.game == g;
    var i :| 0 <= i < |g.participants| && g.participants[i] == c.role.participant;
    var j :| 0 <= j < |g.participants| && g.participants[j] == d.role.participant;
    assert NoHeroTwice(g);
  }

  lemma OnlyPlayedArePlayed(m: Match, c: Context)
    requires c in HeroContexts(m)
    ensures c.role.Played? <==> c in PlayedContexts(m)
    ensures c.role.Drafted? <==> c == Context(m, c.hero, Drafted) && c.hero in DraftedHeroes(m)
  {
    if c in PlayedContexts(m) {
      PlayedInMembers(m, m.games, c);
    } else if c in InRole(m, DraftedHeroes(m), Drafted) {
    } else {
      assert c in InRole(m, BannedHeroes(m), Banned);
    }
  }

  lemma DraftedContextIsThere(m: Match, hero: int)
    requires hero in DraftedHeroes(m)
    ensures Context(m, hero, Drafted) in HeroContexts(m)
  {
    var i :| 0 <= i < |DraftedHeroes(m)| && DraftedHeroes(m)[i] == hero;
    assert InRole(m, DraftedHeroes(m), Drafted)[i] == Context(m, hero, Drafted);
  }

  /** What a hero's draft adds to its row in one game. */
  function Bank(m: Match, rules: Rules, hero: int, id: int): int {
    if hero in DraftedHeroes(m) && FirstGame(m, hero) == Some(id) then Score(Context(m, hero, Drafted), rules) else 0
  }

  lemma PlayedAtIs(m: Match, c: Context)
    requires Playable(m) && c in PlayedContexts(m) && c.role.Played?
    ensures PlayedAt(HeroContexts(m), (c.role.game.id, c.hero)) == Some(c)
  {
    var key := (c.role.game.id, c.hero);
    assert c in HeroContexts(m);
    hide HeroContexts, Playable, PlayedContexts;
    PlayedAtFinds(HeroContexts(m), key);
    var d := PlayedAt(HeroContexts(m), key).value;
    OnlyPlayedArePlayed(m, d);
    OneContextAKey(m, c, d);
  }

  lemma BankedAtIs(m: Match, rules: Rules, hero: int, id: int)
    ensures ScoreOf(BankedAt(m, HeroContexts(m), (id, hero)), rules) == Bank(m, rules, hero, id)
  {
    hide HeroContexts, FirstGame, Score, DraftedHeroes;
    BankedAtFinds(m, HeroContexts(m), (id, hero));
    var banked := BankedAt(m, HeroContexts(m), (id, hero));
    if banked.Some? {
      OnlyPlayedArePlayed(m, banked.value);
    } else if hero in DraftedHeroes(m) {
      DraftedContextIsThere(m, hero);
    }
  }

  lemma ScoresAreHundredths(c: Context, rules: Rules)
    ensures IsHundredths(Score(c, rules))
  {
    RoundingErrs(Total(Breakdown(c, rules)));
  }

  /** A row shows its own context, and the draft if this is where it is banked; rounding twice changes nothing. */
  lemma RowShowsItsContexts(m: Match, rules: Rules, c: Context)
    requires Playable(m) && c in PlayedContexts(m) && c.role.Played?
    ensures RowPoints(m, rules, (c.role.game.id, c.hero)) == Score(c, rules) + Bank(m, rules, c.hero, c.role.game.id)
  {
    hide HeroContexts, Playable, PlayedContexts, FirstGame, Score, DraftedHeroes, Round2;
    PlayedAtIs(m, c);
    BankedAtIs(m, rules, c.hero, c.role.game.id);
    ScoresAreHundredths(c, rules);
    ScoresAreHundredths(Context(m, c.hero, Drafted), rules);
    HundredthsAdd(Score(c, rules), Bank(m, rules, c.hero, c.role.game.id));
  }

  // ---------------------------------------------------------------- the rows as one sum

  function SideBy(keep: int -> bool): TickerSide -> int {
    (s: TickerSide) => if keep(s.hero) then s.points else 0
  }

  function RowBy(keep: int -> bool): TickerGame -> int {
    (row: TickerGame) => Sum(row.sides, SideBy(keep))
  }

  /** The points on the ticker's rows for the heroes to keep. */
  function TickerPoints(rows: seq<TickerGame>, keep: int -> bool): int { Sum(rows, RowBy(keep)) }

  function ShownBy(m: Match, rules: Rules, g: Game, keep: int -> bool): GameParticipant -> int {
    (p: GameParticipant) => if keep(p.hero) then RowPoints(m, rules, (g.id, p.hero)) else 0
  }

  function RowTerm(m: Match, rules: Rules, keep: int -> bool): Context -> int {
    (c: Context) => if c.role.Played? && keep(c.hero) then RowPoints(m, rules, (c.role.game.id, c.hero)) else 0
  }

  lemma {:induction false} SidesSum(m: Match, rules: Rules, g: Game, ps: seq<GameParticipant>, keep: int -> bool)
    ensures Sum(SidesOf(m, rules, g, ps), SideBy(keep)) == Sum(ps, ShownBy(m, rules, g, keep))
  {
    if ps != [] {
      var init := ps[..|ps| - 1];
      assert SidesOf(m, rules, g, ps)[..|ps| - 1] == SidesOf(m, rules, g, init);
      hide RowPoints;
      SidesSum(m, rules, g, init, keep);
    }
  }

  lemma {:induction false} ShownSum(m: Match, rules: Rules, g: Game, ps: seq<GameParticipant>, keep: int -> bool)
    ensures Sum(ps, ShownBy(m, rules, g, keep)) == Sum(PlayedInGame(m, g, ps), RowTerm(m, rules, keep))
  {
    if ps != [] {
      var init := ps[..|ps| - 1];
      assert PlayedInGame(m, g, ps)[..|ps| - 1] == PlayedInGame(m, g, init);
      hide RowPoints;
      ShownSum(m, rules, g, init, keep);
    }
  }

  /** Row by row, whatever order a game lists its sides in, the ticker sums over the played contexts. */
  lemma {:induction false} RowsSum(m: Match, rules: Rules, games: seq<Game>, keep: int -> bool)
    ensures TickerPoints(GameRows(m, rules, games), keep) == Sum(PlayedIn(m, games), RowTerm(m, rules, keep))
  {
    if games != [] {
      var init, g := games[..|games| - 1], games[|games| - 1];
      RowsSum(m, rules, init, keep);
      hide RowPoints, SideBy, ShownBy, RowTerm, SortBy, SidesOf;
      SidesSum(m, rules, g, SortBy(LoserLast(), g.participants), keep);
      SortBySum(LoserLast(), g.participants, ShownBy(m, rules, g, keep));
      ShownSum(m, rules, g, g.participants, keep);
      SumConcat(PlayedIn(m, init), PlayedInGame(m, g, g.participants), RowTerm(m, rules, keep));
      var rows := GameRows(m, rules, init);
      assert (rows + [GameRow(m, rules, g)])[..|rows|] == rows;
    }
  }

  // ---------------------------------------------------------------- each draft banked once

  ghost predicate KeysDiffer(contexts: seq<Context>) {
    && (forall c :: c in contexts ==> c.role.Played?)
    && forall i, j :: 0 <= i < j < |contexts| ==>
         contexts[i].role.game.id != contexts[j].role.game.id || contexts[i].hero != contexts[j].hero
  }

  lemma {:induction false} PlayedKeysDiffer(m: Match, games: seq<Game>)
    requires forall i, j :: 0 <= i < j < |games| ==> games[i].id != games[j].id
    requires forall g :: g in games ==> NoHeroTwice(g)
    ensures KeysDiffer(PlayedIn(m, games))
  {
    if games != [] {
      var init, g := games[..|games| - 1], games[|games| - 1];
      PlayedKeysDiffer(m, init);
      assert NoHeroTwice(g);
      var a, b := PlayedIn(m, init), PlayedInGame(m, g, g.participants);
      forall c | c in a ensures c.role.Played? && c.role.game.id != g.id {
        PlayedInMembers(m, init, c);
        var k :| 0 <= k < |init| && init[k] == c.role.game;
        assert games[k].id != games[|games| - 1].id;
      }
    }
  }

  function BankedBy(m: Match, hero: int, worth: int): Context -> int {
    (c: Context) =>
      if c.role.Played? && c.hero == hero && FirstGame(m, hero) == Some(c.role.game.id) then worth else 0
  }

  /** Over the played contexts, a hero's draft is banked exactly once if it was fielded, else never. */
  lemma BankedOnce(m: Match, hero: int, worth: int)
    requires Playable(m)
    ensures Sum(PlayedContexts(m), BankedBy(m, hero, worth)) == (if IsFielded(m, hero) then worth else 0)
  {
    var cs, f := PlayedContexts(m), BankedBy(m, hero, worth);
    FirstGameIsLowest(m, hero);
    PlayedKeysDiffer(m, m.games);
    if IsFielded(m, hero) {
      var g :| g in m.games && g.id == FirstGame(m, hero).value && Fields(g, hero);
      var p :| p in g.participants && p.hero == hero;
      var c := Context(m, hero, Played(g, p));
      PlayedInMembers(m, m.games, c);
      var k :| 0 <= k < |cs| && cs[k] == c;
      hide FirstGame, PlayedContexts, Playable, IsFielded, Fields;
      forall i | 0 <= i < |cs| && i != k ensures f(cs[i]) == 0 {
        assert cs[i] in cs;
        assert if i < k then cs[i].role.game.id != cs[k].role.game.id || cs[i].hero != cs[k].hero
               else cs[k].role.game.id != cs[i].role.game.id || cs[k].hero != cs[i].hero;
      }
      SumSpike(cs, f, k);
    } else {
      SumZero(cs, f);
    }
  }

  // ---------------------------------------------------------------- the reconciliation

  /** The score of every context of a fielded hero to keep. */
  function OnTicker(m: Match, rules: Rules, keep: int -> bool): Context -> int {
    (c: Context) => if keep(c.hero) && IsFielded(m, c.hero) then Score(c, rules) else 0
  }

  /** What one drafted hero's bank adds to one played context's row. */
  function BankCell(m: Match, rules: Rules, keep: int -> bool): (Context, int) -> int {
    (c: Context, hero: int) =>
      if keep(hero) then BankedBy(m, hero, Score(Context(m, hero, Drafted), rules))(c) else 0
  }

  lemma PlayedIsFielded(m: Match, c: Context)
    requires c in PlayedContexts(m)
    ensures c.role.Played? && IsFielded(m, c.hero)
  {
    PlayedInMembers(m, m.games, c);
    assert Fields(c.role.game, c.hero);
  }

  lemma CellsAddUp(m: Match, rules: Rules, keep: int -> bool, c: Context)
    requires c.role.Played?
    ensures Rows(DraftedHeroes(m), BankCell(m, rules, keep))(c)
            == if keep(c.hero) then Bank(m, rules, c.hero, c.role.game.id) else 0
  {
    DraftedInIsDistinct(m.participants);
    WithoutIsDistinct(DraftedIn(m.participants), BannedHeroes(m));
    hide Distinct, FirstGame, Score, BannedHeroes, DraftedIn, Without;
    var cell := BankCell(m, rules, keep);
    var f := First(cell, c);
    forall h | h in DraftedHeroes(m) && h != c.hero ensures f(h) == 0 {
      CellIs(m, rules, keep, c, h);
    }
    CellIs(m, rules, keep, c, c.hero);
    hide DraftedHeroes, BankCell;
    SumAtMostOnce(DraftedHeroes(m), f, c.hero);
    assert Rows(DraftedHeroes(m), cell)(c) == Sum(DraftedHeroes(m), f);
  }

  lemma CellIs(m: Match, rules: Rules, keep: int -> bool, c: Context, hero: int)
    requires c.role.Played?
    ensures First(BankCell(m, rules, keep), c)(hero)
            == if keep(hero) && hero == c.hero && FirstGame(m, hero) == Some(c.role.game.id)
               then Score(Context(m, hero, Drafted), rules) else 0
  {
    var worth := Score(Context(m, hero, Drafted), rules);
    assert BankedBy(m, hero, worth)(c)
           == if c.hero == hero && FirstGame(m, hero) == Some(c.role.game.id) then worth else 0;
    assert BankCell(m, rules, keep)(c, hero) == if keep(hero) then BankedBy(m, hero, worth)(c) else 0;
  }

  /** A row's points: its own context, and every drafted hero's bank that falls on it. */
  lemma RowTermSplits(m: Match, rules: Rules, keep: int -> bool, c: Context)
    requires Playable(m) && c in PlayedContexts(m)
    ensures RowTerm(m, rules, keep)(c)
            == OnTicker(m, rules, keep)(c) + Rows(DraftedHeroes(m), BankCell(m, rules, keep))(c)
  {
    PlayedIsFielded(m, c);
    RowShowsItsContexts(m, rules, c);
    hide Playable, PlayedContexts, FirstGame, Score, RowPoints, DraftedHeroes, IsFielded, Bank, BankCell, Rows;
    CellsAddUp(m, rules, keep, c);
  }

  /** One drafted hero's bank, over every row. */
  lemma DraftTotal(m: Match, rules: Rules, keep: int -> bool, hero: int)
    requires Playable(m)
    ensures Cols(PlayedContexts(m), BankCell(m, rules, keep))(hero)
            == OnTicker(m, rules, keep)(Context(m, hero, Drafted))
  {
    var worth := Score(Context(m, hero, Drafted), rules);
    var f := Second(BankCell(m, rules, keep), hero);
    hide Playable, PlayedContexts, FirstGame, Score, IsFielded;
    if keep(hero) {
      BankedOnce(m, hero, worth);
      SumSame(PlayedContexts(m), f, BankedBy(m, hero, worth));
    } else {
      SumZero(PlayedContexts(m), f);
    }
  }

  lemma {:induction false} DraftsTotal(m: Match, rules: Rules, keep: int -> bool, heroes: seq<int>)
    requires Playable(m)
    ensures Sum(heroes, Cols(PlayedContexts(m), BankCell(m, rules, keep)))
            == Sum(InRole(m, heroes, Drafted), OnTicker(m, rules, keep))
  {
    hide Playable, PlayedContexts, BankCell, OnTicker, Cols;
    if heroes != [] {
      var init := heroes[..|heroes| - 1];
      assert InRole(m, heroes, Drafted)[..|heroes| - 1] == InRole(m, init, Drafted);
      DraftsTotal(m, rules, keep, init);
      DraftTotal(m, rules, keep, heroes[|heroes| - 1]);
    }
  }

  lemma BannedAreNotFielded(m: Match, rules: Rules, keep: int -> bool)
    ensures Sum(InRole(m, BannedHeroes(m), Banned), OnTicker(m, rules, keep)) == 0
  {
    hide Score;
    StruckMembers(m.bans, ContextHeroes(PlayedContexts(m)));
    forall c | c in InRole(m, BannedHeroes(m), Banned) ensures OnTicker(m, rules, keep)(c) == 0 {
      assert c.hero in BannedHeroes(m);
      PlayedHeroesAreFielded(m, c.hero);
    }
    SumZero(InRole(m, BannedHeroes(m), Banned), OnTicker(m, rules, keep));
  }

  /**
  The ticker reconciles with the board: over any choice of heroes, its rows add up to the scores of
  every context of the fielded ones, the draft included once.
  */
  lemma TickerReconciles(m: Match, rules: Rules, keep: int -> bool)
    requires Playable(m)
    ensures TickerPoints(GameRows(m, rules, m.games), keep) == Sum(HeroContexts(m), OnTicker(m, rules, keep))
  {
    var cs, drafted, cell := PlayedContexts(m), DraftedHeroes(m), BankCell(m, rules, keep);
    RowsSum(m, rules, m.games, keep);
    forall c | c in cs
      ensures RowTerm(m, rules, keep)(c) == OnTicker(m, rules, keep)(c) + Rows(drafted, cell)(c)
    {
      RowTermSplits(m, rules, keep, c);
    }
    hide RowTerm, OnTicker, BankCell, Rows, Cols, Playable;
    SumSplit(cs, RowTerm(m, rules, keep), OnTicker(m, rules, keep), Rows(drafted, cell));
    SumSwap(cs, drafted, cell);
    DraftsTotal(m, rules, keep, drafted);
    PartsSum(m, OnTicker(m, rules, keep));
    BannedAreNotFielded(m, rules, keep);
  }

  function ScoreIf(rules: Rules, keep: int -> bool): Context -> int {
    (c: Context) => if keep(c.hero) then Score(c, rules) else 0
  }

  /** A fielded hero's rows add up to the score of all its contexts. */
  lemma FieldedHeroReconciles(m: Match, rules: Rules, hero: int)
    requires Playable(m) && IsFielded(m, hero)
    ensures TickerPoints(GameRows(m, rules, m.games), h => h == hero)
            == Sum(HeroContexts(m), ScoreIf(rules, h => h == hero))
  {
    var keep := h => h == hero;
    TickerReconciles(m, rules, keep);
    SumSame(HeroContexts(m), OnTicker(m, rules, keep), ScoreIf(rules, keep));
  }

  /** The match's total: every row, and the heroes that were struck or drafted and never played. */
  lemma MatchTotalReconciles(m: Match, rules: Rules)
    requires Playable(m)
    ensures Sum(HeroContexts(m), ScoreIf(rules, h => true))
            == TickerPoints(GameRows(m, rules, m.games), h => true)
               + Sum(HeroContexts(m), ScoreIf(rules, h => !IsFielded(m, h)))
    ensures forall c :: c in HeroContexts(m) && !IsFielded(m, c.hero) ==> c.role.Banned? || c.role.Drafted?
  {
    var all, benched := h => true, h => !IsFielded(m, h);
    TickerReconciles(m, rules, all);
    SumSplit(HeroContexts(m), ScoreIf(rules, all), OnTicker(m, rules, all), ScoreIf(rules, benched));
    forall c | c in HeroContexts(m) && !IsFielded(m, c.hero) ensures c.role.Banned? || c.role.Drafted? {
      OnlyPlayedArePlayed(m, c);
      if c in PlayedContexts(m) {
        PlayedIsFielded(m, c);
      }
    }
  }

  // ---------------------------------------------------------------- what a row looks like

  lemma {:induction false} RowsAreTheGames(m: Match, rules: Rules, games: seq<Game>)
    ensures |GameRows(m, rules, games)| == |games|
    ensures forall i :: 0 <= i < |games| ==> GameRows(m, rules, games)[i] == GameRow(m, rules, games[i])
  {
    hide GameRow;
    if games != [] {
      RowsAreTheGames(m, rules, games[..|games| - 1]);
    }
  }

  /** A side as shown against the participant it shows. */
  predicate ShowsParticipant(side: TickerSide, p: GameParticipant) {
    side.hero == p.hero && side.health == p.health && side.isWinner == p.isWinner
  }

  /** The rows are the games in order, and of a decided game the winner is shown first, the other second. */
  lemma WinnersAreShownFirst(m: Match, rules: Rules, i: nat, w: nat)
    requires i < |m.games| && |m.games[i].participants| == 2 && w < 2
    requires m.games[i].participants[w].isWinner && !m.games[i].participants[1 - w].isWinner
    ensures |GameRows(m, rules, m.games)| == |m.games|
    ensures var g, row := m.games[i], GameRows(m, rules, m.games)[i];
      && row.number == g.number && row.board == g.board && |row.sides| == 2
      && ShowsParticipant(row.sides[0], g.participants[w])
      && ShowsParticipant(row.sides[1], g.participants[1 - w])
  {
    var g := m.games[i];
    hide RowPoints, SortBy;
    RowsAreTheGames(m, rules, m.games);
    WinnerSortsFirst(g.participants, w);
  }

  lemma WinnerSortsFirst(ps: seq<GameParticipant>, w: nat)
    requires |ps| == 2 && w < 2 && ps[w].isWinner && !ps[1 - w].isWinner
    ensures SortBy(LoserLast(), ps) == [ps[w], ps[1 - w]]
  {
    assert ps == [ps[0], ps[1]];
    SortByFinds(LoserLast(), ps, [ps[w], ps[1 - w]]);
  }
}
