/** What a match submission must satisfy before anything is written. */
module MatchPolicy {
  import opened Distinctness
  import opened Ordering
  import opened StatNames
  import opened MatchResults

  datatype Stat = Stat(name: string, value: int)

  datatype PlayInput = PlayInput(hero: int, health: int, isWinner: bool, stats: seq<Stat>)

  datatype GameInput = GameInput(number: int, board: int, participants: seq<PlayInput>)

  /** A side is its position in `drafts`, and in each game's participants. */
  datatype Submission = Submission(drafts: seq<seq<int>>, games: seq<GameInput>, bans: seq<Ban>)

  /** The tournament's boards, the heroes that exist, and the heroes in its pool. */
  datatype Pools = Pools(boards: set<int>, heroes: set<int>, pool: set<int>)

  datatype MatchRule =
    | MapNotInPool
    | HeroNotInPool
    | InvalidGameCount
    | GameNumbersNotSequential
    | InvalidParticipantCount
    | InvalidGameParticipantCount
    | DuplicateHero
    | DuplicateBan
    | BanSideInvalid
    | DuplicatePick
    | BannedHeroPlayed
    | BannedHeroDrafted
    | PlayedHeroNotDrafted
    | NotExactlyOneWinner
    | LoserHasPositiveHealth
    | UnknownHero
    | StatNameMalformed
    | DuplicateStat
    | StatValueNegative

  const EXPECTED_PARTICIPANT_COUNT: nat := 2

  // ---------------------------------------------------------------- the rules, stated

  function Numbers(games: seq<GameInput>): seq<int> {
    seq(|games|, i requires 0 <= i < |games| => games[i].number)
  }

  /** Each of 1..N is exactly one game's number. */
  ghost predicate NumberedFromOne(games: seq<GameInput>) {
    forall k :: 1 <= k <= |games| ==> multiset(Numbers(games))[k] == 1
  }

  function Heroes(game: GameInput): seq<int> {
    seq(|game.participants|, i requires 0 <= i < |game.participants| => game.participants[i].hero)
  }

  function BanHeroes(bans: seq<Ban>): seq<int> {
    seq(|bans|, i requires 0 <= i < |bans| => bans[i].hero)
  }

  ghost predicate OneWinner(game: GameInput) {
    exists i :: 0 <= i < |game.participants| && SoleWinner(game.participants, i)
  }

  ghost predicate SoleWinner(participants: seq<PlayInput>, i: nat)
    requires i < |participants|
  {
    forall j :: 0 <= j < |participants| ==> (participants[j].isWinner <==> j == i)
  }

  predicate LoserSurvives(game: GameInput) {
    exists p :: p in game.participants && !p.isWinner && p.health > 0
  }

  predicate ImpossibleSide(ban: Ban) {
    ban.side.Some? && (!(0 <= ban.side.value <= 1) || ban.banType.PreBan?)
  }

  predicate FieldsUndrafted(game: GameInput, drafts: seq<seq<int>>) {
    exists i :: 0 <= i < |game.participants| && i < |drafts| && game.participants[i].hero !in drafts[i]
  }

  predicate PlayedIn(s: Submission, hero: int) { exists g :: g in s.games && hero in Heroes(g) }

  predicate DraftedIn(s: Submission, hero: int) { exists d :: d in s.drafts && hero in d }

  predicate BannedIn(s: Submission, hero: int) { exists b :: b in s.bans && b.hero == hero }

  predicate NamedIn(s: Submission, hero: int) { PlayedIn(s, hero) || DraftedIn(s, hero) || BannedIn(s, hero) }

  predicate HasMalformed(stats: seq<Stat>) {
    exists t :: t in stats && !IsWellFormed(Normalise(t.name))
  }

  ghost predicate HasRepeat(stats: seq<Stat>) {
    exists i, j :: 0 <= i < j < |stats| && Normalise(stats[i].name) == Normalise(stats[j].name)
  }

  predicate HasNegative(stats: seq<Stat>) {
    exists t :: t in stats && t.value < 0
  }

  ghost predicate Malformed(g: GameInput) { exists p :: p in g.participants && HasMalformed(p.stats) }

  ghost predicate Doubled(g: GameInput) { exists p :: p in g.participants && HasRepeat(p.stats) }

  ghost predicate Negative(g: GameInput) { exists p :: p in g.participants && HasNegative(p.stats) }

  ghost predicate Breaks(rule: MatchRule, pools: Pools, s: Submission, sides: nat) {
    match rule
    case InvalidParticipantCount => |s.drafts| != sides
    case InvalidGameCount => s.games == []
    case GameNumbersNotSequential => s.games != [] && !NumberedFromOne(s.games)
    case MapNotInPool => exists g :: g in s.games && g.board !in pools.boards
    case InvalidGameParticipantCount => exists g :: g in s.games && |g.participants| != sides
    case DuplicateHero => exists g :: g in s.games && !Distinct(Heroes(g))
    case DuplicateBan => !Distinct(BanHeroes(s.bans))
    case BanSideInvalid => exists b :: b in s.bans && ImpossibleSide(b)
    case DuplicatePick => exists d :: d in s.drafts && !Distinct(d)
    case BannedHeroDrafted => exists b :: b in s.bans && DraftedIn(s, b.hero)
    case PlayedHeroNotDrafted => exists g :: g in s.games && FieldsUndrafted(g, s.drafts)
    case BannedHeroPlayed => exists b :: b in s.bans && PlayedIn(s, b.hero)
    case NotExactlyOneWinner => exists g :: g in s.games && !OneWinner(g)
    case LoserHasPositiveHealth => exists g :: g in s.games && LoserSurvives(g)
    case UnknownHero => exists h :: NamedIn(s, h) && h !in pools.heroes
    case HeroNotInPool => exists h :: NamedIn(s, h) && h in pools.heroes && h !in pools.pool
    case StatNameMalformed => exists g :: g in s.games && Malformed(g)
    case DuplicateStat => exists g :: g in s.games && Doubled(g)
    case StatValueNegative => exists g :: g in s.games && Negative(g)
  }

  ghost predicate Accepted(pools: Pools, s: Submission) {
    forall rule :: !Breaks(rule, pools, s, EXPECTED_PARTICIPANT_COUNT)
  }

  // ---------------------------------------------------------------- counting

  /** How often each value comes, and the ones that come more than once. */
  method Repeated(values: seq<int>) returns (repeated: set<int>)
    ensures forall v :: v in repeated <==> multiset(values)[v] > 1
  {
    var counts: map<int, nat> := map[];
    for i := 0 to |values|
      invariant forall v :: multiset(values[..i])[v] == (if v in counts then counts[v] else 0)
    {
      var value := values[i];
      assert values[..i + 1] == values[..i] + [value];
      counts := counts[value := (if value in counts then counts[value] else 0) + 1];
    }
    assert values[..|values|] == values;
    repeated := set v | v in counts && counts[v] > 1;
  }

  lemma RepeatedIsNotDistinct(values: seq<int>)
    ensures Distinct(values) <==> forall v :: multiset(values)[v] <= 1
  {
    forall v | multiset(values)[v] > 1 ensures !Distinct(values) {
      var p :| 0 <= p < |values| && values[p] == v;
      if Distinct(values) {
        OnceCountsOne(values, p);
      }
    }
    if !Distinct(values) {
      var i, j :| 0 <= i < j < |values| && values[i] == values[j];
      TwiceCountsTwo(values, i, j);
    }
  }

  lemma NoMembers(s: set<int>)
    requires forall x :: x !in s
    ensures s == {}
  {
    assert forall x :: x in s <==> x in s - s;
  }

  lemma RepeatedFinds(values: seq<int>, repeated: set<int>)
    requires forall v :: v in repeated <==> multiset(values)[v] > 1
    ensures repeated != {} <==> !Distinct(values)
  {
    RepeatedIsNotDistinct(values);
    if !Distinct(values) {
      var v :| multiset(values)[v] > 1;
      assert v in repeated;
    } else {
      NoMembers(repeated);
    }
  }

  function HeroSet(game: GameInput): set<int> { Members(Heroes(game)) }

  function Winners(participants: seq<PlayInput>): nat {
    if participants == [] then 0
    else Winners(participants[..|participants| - 1]) + (if participants[|participants| - 1].isWinner then 1 else 0)
  }

  lemma {:induction false} NoWinners(participants: seq<PlayInput>)
    ensures Winners(participants) == 0 <==> forall j :: 0 <= j < |participants| ==> !participants[j].isWinner
  {
    if participants != [] {
      var n := |participants| - 1;
      NoWinners(participants[..n]);
      assert forall j :: 0 <= j < n ==> participants[..n][j] == participants[j];
    }
  }

  lemma {:induction false} SoleWinnerCounts(participants: seq<PlayInput>, i: nat)
    requires i < |participants| && SoleWinner(participants, i)
    ensures Winners(participants) == 1
  {
    var n := |participants| - 1;
    if i == n {
      NoWinners(participants[..n]);
    } else {
      SoleWinnerCounts(participants[..n], i);
    }
  }

  lemma {:induction false} OneCountedIsSole(participants: seq<PlayInput>) returns (i: nat)
    requires Winners(participants) == 1
    ensures i < |participants| && SoleWinner(participants, i)
  {
    var n := |participants| - 1;
    if participants[n].isWinner {
      NoWinners(participants[..n]);
      i := n;
      assert forall j :: 0 <= j < n ==> participants[..n][j] == participants[j];
    } else {
      i := OneCountedIsSole(participants[..n]);
      assert forall j :: 0 <= j < n ==> participants[..n][j] == participants[j];
    }
  }

  lemma WinnersCount(game: GameInput)
    ensures Winners(game.participants) == 1 <==> OneWinner(game)
  {
    if Winners(game.participants) == 1 {
      var i := OneCountedIsSole(game.participants);
    } else if i :| 0 <= i < |game.participants| && SoleWinner(game.participants, i) {
      SoleWinnerCounts(game.participants, i);
    }
  }

  /** The ascending numbers of the games that match. */
  function GameNumbers(games: seq<GameInput>, matches: GameInput -> bool): seq<int> {
    SortBy(n => n, Numbers(Matching(games, matches)))
  }

  function Matching(games: seq<GameInput>, matches: GameInput -> bool): (r: seq<GameInput>)
    ensures forall g :: g in r <==> g in games && matches(g)
  {
    if games == [] then []
    else
      var before, last := Matching(games[..|games| - 1], matches), games[|games| - 1];
      if matches(last) then before + [last] else before
  }

  lemma GameNumbersFind(games: seq<GameInput>, matches: GameInput -> bool)
    ensures GameNumbers(games, matches) != [] <==> exists g :: g in games && matches(g)
  {
    var found := Matching(games, matches);
    SortByIsRight(n => n, Numbers(found));
    if found != [] {
      assert found[0] in found;
    }
  }

  function OneTo(n: nat): seq<int> { seq(n, i => i + 1) }

  lemma {:induction false} OneToCounts(n: nat, k: int)
    ensures multiset(OneTo(n))[k] == (if 1 <= k <= n then 1 else 0)
  {
    if 1 <= k <= n {
      assert OneTo(n)[k - 1] == k;
      OnceCountsOne(OneTo(n), k - 1);
    } else {
      assert k !in OneTo(n);
    }
  }

  /** Sorting the numbers gives 1..N exactly when each of 1..N is used once. */
  lemma SortedNumbers(games: seq<GameInput>)
    ensures SortBy(n => n, Numbers(games)) == OneTo(|games|) <==> NumberedFromOne(games)
  {
    var numbers, all := Numbers(games), OneTo(|games|);
    forall k ensures multiset(all)[k] == (if 1 <= k <= |games| then 1 else 0) {
      OneToCounts(|games|, k);
    }
    SortByIsRight(n => n, numbers);
    if NumberedFromOne(games) {
      assert multiset(all) <= multiset(numbers);
      assert |multiset(numbers) - multiset(all)| == 0;
      assert multiset(numbers) == multiset(all);
      SortByFinds(n => n, numbers, all);
    }
  }

  // ---------------------------------------------------------------- stats

  /** What the stats of a single play add to the three lists. */
  method CheckStats(stats: seq<Stat>, number: int, malformed: seq<string>, duplicated: seq<int>, negative: seq<int>)
    returns (malformedAfter: seq<string>, duplicatedAfter: seq<int>, negativeAfter: seq<int>)
    ensures malformedAfter != [] <==> malformed != [] || HasMalformed(stats)
    ensures duplicatedAfter != [] <==> duplicated != [] || HasRepeat(stats)
    ensures negativeAfter != [] <==> negative != [] || HasNegative(stats)
  {
    malformedAfter, duplicatedAfter, negativeAfter := malformed, duplicated, negative;
    var seen: seq<string> := [];
    for k := 0 to |stats|
      invariant NamesOf(seen, stats[..k])
      invariant malformedAfter != [] <==> malformed != [] || HasMalformed(stats[..k])
      invariant duplicatedAfter != [] <==> duplicated != [] || HasRepeat(stats[..k])
      invariant negativeAfter != [] <==> negative != [] || HasNegative(stats[..k])
    {
      OneMoreStat(seen, stats, k);
      hide NamesOf, Normalise, IsWellFormed, HasMalformed, HasRepeat, HasNegative;
      var name := Normalise(stats[k].name);
      if !IsWellFormed(name) && name !in malformedAfter {
        malformedAfter := malformedAfter + [name];
      }
      if name in seen && number !in duplicatedAfter {
        duplicatedAfter := duplicatedAfter + [number];
      }
      seen := seen + [name];
      if stats[k].value < 0 && number !in negativeAfter {
        negativeAfter := negativeAfter + [number];
      }
    }
    assert stats[..|stats|] == stats;
  }

  ghost predicate NamesOf(seen: seq<string>, stats: seq<Stat>) {
    |seen| == |stats| && forall i :: 0 <= i < |seen| ==> seen[i] == Normalise(stats[i].name)
  }

  lemma OneMoreStat(seen: seq<string>, stats: seq<Stat>, k: nat)
    requires k < |stats| && NamesOf(seen, stats[..k])
    ensures NamesOf(seen + [Normalise(stats[k].name)], stats[..k + 1])
    ensures HasMalformed(stats[..k + 1]) <==> HasMalformed(stats[..k]) || !IsWellFormed(Normalise(stats[k].name))
    ensures HasRepeat(stats[..k + 1]) <==> HasRepeat(stats[..k]) || Normalise(stats[k].name) in seen
    ensures HasNegative(stats[..k + 1]) <==> HasNegative(stats[..k]) || stats[k].value < 0
  {
    hide Normalise, IsWellFormed;
    assert stats[..k + 1] == stats[..k] + [stats[k]];
    assert forall i :: 0 <= i < k ==> stats[..k + 1][i] == stats[..k][i];
    if i :| 0 <= i < k && seen[i] == Normalise(stats[k].name) {
      assert stats[..k + 1][i] == stats[i] && stats[..k + 1][k] == stats[k];
    }
  }

  method CheckGame(g: GameInput, malformed: seq<string>, duplicated: seq<int>, negative: seq<int>)
    returns (malformedAfter: seq<string>, duplicatedAfter: seq<int>, negativeAfter: seq<int>)
    ensures malformedAfter != [] <==> malformed != [] || Malformed(g)
    ensures duplicatedAfter != [] <==> duplicated != [] || Doubled(g)
    ensures negativeAfter != [] <==> negative != [] || Negative(g)
  {
    hide HasMalformed, HasRepeat, HasNegative;
    malformedAfter, duplicatedAfter, negativeAfter := malformed, duplicated, negative;
    for k := 0 to |g.participants|
      invariant malformedAfter != []
                <==> malformed != [] || exists p :: p in g.participants[..k] && HasMalformed(p.stats)
      invariant duplicatedAfter != []
                <==> duplicated != [] || exists p :: p in g.participants[..k] && HasRepeat(p.stats)
      invariant negativeAfter != []
                <==> negative != [] || exists p :: p in g.participants[..k] && HasNegative(p.stats)
    {
      assert forall p :: p in g.participants[..k + 1] <==> p in g.participants[..k] || p == g.participants[k];
      malformedAfter, duplicatedAfter, negativeAfter :=
        CheckStats(g.participants[k].stats, g.number, malformedAfter, duplicatedAfter, negativeAfter);
    }
    assert g.participants[..|g.participants|] == g.participants;
  }

  /** Where each rule comes in a report. */
  function Place(rule: MatchRule): nat {
    match rule
    case InvalidParticipantCount => 0
    case InvalidGameCount => 1
    case GameNumbersNotSequential => 2
    case MapNotInPool => 3
    case InvalidGameParticipantCount => 4
    case DuplicateHero => 5
    case DuplicateBan => 6
    case BanSideInvalid => 7
    case DuplicatePick => 8
    case BannedHeroDrafted => 9
    case PlayedHeroNotDrafted => 10
    case BannedHeroPlayed => 11
    case NotExactlyOneWinner => 12
    case LoserHasPositiveHealth => 13
    case UnknownHero => 14
    case HeroNotInPool => 15
    case StatNameMalformed => 16
    case DuplicateStat => 17
    case StatValueNegative => 18
  }

  predicate Reports(violations: seq<MatchRule>, rule: MatchRule) { rule in violations }

  const STAT_RULES: nat := 16
  const RULES: nat := 19

  /** In the order of the report, each rule once, and nothing from `end` on. */
  ghost predicate InOrder(violations: seq<MatchRule>, end: nat) {
    && (forall i, j :: 0 <= i < j < |violations| ==> Place(violations[i]) < Place(violations[j]))
    && (forall i :: 0 <= i < |violations| ==> Place(violations[i]) < end)
  }

  /** Pushes a rule when it is broken. */
  function Reported(violations: seq<MatchRule>, broken: bool, rule: MatchRule): (r: seq<MatchRule>)
    requires InOrder(violations, Place(rule))
    ensures forall other :: Reports(r, other) <==> Reports(violations, other) || (broken && other == rule)
    ensures InOrder(r, Place(rule) + 1)
  {
    if broken then violations + [rule] else violations
  }

  predicate AboutStats(rule: MatchRule) {
    rule.StatNameMalformed? || rule.DuplicateStat? || rule.StatValueNegative?
  }

  function Joined(violations: seq<MatchRule>, more: seq<MatchRule>): (r: seq<MatchRule>)
    requires InOrder(violations, STAT_RULES) && InOrder(more, RULES)
    requires forall rule :: Reports(more, rule) ==> AboutStats(rule)
    ensures forall rule :: Reports(r, rule) <==> Reports(violations, rule) || Reports(more, rule)
    ensures InOrder(r, RULES)
  {
    assert forall j :: 0 <= j < |more| ==> Reports(more, more[j]);
    assert forall j :: 0 <= j < |more| ==> AboutStats(more[j]);
    violations + more
  }

  function StatRules(malformed: bool, duplicated: bool, negative: bool): (r: seq<MatchRule>)
    ensures InOrder(r, RULES)
    ensures forall rule :: Reports(r, rule) <==>
              (malformed && rule.StatNameMalformed?) || (duplicated && rule.DuplicateStat?)
              || (negative && rule.StatValueNegative?)
  {
    var names := Reported(Reported([], malformed, StatNameMalformed), duplicated, DuplicateStat);
    Reported(names, negative, StatValueNegative)
  }

  /** The three rules about stats, broken play by play. */
  method StatViolations(games: seq<GameInput>) returns (violations: seq<MatchRule>)
    ensures InOrder(violations, RULES)
    ensures forall rule :: Reports(violations, rule) <==>
              match rule
              case StatNameMalformed => exists g :: g in games && Malformed(g)
              case DuplicateStat => exists g :: g in games && Doubled(g)
              case StatValueNegative => exists g :: g in games && Negative(g)
              case _ => false
  {
    hide Malformed, Doubled, Negative, InOrder, Reports, StatRules;
    var malformed: seq<string>, duplicated: seq<int>, negative: seq<int> := [], [], [];
    for i := 0 to |games|
      invariant malformed != [] <==> exists g :: g in games[..i] && Malformed(g)
      invariant duplicated != [] <==> exists g :: g in games[..i] && Doubled(g)
      invariant negative != [] <==> exists g :: g in games[..i] && Negative(g)
    {
      assert forall g :: g in games[..i + 1] <==> g in games[..i] || g == games[i];
      malformed, duplicated, negative := CheckGame(games[i], malformed, duplicated, negative);
    }
    assert games[..|games|] == games;
    violations := StatRules(malformed != [], duplicated != [], negative != []);
  }

  // ---------------------------------------------------------------- the validator

  method DuplicatePicks(drafts: seq<seq<int>>) returns (duplicates: set<int>)
    ensures duplicates != {} <==> exists d :: d in drafts && !Distinct(d)
  {
    duplicates := {};
    for i := 0 to |drafts|
      invariant duplicates != {} <==> exists d :: d in drafts[..i] && !Distinct(d)
    {
      assert forall d :: d in drafts[..i + 1] <==> d in drafts[..i] || d == drafts[i];
      var here := Repeated(drafts[i]);
      RepeatedFinds(drafts[i], here);
      ghost var before := duplicates;
      duplicates := duplicates + here;
      assert duplicates != {} <==> before != {} || here != {};
      assert here != {} <==> !Distinct(drafts[i]);
      hide Distinct;
    }
    assert drafts[..|drafts|] == drafts;
  }

  function DraftedSet(s: Submission): (r: set<int>)
    ensures forall h :: h in r <==> DraftedIn(s, h)
  {
    set d, h | d in s.drafts && h in d :: h
  }

  function PlayedSet(s: Submission): (r: set<int>)
    ensures forall h :: h in r <==> PlayedIn(s, h)
  {
    set g, h | g in s.games && h in Heroes(g) :: h
  }

  function BannedSet(s: Submission): (r: set<int>)
    ensures forall h :: h in r <==> BannedIn(s, h)
  {
    set b | b in s.bans :: b.hero
  }

  predicate AboutShape(rule: MatchRule) {
    rule.InvalidParticipantCount? || rule.InvalidGameCount? || rule.GameNumbersNotSequential?
  }

  lemma StatsFind(pools: Pools, s: Submission, sides: nat, stats: seq<MatchRule>)
    requires forall rule :: Reports(stats, rule) <==>
               match rule
               case StatNameMalformed => exists g :: g in s.games && Malformed(g)
               case DuplicateStat => exists g :: g in s.games && Doubled(g)
               case StatValueNegative => exists g :: g in s.games && Negative(g)
               case _ => false
    ensures forall rule :: Reports(stats, rule) <==> Breaks(rule, pools, s, sides) && AboutStats(rule)
  {
    hide Malformed, Doubled, Negative;
    forall rule ensures Reports(stats, rule) <==> Breaks(rule, pools, s, sides) && AboutStats(rule) {
      if !AboutStats(rule) {
        assert !Reports(stats, rule);
      }
    }
  }

  lemma NothingReported()
    ensures InOrder([], 0) && forall rule :: !Reports([], rule)
  {
  }

  /** The rules about how many sides and games there are, and how the games are numbered. */
  method ShapeViolations(ghost pools: Pools, s: Submission, sides: nat) returns (violations: seq<MatchRule>)
    ensures InOrder(violations, 3)
    ensures forall rule :: Reports(violations, rule) <==> Breaks(rule, pools, s, sides) && AboutShape(rule)
  {
    hide NumberedFromOne, Numbers, OneTo, SortBy, Reports, Reported;
    SortedNumbers(s.games);
    assert InOrder([], 0) && forall rule :: !Reports([], rule) by { NothingReported(); }
    violations := Reported([], |s.drafts| != sides, InvalidParticipantCount);
    hide InOrder;
    violations := Reported(violations, s.games == [], InvalidGameCount);
    if s.games != [] {
      var numbers := SortBy(n => n, Numbers(s.games));
      violations := Reported(violations, numbers != OneTo(|s.games|), GameNumbersNotSequential);
    }
  }

  lemma DoubledHeroes(g: GameInput)
    ensures |HeroSet(g)| != |g.participants| <==> !Distinct(Heroes(g))
  {
    SetSize(Heroes(g));
  }

  /** What each rule's filter finds, against what the rule says. */
  lemma OffBoardFinds(pools: Pools, s: Submission, sides: nat)
    ensures GameNumbers(s.games, OffBoard(pools)) != [] <==> Breaks(MapNotInPool, pools, s, sides)
  {
    GameNumbersFind(s.games, OffBoard(pools));
    hide GameNumbers;
  }

  lemma WrongSidesFinds(pools: Pools, s: Submission, sides: nat)
    ensures GameNumbers(s.games, WrongSides(sides)) != [] <==> Breaks(InvalidGameParticipantCount, pools, s, sides)
  {
    GameNumbersFind(s.games, WrongSides(sides));
    hide GameNumbers;
  }

  lemma SameHeroFinds(pools: Pools, s: Submission, sides: nat)
    ensures GameNumbers(s.games, SameHero()) != [] <==> Breaks(DuplicateHero, pools, s, sides)
  {
    GameNumbersFind(s.games, SameHero());
    hide GameNumbers, HeroSet, Heroes, Distinct;
    forall g ensures SameHero()(g) <==> !Distinct(Heroes(g)) {
      DoubledHeroes(g);
    }
  }

  lemma UndecidedFinds(pools: Pools, s: Submission, sides: nat)
    ensures GameNumbers(s.games, Undecided()) != [] <==> Breaks(NotExactlyOneWinner, pools, s, sides)
  {
    GameNumbersFind(s.games, Undecided());
    hide GameNumbers, Winners, OneWinner;
    forall g ensures Undecided()(g) <==> !OneWinner(g) {
      WinnersCount(g);
    }
  }

  lemma SurvivingLoserFinds(pools: Pools, s: Submission, sides: nat)
    ensures GameNumbers(s.games, SurvivingLoser()) != [] <==> Breaks(LoserHasPositiveHealth, pools, s, sides)
  {
    GameNumbersFind(s.games, SurvivingLoser());
    hide GameNumbers, LoserSurvives;
  }

  function OffBoard(pools: Pools): GameInput -> bool { (g: GameInput) => g.board !in pools.boards }

  function WrongSides(sides: nat): GameInput -> bool { (g: GameInput) => |g.participants| != sides }

  function SameHero(): GameInput -> bool { (g: GameInput) => |HeroSet(g)| != |g.participants| }

  function Undecided(): GameInput -> bool { (g: GameInput) => Winners(g.participants) != 1 }

  function SurvivingLoser(): GameInput -> bool { (g: GameInput) => LoserSurvives(g) }

  function BannedAnd(s: Submission, heroes: set<int>): (r: set<int>)
    ensures r != {} <==> exists b :: b in s.bans && b.hero in heroes
  {
    var r := set b | b in s.bans && b.hero in heroes :: b.hero;
    assert forall b :: b in s.bans && b.hero in heroes ==> b.hero in r;
    r
  }

  function NamedSet(s: Submission): (r: set<int>)
    ensures forall h :: h in r <==> NamedIn(s, h)
  {
    PlayedSet(s) + DraftedSet(s) + BannedSet(s)
  }

  lemma BannedFinds(pools: Pools, s: Submission, sides: nat)
    ensures BannedAnd(s, DraftedSet(s)) != {} <==> Breaks(BannedHeroDrafted, pools, s, sides)
    ensures BannedAnd(s, PlayedSet(s)) != {} <==> Breaks(BannedHeroPlayed, pools, s, sides)
  {
    hide BannedAnd, DraftedSet, PlayedSet, DraftedIn, PlayedIn;
  }

  lemma NamedFinds(pools: Pools, s: Submission, sides: nat)
    ensures NamedSet(s) - pools.heroes != {} <==> Breaks(UnknownHero, pools, s, sides)
    ensures NamedSet(s) * pools.heroes - pools.pool != {} <==> Breaks(HeroNotInPool, pools, s, sides)
  {
    hide NamedSet, NamedIn;
    var unknown, outside := NamedSet(s) - pools.heroes, NamedSet(s) * pools.heroes - pools.pool;
    if h :| NamedIn(s, h) && h !in pools.heroes {
      assert h in unknown;
    } else {
      NoMembers(unknown);
    }
    if h :| NamedIn(s, h) && h in pools.heroes && h !in pools.pool {
      assert h in outside;
    } else {
      NoMembers(outside);
    }
  }

  lemma DoubledBansFind(pools: Pools, s: Submission, sides: nat, doubled: set<int>)
    requires forall v :: v in doubled <==> multiset(BanHeroes(s.bans))[v] > 1
    ensures doubled != {} <==> Breaks(DuplicateBan, pools, s, sides)
  {
    RepeatedFinds(BanHeroes(s.bans), doubled);
  }

  function ImpossibleBans(bans: seq<Ban>): set<Ban> { set b | b in bans && ImpossibleSide(b) }

  function UndraftedPlays(s: Submission): set<(int, int)> {
    set g, i | g in s.games && 0 <= i < |g.participants| && i < |s.drafts| && g.participants[i].hero !in s.drafts[i]
      :: (g.number, g.participants[i].hero)
  }

  lemma PlacesFind(pools: Pools, s: Submission, sides: nat)
    ensures ImpossibleBans(s.bans) != {} <==> Breaks(BanSideInvalid, pools, s, sides)
    ensures UndraftedPlays(s) != {} <==> Breaks(PlayedHeroNotDrafted, pools, s, sides)
  {
    if b :| b in s.bans && ImpossibleSide(b) {
      assert b in ImpossibleBans(s.bans);
    }
    if g :| g in s.games && FieldsUndrafted(g, s.drafts) {
      var i :| 0 <= i < |g.participants| && i < |s.drafts| && g.participants[i].hero !in s.drafts[i];
      assert (g.number, g.participants[i].hero) in UndraftedPlays(s);
    }
  }

  predicate AboutLayout(rule: MatchRule) {
    AboutShape(rule) || rule.MapNotInPool? || rule.InvalidGameParticipantCount? || rule.DuplicateHero?
    || rule.DuplicateBan? || rule.BanSideInvalid? || rule.DuplicatePick?
  }

  predicate AboutSeries(rule: MatchRule) {
    rule.BannedHeroDrafted? || rule.PlayedHeroNotDrafted? || rule.BannedHeroPlayed? || rule.NotExactlyOneWinner?
    || rule.LoserHasPositiveHealth? || rule.UnknownHero? || rule.HeroNotInPool?
  }

  /** Pushes each of the next six rules that is broken. */
  method PushLayoutRules(
    shape: seq<MatchRule>, offBoard: bool, wrongSides: bool, sameHero: bool, doubledBan: bool, badSide: bool,
    doubledPick: bool)
    returns (r: seq<MatchRule>)
    requires InOrder(shape, 3)
    ensures InOrder(r, 9)
    ensures forall rule :: Reports(r, rule) <==>
              Reports(shape, rule) || (offBoard && rule.MapNotInPool?)
              || (wrongSides && rule.InvalidGameParticipantCount?)
              || (sameHero && rule.DuplicateHero?) || (doubledBan && rule.DuplicateBan?)
              || (badSide && rule.BanSideInvalid?) || (doubledPick && rule.DuplicatePick?)
  {
    hide InOrder, Reported, Reports;
    r := Reported(shape, offBoard, MapNotInPool);
    r := Reported(r, wrongSides, InvalidGameParticipantCount);
    r := Reported(r, sameHero, DuplicateHero);
    r := Reported(r, doubledBan, DuplicateBan);
    r := Reported(r, badSide, BanSideInvalid);
    r := Reported(r, doubledPick, DuplicatePick);
  }

  /** Pushes each of the seven rules about what was drafted, struck and played. */
  method PushSeriesRules(
    layout: seq<MatchRule>, struckDrafted: bool, undrafted: bool, struckPlayed: bool, undecided: bool, survivor: bool,
    unknown: bool, outside: bool)
    returns (r: seq<MatchRule>)
    requires InOrder(layout, 9)
    ensures InOrder(r, STAT_RULES)
    ensures forall rule :: Reports(r, rule) <==>
              Reports(layout, rule) || (struckDrafted && rule.BannedHeroDrafted?)
              || (undrafted && rule.PlayedHeroNotDrafted?)
              || (struckPlayed && rule.BannedHeroPlayed?) || (undecided && rule.NotExactlyOneWinner?)
              || (survivor && rule.LoserHasPositiveHealth?) || (unknown && rule.UnknownHero?)
              || (outside && rule.HeroNotInPool?)
  {
    hide InOrder, Reported, Reports;
    r := Reported(layout, struckDrafted, BannedHeroDrafted);
    r := Reported(r, undrafted, PlayedHeroNotDrafted);
    r := Reported(r, struckPlayed, BannedHeroPlayed);
    r := Reported(r, undecided, NotExactlyOneWinner);
    r := Reported(r, survivor, LoserHasPositiveHealth);
    r := Reported(r, unknown, UnknownHero);
    r := Reported(r, outside, HeroNotInPool);
  }

  /** The first nine rules: counts, boards, and what is named twice or in an impossible place. */
  method LayoutViolations(pools: Pools, s: Submission, sides: nat) returns (violations: seq<MatchRule>)
    ensures InOrder(violations, 9)
    ensures forall rule :: Reports(violations, rule) <==> Breaks(rule, pools, s, sides) && AboutLayout(rule)
  {
    violations := ShapeViolations(pools, s, sides);
    var doubledBans := Repeated(BanHeroes(s.bans));
    var doubledPicks := DuplicatePicks(s.drafts);
    DoubledBansFind(pools, s, sides, doubledBans);
    assert doubledPicks != {} <==> Breaks(DuplicatePick, pools, s, sides);
    OffBoardFinds(pools, s, sides);
    WrongSidesFinds(pools, s, sides);
    SameHeroFinds(pools, s, sides);
    PlacesFind(pools, s, sides);

    hide Breaks, InOrder, Reports, GameNumbers, ImpossibleBans, OffBoard, WrongSides, SameHero;
    violations := PushLayoutRules(
      violations,
      GameNumbers(s.games, OffBoard(pools)) != [],
      GameNumbers(s.games, WrongSides(sides)) != [],
      GameNumbers(s.games, SameHero()) != [],
      doubledBans != {},
      ImpossibleBans(s.bans) != {},
      doubledPicks != {});
  }

  /** The next seven, about what was drafted, struck and played. */
  method SeriesViolations(pools: Pools, s: Submission, sides: nat, layout: seq<MatchRule>)
    returns (violations: seq<MatchRule>)
    requires InOrder(layout, 9)
    ensures InOrder(violations, STAT_RULES)
    ensures forall rule :: Reports(violations, rule) <==>
              Reports(layout, rule) || (Breaks(rule, pools, s, sides) && AboutSeries(rule))
  {
    UndecidedFinds(pools, s, sides);
    SurvivingLoserFinds(pools, s, sides);
    PlacesFind(pools, s, sides);
    BannedFinds(pools, s, sides);
    NamedFinds(pools, s, sides);

    hide Breaks, InOrder, Reports, GameNumbers, BannedAnd, UndraftedPlays, NamedSet, DraftedSet, PlayedSet;
    hide Undecided, SurvivingLoser, ImpossibleBans;
    violations := PushSeriesRules(
      layout,
      BannedAnd(s, DraftedSet(s)) != {},
      UndraftedPlays(s) != {},
      BannedAnd(s, PlayedSet(s)) != {},
      GameNumbers(s.games, Undecided()) != [],
      GameNumbers(s.games, SurvivingLoser()) != [],
      NamedSet(s) - pools.heroes != {},
      NamedSet(s) * pools.heroes - pools.pool != {});
  }

  /** Reports every broken rule, each once and in its place, and nothing else. */
  method ValidateExpecting(pools: Pools, s: Submission, sides: nat) returns (violations: seq<MatchRule>)
    ensures InOrder(violations, RULES)
    ensures forall rule :: Reports(violations, rule) <==> Breaks(rule, pools, s, sides)
  {
    hide Breaks, InOrder, Reports, Joined;
    var layout := LayoutViolations(pools, s, sides);
    violations := SeriesViolations(pools, s, sides, layout);
    var stats := StatViolations(s.games);
    StatsFind(pools, s, sides, stats);
    violations := Joined(violations, stats);
  }

  method Validate(pools: Pools, s: Submission) returns (violations: seq<MatchRule>)
    ensures InOrder(violations, RULES)
    ensures forall rule :: Reports(violations, rule) <==> Breaks(rule, pools, s, EXPECTED_PARTICIPANT_COUNT)
    ensures violations == [] <==> Accepted(pools, s)
  {
    hide Breaks, InOrder;
    violations := ValidateExpecting(pools, s, EXPECTED_PARTICIPANT_COUNT);
    assert violations != [] ==> Reports(violations, violations[0]);
  }

  // ---------------------------------------------------------------- what acceptance comes to

  ghost predicate GameIsRight(s: Submission, g: GameInput) {
    && |g.participants| == EXPECTED_PARTICIPANT_COUNT && OneWinner(g) && !LoserSurvives(g)
    && !FieldsUndrafted(g, s.drafts)
  }

  /** Two sides, right games numbered from one, no repeats in a draft or among the bans, bans placed. */
  ghost predicate WellShaped(s: Submission) {
    && |s.drafts| == EXPECTED_PARTICIPANT_COUNT && s.games != [] && NumberedFromOne(s.games)
    && (forall d :: d in s.drafts ==> Distinct(d))
    && (forall g :: g in s.games ==> GameIsRight(s, g))
    && Distinct(BanHeroes(s.bans)) && forall b :: b in s.bans ==> !ImpossibleSide(b)
  }

  /** What needs the server's own lists: the board pool, the hero pool, and the stats. */
  ghost predicate Resolves(pools: Pools, s: Submission) {
    && (forall g :: g in s.games ==> g.board in pools.boards && !Malformed(g) && !Doubled(g) && !Negative(g))
    && forall h :: NamedIn(s, h) ==> h in pools.heroes && h in pools.pool
  }

  /** No banned hero drafted or played, and no game with one hero on both sides. */
  ghost predicate Apart(s: Submission) {
    && (forall b :: b in s.bans ==> !DraftedIn(s, b.hero) && !PlayedIn(s, b.hero))
    && forall g :: g in s.games ==> Distinct(Heroes(g))
  }

  /** Acceptance is these three things together. */
  lemma AcceptedMeans(pools: Pools, s: Submission)
    ensures Accepted(pools, s) <==> WellShaped(s) && Resolves(pools, s) && Apart(s)
  {
    hide Accepted, WellShaped, Resolves, Apart;
    if Accepted(pools, s) {
      NoShapeBroken(pools, s);
      NothingElseBroken(pools, s);
    }
    if WellShaped(s) && Resolves(pools, s) && Apart(s) {
      NothingBroken(pools, s);
    }
  }

  lemma NothingBroken(pools: Pools, s: Submission)
    requires WellShaped(s) && Resolves(pools, s) && Apart(s)
    ensures Accepted(pools, s)
  {
    hide OneWinner, LoserSurvives, FieldsUndrafted, NumberedFromOne, Distinct, Heroes, BanHeroes, ImpossibleSide;
    hide Malformed, Doubled, Negative, NamedIn, DraftedIn, PlayedIn;
  }

  lemma NothingElseBroken(pools: Pools, s: Submission)
    requires Accepted(pools, s)
    ensures Resolves(pools, s) && Apart(s)
  {
    hide Distinct, Heroes, Malformed, Doubled, Negative, NamedIn, DraftedIn, PlayedIn;
    assert !Breaks(MapNotInPool, pools, s, 2);
    assert !Breaks(UnknownHero, pools, s, 2) && !Breaks(HeroNotInPool, pools, s, 2);
    assert !Breaks(StatNameMalformed, pools, s, 2) && !Breaks(DuplicateStat, pools, s, 2);
    assert !Breaks(StatValueNegative, pools, s, 2);
    assert !Breaks(BannedHeroDrafted, pools, s, 2) && !Breaks(BannedHeroPlayed, pools, s, 2);
    assert !Breaks(DuplicateHero, pools, s, 2);
  }

  lemma NoShapeBroken(pools: Pools, s: Submission)
    requires Accepted(pools, s)
    ensures WellShaped(s)
  {
    hide OneWinner, LoserSurvives, FieldsUndrafted, NumberedFromOne, Distinct, BanHeroes, ImpossibleSide;
    assert !Breaks(InvalidParticipantCount, pools, s, 2) && !Breaks(InvalidGameCount, pools, s, 2);
    assert !Breaks(GameNumbersNotSequential, pools, s, 2) && !Breaks(InvalidGameParticipantCount, pools, s, 2);
    assert !Breaks(NotExactlyOneWinner, pools, s, 2) && !Breaks(LoserHasPositiveHealth, pools, s, 2);
    assert !Breaks(PlayedHeroNotDrafted, pools, s, 2) && !Breaks(DuplicatePick, pools, s, 2);
    assert !Breaks(DuplicateBan, pools, s, 2) && !Breaks(BanSideInvalid, pools, s, 2);
  }
}
