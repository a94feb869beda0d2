/** A recorded match, and the contexts in which it prices a hero. */
module MatchResults {
  import opened Options
  import opened Distinctness
  import opened Sums

  datatype BanType = PreBan | OpponentBan | SelfBan

  datatype Participant = Participant(side: int, drafted: seq<int>)

  datatype GameParticipant = GameParticipant(
    side: int, hero: int, health: int, isWinner: bool, stats: map<string, int>)

  datatype Game = Game(id: int, number: int, board: int, participants: seq<GameParticipant>)

  datatype Ban = Ban(hero: int, banType: BanType, side: Option<int>)

  datatype Match = Match(
    id: int, round: int, playedAt: int, participants: seq<Participant>, games: seq<Game>, bans: seq<Ban>)

  /** A played context belongs to a game, a drafted or banned one to the whole match. */
  datatype Role = Played(game: Game, participant: GameParticipant) | Drafted | Banned

  datatype Context = Context(result: Match, hero: int, role: Role) {
    function Opponents(): seq<GameParticipant> {
      if role.Played? then OpponentsOf(role.game.participants, hero) else []
    }
  }

  function OpponentsOf(participants: seq<GameParticipant>, hero: int): (r: seq<GameParticipant>)
    ensures forall p :: p in r <==> p in participants && p.hero != hero
  {
    if participants == [] then []
    else
      var rest := OpponentsOf(participants[..|participants| - 1], hero);
      var last := participants[|participants| - 1];
      if last.hero != hero then rest + [last] else rest
  }

  /** Appends what is not there yet, in order. */
  function AddNew(seen: seq<int>, more: seq<int>): (r: seq<int>)
    ensures forall h :: h in r <==> h in seen || h in more
  {
    if more == [] then seen
    else
      var before, last := AddNew(seen, more[..|more| - 1]), more[|more| - 1];
      if last in before then before else before + [last]
  }

  function DraftedIn(participants: seq<Participant>): (r: seq<int>)
    ensures forall h :: h in r <==> exists p :: p in participants && h in p.drafted
  {
    if participants == [] then []
    else
      var init, last := participants[..|participants| - 1], participants[|participants| - 1];
      assert forall p :: p in participants <==> p in init || p == last;
      AddNew(DraftedIn(init), last.drafted)
  }

  function PlayedIn(m: Match, games: seq<Game>): seq<Context> {
    if games == [] then []
    else PlayedIn(m, games[..|games| - 1]) + PlayedInGame(m, games[|games| - 1], games[|games| - 1].participants)
  }

  function PlayedInGame(m: Match, game: Game, participants: seq<GameParticipant>): seq<Context> {
    seq(|participants|, i requires 0 <= i < |participants| =>
      Context(m, participants[i].hero, Played(game, participants[i])))
  }

  function ContextHeroes(contexts: seq<Context>): seq<int> {
    seq(|contexts|, i requires 0 <= i < |contexts| => contexts[i].hero)
  }

  /** Heroes struck, first ban first, leaving out any that played after all. */
  function StruckHeroes(bans: seq<Ban>, played: seq<int>): seq<int> {
    if bans == [] then []
    else
      var before, last := StruckHeroes(bans[..|bans| - 1], played), bans[|bans| - 1];
      if last.hero in played || last.hero in before then before else before + [last.hero]
  }

  lemma {:induction false} StruckMembers(bans: seq<Ban>, played: seq<int>)
    ensures forall h :: h in StruckHeroes(bans, played) <==> h !in played && exists b :: b in bans && b.hero == h
  {
    if bans != [] {
      var init, last := bans[..|bans| - 1], bans[|bans| - 1];
      StruckMembers(init, played);
      assert forall b :: b in bans <==> b in init || b == last;
    }
  }

  function Without(heroes: seq<int>, dropped: seq<int>): (r: seq<int>)
    ensures forall h :: h in r <==> h in heroes && h !in dropped
  {
    if heroes == [] then []
    else
      var before, last := Without(heroes[..|heroes| - 1], dropped), heroes[|heroes| - 1];
      if last in dropped then before else before + [last]
  }

  function InRole(m: Match, heroes: seq<int>, role: Role): seq<Context> {
    seq(|heroes|, i requires 0 <= i < |heroes| => Context(m, heroes[i], role))
  }

  function PlayedContexts(m: Match): seq<Context> { PlayedIn(m, m.games) }

  function BannedHeroes(m: Match): seq<int> { StruckHeroes(m.bans, ContextHeroes(PlayedContexts(m))) }

  function DraftedHeroes(m: Match): seq<int> { Without(DraftedIn(m.participants), BannedHeroes(m)) }

  function HeroContexts(m: Match): seq<Context> {
    PlayedContexts(m) + InRole(m, DraftedHeroes(m), Drafted) + InRole(m, BannedHeroes(m), Banned)
  }

  // ---------------------------------------------------------------- the vectors it is built with

  method DraftedHeroIds(m: Match) returns (seen: seq<int>)
    ensures seen == DraftedIn(m.participants)
  {
    seen := [];
    for i := 0 to |m.participants|
      invariant seen == DraftedIn(m.participants[..i])
    {
      var drafted := m.participants[i].drafted;
      ghost var before := seen;
      for j := 0 to |drafted|
        invariant seen == AddNew(before, drafted[..j])
      {
        assert drafted[..j + 1][..j] == drafted[..j];
        if drafted[j] !in seen {
          seen := seen + [drafted[j]];
        }
      }
      assert drafted[..|drafted|] == drafted;
      assert m.participants[..i + 1][..i] == m.participants[..i];
    }
    assert m.participants[..|m.participants|] == m.participants;
  }

  method ComputeHeroContexts(m: Match) returns (contexts: seq<Context>)
    ensures contexts == HeroContexts(m)
  {
    var played: seq<Context> := [];
    for i := 0 to |m.games|
      invariant played == PlayedIn(m, m.games[..i])
    {
      assert m.games[..i + 1][..i] == m.games[..i];
      played := played + PlayedInGame(m, m.games[i], m.games[i].participants);
    }
    assert m.games[..|m.games|] == m.games;
    var playedHeroes := ContextHeroes(played);

    var banned: seq<int> := [];
    for i := 0 to |m.bans|
      invariant banned == StruckHeroes(m.bans[..i], playedHeroes)
    {
      assert m.bans[..i + 1][..i] == m.bans[..i];
      var hero := m.bans[i].hero;
      if hero !in playedHeroes && hero !in banned {
        banned := banned + [hero];
      }
    }
    assert m.bans[..|m.bans|] == m.bans;
    var drafted := DraftedHeroIds(m);
    contexts := played + InRole(m, Without(drafted, banned), Drafted) + InRole(m, banned, Banned);
  }

  // ---------------------------------------------------------------- what the contexts are

  lemma {:induction false} AddNewIsDistinct(seen: seq<int>, more: seq<int>)
    requires Distinct(seen)
    ensures Distinct(AddNew(seen, more))
  {
    if more != [] {
      AddNewIsDistinct(seen, more[..|more| - 1]);
    }
  }

  lemma {:induction false} DraftedInIsDistinct(participants: seq<Participant>)
    ensures Distinct(DraftedIn(participants))
  {
    if participants != [] {
      var n := |participants| - 1;
      DraftedInIsDistinct(participants[..n]);
      AddNewIsDistinct(DraftedIn(participants[..n]), participants[n].drafted);
    }
  }

  lemma {:induction false} StruckIsDistinct(bans: seq<Ban>, played: seq<int>)
    ensures Distinct(StruckHeroes(bans, played))
  {
    if bans != [] {
      StruckIsDistinct(bans[..|bans| - 1], played);
    }
  }

  lemma {:induction false} WithoutIsDistinct(heroes: seq<int>, dropped: seq<int>)
    requires Distinct(heroes)
    ensures Distinct(Without(heroes, dropped))
  {
    if heroes != [] {
      WithoutIsDistinct(heroes[..|heroes| - 1], dropped);
    }
  }

  lemma {:induction false} NothingDropped(heroes: seq<int>, dropped: seq<int>)
    requires forall h :: h in heroes ==> h !in dropped
    ensures Without(heroes, dropped) == heroes
  {
    if heroes != [] {
      NothingDropped(heroes[..|heroes| - 1], dropped);
      assert heroes[|heroes| - 1] in heroes;
    }
  }

  predicate Fields(game: Game, hero: int) {
    exists p :: p in game.participants && p.hero == hero
  }

  lemma {:induction false} PlayedInMembers(m: Match, games: seq<Game>, c: Context)
    ensures c in PlayedIn(m, games) <==>
            c.result == m && c.role.Played? && c.role.game in games
            && c.role.participant in c.role.game.participants && c.hero == c.role.participant.hero
  {
    if games != [] {
      var init, last := games[..|games| - 1], games[|games| - 1];
      PlayedInMembers(m, init, c);
      var here := PlayedInGame(m, last, last.participants);
      if c.role.Played? && c.role.game == last && c.role.participant in last.participants
         && c.result == m && c.hero == c.role.participant.hero {
        var i :| 0 <= i < |last.participants| && last.participants[i] == c.role.participant;
        assert here[i] == c;
      }
      assert forall g :: g in games <==> g in init || g == last;
    }
  }

  lemma PartsSum(m: Match, f: Context -> int)
    ensures Sum(HeroContexts(m), f)
            == Sum(PlayedContexts(m), f) + Sum(InRole(m, DraftedHeroes(m), Drafted), f)
               + Sum(InRole(m, BannedHeroes(m), Banned), f)
  {
    var p, d, b := PlayedContexts(m), InRole(m, DraftedHeroes(m), Drafted), InRole(m, BannedHeroes(m), Banned);
    SumConcat(p + d, b, f);
    SumConcat(p, d, f);
  }

  datatype Kind = WasPlayed | WasDrafted | WasBanned

  function KindOf(role: Role): Kind {
    match role
    case Played(_, _) => WasPlayed
    case Drafted => WasDrafted
    case Banned => WasBanned
  }

  /** How many contexts of one kind a hero has. */
  function Count(contexts: seq<Context>, hero: int, kind: Kind): nat {
    if contexts == [] then 0
    else
      var last := contexts[|contexts| - 1];
      Count(contexts[..|contexts| - 1], hero, kind) + (if last.hero == hero && KindOf(last.role) == kind then 1 else 0)
  }

  lemma {:induction false} CountConcat(a: seq<Context>, b: seq<Context>, hero: int, kind: Kind)
    ensures Count(a + b, hero, kind) == Count(a, hero, kind) + Count(b, hero, kind)
  {
    if b == [] {
      assert a + b == a;
    } else {
      assert (a + b)[..|a + b| - 1] == a + b[..|b| - 1];
      CountConcat(a, b[..|b| - 1], hero, kind);
    }
  }

  lemma {:induction false} CountNone(contexts: seq<Context>, hero: int, kind: Kind)
    requires forall c :: c in contexts ==> c.hero != hero || KindOf(c.role) != kind
    ensures Count(contexts, hero, kind) == 0
  {
    if contexts != [] {
      CountNone(contexts[..|contexts| - 1], hero, kind);
    }
  }

  lemma {:induction false} CountInRole(m: Match, heroes: seq<int>, role: Role, hero: int)
    requires Distinct(heroes)
    ensures Count(InRole(m, heroes, role), hero, KindOf(role)) == (if hero in heroes then 1 else 0)
  {
    if heroes != [] {
      var init := heroes[..|heroes| - 1];
      CountInRole(m, init, role, hero);
      assert InRole(m, heroes, role)[..|heroes| - 1] == InRole(m, init, role);
    }
  }

  /** The three parts of the contexts, each of its own kind. */
  lemma CountParts(m: Match, hero: int, kind: Kind)
    ensures Count(HeroContexts(m), hero, kind)
            == match kind
               case WasPlayed => Count(PlayedContexts(m), hero, WasPlayed)
               case WasDrafted => Count(InRole(m, DraftedHeroes(m), Drafted), hero, WasDrafted)
               case WasBanned => Count(InRole(m, BannedHeroes(m), Banned), hero, WasBanned)
  {
    var p, d, b := PlayedContexts(m), InRole(m, DraftedHeroes(m), Drafted), InRole(m, BannedHeroes(m), Banned);
    CountConcat(p + d, b, hero, kind);
    CountConcat(p, d, hero, kind);
    forall c | c in p ensures c.role.Played? {
      PlayedInMembers(m, m.games, c);
    }
    if !kind.WasPlayed? { CountNone(p, hero, kind); }
    if !kind.WasDrafted? { CountNone(d, hero, kind); }
    if !kind.WasBanned? { CountNone(b, hero, kind); }
  }

  /**
  Played beats banned beats drafted, each in its own unit.  A hero has one Banned context if it was
  struck and never played, one Drafted context if a side drafted it and it has no Banned one, and
  never both, however many rows name it.
  */
  lemma SeriesContextsAreOnce(m: Match, hero: int)
    ensures var played := exists g :: g in m.games && Fields(g, hero);
      var struck := !played && exists b :: b in m.bans && b.hero == hero;
      && Count(HeroContexts(m), hero, WasBanned) == (if struck then 1 else 0)
      && Count(HeroContexts(m), hero, WasDrafted)
         == (if !struck && (exists p :: p in m.participants && hero in p.drafted) then 1 else 0)
  {
    PlayedHeroesAreFielded(m, hero);
    CountParts(m, hero, WasBanned);
    CountParts(m, hero, WasDrafted);
    StruckMembers(m.bans, ContextHeroes(PlayedContexts(m)));
    StruckIsDistinct(m.bans, ContextHeroes(PlayedContexts(m)));
    DraftedInIsDistinct(m.participants);
    WithoutIsDistinct(DraftedIn(m.participants), BannedHeroes(m));
    CountInRole(m, BannedHeroes(m), Banned, hero);
    CountInRole(m, DraftedHeroes(m), Drafted, hero);
  }

  /** How many games field a hero, given no hero is on both sides of one. */
  function GamesFielding(games: seq<Game>, hero: int): nat {
    if games == [] then 0
    else GamesFielding(games[..|games| - 1], hero) + (if Fields(games[|games| - 1], hero) then 1 else 0)
  }

  ghost predicate NoHeroTwice(game: Game) {
    forall i, j :: 0 <= i < j < |game.participants| ==> game.participants[i].hero != game.participants[j].hero
  }

  lemma {:induction false} CountInGame(m: Match, game: Game, participants: seq<GameParticipant>, hero: int)
    requires forall i, j :: 0 <= i < j < |participants| ==> participants[i].hero != participants[j].hero
    ensures Count(PlayedInGame(m, game, participants), hero, WasPlayed)
            == (if exists p :: p in participants && p.hero == hero then 1 else 0)
  {
    if participants != [] {
      var init, last := participants[..|participants| - 1], participants[|participants| - 1];
      CountInGame(m, game, init, hero);
      assert PlayedInGame(m, game, participants)[..|participants| - 1] == PlayedInGame(m, game, init);
      assert forall p :: p in participants <==> p in init || p == last;
    }
  }

  /** One Played context a game, for every game that fields the hero. */
  lemma {:induction false} PlayedContextsArePerGame(m: Match, games: seq<Game>, hero: int)
    requires forall g :: g in games ==> NoHeroTwice(g)
    ensures Count(PlayedIn(m, games), hero, WasPlayed) == GamesFielding(games, hero)
  {
    if games != [] {
      var init, last := games[..|games| - 1], games[|games| - 1];
      PlayedContextsArePerGame(m, init, hero);
      assert last in games && NoHeroTwice(last);
      CountInGame(m, last, last.participants, hero);
      CountConcat(PlayedIn(m, init), PlayedInGame(m, last, last.participants), hero, WasPlayed);
    }
  }

  lemma PlayedHeroesAreFielded(m: Match, hero: int)
    ensures hero in ContextHeroes(PlayedContexts(m)) <==> exists g :: g in m.games && Fields(g, hero)
  {
    var cs := PlayedContexts(m);
    if hero in ContextHeroes(cs) {
      var i :| 0 <= i < |cs| && cs[i].hero == hero;
      PlayedInMembers(m, m.games, cs[i]);
      assert Fields(cs[i].role.game, hero);
    }
    if g :| g in m.games && Fields(g, hero) {
      var p :| p in g.participants && p.hero == hero;
      var c := Context(m, hero, Played(g, p));
      PlayedInMembers(m, m.games, c);
      var i :| 0 <= i < |cs| && cs[i] == c;
      assert ContextHeroes(cs)[i] == hero;
    }
  }

  // ---------------------------------------------------------------- in which order

  /** What is seen first stays first, and what is added comes in the order it is met. */
  lemma {:induction false} AddNewAppends(seen: seq<int>, more: seq<int>)
    ensures seen <= AddNew(seen, more)
  {
    if more != [] {
      AddNewAppends(seen, more[..|more| - 1]);
    }
  }

  lemma {:induction false} AddNewInTurn(seen: seq<int>, more: seq<int>, k: nat)
    requires k <= |more|
    ensures AddNew(seen, more[..k]) <= AddNew(seen, more)
    decreases |more|
  {
    var n := |more| - 1;
    if k <= n {
      AddNewInTurn(seen, more[..n], k);
      assert more[..n][..k] == more[..k];
    } else {
      assert more[..k] == more;
    }
  }

  /** The draft is listed side by side: a later side's picks come after all of an earlier side's. */
  lemma {:induction false} DraftsInTurn(participants: seq<Participant>, k: nat)
    requires k <= |participants|
    ensures DraftedIn(participants[..k]) <= DraftedIn(participants)
    decreases |participants|
  {
    var n := |participants| - 1;
    if k <= n {
      DraftsInTurn(participants[..n], k);
      assert participants[..n][..k] == participants[..k];
      AddNewAppends(DraftedIn(participants[..n]), participants[n].drafted);
    } else {
      assert participants[..k] == participants;
    }
  }

  /** Struck heroes are listed by their first bans. */
  lemma {:induction false} BansInTurn(bans: seq<Ban>, played: seq<int>, k: nat)
    requires k <= |bans|
    ensures StruckHeroes(bans[..k], played) <= StruckHeroes(bans, played)
    decreases |bans|
  {
    var n := |bans| - 1;
    if k <= n {
      BansInTurn(bans[..n], played, k);
      assert bans[..n][..k] == bans[..k];
    } else {
      assert bans[..k] == bans;
    }
  }
}
