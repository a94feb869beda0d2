/** The match wizard's form: seeded from a saved match, edited in place, checked, and sent. */
module MatchForms {
  import opened Options
  import opened Ordering
  import opened MatchResults
  import P = MatchPolicy

  /** Stands for a hero or a board that is still blank. */
  const UNSET: int := 0

  /** A ban as a side's form lists it: of either typed kind, pre-bans being listed apart. */
  type SidedBanType = b: BanType | !b.PreBan? witness SelfBan

  datatype SidedBan = SidedBan(hero: int, kind: SidedBanType)

  /** One side: every hero it came with, its struck heroes among them, and what struck them. */
  datatype SideForm = SideForm(arsenal: seq<int>, bans: seq<SidedBan>)

  datatype Form = Form(
    link: string, sides: seq<SideForm>, games: seq<P.GameInput>, preBans: seq<int>, unassigned: seq<SidedBan>)

  /** A saved match as the API returns it. */
  datatype SavedPlay = SavedPlay(side: int, hero: int, health: int, isWinner: bool, stats: seq<P.Stat>)

  datatype SavedGame = SavedGame(number: int, board: int, participants: seq<SavedPlay>)

  datatype Saved = Saved(link: string, participants: seq<Participant>, games: seq<SavedGame>, bans: seq<Ban>)

  // ---------------------------------------------------------------- seeding

  function BySide(): Participant -> int { (p: Participant) => p.side }

  function ByPlaySide(): SavedPlay -> int { (p: SavedPlay) => p.side }

  function ByNumber(): SavedGame -> int { (g: SavedGame) => g.number }

  function SidedBans(bans: seq<Ban>, side: int): seq<SidedBan> {
    if bans == [] then []
    else
      var before, last := SidedBans(bans[..|bans| - 1], side), bans[|bans| - 1];
      if !last.banType.PreBan? && last.side == Some(side) then before + [SidedBan(last.hero, last.banType)] else before
  }

  function PreBans(bans: seq<Ban>): seq<int> {
    if bans == [] then []
    else
      var before, last := PreBans(bans[..|bans| - 1]), bans[|bans| - 1];
      if last.banType.PreBan? then before + [last.hero] else before
  }

  function Unassigned(bans: seq<Ban>): seq<SidedBan> {
    if bans == [] then []
    else
      var before, last := Unassigned(bans[..|bans| - 1]), bans[|bans| - 1];
      if !last.banType.PreBan? && last.side.None? then before + [SidedBan(last.hero, last.banType)] else before
  }

  function Struck(bans: seq<SidedBan>): seq<int> {
    seq(|bans|, i requires 0 <= i < |bans| => bans[i].hero)
  }

  /** Stored drafts leave struck heroes out, so the arsenal is put together again from draft and bans. */
  function SeededSide(p: Participant, bans: seq<Ban>): SideForm {
    SideForm(p.drafted + Struck(SidedBans(bans, p.side)), SidedBans(bans, p.side))
  }

  function SeededPlay(p: SavedPlay): P.PlayInput { P.PlayInput(p.hero, p.health, p.isWinner, p.stats) }

  function SeededGame(g: SavedGame): P.GameInput {
    var plays := SortBy(ByPlaySide(), g.participants);
    P.GameInput(g.number, g.board, seq(|plays|, i requires 0 <= i < |plays| => SeededPlay(plays[i])))
  }

  function FormFromMatch(m: Saved): Form {
    var sides, games := SortBy(BySide(), m.participants), SortBy(ByNumber(), m.games);
    Form(
      m.link,
      seq(|sides|, i requires 0 <= i < |sides| => SeededSide(sides[i], m.bans)),
      seq(|games|, i requires 0 <= i < |games| => SeededGame(games[i])),
      PreBans(m.bans),
      Unassigned(m.bans))
  }

  // ---------------------------------------------------------------- saving

  function Tagged(bans: seq<SidedBan>, side: int): seq<Ban> {
    seq(|bans|, i requires 0 <= i < |bans| => Ban(bans[i].hero, bans[i].kind, Some(side)))
  }

  function SideBans(sides: seq<SideForm>): seq<Ban> {
    if sides == [] then [] else SideBans(sides[..|sides| - 1]) + Tagged(sides[|sides| - 1].bans, |sides| - 1)
  }

  function Untagged(preBans: seq<int>): seq<Ban> {
    seq(|preBans|, i requires 0 <= i < |preBans| => Ban(preBans[i], PreBan, None))
  }

  /** A side's arsenal without what was struck from it. */
  function Draft(s: SideForm): seq<int> { Without(s.arsenal, Struck(s.bans)) }

  function ToPayload(f: Form): P.Submission {
    P.Submission(
      seq(|f.sides|, i requires 0 <= i < |f.sides| => Draft(f.sides[i])),
      f.games,
      SideBans(f.sides) + Untagged(f.preBans))
  }

  // ---------------------------------------------------------------- what the dropdowns offer

  predicate IsFieldable(f: Form, side: nat, hero: int)
    requires side < |f.sides|
  {
    hero in f.sides[side].arsenal && hero !in Struck(f.sides[side].bans) && hero !in f.preBans
  }

  function FieldableHeroes(f: Form, heroPool: seq<int>, side: nat): (r: seq<int>)
    requires side < |f.sides|
    ensures forall h :: h in r <==> h in heroPool && IsFieldable(f, side, h)
  {
    if heroPool == [] then []
    else
      var before, last := FieldableHeroes(f, heroPool[..|heroPool| - 1], side), heroPool[|heroPool| - 1];
      if IsFieldable(f, side, last) then before + [last] else before
  }

  /** What is offered keeps the pool's order and repeats: offering from a longer pool only adds at its end. */
  lemma {:induction false} FieldableInPoolOrder(f: Form, front: seq<int>, back: seq<int>, side: nat)
    requires side < |f.sides|
    ensures FieldableHeroes(f, front + back, side)
            == FieldableHeroes(f, front, side) + FieldableHeroes(f, back, side)
  {
    if back == [] {
      assert front + back == front;
    } else {
      assert (front + back)[..|front + back| - 1] == front + back[..|back| - 1];
      FieldableInPoolOrder(f, front, back[..|back| - 1], side);
    }
  }

  /** The heroes a side fields, blanks aside. */
  function FieldedIn(games: seq<P.GameInput>, side: nat): (r: seq<int>)
    ensures forall h :: h in r <==>
              h != UNSET && exists g :: g in games && side < |g.participants| && g.participants[side].hero == h
  {
    if games == [] then []
    else
      var init, last := games[..|games| - 1], games[|games| - 1];
      var before := FieldedIn(init, side);
      assert forall g :: g in games <==> g in init || g == last;
      if side < |last.participants| && last.participants[side].hero != UNSET
      then before + [last.participants[side].hero]
      else before
  }

  // ---------------------------------------------------------------- edits

  function Dropped<T>(s: seq<T>, index: nat): seq<T> {
    if index < |s| then s[..index] + s[index + 1..] else s
  }

  function Renumbered(games: seq<P.GameInput>): seq<P.GameInput> {
    seq(|games|, i requires 0 <= i < |games| => games[i].(number := i + 1))
  }

  function WithoutGame(f: Form, index: nat): Form { f.(games := Renumbered(Dropped(f.games, index))) }

  function KeepBans(bans: seq<SidedBan>, hero: int): seq<SidedBan> {
    if bans == [] then []
    else
      var before, last := KeepBans(bans[..|bans| - 1], hero), bans[|bans| - 1];
      if last.hero != hero then before + [last] else before
  }

  function Blanked(g: P.GameInput, side: nat, hero: int): P.GameInput {
    if side < |g.participants| && g.participants[side].hero == hero
    then g.(participants := g.participants[side := g.participants[side].(hero := UNSET)])
    else g
  }

  function BlankedAll(games: seq<P.GameInput>, side: nat, hero: int): seq<P.GameInput> {
    seq(|games|, i requires 0 <= i < |games| => Blanked(games[i], side, hero))
  }

  /** A pick removed takes with it the side's bans of its hero, and blanks it where the side fielded it. */
  function WithoutPick(f: Form, side: nat, index: nat): Form
    requires side < |f.sides|
  {
    var s := f.sides[side];
    if index >= |s.arsenal| then f
    else
      var hero, left := s.arsenal[index], Dropped(s.arsenal, index);
      if hero == UNSET then f.(sides := f.sides[side := SideForm(left, s.bans)])
      else
        var kept := SideForm(left, KeepBans(s.bans, hero));
        f.(sides := f.sides[side := kept], games := BlankedAll(f.games, side, hero))
  }

  /** Moves an unsided ban to a side, whose arsenal then has its hero. */
  function BanAssigned(f: Form, index: nat, side: nat): Form
    requires index < |f.unassigned| && side < |f.sides|
  {
    var ban, s := f.unassigned[index], f.sides[side];
    var arsenal := if ban.hero != UNSET && ban.hero !in s.arsenal then s.arsenal + [ban.hero] else s.arsenal;
    f.(unassigned := Dropped(f.unassigned, index), sides := f.sides[side := SideForm(arsenal, s.bans + [ban])])
  }

  function Won(plays: seq<P.PlayInput>, winner: nat): seq<P.PlayInput> {
    seq(|plays|, i requires 0 <= i < |plays| => plays[i].(isWinner := i == winner))
  }

  function WinnerSet(f: Form, game: nat, winner: nat): Form
    requires game < |f.games|
  {
    f.(games := f.games[game := f.games[game].(participants := Won(f.games[game].participants, winner))])
  }

  class MatchForm {
    var link: string
    var sides: seq<SideForm>
    var games: seq<P.GameInput>
    var preBans: seq<int>
    var unassigned: seq<SidedBan>

    constructor (f: Form)
      ensures View() == f
    {
      link, sides, games, preBans, unassigned := f.link, f.sides, f.games, f.preBans, f.unassigned;
    }

    function View(): Form
      reads this
    {
      Form(link, sides, games, preBans, unassigned)
    }

    /** Takes a game out and numbers what is left from one again. */
    method RemoveGame(index: nat)
      modifies this`games
      ensures View() == WithoutGame(old(View()), index)
    {
      if index < |games| {
        games := games[..index] + games[index + 1..];
      }
      ghost var left := games;
      for i := 0 to |games|
        invariant |games| == |left|
        invariant forall k :: 0 <= k < |left| ==> games[k] == if k < i then left[k].(number := k + 1) else left[k]
      {
        games := games[i := games[i].(number := i + 1)];
      }
      assert games == Renumbered(left);
    }

    method RemoveDraftPick(side: nat, index: nat)
      requires side < |sides|
      modifies this`sides, this`games
      ensures View() == WithoutPick(old(View()), side, index)
    {
      var s := sides[side];
      if index >= |s.arsenal| { return; }
      var hero := s.arsenal[index];
      sides := sides[side := SideForm(Dropped(s.arsenal, index), s.bans)];
      if hero == UNSET { return; }
      sides := sides[side := SideForm(Dropped(s.arsenal, index), KeepBans(s.bans, hero))];
      ghost var before, kept := games, sides;
      for i := 0 to |games|
        invariant sides == kept && |games| == |before|
        invariant forall k :: 0 <= k < |before| ==>
                    games[k] == if k < i then Blanked(before[k], side, hero) else before[k]
      {
        games := games[i := Blanked(games[i], side, hero)];
      }
      assert games == BlankedAll(before, side, hero);
      assert sides == old(sides)[side := SideForm(Dropped(s.arsenal, index), KeepBans(s.bans, hero))];
    }

    method AssignBanToSide(index: nat, side: nat)
      requires index < |unassigned| && side < |sides|
      modifies this`unassigned, this`sides
      ensures View() == BanAssigned(old(View()), index, side)
    {
      var ban := unassigned[index];
      unassigned := Dropped(unassigned, index);
      sides := sides[side := SideForm(sides[side].arsenal, sides[side].bans + [ban])];
      if ban.hero != UNSET && ban.hero !in sides[side].arsenal {
        sides := sides[side := SideForm(sides[side].arsenal + [ban.hero], sides[side].bans)];
      }
    }

    /** One participant becomes the winner of a game, and no other is. */
    method SetWinner(game: nat, winner: nat)
      requires game < |games|
      modifies this`games
      ensures View() == WinnerSet(old(View()), game, winner)
    {
      var plays := games[game].participants;
      ghost var before := plays;
      for i := 0 to |plays|
        invariant |plays| == |before|
        invariant forall k :: 0 <= k < |before| ==>
                    plays[k] == if k < i then before[k].(isWinner := k == winner) else before[k]
      {
        plays := plays[i := plays[i].(isWinner := i == winner)];
      }
      assert plays == Won(before, winner);
      games := games[game := games[game].(participants := plays)];
    }
  }

  // ---------------------------------------------------------------- what the edits keep

  /** Two sides, two participants a game, games numbered densely from one. */
  ghost predicate Structural(f: Form) {
    && |f.sides| == 2
    && forall i :: 0 <= i < |f.games| ==> f.games[i].number == i + 1 && |f.games[i].participants| == 2
  }

  /** What a side bans or fields, blanks aside, is on its arsenal. */
  ghost predicate Owned(f: Form, side: nat)
    requires side < |f.sides|
  {
    && (forall b :: b in f.sides[side].bans && b.hero != UNSET ==> b.hero in f.sides[side].arsenal)
    && forall h :: h in FieldedIn(f.games, side) ==> h in f.sides[side].arsenal
  }

  ghost predicate Sound(f: Form) {
    Structural(f) && Owned(f, 0) && Owned(f, 1)
  }

  lemma {:induction false} KeepBansMembers(bans: seq<SidedBan>, hero: int)
    ensures forall b :: b in KeepBans(bans, hero) <==> b in bans && b.hero != hero
  {
    if bans != [] {
      KeepBansMembers(bans[..|bans| - 1], hero);
    }
  }

  /** The other games stay, in order, and are all that is left. */
  lemma RemoveGameIsSound(f: Form, index: nat)
    requires Sound(f)
    ensures Sound(WithoutGame(f, index))
    ensures index < |f.games| ==> |WithoutGame(f, index).games| == |f.games| - 1
    ensures forall i :: 0 <= i < |WithoutGame(f, index).games| ==>
              var was := f.games[if i < index then i else i + 1];
              WithoutGame(f, index).games[i] == was.(number := i + 1)
  {
    var left, after := Dropped(f.games, index), WithoutGame(f, index);
    forall i | 0 <= i < |left| ensures |left[i].participants| == 2 {
      assert left[i] in f.games;
    }
    forall side, h | 0 <= side < 2 && h in FieldedIn(after.games, side) ensures h in FieldedIn(f.games, side) {
      var g :| g in after.games && side < |g.participants| && g.participants[side].hero == h;
      var i :| 0 <= i < |left| && after.games[i] == g;
      assert left[i] in f.games && left[i].participants == g.participants;
    }
  }

  /** Taking a hero off an arsenal leaves it neither banned nor fielded there. */
  lemma PickLeavesNoTrace(f: Form, side: nat, index: nat)
    requires side < |f.sides| && index < |f.sides[side].arsenal| && f.sides[side].arsenal[index] != UNSET
    ensures var hero, after := f.sides[side].arsenal[index], WithoutPick(f, side, index);
      && (forall b :: b in after.sides[side].bans <==> b in f.sides[side].bans && b.hero != hero)
      && (forall h :: h in FieldedIn(after.games, side) <==> h in FieldedIn(f.games, side) && h != hero)
      && (forall other: nat :: other != side ==> FieldedIn(after.games, other) == FieldedIn(f.games, other))
  {
    var hero, after := f.sides[side].arsenal[index], WithoutPick(f, side, index);
    KeepBansMembers(f.sides[side].bans, hero);
    forall h ensures h in FieldedIn(after.games, side) <==> h in FieldedIn(f.games, side) && h != hero {
      BlankedFielding(f.games, side, hero, h);
    }
    forall other: nat | other != side ensures FieldedIn(after.games, other) == FieldedIn(f.games, other) {
      BlankedElsewhere(f.games, side, hero, other);
    }
  }

  ghost predicate SameButHero(p: P.PlayInput, q: P.PlayInput) {
    p.health == q.health && p.isWinner == q.isWinner && p.stats == q.stats
  }

  /**
  And nothing else changes: the arsenal keeps its other picks in order, the other side and the
  pre-bans are as they were, and games keep their numbers, boards, healths, winners and stats, and
  every hero but the one taken off, fielded by the side it was taken from.
  */
  lemma PickTouchesNothingElse(f: Form, side: nat, index: nat)
    requires side < |f.sides| && index < |f.sides[side].arsenal|
    ensures var s, after := f.sides[side], WithoutPick(f, side, index);
      && (var left := after.sides[side].arsenal; left == s.arsenal[..index] + s.arsenal[index + 1..])
      && (forall b :: b in s.bans && b.hero != s.arsenal[index] ==>
            multiset(after.sides[side].bans)[b] == multiset(s.bans)[b])
      && |after.sides| == |f.sides| && |after.games| == |f.games|
      && (forall i :: 0 <= i < |f.sides| && i != side ==> after.sides[i] == f.sides[i])
      && after.link == f.link && after.preBans == f.preBans && after.unassigned == f.unassigned
      && (forall i :: 0 <= i < |f.games| ==>
            after.games[i].number == f.games[i].number && after.games[i].board == f.games[i].board
            && |after.games[i].participants| == |f.games[i].participants|)
      && (forall i, k :: 0 <= i < |f.games| && 0 <= k < |f.games[i].participants| ==>
            var p, was := after.games[i].participants[k], f.games[i].participants[k];
            SameButHero(p, was) && (p.hero != was.hero ==> k == side && was.hero == s.arsenal[index] != UNSET))
  {
    var s := f.sides[side];
    forall b | b in s.bans && b.hero != s.arsenal[index]
      ensures multiset(KeepBans(s.bans, s.arsenal[index]))[b] == multiset(s.bans)[b]
    {
      KeepBansCount(s.bans, s.arsenal[index], b);
    }
  }

  lemma {:induction false} KeepBansCount(bans: seq<SidedBan>, hero: int, b: SidedBan)
    requires b.hero != hero
    ensures multiset(KeepBans(bans, hero))[b] == multiset(bans)[b]
  {
    if bans != [] {
      KeepBansCount(bans[..|bans| - 1], hero, b);
      WithoutLast(bans);
    }
  }

  lemma BlankedFielding(games: seq<P.GameInput>, side: nat, hero: int, h: int)
    requires hero != UNSET
    ensures h in FieldedIn(BlankedAll(games, side, hero), side) <==> h in FieldedIn(games, side) && h != hero
  {
    var after := BlankedAll(games, side, hero);
    if h in FieldedIn(after, side) {
      var g :| g in after && side < |g.participants| && g.participants[side].hero == h;
      var i :| 0 <= i < |games| && after[i] == g;
      assert games[i] in games;
    }
    if h in FieldedIn(games, side) && h != hero {
      var g :| g in games && side < |g.participants| && g.participants[side].hero == h;
      var i :| 0 <= i < |games| && games[i] == g;
      assert after[i] == g && after[i] in after;
    }
  }

  lemma {:induction false} BlankedElsewhere(games: seq<P.GameInput>, side: nat, hero: int, other: nat)
    requires other != side
    ensures FieldedIn(BlankedAll(games, side, hero), other) == FieldedIn(games, other)
  {
    if games != [] {
      var init := games[..|games| - 1];
      BlankedElsewhere(init, side, hero, other);
      assert BlankedAll(games, side, hero)[..|games| - 1] == BlankedAll(init, side, hero);
    }
  }

  lemma RemoveDraftPickIsSound(f: Form, side: nat, index: nat)
    requires Sound(f) && side < 2
    ensures Sound(WithoutPick(f, side, index))
  {
    var s := f.sides[side];
    if index < |s.arsenal| {
      if s.arsenal[index] != UNSET {
        PickLeavesNoTrace(f, side, index);
      }
    }
  }

  lemma AssignBanIsSound(f: Form, index: nat, side: nat)
    requires Sound(f) && index < |f.unassigned| && side < 2
    ensures Sound(BanAssigned(f, index, side))
    ensures |BanAssigned(f, index, side).unassigned| == |f.unassigned| - 1
    ensures var ban, s := f.unassigned[index], BanAssigned(f, index, side).sides[side];
      ban in s.bans && (ban.hero != UNSET ==> ban.hero in s.arsenal) && f.sides[side].arsenal <= s.arsenal
  {
  }

  /** The winner set is the game's only one, and nothing about who played changes. */
  lemma SetWinnerIsSound(f: Form, game: nat, winner: nat)
    requires Sound(f) && game < |f.games| && winner < 2
    ensures Sound(WinnerSet(f, game, winner))
    ensures P.SoleWinner(WinnerSet(f, game, winner).games[game].participants, winner)
    ensures forall i :: 0 <= i < 2 ==>
              WinnerSet(f, game, winner).games[game].participants[i].hero == f.games[game].participants[i].hero
  {
    var after := WinnerSet(f, game, winner);
    assert P.SoleWinner(after.games[game].participants, winner);
    forall side, h | 0 <= side < 2 && h in FieldedIn(after.games, side) ensures h in FieldedIn(f.games, side) {
      var g :| g in after.games && side < |g.participants| && g.participants[side].hero == h;
      var i :| 0 <= i < |f.games| && after.games[i] == g;
      assert f.games[i] in f.games && f.games[i].participants[side].hero == h;
    }
  }

  /** Removing a game leaves sides, bans and link alone, and past the last game it removes nothing. */
  lemma RemoveGameTouchesNothingElse(f: Form, index: nat)
    requires Structural(f)
    ensures WithoutGame(f, index).(games := f.games) == f
    ensures index >= |f.games| ==> WithoutGame(f, index) == f
  {
    if index >= |f.games| {
      assert Renumbered(f.games) == f.games;
    }
  }

  /** Setting a winner leaves the other games, and everything about this one but who won it, alone. */
  lemma SetWinnerTouchesNothingElse(f: Form, game: nat, winner: nat)
    requires game < |f.games|
    ensures var after := WinnerSet(f, game, winner);
      && after.(games := f.games) == f && |after.games| == |f.games|
      && (forall i :: 0 <= i < |f.games| && i != game ==> after.games[i] == f.games[i])
      && after.games[game].(participants := f.games[game].participants) == f.games[game]
      && |after.games[game].participants| == |f.games[game].participants|
      && forall k :: 0 <= k < |f.games[game].participants| ==>
           var p, was := after.games[game].participants[k], f.games[game].participants[k];
           p.(isWinner := was.isWinner) == was
  {
  }

  /** Assigning a ban leaves the other side, the games and the bans still unassigned alone, in their order. */
  lemma AssignBanTouchesNothingElse(f: Form, index: nat, side: nat)
    requires index < |f.unassigned| && side < |f.sides|
    ensures var after, ban := BanAssigned(f, index, side), f.unassigned[index];
      && after.unassigned == f.unassigned[..index] + f.unassigned[index + 1..]
      && after.(sides := f.sides, unassigned := f.unassigned) == f && |after.sides| == |f.sides|
      && (forall i :: 0 <= i < |f.sides| && i != side ==> after.sides[i] == f.sides[i])
      && after.sides[side].bans == f.sides[side].bans + [ban]
      && (ban.hero in f.sides[side].arsenal ==> after.sides[side].arsenal == f.sides[side].arsenal)
      && (ban.hero !in f.sides[side].arsenal && ban.hero != UNSET ==>
            after.sides[side].arsenal == f.sides[side].arsenal + [ban.hero])
      && (ban.hero == UNSET ==> after.sides[side].arsenal == f.sides[side].arsenal)
  {
  }
}
