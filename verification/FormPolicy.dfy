/** What the form checks for itself, and what that leaves for the server's policy to refuse. */
module FormPolicy {
  import opened Options
  import opened Distinctness
  import opened StatNames
  import opened MatchForms
  import P = MatchPolicy

  datatype Issue =
    | LinkMissing
    | BanUnassigned
    | DraftBlank(side: nat)
    | DraftRepeats(side: nat)
    | BanBlank(side: nat)
    | PreBanBlank
    | BannedTwice
    | PreBannedDrafted
    | NoGames
    | BoardBlank
    | HeroBlank
    | FieldsStray(side: nat)
    | NotOneWinner
    | LoserSurvives

  predicate HasBlank(heroes: seq<int>) { UNSET in heroes }

  predicate Repeats(heroes: seq<int>) {
    exists i, j | 0 <= i < j < |heroes| :: heroes[i] == heroes[j]
  }

  /** A hero struck twice, blanks aside. */
  predicate StruckTwice(heroes: seq<int>) {
    exists i, j | 0 <= i < j < |heroes| :: heroes[i] == heroes[j] && heroes[j] != UNSET
  }

  function SideStruck(sides: seq<SideForm>): seq<int> {
    if sides == [] then [] else SideStruck(sides[..|sides| - 1]) + Struck(sides[|sides| - 1].bans)
  }

  function AllStruck(f: Form): seq<int> { SideStruck(f.sides) + f.preBans }

  predicate OnADraft(f: Form, hero: int) { exists s :: s in f.sides && hero in s.arsenal }

  predicate BlankHero(g: P.GameInput) { exists p :: p in g.participants && p.hero == UNSET }

  predicate HasStray(f: Form, heroPool: seq<int>, side: nat)
    requires side < |f.sides|
  {
    exists h :: h in FieldedIn(f.games, side) && h !in FieldableHeroes(f, heroPool, side)
  }

  function SideIssue(s: SideForm, side: nat): Option<Issue> {
    if HasBlank(s.arsenal) then Some(DraftBlank(side))
    else if Repeats(s.arsenal) then Some(DraftRepeats(side))
    else if HasBlank(Struck(s.bans)) then Some(BanBlank(side))
    else None
  }

  /** The first side, in order, that has an issue of its own. */
  function SidesIssue(sides: seq<SideForm>): Option<Issue> {
    if sides == [] then None
    else
      var before := SidesIssue(sides[..|sides| - 1]);
      if before.Some? then before else SideIssue(sides[|sides| - 1], |sides| - 1)
  }

  function StrayIssue(f: Form, heroPool: seq<int>, upTo: nat): Option<Issue>
    requires upTo <= |f.sides|
  {
    if upTo == 0 then None
    else
      var before := StrayIssue(f, heroPool, upTo - 1);
      if before.Some? then before
      else if HasStray(f, heroPool, upTo - 1) then Some(FieldsStray(upTo - 1)) else None
  }

  function GameIssue(games: seq<P.GameInput>): Option<Issue> {
    if exists g :: g in games && P.Winners(g.participants) != 1 then Some(NotOneWinner)
    else if exists g :: g in games && P.LoserSurvives(g) then Some(LoserSurvives)
    else None
  }

  function BlankIssue(games: seq<P.GameInput>): Option<Issue> {
    if games == [] then Some(NoGames)
    else if exists g :: g in games && g.board == UNSET then Some(BoardBlank)
    else if exists g :: g in games && BlankHero(g) then Some(HeroBlank)
    else None
  }

  function BanIssue(f: Form): Option<Issue> {
    if HasBlank(f.preBans) then Some(PreBanBlank)
    else if StruckTwice(AllStruck(f)) then Some(BannedTwice)
    else if exists h :: h in f.preBans && h != UNSET && OnADraft(f, h) then Some(PreBannedDrafted)
    else None
  }

  function Or(first: Option<Issue>, second: Option<Issue>): Option<Issue> { if first.Some? then first else second }

  /** The message the form shows: the first thing wrong, in the order things are looked at. */
  function FirstIssue(f: Form, heroPool: seq<int>): Option<Issue> {
    if TrimEnd(TrimStart(f.link)) == [] then Some(LinkMissing)
    else if f.unassigned != [] then Some(BanUnassigned)
    else Or(SidesIssue(f.sides), Or(BanIssue(f), Or(BlankIssue(f.games),
            Or(StrayIssue(f, heroPool, |f.sides|), GameIssue(f.games)))))
  }

  /** A draft scanned for a hero already seen. */
  method FindsRepeat(heroes: seq<int>) returns (found: bool)
    ensures found == Repeats(heroes)
  {
    var seen: set<int> := {};
    for i := 0 to |heroes|
      invariant seen == set k | 0 <= k < i :: heroes[k]
      invariant !Repeats(heroes[..i])
    {
      if heroes[i] in seen {
        return true;
      }
      assert forall k :: 0 <= k < i ==> heroes[..i + 1][k] == heroes[..i][k];
      seen := seen + {heroes[i]};
    }
    assert heroes[..|heroes|] == heroes;
    return false;
  }

  method ValidateSides(sides: seq<SideForm>) returns (issue: Option<Issue>)
    ensures issue == SidesIssue(sides)
  {
    for i := 0 to |sides|
      invariant SidesIssue(sides[..i]).None?
    {
      assert sides[..i + 1][..i] == sides[..i];
      var repeats := FindsRepeat(sides[i].arsenal);
      var here := if HasBlank(sides[i].arsenal) then Some(DraftBlank(i))
                  else if repeats then Some(DraftRepeats(i))
                  else if HasBlank(Struck(sides[i].bans)) then Some(BanBlank(i))
                  else None;
      if here.Some? {
        FirstSideStands(sides, i + 1);
        return here;
      }
    }
    assert sides[..|sides|] == sides;
    return None;
  }

  lemma {:induction false} FirstSideStands(sides: seq<SideForm>, n: nat)
    requires n <= |sides| && SidesIssue(sides[..n]).Some?
    ensures SidesIssue(sides) == SidesIssue(sides[..n])
    decreases |sides| - n
  {
    if n < |sides| {
      assert sides[..n + 1][..n] == sides[..n];
      FirstSideStands(sides, n + 1);
    } else {
      assert sides[..n] == sides;
    }
  }

  lemma {:induction false} FirstStrayStands(f: Form, heroPool: seq<int>, n: nat, m: nat)
    requires n <= m <= |f.sides| && StrayIssue(f, heroPool, n).Some?
    ensures StrayIssue(f, heroPool, m) == StrayIssue(f, heroPool, n)
  {
    if n < m {
      FirstStrayStands(f, heroPool, n, m - 1);
    }
  }

  method ValidateStrays(f: Form, heroPool: seq<int>) returns (issue: Option<Issue>)
    ensures issue == StrayIssue(f, heroPool, |f.sides|)
  {
    for side := 0 to |f.sides|
      invariant StrayIssue(f, heroPool, side).None?
    {
      if HasStray(f, heroPool, side) {
        FirstStrayStands(f, heroPool, side + 1, |f.sides|);
        return Some(FieldsStray(side));
      }
    }
    return None;
  }

  method Validate(f: Form, heroPool: seq<int>) returns (issue: Option<Issue>)
    ensures issue == FirstIssue(f, heroPool)
  {
    if TrimEnd(TrimStart(f.link)) == [] { return Some(LinkMissing); }
    if f.unassigned != [] { return Some(BanUnassigned); }
    issue := ValidateSides(f.sides);
    if issue.Some? { return; }
    issue := BanIssue(f);
    if issue.Some? { return; }
    issue := BlankIssue(f.games);
    if issue.Some? { return; }
    issue := ValidateStrays(f, heroPool);
    if issue.Some? { return; }
    issue := GameIssue(f.games);
  }

  // ---------------------------------------------------------------- what no issue means

  ghost predicate SideClean(s: SideForm) {
    UNSET !in s.arsenal && Distinct(s.arsenal) && UNSET !in Struck(s.bans)
  }

  ghost predicate SidesClean(sides: seq<SideForm>) {
    forall i :: 0 <= i < |sides| ==> SideClean(sides[i])
  }

  /** No hero struck twice, and no pre-ban on a draft. */
  ghost predicate BansClean(f: Form) {
    && UNSET !in f.preBans && Distinct(AllStruck(f))
    && forall h :: h in f.preBans ==> !OnADraft(f, h)
  }

  ghost predicate Filled(games: seq<P.GameInput>) {
    games != [] && forall g :: g in games ==> g.board != UNSET && !BlankHero(g)
  }

  ghost predicate FieldsItsOwn(f: Form, heroPool: seq<int>, side: nat)
    requires side < |f.sides|
  {
    forall h :: h in FieldedIn(f.games, side) ==> h in heroPool && IsFieldable(f, side, h)
  }

  ghost predicate AllDecided(games: seq<P.GameInput>) {
    forall g :: g in games ==> P.OneWinner(g) && !P.LoserSurvives(g)
  }

  /** Nothing for the form to object to. */
  ghost predicate Clean(f: Form, heroPool: seq<int>) {
    && TrimEnd(TrimStart(f.link)) != [] && f.unassigned == []
    && SidesClean(f.sides) && BansClean(f) && Filled(f.games)
    && (forall i :: 0 <= i < |f.sides| ==> FieldsItsOwn(f, heroPool, i))
    && AllDecided(f.games)
  }

  lemma {:induction false} NoSideIssue(sides: seq<SideForm>)
    ensures SidesIssue(sides).None? <==> SidesClean(sides)
  {
    if sides != [] {
      var n := |sides| - 1;
      NoSideIssue(sides[..n]);
      assert SideIssue(sides[n], n).None? <==> SideClean(sides[n]);
      assert forall i :: 0 <= i < n ==> sides[..n][i] == sides[i];
      hide SideClean, SideIssue;
    }
  }

  lemma {:induction false} NoStray(f: Form, heroPool: seq<int>, upTo: nat)
    requires upTo <= |f.sides|
    ensures StrayIssue(f, heroPool, upTo).None? <==> forall i :: 0 <= i < upTo ==> FieldsItsOwn(f, heroPool, i)
  {
    if upTo > 0 {
      NoStray(f, heroPool, upTo - 1);
      assert HasStray(f, heroPool, upTo - 1) <==> !FieldsItsOwn(f, heroPool, upTo - 1);
      hide FieldsItsOwn, HasStray;
    }
  }

  lemma {:induction false} SideStruckHas(sides: seq<SideForm>, i: nat, hero: int)
    requires i < |sides| && hero in Struck(sides[i].bans)
    ensures hero in SideStruck(sides)
  {
    if i < |sides| - 1 {
      SideStruckHas(sides[..|sides| - 1], i, hero);
    }
  }

  lemma {:induction false} StruckOnASide(sides: seq<SideForm>, hero: int)
    requires hero in SideStruck(sides)
    ensures exists i :: 0 <= i < |sides| && hero in Struck(sides[i].bans)
  {
    var n := |sides| - 1;
    if hero in Struck(sides[n].bans) {
    } else {
      StruckOnASide(sides[..n], hero);
      var i :| 0 <= i < n && hero in Struck(sides[..n][i].bans);
      assert sides[..n][i] == sides[i];
    }
  }

  /** Once the blanks are ruled out, a repeat among the bans is a hero struck twice. */
  lemma BansRepeat(f: Form)
    requires SidesClean(f.sides) && UNSET !in f.preBans
    ensures StruckTwice(AllStruck(f)) <==> !Distinct(AllStruck(f))
  {
    if UNSET in SideStruck(f.sides) {
      StruckOnASide(f.sides, UNSET);
    }
    assert forall j :: 0 <= j < |AllStruck(f)| ==> AllStruck(f)[j] != UNSET;
    hide AllStruck, SideClean;
  }

  lemma NoBanIssue(f: Form)
    requires SidesClean(f.sides)
    ensures BanIssue(f).None? <==> BansClean(f)
  {
    if UNSET !in f.preBans {
      BansRepeat(f);
    }
    hide StruckTwice, AllStruck, Distinct, OnADraft;
  }

  lemma NoGameIssue(games: seq<P.GameInput>)
    ensures GameIssue(games).None? <==> AllDecided(games)
  {
    forall g: P.GameInput ensures P.Winners(g.participants) == 1 <==> P.OneWinner(g) {
      P.WinnersCount(g);
    }
    hide P.OneWinner, P.Winners, P.LoserSurvives;
  }

  /** The form is silent exactly when there is nothing to say. */
  lemma SilentMeansClean(f: Form, heroPool: seq<int>)
    ensures FirstIssue(f, heroPool).None? <==> Clean(f, heroPool)
  {
    NoSideIssue(f.sides);
    NoStray(f, heroPool, |f.sides|);
    NoGameIssue(f.games);
    if SidesClean(f.sides) {
      NoBanIssue(f);
    }
    assert BlankIssue(f.games).None? <==> Filled(f.games);
    hide SidesIssue, SidesClean, BanIssue, BansClean, BlankIssue, Filled, StrayIssue, FieldsItsOwn, GameIssue;
    hide AllDecided, TrimEnd, TrimStart;
  }
}
