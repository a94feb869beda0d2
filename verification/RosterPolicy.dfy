/** The rules a roster must satisfy to be drafted, locked or exchanged between rounds. */
module RosterPolicy {

  datatype TournamentStatus = Scheduled | RegistrationOpen | Live | Completed

  datatype Tournament = Tournament(
    status: TournamentStatus,
    rosterSize: int,
    currentRound: int,
    swapsPerRound: int,
    swapWindowOpen: bool)
  {
    predicate AcceptsRosterChanges() { status.Scheduled? || status.RegistrationOpen? }

    predicate AcceptsSwaps() { swapWindowOpen && !status.Completed? }
  }

  datatype EntryStatus = Draft | Locked

  datatype Pick = Pick(hero: int, cost: int)

  datatype RosterRule =
    | EntryLocked
    | TournamentClosed
    | TooManyPicks
    | IncompleteRoster
    | DuplicateHero
    | BudgetExceeded
    | SwapWindowClosed
    | SwapLimitExceeded
    | AlreadySwappedThisRound

  const I32_MAX: int := 0x7fff_ffff

  function Spent(picks: seq<Pick>): int {
    if picks == [] then 0 else Spent(picks[..|picks| - 1]) + picks[|picks| - 1].cost
  }

  ghost predicate NoHeroTwice(picks: seq<Pick>) {
    forall i, j :: 0 <= i < j < |picks| ==> picks[i].hero != picks[j].hero
  }

  /** `saturating_mul` on 32-bit integers. */
  function SaturatingMul(a: int, b: int): int {
    if a * b > I32_MAX then I32_MAX else if a * b < -I32_MAX - 1 then -I32_MAX - 1 else a * b
  }

  function Max(a: int, b: int): int { if a < b then b else a }

  /** One window a round after the first, each worth the same; what is not spent carries over. */
  function SwapAllowance(swapsPerRound: int, currentRound: int, used: int): int {
    Max(SaturatingMul(swapsPerRound, Max(currentRound - 1, 0)) - used, 0)
  }

  /** The heroes of `from` that `other` lacks, in order. */
  function Missing(from: seq<int>, other: seq<int>): (r: seq<int>)
    ensures forall h :: h in r <==> h in from && h !in other
    ensures |r| <= |from|
  {
    if from == [] then []
    else
      var rest := Missing(from[..|from| - 1], other);
      if from[|from| - 1] in other then rest else rest + [from[|from| - 1]]
  }

  function Heroes(picks: seq<Pick>): seq<int> {
    seq(|picks|, i requires 0 <= i < |picks| => picks[i].hero)
  }

  // ---------------------------------------------------------------- the rules, stated

  ghost predicate DraftBreaks(rule: RosterRule, picks: seq<Pick>, t: Tournament, status: EntryStatus) {
    match rule
    case EntryLocked => status.Locked?
    case TournamentClosed => !t.AcceptsRosterChanges()
    case TooManyPicks => |picks| > t.rosterSize
    case DuplicateHero => !NoHeroTwice(picks)
    case _ => false
  }

  ghost predicate LockBreaks(rule: RosterRule, picks: seq<Pick>, t: Tournament, status: EntryStatus, grant: int) {
    match rule
    case IncompleteRoster => |picks| < t.rosterSize
    case BudgetExceeded => Spent(picks) > grant
    case _ => DraftBreaks(rule, picks, t, status)
  }

  ghost predicate SwapBreaks(
    rule: RosterRule, held: seq<int>, proposed: seq<Pick>, t: Tournament, status: EntryStatus, grant: int,
    used: int, already: bool)
  {
    match rule
    case SwapWindowClosed => !t.AcceptsSwaps() || !status.Locked?
    case AlreadySwappedThisRound => already
    case TooManyPicks => |proposed| > t.rosterSize
    case IncompleteRoster => |proposed| < t.rosterSize
    case DuplicateHero => !NoHeroTwice(proposed)
    case SwapLimitExceeded =>
      |Missing(Heroes(proposed), held)| > SwapAllowance(t.swapsPerRound, t.currentRound, used)
    case BudgetExceeded => Spent(proposed) > grant
    case _ => false
  }

  ghost predicate DraftAllowed(picks: seq<Pick>, t: Tournament, status: EntryStatus) {
    forall rule :: !DraftBreaks(rule, picks, t, status)
  }

  ghost predicate LockAllowed(picks: seq<Pick>, t: Tournament, status: EntryStatus, grant: int) {
    forall rule :: !LockBreaks(rule, picks, t, status, grant)
  }

  ghost predicate SwapAllowed(
    held: seq<int>, proposed: seq<Pick>, t: Tournament, status: EntryStatus, grant: int, used: int, already: bool)
  {
    forall rule :: !SwapBreaks(rule, held, proposed, t, status, grant, used, already)
  }

  // ---------------------------------------------------------------- the validators

  method TotalCost(picks: seq<Pick>) returns (spent: int)
    ensures spent == Spent(picks)
  {
    spent := 0;
    for i := 0 to |picks|
      invariant spent == Spent(picks[..i])
    {
      assert picks[..i + 1][..i] == picks[..i];
      spent := spent + picks[i].cost;
    }
    assert picks[..|picks|] == picks;
  }

  /** Pushes a rule when it is broken. */
  function Reported(violations: seq<RosterRule>, broken: bool, rule: RosterRule): (r: seq<RosterRule>)
    ensures forall other :: other in r <==> other in violations || (broken && other == rule)
  {
    if broken then violations + [rule] else violations
  }

  /** Counts each hero and looks for one counted more than once. */
  method HasDuplicate(picks: seq<Pick>) returns (duplicate: bool)
    ensures duplicate <==> !NoHeroTwice(picks)
  {
    var counts: map<int, nat> := map[];
    for i := 0 to |picks|
      invariant forall h :: h in counts <==> exists k :: 0 <= k < i && picks[k].hero == h
      invariant forall h :: h in counts ==> counts[h] >= 1
      invariant (exists h :: h in counts && counts[h] > 1) <==> !NoHeroTwice(picks[..i])
    {
      var hero := picks[i].hero;
      assert forall k :: 0 <= k < i ==> picks[..i + 1][k] == picks[..i][k];
      if hero in counts {
        var k :| 0 <= k < i && picks[k].hero == hero;
        assert picks[..i + 1][k].hero == picks[..i + 1][i].hero;
        assert counts[hero := counts[hero] + 1][hero] > 1;
        counts := counts[hero := counts[hero] + 1];
      } else {
        ghost var before := counts;
        counts := counts[hero := 1];
        if h :| h in before && before[h] > 1 {
          assert counts[h] > 1;
          var x, y :| 0 <= x < y < i && picks[..i][x].hero == picks[..i][y].hero;
          assert picks[..i + 1][x].hero == picks[..i + 1][y].hero;
        } else {
          assert NoHeroTwice(picks[..i]);
        }
      }
    }
    assert picks[..|picks|] == picks;
    duplicate := exists h :: h in counts && counts[h] > 1;
  }

  /** Every broken rule is reported, and nothing else is. */
  method ValidateDraft(picks: seq<Pick>, t: Tournament, status: EntryStatus) returns (violations: seq<RosterRule>)
    ensures forall rule :: rule in violations <==> DraftBreaks(rule, picks, t, status)
    ensures violations == [] <==> DraftAllowed(picks, t, status)
  {
    violations := [];
    violations := Reported(violations, status == Locked, EntryLocked);
    violations := Reported(violations, !t.AcceptsRosterChanges(), TournamentClosed);
    violations := Reported(violations, |picks| > t.rosterSize, TooManyPicks);
    var duplicate := HasDuplicate(picks);
    violations := Reported(violations, duplicate, DuplicateHero);
    assert violations != [] ==> violations[0] in violations;
  }

  method ValidateLock(picks: seq<Pick>, t: Tournament, status: EntryStatus, grant: int)
    returns (violations: seq<RosterRule>)
    requires grant > 0
    ensures forall rule :: rule in violations <==> LockBreaks(rule, picks, t, status, grant)
    ensures violations == [] <==> LockAllowed(picks, t, status, grant)
  {
    violations := ValidateDraft(picks, t, status);
    violations := Reported(violations, |picks| < t.rosterSize, IncompleteRoster);
    var spent := TotalCost(picks);
    violations := Reported(violations, spent > grant, BudgetExceeded);
    assert violations != [] ==> violations[0] in violations;
  }

  method ValidateSwap(
      held: seq<int>, proposed: seq<Pick>, t: Tournament, status: EntryStatus, grant: int, used: int, already: bool)
    returns (violations: seq<RosterRule>)
    requires grant > 0
    ensures forall rule :: rule in violations <==> SwapBreaks(rule, held, proposed, t, status, grant, used, already)
    ensures violations == [] <==> SwapAllowed(held, proposed, t, status, grant, used, already)
  {
    hide NoHeroTwice, Spent, Missing, SwapAllowance, Reported;
    violations := [];
    violations := Reported(violations, !t.AcceptsSwaps(), SwapWindowClosed);
    violations := Reported(violations, status != Locked, SwapWindowClosed);
    violations := Reported(violations, already, AlreadySwappedThisRound);
    violations := Reported(violations, |proposed| > t.rosterSize, TooManyPicks);
    violations := Reported(violations, |proposed| < t.rosterSize, IncompleteRoster);
    var duplicate := HasDuplicate(proposed);
    violations := Reported(violations, duplicate, DuplicateHero);
    var requested := |Missing(Heroes(proposed), held)|;
    var available := SwapAllowance(t.swapsPerRound, t.currentRound, used);
    violations := Reported(violations, requested > available, SwapLimitExceeded);
    var spent := TotalCost(proposed);
    violations := Reported(violations, spent > grant, BudgetExceeded);
    assert violations != [] ==> violations[0] in violations;
  }
}
