/** What an accepted draft, lock or swap comes to, and that swaps not made in one window can be made later. */
module RosterAcceptance {
  import opened Sums
  import opened Distinctness
  import opened RosterPolicy
  import opened Exchange
  import Holdings
  import opened RosterMachine

  function Costs(): Pick -> int { (p: Pick) => p.cost }

  lemma {:induction false} SpentIsTheCosts(picks: seq<Pick>)
    ensures Spent(picks) == Sum(picks, Costs())
  {
    if picks != [] {
      SpentIsTheCosts(picks[..|picks| - 1]);
    }
  }

  /** As many heroes as picks is what it means that none is picked twice. */
  lemma AsManyHeroes(picks: seq<Pick>)
    ensures NoHeroTwice(picks) <==> |Members(Heroes(picks))| == |picks|
  {
    SetSize(Heroes(picks));
    assert NoHeroTwice(picks) ==> Distinct(Heroes(picks));
    if Distinct(Heroes(picks)) {
      forall i, j | 0 <= i < j < |picks| ensures picks[i].hero != picks[j].hero {
        assert Heroes(picks)[i] != Heroes(picks)[j];
      }
    }
  }

  /** A draft may be saved before registration opens or while it is open, with no more heroes than fit. */
  lemma DraftIsAllowed(picks: seq<Pick>, t: Tournament, status: EntryStatus)
    ensures DraftAllowed(picks, t, status)
            <==> status == Draft && t.status in {Scheduled, RegistrationOpen}
                 && |picks| <= t.rosterSize && |Members(Heroes(picks))| == |picks|
  {
    AsManyHeroes(picks);
    hide NoHeroTwice;
    assert DraftAllowed(picks, t, status) ==>
        !DraftBreaks(EntryLocked, picks, t, status) && !DraftBreaks(TournamentClosed, picks, t, status)
        && !DraftBreaks(TooManyPicks, picks, t, status) && !DraftBreaks(DuplicateHero, picks, t, status);
  }

  /** A lock needs the roster full and within the grant as well. */
  lemma LockIsAllowed(picks: seq<Pick>, t: Tournament, status: EntryStatus, grant: int)
    ensures LockAllowed(picks, t, status, grant)
            <==> DraftAllowed(picks, t, status) && |picks| == t.rosterSize && Sum(picks, Costs()) <= grant
  {
    SpentIsTheCosts(picks);
    hide NoHeroTwice, Spent, Sum;
    if LockAllowed(picks, t, status, grant) {
      assert !LockBreaks(IncompleteRoster, picks, t, status, grant);
      assert !LockBreaks(BudgetExceeded, picks, t, status, grant);
      assert !LockBreaks(TooManyPicks, picks, t, status, grant);
      forall rule ensures !DraftBreaks(rule, picks, t, status) {
        assert !LockBreaks(rule, picks, t, status, grant);
      }
    }
    if DraftAllowed(picks, t, status) && |picks| == t.rosterSize && Sum(picks, Costs()) <= grant {
      forall rule ensures !LockBreaks(rule, picks, t, status, grant) {
        assert !DraftBreaks(rule, picks, t, status);
      }
    }
  }

  /** What each draft rule is about; the lock's own two come on top of them. */
  lemma DraftRulesMean(rule: RosterRule, picks: seq<Pick>, t: Tournament, status: EntryStatus, grant: int)
    ensures DraftBreaks(rule, picks, t, status)
            <==> match rule
                 case EntryLocked => status != Draft
                 case TournamentClosed => t.status in {Live, Completed}
                 case TooManyPicks => |picks| > t.rosterSize
                 case DuplicateHero => |Members(Heroes(picks))| < |picks|
                 case _ => false
    ensures LockBreaks(rule, picks, t, status, grant)
            <==> match rule
                 case IncompleteRoster => t.rosterSize - |picks| > 0
                 case BudgetExceeded => grant < Sum(picks, Costs())
                 case _ => DraftBreaks(rule, picks, t, status)
  {
    AsManyHeroes(picks);
    SetSize(Heroes(picks));
    SpentIsTheCosts(picks);
    hide NoHeroTwice, Spent, Sum, Members, Distinct;
  }

  /** What the tournament has offered so far: every window past the first round, used or sat out. */
  function Offered(swapsPerRound: int, currentRound: int): int {
    if currentRound > 1 then swapsPerRound * (currentRound - 1) else 0
  }

  /** The heroes that are new on the proposed roster. */
  function Arrivals(held: seq<int>, proposed: seq<Pick>): nat { |Members(Heroes(proposed)) - Members(held)| }

  lemma ArrivalsAreMissing(held: seq<int>, proposed: seq<Pick>)
    requires Distinct(Heroes(proposed))
    ensures |Missing(Heroes(proposed), held)| == Arrivals(held, proposed)
  {
    MissingIsDistinct(Heroes(proposed), held);
    SetSize(Missing(Heroes(proposed), held));
  }

  /**
  The limit, without the allowance it is computed from: bringing heroes in is too much exactly when
  they and the swaps already logged come to more than every window so far has offered, or than the
  32 bits the offer is counted in.
  */
  lemma LimitIsWhatWasOffered(t: Tournament, used: int, arrivals: nat)
    requires used >= 0
    ensures arrivals > SwapAllowance(t.swapsPerRound, t.currentRound, used)
            <==> arrivals > 0 && (arrivals + used > Offered(t.swapsPerRound, t.currentRound)
                                  || arrivals + used > 0x7fff_ffff)
  {
    assert t.currentRound <= 1 ==> t.swapsPerRound * Max(t.currentRound - 1, 0) == 0;
  }

  /** An accepted swap, rule for rule in the tournament's own terms. */
  lemma SwapIsAllowed(
      held: seq<int>, proposed: seq<Pick>, t: Tournament, status: EntryStatus, grant: int, used: int, already: bool)
    requires used >= 0
    ensures SwapAllowed(held, proposed, t, status, grant, used, already)
            <==> t.swapWindowOpen && t.status != Completed && status == Locked && !already
                 && |proposed| == t.rosterSize && |Members(Heroes(proposed))| == |proposed|
                 && Sum(proposed, Costs()) <= grant
                 && (Arrivals(held, proposed) == 0
                     || (Arrivals(held, proposed) + used <= Offered(t.swapsPerRound, t.currentRound)
                         && Arrivals(held, proposed) + used <= 0x7fff_ffff))
  {
    SpentIsTheCosts(proposed);
    AsManyHeroes(proposed);
    LimitIsWhatWasOffered(t, used, Arrivals(held, proposed));
    if NoHeroTwice(proposed) {
      HeroesAreDistinct(proposed);
      ArrivalsAreMissing(held, proposed);
    }
    RulesOfASwap(held, proposed, t, status, grant, used, already);
    hide SwapAllowed, NoHeroTwice, Spent, Sum, Missing, Arrivals, SwapAllowance, Offered, Members, Heroes, Distinct;
  }

  lemma RulesOfASwap(
      held: seq<int>, proposed: seq<Pick>, t: Tournament, status: EntryStatus, grant: int, used: int, already: bool)
    ensures SwapAllowed(held, proposed, t, status, grant, used, already)
            <==> t.AcceptsSwaps() && status.Locked? && !already && |proposed| == t.rosterSize && NoHeroTwice(proposed)
                 && |Missing(Heroes(proposed), held)| <= SwapAllowance(t.swapsPerRound, t.currentRound, used)
                 && Spent(proposed) <= grant
  {
    hide NoHeroTwice, Spent, Missing, SwapAllowance, Heroes;
    if SwapAllowed(held, proposed, t, status, grant, used, already) {
      assert !SwapBreaks(SwapWindowClosed, held, proposed, t, status, grant, used, already);
      assert !SwapBreaks(AlreadySwappedThisRound, held, proposed, t, status, grant, used, already);
      assert !SwapBreaks(TooManyPicks, held, proposed, t, status, grant, used, already);
      assert !SwapBreaks(IncompleteRoster, held, proposed, t, status, grant, used, already);
      assert !SwapBreaks(DuplicateHero, held, proposed, t, status, grant, used, already);
      assert !SwapBreaks(SwapLimitExceeded, held, proposed, t, status, grant, used, already);
      assert !SwapBreaks(BudgetExceeded, held, proposed, t, status, grant, used, already);
    }
  }

  /** And each rule of a swap, broken by just what it is named for. */
  lemma SwapRulesMean(
      rule: RosterRule, held: seq<int>, proposed: seq<Pick>, t: Tournament, status: EntryStatus, grant: int,
      used: int, already: bool)
    requires used >= 0
    ensures SwapBreaks(rule, held, proposed, t, status, grant, used, already)
            <==> match rule
                 case SwapWindowClosed => !t.swapWindowOpen || t.status == Completed || status != Locked
                 case AlreadySwappedThisRound => already
                 case TooManyPicks => |proposed| > t.rosterSize
                 case IncompleteRoster => t.rosterSize - |proposed| > 0
                 case DuplicateHero => |Members(Heroes(proposed))| < |proposed|
                 case SwapLimitExceeded =>
                   var arrivals := |Missing(Heroes(proposed), held)|;
                   arrivals > 0 && (arrivals + used > Offered(t.swapsPerRound, t.currentRound)
                                    || arrivals + used > 0x7fff_ffff)
                 case BudgetExceeded => grant < Sum(proposed, Costs())
                 case _ => false
  {
    AsManyHeroes(proposed);
    SetSize(Heroes(proposed));
    SpentIsTheCosts(proposed);
    LimitIsWhatWasOffered(t, used, |Missing(Heroes(proposed), held)|);
    hide NoHeroTwice, Spent, Sum, Members, Distinct, Missing, SwapAllowance, Offered;
  }

  /**
  A window sat out is still spendable.  Take any locked entry that has logged fewer swaps than were
  offered, in a round it has not swapped in, and a full roster within the grant that brings in all
  that is left.  The swap is accepted, and the log then holds exactly what was offered: the bound on
  the log is reached.
  */
  lemma UnspentWindowsCanBeSpent(s: State, picks: seq<Pick>)
    requires Inv(s) && s.status.Locked? && |s.slots| == s.t.rosterSize == |picks|
    requires s.t.swapWindowOpen && s.t.status != Completed && !SwappedIn(s.log, s.t.currentRound)
    requires |Members(Heroes(picks))| == |picks| && Sum(picks, Costs()) <= s.grant
    requires |s.log| + Arrivals(s.slots, picks) == Offered(s.t.swapsPerRound, s.t.currentRound) <= 0x7fff_ffff
    ensures Enabled(s, SubmitSwap(picks))
    ensures |Next(s, SubmitSwap(picks)).log| == Offered(s.t.swapsPerRound, s.t.currentRound)
  {
    hide Sum, Offered, SwapAllowed;
    SwapIsAllowed(s.slots, picks, s.t, s.status, s.grant, |s.log|, false);
    AsManyHeroes(picks);
    HeroesAreDistinct(picks);
    ArrivalsAreMissing(s.slots, picks);
    hide Members, Arrivals, NoHeroTwice, Heroes, Missing, Distinct, RemembersAll, SubmissionsMatch, Holdings.WellFormed;
    LoggedIffChanged(s.t.currentRound, s.slots, Heroes(picks));
  }
}
