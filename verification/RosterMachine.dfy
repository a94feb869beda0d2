/**
One manager's entry through a whole tournament: drafting, locking, rounds advancing, swap windows
opening and closing, and swaps.  `past` and `submissions` are history the database does not keep;
they say what the stored roster and log have to be able to answer.
*/
module RosterMachine {
  import opened Distinctness
  import opened Holdings
  import opened RosterPolicy
  import opened Exchange

  datatype State = State(
    t: Tournament,
    status: EntryStatus,
    grant: int,
    slots: seq<int>,
    log: seq<Swap>,
    opening: set<int>,
    past: map<int, set<int>>,
    submissions: seq<int>)

  /** Picks carry the price each hero has when the step happens; prices move freely between steps. */
  datatype Step =
    | SetSlots(picks: seq<Pick>)
    | Lock(picks: seq<Pick>)
    | SubmitSwap(picks: seq<Pick>)
    | AdvanceRound
    | SetWindow(open: bool)
    | Update(status: TournamentStatus, rosterSize: int, swapsPerRound: int)

  predicate SwappedIn(log: seq<Swap>, round: int) {
    exists k :: 0 <= k < |log| && log[k].round == round
  }

  ghost predicate Enabled(s: State, step: Step) {
    match step
    case SetSlots(picks) => DraftAllowed(picks, s.t, s.status)
    case Lock(picks) => Heroes(picks) == s.slots && LockAllowed(picks, s.t, s.status, s.grant)
    case SubmitSwap(picks) =>
      SwapAllowed(s.slots, picks, s.t, s.status, s.grant, |s.log|, SwappedIn(s.log, s.t.currentRound))
    case _ => true
  }

  function Next(s: State, step: Step): State {
    match step
    case SetSlots(picks) => s.(slots := Heroes(picks))
    case Lock(_) => s.(status := Locked, opening := Members(s.slots))
    case SubmitSwap(picks) =>
      var heroes := Heroes(picks);
      s.(slots := heroes,
         log := s.log + Exchanges(s.t.currentRound, s.slots, heroes),
         submissions := if Members(heroes) == Members(s.slots) then s.submissions
                        else s.submissions + [s.t.currentRound])
    case AdvanceRound =>
      s.(t := s.t.(currentRound := s.t.currentRound + 1),
         past := if s.status.Locked? then s.past[s.t.currentRound := Members(s.slots)] else s.past)
    case SetWindow(open) => s.(t := s.t.(swapWindowOpen := open))
    case Update(status, size, swaps) => s.(t := s.t.(status := status, rosterSize := size, swapsPerRound := swaps))
  }

  /** A fresh registration: nothing drafted, nothing logged. */
  ghost predicate Initial(s: State) {
    s.status.Draft? && s.slots == [] && s.log == [] && s.past == map[] && s.submissions == []
    && s.t.currentRound == 1 && s.grant > 0
  }

  ghost predicate IsStep(s: State, s': State) {
    exists step :: Enabled(s, step) && s' == Next(s, step)
  }

  ghost predicate IsRun(run: seq<State>) {
    |run| > 0 && Initial(run[0]) && forall i :: 0 <= i < |run| - 1 ==> IsStep(run[i], run[i + 1])
  }

  // ---------------------------------------------------------------- the invariant

  /** What the log says of a round ended: the roster noted then or, before the lock, nothing yet. */
  ghost predicate Remembers(opening: set<int>, log: seq<Swap>, past: map<int, set<int>>, round: int) {
    if round in past then past[round] == RosterAt(opening, log, round)
    else forall k :: 0 <= k < |log| ==> round < log[k].round
  }

  ghost predicate RemembersAll(opening: set<int>, log: seq<Swap>, past: map<int, set<int>>, now: int) {
    && (forall r :: r in past ==> 1 <= r < now)
    && forall r :: 1 <= r < now ==> Remembers(opening, log, past, r)
  }

  /** The log leads from the opening roster to the one held, and answers for every round ended. */
  ghost predicate Inv(s: State) {
    && s.t.currentRound >= 1
    && (s.status.Draft? ==> s.log == [] && s.past == map[] && s.submissions == [])
    && (s.status.Locked? ==>
          && Distinct(s.slots)
          && Members(s.slots) == AfterAll(s.opening, s.log) && WellFormed(s.opening, s.log)
          && SubmissionsMatch(s.log, s.submissions, s.t.currentRound)
          && RemembersAll(s.opening, s.log, s.past, s.t.currentRound))
  }

  /** A locked roster has as many heroes as the tournament asks for. */
  ghost predicate Sized(s: State) {
    s.status.Locked? ==> |s.slots| == s.t.rosterSize
  }

  /** The allowance is never overspent: what is logged fits in the windows offered so far. */
  ghost predicate Fits(swapsPerRound: int, currentRound: int, logged: int) {
    logged <= Max(swapsPerRound, 0) * (currentRound - 1)
  }

  lemma HeroesAreDistinct(picks: seq<Pick>)
    requires NoHeroTwice(picks)
    ensures Distinct(Heroes(picks))
  {
  }

  lemma LockKeepsInv(s: State, picks: seq<Pick>)
    requires Inv(s) && Enabled(s, Lock(picks))
    ensures Inv(Next(s, Lock(picks)))
  {
    assert !LockBreaks(DuplicateHero, picks, s.t, s.status, s.grant);
    assert !LockBreaks(EntryLocked, picks, s.t, s.status, s.grant);
    HeroesAreDistinct(picks);
  }

  /** What acceptance of a swap says, rule by rule. */
  lemma SwapFacts(s: State, picks: seq<Pick>)
    requires Enabled(s, SubmitSwap(picks))
    ensures s.status.Locked? && |picks| == s.t.rosterSize && Distinct(Heroes(picks))
    ensures !SwappedIn(s.log, s.t.currentRound)
    ensures |Missing(Heroes(picks), s.slots)| <= SwapAllowance(s.t.swapsPerRound, s.t.currentRound, |s.log|)
  {
    var used, already := |s.log|, SwappedIn(s.log, s.t.currentRound);
    assert !SwapBreaks(SwapWindowClosed, s.slots, picks, s.t, s.status, s.grant, used, already);
    assert !SwapBreaks(TooManyPicks, s.slots, picks, s.t, s.status, s.grant, used, already);
    assert !SwapBreaks(IncompleteRoster, s.slots, picks, s.t, s.status, s.grant, used, already);
    assert !SwapBreaks(DuplicateHero, s.slots, picks, s.t, s.status, s.grant, used, already);
    assert !SwapBreaks(AlreadySwappedThisRound, s.slots, picks, s.t, s.status, s.grant, used, already);
    assert !SwapBreaks(SwapLimitExceeded, s.slots, picks, s.t, s.status, s.grant, used, already);
    HeroesAreDistinct(picks);
  }

  /** The rounds logged and the rounds submitted in agree before and after. */
  ghost predicate SubmissionsMatch(log: seq<Swap>, submissions: seq<int>, now: int) {
    && Distinct(submissions)
    && (forall k :: 0 <= k < |log| ==> log[k].round <= now && log[k].round in submissions)
    && (forall r :: r in submissions ==> r <= now && SwappedIn(log, r))
  }

  lemma SubmissionIsNoted(log: seq<Swap>, submissions: seq<int>, now: int, z: seq<Swap>)
    requires SubmissionsMatch(log, submissions, now) && !SwappedIn(log, now)
    requires forall k :: 0 <= k < |z| ==> z[k].round == now
    ensures SubmissionsMatch(log + z, if z == [] then submissions else submissions + [now], now)
  {
    var after := if z == [] then submissions else submissions + [now];
    forall r | r in after ensures r <= now && SwappedIn(log + z, r) {
      if r in submissions {
        var k :| 0 <= k < |log| && log[k].round == r;
        assert (log + z)[k].round == r;
      } else {
        assert (log + z)[|log|].round == r;
      }
    }
    forall k | 0 <= k < |log + z| ensures (log + z)[k].round <= now && (log + z)[k].round in after {
      if k < |log| {
        assert log[k].round in submissions;
      }
    }
  }

  lemma SwapsKeepThePast(opening: set<int>, log: seq<Swap>, z: seq<Swap>, past: map<int, set<int>>, now: int)
    requires RemembersAll(opening, log, past, now) && forall k :: 0 <= k < |z| ==> z[k].round == now
    ensures RemembersAll(opening, log + z, past, now)
  {
    forall r | 1 <= r < now ensures Remembers(opening, log + z, past, r) {
      assert Remembers(opening, log, past, r);
      LaterSwapsDoNotShow(opening, log, z, r);
      hide RosterAt;
    }
  }

  lemma RoundsArePutAway(opening: set<int>, log: seq<Swap>, past: map<int, set<int>>, now: int, roster: set<int>)
    requires RemembersAll(opening, log, past, now) && now >= 1 && roster == RosterAt(opening, log, now)
    ensures RemembersAll(opening, log, past[now := roster], now + 1)
  {
    hide RosterAt;
    var after := past[now := roster];
    forall r | 1 <= r < now + 1 ensures Remembers(opening, log, after, r) {
      if r < now {
        assert Remembers(opening, log, past, r);
      }
    }
  }

  /** A swap is recorded exactly when the roster held has the size the swap was checked against. */
  lemma SwapKeepsInv(s: State, picks: seq<Pick>)
    requires Inv(s) && Enabled(s, SubmitSwap(picks))
    ensures Inv(Next(s, SubmitSwap(picks))) <==> |s.slots| == s.t.rosterSize
  {
    SwapFacts(s, picks);
    var round, heroes := s.t.currentRound, Heroes(picks);
    var z := Exchanges(round, s.slots, heroes);
    hide Enabled, RemembersAll, SubmissionsMatch;
    ExchangesRecordTheSubmission(s.opening, s.log, round, s.slots, heroes);
    if |s.slots| == s.t.rosterSize {
      SwapsFit(s, heroes);
      LoggedIffChanged(round, s.slots, heroes);
      hide WellFormed, Distinct, Members, Exchanges, AfterAll, Heroes;
      SubmissionIsNoted(s.log, s.submissions, round, z);
      SwapsKeepThePast(s.opening, s.log, z, s.past, round);
    }
  }

  lemma SwapsFit(s: State, heroes: seq<int>)
    requires Inv(s) && s.status.Locked? && Distinct(heroes)
    ensures WellFormed(s.opening, s.log + Exchanges(s.t.currentRound, s.slots, heroes))
  {
    hide WellFormed, Exchanges, RemembersAll, AfterAll;
    ExchangesKeepTheLogWellFormed(s.opening, s.log, s.t.currentRound, s.slots, heroes);
  }

  lemma LoggedByNow(log: seq<Swap>, submissions: seq<int>, now: int)
    requires SubmissionsMatch(log, submissions, now)
    ensures SubmissionsMatch(log, submissions, now + 1)
    ensures forall k :: 0 <= k < |log| ==> log[k].round <= now
  {
    hide SwappedIn, Distinct;
  }

  lemma AdvanceKeepsInv(s: State)
    requires Inv(s)
    ensures Inv(Next(s, AdvanceRound))
  {
    hide RemembersAll, WellFormed, AfterAll, RosterAt, Members, Distinct, SubmissionsMatch;
    if s.status.Locked? {
      LoggedByNow(s.log, s.submissions, s.t.currentRound);
      LateRoundsSeeEverySwap(s.opening, s.log, s.t.currentRound);
      RoundsArePutAway(s.opening, s.log, s.past, s.t.currentRound, Members(s.slots));
    }
  }

  /**
  Every step keeps the invariant, whatever is retuned and whenever, but for one: a swap accepted
  while the tournament asks for a roster of another size than the one held.
  */
  lemma StepKeepsInv(s: State, step: Step)
    requires Inv(s) && Enabled(s, step)
    ensures Inv(Next(s, step)) <==> (step.SubmitSwap? ==> |s.slots| == s.t.rosterSize)
  {
    match step
    case SetSlots(picks) => assert !DraftBreaks(EntryLocked, picks, s.t, s.status);
    case Lock(picks) => LockKeepsInv(s, picks);
    case SubmitSwap(picks) => SwapKeepsInv(s, picks);
    case AdvanceRound => AdvanceKeepsInv(s);
    case SetWindow(_) =>
    case Update(_, _, _) =>
  }

  /** Drafting, locking and swapping leave a roster of the right size; only retuning can break that. */
  lemma StepKeepsSize(s: State, step: Step)
    requires Sized(s) && Enabled(s, step)
    requires s.status.Locked? ==> Next(s, step).t.rosterSize == s.t.rosterSize
    ensures Sized(Next(s, step))
  {
    match step
    case SetSlots(picks) => assert !DraftBreaks(EntryLocked, picks, s.t, s.status);
    case Lock(picks) =>
      assert !LockBreaks(TooManyPicks, picks, s.t, s.status, s.grant);
      assert !LockBreaks(IncompleteRoster, picks, s.t, s.status, s.grant);
    case SubmitSwap(picks) => SwapFacts(s, picks);
    case _ =>
  }

  lemma OnlyDraftsAreDrafted(s: State, step: Step)
    requires Enabled(s, step)
    ensures step.SetSlots? || step.Lock? ==> s.status.Draft?
  {
    if step.SetSlots? {
      assert !DraftBreaks(EntryLocked, step.picks, s.t, s.status);
    } else if step.Lock? {
      assert !LockBreaks(EntryLocked, step.picks, s.t, s.status, s.grant);
    }
  }

  /** Who is on a locked roster changes by a swap alone, and a swap asks for the tournament's size. */
  lemma LockedRostersChangeBySwap(s: State, step: Step)
    requires Enabled(s, step) && s.status.Locked?
    ensures Next(s, step).status.Locked?
    ensures Next(s, step).slots != s.slots ==> step.SubmitSwap?
    ensures step.SubmitSwap? ==> |Next(s, step).slots| == s.t.rosterSize
  {
    OnlyDraftsAreDrafted(s, step);
    if step.SubmitSwap? {
      SwapFacts(s, step.picks);
    }
    hide Enabled;
  }

  // ---------------------------------------------------------------- the allowance

  lemma SwapGrowsTheLog(s: State, picks: seq<Pick>)
    requires Enabled(s, SubmitSwap(picks))
    ensures var s' := Next(s, SubmitSwap(picks));
      s'.t == s.t
      && |s.log| <= |s'.log| <= |s.log| + SwapAllowance(s.t.swapsPerRound, s.t.currentRound, |s.log|)
  {
    SwapFacts(s, picks);
    var heroes := Heroes(picks);
    ZipAt(s.t.currentRound, Missing(s.slots, heroes), Missing(heroes, s.slots));
  }

  lemma AllowanceFits(cap: int, swapsPerRound: int, currentRound: int, used: int, logged: int)
    requires currentRound >= 1 && swapsPerRound <= cap && Fits(cap, currentRound, used)
    requires used <= logged <= used + SwapAllowance(swapsPerRound, currentRound, used)
    ensures Fits(cap, currentRound, logged)
  {
    var windows := currentRound - 1;
    if swapsPerRound <= 0 {
      assert swapsPerRound * windows <= 0;
    } else {
      assert swapsPerRound * windows <= cap * windows;
    }
  }

  /** No step takes the log past the windows offered, counted at any bound on the allowance. */
  lemma StepKeepsBound(s: State, step: Step, cap: int)
    requires s.t.currentRound >= 1 && Fits(cap, s.t.currentRound, |s.log|) && Enabled(s, step)
    requires s.t.swapsPerRound <= cap
    ensures Next(s, step).t.currentRound >= 1
    ensures Fits(cap, Next(s, step).t.currentRound, |Next(s, step).log|)
  {
    if step.SubmitSwap? {
      SwapGrowsTheLog(s, step.picks);
      AllowanceFits(cap, s.t.swapsPerRound, s.t.currentRound, |s.log|, |Next(s, step).log|);
    } else if step.AdvanceRound? {
      var k, windows := Max(cap, 0), s.t.currentRound - 1;
      assert k * windows <= k * (windows + 1);
    }
  }

  /** The tournament's own steps are refused to nobody: rounds move on by one, and settings take effect. */
  lemma TheTournamentMovesOn(s: State, open: bool, status: TournamentStatus, size: int, swaps: int)
    ensures Enabled(s, AdvanceRound) && Next(s, AdvanceRound).t == s.t.(currentRound := s.t.currentRound + 1)
    ensures Enabled(s, SetWindow(open)) && Next(s, SetWindow(open)).t == s.t.(swapWindowOpen := open)
    ensures Enabled(s, Update(status, size, swaps))
    ensures var t := Next(s, Update(status, size, swaps)).t;
      t.status == status && t.rosterSize == size && t.swapsPerRound == swaps
      && t.currentRound == s.t.currentRound && t.swapWindowOpen == s.t.swapWindowOpen
  {
  }
}
