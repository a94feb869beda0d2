/** What holds of every run of a manager's entry, and exactly when its log can be relied on. */
module RosterRuns {
  import opened Distinctness
  import opened Holdings
  import opened RosterPolicy
  import opened Exchange
  import opened RosterMachine

  /** A locked roster is only ever changed while the tournament asks for rosters of its size. */
  ghost predicate SwappedAtSize(run: seq<State>) {
    forall i :: 0 <= i < |run| - 1 && run[i].status.Locked? && run[i + 1].slots != run[i].slots ==>
      |run[i].slots| == run[i].t.rosterSize
  }

  /** Before the lock the roster size may be retuned at will, and after it no more. */
  ghost predicate SizeKeptOnceLocked(run: seq<State>) {
    forall i :: 0 <= i < |run| - 1 && run[i].status.Locked? ==> run[i + 1].t.rosterSize == run[i].t.rosterSize
  }

  ghost predicate AllowanceAtMost(run: seq<State>, cap: int) {
    forall i :: 0 <= i < |run| ==> run[i].t.swapsPerRound <= cap
  }

  lemma StepOf(run: seq<State>, i: nat) returns (step: Step)
    requires IsRun(run) && i + 1 < |run|
    ensures Enabled(run[i], step) && run[i + 1] == Next(run[i], step)
  {
    assert IsStep(run[i], run[i + 1]);
    step :| Enabled(run[i], step) && run[i + 1] == Next(run[i], step);
  }

  lemma {:induction false} RunKeepsInv(run: seq<State>, i: nat)
    requires IsRun(run) && SwappedAtSize(run) && i < |run|
    ensures Inv(run[i])
  {
    if i > 0 {
      RunKeepsInv(run, i - 1);
      hide IsRun, IsStep, Inv, Enabled;
      var step := StepOf(run, i - 1);
      assert run[i - 1 + 1] == run[i];
      if step.SubmitSwap? {
        assert run[i - 1].status.Locked? by { SwapFacts(run[i - 1], step.picks); }
        LockedRostersChangeBySwap(run[i - 1], step);
      }
      StepKeepsInv(run[i - 1], step);
    }
  }

  /**
  Every moment of a run keeps the invariant if and only if no swap was accepted while the
  tournament asked for rosters of another size than the one held.
  */
  lemma RunIsRecorded(run: seq<State>)
    requires IsRun(run)
    ensures (forall i :: 0 <= i < |run| ==> Inv(run[i])) <==> SwappedAtSize(run)
  {
    if SwappedAtSize(run) {
      forall i | 0 <= i < |run| ensures Inv(run[i]) {
        RunKeepsInv(run, i);
      }
    } else {
      var i :| 0 <= i < |run| - 1 && run[i].status.Locked? && run[i + 1].slots != run[i].slots
               && |run[i].slots| != run[i].t.rosterSize;
      hide IsRun, IsStep, Inv, Enabled;
      var step := StepOf(run, i);
      LockedRostersChangeBySwap(run[i], step);
      if Inv(run[i]) {
        StepKeepsInv(run[i], step);
      }
    }
  }

  lemma {:induction false} RunKeepsSize(run: seq<State>, i: nat)
    requires IsRun(run) && SizeKeptOnceLocked(run) && i < |run|
    ensures Sized(run[i])
  {
    if i > 0 {
      RunKeepsSize(run, i - 1);
      var step := StepOf(run, i - 1);
      assert run[i - 1 + 1] == run[i];
      assert run[i - 1].status.Locked? ==> run[i - 1 + 1].t.rosterSize == run[i - 1].t.rosterSize;
      hide IsRun, IsStep, Enabled, Sized, SizeKeptOnceLocked;
      StepKeepsSize(run[i - 1], step);
    }
  }

  /** Leaving the size alone once the entry is locked is enough. */
  lemma KeptSizesAreFound(run: seq<State>)
    requires IsRun(run) && SizeKeptOnceLocked(run)
    ensures SwappedAtSize(run)
  {
    forall i | 0 <= i < |run| - 1 && run[i].status.Locked? ensures |run[i].slots| == run[i].t.rosterSize {
      RunKeepsSize(run, i);
    }
  }

  /**
  However the tournament is retuned before the lock, and everything but the roster size after it, a
  locked roster has exactly the roster size in heroes, all different, the log is well formed from
  the opening roster, no round has two submissions that changed it, and every swap is of one.
  */
  lemma LockedRostersStayLegal(run: seq<State>, i: nat)
    requires IsRun(run) && SizeKeptOnceLocked(run) && i < |run| && run[i].status.Locked?
    ensures |run[i].slots| == run[i].t.rosterSize && Distinct(run[i].slots)
    ensures WellFormed(run[i].opening, run[i].log) && AfterAll(run[i].opening, run[i].log) == Members(run[i].slots)
    ensures Distinct(run[i].submissions)
    ensures forall k :: 0 <= k < |run[i].log| ==> run[i].log[k].round in run[i].submissions
  {
    RunKeepsSize(run, i);
    KeptSizesAreFound(run);
    RunKeepsInv(run, i);
  }

  /** In any run at all, the log never outgrows the windows offered, at the largest allowance seen. */
  lemma {:induction false} LogIsBounded(run: seq<State>, cap: int, i: nat)
    requires IsRun(run) && AllowanceAtMost(run, cap) && i < |run|
    ensures run[i].t.currentRound >= 1
    ensures |run[i].log| <= Max(cap, 0) * (run[i].t.currentRound - 1)
  {
    if i == 0 {
      assert run[0].log == [];
    } else {
      LogIsBounded(run, cap, i - 1);
      hide IsRun, IsStep, Enabled;
      var step := StepOf(run, i - 1);
      assert run[i - 1 + 1] == run[i];
      StepKeepsBound(run[i - 1], step, cap);
    }
  }

  /**
  The roster a round is owed: the one held when the round ended, the present one from now on, and
  for rounds that ended before the entry was locked the one it was locked with.
  */
  ghost function RosterDuring(s: State, round: int): set<int> {
    if round in s.past then s.past[round]
    else if round >= s.t.currentRound then Members(s.slots)
    else s.opening
  }

  /** What was noted when a round ended is the roster held then, at every later moment. */
  lemma {:induction false} RoundsStayPutAway(run: seq<State>, j: nat, i: nat)
    requires IsRun(run) && j < i < |run|
    requires run[j].status.Locked? && run[j + 1].t.currentRound == run[j].t.currentRound + 1
    ensures run[i].status.Locked? && run[i].t.currentRound > run[j].t.currentRound
    ensures RosterDuring(run[i], run[j].t.currentRound) == Members(run[j].slots)
    ensures run[j].t.currentRound in run[i].past
  {
    hide IsRun, IsStep, Enabled;
    var step := StepOf(run, i - 1);
    assert run[i - 1 + 1] == run[i];
    if i - 1 > j {
      RoundsStayPutAway(run, j, i - 1);
      LockedRostersChangeBySwap(run[i - 1], step);
    }
  }

  lemma RosterIsRemembered(s: State, round: int)
    requires Inv(s) && s.status.Locked? && round >= 1
    ensures RosterAt(s.opening, s.log, round) == RosterDuring(s, round)
  {
    if round >= s.t.currentRound {
      LateRoundsSeeEverySwap(s.opening, s.log, round);
    } else if Remembers(s.opening, s.log, s.past, round) && round !in s.past {
      assert [] + s.log == s.log;
      LaterSwapsDoNotShow(s.opening, [], s.log, round);
    }
  }

  /**
  The stored roster and log answer every question about the past.  At any moment of any run whose
  swaps were recorded, for every round from the first on, the holdings rebuilt from the log cover a
  hero exactly once if it was on the roster of that round, and not at all otherwise.
  */
  lemma HoldingsRememberTheRun(run: seq<State>, i: nat, hero: int, round: int)
    requires IsRun(run) && SwappedAtSize(run) && i < |run| && run[i].status.Locked? && round >= 1
    ensures Covering(HoldingsOf(run[i].slots, run[i].log), hero, round)
            == (if hero in RosterDuring(run[i], round) then 1 else 0)
  {
    RunKeepsInv(run, i);
    var s := run[i];
    HoldingsAreTheHistory(s.opening, s.slots, s.log, hero, round);
    RosterIsRemembered(s, round);
  }

  /**
  Why the size matters: a roster of one locked, the size then raised to two, and a swap to two
  heroes accepted.  Nothing is logged, so the newcomer is taken to have been there from round 1.
  */
  lemma ResizedSwapsAreNotRecorded(t: Tournament, grant: int)
    requires t.rosterSize == 2 && t.swapWindowOpen && t.status.Live? && t.swapsPerRound == 1
    requires t.currentRound == 2 && grant == 2
    ensures var picks := [Pick(10, 1), Pick(11, 1)];
      && SwapAllowed([10], picks, t, Locked, grant, 0, false)
      && Exchanges(2, [10], Heroes(picks)) == []
      && Covering(HoldingsOf(Heroes(picks), []), 11, 1) == 1
  {
    var picks := [Pick(10, 1), Pick(11, 1)];
    var heroes := Heroes(picks);
    assert heroes == [10, 11];
    assert Missing([10], heroes) == [];
    assert heroes[..1] == [10] && Missing(heroes[..1], [10]) == [];
    assert Missing(heroes, [10]) == [11];
    assert picks[..1] == [Pick(10, 1)] && picks[..1][..0] == [];
    assert Spent(picks) == 2;
    StartCounts(heroes, 11, 1);
  }
}
