/** What holds of every run of the match cache: freshness, safe removal, bounded work, complete sweeps. */
module CacheRuns {
  import opened MatchCache

  lemma CallStepKeepsItsTerms(s: State, step: Step)
    requires IsCallStep(step) && CallEnabled(s, step)
    ensures var s' := CallNext(s, step);
      |s'.calls| == |s.calls|
      && s'.calls[step.c].owed == s.calls[step.c].owed && s'.calls[step.c].tournament == s.calls[step.c].tournament
  {
  }

  lemma StepKeepsCallIdentity(s: State, step: Step)
    requires Inv(s) && Enabled(s, step)
    ensures SameCalls(s, Next(s, step))
  {
    hide Inv, CallNext, WriteNext, CallEnabled, WriteEnabled;
    if IsCallStep(step) {
      CallStepIsLocal(s, step);
      CallStepKeepsItsTerms(s, step);
    } else if IsWriteStep(step) {
      WriteStepGrows(s, step);
    }
  }

  /** Calls keep what they were asked and what they owe; a new one owes what is announced now. */
  ghost predicate SameCalls(s: State, s': State) {
    && |s.calls| <= |s'.calls|
    && (forall c :: 0 <= c < |s.calls| ==>
          s'.calls[c].owed == s.calls[c].owed && s'.calls[c].tournament == s.calls[c].tournament)
    && (forall c :: |s.calls| <= c < |s'.calls| ==> s'.calls[c].owed == s.announced)
  }

  lemma GrowsFurther(a: State, b: State, c: State)
    requires Grows(a, b) && Grows(b, c)
    ensures Grows(a, c)
  {
  }

  /** What every step keeps, with the step itself out of sight. */
  lemma AnyStep(s: State, s': State)
    requires Inv(s) && IsStep(s, s')
    ensures Inv(s') && Grows(s, s') && SameCalls(s, s')
  {
    var step :| Enabled(s, step) && s' == Next(s, step);
    hide *;
    StepKeepsInv(s, step);
    StepKeepsCallIdentity(s, step);
  }

  lemma RunSteps(run: seq<State>, i: nat)
    requires IsRun(run) && 0 < i < |run|
    ensures IsStep(run[i - 1], run[i])
  {
    hide IsStep;
    assert IsStep(run[i - 1], run[i - 1 + 1]);
  }

  lemma InitialIsSafe(s: State)
    requires Initial(s)
    ensures Inv(s)
  {
  }

  lemma {:induction false} RunKeepsInv(run: seq<State>, i: nat)
    requires IsRun(run) && i < |run|
    ensures Inv(run[i])
  {
    hide Inv, IsStep, Grows, SameCalls, Initial;
    if i == 0 {
      InitialIsSafe(run[0]);
    } else {
      RunKeepsInv(run, i - 1);
      RunSteps(run, i);
      AnyStep(run[i - 1], run[i]);
    }
  }

  lemma {:induction false} RunGrows(run: seq<State>, i: nat, j: nat)
    requires IsRun(run) && i <= j < |run|
    ensures Grows(run[i], run[j])
    decreases j - i
  {
    hide Inv, IsStep, IsRun, SameCalls, Initial;
    if i < j {
      hide Grows;
      RunGrows(run, i, j - 1);
      RunKeepsInv(run, j - 1);
      RunSteps(run, j);
      AnyStep(run[j - 1], run[j]);
      GrowsFurther(run[i], run[j - 1], run[j]);
    }
  }

  /** A call that had not begun at moment `i` owes everything announced by then. */
  lemma {:induction false} LateCallsOweTheAnnounced(run: seq<State>, i: nat, j: nat, c: nat)
    requires IsRun(run) && i <= j < |run|
    requires |run[i].calls| <= c < |run[j].calls|
    ensures run[i].announced <= run[j].calls[c].owed
    decreases j - i
  {
    hide Inv, IsStep, IsRun, Initial;
    if i < j {
      RunKeepsInv(run, j - 1);
      RunSteps(run, j);
      AnyStep(run[j - 1], run[j]);
      if c < |run[j - 1].calls| {
        LateCallsOweTheAnnounced(run, i, j - 1, c);
      } else {
        RunGrows(run, i, j - 1);
      }
    }
  }

  /** A tournament's list has its changes, each as often as it was committed, and no other change. */
  lemma {:induction false} ListHoldsItsChanges(history: seq<Change>, t: int, x: Change)
    ensures multiset(MatchList(history, t))[x] == if Touches(x, t) then multiset(history)[x] else 0
  {
    if history != [] {
      var init, last := history[..|history| - 1], history[|history| - 1];
      ListHoldsItsChanges(init, t, x);
      assert history == init + [last];
    }
  }

  /** And it has them in the order they were committed: what is committed later is listed later. */
  lemma {:induction false} ListsGrowAtTheEnd(earlier: seq<Change>, later: seq<Change>, t: int)
    ensures MatchList(earlier + later, t) == MatchList(earlier, t) + MatchList(later, t)
  {
    if later == [] {
      assert earlier + later == earlier;
    } else {
      assert (earlier + later)[..|earlier + later| - 1] == earlier + later[..|later| - 1];
      ListsGrowAtTheEnd(earlier, later[..|later| - 1], t);
    }
  }

  /**
  Freshness.  Take any run, and any call begun at or after moment `i`.  When it has returned, the
  list it serves holds a change if and only if the change touches the call's tournament and is in
  the prefix of the committed history the call read; and that prefix includes every change to its
  tournament whose completion announcement was over by moment `i`.
  */
  lemma ReadsAreFresh(run: seq<State>, i: nat, j: nat, c: nat)
    requires IsRun(run) && i <= j < |run|
    requires |run[i].calls| <= c < |run[j].calls| && run[j].calls[c].at.Returned?
    ensures var seen, t := run[j].calls[c].at.seen, run[j].calls[c].tournament;
      && seen <= |run[j].committed|
      && (forall x :: x in MatchList(run[j].committed[..seen], t)
                      <==> Touches(x, t) && x in run[j].committed[..seen])
      && forall p :: p in run[i].announced && p < |run[j].committed| && Touches(run[j].committed[p], t) ==>
           p < seen && run[j].committed[p] in MatchList(run[j].committed[..seen], t)
  {
    RunKeepsInv(run, j);
    LateCallsOweTheAnnounced(run, i, j, c);
    assert CallOk(run[j], c);
    hide Inv, IsRun, MatchList;
    var seen, t := run[j].calls[c].at.seen, run[j].calls[c].tournament;
    var read := run[j].committed[..seen];
    forall x ensures x in MatchList(read, t) <==> Touches(x, t) && x in read {
      ListHoldsItsChanges(read, t, x);
      assert x in multiset(MatchList(read, t)) <==> x in MatchList(read, t);
      assert x in multiset(read) <==> x in read;
    }
    forall p | p in run[i].announced && p < |run[j].committed| && Touches(run[j].committed[p], t)
      ensures p < seen && run[j].committed[p] in read
    {
      assert p < seen;
      assert read[p] == run[j].committed[p];
    }
  }

  /**
  On the cached path the promise is about the final check, not the start of the call: a call that
  is accepted at moment `i` misses nothing announced by moment `i`.
  */
  lemma AcceptedListsAreCurrent(run: seq<State>, i: nat, c: nat, p: nat)
    requires IsRun(run) && i < |run| && CallEnabled(run[i], Accept(c))
    requires p in run[i].announced && p < |run[i].committed|
    requires Touches(run[i].committed[p], run[i].calls[c].tournament)
    ensures var s' := CallNext(run[i], Accept(c));
      s'.calls[c].at.Returned? && p < s'.calls[c].at.seen <= |run[i].committed|
  {
    RunKeepsInv(run, i);
    assert CallOk(run[i], c);
    var l := run[i].calls[c].at.load;
    assert LoadOk(run[i], l);
    MatchingStampIsFresh(run[i], l, run[i].calls[c].tournament, p);
  }

  /**
  Only hopeless entries are removed.  If a call drops an entry, no call of any later moment of the
  run could have accepted it.
  */
  lemma DroppedEntriesAreHopeless(run: seq<State>, i: nat, j: nat, c: nat)
    requires IsRun(run) && i <= j < |run| && CallEnabled(run[i], Discard(c))
    ensures var call := run[i].calls[c];
      && call.at.load < |run[i].loads| <= |run[j].loads|
      && (CallNext(run[i], Discard(c)).cache != run[i].cache ==>
            call.tournament in run[i].cache && run[i].cache[call.tournament] == call.at.load)
      && forall k :: 0 <= k < |run[j].calls| && run[j].calls[k].at == Holding(call.at.load) ==>
           !CallEnabled(run[j], Accept(k))
  {
    var call := run[i].calls[c];
    RunKeepsInv(run, i);
    assert CallOk(run[i], c);
    RunGrows(run, i, j);
  }

  /** A call runs its loader at most once an attempt and once more past the cache. */
  lemma AtMostFourLoads(run: seq<State>, i: nat, c: nat)
    requires IsRun(run) && i < |run| && c < |run[i].calls|
    ensures run[i].calls[c].loadsRun <= 4
  {
    RunKeepsInv(run, i);
    assert CallOk(run[i], c);
  }

  /**
  The sweep is complete though it is not atomic.  From the moment a committed rename's second
  sweep ends, no list loaded before that commit is accepted for any tournament: not one whose load
  was running during the sweep, nor one first registered after the sweep began.
  */
  lemma RenameReachesEveryTournament(run: seq<State>, i: nat, j: nat, w: nat, c: nat)
    requires IsRun(run) && i <= j < |run|
    requires w < |run[i].writers| && WriteEnabled(run[i], EndResweep(w)) && run[i].writers[w].at.commit.Some?
    requires i < j && run[i + 1] == WriteNext(run[i], EndResweep(w))
    requires CallEnabled(run[j], Accept(c))
    ensures run[i].writers[w].at.commit.value < CallNext(run[j], Accept(c)).calls[c].at.seen
  {
    var p := run[i].writers[w].at.commit.value;
    RunKeepsInv(run, i);
    assert WriterOk(run[i], w);
    assert p in run[i + 1].announced;
    RunGrows(run, i + 1, j);
    RunGrows(run, i, j);
    assert run[i].committed[p] == run[j].committed[p];
    AcceptedListsAreCurrent(run, j, c, p);
  }
}
