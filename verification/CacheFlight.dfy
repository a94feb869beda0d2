/** How the cache works rather than what it never does: one load at a time, hits, retries, commits. */
module CacheFlight {
  import opened Options
  import opened MatchCache
  import opened CacheRuns
  import opened ReadThrough

  // ---------------------------------------------------------------- one load at a time

  predicate Unfinished(load: Load) { load.phase.Running? || load.phase.Read? }

  /** Every unfinished load is the one in flight for its tournament. */
  ghost predicate InFlightOk(s: State) {
    forall l :: 0 <= l < |s.loads| && Unfinished(s.loads[l]) ==>
      s.loads[l].tournament in s.inFlight && s.inFlight[s.loads[l].tournament] == l
  }

  lemma CallStepKeepsFlight(s: State, step: Step)
    requires Inv(s) && InFlightOk(s) && IsCallStep(step) && CallEnabled(s, step)
    ensures InFlightOk(CallNext(s, step))
  {
    assert CallOk(s, step.c);
  }

  lemma StepKeepsFlight(s: State, step: Step)
    requires Inv(s) && InFlightOk(s) && Enabled(s, step)
    ensures InFlightOk(Next(s, step))
  {
    if IsCallStep(step) {
      CallStepKeepsFlight(s, step);
    }
    hide Inv, CallEnabled, CallNext;
  }

  lemma FlightOneMore(s: State, s': State)
    requires Inv(s) && InFlightOk(s) && IsStep(s, s')
    ensures InFlightOk(s')
  {
    hide Inv, InFlightOk, Enabled, Next;
    var step :| Enabled(s, step) && s' == Next(s, step);
    StepKeepsFlight(s, step);
  }

  lemma {:induction false} RunKeepsFlight(run: seq<State>, i: nat)
    requires IsRun(run) && i < |run|
    ensures InFlightOk(run[i])
  {
    hide Inv, IsStep;
    if i > 0 {
      hide IsRun, InFlightOk;
      RunKeepsFlight(run, i - 1);
      RunKeepsInv(run, i - 1);
      RunSteps(run, i);
      FlightOneMore(run[i - 1], run[i]);
    }
  }

  /** However many calls want a tournament's list at once, at most one load of it is under way. */
  lemma OneLoadAtATime(run: seq<State>, i: nat, l: nat, k: nat)
    requires IsRun(run) && i < |run| && l < |run[i].loads| && k < |run[i].loads|
    requires run[i].loads[l].tournament == run[i].loads[k].tournament
    requires Unfinished(run[i].loads[l]) && Unfinished(run[i].loads[k])
    ensures l == k
  {
    RunKeepsFlight(run, i);
  }

  // ---------------------------------------------------------------- hits

  /** The tournament's entry, if a call finding it now would accept it. */
  ghost predicate Current(s: State, t: int, l: nat) {
    t in s.cache && s.cache[t] == l && LoadIs(s, l, t) && s.loads[l].phase.Published?
    && t in s.versions && s.loads[l].version == s.versions[t]
  }

  /** A call that meets a current entry and no interference returns its list and loads nothing. */
  lemma CurrentEntriesAreServed(s: State, c: nat, l: nat)
    requires c < |s.calls| && s.calls[c].at.Called? && Current(s, s.calls[c].tournament, l)
    ensures CallEnabled(s, Register(c))
    ensures var s1 := CallNext(s, Register(c));
      CallEnabled(s1, ReadCounter(c)) &&
      var s2 := CallNext(s1, ReadCounter(c));
      CallEnabled(s2, Hit(c)) &&
      var s3 := CallNext(s2, Hit(c));
      CallEnabled(s3, Accept(c)) &&
      var s4 := CallNext(s3, Accept(c));
      && s4.calls[c].at == Returned(s.loads[l].phase.seen) && s4.calls[c].loadsRun == s.calls[c].loadsRun
      && s4.cache == s.cache && s4.loads == s.loads && s4.versions == s.versions
  {
  }

  /** What a load publishes is current at once, unless a counter was bumped while it ran. */
  lemma PublishedIsCurrent(s: State, c: nat)
    requires Inv(s) && CallEnabled(s, Publish(c))
    ensures var l, t := s.calls[c].at.load, s.calls[c].tournament;
      && t in s.versions
      && (Current(CallNext(s, Publish(c)), t, l) <==> s.loads[l].version == s.versions[t])
      && CallNext(s, Publish(c)).loads[l].phase.seen == s.loads[l].phase.seen
  {
    assert CallOk(s, c);
  }

  // ---------------------------------------------------------------- retries

  /** How often a call has thrown away what it got, by moment `j`. */
  ghost function Rejections(run: seq<State>, c: nat, j: nat): nat
    requires j < |run|
  {
    if j == 0 then 0
    else Rejections(run, c, j - 1) + (if Threw(run[j - 1], run[j], c) then 1 else 0)
  }

  ghost predicate Threw(s: State, s': State, c: nat) {
    c < |s.calls| && c < |s'.calls| && s.calls[c].at.Rejecting?
    && (s'.calls[c].at.Looping? || s'.calls[c].at.Bypassing?)
  }

  predicate PastTheCache(call: Call) { call.at.Bypassing? || call.at.Bypassed? }

  predicate StillTrying(call: Call) { !PastTheCache(call) && !call.at.Returned? && !call.at.Errored? }

  /** A call counts its rejections, and goes past the cache with all its attempts spent. */
  ghost predicate CountsRight(s: State, c: nat, rejections: nat) {
    if c < |s.calls|
    then
      s.calls[c].attempt == rejections && (s.calls[c].at.Called? ==> rejections == 0)
      && (PastTheCache(s.calls[c]) ==> rejections == 3) && (StillTrying(s.calls[c]) ==> rejections < 3)
    else rejections == 0
  }

  lemma CallStepCounts(s: State, step: Step, rejections: nat)
    requires IsCallStep(step) && CallEnabled(s, step) && CallOk(s, step.c) && CountsRight(s, step.c, rejections)
    ensures var s' := CallNext(s, step);
      CountsRight(s', step.c, rejections + (if Threw(s, s', step.c) then 1 else 0))
  {
  }

  lemma StepCounts(s: State, step: Step, c: nat, rejections: nat)
    requires Inv(s) && Enabled(s, step) && CountsRight(s, c, rejections)
    ensures CountsRight(Next(s, step), c, rejections + (if Threw(s, Next(s, step), c) then 1 else 0))
  {
    if IsCallStep(step) {
      CallIsThere(s, step);
      if step.c == c {
        CallStepCounts(s, step, rejections);
      } else {
        OtherCallsStay(s, step, c);
      }
    } else if IsWriteStep(step) {
      WritersLeaveCalls(s, step);
    }
    hide Inv, CallEnabled, WriteEnabled, CallNext, WriteNext;
  }

  lemma CallIsThere(s: State, step: Step)
    requires Inv(s) && IsCallStep(step) && CallEnabled(s, step)
    ensures step.c < |s.calls| && CallOk(s, step.c)
  {
  }

  lemma CountsOneMore(s: State, s': State, c: nat, rejections: nat)
    requires Inv(s) && IsStep(s, s') && CountsRight(s, c, rejections)
    ensures CountsRight(s', c, rejections + (if Threw(s, s', c) then 1 else 0))
  {
    hide Inv, CountsRight, Enabled, Next, Threw;
    var step :| Enabled(s, step) && s' == Next(s, step);
    StepCounts(s, step, c, rejections);
  }

  lemma {:induction false} RunCounts(run: seq<State>, c: nat, j: nat)
    requires IsRun(run) && j < |run|
    ensures CountsRight(run[j], c, Rejections(run, c, j))
  {
    hide Inv, IsStep, Threw, PastTheCache, StillTrying;
    if j > 0 {
      hide IsRun, CountsRight;
      RunCounts(run, c, j - 1);
      RunKeepsInv(run, j - 1);
      RunSteps(run, j);
      CountsOneMore(run[j - 1], run[j], c, Rejections(run, c, j - 1));
    }
  }

  /** A call reads past the cache after throwing away exactly three lists, and no call throws away more. */
  lemma ThreeRejectionsFirst(run: seq<State>, c: nat, j: nat)
    requires IsRun(run) && j < |run| && c < |run[j].calls|
    ensures PastTheCache(run[j].calls[c]) ==> Rejections(run, c, j) == 3
    ensures StillTrying(run[j].calls[c]) ==> Rejections(run, c, j) < 3
  {
    RunCounts(run, c, j);
  }

  /** A load that is over and in no entry. */
  ghost predicate Gone(s: State, l: nat) {
    l < |s.loads| && s.loads[l].phase.Published? && forall t :: t in s.cache ==> s.cache[t] != l
  }

  lemma StepKeepsGone(s: State, step: Step, l: nat)
    requires Inv(s) && Enabled(s, step) && Gone(s, l)
    ensures Gone(Next(s, step), l)
  {
    if IsCallStep(step) {
      CallIsThere(s, step);
      hide Inv;
      CallStepKeepsGone(s, step, l);
    } else if IsWriteStep(step) {
      WritersLeaveCalls(s, step);
    }
    hide Inv, CallEnabled, WriteEnabled, CallNext, WriteNext;
  }

  lemma CallStepKeepsGone(s: State, step: Step, l: nat)
    requires IsCallStep(step) && CallEnabled(s, step) && CallOk(s, step.c) && Gone(s, l)
    ensures Gone(CallNext(s, step), l)
  {
  }

  lemma GoneOneMore(s: State, s': State, l: nat)
    requires Inv(s) && IsStep(s, s') && Gone(s, l)
    ensures Gone(s', l)
  {
    hide Gone, Enabled, Next, Inv;
    var step :| Enabled(s, step) && s' == Next(s, step);
    StepKeepsGone(s, step, l);
  }

  lemma {:induction false} GoneStays(run: seq<State>, i: nat, j: nat, l: nat)
    requires IsRun(run) && i <= j < |run| && Gone(run[i], l)
    ensures Gone(run[j], l)
    decreases j - i
  {
    hide Gone, IsStep, IsRun, Inv;
    if i < j {
      GoneStays(run, i, j - 1, l);
      RunKeepsInv(run, j - 1);
      RunSteps(run, j);
      GoneOneMore(run[j - 1], run[j], l);
    }
  }

  /** A list thrown away is never found in the cache again, for any tournament, by anyone. */
  lemma RejectedListsStayAway(run: seq<State>, i: nat, j: nat, c: nat)
    requires IsRun(run) && i < j < |run|
    requires CallEnabled(run[i], Discard(c)) && run[i + 1] == CallNext(run[i], Discard(c))
    ensures forall t :: t in run[j].cache ==> run[j].cache[t] != run[i].calls[c].at.load
    ensures forall t :: t in run[i].cache && t != run[i].calls[c].tournament ==>
              t in run[i + 1].cache && run[i + 1].cache[t] == run[i].cache[t]
  {
    RunKeepsInv(run, i);
    assert CallOk(run[i], c);
    GoneStays(run, i + 1, j, run[i].calls[c].at.load);
  }

  // ---------------------------------------------------------------- announcements and commits

  /** The steps that announce for a tournament: both of a match's, and either sweep's visit. */
  predicate Announces(s: State, step: Step, t: int) {
    IsWriteStep(step) && WriteEnabled(s, step) &&
    match step
    case Announce(w) => s.writers[w].scope.One? && s.writers[w].scope.tournament == t
    case AnnounceCompleted(w) => s.writers[w].scope.One? && s.writers[w].scope.tournament == t
    case Visit(_, visited) => visited == t
    case Revisit(_, visited) => visited == t
    case _ => false
  }

  /** Whatever was loading or loaded before any announcement is accepted by no call after it. */
  lemma AnnouncementsOutdate(run: seq<State>, i: nat, j: nat, step: Step, t: int, l: nat)
    requires IsRun(run) && i < j < |run| && Announces(run[i], step, t) && run[i + 1] == WriteNext(run[i], step)
    requires LoadIs(run[i], l, t)
    ensures forall c :: 0 <= c < |run[j].calls| && run[j].calls[c].at == Holding(l) ==>
              !CallEnabled(run[j], Accept(c))
  {
    RunKeepsInv(run, i);
    assert LoadOk(run[i], l);
    assert run[i + 1].loads == run[i].loads && t in run[i + 1].versions
           && run[i + 1].versions[t] > run[i].versions[t];
    RunGrows(run, i + 1, j);
  }

  /** Each change on record is its writer's own, and a writer has at most one, made once it has announced. */
  ghost predicate CommitsOk(s: State) {
    && (forall p :: 0 <= p < |s.committed| ==>
          s.committed[p].writer < |s.writers| && s.committed[p].scope == s.writers[s.committed[p].writer].scope
          && HasEnded(s.writers[s.committed[p].writer].at))
    && forall p, q :: 0 <= p < q < |s.committed| ==> s.committed[p].writer != s.committed[q].writer
  }

  predicate HasEnded(at: WritePoint) { at.Ended? || at.Resweeping? || at.Finished? }

  lemma WriteStepKeepsCommits(s: State, step: Step)
    requires CommitsOk(s) && IsWriteStep(step) && WriteEnabled(s, step)
    ensures CommitsOk(WriteNext(s, step))
  {
    var s' := WriteNext(s, step);
    WriterIsOneStepOn(s, step);
    hide WriteNext, WriteEnabled;
    forall p | 0 <= p < |s.committed|
      ensures s'.committed[p] == s.committed[p] && s.committed[p].writer < |s'.writers|
    {
    }
  }

  /** A write step moves its own writer alone, and adds that writer's change or none. */
  lemma WriterIsOneStepOn(s: State, step: Step)
    requires IsWriteStep(step) && WriteEnabled(s, step)
    ensures var s' := WriteNext(s, step);
      && step.w < |s.writers| == |s'.writers|
      && (forall w :: 0 <= w < |s.writers| && w != step.w ==> s'.writers[w] == s.writers[w])
      && s'.writers[step.w].scope == s.writers[step.w].scope
      && (HasEnded(s.writers[step.w].at) ==> HasEnded(s'.writers[step.w].at) && s'.committed == s.committed)
      && (s'.committed == s.committed
          || (HasEnded(s'.writers[step.w].at)
              && s'.committed == s.committed + [Change(step.w, s.writers[step.w].scope)]))
  {
  }

  lemma StepKeepsCommits(s: State, step: Step)
    requires CommitsOk(s) && Enabled(s, step)
    ensures CommitsOk(Next(s, step))
  {
    if IsCallStep(step) {
      CallsLeaveHistory(s, step);
    } else if IsWriteStep(step) {
      WriteStepKeepsCommits(s, step);
    }
    hide CallEnabled, WriteEnabled, CallNext, WriteNext;
  }

  lemma CallsLeaveHistory(s: State, step: Step)
    requires IsCallStep(step) && CallEnabled(s, step)
    ensures CallNext(s, step).committed == s.committed && CallNext(s, step).writers == s.writers
  {
  }

  lemma CommitsOneMore(s: State, s': State)
    requires CommitsOk(s) && IsStep(s, s')
    ensures CommitsOk(s')
  {
    hide CommitsOk, Enabled, Next;
    var step :| Enabled(s, step) && s' == Next(s, step);
    StepKeepsCommits(s, step);
  }

  lemma {:induction false} CommitsAreTheWriters(run: seq<State>, i: nat)
    requires IsRun(run) && i < |run|
    ensures CommitsOk(run[i])
  {
    hide IsStep;
    if i > 0 {
      hide IsRun, CommitsOk;
      CommitsAreTheWriters(run, i - 1);
      RunSteps(run, i);
      CommitsOneMore(run[i - 1], run[i]);
    }
  }

  // ---------------------------------------------------------------- what one step leaves alone

  /** The counter value a call goes by until it reads the counter again. */
  function Stamp(s: State, c: nat): Option<nat>
    requires c < |s.calls|
  {
    match s.calls[c].at
    case Stamping(v) => Some(v)
    case Waiting(_, v) => Some(v)
    case Leading(l) => if l < |s.loads| then Some(s.loads[l].version) else None
    case _ => None
  }

  /** A stamp is read off the counter and then kept: waiting, taking over and leading go by the one read. */
  lemma StampsAreRead(s: State, step: Step)
    requires IsCallStep(step) && CallEnabled(s, step) && CallOk(s, step.c) && Stamp(CallNext(s, step), step.c).Some?
    ensures if step.ReadCounter? then
              s.calls[step.c].tournament in s.versions
              && Stamp(CallNext(s, step), step.c) == Some(s.versions[s.calls[step.c].tournament])
            else Stamp(CallNext(s, step), step.c) == Stamp(s, step.c)
  {
  }

  /** A waiting call shares its load's fate: the list, the failure, or the load itself if its leader is gone. */
  lemma WaitersFollowTheirLoad(s: State, step: Step)
    requires IsCallStep(step) && CallEnabled(s, step) && s.calls[step.c].at.Waiting? && !step.Cancel?
    ensures var l, after := s.calls[step.c].at.load, CallNext(s, step).calls[step.c].at;
      && l < |s.loads|
      && match s.loads[l].phase
         case Published(_) => after == Holding(l)
         case Failed => after == Errored
         case Cancelled => after == Stamping(s.calls[step.c].at.version)
         case _ => false
  {
  }

  /** The tournament a step is about, if it is about one. */
  predicate About(s: State, step: Step, t: int)
    requires Enabled(s, step)
  {
    if IsCallStep(step) then s.calls[step.c].tournament == t
    else
      match step
      case Evict(of) => of == t
      case Visit(_, of) => of == t
      case Revisit(_, of) => of == t
      case WriterRegister(w) => s.writers[w].scope.tournament == t
      case Announce(w) => s.writers[w].scope.tournament == t
      case AnnounceCompleted(w) => s.writers[w].scope.tournament == t
      case _ => false
  }

  ghost predicate SameFor(s: State, s': State, t: int) {
    && (t in s.cache <==> t in s'.cache) && (t in s.cache ==> s'.cache[t] == s.cache[t])
    && (t in s.versions <==> t in s'.versions) && (t in s.versions ==> s'.versions[t] == s.versions[t])
  }

  lemma CallsStayInTheirTournament(s: State, step: Step, t: int)
    requires IsCallStep(step) && CallEnabled(s, step) && s.calls[step.c].tournament != t
    ensures SameFor(s, CallNext(s, step), t)
  {
  }

  lemma WritesStayInTheirTournament(s: State, step: Step, t: int)
    requires IsWriteStep(step) && WriteEnabled(s, step) && !About(s, step, t)
    ensures SameFor(s, WriteNext(s, step), t)
  {
  }

  /** No step changes the entry or the counter of a tournament it is not about. */
  lemma OtherTournamentsStay(s: State, step: Step, t: int)
    requires Enabled(s, step) && !About(s, step, t)
    ensures SameFor(s, Next(s, step), t)
  {
    if IsCallStep(step) {
      CallsStayInTheirTournament(s, step, t);
    } else if IsWriteStep(step) {
      WritesStayInTheirTournament(s, step, t);
    }
    hide CallNext, WriteNext, CallEnabled, WriteEnabled;
  }

  /** An announcement raises its tournament's counter by one. */
  lemma AnnouncementsCountOne(s: State, step: Step, t: int)
    requires Announces(s, step, t) && t in s.versions
    ensures t in WriteNext(s, step).versions && WriteNext(s, step).versions[t] == s.versions[t] + 1
  {
  }

  // ---------------------------------------------------------------- nobody is stuck

  /** A step of a call's own other than giving up or failing. */
  predicate Proceeds(s: State, step: Step, c: nat) {
    IsCallStep(step) && step.c == c && !step.Cancel? && !step.LoadFails? && CallEnabled(s, step)
  }

  /** Looking for the list, a call has exactly one way on: the entry, the load in flight, or its own. */
  lemma OneWayToTheList(s: State, c: nat)
    requires c < |s.calls| && s.calls[c].at.Stamping?
    ensures var t := s.calls[c].tournament;
      && (CallEnabled(s, Hit(c)) <==> t in s.cache)
      && (CallEnabled(s, Join(c)) <==> t !in s.cache && t in s.inFlight)
      && (CallEnabled(s, Lead(c)) <==> t !in s.cache && t !in s.inFlight)
  {
  }

  /** The step a call may take next, unless it is waiting for a load still under way. */
  function NextOf(s: State, c: nat): Step
    requires c < |s.calls|
  {
    var t := s.calls[c].tournament;
    match s.calls[c].at
    case Called => Register(c)
    case Looping => ReadCounter(c)
    case Stamping(_) => if t in s.cache then Hit(c) else if t in s.inFlight then Join(c) else Lead(c)
    case Leading(l) => if l < |s.loads| && s.loads[l].phase.Running? then Snapshot(c) else Publish(c)
    case Waiting(l, _) =>
      if l < |s.loads| && s.loads[l].phase.Failed? then ReceiveError(c)
      else if l < |s.loads| && s.loads[l].phase.Cancelled? then TakeOver(c)
      else Receive(c)
    case Holding(l) =>
      if l < |s.loads| && t in s.versions && s.loads[l].version == s.versions[t] then Accept(c) else Reject(c)
    case Rejecting(_) => Discard(c)
    case Bypassing => ReadThrough(c)
    case Bypassed(_) => ReturnThrough(c)
    case _ => Cancel(c)
  }

  predicate WaitsFor(s: State, c: nat, l: nat) {
    c < |s.calls| && s.calls[c].at.Waiting? && s.calls[c].at.load == l && l < |s.loads| && Unfinished(s.loads[l])
  }

  lemma CallsProceed(s: State, c: nat)
    requires c < |s.calls| && CallOk(s, c) && !s.calls[c].at.Returned? && !s.calls[c].at.Errored?
    requires s.calls[c].at.Waiting? ==> !WaitsFor(s, c, s.calls[c].at.load)
    ensures Proceeds(s, NextOf(s, c), c)
  {
  }

  /** The call leading an unfinished load is still at it. */
  ghost predicate LeadersLead(s: State) {
    forall l :: 0 <= l < |s.loads| && Unfinished(s.loads[l]) ==>
      s.loads[l].leader < |s.calls| && s.calls[s.loads[l].leader].at == Leading(l)
  }

  /** A call's step moves its own load alone, and leads one more or none. */
  lemma CallMovesItsLoad(s: State, step: Step)
    requires IsCallStep(step) && CallEnabled(s, step) && CallOk(s, step.c)
    ensures var c, s' := step.c, CallNext(s, step);
      && |s.loads| <= |s'.loads| <= |s.loads| + 1
      && (forall l :: 0 <= l < |s.loads| ==>
            s'.loads[l].leader == s.loads[l].leader
            && (s'.loads[l].phase != s.loads[l].phase ==> s.calls[c].at == Leading(l)))
      && c < |s'.calls| == |s.calls|
      && (|s'.loads| > |s.loads| ==>
            s'.loads[|s.loads|].leader == c && s'.calls[c].at == Leading(|s.loads|) && !s.calls[c].at.Leading?)
      && (s.calls[c].at.Leading? && s'.calls[c].at != s.calls[c].at ==>
            s.calls[c].at.load < |s.loads| && !Unfinished(s'.loads[s.calls[c].at.load]))
  {
  }

  lemma CallStepKeepsLeaders(s: State, step: Step)
    requires LeadersLead(s) && IsCallStep(step) && CallEnabled(s, step) && CallOk(s, step.c)
    ensures LeadersLead(CallNext(s, step))
  {
    CallMovesItsLoad(s, step);
    var s' := CallNext(s, step);
    forall l | 0 <= l < |s'.loads| && Unfinished(s'.loads[l])
      ensures s'.loads[l].leader < |s'.calls| && s'.calls[s'.loads[l].leader].at == Leading(l)
    {
      var leader := s'.loads[l].leader;
      if leader != step.c {
        OtherCallsStay(s, step, leader);
      }
      hide CallNext, CallEnabled, CallOk;
      if l < |s.loads| && leader != step.c {
        assert s'.loads[l].phase == s.loads[l].phase;
      }
    }
  }

  lemma LeadersOneMore(s: State, s': State)
    requires Inv(s) && LeadersLead(s) && IsStep(s, s')
    ensures LeadersLead(s')
  {
    hide CallNext, WriteNext, CallEnabled, WriteEnabled;
    var step :| Enabled(s, step) && s' == Next(s, step);
    if IsCallStep(step) {
      CallIsThere(s, step);
      CallStepKeepsLeaders(s, step);
    } else if IsWriteStep(step) {
      WritersLeaveLoads(s, step);
    }
    hide Inv;
  }

  lemma WritersLeaveLoads(s: State, step: Step)
    requires IsWriteStep(step) && WriteEnabled(s, step)
    ensures WriteNext(s, step).calls == s.calls && WriteNext(s, step).loads == s.loads
  {
  }

  lemma {:induction false} RunKeepsLeaders(run: seq<State>, i: nat)
    requires IsRun(run) && i < |run|
    ensures LeadersLead(run[i])
  {
    hide Inv, IsStep;
    if i > 0 {
      hide IsRun, LeadersLead;
      RunKeepsLeaders(run, i - 1);
      RunKeepsInv(run, i - 1);
      RunSteps(run, i);
      LeadersOneMore(run[i - 1], run[i]);
    }
  }

  /**
  Nobody is stuck.  At any moment of any run, a call that has not come back has a step to take that is
  not giving up; or it waits for a load, and the call leading that load has one.
  */
  lemma NoCallIsStuck(run: seq<State>, i: nat, c: nat)
    requires IsRun(run) && i < |run| && c < |run[i].calls|
    requires !run[i].calls[c].at.Returned? && !run[i].calls[c].at.Errored?
    ensures Proceeds(run[i], NextOf(run[i], c), c)
            || (run[i].calls[c].at.Waiting? && WaitsFor(run[i], c, run[i].calls[c].at.load)
                && var leader := run[i].loads[run[i].calls[c].at.load].leader;
                   leader < |run[i].calls| && Proceeds(run[i], NextOf(run[i], leader), leader))
  {
    var s := run[i];
    RunKeepsInv(run, i);
    assert CallOk(s, c);
    if s.calls[c].at.Waiting? && WaitsFor(s, c, s.calls[c].at.load) {
      RunKeepsLeaders(run, i);
      var leader := s.loads[s.calls[c].at.load].leader;
      assert CallOk(s, leader);
      hide Inv, CallOk, Proceeds, NextOf;
      CallsProceed(s, leader);
    } else {
      hide Inv, CallOk, Proceeds, NextOf;
      CallsProceed(s, c);
    }
  }

  /** What a writer needs for its next step: its counter registered, and a sweep's tournaments still to be visited. */
  ghost predicate WriterReady(s: State, w: nat)
    requires w < |s.writers|
  {
    var writer := s.writers[w];
    match writer.at
    case Bumping => writer.scope.One? && writer.scope.tournament in s.versions
    case Announced => writer.scope.One? ==> writer.scope.tournament in s.versions
    case Ended(_) => writer.scope.One? ==> writer.scope.tournament in s.versions
    case Sweeping(pending, visited) => writer.scope.Every? && pending <= s.versions.Keys && pending !! visited
    case Resweeping(_, pending, visited) => writer.scope.Every? && pending <= s.versions.Keys && pending !! visited
    case _ => true
  }

  ghost predicate WritersReady(s: State) { forall w :: 0 <= w < |s.writers| ==> WriterReady(s, w) }

  lemma WriteStepReadies(s: State, step: Step)
    requires IsWriteStep(step) && WriteEnabled(s, step) && WriterReady(s, step.w)
    ensures |WriteNext(s, step).writers| == |s.writers| && WriterReady(WriteNext(s, step), step.w)
    ensures s.versions.Keys <= WriteNext(s, step).versions.Keys
  {
  }

  lemma OthersStayReady(s: State, s': State, w: nat)
    requires w < |s.writers| && w < |s'.writers| && s'.writers[w] == s.writers[w]
    requires s.versions.Keys <= s'.versions.Keys && WriterReady(s, w)
    ensures WriterReady(s', w)
  {
  }

  lemma CallsKeepCounters(s: State, step: Step)
    requires IsCallStep(step) && CallEnabled(s, step)
    ensures s.versions.Keys <= CallNext(s, step).versions.Keys && CallNext(s, step).writers == s.writers
  {
  }

  lemma ReadyOneMore(s: State, s': State)
    requires WritersReady(s) && IsStep(s, s')
    ensures WritersReady(s')
  {
    hide WriterReady, CallNext, WriteNext, CallEnabled, WriteEnabled;
    var step :| Enabled(s, step) && s' == Next(s, step);
    if IsCallStep(step) {
      CallsKeepCounters(s, step);
    } else if IsWriteStep(step) {
      WriterIsThere(s, step);
      WriteStepReadies(s, step);
      WriterIsOneStepOn(s, step);
    }
    forall w | 0 <= w < |s'.writers| ensures WriterReady(s', w) {
      if w < |s.writers| && s'.writers[w] == s.writers[w] && s.versions.Keys <= s'.versions.Keys {
        OthersStayReady(s, s', w);
      } else if w >= |s.writers| {
        NewWritersAreReady(s', w);
      }
    }
  }

  lemma WriterIsThere(s: State, step: Step)
    requires IsWriteStep(step) && WriteEnabled(s, step)
    ensures step.w < |s.writers|
  {
  }

  lemma NewWritersAreReady(s: State, w: nat)
    requires w < |s.writers| && s.writers[w].at.Writing?
    ensures WriterReady(s, w)
  {
  }

  lemma {:induction false} RunKeepsReady(run: seq<State>, i: nat)
    requires IsRun(run) && i < |run|
    ensures WritersReady(run[i])
  {
    hide IsStep;
    if i > 0 {
      hide IsRun, WritersReady;
      RunKeepsReady(run, i - 1);
      RunSteps(run, i);
      ReadyOneMore(run[i - 1], run[i]);
    }
  }

  /** A writer's step towards its end, its transaction not given up. */
  predicate WriteProceeds(s: State, step: Step, w: nat) {
    IsWriteStep(step) && step.w == w && WriteEnabled(s, step)
    && !step.GiveUp? && !step.Rollback? && !step.CommitUnheard?
    && match step
       case Visit(_, t) => s.writers[w].at.Sweeping? && t in s.writers[w].at.pending
       case Revisit(_, t) => s.writers[w].at.Resweeping? && t in s.writers[w].at.pending
       case _ => true
  }

  /** Nor is a writer: until it has finished it can announce, commit, or get a sweep one tournament nearer its end. */
  lemma NoWriterIsStuck(run: seq<State>, i: nat, w: nat) returns (step: Step)
    requires IsRun(run) && i < |run| && w < |run[i].writers| && !run[i].writers[w].at.Finished?
    ensures WriteProceeds(run[i], step, w)
  {
    var s := run[i];
    RunKeepsReady(run, i);
    assert WriterReady(s, w);
    var one := s.writers[w].scope.One?;
    match s.writers[w].at
    case Writing => step := if one then WriterRegister(w) else StartSweep(w);
    case Bumping => step := Announce(w);
    case Announced => step := Commit(w);
    case Ended(_) => step := if one then AnnounceCompleted(w) else StartResweep(w);
    case Sweeping(pending, _) =>
      if t :| t in pending {
        step := Visit(w, t);
      } else {
        assert forall t :: t in pending <==> t in pending - pending;
        step := EndSweep(w);
      }
    case Resweeping(_, pending, _) =>
      if t :| t in pending {
        step := Revisit(w, t);
      } else {
        assert forall t :: t in pending <==> t in pending - pending;
        step := EndResweep(w);
      }
  }
}
