/**
The version-stamped match cache as a step system.

Any number of calls and writers run at once.  A step is one atomic action of one of them, or an
eviction.  The database is its committed history: a load reads a prefix of it, so a list is
identified by how many changes its load saw (`seen`).  A cache entry is identified by the load
that produced it, which is what pointer equality compares.
*/
module MatchCache {
  import opened Options

  const MAX_LOAD_ATTEMPTS: nat := 3

  /** A recorded, corrected or deleted match touches one tournament; a rename touches all of them. */
  datatype Scope = One(tournament: int) | Every

  datatype Change = Change(writer: nat, scope: Scope)

  predicate Touches(change: Change, t: int) {
    change.scope.Every? || change.scope.tournament == t
  }

  /** The list a load assembles for one tournament: the changes to it, in commit order. */
  function MatchList(history: seq<Change>, t: int): seq<Change> {
    if history == [] then []
    else
      var rest := MatchList(history[..|history| - 1], t);
      var last := history[|history| - 1];
      if Touches(last, t) then rest + [last] else rest
  }

  datatype Phase = Running | Read(seen: nat) | Published(seen: nat) | Failed | Cancelled

  datatype Load = Load(tournament: int, version: nat, leader: nat, phase: Phase) {
    predicate HasRead() { phase.Read? || phase.Published? }
  }

  /** Where one call to `get_or_load` stands. */
  datatype CallPoint =
    | Called
    | Looping
    | Stamping(version: nat)
    | Leading(load: nat)
    | Waiting(load: nat, version: nat)
    | Holding(load: nat)
    | Rejecting(load: nat)
    | Bypassing
    | Bypassed(seen: nat)
    | Returned(seen: nat)
    | Errored

  /** `owed` records, at the moment of the call, every commit whose announcement had completed. */
  datatype Call = Call(tournament: int, owed: set<nat>, attempt: nat, loadsRun: nat, at: CallPoint)

  /** Where one write stands: announce, end the transaction, announce again. */
  datatype WritePoint =
    | Writing
    | Bumping
    | Sweeping(pending: set<int>, visited: set<int>)
    | Announced
    | Ended(commit: Option<nat>)
    | Resweeping(commit: Option<nat>, pending: set<int>, visited: set<int>)
    | Finished

  datatype Writer = Writer(scope: Scope, at: WritePoint)

  datatype State = State(
    committed: seq<Change>,
    announced: set<nat>,
    versions: map<int, nat>,
    cache: map<int, nat>,
    inFlight: map<int, nat>,
    loads: seq<Load>,
    calls: seq<Call>,
    writers: seq<Writer>)

  predicate Initial(s: State) {
    s == State([], {}, map[], map[], map[], [], [], [])
  }

  datatype Step =
    | StartCall(t: int)
    | Register(c: nat)
    | ReadCounter(c: nat)
    | Hit(c: nat)
    | Join(c: nat)
    | Lead(c: nat)
    | Snapshot(c: nat)
    | Publish(c: nat)
    | LoadFails(c: nat)
    | Receive(c: nat)
    | ReceiveError(c: nat)
    | TakeOver(c: nat)
    | Accept(c: nat)
    | Reject(c: nat)
    | Discard(c: nat)
    | ReadThrough(c: nat)
    | ReturnThrough(c: nat)
    | Cancel(c: nat)
    | Evict(t: int)
    | StartWrite(scope: Scope)
    | WriterRegister(w: nat)
    | Announce(w: nat)
    | StartSweep(w: nat)
    | Visit(w: nat, t: int)
    | EndSweep(w: nat)
    | Commit(w: nat)
    | Rollback(w: nat)
    | GiveUp(w: nat)
    | CommitUnheard(w: nat)
    | AnnounceCompleted(w: nat)
    | StartResweep(w: nat)
    | Revisit(w: nat, t: int)
    | EndResweep(w: nat)

  predicate IsCallStep(step: Step) {
    step.Register? || step.ReadCounter? || step.Hit? || step.Join? || step.Lead? || step.Snapshot? || step.Publish?
    || step.LoadFails? || step.Receive? || step.ReceiveError? || step.TakeOver? || step.Accept? || step.Reject?
    || step.Discard? || step.ReadThrough? || step.ReturnThrough? || step.Cancel?
  }

  predicate IsWriteStep(step: Step) {
    step.WriterRegister? || step.Announce? || step.StartSweep? || step.Visit? || step.EndSweep? || step.Commit?
    || step.Rollback? || step.GiveUp? || step.CommitUnheard? || step.AnnounceCompleted? || step.StartResweep?
    || step.Revisit? || step.EndResweep?
  }

  predicate LoadIs(s: State, l: nat, t: int) {
    l < |s.loads| && s.loads[l].tournament == t
  }

  /** The guard of a call's step, read off its program point and the shared cache. */
  predicate CallEnabled(s: State, step: Step)
    requires IsCallStep(step)
  {
    step.c < |s.calls| &&
    var call := s.calls[step.c];
    var t := call.tournament;
    match step
    case Register(_) => call.at.Called?
    case ReadCounter(_) => call.at.Looping? && t in s.versions
    case Hit(_) => call.at.Stamping? && t in s.cache
    case Join(_) => call.at.Stamping? && t !in s.cache && t in s.inFlight
    case Lead(_) => call.at.Stamping? && t !in s.cache && t !in s.inFlight
    case Snapshot(_) => call.at.Leading? && LoadIs(s, call.at.load, t) && s.loads[call.at.load].phase.Running?
    case Publish(_) => call.at.Leading? && LoadIs(s, call.at.load, t) && s.loads[call.at.load].phase.Read?
    case LoadFails(_) => call.at.Leading? && LoadIs(s, call.at.load, t)
    case Receive(_) => call.at.Waiting? && LoadIs(s, call.at.load, t) && s.loads[call.at.load].phase.Published?
    case ReceiveError(_) => call.at.Waiting? && LoadIs(s, call.at.load, t) && s.loads[call.at.load].phase.Failed?
    case TakeOver(_) => call.at.Waiting? && LoadIs(s, call.at.load, t) && s.loads[call.at.load].phase.Cancelled?
    case Accept(_) =>
      call.at.Holding? && LoadIs(s, call.at.load, t) && s.loads[call.at.load].phase.Published?
      && t in s.versions && s.loads[call.at.load].version == s.versions[t]
    case Reject(_) =>
      call.at.Holding? && LoadIs(s, call.at.load, t) && t in s.versions
      && s.loads[call.at.load].version != s.versions[t]
    case Discard(_) => call.at.Rejecting?
    case ReadThrough(_) => call.at.Bypassing?
    case ReturnThrough(_) => call.at.Bypassed?
    case Cancel(_) => !call.at.Returned? && !call.at.Errored? && (call.at.Leading? ==> LoadIs(s, call.at.load, t))
  }

  predicate WriteEnabled(s: State, step: Step)
    requires IsWriteStep(step)
  {
    step.w < |s.writers| &&
    var writer := s.writers[step.w];
    match step
    case WriterRegister(_) => writer.at.Writing? && writer.scope.One?
    case Announce(_) => writer.at.Bumping? && writer.scope.One? && writer.scope.tournament in s.versions
    case StartSweep(_) => writer.at.Writing? && writer.scope.Every?
    case Visit(_, t) => writer.at.Sweeping? && t in s.versions && t !in writer.at.visited
    case EndSweep(_) => writer.at.Sweeping? && writer.at.pending == {}
    case Commit(_) => writer.at.Announced?
    case Rollback(_) => writer.at.Announced?
    case GiveUp(_) => writer.at.Writing? || writer.at.Announced?
    case CommitUnheard(_) => writer.at.Announced?
    case AnnounceCompleted(_) => writer.at.Ended? && writer.scope.One? && writer.scope.tournament in s.versions
    case StartResweep(_) => writer.at.Ended? && writer.scope.Every?
    case Revisit(_, t) => writer.at.Resweeping? && t in s.versions && t !in writer.at.visited
    case EndResweep(_) => writer.at.Resweeping? && writer.at.pending == {}
  }

  predicate Enabled(s: State, step: Step) {
    if IsCallStep(step) then CallEnabled(s, step)
    else if IsWriteStep(step) then WriteEnabled(s, step)
    else step.Evict? ==> step.t in s.cache
  }

  /** `entry(t).or_insert(0)`: a counter, once registered, is never removed. */
  function Registered(versions: map<int, nat>, t: int): map<int, nat> {
    if t in versions then versions else versions[t := 0]
  }

  function Bumped(versions: map<int, nat>, t: int): map<int, nat>
    requires t in versions
  {
    versions[t := versions[t] + 1]
  }

  function Moved(s: State, c: nat, at: CallPoint): State
    requires c < |s.calls|
  {
    s.(calls := s.calls[c := s.calls[c].(at := at)])
  }

  function Phased(s: State, l: nat, phase: Phase): State
    requires l < |s.loads|
  {
    s.(loads := s.loads[l := s.loads[l].(phase := phase)])
  }

  /** The key's in-flight load is over. */
  function Landed(s: State, t: int): State {
    s.(inFlight := s.inFlight - {t})
  }

  /** One more attempt is spent; the third sends the call past the cache. */
  function Retried(call: Call): Call {
    var attempt := call.attempt + 1;
    call.(attempt := attempt, at := if attempt < MAX_LOAD_ATTEMPTS then Looping else Bypassing)
  }

  function CallNext(s: State, step: Step): State
    requires IsCallStep(step) && CallEnabled(s, step)
  {
    var c := step.c;
    var call := s.calls[c];
    var t := call.tournament;
    match step
    case Register(_) => Moved(s.(versions := Registered(s.versions, t)), c, Looping)
    case ReadCounter(_) => Moved(s, c, Stamping(s.versions[t]))
    case Hit(_) => Moved(s, c, Holding(s.cache[t]))
    case Join(_) => Moved(s, c, Waiting(s.inFlight[t], call.at.version))
    case Lead(_) =>
      s.(loads := s.loads + [Load(t, call.at.version, c, Running)],
         inFlight := s.inFlight[t := |s.loads|],
         calls := s.calls[c := call.(loadsRun := call.loadsRun + 1, at := Leading(|s.loads|))])
    case Snapshot(_) => Phased(s, call.at.load, Read(|s.committed|))
    case Publish(_) =>
      var l := call.at.load;
      var published := Phased(s, l, Published(s.loads[l].phase.seen));
      Moved(Landed(published, t).(cache := s.cache[t := l]), c, Holding(l))
    case LoadFails(_) => Moved(Landed(Phased(s, call.at.load, Failed), t), c, Errored)
    case Receive(_) => Moved(s, c, Holding(call.at.load))
    case ReceiveError(_) => Moved(s, c, Errored)
    case TakeOver(_) => Moved(s, c, Stamping(call.at.version))
    case Accept(_) => Moved(s, c, Returned(s.loads[call.at.load].phase.seen))
    case Reject(_) => Moved(s, c, Rejecting(call.at.load))
    case Discard(_) =>
      var kept := if t in s.cache && s.cache[t] == call.at.load then s.cache - {t} else s.cache;
      s.(cache := kept, calls := s.calls[c := Retried(call)])
    case ReadThrough(_) =>
      s.(calls := s.calls[c := call.(loadsRun := call.loadsRun + 1, at := Bypassed(|s.committed|))])
    case ReturnThrough(_) => Moved(s, c, Returned(call.at.seen))
    case Cancel(_) =>
      if call.at.Leading? then Moved(Landed(Phased(s, call.at.load, Cancelled), t), c, Errored)
      else Moved(s, c, Errored)
  }

  function WriterMoved(s: State, w: nat, at: WritePoint): State
    requires w < |s.writers|
  {
    s.(writers := s.writers[w := s.writers[w].(at := at)])
  }

  /** The completion announcement of a committed change is over. */
  function Completed(s: State, commit: Option<nat>): State {
    match commit
    case None => s
    case Some(p) => s.(announced := s.announced + {p})
  }

  function WriteNext(s: State, step: Step): State
    requires IsWriteStep(step) && WriteEnabled(s, step)
  {
    var w := step.w;
    var writer := s.writers[w];
    match step
    case WriterRegister(_) =>
      WriterMoved(s.(versions := Registered(s.versions, writer.scope.tournament)), w, Bumping)
    case Announce(_) => WriterMoved(s.(versions := Bumped(s.versions, writer.scope.tournament)), w, Announced)
    case StartSweep(_) => WriterMoved(s, w, Sweeping(s.versions.Keys, {}))
    case Visit(_, t) =>
      WriterMoved(s.(versions := Bumped(s.versions, t)), w,
                  Sweeping(writer.at.pending - {t}, writer.at.visited + {t}))
    case EndSweep(_) => WriterMoved(s, w, Announced)
    case Commit(_) =>
      WriterMoved(s.(committed := s.committed + [Change(w, writer.scope)]), w, Ended(Some(|s.committed|)))
    case Rollback(_) => WriterMoved(s, w, Ended(None))
    case GiveUp(_) => WriterMoved(s, w, Finished)
    case CommitUnheard(_) => WriterMoved(s.(committed := s.committed + [Change(w, writer.scope)]), w, Finished)
    case AnnounceCompleted(_) =>
      Completed(WriterMoved(s.(versions := Bumped(s.versions, writer.scope.tournament)), w, Finished),
                writer.at.commit)
    case StartResweep(_) => WriterMoved(s, w, Resweeping(writer.at.commit, s.versions.Keys, {}))
    case Revisit(_, t) =>
      WriterMoved(s.(versions := Bumped(s.versions, t)), w,
                  Resweeping(writer.at.commit, writer.at.pending - {t}, writer.at.visited + {t}))
    case EndResweep(_) => Completed(WriterMoved(s, w, Finished), writer.at.commit)
  }

  function Next(s: State, step: Step): State
    requires Enabled(s, step)
  {
    if IsCallStep(step) then CallNext(s, step)
    else if IsWriteStep(step) then WriteNext(s, step)
    else
      match step
      case StartCall(t) => s.(calls := s.calls + [Call(t, s.announced, 0, 0, Called)])
      case StartWrite(scope) => s.(writers := s.writers + [Writer(scope, Writing)])
      case Evict(t) => s.(cache := s.cache - {t})
  }

  ghost predicate IsRun(run: seq<State>) {
    |run| > 0 && Initial(run[0]) &&
    forall i :: 0 <= i < |run| - 1 ==> IsStep(run[i], run[i + 1])
  }

  ghost predicate IsStep(s: State, s': State) {
    exists step :: Enabled(s, step) && s' == Next(s, step)
  }

  // ---------------------------------------------------------------- the invariant

  /** No list of `t` that misses commit `p` can still be accepted. */
  ghost predicate Covered(s: State, p: nat, t: int) {
    t in s.versions ==>
      forall l :: 0 <= l < |s.loads| && s.loads[l].tournament == t && s.loads[l].HasRead() ==>
        p < s.loads[l].phase.seen || s.loads[l].version < s.versions[t]
  }

  ghost predicate LoadOk(s: State, l: nat)
    requires l < |s.loads|
  {
    var load := s.loads[l];
    load.tournament in s.versions && load.version <= s.versions[load.tournament]
    && (load.HasRead() ==> load.phase.seen <= |s.committed|)
  }

  ghost predicate CallOk(s: State, c: nat)
    requires c < |s.calls|
  {
    var call := s.calls[c];
    var t := call.tournament;
    && call.owed <= s.announced
    && (call.at.Called? || call.at.Errored? || t in s.versions)
    && match call.at
       case Called => call.attempt == 0 && call.loadsRun == 0
       case Looping => call.loadsRun <= call.attempt < MAX_LOAD_ATTEMPTS
       case Stamping(v) => v <= s.versions[t] && call.loadsRun <= call.attempt < MAX_LOAD_ATTEMPTS
       case Leading(l) =>
         LoadIs(s, l, t) && s.loads[l].leader == c && (s.loads[l].phase.Running? || s.loads[l].phase.Read?)
         && call.loadsRun <= call.attempt + 1 <= MAX_LOAD_ATTEMPTS
       case Waiting(l, v) =>
         LoadIs(s, l, t) && v <= s.versions[t] && call.loadsRun <= call.attempt < MAX_LOAD_ATTEMPTS
       case Holding(l) =>
         LoadIs(s, l, t) && s.loads[l].phase.Published? && call.loadsRun <= call.attempt + 1 <= MAX_LOAD_ATTEMPTS
       case Rejecting(l) =>
         LoadIs(s, l, t) && s.loads[l].phase.Published? && s.loads[l].version < s.versions[t]
         && call.loadsRun <= call.attempt + 1 <= MAX_LOAD_ATTEMPTS
       case Bypassing => call.loadsRun <= MAX_LOAD_ATTEMPTS
       case Bypassed(seen) =>
         seen <= |s.committed| && (forall p :: p in call.owed ==> p < seen)
         && call.loadsRun <= MAX_LOAD_ATTEMPTS + 1
       case Returned(seen) =>
         seen <= |s.committed| && call.loadsRun <= MAX_LOAD_ATTEMPTS + 1
         && (forall p :: p in call.owed && p < |s.committed| && Touches(s.committed[p], t) ==> p < seen)
       case Errored => call.loadsRun <= MAX_LOAD_ATTEMPTS + 1
  }

  ghost predicate WriterOk(s: State, w: nat)
    requires w < |s.writers|
  {
    var writer := s.writers[w];
    match writer.at
    case Ended(Some(p)) => p < |s.committed| && s.committed[p].scope == writer.scope
    case Resweeping(Some(p), pending, _) =>
      p < |s.committed| && s.committed[p].scope.Every? && writer.scope.Every?
      && forall t :: t !in pending ==> Covered(s, p, t)
    case _ => true
  }

  ghost predicate AnnouncedOk(s: State) {
    forall p :: p in s.announced ==>
      p < |s.committed| && forall t :: Touches(s.committed[p], t) ==> Covered(s, p, t)
  }

  ghost predicate StoreOk(s: State) {
    && (forall t :: t in s.cache ==> LoadIs(s, s.cache[t], t) && s.loads[s.cache[t]].phase.Published?)
    && (forall t :: t in s.inFlight ==> LoadIs(s, s.inFlight[t], t))
  }

  ghost predicate Inv(s: State) {
    && (forall l :: 0 <= l < |s.loads| ==> LoadOk(s, l))
    && (forall c :: 0 <= c < |s.calls| ==> CallOk(s, c))
    && (forall w :: 0 <= w < |s.writers| ==> WriterOk(s, w))
    && AnnouncedOk(s)
    && StoreOk(s)
  }

  // ---------------------------------------------------------------- one step

  /** What any step leaves true: history, announcements, counters and finished loads only grow. */
  ghost predicate Grows(s: State, s': State) {
    && s.committed <= s'.committed
    && s.announced <= s'.announced
    && (forall t :: t in s.versions ==> t in s'.versions && s.versions[t] <= s'.versions[t])
    && |s.loads| <= |s'.loads|
    && (forall l :: 0 <= l < |s.loads| ==>
          && s'.loads[l].tournament == s.loads[l].tournament
          && s'.loads[l].version == s.loads[l].version
          && s'.loads[l].leader == s.loads[l].leader
          && (s.loads[l].phase.Published? ==> s'.loads[l].phase == s.loads[l].phase))
  }

  /** Every list a step makes readable was read at or after the step's own history. */
  ghost predicate ReadsFresh(s: State, s': State)
    requires |s.loads| <= |s'.loads|
  {
    && (forall l :: 0 <= l < |s.loads| && s'.loads[l].HasRead() ==>
          if s.loads[l].HasRead() then s'.loads[l].phase.seen == s.loads[l].phase.seen
          else s'.loads[l].phase.seen == |s.committed|)
    && (forall l :: |s.loads| <= l < |s'.loads| ==> !s'.loads[l].HasRead())
  }

  /** Coverage is stable: nothing a step does can make a covered commit missable again. */
  lemma CoveredStays(s: State, s': State, p: nat, t: int)
    requires Inv(s) && Grows(s, s') && ReadsFresh(s, s')
    requires p < |s.committed| && Covered(s, p, t)
    ensures Covered(s', p, t)
  {
    if t in s'.versions {
      forall l | 0 <= l < |s'.loads| && s'.loads[l].tournament == t && s'.loads[l].HasRead()
        ensures p < s'.loads[l].phase.seen || s'.loads[l].version < s'.versions[t]
      {
        assert l < |s.loads|;
        assert LoadOk(s, l);
      }
    }
  }

  /** A bump after the commit covers it: every list already stamped is now a counter behind. */
  lemma BumpCovers(s: State, s': State, p: nat, t: int)
    requires Inv(s) && t in s.versions && s'.versions == Bumped(s.versions, t) && s'.loads == s.loads
    ensures Covered(s', p, t)
  {
    forall l | 0 <= l < |s.loads| && s.loads[l].tournament == t
      ensures s.loads[l].version < s'.versions[t]
    {
      assert LoadOk(s, l);
    }
  }

  lemma CallStays(s: State, s': State, c: nat)
    requires c < |s.calls| && CallOk(s, c) && Grows(s, s')
    requires c < |s'.calls| && s'.calls[c] == s.calls[c]
    requires forall l :: 0 <= l < |s.loads| && s.loads[l].leader == c ==> s'.loads[l] == s.loads[l]
    requires forall p :: p in s.announced ==> p < |s.committed|
    ensures CallOk(s', c)
  {
    var call := s.calls[c];
    assert forall p :: p in call.owed ==> p < |s.committed| && s'.committed[p] == s.committed[p];
  }

  /** A call's step touches its own call and, at most, the load it leads. */
  ghost predicate Local(s: State, s': State, c: nat) {
    && Grows(s, s') && ReadsFresh(s, s')
    && s'.committed == s.committed && s'.announced == s.announced && s'.writers == s.writers
    && |s'.calls| == |s.calls|
    && (forall k :: 0 <= k < |s.calls| && k != c ==> s'.calls[k] == s.calls[k])
    && (forall l :: 0 <= l < |s.loads| && s.loads[l].leader != c ==> s'.loads[l] == s.loads[l])
  }

  ghost predicate LoadsOk(s: State) {
    forall l :: 0 <= l < |s.loads| ==> LoadOk(s, l)
  }

  /** The steps that touch a load or the store; the others only move the call along. */
  predicate MovesLoads(step: Step) {
    step.Lead? || step.Snapshot? || step.Publish? || step.LoadFails? || step.Discard? || step.Cancel?
  }

  /** Nothing but the call's own place changes, and perhaps a counter is registered. */
  ghost predicate OnlyMoves(s: State, s': State, c: nat) {
    && s'.committed == s.committed && s'.announced == s.announced && s'.writers == s.writers
    && s'.loads == s.loads && s'.cache == s.cache && s'.inFlight == s.inFlight
    && |s'.calls| == |s.calls|
    && (forall k :: 0 <= k < |s.calls| && k != c ==> s'.calls[k] == s.calls[k])
    && (forall t :: t in s.versions ==> t in s'.versions && s'.versions[t] == s.versions[t])
  }

  lemma OtherStepsOnlyMove(s: State, step: Step)
    requires IsCallStep(step) && CallEnabled(s, step) && !MovesLoads(step)
    ensures OnlyMoves(s, CallNext(s, step), step.c)
  {
  }

  lemma MovingIsSafe(s: State, s': State, c: nat)
    requires LoadsOk(s) && StoreOk(s) && OnlyMoves(s, s', c)
    ensures Local(s, s', c) && LoadsOk(s') && StoreOk(s')
  {
    forall l | 0 <= l < |s'.loads| ensures LoadOk(s', l) {
      assert LoadOk(s, l);
    }
  }

  lemma LoadStepIsLocal(s: State, step: Step)
    requires IsCallStep(step) && CallEnabled(s, step) && MovesLoads(step)
    requires CallOk(s, step.c)
    ensures Local(s, CallNext(s, step), step.c)
  {
  }

  lemma LoadStepKeepsLoads(s: State, step: Step, l: nat)
    requires IsCallStep(step) && CallEnabled(s, step) && MovesLoads(step)
    requires CallOk(s, step.c) && LoadsOk(s)
    requires l < |CallNext(s, step).loads|
    ensures LoadOk(CallNext(s, step), l)
  {
    if l < |s.loads| {
      assert LoadOk(s, l);
    }
  }

  lemma LoadStepKeepsStore(s: State, step: Step)
    requires IsCallStep(step) && CallEnabled(s, step) && MovesLoads(step)
    requires CallOk(s, step.c) && StoreOk(s)
    ensures StoreOk(CallNext(s, step))
  {
    var s' := CallNext(s, step);
    forall t | t in s'.cache
      ensures LoadIs(s', s'.cache[t], t) && s'.loads[s'.cache[t]].phase.Published?
    {
      if t in s.cache && s'.cache[t] == s.cache[t] {
        assert s.loads[s.cache[t]].phase.Published?;
      }
    }
  }

  lemma CallStepIsLocal(s: State, step: Step)
    requires Inv(s) && IsCallStep(step) && CallEnabled(s, step)
    ensures Local(s, CallNext(s, step), step.c)
    ensures LoadsOk(CallNext(s, step)) && StoreOk(CallNext(s, step))
  {
    assert LoadsOk(s) && StoreOk(s) && CallOk(s, step.c);
    hide Inv, CallNext, CallEnabled, CallOk, LoadOk, StoreOk, Local;
    if MovesLoads(step) {
      LoadStepIsLocal(s, step);
      forall l | 0 <= l < |CallNext(s, step).loads| ensures LoadOk(CallNext(s, step), l) {
        LoadStepKeepsLoads(s, step, l);
      }
      LoadStepKeepsStore(s, step);
    } else {
      OtherStepsOnlyMove(s, step);
      MovingIsSafe(s, CallNext(s, step), step.c);
    }
  }

  /** The freshness argument itself: a matching stamp means nothing announced is missing. */
  lemma MatchingStampIsFresh(s: State, l: nat, t: int, p: nat)
    requires Inv(s) && LoadIs(s, l, t) && s.loads[l].phase.Published?
    requires t in s.versions && s.loads[l].version == s.versions[t]
    requires p in s.announced && p < |s.committed| && Touches(s.committed[p], t)
    ensures p < s.loads[l].phase.seen
  {
    assert Covered(s, p, t);
    assert s.loads[l].HasRead();
  }

  lemma AcceptKeepsItself(s: State, c: nat)
    requires Inv(s) && CallEnabled(s, Accept(c))
    ensures CallOk(CallNext(s, Accept(c)), c)
  {
    var call := s.calls[c];
    assert CallOk(s, c);
    forall p | p in call.owed && p < |s.committed| && Touches(s.committed[p], call.tournament)
      ensures p < s.loads[call.at.load].phase.seen
    {
      MatchingStampIsFresh(s, call.at.load, call.tournament, p);
    }
    assert LoadOk(s, call.at.load);
  }

  lemma LoadStepKeepsItself(s: State, step: Step)
    requires IsCallStep(step) && CallEnabled(s, step) && MovesLoads(step)
    requires CallOk(s, step.c)
    ensures CallOk(CallNext(s, step), step.c)
  {
  }

  lemma OtherStepKeepsItself(s: State, step: Step)
    requires IsCallStep(step) && CallEnabled(s, step) && !MovesLoads(step) && !step.Accept?
    requires CallOk(s, step.c) && LoadsOk(s) && StoreOk(s) && forall p :: p in s.announced ==> p < |s.committed|
    ensures CallOk(CallNext(s, step), step.c)
  {
    if step.Reject? {
      assert LoadOk(s, s.calls[step.c].at.load);
    } else if step.ReadThrough? {
      assert forall p :: p in s.calls[step.c].owed ==> p in s.announced;
    }
  }

  lemma CallStepKeepsItself(s: State, step: Step)
    requires Inv(s) && IsCallStep(step) && CallEnabled(s, step)
    ensures CallOk(CallNext(s, step), step.c)
  {
    assert LoadsOk(s) && StoreOk(s) && CallOk(s, step.c) && AnnouncedOk(s);
    hide Inv, CallNext, CallEnabled, CallOk, LoadsOk, StoreOk;
    if step.Accept? {
      AcceptKeepsItself(s, step.c);
    } else if MovesLoads(step) {
      LoadStepKeepsItself(s, step);
    } else {
      OtherStepKeepsItself(s, step);
    }
  }

  lemma CallStepKeepsInv(s: State, step: Step)
    requires Inv(s) && IsCallStep(step) && CallEnabled(s, step)
    ensures Inv(CallNext(s, step))
  {
    var s' := CallNext(s, step);
    CallStepIsLocal(s, step);
    CallStepKeepsItself(s, step);
    hide CallNext, CallEnabled, CallOk;
    forall c | 0 <= c < |s'.calls| ensures CallOk(s', c) {
      if c != step.c {
        assert CallOk(s, c);
        CallStays(s, s', c);
      }
    }
    WritersAndAnnouncementsStay(s, s');
  }

  /** Writers that do not move, and commits already announced, stay as safe as they were. */
  lemma WritersAndAnnouncementsStay(s: State, s': State)
    requires Inv(s) && Grows(s, s') && ReadsFresh(s, s')
    requires |s.writers| <= |s'.writers|
    ensures forall w :: 0 <= w < |s.writers| && s'.writers[w] == s.writers[w] ==> WriterOk(s', w)
    ensures forall p :: p in s.announced ==>
              p < |s'.committed| && forall t :: Touches(s'.committed[p], t) ==> Covered(s', p, t)
  {
    forall w | 0 <= w < |s.writers| && s'.writers[w] == s.writers[w]
      ensures WriterOk(s', w)
    {
      assert WriterOk(s, w);
      var at := s.writers[w].at;
      if at.Resweeping? && at.commit.Some? {
        forall t | t !in at.pending ensures Covered(s', at.commit.value, t) {
          CoveredStays(s, s', at.commit.value, t);
        }
      }
    }
    forall p | p in s.announced
      ensures p < |s'.committed| && forall t :: Touches(s'.committed[p], t) ==> Covered(s', p, t)
    {
      forall t | Touches(s'.committed[p], t) ensures Covered(s', p, t) {
        CoveredStays(s, s', p, t);
      }
    }
  }

  lemma WriteStepGrows(s: State, step: Step)
    requires Inv(s) && IsWriteStep(step) && WriteEnabled(s, step)
    ensures var s' := WriteNext(s, step);
      && Grows(s, s') && ReadsFresh(s, s')
      && s'.loads == s.loads && s'.calls == s.calls && s'.cache == s.cache && s'.inFlight == s.inFlight
      && |s'.writers| == |s.writers|
      && (forall w :: 0 <= w < |s.writers| && w != step.w ==> s'.writers[w] == s.writers[w])
  {
    hide Inv;
  }

  /** A second sweep has covered every tournament it has visited, and every one with no load yet. */
  lemma WriteStepKeepsItself(s: State, step: Step)
    requires Inv(s) && IsWriteStep(step) && WriteEnabled(s, step)
    ensures WriterOk(WriteNext(s, step), step.w)
  {
    var s' := WriteNext(s, step);
    var writer := s.writers[step.w];
    assert WriterOk(s, step.w);
    WriteStepGrows(s, step);
    if step.StartResweep? && writer.at.commit.Some? {
      forall t | t !in s.versions ensures Covered(s', writer.at.commit.value, t) {}
    } else if step.Revisit? && writer.at.commit.Some? {
      var p := writer.at.commit.value;
      forall t | t !in s'.writers[step.w].at.pending ensures Covered(s', p, t) {
        if t == step.t {
          BumpCovers(s, s', p, t);
        } else {
          CoveredStays(s, s', p, t);
        }
      }
    }
  }

  lemma WriteStepAnnounces(s: State, step: Step, p: nat)
    requires Inv(s) && IsWriteStep(step) && WriteEnabled(s, step)
    requires p in WriteNext(s, step).announced && p !in s.announced
    ensures var s' := WriteNext(s, step);
      p < |s'.committed| && forall t :: Touches(s'.committed[p], t) ==> Covered(s', p, t)
  {
    var s' := WriteNext(s, step);
    var writer := s.writers[step.w];
    assert WriterOk(s, step.w);
    WriteStepGrows(s, step);
    assert writer.at.commit == Some(p);
    if step.AnnounceCompleted? {
      BumpCovers(s, s', p, writer.scope.tournament);
    } else {
      assert step.EndResweep?;
      forall t ensures Covered(s', p, t) {
        CoveredStays(s, s', p, t);
      }
    }
  }

  lemma WriteStepKeepsInv(s: State, step: Step)
    requires Inv(s) && IsWriteStep(step) && WriteEnabled(s, step)
    ensures Inv(WriteNext(s, step))
  {
    var s' := WriteNext(s, step);
    WriteStepGrows(s, step);
    WritersAndAnnouncementsStay(s, s');
    forall l | 0 <= l < |s'.loads| ensures LoadOk(s', l) {
      assert LoadOk(s, l);
    }
    forall c | 0 <= c < |s'.calls| ensures CallOk(s', c) {
      CallStays(s, s', c);
    }
    forall w | 0 <= w < |s'.writers| ensures WriterOk(s', w) {
      if w == step.w {
        WriteStepKeepsItself(s, step);
      }
    }
    forall p | p in s'.announced
      ensures p < |s'.committed| && forall t :: Touches(s'.committed[p], t) ==> Covered(s', p, t)
    {
      if p !in s.announced {
        WriteStepAnnounces(s, step, p);
      }
    }
    assert StoreOk(s');
  }

  /** Every step of every interleaving keeps the invariant. */
  lemma StepKeepsInv(s: State, step: Step)
    requires Inv(s) && Enabled(s, step)
    ensures Inv(Next(s, step)) && Grows(s, Next(s, step))
  {
    if IsCallStep(step) {
      CallStepIsLocal(s, step);
      CallStepKeepsInv(s, step);
    } else if IsWriteStep(step) {
      WriteStepGrows(s, step);
      WriteStepKeepsInv(s, step);
    } else {
      EnvironmentStepKeepsInv(s, step);
    }
  }

  lemma EnvironmentStepKeepsInv(s: State, step: Step)
    requires Inv(s) && Enabled(s, step) && !IsCallStep(step) && !IsWriteStep(step)
    ensures Inv(Next(s, step)) && Grows(s, Next(s, step))
  {
    var s' := Next(s, step);
    WritersAndAnnouncementsStay(s, s');
    forall l | 0 <= l < |s'.loads| ensures LoadOk(s', l) {
      assert LoadOk(s, l);
    }
    forall c | 0 <= c < |s'.calls| ensures CallOk(s', c) {
      if c < |s.calls| {
        CallStays(s, s', c);
      }
    }
    assert forall w :: 0 <= w < |s'.writers| ==> WriterOk(s', w);
    assert StoreOk(s');
  }
}
