/**
The one read that can miss an announced change.  A call that has lost its three attempts reads past
the cache and returns what it read without checking the counter again.
*/
module ReadThrough {
  import opened Options
  import opened MatchCache
  import opened CacheRuns

  /** The two ways a call returns a list. */
  predicate Returns(s: State, step: Step, c: nat) {
    (step == Accept(c) || step == ReturnThrough(c)) && CallEnabled(s, step)
  }

  /** The call has read past the cache and not yet returned. */
  predicate HasReadPast(s: State, c: nat) { c < |s.calls| && s.calls[c].at.Bypassed? }

  // ---------------------------------------------------------------- whose step it is

  lemma OtherCallsStay(s: State, step: Step, c: nat)
    requires IsCallStep(step) && CallEnabled(s, step) && c != step.c
    ensures |CallNext(s, step).calls| == |s.calls| && CallNext(s, step).committed == s.committed
    ensures c < |s.calls| ==> CallNext(s, step).calls[c] == s.calls[c]
  {
  }

  lemma WritersLeaveCalls(s: State, step: Step)
    requires IsWriteStep(step) && WriteEnabled(s, step)
    ensures WriteNext(s, step).calls == s.calls
  {
  }

  /** A call reads past the cache in one step of its own, and sees the whole history of that moment. */
  lemma OwnStep(s: State, step: Step)
    requires IsCallStep(step) && CallEnabled(s, step)
    ensures var after := CallNext(s, step);
      && step.c < |after.calls| && after.committed == s.committed
      && (HasReadPast(after, step.c) ==> !HasReadPast(s, step.c) && after.calls[step.c].at.seen == |s.committed|)
      && (HasReadPast(s, step.c) ==>
            after.calls[step.c].at == Returned(s.calls[step.c].at.seen) || after.calls[step.c].at.Errored?)
      && !s.calls[step.c].at.Returned? && !s.calls[step.c].at.Errored?
  {
  }

  /** What a read past the cache saw is fixed when it reads, and is the whole history of that moment. */
  lemma ReadPastIsOfItsMoment(s: State, step: Step, c: nat)
    requires Enabled(s, step) && HasReadPast(Next(s, step), c)
    ensures if HasReadPast(s, c) then Next(s, step).calls[c].at == s.calls[c].at
            else Next(s, step).calls[c].at.seen == |s.committed| && IsCallStep(step)
  {
    hide CallNext, WriteNext, CallEnabled, WriteEnabled;
    if IsCallStep(step) {
      OwnStep(s, step);
      if c != step.c { OtherCallsStay(s, step, c); }
    } else if IsWriteStep(step) {
      WritersLeaveCalls(s, step);
    }
  }

  /** Having read past the cache, a call can only return what it read, or fail. */
  predicate Settled(s: State, c: nat, seen: nat) {
    c < |s.calls| && (s.calls[c].at == Bypassed(seen) || s.calls[c].at == Returned(seen) || s.calls[c].at.Errored?)
  }

  lemma SettledStays(s: State, step: Step, c: nat, seen: nat)
    requires Enabled(s, step) && Settled(s, c, seen)
    ensures Settled(Next(s, step), c, seen)
  {
    hide CallNext, WriteNext, CallEnabled, WriteEnabled;
    if IsCallStep(step) {
      OwnStep(s, step);
      if c != step.c { OtherCallsStay(s, step, c); }
    } else if IsWriteStep(step) {
      WritersLeaveCalls(s, step);
    }
  }

  lemma {:induction false} SettledRuns(run: seq<State>, k: nat, j: nat, c: nat, seen: nat)
    requires IsRun(run) && k <= j < |run| && Settled(run[k], c, seen)
    ensures Settled(run[j], c, seen)
    decreases j - k
  {
    hide Settled, IsStep, IsRun, Initial;
    if k < j {
      SettledRuns(run, k, j - 1, c, seen);
      RunSteps(run, j);
      StepOf(run[j - 1], run[j], c, seen);
    }
  }

  lemma StepOf(s: State, s': State, c: nat, seen: nat)
    requires IsStep(s, s') && Settled(s, c, seen)
    ensures Settled(s', c, seen)
  {
    hide Settled, Next, Enabled;
    var step :| Enabled(s, step) && s' == Next(s, step);
    SettledStays(s, step, c, seen);
  }

  lemma ReadPastStep(s: State, s': State, c: nat)
    requires IsStep(s, s') && HasReadPast(s', c)
    ensures if HasReadPast(s, c) then s'.calls[c].at == s.calls[c].at else s'.calls[c].at.seen == |s.committed|
  {
    hide Next, Enabled;
    var step :| Enabled(s, step) && s' == Next(s, step);
    ReadPastIsOfItsMoment(s, step, c);
  }

  /** A read past the cache that had not happened at moment `k` saw everything committed by then. */
  lemma {:induction false} LaterReadsSeeMore(run: seq<State>, k: nat, j: nat, c: nat)
    requires IsRun(run) && k <= j < |run| && HasReadPast(run[j], c) && !HasReadPast(run[k], c)
    ensures |run[k].committed| <= run[j].calls[c].at.seen
    decreases j - k
  {
    hide IsStep, IsRun, Initial, Inv;
    assert k < j;
    RunSteps(run, j);
    ReadPastStep(run[j - 1], run[j], c);
    if HasReadPast(run[j - 1], c) {
      LaterReadsSeeMore(run, k, j - 1, c);
    } else {
      RunGrows(run, k, j - 1);
    }
  }

  /**
  Exactly which reads can miss a change.  Take a change committed by the step after moment `k`, and
  announced by moment `i`.  A list returned for its tournament from then on has the change, unless
  the call had already read past the cache at moment `k`; and then it never has it.
  */
  lemma OnlyEarlierReadsMiss(run: seq<State>, k: nat, i: nat, j: nat, c: nat, step: Step)
    requires IsRun(run) && k < i <= j < |run|
    requires |run[k + 1].committed| == |run[k].committed| + 1 && |run[k].committed| in run[i].announced
    requires Returns(run[j], step, c) && |run[k].committed| < |run[j].committed|
    requires Touches(run[j].committed[|run[k].committed|], run[j].calls[c].tournament)
    ensures |run[k].committed| < CallNext(run[j], step).calls[c].at.seen <==> !HasReadPast(run[k], c)
  {
    var p := |run[k].committed|;
    RunKeepsInv(run, k);
    if HasReadPast(run[k], c) {
      var seen := run[k].calls[c].at.seen;
      assert CallOk(run[k], c);
      SettledRuns(run, k, j, c, seen);
    } else if step == Accept(c) {
      RunGrows(run, i, j);
      AcceptedListsAreCurrent(run, j, c, p);
    } else {
      AfterTheCommit(run, k, j, c);
    }
  }

  lemma AfterTheCommit(run: seq<State>, k: nat, j: nat, c: nat)
    requires IsRun(run) && k < j < |run| && HasReadPast(run[j], c) && !HasReadPast(run[k], c)
    requires |run[k + 1].committed| == |run[k].committed| + 1
    ensures |run[k].committed| < run[j].calls[c].at.seen
  {
    hide IsRun, Initial, Inv, IsStep, HasReadPast;
    RunSteps(run, k + 1);
    NoReadWhileCommitting(run[k], run[k + 1], c);
    LaterReadsSeeMore(run, k + 1, j, c);
  }

  /** The step that commits is a writer's, so no call reads in it. */
  lemma NoReadWhileCommitting(s: State, s': State, c: nat)
    requires IsStep(s, s') && |s'.committed| == |s.committed| + 1
    ensures HasReadPast(s', c) ==> HasReadPast(s, c)
  {
    hide Next, Enabled, HasReadPast;
    var step :| Enabled(s, step) && s' == Next(s, step);
    if HasReadPast(s', c) {
      ReadPastIsOfItsMoment(s, step, c);
      if IsCallStep(step) {
        CallStepKeepsHistory(s, step);
      }
    }
  }

  lemma CallStepKeepsHistory(s: State, step: Step)
    requires Enabled(s, step) && IsCallStep(step)
    ensures Next(s, step).committed == s.committed
  {
    hide CallNext, CallEnabled;
    OwnStep(s, step);
  }

  // ---------------------------------------------------------------- a run in which one does

  /** A path is a run that may start anywhere. */
  ghost predicate IsPath(path: seq<State>) {
    |path| > 0 && forall i :: 0 <= i < |path| - 1 ==> IsStep(path[i], path[i + 1])
  }

  lemma Stepped(s: State, step: Step, s': State)
    requires Enabled(s, step) && s' == Next(s, step)
    ensures IsPath([s, s'])
  {
    assert IsStep(s, s');
  }

  lemma OneMore(path: seq<State>, step: Step, s': State)
    requires IsPath(path) && Enabled(path[|path| - 1], step) && s' == Next(path[|path| - 1], step)
    ensures IsPath(path + [s'])
  {
    Stepped(path[|path| - 1], step, s');
    hide IsStep, Next, Enabled;
    assert [path[|path| - 1], s'][1..] == [s'];
  }

  /** The scene: one call for tournament 1, its counter at `v`, and the rest as it comes. */
  function Scene(
    v: nat, cache: map<int, nat>, inFlight: map<int, nat>, loads: seq<Load>, call: Call, writers: seq<Writer>): State
  {
    State([], {}, map[1 := v], cache, inFlight, loads, [call], writers)
  }

  function AfterAttempts(a: nat): Call {
    Call(1, {}, a, a, if a < MAX_LOAD_ATTEMPTS then Looping else Bypassing)
  }

  /** The call's load, in one of its phases. */
  function Loading(a: nat, v: nat, loads: seq<Load>, phase: Phase, writers: seq<Writer>): State {
    Scene(v, map[], map[1 := |loads|], loads + [Load(1, v, 0, phase)], Call(1, {}, a, a + 1, Leading(|loads|)), writers)
  }

  lemma Leads(a: nat, v: nat, loads: seq<Load>, writers: seq<Writer>) returns (path: seq<State>)
    requires a < MAX_LOAD_ATTEMPTS
    ensures IsPath(path) && path[0] == Scene(v, map[], map[], loads, AfterAttempts(a), writers)
    ensures path[|path| - 1] == Loading(a, v, loads, Running, writers)
  {
    var s0 := Scene(v, map[], map[], loads, AfterAttempts(a), writers);
    var s1 := Scene(v, map[], map[], loads, Call(1, {}, a, a, Stamping(v)), writers);
    var s2 := Loading(a, v, loads, Running, writers);
    Stepped(s0, ReadCounter(0), s1);
    OneMore([s0, s1], Lead(0), s2);
    path := [s0, s1] + [s2];
  }

  lemma Publishes(a: nat, v: nat, loads: seq<Load>, writers: seq<Writer>) returns (path: seq<State>)
    requires a < MAX_LOAD_ATTEMPTS
    ensures IsPath(path) && path[0] == Loading(a, v, loads, Running, writers)
    ensures path[|path| - 1]
            == Scene(v, map[1 := |loads|], map[], loads + [Load(1, v, 0, Published(0))],
                     Call(1, {}, a, a + 1, Holding(|loads|)), writers)
  {
    var n := |loads|;
    var s0 := Loading(a, v, loads, Running, writers);
    var s1 := Loading(a, v, loads, Read(0), writers);
    var call := Call(1, {}, a, a + 1, Holding(n));
    var s2 := Scene(v, map[1 := n], map[], loads + [Load(1, v, 0, Published(0))], call, writers);
    Stepped(s0, Snapshot(0), s1);
    assert map[1 := n] - {1} == map[];
    OneMore([s0, s1], Publish(0), s2);
    path := [s0, s1] + [s2];
  }

  /** One writer moving on. */
  function Seen(v: nat, cache: map<int, nat>, loads: seq<Load>, call: Call, writers: seq<Writer>, last: Writer): State {
    Scene(v, cache, map[], loads, call, writers + [last])
  }

  lemma WriterSteps(
      v: nat, cache: map<int, nat>, loads: seq<Load>, call: Call, writers: seq<Writer>, step: Step, from: Writer,
      v': nat, next: Writer)
    requires IsWriteStep(step) && step.w == |writers| && !step.Commit? && !step.CommitUnheard?
    requires !step.AnnounceCompleted? && !step.EndResweep?
    requires WriteEnabled(Seen(v, cache, loads, call, writers, from), step)
    requires var after := WriteNext(Seen(v, cache, loads, call, writers, from), step);
      after.writers[|writers|] == next && after.versions == map[1 := v']
    ensures IsPath([Seen(v, cache, loads, call, writers, from), Seen(v', cache, loads, call, writers, next)])
  {
    var s, s' := Seen(v, cache, loads, call, writers, from), Seen(v', cache, loads, call, writers, next);
    assert WriteNext(s, step).writers == s'.writers;
    assert WriteNext(s, step) == s';
    assert Enabled(s, step) && Next(s, step) == s';
    Stepped(s, step, s');
  }

  /** A write announces itself and is given up: the list in hand is now a counter behind. */
  lemma AWriteAnnounces(v: nat, cache: map<int, nat>, loads: seq<Load>, call: Call, writers: seq<Writer>)
    returns (path: seq<State>)
    ensures IsPath(path) && path[0] == Scene(v, cache, map[], loads, call, writers)
    ensures path[|path| - 1] == Scene(v + 1, cache, map[], loads, call, writers + [Writer(One(1), Finished)])
  {
    var w := |writers|;
    var s0 := Scene(v, cache, map[], loads, call, writers);
    var s1 := Seen(v, cache, loads, call, writers, Writer(One(1), Writing));
    var s2 := Seen(v, cache, loads, call, writers, Writer(One(1), Bumping));
    var s3 := Seen(v + 1, cache, loads, call, writers, Writer(One(1), Announced));
    var s4 := Seen(v + 1, cache, loads, call, writers, Writer(One(1), Finished));
    Stepped(s0, StartWrite(One(1)), s1);
    WriterSteps(v, cache, loads, call, writers, WriterRegister(w), Writer(One(1), Writing), v, Writer(One(1), Bumping));
    assert map[1 := v][1 := v + 1] == map[1 := v + 1];
    WriterSteps(v, cache, loads, call, writers, Announce(w), Writer(One(1), Bumping), v + 1, Writer(One(1), Announced));
    WriterSteps(v + 1, cache, loads, call, writers, GiveUp(w), Writer(One(1), Announced), v + 1,
                Writer(One(1), Finished));
    hide WriteNext, WriteEnabled, Next, Enabled, IsStep;
    path := Chain([s0, s1], [s1, s2], [s2, s3], [s3, s4]);
  }

  lemma Chain(a: seq<State>, b: seq<State>, c: seq<State>, d: seq<State>) returns (path: seq<State>)
    requires IsPath(a) && IsPath(b) && IsPath(c) && IsPath(d)
    requires a[|a| - 1] == b[0] && b[|b| - 1] == c[0] && c[|c| - 1] == d[0]
    ensures IsPath(path) && path[0] == a[0] && path[|path| - 1] == d[|d| - 1]
  {
    NotEmpty(a);
    NotEmpty(b);
    NotEmpty(c);
    NotEmpty(d);
    hide IsPath;
    path := a + b[1..] + c[1..] + d[1..];
  }

  /** The stale list is rejected and dropped, and the attempt is spent. */
  lemma RejectsAndDrops(a: nat, v: nat, loads: seq<Load>, writers: seq<Writer>) returns (path: seq<State>)
    requires a < MAX_LOAD_ATTEMPTS
    ensures var all := loads + [Load(1, v, 0, Published(0))];
      && IsPath(path)
      && path[0] == Scene(v + 1, map[1 := |loads|], map[], all, Call(1, {}, a, a + 1, Holding(|loads|)), writers)
      && path[|path| - 1] == Scene(v + 1, map[], map[], all, AfterAttempts(a + 1), writers)
  {
    var n, all := |loads|, loads + [Load(1, v, 0, Published(0))];
    var s0 := Scene(v + 1, map[1 := n], map[], all, Call(1, {}, a, a + 1, Holding(n)), writers);
    var s1 := Scene(v + 1, map[1 := n], map[], all, Call(1, {}, a, a + 1, Rejecting(n)), writers);
    var s2 := Scene(v + 1, map[], map[], all, AfterAttempts(a + 1), writers);
    Stepped(s0, Reject(0), s1);
    assert map[1 := n] - {1} == map[];
    OneMore([s0, s1], Discard(0), s2);
    path := [s0, s1] + [s2];
  }

  lemma OneAttempt(a: nat, v: nat, loads: seq<Load>, writers: seq<Writer>) returns (path: seq<State>)
    requires a < MAX_LOAD_ATTEMPTS
    ensures IsPath(path) && path[0] == Scene(v, map[], map[], loads, AfterAttempts(a), writers)
    ensures path[|path| - 1]
            == Scene(v + 1, map[], map[], loads + [Load(1, v, 0, Published(0))], AfterAttempts(a + 1),
                     writers + [Writer(One(1), Finished)])
  {
    hide IsPath;
    var n, all := |loads|, loads + [Load(1, v, 0, Published(0))];
    var lead := Leads(a, v, loads, writers);
    var first := Publishes(a, v, loads, writers);
    var second := AWriteAnnounces(v, map[1 := n], all, Call(1, {}, a, a + 1, Holding(n)), writers);
    var third := RejectsAndDrops(a, v, loads, writers + [Writer(One(1), Finished)]);
    path := Chain(lead, first, second, third);
  }

  lemma NotEmpty(path: seq<State>)
    requires IsPath(path)
    ensures |path| > 0
  {
  }

  /** The rename's own state, before it commits and after. */
  function Renaming(
    v: nat, committed: seq<Change>, announced: set<nat>, loads: seq<Load>, writers: seq<Writer>, at: WritePoint): State
  {
    State(committed, announced, map[1 := v], map[], map[], loads, [Call(1, {}, 3, 4, Bypassed(0))],
          writers + [Writer(Every, at)])
  }

  /** Past its attempts, the call reads; then a rename begins. */
  lemma ReadsPast(v: nat, loads: seq<Load>, writers: seq<Writer>) returns (path: seq<State>)
    ensures IsPath(path) && path[0] == Scene(v, map[], map[], loads, AfterAttempts(3), writers)
    ensures path[|path| - 1] == Renaming(v, [], {}, loads, writers, Writing)
  {
    var s0 := Scene(v, map[], map[], loads, AfterAttempts(3), writers);
    var s1 := Scene(v, map[], map[], loads, Call(1, {}, 3, 4, Bypassed(0)), writers);
    var s2 := Renaming(v, [], {}, loads, writers, Writing);
    Stepped(s0, ReadThrough(0), s1);
    OneMore([s0, s1], StartWrite(Every), s2);
    path := [s0, s1] + [s2];
  }

  lemma Sweeps(v: nat, loads: seq<Load>, writers: seq<Writer>) returns (path: seq<State>)
    ensures IsPath(path) && path[0] == Renaming(v, [], {}, loads, writers, Writing)
    ensures path[|path| - 1] == Renaming(v + 1, [], {}, loads, writers, Sweeping({}, {1}))
  {
    var w := |writers|;
    var s0 := Renaming(v, [], {}, loads, writers, Writing);
    var s1 := Renaming(v, [], {}, loads, writers, Sweeping({1}, {}));
    var s2 := Renaming(v + 1, [], {}, loads, writers, Sweeping({}, {1}));
    assert map[1 := v].Keys == {1};
    Stepped(s0, StartSweep(w), s1);
    assert map[1 := v][1 := v + 1] == map[1 := v + 1];
    assert {1} - {1} == {} && {} + {1} == {1};
    OneMore([s0, s1], Visit(w, 1), s2);
    path := [s0, s1] + [s2];
  }

  lemma Commits(v: nat, loads: seq<Load>, writers: seq<Writer>) returns (path: seq<State>)
    ensures var rename := [Change(|writers|, Every)];
      && IsPath(path) && path[0] == Renaming(v, [], {}, loads, writers, Sweeping({}, {1}))
      && path[|path| - 1] == Renaming(v, rename, {}, loads, writers, Ended(Some(0)))
  {
    var w, rename := |writers|, [Change(|writers|, Every)];
    var s0 := Renaming(v, [], {}, loads, writers, Sweeping({}, {1}));
    var s1 := Renaming(v, [], {}, loads, writers, Announced);
    var s2 := Renaming(v, rename, {}, loads, writers, Ended(Some(0)));
    Stepped(s0, EndSweep(w), s1);
    OneMore([s0, s1], Commit(w), s2);
    path := [s0, s1] + [s2];
  }

  lemma SweepsAgain(v: nat, loads: seq<Load>, writers: seq<Writer>) returns (path: seq<State>)
    ensures var rename := [Change(|writers|, Every)];
      && IsPath(path) && path[0] == Renaming(v, rename, {}, loads, writers, Ended(Some(0)))
      && path[|path| - 1] == Renaming(v + 1, rename, {}, loads, writers, Resweeping(Some(0), {}, {1}))
  {
    var w, rename := |writers|, [Change(|writers|, Every)];
    var s0 := Renaming(v, rename, {}, loads, writers, Ended(Some(0)));
    var s1 := Renaming(v, rename, {}, loads, writers, Resweeping(Some(0), {1}, {}));
    var s2 := Renaming(v + 1, rename, {}, loads, writers, Resweeping(Some(0), {}, {1}));
    assert map[1 := v].Keys == {1};
    Stepped(s0, StartResweep(w), s1);
    assert map[1 := v][1 := v + 1] == map[1 := v + 1];
    assert {1} - {1} == {} && {} + {1} == {1};
    OneMore([s0, s1], Revisit(w, 1), s2);
    path := [s0, s1] + [s2];
  }

  lemma Announces(v: nat, loads: seq<Load>, writers: seq<Writer>) returns (path: seq<State>)
    ensures var rename := [Change(|writers|, Every)];
      && IsPath(path) && path[0] == Renaming(v, rename, {}, loads, writers, Resweeping(Some(0), {}, {1}))
      && path[|path| - 1] == Renaming(v, rename, {0}, loads, writers, Finished)
  {
    var rename := [Change(|writers|, Every)];
    var s0 := Renaming(v, rename, {}, loads, writers, Resweeping(Some(0), {}, {1}));
    var s1 := Renaming(v, rename, {0}, loads, writers, Finished);
    assert {} + {0} == {0};
    Stepped(s0, EndResweep(|writers|), s1);
    path := [s0, s1];
  }

  /**
  So it can happen: in this run a rename has committed, and its second sweep has ended, and a call
  is about to return the list without it.
  */
  lemma ARenameCanBeMissed() returns (run: seq<State>)
    ensures IsRun(run)
    ensures var last := run[|run| - 1];
      && last.committed == [Change(3, Every)] && 0 in last.announced
      && CallEnabled(last, ReturnThrough(0))
      && CallNext(last, ReturnThrough(0)).calls[0].at == Returned(0)
  {
    run := Arrives();
    ghost var start := run[0];
    var loads: seq<Load>, writers: seq<Writer> := [], [];
    for a := 0 to 3
      invariant IsPath(run) && run[0] == start && |writers| == a
      invariant run[|run| - 1] == Scene(a, map[], map[], loads, AfterAttempts(a), writers)
    {
      hide IsPath, Scene, AfterAttempts;
      var more := OneAttempt(a, a, loads, writers);
      NotEmpty(run);
      NotEmpty(more);
      run := run + more[1..];
      loads, writers := loads + [Load(1, a, 0, Published(0))], writers + [Writer(One(1), Finished)];
    }
    hide Renaming, Scene, AfterAttempts;
    var read := ReadsPast(3, loads, writers);
    var sweep := Sweeps(3, loads, writers);
    var commit := Commits(4, loads, writers);
    run := Chain(run, read, sweep, commit);
    var resweep := SweepsAgain(4, loads, writers);
    var announce := Announces(5, loads, writers);
    var served := Served(5, loads, writers);
    run := Chain(run, resweep, announce, served);
  }

  /** A path that stays where it is. */
  lemma Served(v: nat, loads: seq<Load>, writers: seq<Writer>) returns (path: seq<State>)
    ensures IsPath(path) && path[0] == path[|path| - 1]
    ensures path[0] == Renaming(v, [Change(|writers|, Every)], {0}, loads, writers, Finished)
  {
    path := [Renaming(v, [Change(|writers|, Every)], {0}, loads, writers, Finished)];
  }

  lemma Arrives() returns (path: seq<State>)
    ensures IsPath(path) && Initial(path[0])
    ensures path[|path| - 1] == Scene(0, map[], map[], [], AfterAttempts(0), [])
  {
    var s0 := State([], {}, map[], map[], map[], [], [], []);
    var s1 := s0.(calls := [Call(1, {}, 0, 0, Called)]);
    var s2 := Scene(0, map[], map[], [], AfterAttempts(0), []);
    Stepped(s0, StartCall(1), s1);
    OneMore([s0, s1], Register(0), s2);
    path := [s0, s1] + [s2];
  }

}
