/** What every run of the machine in OdbcLifetimes promises, and two runs that bound it. */
module OdbcGuarantees {
  import opened Bytes
  import opened OdbcLifetimes

  lemma StepKeeps(s: State, e: Event)
    requires Inv(s)
    ensures Inv(Step(s, e))
  {
    hide Acts, Structure, Moves, Recorded, Tallied, LogOk, CountsOk, Touched;
    match e {
      case Spawn(role) =>
        SpawnKeeps(s, role);
        SpawnIsQuiet(s, role);
      case Act(a, c) =>
        if a < |s.threads| {
          ActsKeeps(s, a, c);
          ActsAccounted(s, a, c);
          RecordedKeeps(s, Acts(s, a, c), Touched(s, a));
          TalliedKeeps(s, Acts(s, a, c), Touched(s, a));
        }
    }
  }

  lemma SpawnIsQuiet(s: State, role: Role)
    requires LogOk(s) && CountsOk(s)
    ensures LogOk(Step(s, Spawn(role))) && CountsOk(Step(s, Spawn(role)))
  {
  }

  /** Whatever the threads, the schedule and the library do, a run stays inside the invariant. */
  lemma {:induction false} RunKeeps(run: seq<State>, events: seq<Event>, n: nat)
    requires IsRun(run, events) && n <= |events|
    ensures Inv(run[n])
  {
    if n == 0 {
      assert forall kind :: Counted([], kind) == {};
    } else {
      RunKeeps(run, events, n - 1);
      StepKeeps(run[n - 1], events[n - 1]);
    }
  }

  lemma ReachableKeeps(s: State)
    requires Reachable(s)
    ensures Inv(s)
  {
    var run, events: seq<Event> :| IsRun(run, events) && run[|events|] == s;
    RunKeeps(run, events, |events|);
  }

  predicate FreedAt(log: seq<Entry>, i: nat, h: Handle) {
    i < |log| && log[i].fn == FreeHandle && log[i].h == h
  }

  // The only call that may follow a free: reading why it failed.
  predicate Tolerated(free: Entry, later: Entry) { free.ret == Failed && later.fn == GetDiagRec }

  predicate Misuse(log: seq<Entry>, h: Handle) {
    exists i, j :: 0 <= i < j < |log| && FreedAt(log, i, h) && log[j].h == h && !Tolerated(log[i], log[j])
  }

  predicate CalledAfterFree(log: seq<Entry>, h: Handle) {
    exists i, j :: 0 <= i < j < |log| && FreedAt(log, i, h) && log[j].h == h
  }

  lemma {:induction false} FateMeaning(log: seq<Entry>, h: Handle)
    ensures FateIn(log, h) == Untouched <==> forall i: nat :: !FreedAt(log, i, h)
    ensures FateIn(log, h) == Misused <==> Misuse(log, h)
    ensures FateIn(log, h).Gone? ==>
      (exists i: nat :: FreedAt(log, i, h) && log[i].ret == FateIn(log, h).ret) && !CalledAfterFree(log, h)
    ensures FateIn(log, h) == Diagnosed ==> CalledAfterFree(log, h)
  {
    if log != [] {
      var before, n := log[..|log| - 1], |log| - 1;
      FateMeaning(before, h);
      assert forall i: nat :: i < n ==> (FreedAt(log, i, h) <==> FreedAt(before, i, h));
      assert forall i: nat :: FreedAt(before, i, h) ==> FreedAt(log, i, h);
      assert FreedAt(log, n, h) <==> log[n].fn == FreeHandle && log[n].h == h;
    }
  }

  /**
   * Every handle is freed at most once, and after that nothing reaches it, except that a free that failed is
   * followed by reading its reason.
   */
  lemma FreedOnceThenSilent(s: State, h: Handle)
    requires Reachable(s) && h != NULL
    ensures !Misuse(s.log, h)
    ensures forall i: nat, j: nat ::
      FreedAt(s.log, i, h) && FreedAt(s.log, j, h) ==> i == j
  {
    ReachableKeeps(s);
    FateMeaning(s.log, h);
    if h > |s.handles| {
      UnmentionedIsUntouched(s.log, h);
    }
  }

  predicate FreeFailedAt(log: seq<Entry>, i: nat, h: Handle) { FreedAt(log, i, h) && log[i].ret == Failed }

  /** A handle reaches another call after it was freed exactly when the free failed. */
  lemma CalledAfterFreeIffItFailed(s: State, h: Handle)
    requires Reachable(s) && h != NULL
    requires forall t :: t in s.threads ==> !t.pc.FreeDiag?
    ensures CalledAfterFree(s.log, h) <==> exists i: nat :: FreeFailedAt(s.log, i, h)
  {
    ReachableKeeps(s);
    FateMeaning(s.log, h);
    FreedOnceThenSilent(s, h);
    if h > |s.handles| {
      UnmentionedIsUntouched(s.log, h);
    } else {
      assert HandleOk(s, h);
      if i, j :| 0 <= i < j < |s.log| && FreedAt(s.log, i, h) && s.log[j].h == h {
        assert Tolerated(s.log[i], s.log[j]);
        assert FreeFailedAt(s.log, i, h);
      }
      if i: nat :| FreeFailedAt(s.log, i, h) {
        assert FreedAt(s.log, i, h);
      }
    }
  }

  /** A statement handle is freed only when at most one side still claims it; with no one inside, exactly when none does. */
  lemma FreedByTheLastOwner(s: State, k: nat)
    requires Reachable(s) && k < |s.shared|
    ensures var o := s.shared[k];
      ((exists i: nat :: FreedAt(s.log, i, o.handle)) ==> !(o.usedByStmt && o.usedByRows)) &&
      (o.mu == None ==> ((exists i: nat :: FreedAt(s.log, i, o.handle)) <==> !o.usedByStmt && !o.usedByRows))
  {
    ReachableKeeps(s);
    assert SharedOk(s, k);
    var h := s.shared[k].handle;
    assert HandleOk(s, h);
    FateMeaning(s.log, h);
  }

  // ---------- what is never given back ----------

  predicate IsLost(s: State, h: Handle) { 0 < h <= |s.handles| && s.handles[h - 1].place == Lost }

  // The reason why describing the parameters of handle h failed is read, and reading it panics.
  predicate PanicsInSetup(s: State, e: Event, h: Handle) {
    e.Act? && e.thread < |s.threads| && s.threads[e.thread].pc == SetupDiag(h, true) && e.choice.panics
  }

  lemma TouchedIsNotLost(s: State, a: nat)
    requires Structure(s) && a < |s.threads|
    ensures Touched(s, a) == NULL || (Touched(s, a) <= |s.handles| && !IsLost(s, Touched(s, a)))
  {
    hide Structure;
    ThreadIs(s, a);
    if s.threads[a].pc.Held? && SharedOf(s.threads[a]).Some? {
      SharedIs(s, SharedOf(s.threads[a]).value);
    }
  }

  lemma TouchLoses(s: State, a: nat, c: Choice)
    requires a < |s.threads| && 0 < Touched(s, a) <= |s.handles| && !IsLost(s, Touched(s, a))
    ensures IsLost(Acts(s, a, c), Touched(s, a)) <==> PanicsInSetup(s, Act(a, c), Touched(s, a))
  {
    hide *;
    if s.threads[a].pc.SetupDiag? {
      SetupDiagLoses(s, a, c);
    } else if s.threads[a].pc.Setup? || s.threads[a].pc.Count? {
      NewIsNotLost(s, a, c);
    } else {
      OldIsNotLost(s, a, c);
    }
  }

  lemma SetupDiagLoses(s: State, a: nat, c: Choice)
    requires a < |s.threads| && 0 < Touched(s, a) <= |s.handles| && !IsLost(s, Touched(s, a)) && s.threads[a].pc.SetupDiag?
    ensures IsLost(Acts(s, a, c), Touched(s, a)) <==> PanicsInSetup(s, Act(a, c), Touched(s, a))
  {
  }

  lemma NewIsNotLost(s: State, a: nat, c: Choice)
    requires a < |s.threads| && 0 < Touched(s, a) <= |s.handles| && !IsLost(s, Touched(s, a))
    requires s.threads[a].pc.Setup? || s.threads[a].pc.Count?
    ensures !IsLost(Acts(s, a, c), Touched(s, a)) && !PanicsInSetup(s, Act(a, c), Touched(s, a))
  {
  }

  lemma OldIsNotLost(s: State, a: nat, c: Choice)
    requires a < |s.threads| && 0 < Touched(s, a) <= |s.handles| && !IsLost(s, Touched(s, a))
    requires !s.threads[a].pc.SetupDiag? && !s.threads[a].pc.Setup? && !s.threads[a].pc.Count?
    ensures !IsLost(Acts(s, a, c), Touched(s, a)) && !PanicsInSetup(s, Act(a, c), Touched(s, a))
  {
  }

  lemma StepLoses(s: State, e: Event, h: Handle)
    requires Inv(s) && h != NULL
    ensures IsLost(Step(s, e), h) <==> IsLost(s, h) || PanicsInSetup(s, e, h)
  {
    hide Structure, Acts, Touched, Recorded, Tallied, LogOk, CountsOk;
    if e.Act? && e.thread < |s.threads| {
      ActsAccounted(s, e.thread, e.choice);
      TouchedIsNotLost(s, e.thread);
      if h == Touched(s, e.thread) {
        TouchLoses(s, e.thread, e.choice);
      } else {
        TouchesItsRegister(s, e.thread);
      }
    }
  }

  lemma TouchesItsRegister(s: State, a: nat)
    requires a < |s.threads|
    ensures s.threads[a].pc.SetupDiag? ==> Touched(s, a) == s.threads[a].pc.h
  {
  }

  predicate SetupPanicked(run: seq<State>, events: seq<Event>, n: nat, h: Handle)
    requires n <= |events| < |run|
  {
    exists m :: 0 <= m < n && PanicsInSetup(run[m], events[m], h)
  }

  /** A handle is lost exactly when the run panicked while its parameters were described. */
  lemma {:induction false} LostByPanic(run: seq<State>, events: seq<Event>, n: nat, h: Handle)
    requires IsRun(run, events) && n <= |events| && h != NULL
    ensures IsLost(run[n], h) <==> SetupPanicked(run, events, n, h)
  {
    if n > 0 {
      RunKeeps(run, events, n - 1);
      LostByPanic(run, events, n - 1, h);
      StepLoses(run[n - 1], events[n - 1], h);
      if SetupPanicked(run, events, n, h) && !PanicsInSetup(run[n - 1], events[n - 1], h) {
        assert SetupPanicked(run, events, n - 1, h);
      }
    }
  }

  predicate Idle(t: Thread) {
    match t.role
    case Statement(os) => t.pc == Rest && os == None
    case ResultSet(_) => t.pc == Closed
    case Holder(_, _) => t.pc == Rest || t.pc == Closed
  }

  function Claimant(s: State, p: Place): nat {
    match p
    case At(k) =>
      if k >= |s.shared| then 0
      else if s.shared[k].usedByStmt then s.shared[k].stmt
      else s.shared[k].rows
    case New(a) => a
    case Fresh(a) => a
    case Releasing(a) => a
    case _ => 0
  }

  // A handle that was not given back keeps some thread from being idle.
  lemma SomeoneHolds(s: State, h: Handle) returns (a: nat)
    requires Structure(s) && 0 < h <= |s.handles| && s.handles[h - 1].kind == Stm
    requires FateOf(s.handles[h - 1].place) == Untouched && s.handles[h - 1].place != Lost
    ensures a < |s.threads| && !Idle(s.threads[a])
  {
    var p := s.handles[h - 1].place;
    assert HandleOk(s, h);
    assert p.Kept? ==> ThreadOk(s, p.a);
    if p.At? {
      assert SharedOk(s, p.k);
    }
    a := Claimant(s, p);
  }

  /**
   * Once every statement and result set is closed, every statement handle has been given back, except exactly those
   * for which the run panicked while their parameters were described.
   */
  lemma NothingLeaks(run: seq<State>, events: seq<Event>, h: Handle)
    requires IsRun(run, events) && 0 < h <= |run[|events|].handles| && run[|events|].handles[h - 1].kind == Stm
    requires forall a :: 0 <= a < |run[|events|].threads| ==> Idle(run[|events|].threads[a])
    ensures (exists i: nat :: FreedAt(run[|events|].log, i, h)) <==> !SetupPanicked(run, events, |events|, h)
    ensures SetupPanicked(run, events, |events|, h) ==> run[|events|].panicked
  {
    hide SetupPanicked, Structure;
    var s := run[|events|];
    RunKeeps(run, events, |events|);
    LostByPanic(run, events, |events|, h);
    FateMeaning(s.log, h);
    HandleIs(s, h);
    if FateIn(s.log, h) == Untouched && !IsLost(s, h) {
      var a := SomeoneHolds(s, h);
      assert false;
    }
  }

  // Allocated and not successfully freed.
  function Live(s: State, kind: Kind): set<nat> {
    set i | 0 <= i < |s.handles| && s.handles[i].kind == kind && FateIn(s.log, i + 1) != Gone(Fine)
  }

  // No thread is between a library call and its count.
  predicate UpToDate(s: State) {
    forall a :: 0 <= a < |s.threads| ==> !s.threads[a].pc.Count? && !s.threads[a].pc.Uncount?
  }

  /**
   * The counts are never negative, and whenever they are up to date each is the number of handles of its kind that
   * were allocated and not successfully freed.
   */
  lemma CountsConserve(s: State, kind: Kind)
    requires Reachable(s)
    ensures s.counts.Of(kind) >= 0
    ensures UpToDate(s) ==> s.counts.Of(kind) == |Live(s, kind)|
  {
    ReachableKeeps(s);
    if UpToDate(s) {
      forall i | 0 <= i < |s.handles| ensures i in Live(s, kind) <==> i in Counted(s.handles, kind) {
        assert HandleOk(s, i + 1);
        assert FateIn(s.log, i + 1) == FateOf(s.handles[i].place);
      }
      assert Live(s, kind) == Counted(s.handles, kind);
    }
  }

  // ---------- what the code does not promise ----------

  lemma StepReaches(s: State, a: nat, c: Choice) returns (u: State)
    requires Reachable(s) && a < |s.threads|
    ensures u == Acts(s, a, c) && Reachable(u)
  {
    u := Acts(s, a, c);
    var run, events: seq<Event> :| IsRun(run, events) && run[|events|] == s;
    assert Step(s, Act(a, c)) == u;
    hide Step, Acts;
    assert IsRun(run + [u], events + [Act(a, c)]);
  }

  const FINE := Choice(Close, Fine, Succeed, false)

  lemma Spawned() returns (s: State)
    ensures Reachable(s) && s == State([Thread(Statement(None), Alloc(Prepare))], [], [], Counts(0, 0, 0), [], false)
  {
    var event := Spawn(Statement(None));
    s := Step(INITIAL, event);
    assert IsRun([INITIAL, s], [event]);
  }

  // A statement whose handle is allocated, counted and about to be prepared.
  lemma BeingPrepared() returns (s: State)
    ensures Reachable(s) && s.threads == [Thread(Statement(None), Setup(1, Prepare, false))]
    ensures s.handles == [Rec(Stm, Fresh(0))] && s.shared == [] && s.log == [Entry(AllocHandle, 1, Fine)]
  {
    hide Reachable;
    s := Spawned();
    s := StepReaches(s, 0, FINE);
    assert s.threads == [Thread(Statement(None), Count(1, Prepare))] && s.handles == [Rec(Stm, New(0))];
    s := StepReaches(s, 0, FINE);
  }

  // The statement is prepared and closed, up to the free.
  lemma Prepared() returns (s: State)
    ensures Reachable(s) && s.threads == [Thread(Statement(Some(0)), Rest)]
    ensures s.shared == [Shared(1, true, false, None, 1, 0, 0)] && |s.log| == 3 && |s.handles| == 1
  {
    hide Reachable;
    s := BeingPrepared();
    s := StepReaches(s, 0, FINE);
    s := StepReaches(s, 0, FINE);
  }

  lemma BeingFreed() returns (s: State)
    ensures Reachable(s) && s.threads == [Thread(Statement(Some(0)), Free(1, CloseStatement))]
    ensures |s.log| == 3 && |s.handles| == 1
  {
    hide Reachable;
    s := Prepared();
    s := StepReaches(s, 0, FINE);
    s := StepReaches(s, 0, FINE);
    s := StepReaches(s, 0, FINE);
  }

  /** A handle can reach another call after its free: a statement is closed and the library fails to free its handle. */
  lemma FailedFreeIsReadAfterwards()
    ensures exists s :: Reachable(s) && CalledAfterFree(s.log, 1)
  {
    hide Reachable;
    var s := BeingFreed();
    s := StepReaches(s, 0, FINE.(ret := Failed));
    s := StepReaches(s, 0, FINE);
    assert FreedAt(s.log, 3, 1) && s.log[4].h == 1;
  }

  predicate AtRestWithLost(s: State) {
    s.threads == [Thread(Statement(None), Rest)] && s.handles == [Rec(Stm, Lost)]
  }

  /** A panic while the parameters of a statement are described loses its handle. */
  lemma PanicLosesHandle()
    ensures exists s :: Reachable(s) && AtRestWithLost(s) && forall i: nat :: !FreedAt(s.log, i, 1)
  {
    hide Reachable;
    var s := BeingPrepared();
    s := StepReaches(s, 0, FINE);
    s := StepReaches(s, 0, FINE.(ret := Failed, outcome := Return));
    s := StepReaches(s, 0, FINE.(panics := true));
    assert AtRestWithLost(s);
  }
}
