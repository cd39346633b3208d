/**
 * Lifetimes of ODBC handles when statements, result sets, connections and environments are used at the same time.
 *
 * Every thread runs the operations of one object, one after another; a step is one call to the ODBC library or one
 * access to a shared field, and the threads interleave in any order. The library may fail any call. A result set is
 * closed at most once, and is not fetched from after that.
 */
module OdbcLifetimes {
  import opened Bytes

  /** Handles are numbered from 1 in order of allocation; 0 is the null handle. */
  type Handle = nat
  const NULL: Handle := 0

  datatype Kind = Env | Dbc | Stm

  // What a library call returned: SQL_SUCCESS and the like, SQL_INVALID_HANDLE, or any other error.
  datatype Ret = Fine | Invalid | Failed

  datatype Fn = AllocHandle | FreeHandle | GetDiagRec | OtherCall
  datatype Entry = Entry(fn: Fn, h: Handle, ret: Ret)

  // What happens after a handle was given back.
  datatype After =
    | Discard             // the statement or connection that was being set up does not exist
    | CloseStatement
    | Reprepare(query: bool)
    | Abandon             // a panic: deferred calls still run
    | CloseRows
    | CloseHolder

  // The statement is prepared for itself, or again because its result set is still open.
  datatype Goal = Prepare | Run(query: bool)

  // Where a thread stands; what it does next.
  datatype Pc =
    | Rest
    | Closed
    | Alloc(goal: Goal)
    | Count(h: Handle, goal: Goal)
    | Setup(h: Handle, goal: Goal, inParams: bool)
    | SetupDiag(h: Handle, inParams: bool)
    | Free(h: Handle, after: After)
    | FreeDiag(h: Handle, after: After)
    | Uncount(h: Handle, after: After)
    | Check(query: bool)
    | Load(query: bool)
    | Call(h: Handle, query: bool)
    | CallDiag(h: Handle, query: bool)
    | Lock(after: After)
    | Held(after: After)
    | Cursor(h: Handle)
    | CursorDiag(h: Handle)
    | Unlock(after: After)

  datatype Role =
    | Statement(os: Option<nat>)       // Stmt: the shared ODBCStmt it holds
    | ResultSet(shared: nat)           // Rows
    | Holder(kind: Kind, own: Handle)  // Conn and Driver

  datatype Thread = Thread(role: Role, pc: Pc)

  /**
   * ODBCStmt. No step looks at the last three fields: the handle it was made with, and the threads that the two
   * flags stand for.
   */
  datatype Shared = Shared(h: Handle, usedByStmt: bool, usedByRows: bool, mu: Option<nat>,
                           handle: Handle, stmt: nat, rows: nat)

  // Where a handle is: bookkeeping that no step of the program looks at.
  datatype Place =
    | New(a: nat)          // allocated, not counted yet
    | Fresh(a: nat)        // in the hands of the thread that sets it up
    | At(k: nat)           // in an ODBCStmt
    | Kept(a: nat)         // in a connection or in the driver
    | Releasing(a: nat)    // taken out, about to be freed
    | Leaving(a: nat)      // freed, still counted
    | Freed
    | Diagnosing(a: nat)   // the free failed, its reason is not read yet
    | Stuck(read: bool)    // the free did not succeed
    | Lost                 // a panic while its parameters were described

  datatype Rec = Rec(kind: Kind, place: Place)

  datatype Counts = Counts(env: int, dbc: int, stm: int) {
    function Of(k: Kind): int { match k case Env => env case Dbc => dbc case Stm => stm }

    function Add(k: Kind, d: int): Counts {
      match k
      case Env => this.(env := env + d)
      case Dbc => this.(dbc := dbc + d)
      case Stm => this.(stm := stm + d)
    }
  }

  datatype State = State(
    threads: seq<Thread>,
    shared: seq<Shared>,
    handles: seq<Rec>,
    counts: Counts,
    log: seq<Entry>,
    panicked: bool
  )

  datatype Op = Execute(query: bool) | Close | Next
  datatype Outcome = Continue | Return | Succeed

  // What the environment decides at a step: the operation that is started, what the library returns,
  // how far the call sequence goes, whether reading an error panics.
  datatype Choice = Choice(op: Op, ret: Ret, outcome: Outcome, panics: bool)

  datatype Event = Spawn(role: Role) | Act(thread: nat, choice: Choice)

  // ---------- steps ----------

  function Goes(s: State, a: nat, pc: Pc): State
    requires a < |s.threads|
  {
    s.(threads := s.threads[a := s.threads[a].(pc := pc)])
  }

  function Moved(s: State, h: Handle, p: Place): State {
    if 0 < h <= |s.handles| then s.(handles := s.handles[h - 1 := s.handles[h - 1].(place := p)]) else s
  }

  function Logged(s: State, fn: Fn, h: Handle, ret: Ret): State {
    s.(log := s.log + [Entry(fn, h, ret)])
  }

  // A null handle is never valid.
  function Answer(h: Handle, c: Choice): Ret { if h == NULL then Invalid else c.ret }

  function KindOf(t: Thread): Kind {
    match t.role case Holder(kind, _) => kind case _ => Stm
  }

  function SharedOf(t: Thread): Option<nat> {
    match t.role
    case Statement(os) => os
    case ResultSet(k) => Some(k)
    case Holder(_, _) => None
  }

  function WithShared(s: State, k: nat, o: Shared): State
    requires k < |s.shared|
  {
    s.(shared := s.shared[k := o])
  }

  function Start(s: State, a: nat, op: Op): State
    requires a < |s.threads|
  {
    var t := s.threads[a];
    match t.role
    case Statement(None) => s
    case Statement(Some(_)) =>
      (match op
       case Execute(query) => Goes(s, a, Check(query))
       case Close => Goes(s, a, Lock(CloseStatement))
       case Next => s)
    case ResultSet(_) =>
      (match op
       case Next => Goes(s, a, Load(false))
       case Close => Goes(s, a, Lock(CloseRows))
       case Execute(_) => s)
    case Holder(kind, own) =>
      if op != Close then s
      else if kind == Dbc then Goes(s, a, Load(false))
      else LetGo(s, a, own, CloseHolder)
  }

  // h := s.h; s.h = null, in a connection or in the driver.
  function LetGo(s: State, a: nat, h: Handle, after: After): State
    requires a < |s.threads| && s.threads[a].role.Holder?
  {
    var t := s.threads[a];
    Moved(s, h, Releasing(a)).(threads := s.threads[a := Thread(t.role.(own := NULL), Free(h, after))])
  }

  // releaseHandle of an ODBCStmt: the same for a shared handle, under its mutex.
  function Release(s: State, a: nat, k: nat, after: After): State
    requires a < |s.threads| && k < |s.shared|
  {
    var h := s.shared[k].h;
    Goes(WithShared(Moved(s, h, Releasing(a)), k, s.shared[k].(h := NULL)), a, Free(h, after))
  }

  function Allocate(s: State, a: nat, goal: Goal, c: Choice): State
    requires a < |s.threads|
  {
    if c.ret != Fine then Goes(s, a, if s.threads[a].role.Holder? then Closed else Rest)
    else
      var h := |s.handles| + 1;
      Goes(Logged(s, AllocHandle, h, Fine), a, Count(h, goal))
        .(handles := s.handles + [Rec(KindOf(s.threads[a]), New(a))])
  }

  function Configure(s: State, a: nat, h: Handle, goal: Goal, inParams: bool, c: Choice): State
    requires a < |s.threads|
  {
    var t, l := s.threads[a], Logged(s, OtherCall, h, c.ret);
    if t.role.Holder? then
      if c.ret != Fine then Goes(l, a, SetupDiag(h, false))
      else if c.outcome != Succeed then l
      else Moved(l, h, Kept(a)).(threads := s.threads[a := Thread(t.role.(own := h), Rest)])
    else if !inParams then
      Goes(l, a, if c.ret == Fine then Setup(h, goal, true) else SetupDiag(h, false))
    else match c.outcome
      case Continue => l
      case Return => Goes(l, a, SetupDiag(h, true))
      case Succeed =>
        var pc := match goal case Prepare => Rest case Run(query) => Load(query);
        Moved(l, h, At(|s.shared|)).(
          threads := s.threads[a := Thread(Statement(Some(|s.shared|)), pc)],
          shared := s.shared + [Shared(h, true, false, None, h, a, 0)])
  }

  function ReadsError(s: State, h: Handle, c: Choice): State {
    Logged(s, GetDiagRec, h, Answer(h, c)).(panicked := s.panicked || c.panics)
  }

  // The deferred release is not set up yet while the parameters are described.
  function SetupFailed(s: State, a: nat, h: Handle, inParams: bool, c: Choice): State
    requires a < |s.threads|
  {
    var d := ReadsError(s, h, c);
    if inParams && c.panics then Goes(Moved(d, h, Lost), a, Rest)
    else Goes(Moved(d, h, Releasing(a)), a, Free(h, Discard))
  }

  function AfterFree(role: Role, after: After): Pc {
    if after == Discard then if role.Holder? then Closed else Rest
    else if role.Holder? then Rest
    else Unlock(after)
  }

  function GiveBack(s: State, a: nat, h: Handle, after: After, c: Choice): State
    requires a < |s.threads|
  {
    var ret := Answer(h, c);
    var l := Logged(s, FreeHandle, h, ret);
    match ret
    case Fine => Goes(Moved(l, h, Leaving(a)), a, Uncount(h, after))
    case Invalid => Goes(Moved(l, h, Stuck(false)), a, AfterFree(s.threads[a].role, after))
    case Failed => Goes(Moved(l, h, Diagnosing(a)), a, FreeDiag(h, after))
  }

  function FreeFailed(s: State, a: nat, h: Handle, after: After, c: Choice): State
    requires a < |s.threads|
  {
    var next := if c.panics && (after.CloseStatement? || after.Reprepare?) then Abandon else after;
    Goes(Moved(ReadsError(s, h, c), h, Stuck(true)), a, AfterFree(s.threads[a].role, next))
  }

  // A call on the handle the object holds, and what follows it.
  function Use(s: State, a: nat, h: Handle, query: bool, c: Choice): State
    requires a < |s.threads|
  {
    var t, ret := s.threads[a], Answer(h, c);
    var l := Logged(s, OtherCall, h, ret);
    if ret != Fine then Goes(l, a, CallDiag(h, query))
    else match t.role
      case Holder(_, own) => LetGo(l, a, own, CloseHolder)
      case ResultSet(_) => Goes(l, a, if c.outcome == Continue then Load(false) else Rest)
      case Statement(None) => Goes(l, a, Rest)
      case Statement(Some(k)) =>
        if c.outcome == Continue then Goes(l, a, Load(query))
        else if c.outcome == Succeed && query && k < |s.shared| then
          Goes(WithShared(l, k, s.shared[k].(usedByRows := true, rows := |s.threads|)), a, Rest)
            .(threads := s.threads[a := t.(pc := Rest)] + [Thread(ResultSet(k), Rest)])
        else Goes(l, a, Rest)
  }

  // The error of a parameter that cannot be bound is dropped and the call sequence goes on.
  function UseFailed(s: State, a: nat, h: Handle, query: bool, c: Choice): State
    requires a < |s.threads|
  {
    var goesOn := s.threads[a].role.Statement? && c.outcome == Continue && !c.panics;
    Goes(ReadsError(s, h, c), a, if goesOn then Load(query) else Rest)
  }

  // closeByStmt and closeByRows, with the mutex held.
  function Decide(s: State, a: nat, k: nat, after: After): State
    requires a < |s.threads| && k < |s.shared|
  {
    var o := s.shared[k];
    if s.threads[a].role.Statement? then
      if o.usedByStmt && !o.usedByRows then Release(s, a, k, after) else Goes(s, a, Unlock(after))
    else if !o.usedByRows then Goes(s, a, Unlock(after))
    else if o.usedByStmt then Goes(s, a, Cursor(o.h))
    else Release(s, a, k, after)
  }

  function CloseCursor(s: State, a: nat, h: Handle, c: Choice): State
    requires a < |s.threads|
  {
    var ret := Answer(h, c);
    Goes(Logged(s, OtherCall, h, ret), a, if ret == Fine then Unlock(CloseRows) else CursorDiag(h))
  }

  function Leave(s: State, a: nat, k: nat, after: After): State
    requires a < |s.threads| && k < |s.shared|
  {
    var o, t := s.shared[k], s.threads[a];
    if t.role.Statement? then
      var u := WithShared(s, k, o.(usedByStmt := false, mu := None));
      match after
      case CloseStatement => u.(threads := s.threads[a := Thread(Statement(None), Rest)])
      case Reprepare(query) => u.(threads := s.threads[a := Thread(Statement(None), Alloc(Run(query)))])
      case _ => Goes(u, a, Rest)
    else
      Goes(WithShared(s, k, o.(usedByRows := false, mu := None)), a, Closed)
  }

  function OnShared(s: State, a: nat, k: nat, c: Choice): State
    requires a < |s.threads| && k < |s.shared|
  {
    var o := s.shared[k];
    match s.threads[a].pc
    case Check(query) => Goes(s, a, if o.usedByRows then Lock(Reprepare(query)) else Load(query))
    case Load(query) => Goes(s, a, if c.outcome == Return then Rest else Call(o.h, query))
    case Lock(after) =>
      if o.mu.Some? then s else Goes(WithShared(s, k, o.(mu := Some(a))), a, Held(after))
    case Held(after) => Decide(s, a, k, after)
    case Unlock(after) => Leave(s, a, k, after)
    case _ => s
  }

  function Acts(s: State, a: nat, c: Choice): State
    requires a < |s.threads|
  {
    var t := s.threads[a];
    match t.pc
    case Rest => Start(s, a, c.op)
    case Closed => s
    case Alloc(goal) => Allocate(s, a, goal, c)
    case Count(h, goal) =>
      Goes(Moved(s, h, Fresh(a)), a, Setup(h, goal, false)).(counts := s.counts.Add(KindOf(t), 1))
    case Setup(h, goal, inParams) => Configure(s, a, h, goal, inParams, c)
    case SetupDiag(h, inParams) => SetupFailed(s, a, h, inParams, c)
    case Free(h, after) => GiveBack(s, a, h, after, c)
    case FreeDiag(h, after) => FreeFailed(s, a, h, after, c)
    case Uncount(h, after) =>
      Goes(Moved(s, h, Freed), a, AfterFree(t.role, after)).(counts := s.counts.Add(KindOf(t), -1))
    case Call(h, query) => Use(s, a, h, query, c)
    case CallDiag(h, query) => UseFailed(s, a, h, query, c)
    case Cursor(h) => CloseCursor(s, a, h, c)
    case CursorDiag(h) => Goes(ReadsError(s, h, c), a, Unlock(CloseRows))
    case _ =>
      if t.role.Holder? then (if t.pc.Load? then Goes(s, a, Call(t.role.own, false)) else s)
      else
        match SharedOf(t)
        case Some(k) => if k < |s.shared| then OnShared(s, a, k, c) else s
        case None => s
  }

  // A program creates statements, connections and environments; result sets come from queries.
  function Step(s: State, e: Event): State {
    match e
    case Spawn(role) =>
      var created := match role
        case Statement(_) => Thread(Statement(None), Alloc(Prepare))
        case ResultSet(_) => Thread(Statement(None), Rest)
        case Holder(kind, _) => Thread(Holder(if kind == Stm then Dbc else kind, NULL), Alloc(Prepare));
      s.(threads := s.threads + [created])
    case Act(a, c) => if a < |s.threads| then Acts(s, a, c) else s
  }

  const INITIAL := State([], [], [], Counts(0, 0, 0), [], false)

  /** The states of a run, from the first on. */
  ghost predicate IsRun(run: seq<State>, events: seq<Event>) {
    |run| == |events| + 1 && run[0] == INITIAL &&
    forall i :: 0 <= i < |events| ==> run[i + 1] == Step(run[i], events[i])
  }

  ghost predicate Reachable(s: State) {
    exists run, events: seq<Event> :: IsRun(run, events) && run[|events|] == s
  }

  // ---------- what the log says about a handle ----------

  datatype Fate = Untouched | Gone(ret: Ret) | Diagnosed | Misused

  function Later(f: Fate, e: Entry): Fate {
    match f
    case Untouched => if e.fn == FreeHandle then Gone(e.ret) else Untouched
    case Gone(ret) => if ret == Failed && e.fn == GetDiagRec then Diagnosed else Misused
    case Diagnosed => if e.fn == GetDiagRec then Diagnosed else Misused
    case Misused => Misused
  }

  function FateIn(log: seq<Entry>, h: Handle): Fate {
    if log == [] then Untouched
    else
      var e, before := log[|log| - 1], FateIn(log[..|log| - 1], h);
      if e.h == h then Later(before, e) else before
  }

  function FateOf(p: Place): Fate {
    match p
    case Leaving(_) => Gone(Fine)
    case Freed => Gone(Fine)
    case Diagnosing(_) => Gone(Failed)
    case Stuck(read) => if read then Diagnosed else Gone(Invalid)
    case _ => Untouched
  }

  lemma {:induction false} UnmentionedIsUntouched(log: seq<Entry>, h: Handle)
    requires forall i :: 0 <= i < |log| ==> log[i].h != h
    ensures FateIn(log, h) == Untouched
  {
    if log != [] {
      UnmentionedIsUntouched(log[..|log| - 1], h);
    }
  }

  // ---------- invariant ----------

  predicate Is(s: State, h: Handle, p: Place, kind: Kind) {
    0 < h <= |s.handles| && s.handles[h - 1] == Rec(kind, p)
  }

  predicate HasLock(s: State, a: nat, k: nat) {
    k < |s.shared| && s.shared[k].mu == Some(a)
  }

  // A register that a thread uses for calls: the handle its object holds, or null.
  predicate Owns(s: State, a: nat, role: Role, h: Handle) {
    h == NULL ||
    match role
    case Statement(Some(k)) => Is(s, h, At(k), Stm)
    case Statement(None) => false
    case ResultSet(k) => Is(s, h, At(k), Stm)
    case Holder(kind, own) => h == own && Is(s, h, Kept(a), kind)
  }

  predicate RoleOk(s: State, a: nat, t: Thread) {
    match t.role
    case Statement(Some(k)) => k < |s.shared| && s.shared[k].stmt == a
    case Statement(None) => true
    case ResultSet(k) =>
      k < |s.shared| && (t.pc != Closed ==> s.shared[k].usedByRows && s.shared[k].rows == a)
    case Holder(kind, own) => kind != Stm && Owns(s, a, t.role, own)
  }

  predicate Unattached(role: Role) {
    match role
    case Statement(os) => os == None
    case ResultSet(_) => false
    case Holder(_, own) => own == NULL
  }

  // A thread that closes a shared handle: it holds the mutex, and the other side has let go.
  predicate Closing(s: State, a: nat, t: Thread, after: After) {
    match t.role
    case Statement(Some(k)) =>
      HasLock(s, a, k) && s.shared[k].h == NULL && !s.shared[k].usedByRows &&
      (after.CloseStatement? || after.Reprepare? || after.Abandon?)
    case Statement(None) => false
    case ResultSet(k) => HasLock(s, a, k) && s.shared[k].h == NULL && !s.shared[k].usedByStmt && after == CloseRows
    case Holder(_, own) => own == NULL && after == CloseHolder
  }

  predicate Freeing(s: State, a: nat, t: Thread, after: After) {
    if after == Discard then Unattached(t.role) else Closing(s, a, t, after)
  }

  predicate AfterFits(role: Role, after: After) {
    match role
    case Statement(os) => os.Some? && (after.CloseStatement? || after.Reprepare? || after.Abandon?)
    case ResultSet(_) => after == CloseRows
    case Holder(_, _) => false
  }

  predicate Calling(s: State, role: Role) {
    match role
    case Statement(Some(k)) => k < |s.shared| && !s.shared[k].usedByRows
    case Statement(None) => false
    case _ => true
  }

  // The mutex was just taken.
  predicate Entered(s: State, a: nat, role: Role) {
    match SharedOf(Thread(role, Rest))
    case Some(k) => HasLock(s, a, k) && (s.shared[k].h == NULL ==> !s.shared[k].usedByStmt && !s.shared[k].usedByRows)
    case None => false
  }

  // About to clear its own flag: the handle is there exactly when the other flag is set.
  predicate Settled(s: State, a: nat, role: Role) {
    match role
    case Statement(Some(k)) => HasLock(s, a, k) && (s.shared[k].h == NULL <==> !s.shared[k].usedByRows)
    case ResultSet(k) => HasLock(s, a, k) && (s.shared[k].h == NULL <==> !s.shared[k].usedByStmt)
    case _ => false
  }

  predicate PcOk(s: State, a: nat, t: Thread) {
    match t.pc
    case Rest => true
    case Closed => t.role.Statement? ==> false
    case Alloc(_) => Unattached(t.role)
    case Count(h, _) => Unattached(t.role) && Is(s, h, New(a), KindOf(t))
    case Setup(h, _, _) => Unattached(t.role) && Is(s, h, Fresh(a), KindOf(t))
    case SetupDiag(h, inParams) =>
      Unattached(t.role) && Is(s, h, Fresh(a), KindOf(t)) && (inParams ==> t.role.Statement?)
    case Free(h, after) =>
      Freeing(s, a, t, after) && ((h == NULL && after != Discard) || Is(s, h, Releasing(a), KindOf(t)))
    case FreeDiag(h, after) => Freeing(s, a, t, after) && Is(s, h, Diagnosing(a), KindOf(t))
    case Uncount(h, after) => Freeing(s, a, t, after) && Is(s, h, Leaving(a), KindOf(t))
    case Check(_) => t.role.Statement? && t.role.os.Some?
    case Load(_) => Calling(s, t.role)
    case Call(h, _) => Calling(s, t.role) && Owns(s, a, t.role, h)
    case CallDiag(h, _) => Calling(s, t.role) && Owns(s, a, t.role, h)
    case Lock(after) => AfterFits(t.role, after)
    case Held(after) => AfterFits(t.role, after) && Entered(s, a, t.role)
    case Cursor(h) => t.role.ResultSet? && Owns(s, a, t.role, h) && Settled(s, a, t.role) && s.shared[t.role.shared].h != NULL
    case CursorDiag(h) => t.role.ResultSet? && Owns(s, a, t.role, h) && Settled(s, a, t.role) && s.shared[t.role.shared].h != NULL
    case Unlock(after) => AfterFits(t.role, after) && Settled(s, a, t.role)
  }

  predicate ThreadOk(s: State, a: nat)
    requires a < |s.threads|
  {
    RoleOk(s, a, s.threads[a]) && PcOk(s, a, s.threads[a])
  }

  predicate SharedOk(s: State, k: nat)
    requires k < |s.shared|
  {
    var o := s.shared[k];
    0 < o.handle <= |s.handles| &&
    s.handles[o.handle - 1].kind == Stm &&
    (o.h == NULL || o.h == o.handle) &&
    (o.h == o.handle <==> s.handles[o.handle - 1].place == At(k)) &&
    PastSetup(s.handles[o.handle - 1].place) &&
    (Closer(s.handles[o.handle - 1].place).Some? ==> o.mu == Closer(s.handles[o.handle - 1].place)) &&
    (o.h == NULL ==> !(o.usedByStmt && o.usedByRows)) &&
    (o.h == NULL && o.mu == None ==> !o.usedByStmt && !o.usedByRows) &&
    (o.h != NULL ==> o.usedByStmt || o.usedByRows) &&
    o.stmt < |s.threads| && s.threads[o.stmt].role.Statement? &&
    (o.usedByStmt ==> s.threads[o.stmt].role == Statement(Some(k))) &&
    (o.usedByRows ==> o.rows < |s.threads| && s.threads[o.rows].role == ResultSet(k) && s.threads[o.rows].pc != Closed)
  }

  // The thread that is giving the handle back.
  function Closer(p: Place): Option<nat> {
    match p
    case Releasing(a) => Some(a)
    case Leaving(a) => Some(a)
    case Diagnosing(a) => Some(a)
    case _ => None
  }

  predicate PastSetup(p: Place) { !p.New? && !p.Fresh? && !p.Lost? && !p.Kept? }

  predicate HandleOk(s: State, h: Handle)
    requires 0 < h <= |s.handles|
  {
    var r := s.handles[h - 1];
    match r.place
    case New(a) => a < |s.threads| && s.threads[a].pc.Count? && s.threads[a].pc.h == h
    case Fresh(a) =>
      a < |s.threads| && (s.threads[a].pc.Setup? || s.threads[a].pc.SetupDiag?) && s.threads[a].pc.h == h
    case At(k) => k < |s.shared| && s.shared[k].handle == h && s.shared[k].h == h
    case Kept(a) => a < |s.threads| && s.threads[a].role == Holder(r.kind, h)
    case Releasing(a) => a < |s.threads| && s.threads[a].pc.Free? && s.threads[a].pc.h == h
    case Leaving(a) => a < |s.threads| && s.threads[a].pc.Uncount? && s.threads[a].pc.h == h
    case Diagnosing(a) => a < |s.threads| && s.threads[a].pc.FreeDiag? && s.threads[a].pc.h == h
    case Lost => s.panicked && r.kind == Stm
    case _ => true
  }

  predicate Apart(s: State) {
    forall k, l :: 0 <= k < l < |s.shared| ==> s.shared[k].handle != s.shared[l].handle
  }

  predicate LogOk(s: State) {
    (forall i :: 0 <= i < |s.log| ==> s.log[i].h <= |s.handles|) &&
    forall h :: 0 < h <= |s.handles| ==> FateIn(s.log, h) == FateOf(s.handles[h - 1].place)
  }

  predicate IsCounted(r: Rec, kind: Kind) { r.kind == kind && !r.place.New? && !r.place.Freed? }

  function Counted(handles: seq<Rec>, kind: Kind): set<nat> {
    set i | 0 <= i < |handles| && IsCounted(handles[i], kind)
  }

  predicate CountsOk(s: State) {
    forall kind :: s.counts.Of(kind) == |Counted(s.handles, kind)|
  }

  // ---------- what a step may change ----------

  predicate Structure(s: State) {
    (forall a :: 0 <= a < |s.threads| ==> ThreadOk(s, a)) &&
    (forall k :: 0 <= k < |s.shared| ==> SharedOk(s, k)) &&
    (forall h :: 0 < h <= |s.handles| ==> HandleOk(s, h)) &&
    Apart(s)
  }

  lemma ThreadIs(s: State, a: nat)
    requires Structure(s) && a < |s.threads|
    ensures ThreadOk(s, a) && Apart(s)
  {
  }

  lemma SharedIs(s: State, k: nat)
    requires Structure(s) && k < |s.shared|
    ensures SharedOk(s, k)
  {
  }

  lemma HandleIs(s: State, h: Handle)
    requires Structure(s) && 0 < h <= |s.handles|
    ensures HandleOk(s, h)
  {
  }

  // The handle a thread is setting up or giving back.
  function Register(pc: Pc): Handle {
    match pc
    case Count(h, _) => h
    case Setup(h, _, _) => h
    case SetupDiag(h, _) => h
    case Free(h, _) => h
    case FreeDiag(h, _) => h
    case Uncount(h, _) => h
    case _ => NULL
  }

  predicate Names(p: Place, a: nat) {
    match p
    case New(b) => a == b
    case Fresh(b) => a == b
    case Kept(b) => a == b
    case Releasing(b) => a == b
    case Leaving(b) => a == b
    case Diagnosing(b) => a == b
    case _ => false
  }

  // Flags and handle change under the mutex; one side never takes the handle from the other.
  predicate Changes(o: Shared, n: Shared, a: nat) {
    n.stmt == o.stmt && n.handle == o.handle &&
    (a == o.stmt || (o.usedByRows && a == o.rows)) &&
    (o.mu.Some? && o.mu != Some(a) ==> n.mu == o.mu) &&
    (o.mu != Some(a) ==> n.h == o.h && n.usedByStmt == o.usedByStmt && (o.usedByRows ==> n.usedByRows && n.rows == o.rows)) &&
    (a == o.stmt && o.usedByRows ==> n.usedByRows && n.rows == o.rows && n.h == o.h) &&
    (a != o.stmt ==> n.usedByStmt == o.usedByStmt && (o.usedByStmt ==> n.h == o.h))
  }

  predicate Grows(s: State, u: State) {
    |s.threads| <= |u.threads| && |s.shared| <= |u.shared| && |s.handles| <= |u.handles| && (s.panicked ==> u.panicked)
  }

  // Thread a touched handle h and the shared statement k, nothing else.
  predicate Only(s: State, u: State, a: nat, h: Handle, k: nat) {
    Grows(s, u) && a < |s.threads| &&
    (forall b :: 0 <= b < |s.threads| && b != a ==> u.threads[b] == s.threads[b]) &&
    (forall l :: 0 <= l < |s.shared| && l != k ==> u.shared[l] == s.shared[l]) &&
    (forall i :: 0 <= i < |s.handles| && i + 1 != h ==> u.handles[i] == s.handles[i])
  }

  predicate Local(s: State, u: State, a: nat, h: Handle, k: nat) {
    Only(s, u, a, h, k) &&
    (k < |s.shared| ==> Changes(s.shared[k], u.shared[k], a)) &&
    MovesOwn(s, u, a, h, k) && KeepsOwn(s, u, a, h, k)
  }

  predicate MovesOwn(s: State, u: State, a: nat, h: Handle, k: nat)
    requires Grows(s, u)
  {
    h == NULL ||
    (h <= |s.handles| && u.handles[h - 1].kind == s.handles[h - 1].kind &&
     (PastSetup(s.handles[h - 1].place) ==> PastSetup(u.handles[h - 1].place)) &&
     (Closer(u.handles[h - 1].place).Some? ==> Closer(u.handles[h - 1].place) == Some(a)) &&
     (u.handles[h - 1].place.At? ==> s.handles[h - 1].place.Fresh? && u.handles[h - 1].place.k >= |s.shared|) &&
     (Names(s.handles[h - 1].place, a) ||
      (k < |s.shared| && s.handles[h - 1].place == At(k) && u.shared[k].h == NULL && s.shared[k].h == h)))
  }

  predicate KeepsOwn(s: State, u: State, a: nat, h: Handle, k: nat)
    requires Grows(s, u) && a < |s.threads|
  {
    var t, n := s.threads[a], u.threads[a];
    (Register(t.pc) == NULL || Register(t.pc) == h) &&
    (match t.role
     case Statement(Some(l)) => n.role.Statement? && (l == k || n.role == t.role)
     case Statement(None) => n.role.Statement?
     case ResultSet(l) => n.role == t.role && (n.pc == Closed && t.pc != Closed ==> l == k)
     case Holder(kind, own) => n.role == t.role || (n.role.Holder? && n.role.kind == kind && (own == h || own == NULL))) &&
    (k < |s.shared| ==> u.shared[k].h == s.shared[k].h || s.shared[k].h == h)
  }

  lemma RoleFrame(s: State, u: State, a: nat, h: Handle, k: nat, b: nat)
    requires Structure(s) && Local(s, u, a, h, k) && b < |s.threads| && b != a
    ensures RoleOk(u, b, u.threads[b])
  {
    hide Structure, PcOk;
    ThreadIs(s, b);
    ThreadIs(s, a);
    if k < |s.shared| {
      SharedIs(s, k);
    }
  }

  predicate InClose(pc: Pc) { pc.Held? || pc.Cursor? || pc.CursorDiag? || pc.Unlock? }
  predicate InFree(pc: Pc) { pc.Free? || pc.FreeDiag? || pc.Uncount? }

  lemma CloseFrame(s: State, u: State, a: nat, h: Handle, k: nat, b: nat)
    requires Structure(s) && Local(s, u, a, h, k) && b < |s.threads| && b != a && InClose(s.threads[b].pc)
    ensures PcOk(u, b, u.threads[b])
  {
    hide Structure, SharedOk;
    ThreadIs(s, b);
    if k < |s.shared| {
      SharedIs(s, k);
    }
  }

  lemma FreeFrame(s: State, u: State, a: nat, h: Handle, k: nat, b: nat)
    requires Structure(s) && Local(s, u, a, h, k) && b < |s.threads| && b != a && InFree(s.threads[b].pc)
    ensures PcOk(u, b, u.threads[b])
  {
    hide Structure, SharedOk;
    ThreadIs(s, b);
    if k < |s.shared| {
      SharedIs(s, k);
    }
  }

  lemma CallFrame(s: State, u: State, a: nat, h: Handle, k: nat, b: nat)
    requires Structure(s) && Local(s, u, a, h, k) && b < |s.threads| && b != a
    requires !InClose(s.threads[b].pc) && !InFree(s.threads[b].pc)
    ensures PcOk(u, b, u.threads[b])
  {
    hide Structure, SharedOk;
    ThreadIs(s, b);
    if k < |s.shared| {
      SharedIs(s, k);
    }
  }

  lemma ThreadFrame(s: State, u: State, a: nat, h: Handle, k: nat, b: nat)
    requires Structure(s) && Local(s, u, a, h, k) && b < |s.threads| && b != a
    ensures ThreadOk(u, b)
  {
    RoleFrame(s, u, a, h, k, b);
    hide Structure, Local, RoleOk, PcOk;
    if InClose(s.threads[b].pc) {
      CloseFrame(s, u, a, h, k, b);
    } else if InFree(s.threads[b].pc) {
      FreeFrame(s, u, a, h, k, b);
    } else {
      CallFrame(s, u, a, h, k, b);
    }
  }

  lemma SharedFrame(s: State, u: State, a: nat, h: Handle, k: nat, l: nat)
    requires Structure(s) && Local(s, u, a, h, k) && l < |s.shared| && l != k
    ensures SharedOk(u, l)
  {
    hide ThreadOk, HandleOk;
    SharedIs(s, l);
    ThreadIs(s, a);
    if h > 0 {
      HandleIs(s, h);
    }
  }

  lemma HandleFrame(s: State, u: State, a: nat, h: Handle, k: nat, g: Handle)
    requires Structure(s) && Local(s, u, a, h, k) && 0 < g <= |s.handles| && g != h
    ensures HandleOk(u, g)
  {
    HandleIs(s, g);
    ThreadIs(s, a);
  }

  lemma ApartStays(s: State, u: State, a: nat, k: nat)
    requires Apart(s) && Local(s, u, a, NULL, k) && k < |s.shared| == |u.shared|
    ensures Apart(u)
  {
  }

  lemma LocalKeeps(s: State, u: State, a: nat, h: Handle, k: nat)
    requires Structure(s) && Local(s, u, a, h, k)
    requires forall b :: |s.threads| <= b < |u.threads| ==> ThreadOk(u, b)
    requires forall l :: |s.shared| <= l < |u.shared| ==> SharedOk(u, l)
    requires forall g :: |s.handles| < g <= |u.handles| ==> HandleOk(u, g)
    requires ThreadOk(u, a)
    requires k < |s.shared| ==> SharedOk(u, k)
    requires h > 0 ==> HandleOk(u, h)
    requires Apart(u)
    ensures Structure(u)
  {
    hide ThreadOk, SharedOk, HandleOk;
    forall b | 0 <= b < |u.threads| ensures ThreadOk(u, b) {
      if b < |s.threads| && b != a { ThreadFrame(s, u, a, h, k, b); }
    }
    forall l | 0 <= l < |u.shared| ensures SharedOk(u, l) {
      if l < |s.shared| && l != k { SharedFrame(s, u, a, h, k, l); }
    }
    forall g | 0 < g <= |u.handles| ensures HandleOk(u, g) {
      if g <= |s.handles| && g != h { HandleFrame(s, u, a, h, k, g); }
    }
  }

  // A thread that holds no handle of its own moves on, and nothing else changes.
  lemma MoveKeeps(s: State, a: nat, pc: Pc)
    requires Structure(s) && a < |s.threads| && Register(s.threads[a].pc) == NULL
    requires s.threads[a].pc != Closed && pc != Closed && PcOk(s, a, s.threads[a].(pc := pc))
    ensures Structure(Goes(s, a, pc))
  {
    hide Structure, SharedOk, HandleOk;
    ThreadIs(s, a);
    LocalKeeps(s, Goes(s, a, pc), a, NULL, |s.shared|);
  }

  lemma StartLocal(s: State, a: nat, op: Op, h: Handle)
    requires Structure(s) && a < |s.threads| && s.threads[a].pc.Rest?
    requires var u, role := Start(s, a, op), s.threads[a].role;
      h == if role.Holder? && u.threads[a].pc.Free? then role.own else NULL
    ensures Local(s, Start(s, a, op), a, h, |s.shared|)
  {
    hide Structure, PcOk;
    ThreadIs(s, a);
    if h > 0 {
      HandleIs(s, h);
    }
  }

  lemma StartThread(s: State, a: nat, op: Op)
    requires Structure(s) && a < |s.threads| && s.threads[a].pc.Rest?
    ensures var u, role := Start(s, a, op), s.threads[a].role;
      && |u.threads| == |s.threads| && u.shared == s.shared && |u.handles| == |s.handles|
      && ThreadOk(u, a) && Apart(u)
      && (role.Holder? && u.threads[a].pc.Free? && role.own > 0 ==> role.own <= |s.handles| && HandleOk(u, role.own))
  {
    hide Structure, Local;
    ThreadIs(s, a);
  }

  lemma RestKeeps(s: State, a: nat, c: Choice)
    requires Structure(s) && a < |s.threads| && s.threads[a].pc.Rest?
    ensures Structure(Acts(s, a, c))
  {
    hide Structure, Local, Start, ThreadOk, HandleOk;
    var u, role := Start(s, a, c.op), s.threads[a].role;
    StartThread(s, a, c.op);
    var h := if role.Holder? && u.threads[a].pc.Free? then role.own else NULL;
    StartLocal(s, a, c.op, h);
    LocalKeeps(s, u, a, h, |s.shared|);
  }

  lemma AllocKeeps(s: State, a: nat, c: Choice)
    requires Structure(s) && a < |s.threads| && s.threads[a].pc.Alloc?
    ensures Structure(Acts(s, a, c))
  {
    hide Structure;
    ThreadIs(s, a);
    LocalKeeps(s, Acts(s, a, c), a, NULL, |s.shared|);
  }

  lemma CountKeeps(s: State, a: nat, c: Choice)
    requires Structure(s) && a < |s.threads| && s.threads[a].pc.Count?
    ensures Structure(Acts(s, a, c))
  {
    hide Structure;
    ThreadIs(s, a);
    HandleIs(s, Register(s.threads[a].pc));
    LocalKeeps(s, Acts(s, a, c), a, Register(s.threads[a].pc), |s.shared|);
  }

  lemma SetupLocal(s: State, a: nat, h: Handle, goal: Goal, inParams: bool, c: Choice)
    requires Structure(s) && a < |s.threads| && s.threads[a].pc == Setup(h, goal, inParams)
    ensures Local(s, Configure(s, a, h, goal, inParams, c), a, h, |s.shared|)
  {
    hide Structure;
    ThreadIs(s, a);
    HandleIs(s, h);
  }

  // The new ODBCStmt, if the handle goes into one, is the only one with that handle.
  lemma SetupShared(s: State, a: nat, h: Handle, goal: Goal, inParams: bool, c: Choice)
    requires Structure(s) && a < |s.threads| && s.threads[a].pc == Setup(h, goal, inParams)
    ensures var u := Configure(s, a, h, goal, inParams, c);
      && |u.threads| == |s.threads| && |s.shared| <= |u.shared| <= |s.shared| + 1 && |u.handles| == |s.handles|
      && Apart(u) && ThreadOk(u, a) && 0 < h <= |s.handles| && HandleOk(u, h)
      && (|u.shared| > |s.shared| ==> SharedOk(u, |s.shared|))
  {
    hide Structure;
    ThreadIs(s, a);
    HandleIs(s, h);
    forall l | 0 <= l < |s.shared| ensures s.shared[l].handle != h {
      SharedIs(s, l);
    }
  }

  lemma SetupKeeps(s: State, a: nat, c: Choice)
    requires Structure(s) && a < |s.threads| && s.threads[a].pc.Setup?
    ensures Structure(Acts(s, a, c))
  {
    hide Structure, Local, Configure, ThreadOk, SharedOk, HandleOk;
    var Setup(h, goal, inParams) := s.threads[a].pc;
    SetupLocal(s, a, h, goal, inParams, c);
    SetupShared(s, a, h, goal, inParams, c);
    LocalKeeps(s, Configure(s, a, h, goal, inParams, c), a, h, |s.shared|);
  }

  lemma SetupDiagKeeps(s: State, a: nat, c: Choice)
    requires Structure(s) && a < |s.threads| && s.threads[a].pc.SetupDiag?
    ensures Structure(Acts(s, a, c))
  {
    hide Structure;
    ThreadIs(s, a);
    HandleIs(s, Register(s.threads[a].pc));
    LocalKeeps(s, Acts(s, a, c), a, Register(s.threads[a].pc), |s.shared|);
  }

  // Where a thread goes on after a handle was given back.
  lemma GoesOn(s: State, u: State, a: nat, after: After, next: After)
    requires a < |s.threads| && RoleOk(s, a, s.threads[a]) && Freeing(s, a, s.threads[a], after)
    requires s.threads[a].pc != Closed
    requires next == after || (next == Abandon && (after.CloseStatement? || after.Reprepare?))
    requires u.shared == s.shared && |u.threads| == |s.threads|
    requires u.threads[a] == s.threads[a].(pc := AfterFree(s.threads[a].role, next))
    ensures ThreadOk(u, a)
  {
  }

  lemma FreeLocal(s: State, a: nat, c: Choice)
    requires Structure(s) && a < |s.threads| && s.threads[a].pc.Free?
    ensures Local(s, Acts(s, a, c), a, s.threads[a].pc.h, |s.shared|)
  {
    hide Structure, PcOk, RoleOk, HandleOk;
    ThreadIs(s, a);
    RegisterIs(s, a);
  }

  // A handle that was already given back: the free reports an invalid handle.
  lemma NullFreed(s: State, a: nat, c: Choice)
    requires a < |s.threads| && ThreadOk(s, a) && s.threads[a].pc.Free? && Answer(s.threads[a].pc.h, c) == Invalid
    ensures ThreadOk(Acts(s, a, c), a)
  {
    GoesOn(s, Acts(s, a, c), a, s.threads[a].pc.after, s.threads[a].pc.after);
  }

  lemma FreeThread(s: State, a: nat, c: Choice)
    requires Structure(s) && a < |s.threads| && s.threads[a].pc.Free?
    ensures ThreadOk(Acts(s, a, c), a)
    ensures s.threads[a].pc.h > 0 ==> s.threads[a].pc.h <= |s.handles| && HandleOk(Acts(s, a, c), s.threads[a].pc.h)
  {
    hide Structure;
    ThreadIs(s, a);
    if Answer(s.threads[a].pc.h, c) == Invalid {
      NullFreed(s, a, c);
    }
  }

  lemma FreeKeeps(s: State, a: nat, c: Choice)
    requires Structure(s) && a < |s.threads| && s.threads[a].pc.Free?
    ensures Structure(Acts(s, a, c))
  {
    hide Structure, Local, ThreadOk, HandleOk;
    ThreadIs(s, a);
    FreeLocal(s, a, c);
    FreeThread(s, a, c);
    LocalKeeps(s, Acts(s, a, c), a, s.threads[a].pc.h, |s.shared|);
  }

  lemma FreeDiagKeeps(s: State, a: nat, c: Choice)
    requires Structure(s) && a < |s.threads| && s.threads[a].pc.FreeDiag?
    ensures Structure(Acts(s, a, c))
  {
    hide Structure;
    ThreadIs(s, a);
    var FreeDiag(h, after) := s.threads[a].pc;
    HandleIs(s, h);
    LocalKeeps(s, FreeFailed(s, a, h, after, c), a, h, |s.shared|);
  }

  lemma UncountKeeps(s: State, a: nat, c: Choice)
    requires Structure(s) && a < |s.threads| && s.threads[a].pc.Uncount?
    ensures Structure(Acts(s, a, c))
  {
    hide Structure;
    ThreadIs(s, a);
    HandleIs(s, s.threads[a].pc.h);
    LocalKeeps(s, Acts(s, a, c), a, s.threads[a].pc.h, |s.shared|);
  }

  lemma CheckKeeps(s: State, a: nat, c: Choice)
    requires Structure(s) && a < |s.threads| && s.threads[a].pc.Check?
    ensures Structure(Acts(s, a, c))
  {
    hide Structure;
    ThreadIs(s, a);
    LocalKeeps(s, Acts(s, a, c), a, NULL, |s.shared|);
  }

  lemma LoadKeeps(s: State, a: nat, c: Choice)
    requires Structure(s) && a < |s.threads| && s.threads[a].pc.Load?
    ensures Structure(Acts(s, a, c))
  {
    hide Structure, HandleOk;
    ThreadIs(s, a);
    if !s.threads[a].role.Holder? {
      SharedIs(s, SharedOf(s.threads[a]).value);
    }
    MoveKeeps(s, a, Acts(s, a, c).threads[a].pc);
  }

  // A statement calls the library with the handle it holds; a successful query creates a result set.
  lemma UseLocal(s: State, a: nat, k: nat, c: Choice)
    requires Structure(s) && a < |s.threads| && s.threads[a].pc.Call? && s.threads[a].role == Statement(Some(k))
    ensures Local(s, Use(s, a, s.threads[a].pc.h, s.threads[a].pc.query, c), a, NULL, k)
  {
    hide Structure, HandleOk;
    ThreadIs(s, a);
    SharedIs(s, k);
  }

  lemma UseShared(s: State, a: nat, k: nat, c: Choice)
    requires Structure(s) && a < |s.threads| && s.threads[a].pc.Call? && s.threads[a].role == Statement(Some(k))
    ensures var u := Use(s, a, s.threads[a].pc.h, s.threads[a].pc.query, c);
      k < |s.shared| == |u.shared| && u.handles == s.handles && SharedOk(u, k)
  {
    hide Structure, Apart, Local;
    ThreadIs(s, a);
    SharedIs(s, k);
    if s.threads[a].pc.h > 0 {
      HandleIs(s, s.threads[a].pc.h);
    }
  }

  lemma UseThreads(s: State, a: nat, k: nat, c: Choice)
    requires Structure(s) && a < |s.threads| && s.threads[a].pc.Call? && s.threads[a].role == Statement(Some(k))
    ensures var u := Use(s, a, s.threads[a].pc.h, s.threads[a].pc.query, c);
      |s.threads| <= |u.threads| && forall b :: |s.threads| <= b < |u.threads| || b == a ==> ThreadOk(u, b)
  {
    hide Structure, SharedOk, HandleOk, Local;
    ThreadIs(s, a);
  }

  lemma StatementCallKeeps(s: State, a: nat, c: Choice)
    requires Structure(s) && a < |s.threads| && s.threads[a].pc.Call? && s.threads[a].role.Statement?
    ensures Structure(Acts(s, a, c))
  {
    hide Structure, Local, Use, SharedOk, HandleOk, PcOk;
    ThreadIs(s, a);
    var Call(h, query) := s.threads[a].pc;
    var k := CallsShared(s, a);
    UseLocal(s, a, k, c);
    UseShared(s, a, k, c);
    ApartStays(s, Use(s, a, h, query, c), a, k);
    UseThreads(s, a, k, c);
    LocalKeeps(s, Use(s, a, h, query, c), a, NULL, k);
  }

  lemma CallsShared(s: State, a: nat) returns (k: nat)
    requires a < |s.threads| && ThreadOk(s, a) && s.threads[a].pc.Call? && s.threads[a].role.Statement?
    ensures s.threads[a].role == Statement(Some(k))
  {
    k := s.threads[a].role.os.value;
  }

  lemma RowsCallKeeps(s: State, a: nat, c: Choice)
    requires Structure(s) && a < |s.threads| && s.threads[a].pc.Call? && s.threads[a].role.ResultSet?
    ensures Structure(Acts(s, a, c))
  {
    hide Structure, HandleOk;
    ThreadIs(s, a);
    LocalKeeps(s, Acts(s, a, c), a, NULL, |s.shared|);
  }

  lemma HolderCallLocal(s: State, a: nat, c: Choice)
    requires Structure(s) && a < |s.threads| && s.threads[a].pc.Call? && s.threads[a].role.Holder?
    ensures Local(s, Use(s, a, s.threads[a].pc.h, s.threads[a].pc.query, c), a, s.threads[a].role.own, |s.shared|)
  {
    hide Structure;
    ThreadIs(s, a);
    if s.threads[a].role.own > 0 {
      HandleIs(s, s.threads[a].role.own);
    }
  }

  lemma HolderCallThread(s: State, a: nat, c: Choice)
    requires Structure(s) && a < |s.threads| && s.threads[a].pc.Call? && s.threads[a].role.Holder?
    ensures var u, own := Use(s, a, s.threads[a].pc.h, s.threads[a].pc.query, c), s.threads[a].role.own;
      && |u.threads| == |s.threads| && u.shared == s.shared && |u.handles| == |s.handles|
      && ThreadOk(u, a) && Apart(u) && (own > 0 ==> own <= |s.handles| && HandleOk(u, own))
  {
    hide Structure, Local;
    ThreadIs(s, a);
    if s.threads[a].role.own > 0 {
      HandleIs(s, s.threads[a].role.own);
    }
  }

  lemma HolderCallKeeps(s: State, a: nat, c: Choice)
    requires Structure(s) && a < |s.threads| && s.threads[a].pc.Call? && s.threads[a].role.Holder?
    ensures Structure(Acts(s, a, c))
  {
    hide Structure, Local, Use, ThreadOk, HandleOk;
    var Call(h, query) := s.threads[a].pc;
    HolderCallLocal(s, a, c);
    HolderCallThread(s, a, c);
    LocalKeeps(s, Use(s, a, h, query, c), a, s.threads[a].role.own, |s.shared|);
  }

  lemma CallKeeps(s: State, a: nat, c: Choice)
    requires Structure(s) && a < |s.threads| && s.threads[a].pc.Call?
    ensures Structure(Acts(s, a, c))
  {
    hide Structure, Acts;
    if s.threads[a].role.Statement? {
      StatementCallKeeps(s, a, c);
    } else if s.threads[a].role.Holder? {
      HolderCallKeeps(s, a, c);
    } else {
      RowsCallKeeps(s, a, c);
    }
  }

  lemma CallDiagKeeps(s: State, a: nat, c: Choice)
    requires Structure(s) && a < |s.threads| && s.threads[a].pc.CallDiag?
    ensures Structure(Acts(s, a, c))
  {
    hide Structure;
    ThreadIs(s, a);
    LocalKeeps(s, Acts(s, a, c), a, NULL, |s.shared|);
  }

  function Enter(s: State, a: nat, k: nat, after: After): State
    requires a < |s.threads| && k < |s.shared|
  {
    Goes(WithShared(s, k, s.shared[k].(mu := Some(a))), a, Held(after))
  }

  lemma EnterKeeps(s: State, a: nat, k: nat, after: After)
    requires Structure(s) && a < |s.threads| && s.threads[a].pc == Lock(after) && SharedOf(s.threads[a]) == Some(k)
    requires k < |s.shared| && s.shared[k].mu == None
    ensures Structure(Enter(s, a, k, after))
  {
    hide Structure, HandleOk;
    ThreadIs(s, a);
    SharedIs(s, k);
    LocalKeeps(s, Enter(s, a, k, after), a, NULL, k);
  }

  lemma LocksShared(s: State, a: nat) returns (k: nat)
    requires a < |s.threads| && ThreadOk(s, a) && (s.threads[a].pc.Lock? || s.threads[a].pc.Unlock?)
    ensures SharedOf(s.threads[a]) == Some(k) && k < |s.shared|
  {
    k := SharedOf(s.threads[a]).value;
  }

  lemma LockKeeps(s: State, a: nat, c: Choice)
    requires Structure(s) && a < |s.threads| && s.threads[a].pc.Lock?
    ensures Structure(Acts(s, a, c))
  {
    hide Structure, Local, SharedOk, HandleOk, PcOk, RoleOk;
    ThreadIs(s, a);
    var after := s.threads[a].pc.after;
    var k := LocksShared(s, a);
    if s.shared[k].mu.None? {
      EnterKeeps(s, a, k, after);
    }
  }

  predicate LastOut(s: State, a: nat, k: nat, after: After) {
    a < |s.threads| && s.threads[a].pc == Held(after) && SharedOf(s.threads[a]) == Some(k) && k < |s.shared| &&
    if s.threads[a].role.Statement? then !s.shared[k].usedByRows else !s.shared[k].usedByStmt
  }

  lemma ReleaseLocal(s: State, a: nat, k: nat, after: After)
    requires Structure(s) && LastOut(s, a, k, after)
    ensures Local(s, Release(s, a, k, after), a, s.shared[k].h, k)
  {
    hide Structure;
    ThreadIs(s, a);
    SharedIs(s, k);
    if s.shared[k].h > 0 {
      HandleIs(s, s.shared[k].h);
    }
  }

  lemma ReleaseShared(s: State, a: nat, k: nat, after: After)
    requires Structure(s) && LastOut(s, a, k, after)
    ensures SharedOk(Release(s, a, k, after), k)
  {
    hide Structure, HandleOk;
    ThreadIs(s, a);
    SharedIs(s, k);
  }

  lemma ReleaseThread(s: State, a: nat, k: nat, after: After)
    requires Structure(s) && LastOut(s, a, k, after)
    ensures ThreadOk(Release(s, a, k, after), a)
    ensures s.shared[k].h > 0 ==> s.shared[k].h <= |s.handles| && HandleOk(Release(s, a, k, after), s.shared[k].h)
  {
    hide Structure, SharedOk;
    ThreadIs(s, a);
    SharedIs(s, k);
  }

  // A side that takes the handle out finds the other flag cleared.
  lemma ReleaseKeeps(s: State, a: nat, k: nat, after: After)
    requires Structure(s) && LastOut(s, a, k, after)
    ensures Structure(Release(s, a, k, after))
  {
    assert Apart(s);
    ReleaseLocal(s, a, k, after);
    ReleaseShared(s, a, k, after);
    ReleaseThread(s, a, k, after);
    hide Structure, Local, ThreadOk, SharedOk, HandleOk;
    LocalKeeps(s, Release(s, a, k, after), a, s.shared[k].h, k);
  }

  lemma HeldKeeps(s: State, a: nat, c: Choice)
    requires Structure(s) && a < |s.threads| && s.threads[a].pc.Held?
    ensures Structure(Acts(s, a, c))
  {
    hide Structure, Local;
    ThreadIs(s, a);
    var k, after := SharedOf(s.threads[a]).value, s.threads[a].pc.after;
    var o := s.shared[k];
    var last := if s.threads[a].role.Statement? then o.usedByStmt && !o.usedByRows else o.usedByRows && !o.usedByStmt;
    if last {
      ReleaseKeeps(s, a, k, after);
    } else {
      StaysHeld(s, a, c, k);
    }
  }

  lemma StaysHeld(s: State, a: nat, c: Choice, k: nat)
    requires Structure(s) && a < |s.threads| && s.threads[a].pc.Held?
    requires SharedOf(s.threads[a]) == Some(k) && k < |s.shared|
    requires var t, o := s.threads[a], s.shared[k];
      if t.role.Statement? then o.usedByStmt ==> o.usedByRows else o.usedByRows ==> o.usedByStmt
    ensures Structure(Acts(s, a, c))
  {
    hide Structure, HandleOk;
    ThreadIs(s, a);
    SharedIs(s, k);
    MoveKeeps(s, a, Acts(s, a, c).threads[a].pc);
  }

  lemma CursorKeeps(s: State, a: nat, c: Choice)
    requires Structure(s) && a < |s.threads| && s.threads[a].pc.Cursor?
    ensures Structure(Acts(s, a, c))
  {
    hide Structure;
    ThreadIs(s, a);
    LocalKeeps(s, Acts(s, a, c), a, NULL, |s.shared|);
  }

  lemma CursorDiagKeeps(s: State, a: nat, c: Choice)
    requires Structure(s) && a < |s.threads| && s.threads[a].pc.CursorDiag?
    ensures Structure(Acts(s, a, c))
  {
    hide Structure;
    ThreadIs(s, a);
    LocalKeeps(s, Acts(s, a, c), a, NULL, |s.shared|);
  }

  lemma LeaveLocal(s: State, a: nat, k: nat, after: After)
    requires Structure(s) && a < |s.threads| && s.threads[a].pc == Unlock(after) && SharedOf(s.threads[a]) == Some(k)
    requires k < |s.shared|
    ensures Local(s, Leave(s, a, k, after), a, NULL, k)
  {
    hide Structure, HandleOk;
    ThreadIs(s, a);
    SharedIs(s, k);
  }

  lemma LeaveShared(s: State, a: nat, k: nat, after: After)
    requires Structure(s) && a < |s.threads| && s.threads[a].pc == Unlock(after) && SharedOf(s.threads[a]) == Some(k)
    requires k < |s.shared|
    ensures var u := Leave(s, a, k, after); SharedOk(u, k) && Apart(u)
  {
    hide Structure, Local;
    ThreadIs(s, a);
    SharedIs(s, k);
    HandleIs(s, s.shared[k].handle);
  }

  lemma LeaveThread(s: State, a: nat, k: nat, after: After)
    requires Structure(s) && a < |s.threads| && s.threads[a].pc == Unlock(after) && SharedOf(s.threads[a]) == Some(k)
    requires k < |s.shared|
    ensures ThreadOk(Leave(s, a, k, after), a)
  {
    hide Structure, Local, SharedOk;
    ThreadIs(s, a);
  }

  lemma UnlockKeeps(s: State, a: nat, c: Choice)
    requires Structure(s) && a < |s.threads| && s.threads[a].pc.Unlock?
    ensures Structure(Acts(s, a, c))
  {
    hide Structure, Local, SharedOk, HandleOk, PcOk, RoleOk;
    ThreadIs(s, a);
    var after := s.threads[a].pc.after;
    var k := LocksShared(s, a);
    LeaveLocal(s, a, k, after);
    LeaveShared(s, a, k, after);
    LeaveThread(s, a, k, after);
    LocalKeeps(s, Leave(s, a, k, after), a, NULL, k);
  }

  lemma ActsKeeps(s: State, a: nat, c: Choice)
    requires Structure(s) && a < |s.threads|
    ensures Structure(Acts(s, a, c))
  {
    var t := s.threads[a];
    if t.pc == Closed {
      return;
    }
    hide Structure, Acts;
    match t.pc {
      case Rest => RestKeeps(s, a, c);
      case Alloc(_) => AllocKeeps(s, a, c);
      case Count(_, _) => CountKeeps(s, a, c);
      case Setup(_, _, _) => SetupKeeps(s, a, c);
      case SetupDiag(_, _) => SetupDiagKeeps(s, a, c);
      case Free(_, _) => FreeKeeps(s, a, c);
      case FreeDiag(_, _) => FreeDiagKeeps(s, a, c);
      case Uncount(_, _) => UncountKeeps(s, a, c);
      case Check(_) => CheckKeeps(s, a, c);
      case Load(_) => LoadKeeps(s, a, c);
      case Call(_, _) => CallKeeps(s, a, c);
      case CallDiag(_, _) => CallDiagKeeps(s, a, c);
      case Lock(_) => LockKeeps(s, a, c);
      case Held(_) => HeldKeeps(s, a, c);
      case Cursor(_) => CursorKeeps(s, a, c);
      case CursorDiag(_) => CursorDiagKeeps(s, a, c);
      case Unlock(_) => UnlockKeeps(s, a, c);
    }
  }

  lemma SpawnKeeps(s: State, role: Role)
    requires Structure(s)
    ensures Structure(Step(s, Spawn(role)))
  {
    var u := Step(s, Spawn(role));
    forall b | 0 <= b < |u.threads| ensures ThreadOk(u, b) {
      if b < |s.threads| {
        ThreadIs(s, b);
      }
    }
    forall k | 0 <= k < |u.shared| ensures SharedOk(u, k) {
      SharedIs(s, k);
    }
    forall h | 0 < h <= |u.handles| ensures HandleOk(u, h) {
      HandleIs(s, h);
    }
  }

  // ---------- log and counts ----------

  predicate Inv(s: State) {
    Structure(s) && LogOk(s) && CountsOk(s)
  }

  // Only handle h moves, and at most one handle is new.
  predicate Moves(s: State, u: State, h: Handle) {
    h <= |s.handles| <= |u.handles| <= |s.handles| + 1 &&
    (forall i :: 0 <= i < |s.handles| && i + 1 != h ==> u.handles[i] == s.handles[i]) &&
    (|u.handles| > |s.handles| ==> h == NULL && u.handles[|s.handles|].place.New? && u.counts == s.counts) &&
    (h != NULL ==> u.handles[h - 1].kind == s.handles[h - 1].kind)
  }

  // The entry that a step adds to the log, if any, agrees with what it does to the handles.
  predicate Recorded(s: State, u: State, h: Handle)
    requires Moves(s, u, h)
  {
    if u.log == s.log then h != NULL ==> FateOf(u.handles[h - 1].place) == FateOf(s.handles[h - 1].place)
    else
      |u.log| == |s.log| + 1 && u.log[..|s.log|] == s.log &&
      var e := u.log[|s.log|];
      e.h <= |u.handles| &&
      (e.h > |s.handles| ==> e.fn == AllocHandle) &&
      (h != NULL ==>
        FateOf(u.handles[h - 1].place) ==
          if e.h == h then Later(FateOf(s.handles[h - 1].place), e) else FateOf(s.handles[h - 1].place)) &&
      (0 < e.h <= |s.handles| && e.h != h ==>
        Later(FateOf(s.handles[e.h - 1].place), e) == FateOf(s.handles[e.h - 1].place))
  }

  function Weight(r: Rec, kind: Kind): int { if IsCounted(r, kind) then 1 else 0 }

  predicate Tallied(s: State, u: State, h: Handle)
    requires Moves(s, u, h)
  {
    if h == NULL then u.counts == s.counts
    else forall kind ::
      u.counts.Of(kind) - s.counts.Of(kind) == Weight(u.handles[h - 1], kind) - Weight(s.handles[h - 1], kind)
  }

  lemma RecordedKeeps(s: State, u: State, h: Handle)
    requires LogOk(s) && Moves(s, u, h) && Recorded(s, u, h)
    ensures LogOk(u)
  {
    forall g | 0 < g <= |u.handles| ensures FateIn(u.log, g) == FateOf(u.handles[g - 1].place) {
      if g > |s.handles| {
        UnmentionedIsUntouched(s.log, g);
      }
    }
  }

  lemma CountedWith(handles: seq<Rec>, i: nat, kind: Kind)
    requires i < |handles|
    ensures |Counted(handles, kind)| == |Counted(handles, kind) - {i}| + Weight(handles[i], kind)
  {
    var others := Counted(handles, kind) - {i};
    if IsCounted(handles[i], kind) {
      assert Counted(handles, kind) == others + {i};
    } else {
      assert Counted(handles, kind) == others;
    }
  }

  lemma CountedMoves(before: seq<Rec>, now: seq<Rec>, i: nat, kind: Kind)
    requires i < |before| == |now| && forall j :: 0 <= j < |before| && j != i ==> now[j] == before[j]
    ensures |Counted(now, kind)| - |Counted(before, kind)| == Weight(now[i], kind) - Weight(before[i], kind)
  {
    CountedWith(before, i, kind);
    CountedWith(now, i, kind);
    hide IsCounted;
    var was, are := Counted(before, kind) - {i}, Counted(now, kind) - {i};
    forall j ensures j in was <==> j in are {
      if 0 <= j < |before| && j != i {
        assert now[j] == before[j];
      }
    }
    assert was == are;
  }

  lemma TalliedKeeps(s: State, u: State, h: Handle)
    requires CountsOk(s) && Moves(s, u, h) && Tallied(s, u, h)
    ensures CountsOk(u)
  {
    forall kind ensures u.counts.Of(kind) == |Counted(u.handles, kind)| {
      if h == NULL {
        assert Counted(u.handles, kind) == Counted(s.handles, kind);
      } else {
        CountedMoves(s.handles, u.handles, h - 1, kind);
      }
    }
  }

  // The handle whose place a step may change.
  function Touched(s: State, a: nat): Handle
    requires a < |s.threads|
  {
    var t := s.threads[a];
    match t.pc
    case Rest => if t.role.Holder? && t.role.kind == Env then t.role.own else NULL
    case Call(h, _) => if t.role.Holder? && h != NULL then t.role.own else NULL
    case Held(_) =>
      (match SharedOf(t)
       case Some(k) => if k < |s.shared| then s.shared[k].h else NULL
       case None => NULL)
    case pc => Register(pc)
  }

  predicate Accounted(s: State, u: State, h: Handle) {
    Moves(s, u, h) && Recorded(s, u, h) && Tallied(s, u, h)
  }

  // What the handle of a call is.
  predicate Registered(s: State, a: nat, t: Thread) {
    match t.pc
    case Count(h, _) => Is(s, h, New(a), KindOf(t))
    case Setup(h, _, _) => Is(s, h, Fresh(a), KindOf(t))
    case SetupDiag(h, _) => Is(s, h, Fresh(a), KindOf(t))
    case Free(h, _) => h == NULL || Is(s, h, Releasing(a), KindOf(t))
    case FreeDiag(h, _) => Is(s, h, Diagnosing(a), KindOf(t))
    case Uncount(h, _) => Is(s, h, Leaving(a), KindOf(t))
    case Call(h, _) => Owns(s, a, t.role, h)
    case CallDiag(h, _) => Owns(s, a, t.role, h)
    case Cursor(h) => Owns(s, a, t.role, h)
    case CursorDiag(h) => Owns(s, a, t.role, h)
    case _ => true
  }

  lemma RegisterIs(s: State, a: nat)
    requires a < |s.threads| && ThreadOk(s, a)
    ensures Registered(s, a, s.threads[a])
  {
  }

  lemma FreeAccounted(s: State, a: nat, c: Choice)
    requires a < |s.threads| && ThreadOk(s, a) && s.threads[a].pc.Free?
    ensures Accounted(s, Acts(s, a, c), Touched(s, a))
  {
    hide ThreadOk;
    RegisterIs(s, a);
  }

  lemma FreedAccounted(s: State, a: nat, c: Choice)
    requires a < |s.threads| && ThreadOk(s, a) && (s.threads[a].pc.FreeDiag? || s.threads[a].pc.Uncount?)
    ensures Accounted(s, Acts(s, a, c), Touched(s, a))
  {
    hide ThreadOk;
    RegisterIs(s, a);
  }

  lemma SetupAccounted(s: State, a: nat, c: Choice)
    requires a < |s.threads| && ThreadOk(s, a) && s.threads[a].pc.Setup?
    ensures Accounted(s, Acts(s, a, c), Touched(s, a))
  {
    hide ThreadOk;
    RegisterIs(s, a);
  }

  lemma NewAccounted(s: State, a: nat, c: Choice)
    requires a < |s.threads| && ThreadOk(s, a) && (s.threads[a].pc.Count? || s.threads[a].pc.SetupDiag?)
    ensures Accounted(s, Acts(s, a, c), Touched(s, a))
  {
    hide ThreadOk;
    RegisterIs(s, a);
  }

  lemma CallAccounted(s: State, a: nat, c: Choice)
    requires a < |s.threads| && ThreadOk(s, a)
    requires var pc := s.threads[a].pc; pc.Call? || pc.CallDiag? || pc.Cursor? || pc.CursorDiag?
    ensures Accounted(s, Acts(s, a, c), Touched(s, a))
  {
    hide ThreadOk;
    RegisterIs(s, a);
  }

  lemma RestAccounted(s: State, a: nat, c: Choice)
    requires a < |s.threads| && ThreadOk(s, a) && s.threads[a].pc.Rest?
    ensures Accounted(s, Acts(s, a, c), Touched(s, a))
  {
  }

  lemma QuietAccounted(s: State, a: nat, c: Choice)
    requires a < |s.threads|
    requires var pc := s.threads[a].pc; pc.Closed? || pc.Alloc? || pc.Check? || pc.Load? || pc.Lock? || pc.Unlock?
    ensures Accounted(s, Acts(s, a, c), Touched(s, a))
  {
  }

  lemma HeldAccounted(s: State, a: nat, c: Choice)
    requires Structure(s) && a < |s.threads| && s.threads[a].pc.Held?
    ensures Accounted(s, Acts(s, a, c), Touched(s, a))
  {
    hide Structure;
    ThreadIs(s, a);
    var k := SharedOf(s.threads[a]).value;
    SharedIs(s, k);
  }

  lemma ActsAccounted(s: State, a: nat, c: Choice)
    requires Structure(s) && a < |s.threads|
    ensures Accounted(s, Acts(s, a, c), Touched(s, a))
  {
    hide Acts, Structure, ThreadOk, Accounted, Touched;
    ThreadIs(s, a);
    var pc := s.threads[a].pc;
    if pc.Held? {
      HeldAccounted(s, a, c);
    } else if pc.Free? {
      FreeAccounted(s, a, c);
    } else if pc.FreeDiag? || pc.Uncount? {
      FreedAccounted(s, a, c);
    } else if pc.Setup? {
      SetupAccounted(s, a, c);
    } else if pc.Count? || pc.SetupDiag? {
      NewAccounted(s, a, c);
    } else if pc.Call? || pc.CallDiag? || pc.Cursor? || pc.CursorDiag? {
      CallAccounted(s, a, c);
    } else if pc.Rest? {
      RestAccounted(s, a, c);
    } else {
      QuietAccounted(s, a, c);
    }
  }
}
