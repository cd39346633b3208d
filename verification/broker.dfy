/**
 * The service broker: any number of processes check and then act on one SQL Server, and a process that meets an SQL
 * error stops with every request it is serving.
 *
 * A step is one SQL statement of one request, the arrival of a request, the end of a process, or what the server makes
 * of a statement whose process ended while it was on its way. Every statement may fail for reasons of its own.
 */
module Broker {
  import opened Bytes

  datatype Op =
    | Provision(instance: string)
    | Deprovision(instance: string)
    | Bind(instance: string, binding: string)
    | Unbind(instance: string, binding: string)

  function DbName(prefix: string, op: Op): string { prefix + op.instance }

  function UserName(prefix: string, op: Op): string
    requires op.Bind? || op.Unbind?
  {
    DbName(prefix, op) + "-" + op.binding
  }

  // The statement a request executes next.
  datatype Pc =
    | CheckDb | CheckUser
    | CreateDb
    | AlterDb | DropDb
    | Begin | Use | ChangeUser | AddRole | Leave | Commit
    | Reply(status: int)
    | Done

  datatype User = User(db: string, name: string)

  // A transaction inside one database, and the user it adds or drops.
  datatype Session = Session(db: string, changed: bool)

  // No step looks at `since`, the length of the log when the request arrived.
  datatype Request = Request(process: nat, op: Op, pc: Pc, alive: bool, session: Option<Session>, killed: bool, since: nat)

  // What became visible on the server, and what was answered.
  datatype Event =
    | Created(r: nat, db: string)
    | Dropped(r: nat, db: string)
    | UserAdded(r: nat, user: User)
    | UserDropped(r: nat, user: User)
    | Replied(r: nat, status: int)

  datatype State = State(dbs: set<string>, users: set<User>, requests: seq<Request>, log: seq<Event>)

  datatype Input =
    | Arrives(process: nat, op: Op)
    | Acts(r: nat, ok: bool)
    | Ends(process: nat)
    | Settles(r: nat, executes: bool)

  const CREATED := 201
  const OK := 200
  const NOT_FOUND := 404
  const CONFLICT := 409
  const GONE := 410
  const SERVER_ERROR := 500

  function With(s: State, r: nat, q: Request): State
    requires r < |s.requests|
  {
    s.(requests := s.requests[r := q])
  }

  function Goes(s: State, r: nat, pc: Pc): State
    requires r < |s.requests|
  {
    With(s, r, s.requests[r].(pc := pc))
  }

  function Logged(s: State, e: Event): State { s.(log := s.log + [e]) }

  // A process stops with all the requests it is serving.
  function Crash(s: State, process: nat): State {
    s.(requests := seq(|s.requests|, i requires 0 <= i < |s.requests| =>
      if s.requests[i].process == process && s.requests[i].pc != Done then s.requests[i].(alive := false)
      else s.requests[i]))
  }

  // The server refused: the transaction is rolled back, and the process stops.
  function Fails(s: State, r: nat): State
    requires r < |s.requests|
  {
    Crash(With(s, r, s.requests[r].(pc := Done, session := None)), s.requests[r].process)
  }

  function AfterCheckDb(op: Op, exists_: bool): Pc {
    match op
    case Provision(_) => if exists_ then Reply(CONFLICT) else CreateDb
    case Deprovision(_) => if exists_ then AlterDb else Reply(GONE)
    case Bind(_, _) => if exists_ then CheckUser else Reply(NOT_FOUND)
    case Unbind(_, _) => if exists_ then CheckUser else Reply(NOT_FOUND)
  }

  // A missing binding is reported with the error for an existing one, which the API answers as unknown.
  function AfterCheckUser(op: Op, exists_: bool): Pc {
    if op.Bind? then if exists_ then Reply(CONFLICT) else Begin
    else if exists_ then Begin else Reply(SERVER_ERROR)
  }

  predicate Inside(q: Request, db: string) { q.session.Some? && q.session.value.db == db }

  // alter database ... set single_user with rollback immediate
  function Kick(q: Request, db: string): Request {
    if Inside(q, db) then q.(session := None, killed := true) else q
  }

  function KickAll(s: State, db: string): State {
    s.(requests := seq(|s.requests|, i requires 0 <= i < |s.requests| => Kick(s.requests[i], db)))
  }

  predicate InUse(s: State, db: string) {
    exists i :: 0 <= i < |s.requests| && Inside(s.requests[i], db)
  }

  function UserOf(prefix: string, op: Op): User
    requires op.Bind? || op.Unbind?
  {
    User(DbName(prefix, op), UserName(prefix, op))
  }

  // Another transaction has changed this user and not ended.
  predicate Contended(prefix: string, s: State, r: nat)
    requires r < |s.requests| && (s.requests[r].op.Bind? || s.requests[r].op.Unbind?)
  {
    exists i :: 0 <= i < |s.requests| && i != r && Changing(prefix, s.requests[i], UserOf(prefix, s.requests[r].op))
  }

  predicate Changing(prefix: string, q: Request, user: User) {
    q.session.Some? && q.session.value.changed && (q.op.Bind? || q.op.Unbind?) && UserOf(prefix, q.op) == user
  }

  datatype Effect = Success(state: State) | Failure | Blocked

  // What the server does with the statement of request r.
  function Execute(prefix: string, s: State, r: nat): Effect
    requires r < |s.requests|
  {
    var q := s.requests[r];
    var db := DbName(prefix, q.op);
    if q.killed then Failure
    else match q.pc
      case CheckDb => Success(Goes(s, r, AfterCheckDb(q.op, db in s.dbs)))
      case CreateDb =>
        if db in s.dbs then Failure
        else Success(Logged(Goes(s, r, Reply(CREATED)), Created(r, db)).(dbs := s.dbs + {db}))
      case AlterDb => if db !in s.dbs then Failure else Success(Goes(KickAll(s, db), r, DropDb))
      case DropDb =>
        if db !in s.dbs || InUse(s, db) then Failure
        else Success(Logged(Goes(s, r, Reply(OK)), Dropped(r, db))
          .(dbs := s.dbs - {db}, users := set u | u in s.users && u.db != db))
      case Begin => Success(Goes(s, r, Use))
      case Use =>
        if db !in s.dbs then Failure
        else Success(With(s, r, q.(pc := ChangeUser, session := Some(Session(db, false)))))
      case AddRole => Success(Goes(s, r, Leave))
      case Leave => Success(Goes(s, r, Commit))
      case _ => if q.op.Bind? || q.op.Unbind? then ExecuteOnUser(prefix, s, r) else Failure
  }

  function ExecuteOnUser(prefix: string, s: State, r: nat): Effect
    requires r < |s.requests| && (s.requests[r].op.Bind? || s.requests[r].op.Unbind?)
  {
    var q := s.requests[r];
    var user := UserOf(prefix, q.op);
    if q.pc == CheckUser then
      if user.db !in s.dbs then Failure else Success(Goes(s, r, AfterCheckUser(q.op, user in s.users)))
    else if q.pc == ChangeUser then
      if Contended(prefix, s, r) then Blocked
      else if (user in s.users) == q.op.Bind? then Failure
      else
        var pc := if q.op.Bind? then AddRole else Leave;
        Success(With(s, r, q.(pc := pc, session := Some(Session(user.db, true)))))
    else if q.pc != Commit then Failure
    else if q.op.Bind? then
      Success(Logged(With(s, r, q.(pc := Reply(CREATED), session := None)), UserAdded(r, user))
        .(users := s.users + {user}))
    else
      Success(Logged(With(s, r, q.(pc := Reply(OK), session := None)), UserDropped(r, user))
        .(users := s.users - {user}))
  }

  // Without an answer the process stops too, and nothing is known of the statement.
  function Perform(prefix: string, s: State, r: nat, ok: bool): State
    requires r < |s.requests|
  {
    var q := s.requests[r];
    match q.pc
    case Done => s
    case Reply(status) => Logged(Goes(s, r, Done), Replied(r, status))
    case _ =>
      if !ok then Crash(s, q.process)
      else match Execute(prefix, s, r)
        case Success(u) => u
        case Failure => Fails(s, r)
        case Blocked => s
  }

  // A statement that was on its way when its process ended is executed or not; an open transaction is rolled back.
  function Settle(prefix: string, s: State, r: nat, executes: bool): State
    requires r < |s.requests|
  {
    var pc := s.requests[r].pc;
    var sent := pc == CreateDb || pc == AlterDb || pc == DropDb || pc == Commit;
    var u := if executes && sent then
        match Execute(prefix, s, r) case Success(v) => v case _ => s
      else s;
    if r < |u.requests| then With(u, r, u.requests[r].(pc := Done, session := None)) else u
  }

  function Step(prefix: string, s: State, e: Input): State {
    match e
    case Arrives(process, op) =>
      s.(requests := s.requests + [Request(process, op, CheckDb, true, None, false, |s.log|)])
    case Acts(r, ok) => if r < |s.requests| && s.requests[r].alive then Perform(prefix, s, r, ok) else s
    case Ends(process) => Crash(s, process)
    case Settles(r, executes) =>
      if r < |s.requests| && !s.requests[r].alive && s.requests[r].pc != Done then Settle(prefix, s, r, executes) else s
  }

  const INITIAL := State({}, {}, [], [])

  /** The states of a run, from the empty server on. */
  ghost predicate IsRun(prefix: string, run: seq<State>, inputs: seq<Input>) {
    |run| == |inputs| + 1 && run[0] == INITIAL &&
    forall i :: 0 <= i < |inputs| ==> run[i + 1] == Step(prefix, run[i], inputs[i])
  }

  ghost predicate Reachable(prefix: string, s: State) {
    exists run, inputs: seq<Input> :: IsRun(prefix, run, inputs) && run[|inputs|] == s
  }

  // ---------- what the log says ----------

  function Present(log: seq<Event>, db: string): bool {
    if log == [] then false
    else
      match log[|log| - 1]
      case Created(_, d) => d == db || Present(log[..|log| - 1], db)
      case Dropped(_, d) => d != db && Present(log[..|log| - 1], db)
      case _ => Present(log[..|log| - 1], db)
  }

  function UserPresent(log: seq<Event>, user: User): bool {
    if log == [] then false
    else
      var before := UserPresent(log[..|log| - 1], user);
      match log[|log| - 1]
      case UserAdded(_, u) => u == user || before
      case UserDropped(_, u) => u != user && before
      case Dropped(_, d) => d != user.db && before
      case _ => before
  }

  // The change that a successful request makes: exactly what its answer reports.
  predicate Own(prefix: string, op: Op, r: nat, e: Event) {
    match op
    case Provision(_) => e == Created(r, DbName(prefix, op))
    case Deprovision(_) => e == Dropped(r, DbName(prefix, op))
    case Bind(_, _) => e == UserAdded(r, UserOf(prefix, op))
    case Unbind(_, _) => e == UserDropped(r, UserOf(prefix, op))
  }

  predicate Backed(prefix: string, log: seq<Event>, q: Request, r: nat) {
    exists i :: q.since <= i < |log| && Own(prefix, q.op, r, log[i])
  }

  // Nothing in the log is of request r.
  predicate Fresh(log: seq<Event>, r: nat) { forall i :: 0 <= i < |log| ==> log[i].r != r }

  predicate Unanswered(log: seq<Event>, r: nat) { forall i :: 0 <= i < |log| && log[i].Replied? ==> log[i].r != r }

  // Every change in the log was possible where it stands, and was made by a request that was asked for it.
  predicate Sound(prefix: string, s: State, j: nat)
    requires j < |s.log|
  {
    var before := s.log[..j];
    match s.log[j]
    case Created(r, db) => !Present(before, db) && FirstOwn(prefix, s, r, j)
    case Dropped(r, db) => Present(before, db) && FirstOwn(prefix, s, r, j)
    case UserAdded(r, u) => Present(before, u.db) && !UserPresent(before, u) && FirstOwn(prefix, s, r, j)
    case UserDropped(r, u) => Present(before, u.db) && UserPresent(before, u) && FirstOwn(prefix, s, r, j)
    case Replied(r, status) =>
      r < |s.requests| && Answer(prefix, before, s.requests[r], r, status) && Unanswered(before, r)
  }

  predicate FirstOwn(prefix: string, s: State, r: nat, j: nat)
    requires j < |s.log|
  {
    r < |s.requests| && s.requests[r].since <= j && Own(prefix, s.requests[r].op, r, s.log[j]) &&
    Fresh(s.log[..j], r)
  }

  /** What the tables looked like at one moment justifies each refusal. A missing binding is answered as unknown error. */
  predicate Refuses(prefix: string, log: seq<Event>, op: Op, status: int) {
    match op
    case Provision(_) => status == CONFLICT && Present(log, DbName(prefix, op))
    case Deprovision(_) => status == GONE && !Present(log, DbName(prefix, op))
    case Bind(_, _) =>
      (status == NOT_FOUND && !Present(log, DbName(prefix, op))) ||
      (status == CONFLICT && Present(log, DbName(prefix, op)) && UserPresent(log, UserOf(prefix, op)))
    case Unbind(_, _) =>
      (status == NOT_FOUND && !Present(log, DbName(prefix, op))) ||
      (status == SERVER_ERROR && Present(log, DbName(prefix, op)) && !UserPresent(log, UserOf(prefix, op)))
  }

  // Success stands behind a change of its own, a refusal behind a moment since the request arrived, and no change.
  predicate Answer(prefix: string, log: seq<Event>, q: Request, r: nat, status: int) {
    (status == Succeeds(q.op) && Backed(prefix, log, q, r)) || (Refused(prefix, log, q, status) && Fresh(log, r))
  }

  predicate Refused(prefix: string, log: seq<Event>, q: Request, status: int) {
    exists i :: q.since <= i <= |log| && Refuses(prefix, log[..i], q.op, status)
  }

  function Succeeds(op: Op): int { if op.Provision? || op.Bind? then CREATED else OK }

  // ---------- invariant ----------

  predicate SessionOk(prefix: string, s: State, q: Request) {
    q.session.Some? ==>
      q.session.value.db in s.dbs && q.session.value.db == DbName(prefix, q.op) && (q.op.Bind? || q.op.Unbind?) &&
      (q.session.value.changed ==> ((UserOf(prefix, q.op) in s.users) <==> q.op.Unbind?))
  }

  predicate PcOk(prefix: string, s: State, r: nat)
    requires r < |s.requests|
  {
    var q := s.requests[r];
    match q.pc
    case CreateDb => q.op.Provision?
    case AlterDb => q.op.Deprovision?
    case DropDb => q.op.Deprovision?
    case CheckUser => (q.op.Bind? || q.op.Unbind?) && q.session == None
    case Begin => (q.op.Bind? || q.op.Unbind?) && q.session == None
    case Use => (q.op.Bind? || q.op.Unbind?) && q.session == None
    case ChangeUser => (q.op.Bind? || q.op.Unbind?) && (q.killed || q.session.Some?)
    case AddRole => q.op.Bind? && (q.killed || (q.session.Some? && q.session.value.changed))
    case Leave => (q.op.Bind? || q.op.Unbind?) && (q.killed || (q.session.Some? && q.session.value.changed))
    case Commit => (q.op.Bind? || q.op.Unbind?) && (q.killed || (q.session.Some? && q.session.value.changed))
    case Reply(status) => q.session == None && Answer(prefix, s.log, q, r, status)
    case _ => q.session == None
  }

  predicate RequestOk(prefix: string, s: State, r: nat)
    requires r < |s.requests|
  {
    SessionOk(prefix, s, s.requests[r]) && PcOk(prefix, s, r) && s.requests[r].since <= |s.log| &&
    (s.requests[r].pc.Reply? ==> Unanswered(s.log, r)) &&
    (s.requests[r].pc.Reply? || s.requests[r].pc.Done? || Fresh(s.log, r))
  }

  // Two transactions that have changed the same user.
  predicate Clash(prefix: string, p: Request, q: Request) {
    (p.op.Bind? || p.op.Unbind?) && Changing(prefix, p, UserOf(prefix, p.op)) && Changing(prefix, q, UserOf(prefix, p.op))
  }

  // What the tables hold is what the log adds up to, and every user lies in an existing database.
  ghost predicate TablesOk(s: State) {
    (forall db :: db in s.dbs <==> Present(s.log, db)) &&
    (forall u :: u in s.users <==> UserPresent(s.log, u)) &&
    (forall u :: u in s.users ==> u.db in s.dbs)
  }

  ghost predicate Inv(prefix: string, s: State) {
    TablesOk(s) &&
    (forall r :: 0 <= r < |s.requests| ==> RequestOk(prefix, s, r)) &&
    (forall j :: 0 <= j < |s.log| ==> Sound(prefix, s, j)) &&
    (forall i, j :: 0 <= i < |s.requests| && 0 <= j < |s.requests| && i != j ==>
      !Clash(prefix, s.requests[i], s.requests[j]))
  }

  // ---------- steps ----------

  // Requests keep what they were asked for, and the log only grows.
  predicate Extends(s: State, u: State) {
    |s.requests| <= |u.requests| && |s.log| <= |u.log| && u.log[..|s.log|] == s.log &&
    forall r :: 0 <= r < |s.requests| ==>
      u.requests[r].op == s.requests[r].op && u.requests[r].since == s.requests[r].since
  }

  lemma SoundStays(prefix: string, s: State, u: State, j: nat)
    requires Extends(s, u) && j < |s.log| && Sound(prefix, s, j)
    ensures Sound(prefix, u, j)
  {
    assert u.log[..j] == s.log[..j];
  }

  lemma AnswerStays(prefix: string, s: State, u: State, r: nat, status: int)
    requires Extends(s, u) && r < |s.requests| && Answer(prefix, s.log, s.requests[r], r, status)
    requires forall j :: |s.log| <= j < |u.log| ==> u.log[j].r != r
    ensures Answer(prefix, u.log, u.requests[r], r, status)
  {
    var q := s.requests[r];
    if status == Succeeds(q.op) && Backed(prefix, s.log, q, r) {
      var i :| q.since <= i < |s.log| && Own(prefix, q.op, r, s.log[i]);
      assert u.log[i] == s.log[i];
    } else {
      var i :| q.since <= i <= |s.log| && Refuses(prefix, s.log[..i], q.op, status);
      assert u.log[..i] == s.log[..i];
      assert forall j :: 0 <= j < |s.log| ==> u.log[j] == s.log[j];
    }
  }

  lemma RequestIs(prefix: string, s: State, r: nat)
    requires Inv(prefix, s) && r < |s.requests|
    ensures RequestOk(prefix, s, r)
  {
  }

  lemma TablesAre(prefix: string, s: State)
    requires Inv(prefix, s)
    ensures TablesOk(s)
  {
  }

  lemma NoClash(prefix: string, s: State, i: nat, j: nat)
    requires Inv(prefix, s) && i < |s.requests| && j < |s.requests| && i != j
    ensures !Clash(prefix, s.requests[i], s.requests[j])
  {
  }

  // Only request r moves; nothing becomes visible.
  lemma QuietKeeps(prefix: string, s: State, u: State, r: nat)
    requires Inv(prefix, s) && Extends(s, u) && r < |s.requests| == |u.requests|
    requires u.log == s.log && u.dbs == s.dbs && u.users == s.users
    requires forall i :: 0 <= i < |s.requests| && i != r ==> u.requests[i] == s.requests[i]
    requires RequestOk(prefix, u, r)
    requires forall i :: 0 <= i < |s.requests| && i != r ==>
      !Clash(prefix, u.requests[i], u.requests[r]) && !Clash(prefix, u.requests[r], u.requests[i])
    ensures Inv(prefix, u)
  {
    forall i | 0 <= i < |u.requests| ensures RequestOk(prefix, u, i) {
      assert RequestOk(prefix, s, i);
    }
    forall j | 0 <= j < |u.log| ensures Sound(prefix, u, j) {
      SoundStays(prefix, s, u, j);
    }
  }

  predicate Local(pc: Pc) {
    pc.CheckDb? || pc.CheckUser? || pc.Begin? || pc.Use? || pc.ChangeUser? || pc.AddRole? || pc.Leave?
  }

  lemma LocalFrame(prefix: string, s: State, r: nat)
    requires r < |s.requests| && Local(s.requests[r].pc) && Execute(prefix, s, r).Success?
    ensures var u := Execute(prefix, s, r).state;
      && Extends(s, u) && |s.requests| == |u.requests| && u.log == s.log && u.dbs == s.dbs && u.users == s.users
      && forall i :: 0 <= i < |s.requests| && i != r ==> u.requests[i] == s.requests[i]
  {
    hide Contended, AfterCheckDb, AfterCheckUser;
  }

  lemma LocalRequest(prefix: string, s: State, r: nat)
    requires Inv(prefix, s) && r < |s.requests| && Local(s.requests[r].pc) && Execute(prefix, s, r).Success?
    ensures var u := Execute(prefix, s, r).state; r < |u.requests| && RequestOk(prefix, u, r)
  {
    hide Inv, Contended;
    RequestIs(prefix, s, r);
    TablesAre(prefix, s);
    assert s.log[..|s.log|] == s.log;
  }

  // A transaction changes a user only when no other one has.
  lemma LocalNoClash(prefix: string, s: State, r: nat, i: nat)
    requires Inv(prefix, s) && r < |s.requests| && Local(s.requests[r].pc) && Execute(prefix, s, r).Success?
    requires i < |s.requests| && i != r && Execute(prefix, s, r).state.requests[i] == s.requests[i]
    requires r < |Execute(prefix, s, r).state.requests|
    ensures var q := Execute(prefix, s, r).state.requests[r];
      !Clash(prefix, s.requests[i], q) && !Clash(prefix, q, s.requests[i])
  {
    hide Inv;
    RequestIs(prefix, s, r);
    NoClash(prefix, s, i, r);
    NoClash(prefix, s, r, i);
  }

  lemma LocalKeeps(prefix: string, s: State, r: nat)
    requires Inv(prefix, s) && r < |s.requests| && Local(s.requests[r].pc) && Execute(prefix, s, r).Success?
    ensures Inv(prefix, Execute(prefix, s, r).state)
  {
    hide Inv, Execute, Clash, RequestOk, Extends;
    LocalFrame(prefix, s, r);
    LocalRequest(prefix, s, r);
    forall i | 0 <= i < |s.requests| && i != r
      ensures !Clash(prefix, s.requests[i], Execute(prefix, s, r).state.requests[r])
      ensures !Clash(prefix, Execute(prefix, s, r).state.requests[r], s.requests[i])
    {
      LocalNoClash(prefix, s, r, i);
    }
    QuietKeeps(prefix, s, Execute(prefix, s, r).state, r);
  }

  // The other requests after a change that neither dropped their database nor touched their user.
  lemma OthersKeep(prefix: string, s: State, u: State, r: nat)
    requires Inv(prefix, s) && Extends(s, u) && r < |s.requests| == |u.requests|
    requires forall i :: 0 <= i < |s.requests| && i != r ==> u.requests[i] == s.requests[i]
    requires forall i :: 0 <= i < |s.requests| && i != r ==> SessionOk(prefix, u, s.requests[i])
    requires forall j :: |s.log| <= j < |u.log| ==> u.log[j].r == r
    ensures forall i :: 0 <= i < |u.requests| && i != r ==> RequestOk(prefix, u, i)
    ensures forall j :: 0 <= j < |s.log| ==> Sound(prefix, u, j)
  {
    forall i | 0 <= i < |u.requests| && i != r ensures RequestOk(prefix, u, i) {
      assert RequestOk(prefix, s, i);
      assert forall j :: 0 <= j < |s.log| ==> u.log[j] == s.log[j];
      if s.requests[i].pc.Reply? {
        AnswerStays(prefix, s, u, i, s.requests[i].pc.status);
      }
    }
    forall j | 0 <= j < |s.log| ensures Sound(prefix, u, j) {
      SoundStays(prefix, s, u, j);
    }
  }

  // Request r makes a change or answers, and is left without a transaction.
  predicate Enters(s: State, u: State, r: nat) {
    && Extends(s, u) && r < |s.requests| == |u.requests| && |u.log| == |s.log| + 1 && u.log[|s.log|].r == r
    && (forall i :: 0 <= i < |s.requests| && i != r ==> u.requests[i] == s.requests[i])
    && u.requests[r].session == None
  }

  lemma ChangeKeeps(prefix: string, s: State, u: State, r: nat)
    requires Inv(prefix, s) && Enters(s, u, r) && TablesOk(u) && RequestOk(prefix, u, r) && Sound(prefix, u, |s.log|)
    requires forall i :: 0 <= i < |s.requests| && i != r ==> SessionOk(prefix, u, s.requests[i])
    ensures Inv(prefix, u)
  {
    hide RequestOk, Sound, TablesOk, SessionOk, Extends;
    OthersKeep(prefix, s, u, r);
    forall i, j | 0 <= i < |u.requests| && 0 <= j < |u.requests| && i != j
      ensures !Clash(prefix, u.requests[i], u.requests[j])
    {
      NoClash(prefix, s, i, j);
    }
  }

  lemma CreateDbEnters(prefix: string, s: State, r: nat)
    requires Inv(prefix, s) && r < |s.requests| && s.requests[r].pc.CreateDb? && Execute(prefix, s, r).Success?
    ensures var u := Execute(prefix, s, r).state;
      Enters(s, u, r) && TablesOk(u) && RequestOk(prefix, u, r) && Sound(prefix, u, |s.log|)
  {
    hide Inv;
    RequestIs(prefix, s, r);
    TablesAre(prefix, s);
    var u, n := Execute(prefix, s, r).state, |s.log|;
    assert u.log[..n] == s.log;
    assert Own(prefix, u.requests[r].op, r, u.log[n]);
  }

  lemma CreateDbKeeps(prefix: string, s: State, r: nat)
    requires Inv(prefix, s) && r < |s.requests| && s.requests[r].pc.CreateDb? && Execute(prefix, s, r).Success?
    ensures Inv(prefix, Execute(prefix, s, r).state)
  {
    hide Inv, Enters, Sound, TablesOk, PcOk, DbName;
    CreateDbEnters(prefix, s, r);
    var u := Execute(prefix, s, r).state;
    forall i | 0 <= i < |s.requests| && i != r ensures SessionOk(prefix, u, s.requests[i]) {
      RequestIs(prefix, s, i);
    }
    ChangeKeeps(prefix, s, u, r);
  }

  lemma DropDbEnters(prefix: string, s: State, r: nat)
    requires Inv(prefix, s) && r < |s.requests| && s.requests[r].pc.DropDb? && Execute(prefix, s, r).Success?
    ensures var u := Execute(prefix, s, r).state;
      Enters(s, u, r) && TablesOk(u) && RequestOk(prefix, u, r) && Sound(prefix, u, |s.log|)
  {
    hide Inv, InUse;
    RequestIs(prefix, s, r);
    TablesAre(prefix, s);
    var u, n := Execute(prefix, s, r).state, |s.log|;
    assert u.log[..n] == s.log;
    assert Own(prefix, u.requests[r].op, r, u.log[n]);
  }

  lemma DropDbKeeps(prefix: string, s: State, r: nat)
    requires Inv(prefix, s) && r < |s.requests| && s.requests[r].pc.DropDb? && Execute(prefix, s, r).Success?
    ensures Inv(prefix, Execute(prefix, s, r).state)
  {
    hide Inv, Enters, Sound, TablesOk, PcOk, DbName;
    DropDbEnters(prefix, s, r);
    var u := Execute(prefix, s, r).state;
    forall i | 0 <= i < |s.requests| && i != r ensures SessionOk(prefix, u, s.requests[i]) {
      RequestIs(prefix, s, i);
      assert !Inside(s.requests[i], DbName(prefix, s.requests[r].op));
    }
    ChangeKeeps(prefix, s, u, r);
  }

  lemma CommitTables(prefix: string, s: State, r: nat)
    requires Inv(prefix, s) && r < |s.requests| && s.requests[r].pc.Commit? && Execute(prefix, s, r).Success?
    ensures TablesOk(Execute(prefix, s, r).state)
  {
    hide Inv, Backed;
    RequestIs(prefix, s, r);
    TablesAre(prefix, s);
    var u := Execute(prefix, s, r).state;
    assert u.log[..|s.log|] == s.log;
  }

  lemma CommitEnters(prefix: string, s: State, r: nat)
    requires Inv(prefix, s) && r < |s.requests| && s.requests[r].pc.Commit? && Execute(prefix, s, r).Success?
    ensures var u := Execute(prefix, s, r).state;
      && Enters(s, u, r) && RequestOk(prefix, u, r) && Sound(prefix, u, |s.log|)
      && u.dbs == s.dbs && SessionOk(prefix, s, s.requests[r]) && Changing(prefix, s.requests[r], UserOf(prefix, s.requests[r].op))
      && u.users - {UserOf(prefix, s.requests[r].op)} == s.users - {UserOf(prefix, s.requests[r].op)}
  {
    hide Inv, Present, UserPresent;
    RequestIs(prefix, s, r);
    TablesAre(prefix, s);
    var u, n := Execute(prefix, s, r).state, |s.log|;
    assert u.log[..n] == s.log;
    assert Own(prefix, u.requests[r].op, r, u.log[n]);
  }

  lemma CommitKeeps(prefix: string, s: State, r: nat)
    requires Inv(prefix, s) && r < |s.requests| && s.requests[r].pc.Commit? && Execute(prefix, s, r).Success?
    ensures Inv(prefix, Execute(prefix, s, r).state)
  {
    hide Inv, Execute, Enters, RequestOk, SessionOk, Sound, TablesOk;
    CommitTables(prefix, s, r);
    CommitEnters(prefix, s, r);
    OthersUnaffected(prefix, s, Execute(prefix, s, r).state, r);
    ChangeKeeps(prefix, s, Execute(prefix, s, r).state, r);
  }

  // No other open transaction has changed the user that is committed.
  lemma OthersUnaffected(prefix: string, s: State, u: State, r: nat)
    requires Inv(prefix, s) && r < |s.requests| && SessionOk(prefix, s, s.requests[r])
    requires (s.requests[r].op.Bind? || s.requests[r].op.Unbind?)
    requires Changing(prefix, s.requests[r], UserOf(prefix, s.requests[r].op))
    requires u.dbs == s.dbs && u.users - {UserOf(prefix, s.requests[r].op)} == s.users - {UserOf(prefix, s.requests[r].op)}
    ensures forall i :: 0 <= i < |s.requests| && i != r ==> SessionOk(prefix, u, s.requests[i])
  {
    hide Inv;
    var user := UserOf(prefix, s.requests[r].op);
    assert forall x :: x != user ==> (x in u.users <==> x in u.users - {user}) && (x in s.users <==> x in s.users - {user});
    forall i | 0 <= i < |s.requests| && i != r ensures SessionOk(prefix, u, s.requests[i]) {
      RequestIs(prefix, s, i);
      NoClash(prefix, s, r, i);
    }
  }

  // Rolling back sessions, ending requests: nothing that any request holds gets more.
  predicate Weaker(q: Request, p: Request) {
    p.op == q.op && p.since == q.since && (p.session == q.session || p.session == None) &&
    (p.pc == q.pc || (p.pc == Done && p.session == None)) &&
    (p.session != q.session ==> p.killed || p.pc == Done) && (q.killed ==> p.killed)
  }

  lemma WeakerKeeps(prefix: string, s: State, u: State)
    requires Inv(prefix, s) && u.log == s.log && u.dbs == s.dbs && u.users == s.users
    requires |u.requests| == |s.requests|
    requires forall i :: 0 <= i < |s.requests| ==> Weaker(s.requests[i], u.requests[i])
    ensures Inv(prefix, u)
  {
    forall i | 0 <= i < |u.requests| ensures RequestOk(prefix, u, i) {
      assert RequestOk(prefix, s, i);
    }
    forall j | 0 <= j < |u.log| ensures Sound(prefix, u, j) {
      SoundStays(prefix, s, u, j);
    }
    forall i, j | 0 <= i < |s.requests| && 0 <= j < |s.requests| && i != j
      ensures !Clash(prefix, u.requests[i], u.requests[j])
    {
      assert !Clash(prefix, s.requests[i], s.requests[j]);
    }
  }

  lemma AlterDbKeeps(prefix: string, s: State, r: nat)
    requires Inv(prefix, s) && r < |s.requests| && s.requests[r].pc.AlterDb? && Execute(prefix, s, r).Success?
    ensures Inv(prefix, Execute(prefix, s, r).state)
  {
    var db := DbName(prefix, s.requests[r].op);
    var kicked := KickAll(s, db);
    WeakerKeeps(prefix, s, kicked);
    assert RequestOk(prefix, kicked, r);
    QuietKeeps(prefix, kicked, Goes(kicked, r, DropDb), r);
  }

  lemma ExecuteKeeps(prefix: string, s: State, r: nat)
    requires Inv(prefix, s) && r < |s.requests| && Execute(prefix, s, r).Success?
    ensures Inv(prefix, Execute(prefix, s, r).state)
    ensures |Execute(prefix, s, r).state.requests| == |s.requests|
  {
    var pc := s.requests[r].pc;
    hide Inv;
    if pc.CreateDb? {
      CreateDbKeeps(prefix, s, r);
    } else if pc.AlterDb? {
      AlterDbKeeps(prefix, s, r);
    } else if pc.DropDb? {
      DropDbKeeps(prefix, s, r);
    } else if pc.Commit? {
      CommitKeeps(prefix, s, r);
    } else {
      LocalKeeps(prefix, s, r);
    }
  }

  lemma ReplyKeeps(prefix: string, s: State, r: nat)
    requires Inv(prefix, s) && r < |s.requests| && s.requests[r].pc.Reply?
    ensures Inv(prefix, Logged(Goes(s, r, Done), Replied(r, s.requests[r].pc.status)))
  {
    hide Inv, Enters, Sound, TablesOk, PcOk;
    var u := Logged(Goes(s, r, Done), Replied(r, s.requests[r].pc.status));
    ReplyEnters(prefix, s, r);
    forall i | 0 <= i < |s.requests| && i != r ensures SessionOk(prefix, u, s.requests[i]) {
      RequestIs(prefix, s, i);
    }
    ChangeKeeps(prefix, s, u, r);
  }

  lemma ReplyEnters(prefix: string, s: State, r: nat)
    requires Inv(prefix, s) && r < |s.requests| && s.requests[r].pc.Reply?
    ensures var u := Logged(Goes(s, r, Done), Replied(r, s.requests[r].pc.status));
      Enters(s, u, r) && TablesOk(u) && RequestOk(prefix, u, r) && Sound(prefix, u, |s.log|)
  {
    hide Inv;
    RequestIs(prefix, s, r);
    TablesAre(prefix, s);
    assert Logged(Goes(s, r, Done), Replied(r, s.requests[r].pc.status)).log[..|s.log|] == s.log;
  }

  lemma EndRequestKeeps(prefix: string, s: State, r: nat)
    requires Inv(prefix, s) && r < |s.requests|
    ensures Inv(prefix, With(s, r, s.requests[r].(pc := Done, session := None)))
  {
    WeakerKeeps(prefix, s, With(s, r, s.requests[r].(pc := Done, session := None)));
  }

  lemma CrashKeeps(prefix: string, s: State, process: nat)
    requires Inv(prefix, s)
    ensures Inv(prefix, Crash(s, process))
  {
    WeakerKeeps(prefix, s, Crash(s, process));
  }

  lemma StepKeeps(prefix: string, s: State, e: Input)
    requires Inv(prefix, s)
    ensures Inv(prefix, Step(prefix, s, e))
  {
    match e {
      case Arrives(process, op) => ArrivesKeeps(prefix, s, process, op);
      case Ends(process) => CrashKeeps(prefix, s, process);
      case Acts(r, ok) =>
        if r < |s.requests| && s.requests[r].alive {
          PerformKeeps(prefix, s, r, ok);
        }
      case Settles(r, executes) =>
        if r < |s.requests| {
          hide Inv, Execute;
          if Execute(prefix, s, r).Success? {
            ExecuteKeeps(prefix, s, r);
            EndRequestKeeps(prefix, Execute(prefix, s, r).state, r);
          }
          EndRequestKeeps(prefix, s, r);
        }
    }
  }

  lemma ArrivesKeeps(prefix: string, s: State, process: nat, op: Op)
    requires Inv(prefix, s)
    ensures Inv(prefix, Step(prefix, s, Arrives(process, op)))
  {
    var u := Step(prefix, s, Arrives(process, op));
    forall i | 0 <= i < |u.requests| ensures RequestOk(prefix, u, i) {
      if i < |s.requests| {
        assert RequestOk(prefix, s, i);
      } else {
        forall j | 0 <= j < |s.log| ensures s.log[j].r != i {
          assert Sound(prefix, s, j);
        }
      }
    }
    forall j | 0 <= j < |u.log| ensures Sound(prefix, u, j) {
      SoundStays(prefix, s, u, j);
    }
  }

  lemma PerformKeeps(prefix: string, s: State, r: nat, ok: bool)
    requires Inv(prefix, s) && r < |s.requests|
    ensures Inv(prefix, Perform(prefix, s, r, ok))
  {
    hide Inv, Execute;
    var pc := s.requests[r].pc;
    if pc.Reply? {
      ReplyKeeps(prefix, s, r);
    } else if pc != Done {
      EndRequestKeeps(prefix, s, r);
      CrashKeeps(prefix, s, s.requests[r].process);
      CrashKeeps(prefix, With(s, r, s.requests[r].(pc := Done, session := None)), s.requests[r].process);
      if ok && Execute(prefix, s, r).Success? {
        ExecuteKeeps(prefix, s, r);
      }
    }
  }

  lemma {:induction false} RunKeeps(prefix: string, run: seq<State>, inputs: seq<Input>, n: nat)
    requires IsRun(prefix, run, inputs) && n <= |inputs|
    ensures Inv(prefix, run[n])
  {
    if n > 0 {
      RunKeeps(prefix, run, inputs, n - 1);
      StepKeeps(prefix, run[n - 1], inputs[n - 1]);
    }
  }
}
