/** One request of the broker, executed by one process; module Broker interleaves the same steps. */
module BrokerRequests {
  import opened Bytes
  import opened Broker

  // ---------- SQL templates ----------

  datatype Outcome = AllDone | Failed | Panicked

  /** database/sql over one server: the lines in effect, and those of the open transaction. Every call may fail. */
  class Client {
    var applied: seq<string>
    var tx: Option<seq<string>>
    ghost var failures: nat  // how many calls have failed

    method Begin() returns (ok: bool)
      requires tx == None
      modifies `tx, `failures
      ensures failures == old(failures) + if ok then 0 else 1
      ensures tx == if ok then Some([]) else None
    {
      ok := Answers();
      tx := if ok then Some([]) else None;
    }

    // Whether a call succeeds.
    method Answers() returns (ok: bool)
      modifies `failures
      ensures failures == old(failures) + if ok then 0 else 1
    {
      ok := *;
      failures := failures + if ok then 0 else 1;
    }

    method TxExec(line: string) returns (ok: bool)
      requires tx.Some?
      modifies `tx, `failures
      ensures failures == old(failures) + if ok then 0 else 1
      ensures tx == if ok then Some(old(tx).value + [line]) else old(tx)
    {
      ok := Answers();
      if ok {
        tx := Some(tx.value + [line]);
      }
    }

    method Rollback() returns (ok: bool)
      requires tx.Some?
      modifies `tx, `failures
      ensures failures == old(failures) + if ok then 0 else 1
      ensures tx == None
    {
      ok := Answers();
      tx := None;
    }

    // When the answer is lost the transaction may be in effect or not.
    method Commit() returns (ok: bool)
      requires tx.Some?
      modifies this
      ensures failures == old(failures) + if ok then 0 else 1
      ensures tx == None
      ensures applied == old(applied) + old(tx).value || (!ok && applied == old(applied))
    {
      ok := Answers();
      var done: bool := *;
      if ok || done {
        applied := applied + tx.value;
      }
      tx := None;
    }

    method Exec(line: string) returns (ok: bool)
      modifies `applied, `failures
      ensures failures == old(failures) + if ok then 0 else 1
      ensures applied == old(applied) + [line] || (!ok && applied == old(applied))
    {
      ok := Answers();
      var done: bool := *;
      if ok || done {
        applied := applied + [line];
      }
    }
  }

  function Compiled(template: seq<string>, compile: string -> string): seq<string> {
    seq(|template|, i requires 0 <= i < |template| => compile(template[i]))
  }

  /** executeTemplateWithTx: all lines of the template or none, and no transaction is left open. */
  method ExecuteTemplateWithTx(client: Client, template: seq<string>, compile: string -> string) returns (o: Outcome)
    requires client.tx == None
    modifies client
    ensures client.tx == None
    ensures o == AllDone <==> client.failures == old(client.failures)
    ensures o == Panicked <==> client.failures == old(client.failures) + 2
    ensures client.applied == old(client.applied) + Compiled(template, compile) ||
      (o != AllDone && client.applied == old(client.applied))
  {
    var ok := client.Begin();
    if !ok {
      return Failed;
    }
    assert Compiled(template[..0], compile) == [];
    for n := 0 to |template|
      invariant client.applied == old(client.applied) && client.failures == old(client.failures)
      invariant client.tx == Some(Compiled(template[..n], compile))
    {
      assert Compiled(template[..n + 1], compile) == Compiled(template[..n], compile) + [compile(template[n])];
      ok := client.TxExec(compile(template[n]));
      if !ok {
        var undone := client.Rollback();
        return if undone then Failed else Panicked;
      }
    }
    assert template[..|template|] == template;
    ok := client.Commit();
    return if ok then AllDone else Failed;
  }

  /** executeTemplateWithoutTx: the lines up to the first that fails, which may be in effect itself. */
  method ExecuteTemplateWithoutTx(client: Client, template: seq<string>, compile: string -> string) returns (o: Outcome)
    modifies client`applied, client`failures
    ensures o == AllDone <==> client.failures == old(client.failures)
    ensures o == AllDone ==> client.applied == old(client.applied) + Compiled(template, compile)
    ensures exists n :: 0 <= n <= |template| && client.applied == old(client.applied) + Compiled(template[..n], compile)
    ensures o != Panicked
  {
    for n := 0 to |template|
      invariant client.applied == old(client.applied) + Compiled(template[..n], compile)
      invariant client.failures == old(client.failures)
    {
      assert Compiled(template[..n + 1], compile) == Compiled(template[..n], compile) + [compile(template[n])];
      assert template[..|template|] == template;
      var ok := client.Exec(compile(template[n]));
      if !ok {
        return Failed;
      }
    }
    return AllDone;
  }

  // ---------- operations ----------

  // The broker's errors; Stopped is a process that logs a fatal error and ends.
  datatype Result = Nil | InstanceAlreadyExists | InstanceDoesNotExist | BindingAlreadyExists | Stopped

  /** The tables of the server, for a process that nobody disturbs. Every call may fail, and then changes nothing or all. */
  class Server {
    var dbs: set<string>
    var users: set<User>
    ghost var failures: nat  // how many statements have failed for reasons of their own

    // Whether a statement fails for reasons of its own.
    method Answers() returns (ok: bool)
      modifies `failures
      ensures failures == old(failures) + if ok then 0 else 1
    {
      ok := *;
      failures := failures + if ok then 0 else 1;
    }

    method IsDatabaseCreated(db: string) returns (exists_: bool, ok: bool)
      modifies `failures
      ensures failures == old(failures) + if ok then 0 else 1
      ensures ok ==> exists_ == (db in dbs)
    {
      ok := Answers();
      exists_ := db in dbs;
    }

    method IsUserCreated(user: User) returns (exists_: bool, ok: bool)
      modifies `failures
      ensures failures == old(failures) + if ok then 0 else 1
      ensures ok ==> exists_ == (user in users)
    {
      ok := Answers();
      exists_ := user in users;
    }

    method CreateDatabase(db: string) returns (ok: bool)
      modifies `dbs, `failures
      ensures old(failures) <= failures <= old(failures) + 1
      ensures ok <==> failures == old(failures) && db !in old(dbs)
      ensures dbs == old(dbs) || dbs == old(dbs) + {db}
      ensures ok ==> db !in old(dbs) && dbs == old(dbs) + {db}
    {
      ok := Answers();
      var done: bool := *;
      ok := ok && db !in dbs;
      if ok || done {
        dbs := dbs + {db};
      }
    }

    method DeleteDatabase(db: string) returns (ok: bool)
      modifies this
      ensures old(failures) <= failures <= old(failures) + 1
      ensures ok <==> failures == old(failures) && db in old(dbs)
      ensures ok ==> dbs == old(dbs) - {db} && users == Outside(old(users), db)
      ensures (dbs, users) == (old(dbs), old(users)) || (dbs, users) == (old(dbs) - {db}, Outside(old(users), db))
    {
      ok := Answers();
      var done: bool := *;
      ok := ok && db in dbs;
      if ok || done {
        dbs, users := dbs - {db}, Outside(users, db);
      }
    }

    method CreateUser(user: User) returns (ok: bool)
      modifies `users, `failures
      ensures old(failures) <= failures <= old(failures) + 1
      ensures ok <==> failures == old(failures) && user !in old(users)
      ensures users == old(users) || users == old(users) + {user}
      ensures ok ==> user !in old(users) && users == old(users) + {user}
    {
      ok := Answers();
      var done: bool := *;
      ok := ok && user !in users;
      if ok || done {
        users := users + {user};
      }
    }

    method DeleteUser(user: User) returns (ok: bool)
      modifies `users, `failures
      ensures old(failures) <= failures <= old(failures) + 1
      ensures ok <==> failures == old(failures) && user in old(users)
      ensures users == old(users) || users == old(users) - {user}
      ensures ok ==> user in old(users) && users == old(users) - {user}
    {
      ok := Answers();
      var done: bool := *;
      ok := ok && user in users;
      if ok || done {
        users := users - {user};
      }
    }
  }

  function Outside(users: set<User>, db: string): set<User> { set u | u in users && u.db != db }

  datatype Tables = Tables(dbs: set<string>, users: set<User>)

  /**
   * What a request does when nothing fails and nobody interferes, and the status that the service broker API gives it.
   * An instance has a database of its own, and a binding a user in it.
   */
  function Served(prefix: string, t: Tables, op: Op): (Tables, int) {
    var db := prefix + op.instance;
    match op
    case Provision(_) => if db in t.dbs then (t, 409) else (t.(dbs := t.dbs + {db}), 201)
    case Deprovision(_) => if db in t.dbs then (Tables(t.dbs - {db}, Outside(t.users, db)), 200) else (t, 410)
    case Bind(_, binding) =>
      var user := User(db, prefix + op.instance + "-" + binding);
      if db !in t.dbs then (t, 404)
      else if user in t.users then (t, 409)
      else (t.(users := t.users + {user}), 201)
    case Unbind(_, binding) =>
      var user := User(db, prefix + op.instance + "-" + binding);
      if db !in t.dbs then (t, 404)
      else if user !in t.users then (t, 500)
      else (t.(users := t.users - {user}), 200)
  }

  // The same in the names of the state machine.
  lemma ServedIs(prefix: string, t: Tables, op: Op)
    ensures var db := DbName(prefix, op);
      Served(prefix, t, op) ==
      match op
      case Provision(_) => if db in t.dbs then (t, CONFLICT) else (t.(dbs := t.dbs + {db}), CREATED)
      case Deprovision(_) => if db in t.dbs then (Tables(t.dbs - {db}, Outside(t.users, db)), OK) else (t, GONE)
      case Bind(_, _) =>
        if db !in t.dbs then (t, NOT_FOUND)
        else if UserOf(prefix, op) in t.users then (t, CONFLICT)
        else (t.(users := t.users + {UserOf(prefix, op)}), CREATED)
      case Unbind(_, _) =>
        if db !in t.dbs then (t, NOT_FOUND)
        else if UserOf(prefix, op) !in t.users then (t, SERVER_ERROR)
        else (t.(users := t.users - {UserOf(prefix, op)}), OK)
  {
  }

  class Api {
    const prefix: string
    const server: Server

    function Now(): Tables
      reads server
    {
      Tables(server.dbs, server.users)
    }

    constructor (prefix: string, server: Server)
      ensures this.prefix == prefix && this.server == server
    {
      this.prefix, this.server := prefix, server;
    }

    method Provision(instance: string) returns (r: Result)
      modifies server
      ensures var op := Op.Provision(instance);
        if r == Stopped then Now() == old(Now()) || Now() == Served(prefix, old(Now()), op).0
        else (Now(), StatusOf(op, r)) == Served(prefix, old(Now()), op)
      ensures r == Stopped <==> server.failures != old(server.failures)
    {
      var db := prefix + instance;
      var exists_, ok := server.IsDatabaseCreated(db);
      if !ok {
        return Stopped;
      }
      if exists_ {
        return InstanceAlreadyExists;
      }
      ok := server.CreateDatabase(db);
      return if ok then Nil else Stopped;
    }

    method Deprovision(instance: string) returns (r: Result)
      modifies server
      ensures var op := Op.Deprovision(instance);
        if r == Stopped then Now() == old(Now()) || Now() == Served(prefix, old(Now()), op).0
        else (Now(), StatusOf(op, r)) == Served(prefix, old(Now()), op)
      ensures r == Stopped <==> server.failures != old(server.failures)
    {
      var db := prefix + instance;
      var exists_, ok := server.IsDatabaseCreated(db);
      if !ok {
        return Stopped;
      }
      if !exists_ {
        return InstanceDoesNotExist;
      }
      ok := server.DeleteDatabase(db);
      return if ok then Nil else Stopped;
    }

    method Bind(instance: string, binding: string) returns (r: Result)
      modifies server
      ensures var op := Op.Bind(instance, binding);
        if r == Stopped then Now() == old(Now()) || Now() == Served(prefix, old(Now()), op).0
        else (Now(), StatusOf(op, r)) == Served(prefix, old(Now()), op)
      ensures r == Stopped <==> server.failures != old(server.failures)
    {
      var db := prefix + instance;
      var user := User(db, db + "-" + binding);
      var exists_, ok := server.IsDatabaseCreated(db);
      if !ok {
        return Stopped;
      }
      if !exists_ {
        return InstanceDoesNotExist;
      }
      exists_, ok := server.IsUserCreated(user);
      if !ok {
        return Stopped;
      }
      if exists_ {
        return BindingAlreadyExists;
      }
      ok := server.CreateUser(user);
      return if ok then Nil else Stopped;
    }

    method Unbind(instance: string, binding: string) returns (r: Result)
      modifies server
      ensures var op := Op.Unbind(instance, binding);
        if r == Stopped then Now() == old(Now()) || Now() == Served(prefix, old(Now()), op).0
        else (Now(), StatusOf(op, r)) == Served(prefix, old(Now()), op)
      ensures r == Stopped <==> server.failures != old(server.failures)
    {
      var db := prefix + instance;
      var user := User(db, db + "-" + binding);
      var exists_, ok := server.IsDatabaseCreated(db);
      if !ok {
        return Stopped;
      }
      if !exists_ {
        return InstanceDoesNotExist;
      }
      exists_, ok := server.IsUserCreated(user);
      if !ok {
        return Stopped;
      }
      if !exists_ {
        return BindingAlreadyExists;
      }
      ok := server.DeleteUser(user);
      return if ok then Nil else Stopped;
    }
  }

  /** The handlers of the API: which status answers which error. A process that stopped answers nothing. */
  function StatusOf(op: Op, r: Result): int
    requires r != Stopped
  {
    match op
    case Provision(_) => if r == Nil then CREATED else if r == InstanceAlreadyExists then CONFLICT else SERVER_ERROR
    case Deprovision(_) => if r == Nil then OK else if r == InstanceDoesNotExist then GONE else SERVER_ERROR
    case Bind(_, _) =>
      if r == Nil then CREATED
      else if r == InstanceDoesNotExist then NOT_FOUND
      else if r == BindingAlreadyExists then CONFLICT
      else SERVER_ERROR
    case Unbind(_, _) =>
      if r == Nil then OK else if r == InstanceDoesNotExist then NOT_FOUND else SERVER_ERROR
  }

  // ---------- the steps of Broker, without interference ----------

  // Request r takes n steps and no statement fails for reasons of its own.
  function Alone(prefix: string, s: State, r: nat, n: nat): State
    decreases n
  {
    if n == 0 then s else Alone(prefix, Step(prefix, s, Acts(r, true)), r, n - 1)
  }

  // A request that just arrived while no transaction is open.
  predicate Ready(s: State, r: nat) {
    r < |s.requests| && s.requests[r].alive && s.requests[r].pc == CheckDb && !s.requests[r].killed &&
    forall i :: 0 <= i < |s.requests| ==> s.requests[i].session == None
  }

  predicate Answered(u: State, t: Tables, r: nat, status: int) {
    u.dbs == t.dbs && u.users == t.users && u.log != [] && u.log[|u.log| - 1] == Replied(r, status)
  }

  predicate Idle(s: State, r: nat) { r < |s.requests| && s.requests[r].alive && s.requests[r].pc.Done? }

  lemma {:induction false} StaysDone(prefix: string, s: State, r: nat, n: nat)
    requires Idle(s, r)
    ensures Alone(prefix, s, r, n) == s
  {
    if n > 0 {
      StaysDone(prefix, s, r, n - 1);
    }
  }

  // One statement that the server executes.
  lemma Advances(prefix: string, s: State, r: nat, u: State, n: nat)
    requires r < |s.requests| && s.requests[r].alive && s.requests[r].pc != Done && !s.requests[r].pc.Reply?
    requires Execute(prefix, s, r) == Success(u)
    ensures Alone(prefix, s, r, n + 1) == Alone(prefix, u, r, n)
  {
  }

  lemma Replies(prefix: string, s: State, r: nat, n: nat)
    requires r < |s.requests| && s.requests[r].alive && s.requests[r].pc.Reply?
    ensures Answered(Alone(prefix, s, r, n + 1), Tables(s.dbs, s.users), r, s.requests[r].pc.status)
  {
    var u := Step(prefix, s, Acts(r, true));
    StaysDone(prefix, u, r, n);
  }

  lemma InstanceAlone(prefix: string, s: State, r: nat)
    requires Ready(s, r) && (s.requests[r].op.Provision? || s.requests[r].op.Deprovision?)
    ensures var served := Served(prefix, Tables(s.dbs, s.users), s.requests[r].op);
      Answered(Alone(prefix, s, r, 9), served.0, r, served.1)
  {
    hide Answered, Alone, DbName, Served;
    ServedIs(prefix, Tables(s.dbs, s.users), s.requests[r].op);
    var q := s.requests[r];
    var db := DbName(prefix, q.op);
    var s1 := With(s, r, q.(pc := AfterCheckDb(q.op, db in s.dbs)));
    Advances(prefix, s, r, s1, 8);
    if s1.requests[r].pc.Reply? {
      Replies(prefix, s1, r, 7);
    } else if q.op.Provision? {
      var s2 := Execute(prefix, s1, r).state;
      Advances(prefix, s1, r, s2, 7);
      Replies(prefix, s2, r, 6);
    } else {
      DropsAlone(prefix, s1, r);
    }
  }

  lemma DropsAlone(prefix: string, s: State, r: nat)
    requires r < |s.requests| && s.requests[r].alive && s.requests[r].pc == AlterDb && !s.requests[r].killed
    requires forall i :: 0 <= i < |s.requests| ==> s.requests[i].session == None
    requires s.requests[r].op.Deprovision? && DbName(prefix, s.requests[r].op) in s.dbs
    ensures var db := DbName(prefix, s.requests[r].op);
      Answered(Alone(prefix, s, r, 8), Tables(s.dbs - {db}, Outside(s.users, db)), r, OK)
  {
    hide Answered, Alone, DbName;
    var db := DbName(prefix, s.requests[r].op);
    var s1 := Goes(s, r, DropDb);
    assert KickAll(s, db).requests == s.requests;
    Advances(prefix, s, r, s1, 7);
    assert !InUse(s1, db);
    var s2 := Execute(prefix, s1, r).state;
    Advances(prefix, s1, r, s2, 6);
    Replies(prefix, s2, r, 5);
  }

  // The database is there: from the check for the user to the answer.
  lemma UserChecked(prefix: string, s: State, r: nat)
    requires r < |s.requests| && s.requests[r].alive && s.requests[r].pc == CheckUser && !s.requests[r].killed
    requires forall i :: 0 <= i < |s.requests| ==> s.requests[i].session == None
    requires (s.requests[r].op.Bind? || s.requests[r].op.Unbind?) && DbName(prefix, s.requests[r].op) in s.dbs
    ensures var served := Served(prefix, Tables(s.dbs, s.users), s.requests[r].op);
      Answered(Alone(prefix, s, r, 8), served.0, r, served.1)
  {
    hide Answered, Alone, DbName, UserName, Served;
    ServedIs(prefix, Tables(s.dbs, s.users), s.requests[r].op);
    var q := s.requests[r];
    var u := With(s, r, q.(pc := AfterCheckUser(q.op, UserOf(prefix, q.op) in s.users)));
    Advances(prefix, s, r, u, 7);
    if u.requests[r].pc.Reply? {
      Replies(prefix, u, r, 6);
    } else {
      EntersAlone(prefix, u, r);
    }
  }

  lemma BindingAlone(prefix: string, s: State, r: nat)
    requires Ready(s, r) && (s.requests[r].op.Bind? || s.requests[r].op.Unbind?)
    ensures var served := Served(prefix, Tables(s.dbs, s.users), s.requests[r].op);
      Answered(Alone(prefix, s, r, 9), served.0, r, served.1)
  {
    hide Answered, Alone, DbName, UserName, Served;
    ServedIs(prefix, Tables(s.dbs, s.users), s.requests[r].op);
    var q := s.requests[r];
    var u := With(s, r, q.(pc := AfterCheckDb(q.op, DbName(prefix, q.op) in s.dbs)));
    Advances(prefix, s, r, u, 8);
    if u.requests[r].pc.Reply? {
      Replies(prefix, u, r, 7);
    } else {
      UserChecked(prefix, u, r);
    }
  }

  // From the start of the transaction to the answer.
  lemma EntersAlone(prefix: string, s: State, r: nat)
    requires r < |s.requests| && s.requests[r].alive && s.requests[r].pc == Begin && !s.requests[r].killed
    requires forall i :: 0 <= i < |s.requests| ==> s.requests[i].session == None
    requires var op := s.requests[r].op; (op.Bind? || op.Unbind?) && ((UserOf(prefix, op) in s.users) <==> op.Unbind?)
    requires DbName(prefix, s.requests[r].op) in s.dbs
    ensures var op, users := s.requests[r].op, s.users;
      Answered(Alone(prefix, s, r, 7),
        Tables(s.dbs, if op.Bind? then users + {UserOf(prefix, op)} else users - {UserOf(prefix, op)}), r, Succeeds(op))
  {
    hide Execute, Answered, Alone, UserOf, DbName, Succeeds;
    var s1, s2 := Begun(s, r), Entered(prefix, s, r);
    EnterSteps(prefix, s, r);
    Advances(prefix, s, r, s1, 6);
    Advances(prefix, s1, r, s2, 5);
    ChangeAlone(prefix, s2, r);
  }

  function Begun(s: State, r: nat): State
    requires r < |s.requests|
  {
    With(s, r, s.requests[r].(pc := Use))
  }

  function Entered(prefix: string, s: State, r: nat): State
    requires r < |s.requests|
  {
    var q := s.requests[r];
    With(s, r, q.(pc := ChangeUser, session := Some(Session(DbName(prefix, q.op), false))))
  }

  lemma EnterSteps(prefix: string, s: State, r: nat)
    requires r < |s.requests| && s.requests[r].pc == Begin && !s.requests[r].killed
    requires DbName(prefix, s.requests[r].op) in s.dbs
    ensures Execute(prefix, s, r) == Success(Begun(s, r))
    ensures Execute(prefix, Begun(s, r), r) == Success(Entered(prefix, s, r))
  {
    assert Entered(prefix, s, r).requests == Entered(prefix, Begun(s, r), r).requests;
  }

  // From inside the transaction to the answer.
  lemma ChangeAlone(prefix: string, s: State, r: nat)
    requires r < |s.requests| && s.requests[r].alive && s.requests[r].pc == ChangeUser && !s.requests[r].killed
    requires forall i :: 0 <= i < |s.requests| && i != r ==> s.requests[i].session == None
    requires var op := s.requests[r].op; (op.Bind? || op.Unbind?) && ((UserOf(prefix, op) in s.users) <==> op.Unbind?)
    ensures var op, users := s.requests[r].op, s.users;
      Answered(Alone(prefix, s, r, 5),
        Tables(s.dbs, if op.Bind? then users + {UserOf(prefix, op)} else users - {UserOf(prefix, op)}), r, Succeeds(op))
  {
    hide Execute, Answered, Alone, UserOf, Changed, DbName;
    var q := s.requests[r];
    var s1 := With(s, r, q.(pc := if q.op.Bind? then AddRole else Leave, session := Changed(prefix, q.op)));
    ChangeStep(prefix, s, r);
    Advances(prefix, s, r, s1, 4);
    if q.op.Bind? {
      RoleAlone(prefix, s1, r);
    } else {
      LeavesAlone(prefix, s1, r, 2);
    }
  }

  function Changed(prefix: string, op: Op): Option<Session> { Some(Session(DbName(prefix, op), true)) }

  lemma ChangeStep(prefix: string, s: State, r: nat)
    requires r < |s.requests| && s.requests[r].pc == ChangeUser && !s.requests[r].killed
    requires forall i :: 0 <= i < |s.requests| && i != r ==> s.requests[i].session == None
    requires var op := s.requests[r].op; (op.Bind? || op.Unbind?) && ((UserOf(prefix, op) in s.users) <==> op.Unbind?)
    ensures var q := s.requests[r];
      Execute(prefix, s, r) ==
      Success(With(s, r, q.(pc := if q.op.Bind? then AddRole else Leave, session := Changed(prefix, q.op))))
  {
    assert !Contended(prefix, s, r);
  }

  lemma RoleAlone(prefix: string, s: State, r: nat)
    requires r < |s.requests| && s.requests[r].alive && s.requests[r].pc == AddRole && !s.requests[r].killed
    requires s.requests[r].op.Bind?
    ensures Answered(Alone(prefix, s, r, 4), Tables(s.dbs, s.users + {UserOf(prefix, s.requests[r].op)}), r, CREATED)
  {
    var u := Goes(s, r, Leave);
    Advances(prefix, s, r, u, 3);
    LeavesAlone(prefix, u, r, 1);
  }

  lemma LeavesAlone(prefix: string, s: State, r: nat, n: nat)
    requires n > 0 && r < |s.requests| && s.requests[r].alive && s.requests[r].pc == Leave && !s.requests[r].killed
    requires var op := s.requests[r].op; op.Bind? || op.Unbind?
    ensures var op, users := s.requests[r].op, s.users;
      Answered(Alone(prefix, s, r, n + 2),
        Tables(s.dbs, if op.Bind? then users + {UserOf(prefix, op)} else users - {UserOf(prefix, op)}), r, Succeeds(op))
  {
    var u := Goes(s, r, Commit);
    Advances(prefix, s, r, u, n + 1);
    CommitAlone(prefix, u, r, n);
  }

  lemma CommitAlone(prefix: string, s: State, r: nat, n: nat)
    requires n > 0 && r < |s.requests| && s.requests[r].alive && s.requests[r].pc == Commit && !s.requests[r].killed
    requires var op := s.requests[r].op; op.Bind? || op.Unbind?
    ensures var op, users := s.requests[r].op, s.users;
      Answered(Alone(prefix, s, r, n + 1),
        Tables(s.dbs, if op.Bind? then users + {UserOf(prefix, op)} else users - {UserOf(prefix, op)}), r, Succeeds(op))
  {
    var u := Execute(prefix, s, r).state;
    Advances(prefix, s, r, u, n);
    Replies(prefix, u, r, n - 1);
  }

  /** A request that runs without interference is answered, and changes the tables, as Served says. */
  lemma AloneIsServed(prefix: string, s: State, r: nat)
    requires Ready(s, r)
    ensures var served := Served(prefix, Tables(s.dbs, s.users), s.requests[r].op);
      Answered(Alone(prefix, s, r, 9), served.0, r, served.1)
  {
    if s.requests[r].op.Provision? || s.requests[r].op.Deprovision? {
      InstanceAlone(prefix, s, r);
    } else {
      BindingAlone(prefix, s, r);
    }
  }
}
