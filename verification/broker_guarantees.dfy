/** What every run of the broker promises, whatever the interleaving and whoever stops. */
module BrokerGuarantees {
  import opened Broker

  /** In every state that a run can reach, tables, transactions, requests and log agree. */
  lemma ReachableKeeps(prefix: string, s: State)
    requires Reachable(prefix, s)
    ensures Inv(prefix, s)
  {
    var run, inputs: seq<Input> :| IsRun(prefix, run, inputs) && run[|inputs|] == s;
    RunKeeps(prefix, run, inputs, |inputs|);
  }

  /**
   * Every answer of success is backed by the request's own change, made since it arrived; every other answer is true
   * of the tables at some moment since then, and the request has changed nothing.
   */
  lemma AnswersAreTrue(prefix: string, s: State, j: nat)
    requires Reachable(prefix, s) && j < |s.log| && s.log[j].Replied?
    ensures var r, status := s.log[j].r, s.log[j].status;
      r < |s.requests| &&
      var q := s.requests[r];
      if status == CREATED || status == OK then
        status == Succeeds(q.op) && exists i :: q.since <= i < j && Own(prefix, q.op, r, s.log[i])
      else Fresh(s.log[..j], r) && exists i :: q.since <= i <= j && Refuses(prefix, s.log[..i], q.op, status)
  {
    ReachableKeeps(prefix, s);
    assert Sound(prefix, s, j);
    var q, status, before := s.requests[s.log[j].r], s.log[j].status, s.log[..j];
    if status == Succeeds(q.op) && Backed(prefix, before, q, s.log[j].r) {
      var i :| q.since <= i < j && Own(prefix, q.op, s.log[j].r, before[i]);
      assert s.log[i] == before[i];
    } else {
      var i :| q.since <= i <= j && Refuses(prefix, before[..i], q.op, status);
      assert before[..i] == s.log[..i];
    }
  }

  /** The answer to a request is unknown error in one case only: unbinding a binding that is not there. */
  lemma UnknownErrorIsMissingBinding(prefix: string, s: State, j: nat)
    requires Reachable(prefix, s) && j < |s.log| && s.log[j].Replied? && s.log[j].status == SERVER_ERROR
    ensures var r := s.log[j].r;
      r < |s.requests| && s.requests[r].op.Unbind? &&
      exists i :: s.requests[r].since <= i <= j &&
        Present(s.log[..i], DbName(prefix, s.requests[r].op)) && !UserPresent(s.log[..i], UserOf(prefix, s.requests[r].op))
  {
    AnswersAreTrue(prefix, s, j);
  }

  /** A request changes the server at most once and is answered at most once: after a change, and then with success. */
  lemma OneChangeEach(prefix: string, s: State, i: nat, j: nat)
    requires Reachable(prefix, s) && i < j < |s.log| && s.log[i].r == s.log[j].r
    ensures var r := s.log[i].r;
      r < |s.requests| && !s.log[i].Replied? && s.log[j] == Replied(r, Succeeds(s.requests[r].op))
  {
    ReachableKeeps(prefix, s);
    assert Sound(prefix, s, j);
    hide Inv, Reachable, Own, Backed, Refused, Present, UserPresent;
    assert s.log[..j][i] == s.log[i];
  }

  lemma {:induction false} StaysPresent(log: seq<Event>, i: nat, j: nat, db: string)
    requires i <= j <= |log| && Present(log[..i], db)
    requires forall k :: i <= k < j ==> !DropsDb(log[k], db)
    ensures Present(log[..j], db)
    decreases j
  {
    if i < j {
      StaysPresent(log, i, j - 1, db);
      assert log[..j][..j - 1] == log[..j - 1];
    }
  }

  lemma {:induction false} UserStaysPresent(log: seq<Event>, i: nat, j: nat, user: User)
    requires i <= j <= |log| && UserPresent(log[..i], user)
    requires forall k :: i <= k < j ==> !Removes(log[k], user)
    ensures UserPresent(log[..j], user)
    decreases j
  {
    if i < j {
      UserStaysPresent(log, i, j - 1, user);
      assert log[..j][..j - 1] == log[..j - 1];
    }
  }

  predicate Removes(e: Event, user: User) {
    match e
    case Dropped(_, db) => db == user.db
    case UserDropped(_, u) => u == user
    case _ => false
  }

  predicate DropsDb(e: Event, db: string) { e.Dropped? && e.db == db }

  /** Two databases of the same name are never created without a drop between them. */
  lemma DropBetweenCreates(prefix: string, s: State, i: nat, j: nat)
    requires Reachable(prefix, s) && i < j < |s.log|
    requires s.log[i].Created? && s.log[j].Created? && s.log[i].db == s.log[j].db
    ensures exists k :: i < k < j && DropsDb(s.log[k], s.log[i].db)
  {
    var db := s.log[i].db;
    ReachableKeeps(prefix, s);
    assert Sound(prefix, s, j);
    assert s.log[..i + 1][..i] == s.log[..i];
    if forall k :: i < k < j ==> !DropsDb(s.log[k], db) {
      StaysPresent(s.log, i + 1, j, db);
    }
  }

  // The answer at index a is success for a request of this operation.
  predicate Succeeded(s: State, a: nat, op: Op) {
    a < |s.log| && s.log[a].Replied? && (s.log[a].status == CREATED || s.log[a].status == OK) &&
    s.log[a].r < |s.requests| && s.requests[s.log[a].r].op == op
  }

  lemma OwnChange(prefix: string, s: State, a: nat, op: Op) returns (i: nat)
    requires Reachable(prefix, s) && Succeeded(s, a, op)
    ensures i < a && Own(prefix, op, s.log[a].r, s.log[i])
  {
    AnswersAreTrue(prefix, s, a);
    i :| 0 <= i < a && Own(prefix, op, s.log[a].r, s.log[i]);
  }

  /** Two provisions of one instance are never both answered with success unless its database was dropped in between. */
  lemma ProvisionedOnce(prefix: string, s: State, instance: string, a: nat, b: nat)
    requires Reachable(prefix, s) && Succeeded(s, a, Provision(instance)) && Succeeded(s, b, Provision(instance))
    requires s.log[a].r != s.log[b].r
    ensures var db := prefix + instance;
      exists i, k, j :: 0 <= i < k < j < |s.log| && DropsDb(s.log[k], db) &&
        {s.log[i], s.log[j]} == {Created(s.log[a].r, db), Created(s.log[b].r, db)}
  {
    var i := OwnChange(prefix, s, a, Provision(instance));
    var j := OwnChange(prefix, s, b, Provision(instance));
    assert i != j;
    var first, last := if i < j then i else j, if i < j then j else i;
    DropBetweenCreates(prefix, s, first, last);
    var k :| first < k < last && DropsDb(s.log[k], s.log[first].db);
    assert {s.log[first], s.log[last]} == {s.log[i], s.log[j]};
  }

  /** Databases created for distinct instances are distinct. */
  lemma InstancesDoNotShare(prefix: string, s: State, i: nat, j: nat)
    requires Reachable(prefix, s) && i < |s.log| && j < |s.log|
    requires s.log[i].Created? && s.log[j].Created? && s.log[i].db == s.log[j].db
    ensures s.log[i].r < |s.requests| && s.log[j].r < |s.requests|
    ensures s.requests[s.log[i].r].op == s.requests[s.log[j].r].op
  {
    ReachableKeeps(prefix, s);
    assert Sound(prefix, s, i) && Sound(prefix, s, j);
    var p, q := s.requests[s.log[i].r].op, s.requests[s.log[j].r].op;
    assert (prefix + p.instance)[|prefix|..] == p.instance && (prefix + q.instance)[|prefix|..] == q.instance;
  }

  /** Every user lies in an existing database, and was added there and not removed since. */
  lemma UsersLieInDatabases(prefix: string, s: State, user: User)
    requires Reachable(prefix, s)
    ensures user in s.users ==> user.db in s.dbs
    ensures user in s.users <==> UserPresent(s.log, user)
  {
    ReachableKeeps(prefix, s);
  }

  // ---------- users and bindings ----------

  /** A user belongs to one binding of one instance: other bindings, and those of other instances, have other users. */
  lemma UsersAreOwn(prefix: string, p: Op, q: Op)
    requires (p.Bind? || p.Unbind?) && (q.Bind? || q.Unbind?)
    ensures UserOf(prefix, p) == UserOf(prefix, q) <==> p.instance == q.instance && p.binding == q.binding
  {
    var u, v := UserOf(prefix, p), UserOf(prefix, q);
    if u == v {
      assert (prefix + p.instance)[|prefix|..] == p.instance && (prefix + q.instance)[|prefix|..] == q.instance;
      var db := prefix + p.instance;
      assert (db + "-" + p.binding)[|db| + 1..] == p.binding && (db + "-" + q.binding)[|db| + 1..] == q.binding;
    }
  }

  lemma {:induction false} AddedBefore(log: seq<Event>, user: User) returns (k: nat)
    requires UserPresent(log, user)
    ensures k < |log| && log[k].UserAdded? && log[k].user == user
    ensures forall l :: k < l < |log| ==> !Removes(log[l], user)
  {
    var init, e := log[..|log| - 1], log[|log| - 1];
    if e.UserAdded? && e.user == user {
      k := |log| - 1;
    } else {
      k := AddedBefore(init, user);
      assert forall l :: k < l < |log| - 1 ==> log[l] == init[l];
    }
  }

  // The user was added for this very binding, and was there until moment m.
  predicate BoundUntil(s: State, user: User, instance: string, binding: string, k: nat, m: nat)
    requires k < m <= |s.log|
  {
    s.log[k].UserAdded? && s.log[k].user == user && s.log[k].r < |s.requests| &&
    s.requests[s.log[k].r].op == Bind(instance, binding) && forall l :: k < l < m ==> !Removes(s.log[l], user)
  }

  lemma AddedForBinding(prefix: string, s: State, op: Op, m: nat) returns (k: nat)
    requires Reachable(prefix, s) && op.Bind? && m <= |s.log| && UserPresent(s.log[..m], UserOf(prefix, op))
    ensures k < m && BoundUntil(s, UserOf(prefix, op), op.instance, op.binding, k, m)
  {
    hide UserOf;
    k := AddedBefore(s.log[..m], UserOf(prefix, op));
    assert s.log[..m][k] == s.log[k];
    assert forall l :: k < l < m ==> s.log[l] == s.log[..m][l];
    ReachableKeeps(prefix, s);
    assert Sound(prefix, s, k);
    UsersAreOwn(prefix, s.requests[s.log[k].r].op, op);
  }

  /** A bind refused as existing found a user that was added for the same binding of the same instance, and not removed. */
  lemma ConflictIsSameBinding(prefix: string, s: State, j: nat, op: Op)
    requires Reachable(prefix, s) && j < |s.log| && s.log[j].Replied? && s.log[j].status == 409
    requires op.Bind? && s.log[j].r < |s.requests| && s.requests[s.log[j].r].op == op
    ensures exists k, m ::
      0 <= k < m <= j && s.requests[s.log[j].r].since <= m &&
      BoundUntil(s, User(prefix + op.instance, prefix + op.instance + "-" + op.binding), op.instance, op.binding, k, m)
  {
    AnswersAreTrue(prefix, s, j);
    var q := s.requests[s.log[j].r];
    var m :| q.since <= m <= j && Refuses(prefix, s.log[..m], op, 409);
    var k := AddedForBinding(prefix, s, op, m);
    assert BoundUntil(s, UserOf(prefix, op), op.instance, op.binding, k, m);
  }

  // The removal of a user by unbinding its binding, or by dropping the database of its instance.
  predicate RemovedBy(s: State, e: Event, instance: string, binding: string) {
    e.r < |s.requests| &&
    if e.UserDropped? then s.requests[e.r].op == Unbind(instance, binding)
    else e.Dropped? && s.requests[e.r].op == Deprovision(instance)
  }

  lemma WhoRemoves(prefix: string, s: State, op: Op, k: nat)
    requires op.Bind? && Reachable(prefix, s) && k < |s.log| && Removes(s.log[k], UserOf(prefix, op))
    ensures RemovedBy(s, s.log[k], op.instance, op.binding)
  {
    ReachableKeeps(prefix, s);
    assert Sound(prefix, s, k);
    var other := s.requests[s.log[k].r].op;
    if s.log[k].UserDropped? {
      UsersAreOwn(prefix, other, op);
    } else {
      assert (prefix + other.instance)[|prefix|..] == other.instance && (prefix + op.instance)[|prefix|..] == op.instance;
    }
  }

  /** A binding that was answered with success stays until that binding is unbound or its instance deprovisioned. */
  lemma BindingsLast(prefix: string, s: State, a: nat, op: Op)
    requires op.Bind? && Reachable(prefix, s) && Succeeded(s, a, op)
    ensures var user := User(prefix + op.instance, prefix + op.instance + "-" + op.binding);
      user in s.users || exists i, k ::
        0 <= i < k < |s.log| && s.log[i] == UserAdded(s.log[a].r, user) &&
        RemovedBy(s, s.log[k], op.instance, op.binding)
  {
    var user := UserOf(prefix, op);
    ReachableKeeps(prefix, s);
    var i := OwnChange(prefix, s, a, op);
    assert s.log[..i + 1][..i] == s.log[..i] && s.log[..|s.log|] == s.log;
    if forall k :: i < k < |s.log| ==> !Removes(s.log[k], user) {
      UserStaysPresent(s.log, i + 1, |s.log|, user);
    } else {
      var k :| i < k < |s.log| && Removes(s.log[k], user);
      WhoRemoves(prefix, s, op, k);
    }
  }

  // What a step can do to the users.
  lemma StepUsers(prefix: string, s: State, e: Input, user: User)
    requires user in s.users && user !in Step(prefix, s, e).users
    ensures var u := Step(prefix, s, e);
      |u.log| == |s.log| + 1 && u.log[..|s.log|] == s.log && Removes(u.log[|s.log|], user)
  {
    hide Contended, InUse, UserOf, DbName, AfterCheckDb, AfterCheckUser;
  }

  /** Whoever is removed from the users in one step of a run is removed for that binding or with that instance. */
  lemma UsersLeaveByUnbinding(prefix: string, s: State, e: Input, op: Op)
    requires op.Bind? && Reachable(prefix, s)
    requires var user := User(prefix + op.instance, prefix + op.instance + "-" + op.binding);
      user in s.users && user !in Step(prefix, s, e).users
    ensures var u := Step(prefix, s, e);
      |u.log| == |s.log| + 1 && RemovedBy(u, u.log[|s.log|], op.instance, op.binding)
  {
    var u := Step(prefix, s, e);
    StepUsers(prefix, s, e, UserOf(prefix, op));
    ReachableStep(prefix, s, e);
    WhoRemoves(prefix, u, op, |s.log|);
  }

  lemma ReachableStep(prefix: string, s: State, e: Input)
    requires Reachable(prefix, s)
    ensures Reachable(prefix, Step(prefix, s, e))
  {
    var run, inputs: seq<Input> :| IsRun(prefix, run, inputs) && run[|inputs|] == s;
    var longer, more := run + [Step(prefix, s, e)], inputs + [e];
    assert IsRun(prefix, longer, more) && longer[|more|] == Step(prefix, s, e);
  }

  /** An instance that was answered with success stays until it is deprovisioned. */
  lemma InstancesLast(prefix: string, s: State, a: nat, instance: string)
    requires Reachable(prefix, s) && Succeeded(s, a, Provision(instance))
    ensures var db := prefix + instance;
      db in s.dbs || exists i, k ::
        0 <= i < k < |s.log| && s.log[i] == Created(s.log[a].r, db) && s.log[k].Dropped? &&
        s.log[k].r < |s.requests| && s.requests[s.log[k].r].op == Deprovision(instance)
  {
    var db := prefix + instance;
    ReachableKeeps(prefix, s);
    var i := OwnChange(prefix, s, a, Provision(instance));
    assert s.log[..i + 1][..i] == s.log[..i] && s.log[..|s.log|] == s.log;
    if forall k :: i < k < |s.log| ==> !DropsDb(s.log[k], db) {
      StaysPresent(s.log, i + 1, |s.log|, db);
    } else {
      var k :| i < k < |s.log| && DropsDb(s.log[k], db);
      assert Sound(prefix, s, k);
      var other := s.requests[s.log[k].r].op;
      assert (prefix + other.instance)[|prefix|..] == other.instance && db[|prefix|..] == instance;
    }
  }
}
