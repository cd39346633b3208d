/** Any run of the broker answers as if the requests had been served one after another. */
module BrokerOrder {
  import opened Broker
  import opened BrokerGuarantees
  import opened BrokerRequests

  // The request of the log's entry `event`, a change or a refusal, takes its turn when the log has `at` entries.
  datatype Turn = Turn(event: nat, at: nat)

  const EMPTY := Tables({}, {})

  predicate Placed(s: State, t: Turn) {
    t.event < |s.log| && s.log[t.event].r < |s.requests| &&
    s.requests[s.log[t.event].r].since <= t.at <= t.event
  }

  function RequestOf(s: State, t: Turn): nat
    requires t.event < |s.log|
  {
    s.log[t.event].r
  }

  function OpOf(s: State, t: Turn): Op
    requires Placed(s, t)
  {
    s.requests[RequestOf(s, t)].op
  }

  /** The tables after these requests were served one after another. */
  function Replay(prefix: string, s: State, h: seq<Turn>): Tables
    requires forall k :: 0 <= k < |h| ==> Placed(s, h[k])
  {
    if h == [] then EMPTY
    else Served(prefix, Replay(prefix, s, h[..|h| - 1]), OpOf(s, h[|h| - 1])).0
  }

  // The answer at index j is what the k-th request gets when it is served in its turn, which came before the answer.
  ghost predicate Answers(prefix: string, s: State, h: seq<Turn>, k: nat, j: nat)
    requires k < |h| && j < |s.log| && s.log[j].Replied?
    requires forall i :: 0 <= i < |h| ==> Placed(s, h[i])
  {
    Placed(s, h[k]) && RequestOf(s, h[k]) == s.log[j].r && h[k].at <= j &&
    Served(prefix, Replay(prefix, s, h[..k]), OpOf(s, h[k])).1 == s.log[j].status
  }

  // No request has two turns, and their moments do not decrease.
  predicate Sequence(s: State, h: seq<Turn>) {
    (forall k :: 0 <= k < |h| ==> Placed(s, h[k])) &&
    (forall i, k :: 0 <= i < k < |h| ==> h[i].at <= h[k].at && RequestOf(s, h[i]) != RequestOf(s, h[k]))
  }

  /** An order of the requests, one moment each, in which serving them gives all answers and the tables. */
  ghost predicate Linear(prefix: string, s: State, h: seq<Turn>) {
    && Sequence(s, h)
    && Replay(prefix, s, h) == Tables(s.dbs, s.users)
    && (forall j :: 0 <= j < |s.log| && s.log[j].Replied? ==> exists k :: 0 <= k < |h| && Answers(prefix, s, h, k, j))
  }

  // ---------- the tables at one moment ----------

  /** What the log adds up to. */
  function TablesOf(log: seq<Event>): Tables {
    if log == [] then EMPTY
    else
      var t := TablesOf(log[..|log| - 1]);
      match log[|log| - 1]
      case Created(_, db) => t.(dbs := t.dbs + {db})
      case Dropped(_, db) => Tables(t.dbs - {db}, Outside(t.users, db))
      case UserAdded(_, u) => t.(users := t.users + {u})
      case UserDropped(_, u) => t.(users := t.users - {u})
      case Replied(_, _) => t
  }

  lemma {:induction false} TablesHold(log: seq<Event>)
    ensures forall db :: db in TablesOf(log).dbs <==> Present(log, db)
    ensures forall u :: u in TablesOf(log).users <==> UserPresent(log, u)
  {
    if log != [] {
      TablesHold(log[..|log| - 1]);
    }
  }

  /** A refusal that is true of the tables is what the request gets when it is served from them. */
  lemma RefusedThen(prefix: string, log: seq<Event>, op: Op, status: int)
    requires Refuses(prefix, log, op, status)
    ensures Served(prefix, TablesOf(log), op) == (TablesOf(log), status)
  {
    hide TablesOf, Present, UserPresent;
    TablesHold(log);
  }

  /** A change in the log is what serving its request from the tables before it does. */
  lemma ChangedThen(prefix: string, s: State, i: nat)
    requires Inv(prefix, s) && i < |s.log| && !s.log[i].Replied?
    ensures s.log[i].r < |s.requests|
    ensures var op := s.requests[s.log[i].r].op;
      Served(prefix, TablesOf(s.log[..i]), op) == (TablesOf(s.log[..i + 1]), Succeeds(op))
  {
    SoundAt(prefix, s, i);
    TablesHold(s.log[..i]);
    MoreTables(s.log, i);
    hide TablesOf, Present, UserPresent, Inv, Fresh;
  }

  lemma SoundAt(prefix: string, s: State, i: nat)
    requires Inv(prefix, s) && i < |s.log|
    ensures Sound(prefix, s, i)
  {
  }

  lemma MoreTables(log: seq<Event>, i: nat)
    requires i < |log|
    ensures var t := TablesOf(log[..i]);
      TablesOf(log[..i + 1]) ==
        match log[i]
        case Created(_, db) => t.(dbs := t.dbs + {db})
        case Dropped(_, db) => Tables(t.dbs - {db}, Outside(t.users, db))
        case UserAdded(_, u) => t.(users := t.users + {u})
        case UserDropped(_, u) => t.(users := t.users - {u})
        case Replied(_, _) => t
  {
    assert log[..i + 1][..i] == log[..i];
  }

  // ---------- the order ----------

  predicate Refusal(s: State, e: nat) {
    e < |s.log| && s.log[e].Replied? && s.log[e].r < |s.requests| && s.log[e].status != Succeeds(s.requests[s.log[e].r].op)
  }

  lemma HasMoment(prefix: string, s: State, e: nat)
    requires Inv(prefix, s) && Refusal(s, e)
    ensures var q := s.requests[s.log[e].r];
      exists m :: q.since <= m <= e && Refuses(prefix, s.log[..m], q.op, s.log[e].status)
  {
    SoundAt(prefix, s, e);
    hide Inv, Present, UserPresent, Fresh, Refuses;
    var q, before := s.requests[s.log[e].r], s.log[..e];
    var m :| q.since <= m <= e && Refuses(prefix, before[..m], q.op, s.log[e].status);
    assert before[..m] == s.log[..m];
  }

  // A moment at which the refusal is true of the tables.
  ghost function Moment(prefix: string, s: State, e: nat): (m: nat)
    requires Inv(prefix, s) && Refusal(s, e)
    ensures var q := s.requests[s.log[e].r];
      q.since <= m <= e && Refuses(prefix, s.log[..m], q.op, s.log[e].status)
  {
    HasMoment(prefix, s, e);
    var q := s.requests[s.log[e].r];
    var m :| q.since <= m <= e && Refuses(prefix, s.log[..m], q.op, s.log[e].status);
    m
  }

  ghost predicate RefusedAt(prefix: string, s: State, e: nat, at: nat)
    requires Inv(prefix, s)
  {
    Refusal(s, e) && Moment(prefix, s, e) == at
  }

  // The refusals among the first n entries whose moment is `at`.
  ghost function Refusals(prefix: string, s: State, at: nat, n: nat): seq<Turn>
    requires Inv(prefix, s)
  {
    if n == 0 then []
    else Refusals(prefix, s, at, n - 1) + (if RefusedAt(prefix, s, n - 1, at) then [Turn(n - 1, at)] else [])
  }

  ghost predicate IsTurn(prefix: string, s: State, t: Turn)
    requires Inv(prefix, s)
  {
    Placed(s, t) && (RefusedAt(prefix, s, t.event, t.at) || (!s.log[t.event].Replied? && t.at == t.event))
  }

  // All turns before moment n: at each moment the refusals first, then the change.
  ghost function History(prefix: string, s: State, n: nat): seq<Turn>
    requires Inv(prefix, s) && n <= |s.log|
  {
    if n == 0 then []
    else
      History(prefix, s, n - 1) + Refusals(prefix, s, n - 1, |s.log|) +
      (if s.log[n - 1].Replied? then [] else [Turn(n - 1, n - 1)])
  }

  lemma {:induction false} RefusalsAreTurns(prefix: string, s: State, at: nat, n: nat)
    requires Inv(prefix, s)
    ensures var h := Refusals(prefix, s, at, n);
      && Ordered(prefix, s, h)
      && forall k :: 0 <= k < |h| ==> h[k].at == at && h[k].event < n && s.log[h[k].event].Replied?
  {
    hide Inv, Refuses, RefusedAt;
    if n > 0 {
      RefusalsAreTurns(prefix, s, at, n - 1);
      if RefusedAt(prefix, s, n - 1, at) {
        RefusedInTurn(prefix, s, Turn(n - 1, at));
      }
    }
  }

  lemma ChangeIsTurn(prefix: string, s: State, i: nat)
    requires Inv(prefix, s) && i < |s.log| && !s.log[i].Replied?
    ensures IsTurn(prefix, s, Turn(i, i)) && Ordered(prefix, s, [Turn(i, i)])
  {
    SoundAt(prefix, s, i);
    hide Inv, Fresh, Present, UserPresent;
  }

  lemma {:induction false} HistoryIsOrdered(prefix: string, s: State, n: nat)
    requires Inv(prefix, s) && n <= |s.log|
    ensures Ordered(prefix, s, History(prefix, s, n))
    ensures forall k :: 0 <= k < |History(prefix, s, n)| ==> History(prefix, s, n)[k].at < n
  {
    hide Inv, Refusals, IsTurn, Ordered, History;
    if n == 0 {
      NoTurns(prefix, s);
    } else {
      HistoryStep(prefix, s, n);
      var a, b := History(prefix, s, n - 1), Refusals(prefix, s, n - 1, |s.log|);
      HistoryIsOrdered(prefix, s, n - 1);
      RefusalsAreTurns(prefix, s, n - 1, |s.log|);
      Follow(prefix, s, a, b);
      if !s.log[n - 1].Replied? {
        ChangeIsTurn(prefix, s, n - 1);
        Follow(prefix, s, a + b, [Turn(n - 1, n - 1)]);
      }
    }
  }

  lemma NoTurns(prefix: string, s: State)
    requires Inv(prefix, s)
    ensures History(prefix, s, 0) == [] && Ordered(prefix, s, [])
  {
  }

  lemma HistoryStep(prefix: string, s: State, n: nat)
    requires Inv(prefix, s) && 0 < n <= |s.log|
    ensures var before := History(prefix, s, n - 1) + Refusals(prefix, s, n - 1, |s.log|);
      History(prefix, s, n) == if s.log[n - 1].Replied? then before else before + [Turn(n - 1, n - 1)]
  {
    hide Inv, Refusals;
  }

  // Turns of different entries, in the order of their moments.
  ghost predicate Ordered(prefix: string, s: State, h: seq<Turn>)
    requires Inv(prefix, s)
  {
    (forall k :: 0 <= k < |h| ==> IsTurn(prefix, s, h[k])) &&
    (forall i, k :: 0 <= i < k < |h| ==> h[i].at <= h[k].at && h[i].event != h[k].event)
  }

  // An entry of the log takes its turn at one moment only.
  lemma Follow(prefix: string, s: State, a: seq<Turn>, b: seq<Turn>)
    requires Inv(prefix, s) && Ordered(prefix, s, a) && Ordered(prefix, s, b)
    requires forall i, k :: 0 <= i < |a| && 0 <= k < |b| ==>
      a[i].at < b[k].at || (a[i].at == b[k].at && a[i].event != b[k].event)
    ensures Ordered(prefix, s, a + b)
  {
    hide Inv, Placed;
    forall i, k | 0 <= i < |a| && 0 <= k < |b| ensures a[i].event != b[k].event {
      assert IsTurn(prefix, s, a[i]) && IsTurn(prefix, s, b[k]);
    }
  }

  lemma RequestsDiffer(prefix: string, s: State, t: Turn, u: Turn)
    requires Reachable(prefix, s) && Inv(prefix, s)
    requires IsTurn(prefix, s, t) && IsTurn(prefix, s, u) && t.event != u.event
    ensures RequestOf(s, t) != RequestOf(s, u)
  {
    hide Inv, Reachable, Refuses;
    if RequestOf(s, t) == RequestOf(s, u) {
      if t.event < u.event {
        OneChangeEach(prefix, s, t.event, u.event);
      } else {
        OneChangeEach(prefix, s, u.event, t.event);
      }
    }
  }

  lemma ReplayMore(prefix: string, s: State, h: seq<Turn>, t: Turn)
    requires (forall k :: 0 <= k < |h| ==> Placed(s, h[k])) && Placed(s, t)
    ensures forall k :: 0 <= k < |h + [t]| ==> Placed(s, (h + [t])[k])
    ensures Replay(prefix, s, h + [t]) == Served(prefix, Replay(prefix, s, h), OpOf(s, t)).0
  {
    hide Placed, Served;
    assert (h + [t])[..|h|] == h;
  }

  lemma {:induction false} RefusalsChangeNothing(prefix: string, s: State, h: seq<Turn>, at: nat, n: nat)
    requires Inv(prefix, s) && at <= |s.log| && forall k :: 0 <= k < |h| ==> Placed(s, h[k])
    requires Replay(prefix, s, h) == TablesOf(s.log[..at])
    ensures var all := h + Refusals(prefix, s, at, n);
      (forall k :: 0 <= k < |all| ==> Placed(s, all[k])) && Replay(prefix, s, all) == TablesOf(s.log[..at])
  {
    hide Inv, Placed, Replay, TablesOf, Refuses, Served;
    var more := Refusals(prefix, s, at, n);
    if n == 0 {
      assert h + more == h;
    } else {
      RefusalsChangeNothing(prefix, s, h, at, n - 1);
      var before := h + Refusals(prefix, s, at, n - 1);
      if RefusedAt(prefix, s, n - 1, at) {
        var t := Turn(n - 1, at);
        assert h + more == before + [t];
        RefusedInTurn(prefix, s, t);
        ReplayMore(prefix, s, before, t);
      } else {
        assert h + more == before;
      }
    }
  }

  lemma RefusedInTurn(prefix: string, s: State, t: Turn)
    requires Inv(prefix, s) && RefusedAt(prefix, s, t.event, t.at)
    ensures Placed(s, t) && s.log[t.event].Replied?
    ensures Served(prefix, TablesOf(s.log[..t.at]), OpOf(s, t)) == (TablesOf(s.log[..t.at]), s.log[t.event].status)
  {
    hide Inv, TablesOf, Served, Refuses;
    RefusedThen(prefix, s.log[..t.at], s.requests[s.log[t.event].r].op, s.log[t.event].status);
  }

  /** Serving all turns before a moment gives the tables of that moment. */
  lemma {:induction false} HistoryGivesTables(prefix: string, s: State, n: nat)
    requires Inv(prefix, s) && n <= |s.log|
    ensures forall k :: 0 <= k < |History(prefix, s, n)| ==> Placed(s, History(prefix, s, n)[k])
    ensures Replay(prefix, s, History(prefix, s, n)) == TablesOf(s.log[..n])
  {
    hide *;
    HistoryBegins(prefix, s);
    if n > 0 {
      HistoryStep(prefix, s, n);
      MoreTables(s.log, n - 1);
      HistoryGivesTables(prefix, s, n - 1);
      var h := History(prefix, s, n - 1);
      RefusalsChangeNothing(prefix, s, h, n - 1, |s.log|);
      var before := h + Refusals(prefix, s, n - 1, |s.log|);
      if !s.log[n - 1].Replied? {
        ChangedInTurn(prefix, s, n - 1);
        ReplayMore(prefix, s, before, Turn(n - 1, n - 1));
      }
    }
  }

  lemma HistoryBegins(prefix: string, s: State)
    requires Inv(prefix, s)
    ensures History(prefix, s, 0) == [] && Replay(prefix, s, []) == TablesOf(s.log[..0])
  {
  }

  lemma ChangedInTurn(prefix: string, s: State, i: nat)
    requires Inv(prefix, s) && i < |s.log| && !s.log[i].Replied?
    ensures Placed(s, Turn(i, i)) && s.log[i].r < |s.requests|
    ensures var op := OpOf(s, Turn(i, i));
      op == s.requests[s.log[i].r].op &&
      Served(prefix, TablesOf(s.log[..i]), op) == (TablesOf(s.log[..i + 1]), Succeeds(op))
  {
    hide Inv, Served, TablesOf;
    ChangeIsTurn(prefix, s, i);
    ChangedThen(prefix, s, i);
  }

  lemma {:induction false} HistoryGrows(prefix: string, s: State, m: nat, n: nat)
    requires Inv(prefix, s) && m <= n <= |s.log|
    ensures History(prefix, s, m) <= History(prefix, s, n)
  {
    hide Inv, Refusals;
    if m < n {
      HistoryGrows(prefix, s, m, n - 1);
    }
  }

  lemma {:induction false} RefusalsGrow(prefix: string, s: State, at: nat, m: nat, n: nat)
    requires Inv(prefix, s) && m <= n
    ensures Refusals(prefix, s, at, m) <= Refusals(prefix, s, at, n)
  {
    hide Inv, RefusedAt;
    if m < n {
      RefusalsGrow(prefix, s, at, m, n - 1);
    }
  }

  // The turn behind an answer of success is that of the change.
  lemma SuccessHasTurn(prefix: string, s: State, j: nat) returns (k: nat)
    requires Reachable(prefix, s) && Inv(prefix, s) && j < |s.log| && s.log[j].Replied? && !Refusal(s, j)
    ensures var h := History(prefix, s, |s.log|);
      k < |h| && (forall i :: 0 <= i < |h| ==> Placed(s, h[i])) && Answers(prefix, s, h, k, j)
  {
    hide *;
    var i := ChangeBehind(prefix, s, j);
    var h := History(prefix, s, |s.log|);
    HistoryGivesTables(prefix, s, i);
    HistoryGivesTables(prefix, s, |s.log|);
    RefusalsChangeNothing(prefix, s, History(prefix, s, i), i, |s.log|);
    HistoryStep(prefix, s, i + 1);
    HistoryGrows(prefix, s, i + 1, |s.log|);
    ChangedInTurn(prefix, s, i);
    var before := History(prefix, s, i) + Refusals(prefix, s, i, |s.log|);
    k := |before|;
    InTurn(prefix, s, h, before, Turn(i, i), j);
  }

  lemma ChangeBehind(prefix: string, s: State, j: nat) returns (i: nat)
    requires Inv(prefix, s) && j < |s.log| && s.log[j].Replied? && !Refusal(s, j)
    ensures i < j && !s.log[i].Replied? && s.log[i].r == s.log[j].r < |s.requests|
    ensures s.log[j].status == Succeeds(s.requests[s.log[i].r].op)
  {
    SoundAt(prefix, s, j);
    hide Inv, Present, UserPresent, Fresh;
    var r := s.log[j].r;
    assert !Refused(prefix, s.log[..j], s.requests[r], s.log[j].status);
    i :| s.requests[r].since <= i < j && Own(prefix, s.requests[r].op, r, s.log[..j][i]);
  }

  lemma RefusalHasTurn(prefix: string, s: State, j: nat) returns (k: nat)
    requires Inv(prefix, s) && Refusal(s, j)
    ensures var h := History(prefix, s, |s.log|);
      k < |h| && (forall i :: 0 <= i < |h| ==> Placed(s, h[i])) && Answers(prefix, s, h, k, j)
  {
    hide *;
    var at := AtMoment(prefix, s, j);
    var h := History(prefix, s, |s.log|);
    var early, refused := History(prefix, s, at), Refusals(prefix, s, at, j);
    HistoryGivesTables(prefix, s, at);
    HistoryGivesTables(prefix, s, |s.log|);
    RefusalsChangeNothing(prefix, s, early, at, j);
    RefusedInTurn(prefix, s, Turn(j, at));
    HistoryStep(prefix, s, at + 1);
    HistoryGrows(prefix, s, at + 1, |s.log|);
    RefusalsGrow(prefix, s, at, j + 1, |s.log|);
    Inside(early, refused, Turn(j, at), Refusals(prefix, s, at, |s.log|), h);
    k := |early + refused|;
    InTurn(prefix, s, h, early + refused, Turn(j, at), j);
  }

  lemma InTurn(prefix: string, s: State, h: seq<Turn>, before: seq<Turn>, t: Turn, j: nat)
    requires (forall i :: 0 <= i < |h| ==> Placed(s, h[i])) && |before| < |h| && h[..|before|] == before && h[|before|] == t
    requires Placed(s, t) && t.at <= j < |s.log| && s.log[t.event].r == s.log[j].r && s.log[j].Replied?
    requires forall i :: 0 <= i < |before| ==> Placed(s, before[i])
    requires Served(prefix, Replay(prefix, s, before), OpOf(s, t)).1 == s.log[j].status
    ensures Answers(prefix, s, h, |before|, j)
  {
    hide Served, Replay;
  }

  lemma AtMoment(prefix: string, s: State, j: nat) returns (at: nat)
    requires Inv(prefix, s) && Refusal(s, j)
    ensures at <= j < |s.log| && RefusedAt(prefix, s, j, at)
    ensures Refusals(prefix, s, at, j + 1) == Refusals(prefix, s, at, j) + [Turn(j, at)]
  {
    hide Inv, Refuses;
    at := Moment(prefix, s, j);
  }

  lemma Inside<T>(a: seq<T>, b: seq<T>, t: T, c: seq<T>, h: seq<T>)
    requires b + [t] <= c && a + c <= h
    ensures |a + b| < |h| && h[|a + b|] == t && h[..|a + b|] == a + b
  {
    assert a + (b + [t]) <= a + c && a + (b + [t]) == a + b + [t];
  }

  /**
   * Any run is linearizable: the requests that changed something or were refused can be ordered, each at one moment
   * between its arrival and its answer, so that serving them one after another gives every answer and the tables.
   */
  lemma Linearizable(prefix: string, s: State)
    requires Reachable(prefix, s)
    ensures exists h :: Linear(prefix, s, h)
  {
    hide *;
    ReachableKeeps(prefix, s);
    var h := History(prefix, s, |s.log|);
    HistoryIsOrdered(prefix, s, |s.log|);
    HistoryGivesTables(prefix, s, |s.log|);
    NowTables(prefix, s);
    AreOrdered(prefix, s, h);
    forall j | 0 <= j < |s.log| && s.log[j].Replied? ensures exists k :: 0 <= k < |h| && Answers(prefix, s, h, k, j) {
      if Refusal(s, j) {
        var k := RefusalHasTurn(prefix, s, j);
      } else {
        var k := SuccessHasTurn(prefix, s, j);
      }
    }
    IsLinear(prefix, s, h);
  }

  lemma NowTables(prefix: string, s: State)
    requires Inv(prefix, s)
    ensures TablesOf(s.log[..|s.log|]) == Tables(s.dbs, s.users)
  {
    TablesHold(s.log);
    assert s.log[..|s.log|] == s.log;
    hide TablesOf, Present, UserPresent;
  }

  lemma AreOrdered(prefix: string, s: State, h: seq<Turn>)
    requires Reachable(prefix, s) && Inv(prefix, s) && Ordered(prefix, s, h)
    ensures Sequence(s, h)
  {
    hide Reachable, Inv, RefusedAt;
    forall i, k | 0 <= i < k < |h| ensures RequestOf(s, h[i]) != RequestOf(s, h[k]) {
      RequestsDiffer(prefix, s, h[i], h[k]);
    }
  }

  lemma IsLinear(prefix: string, s: State, h: seq<Turn>)
    requires Sequence(s, h) && (forall k :: 0 <= k < |h| ==> Placed(s, h[k]))
    requires Replay(prefix, s, h) == Tables(s.dbs, s.users)
    requires forall j :: 0 <= j < |s.log| && s.log[j].Replied? ==> exists k :: 0 <= k < |h| && Answers(prefix, s, h, k, j)
    ensures Linear(prefix, s, h)
  {
    hide Replay, Answers;
  }

  /** A request that was answered before another arrived comes before it in the order. */
  lemma KeepsRealTime(prefix: string, s: State, h: seq<Turn>, i: nat, k: nat, a: nat)
    requires Linear(prefix, s, h) && i < |h| && k < |h| && a < |s.log|
    requires s.log[a].Replied? && s.log[a].r == RequestOf(s, h[i]) && a < s.requests[RequestOf(s, h[k])].since
    ensures i < k
  {
    hide Served, Replay;
    var at :| 0 <= at < |h| && Answers(prefix, s, h, at, a);
    assert at == i;
  }
}
