/**
 * The ODBC driver's objects, run by one thread: every method against a library that may fail any call. A handle is given
 * back by whoever lets go of it last, the counts follow the library, and every failure that the driver looks for is
 * reported. OdbcLifetimes has the same operations cut into steps and interleaved.
 */
module Odbc {
  import opened Bytes
  import opened OdbcLifetimes

  function HandlesOf(live: map<Handle, Kind>, kind: Kind): set<Handle> {
    set h | h in live && live[h] == kind
  }

  lemma OneMore(live: map<Handle, Kind>, g: Handle, kind: Kind, k: Kind)
    requires g !in live
    ensures |HandlesOf(live[g := kind], k)| == |HandlesOf(live, k)| + if k == kind then 1 else 0
  {
    var before := HandlesOf(live, k);
    assert HandlesOf(live[g := kind], k) == if k == kind then before + {g} else before;
  }

  /** What giving a handle back leaves in the log: the free and, when it failed, reading its reason. */
  function Given(h: Handle, ret: Ret): seq<Entry> {
    [Entry(FreeHandle, h, ret)] + if ret == Failed then [Entry(GetDiagRec, h, Fine)] else []
  }

  /** A call and, when it failed, reading its reason. */
  function Called(h: Handle, ret: Ret): seq<Entry> {
    [Entry(OtherCall, h, ret)] + if ret == Fine then [] else [Entry(GetDiagRec, h, Fine)]
  }

  function AllCalled(h: Handle, rets: seq<Ret>): seq<Entry> {
    if rets == [] then [] else AllCalled(h, rets[..|rets| - 1]) + Called(h, rets[|rets| - 1])
  }

  lemma CalledOnce(log: seq<Entry>, h: Handle, rets: seq<Ret>, ret: Ret)
    ensures log + AllCalled(h, rets) + Called(h, ret) == log + AllCalled(h, rets + [ret])
  {
    var all := rets + [ret];
    assert all[..|all| - 1] == rets;
    Assoc(log, AllCalled(h, rets), Called(h, ret));
  }

  /** A handle that was allocated and on which n calls succeeded. */
  function SetUp(h: Handle, n: nat): seq<Entry> {
    [Entry(AllocHandle, h, Fine)] + seq(n, _ => Entry(OtherCall, h, Fine))
  }

  lemma OneCallMore(log: seq<Entry>, h: Handle, n: nat)
    ensures log + SetUp(h, n) + [Entry(OtherCall, h, Fine)] == log + SetUp(h, n + 1)
  {
    assert SetUp(h, n) + [Entry(OtherCall, h, Fine)] == SetUp(h, n + 1);
  }

  function ClosedByStmt(o: Shared): Shared {
    o.(usedByStmt := false, h := if o.usedByStmt && !o.usedByRows then NULL else o.h)
  }

  function ClosedByRows(o: Shared): Shared {
    o.(usedByRows := false, h := if o.usedByRows && !o.usedByStmt then NULL else o.h)
  }

  /** The driver manager: any call may fail; a handle that is not allocated is invalid; failed frees change nothing. */
  class Library {
    var next: Handle
    var live: map<Handle, Kind>
    ghost var log: seq<Entry>
    ghost var failures: nat  // how many calls have failed whose failure the driver looks for, freeing aside
    ghost var refusals: nat  // how many columns could not be described, bound or converted for other reasons

    ghost predicate Valid()
      reads this
    {
      forall h :: h in live ==> 0 < h < next
    }

    constructor ()
      ensures Valid() && live == map[] && log == [] && failures == 0
    {
      next, live, log, failures := 1, map[], [], 0;
    }

    method SQLAllocHandle(kind: Kind) returns (ret: Ret, h: Handle)
      requires Valid()
      modifies `next, `live, `log, `failures
      ensures Valid() && failures == old(failures) + if ret == Fine then 0 else 1
      ensures ret == Fine ==>
        h != NULL && h !in old(live) && live == old(live)[h := kind] && log == old(log) + [Entry(AllocHandle, h, Fine)]
      ensures ret != Fine ==> h == NULL && live == old(live) && log == old(log)
    {
      ret, h := *, NULL;
      failures := failures + if ret == Fine then 0 else 1;
      if ret == Fine {
        h := if next == NULL then 1 else next;
        next, live := h + 1, live[h := kind];
        log := log + [Entry(AllocHandle, h, Fine)];
      }
    }

    method SQLFreeHandle(h: Handle) returns (ret: Ret)
      requires Valid()
      modifies `live, `log
      ensures Valid()
      ensures log == old(log) + [Entry(FreeHandle, h, ret)]
      ensures h !in old(live) ==> ret == Invalid
      ensures live == if ret == Fine then old(live) - {h} else old(live)
    {
      if h in live {
        ret := *;
        if ret == Fine {
          live := live - {h};
        }
      } else {
        ret := Invalid;
      }
      log := log + [Entry(FreeHandle, h, ret)];
    }

    method SQLGetDiagRec(h: Handle)
      modifies this`log
      ensures log == old(log) + [Entry(GetDiagRec, h, Fine)]
    {
      log := log + [Entry(GetDiagRec, h, Fine)];
    }

    // Any other function that takes a handle, where the driver does not mind a failure.
    method Try(h: Handle) returns (ret: Ret)
      modifies this`log
      ensures log == old(log) + [Entry(OtherCall, h, ret)]
      ensures h !in live ==> ret == Invalid
    {
      ret := *;
      if h !in live {
        ret := Invalid;
      }
      log := log + [Entry(OtherCall, h, ret)];
    }

    // Any other function that takes a handle.
    method Call(h: Handle) returns (ret: Ret)
      modifies `log, `failures
      ensures log == old(log) + [Entry(OtherCall, h, ret)]
      ensures h !in live ==> ret == Invalid
      ensures failures == old(failures) + if ret == Fine then 0 else 1
    {
      ret := Try(h);
      failures := failures + if ret == Fine then 0 else 1;
    }

    // What a call has returned is of no use: no columns, an unknown type, a value that cannot be converted.
    method Refuses() returns (refused: bool)
      modifies `refusals
      ensures refusals == old(refusals) + if refused then 1 else 0
    {
      refused := *;
      refusals := refusals + if refused then 1 else 0;
    }
  }

  class Stats {
    var envCount: int
    var connCount: int
    var stmtCount: int

    function Of(kind: Kind): int
      reads this
    {
      match kind case Env => envCount case Dbc => connCount case Stm => stmtCount
    }

    constructor ()
      ensures forall kind :: Of(kind) == 0
    {
      envCount, connCount, stmtCount := 0, 0, 0;
    }

    method UpdateHandleCount(kind: Kind, change: int)
      modifies this
      ensures forall k :: Of(k) == old(Of(k)) + if k == kind then change else 0
    {
      match kind {
        case Env => envCount := envCount + change;
        case Dbc => connCount := connCount + change;
        case Stm => stmtCount := stmtCount + change;
      }
    }
  }

  class Driver {
    const lib: Library
    const stats: Stats
    var h: Handle

    // Each count is the number of handles of its kind that are allocated and not freed.
    ghost predicate Conserved()
      reads lib, stats
    {
      lib.Valid() && forall kind :: stats.Of(kind) == |HandlesOf(lib.live, kind)|
    }

    ghost predicate Holds(g: Handle, kind: Kind)
      reads lib
    {
      g in lib.live ==> lib.live[g] == kind
    }

    // The last thing that happened is a successful call on this handle.
    ghost predicate LastCall(g: Handle)
      reads lib
    {
      lib.log != [] && lib.log[|lib.log| - 1] == Entry(OtherCall, g, Fine)
    }

    // Nothing that was allocated then has been freed.
    ghost predicate Keeps(before: map<Handle, Kind>)
      reads lib
    {
      forall g :: g in before ==> g in lib.live && lib.live[g] == before[g]
    }

    // Every handle allocated since then is gone, or was given back in vain.
    ghost predicate GivenBackSince(before: map<Handle, Kind>)
      reads lib
    {
      forall g :: g in lib.live && g !in before ==>
        Entry(FreeHandle, g, Failed) in lib.log || Entry(FreeHandle, g, Invalid) in lib.log
    }

    constructor (lib: Library, stats: Stats)
      ensures this.lib == lib && this.stats == stats && h == NULL
    {
      this.lib, this.stats, h := lib, stats, NULL;
    }

    // SQLAllocHandle and the count that follows every successful one.
    method Allocate(kind: Kind) returns (ret: Ret, g: Handle)
      requires Conserved()
      modifies lib`next, lib`live, lib`log, lib`failures, stats
      ensures Conserved() && lib.failures == old(lib.failures) + if ret == Fine then 0 else 1
      ensures ret == Fine ==> g != NULL && g !in old(lib.live) && lib.live == old(lib.live)[g := kind]
      ensures ret == Fine ==> lib.log == old(lib.log) + [Entry(AllocHandle, g, Fine)]
      ensures ret != Fine ==> g == NULL && lib.live == old(lib.live) && lib.log == old(lib.log)
    {
      ret, g := lib.SQLAllocHandle(kind);
      if ret == Fine {
        stats.UpdateHandleCount(kind, 1);
        forall k ensures stats.Of(k) == |HandlesOf(lib.live, k)| {
          OneMore(old(lib.live), g, kind, k);
        }
      }
    }

    /** releaseHandle: the count goes down exactly when the library freed the handle. */
    method ReleaseHandle(kind: Kind, g: Handle) returns (ret: Ret)
      requires Conserved() && Holds(g, kind)
      modifies lib`live, lib`log, stats
      ensures Conserved()
      ensures lib.log == old(lib.log) + Given(g, ret)
      ensures g !in old(lib.live) ==> ret == Invalid
      ensures lib.live == if ret == Fine then old(lib.live) - {g} else old(lib.live)
      ensures forall k :: stats.Of(k) == old(stats.Of(k)) - if k == kind && ret == Fine then 1 else 0
    {
      ret := lib.SQLFreeHandle(g);
      if ret == Invalid {
        return;
      }
      if ret != Fine {
        lib.SQLGetDiagRec(g);
        return;
      }
      stats.UpdateHandleCount(kind, -1);
      forall k ensures stats.Of(k) == |HandlesOf(lib.live, k)| {
        OneMore(lib.live, g, kind, k);
        assert old(lib.live) == lib.live[g := kind];
      }
    }

    /** initDriver: an environment with three attributes set, or none. */
    method Init() returns (ok: bool)
      requires Conserved()
      modifies this, lib, stats
      ensures Conserved()
      ensures ok ==> h !in old(lib.live) && lib.live == old(lib.live)[h := Env]
      ensures ok ==> lib.log == old(lib.log) + SetUp(h, 3)
      ensures ok <==> lib.failures == old(lib.failures)
      ensures !ok ==> Keeps(old(lib.live)) && GivenBackSince(old(lib.live))
    {
      var ret, out := Allocate(Env);
      if ret != Fine {
        lib.SQLGetDiagRec(NULL);
        return false;
      }
      h := out;
      for i := 0 to 3
        invariant Conserved() && h == out && lib.live == old(lib.live)[h := Env] && lib.failures == old(lib.failures)
        invariant lib.log == old(lib.log) + SetUp(h, i)
      {
        OneCallMore(old(lib.log), h, i);
        ret := lib.Call(h);
        if ret != Fine {
          lib.SQLGetDiagRec(h);
          ret := ReleaseHandle(Env, h);
          return false;
        }
      }
      return true;
    }

    method Close() returns (ret: Ret)
      requires Conserved() && Holds(h, Env)
      modifies this, lib, stats
      ensures Conserved() && h == NULL
      ensures lib.log == old(lib.log) + Given(old(h), ret)
      ensures lib.live == if ret == Fine then old(lib.live) - {old(h)} else old(lib.live)
    {
      var g := h;
      h := NULL;
      ret := ReleaseHandle(Env, g);
    }

    method Open() returns (c: Conn?)
      requires Conserved()
      modifies lib, stats
      ensures Conserved()
      ensures c != null ==> fresh(c) && c.drv == this && c.h !in old(lib.live) && lib.live == old(lib.live)[c.h := Dbc]
      ensures c != null ==> lib.log == old(lib.log) + SetUp(c.h, 1)
      ensures c != null <==> lib.failures == old(lib.failures)
      ensures c == null ==> Keeps(old(lib.live)) && GivenBackSince(old(lib.live))
    {
      var ret, out := Allocate(Dbc);
      if ret != Fine {
        lib.SQLGetDiagRec(h);
        return null;
      }
      ret := lib.Call(out);
      if ret != Fine {
        lib.SQLGetDiagRec(out);
        ret := ReleaseHandle(Dbc, out);
        return null;
      }
      OneCallMore(old(lib.log), out, 0);
      c := new Conn(this, out);
    }
  }

  class Conn {
    const drv: Driver
    var h: Handle

    constructor (drv: Driver, h: Handle)
      ensures this.drv == drv && this.h == h
    {
      this.drv, this.h := drv, h;
    }

    /** Closing keeps the handle when the connection cannot be ended, and otherwise gives it back. */
    method Close() returns (closed: bool)
      requires drv.Conserved() && drv.Holds(h, Dbc)
      modifies this, drv.lib, drv.stats
      ensures drv.Conserved() && (closed <==> drv.lib.failures == old(drv.lib.failures))
      ensures !closed ==> h == old(h) && drv.lib.live == old(drv.lib.live)
      ensures closed ==> old(h) in old(drv.lib.live) && h == NULL && exists ret ::
        drv.lib.log == old(drv.lib.log) + [Entry(OtherCall, old(h), Fine)] + Given(old(h), ret) &&
        drv.lib.live == if ret == Fine then old(drv.lib.live) - {old(h)} else old(drv.lib.live)
    {
      var ret := drv.lib.Call(h);
      if ret != Fine {
        drv.lib.SQLGetDiagRec(h);
        return false;
      }
      var g := h;
      h := NULL;
      ret := drv.ReleaseHandle(Dbc, g);
      return true;
    }

    method PrepareODBCStmt() returns (s: ODBCStmt?)
      requires drv.Conserved()
      modifies drv.lib, drv.stats
      ensures drv.Conserved() && drv.lib.refusals == old(drv.lib.refusals)
      ensures s != null <==> drv.lib.failures == old(drv.lib.failures)
      ensures s != null ==> fresh(s) && s.drv == drv && s.usedByStmt && !s.usedByRows && s.Valid()
      ensures s != null ==> s.h !in old(drv.lib.live) && drv.lib.live == old(drv.lib.live)[s.h := Stm]
      ensures s != null ==> old(drv.lib.log) + SetUp(s.h, 2) <= drv.lib.log
      ensures s == null ==> drv.Keeps(old(drv.lib.live)) && drv.GivenBackSince(old(drv.lib.live))
      ensures old(drv.lib.log) <= drv.lib.log
    {
      var ret, out := drv.Allocate(Stm);
      if ret != Fine {
        drv.lib.SQLGetDiagRec(h);
        return null;
      }
      ret := drv.lib.Call(out);
      if ret != Fine {
        drv.lib.SQLGetDiagRec(out);
        ret := drv.ReleaseHandle(Stm, out);
        return null;
      }
      OneCallMore(old(drv.lib.log), out, 0);
      OneCallMore(old(drv.lib.log), out, 1);
      var described, parameters := ExtractParameters(out);
      if !described {
        ret := drv.ReleaseHandle(Stm, out);
        return null;
      }
      s := new ODBCStmt(drv, out, parameters);
    }

    // SQLNumParams, then SQLDescribeParam for each parameter; a parameter that cannot be described is left so.
    method ExtractParameters(g: Handle) returns (ok: bool, n: nat)
      modifies drv.lib`log, drv.lib`failures
      ensures ok <==> drv.lib.failures == old(drv.lib.failures)
      ensures old(drv.lib.log) <= drv.lib.log
      ensures ok ==> old(drv.lib.log) + [Entry(OtherCall, g, Fine)] <= drv.lib.log
    {
      var ret := drv.lib.Call(g);
      if ret != Fine {
        drv.lib.SQLGetDiagRec(g);
        return false, 0;
      }
      n :| n >= 0;
      for i := 0 to n
        invariant old(drv.lib.log) + [Entry(OtherCall, g, Fine)] <= drv.lib.log
        invariant drv.lib.failures == old(drv.lib.failures)
      {
        ret := drv.lib.Try(g);
      }
      return true, n;
    }
  }

  class ODBCStmt {
    const drv: Driver
    const parameters: nat
    var h: Handle
    var usedByStmt: bool
    var usedByRows: bool

    constructor (drv: Driver, h: Handle, parameters: nat)
      ensures this.drv == drv && this.h == h && this.parameters == parameters && usedByStmt && !usedByRows
    {
      this.drv, this.h, this.parameters, usedByStmt, usedByRows := drv, h, parameters, true, false;
    }

    // The handle is there, and allocated, exactly while one side uses it.
    ghost predicate Valid()
      reads this, drv.lib
    {
      (h != NULL <==> usedByStmt || usedByRows) && (h != NULL ==> h in drv.lib.live && drv.lib.live[h] == Stm)
    }

    function View(): Shared
      reads this
    {
      Shared(h, usedByStmt, usedByRows, None, 0, 0, 0)
    }

    method ReleaseHandle() returns (ret: Ret)
      requires drv.Conserved() && drv.Holds(h, Stm)
      modifies `h, drv.lib`live, drv.lib`log, drv.stats
      ensures drv.Conserved() && h == NULL
      ensures drv.lib.log == old(drv.lib.log) + Given(old(h), ret)
      ensures drv.lib.live == if ret == Fine then old(drv.lib.live) - {old(h)} else old(drv.lib.live)
    {
      var g := h;
      h := NULL;
      ret := drv.ReleaseHandle(Stm, g);
    }

    /** The statement lets go; the handle is given back when no result set uses it. */
    method CloseByStmt() returns (ret: Ret)
      requires drv.Conserved() && Valid()
      modifies this, drv.lib`live, drv.lib`log, drv.stats
      ensures drv.Conserved() && Valid()
      ensures View() == ClosedByStmt(old(View()))
      ensures if old(usedByStmt) && !old(usedByRows)
        then drv.lib.log == old(drv.lib.log) + Given(old(h), ret) &&
          drv.lib.live == (if ret == Fine then old(drv.lib.live) - {old(h)} else old(drv.lib.live))
        else drv.lib.log == old(drv.lib.log) && drv.lib.live == old(drv.lib.live)
    {
      ret := Fine;
      if usedByStmt {
        if !usedByRows {
          ret := ReleaseHandle();
        }
        usedByStmt := false;
      }
    }

    /** The result set lets go: the cursor is closed while the statement stays, and otherwise the handle is given back. */
    method CloseByRows() returns (ret: Ret)
      requires drv.Conserved() && Valid()
      modifies this, drv.lib, drv.stats
      ensures drv.Conserved() && Valid()
      ensures View() == ClosedByRows(old(View()))
      ensures !old(usedByRows) ==> drv.lib.log == old(drv.lib.log) && drv.lib.live == old(drv.lib.live)
      ensures old(usedByRows && usedByStmt) ==> drv.lib.live == old(drv.lib.live)
      ensures old(usedByRows && usedByStmt) ==> drv.lib.log == old(drv.lib.log) + Called(old(h), ret)
      ensures old(usedByRows && !usedByStmt) ==> drv.lib.log == old(drv.lib.log) + Given(old(h), ret)
      ensures old(usedByRows && !usedByStmt) ==>
        drv.lib.live == if ret == Fine then old(drv.lib.live) - {old(h)} else old(drv.lib.live)
    {
      ret := Fine;
      if usedByRows {
        if usedByStmt {
          ret := drv.lib.Call(h);
          if ret != Fine {
            drv.lib.SQLGetDiagRec(h);
          }
        } else {
          ret := ReleaseHandle();
        }
        usedByRows := false;
      }
    }

    // A call on the handle and, when it fails, reading its reason.
    method Do() returns (ret: Ret)
      modifies drv.lib`log, drv.lib`failures
      ensures drv.lib.failures == old(drv.lib.failures) + if ret == Fine then 0 else 1
      ensures drv.lib.log == old(drv.lib.log) + Called(h, ret)
      ensures ret == Fine ==> h in drv.lib.live && drv.LastCall(h)
    {
      ret := drv.lib.Call(h);
      if ret != Fine {
        drv.lib.SQLGetDiagRec(h);
      }
    }

    // Binding a parameter: a failure is read but not passed on.
    method Bind() returns (ret: Ret)
      modifies drv.lib`log
      ensures drv.lib.log == old(drv.lib.log) + Called(h, ret)
    {
      ret := drv.lib.Try(h);
      if ret != Fine {
        drv.lib.SQLGetDiagRec(h);
      }
    }

    /**
     * Every parameter is bound, whether binding the others failed or not, and the statement is executed: it succeeds
     * exactly when there are as many arguments as parameters and SQLExecute succeeds.
     */
    method Exec(args: nat) returns (ok: bool, ghost rets: seq<Ret>)
      modifies drv.lib`log, drv.lib`failures
      ensures ok <==> args == parameters && drv.lib.failures == old(drv.lib.failures)
      ensures drv.lib.log == old(drv.lib.log) + AllCalled(h, rets)
      ensures |rets| == if args == parameters then parameters + 1 else 0
      ensures ok <==> args == parameters && rets[parameters] == Fine
      ensures ok ==> h in drv.lib.live
    {
      rets := [];
      if args != parameters {
        return false, rets;
      }
      for i := 0 to parameters
        invariant drv.lib.log == old(drv.lib.log) + AllCalled(h, rets) && |rets| == i
        invariant drv.lib.failures == old(drv.lib.failures)
      {
        var bound := Bind();
        CalledOnce(old(drv.lib.log), h, rets, bound);
        rets := rets + [bound];
      }
      var ret := Do();
      CalledOnce(old(drv.lib.log), h, rets, ret);
      rets := rets + [ret];
      ok := ret == Fine;
    }

    // Any number of calls on the handle, up to one that fails or whose result is of no use.
    method Calls() returns (ok: bool)
      modifies drv.lib`log, drv.lib`failures, drv.lib`refusals
      ensures ok <==> drv.lib.failures == old(drv.lib.failures) && drv.lib.refusals == old(drv.lib.refusals)
      ensures old(drv.lib.log) <= drv.lib.log
      ensures forall i :: |old(drv.lib.log)| <= i < |drv.lib.log| ==> drv.lib.log[i].h == h
      ensures ok && old(drv.LastCall(h)) ==> drv.LastCall(h)
    {
      var n: nat :| true;
      for i := 0 to n
        invariant old(drv.lib.log) <= drv.lib.log
        invariant drv.lib.failures == old(drv.lib.failures) && drv.lib.refusals == old(drv.lib.refusals)
        invariant forall j :: |old(drv.lib.log)| <= j < |drv.lib.log| ==> drv.lib.log[j].h == h
        invariant old(drv.LastCall(h)) ==> drv.LastCall(h)
      {
        var ret := Do();
        if ret != Fine {
          return false;
        }
        var refused := drv.lib.Refuses();
        if refused {
          return false;
        }
      }
      ok := true;
    }

    // The columns are counted, described and bound; fails also when there are none or one has an unknown type.
    method BindColumns() returns (ok: bool)
      modifies drv.lib`log, drv.lib`failures, drv.lib`refusals
      ensures ok <==> drv.lib.failures == old(drv.lib.failures) && drv.lib.refusals == old(drv.lib.refusals)
      ensures old(drv.lib.log) <= drv.lib.log
      ensures forall i :: |old(drv.lib.log)| <= i < |drv.lib.log| ==> drv.lib.log[i].h == h
      ensures ok ==> drv.LastCall(h)
    {
      var ret := Do();
      if ret != Fine {
        return false;
      }
      var none := drv.lib.Refuses();
      if none {
        return false;
      }
      ok := Calls();
    }
  }

  class Stmt {
    const c: Conn
    var os: ODBCStmt?

    constructor (c: Conn, os: ODBCStmt)
      ensures this.c == c && this.os == os
    {
      this.c, this.os := c, os;
    }

    ghost predicate Valid()
      reads this, os, c.drv.lib
    {
      os != null ==> os.drv == c.drv && os.Valid() && os.usedByStmt
    }

    /** A closed statement says so; otherwise it lets go, and the handle is given back unless a result set uses it. */
    method Close() returns (closed: bool, ret: Ret)
      requires Valid() && c.drv.Conserved()
      modifies this, os, c.drv.lib, c.drv.stats
      ensures c.drv.Conserved() && os == null && closed == (old(os) != null)
      ensures closed ==> old(os).Valid() && old(os).View() == ClosedByStmt(old(os.View()))
      ensures if closed && !old(os.usedByRows)
        then c.drv.lib.log == old(c.drv.lib.log) + Given(old(os.h), ret) &&
          c.drv.lib.live == (if ret == Fine then old(c.drv.lib.live) - {old(os.h)} else old(c.drv.lib.live))
        else c.drv.lib.log == old(c.drv.lib.log) && c.drv.lib.live == old(c.drv.lib.live)
    {
      if os == null {
        return false, Fine;
      }
      ret := os.CloseByStmt();
      os := null;
      closed := true;
    }

    // A statement whose result set is still open leaves the handle to it and prepares its query again.
    method Reprepare() returns (ok: bool)
      requires os != null && Valid() && c.drv.Conserved()
      modifies this, os, c.drv.lib, c.drv.stats
      ensures c.drv.Conserved() && Valid() && ok == (os != null) && c.drv.lib.refusals == old(c.drv.lib.refusals)
      ensures ok <==> c.drv.lib.failures == old(c.drv.lib.failures)
      ensures c.drv.Keeps(old(c.drv.lib.live))
      ensures !old(os.usedByRows) ==>
        os == old(os) && os.View() == old(os.View()) && c.drv.lib.log == old(c.drv.lib.log)
      ensures old(os.usedByRows) ==> old(os).Valid() && old(os).View() == ClosedByStmt(old(os.View()))
      ensures old(os.usedByRows) && ok ==> fresh(os) && !os.usedByRows && os.h !in old(c.drv.lib.live)
      ensures !ok ==> c.drv.GivenBackSince(old(c.drv.lib.live))
    {
      if os.usedByRows {
        var ret := os.CloseByStmt();
        os := null;
        os := c.PrepareODBCStmt();
        return os != null;
      }
      return true;
    }

    /**
     * Executing frees no handle; with a result set still open it runs on a new handle, or fails with none. It succeeds
     * exactly when SQLExecute and SQLRowCount do; a failure to bind a parameter changes nothing.
     */
    method Exec(args: nat) returns (ok: bool, ghost rets: seq<Ret>)
      requires Valid() && c.drv.Conserved()
      modifies this, os, c.drv.lib, c.drv.stats
      ensures c.drv.Conserved() && Valid()
      ensures c.drv.Keeps(old(c.drv.lib.live))
      ensures old(os) == null ==> !ok && os == null
      ensures old(os) != null && !old(os.usedByRows) ==>
        os == old(os) && os.View() == old(os.View()) && c.drv.lib.log == old(c.drv.lib.log) + AllCalled(os.h, rets)
      ensures old(os) != null && old(os.usedByRows) ==>
        old(os).Valid() && old(os).View() == ClosedByStmt(old(os.View())) && (os == null || fresh(os))
      ensures c.drv.lib.failures == old(c.drv.lib.failures) && old(os) != null ==> os != null
      ensures ok <==> old(os) != null && c.drv.lib.failures == old(c.drv.lib.failures) && args == os.parameters
      ensures ok ==> os != null && !os.usedByRows && c.drv.LastCall(os.h)
      ensures ok <==> os != null && args == os.parameters && |rets| == args + 2 && rets[args] == rets[args + 1] == Fine
      ensures rets != [] ==> os != null && args == os.parameters && |rets| > args
      ensures rets != [] ==> |rets| == if rets[args] == Fine then args + 2 else args + 1
    {
      rets := [];
      if os == null {
        return false, rets;
      }
      ok := Reprepare();
      if !ok {
        return false, rets;
      }
      ghost var before := c.drv.lib.log;
      ok, rets := os.Exec(args);
      if !ok {
        return false, rets;
      }
      var ret := os.Do();
      CalledOnce(before, os.h, rets, ret);
      rets := rets + [ret];
      ok := ret == Fine;
    }

    /**
     * A query that succeeds shares the statement's handle with the result set; otherwise as for Exec, the columns
     * being bound in place of counting the rows.
     */
    method Query(args: nat) returns (rows: Rows?, ghost rets: seq<Ret>)
      requires Valid() && c.drv.Conserved()
      modifies this, os, c.drv.lib, c.drv.stats
      ensures c.drv.Conserved() && Valid()
      ensures c.drv.Keeps(old(c.drv.lib.live))
      ensures old(os) != null && !old(os.usedByRows) ==>
        os == old(os) && old(c.drv.lib.log) + AllCalled(os.h, rets) <= c.drv.lib.log
      ensures old(os) != null && old(os.usedByRows) ==>
        old(os).Valid() && old(os).View() == ClosedByStmt(old(os.View())) && (os == null || fresh(os))
      ensures c.drv.lib.failures == old(c.drv.lib.failures) && old(os) != null ==> os != null
      ensures rows != null <==> (old(os) != null && c.drv.lib.failures == old(c.drv.lib.failures) &&
                                 args == os.parameters && c.drv.lib.refusals == old(c.drv.lib.refusals))
      ensures rows != null ==> fresh(rows) && os != null && rows.os == os && os.usedByStmt && os.usedByRows
      ensures rows != null ==> c.drv.LastCall(os.h)
      ensures rows != null ==> args == os.parameters && |rets| == args + 1 && rets[args] == Fine
      ensures rets != [] ==> os != null && args == os.parameters && |rets| == args + 1
      ensures rows == null ==> os == null || !os.usedByRows
    {
      rows, rets := null, [];
      if os == null {
        return;
      }
      var ok := Reprepare();
      if !ok {
        return;
      }
      ok, rets := os.Exec(args);
      if !ok {
        return;
      }
      ok := os.BindColumns();
      if !ok {
        return;
      }
      os.usedByRows := true;
      rows := new Rows(os);
    }
  }

  class Rows {
    const os: ODBCStmt

    constructor (os: ODBCStmt)
      ensures this.os == os
    {
      this.os := os;
    }

    /** A row is fetched, and its long columns are read; at the end of the data no reason is read. */
    method Next() returns (ok: bool)
      modifies os.drv.lib`log, os.drv.lib`failures, os.drv.lib`refusals
      ensures ok <==>
        os.drv.lib.failures == old(os.drv.lib.failures) && os.drv.lib.refusals == old(os.drv.lib.refusals)
      ensures old(os.drv.lib.log) <= os.drv.lib.log
      ensures forall i :: |old(os.drv.lib.log)| <= i < |os.drv.lib.log| ==> os.drv.lib.log[i].h == os.h
      ensures ok ==> os.drv.LastCall(os.h)
    {
      var ret := os.drv.lib.Call(os.h);
      if ret != Fine {
        var end: bool := *;
        if ret == Invalid || !end {
          os.drv.lib.SQLGetDiagRec(os.h);
        }
        return false;
      }
      ok := os.Calls();
    }

    method Close() returns (ret: Ret)
      requires os.drv.Conserved() && os.Valid()
      modifies os, os.drv.lib, os.drv.stats
      ensures os.drv.Conserved() && os.Valid()
      ensures os.View() == ClosedByRows(old(os.View()))
      ensures !old(os.usedByRows) ==>
        os.drv.lib.log == old(os.drv.lib.log) && os.drv.lib.live == old(os.drv.lib.live)
      ensures old(os.usedByRows && os.usedByStmt) ==>
        os.drv.lib.log == old(os.drv.lib.log) + Called(old(os.h), ret) && os.drv.lib.live == old(os.drv.lib.live)
      ensures old(os.usedByRows && !os.usedByStmt) ==>
        os.drv.lib.log == old(os.drv.lib.log) + Given(old(os.h), ret) &&
        os.drv.lib.live == if ret == Fine then old(os.drv.lib.live) - {old(os.h)} else old(os.drv.lib.live)
    {
      ret := os.CloseByRows();
    }
  }

  // ---------- the steps of OdbcLifetimes, run without interference ----------

  // Five steps of thread a; the library answers the third with ret and the others with success.
  function Alone(s: State, a: nat, ret: Ret): State {
    var fine := Act(a, Choice(Next, Fine, Continue, false));
    Step(Step(Step(Step(Step(s, fine), fine), Act(a, Choice(Next, ret, Continue, false))), fine), fine)
  }

  // The thread holds the mutex; what it does from there.
  function Inside(s: State, a: nat, k: nat, after: After): State
    requires a < |s.threads| && k < |s.shared|
  {
    Goes(WithShared(s, k, s.shared[k].(mu := Some(a))), a, Held(after))
  }

  // The thread gave h back under the mutex and is about to clear its flag.
  predicate GaveBack(s: State, u: State, a: nat, k: nat, ret: Ret, after: After)
    requires a < |s.threads| && k < |s.shared|
  {
    var o := s.shared[k];
    u.threads == s.threads[a := s.threads[a].(pc := Unlock(after))] &&
    u.shared == s.shared[k := o.(h := NULL, mu := Some(a))] &&
    u.log == s.log + Given(o.h, ret)
  }

  // A shared handle is freed; whatever the library answers, two steps lead to giving up the mutex.
  lemma FreesAlone(s: State, a: nat, h: Handle, ret: Ret, after: After)
    requires a < |s.threads| && s.threads[a].pc == Free(h, after) && h != NULL
    requires !s.threads[a].role.Holder? && after != Discard
    ensures var fine := Act(a, Choice(Next, Fine, Continue, false));
      var u := Step(s, Act(a, Choice(Next, ret, Continue, false)));
      var v := if ret == Invalid then u else Step(u, fine);
      v.threads == s.threads[a := s.threads[a].(pc := Unlock(after))] && v.shared == s.shared && v.log == s.log + Given(h, ret)
  {
  }

  lemma AloneGivesBack(s: State, a: nat, k: nat, ret: Ret, after: After)
    requires a < |s.threads| && k < |s.shared| && s.shared[k].h != NULL && SharedOf(s.threads[a]) == Some(k)
    requires !s.threads[a].role.Holder? && after != Discard
    ensures var fine := Act(a, Choice(Next, Fine, Continue, false));
      var u := Step(Release(Inside(s, a, k, after), a, k, after), Act(a, Choice(Next, ret, Continue, false)));
      GaveBack(s, if ret == Invalid then u else Step(u, fine), a, k, ret, after)
  {
    hide Step;
    FreesAlone(Release(Inside(s, a, k, after), a, k, after), a, s.shared[k].h, ret, after);
  }

  lemma EntersAlone(s: State, a: nat, k: nat, after: After)
    requires a < |s.threads| && s.threads[a].pc == Lock(after) && SharedOf(s.threads[a]) == Some(k)
    requires k < |s.shared| && s.shared[k].mu == None && !s.threads[a].role.Holder?
    ensures Step(s, Act(a, Choice(Next, Fine, Continue, false))) == Inside(s, a, k, after)
  {
  }

  // What the last step does to a shared handle that was given back.
  lemma LeavesAlone(s: State, u: State, a: nat, k: nat, ret: Ret, after: After)
    requires a < |s.threads| && k < |s.shared| && s.shared[k].mu == None && SharedOf(s.threads[a]) == Some(k)
    requires if s.threads[a].role.Statement? then after == CloseStatement else after == CloseRows && s.threads[a].role.ResultSet?
    requires GaveBack(s, u, a, k, ret, after)
    ensures var v, fine := Step(u, Act(a, Choice(Next, Fine, Continue, false))), Act(a, Choice(Next, Fine, Continue, false));
      v.log == u.log && Step(v, fine) == v && Left(s, v, a, k, s.shared[k].(h := NULL))
  {
  }

  // The thread cleared its flag and let the mutex go.
  predicate Left(s: State, v: State, a: nat, k: nat, o: Shared)
    requires a < |s.threads| && k < |s.shared|
  {
    if s.threads[a].role.Statement? then
      v.shared == s.shared[k := o.(usedByStmt := false)] && v.threads == s.threads[a := Thread(Statement(None), Rest)]
    else
      v.shared == s.shared[k := o.(usedByRows := false)] && v.threads == s.threads[a := s.threads[a].(pc := Closed)]
  }

  lemma LastOutAlone(s: State, a: nat, k: nat, ret: Ret, after: After)
    requires a < |s.threads| && s.threads[a].pc == Lock(after) && SharedOf(s.threads[a]) == Some(k)
    requires if s.threads[a].role.Statement? then after == CloseStatement else after == CloseRows && s.threads[a].role.ResultSet?
    requires k < |s.shared| && s.shared[k].mu == None && s.shared[k].h != NULL
    requires var o := s.shared[k];
      if after == CloseRows then o.usedByRows && !o.usedByStmt else o.usedByStmt && !o.usedByRows
    ensures var u := Alone(s, a, ret);
      Left(s, u, a, k, s.shared[k].(h := NULL)) && u.log == s.log + Given(s.shared[k].h, ret)
  {
    var fine := Act(a, Choice(Next, Fine, Continue, false));
    EntersAlone(s, a, k, after);
    var s2 := Release(Inside(s, a, k, after), a, k, after);
    assert Step(Inside(s, a, k, after), fine) == s2;
    AloneGivesBack(s, a, k, ret, after);
    var s3 := Step(s2, Act(a, Choice(Next, ret, Continue, false)));
    LeavesAlone(s, if ret == Invalid then s3 else Step(s3, fine), a, k, ret, after);
    hide Step, Release, Inside, Left, GaveBack;
    if ret == Invalid {
      assert Alone(s, a, ret) == Step(Step(s3, fine), fine);
    }
  }

  // The result set still uses the handle, or the statement has let go before: the mutex is taken and given up.
  lemma StaysAlone(s: State, a: nat, k: nat, ret: Ret)
    requires a < |s.threads| && s.threads[a] == Thread(Statement(Some(k)), Lock(CloseStatement))
    requires k < |s.shared| && s.shared[k].mu == None && !(s.shared[k].usedByStmt && !s.shared[k].usedByRows)
    ensures var u, o := Alone(s, a, ret), s.shared[k];
      u.shared == s.shared[k := o.(usedByStmt := false)] && u.log == s.log
  {
    var fine := Act(a, Choice(Next, Fine, Continue, false));
    EntersAlone(s, a, k, CloseStatement);
    var s1 := Inside(s, a, k, CloseStatement);
    var s2 := Goes(s1, a, Unlock(CloseStatement));
    assert Step(s1, fine) == s2;
    var s3 := Step(s2, Act(a, Choice(Next, ret, Continue, false)));
    assert s3.threads == s.threads[a := Thread(Statement(None), Rest)];
    assert Step(s3, fine) == s3;
  }

  /** A statement that closes without interference does to the shared handle and to the log what CloseByStmt does. */
  lemma CloseByStmtRefined(s: State, a: nat, k: nat, ret: Ret)
    requires a < |s.threads| && s.threads[a] == Thread(Statement(Some(k)), Lock(CloseStatement))
    requires k < |s.shared| && s.shared[k].mu == None && s.shared[k].h != NULL
    ensures var u, o := Alone(s, a, ret), s.shared[k];
      u.shared == s.shared[k := ClosedByStmt(o)] &&
      u.log == s.log + (if o.usedByStmt && !o.usedByRows then Given(o.h, ret) else [])
  {
    hide Step, Alone;
    if s.shared[k].usedByStmt && !s.shared[k].usedByRows {
      LastOutAlone(s, a, k, ret, CloseStatement);
    } else {
      StaysAlone(s, a, k, ret);
    }
  }

  lemma CursorAlone(s: State, a: nat, k: nat, ret: Ret)
    requires a < |s.threads| && s.threads[a].pc == Lock(CloseRows) && s.threads[a].role == ResultSet(k)
    requires k < |s.shared| && s.shared[k].mu == None && s.shared[k].h != NULL
    requires s.shared[k].usedByRows && s.shared[k].usedByStmt
    ensures var u := Alone(s, a, ret);
      Left(s, u, a, k, s.shared[k]) && u.log == s.log + Called(s.shared[k].h, ret)
  {
    var fine, o := Act(a, Choice(Next, Fine, Continue, false)), s.shared[k];
    EntersAlone(s, a, k, CloseRows);
    var s1 := Inside(s, a, k, CloseRows);
    var s2 := Goes(s1, a, Cursor(o.h));
    assert Step(s1, fine) == s2;
    var s3 := Step(s2, Act(a, Choice(Next, ret, Continue, false)));
    var s4 := if ret == Fine then s3 else Step(s3, fine);
    CursorCalls(s2, a, k, ret);
    assert s4.threads == s.threads[a := Thread(ResultSet(k), Unlock(CloseRows))];
    ClearsAlone(s4, a, k);
    hide Step, Inside;
  }

  lemma CursorCalls(s: State, a: nat, k: nat, ret: Ret)
    requires a < |s.threads| && s.threads[a].role == ResultSet(k) && s.threads[a].pc.Cursor?
    requires s.threads[a].pc.h != NULL
    ensures var fine := Act(a, Choice(Next, Fine, Continue, false));
      var s1 := Step(s, Act(a, Choice(Next, ret, Continue, false)));
      var u := if ret == Fine then s1 else Step(s1, fine);
      u.threads == s.threads[a := Thread(ResultSet(k), Unlock(CloseRows))] && u.shared == s.shared &&
      u.log == s.log + Called(s.threads[a].pc.h, ret)
  {
  }

  lemma ClearsAlone(s: State, a: nat, k: nat)
    requires a < |s.threads| && k < |s.shared| && s.threads[a] == Thread(ResultSet(k), Unlock(CloseRows))
    ensures var fine := Act(a, Choice(Next, Fine, Continue, false));
      var u := Step(s, fine);
      u.threads == s.threads[a := Thread(ResultSet(k), Closed)] && u.log == s.log && Step(u, fine) == u &&
      u.shared == s.shared[k := s.shared[k].(usedByRows := false, mu := None)]
  {
  }

  /** A result set that closes without interference does to the shared handle and to the log what CloseByRows does. */
  lemma CloseByRowsRefined(s: State, a: nat, k: nat, ret: Ret)
    requires a < |s.threads| && s.threads[a] == Thread(ResultSet(k), Lock(CloseRows))
    requires k < |s.shared| && s.shared[k].mu == None && s.shared[k].h != NULL && s.shared[k].usedByRows
    ensures var u, o := Alone(s, a, ret), s.shared[k];
      u.shared == s.shared[k := ClosedByRows(o)] &&
      u.log == s.log + (if o.usedByStmt then Called(o.h, ret) else Given(o.h, ret))
  {
    hide Step, Alone;
    if s.shared[k].usedByStmt {
      CursorAlone(s, a, k, ret);
    } else {
      LastOutAlone(s, a, k, ret, CloseRows);
    }
  }
}
