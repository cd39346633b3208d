/**
 * PRELOGIN messages (section 2.2.6.5 of MS-TDS): an option table followed by the option values. Offsets and lengths have
 * 16 bits, the more significant byte first.
 */
module Prelogin {
  import opened Bytes
  import opened Framing
  import ParamStream

  const PACK_REPLY: byte := 4
  const PACK_PRELOGIN: byte := 18
  const TERMINATOR: byte := 0xff

  type Options = map<byte, seq<byte>>

  // ---------- the payload ----------

  datatype Record = Record(key: byte, value: seq<byte>)

  /** The options with keys from `k` on, in the order of their keys. */
  function RecordsFrom(m: Options, k: nat): seq<Record>
    requires k <= 256
    decreases 256 - k
  {
    if k == 256 then []
    else (if k in m then [Record(k, m[k])] else []) + RecordsFrom(m, k + 1)
  }

  function Records(m: Options): seq<Record> { RecordsFrom(m, 0) }

  function Entry(k: byte, offset: nat, size: nat): (r: seq<byte>)
    ensures |r| == 5
  {
    [k] + Be16(offset % 0x1_0000) + Be16(size % 0x1_0000)
  }

  /** The table, when the first value lies at `offset`. */
  function Table(rs: seq<Record>, offset: nat): (r: seq<byte>)
    ensures |r| == 5 * |rs|
  {
    if rs == [] then []
    else Entry(rs[0].key, offset, |rs[0].value|) + Table(rs[1..], offset + |rs[0].value|)
  }

  function Values(rs: seq<Record>): seq<byte> {
    if rs == [] then [] else rs[0].value + Values(rs[1..])
  }

  function PayloadOf(rs: seq<Record>): seq<byte> {
    Table(rs, 5 * |rs| + 1) + [TERMINATOR] + Values(rs)
  }

  function Payload(m: Options): seq<byte> { PayloadOf(Records(m)) }

  // ---------- reading ----------

  /** The read loop from `offset` on; None where indexing panics. */
  function ReadFrom(buf: seq<byte>, offset: nat, results: Options): Option<Options>
    decreases |buf| - offset
  {
    if offset >= |buf| then None
    else if buf[offset] == TERMINATOR then Some(results)
    else if offset + 5 > |buf| then None
    else
      var low := FromBe16(buf[offset + 1], buf[offset + 2]);
      var high := (low + FromBe16(buf[offset + 3], buf[offset + 4])) % 0x1_0000;
      if low > high || high > |buf| then None
      else ReadFrom(buf, offset + 5, results[buf[offset] := buf[low..high]])
  }

  method ReadOptions(buf: seq<byte>) returns (r: Option<Options>)
    ensures r == ReadFrom(buf, 0, map[])
  {
    var offset := 0;
    var results: Options := map[];
    while true
      invariant 0 <= offset && ReadFrom(buf, offset, results) == ReadFrom(buf, 0, map[])
      decreases |buf| - offset
    {
      if offset >= |buf| {
        return None;
      }
      var recType := buf[offset];
      if recType == TERMINATOR {
        return Some(results);
      }
      if offset + 5 > |buf| {
        return None;
      }
      var recOffset := FromBe16(buf[offset + 1], buf[offset + 2]);
      var recLen := FromBe16(buf[offset + 3], buf[offset + 4]);
      var end := (recOffset + recLen) % 0x1_0000;
      if recOffset > end || end > |buf| {
        return None;
      }
      results := results[recType := buf[recOffset..end]];
      offset := offset + 5;
    }
  }

  // ---------- round trip ----------

  lemma {:induction false} TableConcat(a: seq<Record>, b: seq<Record>, offset: nat)
    decreases |a|
    ensures Table(a + b, offset) == Table(a, offset) + Table(b, offset + |Values(a)|)
  {
    if a == [] {
      assert a + b == b;
    } else {
      assert (a + b)[1..] == a[1..] + b;
      TableConcat(a[1..], b, offset + |a[0].value|);
    }
  }

  lemma {:induction false} ValuesConcat(a: seq<Record>, b: seq<Record>)
    ensures Values(a + b) == Values(a) + Values(b)
  {
    if a == [] {
      assert a + b == b;
    } else {
      assert (a + b)[1..] == a[1..] + b;
      ValuesConcat(a[1..], b);
    }
  }

  lemma EntryReads(buf: seq<byte>, at: nat, k: byte, low: nat, size: nat)
    requires at + 5 <= |buf| && buf[at..at + 5] == Entry(k, low, size) && low < 0x1_0000 && size < 0x1_0000
    ensures buf[at] == k && FromBe16(buf[at + 1], buf[at + 2]) == low && FromBe16(buf[at + 3], buf[at + 4]) == size
  {
    var e := buf[at..at + 5];
    assert e[0] == buf[at] && e[1] == buf[at + 1] && e[2] == buf[at + 2] && e[3] == buf[at + 3] && e[4] == buf[at + 4];
  }

  lemma Regroup(a: seq<byte>, b: seq<byte>, c: seq<byte>, d: seq<byte>, e: seq<byte>)
    ensures a + (b + c) + d + e == a + b + (c + d + e)
  {
  }

  /** Where the value of the i-th record begins. */
  function ValueOffset(rs: seq<Record>, i: nat): nat
    requires i <= |rs|
  {
    5 * |rs| + 1 + |Values(rs[..i])|
  }

  lemma EntryPlace(rs: seq<Record>, i: nat)
    requires i < |rs|
    ensures 5 * i + 5 <= |PayloadOf(rs)|
    ensures PayloadOf(rs)[5 * i..5 * i + 5] == Entry(rs[i].key, ValueOffset(rs, i), |rs[i].value|)
  {
    hide Table, Values, Entry;
    var r, b, first, low := rs[i], rs[i + 1..], 5 * |rs| + 1, ValueOffset(rs, i);
    var before, entry, tail := Table(rs[..i], first), Entry(r.key, low, |r.value|), Table(b, low + |r.value|);
    TableCut(rs, i, first);
    var values := Values(rs);
    assert PayloadOf(rs) == Table(rs, first) + [TERMINATOR] + values;
    assert low == first + |Values(rs[..i])|;
    hide PayloadOf, ValueOffset;
    Regroup(before, entry, tail, [TERMINATOR], values);
    Middle(before, entry, tail + [TERMINATOR] + values);
  }

  lemma TableCut(rs: seq<Record>, i: nat, first: nat)
    requires i < |rs|
    ensures var r, low := rs[i], first + |Values(rs[..i])|;
      Table(rs, first) ==
      Table(rs[..i], first) + (Entry(r.key, low, |r.value|) + Table(rs[i + 1..], low + |r.value|))
  {
    var a, b := rs[..i], rs[i + 1..];
    assert rs == a + ([rs[i]] + b) && ([rs[i]] + b)[1..] == b;
    TableConcat(a, [rs[i]] + b, first);
  }

  lemma ValuePlace(rs: seq<Record>, i: nat)
    requires i < |rs|
    ensures var low, n := ValueOffset(rs, i), |rs[i].value|;
      low + n <= |PayloadOf(rs)| && PayloadOf(rs)[low..low + n] == rs[i].value
  {
    var a, r, b := rs[..i], rs[i], rs[i + 1..];
    assert rs == a + ([r] + b) && ([r] + b)[1..] == b;
    ValuesConcat(a, [r] + b);
    var table := Table(rs, 5 * |rs| + 1);
    assert Values(rs) == Values(a) + (r.value + Values(b));
    var head := table + [TERMINATOR];
    assert PayloadOf(rs) == head + Values(rs) && |head| == 5 * |rs| + 1;
    hide Table, Values, PayloadOf;
    ParamStream.Cascade(head, Values(a), r.value, Values(b));
    Middle(head + Values(a), r.value, Values(b));
  }

  /** One turn of the read loop takes the i-th record. */
  lemma ReadsRecord(rs: seq<Record>, i: nat, results: Options)
    requires i < |rs| && |PayloadOf(rs)| < 0x1_0000 && rs[i].key != TERMINATOR
    ensures ReadFrom(PayloadOf(rs), 5 * i, results) ==
            ReadFrom(PayloadOf(rs), 5 * (i + 1), results[rs[i].key := rs[i].value])
  {
    hide PayloadOf, ValueOffset, ReadFrom, Entry, FromBe16;
    EntryPlace(rs, i);
    ValuePlace(rs, i);
    var buf, at, low, n := PayloadOf(rs), 5 * i, ValueOffset(rs, i), |rs[i].value|;
    EntryReads(buf, at, rs[i].key, low, n);
    ReadStep(buf, at, results, low, n);
    assert at + 5 == 5 * (i + 1);
  }

  lemma ReadStep(buf: seq<byte>, at: nat, results: Options, low: nat, size: nat)
    requires at + 5 <= |buf| && buf[at] != TERMINATOR && low + size <= |buf| < 0x1_0000
    requires FromBe16(buf[at + 1], buf[at + 2]) == low && FromBe16(buf[at + 3], buf[at + 4]) == size
    ensures ReadFrom(buf, at, results) == ReadFrom(buf, at + 5, results[buf[at] := buf[low..low + size]])
  {
    hide FromBe16;
  }

  /** Reading stops at the terminator, or at an option whose key looks like it. */
  lemma ReadsTerminator(rs: seq<Record>, i: nat, results: Options)
    requires i <= |rs| && (i < |rs| ==> rs[i].key == TERMINATOR)
    ensures ReadFrom(PayloadOf(rs), 5 * i, results) == Some(results)
  {
    if i < |rs| {
      EntryPlace(rs, i);
      hide PayloadOf, ValueOffset;
      assert PayloadOf(rs)[5 * i..5 * i + 5][0] == PayloadOf(rs)[5 * i];
    } else {
      assert PayloadOf(rs)[5 * i] == TERMINATOR;
    }
  }

  /** The options with keys from `k` on that a reader can see. */
  function Above(m: Options, k: nat): Options {
    map x | x in m && x >= k && x != TERMINATOR :: m[x]
  }

  lemma AboveStep(m: Options, k: nat, results: Options)
    ensures k >= 255 ==> results + Above(m, k) == results
    ensures k !in m ==> Above(m, k) == Above(m, k + 1)
    ensures k in m && k < 255 ==> results[k := m[k]] + Above(m, k + 1) == results + Above(m, k)
  {
  }

  lemma {:induction false} ReadsTheRest(m: Options, rs: seq<Record>, k: nat, i: nat, results: Options)
    requires k <= 256 && i <= |rs| && rs[i..] == RecordsFrom(m, k) && |PayloadOf(rs)| < 0x1_0000
    decreases 256 - k
    ensures ReadFrom(PayloadOf(rs), 5 * i, results) == Some(results + Above(m, k))
  {
    hide ReadFrom, PayloadOf, Above;
    AboveStep(m, k, results);
    if k == 256 {
      ReadsTerminator(rs, i, results);
    } else if k !in m {
      assert [] + RecordsFrom(m, k + 1) == RecordsFrom(m, k);
      ReadsTheRest(m, rs, k + 1, i, results);
    } else {
      assert rs[i] == rs[i..][0] == Record(k, m[k]);
      if k == 255 {
        ReadsTerminator(rs, i, results);
      } else {
        assert rs[i + 1..] == rs[i..][1..] == RecordsFrom(m, k + 1);
        ReadsRecord(rs, i, results);
        ReadsTheRest(m, rs, k + 1, i + 1, results[k := m[k]]);
      }
    }
  }

  lemma AllAbove(m: Options)
    ensures map[] + Above(m, 0) == m - {TERMINATOR}
    ensures TERMINATOR !in m ==> m - {TERMINATOR} == m
  {
  }

  /** The options come back, all but one with key 0xff, which ends the table: so exactly when there is none. */
  lemma RoundTrip(m: Options)
    requires |Payload(m)| < 0x1_0000
    ensures ReadFrom(Payload(m), 0, map[]) == Some(m - {TERMINATOR})
    ensures ReadFrom(Payload(m), 0, map[]) == Some(m) <==> TERMINATOR !in m
  {
    hide ReadFrom, PayloadOf, RecordsFrom;
    ReadsTheRest(m, Records(m), 0, 0, map[]);
    AllAbove(m);
  }

  // ---------- writing ----------

  predicate Increasing(s: seq<byte>) { forall i, j :: 0 <= i < j < |s| ==> s[i] < s[j] }

  ghost predicate SameElements(a: seq<byte>, b: seq<byte>) { forall x :: x in a <==> x in b }

  /** There is only one way to list a set of keys in order. */
  lemma {:induction false} IncreasingIsUnique(a: seq<byte>, b: seq<byte>)
    requires Increasing(a) && Increasing(b) && SameElements(a, b)
    decreases |a|
    ensures a == b
  {
    assert (a != [] ==> a[0] in a) && (b != [] ==> b[0] in b);
    if a != [] && b != [] {
      forall x
        ensures x in a[1..] <==> x in b[1..]
      {
        assert x in a[1..] <==> x in a && x != a[0];
        assert x in b[1..] <==> x in b && x != b[0];
      }
      IncreasingIsUnique(a[1..], b[1..]);
    }
  }

  function RecordKeys(rs: seq<Record>): (r: seq<byte>)
    ensures |r| == |rs| && (forall i :: 0 <= i < |r| ==> r[i] == rs[i].key)
  {
    seq(|rs|, i requires 0 <= i < |rs| => rs[i].key)
  }

  lemma {:induction false} RecordsAreOrdered(m: Options, k: nat)
    requires k <= 256
    decreases 256 - k
    ensures var rs := RecordsFrom(m, k);
      && Increasing(RecordKeys(rs))
      && (forall x :: x in RecordKeys(rs) <==> x in m && x >= k)
      && (forall i :: 0 <= i < |rs| ==> rs[i].key in m && rs[i].value == m[rs[i].key])
  {
    hide *;
    RecordsStep(m, k);
    if k < 256 {
      RecordsAreOrdered(m, k + 1);
      if k in m {
        OneRecordMore(m, k, RecordsFrom(m, k + 1));
      }
    }
  }

  lemma RecordsStep(m: Options, k: nat)
    requires k <= 256
    ensures k == 256 ==> RecordsFrom(m, k) == [] && Increasing(RecordKeys([]))
    ensures k < 256 ==>
      RecordsFrom(m, k) == (if k in m then [Record(k, m[k])] else []) + RecordsFrom(m, k + 1)
    ensures k < 256 && k !in m ==> RecordsFrom(m, k) == RecordsFrom(m, k + 1)
  {
  }

  lemma OneRecordMore(m: Options, k: byte, rest: seq<Record>)
    requires k in m && Increasing(RecordKeys(rest))
    requires forall x :: x in RecordKeys(rest) <==> x in m && x > k
    requires forall i :: 0 <= i < |rest| ==> rest[i].key in m && rest[i].value == m[rest[i].key]
    ensures var rs := [Record(k, m[k])] + rest;
      && Increasing(RecordKeys(rs))
      && (forall x :: x in RecordKeys(rs) <==> x in m && x >= k)
      && (forall i :: 0 <= i < |rs| ==> rs[i].key in m && rs[i].value == m[rs[i].key])
  {
    hide RecordKeys;
    var rs := [Record(k, m[k])] + rest;
    var keys, others := RecordKeys(rs), RecordKeys(rest);
    assert keys == [k] + others;
    assert forall j :: 0 <= j < |others| ==> others[j] in others;
    forall x ensures x in keys <==> x in m && x >= k {
      assert x in keys <==> x == k || x in others;
    }
  }

  lemma InsertedMembers(s: seq<byte>, k: byte, i: nat)
    requires i <= |s|
    ensures forall x :: x in s[..i] + [k] + s[i..] <==> x == k || x in s
  {
    forall x ensures x in s[..i] + [k] + s[i..] <==> x == k || x in s {
      assert s == s[..i] + s[i..];
      assert x in s <==> x in s[..i] || x in s[i..];
    }
  }

  lemma InsertedOrder(s: seq<byte>, k: byte, i: nat)
    requires Increasing(s) && i <= |s| && (forall j :: 0 <= j < i ==> s[j] < k) && (i < |s| ==> k < s[i])
    ensures Increasing(s[..i] + [k] + s[i..])
  {
    var r := s[..i] + [k] + s[i..];
    forall a, b | 0 <= a < b < |r| ensures r[a] < r[b] {
      assert r[a] == if a < i then s[a] else if a == i then k else s[a - 1];
      assert r[b] == if b < i then s[b] else if b == i then k else s[b - 1];
    }
  }

  /** Insertion of a new key into a sorted list. */
  method Insert(s: seq<byte>, k: byte) returns (r: seq<byte>)
    requires Increasing(s) && k !in s
    ensures Increasing(r) && (forall x :: x in r <==> x == k || x in s)
  {
    var i := 0;
    while i < |s| && s[i] < k
      invariant 0 <= i <= |s| && (forall j :: 0 <= j < i ==> s[j] < k)
    {
      i := i + 1;
    }
    r := s[..i] + [k] + s[i..];
    InsertedMembers(s, k, i);
    InsertedOrder(s, k, i);
  }

  /** The keys of a map, taken in any order and sorted: always the same list. */
  method SortedKeys(fields: Options) returns (keys: seq<byte>)
    ensures keys == RecordKeys(Records(fields))
  {
    keys := [];
    var rest := fields.Keys;
    while rest != {}
      invariant rest <= fields.Keys && Increasing(keys)
      invariant forall x :: x in keys <==> x in fields.Keys - rest
      decreases rest
    {
      var k :| k in rest;
      keys := Insert(keys, k);
      rest := rest - {k};
    }
    RecordsAreOrdered(fields, 0);
    IncreasingIsUnique(keys, RecordKeys(Records(fields)));
  }

  method WriteTable(w: TdsBuffer, fields: Options, keys: seq<byte>, ghost rs: seq<Record>) returns (ok: bool)
    requires w.Writing() && |keys| == |rs|
    requires forall i :: 0 <= i < |rs| ==> keys[i] == rs[i].key && keys[i] in fields && fields[keys[i]] == rs[i].value
    modifies w.buf, w.transport`sent, w.transport`failures, w`pos, w`emitted, w`written
    ensures ok <==> w.transport.failures == old(w.transport.failures)
    ensures ok ==> w.Writing() && w.written == old(w.written) + Table(rs, 5 * |rs| + 1)
    ensures !ok ==> w.Broken()
  {
    hide TdsBuffer.Writing, TdsBuffer.Broken, Table, Be16;
    var offset := (5 * |keys| + 1) % 0x1_0000;
    ghost var at: nat, goal := 5 * |rs| + 1, w.written + Table(rs, 5 * |rs| + 1);
    assert rs[0..] == rs;
    for i := 0 to |keys|
      invariant w.transport.failures == old(w.transport.failures)
      invariant w.Writing() && offset == at % 0x1_0000 && w.written + Table(rs[i..], at) == goal
    {
      ghost var sofar := w.written;
      var size := |fields[keys[i]]| % 0x1_0000;
      ok := w.WriteByte(keys[i]);
      if ok {
        ok := ParamStream.Put(w, Be16(offset));
      }
      if ok {
        ok := ParamStream.Put(w, Be16(size));
      }
      if !ok {
        return;
      }
      TableStep(rs, i, at, sofar);
      at := at + |rs[i].value|;
      offset := (offset + size) % 0x1_0000;
    }
    assert w.written + [] == w.written;
    ok := true;
  }

  lemma TableStep(rs: seq<Record>, i: nat, at: nat, sofar: seq<byte>)
    requires i < |rs|
    ensures var n := |rs[i].value|;
      sofar + Table(rs[i..], at) ==
      sofar + [rs[i].key] + Be16(at % 0x1_0000) + Be16(n % 0x1_0000) + Table(rs[i + 1..], at + n)
    ensures (at % 0x1_0000 + |rs[i].value| % 0x1_0000) % 0x1_0000 == (at + |rs[i].value|) % 0x1_0000
  {
    hide Table, Be16;
    var n := |rs[i].value|;
    var rest := Table(rs[i + 1..], at + n);
    TableFrom(rs, i, at);
    ModSum(at, n, 0x1_0000);
    assert sofar + (Entry(rs[i].key, at, n) + rest) ==
           sofar + [rs[i].key] + Be16(at % 0x1_0000) + Be16(n % 0x1_0000) + rest;
  }

  lemma TableFrom(rs: seq<Record>, i: nat, at: nat)
    requires i < |rs|
    ensures Table(rs[i..], at) == Entry(rs[i].key, at, |rs[i].value|) + Table(rs[i + 1..], at + |rs[i].value|)
  {
    assert rs[i..][1..] == rs[i + 1..];
  }

  lemma ModSum(a: nat, b: nat, m: nat)
    requires m > 0
    ensures (a % m + b % m) % m == (a + b) % m
  {
    var q := a / m + b / m;
    var s := a % m + b % m;
    assert (q + s / m) * m == q * m + s / m * m;
    ModOf(a + b, q + s / m, m, s % m);
  }

  method WriteValues(w: TdsBuffer, fields: Options, keys: seq<byte>, ghost rs: seq<Record>) returns (ok: bool)
    requires w.Writing() && |keys| == |rs|
    requires forall i :: 0 <= i < |rs| ==> keys[i] == rs[i].key && keys[i] in fields && fields[keys[i]] == rs[i].value
    modifies w.buf, w.transport`sent, w.transport`failures, w`pos, w`emitted, w`written
    ensures ok <==> w.transport.failures == old(w.transport.failures)
    ensures ok ==> w.Writing() && w.written == old(w.written) + Values(rs)
    ensures !ok ==> w.Broken()
  {
    hide TdsBuffer.Writing, TdsBuffer.Broken;
    ghost var goal := w.written + Values(rs);
    assert rs[0..] == rs;
    for i := 0 to |keys|
      invariant w.transport.failures == old(w.transport.failures)
      invariant w.Writing() && w.written + Values(rs[i..]) == goal
    {
      ghost var sofar := w.written;
      ok := ParamStream.Put(w, fields[keys[i]]);
      if !ok {
        return;
      }
      assert rs[i..][1..] == rs[i + 1..];
      assert sofar + (rs[i].value + Values(rs[i + 1..])) == w.written + Values(rs[i + 1..]);
    }
    assert w.written + [] == w.written;
    ok := true;
  }

  /** Sends the options; the bytes do not depend on the order in which a map is walked. */
  method WritePrelogin(w: TdsBuffer, fields: Options) returns (ok: bool)
    requires w.Shape()
    modifies w, w.buf, w.transport`sent, w.transport`failures
    ensures ok <==> w.transport.failures == old(w.transport.failures)
    ensures w.buf == old(w.buf)
    ensures var packets := Packetise(18, w.buf.Length - HEADER, 1, Payload(fields));
      ok ==> w.transport.sent == old(w.transport.sent) + Wire(packets)
  {
    hide TdsBuffer.Writing, TdsBuffer.Broken, TdsBuffer.Filling, Packetise, Wire, Table, Values, RecordsFrom;
    w.BeginPacket(PACK_PRELOGIN);
    var keys := SortedKeys(fields);
    ghost var rs := Records(fields);
    RecordsAreOrdered(fields, 0);
    ok := WriteTable(w, fields, keys, rs);
    if ok {
      ok := w.WriteByte(TERMINATOR);
    }
    if ok {
      ok := WriteValues(w, fields, keys, rs);
    }
    if ok {
      assert w.written == Payload(fields);
      ok := w.FinishPacket();
    }
  }

  datatype Outcome = Got(options: Options) | Rejected | Crashed

  function Expected(ptype: byte, payload: seq<byte>): Outcome {
    if ptype != 4 then Rejected
    else match ReadFrom(payload, 0, map[]) case None => Crashed case Some(m) => Got(m)
  }

  /** Reads a whole message, checks that it is a reply, and takes the options out of it. */
  method ReadPrelogin(r: TdsBuffer) returns (res: Outcome)
    requires r.Announced() && r.queue != [] && r.pending == Payloads(r.queue)
    modifies r, r.buf, r.transport`incoming
    ensures old(r.Whole()) ==>
      res == if old(r.Arriving()) then Expected(old(r.queue)[0].ptype, old(r.pending)) else Crashed
  {
    hide TdsBuffer.Whole, TdsBuffer.Arriving, TdsBuffer.Reading, TdsBuffer.Open, Payloads, ReadFrom;
    var t := r.BeginRead();
    if !t.Data? {
      return if t.Panicked? then Crashed else Rejected;
    }
    var payload := r.ReadAll();
    if !payload.Data? {
      return if payload.Panicked? then Crashed else Rejected;
    }
    if t.value != PACK_REPLY {
      return Rejected;
    }
    var options := ReadOptions(payload.value);
    res := match options case None => Crashed case Some(m) => Got(m);
  }
}
