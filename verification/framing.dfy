/** TDS packet framing: one buffer that splits messages into packets and reassembles them. */
module Framing {
  import opened Bytes

  const HEADER := 8
  const INCOMPLETE: byte := 0
  const COMPLETE: byte := 1

  type uint16 = x: int | 0 <= x < 0x1_0000

  /** A packet as section 2.2.3.1 of MS-TDS describes it; spid and window are always zero here. */
  datatype Packet = Packet(ptype: byte, status: byte, id: byte, payload: seq<byte>)

  /** The bytes of a packet; the length field is 16 bits wide. */
  function WirePacket(p: Packet): (r: seq<byte>)
    ensures |r| == HEADER + |p.payload|
  {
    [p.ptype, p.status] + Be16((HEADER + |p.payload|) % 0x1_0000) + [0, 0, p.id, 0] + p.payload
  }

  function Wire(ps: seq<Packet>): seq<byte> {
    if ps == [] then [] else WirePacket(ps[0]) + Wire(ps[1..])
  }

  function Payloads(ps: seq<Packet>): seq<byte> {
    if ps == [] then [] else ps[0].payload + Payloads(ps[1..])
  }

  /** The one way a message is cut into packets: every packet is full but the last. */
  function Packetise(t: byte, cap: nat, id: nat, msg: seq<byte>): seq<Packet>
    requires cap > 0
    decreases |msg|
  {
    if |msg| <= cap then [Packet(t, COMPLETE, id % 256, msg)]
    else [Packet(t, INCOMPLETE, id % 256, msg[..cap])] + Packetise(t, cap, id + 1, msg[cap..])
  }

  /** Full packets, numbered from `id`, none of which ends the message. */
  predicate Sealed(t: byte, cap: nat, id: nat, ps: seq<Packet>)
    decreases ps
  {
    ps == [] ||
    (ps[0] == Packet(t, INCOMPLETE, id % 256, ps[0].payload) && |ps[0].payload| == cap &&
     Sealed(t, cap, id + 1, ps[1..]))
  }

  lemma {:induction false} SealedSnoc(t: byte, cap: nat, id: nat, ps: seq<Packet>, p: Packet)
    requires Sealed(t, cap, id, ps)
    requires p == Packet(t, INCOMPLETE, (id + |ps|) % 256, p.payload) && |p.payload| == cap
    decreases ps
    ensures Sealed(t, cap, id, ps + [p])
  {
    if ps != [] {
      SealedSnoc(t, cap, id + 1, ps[1..], p);
      assert (ps + [p])[1..] == ps[1..] + [p];
    }
  }

  lemma {:induction false} PayloadsConcat(a: seq<Packet>, b: seq<Packet>)
    ensures Payloads(a + b) == Payloads(a) + Payloads(b)
  {
    if a == [] {
      assert a + b == b;
    } else {
      assert (a + b)[1..] == a[1..] + b;
      PayloadsConcat(a[1..], b);
    }
  }

  lemma {:induction false} WireConcat(a: seq<Packet>, b: seq<Packet>)
    ensures Wire(a + b) == Wire(a) + Wire(b)
  {
    if a == [] {
      assert a + b == b;
    } else {
      assert (a + b)[1..] == a[1..] + b;
      WireConcat(a[1..], b);
    }
  }

  /** Sealed packets followed by the unsent rest are the canonical packets of the whole message. */
  lemma {:induction false} SealedIsCanonical(t: byte, cap: nat, id: nat, ps: seq<Packet>, last: seq<byte>)
    requires cap > 0 && Sealed(t, cap, id, ps) && |last| <= cap
    requires ps != [] ==> last != []
    decreases ps
    ensures Packetise(t, cap, id, Payloads(ps) + last) ==
            ps + [Packet(t, COMPLETE, (id + |ps|) % 256, last)]
  {
    var msg := Payloads(ps) + last;
    if ps == [] {
      assert msg == last;
    } else {
      var rest := Payloads(ps[1..]) + last;
      assert msg == ps[0].payload + rest;
      assert msg[..cap] == ps[0].payload && msg[cap..] == rest;
      SealedIsCanonical(t, cap, id + 1, ps[1..], last);
      assert ps == [ps[0]] + ps[1..];
    }
  }

  /** The canonical packets are sealed packets and one last packet, together carrying the message. */
  lemma {:induction false} CanonicalShape(t: byte, cap: nat, id: nat, msg: seq<byte>)
    requires cap > 0
    decreases |msg|
    ensures var ps := Packetise(t, cap, id, msg);
      && ps != [] && Payloads(ps) == msg && Sealed(t, cap, id, ps[..|ps| - 1])
      && var last := ps[|ps| - 1];
      && last == Packet(t, COMPLETE, (id + |ps| - 1) % 256, last.payload)
      && |last.payload| <= cap && (msg != [] ==> last.payload != [])
  {
    hide *;
    FirstPacket(t, cap, id, msg);
    var ps := Packetise(t, cap, id, msg);
    PayloadsAndSeal(t, cap, id, ps);
    if |msg| > cap {
      var rest := Packetise(t, cap, id + 1, msg[cap..]);
      CanonicalShape(t, cap, id + 1, msg[cap..]);
      PayloadsAndSeal(t, cap, id, ps[..|ps| - 1]);
      assert ps[..|ps| - 1][1..] == rest[..|rest| - 1] && msg == msg[..cap] + msg[cap..];
    }
  }

  lemma PayloadsAndSeal(t: byte, cap: nat, id: nat, ps: seq<Packet>)
    requires ps != []
    ensures Payloads(ps) == ps[0].payload + Payloads(ps[1..])
    ensures |ps| == 1 ==> Payloads(ps) == ps[0].payload && Sealed(t, cap, id, ps[..0])
    ensures ps[0] == Packet(t, INCOMPLETE, id % 256, ps[0].payload) && |ps[0].payload| == cap ==>
      (Sealed(t, cap, id, ps) <==> Sealed(t, cap, id + 1, ps[1..]))
  {
  }

  /** The i-th canonical packet carries the i-th stretch of `cap` bytes; only the last one may be shorter. */
  lemma CanonicalAt(t: byte, cap: nat, id: nat, msg: seq<byte>, i: nat)
    requires cap > 0 && i < |Packetise(t, cap, id, msg)|
    ensures var ps, from := Packetise(t, cap, id, msg), i * cap;
      && from <= |msg|
      && (if i < |ps| - 1
          then from + cap < |msg| && ps[i] == Packet(t, INCOMPLETE, (id + i) % 256, msg[from..from + cap])
          else |msg| - from <= cap && ps[i] == Packet(t, COMPLETE, (id + i) % 256, msg[from..]))
  {
    AtOffset(t, cap, id, msg, i, i * cap, id + i);
  }

  lemma {:induction false} AtOffset(t: byte, cap: nat, id: nat, msg: seq<byte>, i: nat, from: nat, n: nat)
    requires cap > 0 && i < |Packetise(t, cap, id, msg)| && from == i * cap && n == id + i
    decreases i
    ensures var ps := Packetise(t, cap, id, msg);
      && from <= |msg|
      && (if i < |ps| - 1
          then from + cap < |msg| && ps[i] == Packet(t, INCOMPLETE, n % 256, msg[from..from + cap])
          else |msg| - from <= cap && ps[i] == Packet(t, COMPLETE, n % 256, msg[from..]))
  {
    hide Packetise;
    FirstPacket(t, cap, id, msg);
    if i > 0 {
      assert from - cap == (i - 1) * cap && from >= cap;
      AtOffset(t, cap, id + 1, msg[cap..], i - 1, from - cap, n);
      SliceOfRest(msg, cap, from - cap);
    }
  }

  lemma SliceOfRest(msg: seq<byte>, cap: nat, from: nat)
    requires cap <= |msg| && from <= |msg| - cap
    ensures msg[cap..][from..] == msg[from + cap..]
    ensures from + cap < |msg| - cap ==> msg[cap..][from..from + cap] == msg[from + cap..from + cap + cap]
  {
  }

  lemma FirstPacket(t: byte, cap: nat, id: nat, msg: seq<byte>)
    requires cap > 0
    ensures var ps := Packetise(t, cap, id, msg);
      && ps != []
      && (|msg| <= cap ==> ps == [Packet(t, COMPLETE, id % 256, msg)])
      && (|msg| > cap ==>
            && ps[0] == Packet(t, INCOMPLETE, id % 256, msg[..cap])
            && |ps| > 1 && ps[1..] == Packetise(t, cap, id + 1, msg[cap..]))
  {
  }

  /** What a reader with a buffer of `len` bytes expects: packets that fit, the last one marked. */
  predicate Readable(len: nat, ps: seq<Packet>) {
    ps == [] ||
    (HEADER + |ps[0].payload| <= len && (ps[0].status != INCOMPLETE <==> |ps| == 1) &&
     Readable(len, ps[1..]))
  }

  lemma FirstReadable(len: nat, ps: seq<Packet>)
    requires Readable(len, ps) && ps != []
    ensures Readable(len, ps[1..]) && HEADER + |ps[0].payload| <= len && (ps[0].status != INCOMPLETE <==> ps[1..] == [])
  {
  }

  predicate NoEmpty(ps: seq<Packet>) {
    ps == [] || (ps[0].payload != [] && NoEmpty(ps[1..]))
  }

  // Later in the same message: the packets still to come, and the size of the current one.
  predicate Onward(size: nat, queue: seq<Packet>, newSize: nat, newQueue: seq<Packet>) {
    |newQueue| <= |queue| && newQueue == queue[|queue| - |newQueue|..] &&
    newSize == if |newQueue| == |queue| then size else HEADER + |queue[|queue| - |newQueue| - 1].payload|
  }

  // In the same packet, or in the next one.
  predicate Moves(size: nat, queue: seq<Packet>, newSize: nat, newQueue: seq<Packet>) {
    (newQueue == queue && newSize == size) ||
    (queue != [] && newQueue == queue[1..] && newSize == HEADER + |queue[0].payload|)
  }

  lemma OnwardStep(size: nat, queue: seq<Packet>, newSize: nat, newQueue: seq<Packet>)
    requires Moves(size, queue, newSize, newQueue)
    ensures Onward(size, queue, newSize, newQueue)
  {
  }

  lemma MovesShrinks(size: nat, queue: seq<Packet>, newSize: nat, newQueue: seq<Packet>)
    requires Moves(size, queue, newSize, newQueue) && Shrinks(size, queue)
    ensures Shrinks(newSize, newQueue)
  {
  }

  lemma MovesNoEmpty(size: nat, queue: seq<Packet>, newSize: nat, newQueue: seq<Packet>)
    requires Moves(size, queue, newSize, newQueue) && NoEmpty(queue)
    ensures NoEmpty(newQueue)
  {
  }

  lemma OnwardOn(a: nat, p: seq<Packet>, b: nat, q: seq<Packet>, c: nat, r: seq<Packet>)
    requires Onward(a, p, b, q) && Onward(b, q, c, r)
    ensures Onward(a, p, c, r)
  {
    assert q[|q| - |r|..] == p[|p| - |r|..];
  }

  lemma OnwardEnds(a: nat, p: seq<Packet>, b: nat, q: seq<Packet>)
    requires Onward(a, p, b, q)
    ensures |q| <= |p| && (|q| == |p| ==> q == p && b == a)
    ensures |q| < |p| ==> Onward(HEADER + |p[0].payload|, p[1..], b, q)
  {
    if |q| < |p| {
      assert p[1..][|p[1..]| - |q|..] == q;
    }
  }

  lemma {:induction false} OnwardNoEmpty(a: nat, p: seq<Packet>, b: nat, q: seq<Packet>)
    requires Onward(a, p, b, q) && NoEmpty(p)
    ensures NoEmpty(q)
    decreases |p|
  {
    hide Onward;
    OnwardEnds(a, p, b, q);
    if |q| < |p| {
      OnwardNoEmpty(HEADER + |p[0].payload|, p[1..], b, q);
    }
  }

  /** No packet is larger than the one before it, the first no larger than `len`. */
  predicate Shrinks(len: nat, ps: seq<Packet>) {
    ps == [] || (HEADER + |ps[0].payload| <= len && Shrinks(HEADER + |ps[0].payload|, ps[1..]))
  }

  lemma {:induction false} ShrinksReadable(len: nat, ps: seq<Packet>, big: nat, n: nat)
    requires Shrinks(len, ps) && Readable(big, ps) && len <= n
    decreases ps
    ensures Readable(n, ps)
  {
    if ps != [] {
      ShrinksReadable(HEADER + |ps[0].payload|, ps[1..], big, n);
    }
  }

  /** Any reader whose buffer is at least as large as the writer's can take the canonical packets. */
  lemma {:induction false} CanonicalReadable(t: byte, cap: nat, id: nat, msg: seq<byte>, len: nat)
    requires 0 < cap && HEADER + cap <= len
    decreases |msg|
    ensures var ps := Packetise(t, cap, id, msg);
      && Readable(len, ps) && Shrinks(len, ps) && (msg != [] ==> NoEmpty(ps))
      && Payloads(ps) == msg && ps != [] && NoEmpty(ps[1..]) && ps[0].ptype == t && ps[0].payload <= msg
  {
    if |msg| > cap {
      CanonicalReadable(t, cap, id + 1, msg[cap..], len);
      CanonicalReadable(t, cap, id + 1, msg[cap..], HEADER + cap);
      assert Packetise(t, cap, id, msg)[1..] == Packetise(t, cap, id + 1, msg[cap..]);
    } else {
      assert Payloads(Packetise(t, cap, id, msg)) == msg + [];
    }
  }

  lemma LastOnWire(t: byte, cap: nat, ps: seq<Packet>, last: seq<byte>, before: seq<byte>)
    requires 0 < cap && Sealed(t, cap, 1, ps) && |last| <= cap
    requires ps != [] ==> last != []
    ensures before + Wire(Packetise(t, cap, 1, Payloads(ps) + last)) ==
            before + Wire(ps) + WirePacket(Packet(t, COMPLETE, (1 + |ps|) % 256, last))
  {
    var p := Packet(t, COMPLETE, (1 + |ps|) % 256, last);
    SealedIsCanonical(t, cap, 1, ps, last);
    WireConcat(ps, [p]);
    assert Wire([p]) == WirePacket(p);
  }

  lemma CutOnWire(t: byte, cap: nat, ps: seq<Packet>, full: seq<byte>, before: seq<byte>)
    requires Sealed(t, cap, 1, ps) && |full| == cap
    ensures var p := Packet(t, INCOMPLETE, (1 + |ps|) % 256, full);
      && before + Wire(ps + [p]) == before + Wire(ps) + WirePacket(p)
      && Payloads(ps + [p]) == Payloads(ps) + full && Sealed(t, cap, 1, ps + [p])
  {
    var p := Packet(t, INCOMPLETE, (1 + |ps|) % 256, full);
    WireConcat(ps, [p]);
    PayloadsConcat(ps, [p]);
    SealedSnoc(t, cap, 1, ps, p);
    assert Wire([p]) == WirePacket(p) && Payloads([p]) == p.payload;
  }

  lemma NextId(id: byte, n: nat)
    requires id == (1 + n) % 256
    ensures (if id == 255 then 0 else id + 1) == (1 + (n + 1)) % 256
  {
  }

  lemma BytesOnWire(b: seq<byte>, payload: seq<byte>)
    requires HEADER <= |b| < 0x1_0000 && b[HEADER..] == payload
    requires b[2] == |b| / 256 && b[3] == |b| % 256 && b[4] == 0 && b[5] == 0 && b[7] == 0
    ensures b == WirePacket(Packet(b[0], b[1], b[6], payload))
  {
    assert b[..HEADER] == [b[0], b[1]] + Be16(|b|) + [0, 0, b[6], 0];
    assert b == b[..HEADER] + payload;
  }

  /** What a reader sees of the next packet in a stream that may be cut short. */
  lemma NextOnWire(ps: seq<Packet>, after: seq<byte>, arriving: seq<byte>)
    requires ps != [] && HEADER + |ps[0].payload| < 0x1_0000 && arriving <= Wire(ps) + after
    ensures var n := HEADER + |ps[0].payload|;
      && (|arriving| >= HEADER ==>
            && arriving[0] == ps[0].ptype && arriving[1] == ps[0].status
            && FromBe16(arriving[2], arriving[3]) == n)
      && (|arriving| >= n ==>
            && arriving[HEADER..][..n - HEADER] == ps[0].payload
            && arriving[HEADER..][n - HEADER..] <= Wire(ps[1..]) + after)
      && (arriving == Wire(ps) + after ==>
            |arriving| >= n && arriving[HEADER..][n - HEADER..] == Wire(ps[1..]) + after)
  {
    var first, rest := WirePacket(ps[0]), Wire(ps[1..]) + after;
    Assoc(first, Wire(ps[1..]), after);
    assert first[HEADER..] == ps[0].payload && |first| == HEADER + |ps[0].payload|;
    assert FromBe16(first[2], first[3]) == |first|;
    assert Wire(ps) + after == first + rest;
    hide Wire, WirePacket;
    PrefixCut(arriving, first, rest);
    assert forall i :: 0 <= i < HEADER && i < |arriving| ==> arriving[i] == first[i];
    if |arriving| >= |first| {
      NextPiece(arriving, HEADER, |first| - HEADER);
      assert arriving[HEADER..][..|first| - HEADER] == arriving[..|first|][HEADER..];
    }
  }

  lemma MoreWritten(base: seq<byte>, p: seq<byte>, done: nat, n: nat)
    requires done + n <= |p|
    ensures base + p[..done] + p[done..][..n] == base + p[..done + n] && p[done..][n..] == p[done + n..]
  {
    NextPiece(p, done, n);
    Assoc(base, p[..done], p[done..][..n]);
  }

  lemma PrefixCut(arriving: seq<byte>, first: seq<byte>, rest: seq<byte>)
    requires arriving <= first + rest
    ensures forall i :: 0 <= i < |arriving| && i < |first| ==> arriving[i] == first[i]
    ensures |arriving| >= |first| ==> arriving[..|first|] == first && arriving[|first|..] <= rest
    ensures arriving == first + rest ==> arriving[|first|..] == rest
  {
    assert forall i :: 0 <= i < |arriving| ==> arriving[i] == (first + rest)[i];
  }

  /** The peer's end of the connection. Sends may fail part-way; what arrives may be cut short. */
  class Transport {
    var sent: seq<byte>
    var incoming: seq<byte>
    ghost var failures: nat  // how many sends have failed

    constructor (incoming: seq<byte>)
      ensures sent == [] && this.incoming == incoming && failures == 0
    {
      sent, this.incoming, failures := [], incoming, 0;
    }

    method Send(p: seq<byte>) returns (ok: bool)
      modifies this`sent, this`failures
      ensures failures == old(failures) + if ok then 0 else 1
      ensures ok ==> sent == old(sent) + p
      ensures old(sent) <= sent <= old(sent) + p
    {
      ok := *;
      if ok {
        sent := sent + p;
      } else {
        var k :| 0 <= k <= |p|;
        sent := sent + p[..k];
        failures := failures + 1;
      }
    }

    method Receive(n: nat) returns (ok: bool, data: seq<byte>)
      modifies this`incoming
      ensures ok == (n <= |old(incoming)|)
      ensures ok ==> data == old(incoming)[..n] && incoming == old(incoming)[n..]
      ensures !ok ==> data == old(incoming) && incoming == []
    {
      ok := n <= |incoming|;
      if ok {
        data, incoming := incoming[..n], incoming[n..];
      } else {
        data, incoming := incoming, [];
      }
    }
  }

  // Panicked: a slice or an index beyond the buffer.
  datatype ReadResult<+T> = Data(value: T) | Eof | Failed | Panicked

  class TdsBuffer {
    var buf: array<byte>
    var pos: uint16
    var size: uint16
    var final: bool
    var packetType: byte
    const transport: Transport

    // Writing: the bytes of the message so far, the packets cut off, and what was sent before it.
    ghost var written: seq<byte>
    ghost var emitted: seq<Packet>
    ghost var before: seq<byte>
    ghost var ptype: byte

    // Reading: the bytes still to be read, the packets still to come, and what follows them.
    ghost var pending: seq<byte>
    ghost var queue: seq<Packet>
    ghost var after: seq<byte>

    ghost predicate Shape()
      reads this`buf
    {
      HEADER < buf.Length < 0x1_0000
    }

    ghost function Cap(): (r: nat)
      reads this
      requires Shape()
      ensures r > 0
    {
      buf.Length - HEADER
    }

    // The bytes of the packet being filled.
    ghost function Filled(): (r: seq<byte>)
      reads this`buf, this`pos, buf
      requires HEADER <= pos <= buf.Length
      ensures |r| == pos - HEADER
    {
      buf[HEADER..pos]
    }

    // A packet is being filled; right after a flush it may be empty.
    ghost predicate Filling()
      reads this, buf, transport
    {
      && Shape() && HEADER <= pos <= buf.Length
      && buf[0] == ptype && buf[1] == INCOMPLETE && buf[4] == 0 && buf[5] == 0 && buf[7] == 0
      && buf[6] == (1 + |emitted|) % 256
      && Sealed(ptype, Cap(), 1, emitted)
      && written == Payloads(emitted) + Filled()
      && transport.sent == before + Wire(emitted)
    }

    ghost predicate Writing()
      reads this, buf, transport
    {
      Filling() && (emitted != [] ==> pos > HEADER)
    }

    // A send failed: only full packets of the message were cut, and the peer has a prefix of them.
    ghost predicate Broken()
      reads this, buf, transport
    {
      Shape() && Sealed(ptype, Cap(), 1, emitted) && Payloads(emitted) == written
      && transport.sent <= before + Wire(emitted)
    }

    constructor (bufsize: nat, transport: Transport)
      requires HEADER < bufsize < 0x1_0000
      ensures Shape() && fresh(buf) && buf.Length == bufsize && this.transport == transport
    {
      buf := new byte[bufsize];
      pos, size := HEADER, 0;
      this.transport := transport;
    }

    method BeginPacket(t: byte)
      requires Shape()
      modifies buf, this`pos, this`written, this`emitted, this`before, this`ptype
      ensures Writing() && ptype == t && written == [] && before == transport.sent
    {
      buf[0], buf[1], buf[4], buf[5], buf[6], buf[7] := t, INCOMPLETE, 0, 0, 1, 0;
      pos := HEADER;
      written, emitted, before, ptype := [], [], transport.sent, t;
    }

    /** Stores the length and sends what the buffer holds. */
    method SendBuffer() returns (ok: bool)
      requires Shape() && HEADER <= pos <= buf.Length && buf[4] == 0 && buf[5] == 0 && buf[7] == 0
      modifies buf, transport`sent, transport`failures
      ensures ok <==> transport.failures == old(transport.failures)
      ensures forall i :: 0 <= i < HEADER && i != 2 && i != 3 ==> buf[i] == old(buf[i])
      ensures Filled() == old(Filled())
      ensures var p := WirePacket(Packet(buf[0], buf[1], buf[6], Filled()));
        (ok ==> transport.sent == old(transport.sent) + p) && transport.sent <= old(transport.sent) + p
    {
      ghost var payload := Filled();
      buf[2], buf[3] := pos / 256, pos % 256;
      StretchIs(buf[..], HEADER, payload);
      BytesOnWire(buf[..pos], payload);
      hide WirePacket;
      ok := transport.Send(buf[..pos]);
    }

    /** Copies `data` behind the bytes of the packet. */
    method Append(data: seq<byte>)
      requires HEADER <= pos && pos + |data| <= buf.Length < 0x1_0000
      modifies buf, this`pos
      ensures pos == old(pos) + |data| <= buf.Length && Filled() == old(Filled()) + data
      ensures forall i :: 0 <= i < HEADER ==> buf[i] == old(buf[i])
    {
      ghost var payload := Filled();
      forall i | 0 <= i < |data| { buf[pos + i] := data[i]; }
      pos := pos + |data|;
      StretchIs(buf[..], HEADER, payload + data);
    }

    /** Sends a full packet and starts the next one. */
    method Flush() returns (ok: bool)
      requires Filling() && pos == buf.Length
      modifies buf, transport`sent, transport`failures, this`pos, this`emitted
      ensures ok <==> transport.failures == old(transport.failures)
      ensures ok ==> Filling() && pos == HEADER <= buf.Length && emitted != []
      ensures !ok ==> Broken()
    {
      hide Sealed, Payloads, Wire, WirePacket, TdsBuffer.Filled;
      ghost var full := Filled();
      CutOnWire(buf[0], Cap(), emitted, full, before);
      NextId(buf[6], |emitted|);
      ok := SendBuffer();
      emitted := emitted + [Packet(buf[0], INCOMPLETE, buf[6], full)];
      if !ok {
        return;
      }
      pos := HEADER;
      buf[6] := if buf[6] == 255 then 0 else buf[6] + 1;
      NothingFilled();
    }

    lemma NothingFilled()
      requires HEADER == pos <= buf.Length
      ensures Filled() == []
    {
    }

    /** Copies as much of `rest` as fits into the packet being filled. */
    method Fill(rest: seq<byte>) returns (copied: nat)
      requires Filling()
      modifies buf, this`pos, this`written
      ensures Filling()
      ensures copied == if |rest| < buf.Length - old(pos) then |rest| else buf.Length - old(pos)
      ensures pos == old(pos) + copied <= buf.Length && written == old(written) + rest[..copied]
    {
      hide Sealed, Payloads, Wire, TdsBuffer.Filled;
      copied := if |rest| < buf.Length - pos then |rest| else buf.Length - pos;
      Assoc(Payloads(emitted), Filled(), rest[..copied]);
      Append(rest[..copied]);
      written := written + rest[..copied];
    }

    lemma Begun()
      requires Writing()
      ensures Filling() && HEADER <= pos <= buf.Length && HEADER < buf.Length && (emitted != [] ==> pos > HEADER)
    {
    }

    lemma StillWriting()
      requires Filling() && (emitted != [] ==> pos > HEADER)
      ensures Writing()
    {
    }

    /** Appends `p` to the message, sending packets only when more bytes follow. */
    method Write(p: seq<byte>) returns (total: nat, ok: bool)
      requires Writing()
      modifies buf, transport`sent, transport`failures, this`pos, this`emitted, this`written
      ensures ok <==> transport.failures == old(transport.failures)
      ensures total <= |p| && written == old(written) + p[..total]
      ensures ok ==> total == |p| && Writing()
      ensures !ok ==> total < |p| && Broken()
    {
      hide *;
      Begun();
      total := 0;
      var rest := p;
      ghost var base := written;
      assert base + p[..0] == base;
      while true
        invariant transport.failures == old(transport.failures)
        invariant Filling() && HEADER <= pos <= buf.Length && HEADER < buf.Length
        invariant total <= |p| && rest == p[total..] && written == base + p[..total]
        invariant emitted != [] && pos == HEADER ==> rest != []
        decreases |rest|, pos
      {
        var copied := Fill(rest);
        MoreWritten(base, p, total, copied);
        total := total + copied;
        if copied == |rest| {
          StillWriting();
          return total, true;
        }
        ok := Flush();
        if !ok {
          return;
        }
        rest := rest[copied..];
      }
    }

    method WriteByte(b: byte) returns (ok: bool)
      requires Writing()
      modifies buf, transport`sent, transport`failures, this`pos, this`emitted, this`written
      ensures ok <==> transport.failures == old(transport.failures)
      ensures ok ==> Writing() && written == old(written) + [b]
      ensures !ok ==> written == old(written) && Broken()
    {
      hide Sealed, Payloads, Wire, TdsBuffer.Filled;
      if pos == buf.Length {
        ok := Flush();
        if !ok {
          return;
        }
      }
      Assoc(Payloads(emitted), Filled(), [b]);
      Append([b]);
      written := written + [b];
      ok := true;
    }

    /** Sends the last packet: the peer now has exactly the canonical packets of the message. */
    method FinishPacket() returns (ok: bool)
      requires Writing()
      modifies buf, transport`sent, transport`failures
      ensures ok <==> transport.failures == old(transport.failures)
      ensures ok ==> transport.sent == before + Wire(Packetise(ptype, Cap(), 1, written))
      ensures transport.sent <= before + Wire(Packetise(ptype, Cap(), 1, written))
    {
      hide Sealed, Payloads, Wire, WirePacket, Packetise;
      ghost var last := Filled();
      LastOnWire(buf[0], Cap(), emitted, last, before);
      buf[1] := COMPLETE;
      assert Filled() == last;
      ok := SendBuffer();
    }

    // ---------- reading ----------

    // No packet is larger than the 16-bit length field can say.
    ghost predicate Announced()
      reads this`queue, this`after, transport
    {
      Readable(0xffff, queue) && transport.incoming <= Wire(queue) + after
    }

    // The packets to come fit the buffer.
    ghost predicate Arriving()
      reads this, transport
    {
      Announced() && Readable(buf.Length, queue)
    }

    // A message is being read.
    ghost predicate Open()
      reads this, buf, transport
    {
      Announced() && HEADER <= pos <= size && (final <==> queue == []) && |pending| >= size - pos
      && pending[size - pos..] == Payloads(queue)
      && Held()
    }

    // As far as the current packet lies within the buffer, the buffer holds it.
    ghost predicate Held()
      reads this`buf, this`pos, this`size, this`pending, buf
      requires pos <= size && |pending| >= size - pos
    {
      Holds(buf[..], pos, size, pending)
    }

    // A new buffer with the same contents holds what it has room for.
    twostate lemma Copied()
      requires unchanged(this`pos, this`size, this`pending)
      requires pos <= size && |pending| >= size - pos && old(Held()) && (pos == size || size <= old(buf.Length))
      requires forall i :: 0 <= i < buf.Length && i < old(buf.Length) ==> buf[i] == old(buf[i])
      ensures Held()
    {
      CopyKeeps(old(buf[..]), buf[..], pos, size, pending);
    }

    // All that is left can be read: the rest of the current packet is in the buffer, and the others will fit.
    ghost predicate Reading()
      reads this, buf, transport
    {
      Open() && (pos == size || size <= buf.Length) && Readable(buf.Length, queue)
    }

    // Nothing was lost on the way.
    ghost predicate Whole()
      reads this`queue, this`after, transport
    {
      transport.incoming == Wire(queue) + after
    }

    /** Declares which packets the peer is sending. */
    ghost method Expect(ps: seq<Packet>, rest: seq<byte>)
      requires Readable(0xffff, ps) && transport.incoming <= Wire(ps) + rest
      modifies this`queue, this`after, this`pending
      ensures Announced() && queue == ps && after == rest && pending == Payloads(ps)
    {
      queue, after, pending := ps, rest, Payloads(ps);
    }

    /** Receives the payload that ends at `end`, or as much of it as arrives. */
    method Load(end: nat) returns (ok: bool)
      requires HEADER <= end <= buf.Length
      modifies buf, transport`incoming
      ensures ok <==> end - HEADER <= |old(transport.incoming)|
      ensures ok ==> transport.incoming == old(transport.incoming)[end - HEADER..]
      ensures ok ==> buf[HEADER..end] == old(transport.incoming)[..end - HEADER]
      ensures end == HEADER < buf.Length ==> buf[HEADER] == old(buf[HEADER])
    {
      var data;
      ok, data := transport.Receive(end - HEADER);
      forall i | 0 <= i < |data| { buf[HEADER + i] := data[i]; }
      StretchIs(buf[..], HEADER, data);
    }

    method ReadNextPacket() returns (r: ReadResult<()>)
      requires Announced() && queue != []
      modifies buf, transport`incoming, this`pos, this`size, this`final, this`packetType, this`queue
      ensures r.Data? ==> Announced() && (final <==> queue == []) && queue == old(queue)[1..]
      ensures r.Data? ==> HEADER == pos <= size <= buf.Length && buf[pos..size] == old(queue)[0].payload
      ensures r.Data? ==> size == HEADER + |old(queue)[0].payload|
      ensures r.Data? ==> packetType == old(queue)[0].ptype && (old(Whole()) ==> Whole())
      ensures r.Data? && old(queue)[0].payload == [] && HEADER < buf.Length ==> buf[HEADER] == old(buf[HEADER])
      ensures r.Panicked? ==> HEADER + |old(queue)[0].payload| > buf.Length
      ensures HEADER + |old(queue)[0].payload| > buf.Length ==> r.Panicked? || r.Failed?
      ensures r.Failed? ==> !old(Whole())
      ensures !r.Eof?
    {
      hide Readable, Wire, Payloads, FromBe16;
      ghost var arriving, others := transport.incoming, queue[1..];
      FirstReadable(0xffff, queue);
      NextOnWire(queue, after, arriving);
      var got, header := transport.Receive(HEADER);
      if !got {
        return Failed;
      }
      var length := FromBe16(header[2], header[3]);
      if length > buf.Length {
        return Panicked;
      }
      var more := Load(length);
      if !more {
        return Failed;
      }
      pos, size := HEADER, length;
      final := header[1] != INCOMPLETE;
      packetType := header[0];
      queue := others;
      r := Data(());
    }

    method BeginRead() returns (r: ReadResult<byte>)
      requires Announced() && queue != [] && pending == Payloads(queue)
      modifies buf, transport`incoming, this`pos, this`size, this`final, this`packetType, this`queue
      ensures r.Data? ==> Open() && r.value == old(queue)[0].ptype && queue == old(queue)[1..]
      ensures r.Data? ==> HEADER == pos && size == HEADER + |old(queue)[0].payload| && (old(Whole()) ==> Whole())
      ensures r.Data? ==> (Reading() <==> old(Arriving()))
      ensures r.Panicked? ==> !old(Arriving())
      ensures r.Failed? ==> !old(Whole())
      ensures !r.Eof?
    {
      var next := ReadNextPacket();
      match next {
        case Data(_) => r := Data(packetType);
        case Panicked => r := Panicked;
        case _ => r := Failed;
      }
    }

    // There is a byte where ReadByte will look for one.
    ghost predicate NextHasBytes()
      reads this`pos, this`size, this`queue
    {
      pos < size || (queue != [] && queue[0].payload != [])
    }

    // The next packet will not fit.
    ghost predicate NextTooLarge()
      reads this
    {
      pos == size && queue != [] && HEADER + |queue[0].payload| > buf.Length
    }

    // The byte of an empty packet was read: the cursor has passed the end of the packet. It does not come back, as it
    // would by wrapping in a buffer of 65536 bytes or more.
    ghost predicate Behind()
      reads this`pos, this`size, this`buf
    {
      size < pos <= buf.Length < 0x1_0000
    }

    // The byte that ReadByte will look for lies beyond the buffer.
    ghost predicate Beyond()
      reads this
    {
      || buf.Length <= pos < size
      || NextTooLarge()
      || (pos == size && queue != [] && queue[0].payload == [] && buf.Length == HEADER)
      || size < pos == buf.Length
    }

    /** Moves on to the next packet when this one is used up. */
    method Advance() returns (r: ReadResult<()>)
      requires Open() || Behind()
      modifies buf, transport`incoming, this`pos, this`size, this`final, this`packetType, this`queue
      ensures r.Eof? <==> old(pos == size && final)
      ensures r.Eof? ==> pending == [] && old(Reading()) && Reading() && unchanged(this, buf, transport)
      ensures r.Failed? ==> !old(Whole())
      ensures old(pos != size) ==> r.Data? && unchanged(this) && unchanged(buf)
      ensures r.Data? && old(Open()) ==> HEADER <= pos <= size
      ensures r.Panicked? ==> old(NextTooLarge())
      ensures old(NextTooLarge()) ==> r.Panicked? || r.Failed?
      ensures r.Data? && old(Open()) ==>
        Open() && (Reading() <==> old(Reading())) && (pos < size <==> old(NextHasBytes()))
      ensures r.Data? && old(pos == size) ==> size <= buf.Length && old(queue) != [] && queue == old(queue)[1..]
      ensures r.Data? ==> Moves(old(size), old(queue), size, queue) && |queue| <= |old(queue)|
      ensures r.Data? && pos == size ==> pos == HEADER <= buf.Length && |queue| < |old(queue)| && old(queue)[0].payload == []
      ensures r.Data? && pos == size && HEADER < buf.Length ==> buf[HEADER] == old(buf[HEADER])
      ensures r.Data? && old(Whole()) ==> Whole()
    {
      hide Wire, FromBe16;
      r := Data(());
      if pos == size {
        if final {
          return Eof;
        }
        r := ReadNextPacket();
      }
    }

    /** Takes `k` bytes out of the current packet. */
    method Consume(k: nat) returns (data: seq<byte>)
      requires Open() && pos + k <= size && pos + k <= buf.Length
      modifies this`pos, this`pending
      ensures Open() && (Reading() <==> old(Reading())) && (Whole() <==> old(Whole()))
      ensures pos == old(pos) + k && |data| == k && old(pending) == data + pending
    {
      hide Readable, Wire, Payloads, Holds, TdsBuffer.Whole, TdsBuffer.Announced;
      HeldRest(buf[..], pos, size, pending, k);
      data := buf[pos..pos + k];
      assert data == buf[..][pos..pos + k];
      pos := pos + k;
      pending := pending[k..];
    }

    lemma Bounds()
      requires Open()
      ensures HEADER <= pos <= size && (final ==> queue == [])
      ensures !NextHasBytes() ==> pos == size
    {
    }

    lemma Where()
      ensures Open() ==> HEADER <= pos <= size && (final ==> queue == [])
      ensures Open() && NextHasBytes() && Beyond() ==> !Reading()
      ensures Behind() <==> size < pos <= buf.Length < 0x1_0000
      ensures NextHasBytes() <==> pos < size || (queue != [] && queue[0].payload != [])
      ensures NextTooLarge() <==> pos == size && queue != [] && HEADER + |queue[0].payload| > buf.Length
      ensures Beyond() <==>
        || buf.Length <= pos < size
        || NextTooLarge()
        || (pos == size && queue != [] && queue[0].payload == [] && buf.Length == HEADER)
        || size < pos == buf.Length
    {
    }

    // The byte at the cursor, which lies behind the packet when that is empty.
    method TakeByte() returns (r: ReadResult<byte>)
      requires (Open() && (pos == size ==> pos == HEADER)) || Behind()
      modifies this`pos, this`pending
      ensures if old(pos) < buf.Length then r.Data? else r.Panicked?
      ensures r.Data? && old(pos >= size) ==> r.value == buf[old(pos)] && (buf.Length < 0x1_0000 ==> Behind())
      ensures r.Data? ==> pos == old(pos) + 1 && (Whole() <==> old(Whole()))
      ensures r.Data? && old(pos < size) ==>
        Open() && (Reading() <==> old(Reading())) && old(pending) == [r.value] + pending
    {
      hide TdsBuffer.Reading, TdsBuffer.Whole, Payloads, Readable, Wire, Holds;
      if pos >= buf.Length {
        return Panicked;
      }
      if pos < size {
        var b := Consume(1);
        r := Data(b[0]);
      } else {
        r := Data(buf[pos]);
        pos := pos + 1;
      }
    }

    /**
     * The next byte of the message; when the next packet is empty, a stale byte of the buffer instead, and from then on
     * the bytes after it; when the byte lies beyond the buffer, a panic.
     */
    method ReadByte() returns (r: ReadResult<byte>)
      requires Open() || Behind()
      modifies buf, transport`incoming, this`pos, this`size, this`final, this`packetType, this`queue, this`pending
      ensures r.Eof? <==> old(pos == size && final)
      ensures r.Eof? ==> old(pending) == [] && old(Reading()) && Reading() && unchanged(this, buf, transport)
      ensures r.Failed? ==> !old(Whole()) && old(pos == size)
      ensures r.Panicked? ==> old(Beyond())
      ensures old(Beyond()) ==> r.Panicked? || r.Failed?
      ensures r.Data? && old(Open() && NextHasBytes()) ==>
        Open() && (Reading() <==> old(Reading())) && old(pending) == [r.value] + pending
      ensures r.Data? ==> Moves(old(size), old(queue), size, queue) && |queue| <= |old(queue)|
      ensures r.Data? && old(pos != size) ==> pos == old(pos) + 1 && size == old(size) && queue == old(queue)
      ensures old(pos != size) ==> unchanged(buf)
      ensures r.Data? && old(pos == size && !NextHasBytes()) ==>
        HEADER < buf.Length && r.value == old(buf[HEADER]) && pos > size && (buf.Length < 0x1_0000 ==> Behind())
      ensures r.Data? && old(pos > size) ==> r.value == old(buf[pos]) && Behind()
      ensures r.Data? && old(Whole()) ==> Whole()
    {
      hide *;
      Where();
      var more := Advance();
      match more {
        case Eof => r := Eof;
        case Failed => r := Failed;
        case Panicked => r := Panicked;
        case Data(_) => r := TakeByte();
      }
    }

    /** A byte of the message, or none: at its end, and where not all of it arrived or can be read. */
    method Byte() returns (b: byte, ok: bool)
      requires Open() && (NextHasBytes() || (pos == size && final))
      modifies buf, transport`incoming, this`pos, this`size, this`final, this`packetType, this`queue, this`pending
      ensures ok ==> Open() && (Reading() <==> old(Reading())) && old(pending) == [b] + pending
      ensures ok ==> Moves(old(size), old(queue), size, queue)
      ensures !ok ==> old(pending) == [] || !old(Whole()) || !old(Reading())
      ensures ok && old(Whole()) ==> Whole()
    {
      hide *;
      Where();
      var r := ReadByte();
      b, ok := 0, r.Data?;
      if r.Data? {
        b := r.value;
      }
    }

    /** Up to `n` bytes of the message, never across a packet boundary; a panic when the packet exceeds the buffer. */
    method Read(n: nat) returns (r: ReadResult<seq<byte>>)
      requires Open()
      modifies buf, transport`incoming, this`pos, this`size, this`final, this`packetType, this`queue, this`pending
      ensures r.Eof? <==> old(pos == size && final)
      ensures r.Eof? ==> old(pending) == [] && old(Reading()) && Reading() && unchanged(this, buf, transport)
      ensures r.Failed? ==> !old(Whole())
      ensures r.Panicked? ==> old(NextTooLarge()) || old(pos < size && size > buf.Length)
      ensures old(pos < size && size > buf.Length) ==> r.Panicked?
      ensures old(NextTooLarge()) ==> r.Panicked? || r.Failed?
      ensures r.Data? ==> Open() && (Reading() <==> old(Reading())) && |r.value| <= n
      ensures r.Data? && n > 0 && r.value == [] ==> !old(NextHasBytes()) && |queue| < |old(queue)|
      ensures r.Data? ==> Moves(old(size), old(queue), size, queue) && |queue| <= |old(queue)| && size <= buf.Length
      ensures r.Data? && old(Whole()) ==> Whole()
      ensures r.Data? ==> old(pending) == r.value + pending
    {
      hide *;
      Bounds();
      var more := Advance();
      match more {
        case Eof => r := Eof;
        case Failed => r := Failed;
        case Panicked => r := Panicked;
        case Data(_) =>
          if size > buf.Length {
            return Panicked;
          }
          var data := Consume(if n < size - pos then n else size - pos);
          r := Data(data);
      }
    }

    // Not even one more byte of the current packet or the next can be taken by Read.
    ghost predicate Stuck()
      reads this
    {
      NextTooLarge() || (pos < size && size > buf.Length)
    }

    /**
     * Exactly `n` bytes, as many packets as that takes; fails at the end of the message, with all that was left of it,
     * and at a packet that exceeds the buffer.
     */
    method ReadFull(n: nat) returns (data: seq<byte>, ok: bool)
      requires Open()
      modifies buf, transport`incoming, this`pos, this`size, this`final, this`packetType, this`queue, this`pending
      ensures ok ==> Open() && (Reading() <==> old(Reading())) && |data| == n && old(pending) == data + pending
      ensures ok ==> Onward(old(size), old(queue), size, queue)
      ensures !ok ==> |old(pending)| < n || !old(Whole()) || !old(Reading())
      ensures !ok && old(Whole()) && old(Reading()) ==> data == old(pending)
      ensures old(Stuck()) && n > 0 ==> !ok
      ensures ok && (n > 0 || old(size <= buf.Length)) ==> size <= buf.Length
      ensures ok && old(Whole()) ==> Whole()
    {
      hide *;
      data := [];
      StuckIs();
      while |data| < n
        invariant Open() && |data| <= n && old(pending) == data + pending
        invariant (Reading() <==> old(Reading())) && (old(Whole()) ==> Whole())
        invariant Onward(old(size), old(queue), size, queue)
        invariant old(Stuck()) ==> data == [] && Stuck()
        invariant |data| > 0 || old(size <= buf.Length) ==> size <= buf.Length
        decreases |queue|, n - |data|
      {
        StuckIs();
        ghost var a, p := size, queue;
        var r := Read(n - |data|);
        if !r.Data? {
          return data, false;
        }
        Assoc(data, r.value, pending);
        OnwardStep(a, p, size, queue);
        OnwardOn(old(size), old(queue), a, p, size, queue);
        data := data + r.value;
      }
      ok := true;
    }

    lemma CannotPanic()
      requires Reading()
      ensures Open() && !NextTooLarge() && !(pos < size && size > buf.Length)
    {
    }

    lemma StuckIs()
      ensures Stuck() <==> NextTooLarge() || (pos < size && size > buf.Length)
      ensures Reading() ==> Open() && !Stuck()
      ensures Onward(size, queue, size, queue)
    {
    }

    /** All that is left of the message, if the buffer can take it; a panic if not. */
    method ReadAll() returns (r: ReadResult<seq<byte>>)
      requires Open()
      modifies buf, transport`incoming, this`pos, this`size, this`final, this`packetType, this`queue, this`pending
      ensures r.Data? ==> old(Reading()) && Reading() && r.value == old(pending) && pending == []
      ensures r.Panicked? ==> !old(Reading())
      ensures r.Failed? ==> !old(Whole())
      ensures !r.Eof?
    {
      hide *;
      var data := [];
      while true
        invariant Open() && old(pending) == data + pending && (old(Whole()) ==> Whole())
        invariant Reading() <==> old(Reading())
        decreases |queue|, |pending|
      {
        if Reading() {
          CannotPanic();
        }
        ghost var rest := pending;
        var next := Read(512);
        match next {
          case Eof =>
            assert data + rest == data;
            return Data(data);
          case Failed => return Failed;
          case Panicked => return Panicked;
          case Data(p) =>
            Assoc(data, p, pending);
            data := data + p;
        }
      }
    }

    /** A packet-size ENVCHANGE: a new buffer of any size with the old contents. */
    method Resize(n: nat)
      modifies this`buf
      ensures buf.Length == n && (buf == old(buf) || fresh(buf))
      ensures forall i :: 0 <= i < n ==> buf[i] == if i < old(buf.Length) then old(buf[i]) else 0
      ensures old(Open() && (pos == size || size <= buf.Length)) ==>
        Open() && (Reading() <==> (pos == size || size <= n) && Readable(n, queue))
    {
      hide Readable, Wire, Payloads, TdsBuffer.Held;
      if buf.Length != n {
        buf := CopyOf(buf, n);
        if old(Open() && (pos == size || size <= buf.Length)) {
          Copied();
        }
      }
    }
  }

  method CopyOf(a: array<byte>, n: nat) returns (b: array<byte>)
    ensures fresh(b) && b.Length == n
    ensures forall i :: 0 <= i < n ==> b[i] == if i < a.Length then a[i] else 0
  {
    b := new byte[n](_ => 0);
    forall i | 0 <= i < n && i < a.Length { b[i] := a[i]; }
  }

  // The current packet, as far as it lies within the buffer.
  predicate Holds(a: seq<byte>, pos: nat, size: nat, pending: seq<byte>)
    requires pos <= size && |pending| >= size - pos
  {
    var end := if size < |a| then size else |a|;
    pos <= end ==> a[pos..end] == pending[..end - pos]
  }

  lemma HeldRest(a: seq<byte>, pos: nat, size: nat, pending: seq<byte>, k: nat)
    requires pos + k <= size && pos + k <= |a| && |pending| >= size - pos && Holds(a, pos, size, pending)
    ensures Holds(a, pos + k, size, pending[k..]) && pending == a[pos..pos + k] + pending[k..]
    ensures pending[k..][size - pos - k..] == pending[size - pos..]
  {
    var end := if size < |a| then size else |a|;
    var held := pending[..end - pos];
    assert a[pos..end][..k] == a[pos..pos + k] && a[pos..end][k..] == a[pos + k..end];
    assert held[..k] == pending[..k] && held[k..] == pending[k..][..end - pos - k];
  }

  lemma CopyKeeps(a: seq<byte>, b: seq<byte>, pos: nat, size: nat, pending: seq<byte>)
    requires pos <= size && |pending| >= size - pos && (pos == size || size <= |a|)
    requires Holds(a, pos, size, pending) && forall i :: 0 <= i < |a| && i < |b| ==> b[i] == a[i]
    ensures Holds(b, pos, size, pending)
  {
    var end := if size < |b| then size else |b|;
    if pos < end {
      var part := a[pos..size][..end - pos];
      assert forall i :: 0 <= i < |part| ==> b[pos + i] == part[i];
      StretchIs(b, pos, part);
      assert pending[..size - pos][..end - pos] == pending[..end - pos];
    }
  }

  datatype WriteOp = Bytes(p: seq<byte>) | One(b: byte)

  function OpBytes(op: WriteOp): seq<byte> {
    match op case Bytes(p) => p case One(b) => [b]
  }

  function Message(ops: seq<WriteOp>): seq<byte> {
    if ops == [] then [] else OpBytes(ops[0]) + Message(ops[1..])
  }

  method ApplyWrite(w: TdsBuffer, op: WriteOp) returns (ok: bool)
    requires w.Writing()
    modifies w.buf, w.transport`sent, w.transport`failures, w`pos, w`emitted, w`written
    ensures ok <==> w.transport.failures == old(w.transport.failures)
    ensures ok ==> w.Writing() && w.written == old(w.written) + OpBytes(op)
    ensures !ok ==> w.Broken()
  {
    match op {
      case Bytes(p) =>
        var total;
        total, ok := w.Write(p);
        assert p[..|p|] == p;
      case One(b) =>
        ok := w.WriteByte(b);
    }
  }

  /** Writes one whole message; how it is cut into calls does not show in the packets. */
  method WriteMessage(w: TdsBuffer, t: byte, ops: seq<WriteOp>) returns (ok: bool)
    requires w.Shape()
    modifies w.buf, w.transport`sent, w.transport`failures, w`pos, w`written, w`emitted, w`before, w`ptype
    ensures ok <==> w.transport.failures == old(w.transport.failures)
    ensures var packets := Packetise(t, w.buf.Length - HEADER, 1, Message(ops));
      ok ==> w.transport.sent == old(w.transport.sent) + Wire(packets)
  {
    hide Packetise, Wire, Payloads, Sealed, Message, TdsBuffer.Writing, TdsBuffer.Broken;
    w.BeginPacket(t);
    ok := WriteAll(w, ops);
    if ok {
      assert w.written == Message(ops);
      ok := w.FinishPacket();
    }
  }

  method WriteAll(w: TdsBuffer, ops: seq<WriteOp>) returns (ok: bool)
    requires w.Writing()
    modifies w.buf, w.transport`sent, w.transport`failures, w`pos, w`emitted, w`written
    ensures ok <==> w.transport.failures == old(w.transport.failures)
    ensures ok ==> w.Writing() && w.written == old(w.written) + Message(ops)
    ensures !ok ==> w.Broken()
  {
    for i := 0 to |ops|
      invariant w.transport.failures == old(w.transport.failures)
      invariant w.Writing()
      invariant w.written + Message(ops[i..]) == old(w.written) + Message(ops)
    {
      ghost var sofar, rest := w.written, Message(ops[i + 1..]);
      ok := ApplyWrite(w, ops[i]);
      if !ok {
        return;
      }
      assert ops[i..][1..] == ops[i + 1..];
      Assoc(sofar, OpBytes(ops[i]), rest);
    }
    assert w.written == w.written + Message(ops[|ops|..]);
    ok := true;
  }

  datatype ReadOp = ByteOp | ReadOp(n: nat) | ResizeOp(extra: nat)

  predicate Asks(op: ReadOp) { op.ByteOp? || (op.ReadOp? && op.n > 0) }

  function Asking(ops: seq<ReadOp>): nat {
    if ops == [] then 0 else (if Asks(ops[0]) then 1 else 0) + Asking(ops[1..])
  }

  // A canonical message is being read.
  ghost predicate Following(r: TdsBuffer)
    reads r, r.buf, r.transport
  {
    r.Open() && NoEmpty(r.queue) && Shrinks(r.size, r.queue)
  }

  // A new buffer that is at least as large as the current packet.
  method GrowBuffer(r: TdsBuffer, extra: nat)
    requires Following(r) && r.Reading()
    modifies r`buf
    ensures r.buf == old(r.buf) || fresh(r.buf)
    ensures Following(r) && r.Reading() && (old(r.Whole()) ==> r.Whole())
  {
    hide Readable, NoEmpty, Shrinks, Wire, Payloads, TdsBuffer.Held;
    ShrinksReadable(r.size, r.queue, 0xffff, r.size + extra);
    r.Resize(r.size + extra);
  }

  lemma Follows(r: TdsBuffer)
    ensures Following(r) <==> r.Open() && NoEmpty(r.queue) && Shrinks(r.size, r.queue)
  {
  }

  lemma Ready(r: TdsBuffer)
    requires Following(r)
    ensures r.Open() && NoEmpty(r.queue) && Shrinks(r.size, r.queue) && (r.Reading() ==> !r.Beyond())
    ensures r.NextHasBytes() || (r.pos == r.size && r.final)
    ensures r.queue != [] ==> NoEmpty(r.queue[1..])
    ensures r.Reading() ==> !r.NextTooLarge() && (r.pos == r.size || r.size <= r.buf.Length)
    ensures r.pos == r.size && r.final ==> r.Reading()
  {
  }

  method OneByte(r: TdsBuffer) returns (res: ReadResult<seq<byte>>)
    requires Following(r)
    modifies r.buf, r.transport`incoming, r`pos, r`size, r`final, r`packetType, r`queue, r`pending
    ensures res.Data? ==> Following(r) && (r.Reading() <==> old(r.Reading())) && old(r.pending) == res.value + r.pending
    ensures res.Data? ==> res.value != []
    ensures res.Eof? ==> old(r.Reading()) && old(r.pending) == []
    ensures res.Panicked? ==> !old(r.Reading())
    ensures res.Failed? ==> !old(r.Whole())
    ensures res.Data? && old(r.Whole()) ==> r.Whole()
  {
    hide *;
    Ready(r);
    ghost var size, queue := r.size, r.queue;
    var b := r.ReadByte();
    if b.Data? {
      MovesNoEmpty(size, queue, r.size, r.queue);
      MovesShrinks(size, queue, r.size, r.queue);
    }
    Follows(r);
    match b {
      case Data(v) => res := Data([v]);
      case Eof => res := Eof;
      case Failed => res := Failed;
      case Panicked => res := Panicked;
    }
  }

  method OneRead(r: TdsBuffer, n: nat) returns (res: ReadResult<seq<byte>>)
    requires Following(r)
    modifies r.buf, r.transport`incoming, r`pos, r`size, r`final, r`packetType, r`queue, r`pending
    ensures res.Data? ==> Following(r) && (r.Reading() <==> old(r.Reading())) && old(r.pending) == res.value + r.pending
    ensures res.Data? && n > 0 ==> res.value != []
    ensures res.Eof? ==> old(r.Reading()) && old(r.pending) == []
    ensures res.Panicked? ==> !old(r.Reading())
    ensures res.Failed? ==> !old(r.Whole())
    ensures res.Data? && old(r.Whole()) ==> r.Whole()
  {
    hide *;
    Ready(r);
    ghost var size, queue := r.size, r.queue;
    res := r.Read(n);
    if res.Data? {
      MovesNoEmpty(size, queue, r.size, r.queue);
      MovesShrinks(size, queue, r.size, r.queue);
    }
    Follows(r);
  }

  lemma Askers(op: ReadOp)
    ensures Asks(op) <==> op.ByteOp? || (op.ReadOp? && op.n > 0)
  {
  }

  method ApplyRead(r: TdsBuffer, op: ReadOp) returns (res: ReadResult<seq<byte>>)
    requires Following(r) && (op.ResizeOp? ==> r.Reading())
    modifies r, r.buf, r.transport`incoming
    ensures r.buf == old(r.buf) || fresh(r.buf)
    ensures res.Data? ==> Following(r) && (r.Reading() <==> old(r.Reading())) && old(r.pending) == res.value + r.pending
    ensures res.Data? && Asks(op) ==> res.value != []
    ensures res.Eof? ==> old(r.Reading()) && old(r.pending) == []
    ensures res.Panicked? ==> !old(r.Reading())
    ensures res.Failed? ==> !old(r.Whole())
    ensures res.Data? && old(r.Whole()) ==> r.Whole()
  {
    hide *;
    Askers(op);
    match op {
      case ByteOp => res := OneByte(r);
      case ReadOp(n) => res := OneRead(r, n);
      case ResizeOp(extra) =>
        GrowBuffer(r, extra);
        res := Data([]);
    }
  }

  /**
   * Reads a message by any mix of calls, the buffer being replaced on the way by others at least as large as the
   * current packet. What is read is always a prefix of the message; its end is reported only there, and only when all
   * of it can be read; enough calls reach it, or a panic exactly when not all of it can be read.
   */
  method ReadMessage(r: TdsBuffer, ops: seq<ReadOp>)
    returns (got: seq<byte>, eof: bool, failed: bool, panicked: bool)
    requires Following(r) && (r.Reading() || forall op :: op in ops ==> !op.ResizeOp?)
    modifies r, r.buf, r.transport`incoming
    ensures got <= old(r.pending)
    ensures eof ==> got == old(r.pending) && old(r.Reading())
    ensures panicked ==> !old(r.Reading())
    ensures failed ==> !old(r.Whole())
    ensures Asking(ops) > |old(r.pending)| ==> eof || failed || panicked
  {
    hide TdsBuffer.Reading, TdsBuffer.Whole, TdsBuffer.Open, Shrinks, NoEmpty;
    got, eof, failed, panicked := [], false, false, false;
    for i := 0 to |ops|
      invariant r.buf == old(r.buf) || fresh(r.buf)
      invariant Following(r) && got + r.pending == old(r.pending) && (old(r.Whole()) ==> r.Whole())
      invariant r.Reading() <==> old(r.Reading())
      invariant |got| + Asking(ops[i..]) >= Asking(ops)
    {
      assert ops[i..][1..] == ops[i + 1..];
      var res := ApplyRead(r, ops[i]);
      if !res.Data? {
        return got, res.Eof?, res.Failed?, res.Panicked?;
      }
      Assoc(got, res.value, r.pending);
      got := got + res.value;
    }
  }

  lemma Expected(r: TdsBuffer)
    requires r.Announced() && Readable(r.buf.Length, r.queue) && r.transport.incoming == Wire(r.queue) + r.after
    ensures r.Arriving() && r.Whole()
  {
  }

  lemma NowFollowing(r: TdsBuffer, ps: seq<Packet>, len: nat)
    requires r.Open() && ps != [] && r.queue == ps[1..] && r.size == HEADER + |ps[0].payload|
    requires NoEmpty(ps[1..]) && Shrinks(len, ps)
    ensures Following(r)
  {
  }

  /** Reads back what WriteMessage sent, any way. */
  method ReadBack(wire: seq<byte>, rlen: nat, calls: seq<ReadOp>, ghost t: byte, ghost cap: nat, ghost msg: seq<byte>)
    returns (got: seq<byte>, eof: bool)
    requires 0 < cap && HEADER + cap <= rlen < 0x1_0000 && wire == Wire(Packetise(t, cap, 1, msg))
    ensures got <= msg && (eof ==> got == msg)
    ensures Asking(calls) > |msg| ==> eof
  {
    hide *;
    ghost var ps := Packetise(t, cap, 1, msg);
    CanonicalReadable(t, cap, 1, msg, rlen);
    CanonicalReadable(t, cap, 1, msg, 0xffff);
    var peer := new Transport(wire);
    var r := new TdsBuffer(rlen, peer);
    assert peer.incoming == Wire(ps) + [];
    r.Expect(ps, []);
    Expected(r);
    var begun := r.BeginRead();
    NowFollowing(r, ps, rlen);
    var failed, panicked;
    got, eof, failed, panicked := ReadMessage(r, calls);
  }

  /**
   * Framing round trip: any way of writing a message, any way of reading it. The message is sent exactly when no send
   * fails.
   */
  method RoundTrip(out: Transport, t: byte, wlen: nat, writes: seq<WriteOp>, rlen: nat, calls: seq<ReadOp>)
    returns (sent: bool, got: seq<byte>, eof: bool)
    requires HEADER < wlen <= rlen < 0x1_0000
    modifies out
    ensures sent <==> out.failures == old(out.failures)
    ensures sent ==> got <= Message(writes) && (eof ==> got == Message(writes))
    ensures sent && Asking(calls) > |Message(writes)| ==> eof
  {
    hide Packetise, Wire, Message, Asking;
    var before := |out.sent|;
    var w := new TdsBuffer(wlen, out);
    sent := WriteMessage(w, t, writes);
    got, eof := [], false;
    if sent {
      assert out.sent[before..] == Wire(Packetise(t, wlen - HEADER, 1, Message(writes)));
      got, eof := ReadBack(out.sent[before..], rlen, calls, t, wlen - HEADER, Message(writes));
    }
  }

  /** The rest of a message survives a new buffer of n bytes. */
  ghost predicate Survives(r: TdsBuffer, n: nat)
    reads r
  {
    r.size <= n || (r.pos == r.size && Readable(n, r.queue))
  }

  /**
   * A packet-size change in the middle of a message: reading on, in any way, reaches the end of the message exactly
   * when the current packet fits the new buffer, or is used up and all the others fit. Otherwise it panics.
   */
  method ResizeInMessage(r: TdsBuffer, n: nat, calls: seq<ReadOp>) returns (got: seq<byte>, eof: bool, panicked: bool)
    requires Following(r) && r.Reading() && r.Whole()
    requires (forall op :: op in calls ==> !op.ResizeOp?) && Asking(calls) > |r.pending|
    modifies r, r.buf, r.transport`incoming
    ensures got <= old(r.pending)
    ensures eof <==> old(Survives(r, n))
    ensures eof ==> got == old(r.pending)
    ensures panicked <==> !eof
  {
    hide Readable, NoEmpty, Shrinks, Wire, Payloads, TdsBuffer.Held;
    if r.size <= n {
      ShrinksReadable(r.size, r.queue, 0xffff, n);
    }
    r.Resize(n);
    var failed;
    got, eof, failed, panicked := ReadMessage(r, calls);
  }

  /** At the last byte of a packet, an empty one following: the second byte read is the first byte of the buffer. */
  method StaleByte(r: TdsBuffer) returns (first: ReadResult<byte>, second: ReadResult<byte>)
    requires r.Open() && r.pos + 1 == r.size <= r.buf.Length && r.Whole()
    requires r.queue != [] && r.queue[0].payload == []
    modifies r.buf, r.transport`incoming, r`pos, r`size, r`final, r`packetType, r`queue, r`pending
    ensures first == Data(old(r.buf[r.pos])) && second == Data(old(r.buf[HEADER]))
  {
    hide *;
    r.Bounds();
    FirstByte(r);
    NotYet(r);
    first := r.ReadByte();
    Emptied(r);
    second := r.ReadByte();
  }

  lemma NotYet(r: TdsBuffer)
    requires r.Open() && r.pos < r.size <= r.buf.Length
    ensures r.NextHasBytes() && !r.Beyond()
  {
  }

  lemma Emptied(r: TdsBuffer)
    requires r.Open() && r.pos == r.size && r.queue != [] && r.queue[0].payload == [] && HEADER < r.buf.Length
    ensures !r.final && !r.NextHasBytes() && !r.Beyond()
  {
  }

  /** A one-byte message with an empty last packet: the second ReadByte gives the byte again instead of the end. */
  method StaleEnd(a: Packet, b: Packet, len: nat) returns (first: ReadResult<byte>, second: ReadResult<byte>)
    requires |a.payload| == 1 && b.payload == [] && a.status == INCOMPLETE && b.status == COMPLETE
    requires HEADER < len < 0x1_0000
    ensures first == second == Data(a.payload[0])
  {
    hide *;
    var ps := [a, b];
    StaleStream(a, b, len);
    var peer := new Transport(Wire(ps));
    var r := new TdsBuffer(len, peer);
    assert peer.incoming == Wire(ps) + [] && ps[1..] == [b];
    r.Expect(ps, []);
    Expected(r);
    var begun := r.BeginRead();
    FirstByte(r);
    first, second := StaleByte(r);
  }

  lemma MovesOn(r: TdsBuffer)
    requires r.Reading() && !(r.pos == r.size && r.final)
    ensures r.NextHasBytes() ==> !r.Beyond()
    ensures !r.NextHasBytes() ==> r.pos == r.size && !NoEmpty(r.queue)
    ensures r.queue != [] && r.queue[0].payload != [] ==> (NoEmpty(r.queue) <==> NoEmpty(r.queue[1..]))
    ensures r.pos == r.size && r.queue != [] && r.NextHasBytes() ==> r.queue[0].payload != []
  {
  }

  /**
   * Reads by ReadByte alone, until there is no byte: that is the end of the message, with all of it read, exactly when
   * no packet to come is empty, and otherwise a panic.
   */
  method ReadBytes(r: TdsBuffer) returns (got: seq<byte>, end: ReadResult<byte>)
    requires r.Reading() && r.Whole() && r.buf.Length < 0x1_0000
    modifies r.buf, r.transport`incoming, r`pos, r`size, r`final, r`packetType, r`queue, r`pending
    ensures end.Eof? || end.Panicked?
    ensures end.Eof? <==> old(NoEmpty(r.queue))
    ensures end.Eof? ==> got == old(r.pending)
  {
    hide NoEmpty, TdsBuffer.Reading, TdsBuffer.Open, TdsBuffer.Whole, TdsBuffer.NextHasBytes, TdsBuffer.NextTooLarge;
    got := [];
    ghost var lost := false;
    while true
      invariant lost ==> r.Behind() && !old(NoEmpty(r.queue))
      invariant !lost ==> r.Reading() && r.Whole() && got + r.pending == old(r.pending)
      invariant !lost ==> (NoEmpty(r.queue) <==> old(NoEmpty(r.queue)))
      decreases if lost then 0 else 1, if lost then r.buf.Length - r.pos else |r.pending|
    {
      ghost var rest := r.pending;
      if !lost {
        InReading(r);
        if !(r.pos == r.size && r.final) {
          MovesOn(r);
        }
        lost := !(r.pos == r.size && r.final) && !r.NextHasBytes();
      }
      end := r.ReadByte();
      if !end.Data? {
        return;
      }
      if !lost {
        Assoc(got, [end.value], r.pending);
      }
      got := got + [end.value];
    }
  }

  lemma InReading(r: TdsBuffer)
    requires r.Reading()
    ensures r.Open() && HEADER <= r.pos <= r.size
    ensures r.pos == r.size && r.final ==> NoEmpty(r.queue)
  {
  }

  lemma FirstByte(r: TdsBuffer)
    requires r.Open() && r.pos < r.size <= r.buf.Length
    ensures r.pending != [] && r.buf[r.pos] == r.pending[0]
  {
    assert r.buf[r.pos..r.size][0] == r.buf[r.pos] && r.pending[..r.size - r.pos][0] == r.pending[0];
  }

  lemma StaleStream(a: Packet, b: Packet, len: nat)
    requires |a.payload| == 1 && b.payload == [] && a.status == INCOMPLETE && b.status == COMPLETE
    requires HEADER < len < 0x1_0000
    ensures Readable(len, [a, b]) && Readable(0xffff, [a, b]) && Payloads([a, b]) == a.payload
  {
    assert [a, b][1..] == [b] && [b][1..] == [];
    assert Readable(len, [b]) && Readable(0xffff, [b]) && Payloads([b]) == [];
  }
}
