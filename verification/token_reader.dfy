/**
 * The readers of the driver over the packet buffer: each takes from a message what its parsing function says, wherever
 * the packets are cut, and fails when not all of it arrives.
 */
module TokenReader {
  import opened Bytes
  import opened Unicode
  import opened Framing
  import opened ValueCodec
  import opened Tokens
  import DateTime

  // One of the packets ps, none of them empty but perhaps the first, is the current one.
  predicate At(ps: seq<Packet>, size: nat, queue: seq<Packet>) {
    ps != [] && NoEmpty(ps[1..]) && Onward(HEADER + |ps[0].payload|, ps[1..], size, queue)
  }

  // The message in the packets ps is being read.
  ghost predicate Live(r: TdsBuffer, ps: seq<Packet>)
    reads r, r.buf, r.transport
  {
    r.Open() && At(ps, r.size, r.queue)
  }

  // Packets as a writer with one buffer cuts them, or any others that do not grow.
  predicate Canonical(ps: seq<Packet>) { ps != [] && Shrinks(HEADER + |ps[0].payload|, ps) }

  // What is left cannot all be read; in a canonical message Read gets nothing more.
  ghost predicate Lost(r: TdsBuffer, ps: seq<Packet>)
    reads r, r.buf, r.transport
  {
    !r.Reading() && Canonical(ps)
  }

  // Reading goes on in the same buffer.
  twostate predicate Kept(r: TdsBuffer, ps: seq<Packet>)
    reads r, r.buf, r.transport
  {
    && r.buf == old(r.buf) && Live(r, ps)
    && (r.Reading() <==> old(r.Reading())) && (old(r.Whole()) ==> r.Whole())
  }

  // A reader that is described by a parsing function: it fails where that fails, or when not all could be read.
  twostate predicate Reads<T>(r: TdsBuffer, ps: seq<Packet>, new parsed: Parsed<T>, new v: T, ok: bool)
    reads r, r.buf, r.transport
  {
    r.buf == old(r.buf) &&
    if ok then Kept(r, ps) && parsed == Ok(v, r.pending)
    else parsed.Fail? || !old(r.Whole()) || !old(r.Reading())
  }

  lemma LiveHas(r: TdsBuffer, ps: seq<Packet>)
    requires Live(r, ps)
    ensures r.Open() && At(ps, r.size, r.queue) && (r.NextHasBytes() || (r.pos == r.size && r.final))
    ensures ParseByte([]).Fail?
  {
    OnwardNoEmpty(HEADER + |ps[0].payload|, ps[1..], r.size, r.queue);
  }

  lemma StaysLive(r: TdsBuffer, ps: seq<Packet>, size: nat, queue: seq<Packet>)
    requires r.Open() && At(ps, size, queue) && Onward(size, queue, r.size, r.queue)
    ensures Live(r, ps)
  {
    OnwardOn(HEADER + |ps[0].payload|, ps[1..], size, queue, r.size, r.queue);
  }

  lemma LostIsStuck(r: TdsBuffer, ps: seq<Packet>)
    requires Live(r, ps) && Lost(r, ps)
    ensures r.Stuck()
  {
    var a, p := HEADER + |ps[0].payload|, ps[1..];
    OnwardShrinks(a, p, r.size, r.queue);
    if r.size <= r.buf.Length {
      ShrinksReadable(r.size, r.queue, 0xffff, r.buf.Length);
    } else if r.pos == r.size && r.queue != [] && HEADER + |r.queue[0].payload| <= r.buf.Length {
      assert Shrinks(HEADER + |r.queue[0].payload|, r.queue);
      ShrinksReadable(HEADER + |r.queue[0].payload|, r.queue, 0xffff, r.buf.Length);
    }
  }

  lemma {:induction false} OnwardShrinks(a: nat, p: seq<Packet>, b: nat, q: seq<Packet>)
    requires Onward(a, p, b, q) && Shrinks(a, p)
    ensures Shrinks(b, q)
    decreases |p|
  {
    hide Onward;
    OnwardEnds(a, p, b, q);
    if |q| < |p| {
      OnwardShrinks(HEADER + |p[0].payload|, p[1..], b, q);
    }
  }

  // ---------- bytes and integers ----------

  method NextByte(r: TdsBuffer, ghost ps: seq<Packet>) returns (b: byte, ok: bool)
    requires Live(r, ps)
    modifies r, r.buf, r.transport
    ensures Reads(r, ps, ParseByte(old(r.pending)), b, ok)
  {
    hide Live, At, Onward, Moves, TdsBuffer.Open, TdsBuffer.Reading, TdsBuffer.Whole, TdsBuffer.NextHasBytes, ParseByte;
    LiveHas(r, ps);
    ghost var size, queue := r.size, r.queue;
    b, ok := r.Byte();
    if ok {
      OnwardStep(size, queue, r.size, r.queue);
      StaysLive(r, ps, size, queue);
      Cons(b, r.pending);
    }
  }

  method NextBytes(r: TdsBuffer, ghost ps: seq<Packet>, n: nat) returns (b: seq<byte>, ok: bool)
    requires Live(r, ps)
    modifies r, r.buf, r.transport
    ensures Reads(r, ps, Take(old(r.pending), n), b, ok) && (ok ==> |b| == n)
    ensures ok && (n > 0 || old(r.size <= r.buf.Length)) ==> r.size <= r.buf.Length
    ensures old(Lost(r, ps)) && n > 0 ==> !ok
    ensures !ok && old(r.Whole()) && old(r.Reading()) ==> b == old(r.pending)
  {
    hide Live, At, Lost, Onward, TdsBuffer.Open, TdsBuffer.Reading, TdsBuffer.Whole, TdsBuffer.Stuck, Take;
    LiveHas(r, ps);
    if Lost(r, ps) {
      LostIsStuck(r, ps);
    }
    ghost var size, queue := r.size, r.queue;
    b, ok := r.ReadFull(n);
    if ok {
      StaysLive(r, ps, size, queue);
      TakeFront(b, r.pending);
    } else {
      TooShort(old(r.pending), n);
    }
  }

  lemma TooShort(s: seq<byte>, n: nat)
    ensures Take(s, n).Fail? <==> |s| < n
  {
  }

  method ReadU(r: TdsBuffer, ghost ps: seq<Packet>, w: nat) returns (n: nat, ok: bool)
    requires Live(r, ps)
    modifies r, r.buf, r.transport
    ensures Reads(r, ps, ParseLe(old(r.pending), w), n, ok)
    ensures old(Lost(r, ps)) && w > 0 ==> !ok
  {
    hide Live, Lost, TdsBuffer.Reading, TdsBuffer.Whole, Take, FromLe;
    var b;
    b, ok := NextBytes(r, ps, w);
    n := FromLe(b);
  }

  // ---------- strings ----------

  lemma ByteIsLe(s: seq<byte>)
    ensures ParseLe(s, 1) == match ParseByte(s) case Ok(b, rest) => Ok(b as nat, rest) case Fail => Fail
  {
    if s != [] {
      assert FromLe(s[..1]) == s[0] + 256 * FromLe(s[..1][1..]);
    }
  }

  // The number of characters in one byte (BVarChar) or two (UsVarChar), then the bytes.
  method ReadVarChar(r: TdsBuffer, ghost ps: seq<Packet>, w: nat) returns (b: seq<byte>, ok: bool)
    requires Live(r, ps) && (w == 1 || w == 2)
    modifies r, r.buf, r.transport
    ensures Reads(r, ps, ParseVarChar(old(r.pending), w), b, ok)
  {
    hide Live, TdsBuffer.Reading, TdsBuffer.Whole, Take, ParseLe, ParseByte;
    b := [];
    var n: nat;
    ByteIsLe(r.pending);
    if w == 1 {
      n, ok := NextByte(r, ps);
    } else {
      n, ok := ReadU(r, ps, 2);
    }
    if ok {
      b, ok := NextBytes(r, ps, 2 * n);
    }
  }

  method ReadString(r: TdsBuffer, ghost ps: seq<Packet>, w: nat) returns (s: seq<scalar>, ok: bool)
    requires Live(r, ps) && (w == 1 || w == 2)
    modifies r, r.buf, r.transport
    ensures Reads(r, ps, ParseString(old(r.pending), w), s, ok)
  {
    hide Live, TdsBuffer.Reading, TdsBuffer.Whole, ParseVarChar, Ucs22Str;
    s := [];
    var b;
    b, ok := ReadVarChar(r, ps, w);
    if ok {
      var text := Ucs22Str(b);
      match text {
        case None => ok := false;
        case Some(v) => s := v;
      }
    }
  }

  // ---------- TYPE_INFO ----------

  method ReadCollation(r: TdsBuffer, ghost ps: seq<Packet>) returns (c: Collation, ok: bool)
    requires Live(r, ps)
    modifies r, r.buf, r.transport
    ensures Reads(r, ps, ParseCollation(old(r.pending)), c, ok)
  {
    hide Live, TdsBuffer.Reading, TdsBuffer.Whole, Take, ParseByte, FromLe;
    c := NO_COLLATION;
    var b, sortId;
    b, ok := NextBytes(r, ps, 4);
    if ok {
      FromLeBound(b);
      Pow256Values();
      sortId, ok := NextByte(r, ps);
      if ok {
        c := Collation(FromLe(b), sortId);
      }
    }
  }

  const NO_INFO := (TypeInfo(NULL_TYPE, 0, 0, 0, NO_COLLATION), FixedReader)

  method ReadTimeInfo(r: TdsBuffer, ghost ps: seq<Packet>, id: byte) returns (t: (TypeInfo, Reader), ok: bool)
    requires Live(r, ps)
    modifies r, r.buf, r.transport
    ensures Reads(r, ps, ParseTimeInfo(id, old(r.pending)), t, ok)
  {
    hide Live, TdsBuffer.Reading, TdsBuffer.Whole, ParseByte;
    t := NO_INFO;
    var scale;
    scale, ok := NextByte(r, ps);
    if ok {
      if scale > 7 {
        return t, false;
      }
      var size := DateTime.TimeWidth(scale) + if id == DATETIME2_N then 3 else if id == DATETIMEOFFSET_N then 5 else 0;
      t := (TypeInfo(id, size, scale, 0, NO_COLLATION), ByteLenReader);
    }
  }

  method ReadByteLenInfo(r: TdsBuffer, ghost ps: seq<Packet>, id: byte) returns (t: (TypeInfo, Reader), ok: bool)
    requires Live(r, ps)
    modifies r, r.buf, r.transport
    ensures Reads(r, ps, ParseByteLenInfo(id, old(r.pending)), t, ok)
  {
    hide Live, TdsBuffer.Reading, TdsBuffer.Whole, ParseByte;
    t := NO_INFO;
    var size, prec, scale;
    size, ok := NextByte(r, ps);
    if ok {
      prec, scale := 0, 0;
      if HasPrecision(id) {
        prec, ok := NextByte(r, ps);
        if ok {
          scale, ok := NextByte(r, ps);
        }
      }
      t := (TypeInfo(id, size, scale, prec, NO_COLLATION), ByteLenReader);
    }
  }

  method ReadShortLenInfo(r: TdsBuffer, ghost ps: seq<Packet>, id: byte) returns (t: (TypeInfo, Reader), ok: bool)
    requires Live(r, ps)
    modifies r, r.buf, r.transport
    ensures Reads(r, ps, ParseShortLenInfo(id, old(r.pending)), t, ok)
  {
    hide Live, TdsBuffer.Reading, TdsBuffer.Whole, ParseLe, ParseCollation;
    t := NO_INFO;
    var size, c;
    size, ok := ReadU(r, ps, 2);
    if ok {
      c := NO_COLLATION;
      if HasCollation(id) {
        c, ok := ReadCollation(r, ps);
      }
      t := (TypeInfo(id, size, 0, 0, c), if size == 0xffff then PlpReader else ShortLenReader);
    }
  }

  method ReadXmlInfo(r: TdsBuffer, ghost ps: seq<Packet>) returns (t: (TypeInfo, Reader), ok: bool)
    requires Live(r, ps)
    modifies r, r.buf, r.transport
    ensures Reads(r, ps, ParseXmlInfo(old(r.pending)), t, ok)
  {
    hide Live, TdsBuffer.Reading, TdsBuffer.Whole, ParseByte, ParseVarChar;
    t := (TypeInfo(XML, 0, 0, 0, NO_COLLATION), PlpReader);
    var schema, ignored;
    schema, ok := NextByte(r, ps);
    if ok && schema != 0 {
      ignored, ok := ReadVarChar(r, ps, 1);
      if ok {
        ignored, ok := ReadVarChar(r, ps, 1);
        if ok {
          ignored, ok := ReadVarChar(r, ps, 2);
        }
      }
    }
  }

  // The parts of a table name.
  method ReadParts(r: TdsBuffer, ghost ps: seq<Packet>, n: nat) returns (u: (), ok: bool)
    requires Live(r, ps)
    modifies r, r.buf, r.transport
    ensures Reads(r, ps, SkipStrings(old(r.pending), n), u, ok)
  {
    hide Live, TdsBuffer.Reading, TdsBuffer.Whole, ParseVarChar;
    u, ok := (), true;
    for i := 0 to n
      invariant Kept(r, ps) && SkipStrings(r.pending, n - i) == SkipStrings(old(r.pending), n)
    {
      var part;
      part, ok := ReadVarChar(r, ps, 2);
      if !ok {
        return;
      }
    }
  }

  method ReadLongLenInfo(r: TdsBuffer, ghost ps: seq<Packet>, id: byte) returns (t: (TypeInfo, Reader), ok: bool)
    requires Live(r, ps)
    modifies r, r.buf, r.transport
    ensures Reads(r, ps, ParseLongLenInfo(id, old(r.pending)), t, ok)
  {
    hide Live, TdsBuffer.Reading, TdsBuffer.Whole, ParseLe, ParseByte, ParseCollation, SkipStrings;
    t := NO_INFO;
    var size, c, parts, u;
    size, ok := ReadU(r, ps, 4);
    if !ok {
      return;
    }
    if id == VARIANT {
      return (TypeInfo(id, size, 0, 0, NO_COLLATION), VariantReader), true;
    }
    c := NO_COLLATION;
    if id != IMAGE {
      c, ok := ReadCollation(r, ps);
    }
    if ok {
      parts, ok := NextByte(r, ps);
      if ok {
        u, ok := ReadParts(r, ps, parts);
        t := (TypeInfo(id, size, 0, 0, c), LongLenReader);
      }
    }
  }

  method ReadTypeInfo(r: TdsBuffer, ghost ps: seq<Packet>) returns (t: (TypeInfo, Reader), ok: bool)
    requires Live(r, ps)
    modifies r, r.buf, r.transport
    ensures Reads(r, ps, ParseTypeInfo(old(r.pending)), t, ok)
  {
    hide Live, TdsBuffer.Reading, TdsBuffer.Whole;
    hide ParseByte, ParseTimeInfo, ParseByteLenInfo, ParseShortLenInfo, ParseXmlInfo, ParseLongLenInfo, ClassOf;
    t := NO_INFO;
    var id;
    id, ok := NextByte(r, ps);
    if !ok {
      return;
    }
    match ClassOf(id) {
      case FixedLen(size) => t := (TypeInfo(id, size, 0, 0, NO_COLLATION), FixedReader);
      case Date => t := (TypeInfo(id, 3, 0, 0, NO_COLLATION), ByteLenReader);
      case Time => t, ok := ReadTimeInfo(r, ps, id);
      case ByteLen => t, ok := ReadByteLenInfo(r, ps, id);
      case ShortLen => t, ok := ReadShortLenInfo(r, ps, id);
      case XmlType => t, ok := ReadXmlInfo(r, ps);
      case LongLen => t, ok := ReadLongLenInfo(r, ps, id);
      case Unknown => ok := false;
    }
  }

  // ---------- values ----------

  method ReadFixedType(r: TdsBuffer, ghost ps: seq<Packet>, ti: TypeInfo) returns (cell: Cell, ok: bool)
    requires Live(r, ps)
    modifies r, r.buf, r.transport
    ensures Reads(r, ps, ParseCell(ti, FixedReader, old(r.pending)), cell, ok)
  {
    hide Live, TdsBuffer.Reading, TdsBuffer.Whole, Take;
    var b;
    b, ok := NextBytes(r, ps, ti.size);
    cell := if ti.typeId == NULL_TYPE then NullCell else Raw(b);
  }

  method ReadByteLenType(r: TdsBuffer, ghost ps: seq<Packet>, ti: TypeInfo) returns (cell: Cell, ok: bool)
    requires Live(r, ps)
    modifies r, r.buf, r.transport
    ensures Reads(r, ps, ParseByteLenCell(ti, old(r.pending)), cell, ok)
  {
    hide Live, TdsBuffer.Reading, TdsBuffer.Whole, Take, ParseByte;
    cell := NullCell;
    var size, b;
    size, ok := NextByte(r, ps);
    if ok && size != 0 {
      if size > ti.size {
        return cell, false;
      }
      b, ok := NextBytes(r, ps, size);
      cell := Raw(b);
    }
  }

  method ReadShortLenType(r: TdsBuffer, ghost ps: seq<Packet>, ti: TypeInfo) returns (cell: Cell, ok: bool)
    requires Live(r, ps)
    modifies r, r.buf, r.transport
    ensures Reads(r, ps, ParseShortLenCell(ti, old(r.pending)), cell, ok)
  {
    hide Live, TdsBuffer.Reading, TdsBuffer.Whole, Take, ParseLe;
    cell := NullCell;
    var size, b;
    size, ok := ReadU(r, ps, 2);
    if ok && size != 0xffff {
      if size > ti.size {
        return cell, false;
      }
      b, ok := NextBytes(r, ps, size);
      cell := Raw(b);
    }
  }

  method ReadLongLenType(r: TdsBuffer, ghost ps: seq<Packet>) returns (cell: Cell, ok: bool)
    requires Live(r, ps)
    modifies r, r.buf, r.transport
    ensures Reads(r, ps, ParseLongLenCell(old(r.pending)), cell, ok)
  {
    hide Live, TdsBuffer.Reading, TdsBuffer.Whole, Take, ParseLe, ParseByte;
    cell := NullCell;
    var textptrsize, ptr, stamp, size, b;
    textptrsize, ok := NextByte(r, ps);
    if !ok || textptrsize == 0 {
      return;
    }
    ghost var s := r.pending;
    ptr, ok := NextBytes(r, ps, textptrsize);
    if !ok {
      TakeParts(s, textptrsize, 8);
      return;
    }
    stamp, ok := NextBytes(r, ps, 8);
    TakeParts(s, textptrsize, 8);
    if !ok {
      return;
    }
    size, ok := ReadU(r, ps, 4);
    if !ok || size == 0xffff_ffff {
      return;
    }
    if size >= 0x8000_0000 {
      return cell, false;
    }
    b, ok := NextBytes(r, ps, size);
    cell := Raw(b);
  }

  // Taking two pieces is taking both at once.
  lemma TakeParts(s: seq<byte>, a: nat, b: nat)
    ensures Take(s, a + b).Ok? <==> Take(s, a).Ok? && Take(Take(s, a).rest, b).Ok?
    ensures Take(s, a + b).Ok? ==> Take(s, a + b).rest == Take(Take(s, a).rest, b).rest
  {
    if |s| >= a + b {
      assert s[a..][b..] == s[a + b..];
    }
  }

  /** Chunk by chunk, until the terminator. */
  method ReadPlpType(r: TdsBuffer, ghost ps: seq<Packet>) returns (cell: Cell, ok: bool)
    requires Live(r, ps)
    modifies r, r.buf, r.transport
    ensures Reads(r, ps, ParsePlp(old(r.pending)), cell, ok)
  {
    hide Live, TdsBuffer.Reading, TdsBuffer.Whole, Take, ParseLe, ParseChunks, Allocates;
    cell := NullCell;
    var size;
    size, ok := ReadU(r, ps, 8);
    if !ok || size == PLP_NULL {
      return;
    }
    if !Allocates(size) {
      return cell, false;
    }
    var buf;
    buf, ok := ReadChunks(r, ps);
    cell := Raw(buf);
  }

  method ReadChunks(r: TdsBuffer, ghost ps: seq<Packet>) returns (buf: seq<byte>, ok: bool)
    requires Live(r, ps)
    modifies r, r.buf, r.transport
    ensures Reads(r, ps, ParseChunks(old(r.pending), []), buf, ok)
  {
    hide Live, TdsBuffer.Reading, TdsBuffer.Whole, Take, ParseLe, ParseChunks;
    buf := [];
    while true
      invariant Kept(r, ps) && ParseChunks(r.pending, buf) == ParseChunks(old(r.pending), [])
      decreases |r.pending|
    {
      ChunkStep(r.pending, buf);
      var chunksize, b;
      chunksize, ok := ReadU(r, ps, 4);
      if !ok || chunksize == 0 {
        return;
      }
      b, ok := NextBytes(r, ps, chunksize);
      if !ok {
        return;
      }
      buf := buf + b;
    }
  }

  lemma ChunkStep(s: seq<byte>, sofar: seq<byte>)
    ensures var size := ParseLe(s, 4);
      if size.Fail? then ParseChunks(s, sofar).Fail?
      else if size.value == 0 then ParseChunks(s, sofar) == Ok(sofar, size.rest)
      else
        var b := Take(size.rest, size.value);
        if b.Fail? then ParseChunks(s, sofar).Fail?
        else ParseChunks(s, sofar) == ParseChunks(b.rest, sofar + b.value) && |b.rest| < |s|
  {
    hide *;
    ChunkAt(s, sofar);
    SizeAt(s);
    if |s| >= 4 {
      BytesAt(s, 4, FromLe(s[..4]));
    }
  }

  lemma SizeAt(s: seq<byte>)
    ensures |s| < 4 ==> ParseLe(s, 4).Fail?
    ensures |s| >= 4 ==> ParseLe(s, 4) == Ok(FromLe(s[..4]), s[4..])
  {
    hide FromLe;
  }

  lemma BytesAt(s: seq<byte>, at: nat, n: nat)
    requires at <= |s|
    ensures |s| - at < n ==> Take(s[at..], n).Fail?
    ensures |s| - at >= n ==> Take(s[at..], n) == Ok(s[at..at + n], s[at + n..])
  {
    if |s| - at >= n {
      assert s[at..][..n] == s[at..at + n] && s[at..][n..] == s[at + n..];
    }
  }

  lemma ChunkAt(s: seq<byte>, sofar: seq<byte>)
    ensures |s| < 4 ==> ParseChunks(s, sofar).Fail?
    ensures |s| >= 4 ==>
      var n := FromLe(s[..4]);
      if n == 0 then ParseChunks(s, sofar) == Ok(sofar, s[4..])
      else if |s| - 4 < n then ParseChunks(s, sofar).Fail?
      else ParseChunks(s, sofar) == ParseChunks(s[4 + n..], sofar + s[4..4 + n])
  {
    hide FromLe;
  }

  method ReadCell(r: TdsBuffer, ghost ps: seq<Packet>, ti: TypeInfo, reader: Reader) returns (cell: Cell, ok: bool)
    requires Live(r, ps)
    modifies r, r.buf, r.transport
    ensures Reads(r, ps, ParseCell(ti, reader, old(r.pending)), cell, ok)
  {
    hide Live, TdsBuffer.Reading, TdsBuffer.Whole, Take, ParseByteLenCell, ParseShortLenCell, ParsePlp, ParseLongLenCell;
    match reader {
      case FixedReader => cell, ok := ReadFixedType(r, ps, ti);
      case ByteLenReader => cell, ok := ReadByteLenType(r, ps, ti);
      case ShortLenReader => cell, ok := ReadShortLenType(r, ps, ti);
      case PlpReader => cell, ok := ReadPlpType(r, ps);
      case LongLenReader => cell, ok := ReadLongLenType(r, ps);
      case VariantReader => cell, ok := NullCell, false;
    }
  }

  method ReadValue(r: TdsBuffer, ghost ps: seq<Packet>, c: Column) returns (v: Value, ok: bool)
    requires Live(r, ps)
    modifies r, r.buf, r.transport
    ensures Reads(r, ps, ParseValue(c, old(r.pending)), v, ok)
  {
    hide Live, TdsBuffer.Reading, TdsBuffer.Whole, ParseCell, Interpret;
    v := Null;
    var cell;
    cell, ok := ReadCell(r, ps, c.ti, c.reader);
    if ok {
      var meaning := Interpret(c.ti, cell);
      match meaning {
        case None => ok := false;
        case Some(value) => v := value;
      }
    }
  }

  // ---------- tokens ----------

  method ReadDone(r: TdsBuffer, ghost ps: seq<Packet>) returns (d: Done, ok: bool)
    requires Live(r, ps)
    modifies r, r.buf, r.transport
    ensures Reads(r, ps, ParseDone(old(r.pending)), d, ok)
    ensures old(Lost(r, ps)) ==> !ok
  {
    hide Live, Lost, TdsBuffer.Reading, TdsBuffer.Whole, ParseLe;
    d := Done(0, 0, 0);
    var status, curCmd, rowCount;
    status, ok := ReadU(r, ps, 2);
    if ok {
      curCmd, ok := ReadU(r, ps, 2);
      if ok {
        rowCount, ok := ReadU(r, ps, 8);
        d := Done(status, curCmd, rowCount);
      }
    }
  }

  method ReadError(r: TdsBuffer, ghost ps: seq<Packet>) returns (e: Error, ok: bool)
    requires Live(r, ps)
    modifies r, r.buf, r.transport
    ensures Reads(r, ps, ParseError(old(r.pending)), e, ok)
    ensures old(Lost(r, ps)) ==> !ok
  {
    hide Live, Lost, TdsBuffer.Reading, TdsBuffer.Whole, ParseLe, ParseByte, ParseString;
    e := NO_ERROR;
    var length, number, state, class_, message, server, proc, line;
    length, ok := ReadU(r, ps, 2);
    if !ok { return; }
    number, ok := ReadU(r, ps, 4);
    if !ok { return; }
    state, ok := NextByte(r, ps);
    if !ok { return; }
    class_, ok := NextByte(r, ps);
    if !ok { return; }
    message, ok := ReadString(r, ps, 2);
    if !ok { return; }
    server, ok := ReadString(r, ps, 1);
    if !ok { return; }
    proc, ok := ReadString(r, ps, 1);
    if !ok { return; }
    line, ok := ReadU(r, ps, 4);
    e := Error(Signed32(number), state, class_, message, server, proc, Signed32(line));
  }

  // What is read in all when `done` has been read already.
  function Prefixed<T>(done: seq<T>, more: Parsed<seq<T>>): Parsed<seq<T>> {
    match more case Fail => Fail case Ok(vs, rest) => Ok(done + vs, rest)
  }

  lemma PrefixedStep<T>(done: seq<T>, v: T, more: Parsed<seq<T>>)
    ensures Prefixed(done + [v], more) == Prefixed(done, match more case Fail => Fail case Ok(vs, rest) => Ok([v] + vs, rest))
  {
    if more.Ok? {
      assert done + [v] + more.value == done + ([v] + more.value);
    }
  }

  lemma PrefixedEnds<T>(done: seq<T>, s: seq<byte>)
    ensures Prefixed([], Ok(done, s)) == Prefixed(done, Ok([], s)) == Ok(done, s)
  {
    assert done + [] == done == [] + done;
  }

  lemma NothingPrefixed<T>(more: Parsed<seq<T>>)
    ensures Prefixed([], more) == more
  {
    assert more.Ok? ==> [] + more.value == more.value;
  }

  method ReadIds(r: TdsBuffer, ghost ps: seq<Packet>, n: nat) returns (ids: seq<nat>, ok: bool)
    requires Live(r, ps)
    modifies r, r.buf, r.transport
    ensures Reads(r, ps, ParseIds(old(r.pending), n), ids, ok)
  {
    hide Live, TdsBuffer.Reading, TdsBuffer.Whole, ParseLe, Prefixed;
    ids, ok := [], true;
    NothingPrefixed(ParseIds(r.pending, n));
    for i := 0 to n
      invariant Kept(r, ps) && Prefixed(ids, ParseIds(r.pending, n - i)) == ParseIds(old(r.pending), n)
    {
      ghost var s := r.pending;
      PrefixedFails(ids, ParseIds(s, n - i));
      var id;
      id, ok := ReadU(r, ps, 2);
      if !ok {
        return;
      }
      PrefixedStep(ids, id, ParseIds(r.pending, n - i - 1));
      ids := ids + [id];
    }
    PrefixedEnds(ids, r.pending);
  }

  lemma PrefixedFails<T>(done: seq<T>, more: Parsed<seq<T>>)
    ensures Prefixed(done, more).Fail? <==> more.Fail?
  {
  }

  method ReadOrder(r: TdsBuffer, ghost ps: seq<Packet>) returns (ids: seq<nat>, ok: bool)
    requires Live(r, ps)
    modifies r, r.buf, r.transport
    ensures Reads(r, ps, ParseOrder(old(r.pending)), ids, ok)
    ensures old(Lost(r, ps)) ==> !ok
  {
    hide Live, Lost, TdsBuffer.Reading, TdsBuffer.Whole, ParseLe, ParseIds;
    ids := [];
    var len;
    len, ok := ReadU(r, ps, 2);
    if ok {
      ids, ok := ReadIds(r, ps, len / 2);
    }
  }

  method ReadSspi(r: TdsBuffer, ghost ps: seq<Packet>) returns (msg: seq<byte>, ok: bool)
    requires Live(r, ps)
    modifies r, r.buf, r.transport
    ensures Reads(r, ps, ParseSspi(old(r.pending)), msg, ok)
    ensures old(Lost(r, ps)) ==> !ok
  {
    hide Live, Lost, TdsBuffer.Reading, TdsBuffer.Whole, ParseLe, Take;
    msg := [];
    var size;
    size, ok := ReadU(r, ps, 2);
    if ok {
      msg, ok := NextBytes(r, ps, size);
    }
  }

  method ReadLoginAck(r: TdsBuffer, ghost ps: seq<Packet>) returns (t: Token, ok: bool)
    requires Live(r, ps)
    modifies r, r.buf, r.transport
    ensures Reads(r, ps, ParseLoginAck(old(r.pending)), t, ok)
    ensures old(Lost(r, ps)) ==> !ok
  {
    hide Live, Lost, TdsBuffer.Reading, TdsBuffer.Whole, ParseLe, Take, Ucs22Str, FromBe32;
    t := TReturnStatus(0);
    var size, b;
    size, ok := ReadU(r, ps, 2);
    if ok {
      b, ok := NextBytes(r, ps, size);
      if ok {
        if size < 6 {
          return t, false;
        }
        var end := (6 + 2 * b[5] as int) % 256;
        if end < 6 || end > size {
          return t, false;
        }
        var program := Ucs22Str(b[6..end]);
        match program {
          case None => ok := false;
          case Some(name) => t := TLoginAck(b[0], FromBe32(b[1..5]), name, FromBe32(b[size - 4..]));
        }
      }
    }
  }

  // ---------- columns and rows ----------

  method ReadColumn(r: TdsBuffer, ghost ps: seq<Packet>) returns (c: Column, ok: bool)
    requires Live(r, ps)
    modifies r, r.buf, r.transport
    ensures Reads(r, ps, ParseColumn(old(r.pending)), c, ok)
  {
    hide Live, TdsBuffer.Reading, TdsBuffer.Whole, ParseLe, ParseTypeInfo, ParseString;
    c := Column(0, 0, NO_INFO.0, NO_INFO.1, []);
    var userType, flags, t, name;
    userType, ok := ReadU(r, ps, 4);
    if !ok { return; }
    flags, ok := ReadU(r, ps, 2);
    if !ok { return; }
    t, ok := ReadTypeInfo(r, ps);
    if !ok { return; }
    name, ok := ReadString(r, ps, 1);
    c := Column(userType, flags, t.0, t.1, name);
  }

  method ReadColMetadata(r: TdsBuffer, ghost ps: seq<Packet>) returns (cols: seq<Column>, ok: bool)
    requires Live(r, ps)
    modifies r, r.buf, r.transport
    ensures Reads(r, ps, ParseColMetadata(old(r.pending)), cols, ok)
    ensures old(Lost(r, ps)) ==> !ok
  {
    hide Live, Lost, TdsBuffer.Reading, TdsBuffer.Whole, ParseLe, ParseColumns;
    cols := [];
    var count;
    count, ok := ReadU(r, ps, 2);
    if ok && count != 0xffff {
      cols, ok := ReadColumns(r, ps, count);
    }
  }

  method ReadColumns(r: TdsBuffer, ghost ps: seq<Packet>, n: nat) returns (cols: seq<Column>, ok: bool)
    requires Live(r, ps)
    modifies r, r.buf, r.transport
    ensures Reads(r, ps, ParseColumns(old(r.pending), n), cols, ok)
  {
    hide Live, TdsBuffer.Reading, TdsBuffer.Whole, ParseColumn, Prefixed;
    cols, ok := [], true;
    NothingPrefixed(ParseColumns(r.pending, n));
    for i := 0 to n
      invariant Kept(r, ps) && Prefixed(cols, ParseColumns(r.pending, n - i)) == ParseColumns(old(r.pending), n)
    {
      PrefixedFails(cols, ParseColumns(r.pending, n - i));
      var c;
      c, ok := ReadColumn(r, ps);
      if !ok {
        return;
      }
      PrefixedStep(cols, c, ParseColumns(r.pending, n - i - 1));
      cols := cols + [c];
    }
    PrefixedEnds(cols, r.pending);
  }

  method ReadRow(r: TdsBuffer, ghost ps: seq<Packet>, cols: seq<Column>) returns (row: seq<Value>, ok: bool)
    requires Live(r, ps)
    modifies r, r.buf, r.transport
    ensures Reads(r, ps, ParseRow(cols, old(r.pending)), row, ok)
  {
    hide Live, TdsBuffer.Reading, TdsBuffer.Whole, ParseValue, Prefixed;
    row, ok := [], true;
    NothingPrefixed(ParseRow(cols, r.pending));
    for i := 0 to |cols|
      invariant Kept(r, ps) && Prefixed(row, ParseRow(cols[i..], r.pending)) == ParseRow(cols, old(r.pending))
    {
      PrefixedFails(row, ParseRow(cols[i..], r.pending));
      assert cols[i..][1..] == cols[i + 1..];
      var v;
      v, ok := ReadValue(r, ps, cols[i]);
      if !ok {
        return;
      }
      PrefixedStep(row, v, ParseRow(cols[i + 1..], r.pending));
      row := row + [v];
    }
    PrefixedEnds(row, r.pending);
  }

  method ReadNbcRow(r: TdsBuffer, ghost ps: seq<Packet>, cols: seq<Column>) returns (row: seq<Value>, ok: bool)
    requires Live(r, ps)
    modifies r, r.buf, r.transport
    ensures Reads(r, ps, ParseNbcRow(cols, old(r.pending)), row, ok)
  {
    hide Live, TdsBuffer.Reading, TdsBuffer.Whole, Take, ParseUnmarked;
    row := [];
    var pres;
    pres, ok := NextBytes(r, ps, (|cols| + 7) / 8);
    if ok {
      row, ok := ReadUnmarked(r, ps, pres, cols);
    }
  }

  method ReadUnmarked(r: TdsBuffer, ghost ps: seq<Packet>, pres: seq<byte>, cols: seq<Column>)
    returns (row: seq<Value>, ok: bool)
    requires Live(r, ps) && |cols| <= 8 * |pres|
    modifies r, r.buf, r.transport
    ensures Reads(r, ps, ParseUnmarked(pres, cols, 0, old(r.pending)), row, ok)
  {
    hide Live, TdsBuffer.Reading, TdsBuffer.Whole, ParseValue, ParseUnmarked, Prefixed, Bit;
    row, ok := [], true;
    NothingPrefixed(ParseUnmarked(pres, cols, 0, r.pending));
    for i := 0 to |cols|
      invariant Kept(r, ps)
      invariant Prefixed(row, ParseUnmarked(pres, cols, i, r.pending)) == ParseUnmarked(pres, cols, 0, old(r.pending))
    {
      PrefixedFails(row, ParseUnmarked(pres, cols, i, r.pending));
      UnmarkedAt(pres, cols, i, r.pending);
      var v := Null;
      if !Bit(pres[i / 8], i % 8) {
        v, ok := ReadValue(r, ps, cols[i]);
        if !ok {
          return;
        }
      }
      PrefixedStep(row, v, ParseUnmarked(pres, cols, i + 1, r.pending));
      row := row + [v];
    }
    NoneUnmarked(pres, cols, r.pending);
    PrefixedEnds(row, r.pending);
  }

  lemma NoneUnmarked(pres: seq<byte>, cols: seq<Column>, s: seq<byte>)
    requires |cols| <= 8 * |pres|
    ensures ParseUnmarked(pres, cols, |cols|, s) == Ok([], s)
  {
  }

  // ---------- which packets are still to be read ----------

  /** The packets that hold the last k bytes of their message. */
  function Holding(ps: seq<Packet>, k: nat): seq<Packet> {
    if ps == [] || |Payloads(ps[1..])| < k then ps else Holding(ps[1..], k)
  }

  predicate AllFit(ps: seq<Packet>, n: nat) { forall i :: 0 <= i < |ps| ==> HEADER + |ps[i].payload| <= n }

  lemma {:induction false} HoldingLeft(ps: seq<Packet>, size: nat, queue: seq<Packet>, left: nat, k: nat)
    requires At(ps, size, queue) && left <= size - HEADER && k == left + |Payloads(queue)|
    ensures |Payloads(ps)| >= k
    ensures left == 0 ==> Holding(ps, k) == queue
    ensures left > 0 ==>
      var h := Holding(ps, k); h != [] && h[1..] == queue && HEADER + |h[0].payload| == size
    decreases |ps|
  {
    hide *;
    AtTail(ps, size, queue);
    HoldingStep(ps, k);
    if |queue| == |ps| - 1 {
      HoldingStep(queue, k);
    } else {
      HoldingLeft(ps[1..], size, queue, left, k);
    }
  }

  lemma AtTail(ps: seq<Packet>, size: nat, queue: seq<Packet>)
    requires At(ps, size, queue)
    ensures |queue| < |ps| && (queue != [] ==> queue[0].payload != [])
    ensures |queue| == |ps| - 1 ==> queue == ps[1..] && size == HEADER + |ps[0].payload|
    ensures |queue| < |ps| - 1 ==> At(ps[1..], size, queue)
  {
    hide At, Onward, NoEmpty;
    AtIs(ps, size, queue);
    OnwardNoEmpty(HEADER + |ps[0].payload|, ps[1..], size, queue);
    OnwardEnds(HEADER + |ps[0].payload|, ps[1..], size, queue);
    FirstOf(queue);
    if |queue| < |ps| - 1 {
      FirstOf(ps[1..]);
      AtIs(ps[1..], size, queue);
    }
  }

  lemma AtIs(ps: seq<Packet>, size: nat, queue: seq<Packet>)
    ensures At(ps, size, queue) <==>
      ps != [] && NoEmpty(ps[1..]) && Onward(HEADER + |ps[0].payload|, ps[1..], size, queue)
  {
  }

  lemma FirstOf(ps: seq<Packet>)
    ensures NoEmpty(ps) && ps != [] ==> ps[0].payload != [] && NoEmpty(ps[1..])
  {
  }

  lemma HoldingStep(ps: seq<Packet>, k: nat)
    ensures Payloads([]) == [] && Holding([], k) == []
    ensures ps != [] ==> |Payloads(ps)| == |ps[0].payload| + |Payloads(ps[1..])|
    ensures ps != [] ==> Holding(ps, k) == if |Payloads(ps[1..])| < k then ps else Holding(ps[1..], k)
  {
  }

  lemma {:induction false} ReadableFits(big: nat, queue: seq<Packet>, n: nat)
    requires Readable(big, queue)
    ensures Readable(n, queue) <==> AllFit(queue, n)
    decreases queue
  {
    if queue != [] {
      ReadableFits(big, queue[1..], n);
      FirstFits(queue, n);
    }
  }

  lemma FirstFits(ps: seq<Packet>, n: nat)
    requires ps != []
    ensures AllFit(ps, n) <==> HEADER + |ps[0].payload| <= n && AllFit(ps[1..], n)
  {
    if AllFit(ps[1..], n) && HEADER + |ps[0].payload| <= n {
      forall i | 0 <= i < |ps| ensures HEADER + |ps[i].payload| <= n {
        assert i > 0 ==> ps[i] == ps[1..][i - 1];
      }
    }
  }

  /** What a new buffer of n bytes leaves readable, in terms of the message alone. */
  lemma FitsIs(r: TdsBuffer, ps: seq<Packet>, n: nat)
    requires Live(r, ps)
    ensures (r.pos == r.size || r.size <= n) && Readable(n, r.queue) <==> AllFit(Holding(ps, |r.pending|), n)
  {
    HoldingLeft(ps, r.size, r.queue, r.size - r.pos, |r.pending|);
    ReadableFits(0xffff, r.queue, n);
    if r.pos < r.size {
      FirstFits(Holding(ps, |r.pending|), n);
    }
  }

  // ---------- the announced bytes of an ENVCHANGE token ----------

  // A reader limited to `left` bytes.
  twostate predicate ReadsIn<T>(r: TdsBuffer, ps: seq<Packet>, new parsed: Parsed<T>, new v: T, left: nat, rem: nat, ok: bool)
    reads r, r.buf, r.transport
  {
    r.buf == old(r.buf) &&
    if ok then
      Kept(r, ps) && rem <= left && parsed == Ok(v, Window(r.pending, rem)) &&
      Outside(r.pending, rem) == Outside(old(r.pending), left)
    else parsed.Fail? || !old(r.Whole()) || !old(r.Reading())
  }

  lemma WindowTakes(s: seq<byte>, left: nat, n: nat)
    ensures n <= left && Take(s, n).Ok? ==>
      var b := Take(s, n);
      Take(Window(s, left), n) == Ok(b.value, Window(b.rest, left - n)) && Outside(b.rest, left - n) == Outside(s, left)
    ensures n <= left && Take(s, n).Fail? ==> Take(Window(s, left), n).Fail? && Window(s, left) == s
    ensures n > left ==> Take(Window(s, left), n).Fail?
    ensures Take(s, left).Ok? ==> Take(s, left).value == Window(s, left)
    ensures Take(s, left).Fail? ==> Window(s, left) == s
  {
    var w := Window(s, left);
    if n <= left && n <= |s| {
      assert w[..n] == s[..n] && w[n..] == Window(s[n..], left - n);
      assert Outside(s[n..], left - n) == Outside(s, left);
    }
  }

  method LimitBytes(r: TdsBuffer, ghost ps: seq<Packet>, left: nat, n: nat) returns (b: seq<byte>, rem: nat, ok: bool)
    requires Live(r, ps)
    modifies r, r.buf, r.transport
    ensures ReadsIn(r, ps, Take(Window(old(r.pending), left), n), b, left, rem, ok) && (ok ==> |b| == n)
    ensures ok && (n > 0 || old(r.size <= r.buf.Length)) ==> r.size <= r.buf.Length
    ensures old(Lost(r, ps)) && n > 0 ==> !ok
    ensures !ok && old(r.Whole()) && old(r.Reading()) ==> b == Window(old(r.pending), left)
  {
    hide Live, Lost, TdsBuffer.Reading, TdsBuffer.Whole, Take, Window, Outside;
    WindowTakes(r.pending, left, n);
    var m := if n <= left then n else left;
    b, ok := NextBytes(r, ps, m);
    rem := left - m;
    ok := ok && n <= left;
  }

  // readBVarByte
  method LimitVarByte(r: TdsBuffer, ghost ps: seq<Packet>, left: nat) returns (b: seq<byte>, rem: nat, ok: bool)
    requires Live(r, ps)
    modifies r, r.buf, r.transport
    ensures ReadsIn(r, ps, ParseBytes(Window(old(r.pending), left)), b, left, rem, ok)
  {
    hide Live, TdsBuffer.Reading, TdsBuffer.Whole, Take, Window, Outside;
    TakesByte(Window(r.pending, left));
    b, rem, ok := LimitBytes(r, ps, left, 1);
    if ok {
      var n := b[0];
      b, rem, ok := LimitBytes(r, ps, rem, n);
    }
  }

  lemma TakesByte(s: seq<byte>)
    ensures Take(s, 1) == match ParseByte(s) case Ok(b, rest) => Ok([b], rest) case Fail => Fail
  {
    assert s != [] ==> s[..1] == [s[0]];
  }

  // readBVarChar
  method LimitString(r: TdsBuffer, ghost ps: seq<Packet>, left: nat) returns (s: seq<scalar>, rem: nat, ok: bool)
    requires Live(r, ps)
    modifies r, r.buf, r.transport
    ensures ReadsIn(r, ps, ParseString(Window(old(r.pending), left), 1), s, left, rem, ok)
    ensures ok ==> r.size <= r.buf.Length
  {
    hide Live, TdsBuffer.Reading, TdsBuffer.Whole, Take, Window, Outside, Ucs22Str, FromLe;
    s := [];
    var b;
    b, rem, ok := LimitBytes(r, ps, left, 1);
    if ok {
      var n := FromLe(b);
      b, rem, ok := LimitBytes(r, ps, rem, 2 * n);
      if ok {
        var text := Ucs22Str(b);
        match text {
          case None => ok := false;
          case Some(v) => s := v;
        }
      }
    }
  }

  // ---------- the session ----------

  class Session {
    var database: seq<scalar>
    var tranid: nat
    const buf: TdsBuffer

    function State(): SessionState
      reads this, buf`buf
    {
      var size: nat := buf.buf.Length;
      (database, tranid, size)
    }

    constructor (buf: TdsBuffer)
      ensures this.buf == buf && database == [] && tranid == 0
    {
      this.buf, database, tranid := buf, [], 0;
    }
  }

  // The reading of one change, described by what it does and by what it leaves of the announced bytes.
  twostate predicate Changes(
    session: Session, ps: seq<Packet>, new res: (EnvChange, Option<seq<byte>>), left: nat, rem: nat, ok: bool)
    reads session, session.buf, session.buf.buf, session.buf.transport
  {
    var r := session.buf;
    && (r.buf == old(r.buf) || fresh(r.buf))
    && (ok || (old(r.Whole()) && old(r.Reading())) ==> session.State() == Apply(old(session.State()), res.0))
    && if ok then
         && Live(r, ps) && rem <= left && (old(r.Whole()) ==> r.Whole())
         && res.1 == Some(Window(r.pending, rem)) && Outside(r.pending, rem) == Outside(old(r.pending), left)
         && (r.Reading() <==>
               if res.0.PacketSize? then AllFit(Holding(ps, |r.pending|), res.0.n) else old(r.Reading()))
       else res.1.None? || !old(r.Whole()) || !old(r.Reading())
  }

  method ReadDatabase(session: Session, ghost ps: seq<Packet>, left: nat) returns (rem: nat, ok: bool)
    requires Live(session.buf, ps)
    modifies session, session.buf, session.buf.buf, session.buf.transport
    ensures Changes(session, ps, DatabaseChange(Window(old(session.buf.pending), left)), left, rem, ok)
  {
    hide Live, TdsBuffer.Reading, TdsBuffer.Whole, Window, Outside, ParseString;
    var name, was;
    name, rem, ok := LimitString(session.buf, ps, left);
    session.database := if ok then name else [];
    if ok {
      was, rem, ok := LimitString(session.buf, ps, rem);
    }
  }

  method ReadTran(session: Session, ghost ps: seq<Packet>, left: nat) returns (rem: nat, ok: bool)
    requires Live(session.buf, ps)
    modifies session, session.buf, session.buf.buf, session.buf.transport
    ensures Changes(session, ps, TranChange(Window(old(session.buf.pending), left)), left, rem, ok)
  {
    hide Live, TdsBuffer.Reading, TdsBuffer.Whole, Window, Outside, ParseBytes, FromLe, Take;
    TranParts(Window(session.buf.pending, left));
    var b, was;
    b, rem, ok := LimitBytes(session.buf, ps, left, 1);
    if !ok {
      return;
    }
    if b[0] != 8 {
      return rem, false;
    }
    b, rem, ok := LimitBytes(session.buf, ps, rem, 8);
    session.tranid := FromLe(b);
    if ok {
      was, rem, ok := LimitVarByte(session.buf, ps, rem);
    }
  }

  lemma TranParts(s: seq<byte>)
    ensures var size := Take(s, 1);
      if size.Fail? || size.value[0] != 8 then TranChange(s) == (Ignored, None)
      else
        var id := Take(size.rest, 8);
        TranChange(s) ==
          if id.Fail? then (BeginTran(FromLe(size.rest)), None)
          else (BeginTran(FromLe(id.value)), RestOf(ParseBytes(id.rest)))
  {
    hide FromLe, ParseBytes;
    if |s| >= 9 {
      assert s[1..][..8] == s[1..9] && s[1..][8..] == s[9..];
    }
  }

  method ReadTwoStrings(r: TdsBuffer, ghost ps: seq<Packet>, left: nat) returns (now: seq<scalar>, rem: nat, ok: bool)
    requires Live(r, ps)
    modifies r, r.buf, r.transport
    ensures ReadsIn(r, ps, AfterStrings(Window(old(r.pending), left)), now, left, rem, ok)
    ensures ok ==> r.size <= r.buf.Length
  {
    hide Live, TdsBuffer.Reading, TdsBuffer.Whole, Window, Outside, ParseString;
    var was;
    now, rem, ok := LimitString(r, ps, left);
    if ok {
      was, rem, ok := LimitString(r, ps, rem);
    }
  }

  method NewBuffer(r: TdsBuffer, ghost ps: seq<Packet>, n: nat)
    requires Live(r, ps) && r.size <= r.buf.Length
    modifies r`buf
    ensures r.buf == old(r.buf) || fresh(r.buf)
    ensures r.buf.Length == n && Live(r, ps) && (r.Whole() <==> old(r.Whole()))
    ensures r.Reading() <==> AllFit(Holding(ps, |r.pending|), n)
  {
    hide *;
    LiveHas(r, ps);
    FitsIs(r, ps, n);
    r.Resize(n);
    StillLive(r, ps);
  }

  method ReadSize(session: Session, ghost ps: seq<Packet>, left: nat) returns (rem: nat, ok: bool)
    requires Live(session.buf, ps)
    modifies session, session.buf, session.buf.buf, session.buf.transport
    ensures Changes(session, ps, SizeChange(Window(old(session.buf.pending), left)), left, rem, ok)
  {
    hide Live, TdsBuffer.Reading, TdsBuffer.Whole, Window, Outside, AfterStrings, Atoi, AllFit, Holding;
    var r := session.buf;
    var now;
    now, rem, ok := ReadTwoStrings(r, ps, left);
    if ok {
      var size := Atoi(now);
      match size {
        case None => ok := false;
        case Some(n) =>
          NewBuffer(r, ps, n);
      }
    }
  }

  lemma StillLive(r: TdsBuffer, ps: seq<Packet>)
    requires r.Open() && At(ps, r.size, r.queue)
    ensures Live(r, ps)
  {
  }

  method ReadTwoVarBytes(r: TdsBuffer, ghost ps: seq<Packet>, left: nat) returns (now: seq<byte>, rem: nat, ok: bool)
    requires Live(r, ps)
    modifies r, r.buf, r.transport
    ensures ReadsIn(r, ps, AfterBytes(Window(old(r.pending), left)), now, left, rem, ok)
  {
    hide Live, TdsBuffer.Reading, TdsBuffer.Whole, Window, Outside, ParseBytes;
    var was;
    now, rem, ok := LimitVarByte(r, ps, left);
    if ok {
      was, rem, ok := LimitVarByte(r, ps, rem);
    }
  }

  // One change, its kind having been read.
  method ReadChangeBody(session: Session, ghost ps: seq<Packet>, kind: byte, left: nat) returns (rem: nat, ok: bool)
    requires Live(session.buf, ps)
    modifies session, session.buf, session.buf.buf, session.buf.transport
    ensures Changes(session, ps, ChangeOf(kind, Window(old(session.buf.pending), left)), left, rem, ok)
  {
    hide Live, TdsBuffer.Reading, TdsBuffer.Whole, Window, Outside, AllFit, Holding;
    hide DatabaseChange, SizeChange, TranChange, AfterStrings, AfterBytes;
    if kind == 1 {
      rem, ok := ReadDatabase(session, ps, left);
    } else if kind == 4 {
      rem, ok := ReadSize(session, ps, left);
    } else if kind == 8 {
      rem, ok := ReadTran(session, ps, left);
    } else if kind == 13 {
      var now;
      now, rem, ok := ReadTwoStrings(session.buf, ps, left);
    } else {
      var now;
      now, rem, ok := ReadTwoVarBytes(session.buf, ps, left);
      if ok && (kind == 9 || kind == 10) {
        session.tranid := 0;
      }
    }
  }

  // The kind of the next change, or the end of the announced bytes.
  method NextKind(r: TdsBuffer, ghost ps: seq<Packet>, left: nat) returns (kind: byte, ended: bool, ok: bool)
    requires Live(r, ps)
    modifies r, r.buf, r.transport
    ensures r.buf == old(r.buf)
    ensures ok && !ended ==> left > 0 && ReadsIn(r, ps, ParseByte(Window(old(r.pending), left)), kind, left, left - 1, true)
    ensures ok && ended ==> Kept(r, ps) && r.pending == old(r.pending) && Window(old(r.pending), left) == []
    ensures !ok ==> !old(r.Whole()) || !old(r.Reading())
    ensures old(Lost(r, ps)) && left > 0 ==> !ok
  {
    hide Live, At, Lost, Onward, Moves, TdsBuffer.Open, TdsBuffer.Reading, TdsBuffer.Whole, TdsBuffer.NextHasBytes;
    hide Window, Outside, ParseByte, TdsBuffer.NextTooLarge, TdsBuffer.Stuck, Shrinks;
    kind := 0;
    WindowByte(r.pending, left);
    if left == 0 {
      return 0, true, true;
    }
    LiveHas(r, ps);
    r.StuckIs();
    if Lost(r, ps) {
      LostIsStuck(r, ps);
    }
    ghost var size, queue := r.size, r.queue;
    var res := r.Read(1);
    match res {
      case Eof => return 0, true, true;
      case Data(b) =>
        OnwardStep(size, queue, r.size, r.queue);
        StaysLive(r, ps, size, queue);
        return b[0], false, true;
      case _ => return 0, false, false;
    }
  }

  lemma WindowByte(s: seq<byte>, left: nat)
    ensures left == 0 || s == [] ==> Window(s, left) == []
    ensures left > 0 && s != [] ==>
      ParseByte(Window(s, left)) == Ok(s[0], Window(s[1..], left - 1)) && Outside(s[1..], left - 1) == Outside(s, left)
  {
    if left > 0 && s != [] {
      assert Window(s, left)[1..] == Window(s[1..], left - 1);
    }
  }

  // Every new packet size leaves room for the packets that hold what is still to be read when it takes effect.
  predicate ChangesFit(ps: seq<Packet>, w: seq<byte>, after: nat)
    decreases |w|
  {
    w == [] ||
    match ReadChange(w)
    case (_, None) => true
    case (c, Some(rest)) => FitsNext(ps, c, |rest| + after) && ChangesFit(ps, rest, after)
  }

  predicate FitsNext(ps: seq<Packet>, c: EnvChange, k: nat) { c.PacketSize? ==> AllFit(Holding(ps, k), c.n) }

  // The reading of the announced changes: done are those that took effect.
  twostate predicate EnvDone(
    session: Session, ps: seq<Packet>, new w: seq<byte>, after: nat, ok: bool, new done: seq<EnvChange>)
    reads session, session.buf, session.buf.buf, session.buf.transport
  {
    var r := session.buf;
    var fit := old(r.Reading()) && ChangesFit(ps, w, after);
    && (r.buf == old(r.buf) || fresh(r.buf))
    && (if ok then Live(r, ps) && (old(r.Whole()) ==> r.Whole()) && ReadChanges(w).1
        else !ReadChanges(w).1 || !old(r.Whole()) || !fit)
    && (ok && fit ==> r.Reading()) && (ok && !fit && Canonical(ps) ==> !r.Reading())
    && (ok || (old(r.Whole()) && (fit || Canonical(ps))) ==>
          session.State() == Changed(old(session.State()), done) && done <= ReadChanges(w).0)
    && (ok || (old(r.Whole()) && fit) ==> done == ReadChanges(w).0)
  }

  method EnvChanges(session: Session, ghost ps: seq<Packet>, left: nat) returns (ok: bool, ghost done: seq<EnvChange>)
    requires Live(session.buf, ps)
    modifies session, session.buf, session.buf.buf, session.buf.transport
    ensures EnvDone(session, ps, Window(old(session.buf.pending), left), |Outside(old(session.buf.pending), left)|, ok, done)
    ensures ok ==> session.buf.pending == Outside(old(session.buf.pending), left)
  {
    hide Live, Lost, TdsBuffer.Reading, TdsBuffer.Whole, Window, Outside, AllFit, Holding, Canonical;
    hide ReadChanges, ChangesFit, FitsNext, ReadChange, ChangeOf, Changed, Apply, ParseByte;
    var r := session.buf;
    ghost var w, out := Window(r.pending, left), Outside(r.pending, left);
    ghost var fit := r.Reading();
    done := [];
    Unchanged(session.State(), ReadChanges(w).0);
    var rem := left;
    while true
      invariant r.buf == old(r.buf) || fresh(r.buf)
      invariant Live(r, ps) && (old(r.Whole()) ==> r.Whole()) && Outside(r.pending, rem) == out
      invariant (fit ==> r.Reading()) && (!fit && Canonical(ps) ==> !r.Reading())
      invariant old(r.Reading()) && ChangesFit(ps, w, |out|) <==> fit && ChangesFit(ps, Window(r.pending, rem), |out|)
      invariant done + ReadChanges(Window(r.pending, rem)).0 == ReadChanges(w).0
      invariant ReadChanges(Window(r.pending, rem)).1 == ReadChanges(w).1
      invariant session.State() == Changed(old(session.State()), done)
      decreases rem
    {
      ghost var rest := Window(r.pending, rem);
      ChangeStep(ps, rest, |out|);
      IsLost(r, ps);
      var kind, ended;
      kind, ended, ok := NextKind(r, ps, rem);
      if !ok {
        return;
      }
      if ended {
        NothingLeft(r.pending, rem);
        return;
      }
      ghost var here := Window(r.pending, rem - 1);
      BodyOf(rest, kind, here);
      ghost var c := ChangeOf(kind, here).0;
      ChangedSnoc(old(session.State()), done, c);
      Assoc(done, [c], ReadChanges(rest).0[1..]);
      rem, ok := ReadChangeBody(session, ps, kind, rem - 1);
      done := done + [c];
      if !ok {
        return;
      }
      fit := if c.PacketSize? then fit && r.Reading() else fit;
      LengthOf(r.pending, rem);
    }
  }

  lemma Unchanged(st: SessionState, all: seq<EnvChange>)
    ensures Changed(st, []) == st && [] + all == all
  {
  }

  lemma IsLost(r: TdsBuffer, ps: seq<Packet>)
    ensures Lost(r, ps) <==> !r.Reading() && Canonical(ps)
  {
  }

  lemma NothingLeft(s: seq<byte>, left: nat)
    requires Window(s, left) == []
    ensures Outside(s, left) == s
  {
  }

  lemma LengthOf(s: seq<byte>, left: nat)
    ensures |s| == |Window(s, left)| + |Outside(s, left)|
  {
  }

  lemma BodyOf(w: seq<byte>, kind: byte, body: seq<byte>)
    requires ParseByte(w) == Ok(kind, body)
    ensures w != [] && ReadChange(w) == ChangeOf(kind, body)
  {
  }

  lemma ChangeStep(ps: seq<Packet>, w: seq<byte>, after: nat)
    ensures w == [] ==> ReadChanges(w) == ([], true) && ChangesFit(ps, w, after)
    ensures w != [] ==>
      var c := ReadChange(w);
      && ReadChanges(w).0 != [] && ReadChanges(w).0[0] == c.0
      && (c.1.None? ==> ReadChanges(w) == ([c.0], false) && ChangesFit(ps, w, after))
      && (c.1.Some? ==>
            && ReadChanges(w).0[1..] == ReadChanges(c.1.value).0 && ReadChanges(w).1 == ReadChanges(c.1.value).1
            && (ChangesFit(ps, w, after) <==>
                  (c.0.PacketSize? ==> AllFit(Holding(ps, |c.1.value| + after), c.0.n)) && ChangesFit(ps, c.1.value, after)))
  {
    hide ReadChange, AllFit, Holding;
  }

  // ---------- the token loop ----------

  // Reading a token: what it is, and which changes of the session took effect.
  twostate predicate Does(
    session: Session, ps: seq<Packet>, new parsed: Parsed<Token>, new t: Token, fits: bool, new all: seq<EnvChange>,
    new done: seq<EnvChange>, ok: bool)
    reads session, session.buf, session.buf.buf, session.buf.transport
  {
    var r := session.buf;
    var fit := old(r.Reading()) && fits;
    && (r.buf == old(r.buf) || fresh(r.buf))
    && (if ok then Live(r, ps) && (old(r.Whole()) ==> r.Whole()) && parsed == Ok(t, r.pending)
        else parsed.Fail? || !old(r.Whole()) || !fit)
    && (ok && fit ==> r.Reading()) && (ok && !fit && Canonical(ps) ==> !r.Reading())
    && (ok || (old(r.Whole()) && (fit || Canonical(ps))) ==>
          session.State() == Changed(old(session.State()), done) && done <= all)
    && (ok || (old(r.Whole()) && fit) ==> done == all)
  }

  predicate BodyFits(ps: seq<Packet>, s: seq<byte>) {
    match ParseLe(s, 2) case Fail => true case Ok(size, s1) => ChangesFit(ps, Window(s1, size), |Outside(s1, size)|)
  }

  predicate TokenFits(ps: seq<Packet>, s: seq<byte>) { s != [] && s[0] == ENV_CHANGE ==> BodyFits(ps, s[1..]) }

  /** Reads the changes of an ENVCHANGE token in order and makes them. */
  method ProcessEnvChg(session: Session, ghost ps: seq<Packet>) returns (ok: bool, ghost done: seq<EnvChange>)
    requires Live(session.buf, ps)
    modifies session, session.buf, session.buf.buf, session.buf.transport
    ensures var s := old(session.buf.pending);
      Does(session, ps, ParseEnvChange(s), TEnvChange(done), BodyFits(ps, s), ChangesIn(s), done, ok)
    ensures old(Lost(session.buf, ps)) ==> !ok
  {
    hide Live, Lost, TdsBuffer.Reading, TdsBuffer.Whole, Window, Outside, Canonical, ReadChanges, ChangesFit, ParseLe, Changed;
    done := [];
    Unchanged(session.State(), ChangesIn(session.buf.pending));
    var size;
    size, ok := ReadU(session.buf, ps, 2);
    if ok {
      ok, done := EnvChanges(session, ps, size);
    }
  }

  // A token other than ENVCHANGE, its id having been read.
  method ReadBody(r: TdsBuffer, ghost ps: seq<Packet>, cols: seq<Column>, id: byte) returns (t: Token, ok: bool)
    requires Live(r, ps) && id != ENV_CHANGE
    modifies r, r.buf, r.transport
    ensures Reads(r, ps, ParseBody(cols, id, old(r.pending)), t, ok)
    ensures old(Lost(r, ps)) ==> !ok || t.TRow?
  {
    hide Live, Lost, TdsBuffer.Reading, TdsBuffer.Whole, ParseLe;
    hide ParseSspi, ParseLoginAck, ParseOrder, ParseDone, ParseColMetadata, ParseRow, ParseNbcRow, ParseError, ParseEnvChange;
    t := TReturnStatus(0);
    if id == SSPI {
      var msg;
      msg, ok := ReadSspi(r, ps);
      t := TSspi(msg);
    } else if id == RETURN_STATUS {
      var code;
      code, ok := ReadU(r, ps, 4);
      t := TReturnStatus(Signed32(code));
    } else if id == LOGIN_ACK {
      t, ok := ReadLoginAck(r, ps);
    } else if id == ORDER {
      var ids;
      ids, ok := ReadOrder(r, ps);
      t := TOrder(ids);
    } else if id == DONE_IN_PROC || id == DONE || id == DONE_PROC {
      var d;
      d, ok := ReadDone(r, ps);
      t := if id == DONE_IN_PROC then TDoneInProc(d) else TDone(d);
    } else if id == COL_METADATA {
      var cs;
      cs, ok := ReadColMetadata(r, ps);
      t := TColumns(cs);
    } else if id == ROW {
      var vs;
      vs, ok := ReadRow(r, ps, cols);
      t := TRow(vs);
    } else if id == NBC_ROW {
      var vs;
      vs, ok := ReadNbcRow(r, ps, cols);
      t := TRow(vs);
    } else if id == ERROR || id == INFO {
      var e;
      e, ok := ReadError(r, ps);
      t := if id == ERROR then TError(e) else TInfo(e);
    } else {
      ok := false;
    }
  }

  /** All changes of packet size up to the end of the run leave room for what is still to be read. */
  predicate RunFits(ps: seq<Packet>, cols: seq<Column>, s: seq<byte>, failed: bool)
    decreases |s|
  {
    TokenFits(ps, s) &&
    match ParseToken(cols, s)
    case Fail => true
    case Ok(t, rest) =>
      Continues(t, failed) ==> RunFits(ps, if t.TColumns? then t.cols else cols, rest, failed || t.TError?)
  }

  // A beginning of what should be delivered, and then the error.
  predicate CutShort(out: seq<Item>, full: seq<Item>) {
    out != [] && out[|out| - 1] == BadStream && out[..|out| - 1] <= full
  }

  // The next token; none to act on when it is ENVCHANGE, which has been acted on.
  method NextToken(session: Session, ghost ps: seq<Packet>, cols: seq<Column>)
    returns (token: Option<Token>, ok: bool, ghost t: Token, ghost done: seq<EnvChange>)
    requires Live(session.buf, ps)
    modifies session, session.buf, session.buf.buf, session.buf.transport
    ensures var s := old(session.buf.pending);
      Does(session, ps, ParseToken(cols, s), t, TokenFits(ps, s), ChangesAt(s), done, ok)
    ensures ok ==> token == if t.TEnvChange? then None else Some(t)
    ensures ok && !t.TEnvChange? ==> TokenFits(ps, old(session.buf.pending))
    ensures old(Lost(session.buf, ps)) ==> !ok || t.TRow?
  {
    hide Live, Lost, TdsBuffer.Reading, TdsBuffer.Whole, Canonical, ParseByte, ParseBody, ParseEnvChange, BodyFits, ChangesIn, Changed;
    var r := session.buf;
    token, t, done := None, TReturnStatus(0), [];
    ghost var s := r.pending;
    TokenParts(ps, cols, s);
    Unchanged(session.State(), []);
    IsLost(r, ps);
    var id;
    id, ok := NextByte(r, ps);
    if !ok {
      return;
    }
    IsLost(r, ps);
    if id == ENV_CHANGE {
      ok, done := ProcessEnvChg(session, ps);
      t := TEnvChange(done);
    } else {
      ghost var body := ParseBody(cols, id, r.pending);
      if body.Ok? {
        BodyIsOther(cols, id, r.pending);
      }
      var other;
      other, ok := ReadBody(r, ps, cols, id);
      token, t := Some(other), other;
    }
  }

  lemma TokenParts(ps: seq<Packet>, cols: seq<Column>, s: seq<byte>)
    ensures ParseByte(s).Fail? ==> ParseToken(cols, s).Fail? && TokenFits(ps, s) && ChangesAt(s) == []
    ensures ParseByte(s).Ok? ==>
      var (id, s1) := (ParseByte(s).value, ParseByte(s).rest);
      && ParseToken(cols, s) == ParseBody(cols, id, s1)
      && (id == ENV_CHANGE ==>
            ParseToken(cols, s) == ParseEnvChange(s1) && ChangesAt(s) == ChangesIn(s1) &&
            (TokenFits(ps, s) <==> BodyFits(ps, s1)))
      && (id != ENV_CHANGE ==> ChangesAt(s) == [] && TokenFits(ps, s))
  {
    hide ParseEnvChange, BodyFits, ChangesIn;
  }

  lemma BodyIsOther(cols: seq<Column>, id: byte, s: seq<byte>)
    requires id != ENV_CHANGE && ParseBody(cols, id, s).Ok?
    ensures !ParseBody(cols, id, s).value.TEnvChange?
  {
    hide ParseSspi, ParseOrder, ParseDone, ParseColMetadata, ParseRow, ParseNbcRow, ParseError, ParseEnvChange;
  }

  // One turn of the loop, when `out` was delivered and `done` took effect before it.
  lemma LoopStep(ps: seq<Packet>, cols: seq<Column>, s: seq<byte>, failed: bool, done: seq<EnvChange>)
    ensures var r, effects := ParseToken(cols, s), done + Effects(cols, s, failed);
      && (r.Fail? ==> effects == done + ChangesAt(s) && (RunFits(ps, cols, s, failed) <==> TokenFits(ps, s)))
      && (r.Ok? && !Continues(r.value, failed) ==>
            effects == done + ChangesAt(s) && (RunFits(ps, cols, s, failed) <==> TokenFits(ps, s)))
      && (r.Ok? && Continues(r.value, failed) ==>
            var next, late := if r.value.TColumns? then r.value.cols else cols, failed || r.value.TError?;
            && effects == done + ChangesAt(s) + Effects(next, r.rest, late)
            && (RunFits(ps, cols, s, failed) <==> TokenFits(ps, s) && RunFits(ps, next, r.rest, late)))
  {
    hide ParseToken, ChangesAt, Continues, TokenFits;
    var r := ParseToken(cols, s);
    if r.Ok? && Continues(r.value, failed) {
      var next, late := if r.value.TColumns? then r.value.cols else cols, failed || r.value.TError?;
      Assoc(done, ChangesAt(s), Effects(next, r.rest, late));
    } else {
      assert ChangesAt(s) + [] == ChangesAt(s);
    }
  }

  lemma CutAfter(out: seq<Item>, more: seq<Item>)
    ensures CutShort(out + [BadStream], out + more)
  {
    assert (out + [BadStream])[..|out|] == out;
  }

  lemma DoneSoFar(st: SessionState, done: seq<EnvChange>, now: seq<EnvChange>, all: seq<EnvChange>, later: seq<EnvChange>)
    requires now <= all
    ensures Changed(st, done + now) == Changed(Changed(st, done), now) && done + now <= done + all + later
    ensures done + now <= done + all && done + [] == done
  {
    ChangedConcat(st, done, now);
    assert done + all == done + now + all[|now|..];
  }

  // A run that should deliver `full` and make the changes `effects`: it does, or it is cut short, and which of the two
  // is known when everything arrives and the packets do not grow.
  twostate predicate Ran(
    session: Session, ps: seq<Packet>, new full: seq<Item>, new effects: seq<EnvChange>, fits: bool,
    new out: seq<Item>, new done: seq<EnvChange>)
    reads session, session.buf, session.buf.buf, session.buf.transport
  {
    var r := session.buf;
    var fit := old(r.Reading()) && fits;
    && (out == full || CutShort(out, full))
    && (old(r.Whole()) && fit ==> out == full && done == effects)
    && (old(r.Whole()) && !fit && Canonical(ps) ==> CutShort(out, full))
    && (old(r.Whole()) && (fit || Canonical(ps)) ==>
          session.State() == Changed(old(session.State()), done) && done <= effects)
  }

  // The token loop, from the first token on.
  method TokenLoop(session: Session, ghost ps: seq<Packet>) returns (out: seq<Item>, ghost done: seq<EnvChange>)
    requires Live(session.buf, ps)
    modifies session, session.buf, session.buf.buf, session.buf.transport
    ensures var s := old(session.buf.pending);
      Ran(session, ps, Response(s), Effects([], s, false), RunFits(ps, [], s, false), out, done)
  {
    hide Live, Lost, TdsBuffer.Reading, TdsBuffer.Whole, Canonical, CutShort;
    hide ParseToken, ChangesAt, TokenFits, RunFits, Effects, Emit, Trace, Continues, Changed, AfterToken;
    var r := session.buf;
    ghost var s0, st := r.pending, session.State();
    ghost var full, effects, all := Response(s0), Effects([], s0, false), RunFits(ps, [], s0, false);
    var columns: seq<Column> := [];
    var lastError, failed := NO_ERROR, false;
    ghost var fit := r.Reading();
    out, done := [], [];
    Unchanged(st, effects);
    while true
      invariant r.buf == old(r.buf) || fresh(r.buf)
      invariant Live(r, ps) && (old(r.Whole()) ==> r.Whole())
      invariant (fit ==> r.Reading()) && (!fit && Canonical(ps) ==> !r.Reading())
      invariant old(r.Reading()) && all <==> fit && RunFits(ps, columns, r.pending, failed)
      invariant out + Emit(Trace(columns, r.pending), lastError, failed) == full
      invariant session.State() == Changed(st, done) && done + Effects(columns, r.pending, failed) == effects
      decreases |r.pending|
    {
      ghost var s, before := r.pending, done;
      Turn(out, columns, s, lastError, failed);
      LoopStep(ps, columns, s, failed, done);
      CutAfter(out, Emit(Trace(columns, s), lastError, failed));
      IsLost(r, ps);
      var token, ok;
      ghost var t, now;
      token, ok, t, now := NextToken(session, ps, columns);
      if !ok {
        if now <= ChangesAt(s) {
          DoneSoFar(st, done, now, ChangesAt(s), []);
        }
        done := done + now;
        return out + [BadStream], done;
      }
      DoneSoFar(st, done, now, ChangesAt(s), []);
      done := done + now;
      fit := fit && TokenFits(ps, s);
      var goes;
      out, columns, lastError, failed, goes := Act(token, out, columns, lastError, failed, t, r.pending);
      if !goes {
        return;
      }
    }
  }

  // What the loop does with a token; whether it goes on.
  method Act(token: Option<Token>, out: seq<Item>, cols: seq<Column>, lastError: Error, failed: bool,
             ghost t: Token, ghost rest: seq<byte>)
    returns (now: seq<Item>, columns: seq<Column>, latest: Error, late: bool, goes: bool)
    requires token == if t.TEnvChange? then None else Some(t)
    ensures (goes <==> Continues(t, failed)) && (t.TRow? || t.TEnvChange? ==> goes)
    ensures goes ==> columns == (if t.TColumns? then t.cols else cols) && late == (failed || t.TError?)
    ensures AfterToken(out, t, cols, rest, lastError, failed) ==
            if goes then now + Emit(Trace(columns, rest), latest, late) else now
  {
    hide Bit, Emit, Trace, Continues;
    now, columns, latest, late, goes := out, cols, lastError, failed, true;
    match token {
      case None =>
        OthersContinue(t, failed);
        assert out + [] == out;
      case Some(TSspi(msg)) =>
        OthersContinue(t, failed);
        now, goes := out + [Sspi(msg)], false;
      case Some(TDone(d)) =>
        DoneContinues(d, failed);
        if Bit(d.status, DONE_ERROR) || failed {
          now, goes := out + [Failure(lastError)], false;
        } else if Bit(d.status, DONE_SRV_ERROR) {
          now, goes := out + [Failure(lastError.(message := SERVER_ERROR))], false;
        } else {
          now, goes := out + [DoneItem(d)], Bit(d.status, DONE_MORE);
        }
      case Some(TColumns(cs)) =>
        OthersContinue(t, failed);
        columns := cs;
        now := out + [Columns(cs)];
      case Some(TError(e)) =>
        OthersContinue(t, failed);
        latest, late := e, true;
      case Some(other) =>
        OthersContinue(t, failed);
        now := out + Quiet(other);
    }
  }

  /**
   * processResponse over the packet buffer, the changes of packet size replacing that buffer on the way. When all
   * packets arrive and fit, and every change leaves room for what is still to be read, it delivers the response and
   * makes its changes. Otherwise, when the packets do not grow, it delivers a beginning of the response and the error.
   */
  method ProcessResponse(session: Session, ghost ps: seq<Packet>) returns (out: seq<Item>, ghost done: seq<EnvChange>)
    requires ps != [] && NoEmpty(ps[1..])
    requires session.buf.Announced() && session.buf.queue == ps && session.buf.pending == Payloads(ps)
    modifies session, session.buf, session.buf.buf, session.buf.transport
    ensures var full := if ps[0].ptype == 4 then Response(Payloads(ps)) else [BadStream];
      var effects := if ps[0].ptype == 4 then Effects([], Payloads(ps), false) else [];
      var fit := old(session.buf.Arriving()) && (ps[0].ptype == 4 ==> RunFits(ps, [], Payloads(ps), false));
      && (out == full || CutShort(out, full))
      && (old(session.buf.Whole()) && fit ==> out == full && done == effects)
      && (old(session.buf.Whole()) && !fit && Canonical(ps) ==> CutShort(out, full))
      && (old(session.buf.Whole()) && (fit || Canonical(ps)) ==>
            session.State() == Changed(old(session.State()), done) && done <= effects)
  {
    hide Live, At, Canonical, CutShort, RunFits, Effects, Response, Changed, Payloads, NoEmpty;
    hide TdsBuffer.Reading, TdsBuffer.Whole, TdsBuffer.Arriving, TdsBuffer.Announced, TdsBuffer.Open;
    var r := session.buf;
    done := [];
    Unchanged(session.State(), Effects([], Payloads(ps), false));
    ghost var full := if ps[0].ptype == 4 then Response(Payloads(ps)) else [BadStream];
    CutAtOnce(full);
    var begun := r.BeginRead();
    if !begun.Data? || begun.value != 4 {
      return [BadStream], done;
    }
    NowLive(r, ps);
    out, done := TokenLoop(session, ps);
  }

  lemma CutAtOnce(full: seq<Item>)
    ensures CutShort([BadStream], full)
  {
  }

  lemma NowLive(r: TdsBuffer, ps: seq<Packet>)
    requires ps != [] && NoEmpty(ps[1..]) && r.Open() && r.queue == ps[1..] && r.size == HEADER + |ps[0].payload|
    ensures Live(r, ps)
  {
  }

  /** The packets of a writer with one buffer do not grow, and none but the first can be empty. */
  lemma WrittenIsCanonical(t: byte, cap: nat, id: nat, msg: seq<byte>)
    requires cap > 0
    ensures var ps := Packetise(t, cap, id, msg); Canonical(ps) && NoEmpty(ps[1..]) && Payloads(ps) == msg
  {
    hide Packetise;
    CanonicalReadable(t, cap, id, msg, HEADER + cap);
  }
}
