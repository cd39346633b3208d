/**
 * LOGIN7 messages (section 2.2.6.4 of MS-TDS): a fixed header with an offset table, then the fields. Offsets are counted
 * in 16 bits, and the count of a text is that of its characters.
 */
module Login7 {
  import opened Bytes
  import opened Unicode
  import opened Framing
  import ParamStream

  const PACK_LOGIN7: byte := 16
  const HEADER_SIZE := 94

  type uint32 = x: int | 0 <= x < 0x1_0000_0000

  datatype Login = Login(
    tdsVersion: uint32, packetSize: uint32, clientProgVer: uint32, clientPid: uint32, connectionId: uint32,
    optionFlags1: byte, optionFlags2: byte, typeFlags: byte, optionFlags3: byte,
    clientTimeZone: uint32, clientLcid: uint32,
    hostName: seq<scalar>, userName: seq<scalar>, password: seq<scalar>, appName: seq<scalar>,
    serverName: seq<scalar>, ctlIntName: seq<scalar>, language: seq<scalar>, database: seq<scalar>,
    clientId: seq<byte>, sspi: seq<byte>, atchDbFile: seq<scalar>, changePassword: seq<scalar>)
  {
    predicate Valid() { |clientId| == 6 }
  }

  // ---------- passwords ----------

  function Mangle8(c: bv8): bv8 { ((c << 4) | (c >> 4)) ^ 0xa5 }
  function Unmangle8(c: bv8): bv8 { ((c ^ 0xa5) << 4) | ((c ^ 0xa5) >> 4) }

  function MangleByte(b: byte): byte { Mangle8(b as bv8) as int }
  function UnmangleByte(b: byte): byte { Unmangle8(b as bv8) as int }

  lemma Mangle8IsInvertible(c: bv8)
    ensures Unmangle8(Mangle8(c)) == c
  {
  }

  lemma NibblesBack(high: int, low: int)
    requires 0 <= high < 16 && 0 <= low < 16
    ensures ((16 * high + low) as bv8) as int == 16 * high + low
  {
  }

  lemma ByteBack(b: byte)
    ensures (b as bv8) as int == b
  {
    NibblesBack(b / 16, b % 16);
    assert 16 * (b / 16) + b % 16 == b;
  }

  lemma BitsBack(c: bv8)
    ensures (c as int) as bv8 == c
  {
  }

  lemma UnmangleOf(b: byte, c: bv8)
    requires b == c as int
    ensures UnmangleByte(b) == Unmangle8(c) as int
  {
    hide Unmangle8;
    BitsBack(c);
  }

  lemma MangleIsInvertible(b: byte)
    ensures UnmangleByte(MangleByte(b)) == b
  {
    hide Mangle8, Unmangle8, UnmangleByte;
    Mangle8IsInvertible(b as bv8);
    UnmangleOf(MangleByte(b), Mangle8(b as bv8));
    ByteBack(b);
  }

  function Mangle(b: seq<byte>): (r: seq<byte>)
    ensures |r| == |b| && (forall i :: 0 <= i < |b| ==> r[i] == MangleByte(b[i]))
  {
    seq(|b|, i requires 0 <= i < |b| => MangleByte(b[i]))
  }

  function Unmangle(b: seq<byte>): (r: seq<byte>)
    ensures |r| == |b| && (forall i :: 0 <= i < |b| ==> r[i] == UnmangleByte(b[i]))
  {
    seq(|b|, i requires 0 <= i < |b| => UnmangleByte(b[i]))
  }

  lemma UnmangleMangled(b: seq<byte>)
    ensures Unmangle(Mangle(b)) == b
  {
    hide MangleByte, UnmangleByte;
    forall i | 0 <= i < |b|
      ensures UnmangleByte(MangleByte(b[i])) == b[i]
    {
      MangleIsInvertible(b[i]);
    }
  }

  // ---------- the message ----------

  /** A field after the header, and the count its table entry gives: characters, or bytes for SSPI. */
  datatype Field = Field(data: seq<byte>, count: nat)

  function StringField(s: seq<scalar>): Field { Field(Str2Ucs2(s), |s|) }

  const FIELDS := 11
  const PASSWORD := 2
  const SSPI := 8

  /** The fields in the order in which they follow the header. */
  function Fields(l: Login): (r: seq<Field>)
    ensures |r| == FIELDS
  {
    [StringField(l.hostName), StringField(l.userName), Field(Mangle(Str2Ucs2(l.password)), |l.password|),
     StringField(l.appName), StringField(l.serverName), StringField(l.ctlIntName), StringField(l.language),
     StringField(l.database), Field(l.sspi, |l.sspi|), StringField(l.atchDbFile), StringField(l.changePassword)]
  }

  function Data(fs: seq<Field>): seq<byte> {
    if fs == [] then [] else fs[0].data + Data(fs[1..])
  }

  function Entry(f: Field, offset: nat): (r: seq<byte>)
    ensures |r| == 4
  {
    Le(offset, 2) + Le(f.count, 2)
  }

  /** Table entries, when the first of the fields lies at `offset`. */
  function Entries(fs: seq<Field>, offset: nat): (r: seq<byte>)
    ensures |r| == 4 * |fs|
  {
    if fs == [] then [] else Entry(fs[0], offset) + Entries(fs[1..], offset + |fs[0].data|)
  }

  function Fixed(l: Login, length: nat): (r: seq<byte>)
    ensures |r| == 36
  {
    Le(length % 0x1_0000, 4) + Le(l.tdsVersion, 4) + Le(l.packetSize, 4) + Le(l.clientProgVer, 4) + Le(l.clientPid, 4)
    + Le(l.connectionId, 4) + [l.optionFlags1, l.optionFlags2, l.typeFlags, l.optionFlags3]
    + Le(l.clientTimeZone, 4) + Le(l.clientLcid, 4)
  }

  /** The header: the table is interrupted by the unused extension entry and by the client's id. */
  function Header(l: Login): (r: seq<byte>)
    requires l.Valid()
    ensures |r| == HEADER_SIZE
  {
    var t := Entries(Fields(l), HEADER_SIZE);
    Fixed(l, HEADER_SIZE + |Data(Fields(l))|) + t[..20] + [0, 0, 0, 0] + t[20..32] + l.clientId + t[32..] + [0, 0, 0, 0]
  }

  function Message(l: Login): (r: seq<byte>)
    requires l.Valid()
    ensures |r| == HEADER_SIZE + |Data(Fields(l))|
  {
    Header(l) + Data(Fields(l))
  }

  // ---------- reading it back ----------

  /** Where the table entry of the i-th field is. */
  function TablePos(i: nat): nat {
    if i < 5 then 36 + 4 * i else if i < 8 then 40 + 4 * i else 46 + 4 * i
  }

  /** Where the i-th field begins. */
  function Start(fs: seq<Field>, i: nat): nat
    requires i <= |fs|
  {
    HEADER_SIZE + |Data(fs[..i])|
  }

  lemma {:induction false} DataConcat(a: seq<Field>, b: seq<Field>)
    ensures Data(a + b) == Data(a) + Data(b)
  {
    if a == [] {
      assert a + b == b;
    } else {
      assert (a + b)[1..] == a[1..] + b;
      DataConcat(a[1..], b);
    }
  }

  lemma {:induction false} EntryAt(fs: seq<Field>, offset: nat, i: nat)
    requires i < |fs|
    decreases i
    ensures Entries(fs, offset)[4 * i..4 * i + 4] == Entry(fs[i], offset + |Data(fs[..i])|)
  {
    var e, rest := Entry(fs[0], offset), Entries(fs[1..], offset + |fs[0].data|);
    assert Entries(fs, offset) == e + rest;
    if i == 0 {
      assert (e + rest)[..4] == e && fs[..0] == [];
    } else {
      EntryAt(fs[1..], offset + |fs[0].data|, i - 1);
      assert fs[..i][1..] == fs[1..][..i - 1];
      hide Entry, Entries;
      assert (e + rest)[4 * i..4 * i + 4] == rest[4 * (i - 1)..4 * (i - 1) + 4];
    }
  }

  /** Where a stretch of the table lies once it has been cut in three. */
  lemma TableStretch(fixed: seq<byte>, t: seq<byte>, gap: seq<byte>, id: seq<byte>, tail: seq<byte>, i: nat)
    requires |fixed| == 36 && |t| == 44 && |gap| == 4 && |id| == 6 && i < FIELDS
    ensures var at, msg := TablePos(i), fixed + t[..20] + gap + t[20..32] + id + t[32..] + tail;
      at + 4 <= |msg| && msg[at..at + 4] == t[4 * i..4 * i + 4]
  {
    var at, msg, d := TablePos(i), fixed + t[..20] + gap + t[20..32] + id + t[32..] + tail, t[4 * i..4 * i + 4];
    forall j | 0 <= j < 4 ensures msg[at + j] == d[j] {
      assert d[j] == t[4 * i + j];
      if i < 5 {
        assert t[..20][4 * i + j] == d[j];
      } else if i < 8 {
        assert t[20..32][4 * i + j - 20] == d[j];
      } else {
        assert t[32..][4 * i + j - 32] == d[j];
      }
    }
    StretchIs(msg, at, d);
  }

  lemma TableAt(l: Login, i: nat)
    requires l.Valid() && i < FIELDS
    ensures var at, t := TablePos(i), Entries(Fields(l), HEADER_SIZE);
      Message(l)[at..at + 4] == t[4 * i..4 * i + 4]
  {
    var t := Entries(Fields(l), HEADER_SIZE);
    var fixed, data, zeros: seq<byte> := Fixed(l, HEADER_SIZE + |Data(Fields(l))|), Data(Fields(l)), [0, 0, 0, 0];
    hide Fixed, Entries, Data, Fields, TablePos;
    TableStretch(fixed, t, zeros, l.clientId, zeros + data, i);
    assert Message(l) == fixed + t[..20] + zeros + t[20..32] + l.clientId + t[32..] + (zeros + data);
  }

  lemma DataOfOne(f: Field)
    ensures Data([f]) == f.data
  {
    assert Data([f]) == f.data + [];
  }

  lemma DataSplit(fs: seq<Field>, i: nat)
    requires i < |fs|
    ensures Data(fs[..i + 1]) == Data(fs[..i]) + fs[i].data
    ensures Data(fs) == Data(fs[..i]) + fs[i].data + Data(fs[i + 1..])
  {
    hide Data;
    var a, f, b := fs[..i], fs[i], fs[i + 1..];
    DataConcat(a, [f]);
    DataOfOne(f);
    DataConcat(a + [f], b);
    Pieces(fs, i);
  }

  lemma Pieces(fs: seq<Field>, i: nat)
    requires i < |fs|
    ensures fs[..i + 1] == fs[..i] + [fs[i]] && fs == fs[..i] + [fs[i]] + fs[i + 1..]
  {
  }

  lemma Tiles(head: seq<byte>, fs: seq<Field>, i: nat)
    requires |head| == HEADER_SIZE && i < |fs|
    ensures var msg := head + Data(fs);
      && Start(fs, |fs|) == |msg| && Start(fs, i) + |fs[i].data| == Start(fs, i + 1) <= |msg|
      && msg[Start(fs, i)..Start(fs, i + 1)] == fs[i].data
  {
    assert fs[..|fs|] == fs;
    DataSplit(fs, i);
    var before, f, later := Data(fs[..i]), fs[i].data, Data(fs[i + 1..]);
    hide Data;
    Assoc(head, before + f, later);
    Assoc(head, before, f);
    Middle(head + before, f, later);
  }

  /** The fields tile the message after the header: each begins where the one before it ends. */
  lemma FieldsTile(l: Login, i: nat)
    requires l.Valid() && i < FIELDS
    ensures var fs, msg := Fields(l), Message(l);
      && Start(fs, 0) == HEADER_SIZE && Start(fs, FIELDS) == |msg|
      && Start(fs, i) + |fs[i].data| == Start(fs, i + 1) <= |msg|
      && msg[Start(fs, i)..Start(fs, i + 1)] == fs[i].data
  {
    hide Fields;
    Tiles(Header(l), Fields(l), i);
    hide Header;
    assert Fields(l)[..0] == [];
  }

  lemma CountsFit(l: Login, i: nat)
    requires l.Valid() && i < FIELDS
    ensures (if i == SSPI then 1 else 2) * Fields(l)[i].count <= |Fields(l)[i].data|
  {
    if i != SSPI {
      FieldOf(l, i);
      ScalarsFit(StringAt(l, i));
      hide Fields, Str2Ucs2, StringAt;
    }
  }

  predicate NoSupplementary(s: seq<scalar>) { forall i :: 0 <= i < |s| ==> s[i] < 0x1_0000 }

  /** A text takes one unit for each character, and one more for each supplementary one. */
  lemma {:induction false} ScalarsFit(s: seq<scalar>)
    ensures 2 * |s| <= |Str2Ucs2(s)|
    ensures 2 * |s| == |Str2Ucs2(s)| <==> NoSupplementary(s)
  {
    if s != [] {
      ScalarsFit(s[1..]);
      assert NoSupplementary(s) <==> s[0] < 0x1_0000 && NoSupplementary(s[1..]);
    }
  }

  /** The table entry of each field holds its offset and count; `Length` is the size of the message. */
  lemma EntriesAreRight(l: Login, i: nat)
    requires l.Valid() && i < FIELDS && |Message(l)| < 0x1_0000
    ensures var msg, at, f := Message(l), TablePos(i), Fields(l)[i];
      && at + 4 <= HEADER_SIZE
      && FromLe(msg[at..at + 2]) == Start(Fields(l), i) && FromLe(msg[at + 2..at + 4]) == f.count
      && FromLe(msg[..4]) == |msg|
  {
    assert TablePos(i) + 4 <= HEADER_SIZE <= |Message(l)|;
    hide Message, Fields, Start, TablePos, FromLe;
    LengthIsRight(l);
    EntryIsRight(l, i);
  }

  lemma EntryIsRight(l: Login, i: nat)
    requires l.Valid() && i < FIELDS && |Message(l)| < 0x1_0000 && TablePos(i) + 4 <= |Message(l)|
    ensures var msg, at := Message(l), TablePos(i);
      FromLe(msg[at..at + 2]) == Start(Fields(l), i) && FromLe(msg[at + 2..at + 4]) == Fields(l)[i].count
  {
    var msg, fs, at := Message(l), Fields(l), TablePos(i);
    hide Message, Fields, Entries, Start, Data, Entry, FromLe, Le, TablePos;
    TableAt(l, i);
    EntryAt(fs, HEADER_SIZE, i);
    FieldsTile(l, i);
    CountsFit(l, i);
    StartIs(fs, i);
    EntryReads(msg, at, fs[i], Start(fs, i));
  }

  lemma LengthIsRight(l: Login)
    requires l.Valid() && |Message(l)| < 0x1_0000
    ensures |Message(l)| >= 4 && FromLe(Message(l)[..4]) == |Message(l)|
  {
    LengthFirst(l);
    assert |Message(l)| >= 4;
    hide Message, Le, FromLe;
    Pow256Values();
    LeFits(|Message(l)|, 4);
  }

  lemma StartIs(fs: seq<Field>, i: nat)
    requires i <= |fs|
    ensures Start(fs, i) == HEADER_SIZE + |Data(fs[..i])|
  {
  }

  lemma EntryReads(msg: seq<byte>, at: nat, f: Field, offset: nat)
    requires at + 4 <= |msg| && msg[at..at + 4] == Entry(f, offset) && offset < 0x1_0000 && f.count < 0x1_0000
    ensures FromLe(msg[at..at + 2]) == offset && FromLe(msg[at + 2..at + 4]) == f.count
  {
    Pow256Values();
    LeFits(offset, 2);
    LeFits(f.count, 2);
    hide Le, FromLe;
    var e := msg[at..at + 4];
    assert msg[at..at + 2] == e[..2] && msg[at + 2..at + 4] == e[2..];
  }

  lemma LengthFirst(l: Login)
    requires l.Valid() && |Message(l)| < 0x1_0000
    ensures Message(l)[..4] == Le(|Message(l)|, 4)
  {
    var n := HEADER_SIZE + |Data(Fields(l))|;
    hide Le, Entries, Data;
    assert Message(l)[..36] == Fixed(l, n);
    assert Fixed(l, n)[..4] == Le(n, 4);
    assert Message(l)[..4] == Message(l)[..36][..4];
  }

  /** The bytes of the i-th field, read through its own offset and count. */
  function ReadField(msg: seq<byte>, i: nat): Option<seq<byte>>
    requires i < FIELDS && |msg| >= HEADER_SIZE
  {
    var at := TablePos(i);
    var low := FromLe(msg[at..at + 2]);
    var n := FromLe(msg[at + 2..at + 4]) * if i == SSPI then 1 else 2;
    if low + n <= |msg| then Some(msg[low..low + n]) else None
  }

  function ReadString(msg: seq<byte>, i: nat): Option<seq<scalar>>
    requires i < FIELDS && |msg| >= HEADER_SIZE
  {
    match ReadField(msg, i)
    case None => None
    case Some(b) => Ucs22Str(if i == PASSWORD then Unmangle(b) else b)
  }

  function StringAt(l: Login, i: nat): seq<scalar>
    requires i < FIELDS && i != SSPI
  {
    match i
    case 0 => l.hostName
    case 1 => l.userName
    case 2 => l.password
    case 3 => l.appName
    case 4 => l.serverName
    case 5 => l.ctlIntName
    case 6 => l.language
    case 7 => l.database
    case 9 => l.atchDbFile
    case _ => l.changePassword
  }

  lemma FieldRead(l: Login, i: nat)
    requires l.Valid() && i < FIELDS && |Message(l)| < 0x1_0000
    ensures (if i == SSPI then 1 else 2) * Fields(l)[i].count <= |Fields(l)[i].data|
    ensures var f := Fields(l)[i];
      ReadField(Message(l), i) == Some(f.data[..(if i == SSPI then 1 else 2) * f.count])
  {
    hide Message, Fields, Start, FromLe, Data, Login.Valid;
    EntriesAreRight(l, i);
    FieldsTile(l, i);
    CountsFit(l, i);
    var fs, msg := Fields(l), Message(l);
    var low, n := Start(fs, i), (if i == SSPI then 1 else 2) * fs[i].count;
    assert msg[low..low + n] == msg[low..Start(fs, i + 1)][..n];
  }

  lemma SspiRead(l: Login)
    requires l.Valid() && |Message(l)| < 0x1_0000
    ensures ReadField(Message(l), SSPI) == Some(l.sspi)
  {
    FieldRead(l, SSPI);
    hide ReadField, Message;
    assert l.sspi[..|l.sspi|] == l.sspi;
  }

  lemma FieldOf(l: Login, i: nat)
    requires i < FIELDS && i != SSPI
    ensures var b := Str2Ucs2(StringAt(l, i));
      Fields(l)[i] == Field(if i == PASSWORD then Mangle(b) else b, |StringAt(l, i)|)
  {
    hide Str2Ucs2, Mangle;
  }

  /**
   * Every string is read back through its own table entry as it was sent, exactly when it has no
   * supplementary character: counts are in characters, and such a character takes two units.
   */
  lemma StringRead(l: Login, i: nat)
    requires l.Valid() && i < FIELDS && i != SSPI && |Message(l)| < 0x1_0000
    ensures ReadString(Message(l), i) == Some(StringAt(l, i)) <==> NoSupplementary(StringAt(l, i))
  {
    var s := StringAt(l, i);
    var b := Str2Ucs2(s);
    FieldOf(l, i);
    ScalarsFit(s);
    FieldRead(l, i);
    hide Message, Fields, Str2Ucs2, ReadField, StringAt, Ucs22Str, NoSupplementary;
    var part := b[..2 * |s|];
    if i == PASSWORD {
      UnmangleMangled(part);
      assert Mangle(b)[..2 * |s|] == Mangle(part);
    }
    if 2 * |s| == |b| {
      assert part == b;
      Ucs2RoundTrip(s);
    } else {
      ShorterReadsAsOther(s, part);
    }
  }

  // ---------- sending ----------

  lemma EntryOfWrapped(f: Field, offset: nat)
    ensures Entry(f, offset % 0x1_0000) == Entry(f, offset)
  {
    hide Le;
    TwoBytes(offset % 0x1_0000);
    TwoBytes(offset);
    LowBytes(offset);
  }

  lemma TwoBytes(n: nat)
    ensures Le(n, 2) == [n % 256, n / 256 % 256]
  {
    assert Le(n / 256, 1) == [n / 256 % 256] + Le(n / 256 / 256, 0);
  }

  lemma LowBytes(n: nat)
    ensures n % 0x1_0000 % 256 == n % 256 && n % 0x1_0000 / 256 % 256 == n / 256 % 256
  {
    var k, m := n / 0x1_0000, n % 0x1_0000;
    assert n == (256 * k + m / 256) * 256 + m % 256;
    ModOf(n, 256 * k + m / 256, 256, m % 256);
    ModOf(n / 256, k, 256, m / 256);
  }

  lemma EntriesFrom(fs: seq<Field>, i: nat, at: nat)
    requires i < |fs|
    ensures Entries(fs[i..], at) == Entry(fs[i], at) + Entries(fs[i + 1..], at + |fs[i].data|)
    ensures Data(fs[i..]) == fs[i].data + Data(fs[i + 1..])
  {
    hide Entry;
    assert fs[i..][1..] == fs[i + 1..];
  }

  lemma NoEntries(fs: seq<Field>, at: nat)
    ensures Entries(fs[|fs|..], at) == [] && Data(fs[|fs|..]) == []
  {
  }

  lemma WrapAdds(at: nat, n: nat)
    ensures (at % 0x1_0000 + n) % 0x1_0000 == (at + n) % 0x1_0000
  {
  }

  /** The offset loop of sendLogin: 16-bit offsets, and the size of the message at the end. */
  method FillTable(fs: seq<Field>) returns (t: seq<byte>, length: nat)
    ensures t == Entries(fs, HEADER_SIZE) && length == (HEADER_SIZE + |Data(fs)|) % 0x1_0000
  {
    hide Entry, Entries, Data;
    t := [];
    var offset := HEADER_SIZE;
    ghost var at: nat := HEADER_SIZE;
    assert fs[0..] == fs && [] + Entries(fs, HEADER_SIZE) == Entries(fs, HEADER_SIZE);
    for i := 0 to |fs|
      invariant offset == at % 0x1_0000 && at + |Data(fs[i..])| == HEADER_SIZE + |Data(fs)|
      invariant t + Entries(fs[i..], at) == Entries(fs, HEADER_SIZE)
    {
      EntryOfWrapped(fs[i], at);
      EntriesFrom(fs, i, at);
      WrapAdds(at, |fs[i].data|);
      Assoc(t, Entry(fs[i], at), Entries(fs[i + 1..], at + |fs[i].data|));
      t := t + Entry(fs[i], offset);
      offset := (offset + |fs[i].data|) % 0x1_0000;
      at := at + |fs[i].data|;
    }
    length := offset;
    NoEntries(fs, at);
    assert t + [] == t;
  }

  method WriteFields(w: TdsBuffer, fs: seq<Field>) returns (ok: bool)
    requires w.Writing()
    modifies w.buf, w.transport`sent, w.transport`failures, w`pos, w`emitted, w`written
    ensures ok <==> w.transport.failures == old(w.transport.failures)
    ensures ok ==> w.Writing() && w.written == old(w.written) + Data(fs)
    ensures !ok ==> w.Broken()
  {
    hide TdsBuffer.Writing, TdsBuffer.Broken;
    ghost var goal := w.written + Data(fs);
    for i := 0 to |fs|
      invariant w.transport.failures == old(w.transport.failures)
      invariant w.Writing() && w.written + Data(fs[i..]) == goal
    {
      ghost var sofar := w.written;
      ok := ParamStream.Put(w, fs[i].data);
      if !ok {
        return;
      }
      assert fs[i..][1..] == fs[i + 1..];
      Assoc(sofar, fs[i].data, Data(fs[i + 1..]));
    }
    assert w.written + [] == w.written;
    ok := true;
  }

  method SendLogin(w: TdsBuffer, l: Login) returns (ok: bool)
    requires w.Shape() && l.Valid()
    modifies w, w.buf, w.transport`sent, w.transport`failures
    ensures ok <==> w.transport.failures == old(w.transport.failures)
    ensures w.buf == old(w.buf)
    ensures var packets := Packetise(16, w.buf.Length - HEADER, 1, Message(l));
      ok ==> w.transport.sent == old(w.transport.sent) + Wire(packets)
  {
    hide TdsBuffer.Writing, TdsBuffer.Broken, TdsBuffer.Filling, Packetise, Wire, Fields, Fixed, Entries;
    w.BeginPacket(PACK_LOGIN7);
    var t, length := FillTable(Fields(l));
    var zeros: seq<byte> := [0, 0, 0, 0];
    FixedOfWrapped(l);
    ok := ParamStream.Put(w, Fixed(l, length) + t[..20] + zeros + t[20..32] + l.clientId + t[32..] + zeros);
    if ok {
      ok := WriteFields(w, Fields(l));
    }
    if ok {
      assert w.written == Message(l);
      ok := w.FinishPacket();
    }
  }

  lemma FixedOfWrapped(l: Login)
    ensures var n := HEADER_SIZE + |Data(Fields(l))|; Fixed(l, n % 0x1_0000) == Fixed(l, n)
  {
    hide Data, Fields, Le;
    Twice(HEADER_SIZE + |Data(Fields(l))|);
  }

  lemma Twice(n: nat)
    ensures n % 0x1_0000 % 0x1_0000 == n % 0x1_0000
  {
  }
}
