/** What the peer finds on the wire, at its fixed places. Sections are those of MS-TDS. */
module WireForms {
  import opened Bytes
  import opened Unicode
  import opened ServerBytes
  import F = Framing
  import P = Prelogin
  import L = Login7
  import V = ValueCodec
  import R = ParamStream
  import DT = DateTime

  function Big(hi: byte, lo: byte): int { (hi as int) * 0x100 + (lo as int) }

  // ---------- packets (section 2.2.3.1) ----------

  /**
   * The i-th packet of a message: its type, 1 in the last packet and 0 in the others, the length of the packet with the
   * more significant byte first, two zero bytes, a number counted from 1, a zero byte, and a stretch of the message.
   */
  lemma PacketAt(t: byte, cap: nat, msg: seq<byte>, i: nat)
    requires 0 < cap < 0x1_0000 - 8 && i < |F.Packetise(t, cap, 1, msg)|
    ensures var ps := F.Packetise(t, cap, 1, msg);
      var b, from := F.WirePacket(ps[i]), i * cap;
      && |b| >= 8 && b[0] == t && b[1] == (if i + 1 == |ps| then 1 else 0) && Big(b[2], b[3]) == |b|
      && b[4] == 0 && b[5] == 0 && b[6] == (i + 1) % 0x100 && b[7] == 0
      && from <= |msg| && (i + 1 < |ps| ==> |b| == cap + 8 && from + cap < |msg|)
      && b[8..] == if i + 1 == |ps| then msg[from..] else msg[from..][..cap]
  {
    hide F.Packetise, F.WirePacket, Big;
    F.CanonicalAt(t, cap, 1, msg, i);
    HeaderOf(F.Packetise(t, cap, 1, msg)[i]);
    Stretch(msg, i * cap, cap);
  }

  lemma HeaderOf(p: F.Packet)
    requires |p.payload| < 0x1_0000 - 8
    ensures var b := F.WirePacket(p);
      && |b| == |p.payload| + 8 && b[0] == p.ptype && b[1] == p.status && Big(b[2], b[3]) == |b|
      && b[4] == 0 && b[5] == 0 && b[6] == p.id && b[7] == 0 && b[8..] == p.payload
  {
  }

  lemma Stretch(msg: seq<byte>, from: nat, n: nat)
    ensures from + n <= |msg| ==> msg[from..][..n] == msg[from..from + n]
  {
  }

  // ---------- PRELOGIN (section 2.2.6.5) ----------

  /** The i-th record: its key, the offset and the length of its value, most significant byte first; then the value there. */
  lemma RecordAt(m: P.Options, i: nat)
    requires i < |P.Records(m)| && |P.Payload(m)| < 0x1_0000
    ensures var rs, b := P.Records(m), P.Payload(m);
      && 5 * |rs| < |b| && b[5 * |rs|] == 0xff
      && b[5 * i] == rs[i].key && rs[i].key in m
      && var low, size := Big(b[5 * i + 1], b[5 * i + 2]), Big(b[5 * i + 3], b[5 * i + 4]);
      && low + size <= |b| && b[low..low + size] == m[rs[i].key]
  {
    hide P.RecordsFrom, P.PayloadOf, P.ValueOffset, P.Entry;
    var rs := P.Records(m);
    P.EntryPlace(rs, i);
    P.ValuePlace(rs, i);
    P.RecordsAreOrdered(m, 0);
    P.EntryReads(P.Payload(m), 5 * i, rs[i].key, P.ValueOffset(rs, i), |rs[i].value|);
    AfterTable(rs);
  }

  lemma AfterTable(rs: seq<P.Record>)
    ensures 5 * |rs| < |P.PayloadOf(rs)| && P.PayloadOf(rs)[5 * |rs|] == 0xff
  {
    hide P.Table;
  }

  // ---------- LOGIN7 (section 2.2.6.4) ----------

  /** The numbers of a login at their places, the id of the client, and the unused entries. */
  lemma LoginNumbers(l: L.Login)
    requires l.Valid() && |L.Message(l)| < 0x1_0000
    ensures var b := L.Message(l);
      && |b| >= 94 && b[..4] == DWord(|b|) && b[4..8] == DWord(l.tdsVersion) && b[8..12] == DWord(l.packetSize)
      && b[12..16] == DWord(l.clientProgVer) && b[16..20] == DWord(l.clientPid) && b[20..24] == DWord(l.connectionId)
      && b[24] == l.optionFlags1 && b[25] == l.optionFlags2 && b[26] == l.typeFlags && b[27] == l.optionFlags3
      && b[28..32] == DWord(l.clientTimeZone) && b[32..36] == DWord(l.clientLcid)
      && b[56..60] == [0, 0, 0, 0] && b[72..78] == l.clientId && b[90..94] == [0, 0, 0, 0]
  {
    hide DWord, Le, L.Entries, L.Fields, L.Data;
    var n := L.HEADER_SIZE + |L.Data(L.Fields(l))|;
    var fixed, b := L.Fixed(l, n), L.Message(l);
    DWordIs(n);
    DWordIs(l.tdsVersion);
    DWordIs(l.packetSize);
    DWordIs(l.clientProgVer);
    DWordIs(l.clientPid);
    DWordIs(l.connectionId);
    DWordIs(l.clientTimeZone);
    DWordIs(l.clientLcid);
    HeaderParts(l);
    FixedParts(l, n);
    assert b[..36] == fixed;
    assert b[..4] == fixed[..4] && b[4..8] == fixed[4..8] && b[8..12] == fixed[8..12] && b[12..16] == fixed[12..16];
    assert b[16..20] == fixed[16..20] && b[20..24] == fixed[20..24] && b[28..32] == fixed[28..32] && b[32..36] == fixed[32..36];
    assert b[24] == fixed[24] && b[25] == fixed[25] && b[26] == fixed[26] && b[27] == fixed[27];
  }

  lemma FixedParts(l: L.Login, n: nat)
    requires n < 0x1_0000
    ensures var f := L.Fixed(l, n);
      && f[..4] == Le(n, 4) && f[4..8] == Le(l.tdsVersion, 4) && f[8..12] == Le(l.packetSize, 4)
      && f[12..16] == Le(l.clientProgVer, 4) && f[16..20] == Le(l.clientPid, 4) && f[20..24] == Le(l.connectionId, 4)
      && f[24] == l.optionFlags1 && f[25] == l.optionFlags2 && f[26] == l.typeFlags && f[27] == l.optionFlags3
      && f[28..32] == Le(l.clientTimeZone, 4) && f[32..36] == Le(l.clientLcid, 4)
  {
    hide Le;
    var flags := [l.optionFlags1, l.optionFlags2, l.typeFlags, l.optionFlags3];
    NineParts(Le(n, 4), Le(l.tdsVersion, 4), Le(l.packetSize, 4), Le(l.clientProgVer, 4), Le(l.clientPid, 4),
      Le(l.connectionId, 4), flags, Le(l.clientTimeZone, 4), Le(l.clientLcid, 4));
    var f := L.Fixed(l, n);
    assert n % 0x1_0000 == n;
    assert f[24] == f[24..28][0] && f[25] == f[24..28][1] && f[26] == f[24..28][2] && f[27] == f[24..28][3];
  }

  lemma NineParts(a: seq<byte>, b: seq<byte>, c: seq<byte>, d: seq<byte>, e: seq<byte>, f: seq<byte>, g: seq<byte>,
                  h: seq<byte>, i: seq<byte>)
    requires |a| == |b| == |c| == |d| == |e| == |f| == |g| == |h| == |i| == 4
    ensures var s := a + b + c + d + e + f + g + h + i;
      && s[..4] == a && s[4..8] == b && s[8..12] == c && s[12..16] == d && s[16..20] == e && s[20..24] == f
      && s[24..28] == g && s[28..32] == h && s[32..36] == i
  {
  }

  lemma HeaderParts(l: L.Login)
    requires l.Valid()
    ensures var b := L.Message(l);
      && |b| >= 94 && b[..36] == L.Fixed(l, L.HEADER_SIZE + |L.Data(L.Fields(l))|)
      && b[56..60] == [0, 0, 0, 0] && b[72..78] == l.clientId && b[90..94] == [0, 0, 0, 0]
  {
    hide L.Fixed, L.Entries, L.Fields, L.Data;
  }

  /** A text of a login, read through the offset and the number of characters that lie at `at`. */
  function TextAt(b: seq<byte>, at: nat, mangled: bool): Option<seq<scalar>>
    requires at + 4 <= |b|
  {
    var low, n := (b[at] as int) + 0x100 * (b[at + 1] as int), (b[at + 2] as int) + 0x100 * (b[at + 3] as int);
    if low + 2 * n > |b| then None
    else Ucs22Str(if mangled then L.Unmangle(b[low..low + 2 * n]) else b[low..low + 2 * n])
  }

  predicate Shows(b: seq<byte>, at: nat, s: seq<scalar>, mangled: bool) {
    at + 4 <= |b| && (TextAt(b, at, mangled) == Some(s) <==> L.NoSupplementary(s))
  }

  lemma ShowsAt(l: L.Login, i: nat)
    requires l.Valid() && |L.Message(l)| < 0x1_0000 && i < L.FIELDS && i != L.SSPI
    ensures Shows(L.Message(l), L.TablePos(i), L.StringAt(l, i), i == L.PASSWORD)
  {
    hide L.Message, L.StringAt, L.NoSupplementary, L.ReadString, TextAt, L.TablePos;
    L.StringRead(l, i);
    TextIsField(L.Message(l), i);
  }

  lemma TextIsField(b: seq<byte>, i: nat)
    requires |b| >= 94 && i < L.FIELDS && i != L.SSPI
    ensures L.TablePos(i) + 4 <= 94 && TextAt(b, L.TablePos(i), i == L.PASSWORD) == L.ReadString(b, i)
  {
    hide L.Unmangle, Ucs22Str, FromLe;
    var at := L.TablePos(i);
    Two(b[at..at + 2]);
    Two(b[at + 2..at + 4]);
  }

  lemma Two(b: seq<byte>)
    requires |b| == 2
    ensures FromLe(b) == (b[0] as int) + 0x100 * (b[1] as int)
  {
    assert FromLe(b[1..]) == b[1] + 256 * FromLe(b[1..][1..]);
  }

  /** Where each text of a login is announced: it is read there exactly when it has no supplementary characters. */
  lemma LoginTexts(l: L.Login)
    requires l.Valid() && |L.Message(l)| < 0x1_0000
    ensures var b := L.Message(l);
      && Shows(b, 36, l.hostName, false) && Shows(b, 40, l.userName, false) && Shows(b, 44, l.password, true)
      && Shows(b, 48, l.appName, false) && Shows(b, 52, l.serverName, false) && Shows(b, 60, l.ctlIntName, false)
      && Shows(b, 64, l.language, false) && Shows(b, 68, l.database, false) && Shows(b, 82, l.atchDbFile, false)
      && Shows(b, 86, l.changePassword, false)
  {
    hide L.Message, Shows;
    ShowsAt(l, 0);
    ShowsAt(l, 1);
    ShowsAt(l, 2);
    ShowsAt(l, 3);
    ShowsAt(l, 4);
    ShowsAt(l, 5);
    ShowsAt(l, 6);
    ShowsAt(l, 7);
    ShowsAt(l, 9);
    ShowsAt(l, 10);
  }

  /** The SSPI bytes are announced at 78. */
  lemma LoginSspi(l: L.Login)
    requires l.Valid() && |L.Message(l)| < 0x1_0000
    ensures var b := L.Message(l);
      && |b| >= 94
      && var low, n := (b[78] as int) + 0x100 * (b[79] as int), (b[80] as int) + 0x100 * (b[81] as int);
      && low + n <= |b| && b[low..low + n] == l.sspi
  {
    L.SspiRead(l);
    hide L.Message;
    var b := L.Message(l);
    Two(b[78..80]);
    Two(b[80..82]);
  }

  /** Mangling swaps the halves of a byte and flips its bits 0, 2, 5 and 7. */
  lemma MangledBit(c: bv8, i: nat)
    requires i < 8
    ensures var bit := (c >> ((i + 4) % 8)) & 1;
      (L.Mangle8(c) >> i) & 1 == if i == 0 || i == 2 || i == 5 || i == 7 then bit ^ 1 else bit
  {
  }

  // ---------- parameters (section 2.2.6.6) ----------

  // Bytes after their length: one chunk of what 32 bits of the length count, and the end.
  function Chunked(b: seq<byte>): seq<byte> {
    var n := |b| % 0x1_0000_0000;
    QWord(|b| % 0x1_0000_0000_0000_0000) + if n == 0 then [0, 0, 0, 0] else DWord(n) + b[..n] + [0, 0, 0, 0]
  }

  // A value of up to 8000 bytes, but not none, follows its length in two bytes; others are sent in chunks.
  function Varying(id: byte, collation: seq<byte>, b: seq<byte>): seq<byte> {
    if 0 < |b| <= 8000 then [id] + Word(|b|) + collation + Word(|b|) + b
    else [id, 0xff, 0xff] + collation + Chunked(b)
  }

  /** A parameter on the wire: its type, and its value. */
  function SentParam(v: V.Value): seq<byte>
    requires V.Sendable(v)
  {
    match v
    case Null => [0xe7, 2, 0, 0, 0, 0, 0, 0, 0xff, 0xff]
    case Int(i) => [0x26, 8, 8] + QWord(if i < 0 then i + 0x1_0000_0000_0000_0000 else i)
    case Float(bits) => [0x6d, 8, 8] + QWord(bits)
    case Bool(b) => [0x68, 1, 1, if b then 1 else 0]
    case Binary(b) => Varying(0xa5, [], b)
    case Str(s) => Varying(0xe7, [0, 0, 0, 0, 0], Text(s))
    case Moment(unix, nanos, zone) => [0x2b, 7, 10] + DT.Encode(DT.Time(unix, nanos, zone))
  }

  lemma NoCollation()
    ensures V.CollationBytes(V.NO_COLLATION) == [0, 0, 0, 0, 0]
  {
    DWordIs(0);
  }

  lemma ChunkedIs(b: seq<byte>)
    ensures V.PlpBytes(b) == Chunked(b)
  {
    hide Le, DWord, QWord, V.PlpChunks;
    var n := |b| % 0x1_0000_0000;
    V.WriterChunks(b);
    QWordIs(|b| % 0x1_0000_0000_0000_0000);
    DWordIs(n);
    Zeros();
    LeWraps(|b|);
  }

  lemma Zeros()
    ensures Le(0, 4) == [0, 0, 0, 0]
  {
    DWordIs(0);
  }

  lemma LeWraps(n: nat)
    ensures Le(n % 0x1_0000_0000_0000_0000, 8) == Le(n, 8)
  {
    Pow256Values();
    LeOfMod(n, 8);
  }

  lemma {:induction false} LeOfMod(n: nat, w: nat)
    ensures Le(n % Pow256(w), w) == Le(n, w)
  {
    if w > 0 {
      var p := Pow256(w - 1);
      ModStep(n, p);
      var m := n % Pow256(w);
      ModOf(m, n / 256 % p, 256, n % 256);
      LeOfMod(n / 256, w - 1);
    }
  }

  lemma VaryingIs(id: byte, b: seq<byte>)
    requires id == 0xa5 || id == 0xe7
    ensures var ti := V.TypeInfo(id, |b|, 0, 0, V.NO_COLLATION);
      V.Encodable(ti) && V.Writable(ti) &&
      V.ParamBytes(V.Param(ti, Some(b))) == Varying(id, if id == 0xe7 then [0, 0, 0, 0, 0] else [], b)
  {
    hide V.TypeInfoBytes, V.ValueBytes, Word, Chunked;
    VaryingType(id, |b|);
    VaryingValue(id, b);
  }

  lemma VaryingType(id: byte, n: nat)
    requires id == 0xa5 || id == 0xe7
    ensures V.TypeInfoBytes(V.TypeInfo(id, n, 0, 0, V.NO_COLLATION)) ==
      [id] + (if 0 < n <= 8000 then Word(n) else [0xff, 0xff]) + if id == 0xe7 then [0, 0, 0, 0, 0] else []
  {
    hide Le, Word, V.CollationBytes;
    NoCollation();
    WordIs(0xffff);
    SmallWords();
    if n <= 8000 {
      WordIs(n);
    }
  }

  lemma VaryingValue(id: byte, b: seq<byte>)
    requires id == 0xa5 || id == 0xe7
    ensures V.Writable(V.TypeInfo(id, |b|, 0, 0, V.NO_COLLATION))
    ensures V.ValueBytes(V.TypeInfo(id, |b|, 0, 0, V.NO_COLLATION), Some(b)) ==
      if 0 < |b| <= 8000 then Word(|b|) + b else Chunked(b)
  {
    hide Le, Word, Chunked, V.PlpBytes;
    ChunkedIs(b);
    if |b| <= 8000 {
      WordIs(|b|);
    }
  }

  /** The bytes of a parameter are these. */
  lemma ParamIsSent(v: V.Value)
    requires V.Sendable(v)
    ensures V.Encodable(V.MakeParam(v).ti) && V.Writable(V.MakeParam(v).ti) && V.ParamBytes(V.MakeParam(v)) == SentParam(v)
  {
    hide Varying, Text, Str2Ucs2, DT.Encode, V.ParamBytes;
    V.ParamsAreWritable(v);
    match v {
      case Null => NullIsSent();
      case Binary(b) => VaryingIs(0xa5, b);
      case Str(s) =>
        TextIs(s);
        VaryingIs(0xe7, Text(s));
      case _ => FixedIsSent(v);
    }
  }

  lemma NullIsSent()
    ensures V.ParamBytes(V.MakeParam(V.Null)) == SentParam(V.Null)
  {
    hide Le, Word, V.CollationBytes;
    NoCollation();
    WordIs(2);
    WordIs(0xffff);
    SmallWords();
  }

  lemma FixedIsSent(v: V.Value)
    requires V.Sendable(v) && (v.Int? || v.Float? || v.Bool? || v.Moment?)
    ensures V.Encodable(V.MakeParam(v).ti) && V.Writable(V.MakeParam(v).ti) && V.ParamBytes(V.MakeParam(v)) == SentParam(v)
  {
    hide Le, QWord, DT.Encode;
    match v {
      case Int(i) => QWordIs(if i < 0 then i + 0x1_0000_0000_0000_0000 else i);
      case Float(bits) => QWordIs(bits);
      case _ =>
    }
  }

  lemma SmallWords()
    ensures Word(2) == [2, 0] && Word(0xffff) == [0xff, 0xff]
  {
  }

  /** An argument of a remote call: the units of its name, its name, its flags, and the parameter. */
  lemma ArgumentIsSent(a: R.Argument)
    requires R.Good(a)
    ensures Short(a.name) && R.RpcParamBytes(R.Made(a)) == ShortText(a.name) + [a.flags] + SentParam(a.v)
  {
    hide Text, SentParam, V.ParamBytes, V.MakeParam, UnitBytes, ToUtf16;
    TextIs(a.name);
    ParamIsSent(a.v);
  }
}
