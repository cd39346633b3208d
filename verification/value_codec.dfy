/** TYPE_INFO and values on the wire: what the driver sends as parameters and how it is read back. */
module ValueCodec {
  import opened Bytes
  import opened Unicode
  import DateTime

  // fixed-length types
  const NULL_TYPE: byte := 0x1f
  const INT1: byte := 0x30
  const BIT: byte := 0x32
  const INT2: byte := 0x34
  const INT4: byte := 0x38
  const DATETIM4: byte := 0x3a
  const FLT4: byte := 0x3b
  const MONEY: byte := 0x3c
  const DATETIME: byte := 0x3d
  const FLT8: byte := 0x3e
  const MONEY4: byte := 0x7a
  const INT8: byte := 0x7f
  // byte-length types
  const GUID: byte := 0x24
  const INT_N: byte := 0x26
  const DECIMAL: byte := 0x37
  const NUMERIC: byte := 0x3f
  const BIT_N: byte := 0x68
  const DECIMAL_N: byte := 0x6a
  const NUMERIC_N: byte := 0x6c
  const FLT_N: byte := 0x6d
  const MONEY_N: byte := 0x6e
  const DATETIME_N: byte := 0x6f
  const DATE_N: byte := 0x28
  const TIME_N: byte := 0x29
  const DATETIME2_N: byte := 0x2a
  const DATETIMEOFFSET_N: byte := 0x2b
  const CHAR: byte := 0x2f
  const VARCHAR: byte := 0x27
  const BINARY: byte := 0x2d
  const VARBINARY: byte := 0x25
  // short-length types
  const BIG_VARBIN: byte := 0xa5
  const BIG_VARCHAR: byte := 0xa7
  const BIG_BINARY: byte := 0xad
  const BIG_CHAR: byte := 0xaf
  const NVARCHAR: byte := 0xe7
  const NCHAR: byte := 0xef
  const XML: byte := 0xf1
  const UDT: byte := 0xf0
  // long-length types
  const TEXT: byte := 0x23
  const IMAGE: byte := 0x22
  const NTEXT: byte := 0x63
  const VARIANT: byte := 0x62

  type uint32 = x: int | 0 <= x < 0x1_0000_0000
  type uint64 = x: int | 0 <= x < 0x1_0000_0000_0000_0000
  type int64 = DateTime.int64

  datatype Collation = Collation(lcidAndFlags: uint32, sortId: byte)

  datatype TypeInfo = TypeInfo(typeId: byte, size: nat, scale: byte, prec: byte, collation: Collation)

  const NO_COLLATION := Collation(0, 0)

  datatype Class = FixedLen(size: nat) | Date | Time | ByteLen | ShortLen | XmlType | LongLen | Unknown

  function ClassOf(id: byte): Class {
    if id == NULL_TYPE then FixedLen(0)
    else if id == INT1 || id == BIT then FixedLen(1)
    else if id == INT2 then FixedLen(2)
    else if id == INT4 || id == DATETIM4 || id == FLT4 || id == MONEY4 then FixedLen(4)
    else if id == MONEY || id == DATETIME || id == FLT8 || id == INT8 then FixedLen(8)
    else if id == DATE_N then Date
    else if id == TIME_N || id == DATETIME2_N || id == DATETIMEOFFSET_N then Time
    else if id == GUID || id == INT_N || id == DECIMAL || id == NUMERIC || id == BIT_N || id == DECIMAL_N
         || id == NUMERIC_N || id == FLT_N || id == MONEY_N || id == DATETIME_N || id == CHAR || id == VARCHAR
         || id == BINARY || id == VARBINARY then ByteLen
    else if id == BIG_VARBIN || id == BIG_VARCHAR || id == BIG_BINARY || id == BIG_CHAR || id == NVARCHAR
         || id == NCHAR || id == UDT then ShortLen
    else if id == XML then XmlType
    else if id == TEXT || id == IMAGE || id == NTEXT || id == VARIANT then LongLen
    else Unknown
  }

  predicate HasCollation(id: byte) { id == BIG_VARCHAR || id == BIG_CHAR || id == NVARCHAR || id == NCHAR }
  predicate HasPrecision(id: byte) { id == DECIMAL || id == NUMERIC || id == DECIMAL_N || id == NUMERIC_N }

  // ---------- writing ----------

  datatype Writer = NoWriter | ByteLenWriter | ShortLenWriter | PlpWriter

  function CollationBytes(c: Collation): (r: seq<byte>)
    ensures |r| == 5
  {
    Le(c.lcidAndFlags, 4) + [c.sortId]
  }

  // writeVarLen panics on the other types and sizes
  predicate Encodable(ti: TypeInfo) {
    match ClassOf(ti.typeId)
    case ByteLen => ti.size <= 0xff
    case LongLen => false
    case Unknown => false
    case _ => true
  }

  function SizeBytes(ti: TypeInfo): seq<byte> {
    if ti.size > 8000 || ti.size == 0 then Le(0xffff, 2) else Le(ti.size, 2)
  }

  function TypeInfoBytes(ti: TypeInfo): seq<byte>
    requires Encodable(ti)
  {
    [ti.typeId] + match ClassOf(ti.typeId)
      case Time => [ti.scale]
      case ByteLen => [ti.size] + (if HasPrecision(ti.typeId) then [ti.prec, ti.scale] else [])
      case ShortLen => SizeBytes(ti) + (if HasCollation(ti.typeId) then CollationBytes(ti.collation) else [])
      case XmlType => SizeBytes(ti) + [0]
      case _ => []
  }

  function WriterOf(ti: TypeInfo): Writer {
    match ClassOf(ti.typeId)
    case Time => ByteLenWriter
    case ByteLen => ByteLenWriter
    case ShortLen => if ti.size > 8000 || ti.size == 0 then PlpWriter else ShortLenWriter
    case XmlType => if ti.size > 8000 || ti.size == 0 then PlpWriter else ShortLenWriter
    case _ => NoWriter
  }

  const CHUNK := 0x1_0000_0000

  /** Chunks as the writer cuts them: the chunk size is the 32-bit remainder of what is left. */
  function PlpChunks(v: seq<byte>): seq<byte>
    decreases |v|
  {
    var n := |v| % CHUNK;
    Le(n, 4) + if n == 0 then [] else v[..n] + PlpChunks(v[n..])
  }

  function PlpBytes(v: seq<byte>): seq<byte> { Le(|v|, 8) + PlpChunks(v) }

  function Content(buf: Option<seq<byte>>): seq<byte> { if buf.None? then [] else buf.value }

  // A nil Writer cannot be called, and the length-prefixed writers panic on sizes beyond their prefix.
  predicate Writable(ti: TypeInfo) {
    match WriterOf(ti)
    case NoWriter => false
    case ByteLenWriter => ti.size <= 0xff
    case _ => true
  }

  function ValueBytes(ti: TypeInfo, buf: Option<seq<byte>>): seq<byte>
    requires Writable(ti)
  {
    match WriterOf(ti)
    case ByteLenWriter => [ti.size] + Content(buf)
    case ShortLenWriter => if buf.None? then Le(0xffff, 2) else Le(ti.size, 2) + buf.value
    case PlpWriter => PlpBytes(Content(buf))
  }

  // ---------- reading ----------

  datatype Reader = FixedReader | ByteLenReader | ShortLenReader | PlpReader | LongLenReader | VariantReader

  function ParseByte(s: seq<byte>): (r: Parsed<byte>)
    ensures r.Ok? ==> |r.rest| <= |s|
  {
    if s == [] then Fail else Ok(s[0], s[1..])
  }

  function ParseLe(s: seq<byte>, w: nat): (r: Parsed<nat>)
    ensures r.Ok? ==> |r.rest| + w == |s|
  {
    var (b, rest) :- Take(s, w);
    Ok(FromLe(b), rest)
  }

  function ParseCollation(s: seq<byte>): (r: Parsed<Collation>)
    ensures r.Ok? ==> |r.rest| <= |s|
  {
    var (b, s1) :- Take(s, 4);
    var (sortId, rest) :- ParseByte(s1);
    FromLeBound(b);
    Pow256Values();
    Ok(Collation(FromLe(b), sortId), rest)
  }

  /** A string prefixed by its number of characters in `w` bytes; its bytes are returned. */
  function ParseVarChar(s: seq<byte>, w: nat): (r: Parsed<seq<byte>>)
    ensures r.Ok? ==> |r.rest| + w <= |s|
  {
    var (n, s1) :- ParseLe(s, w);
    Take(s1, 2 * n)
  }

  function SkipStrings(s: seq<byte>, n: nat): (r: Parsed<()>)
    ensures r.Ok? ==> |r.rest| <= |s|
  {
    if n == 0 then Ok((), s)
    else
      var (_, rest) :- ParseVarChar(s, 2);
      SkipStrings(rest, n - 1)
  }

  function ParseTimeInfo(id: byte, s: seq<byte>): (r: Parsed<(TypeInfo, Reader)>)
    ensures r.Ok? ==> |r.rest| <= |s|
  {
    var (scale, rest) :- ParseByte(s);
    if scale > 7 then Fail
    else
      var size := DateTime.TimeWidth(scale) + if id == DATETIME2_N then 3 else if id == DATETIMEOFFSET_N then 5 else 0;
      Ok((TypeInfo(id, size, scale, 0, NO_COLLATION), ByteLenReader), rest)
  }

  function ParseByteLenInfo(id: byte, s: seq<byte>): (r: Parsed<(TypeInfo, Reader)>)
    ensures r.Ok? ==> |r.rest| <= |s|
  {
    var (size, s1) :- ParseByte(s);
    if HasPrecision(id) then
      var (prec, s2) :- ParseByte(s1);
      var (scale, rest) :- ParseByte(s2);
      Ok((TypeInfo(id, size, scale, prec, NO_COLLATION), ByteLenReader), rest)
    else Ok((TypeInfo(id, size, 0, 0, NO_COLLATION), ByteLenReader), s1)
  }

  function ParseShortLenInfo(id: byte, s: seq<byte>): (r: Parsed<(TypeInfo, Reader)>)
    ensures r.Ok? ==> |r.rest| <= |s|
  {
    var (size, s1) :- ParseLe(s, 2);
    var reader := if size == 0xffff then PlpReader else ShortLenReader;
    if HasCollation(id) then
      var (c, rest) :- ParseCollation(s1);
      Ok((TypeInfo(id, size, 0, 0, c), reader), rest)
    else Ok((TypeInfo(id, size, 0, 0, NO_COLLATION), reader), s1)
  }

  function ParseXmlInfo(s: seq<byte>): (r: Parsed<(TypeInfo, Reader)>)
    ensures r.Ok? ==> |r.rest| <= |s|
  {
    var (schema, s1) :- ParseByte(s);
    var ti := TypeInfo(XML, 0, 0, 0, NO_COLLATION);
    if schema == 0 then Ok((ti, PlpReader), s1)
    else
      var (_, s2) :- ParseVarChar(s1, 1);
      var (_, s3) :- ParseVarChar(s2, 1);
      var (_, rest) :- ParseVarChar(s3, 2);
      Ok((ti, PlpReader), rest)
  }

  function ParseLongLenInfo(id: byte, s: seq<byte>): (r: Parsed<(TypeInfo, Reader)>)
    ensures r.Ok? ==> |r.rest| <= |s|
  {
    var (size, s1) :- ParseLe(s, 4);
    if id == VARIANT then Ok((TypeInfo(id, size, 0, 0, NO_COLLATION), VariantReader), s1)
    else if id == IMAGE then
      var (parts, s2) :- ParseByte(s1);
      var (_, rest) :- SkipStrings(s2, parts);
      Ok((TypeInfo(id, size, 0, 0, NO_COLLATION), LongLenReader), rest)
    else
      var (c, s2) :- ParseCollation(s1);
      var (parts, s3) :- ParseByte(s2);
      var (_, rest) :- SkipStrings(s3, parts);
      Ok((TypeInfo(id, size, 0, 0, c), LongLenReader), rest)
  }

  function ParseTypeInfo(s: seq<byte>): (r: Parsed<(TypeInfo, Reader)>)
    ensures r.Ok? ==> |r.rest| <= |s|
  {
    var (id, rest) :- ParseByte(s);
    match ClassOf(id)
    case FixedLen(size) => Ok((TypeInfo(id, size, 0, 0, NO_COLLATION), FixedReader), rest)
    case Date => Ok((TypeInfo(id, 3, 0, 0, NO_COLLATION), ByteLenReader), rest)
    case Time => ParseTimeInfo(id, rest)
    case ByteLen => ParseByteLenInfo(id, rest)
    case ShortLen => ParseShortLenInfo(id, rest)
    case XmlType => ParseXmlInfo(rest)
    case LongLen => ParseLongLenInfo(id, rest)
    case Unknown => Fail
  }

  /** A value as it lies on the wire. */
  datatype Cell = NullCell | Raw(bytes: seq<byte>)

  function ParseChunks(s: seq<byte>, sofar: seq<byte>): (r: Parsed<seq<byte>>)
    ensures r.Ok? ==> |r.rest| <= |s|
    decreases |s|
  {
    if |s| < 4 then Fail
    else
      var n := FromLe(s[..4]);
      if n == 0 then Ok(sofar, s[4..])
      else if |s| - 4 < n then Fail
      else ParseChunks(s[4 + n..], sofar + s[4..4 + n])
  }

  const PLP_NULL := 0xffff_ffff_ffff_ffff
  const PLP_UNKNOWN := 0xffff_ffff_ffff_fffe

  type AllocationLimit = x: int | 0x1_0000_0000 <= x < DateTime.TWO63 witness 0x1_0000_0000

  /** The largest buffer the Go runtime makes: it differs between platforms, and anything beyond it panics. */
  const MAX_ALLOC: AllocationLimit

  // The buffer is allocated with the declared length.
  predicate Allocates(size: nat) { size <= MAX_ALLOC || size == PLP_UNKNOWN }

  function ParsePlp(s: seq<byte>): (r: Parsed<Cell>)
    ensures r.Ok? ==> |r.rest| <= |s|
  {
    var (size, rest) :- ParseLe(s, 8);
    if size == PLP_NULL then Ok(NullCell, rest)
    else if !Allocates(size) then Fail
    else
      var (v, after) :- ParseChunks(rest, []);
      Ok(Raw(v), after)
  }

  function ParseByteLenCell(ti: TypeInfo, s: seq<byte>): (r: Parsed<Cell>)
    ensures r.Ok? ==> |r.rest| <= |s|
  {
    var (n, rest) :- ParseByte(s);
    if n == 0 then Ok(NullCell, rest)
    else if n > ti.size then Fail
    else
      var (b, after) :- Take(rest, n);
      Ok(Raw(b), after)
  }

  function ParseShortLenCell(ti: TypeInfo, s: seq<byte>): (r: Parsed<Cell>)
    ensures r.Ok? ==> |r.rest| <= |s|
  {
    var (n, rest) :- ParseLe(s, 2);
    if n == 0xffff then Ok(NullCell, rest)
    else if n > ti.size then Fail
    else
      var (b, after) :- Take(rest, n);
      Ok(Raw(b), after)
  }

  function ParseLongLenCell(s: seq<byte>): (r: Parsed<Cell>)
    ensures r.Ok? ==> |r.rest| <= |s|
  {
    var (ptr, s1) :- ParseByte(s);
    if ptr == 0 then Ok(NullCell, s1)
    else
      var (_, s2) :- Take(s1, ptr + 8);
      var (n, s3) :- ParseLe(s2, 4);
      if n == 0xffff_ffff then Ok(NullCell, s3)
      else if n >= 0x8000_0000 then Fail
      else
        var (b, after) :- Take(s3, n);
        Ok(Raw(b), after)
  }

  function ParseCell(ti: TypeInfo, reader: Reader, s: seq<byte>): (r: Parsed<Cell>)
    ensures r.Ok? ==> |r.rest| <= |s|
  {
    match reader
    case FixedReader =>
      var (b, rest) :- Take(s, ti.size);
      Ok(if ti.typeId == NULL_TYPE then NullCell else Raw(b), rest)
    case ByteLenReader => ParseByteLenCell(ti, s)
    case ShortLenReader => ParseShortLenCell(ti, s)
    case PlpReader => ParsePlp(s)
    case LongLenReader => ParseLongLenCell(s)
    case VariantReader => Fail
  }

  // ---------- driver values ----------

  datatype Value =
    | Null
    | Int(i: int64)
    | Float(bits: uint64)
    | Bool(b: bool)
    | Binary(bytes: seq<byte>)
    | Str(s: seq<scalar>)
    | Moment(unix: int, nanos: int, zone: int)
    | Other(typeId: byte, raw: seq<byte>)

  predicate Sendable(v: Value) {
    match v
    case Moment(unix, nanos, zone) => -DateTime.TWO63 <= unix < DateTime.TWO63 && DateTime.Time(unix, nanos, zone).Valid()
    case Other(_, _) => false
    case _ => true
  }

  datatype Param = Param(ti: TypeInfo, buffer: Option<seq<byte>>)

  function MakeParam(v: Value): Param
    requires Sendable(v)
  {
    match v
    case Null => Param(TypeInfo(NVARCHAR, 2, 0, 0, NO_COLLATION), None)
    case Int(i) =>
      Param(TypeInfo(INT_N, 8, 0, 0, NO_COLLATION), Some(Le(i % 0x1_0000_0000_0000_0000, 8)))
    case Float(bits) => Param(TypeInfo(FLT_N, 8, 0, 0, NO_COLLATION), Some(Le(bits, 8)))
    case Binary(b) => Param(TypeInfo(BIG_VARBIN, |b|, 0, 0, NO_COLLATION), Some(b))
    case Str(s) => var b := Str2Ucs2(s); Param(TypeInfo(NVARCHAR, |b|, 0, 0, NO_COLLATION), Some(b))
    case Bool(b) => Param(TypeInfo(BIT_N, 1, 0, 0, NO_COLLATION), Some([if b then 1 else 0]))
    case Moment(unix, nanos, zone) =>
      Param(TypeInfo(DATETIMEOFFSET_N, 10, 7, 0, NO_COLLATION), Some(DateTime.Encode(DateTime.Time(unix, nanos, zone))))
  }

  function SignedLe(b: seq<byte>): int {
    var n := FromLe(b);
    if 2 * n < Pow256(|b|) then n else n - Pow256(|b|)
  }

  lemma SignedLeBound(b: seq<byte>)
    requires |b| == 1 || |b| == 2 || |b| == 4 || |b| == 8
    ensures -DateTime.TWO63 <= SignedLe(b) < DateTime.TWO63 && 0 <= FromLe(b) < 0x1_0000_0000_0000_0000
  {
    FromLeBound(b);
    Pow256Values();
  }

  // Sizes at which the readers panic.
  predicate BadSize(ti: TypeInfo, n: nat) {
    var id := ti.typeId;
    if id == INT_N then n != 1 && n != 2 && n != 4 && n != 8
    else if id == BIT_N || id == BIT || id == INT1 then n != 1
    else if id == INT2 then n != 2
    else if id == INT4 then n != 4
    else if id == INT8 || id == FLT8 then n != 8
    else if id == FLT_N || id == MONEY_N || id == DATETIME_N then n != 4 && n != 8
    else if id == DATE_N then n != 3
    else if id == DATETIME2_N then n < 3
    else if id == DATETIMEOFFSET_N then n < 5
    else HasPrecision(id) && (n < 1 || n > 20)
  }

  predicate IsInteger(id: byte) { id == INT_N || id == INT1 || id == INT2 || id == INT4 || id == INT8 }

  predicate IsBinary(id: byte) {
    id == BIG_VARBIN || id == BIG_BINARY || id == VARBINARY || id == BINARY || id == IMAGE
  }

  // Days or times without a zone.
  predicate IsDate(id: byte) { id == DATE_N || id == TIME_N || id == DATETIME2_N }

  /** The value a cell stands for; None where the reader panics. */
  function Interpret(ti: TypeInfo, cell: Cell): Option<Value> {
    if cell.NullCell? then Some(Null)
    else
      var b := cell.bytes;
      if BadSize(ti, |b|) then None
      else if IsInteger(ti.typeId) then
        SignedLeBound(b);
        Some(Int(if |b| == 1 then b[0] else SignedLe(b)))
      else if ti.typeId == BIT_N || ti.typeId == BIT then Some(Bool(b[0] != 0))
      else if (ti.typeId == FLT_N || ti.typeId == FLT8) && |b| == 8 then SignedLeBound(b); Some(Float(FromLe(b)))
      else if IsBinary(ti.typeId) then Some(Binary(b))
      else if ti.typeId == NVARCHAR || ti.typeId == NCHAR || ti.typeId == NTEXT || ti.typeId == XML then
        (match Ucs22Str(b) case None => None case Some(s) => Some(Str(s)))
      else if ti.typeId == DATETIMEOFFSET_N && ti.scale <= 7 then
        var (unix, nanos, zone) := DateTime.Decode(ti.scale, b);
        Some(Moment(unix, nanos, zone))
      else if IsDate(ti.typeId) && ti.scale <= 7 then
        var (unix, nanos, zone) := DateTime.DecodeUtc(ti.typeId != DATE_N, ti.typeId != TIME_N, ti.scale, b);
        Some(Moment(unix, nanos, zone))
      else if ti.typeId == UDT then None
      else Some(Other(ti.typeId, b))
  }

  /** Reading a parameter: its TYPE_INFO, then its value. */
  function ParseParam(s: seq<byte>): (r: Parsed<Value>)
    ensures r.Ok? ==> |r.rest| <= |s|
  {
    var (t, s1) :- ParseTypeInfo(s);
    var (cell, rest) :- ParseCell(t.0, t.1, s1);
    match Interpret(t.0, cell) case None => Fail case Some(v) => Ok(v, rest)
  }

  function ParamBytes(p: Param): seq<byte>
    requires Encodable(p.ti) && Writable(p.ti)
  {
    TypeInfoBytes(p.ti) + ValueBytes(p.ti, p.buffer)
  }

  // ---------- round trips ----------

  lemma TakeFront(a: seq<byte>, rest: seq<byte>)
    ensures Take(a + rest, |a|) == Ok(a, rest)
  {
    assert (a + rest)[..|a|] == a && (a + rest)[|a|..] == rest;
  }

  lemma ParseLeOf(n: nat, w: nat, rest: seq<byte>)
    ensures ParseLe(Le(n, w) + rest, w) == Ok(n % Pow256(w), rest)
  {
    TakeFront(Le(n, w), rest);
    LeTruncates(n, w);
  }

  lemma ParseCollationOf(c: Collation, rest: seq<byte>)
    ensures ParseCollation(CollationBytes(c) + rest) == Ok(c, rest)
  {
    assert CollationBytes(c) + rest == Le(c.lcidAndFlags, 4) + ([c.sortId] + rest);
    TakeFront(Le(c.lcidAndFlags, 4), [c.sortId] + rest);
    Pow256Values();
    LeFits(c.lcidAndFlags, 4);
    assert ([c.sortId] + rest)[1..] == rest;
  }

  // What the writer accepts, with a scale that the protocol allows.
  predicate Legal(ti: TypeInfo) {
    Encodable(ti) && (ClassOf(ti.typeId).Time? ==> ti.scale <= 7)
  }

  // Types whose TYPE_INFO the reader takes in the form the writer gives it.
  predicate Symmetric(ti: TypeInfo) {
    Legal(ti) && !ClassOf(ti.typeId).XmlType?
  }

  /** What the reader makes of a TYPE_INFO: only what is transmitted, and a size of its own for the rest. */
  function Received(ti: TypeInfo): (TypeInfo, Reader)
    requires Legal(ti)
  {
    var id := ti.typeId;
    match ClassOf(id)
    case FixedLen(n) => (TypeInfo(id, n, 0, 0, NO_COLLATION), FixedReader)
    case Date => (TypeInfo(id, 3, 0, 0, NO_COLLATION), ByteLenReader)
    case Time =>
      (TypeInfo(id, DateTime.TimeWidth(ti.scale) + (if id == DATETIME2_N then 3 else if id == DATETIMEOFFSET_N then 5 else 0),
                ti.scale, 0, NO_COLLATION), ByteLenReader)
    case ByteLen =>
      (if HasPrecision(id) then TypeInfo(id, ti.size, ti.scale, ti.prec, NO_COLLATION)
       else TypeInfo(id, ti.size, 0, 0, NO_COLLATION), ByteLenReader)
    case ShortLen =>
      var c := if HasCollation(id) then ti.collation else NO_COLLATION;
      if WriterOf(ti).PlpWriter? then (TypeInfo(id, 0xffff, 0, 0, c), PlpReader)
      else (TypeInfo(id, ti.size, 0, 0, c), ShortLenReader)
    case XmlType => (TypeInfo(id, 0, 0, 0, NO_COLLATION), PlpReader)
  }

  lemma Cons(x: byte, s: seq<byte>)
    ensures ParseByte([x] + s) == Ok(x, s)
  {
    assert ([x] + s)[1..] == s;
  }

  lemma ByteLenInfoRoundTrip(ti: TypeInfo, rest: seq<byte>)
    requires Symmetric(ti) && ClassOf(ti.typeId).ByteLen?
    ensures var tail := [ti.size] + (if HasPrecision(ti.typeId) then [ti.prec, ti.scale] else []);
      ParseByteLenInfo(ti.typeId, tail + rest) == Ok(Received(ti), rest)
  {
    if HasPrecision(ti.typeId) {
      Cons(ti.size, [ti.prec, ti.scale] + rest);
      Cons(ti.prec, [ti.scale] + rest);
      Cons(ti.scale, rest);
      assert [ti.size] + [ti.prec, ti.scale] + rest == [ti.size] + ([ti.prec, ti.scale] + rest);
      assert [ti.prec, ti.scale] + rest == [ti.prec] + ([ti.scale] + rest);
    } else {
      assert [ti.size] + [] + rest == [ti.size] + rest;
      Cons(ti.size, rest);
    }
  }

  lemma ShortLenInfoRoundTrip(ti: TypeInfo, rest: seq<byte>)
    requires Symmetric(ti) && ClassOf(ti.typeId).ShortLen?
    ensures var tail := SizeBytes(ti) + (if HasCollation(ti.typeId) then CollationBytes(ti.collation) else []);
      ParseShortLenInfo(ti.typeId, tail + rest) == Ok(Received(ti), rest)
  {
    var n := if WriterOf(ti).PlpWriter? then 0xffff else ti.size;
    Pow256Values();
    hide Le, FromLe, Take;
    if HasCollation(ti.typeId) {
      var c := CollationBytes(ti.collation);
      ParseLeOf(n, 2, c + rest);
      ParseCollationOf(ti.collation, rest);
      assert SizeBytes(ti) + c + rest == Le(n, 2) + (c + rest);
    } else {
      ParseLeOf(n, 2, rest);
      assert SizeBytes(ti) + [] + rest == Le(n, 2) + rest;
    }
  }

  /** The writer sends a size that the reader does not look for: it takes one byte of three, or at least five. */
  lemma XmlInfoIsMisread(ti: TypeInfo, rest: seq<byte>)
    requires ClassOf(ti.typeId).XmlType?
    ensures var r := ParseXmlInfo(SizeBytes(ti) + [0] + rest); r.Ok? ==> |r.rest| != |rest|
  {
    var s := SizeBytes(ti) + [0] + rest;
    assert |s| == |rest| + 3;
    hide Le;
  }

  /** TYPE_INFO round trip (section 2.2.5.6 of MS-TDS), nothing beyond it consumed: for every type but XML. */
  lemma TypeInfoRoundTrip(ti: TypeInfo, rest: seq<byte>)
    requires Legal(ti)
    ensures var r := ParseTypeInfo(TypeInfoBytes(ti) + rest);
      && (r == Ok(Received(ti), rest) <==> ti.typeId != XML)
      && (ti.typeId == XML && r.Ok? ==> r.rest != rest)
  {
    var tail := TypeInfoBytes(ti)[1..];
    assert TypeInfoBytes(ti) + rest == [ti.typeId] + (tail + rest);
    Cons(ti.typeId, tail + rest);
    match ClassOf(ti.typeId) {
      case Time => Cons(ti.scale, rest);
      case ByteLen => ByteLenInfoRoundTrip(ti, rest);
      case ShortLen => ShortLenInfoRoundTrip(ti, rest);
      case FixedLen(_) => assert tail + rest == rest;
      case Date => assert tail + rest == rest;
      case XmlType => XmlInfoIsMisread(ti, rest);
      case _ =>
    }
  }

  function Concat(chunks: seq<seq<byte>>): seq<byte> {
    if chunks == [] then [] else chunks[0] + Concat(chunks[1..])
  }

  predicate GoodChunks(chunks: seq<seq<byte>>) {
    forall i :: 0 <= i < |chunks| ==> 0 < |chunks[i]| < CHUNK
  }

  /** A partially length-prefixed stream after its declared length: chunks, then the terminator. */
  function ChunkBytes(chunks: seq<seq<byte>>): seq<byte> {
    if chunks == [] then Le(0, 4) else Le(|chunks[0]|, 4) + chunks[0] + ChunkBytes(chunks[1..])
  }

  lemma {:induction false} ChunksReassemble(chunks: seq<seq<byte>>, sofar: seq<byte>, rest: seq<byte>)
    requires GoodChunks(chunks)
    decreases chunks
    ensures ParseChunks(ChunkBytes(chunks) + rest, sofar) == Ok(sofar + Concat(chunks), rest)
  {
    hide Le, FromLe;
    Pow256Values();
    var s := ChunkBytes(chunks) + rest;
    if chunks == [] {
      LeFits(0, 4);
      assert s[..4] == Le(0, 4) && s[4..] == rest;
      assert sofar + [] == sofar;
    } else {
      var c, tail := chunks[0], ChunkBytes(chunks[1..]) + rest;
      LeFits(|c|, 4);
      var size := Le(|c|, 4);
      assert s == size + c + tail;
      assert s[..4] == size && s[4..4 + |c|] == c && s[4 + |c|..] == tail;
      ChunksReassemble(chunks[1..], sofar + c, rest);
      hide ChunkBytes;
      Assoc(sofar, c, Concat(chunks[1..]));
    }
  }

  /**
   * PLP streams (section 2.2.5.2.3 of MS-TDS): any cut into non-empty chunks is reassembled, and reading stops right
   * after the terminator, exactly when the declared length is unknown or one that a buffer can be allocated with.
   */
  lemma PlpReassembles(declared: seq<byte>, chunks: seq<seq<byte>>, rest: seq<byte>)
    requires |declared| == 8 && GoodChunks(chunks)
    ensures var r := ParsePlp(declared + ChunkBytes(chunks) + rest);
      && (r == Ok(Raw(Concat(chunks)), rest) <==> Allocates(FromLe(declared)))
      && (FromLe(declared) == PLP_NULL ==> r == Ok(NullCell, ChunkBytes(chunks) + rest))
      && (!Allocates(FromLe(declared)) && FromLe(declared) != PLP_NULL ==> r.Fail?)
  {
    hide ParseChunks, ChunkBytes, FromLe, Concat;
    Assoc(declared, ChunkBytes(chunks), rest);
    TakeFront(declared, ChunkBytes(chunks) + rest);
    ChunksReassemble(chunks, [], rest);
    assert [] + Concat(chunks) == Concat(chunks);
  }

  /** The chunks of the writer: one, holding the length's remainder modulo 2^32, if that is not zero. */
  function WrittenChunks(v: seq<byte>): seq<seq<byte>> {
    var n := |v| % CHUNK;
    if n == 0 then [] else [v[..n]]
  }

  lemma Remainder(n: nat)
    ensures n % CHUNK <= n && (n - n % CHUNK) % CHUNK == 0
  {
    ModOf(n - n % CHUNK, n / CHUNK, CHUNK, 0);
  }

  lemma WriterChunks(v: seq<byte>)
    ensures PlpChunks(v) == ChunkBytes(WrittenChunks(v)) && GoodChunks(WrittenChunks(v))
  {
    Remainder(|v|);
    var n := |v| % CHUNK;
    var end := Le(0, 4);
    if n == 0 {
      assert PlpChunks(v) == end + [];
      hide Le, PlpChunks;
      assert end + [] == end;
    } else {
      assert |v[n..]| % CHUNK == 0;
      assert PlpChunks(v[n..]) == end + [];
      assert PlpChunks(v) == Le(n, 4) + (v[..n] + PlpChunks(v[n..]));
      assert ChunkBytes([v[..n]]) == Le(n, 4) + v[..n] + ChunkBytes([]);
      hide Le, PlpChunks, ChunkBytes;
      assert end + [] == end;
      Assoc(Le(n, 4), v[..n], end);
    }
  }

  /** What is read back from the PLP writer: the first part of the value, of its length modulo 2^32. */
  lemma PlpWriterOutcome(v: seq<byte>, rest: seq<byte>)
    ensures var r := ParsePlp(PlpBytes(v) + rest);
      r == Ok(Raw(v[..|v| % CHUNK]), rest) || (|v| > MAX_ALLOC && (r.Ok? ==> r.value == NullCell))
  {
    hide Le, FromLe, ChunkBytes, PlpChunks, ParseChunks, ParsePlp;
    Pow256Values();
    LeTruncates(|v|, 8);
    WriterChunks(v);
    PlpReassembles(Le(|v|, 8), WrittenChunks(v), rest);
    OneChunk(v[..|v| % CHUNK]);
    SmallMod(|v|);
  }

  lemma SmallMod(n: nat)
    ensures n <= MAX_ALLOC ==> n % 0x1_0000_0000_0000_0000 == n
  {
  }

  lemma OneChunk(v: seq<byte>)
    ensures Concat(if v == [] then [] else [v]) == v
  {
    assert v != [] ==> Concat([v]) == v + [] == v;
  }

  /** What the PLP writer sends is read back as it was exactly when it has less than 2^32 bytes. */
  lemma PlpRoundTrip(v: seq<byte>, rest: seq<byte>)
    ensures ParsePlp(PlpBytes(v) + rest) == Ok(Raw(v), rest) <==> |v| < CHUNK
  {
    hide ParsePlp, PlpBytes;
    PlpWriterOutcome(v, rest);
    if |v| < CHUNK {
      assert v[..|v| % CHUNK] == v;
    }
  }

  // ---------- parameters ----------

  /** The value of a parameter as the wire can carry it: instants to 100 ns, zones to whole minutes. */
  function Carried(v: Value): Value {
    match v
    case Moment(unix, nanos, zone) => Moment(unix, nanos / 100 * 100, DateTime.Minutes(zone) * 60)
    case _ => v
  }

  /** The bytes a length prefix must cover, for the values whose length varies. */
  function Extent(v: Value): nat {
    match v
    case Binary(b) => |b|
    case Str(s) => |Str2Ucs2(s)|
    case _ => 0
  }

  // What the driver can carry: less than 2^32 bytes, days that fit three bytes, and zones that fit two.
  predicate Carries(v: Value)
    requires Sendable(v)
  {
    match v
    case Moment(unix, nanos, zone) => DateTime.Time(unix, nanos, zone).Fits()
    case _ => Extent(v) < CHUNK
  }

  lemma ParamsAreWritable(v: Value)
    requires Sendable(v)
    ensures var p := MakeParam(v); Encodable(p.ti) && Writable(p.ti) && Symmetric(p.ti)
  {
  }

  /** What the reader gets for a parameter, up to interpretation. */
  lemma ParamCell(ti: TypeInfo, buf: Option<seq<byte>>, rest: seq<byte>)
    requires Symmetric(ti) && Writable(ti)
    ensures ParseParam(ParamBytes(Param(ti, buf)) + rest) ==
      match ParseCell(Received(ti).0, Received(ti).1, ValueBytes(ti, buf) + rest)
      case Fail => Fail
      case Ok(cell, after) =>
        match Interpret(Received(ti).0, cell) case None => Fail case Some(v) => Ok(v, after)
  {
    hide ParseTypeInfo, TypeInfoBytes, Received, ParseCell, ValueBytes, Interpret;
    TypeInfoRoundTrip(ti, ValueBytes(ti, buf) + rest);
    assert ParamBytes(Param(ti, buf)) + rest == TypeInfoBytes(ti) + (ValueBytes(ti, buf) + rest);
  }

  lemma ByteLenCell(ti: TypeInfo, b: seq<byte>, rest: seq<byte>)
    requires 0 < |b| == ti.size <= 0xff
    ensures ParseByteLenCell(ti, [ti.size] + b + rest) == Ok(Raw(b), rest)
  {
    assert [ti.size] + b + rest == [ti.size] + (b + rest);
    Cons(ti.size, b + rest);
    TakeFront(b, rest);
  }

  lemma ShortLenCell(ti: TypeInfo, b: seq<byte>, rest: seq<byte>)
    requires |b| == ti.size <= 8000
    ensures ParseShortLenCell(ti, Le(ti.size, 2) + b + rest) == Ok(Raw(b), rest)
  {
    assert Le(ti.size, 2) + b + rest == Le(ti.size, 2) + (b + rest);
    ParseLeOf(ti.size, 2, b + rest);
    Pow256Values();
    TakeFront(b, rest);
  }

  lemma NullCellOf(ti: TypeInfo, rest: seq<byte>)
    ensures ParseShortLenCell(ti, Le(0xffff, 2) + rest) == Ok(NullCell, rest)
  {
    ParseLeOf(0xffff, 2, rest);
    Pow256Values();
  }

  predicate VariableLength(ti: TypeInfo, b: seq<byte>) {
    (ti.typeId == BIG_VARBIN || ti.typeId == NVARCHAR) && ti.size == |b|
  }

  /** A value of variable length comes back whole, below 2^32 bytes; beyond that never. */
  lemma VariableCell(ti: TypeInfo, b: seq<byte>, rest: seq<byte>)
    requires VariableLength(ti, b)
    ensures Symmetric(ti) && Writable(ti)
    ensures var r := ParseCell(Received(ti).0, Received(ti).1, ValueBytes(ti, Some(b)) + rest);
      && (|b| < CHUNK ==> r == Ok(Raw(b), rest))
      && (|b| >= CHUNK && r.Ok? ==> r.value == NullCell || r.value == Raw(b[..|b| % CHUNK]))
  {
    hide Le, FromLe, ParsePlp, PlpBytes;
    if WriterOf(ti).PlpWriter? {
      PlpWriterOutcome(b, rest);
      PlpRoundTrip(b, rest);
    } else {
      ShortLenCell(ti, b, rest);
    }
  }

  lemma SignedLeRoundTrip(i: int64)
    ensures SignedLe(Le(i % 0x1_0000_0000_0000_0000, 8)) == i
  {
    Pow256Values();
    LeFits(i % 0x1_0000_0000_0000_0000, 8);
  }

  lemma FixedParam(v: Value, rest: seq<byte>)
    requires Sendable(v) && (v.Int? || v.Float? || v.Bool? || v.Moment?)
    ensures var p := MakeParam(v);
      ParseParam(ParamBytes(p) + rest) ==
      match Interpret(Received(p.ti).0, Raw(p.buffer.value)) case None => Fail case Some(w) => Ok(w, rest)
  {
    hide Le, Interpret, DateTime.Encode, ParseParam, ParamBytes, ParseByteLenCell, SignedLe;
    var p := MakeParam(v);
    ParamsAreWritable(v);
    ParamCell(p.ti, p.buffer, rest);
    ByteLenCell(Received(p.ti).0, p.buffer.value, rest);
  }

  lemma ScalarRoundTrip(v: Value, rest: seq<byte>)
    requires v.Int? || v.Float? || v.Bool?
    ensures ParseParam(ParamBytes(MakeParam(v)) + rest) == Ok(v, rest)
  {
    hide ParseParam, ParamBytes, Interpret, MakeParam, Received;
    FixedParam(v, rest);
    ScalarIsRead(v);
  }

  lemma ScalarIsRead(v: Value)
    requires v.Int? || v.Float? || v.Bool?
    ensures var p := MakeParam(v);
      Legal(p.ti) && p.buffer.Some? && Interpret(Received(p.ti).0, Raw(p.buffer.value)) == Some(v)
  {
    hide Le, FromLe, SignedLe;
    Pow256Values();
    match v {
      case Int(i) => SignedLeRoundTrip(i);
      case Float(bits) => LeFits(bits, 8);
      case Bool(b) =>
    }
  }

  lemma NullRoundTrip(rest: seq<byte>)
    ensures ParseParam(ParamBytes(MakeParam(Null)) + rest) == Ok(Null, rest)
  {
    hide Le, ParseParam, ParamBytes, ParseShortLenCell;
    var p := MakeParam(Null);
    ParamCell(p.ti, p.buffer, rest);
    NullCellOf(p.ti, rest);
  }

  lemma InterpretMoment(ti: TypeInfo, b: seq<byte>)
    requires ti.typeId == DATETIMEOFFSET_N && ti.scale == 7 && |b| == 10
    ensures var (unix, nanos, zone) := DateTime.Decode(7, b); Interpret(ti, Raw(b)) == Some(Moment(unix, nanos, zone))
  {
  }

  lemma MomentRoundTrip(v: Value, rest: seq<byte>)
    requires Sendable(v) && v.Moment?
    ensures ParseParam(ParamBytes(MakeParam(v)) + rest) == Ok(Carried(v), rest) <==> Carries(v)
  {
    var t := DateTime.Time(v.unix, v.nanos, v.zone);
    FixedParam(v, rest);
    DateTime.RoundTrip(t);
    MomentIsRead(v);
    hide ParseParam, ParamBytes, DateTime.Encode, DateTime.Decode, DateTime.Minutes, Interpret, MakeParam;
  }

  lemma MomentIsRead(v: Value)
    requires Sendable(v) && v.Moment?
    ensures var p := MakeParam(v);
      var (unix, nanos, zone) := DateTime.Decode(7, DateTime.Encode(DateTime.Time(v.unix, v.nanos, v.zone)));
      Symmetric(p.ti) && p.buffer.Some? && Interpret(Received(p.ti).0, Raw(p.buffer.value)) == Some(Moment(unix, nanos, zone))
  {
    hide DateTime.Encode, DateTime.Decode;
    var p := MakeParam(v);
    assert Received(p.ti).0 == p.ti;
    InterpretMoment(p.ti, p.buffer.value);
    hide Interpret;
  }

  lemma BinaryRoundTrip(b: seq<byte>, rest: seq<byte>)
    ensures ParseParam(ParamBytes(MakeParam(Binary(b))) + rest) == Ok(Binary(b), rest) <==> |b| < CHUNK
  {
    hide Le, ParseParam, ParamBytes, ParseCell, ValueBytes;
    var p := MakeParam(Binary(b));
    VariableCell(p.ti, b, rest);
    ParamCell(p.ti, p.buffer, rest);
  }

  lemma StrRoundTrip(s: seq<scalar>, rest: seq<byte>)
    ensures ParseParam(ParamBytes(MakeParam(Str(s))) + rest) == Ok(Str(s), rest) <==> |Str2Ucs2(s)| < CHUNK
  {
    hide ParseParam, ParamBytes, ParseCell, ValueBytes, ToUtf16, FromUtf16, UnitBytes, Units;
    var p := MakeParam(Str(s));
    var b := Str2Ucs2(s);
    VariableCell(p.ti, b, rest);
    ParamCell(p.ti, p.buffer, rest);
    Ucs2RoundTrip(s);
    if |b| >= CHUNK {
      ShorterReadsAsOther(s, b[..|b| % CHUNK]);
    }
  }

  /**
   * Parameter round trip (section 2.2.5.6 of MS-TDS): TYPE_INFO and value read back give the value the
   * wire can carry, and leave what follows untouched, exactly when the driver carries that value.
   */
  lemma ParamRoundTrip(v: Value, rest: seq<byte>)
    requires Sendable(v)
    ensures Encodable(MakeParam(v).ti) && Writable(MakeParam(v).ti)
    ensures ParseParam(ParamBytes(MakeParam(v)) + rest) == Ok(Carried(v), rest) <==> Carries(v)
  {
    ParamsAreWritable(v);
    match v {
      case Null => NullRoundTrip(rest);
      case Binary(b) => BinaryRoundTrip(b, rest);
      case Str(s) => StrRoundTrip(s, rest);
      case Moment(_, _, _) => MomentRoundTrip(v, rest);
      case _ => ScalarRoundTrip(v, rest);
    }
  }
}
