/** Numbers, texts and column types as a server writes them (section 2.2.5 of MS-TDS). */
module ServerBytes {
  import opened Bytes
  import opened Unicode
  import opened ValueCodec
  import T = Tokens

  // ---------- numbers and texts ----------

  type word = x: int | 0 <= x < 0x1_0000

  function Word(n: word): seq<byte> { [n % 0x100, n / 0x100] }

  function DWord(n: uint32): seq<byte> { [n % 0x100, n / 0x100 % 0x100, n / 0x1_0000 % 0x100, n / 0x100_0000] }

  function QWord(n: uint64): seq<byte> {
    [n % 0x100, n / 0x100 % 0x100, n / 0x1_0000 % 0x100, n / 0x100_0000 % 0x100] + DWord(n / 0x1_0000_0000)
  }

  // The most significant byte first.
  function BigDWord(n: uint32): seq<byte> { [n / 0x100_0000, n / 0x1_0000 % 0x100, n / 0x100 % 0x100, n % 0x100] }

  /** UTF-16, the less significant byte of each unit first. */
  function Text(s: seq<scalar>): seq<byte> {
    if s == [] then []
    else
      var c: int := s[0];
      (if c < 0x1_0000 then Word(c) else Word(0xd800 + (c - 0x1_0000) / 0x400) + Word(0xdc00 + (c - 0x1_0000) % 0x400))
      + Text(s[1..])
  }

  // A text prefixed by its number of units, in one byte or in two.
  predicate Short(s: seq<scalar>) { |Text(s)| < 2 * 0x100 }

  predicate Longer(s: seq<scalar>) { |Text(s)| < 2 * 0x1_0000 }

  function ShortText(s: seq<scalar>): seq<byte>
    requires Short(s)
  {
    [|Text(s)| / 2] + Text(s)
  }

  function LongerText(s: seq<scalar>): seq<byte>
    requires Longer(s)
  {
    Word(|Text(s)| / 2) + Text(s)
  }

  lemma WordIs(n: word)
    ensures Word(n) == Le(n, 2)
  {
    assert Le(n, 2) == [n % 256] + Le(n / 256, 1);
    assert Le(n / 256, 1) == [n / 256 % 256] + Le(n / 256 / 256, 0);
  }

  lemma DWordIs(n: uint32)
    ensures DWord(n) == Le(n, 4)
  {
    var a, b := n / 256, n / 256 / 256;
    assert b == n / 0x1_0000 && b / 256 == n / 0x100_0000;
    assert Le(n, 4) == [n % 256] + Le(a, 3);
    assert Le(a, 3) == [a % 256] + Le(b, 2);
    WordIs(b);
  }

  lemma QWordIs(n: uint64)
    ensures QWord(n) == Le(n, 8)
  {
    var a, b, c, d := n / 0x100, n / 0x1_0000, n / 0x100_0000, n / 0x1_0000_0000;
    assert b == a / 256 && c == b / 256 && d == c / 256;
    DWordIs(d);
    hide DWord;
    assert Le(n, 8) == [n % 256] + Le(a, 7);
    assert Le(a, 7) == [a % 256] + Le(b, 6);
    assert Le(b, 6) == [b % 256] + Le(c, 5);
    assert Le(c, 5) == [c % 256] + Le(d, 4);
  }

  lemma ReadWord(n: word, rest: seq<byte>)
    ensures ParseLe(Word(n) + rest, 2) == Ok(n, rest)
  {
    hide Le, Word, ParseLe;
    WordIs(n);
    ParseLeOf(n, 2, rest);
    Pow256Values();
  }

  lemma ReadDWord(n: uint32, rest: seq<byte>)
    ensures ParseLe(DWord(n) + rest, 4) == Ok(n, rest)
  {
    hide Le, DWord, ParseLe;
    DWordIs(n);
    ParseLeOf(n, 4, rest);
    Pow256Values();
  }

  lemma ReadQWord(n: uint64, rest: seq<byte>)
    ensures ParseLe(QWord(n) + rest, 8) == Ok(n, rest)
  {
    hide Le, QWord, ParseLe;
    QWordIs(n);
    ParseLeOf(n, 8, rest);
    Pow256Values();
  }

  lemma {:induction false} UnitBytesConcat(a: seq<unit>, b: seq<unit>)
    ensures UnitBytes(a + b) == UnitBytes(a) + UnitBytes(b)
  {
    if a == [] {
      assert a + b == b;
    } else {
      assert (a + b)[1..] == a[1..] + b && (a + b)[0] == a[0];
      UnitBytesConcat(a[1..], b);
    }
  }

  /** The driver's conversion to UTF-16 is the one described here. */
  lemma {:induction false} TextIs(s: seq<scalar>)
    ensures Text(s) == Str2Ucs2(s)
  {
    if s != [] {
      TextIs(s[1..]);
      var us := EncodeUnits(s[0]);
      UnitBytesConcat(us, ToUtf16(s[1..]));
      if s[0] < 0x1_0000 {
        assert us[1..] == [];
      } else {
        assert us[1..] == [us[1]] && us[1..][1..] == [];
      }
    }
  }

  lemma ReadText(s: seq<scalar>)
    ensures Ucs22Str(Text(s)) == Some(s) && |Text(s)| % 2 == 0
  {
    TextIs(s);
    Ucs2RoundTrip(s);
  }

  lemma ReadShortText(s: seq<scalar>, rest: seq<byte>)
    requires Short(s)
    ensures T.ParseString(ShortText(s) + rest, 1) == Ok(s, rest) && ParseVarChar(ShortText(s) + rest, 1) == Ok(Text(s), rest)
  {
    hide Text, Ucs22Str;
    ReadText(s);
    var n := |Text(s)| / 2;
    assert Le(n, 1) == [n % 256] + Le(n / 256, 0);
    assert ShortText(s) + rest == Le(n, 1) + (Text(s) + rest);
    ParseLeOf(n, 1, Text(s) + rest);
    Pow256Values();
    TakeFront(Text(s), rest);
  }

  lemma ReadLongerText(s: seq<scalar>, rest: seq<byte>)
    requires Longer(s)
    ensures T.ParseString(LongerText(s) + rest, 2) == Ok(s, rest) && ParseVarChar(LongerText(s) + rest, 2) == Ok(Text(s), rest)
  {
    hide Text, Ucs22Str, Word;
    ReadText(s);
    var n := |Text(s)| / 2;
    assert LongerText(s) + rest == Word(n) + (Text(s) + rest);
    ReadWord(n, Text(s) + rest);
    TakeFront(Text(s), rest);
  }

  // ---------- column types ----------

  /** TYPE_INFO in the forms that a server announces columns with. */
  datatype ServerType =
    | FixedType(id: byte)
    | DateType
    | TimeType(id: byte, scale: byte)
    | SizedType(id: byte, size: byte)
    | ExactType(id: byte, size: byte, prec: byte, scale: byte)
    | BytesType(id: byte, length: word)
    | TextType(id: byte, length: word, collation: Collation)
    | SchemaType(schema: Option<Schema>)
    | LongTextType(id: byte, extent: uint32, collation: Collation, table: seq<seq<scalar>>)
    | ImageType(extent: uint32, table: seq<seq<scalar>>)
    | VariantType(extent: uint32)

  datatype Schema = Schema(database: seq<scalar>, owner: seq<scalar>, collection: seq<scalar>)

  // The length of a fixed type, or 9 for an id that is none.
  function FixedLength(id: byte): nat {
    if id == 0x1f then 0
    else if id == 0x30 || id == 0x32 then 1
    else if id == 0x34 then 2
    else if id == 0x38 || id == 0x3a || id == 0x3b || id == 0x7a then 4
    else if id == 0x3c || id == 0x3d || id == 0x3e || id == 0x7f then 8
    else 9
  }

  predicate Named(table: seq<seq<scalar>>) { |table| < 0x100 && forall i :: 0 <= i < |table| ==> Longer(table[i]) }

  predicate Announced(t: ServerType) {
    match t
    case FixedType(id) => FixedLength(id) <= 8
    case DateType => true
    case TimeType(id, scale) => 0x29 <= id <= 0x2b && scale <= 7
    case SizedType(id, _) =>
      id == 0x24 || id == 0x25 || id == 0x26 || id == 0x27 || id == 0x2d || id == 0x2f || id == 0x68 || id == 0x6d
      || id == 0x6e || id == 0x6f
    case ExactType(id, _, _, _) => id == 0x37 || id == 0x3f || id == 0x6a || id == 0x6c
    case BytesType(id, _) => id == 0xa5 || id == 0xad || id == 0xf0
    case TextType(id, _, _) => id == 0xa7 || id == 0xaf || id == 0xe7 || id == 0xef
    case SchemaType(schema) =>
      schema == None ||
      (Short(schema.value.database) && Short(schema.value.owner) && Longer(schema.value.collection))
    case LongTextType(id, _, _, table) => (id == 0x23 || id == 0x63) && Named(table)
    case ImageType(_, table) => Named(table)
    case VariantType(_) => true
  }

  function Collates(c: Collation): seq<byte> { DWord(c.lcidAndFlags) + [c.sortId] }

  function Names(table: seq<seq<scalar>>): seq<byte>
    requires forall i :: 0 <= i < |table| ==> Longer(table[i])
  {
    if table == [] then [] else LongerText(table[0]) + Names(table[1..])
  }

  function IdOf(t: ServerType): byte {
    match t
    case DateType => 0x28
    case SchemaType(_) => 0xf1
    case ImageType(_, _) => 0x22
    case VariantType(_) => 0x62
    case _ => t.id
  }

  function AfterId(t: ServerType): seq<byte>
    requires Announced(t)
  {
    match t
    case FixedType(_) => []
    case DateType => []
    case TimeType(_, scale) => [scale]
    case SizedType(_, size) => [size]
    case ExactType(_, size, prec, scale) => [size, prec, scale]
    case BytesType(_, length) => Word(length)
    case TextType(_, length, collation) => Word(length) + Collates(collation)
    case SchemaType(None) => [0]
    case SchemaType(Some(x)) => [1] + ShortText(x.database) + ShortText(x.owner) + LongerText(x.collection)
    case LongTextType(_, extent, collation, table) => DWord(extent) + Collates(collation) + [|table|] + Names(table)
    case ImageType(extent, table) => DWord(extent) + [|table|] + Names(table)
    case VariantType(extent) => DWord(extent)
  }

  function TypeBytes(t: ServerType): seq<byte>
    requires Announced(t)
  {
    [IdOf(t)] + AfterId(t)
  }

  /** What is to be known of a column of the type, and the form its cells have. */
  function TypeMeaning(t: ServerType): (TypeInfo, Reader)
    requires Announced(t)
  {
    match t
    case FixedType(id) => (TypeInfo(id, FixedLength(id), 0, 0, NO_COLLATION), FixedReader)
    case DateType => (TypeInfo(0x28, 3, 0, 0, NO_COLLATION), ByteLenReader)
    case TimeType(id, scale) =>
      var time := if scale <= 2 then 3 else if scale <= 4 then 4 else 5;
      (TypeInfo(id, time + (if id == 0x2a then 3 else if id == 0x2b then 5 else 0), scale, 0, NO_COLLATION), ByteLenReader)
    case SizedType(id, size) => (TypeInfo(id, size, 0, 0, NO_COLLATION), ByteLenReader)
    case ExactType(id, size, prec, scale) => (TypeInfo(id, size, scale, prec, NO_COLLATION), ByteLenReader)
    case BytesType(id, length) =>
      (TypeInfo(id, length, 0, 0, NO_COLLATION), if length == 0xffff then PlpReader else ShortLenReader)
    case TextType(id, length, collation) =>
      (TypeInfo(id, length, 0, 0, collation), if length == 0xffff then PlpReader else ShortLenReader)
    case SchemaType(_) => (TypeInfo(0xf1, 0, 0, 0, NO_COLLATION), PlpReader)
    case LongTextType(id, extent, collation, _) => (TypeInfo(id, extent, 0, 0, collation), LongLenReader)
    case ImageType(extent, _) => (TypeInfo(0x22, extent, 0, 0, NO_COLLATION), LongLenReader)
    case VariantType(extent) => (TypeInfo(0x62, extent, 0, 0, NO_COLLATION), VariantReader)
  }

  lemma ReadCollation(c: Collation, rest: seq<byte>)
    ensures ParseCollation(Collates(c) + rest) == Ok(c, rest)
  {
    DWordIs(c.lcidAndFlags);
    ParseCollationOf(c, rest);
  }

  lemma {:induction false} ReadNames(table: seq<seq<scalar>>, rest: seq<byte>)
    requires forall i :: 0 <= i < |table| ==> Longer(table[i])
    ensures SkipStrings(Names(table) + rest, |table|) == Ok((), rest)
  {
    hide Longer, LongerText, ParseVarChar;
    if table == [] {
      assert Names(table) + rest == rest;
    } else {
      assert Names(table) + rest == LongerText(table[0]) + (Names(table[1..]) + rest);
      ReadLongerText(table[0], Names(table[1..]) + rest);
      ReadNames(table[1..], rest);
    }
  }

  lemma ReadLongText(t: ServerType, rest: seq<byte>)
    requires t.LongTextType? && Announced(t)
    ensures ParseLongLenInfo(t.id, AfterId(t) + rest) == Ok(TypeMeaning(t), rest)
  {
    hide Collates, DWord, Names, Longer, ParseLe, ParseCollation, SkipStrings;
    var names, n := Names(t.table) + rest, |t.table|;
    var collated := Collates(t.collation) + ([n] + names);
    ReadDWord(t.extent, collated);
    ReadCollation(t.collation, [n] + names);
    Cons(n, names);
    ReadNames(t.table, rest);
    assert AfterId(t) + rest == DWord(t.extent) + collated;
  }

  lemma ReadImage(t: ServerType, rest: seq<byte>)
    requires t.ImageType? && Announced(t)
    ensures ParseLongLenInfo(0x22, AfterId(t) + rest) == Ok(TypeMeaning(t), rest)
  {
    hide DWord, Names, Longer, ParseLe, SkipStrings;
    var names, n := Names(t.table) + rest, |t.table|;
    ReadDWord(t.extent, [n] + names);
    Cons(n, names);
    ReadNames(t.table, rest);
    assert AfterId(t) + rest == DWord(t.extent) + ([n] + names);
  }

  lemma ReadVariant(t: ServerType, rest: seq<byte>)
    requires t.VariantType?
    ensures ParseLongLenInfo(0x62, AfterId(t) + rest) == Ok(TypeMeaning(t), rest)
  {
    hide DWord, ParseLe;
    ReadDWord(t.extent, rest);
  }

  lemma ReadSchema(t: ServerType, rest: seq<byte>)
    requires t.SchemaType? && Announced(t)
    ensures ParseXmlInfo(AfterId(t) + rest) == Ok(TypeMeaning(t), rest)
  {
    hide ShortText, LongerText, Short, Longer, ParseVarChar;
    if t.schema == None {
      Cons(0, rest);
    } else {
      var x := t.schema.value;
      var collection := LongerText(x.collection) + rest;
      var owner := ShortText(x.owner) + collection;
      Cons(1, ShortText(x.database) + owner);
      ReadShortText(x.database, owner);
      ReadShortText(x.owner, collection);
      ReadLongerText(x.collection, rest);
      assert AfterId(t) + rest == [1] + (ShortText(x.database) + owner);
    }
  }

  lemma ReadVarying(t: ServerType, rest: seq<byte>)
    requires (t.BytesType? || t.TextType?) && Announced(t)
    ensures ParseShortLenInfo(t.id, AfterId(t) + rest) == Ok(TypeMeaning(t), rest)
  {
    hide Collates, Word, ParseLe, ParseCollation;
    if t.BytesType? {
      ReadWord(t.length, rest);
    } else {
      ReadWord(t.length, Collates(t.collation) + rest);
      ReadCollation(t.collation, rest);
      assert AfterId(t) + rest == Word(t.length) + (Collates(t.collation) + rest);
    }
  }

  lemma ReadSized(t: ServerType, rest: seq<byte>)
    requires (t.SizedType? || t.ExactType?) && Announced(t)
    ensures ParseByteLenInfo(t.id, AfterId(t) + rest) == Ok(TypeMeaning(t), rest)
  {
    if t.SizedType? {
      Cons(t.size, rest);
    } else {
      Cons(t.size, [t.prec] + ([t.scale] + rest));
      Cons(t.prec, [t.scale] + rest);
      Cons(t.scale, rest);
      assert AfterId(t) + rest == [t.size] + ([t.prec] + ([t.scale] + rest));
    }
  }

  lemma ReadFixed(t: ServerType, rest: seq<byte>)
    requires (t.FixedType? || t.DateType? || t.TimeType?) && Announced(t)
    ensures ParseTypeInfo([IdOf(t)] + (AfterId(t) + rest)) == Ok(TypeMeaning(t), rest)
  {
    Cons(IdOf(t), AfterId(t) + rest);
    if t.TimeType? {
      Cons(t.scale, rest);
    } else {
      assert AfterId(t) + rest == rest;
    }
  }

  lemma ById(t: ServerType, s: seq<byte>)
    requires Announced(t) && !t.FixedType? && !t.DateType? && !t.TimeType?
    ensures ParseTypeInfo([IdOf(t)] + s) ==
      if t.SizedType? || t.ExactType? then ParseByteLenInfo(t.id, s)
      else if t.BytesType? || t.TextType? then ParseShortLenInfo(t.id, s)
      else if t.SchemaType? then ParseXmlInfo(s)
      else ParseLongLenInfo(IdOf(t), s)
  {
    hide ParseByteLenInfo, ParseShortLenInfo, ParseXmlInfo, ParseLongLenInfo, Short, Longer;
    Cons(IdOf(t), s);
  }

  /** Every column type that a server announces is understood, and nothing beyond it is read. */
  lemma ReadType(t: ServerType, rest: seq<byte>)
    requires Announced(t)
    ensures ParseTypeInfo(TypeBytes(t) + rest) == Ok(TypeMeaning(t), rest)
  {
    hide ParseTypeInfo, AfterId, TypeMeaning, Announced, ParseByteLenInfo, ParseShortLenInfo, ParseXmlInfo, ParseLongLenInfo;
    Assoc([IdOf(t)], AfterId(t), rest);
    if t.FixedType? || t.DateType? || t.TimeType? {
      ReadFixed(t, rest);
    } else {
      ById(t, AfterId(t) + rest);
      match t {
        case BytesType(_, _) => ReadVarying(t, rest);
        case TextType(_, _, _) => ReadVarying(t, rest);
        case SchemaType(_) => ReadSchema(t, rest);
        case LongTextType(_, _, _, _) => ReadLongText(t, rest);
        case ImageType(_, _) => ReadImage(t, rest);
        case VariantType(_) => ReadVariant(t, rest);
        case _ => ReadSized(t, rest);
      }
    }
  }
}
