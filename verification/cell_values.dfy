/** What SQL values look like in the cells of a row, and what the driver makes of them. */
module CellValues {
  import opened Bytes
  import opened Unicode
  import opened ValueCodec
  import opened ServerBytes
  import C = Calendar
  import DT = DateTime
  import T = Tokens

  /** A value other than NULL. Times count units of ten to the minus `scale` seconds. */
  datatype Sql =
    | TinyInt(tiny: byte)
    | SmallInt(small: int)
    | Integer(int_: int)
    | BigInt(big: int64)
    | Switch(on: bool)
    | Double(bits: uint64)
    | Characters(text: seq<scalar>)
    | Blob(blob: seq<byte>)
    | DateOnly(date: C.Date)
    | TimeOnly(scale: nat, units: nat)
    | DateTime2(scale: nat, units: nat, date: C.Date)
    | DateTimeOffset(scale: nat, units: nat, date: C.Date, minutes: int)

  predicate OfDay(scale: nat, units: nat) { scale <= 7 && units * C.UnitNanos(scale) < 86400 * 1_000_000_000 }

  predicate DayFits(d: C.Date) { d.Valid() && C.DayNumber(d) < 0x100_0000 }

  predicate InRange(v: Sql) {
    match v
    case SmallInt(n) => -0x8000 <= n < 0x8000
    case Integer(n) => -0x8000_0000 <= n < 0x8000_0000
    case DateOnly(d) => DayFits(d)
    case TimeOnly(scale, units) => OfDay(scale, units)
    case DateTime2(scale, units, d) => OfDay(scale, units) && DayFits(d)
    case DateTimeOffset(scale, units, d, minutes) => OfDay(scale, units) && DayFits(d) && -0x8000 <= minutes < 0x8000
    case _ => true
  }

  function ThreeBytes(n: nat): seq<byte>
    requires n < 0x100_0000
  {
    [n % 0x100, n / 0x100 % 0x100, n / 0x1_0000]
  }

  lemma UnitsFit(scale: nat, units: nat)
    requires OfDay(scale, units)
    ensures scale <= 2 ==> units < 0x100_0000
    ensures scale <= 4 ==> units < 0x1_0000_0000
    ensures units < 0x100_0000_0000
  {
  }

  function TimeBytes(scale: nat, units: nat): (r: seq<byte>)
    requires OfDay(scale, units)
  {
    UnitsFit(scale, units);
    if scale <= 2 then ThreeBytes(units)
    else if scale <= 4 then DWord(units)
    else DWord(units % 0x1_0000_0000) + [units / 0x1_0000_0000]
  }

  // The bytes of a cell.
  function SqlBytes(v: Sql): seq<byte>
    requires InRange(v)
  {
    match v
    case TinyInt(n) => [n]
    case SmallInt(n) => Word(if n < 0 then n + 0x1_0000 else n)
    case Integer(n) => DWord(if n < 0 then n + 0x1_0000_0000 else n)
    case BigInt(n) => QWord(if n < 0 then n + 0x1_0000_0000_0000_0000 else n)
    case Switch(on) => [if on then 1 else 0]
    case Double(bits) => QWord(bits)
    case Characters(text) => Text(text)
    case Blob(blob) => blob
    case DateOnly(d) => ThreeBytes(C.DayNumber(d))
    case TimeOnly(scale, units) => TimeBytes(scale, units)
    case DateTime2(scale, units, d) => TimeBytes(scale, units) + ThreeBytes(C.DayNumber(d))
    case DateTimeOffset(scale, units, d, minutes) =>
      TimeBytes(scale, units) + ThreeBytes(C.DayNumber(d)) + Word(if minutes < 0 then minutes + 0x1_0000 else minutes)
  }

  // The types whose columns hold a value.
  predicate Holds(ti: TypeInfo, v: Sql) {
    var id := ti.typeId;
    match v
    case TinyInt(_) => id == 0x30 || id == 0x26
    case SmallInt(_) => id == 0x34 || id == 0x26
    case Integer(_) => id == 0x38 || id == 0x26
    case BigInt(_) => id == 0x7f || id == 0x26
    case Switch(_) => id == 0x32 || id == 0x68
    case Double(_) => id == 0x3e || id == 0x6d
    case Characters(_) => id == 0xe7 || id == 0xef || id == 0x63 || id == 0xf1
    case Blob(_) => id == 0xa5 || id == 0xad || id == 0x25 || id == 0x2d || id == 0x22
    case DateOnly(_) => id == 0x28 && ti.scale == 0
    case TimeOnly(scale, _) => id == 0x29 && ti.scale == scale
    case DateTime2(scale, _, _) => id == 0x2a && ti.scale == scale
    case DateTimeOffset(scale, _, _, _) => id == 0x2b && ti.scale == scale
  }

  function Moment(d: C.Date, scale: nat, units: nat, zone: int): Value
    requires d.Valid() && scale <= 7
  {
    var ns := units * C.UnitNanos(scale);
    Value.Moment(C.Unix(d, ns / 1_000_000_000), ns % 1_000_000_000, zone)
  }

  /** What the caller gets. A time without a date is one of January 1 of year 1; without a zone it is in UTC. */
  function Meaning(v: Sql): Value
    requires InRange(v)
  {
    match v
    case TinyInt(n) => Int(n)
    case SmallInt(n) => Int(n)
    case Integer(n) => Int(n)
    case BigInt(n) => Int(n)
    case Switch(on) => Bool(on)
    case Double(bits) => Float(bits)
    case Characters(text) => Str(text)
    case Blob(blob) => Binary(blob)
    case DateOnly(d) => Moment(d, 0, 0, 0)
    case TimeOnly(scale, units) => Moment(C.Date(1, 1, 1), scale, units, 0)
    case DateTime2(scale, units, d) => Moment(d, scale, units, 0)
    case DateTimeOffset(scale, units, d, minutes) => Moment(d, scale, units, minutes * 60)
  }

  lemma SignedIs(n: int, w: nat, b: seq<byte>)
    requires |b| == w && FromLe(b) == (if n < 0 then n + Pow256(w) else n) && 0 <= 2 * n + Pow256(w) < 2 * Pow256(w)
    ensures SignedLe(b) == n
  {
  }

  lemma IntegerIsRead(ti: TypeInfo, v: Sql)
    requires (v.TinyInt? || v.SmallInt? || v.Integer? || v.BigInt?) && InRange(v) && Holds(ti, v)
    ensures Interpret(ti, Raw(SqlBytes(v))) == Some(Meaning(v))
  {
    hide FromLe, Le, Pow256, SignedLe, Word, DWord, QWord;
    Pow256Values();
    match v {
      case TinyInt(_) =>
      case SmallInt(n) =>
        var u := if n < 0 then n + 0x1_0000 else n;
        WordIs(u);
        LeFits(u, 2);
        SignedIs(n, 2, Word(u));
      case Integer(n) =>
        var u := if n < 0 then n + 0x1_0000_0000 else n;
        DWordIs(u);
        LeFits(u, 4);
        SignedIs(n, 4, DWord(u));
      case BigInt(n) =>
        var u := if n < 0 then n + 0x1_0000_0000_0000_0000 else n;
        QWordIs(u);
        LeFits(u, 8);
        SignedIs(n, 8, QWord(u));
    }
  }

  lemma PlainIsRead(ti: TypeInfo, v: Sql)
    requires (v.Switch? || v.Double? || v.Characters? || v.Blob?) && Holds(ti, v)
    ensures Interpret(ti, Raw(SqlBytes(v))) == Some(Meaning(v))
  {
    hide FromLe, Le, Pow256, QWord, Text, Ucs22Str;
    Pow256Values();
    match v {
      case Double(bits) =>
        QWordIs(bits);
        LeFits(bits, 8);
      case Characters(text) => ReadText(text);
      case _ =>
    }
  }

  lemma ThreeBytesIs(n: nat)
    requires n < 0x100_0000
    ensures C.ToInt(ThreeBytes(n)) == n
  {
    assert n / 0x1_0000 == n / 0x100 / 0x100;
  }

  lemma DWordValue(n: uint32)
    ensures C.ToInt(DWord(n)) == n
  {
    var lo, hi := n / 0x100, n / 0x1_0000;
    assert hi == lo / 0x100 && n / 0x100_0000 == hi / 0x100;
  }

  lemma TimeBytesIs(scale: nat, units: nat)
    requires OfDay(scale, units)
    ensures var b := TimeBytes(scale, units); 3 <= |b| <= 5 && C.ToInt(b) == units
  {
    UnitsFit(scale, units);
    if scale <= 2 {
      ThreeBytesIs(units);
    } else if scale <= 4 {
      DWordValue(units);
    } else {
      DWordValue(units % 0x1_0000_0000);
    }
  }

  lemma DayIsRead(ti: TypeInfo, v: Sql)
    requires (v.DateOnly? || v.TimeOnly?) && InRange(v) && Holds(ti, v)
    ensures Interpret(ti, Raw(SqlBytes(v))) == Some(Meaning(v))
  {
    hide C.ToInt, C.DayNumber, C.Unix, TimeBytes, ThreeBytes, DT.DecodeUtc;
    if v.DateOnly? {
      var n := C.DayNumber(v.date);
      ThreeBytesIs(n);
      assert |ThreeBytes(n)| == 3 by { ThreeLong(n); }
      C.DateIsRead(ti.scale, v.date, ThreeBytes(n));
    } else {
      TimeBytesIs(v.scale, v.units);
      C.TimeIsRead(v.scale, TimeBytes(v.scale, v.units));
    }
  }

  lemma ThreeLong(n: nat)
    requires n < 0x100_0000
    ensures |ThreeBytes(n)| == 3
  {
  }

  lemma InstantIsRead(ti: TypeInfo, v: Sql)
    requires (v.DateTime2? || v.DateTimeOffset?) && InRange(v) && Holds(ti, v)
    ensures Interpret(ti, Raw(SqlBytes(v))) == Some(Meaning(v))
  {
    hide C.ToInt, C.DayNumber, C.Unix, TimeBytes, ThreeBytes, DT.DecodeUtc, DT.Decode, Word;
    var time, n := TimeBytes(v.scale, v.units), C.DayNumber(v.date);
    ThreeBytesIs(n);
    ThreeLong(n);
    TimeBytesIs(v.scale, v.units);
    if v.DateTime2? {
      C.DateTime2IsRead(v.scale, time, v.date, ThreeBytes(n));
    } else {
      var m := if v.minutes < 0 then v.minutes + 0x1_0000 else v.minutes;
      MinutesAre(m);
      C.OffsetIsRead(v.scale, time, v.date, ThreeBytes(n), Word(m));
    }
  }

  lemma MinutesAre(m: nat)
    requires m < 0x1_0000
    ensures |Word(m)| == 2 && C.ToInt(Word(m)) == m
  {
  }

  /** A cell of a type that can hold the value is read as that value. */
  lemma CellIsRead(ti: TypeInfo, v: Sql)
    requires InRange(v) && Holds(ti, v)
    ensures Interpret(ti, Raw(SqlBytes(v))) == Some(Meaning(v))
  {
    hide Interpret, SqlBytes, Meaning;
    match v {
      case Switch(_) => PlainIsRead(ti, v);
      case Double(_) => PlainIsRead(ti, v);
      case Characters(_) => PlainIsRead(ti, v);
      case Blob(_) => PlainIsRead(ti, v);
      case DateOnly(_) => DayIsRead(ti, v);
      case TimeOnly(_, _) => DayIsRead(ti, v);
      case DateTime2(_, _, _) => InstantIsRead(ti, v);
      case DateTimeOffset(_, _, _, _) => InstantIsRead(ti, v);
      case _ => IntegerIsRead(ti, v);
    }
  }

  // ---------- rows ----------

  predicate RowHolds(cols: seq<T.Column>, vs: seq<Option<Sql>>) {
    |cols| == |vs| && forall i :: 0 <= i < |vs| && vs[i].Some? ==> InRange(vs[i].value) && Holds(cols[i].ti, vs[i].value)
  }

  function CellOf(v: Option<Sql>): Cell
    requires v.Some? ==> InRange(v.value)
  {
    if v == None then NullCell else Raw(SqlBytes(v.value))
  }

  function ValueOf(v: Option<Sql>): Value
    requires v.Some? ==> InRange(v.value)
  {
    if v == None then Null else Meaning(v.value)
  }

  function Cells(cols: seq<T.Column>, vs: seq<Option<Sql>>): (r: seq<Cell>)
    requires RowHolds(cols, vs)
    ensures |r| == |cols|
    decreases |cols|
  {
    if cols == [] then [] else [CellOf(vs[0])] + Cells(cols[1..], vs[1..])
  }

  function Values(cols: seq<T.Column>, vs: seq<Option<Sql>>): seq<Value>
    requires RowHolds(cols, vs)
    decreases |cols|
  {
    if cols == [] then [] else [ValueOf(vs[0])] + Values(cols[1..], vs[1..])
  }

  /** The cells of a row of SQL values stand for those values. */
  lemma {:induction false} RowIsRead(cols: seq<T.Column>, vs: seq<Option<Sql>>)
    requires RowHolds(cols, vs)
    ensures T.Meanings(cols, Cells(cols, vs)) == Some(Values(cols, vs))
    decreases |cols|
  {
    if cols != [] {
      hide Interpret, SqlBytes, Meaning, InRange, Holds;
      if vs[0] == None {
        T.NullIsNull(cols[0].ti);
      } else {
        CellIsRead(cols[0].ti, vs[0].value);
      }
      RowIsRead(cols[1..], vs[1..]);
      assert Cells(cols, vs)[1..] == Cells(cols[1..], vs[1..]);
    }
  }
}
