/**
 * DATETIMEOFFSET values: the date arithmetic of the driver, with its integer widths.
 *
 * A time is sent as ten bytes: five for the time of its UTC day in units of 100 nanoseconds, three for the number of the
 * day, two for the minutes of its zone. What fits is what comes back. Which dates the numbers stand for is said in
 * module Calendar.
 */
module DateTime {
  import opened Bytes
  import opened DecimalText

  const TWO63 := 0x8000_0000_0000_0000
  const TWO64 := 0x1_0000_0000_0000_0000
  const TWO32 := 0x1_0000_0000

  const DAY := 86400
  const BILLION := 1_000_000_000

  // number of days from Jan 1 of year 1 to Jan 1 1970
  const EPOCH_DAYS := 1969 * 365 + 1969 / 4 - 1969 / 100 + 1969 / 400

  type int64 = x: int | -TWO63 <= x < TWO63

  function Wrap64(x: int): int64 { (x + TWO63) % TWO64 - TWO63 }
  function Wrap32(x: int): int { (x + TWO32 / 2) % TWO32 - TWO32 / 2 }

  lemma WrapNoop(x: int)
    requires -TWO63 <= x < TWO63
    ensures Wrap64(x) == x
  {
  }

  // ---------- division ----------

  function Abs(x: int): nat { if x < 0 then -x else x }

  /** Division as the processor does it: truncated toward zero, wrapping in the one case that overflows. */
  function Quo(x: int64, y: int64): int64
    requires y != 0
  {
    var q := Abs(x) / Abs(y);
    QuoBound(Abs(x), Abs(y));
    Wrap64(if (x < 0) == (y < 0) then q else -q)
  }

  function Rem(x: int64, y: int64): int64
    requires y != 0
  {
    var r := Abs(x) % Abs(y);
    if x < 0 then -r else r
  }

  lemma QuoBound(x: nat, y: nat)
    requires y > 0
    ensures 0 <= x / y <= x && 0 <= x % y < y && x == y * (x / y) + x % y
  {
    Scales(y, x / y);
  }

  lemma Scales(y: nat, q: nat)
    requires y > 0
    ensures y * q >= q && (y >= 2 ==> y * q >= 2 * q)
  {
    assert y * q == (y - 1) * q + q;
    if y >= 2 {
      assert (y - 1) * q == (y - 2) * q + q;
    }
  }

  function DivFloor(x: int64, y: int64): int64
    requires y != 0
  {
    var q := Quo(x, y);
    var r := Rem(x, y);
    if r != 0 && (r < 0) != (y < 0) then Wrap64(q - 1) else q
  }

  /** `q` is the floor of x / y. */
  predicate IsFloor(q: int, x: int, y: int)
    requires y != 0
  {
    if y > 0 then q * y <= x < q * y + y else q * y >= x > q * y + y
  }

  lemma FloorIsUnique(p: int, q: int, x: int, y: int)
    requires y != 0 && IsFloor(p, x, y) && IsFloor(q, x, y)
    ensures p == q
  {
    var d := p - q;
    assert d * y == p * y - q * y;
    MultipleIsFar(if y > 0 then d else -d, Abs(y));
  }

  /** Rounding toward zero and stepping down when a remainder has the other sign is rounding down. */
  lemma FloorFromParts(x: int, y: int, q: nat, r: nat)
    requires y != 0 && r < Abs(y) && Abs(x) == Abs(y) * q + r
    ensures var signed := if (x < 0) == (y < 0) then q else -(q as int);
      IsFloor(if r != 0 && (x < 0) != (y < 0) then signed - 1 else signed, x, y)
  {
    var b := Abs(y);
    var p := b * q;
    assert q * y == (if y > 0 then p else -p);
    assert (-(q as int)) * y == -(q * y);
    assert (-(q as int) - 1) * y == -(q * y) - y;
  }

  /** True floor division, negative operands included, except when the quotient itself overflows. */
  lemma DivFloorIsFloor(x: int64, y: int64)
    requires y != 0
    ensures IsFloor(DivFloor(x, y), x, y) <==> !(x == -TWO63 && y == -1)
  {
    var q, r := Abs(x) / Abs(y), Abs(x) % Abs(y);
    QuoBound(Abs(x), Abs(y));
    Scales(Abs(y), q);
    if x == -TWO63 && y == -1 {
      assert q == TWO63;
    } else {
      FloorFromParts(x, y, q, r);
      QuotientFits(x, y);
    }
  }

  lemma QuotientFits(x: int64, y: int64)
    requires y != 0 && !(x == -TWO63 && y == -1)
    ensures var q: int := Abs(x) / Abs(y);
      var signed := if (x < 0) == (y < 0) then q else -q;
      && Quo(x, y) == signed
      && (Abs(x) % Abs(y) != 0 && (x < 0) != (y < 0) ==> Wrap64(signed - 1) == signed - 1)
  {
    hide Wrap64;
    var q, r := Abs(x) / Abs(y), Abs(x) % Abs(y);
    QuoBound(Abs(x), Abs(y));
    Scales(Abs(y), q);
    QuotientInRange(x, y, q, r);
    var signed: int := if (x < 0) == (y < 0) then q else -q;
    WrapNoop(signed);
    if r != 0 && (x < 0) != (y < 0) {
      WrapNoop(signed - 1);
    }
  }

  lemma QuotientInRange(x: int64, y: int64, q: nat, r: nat)
    requires y != 0 && !(x == -TWO63 && y == -1) && r < Abs(y) && Abs(x) == Abs(y) * q + r
    requires Abs(y) * q >= q && (Abs(y) >= 2 ==> Abs(y) * q >= 2 * q)
    ensures var signed: int := if (x < 0) == (y < 0) then q else -(q as int);
      -TWO63 <= signed < TWO63 && (r != 0 && (x < 0) != (y < 0) ==> -TWO63 <= signed - 1)
  {
    if Abs(y) == 1 {
      assert Abs(y) * q == q;
    }
  }

  // ---------- encoding ----------

  /** A point in time: seconds since 1970 UTC, nanoseconds, and the zone's offset in seconds. */
  datatype Time = Time(unix: int64, nanos: int, zone: int)
  {
    predicate Valid() { 0 <= nanos < BILLION }
    // nanoseconds within the day, floored to 100
    function Floored(): nat
      requires Valid()
    {
      unix % DAY * BILLION + nanos / 100 * 100
    }
    // days since Jan 1 of year 1
    function Day(): int { unix / DAY + EPOCH_DAYS }
    // the day's number fits the three bytes it gets, and the zone's minutes the two that they get
    predicate Fits() { 0 <= Day() < 0x100_0000 && -0x8000 <= Minutes(zone) < 0x8000 }
  }

  /** Days since year 1 as an int32, and nanoseconds within the day. */
  function DateTime2(t: Time): (int, int) {
    var days64 := DivFloor(t.unix, DAY);
    var days := Wrap32(Wrap32(days64) + EPOCH_DAYS);
    var secs := Wrap64(t.unix - Wrap64(days64 * DAY));
    (days, Wrap64(secs * BILLION + t.nanos))
  }

  lemma WrapCancels(a: int, b: int)
    requires -TWO63 <= a - b < TWO63
    ensures Wrap64(a - Wrap64(b)) == a - b
  {
    var k := (b + TWO63) / TWO64;
    assert Wrap64(b) == b - k * TWO64;
    assert (a - b + TWO63 + k * TWO64) % TWO64 == a - b + TWO63 by {
      ModOf(a - b + TWO63 + k * TWO64, k, TWO64, a - b + TWO63);
    }
  }

  lemma DayOf(unix: int64)
    ensures DivFloor(unix, DAY) == unix / DAY
  {
    DivFloorIsFloor(unix, DAY);
    assert IsFloor(unix / DAY, unix, DAY);
    FloorIsUnique(DivFloor(unix, DAY), unix / DAY, unix, DAY);
  }

  /** `dateTime2` gives the day's number (as far as an int32 holds it) and the exact time within the day. */
  lemma DateTime2Splits(t: Time)
    requires t.Valid()
    ensures var (days, ns) := DateTime2(t);
      && days == Wrap32(t.Day()) && days % 0x100_0000 == t.Day() % 0x100_0000
      && ns == t.unix % DAY * BILLION + t.nanos && 0 <= ns < DAY * BILLION
  {
    DayOf(t.unix);
    var d := t.unix / DAY;
    WrapCancels(t.unix, d * DAY);
    assert t.unix - d * DAY == t.unix % DAY;
    WrapNoop(t.unix % DAY * BILLION + t.nanos);
    Wrap32Adds(d, EPOCH_DAYS);
    Wrap32Keeps(t.Day());
  }

  lemma Wrap32Adds(a: int, b: int)
    ensures Wrap32(Wrap32(a) + b) == Wrap32(a + b)
  {
    var k, x := (a + TWO32 / 2) / TWO32, a + b + TWO32 / 2;
    assert Wrap32(a) == a - k * TWO32;
    ModOf(x - k * TWO32, x / TWO32 - k, TWO32, x % TWO32);
  }

  lemma Wrap32Keeps(x: int)
    ensures Wrap32(x) % 0x100_0000 == x % 0x100_0000
  {
    var k := (x + TWO32 / 2) / TWO32;
    assert Wrap32(x) == x - k * TWO32;
    assert x - k * TWO32 == x + (-256 * k) * 0x100_0000;
    ModOf(x - k * TWO32, x / 0x100_0000 - 256 * k, 0x100_0000, x % 0x100_0000);
  }

  function Minutes(zone: int): int { if zone < 0 then -(-zone / 60) else zone / 60 }

  function Wrap16(m: int): int { (m + 0x8000) % 0x1_0000 - 0x8000 }

  /** The ten bytes of a parameter of scale 7. */
  function Encode(t: Time): (r: seq<byte>)
    requires t.Valid()
    ensures |r| == 10
  {
    DateTime2Splits(t);
    var (days, ns) := DateTime2(t);
    Le(ns / 100, 5) + Le(days % 0x100_0000, 3) + Le(Minutes(t.zone) % 0x1_0000, 2)
  }

  // ---------- decoding ----------

  /** n * 10^k */
  function TimesTen(n: nat, k: nat): nat { n * Pow10(k) }

  function TimeWidth(scale: nat): nat
    requires scale <= 7
  {
    if scale <= 2 then 3 else if scale <= 4 then 4 else 5
  }

  function DecodeInt16(b: seq<byte>): int {
    var n := FromLe(b);
    if n < 0x8000 then n else n - 0x1_0000
  }

  function DecodeDate(b: seq<byte>): nat { FromLe(b) }

  /** The instant that decodeDateTimeOffset names, given the time of day in nanoseconds. */
  function Instant(ns: nat, days: nat, minutes: int): (int, int, int) {
    ((days - EPOCH_DAYS) * DAY + (ns / BILLION + minutes * 60) - minutes * 60, ns % BILLION, minutes * 60)
  }

  /** decodeDateTimeOffset: (seconds since 1970, nanoseconds, zone offset in seconds). */
  function Decode(scale: nat, b: seq<byte>): (int, int, int)
    requires scale <= 7 && |b| >= 5
  {
    var w := |b| - 5;
    Instant(TimesTen(FromLe(b[..w]), 9 - scale), DecodeDate(b[w..w + 3]), DecodeInt16(b[w + 3..]))
  }

  /** decodeDate, decodeTime and decodeDateTime2: a time of day, a day, or both, in UTC; without a day it is the first one. */
  function DecodeUtc(hasTime: bool, hasDay: bool, scale: nat, b: seq<byte>): (int, int, int)
    requires scale <= 7 && (hasDay ==> |b| >= 3)
  {
    var w := if hasDay then |b| - 3 else |b|;
    Instant(if hasTime then TimesTen(FromLe(b[..w]), 9 - scale) else 0, DecodeDate(b[w..]), 0)
  }

  lemma Pow10Values()
    ensures Pow10(0) == 1 && Pow10(1) == 10 && Pow10(2) == 100 && Pow10(3) == 1000 && Pow10(4) == 10000
    ensures Pow10(5) == 10_0000 && Pow10(6) == 100_0000 && Pow10(7) == 1000_0000 && Pow10(8) == 1_0000_0000
    ensures Pow10(9) == BILLION
  {
    assert Pow10(2) == 10 * Pow10(1);
    assert Pow10(3) == 10 * Pow10(2);
    assert Pow10(4) == 10 * Pow10(3);
    assert Pow10(5) == 10 * Pow10(4);
    assert Pow10(6) == 10 * Pow10(5);
    assert Pow10(7) == 10 * Pow10(6);
    assert Pow10(8) == 10 * Pow10(7);
    assert Pow10(9) == 10 * Pow10(8);
  }

  /** At every legal scale and width the multiplications stay below 2^64. */
  lemma NoOverflow(scale: nat, w: nat, n: nat)
    requires scale <= 7 && w <= TimeWidth(scale) && n < Pow256(w)
    ensures TimesTen(n, 7 - scale) * 100 < TWO64
  {
    Pow10Values();
    Pow256Values();
    Pow256Grows(w, TimeWidth(scale));
  }

  /** The digit shift: one more low byte under 64 bits of accumulator. */
  lemma ShiftIn(buf: seq<byte>, i: nat)
    requires i < |buf| <= 5
    ensures FromLe(buf[i..]) == buf[i] + 256 * FromLe(buf[i + 1..]) < TWO64
  {
    assert buf[i..][1..] == buf[i + 1..];
    FromLeBound(buf[i..]);
    Pow256Grows(|buf| - i, 5);
    Pow256Values();
  }

  lemma ScaleUp(acc: nat, k: nat)
    requires k > 0
    ensures TimesTen(acc, k) == TimesTen(acc * 10, k - 1) >= acc * 10
  {
    assert acc * Pow10(k) == acc * 10 * Pow10(k - 1);
    Scales(Pow10(k - 1), acc * 10);
  }

  lemma TimesOne(n: nat)
    ensures TimesTen(n, 0) == n
  {
  }

  /** The value of a uint64 after overflow. */
  function U64(x: nat): nat { x % TWO64 }

  lemma U64Fits(x: nat)
    requires x < TWO64
    ensures U64(x) == x
  {
  }

  method ReadUint(buf: seq<byte>) returns (acc: nat)
    requires |buf| <= 5
    ensures acc == FromLe(buf)
  {
    assert FromLe(buf[|buf|..]) == 0;
    hide FromLe, U64;
    acc := 0;
    var i := |buf| - 1;
    while i >= 0
      invariant -1 <= i < |buf| && acc == FromLe(buf[i + 1..])
      decreases i
    {
      ShiftIn(buf, i);
      U64Fits(acc * 256);
      acc := U64(acc * 256) + buf[i];
      i := i - 1;
    }
    assert buf[0..] == buf;
  }

  method DecodeTimeInt(scale: nat, buf: seq<byte>) returns (sec: nat, ns: nat)
    requires scale <= 7 && |buf| <= TimeWidth(scale)
    ensures sec * BILLION + ns == TimesTen(FromLe(buf), 9 - scale) && ns < BILLION
  {
    hide TimesTen, FromLe, Pow10, Pow256, U64;
    var acc := ReadUint(buf);
    FromLeBound(buf);
    NoOverflow(scale, |buf|, acc);
    ghost var n, goal := acc, TimesTen(acc, 7 - scale);
    var k := 0;
    while k < 7 - scale
      invariant 0 <= k <= 7 - scale && TimesTen(acc, 7 - scale - k) == goal
    {
      ScaleUp(acc, 7 - scale - k);
      U64Fits(acc * 10);
      acc := U64(acc * 10);
      k := k + 1;
    }
    TimesOne(acc);
    U64Fits(acc * 100);
    HundredMore(n, 7 - scale);
    sec, ns := SplitSeconds(U64(acc * 100));
  }

  method SplitSeconds(nsbig: nat) returns (sec: nat, ns: nat)
    ensures sec * BILLION + ns == nsbig && ns < BILLION
  {
    sec, ns := nsbig / BILLION, nsbig % BILLION;
  }

  lemma HundredMore(n: nat, k: nat)
    ensures TimesTen(n, k) * 100 == TimesTen(n, k + 2)
  {
    assert Pow10(k + 2) == 10 * Pow10(k + 1);
  }

  lemma {:induction false} Pow256Grows(a: nat, b: nat)
    requires a <= b
    ensures Pow256(a) <= Pow256(b)
    decreases b
  {
    if a < b {
      Pow256Grows(a, b - 1);
    }
  }

  /**
   * Decoding what was encoded gives the same instant, floored to 100 ns, in the same whole-minute
   * zone: exactly when the day's number fits the three bytes it gets, and the zone's minutes the two bytes.
   */
  lemma RoundTrip(t: Time)
    requires t.Valid()
    ensures Decode(7, Encode(t)) == (t.unix, t.nanos / 100 * 100, Minutes(t.zone) * 60) <==> t.Fits()
  {
    hide Decode, Encode, Minutes, Instant, Wrap16;
    DecodedFields(t);
    var days, m := t.Day() % 0x100_0000, Wrap16(Minutes(t.zone));
    InstantOf(t.unix, t.nanos, days, m);
    DayIsFixed(t.unix, days);
    Wrap16Keeps(Minutes(t.zone));
  }

  lemma Wrap16Keeps(m: int)
    ensures Wrap16(m) == m <==> -0x8000 <= m < 0x8000
  {
  }

  lemma DayIsFixed(unix: int, days: nat)
    ensures (days - EPOCH_DAYS) * DAY + unix % DAY == unix <==> days == unix / DAY + EPOCH_DAYS
  {
  }

  lemma InstantOf(unix: int, nanos: int, days: nat, m: int)
    requires 0 <= nanos < BILLION
    ensures Instant(unix % DAY * BILLION + nanos / 100 * 100, days, m) ==
      ((days - EPOCH_DAYS) * DAY + unix % DAY, nanos / 100 * 100, m * 60)
  {
    var s, f := unix % DAY, nanos / 100 * 100;
    ModOf(s * BILLION + f, s, BILLION, f);
  }

  /** What the three fields of the encoded value hold. */
  lemma DecodedFields(t: Time)
    requires t.Valid()
    ensures Decode(7, Encode(t)) ==
      Instant(t.Floored(), t.Day() % 0x100_0000, Wrap16(Minutes(t.zone)))
  {
    hide *;
    var hundreds, days, m := t.Floored() / 100, t.Day() % 0x100_0000, Minutes(t.zone);
    EncodedFields(t);
    LeFits(hundreds, 5);
    LeFits(days, 3);
    Int16RoundTrip(m);
    FieldsOf(Le(hundreds, 5), Le(days, 3), Le(m % 0x1_0000, 2));
  }

  lemma EncodedFields(t: Time)
    requires t.Valid()
    ensures var hundreds, days := t.Floored() / 100, t.Day() % 0x100_0000;
      && Encode(t) == Le(hundreds, 5) + Le(days, 3) + Le(Minutes(t.zone) % 0x1_0000, 2)
      && t.Floored() == hundreds * 100 && hundreds < Pow256(5) && days < Pow256(3)
  {
    hide Le, DateTime2, Minutes, Pow256, Time.Day;
    DateTime2Splits(t);
    Pow256Values();
    Hundreds(t.unix % DAY, t.nanos);
  }

  lemma Hundreds(s: nat, nanos: nat)
    ensures (s * BILLION + nanos) / 100 == (s * BILLION + nanos / 100 * 100) / 100
    ensures (s * BILLION + nanos / 100 * 100) / 100 * 100 == s * BILLION + nanos / 100 * 100
  {
    ModOf(s * BILLION + nanos, s * 10_000_000 + nanos / 100, 100, nanos % 100);
    ModOf(s * BILLION + nanos / 100 * 100, s * 10_000_000 + nanos / 100, 100, 0);
  }

  lemma Int16RoundTrip(m: int)
    ensures DecodeInt16(Le(m % 0x1_0000, 2)) == Wrap16(m)
  {
    Pow256Values();
    LeFits(m % 0x1_0000, 2);
  }

  lemma FieldsOf(a: seq<byte>, b: seq<byte>, c: seq<byte>)
    requires |a| == 5 && |b| == 3 && |c| == 2
    ensures Decode(7, a + b + c) == Instant(FromLe(a) * 100, FromLe(b), DecodeInt16(c))
  {
    var all := a + b + c;
    assert all[..5] == a && all[5..8] == b && all[8..] == c;
    assert Pow10(2) == 10 * Pow10(1);
  }

  /** Years 1 to 9999 are within reach. */
  lemma CalendarRoundTrip(t: Time)
    requires t.Valid() && 0 <= t.Day() <= 3652058
    ensures Decode(7, Encode(t)) == (t.unix, t.nanos / 100 * 100, Minutes(t.zone) * 60) <==>
      -0x8000 <= Minutes(t.zone) < 0x8000
  {
    RoundTrip(t);
  }
}
