/** The Gregorian calendar from year 1 on, and the dates that encoded and decoded day numbers stand for. */
module Calendar {
  import opened Bytes
  import opened DecimalText
  import DT = DateTime

  datatype Date = Date(year: nat, month: nat, day: nat)
  {
    predicate Valid() { year >= 1 && 1 <= month <= 12 && 1 <= day <= MonthLength(year, month) }
  }

  predicate IsLeap(y: nat) { y % 4 == 0 && (y % 100 != 0 || y % 400 == 0) }

  function YearLength(y: nat): nat { if IsLeap(y) then 366 else 365 }

  function MonthLength(y: nat, m: nat): nat {
    if m == 2 then (if IsLeap(y) then 29 else 28)
    else if m == 4 || m == 6 || m == 9 || m == 11 then 30
    else 31
  }

  function DaysBeforeYear(y: nat): nat { if y <= 1 then 0 else DaysBeforeYear(y - 1) + YearLength(y - 1) }

  function DaysBeforeMonth(y: nat, m: nat): nat {
    if m <= 1 then 0 else DaysBeforeMonth(y, m - 1) + MonthLength(y, m - 1)
  }

  /** How many days lie between January 1 of year 1 and a date. */
  function DayNumber(d: Date): nat
    requires d.Valid()
  {
    DaysBeforeYear(d.year) + DaysBeforeMonth(d.year, d.month) + d.day - 1
  }

  // ---------- one date for each day ----------

  function Tomorrow(d: Date): Date
    requires d.Valid()
  {
    if d.day < MonthLength(d.year, d.month) then Date(d.year, d.month, d.day + 1)
    else if d.month < 12 then Date(d.year, d.month + 1, 1)
    else Date(d.year + 1, 1, 1)
  }

  lemma TwelveMonths(y: nat)
    ensures DaysBeforeMonth(y, 12) + 31 == YearLength(y)
  {
    var feb := if IsLeap(y) then 29 else 28;
    assert DaysBeforeMonth(y, 2) == 31;
    assert DaysBeforeMonth(y, 4) == 62 + feb;
    assert DaysBeforeMonth(y, 6) == 123 + feb;
    assert DaysBeforeMonth(y, 8) == 184 + feb;
    assert DaysBeforeMonth(y, 10) == 245 + feb;
  }

  lemma {:induction false} MonthsGrow(y: nat, a: nat, b: nat)
    requires 1 <= a < b
    ensures DaysBeforeMonth(y, a) + MonthLength(y, a) <= DaysBeforeMonth(y, b)
    decreases b
  {
    if a + 1 < b {
      MonthsGrow(y, a, b - 1);
    }
  }

  lemma WithinYear(d: Date)
    requires d.Valid()
    ensures DaysBeforeMonth(d.year, d.month) + d.day <= YearLength(d.year)
  {
    TwelveMonths(d.year);
    if d.month < 12 {
      MonthsGrow(d.year, d.month, 12);
    }
  }

  /** The next day has the next number. */
  lemma TomorrowCounts(d: Date)
    requires d.Valid()
    ensures Tomorrow(d).Valid() && DayNumber(Tomorrow(d)) == DayNumber(d) + 1
  {
    TwelveMonths(d.year);
  }

  /** The date reached from January 1 of year 1 after `n` days. */
  function DateOf(n: nat): (d: Date)
    ensures d.Valid() && DayNumber(d) == n
  {
    if n == 0 then Date(1, 1, 1)
    else
      var d := DateOf(n - 1);
      TomorrowCounts(d);
      Tomorrow(d)
  }

  lemma {:induction false} YearsGrow(a: nat, b: nat)
    requires 1 <= a < b
    ensures DaysBeforeYear(a) + YearLength(a) <= DaysBeforeYear(b)
    decreases b
  {
    if a + 1 < b {
      YearsGrow(a, b - 1);
    }
  }

  predicate Earlier(d: Date, e: Date) {
    d.year < e.year || (d.year == e.year && (d.month < e.month || (d.month == e.month && d.day < e.day)))
  }

  /** Later dates have larger numbers. */
  lemma NumbersFollowDates(d: Date, e: Date)
    requires d.Valid() && e.Valid() && Earlier(d, e)
    ensures DayNumber(d) < DayNumber(e)
  {
    WithinYear(d);
    if d.year < e.year {
      YearsGrow(d.year, e.year);
    } else if d.month < e.month {
      MonthsGrow(d.year, d.month, e.month);
    }
  }

  /** A number stands for one date only. */
  lemma OneDateEach(d: Date)
    requires d.Valid()
    ensures DateOf(DayNumber(d)) == d
  {
    var e := DateOf(DayNumber(d));
    if e != d {
      if Earlier(d, e) {
        NumbersFollowDates(d, e);
      } else {
        NumbersFollowDates(e, d);
      }
    }
  }

  // ---------- the constants of the driver ----------

  lemma OneMore(n: nat, m: nat)
    requires m > 0
    ensures (n + 1) / m == n / m + if (n + 1) % m == 0 then 1 else 0
  {
    var q, r := n / m, n % m;
    assert n == q * m + r && (q + 1) * m == q * m + m;
    if r + 1 < m {
      ModOf(n + 1, q, m, r + 1);
    } else {
      ModOf(n + 1, q + 1, m, 0);
    }
  }

  lemma Centuries(y: nat)
    ensures (y % 400 == 0 ==> y % 100 == 0) && (y % 100 == 0 ==> y % 4 == 0)
  {
    if y % 400 == 0 {
      ModOf(y, 4 * (y / 400), 100, 0);
    }
    if y % 100 == 0 {
      ModOf(y, 25 * (y / 100), 4, 0);
    }
  }

  lemma LeapDaysGrow(n: nat)
    ensures (n + 1) / 4 - (n + 1) / 100 + (n + 1) / 400 == n / 4 - n / 100 + n / 400 + if IsLeap(n + 1) then 1 else 0
  {
    OneMore(n, 4);
    OneMore(n, 100);
    OneMore(n, 400);
    Centuries(n + 1);
  }

  lemma {:induction false} YearsInClosedForm(y: nat)
    requires y >= 1
    ensures DaysBeforeYear(y) == (y - 1) * 365 + (y - 1) / 4 - (y - 1) / 100 + (y - 1) / 400
  {
    if y > 1 {
      YearsInClosedForm(y - 1);
      LeapDaysGrow(y - 2);
    }
  }

  lemma FirstMonth(y: nat)
    ensures DaysBeforeMonth(y, 1) == 0
  {
  }

  /** The day that seconds are counted from, and the last day that a DATE can hold. */
  lemma KnownDays()
    ensures DayNumber(Date(1970, 1, 1)) == DT.EPOCH_DAYS == 719162
    ensures DayNumber(Date(9999, 12, 31)) == 3652058
  {
    hide DaysBeforeYear, DaysBeforeMonth;
    YearsInClosedForm(1970);
    YearsInClosedForm(9999);
    FirstMonth(1970);
    TwelveMonths(9999);
  }

  // ---------- what is sent and what is read ----------

  /** A second of a day, in seconds since the start of 1970, both in UTC. */
  function Unix(d: Date, second: nat): int
    requires d.Valid()
  {
    (DayNumber(d) - DayNumber(Date(1970, 1, 1))) * 86400 + second
  }

  /** Every second from year 1 on is one of a day. */
  lemma DayIsDate(d: Date, second: nat)
    requires d.Valid() && second < 86400
    ensures Unix(d, second) / DT.DAY + DT.EPOCH_DAYS == DayNumber(d) && Unix(d, second) % DT.DAY == second
  {
    KnownDays();
    hide DayNumber;
    ModOf(Unix(d, second), DayNumber(d) - 719162, 86400, second);
  }

  /** A time of a day that the three bytes of a day's number can hold. */
  function At(d: Date, second: nat, nanos: nat, zone: int): DT.Time
    requires d.Valid() && DayNumber(d) < 0x100_0000 && second < 86400
  {
    SecondsFit(d, second);
    DT.Time(Unix(d, second), nanos, zone)
  }

  lemma SecondsFit(d: Date, second: nat)
    requires d.Valid() && DayNumber(d) < 0x100_0000 && second < 86400
    ensures -DT.TWO63 <= Unix(d, second) < DT.TWO63
  {
    hide DayNumber;
    KnownDays();
  }

  // The number that two to five bytes hold, the least significant first.
  function ToInt(b: seq<byte>): int
    requires 2 <= |b| <= 5
  {
    (b[0] as int) + (b[1] as int) * 0x100
    + (if |b| > 2 then (b[2] as int) * 0x1_0000 else 0)
    + (if |b| > 3 then (b[3] as int) * 0x100_0000 else 0)
    + (if |b| > 4 then (b[4] as int) * 0x1_0000_0000 else 0)
  }

  lemma ToIntIs(b: seq<byte>)
    requires 2 <= |b| <= 5
    ensures FromLe(b) == ToInt(b)
  {
    if |b| > 2 {
      ToIntIs(b[1..]);
    } else {
      assert FromLe(b[1..]) == b[1] + 256 * FromLe(b[1..][1..]);
    }
  }

  // A whole number of minutes, rounded toward zero.
  predicate WholeMinutes(m: int, seconds: int) {
    if seconds >= 0 then m * 60 <= seconds < m * 60 + 60 else m * 60 >= seconds > m * 60 - 60
  }

  /**
   * A parameter holds the time of its UTC day in units of 100 nanoseconds, the number of the day, and the minutes of its
   * zone: five, three and two bytes, the least significant first.
   */
  lemma SentFields(d: Date, second: nat, nanos: nat, zone: int)
    requires d.Valid() && DayNumber(d) < 0x100_0000 && second < 86400 && nanos < 1_000_000_000
    requires -0x8000 * 60 <= zone < 0x8000 * 60
    ensures var b := DT.Encode(At(d, second, nanos, zone));
      && ToInt(b[..5]) == second * 10_000_000 + nanos / 100 && ToInt(b[5..8]) == DayNumber(d)
      && var m := ToInt(b[8..]); WholeMinutes(if m < 0x8000 then m else m - 0x1_0000, zone)
  {
    hide Le, ToInt, Unix, DayNumber, DT.Encode, DT.Minutes, DT.Time.Floored, DT.Time.Day, Pow256, FromLe;
    var t, b := At(d, second, nanos, zone), DT.Encode(At(d, second, nanos, zone));
    DayFields(d, second, nanos, zone);
    DT.EncodedFields(t);
    var hundreds, days, m := t.Floored() / 100, t.Day() % 0x100_0000, DT.Minutes(zone) % 0x1_0000;
    assert b[..5] == Le(hundreds, 5) && b[5..8] == Le(days, 3) && b[8..] == Le(m, 2);
    LeFits(hundreds, 5);
    LeFits(days, 3);
    Pow256Values();
    LeFits(m, 2);
    ToIntIs(b[..5]);
    ToIntIs(b[5..8]);
    ToIntIs(b[8..]);
    ZoneMinutes(zone);
  }

  lemma DayFields(d: Date, second: nat, nanos: nat, zone: int)
    requires d.Valid() && DayNumber(d) < 0x100_0000 && second < 86400 && nanos < 1_000_000_000
    ensures var t := At(d, second, nanos, zone);
      t.Floored() / 100 == second * 10_000_000 + nanos / 100 && t.Day() == DayNumber(d)
  {
    hide DayNumber;
    DayIsDate(d, second);
    ModOf(second * 1_000_000_000 + nanos / 100 * 100, second * 10_000_000 + nanos / 100, 100, 0);
  }

  lemma ZoneMinutes(zone: int)
    requires -0x8000 * 60 <= zone < 0x8000 * 60
    ensures var m := DT.Minutes(zone) % 0x1_0000; WholeMinutes(if m < 0x8000 then m else m - 0x1_0000, zone)
  {
  }

  /** The instant that a day's number and a time of day in nanoseconds name. */
  lemma InstantIsCivil(ns: nat, days: nat, minutes: int)
    requires ns < 86400 * 1_000_000_000
    ensures DT.Instant(ns, days, minutes) == (Unix(DateOf(days), ns / 1_000_000_000), ns % 1_000_000_000, minutes * 60)
  {
    hide DayNumber, DateOf;
    KnownDays();
  }

  // The nanoseconds that a number of units of 10^-scale seconds makes.
  function UnitNanos(scale: nat): nat
    requires scale <= 7
  {
    if scale == 0 then 1_000_000_000
    else if scale == 1 then 100_000_000
    else if scale == 2 then 10_000_000
    else if scale == 3 then 1_000_000
    else if scale == 4 then 100_000
    else if scale == 5 then 10_000
    else if scale == 6 then 1_000
    else 100
  }

  lemma UnitsAre(scale: nat, n: nat)
    requires scale <= 7
    ensures DT.TimesTen(n, 9 - scale) == n * UnitNanos(scale)
  {
    DT.Pow10Values();
  }

  lemma Drops<T>(a: seq<T>, b: seq<T>, c: seq<T>)
    ensures var s := a + b + c; s[..|a|] == a && s[|a|..|a| + |b|] == b && s[|a| + |b|..] == c
  {
  }

  /** A DATE column holding the number of a day is read as midnight of that day. */
  lemma DateIsRead(scale: nat, d: Date, b: seq<byte>)
    requires scale <= 7 && d.Valid() && |b| == 3 && ToInt(b) == DayNumber(d)
    ensures DT.DecodeUtc(false, true, scale, b) == (Unix(d, 0), 0, 0)
  {
    hide DayNumber, ToInt, Unix, FromLe;
    ToIntIs(b);
    assert b[0..] == b;
    OneDateEach(d);
    InstantIsCivil(0, DayNumber(d), 0);
  }

  /** A TIME column counts units of its scale from midnight, on the first day of year 1. */
  lemma TimeIsRead(scale: nat, b: seq<byte>)
    requires scale <= 7 && 3 <= |b| <= 5 && ToInt(b) * UnitNanos(scale) < 86400 * 1_000_000_000
    ensures var ns := ToInt(b) * UnitNanos(scale);
      DT.DecodeUtc(true, false, scale, b) == (Unix(Date(1, 1, 1), ns / 1_000_000_000), ns % 1_000_000_000, 0)
  {
    hide ToInt, Unix;
    ToIntIs(b);
    assert b[..|b|] == b && FromLe(b[|b|..]) == 0;
    UnitsAre(scale, FromLe(b));
    hide DayNumber;
    InstantIsCivil(ToInt(b) * UnitNanos(scale), 0, 0);
  }

  /** A DATETIME2 column holds such a time and then the number of a day. */
  lemma DateTime2IsRead(scale: nat, time: seq<byte>, d: Date, day: seq<byte>)
    requires scale <= 7 && 3 <= |time| <= 5 && ToInt(time) * UnitNanos(scale) < 86400 * 1_000_000_000
    requires d.Valid() && |day| == 3 && ToInt(day) == DayNumber(d)
    ensures var ns := ToInt(time) * UnitNanos(scale);
      DT.DecodeUtc(true, true, scale, time + day) == (Unix(d, ns / 1_000_000_000), ns % 1_000_000_000, 0)
  {
    hide DayNumber, ToInt, Unix, FromLe;
    ToIntIs(time);
    ToIntIs(day);
    Drops(time, day, []);
    assert time + day + [] == time + day && (time + day)[|time|..] == day;
    UnitsAre(scale, FromLe(time));
    OneDateEach(d);
    InstantIsCivil(ToInt(time) * UnitNanos(scale), DayNumber(d), 0);
  }

  /** A DATETIMEOFFSET column holds the same in UTC, and then the minutes of its zone. */
  lemma OffsetIsRead(scale: nat, time: seq<byte>, d: Date, day: seq<byte>, zone: seq<byte>)
    requires scale <= 7 && 3 <= |time| <= 5 && ToInt(time) * UnitNanos(scale) < 86400 * 1_000_000_000
    requires d.Valid() && |day| == 3 && ToInt(day) == DayNumber(d) && |zone| == 2
    ensures var ns, m := ToInt(time) * UnitNanos(scale), ToInt(zone);
      DT.Decode(scale, time + day + zone) ==
      (Unix(d, ns / 1_000_000_000), ns % 1_000_000_000, (if m < 0x8000 then m else m - 0x1_0000) * 60)
  {
    hide DayNumber, ToInt, Unix, FromLe;
    ToIntIs(time);
    ToIntIs(day);
    ToIntIs(zone);
    Drops(time, day, zone);
    UnitsAre(scale, FromLe(time));
    OneDateEach(d);
    InstantIsCivil(ToInt(time) * UnitNanos(scale), DayNumber(d), DT.DecodeInt16(zone));
  }

  /** Every time of every date of the years 1 to 9999 comes back, exactly when the minutes of its zone fit two bytes. */
  lemma CivilRoundTrip(d: Date, second: nat, nanos: nat, zone: int)
    requires d.Valid() && d.year <= 9999 && second < 86400 && nanos < 1_000_000_000
    ensures DayNumber(d) <= 3652058
    ensures var m := if zone < 0 then -(-zone / 60) else zone / 60;
      DT.Decode(7, DT.Encode(At(d, second, nanos, zone))) == (Unix(d, second), nanos / 100 * 100, m * 60) <==>
      -0x8000 <= m < 0x8000
  {
    hide DayNumber, DT.Encode, DT.Decode;
    KnownDays();
    if d != Date(9999, 12, 31) {
      NumbersFollowDates(d, Date(9999, 12, 31));
    }
    DayFields(d, second, nanos, zone);
    DT.RoundTrip(At(d, second, nanos, zone));
  }
}
