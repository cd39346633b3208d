/** UTF-16 and UTF-8: hand-written conversion in the ODBC driver, UCS-2 strings in the TDS driver. */
module Unicode {
  import opened Bytes

  type unit = x: int | 0 <= x < 0x1_0000
  type scalar = x: int | 0 <= x < 0x11_0000 && !(0xd800 <= x < 0xe000)

  const REPLACEMENT: scalar := 0xfffd

  predicate High(u: unit) { 0xd800 <= u < 0xdc00 }
  predicate Low(u: unit) { 0xdc00 <= u < 0xe000 }
  predicate Surrogate(u: unit) { 0xd800 <= u < 0xe000 }

  // ---------- UTF-16, section 2 of RFC 2781 ----------

  function EncodeUnits(v: scalar): (r: seq<unit>)
    ensures r != []
  {
    if v < 0x1_0000 then [v]
    else [0xd800 + (v - 0x1_0000) / 0x400, 0xdc00 + (v - 0x1_0000) % 0x400]
  }

  function ToUtf16(vs: seq<scalar>): seq<unit> {
    if vs == [] then [] else EncodeUnits(vs[0]) + ToUtf16(vs[1..])
  }

  function Combine(hi: unit, lo: unit): scalar
    requires High(hi) && Low(lo)
  {
    (hi - 0xd800) * 0x400 + (lo - 0xdc00) + 0x1_0000
  }

  /** Decoding as utf16.Decode does it: an unpaired surrogate becomes U+FFFD. */
  function FromUtf16(s: seq<unit>): seq<scalar> {
    if s == [] then []
    else if High(s[0]) && |s| > 1 && Low(s[1]) then [Combine(s[0], s[1])] + FromUtf16(s[2..])
    else if Surrogate(s[0]) then [REPLACEMENT] + FromUtf16(s[1..])
    else [s[0]] + FromUtf16(s[1..])
  }

  lemma {:induction false} Utf16RoundTrip(vs: seq<scalar>)
    ensures FromUtf16(ToUtf16(vs)) == vs
  {
    if vs != [] {
      Utf16RoundTrip(vs[1..]);
      var us, rest := EncodeUnits(vs[0]), ToUtf16(vs[1..]);
      if vs[0] >= 0x1_0000 {
        assert (us + rest)[2..] == rest;
        assert Combine(us[0], us[1]) == vs[0];
      } else {
        assert (us + rest)[1..] == rest;
      }
    }
  }

  /** Decoding never changes how many units the text takes. */
  lemma {:induction false} DecodingKeepsExtent(us: seq<unit>)
    decreases |us|
    ensures |ToUtf16(FromUtf16(us))| == |us|
  {
    if us != [] {
      var vs := FromUtf16(us);
      if High(us[0]) && |us| > 1 && Low(us[1]) {
        DecodingKeepsExtent(us[2..]);
        assert vs[1..] == FromUtf16(us[2..]);
      } else {
        DecodingKeepsExtent(us[1..]);
        assert vs[1..] == FromUtf16(us[1..]);
      }
    }
  }

  /** Whether a unit takes part in a pair depends on its neighbours alone. */
  predicate StartsPair(s: seq<unit>, i: int) {
    0 <= i < |s| - 1 && High(s[i]) && Low(s[i + 1])
  }

  /** What the unit at `i` contributes: nothing as the second half of a pair, else exactly one scalar. */
  function Contribution(s: seq<unit>, i: nat): seq<scalar>
    requires i < |s|
  {
    if StartsPair(s, i - 1) then []
    else if StartsPair(s, i) then [Combine(s[i], s[i + 1])]
    else if Surrogate(s[i]) then [REPLACEMENT]
    else [s[i]]
  }

  function Contributions(s: seq<unit>, i: nat): seq<scalar>
    requires i <= |s|
    decreases |s| - i
  {
    if i == |s| then [] else Contribution(s, i) + Contributions(s, i + 1)
  }

  /** Decoding is position by position: one U+FFFD for each unpaired surrogate, and for nothing else. */
  lemma {:induction false} DecodingIsLocal(s: seq<unit>, i: nat)
    requires i <= |s| && !StartsPair(s, i - 1)
    decreases |s| - i
    ensures FromUtf16(s[i..]) == Contributions(s, i)
  {
    if i < |s| {
      if StartsPair(s, i) {
        DecodingIsLocal(s, i + 2);
        assert s[i..][2..] == s[i + 2..];
        assert Contribution(s, i + 1) == [];
        assert Contributions(s, i + 1) == [] + Contributions(s, i + 2) == Contributions(s, i + 2);
      } else {
        DecodingIsLocal(s, i + 1);
        assert s[i..][1..] == s[i + 1..];
      }
    }
  }

  // ---------- UTF-8, section 3 of RFC 3629 ----------

  function EncodeRune(v: scalar): (r: seq<byte>)
    ensures 1 <= |r| <= 4
  {
    if v < 0x80 then [v]
    else if v < 0x800 then [0xc0 + v / 0x40, 0x80 + v % 0x40]
    else if v < 0x1_0000 then [0xe0 + v / 0x1000, 0x80 + v / 0x40 % 0x40, 0x80 + v % 0x40]
    else [0xf0 + v / 0x4_0000, 0x80 + v / 0x1000 % 0x40, 0x80 + v / 0x40 % 0x40, 0x80 + v % 0x40]
  }

  function ToUtf8(vs: seq<scalar>): seq<byte> {
    if vs == [] then [] else EncodeRune(vs[0]) + ToUtf8(vs[1..])
  }

  predicate Tail(b: byte) { 0x80 <= b < 0xc0 }

  /** A scalar from its groups of six bits, the last one still carrying its tail mark. */
  function Bits(b3: int, b2: int, b1: int, tail: int): int {
    b3 * 0x4_0000 + b2 * 0x1000 + b1 * 0x40 + (tail - 0x80)
  }

  /** The first character of well-formed UTF-8 (table in section 4 of RFC 3629) and its length. */
  function DecodeRune(b: seq<byte>): (r: Option<(scalar, nat)>)
    ensures r.Some? ==> 1 <= r.value.1 <= |b|
  {
    if b == [] then None
    else if b[0] < 0x80 then Some((b[0], 1))
    else if |b| >= 2 && 0xc2 <= b[0] < 0xe0 && Tail(b[1]) then
      Some((Bits(0, 0, b[0] - 0xc0, b[1]), 2))
    else if |b| >= 3 && 0xe0 <= b[0] < 0xf0 && Tail(b[1]) && Tail(b[2])
         && (b[0] == 0xe0 ==> b[1] >= 0xa0) && (b[0] == 0xed ==> b[1] < 0xa0) then
      Some((Bits(0, b[0] - 0xe0, b[1] - 0x80, b[2]), 3))
    else if |b| >= 4 && 0xf0 <= b[0] < 0xf5 && Tail(b[1]) && Tail(b[2]) && Tail(b[3])
         && (b[0] == 0xf0 ==> b[1] >= 0x90) && (b[0] == 0xf4 ==> b[1] < 0x90) then
      Some((Bits(b[0] - 0xf0, b[1] - 0x80, b[2] - 0x80, b[3]), 4))
    else None
  }

  function FromUtf8(b: seq<byte>): Option<seq<scalar>>
    decreases |b|
  {
    if b == [] then Some([])
    else match DecodeRune(b)
      case None => None
      case Some((v, n)) =>
        match FromUtf8(b[n..])
        case None => None
        case Some(vs) => Some([v] + vs)
  }

  lemma DecodeEncodedRune(v: scalar, rest: seq<byte>)
    ensures DecodeRune(EncodeRune(v) + rest) == Some((v, |EncodeRune(v)|))
  {
    var b := EncodeRune(v) + rest;
    assert v / 0x1000 == v / 0x40 / 0x40 && v / 0x4_0000 == v / 0x1000 / 0x40;
    if v < 0x80 {
    } else if v < 0x800 {
      assert b[0] == 0xc0 + v / 0x40 && b[1] == 0x80 + v % 0x40;
    } else if v < 0x1_0000 {
      assert b[0] == 0xe0 + v / 0x1000 && b[1] == 0x80 + v / 0x40 % 0x40 && b[2] == 0x80 + v % 0x40;
    } else {
      assert b[0] == 0xf0 + v / 0x4_0000 && b[1] == 0x80 + v / 0x1000 % 0x40;
      assert b[2] == 0x80 + v / 0x40 % 0x40 && b[3] == 0x80 + v % 0x40;
    }
  }

  function SixBits(b: byte): int { (b as int) - 0x80 }

  /** One to four bytes, as many as the scalar needs: a first byte that tells how many, and six bits in each of the others. */
  lemma RuneBytes(v: scalar)
    ensures var b, n := EncodeRune(v), v as int;
      && |b| == (if n < 0x80 then 1 else if n < 0x800 then 2 else if n < 0x1_0000 then 3 else 4)
      && (forall i :: 1 <= i < |b| ==> 0x80 <= b[i] < 0xc0)
      && n == (if |b| == 1 then (b[0] as int)
               else if |b| == 2 then (b[0] - 0xc0) * 0x40 + SixBits(b[1])
               else if |b| == 3 then (b[0] - 0xe0) * 0x1000 + SixBits(b[1]) * 0x40 + SixBits(b[2])
               else (b[0] - 0xf0) * 0x4_0000 + SixBits(b[1]) * 0x1000 + SixBits(b[2]) * 0x40 + SixBits(b[3]))
  {
    var a, c := v / 0x40, v / 0x1000;
    assert c == a / 0x40 && v / 0x4_0000 == c / 0x40;
    assert v == 0x40 * a + v % 0x40 && a == 0x40 * c + a % 0x40 && c == 0x40 * (c / 0x40) + c % 0x40;
  }

  /** The output is well-formed UTF-8 and spells exactly the scalars. */
  lemma {:induction false} Utf8RoundTrip(vs: seq<scalar>)
    ensures FromUtf8(ToUtf8(vs)) == Some(vs)
  {
    if vs != [] {
      var b, rest := EncodeRune(vs[0]), ToUtf8(vs[1..]);
      DecodeEncodedRune(vs[0], rest);
      assert (b + rest)[|b|..] == rest;
      Utf8RoundTrip(vs[1..]);
      assert [vs[0]] + vs[1..] == vs;
    }
  }

  // ---------- the conversion of the ODBC driver ----------

  /** Where the first NUL is, or the length if there is none. */
  function NulIndex(s: seq<int>): (n: nat)
    ensures n <= |s| && 0 !in s[..n] && (n < |s| ==> s[n] == 0)
  {
    if s == [] || s[0] == 0 then 0 else 1 + NulIndex(s[1..])
  }

  function Meaning(s: seq<unit>): seq<byte> { ToUtf8(FromUtf16(s[..NulIndex(s)])) }

  method CutAtNul(s: seq<unit>) returns (r: seq<unit>)
    ensures r == s[..NulIndex(s)]
  {
    for i := 0 to |s|
      invariant 0 !in s[..i]
    {
      if s[i] == 0 {
        assert NulIndex(s) == i;
        return s[..i];
      }
    }
    assert s[..|s|] == s;
    r := s;
  }

  method Utf16ToUtf8(units: seq<unit>) returns (buf: seq<byte>)
    ensures buf == Meaning(units)
  {
    hide *;
    var s := CutAtNul(units);
    buf := [];
    var i := 0;
    MeaningIs(units);
    while i < |s|
      invariant 0 <= i <= |s|
      invariant buf + ToUtf8(FromUtf16(s[i..])) == ToUtf8(FromUtf16(s))
    {
      RuneAt(s, i);
      ghost var was := buf;
      var r, rr := s[i], s[i];
      if 0xd800 <= r < 0xdc00 && i + 1 < |s| && 0xdc00 <= s[i + 1] < 0xe000 {
        Paired(r, s[i + 1]);
        rr := Combine(r, s[i + 1]);
        i := i + 1;
      } else if 0xd800 <= r < 0xe000 {
        rr := REPLACEMENT;
      }
      var b := EncodeRune(rr);
      buf := buf + b;
      i := i + 1;
      FirstRune(rr, FromUtf16(s[i..]));
      Assoc(was, b, ToUtf8(FromUtf16(s[i..])));
    }
    Finished(s);
    assert buf + [] == buf;
  }

  lemma MeaningIs(units: seq<unit>)
    ensures var s := units[..NulIndex(units)]; Meaning(units) == ToUtf8(FromUtf16(s)) && s[0..] == s
  {
  }

  lemma Finished(s: seq<unit>)
    ensures ToUtf8(FromUtf16(s[|s|..])) == []
  {
  }

  lemma Paired(hi: unit, lo: unit)
    requires 0xd800 <= hi < 0xdc00 <= lo < 0xe000
    ensures High(hi) && Low(lo)
  {
  }

  // The next character: a pair, a replaced surrogate, or a unit of its own.
  lemma RuneAt(s: seq<unit>, i: nat)
    requires i < |s|
    ensures var pair := 0xd800 <= s[i] < 0xdc00 && i + 1 < |s| && 0xdc00 <= s[i + 1] < 0xe000;
      FromUtf16(s[i..]) ==
        if pair then Paired(s[i], s[i + 1]); [Combine(s[i], s[i + 1])] + FromUtf16(s[i + 2..])
        else if 0xd800 <= s[i] < 0xe000 then [REPLACEMENT] + FromUtf16(s[i + 1..])
        else [s[i]] + FromUtf16(s[i + 1..])
  {
    hide Combine;
    assert s[i..][1..] == s[i + 1..] && (i + 1 < |s| ==> s[i..][2..] == s[i + 2..]);
  }

  lemma FirstRune(v: scalar, tail: seq<scalar>)
    ensures ToUtf8([v] + tail) == EncodeRune(v) + ToUtf8(tail)
  {
    hide EncodeRune;
    assert ([v] + tail)[1..] == tail;
  }

  /** The library form: decode everything, then encode everything. */
  method UTF16ToString(units: seq<unit>) returns (str: seq<byte>)
    ensures str == Meaning(units)
  {
    var s := CutAtNul(units);
    str := ToUtf8(FromUtf16(s));
  }

  lemma NulBehind(us: seq<unit>, rest: seq<unit>)
    requires 0 < |us| <= 2 && 0 !in us
    ensures (us + rest)[..NulIndex(us + rest)] == us + rest[..NulIndex(rest)]
  {
    assert (us + rest)[|us|..] == rest;
    assert NulIndex(us + rest) == |us| + NulIndex(rest);
  }

  lemma {:induction false} NulInUtf16(vs: seq<scalar>)
    ensures var u := ToUtf16(vs); u[..NulIndex(u)] == ToUtf16(vs[..NulIndex(vs)])
  {
    if vs != [] {
      NulInUtf16(vs[1..]);
      var us, rest, n := EncodeUnits(vs[0]), ToUtf16(vs[1..]), NulIndex(vs[1..]);
      assert 0 !in us || vs[0] == 0;
      if vs[0] != 0 {
        NulBehind(us, rest);
        assert vs[..1 + n][1..] == vs[1..][..n];
      }
    }
  }

  /** The UTF-16 form of a text converts to the UTF-8 form of the text up to its first NUL. */
  lemma MeaningOfUtf16(vs: seq<scalar>)
    ensures Meaning(ToUtf16(vs)) == ToUtf8(vs[..NulIndex(vs)])
    ensures 0 !in vs ==> Meaning(ToUtf16(vs)) == ToUtf8(vs)
  {
    hide ToUtf16, FromUtf16, ToUtf8;
    NulInUtf16(vs);
    Utf16RoundTrip(vs[..NulIndex(vs)]);
    if 0 !in vs {
      assert vs[..NulIndex(vs)] == vs;
    }
  }

  // ---------- UCS-2 strings on the wire ----------

  function UnitBytes(us: seq<unit>): (r: seq<byte>)
    ensures |r| == 2 * |us|
  {
    if us == [] then [] else [us[0] % 256, us[0] / 256] + UnitBytes(us[1..])
  }

  function Units(b: seq<byte>): (r: seq<unit>)
    requires |b| % 2 == 0
    ensures |r| == |b| / 2
  {
    if b == [] then [] else [b[0] as int + 256 * b[1] as int] + Units(b[2..])
  }

  function Str2Ucs2(vs: seq<scalar>): (r: seq<byte>)
    ensures |r| % 2 == 0
  {
    UnitBytes(ToUtf16(vs))
  }

  function Ucs22Str(b: seq<byte>): Option<seq<scalar>> {
    if |b| % 2 != 0 then None else Some(FromUtf16(Units(b)))
  }

  lemma {:induction false} UnitsRoundTrip(us: seq<unit>)
    ensures Units(UnitBytes(us)) == us
  {
    if us != [] {
      assert UnitBytes(us)[2..] == UnitBytes(us[1..]);
      UnitsRoundTrip(us[1..]);
    }
  }

  lemma Ucs2RoundTrip(vs: seq<scalar>)
    ensures Ucs22Str(Str2Ucs2(vs)) == Some(vs)
  {
    UnitsRoundTrip(ToUtf16(vs));
    Utf16RoundTrip(vs);
  }

  /** Fewer bytes than a text takes never read as that text. */
  lemma ShorterReadsAsOther(s: seq<scalar>, b: seq<byte>)
    requires |b| < |Str2Ucs2(s)|
    ensures Ucs22Str(b) != Some(s)
  {
    if |b| % 2 == 0 {
      DecodingKeepsExtent(Units(b));
    }
  }
}
