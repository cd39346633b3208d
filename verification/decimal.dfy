/** DECIMAL values: 128-bit magnitude, sign and scale, shown as exact decimal text. */
module Decimals {
  import opened Bytes
  import opened DecimalText

  type uint32 = x: int | 0 <= x < 0x1_0000_0000

  datatype Decimal = Decimal(w0: uint32, w1: uint32, w2: uint32, w3: uint32, positive: bool, scale: byte)
  {
    /** The magnitude, least significant word first. */
    function Magnitude(): nat {
      w0 + 0x1_0000_0000 * w1 + 0x1_0000_0000_0000_0000 * w2 + 0x1_0000_0000_0000_0000_0000_0000 * w3
    }

    function Mantissa(): int { WithSign(!positive, Magnitude()) }

    // The words from the i-th on are still zero.
    predicate ZeroFrom(i: nat) {
      (i <= 3 ==> w3 == 0) && (i <= 2 ==> w2 == 0) && (i <= 1 ==> w1 == 0) && (i == 0 ==> w0 == 0)
    }

    function Set(i: nat, w: uint32): Decimal
      requires i < 4
    {
      if i == 0 then this.(w0 := w) else if i == 1 then this.(w1 := w) else if i == 2 then this.(w2 := w) else this.(w3 := w)
    }
  }

  function WithSign(negative: bool, n: int): int { if negative then -n else n }

  // ---------- reading decimal text ----------

  function DotIndex(z: string): (n: nat)
    ensures n <= |z| && '.' !in z[..n] && (n < |z| ==> z[n] == '.')
  {
    if z == [] || z[0] == '.' then 0 else 1 + DotIndex(z[1..])
  }

  /** The digits before and after the point, read as one number, and how many come after it. */
  function Unsigned(z: string): Option<(nat, nat)> {
    var n := DotIndex(z);
    var whole, fraction := z[..n], if n < |z| then z[n + 1..] else "";
    if whole != [] && AllDigits(whole) && AllDigits(fraction) && (n < |z| ==> fraction != [])
    then Some((Value(whole + fraction), |fraction|)) else None
  }

  /** Decimal text denotes (m, k), meaning m / 10^k. */
  function Parse(z: string): Option<(int, nat)> {
    if z != [] && (z[0] == '-' || z[0] == '+') then
      match Unsigned(z[1..])
      case None => None
      case Some((m, k)) => Some((WithSign(z[0] == '-', m), k))
    else
      match Unsigned(z)
      case None => None
      case Some((m, k)) => Some((m, k))
  }

  lemma {:induction false} DotIndexIs(whole: string, rest: string)
    requires '.' !in whole && (rest == [] || rest[0] == '.')
    ensures DotIndex(whole + rest) == |whole|
  {
    if whole == [] {
      assert whole + rest == rest;
    } else {
      assert (whole + rest)[1..] == whole[1..] + rest;
      DotIndexIs(whole[1..], rest);
    }
  }

  lemma NoDot(s: string)
    requires AllDigits(s)
    ensures '.' !in s
  {
  }

  lemma {:induction false} ZerosValue(zeros: string, ds: string)
    requires AllDigits(ds) && (forall i :: 0 <= i < |zeros| ==> zeros[i] == '0')
    ensures AllDigits(zeros + ds) && Value(zeros + ds) == Value(ds)
  {
    if zeros == [] {
      assert zeros + ds == ds;
    } else {
      ZerosValue(zeros[1..], ds);
      var rest := zeros[1..] + ds;
      assert zeros + ds == "0" + rest;
      ValueConcat("0", rest);
      assert Value("0") == 10 * Value("0"[..0]) + 0;
    }
  }

  lemma UnsignedOf(whole: string, fraction: string)
    requires AllDigits(whole) && AllDigits(fraction) && whole != []
    ensures Unsigned(if fraction == [] then whole else whole + "." + fraction) == Some((Value(whole + fraction), |fraction|))
  {
    NoDot(whole);
    hide Value, AllDigits;
    if fraction == [] {
      assert whole + [] == whole;
      DotIndexIs(whole, []);
    } else {
      var z, dotted := whole + "." + fraction, "." + fraction;
      Assoc(whole, ".", fraction);
      assert z == whole + dotted && dotted[0] == '.';
      DotIndexIs(whole, dotted);
      assert z[..|whole|] == whole && z[|whole| + 1..] == fraction;
    }
  }

  // ---------- writing it ----------

  predicate Signed(s: string) { s != [] && (s[0] == '-' || s[0] == '+') }

  /** Puts a point `scale` digits from the right, adding zeros where there are too few digits. */
  method ScaleBytes(str: string, scale: byte) returns (z: string)
    requires var ds := if Signed(str) then str[1..] else str; ds != [] && AllDigits(ds)
    ensures var ds := if Signed(str) then str[1..] else str;
      Parse(z) == Some((WithSign(str[0] == '-', Value(ds)), scale as nat))
  {
    var s := str;
    z := "";
    if Signed(s) {
      z := z + [s[0]];
      s := s[1..];
    }
    ghost var body;
    z, body := AppendScaled(z, s, scale);
    if Signed(str) {
      assert z == [str[0]] + body;
    } else {
      assert z == body;
    }
    hide Unsigned, Value;
    assert Signed(str) ==> z[1..] == body;
  }

  lemma Joined(z0: string, whole: string, zeros: string, digits: string)
    ensures z0 + whole + "." + zeros + digits == z0 + (whole + "." + (zeros + digits))
  {
  }

  /** Appends the digits `s` with the point in its place. */
  method AppendScaled(z0: string, s: string, scale: byte) returns (z: string, ghost body: string)
    requires s != [] && AllDigits(s)
    ensures z == z0 + body && body != [] && IsDigit(body[0]) && Unsigned(body) == Some((Value(s), scale as nat))
  {
    hide Value, Unsigned;
    z := z0;
    var pos := |s| - scale;
    ghost var whole := if pos <= 0 then "0" else s[..pos];
    ghost var zeros := "";
    z := z + if pos <= 0 then "0" else s[..pos];
    if scale > 0 {
      z := z + ".";
      while pos < 0
        invariant pos <= |s| && (|s| <= scale ==> pos <= 0) && |zeros| == pos - (|s| - scale) && (|s| >= scale ==> zeros == [])
        invariant forall i :: 0 <= i < |zeros| ==> zeros[i] == '0'
        invariant z == z0 + whole + "." + zeros
        decreases -pos
      {
        z := z + "0";
        zeros := zeros + "0";
        pos := pos + 1;
      }
      z := z + s[pos..];
    }
    ghost var fraction := if scale > 0 then zeros + s[pos..] else "";
    assert |s| <= scale ==> s[pos..] == s;
    CutKeepsValue(s, whole, zeros, fraction, scale);
    UnsignedOf(whole, fraction);
    hide AllDigits;
    body := if fraction == [] then whole else whole + "." + fraction;
    assert body[0] == whole[0];
    if scale > 0 {
      assert z == z0 + whole + "." + zeros + s[pos..];
      Joined(z0, whole, zeros, s[pos..]);
    }
  }

  // The digits, cut `scale` from the right and filled up with zeros, keep their value.
  predicate Cut(ds: string, whole: string, zeros: string, fraction: string, scale: nat) {
    && (forall i :: 0 <= i < |zeros| ==> zeros[i] == '0')
    && if |ds| <= scale then whole == "0" && fraction == zeros + ds && |fraction| == scale
       else zeros == [] && whole == ds[..|ds| - scale] && fraction == ds[|ds| - scale..]
  }

  lemma CutKeepsValue(ds: string, whole: string, zeros: string, fraction: string, scale: nat)
    requires AllDigits(ds) && ds != [] && Cut(ds, whole, zeros, fraction, scale)
    ensures AllDigits(whole) && AllDigits(fraction) && whole != [] && |fraction| == scale
    ensures Value(whole + fraction) == Value(ds)
  {
    hide Value;
    if |ds| <= scale {
      ZerosValue(zeros, ds);
      assert whole + fraction == ("0" + zeros) + ds;
      ZerosValue("0" + zeros, ds);
    } else {
      assert whole + fraction == ds;
    }
  }

  function FromBe(b: seq<byte>): nat {
    if b == [] then 0 else 256 * FromBe(b[..|b| - 1]) + b[|b| - 1]
  }

  function Be32(n: uint32): (r: seq<byte>)
    ensures |r| == 4
  {
    Be16(n / 0x1_0000) + Be16(n % 0x1_0000)
  }

  lemma FromBeWord(a: seq<byte>, n: uint32)
    ensures FromBe(a + Be32(n)) == FromBe(a) * 0x1_0000_0000 + n
  {
    var b := Be32(n);
    FromBeTwo(a, b[0], b[1]);
    FromBeTwo(a + [b[0], b[1]], b[2], b[3]);
    assert a + b == a + [b[0], b[1]] + [b[2], b[3]];
    hide FromBe;
  }

  lemma FromBeTwo(a: seq<byte>, x: byte, y: byte)
    ensures FromBe(a + [x, y]) == 0x1_0000 * FromBe(a) + 256 * x as int + y
  {
    FromBeByte(a, x);
    FromBeByte(a + [x], y);
    assert a + [x, y] == a + [x] + [y];
    hide FromBe;
  }

  lemma FromBeByte(a: seq<byte>, x: byte)
    ensures FromBe(a + [x]) == 256 * FromBe(a) + x
  {
    assert (a + [x])[..|a|] == a;
  }

  /** The text of a decimal: its exact value with exactly `scale` digits after the point. */
  method Text(d: Decimal) returns (z: string)
    ensures Parse(z) == Some((d.Mantissa(), d.scale as nat))
  {
    var bytes := Be32(d.w3) + Be32(d.w2) + Be32(d.w1) + Be32(d.w0);
    var x: int := FromBe(bytes);
    WordsValue(d);
    if !d.positive {
      x := -x;
    }
    ItoaParts(x);
    z := ScaleBytes(Itoa(x), d.scale);
  }

  lemma WordsValue(d: Decimal)
    ensures FromBe(Be32(d.w3) + Be32(d.w2) + Be32(d.w1) + Be32(d.w0)) == d.Magnitude()
  {
    assert [] + Be32(d.w3) == Be32(d.w3);
    FromBeWord([], d.w3);
    FromBeWord(Be32(d.w3), d.w2);
    FromBeWord(Be32(d.w3) + Be32(d.w2), d.w1);
    FromBeWord(Be32(d.w3) + Be32(d.w2) + Be32(d.w1), d.w0);
    hide FromBe, Be32;
  }

  /** Decimal notation of an integer: a minus sign exactly for negative numbers, then its digits. */
  lemma ItoaParts(x: int)
    ensures var s := Itoa(x);
      var ds := if Signed(s) then s[1..] else s;
      && s != [] && (s[0] == '-' <==> x < 0) && ds != [] && AllDigits(ds)
      && Value(ds) == if x < 0 then -x else x
  {
    var ds := Dec(if x < 0 then -x else x);
    DecValue(if x < 0 then -x else x);
    assert IsDigit(ds[0]);
    assert x < 0 ==> Itoa(x)[1..] == ds;
  }

  lemma {:induction false} FromLeConcat(a: seq<byte>, b: seq<byte>)
    ensures FromLe(a + b) == FromLe(a) + Pow256(|a|) * FromLe(b)
  {
    if a == [] {
      assert a + b == b;
    } else {
      FromLeConcat(a[1..], b);
      assert (a + b)[1..] == a[1..] + b;
      assert 256 * (Pow256(|a| - 1) * FromLe(b)) == Pow256(|a|) * FromLe(b);
    }
  }

  /** The wire form: a sign byte, then up to four little-endian words; more words are out of range. */
  method DecodeDecimal(scale: byte, buf: seq<byte>) returns (z: string, ok: bool)
    requires buf != []
    ensures ok == (|buf| <= 20)
    ensures ok ==> var n := (|buf| - 1) / 4 * 4;
      var m := FromLe(buf[1..1 + n]);
      Parse(z) == Some((WithSign(buf[0] == 0, m), scale as nat))
  {
    hide FromLe, Pow256, Decimal.Magnitude, Parse;
    var body := buf[1..];
    var l := |body| / 4;
    if l > 4 {
      return "", false;
    }
    var dec := ReadWords(body, l, buf[0] != 0, scale);
    assert l == (|buf| - 1) / 4 && body[..4 * l] == buf[1..1 + 4 * l];
    z := Text(dec);
    ok := true;
  }

  // The words of the magnitude, lowest first.
  method ReadWords(body: seq<byte>, l: nat, positive: bool, scale: byte) returns (dec: Decimal)
    requires l <= 4 && 4 * l <= |body|
    ensures dec.positive == positive && dec.scale == scale && dec.Magnitude() == FromLe(body[..4 * l])
  {
    assert FromLe(body[..0]) == 0;
    assert Decimal(0, 0, 0, 0, positive, scale).Magnitude() == 0;
    assert Decimal(0, 0, 0, 0, positive, scale).ZeroFrom(0);
    hide FromLe, Pow256, Decimal.Magnitude, Decimal.ZeroFrom, Decimal.Set;
    dec := Decimal(0, 0, 0, 0, positive, scale);
    for i := 0 to l
      invariant dec.positive == positive && dec.scale == scale && dec.ZeroFrom(i)
      invariant dec.Magnitude() == FromLe(body[..4 * i])
    {
      var word := FromLe(body[4 * i..4 * i + 4]);
      AddWord(body, i);
      SetWord(dec, i, word);
      dec := dec.Set(i, word);
    }
  }

  lemma SetWord(dec: Decimal, i: nat, w: uint32)
    requires i < 4 && dec.ZeroFrom(i)
    ensures dec.Set(i, w).ZeroFrom(i + 1) && dec.Set(i, w).Magnitude() == dec.Magnitude() + Pow256(4 * i) * w
    ensures dec.Set(i, w).positive == dec.positive && dec.Set(i, w).scale == dec.scale
  {
    WordPowers(i);
  }

  lemma AddWord(body: seq<byte>, i: nat)
    requires i < 4 && 4 * i + 4 <= |body|
    ensures var w := FromLe(body[4 * i..4 * i + 4]);
      w < 0x1_0000_0000 && FromLe(body[..4 * (i + 1)]) == FromLe(body[..4 * i]) + Pow256(4 * i) * w
  {
    var word := body[4 * i..4 * i + 4];
    FromLeBound(word);
    Pow256Values();
    FromLeConcat(body[..4 * i], word);
    assert body[..4 * (i + 1)] == body[..4 * i] + word;
  }

  lemma WordPowers(i: nat)
    requires i < 4
    ensures Pow256(4 * i) == if i == 0 then 1 else if i == 1 then 0x1_0000_0000
      else if i == 2 then 0x1_0000_0000_0000_0000 else 0x1_0000_0000_0000_0000_0000_0000
  {
    Pow256Values();
    assert Pow256(9) == 256 * Pow256(8);
    assert Pow256(10) == 256 * Pow256(9);
    assert Pow256(11) == 256 * Pow256(10);
    assert Pow256(12) == 256 * Pow256(11);
  }
}
