/**
 * Bytes, the fixed-width integers that travel on the wire, and results of consuming a byte stream.
 *
 * Integers are little-endian unless their names say otherwise. A number that does not fit its bytes is truncated, as the
 * conversions of the program truncate it; one that fits is read back. The lemmas about sequences give the prover the few
 * facts that the other modules need.
 */
module Bytes {
  type byte = x: int | 0 <= x < 256

  datatype Option<+T> = None | Some(value: T)

  /** The result of taking a value off the front of a byte stream. */
  datatype Parsed<+T> = Fail | Ok(value: T, rest: seq<byte>)
  {
    predicate IsFailure() { Fail? }
    function PropagateFailure<U>(): Parsed<U> requires Fail? { Fail }
    function Extract(): (T, seq<byte>) requires Ok? { (value, rest) }
  }

  function Take(s: seq<byte>, n: nat): Parsed<seq<byte>> {
    if |s| < n then Fail else Ok(s[..n], s[n..])
  }

  function Pow256(w: nat): (r: nat)
    ensures r > 0
  {
    if w == 0 then 1 else 256 * Pow256(w - 1)
  }

  /** The low `w` bytes of `n`, least significant first. */
  function Le(n: nat, w: nat): (r: seq<byte>)
    ensures |r| == w
  {
    if w == 0 then [] else [n % 256] + Le(n / 256, w - 1)
  }

  function FromLe(b: seq<byte>): nat {
    if b == [] then 0 else b[0] + 256 * FromLe(b[1..])
  }

  /** Reading back a little-endian integer gives the value truncated to its width. */
  lemma {:induction false} LeTruncates(n: nat, w: nat)
    ensures FromLe(Le(n, w)) == n % Pow256(w)
  {
    if w != 0 {
      var p, q := Pow256(w - 1), n / 256;
      LeTruncates(q, w - 1);
      assert Le(n, w)[1..] == Le(q, w - 1);
      ModStep(n, p);
    }
  }

  lemma ModStep(n: nat, p: nat)
    requires p > 0
    ensures n % (256 * p) == n % 256 + 256 * (n / 256 % p)
  {
    var q, r := n / 256 / p, n / 256 % p;
    assert n / 256 == p * q + r;
    assert 256 * (p * q) == q * (256 * p);
    ModOf(n, q, 256 * p, 256 * r + n % 256);
  }

  lemma ModOf(n: int, q: int, m: int, r: int)
    requires m > 0 && n == q * m + r && 0 <= r < m
    ensures n % m == r && n / m == q
  {
    var d := q - n / m;
    assert d * m == n % m - r;
    MultipleIsFar(d, m);
  }

  lemma MultipleIsFar(d: int, m: int)
    requires m > 0
    ensures d >= 1 ==> d * m >= m
    ensures d <= -1 ==> d * m <= -m
  {
  }

  lemma LeFits(n: nat, w: nat)
    requires n < Pow256(w)
    ensures FromLe(Le(n, w)) == n
  {
    LeTruncates(n, w);
    ModOf(n, 0, Pow256(w), n);
  }

  lemma {:induction false} FromLeBound(b: seq<byte>)
    ensures FromLe(b) < Pow256(|b|)
  {
    if b != [] {
      FromLeBound(b[1..]);
    }
  }

  lemma Pow256Values()
    ensures Pow256(1) == 0x100 && Pow256(2) == 0x1_0000 && Pow256(3) == 0x100_0000
    ensures Pow256(4) == 0x1_0000_0000 && Pow256(5) == 0x100_0000_0000
    ensures Pow256(8) == 0x1_0000_0000_0000_0000
  {
    assert Pow256(2) == 256 * Pow256(1);
    assert Pow256(3) == 256 * Pow256(2);
    assert Pow256(4) == 256 * Pow256(3);
    assert Pow256(5) == 256 * Pow256(4);
    assert Pow256(6) == 256 * Pow256(5);
    assert Pow256(7) == 256 * Pow256(6);
    assert Pow256(8) == 256 * Pow256(7);
  }

  lemma StretchIs<T>(a: seq<T>, lo: nat, d: seq<T>)
    requires lo + |d| <= |a| && forall i :: 0 <= i < |d| ==> a[lo + i] == d[i]
    ensures a[lo..lo + |d|] == d
  {
  }

  lemma Middle<T>(a: seq<T>, mid: seq<T>, b: seq<T>)
    ensures (a + mid + b)[|a|..|a| + |mid|] == mid
  {
  }

  lemma NextPiece<T>(p: seq<T>, done: nat, n: nat)
    requires done + n <= |p|
    ensures p[..done + n] == p[..done] + p[done..][..n]
    ensures p[done..][n..] == p[done + n..]
  {
  }

  lemma Assoc<T>(a: seq<T>, b: seq<T>, c: seq<T>)
    ensures a + (b + c) == a + b + c
  {
  }

  /** Two big-endian bytes, as packet headers and PRELOGIN records store lengths. */
  function Be16(n: nat): (r: seq<byte>)
    requires n < 0x1_0000
    ensures |r| == 2
  {
    [n / 256, n % 256]
  }

  function FromBe16(hi: byte, lo: byte): nat { 256 * hi + lo }
}
