/**
 * Reading a column of unbounded width piece by piece, against any library that hands out truncated pieces, with or
 * without telling how much is left.
 */
module LongColumn {
  import opened Bytes
  import Unicode

  datatype CType = Char | Wide | Binary

  // The terminator that follows every piece; none after binary data.
  function Term(c: CType): nat {
    match c case Char => 1 case Wide => 2 case Binary => 0
  }

  predicate Even(n: int) { n % 2 == 0 }

  datatype Ret = Success | SuccessWithInfo | OtherRet

  const NULL_DATA := -1
  const NO_TOTAL := -4

  datatype Fetched = Null | Data(bytes: seq<byte>) | Failed

  // BaseColumn.Value: text in UTF-16 becomes UTF-8, the rest stays as it is.
  function ValueOf(c: CType, b: seq<byte>): seq<byte>
    requires c == Wide ==> Even(|b|)
  {
    if c == Wide then Unicode.Meaning(Unicode.Units(b)) else b
  }

  /**
   * SQLGetData on one column of the current row. A piece fills the buffer up to the terminator; the length that comes
   * with it is what was left before the call, or no length at all. A broken library may stop at any call.
   */
  class ColumnSource {
    const ctype: CType
    const data: seq<byte>
    const isNull: bool
    var pos: nat
    var broken: bool
    ghost var calls: nat
    ghost var hinted: bool
    ghost var callsAfterHint: nat

    ghost predicate Valid()
      reads this
    {
      pos <= |data| && (ctype == Wide ==> Even(|data|) && Even(pos))
    }

    constructor (ctype: CType, data: seq<byte>, isNull: bool)
      requires ctype == Wide ==> Even(|data|)
      ensures this.ctype == ctype && this.data == data && this.isNull == isNull && Valid()
      ensures pos == 0 && !broken && calls == 0 && !hinted && callsAfterHint == 0
    {
      this.ctype, this.data, this.isNull := ctype, data, isNull;
      pos, broken := 0, false;
      calls, hinted, callsAfterHint := 0, false, 0;
    }

    lemma Bounded()
      requires Valid()
      ensures pos <= |data| && (ctype == Wide ==> Even(|data|) && Even(pos))
    {
    }

    // The next n bytes and a terminator.
    method HandOut(buf: array<byte>, n: nat)
      requires pos + n <= |data| && n + Term(ctype) <= buf.Length
      modifies buf
      ensures buf[..n] == data[pos..pos + n] && (pos + n == |data| ==> buf[..n] == data[pos..])
    {
      ghost var piece := data[pos..pos + n];
      forall i | 0 <= i < n {
        buf[i] := data[pos + i];
      }
      forall i | n <= i < n + Term(ctype) {
        buf[i] := 0;
      }
      StretchIs(buf[..], 0, piece);
    }

    method GetData(buf: array<byte>) returns (ret: Ret, l: int, truncated: bool)
      requires Valid() && buf.Length > Term(ctype) && (ctype == Wide ==> Even(buf.Length))
      modifies this, buf
      ensures Valid() && calls == old(calls) + 1
      ensures callsAfterHint == old(callsAfterHint) + if old(hinted) then 1 else 0
      ensures broken ==>
        ret == OtherRet || (ret == SuccessWithInfo && !truncated) || (ret == Success && l > buf.Length)
      ensures !broken && isNull ==> ret == Success && l == NULL_DATA
      ensures var left, room := |data| - old(pos), buf.Length - Term(ctype);
        !broken && !isNull && left <= room ==> ret == Success && l == left && buf[..left] == data[old(pos)..]
      ensures var left, room := |data| - old(pos), buf.Length - Term(ctype);
        !broken && !isNull && left > room ==>
          ret == SuccessWithInfo && truncated && (l == left || l == NO_TOTAL) &&
          pos == old(pos) + room && buf[..room] == data[old(pos)..pos]
      ensures hinted == (old(hinted) || (!broken && ret == SuccessWithInfo && l != NO_TOTAL))
    {
      calls := calls + 1;
      callsAfterHint := callsAfterHint + if hinted then 1 else 0;
      truncated := false;
      broken := *;
      if broken {
        ret, l := OtherRet, 0;
        var quiet: bool, much: bool := *, *;
        if quiet {
          ret := SuccessWithInfo;
        } else if much {
          ret, l := Success, buf.Length + 1;
        }
        return;
      }
      if isNull {
        return Success, NULL_DATA, false;
      }
      var left, room := |data| - pos, buf.Length - Term(ctype);
      var n := if left <= room then left else room;
      HandOut(buf, n);
      if left <= room {
        return Success, left, false;
      }
      pos := pos + room;
      var tells: bool := *;
      ret, l, truncated := SuccessWithInfo, if tells then left else NO_TOTAL, true;
      hinted := hinted || tells;
    }
  }

  method BaseValue(c: CType, buf: seq<byte>) returns (v: seq<byte>)
    requires c == Wide ==> Even(|buf|)
    ensures v == ValueOf(c, buf)
  {
    if c == Wide && |buf| > 0 {
      v := Unicode.Utf16ToUtf8(Unicode.Units(buf));
    } else {
      v := buf;
    }
  }

  lemma Marks(c: CType)
    ensures 0 <= Term(c) <= 2 && (c == Wide ==> Term(c) == 2) && Even(1024) && NULL_DATA == -1 && NO_TOTAL == -4
  {
  }

  lemma EvenNeed(all: int, from: int, room: int)
    ensures Even(all) && Even(from) && Even(room) ==> Even(all - from - (room - 2) + 2)
  {
  }

  lemma FewRounds(rounds: nat, done: nat, all: nat)
    requires 1022 * rounds <= done <= all
    ensures rounds + 1 <= 1 + all / 1022
  {
  }

  lemma Taken(total: seq<byte>, piece: seq<byte>, data: seq<byte>, from: nat, to: nat)
    requires from <= to <= |data| && total == data[..from] && piece == data[from..to]
    ensures total + piece == data[..to] && (to == |data| ==> total + piece == data)
  {
  }

  /**
   * NonBindableColumn.Value: the column's data, whole and without any terminator, or null, unless the library breaks;
   * and once the library has told how much is left, one call more is enough.
   */
  method Value(col: ColumnSource) returns (v: Fetched)
    requires col.Valid() && col.pos == 0 && col.calls == 0 && !col.hinted && col.callsAfterHint == 0
    modifies col
    ensures if col.broken then v == Failed
      else if col.isNull then v == Null
      else v == Data(ValueOf(col.ctype, col.data))
    ensures col.callsAfterHint <= 1
    ensures col.calls <= 1 + |col.data| / 1022
  {
    hide *;
    Marks(col.ctype);
    col.Bounded();
    var total: seq<byte> := [];
    var b := new byte[1024];
    var term := Term(col.ctype);
    ghost var rounds := 0;
    while true
      invariant col.Valid() && col.pos <= |col.data| && total == col.data[..col.pos]
      invariant fresh(b) && b.Length >= 1024 && (col.ctype == Wide ==> Even(b.Length))
      invariant col.callsAfterHint == 0
      invariant col.hinted ==> !col.isNull && |col.data| - col.pos <= b.Length - term
      invariant col.calls == rounds && 1022 * rounds <= col.pos
      decreases |col.data| - col.pos
    {
      col.Bounded();
      ghost var from := col.pos;
      var ret, l, truncated := col.GetData(b);
      FewRounds(rounds, from, |col.data|);
      EvenNeed(|col.data|, from, b.Length);
      col.Bounded();
      match ret {
        case Success =>
          if l == NULL_DATA {
            return Null;
          }
          if l > b.Length {
            return Failed;
          }
          assert !col.broken && !col.isNull && |col.data| - from <= b.Length - term;
          Taken(total, b[..l], col.data, from, |col.data|);
          total := total + b[..l];
          break;
        case SuccessWithInfo =>
          if !truncated {
            return Failed;
          }
          assert !col.broken && !col.isNull && |col.data| - from > b.Length - term;
          var i := b.Length - term;
          Taken(total, b[..i], col.data, from, col.pos);
          total := total + b[..i];
          if l != NO_TOTAL {
            var n := l - i + 2;
            if b.Length < n {
              b := new byte[n];
            }
          }
        case OtherRet =>
          return Failed;
      }
      rounds := rounds + 1;
    }
    var bytes := BaseValue(col.ctype, total);
    v := Data(bytes);
  }

  /** A wide column that holds the UTF-16 form of a text without NUL is read as the text in UTF-8. */
  lemma WideColumnIsText(text: seq<Unicode.scalar>)
    requires 0 !in text
    ensures ValueOf(Wide, Unicode.UnitBytes(Unicode.ToUtf16(text))) == Unicode.ToUtf8(text)
  {
    Unicode.UnitsRoundTrip(Unicode.ToUtf16(text));
    Unicode.MeaningOfUtf16(text);
  }
}
