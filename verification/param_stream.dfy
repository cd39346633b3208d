/**
 * Writing parameters to the packet buffer, and what a receiver of them reads.
 *
 * The writers are loops over the buffer, and each is proved to append the bytes that ValueCodec gives to the parameter,
 * unless a send fails, which is reported. So what ValueCodec proves about those bytes holds of what is sent, whatever
 * packets they travel in.
 */
module ParamStream {
  import opened Bytes
  import opened Unicode
  import opened Framing
  import opened ValueCodec

  method Put(w: TdsBuffer, data: seq<byte>) returns (ok: bool)
    requires w.Writing()
    modifies w.buf, w.transport`sent, w.transport`failures, w`pos, w`emitted, w`written
    ensures ok <==> w.transport.failures == old(w.transport.failures)
    ensures ok ==> w.Writing() && w.written == old(w.written) + data
    ensures !ok ==> w.Broken()
  {
    var total;
    total, ok := w.Write(data);
    assert data[..|data|] == data;
  }

  lemma Cascade(sofar: seq<byte>, size: seq<byte>, piece: seq<byte>, rest: seq<byte>)
    ensures sofar + (size + (piece + rest)) == sofar + size + piece + rest
  {
  }

  // What one turn of the loop writes, and what is left for the next.
  lemma ChunkStep(sofar: seq<byte>, buf: seq<byte>)
    ensures var n := |buf| % CHUNK;
      if n == 0 then sofar + PlpChunks(buf) == sofar + Le(n, 4)
      else sofar + PlpChunks(buf) == sofar + Le(n, 4) + buf[..n] + PlpChunks(buf[n..])
  {
    hide Le;
    Remainder(|buf|);
    var n := |buf| % CHUNK;
    if n == 0 {
      assert PlpChunks(buf) == Le(n, 4);
    } else {
      assert PlpChunks(buf) == Le(n, 4) + (buf[..n] + PlpChunks(buf[n..]));
      hide PlpChunks;
      Cascade(sofar, Le(n, 4), buf[..n], PlpChunks(buf[n..]));
    }
  }

  method WritePlpType(w: TdsBuffer, v: seq<byte>) returns (ok: bool)
    requires w.Writing()
    modifies w.buf, w.transport`sent, w.transport`failures, w`pos, w`emitted, w`written
    ensures ok <==> w.transport.failures == old(w.transport.failures)
    ensures ok ==> w.Writing() && w.written == old(w.written) + PlpBytes(v)
    ensures !ok ==> w.Broken()
  {
    hide TdsBuffer.Writing, TdsBuffer.Broken, PlpChunks, Le;
    ok := Put(w, Le(|v|, 8));
    if !ok {
      return;
    }
    var buf := v;
    ghost var goal := w.written + PlpChunks(v);
    assert goal == old(w.written) + PlpBytes(v);
    while true
      invariant w.transport.failures == old(w.transport.failures)
      invariant w.Writing() && w.written + PlpChunks(buf) == goal
      decreases |buf|
    {
      var chunksize := |buf| % CHUNK;
      ChunkStep(w.written, buf);
      ok := Put(w, Le(chunksize, 4));
      if !ok {
        return;
      }
      if chunksize == 0 {
        return;
      }
      ok := Put(w, buf[..chunksize]);
      if !ok {
        return;
      }
      buf := buf[chunksize..];
    }
  }

  method WriteValue(w: TdsBuffer, ti: TypeInfo, buffer: Option<seq<byte>>) returns (ok: bool)
    requires w.Writing() && Writable(ti)
    modifies w.buf, w.transport`sent, w.transport`failures, w`pos, w`emitted, w`written
    ensures ok <==> w.transport.failures == old(w.transport.failures)
    ensures ok ==> w.Writing() && w.written == old(w.written) + ValueBytes(ti, buffer)
    ensures !ok ==> w.Broken()
  {
    hide TdsBuffer.Writing, TdsBuffer.Broken, PlpBytes, Le;
    match WriterOf(ti) {
      case ByteLenWriter =>
        ok := Put(w, [ti.size]);
        if ok {
          ok := Put(w, Content(buffer));
        }
      case ShortLenWriter =>
        if buffer.None? {
          ok := Put(w, Le(0xffff, 2));
        } else {
          ok := Put(w, Le(ti.size, 2));
          if ok {
            ok := Put(w, buffer.value);
          }
        }
      case PlpWriter =>
        ok := WritePlpType(w, Content(buffer));
    }
  }

  method WriteCollation(w: TdsBuffer, c: Collation) returns (ok: bool)
    requires w.Writing()
    modifies w.buf, w.transport`sent, w.transport`failures, w`pos, w`emitted, w`written
    ensures ok <==> w.transport.failures == old(w.transport.failures)
    ensures ok ==> w.Writing() && w.written == old(w.written) + CollationBytes(c)
    ensures !ok ==> w.Broken()
  {
    hide TdsBuffer.Writing, TdsBuffer.Broken, Le;
    ok := Put(w, Le(c.lcidAndFlags, 4));
    if ok {
      ok := Put(w, [c.sortId]);
    }
  }

  method WriteTypeInfo(w: TdsBuffer, ti: TypeInfo) returns (ok: bool)
    requires w.Writing() && Encodable(ti)
    modifies w.buf, w.transport`sent, w.transport`failures, w`pos, w`emitted, w`written
    ensures ok <==> w.transport.failures == old(w.transport.failures)
    ensures ok ==> w.Writing() && w.written == old(w.written) + TypeInfoBytes(ti)
    ensures !ok ==> w.Broken()
  {
    hide TdsBuffer.Writing, TdsBuffer.Broken, Le, CollationBytes;
    ok := Put(w, [ti.typeId]);
    if !ok {
      return;
    }
    match ClassOf(ti.typeId) {
      case Time =>
        ok := Put(w, [ti.scale]);
      case ByteLen =>
        ok := Put(w, [ti.size]);
        if ok && HasPrecision(ti.typeId) {
          ok := Put(w, [ti.prec]);
          if ok {
            ok := Put(w, [ti.scale]);
          }
        }
      case ShortLen =>
        ok := Put(w, SizeBytes(ti));
        if ok && HasCollation(ti.typeId) {
          ok := WriteCollation(w, ti.collation);
        }
      case XmlType =>
        ok := Put(w, SizeBytes(ti));
        if ok {
          ok := Put(w, [0]);
        }
      case _ =>
    }
  }

  // ---------- RPC parameters ----------

  datatype RpcParam = RpcParam(name: seq<scalar>, flags: byte, param: Param)

  // A name of more than 255 units panics.
  predicate Callable(p: RpcParam) {
    |ToUtf16(p.name)| <= 0xff && Encodable(p.param.ti) && Writable(p.param.ti)
  }

  function BVarChar(s: seq<scalar>): seq<byte>
    requires |ToUtf16(s)| <= 0xff
  {
    [|ToUtf16(s)|] + Str2Ucs2(s)
  }

  function RpcParamBytes(p: RpcParam): seq<byte>
    requires Callable(p)
  {
    BVarChar(p.name) + [p.flags] + ParamBytes(p.param)
  }

  function RpcParamsBytes(ps: seq<RpcParam>): seq<byte>
    requires forall p :: p in ps ==> Callable(p)
  {
    if ps == [] then [] else RpcParamBytes(ps[0]) + RpcParamsBytes(ps[1..])
  }

  method WriteRpcParam(w: TdsBuffer, p: RpcParam) returns (ok: bool)
    requires w.Writing() && Callable(p)
    modifies w.buf, w.transport`sent, w.transport`failures, w`pos, w`emitted, w`written
    ensures ok <==> w.transport.failures == old(w.transport.failures)
    ensures ok ==> w.Writing() && w.written == old(w.written) + RpcParamBytes(p)
    ensures !ok ==> w.Broken()
  {
    hide TdsBuffer.Writing, TdsBuffer.Broken, TypeInfoBytes, ValueBytes, UnitBytes, ToUtf16;
    var name := Str2Ucs2(p.name);
    ok := Put(w, [|name| / 2]);
    if ok {
      ok := Put(w, name);
    }
    if ok {
      ok := Put(w, [p.flags]);
    }
    if ok {
      ok := WriteTypeInfo(w, p.param.ti);
    }
    if ok {
      ok := WriteValue(w, p.param.ti, p.param.buffer);
    }
  }

  /** The parameter loop of an RPC request. */
  method WriteRpcParams(w: TdsBuffer, ps: seq<RpcParam>) returns (ok: bool)
    requires w.Writing() && (forall p :: p in ps ==> Callable(p))
    modifies w.buf, w.transport`sent, w.transport`failures, w`pos, w`emitted, w`written
    ensures ok <==> w.transport.failures == old(w.transport.failures)
    ensures ok ==> w.Writing() && w.written == old(w.written) + RpcParamsBytes(ps)
    ensures !ok ==> w.Broken()
  {
    hide TdsBuffer.Writing, TdsBuffer.Broken, RpcParamBytes, Callable;
    ghost var goal := w.written + RpcParamsBytes(ps);
    for i := 0 to |ps|
      invariant w.transport.failures == old(w.transport.failures)
      invariant w.Writing() && w.written + RpcParamsBytes(ps[i..]) == goal
    {
      ghost var sofar := w.written;
      assert ps[i..][1..] == ps[i + 1..];
      ok := WriteRpcParam(w, ps[i]);
      if !ok {
        return;
      }
      Assoc(sofar, RpcParamBytes(ps[i]), RpcParamsBytes(ps[i + 1..]));
    }
    assert w.written + [] == w.written;
    ok := true;
  }

  // What a receiver of the request makes of a parameter.
  function ParseRpcParam(s: seq<byte>): Parsed<(seq<scalar>, byte, Value)> {
    var (name, s1) :- ParseVarChar(s, 1);
    var (flags, s2) :- ParseByte(s1);
    var (v, rest) :- ParseParam(s2);
    match Ucs22Str(name) case None => Fail case Some(n) => Ok((n, flags, v), rest)
  }

  function ParseRpcParams(s: seq<byte>, n: nat): Parsed<seq<(seq<scalar>, byte, Value)>>
    decreases n
  {
    if n == 0 then Ok([], s)
    else
      var (p, s1) :- ParseRpcParam(s);
      var (ps, rest) :- ParseRpcParams(s1, n - 1);
      Ok([p] + ps, rest)
  }

  /** An argument of a statement: a name, flags, and a value the driver can send. */
  datatype Argument = Argument(name: seq<scalar>, flags: byte, v: Value)

  predicate Good(a: Argument) { |ToUtf16(a.name)| <= 0xff && ValueCodec.Sendable(a.v) && Carries(a.v) }

  function Made(a: Argument): (p: RpcParam)
    requires Good(a)
    ensures Callable(p)
  {
    ParamsAreWritable(a.v);
    RpcParam(a.name, a.flags, MakeParam(a.v))
  }

  function MadeAll(args: seq<Argument>): (ps: seq<RpcParam>)
    requires forall a :: a in args ==> Good(a)
    ensures forall p :: p in ps ==> Callable(p)
  {
    if args == [] then [] else [Made(args[0])] + MadeAll(args[1..])
  }

  function CarriedAll(args: seq<Argument>): seq<(seq<scalar>, byte, Value)> {
    if args == [] then [] else [(args[0].name, args[0].flags, Carried(args[0].v))] + CarriedAll(args[1..])
  }

  lemma NameRoundTrip(name: seq<scalar>, rest: seq<byte>)
    requires |ToUtf16(name)| <= 0xff
    ensures ParseVarChar(BVarChar(name) + rest, 1) == Ok(Str2Ucs2(name), rest)
  {
    hide ToUtf16, UnitBytes;
    var b := Str2Ucs2(name);
    var n := |ToUtf16(name)|;
    assert BVarChar(name) + rest == [n] + (b + rest);
    assert ([n] + (b + rest))[..1] == [n] && ([n] + (b + rest))[1..] == b + rest;
    assert FromLe([n]) == n + 256 * FromLe([n][1..]);
    TakeFront(b, rest);
  }

  lemma RpcParamRoundTrip(a: Argument, rest: seq<byte>)
    requires Good(a)
    ensures ParseRpcParam(RpcParamBytes(Made(a)) + rest) == Ok((a.name, a.flags, Carried(a.v)), rest)
  {
    hide *;
    IsGood(a);
    ParamsAreWritable(a.v);
    var value := ParamBytes(MakeParam(a.v)) + rest;
    MadeBytes(a, rest);
    NameRoundTrip(a.name, [a.flags] + value);
    Cons(a.flags, value);
    ParamRoundTrip(a.v, rest);
    Ucs2RoundTrip(a.name);
    ParseInParts(BVarChar(a.name) + ([a.flags] + value), Str2Ucs2(a.name), a.name, a.flags, value);
  }

  lemma IsGood(a: Argument)
    requires Good(a)
    ensures |ToUtf16(a.name)| <= 0xff && ValueCodec.Sendable(a.v) && Carries(a.v)
  {
  }

  lemma MadeBytes(a: Argument, rest: seq<byte>)
    requires Good(a)
    ensures Encodable(MakeParam(a.v).ti) && Writable(MakeParam(a.v).ti)
    ensures RpcParamBytes(Made(a)) + rest == BVarChar(a.name) + ([a.flags] + (ParamBytes(MakeParam(a.v)) + rest))
  {
    hide *;
    IsGood(a);
    MadeParts(a);
    Regroup(BVarChar(a.name), [a.flags], ParamBytes(MakeParam(a.v)), rest);
  }

  lemma MadeParts(a: Argument)
    requires Good(a)
    ensures Encodable(MakeParam(a.v).ti) && Writable(MakeParam(a.v).ti)
    ensures RpcParamBytes(Made(a)) == BVarChar(a.name) + [a.flags] + ParamBytes(MakeParam(a.v))
  {
    hide ParamBytes, BVarChar, MakeParam, Carries, Encodable, Writable;
    ParamsAreWritable(a.v);
  }

  lemma Regroup(a: seq<byte>, b: seq<byte>, c: seq<byte>, d: seq<byte>)
    ensures a + b + c + d == a + (b + (c + d))
  {
    Assoc(a, b, c);
    Assoc(a, b + c, d);
    Assoc(b, c, d);
  }

  lemma ParseInParts(s: seq<byte>, name: seq<byte>, text: seq<scalar>, flags: byte, value: seq<byte>)
    requires ParseVarChar(s, 1) == Ok(name, [flags] + value) && ParseByte([flags] + value) == Ok(flags, value)
    requires Ucs22Str(name) == Some(text)
    ensures ParseRpcParam(s) == match ParseParam(value) case Ok(v, rest) => Ok((text, flags, v), rest) case Fail => Fail
  {
    hide ParseVarChar, ParseByte, ParseParam, Ucs22Str;
  }

  /** The parameters of a request come back in order, names, flags and values, and nothing else is consumed. */
  lemma {:induction false} RpcRoundTrip(args: seq<Argument>, rest: seq<byte>)
    requires forall a :: a in args ==> Good(a)
    ensures ParseRpcParams(RpcParamsBytes(MadeAll(args)) + rest, |args|) == Ok(CarriedAll(args), rest)
  {
    if args == [] {
      assert RpcParamsBytes(MadeAll(args)) + rest == rest;
    } else {
      hide ParseRpcParam, RpcParamBytes;
      var ps := MadeAll(args);
      assert ps[1..] == MadeAll(args[1..]);
      var tail := RpcParamsBytes(ps[1..]) + rest;
      assert RpcParamsBytes(ps) + rest == RpcParamBytes(ps[0]) + tail;
      RpcParamRoundTrip(args[0], tail);
      RpcRoundTrip(args[1..], rest);
    }
  }
}
