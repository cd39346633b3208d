/** The token loop that turns a response message into items for the caller. */
module Tokens {
  import opened Bytes
  import opened Unicode
  import opened ValueCodec
  import DateTime

  // token ids
  const RETURN_STATUS: byte := 121
  const COL_METADATA: byte := 129
  const ORDER: byte := 169
  const ERROR: byte := 170
  const INFO: byte := 171
  const LOGIN_ACK: byte := 173
  const ROW: byte := 209
  const NBC_ROW: byte := 210
  const ENV_CHANGE: byte := 227
  const SSPI: byte := 237
  const DONE: byte := 253
  const DONE_PROC: byte := 254
  const DONE_IN_PROC: byte := 255

  // bits of a done status
  const DONE_MORE := 0
  const DONE_ERROR := 1
  const DONE_SRV_ERROR := 8

  datatype Column = Column(userType: nat, flags: nat, ti: TypeInfo, reader: Reader, name: seq<scalar>)

  datatype Done = Done(status: nat, curCmd: nat, rowCount: nat)

  datatype Error = Error(number: int, state: byte, class_: byte, message: seq<scalar>,
                         server: seq<scalar>, proc: seq<scalar>, line: int)

  const NO_ERROR := Error(0, 0, 0, [], [], [], 0)
  const SERVER_ERROR: seq<scalar> := [83, 101, 114, 118, 101, 114, 32, 69, 114, 114, 111, 114]

  datatype EnvChange =
    | Database(name: seq<scalar>) | PacketSize(n: nat) | BeginTran(id: nat) | EndTran | Ignored

  datatype Token =
    | TSspi(msg: seq<byte>)
    | TReturnStatus(code: int)
    | TLoginAck(interface_: byte, version: nat, program: seq<scalar>, programVersion: nat)
    | TOrder(ids: seq<nat>)
    | TDoneInProc(inProc: Done)
    | TDone(done: Done)
    | TColumns(cols: seq<Column>)
    | TRow(cells: seq<Value>)
    | TEnvChange(changes: seq<EnvChange>)
    | TError(err: Error)
    | TInfo(info: Error)

  // ---------- parsing one token ----------

  function ParseString(s: seq<byte>, w: nat): (r: Parsed<seq<scalar>>)
    ensures r.Ok? ==> |r.rest| <= |s|
  {
    var (b, rest) :- ParseVarChar(s, w);
    match Ucs22Str(b) case None => Fail case Some(v) => Ok(v, rest)
  }

  function ParseDone(s: seq<byte>): (r: Parsed<Done>)
    ensures r.Ok? ==> |r.rest| <= |s|
  {
    var (status, s1) :- ParseLe(s, 2);
    var (curCmd, s2) :- ParseLe(s1, 2);
    var (rowCount, rest) :- ParseLe(s2, 8);
    Ok(Done(status, curCmd, rowCount), rest)
  }

  /** Four bytes taken as an int32. */
  function Signed32(n: nat): int { if n < 0x8000_0000 then n else n - 0x1_0000_0000 }

  function ParseError(s: seq<byte>): (r: Parsed<Error>)
    ensures r.Ok? ==> |r.rest| <= |s|
  {
    var (_, s1) :- ParseLe(s, 2);
    var (number, s2) :- ParseLe(s1, 4);
    var (state, s3) :- ParseByte(s2);
    var (class_, s4) :- ParseByte(s3);
    var (message, s5) :- ParseString(s4, 2);
    var (server, s6) :- ParseString(s5, 1);
    var (proc, s7) :- ParseString(s6, 1);
    var (line, rest) :- ParseLe(s7, 4);
    Ok(Error(Signed32(number), state, class_, message, server, proc, Signed32(line)), rest)
  }

  function ParseIds(s: seq<byte>, n: nat): (r: Parsed<seq<nat>>)
    ensures r.Ok? ==> |r.rest| <= |s|
    decreases n
  {
    if n == 0 then Ok([], s)
    else
      var (id, s1) :- ParseLe(s, 2);
      var (ids, rest) :- ParseIds(s1, n - 1);
      Ok([id] + ids, rest)
  }

  function ParseOrder(s: seq<byte>): (r: Parsed<seq<nat>>)
    ensures r.Ok? ==> |r.rest| <= |s|
  {
    var (len, s1) :- ParseLe(s, 2);
    ParseIds(s1, len / 2)
  }

  function ParseSspi(s: seq<byte>): (r: Parsed<seq<byte>>)
    ensures r.Ok? ==> |r.rest| <= |s|
  {
    var (size, s1) :- ParseLe(s, 2);
    Take(s1, size)
  }

  function FromBe32(b: seq<byte>): nat
    requires |b| == 4
  {
    0x1_0000 * FromBe16(b[0], b[1]) + FromBe16(b[2], b[3])
  }

  /** The end of the program name is computed in eight bits. */
  function ParseLoginAck(s: seq<byte>): (r: Parsed<Token>)
    ensures r.Ok? ==> |r.rest| <= |s|
  {
    var (size, s1) :- ParseLe(s, 2);
    var (b, rest) :- Take(s1, size);
    if size < 6 then Fail
    else
      var end := (6 + 2 * b[5] as int) % 256;
      if end < 6 || end > size then Fail
      else match Ucs22Str(b[6..end])
        case None => Fail
        case Some(name) => Ok(TLoginAck(b[0], FromBe32(b[1..5]), name, FromBe32(b[size - 4..])), rest)
  }

  function ParseColumn(s: seq<byte>): (r: Parsed<Column>)
    ensures r.Ok? ==> |r.rest| <= |s|
  {
    var (userType, s1) :- ParseLe(s, 4);
    var (flags, s2) :- ParseLe(s1, 2);
    var (t, s3) :- ParseTypeInfo(s2);
    var (name, rest) :- ParseString(s3, 1);
    Ok(Column(userType, flags, t.0, t.1, name), rest)
  }

  function ParseColumns(s: seq<byte>, n: nat): (r: Parsed<seq<Column>>)
    ensures r.Ok? ==> |r.rest| <= |s|
    decreases n
  {
    if n == 0 then Ok([], s)
    else
      var (c, s1) :- ParseColumn(s);
      var (cs, rest) :- ParseColumns(s1, n - 1);
      Ok([c] + cs, rest)
  }

  function ParseColMetadata(s: seq<byte>): (r: Parsed<seq<Column>>)
    ensures r.Ok? ==> |r.rest| <= |s|
  {
    var (count, rest) :- ParseLe(s, 2);
    if count == 0xffff then Ok([], rest) else ParseColumns(rest, count)
  }

  function ParseValue(c: Column, s: seq<byte>): (r: Parsed<Value>)
    ensures r.Ok? ==> |r.rest| <= |s|
  {
    var (cell, rest) :- ParseCell(c.ti, c.reader, s);
    match Interpret(c.ti, cell) case None => Fail case Some(v) => Ok(v, rest)
  }

  function ParseRow(cols: seq<Column>, s: seq<byte>): (r: Parsed<seq<Value>>)
    ensures r.Ok? ==> |r.rest| <= |s|
    ensures r.Ok? ==> |r.value| == |cols|
  {
    if cols == [] then Ok([], s)
    else
      var (v, s1) :- ParseValue(cols[0], s);
      var (vs, rest) :- ParseRow(cols[1..], s1);
      Ok([v] + vs, rest)
  }

  function Bit(n: nat, b: nat): bool {
    if b == 0 then n % 2 == 1 else Bit(n / 2, b - 1)
  }

  /** Columns from the i-th on, those marked in the bitmap being null. */
  function ParseUnmarked(pres: seq<byte>, cols: seq<Column>, i: nat, s: seq<byte>): (r: Parsed<seq<Value>>)
    ensures r.Ok? ==> |r.rest| <= |s|
    requires i <= |cols| <= 8 * |pres|
    ensures r.Ok? ==> |r.value| == |cols| - i
    decreases |cols| - i
  {
    if i == |cols| then Ok([], s)
    else if Bit(pres[i / 8], i % 8) then
      var (vs, rest) :- ParseUnmarked(pres, cols, i + 1, s);
      Ok([Null] + vs, rest)
    else
      var (v, s1) :- ParseValue(cols[i], s);
      var (vs, rest) :- ParseUnmarked(pres, cols, i + 1, s1);
      Ok([v] + vs, rest)
  }

  function ParseNbcRow(cols: seq<Column>, s: seq<byte>): (r: Parsed<seq<Value>>)
    ensures r.Ok? ==> |r.rest| <= |s|
    ensures r.Ok? ==> |r.value| == |cols|
  {
    var (pres, rest) :- Take(s, (|cols| + 7) / 8);
    ParseUnmarked(pres, cols, 0, rest)
  }

  /** Text of a packet size: digits, possibly signed; None where conversion or allocation fails. */
  function Atoi(s: seq<scalar>): Option<nat> {
    var body := if s != [] && (s[0] == 43 || s[0] == 45) then s[1..] else s;
    if body == [] || (exists i :: 0 <= i < |body| && !(48 <= body[i] < 58)) then None
    else
      var n := Number(body);
      if n > MAX_ALLOC || (s[0] == 45 && n > 0) then None else Some(n)
  }

  function Number(s: seq<scalar>): nat
    requires forall i :: 0 <= i < |s| ==> 48 <= s[i] < 58
  {
    if s == [] then 0 else 10 * Number(s[..|s| - 1]) + (s[|s| - 1] - 48)
  }

  function ParseBytes(s: seq<byte>): (r: Parsed<seq<byte>>)
    ensures r.Ok? ==> |r.rest| < |s|
  {
    var (n, s1) :- ParseByte(s);
    Take(s1, n)
  }

  function RestOf<T>(r: Parsed<T>): Option<seq<byte>> {
    match r case Fail => None case Ok(_, rest) => Some(rest)
  }

  // What follows two strings, or two byte strings.
  function AfterStrings(s: seq<byte>): Parsed<seq<scalar>> {
    var (now, s1) :- ParseString(s, 1);
    var (_, rest) :- ParseString(s1, 1);
    Ok(now, rest)
  }

  function AfterBytes(s: seq<byte>): Parsed<seq<byte>> {
    var (now, s1) :- ParseBytes(s);
    var (_, rest) :- ParseBytes(s1);
    Ok(now, rest)
  }

  /** A new packet size is in force only when both values have been read. */
  function SizeChange(s: seq<byte>): (EnvChange, Option<seq<byte>>) {
    match AfterStrings(s)
    case Fail => (Ignored, None)
    case Ok(now, rest) => match Atoi(now) case None => (Ignored, None) case Some(n) => (PacketSize(n), Some(rest))
  }

  /** The database is already changed when its old name is read, to nothing if its new name cannot be read. */
  function DatabaseChange(s: seq<byte>): (EnvChange, Option<seq<byte>>) {
    match ParseString(s, 1)
    case Fail => (Database([]), None)
    case Ok(now, s1) => (Database(now), RestOf(ParseString(s1, 1)))
  }

  /** The transaction is taken over from as many bytes as there are, as long as eight are announced. */
  function TranChange(s: seq<byte>): (EnvChange, Option<seq<byte>>) {
    if s == [] || s[0] != 8 then (Ignored, None)
    else if |s| < 9 then (BeginTran(FromLe(s[1..])), None)
    else (BeginTran(FromLe(s[1..9])), RestOf(ParseBytes(s[9..])))
  }

  /** One change: what it does to the session, and what follows it; None where reading it ends the run. */
  function ReadChange(s: seq<byte>): (r: (EnvChange, Option<seq<byte>>))
    requires s != []
    ensures r.1.Some? ==> |r.1.value| < |s|
  {
    ChangeOf(s[0], s[1..])
  }

  function ChangeOf(kind: byte, body: seq<byte>): (r: (EnvChange, Option<seq<byte>>))
    ensures r.1.Some? ==> |r.1.value| <= |body|
  {
    if kind == 1 then DatabaseChange(body)
    else if kind == 4 then SizeChange(body)
    else if kind == 8 then TranChange(body)
    else if kind == 13 then (Ignored, RestOf(AfterStrings(body)))
    else
      var rest := RestOf(AfterBytes(body));
      (if rest.Some? && (kind == 9 || kind == 10) then EndTran else Ignored, rest)
  }

  /** The changes that take effect, and whether all of them could be read. */
  function ReadChanges(s: seq<byte>): (seq<EnvChange>, bool)
    decreases |s|
  {
    if s == [] then ([], true)
    else
      match ReadChange(s)
      case (c, None) => ([c], false)
      case (c, Some(rest)) => var (cs, ok) := ReadChanges(rest); ([c] + cs, ok)
  }

  /** The announced number of bytes, or all that are left. */
  function Window(s: seq<byte>, left: nat): seq<byte> { s[..if |s| < left then |s| else left] }

  function Outside(s: seq<byte>, left: nat): seq<byte> { s[|Window(s, left)|..] }

  /** Changes are read from the announced number of bytes, or from what is left of the message. */
  function ParseEnvChange(s: seq<byte>): (r: Parsed<Token>)
    ensures r.Ok? ==> |r.rest| <= |s|
  {
    var (size, s1) :- ParseLe(s, 2);
    var (cs, ok) := ReadChanges(Window(s1, size));
    if ok then Ok(TEnvChange(cs), Outside(s1, size)) else Fail
  }

  function ParseToken(cols: seq<Column>, s: seq<byte>): (r: Parsed<Token>)
    ensures r.Ok? ==> |r.rest| < |s|
  {
    var (id, s1) :- ParseByte(s);
    ParseBody(cols, id, s1)
  }

  /** A token whose id has been read. */
  function ParseBody(cols: seq<Column>, id: byte, s: seq<byte>): (r: Parsed<Token>)
    ensures r.Ok? ==> |r.rest| <= |s|
  {
    if id == SSPI then
      var (msg, rest) :- ParseSspi(s);
      Ok(TSspi(msg), rest)
    else if id == RETURN_STATUS then
      var (code, rest) :- ParseLe(s, 4);
      Ok(TReturnStatus(Signed32(code)), rest)
    else if id == LOGIN_ACK then ParseLoginAck(s)
    else if id == ORDER then
      var (ids, rest) :- ParseOrder(s);
      Ok(TOrder(ids), rest)
    else if id == DONE_IN_PROC then
      var (d, rest) :- ParseDone(s);
      Ok(TDoneInProc(d), rest)
    else if id == DONE || id == DONE_PROC then
      var (d, rest) :- ParseDone(s);
      Ok(TDone(d), rest)
    else if id == COL_METADATA then
      var (cs, rest) :- ParseColMetadata(s);
      Ok(TColumns(cs), rest)
    else if id == ROW then
      var (vs, rest) :- ParseRow(cols, s);
      Ok(TRow(vs), rest)
    else if id == NBC_ROW then
      var (vs, rest) :- ParseNbcRow(cols, s);
      Ok(TRow(vs), rest)
    else if id == ENV_CHANGE then ParseEnvChange(s)
    else if id == ERROR then
      var (e, rest) :- ParseError(s);
      Ok(TError(e), rest)
    else if id == INFO then
      var (e, rest) :- ParseError(s);
      Ok(TInfo(e), rest)
    else Fail
  }

  // ---------- the run ----------

  /** What the caller receives. */
  datatype Item =
    | Sspi(msg: seq<byte>)
    | ReturnStatus(code: int)
    | LoginAck(version: nat, program: seq<scalar>)
    | Order(ids: seq<nat>)
    | DoneInProcItem(inProc: Done)
    | DoneItem(done: Done)
    | Columns(cols: seq<Column>)
    | RowItem(cells: seq<Value>)
    | Failure(err: Error)
    | BadStream

  /** The tokens of a message, up to the first one that cannot be read. */
  function Trace(cols: seq<Column>, s: seq<byte>): seq<Token>
    decreases |s|
  {
    match ParseToken(cols, s)
    case Fail => []
    case Ok(t, rest) => [t] + Trace(if t.TColumns? then t.cols else cols, rest)
  }

  /** What a token other than SSPI, DONE and DONEPROC delivers. */
  function Quiet(t: Token): seq<Item> {
    match t
    case TReturnStatus(code) => [ReturnStatus(code)]
    case TLoginAck(_, version, program, _) => [LoginAck(version, program)]
    case TOrder(ids) => [Order(ids)]
    case TDoneInProc(d) => [DoneInProcItem(d)]
    case TColumns(cols) => [Columns(cols)]
    case TRow(cells) => [RowItem(cells)]
    case _ => []
  }

  function Emit(ts: seq<Token>, lastError: Error, failed: bool): seq<Item>
    decreases ts
  {
    if ts == [] then [BadStream]
    else
      var rest := ts[1..];
      match ts[0]
      case TSspi(msg) => [Sspi(msg)]
      case TDone(d) =>
        if Bit(d.status, DONE_ERROR) || failed then [Failure(lastError)]
        else if Bit(d.status, DONE_SRV_ERROR) then [Failure(lastError.(message := SERVER_ERROR))]
        else [DoneItem(d)] + (if Bit(d.status, DONE_MORE) then Emit(rest, lastError, failed) else [])
      case TError(e) => Emit(rest, e, true)
      case t => Quiet(t) + Emit(rest, lastError, failed)
  }

  /** The whole response to a message: read as tokens, then acted upon. */
  function Response(s: seq<byte>): seq<Item> { Emit(Trace([], s), NO_ERROR, false) }

  /** All that is delivered when the run goes on with token `t` after `out`. */
  function AfterToken(out: seq<Item>, t: Token, cols: seq<Column>, rest: seq<byte>, lastError: Error, failed: bool): seq<Item> {
    match t
    case TSspi(msg) => out + [Sspi(msg)]
    case TDone(d) =>
      if Bit(d.status, DONE_ERROR) || failed then out + [Failure(lastError)]
      else if Bit(d.status, DONE_SRV_ERROR) then out + [Failure(lastError.(message := SERVER_ERROR))]
      else if Bit(d.status, DONE_MORE) then out + [DoneItem(d)] + Emit(Trace(cols, rest), lastError, failed)
      else out + [DoneItem(d)]
    case TError(e) => out + Emit(Trace(cols, rest), e, true)
    case TColumns(cs) => out + [Columns(cs)] + Emit(Trace(cs, rest), lastError, failed)
    case _ => out + Quiet(t) + Emit(Trace(cols, rest), lastError, failed)
  }

  /** One turn of the loop, when `out` has been delivered before it. */
  lemma Turn(out: seq<Item>, cols: seq<Column>, s: seq<byte>, lastError: Error, failed: bool)
    ensures var r := ParseToken(cols, s);
      out + Emit(Trace(cols, s), lastError, failed) ==
      if r.Fail? then out + [BadStream] else AfterToken(out, r.value, cols, r.rest, lastError, failed)
  {
    hide Bit, ParseToken;
    var r := ParseToken(cols, s);
    if r.Ok? {
      var next := if r.value.TColumns? then r.value.cols else cols;
      assert Trace(cols, s)[0] == r.value && Trace(cols, s)[1..] == Trace(next, r.rest);
    }
  }

  /** The changes of the ENVCHANGE token that the stream begins with, if it does. */
  function ChangesAt(s: seq<byte>): seq<EnvChange> {
    if s == [] || s[0] != ENV_CHANGE then [] else ChangesIn(s[1..])
  }

  function ChangesIn(s: seq<byte>): seq<EnvChange> {
    match ParseLe(s, 2) case Fail => [] case Ok(size, s1) => ReadChanges(Window(s1, size)).0
  }

  /** The changes that a run makes to the session, up to its end. */
  function Effects(cols: seq<Column>, s: seq<byte>, failed: bool): seq<EnvChange>
    decreases |s|
  {
    ChangesAt(s) +
    match ParseToken(cols, s)
    case Ok(t, rest) =>
      if Continues(t, failed) then Effects(if t.TColumns? then t.cols else cols, rest, failed || t.TError?) else []
    case Fail => []
  }

  lemma DoneContinues(d: Done, failed: bool)
    ensures Continues(TDone(d), failed) <==>
      !(Bit(d.status, DONE_ERROR) || failed) && !Bit(d.status, DONE_SRV_ERROR) && Bit(d.status, DONE_MORE)
  {
  }

  lemma OthersContinue(t: Token, failed: bool)
    requires !t.TDone?
    ensures Continues(t, failed) <==> !t.TSspi?
  {
  }

  // ---------- the session ----------

  type SessionState = (seq<scalar>, nat, nat)

  function Apply(st: SessionState, c: EnvChange): SessionState {
    match c
    case Database(name) => (name, st.1, st.2)
    case PacketSize(n) => (st.0, st.1, n)
    case BeginTran(id) => (st.0, id, st.2)
    case EndTran => (st.0, 0, st.2)
    case Ignored => st
  }

  function Changed(st: SessionState, changes: seq<EnvChange>): SessionState
    decreases changes
  {
    if changes == [] then st else Changed(Apply(st, changes[0]), changes[1..])
  }

  lemma {:induction false} ChangedConcat(st: SessionState, a: seq<EnvChange>, b: seq<EnvChange>)
    decreases a
    ensures Changed(st, a + b) == Changed(Changed(st, a), b)
  {
    if a == [] {
      assert a + b == b;
    } else {
      assert (a + b)[1..] == a[1..] + b;
      ChangedConcat(Apply(st, a[0]), a[1..], b);
    }
  }

  lemma {:induction false} ChangedSnoc(st: SessionState, changes: seq<EnvChange>, c: EnvChange)
    decreases changes
    ensures Changed(st, changes + [c]) == Apply(Changed(st, changes), c)
  {
    var all := changes + [c];
    if changes != [] {
      assert all[1..] == changes[1..] + [c];
      ChangedSnoc(Apply(st, all[0]), changes[1..], c);
    } else {
      assert all[1..] == [];
    }
  }

  lemma TakeMore(s: seq<byte>, n: nat, b: seq<byte>)
    requires n <= |s|
    ensures Take(s + b, n) == Ok(s[..n], s[n..] + b)
  {
    assert (s + b)[..n] == s[..n] && (s + b)[n..] == s[n..] + b;
  }

  lemma StringMore(s: seq<byte>, b: seq<byte>)
    requires ParseString(s, 1).Ok?
    ensures ParseString(s + b, 1) == Ok(ParseString(s, 1).value, ParseString(s, 1).rest + b)
  {
    TakeMore(s, 1, b);
    var n := FromLe(s[..1]);
    TakeMore(s[1..], 2 * n, b);
  }

  lemma BytesMore(s: seq<byte>, b: seq<byte>)
    requires ParseBytes(s).Ok?
    ensures ParseBytes(s + b) == Ok(ParseBytes(s).value, ParseBytes(s).rest + b)
  {
    assert (s + b)[1..] == s[1..] + b;
    TakeMore(s[1..], s[0], b);
  }

  lemma StringsMore(s: seq<byte>, b: seq<byte>)
    requires AfterStrings(s).Ok?
    ensures AfterStrings(s + b) == Ok(AfterStrings(s).value, AfterStrings(s).rest + b)
  {
    hide ParseString;
    StringMore(s, b);
    StringMore(ParseString(s, 1).rest, b);
  }

  lemma BytesTwiceMore(s: seq<byte>, b: seq<byte>)
    requires AfterBytes(s).Ok?
    ensures AfterBytes(s + b) == Ok(AfterBytes(s).value, AfterBytes(s).rest + b)
  {
    hide ParseBytes;
    BytesMore(s, b);
    BytesMore(ParseBytes(s).rest, b);
  }

  lemma TranMore(s: seq<byte>, b: seq<byte>)
    requires TranChange(s).1.Some?
    ensures TranChange(s + b) == (TranChange(s).0, Some(TranChange(s).1.value + b))
  {
    hide ParseBytes, FromLe;
    BytesMore(s[9..], b);
    assert (s + b)[1..9] == s[1..9] && (s + b)[9..] == s[9..] + b;
  }

  /** A change that could be read is read in the same way whatever follows it. */
  lemma ChangeMore(s: seq<byte>, b: seq<byte>)
    requires s != [] && ReadChange(s).1.Some?
    ensures ReadChange(s + b) == (ReadChange(s).0, Some(ReadChange(s).1.value + b))
  {
    hide ParseString, AfterStrings, AfterBytes, TranChange, Atoi;
    var kind, body := s[0], s[1..];
    assert (s + b)[0] == kind && (s + b)[1..] == body + b;
    if kind == 1 {
      StringMore(body, b);
      StringMore(ParseString(body, 1).rest, b);
    } else if kind == 4 || kind == 13 {
      StringsMore(body, b);
    } else if kind == 8 {
      TranMore(body, b);
    } else {
      BytesTwiceMore(body, b);
    }
  }

  /** Readable changes followed by any bytes: they take effect, and then whatever those bytes do. */
  lemma {:induction false} ChangesCompose(a: seq<byte>, b: seq<byte>)
    requires ReadChanges(a).1
    decreases |a|
    ensures ReadChanges(a + b) == (ReadChanges(a).0 + ReadChanges(b).0, ReadChanges(b).1)
  {
    hide ReadChange;
    if a == [] {
      assert a + b == b && [] + ReadChanges(b).0 == ReadChanges(b).0;
    } else {
      var (c, after) := ReadChange(a);
      ChangeMore(a, b);
      ChangesCompose(after.value, b);
      Assoc([c], ReadChanges(after.value).0, ReadChanges(b).0);
    }
  }

  /** The changes before a bad one stay in force, and the bad one does what it does before it fails. */
  lemma ChangesBeforeABadOne(st: SessionState, good: seq<byte>, bad: seq<byte>)
    requires ReadChanges(good).1 && bad != [] && ReadChange(bad).1.None?
    ensures ReadChanges(good + bad) == (ReadChanges(good).0 + [ReadChange(bad).0], false)
    ensures Changed(st, ReadChanges(good + bad).0) == Apply(Changed(st, ReadChanges(good).0), ReadChange(bad).0)
  {
    hide ReadChange;
    ChangesCompose(good, bad);
    ChangedSnoc(st, ReadChanges(good).0, ReadChange(bad).0);
  }

  predicate SameField(a: EnvChange, b: EnvChange) {
    (a.Database? && b.Database?) || (a.PacketSize? && b.PacketSize?) ||
    ((a.BeginTran? || a.EndTran?) && (b.BeginTran? || b.EndTran?))
  }

  /** Each field of the session is what its last change made it, or as it was. */
  lemma {:induction false} LastChangeWins(st: SessionState, before: seq<EnvChange>, c: EnvChange, later: seq<EnvChange>)
    requires forall x :: x in later ==> !SameField(x, c)
    decreases |later|
    ensures var r := Changed(st, before + [c] + later);
      && (c.Database? ==> r.0 == c.name) && (c.PacketSize? ==> r.2 == c.n)
      && (c.BeginTran? ==> r.1 == c.id) && (c.EndTran? ==> r.1 == 0)
  {
    if later == [] {
      assert before + [c] + later == before + [c];
      ChangedSnoc(st, before, c);
    } else {
      var init, x := later[..|later| - 1], later[|later| - 1];
      LastChangeWins(st, before, c, init);
      assert before + [c] + later == (before + [c] + init) + [x];
      ChangedSnoc(st, before + [c] + init, x);
      assert x in later;
    }
  }

  // ---------- the end of a run ----------

  predicate Terminal(x: Item) {
    x.Sspi? || x.Failure? || x.BadStream? || (x.DoneItem? && !Bit(x.done.status, DONE_MORE))
  }

  /** A run ends with its one terminal item. */
  predicate EndsOnce(out: seq<Item>) {
    out != [] && Terminal(out[|out| - 1]) && forall i :: 0 <= i < |out| - 1 ==> !Terminal(out[i])
  }

  lemma EndsOnceAfter(a: seq<Item>, out: seq<Item>)
    requires EndsOnce(out) && (forall i :: 0 <= i < |a| ==> !Terminal(a[i]))
    ensures EndsOnce(a + out)
  {
  }

  lemma EndsAtOnce()
    ensures forall x :: Terminal(x) ==> EndsOnce([x])
  {
  }

  lemma QuietIsNotTerminal(t: Token)
    ensures forall i :: 0 <= i < |Quiet(t)| ==> !Terminal(Quiet(t)[i]) && !Quiet(t)[i].DoneItem?
  {
  }

  /** Nothing is delivered after the terminal item, and there always is one. */
  lemma {:induction false} NothingAfterTerminal(ts: seq<Token>, lastError: Error, failed: bool)
    decreases ts
    ensures EndsOnce(Emit(ts, lastError, failed))
  {
    hide Bit, EndsOnce, Quiet;
    EndsAtOnce();
    if ts != [] {
      match ts[0] {
        case TSspi(_) =>
        case TDone(d) =>
          assert [DoneItem(d)] + [] == [DoneItem(d)];
          if !(Bit(d.status, DONE_ERROR) || failed || Bit(d.status, DONE_SRV_ERROR)) && Bit(d.status, DONE_MORE) {
            NothingAfterTerminal(ts[1..], lastError, failed);
            EndsOnceAfter([DoneItem(d)], Emit(ts[1..], lastError, failed));
          }
        case TError(e) => NothingAfterTerminal(ts[1..], e, true);
        case t =>
          NothingAfterTerminal(ts[1..], lastError, failed);
          QuietIsNotTerminal(t);
          EndsOnceAfter(Quiet(t), Emit(ts[1..], lastError, failed));
      }
    }
  }

  // ---------- what becomes of the session ----------

  /** The tokens that a run acts on, the one that ends it included. */
  function Reached(ts: seq<Token>, failed: bool): seq<Token>
    decreases ts
  {
    if ts == [] then []
    else [ts[0]] + if Continues(ts[0], failed) then Reached(ts[1..], failed || ts[0].TError?) else []
  }

  function Announced(ts: seq<Token>): seq<EnvChange> {
    if ts == [] then [] else (if ts[0].TEnvChange? then ts[0].changes else []) + Announced(ts[1..])
  }

  /** What is left of the stream at the first token that cannot be read. */
  function Unread(cols: seq<Column>, s: seq<byte>): seq<byte>
    decreases |s|
  {
    match ParseToken(cols, s)
    case Fail => s
    case Ok(t, rest) => Unread(if t.TColumns? then t.cols else cols, rest)
  }

  lemma TokenChanges(cols: seq<Column>, s: seq<byte>)
    requires ParseToken(cols, s).Ok?
    ensures var t := ParseToken(cols, s).value; ChangesAt(s) == if t.TEnvChange? then t.changes else []
  {
    hide ReadChanges, ParseIds, ParseDone, ParseColMetadata, ParseRow, ParseNbcRow, ParseError, Bit;
  }

  /**
   * The session changes by what the ENVCHANGE tokens say that the run acts on, and by what could be read of an
   * ENVCHANGE token that breaks off, when the run gets that far.
   */
  lemma {:induction false} EffectsAreAnnounced(cols: seq<Column>, s: seq<byte>, failed: bool)
    decreases |s|
    ensures var ts := Trace(cols, s);
      Effects(cols, s, failed) ==
        Announced(Reached(ts, failed)) + if Passes(ts, failed) then ChangesAt(Unread(cols, s)) else []
  {
    hide ParseToken, ChangesAt, Continues;
    match ParseToken(cols, s) {
      case Fail =>
        assert ChangesAt(s) + [] == [] + ChangesAt(s);
      case Ok(t, rest) =>
        TokenChanges(cols, s);
        var next := if t.TColumns? then t.cols else cols;
        var ts, more := Trace(cols, s), Trace(next, rest);
        assert ts[0] == t && ts[1..] == more;
        if Continues(t, failed) {
          var late := failed || t.TError?;
          EffectsAreAnnounced(next, rest, late);
          var reached := Reached(more, late);
          assert ([t] + reached)[1..] == reached;
          Assoc(ChangesAt(s), Announced(reached), if Passes(more, late) then ChangesAt(Unread(next, rest)) else []);
        } else {
          assert [t][1..] == [] && [t] + [] == [t];
        }
    }
  }

  // ---------- errors are sticky ----------

  predicate IsDoneOrSspi(t: Token) { t.TDone? || t.TSspi? }

  // The run goes on past `t`.
  predicate Continues(t: Token, failed: bool) {
    !t.TSspi? && (t.TDone? ==> !failed && !Bit(t.done.status, DONE_ERROR)
                               && !Bit(t.done.status, DONE_SRV_ERROR) && Bit(t.done.status, DONE_MORE))
  }

  predicate Passes(ts: seq<Token>, failed: bool) {
    ts == [] || (Continues(ts[0], failed) && Passes(ts[1..], failed || ts[0].TError?))
  }

  /** What tokens the run goes past deliver. */
  function Passed(ts: seq<Token>): seq<Item> {
    if ts == [] then []
    else (if ts[0].TDone? then [DoneItem(ts[0].done)] else Quiet(ts[0])) + Passed(ts[1..])
  }

  function Latest(ts: seq<Token>, e: Error): Error
    decreases ts
  {
    if ts == [] then e else Latest(ts[1..], if ts[0].TError? then ts[0].err else e)
  }

  predicate HasError(ts: seq<Token>) { exists i :: 0 <= i < |ts| && ts[i].TError? }

  lemma {:induction false} RunPasses(ts: seq<Token>, rest: seq<Token>, lastError: Error, failed: bool)
    requires Passes(ts, failed)
    decreases ts
    ensures Emit(ts + rest, lastError, failed) ==
      Passed(ts) + Emit(rest, Latest(ts, lastError), failed || HasError(ts))
  {
    hide Bit;
    if ts == [] {
      assert ts + rest == rest;
    } else {
      var t := ts[0];
      var all := ts + rest;
      assert all[0] == t && all[1..] == ts[1..] + rest;
      RunPasses(ts[1..], rest, if t.TError? then t.err else lastError, failed || t.TError?);
      HasErrorStep(ts);
      var out := Emit(rest, Latest(ts, lastError), failed || HasError(ts));
      hide HasError;
      var first := if t.TDone? then [DoneItem(t.done)] else Quiet(t);
      assert Passed(ts) == first + Passed(ts[1..]);
      Assoc(first, Passed(ts[1..]), out);
    }
  }

  lemma HasErrorStep(ts: seq<Token>)
    requires ts != []
    ensures HasError(ts) <==> ts[0].TError? || HasError(ts[1..])
  {
    if i :| 0 <= i < |ts| && ts[i].TError? {
      assert i > 0 ==> ts[1..][i - 1].TError?;
    }
    if j :| 0 <= j < |ts[1..]| && ts[1..][j].TError? {
      assert ts[j + 1].TError?;
    }
  }

  lemma {:induction false} PassesWithoutDone(ts: seq<Token>, failed: bool)
    requires forall i :: 0 <= i < |ts| ==> !IsDoneOrSspi(ts[i])
    decreases ts
    ensures Passes(ts, failed)
    ensures forall x :: x in Passed(ts) ==> !Terminal(x) && !x.DoneItem?
  {
    if ts != [] {
      PassesWithoutDone(ts[1..], failed || ts[0].TError?);
      QuietIsNotTerminal(ts[0]);
      assert Passed(ts) == Quiet(ts[0]) + Passed(ts[1..]);
    }
  }

  /**
   * After an ERROR token the next DONE or DONEPROC that is reached ends the run with the latest error,
   * whatever its own status says, and no DONE is delivered in between.
   */
  lemma ErrorIsSticky(pre: seq<Token>, e: Error, mid: seq<Token>, d: Done, post: seq<Token>, lastError: Error, failed: bool)
    requires Passes(pre, failed) && (forall i :: 0 <= i < |mid| ==> !IsDoneOrSspi(mid[i]))
    ensures Emit(pre + ([TError(e)] + (mid + ([TDone(d)] + post))), lastError, failed) ==
      Passed(pre) + (Passed(mid) + [Failure(Latest(mid, e))])
    ensures forall x :: x in Passed(mid) ==> !Terminal(x) && !x.DoneItem?
  {
    var tail := [TDone(d)] + post;
    RunPasses(pre, [TError(e)] + (mid + tail), lastError, failed);
    assert ([TError(e)] + (mid + tail))[1..] == mid + tail;
    PassesWithoutDone(mid, true);
    RunPasses(mid, tail, e, true);
    assert tail[0] == TDone(d);
  }

  // ---------- rows are as wide as the latest column layout ----------

  predicate TokensFit(ts: seq<Token>, width: nat)
    decreases ts
  {
    ts == [] ||
    ((ts[0].TRow? ==> |ts[0].cells| == width) && TokensFit(ts[1..], if ts[0].TColumns? then |ts[0].cols| else width))
  }

  lemma {:induction false} TraceFits(cols: seq<Column>, s: seq<byte>)
    decreases |s|
    ensures TokensFit(Trace(cols, s), |cols|)
  {
    var r := ParseToken(cols, s);
    if r.Ok? {
      RowTokenWidth(cols, s);
      var next := if r.value.TColumns? then r.value.cols else cols;
      TraceFits(next, r.rest);
      hide ParseToken;
      assert Trace(cols, s)[1..] == Trace(next, r.rest);
    }
  }

  lemma RowTokenWidth(cols: seq<Column>, s: seq<byte>)
    ensures var r := ParseToken(cols, s); r.Ok? && r.value.TRow? ==> |r.value.cells| == |cols|
  {
  }

  /** The number of columns last announced in `out`, or `width` if none were. */
  function Width(out: seq<Item>, width: nat): nat {
    if out == [] then width
    else if out[|out| - 1].Columns? then |out[|out| - 1].cols|
    else Width(out[..|out| - 1], width)
  }

  predicate RowsFit(out: seq<Item>, width: nat) {
    forall i :: 0 <= i < |out| && out[i].RowItem? ==> |out[i].cells| == Width(out[..i], width)
  }

  lemma {:induction false} WidthCons(x: Item, out: seq<Item>, width: nat)
    decreases |out|
    ensures Width([x] + out, width) == Width(out, if x.Columns? then |x.cols| else width)
  {
    var all := [x] + out;
    if out == [] {
      assert all[..0] == [];
    } else {
      assert all[..|all| - 1] == [x] + out[..|out| - 1];
      WidthCons(x, out[..|out| - 1], width);
    }
  }

  lemma RowsFitCons(x: Item, out: seq<Item>, width: nat)
    requires x.RowItem? ==> |x.cells| == width
    requires RowsFit(out, if x.Columns? then |x.cols| else width)
    ensures RowsFit([x] + out, width)
  {
    var all := [x] + out;
    forall i | 0 <= i < |all| && all[i].RowItem?
      ensures |all[i].cells| == Width(all[..i], width)
    {
      if i > 0 {
        assert all[..i] == [x] + out[..i - 1];
        WidthCons(x, out[..i - 1], width);
      }
    }
  }

  lemma {:induction false} EmitFits(ts: seq<Token>, width: nat, lastError: Error, failed: bool)
    requires TokensFit(ts, width)
    decreases ts
    ensures RowsFit(Emit(ts, lastError, failed), width)
  {
    hide Bit;
    if ts != [] {
      var t, rest := ts[0], ts[1..];
      var next := if t.TColumns? then |t.cols| else width;
      EmitFits(rest, next, if t.TError? then t.err else lastError, failed || t.TError?);
      var out := Emit(rest, if t.TError? then t.err else lastError, failed || t.TError?);
      if t.TDone? {
        RowsFitCons(DoneItem(t.done), out, width);
      } else if !t.TSspi? && Quiet(t) != [] {
        RowsFitCons(Quiet(t)[0], out, width);
        assert Quiet(t) == [Quiet(t)[0]];
      } else {
        assert [] + out == out;
      }
    }
  }

  /** Every row delivered for a message is as wide as the column layout delivered last before it. */
  lemma RowsAreAsWideAsColumns(s: seq<byte>)
    ensures RowsFit(Response(s), 0)
  {
    TraceFits([], s);
    EmitFits(Trace([], s), 0, NO_ERROR, false);
  }

  // ---------- two encodings of a row ----------

  // A cell that a column of this type can hold.
  predicate Holds(c: Column, cell: Cell) {
    match c.reader
    case FixedReader =>
      if c.ti.typeId == NULL_TYPE then cell.NullCell? && c.ti.size == 0 else cell.Raw? && |cell.bytes| == c.ti.size
    case ByteLenReader => cell.NullCell? || 0 < |cell.bytes| <= c.ti.size <= 0xff
    case ShortLenReader => cell.NullCell? || |cell.bytes| <= c.ti.size < 0xffff
    case PlpReader => cell.NullCell? || |cell.bytes| < CHUNK
    case LongLenReader => cell.NullCell? || |cell.bytes| < 0x8000_0000
    case VariantReader => false
  }

  /** A cell as a server sends it. */
  function CellBytes(c: Column, cell: Cell): seq<byte>
    requires Holds(c, cell)
  {
    match c.reader
    case FixedReader => if cell.NullCell? then [] else cell.bytes
    case ByteLenReader => if cell.NullCell? then [0] else [|cell.bytes|] + cell.bytes
    case ShortLenReader => if cell.NullCell? then Le(0xffff, 2) else Le(|cell.bytes|, 2) + cell.bytes
    case PlpReader => if cell.NullCell? then Le(PLP_NULL, 8) else PlpBytes(cell.bytes)
    case LongLenReader => if cell.NullCell? then [0] else [1] + Le(0, 9) + Le(|cell.bytes|, 4) + cell.bytes
  }

  lemma CellRoundTrip(c: Column, cell: Cell, rest: seq<byte>)
    requires Holds(c, cell)
    ensures ParseCell(c.ti, c.reader, CellBytes(c, cell) + rest) == Ok(cell, rest)
  {
    hide Le, FromLe, PlpBytes, ParsePlp;
    var b := if cell.NullCell? then [] else cell.bytes;
    match c.reader {
      case FixedReader => TakeFront(b, rest);
      case ByteLenReader => ByteLenCellRead(c, cell, rest);
      case ShortLenReader => ShortLenCellRead(c, cell, rest);
      case PlpReader =>
        if cell.NullCell? {
          NullPlp(rest);
        } else {
          PlpRoundTrip(b, rest);
        }
      case LongLenReader => LongCell(c, cell, rest);
    }
  }

  lemma ByteLenCellRead(c: Column, cell: Cell, rest: seq<byte>)
    requires c.reader.ByteLenReader? && Holds(c, cell)
    ensures ParseByteLenCell(c.ti, CellBytes(c, cell) + rest) == Ok(cell, rest)
  {
    if cell.NullCell? {
      Cons(0, rest);
    } else {
      var b := cell.bytes;
      Cons(|b|, b + rest);
      TakeFront(b, rest);
      assert [|b|] + b + rest == [|b|] + (b + rest);
    }
  }

  lemma ShortLenCellRead(c: Column, cell: Cell, rest: seq<byte>)
    requires c.reader.ShortLenReader? && Holds(c, cell)
    ensures ParseShortLenCell(c.ti, CellBytes(c, cell) + rest) == Ok(cell, rest)
  {
    hide Le, FromLe;
    Pow256Values();
    if cell.NullCell? {
      ParseLeOf(0xffff, 2, rest);
    } else {
      var b := cell.bytes;
      ParseLeOf(|b|, 2, b + rest);
      TakeFront(b, rest);
      assert Le(|b|, 2) + b + rest == Le(|b|, 2) + (b + rest);
    }
  }

  lemma NullPlp(rest: seq<byte>)
    ensures ParsePlp(Le(PLP_NULL, 8) + rest) == Ok(NullCell, rest)
  {
    Pow256Values();
    ParseLeOf(PLP_NULL, 8, rest);
    hide Le;
  }

  lemma LongCell(c: Column, cell: Cell, rest: seq<byte>)
    requires c.reader.LongLenReader? && Holds(c, cell)
    ensures ParseLongLenCell(CellBytes(c, cell) + rest) == Ok(cell, rest)
  {
    hide Le, FromLe, ParseLe, Take;
    if cell.NullCell? {
      Cons(0, rest);
    } else {
      var b := cell.bytes;
      var pad, size := Le(0, 9), Le(|b|, 4);
      var s3 := size + (b + rest);
      Cons(1, pad + s3);
      TakeFront(pad, s3);
      Pow256Values();
      ParseLeOf(|b|, 4, b + rest);
      TakeFront(b, rest);
      assert [1] + pad + size + b + rest == [1] + (pad + s3);
    }
  }

  predicate Matches(cols: seq<Column>, cells: seq<Cell>) {
    |cols| == |cells| && forall i :: 0 <= i < |cols| ==> Holds(cols[i], cells[i])
  }

  function RowBytes(cols: seq<Column>, cells: seq<Cell>): seq<byte>
    requires Matches(cols, cells)
    decreases |cols|
  {
    if cols == [] then [] else CellBytes(cols[0], cells[0]) + RowBytes(cols[1..], cells[1..])
  }

  /** The values the cells stand for; None when one of them cannot be read. */
  function Meanings(cols: seq<Column>, cells: seq<Cell>): Option<seq<Value>>
    requires |cols| == |cells|
    decreases |cols|
  {
    if cols == [] then Some([])
    else match (Interpret(cols[0].ti, cells[0]), Meanings(cols[1..], cells[1..]))
      case (Some(v), Some(vs)) => Some([v] + vs)
      case _ => None
  }

  lemma {:induction false} RowRoundTrip(cols: seq<Column>, cells: seq<Cell>, rest: seq<byte>)
    requires Matches(cols, cells)
    decreases |cols|
    ensures ParseRow(cols, RowBytes(cols, cells) + rest) ==
      match Meanings(cols, cells) case None => Fail case Some(vs) => Ok(vs, rest)
  {
    if cols == [] {
      assert RowBytes(cols, cells) + rest == rest;
    } else {
      var tail := RowBytes(cols[1..], cells[1..]) + rest;
      assert RowBytes(cols, cells) + rest == CellBytes(cols[0], cells[0]) + tail;
      CellRoundTrip(cols[0], cells[0], tail);
      hide Interpret, ParseCell, CellBytes;
      RowRoundTrip(cols[1..], cells[1..], rest);
    }
  }

  /** A byte from its eight bits, lowest first. */
  function ByteOf(bits: seq<bool>): (n: nat)
    ensures |bits| <= 8 ==> n < 256
    ensures n < Pow2(|bits|)
  {
    Pow2Bound(|bits|);
    if bits == [] then 0 else (if bits[0] then 1 else 0) + 2 * ByteOf(bits[1..])
  }

  function Pow2(n: nat): nat { if n == 0 then 1 else 2 * Pow2(n - 1) }

  lemma {:induction false} Pow2Bound(n: nat)
    ensures n <= 8 ==> Pow2(n) <= 256
  {
    if n <= 8 {
      assert Pow2(8) == 2 * Pow2(7) && Pow2(7) == 2 * Pow2(6) && Pow2(6) == 2 * Pow2(5) && Pow2(5) == 2 * Pow2(4);
      assert Pow2(4) == 2 * Pow2(3) && Pow2(3) == 2 * Pow2(2) && Pow2(2) == 2 * Pow2(1);
    }
  }

  lemma {:induction false} BitOf(bits: seq<bool>, b: nat)
    requires b < |bits|
    decreases b
    ensures Bit(ByteOf(bits), b) == bits[b]
  {
    if b > 0 {
      BitOf(bits[1..], b - 1);
      assert ByteOf(bits) / 2 == ByteOf(bits[1..]);
    }
  }

  predicate IsNullAt(cells: seq<Cell>, i: nat) { i < |cells| && cells[i].NullCell? }

  function Marks(cells: seq<Cell>, k: nat): (r: seq<bool>)
    ensures |r| == 8
  {
    seq(8, b requires 0 <= b < 8 => IsNullAt(cells, 8 * k + b))
  }

  /** The null bitmap of a row: eight columns to a byte, lowest bit first. */
  function Bitmap(cells: seq<Cell>): (r: seq<byte>)
    ensures |r| == (|cells| + 7) / 8
  {
    seq((|cells| + 7) / 8, k requires 0 <= k < (|cells| + 7) / 8 => ByteOf(Marks(cells, k)))
  }

  lemma BitmapMarks(cells: seq<Cell>, i: nat)
    requires i < |cells|
    ensures Bit(Bitmap(cells)[i / 8], i % 8) == cells[i].NullCell?
  {
    var k, b := i / 8, i % 8;
    assert 8 * k + b == i;
    assert Marks(cells, k)[b] == IsNullAt(cells, 8 * k + b);
    BitOf(Marks(cells, k), b);
    hide Bit, ByteOf, Marks;
    assert Bitmap(cells)[k] == ByteOf(Marks(cells, k));
  }

  function PresentBytes(cols: seq<Column>, cells: seq<Cell>, i: nat): seq<byte>
    requires Matches(cols, cells) && i <= |cols|
    decreases |cols| - i
  {
    if i == |cols| then []
    else (if cells[i].NullCell? then [] else CellBytes(cols[i], cells[i])) + PresentBytes(cols, cells, i + 1)
  }

  function NbcRowBytes(cols: seq<Column>, cells: seq<Cell>): seq<byte>
    requires Matches(cols, cells)
  {
    Bitmap(cells) + PresentBytes(cols, cells, 0)
  }

  lemma UnmarkedAt(marks: seq<byte>, cols: seq<Column>, i: nat, s: seq<byte>)
    requires i < |cols| <= 8 * |marks|
    ensures ParseUnmarked(marks, cols, i, s) ==
      if Bit(marks[i / 8], i % 8) then
        match ParseUnmarked(marks, cols, i + 1, s) case Ok(vs, end) => Ok([Null] + vs, end) case Fail => Fail
      else
        match ParseValue(cols[i], s)
        case Fail => Fail
        case Ok(v, s1) =>
          match ParseUnmarked(marks, cols, i + 1, s1) case Ok(vs, end) => Ok([v] + vs, end) case Fail => Fail
  {
    hide Bit, ParseValue;
  }

  lemma ValueRoundTrip(c: Column, cell: Cell, tail: seq<byte>)
    requires Holds(c, cell)
    ensures ParseValue(c, CellBytes(c, cell) + tail) ==
      match Interpret(c.ti, cell) case Some(v) => Ok(v, tail) case None => Fail
  {
    hide Interpret, ParseCell, CellBytes, Holds;
    CellRoundTrip(c, cell, tail);
  }

  lemma NullIsNull(ti: TypeInfo)
    ensures Interpret(ti, NullCell) == Some(Null)
  {
  }

  // One column of a row with a null bitmap.
  lemma UnmarkedStep(marks: seq<byte>, cols: seq<Column>, i: nat, cell: Cell, tail: seq<byte>)
    requires i < |cols| <= 8 * |marks| && Holds(cols[i], cell)
    requires Bit(marks[i / 8], i % 8) == cell.NullCell?
    ensures var start := if cell.NullCell? then tail else CellBytes(cols[i], cell) + tail;
      ParseUnmarked(marks, cols, i, start) ==
        match (Interpret(cols[i].ti, cell), ParseUnmarked(marks, cols, i + 1, tail))
        case (Some(v), Ok(vs, end)) => Ok([v] + vs, end)
        case _ => Fail
  {
    hide *;
    var start := if cell.NullCell? then tail else CellBytes(cols[i], cell) + tail;
    UnmarkedAt(marks, cols, i, start);
    if cell.NullCell? {
      NullIsNull(cols[i].ti);
    } else {
      ValueRoundTrip(cols[i], cell, tail);
    }
  }

  lemma PresentSplit(cols: seq<Column>, cells: seq<Cell>, i: nat, rest: seq<byte>)
    requires Matches(cols, cells) && i < |cols|
    ensures var tail := PresentBytes(cols, cells, i + 1) + rest;
      PresentBytes(cols, cells, i) + rest ==
        if cells[i].NullCell? then tail else CellBytes(cols[i], cells[i]) + tail
  {
    hide CellBytes, Holds;
    var after := PresentBytes(cols, cells, i + 1);
    assert [] + after + rest == after + rest;
  }

  lemma MeaningsFrom(cols: seq<Column>, cells: seq<Cell>, i: nat)
    requires |cols| == |cells| && i < |cols|
    ensures Meanings(cols[i..], cells[i..]) ==
      match (Interpret(cols[i].ti, cells[i]), Meanings(cols[i + 1..], cells[i + 1..]))
      case (Some(v), Some(vs)) => Some([v] + vs)
      case _ => None
  {
    hide Interpret;
    assert cols[i..][1..] == cols[i + 1..] && cells[i..][1..] == cells[i + 1..];
  }

  lemma {:induction false} UnmarkedRoundTrip(cols: seq<Column>, cells: seq<Cell>, i: nat, rest: seq<byte>)
    requires Matches(cols, cells) && i <= |cols|
    decreases |cols| - i
    ensures ParseUnmarked(Bitmap(cells), cols, i, PresentBytes(cols, cells, i) + rest) ==
      match Meanings(cols[i..], cells[i..]) case None => Fail case Some(vs) => Ok(vs, rest)
  {
    if i == |cols| {
      assert PresentBytes(cols, cells, i) + rest == rest;
    } else {
      hide Interpret, Bitmap, Holds, ParseUnmarked, Bit, CellBytes, PresentBytes, Meanings;
      MeaningsFrom(cols, cells, i);
      BitmapMarks(cells, i);
      PresentSplit(cols, cells, i, rest);
      UnmarkedStep(Bitmap(cells), cols, i, cells[i], PresentBytes(cols, cells, i + 1) + rest);
      UnmarkedRoundTrip(cols, cells, i + 1, rest);
    }
  }

  /** ROW and NBCROW encodings of the same cells are read as the same row, and both to their end. */
  lemma RowEncodingsAgree(cols: seq<Column>, cells: seq<Cell>, rest: seq<byte>)
    requires Matches(cols, cells)
    ensures ParseRow(cols, RowBytes(cols, cells) + rest) == ParseNbcRow(cols, NbcRowBytes(cols, cells) + rest)
    ensures ParseRow(cols, RowBytes(cols, cells) + rest) ==
      match Meanings(cols, cells) case None => Fail case Some(vs) => Ok(vs, rest)
  {
    hide *;
    RowRoundTrip(cols, cells, rest);
    UnmarkedRoundTrip(cols, cells, 0, rest);
    assert cols[0..] == cols && cells[0..] == cells;
    NbcStart(cols, cells, rest);
  }

  lemma NbcStart(cols: seq<Column>, cells: seq<Cell>, rest: seq<byte>)
    requires Matches(cols, cells)
    ensures ParseNbcRow(cols, NbcRowBytes(cols, cells) + rest) ==
            ParseUnmarked(Bitmap(cells), cols, 0, PresentBytes(cols, cells, 0) + rest)
  {
    hide ParseUnmarked, Bitmap, PresentBytes, Holds;
    var present := PresentBytes(cols, cells, 0) + rest;
    assert NbcRowBytes(cols, cells) + rest == Bitmap(cells) + present;
    TakeFront(Bitmap(cells), present);
  }
}
