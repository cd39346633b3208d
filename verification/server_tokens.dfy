/** The tokens that a server answers with, as bytes, and what becomes of them (section 2.2.7 of MS-TDS). */
module ServerTokens {
  import opened Bytes
  import opened Unicode
  import opened ValueCodec
  import opened ServerBytes
  import T = Tokens

  type int32 = x: int | -0x8000_0000 <= x < 0x8000_0000

  // ---------- changes of the session ----------

  /** What a server announces to have changed: the new value, then the old one. */
  datatype Env =
    | NewDatabase(now: seq<scalar>, was: seq<scalar>)
    | NewSize(size: nat, before: seq<scalar>)
    | Began(id: uint64, old_: seq<byte>)
    | Committed(after: seq<byte>, id: uint64)
    | RolledBack(after: seq<byte>, id: uint64)
    | NewPartner(now: seq<scalar>, was: seq<scalar>)
    | Other(kind: byte, after: seq<byte>, old_: seq<byte>)

  // The decimal notation of a number.
  function Digits(n: nat): seq<scalar> {
    if n < 10 then [48 + n] else Digits(n / 10) + [48 + n % 10]
  }

  predicate Sendable(e: Env) {
    match e
    case NewDatabase(now, was) => Short(now) && Short(was)
    case NewSize(size, before) => size <= MAX_ALLOC && Short(Digits(size)) && Short(before)
    case Began(_, old_) => |old_| < 0x100
    case Committed(after, _) => |after| < 0x100
    case RolledBack(after, _) => |after| < 0x100
    case NewPartner(now, was) => Short(now) && Short(was)
    case Other(kind, after, old_) =>
      kind != 1 && kind != 4 && kind != 8 && kind != 9 && kind != 10 && kind != 13 && |after| < 0x100 && |old_| < 0x100
  }

  function Sized(b: seq<byte>): seq<byte>
    requires |b| < 0x100
  {
    [|b|] + b
  }

  function EnvBytes(e: Env): seq<byte>
    requires Sendable(e)
  {
    match e
    case NewDatabase(now, was) => [1] + (ShortText(now) + ShortText(was))
    case NewSize(size, before) => [4] + (ShortText(Digits(size)) + ShortText(before))
    case Began(id, old_) => [8] + ([8] + QWord(id) + Sized(old_))
    case Committed(after, id) => [9] + (Sized(after) + ([8] + QWord(id)))
    case RolledBack(after, id) => [10] + (Sized(after) + ([8] + QWord(id)))
    case NewPartner(now, was) => [13] + (ShortText(now) + ShortText(was))
    case Other(kind, after, old_) => [kind] + (Sized(after) + Sized(old_))
  }

  function Effect(e: Env): T.EnvChange {
    match e
    case NewDatabase(now, _) => T.Database(now)
    case NewSize(size, _) => T.PacketSize(size)
    case Began(id, _) => T.BeginTran(id)
    case Committed(_, _) => T.EndTran
    case RolledBack(_, _) => T.EndTran
    case _ => T.Ignored
  }

  function EnvsBytes(es: seq<Env>): seq<byte>
    requires forall i :: 0 <= i < |es| ==> Sendable(es[i])
  {
    if es == [] then [] else EnvBytes(es[0]) + EnvsBytes(es[1..])
  }

  function Effects(es: seq<Env>): seq<T.EnvChange> {
    if es == [] then [] else [Effect(es[0])] + Effects(es[1..])
  }

  lemma ReadTexts(now: seq<scalar>, was: seq<scalar>, rest: seq<byte>)
    requires Short(now) && Short(was)
    ensures T.ParseString(ShortText(now) + ShortText(was) + rest, 1) == Ok(now, ShortText(was) + rest)
    ensures T.ParseString(ShortText(was) + rest, 1) == Ok(was, rest)
    ensures T.AfterStrings(ShortText(now) + ShortText(was) + rest) == Ok(now, rest)
  {
    hide T.ParseString, ShortText, Short;
    Assoc(ShortText(now), ShortText(was), rest);
    ReadShortText(now, ShortText(was) + rest);
    ReadShortText(was, rest);
  }

  lemma ReadSized(b: seq<byte>, rest: seq<byte>)
    requires |b| < 0x100
    ensures T.ParseBytes(Sized(b) + rest) == Ok(b, rest)
  {
    Cons(|b|, b + rest);
    TakeFront(b, rest);
    assert Sized(b) + rest == [|b|] + (b + rest);
  }

  lemma ReadPair(a: seq<byte>, b: seq<byte>, rest: seq<byte>)
    requires |a| < 0x100 && |b| < 0x100
    ensures T.AfterBytes(Sized(a) + Sized(b) + rest) == Ok(a, rest)
  {
    hide T.ParseBytes, Sized;
    Assoc(Sized(a), Sized(b), rest);
    ReadSized(a, Sized(b) + rest);
    ReadSized(b, rest);
  }

  lemma {:induction false} DigitsAre(n: nat)
    ensures Digits(n) != [] && forall i :: 0 <= i < |Digits(n)| ==> 48 <= Digits(n)[i] < 58
    ensures T.Number(Digits(n)) == n
  {
    var s := Digits(n);
    if n >= 10 {
      DigitsAre(n / 10);
      assert s[..|s| - 1] == Digits(n / 10);
    } else {
      assert s[..0] == [] && T.Number([]) == 0;
    }
  }

  lemma SizeIsRead(n: nat)
    requires n <= MAX_ALLOC
    ensures T.Atoi(Digits(n)) == Some(n)
  {
    hide Digits;
    DigitsAre(n);
  }

  lemma QWordSized(id: uint64)
    ensures |QWord(id)| == 8 && [8] + QWord(id) == Sized(QWord(id))
  {
  }

  lemma ReadBegan(id: uint64, old_: seq<byte>, rest: seq<byte>)
    requires |old_| < 0x100
    ensures T.TranChange([8] + QWord(id) + Sized(old_) + rest) == (T.BeginTran(id), Some(rest))
  {
    hide QWord, T.ParseBytes, FromLe;
    QWordSized(id);
    ReadQWord(id, []);
    ReadSized(old_, rest);
    var s := [8] + QWord(id) + Sized(old_) + rest;
    assert s[1..9] == QWord(id) && s[9..] == Sized(old_) + rest && QWord(id) + [] == QWord(id);
    assert QWord(id)[..8] == QWord(id);
  }

  /** A change is read as what it announces, and its effect is that of the new value. */
  lemma ReadEnv(e: Env, rest: seq<byte>)
    requires Sendable(e)
    ensures T.ReadChange(EnvBytes(e) + rest) == (Effect(e), Some(rest))
  {
    hide ShortText, Short, QWord, Sized, Digits, T.ParseString, T.AfterStrings, T.AfterBytes, T.TranChange, T.Atoi, T.ReadChange;
    KindFirst(EnvBytes(e)[0], EnvBytes(e)[1..], rest);
    match e {
      case NewDatabase(now, was) => ReadTexts(now, was, rest);
      case NewSize(size, before) =>
        ReadTexts(Digits(size), before, rest);
        SizeIsRead(size);
      case Began(id, old_) => ReadBegan(id, old_, rest);
      case Committed(after, id) =>
        QWordSized(id);
        ReadPair(after, QWord(id), rest);
      case RolledBack(after, id) =>
        QWordSized(id);
        ReadPair(after, QWord(id), rest);
      case NewPartner(now, was) => ReadTexts(now, was, rest);
      case Other(kind, after, old_) => ReadPair(after, old_, rest);
    }
  }

  lemma KindFirst(kind: byte, body: seq<byte>, rest: seq<byte>)
    ensures T.ReadChange([kind] + body + rest) == T.ChangeOf(kind, body + rest) && ([kind] + body)[1..] == body
  {
    assert ([kind] + body + rest)[1..] == body + rest;
  }

  lemma {:induction false} ReadEnvs(es: seq<Env>)
    requires forall i :: 0 <= i < |es| ==> Sendable(es[i])
    ensures T.ReadChanges(EnvsBytes(es)) == (Effects(es), true)
  {
    hide EnvBytes, Effect, Sendable, T.ReadChange;
    if es != [] {
      ReadEnv(es[0], EnvsBytes(es[1..]));
      ReadEnvs(es[1..]);
    }
  }

  /**
   * A change of language or character set is announced by texts, but read as byte strings: exactly the change is
   * consumed if and only if the byte taken for the second length happens to be right.
   */
  lemma TextsReadAsBytes(now: seq<scalar>, was: seq<scalar>, rest: seq<byte>)
    requires Short(now) && Short(was)
    ensures var n, m := |Text(now)| / 2, |Text(was)| / 2;
      T.RestOf(T.AfterBytes(ShortText(now) + ShortText(was) + rest)) == Some(rest) <==>
      if n == 0 then m == 0 else Text(now)[n] as int == n + 2 * m
  {
    hide Text;
    ReadText(now);
    ReadText(was);
    var n, m := |Text(now)| / 2, |Text(was)| / 2;
    var s := ShortText(now) + ShortText(was) + rest;
    var s1 := s[1..][n..];
    assert s[0] == n && |s| == 2 + 2 * n + 2 * m + |rest|;
    assert s1[0] == if n == 0 then m else Text(now)[n];
    if s1[0] as int == n + 2 * m {
      assert s1[1..][n + 2 * m..] == rest;
    }
  }

  // ---------- tokens ----------

  datatype ServerColumn = ServerColumn(userType: uint32, flags: word, type_: ServerType, name: seq<scalar>)

  datatype Sent =
    | SentDone(id: byte, status: word, command: word, rows: uint64)
    | SentMessage(fails: bool, number: int32, state: byte, class_: byte, message: seq<scalar>,
                  server: seq<scalar>, proc: seq<scalar>, line: int32)
    | SentStatus(code: int32)
    | SentOrder(ids: seq<nat>)
    | SentAck(interface_: byte, version: uint32, program: seq<scalar>, programVersion: uint32)
    | SentChange(changes: seq<Env>)
    | SentColumns(cols: Option<seq<ServerColumn>>)
    | SentRow(compressed: bool, cells: seq<Cell>)
    | SentSspi(msg: seq<byte>)

  /** A signed number in four bytes, negative ones in two's complement. */
  function SignedDWord(n: int32): seq<byte> { DWord(if n < 0 then n + 0x1_0000_0000 else n) }

  function MessageBytes(t: Sent): seq<byte>
    requires t.SentMessage? && Longer(t.message) && Short(t.server) && Short(t.proc)
  {
    SignedDWord(t.number) + [t.state, t.class_] + LongerText(t.message) + ShortText(t.server) + ShortText(t.proc)
    + SignedDWord(t.line)
  }

  predicate Words(ids: seq<nat>) { forall i :: 0 <= i < |ids| ==> ids[i] < 0x1_0000 }

  function IdsBytes(ids: seq<nat>): (r: seq<byte>)
    requires Words(ids)
    ensures |r| == 2 * |ids|
  {
    if ids == [] then [] else Word(ids[0]) + IdsBytes(ids[1..])
  }

  function AckBytes(t: Sent): seq<byte>
    requires t.SentAck? && Short(t.program)
  {
    [t.interface_] + BigDWord(t.version) + ShortText(t.program) + BigDWord(t.programVersion)
  }

  function ColumnBytes(c: ServerColumn): seq<byte>
    requires Announced(c.type_) && Short(c.name)
  {
    DWord(c.userType) + Word(c.flags) + TypeBytes(c.type_) + ShortText(c.name)
  }

  predicate GoodColumns(cols: seq<ServerColumn>) {
    forall i :: 0 <= i < |cols| ==> Announced(cols[i].type_) && Short(cols[i].name)
  }

  function ColumnsBytes(cols: seq<ServerColumn>): seq<byte>
    requires GoodColumns(cols)
  {
    if cols == [] then [] else ColumnBytes(cols[0]) + ColumnsBytes(cols[1..])
  }

  function ColumnsMeaning(cols: seq<ServerColumn>): seq<T.Column>
    requires GoodColumns(cols)
  {
    if cols == [] then []
    else
      var c := cols[0];
      var (ti, reader) := TypeMeaning(c.type_);
      [T.Column(c.userType, c.flags, ti, reader, c.name)] + ColumnsMeaning(cols[1..])
  }

  /** The token fits its length fields, and a row the columns. */
  predicate Proper(cols: seq<T.Column>, t: Sent) {
    match t
    case SentDone(id, _, _, _) => id == 0xfd || id == 0xfe || id == 0xff
    case SentMessage(_, _, _, _, message, server, proc, _) =>
      Longer(message) && Short(server) && Short(proc) && |MessageBytes(t)| < 0x1_0000
    case SentOrder(ids) => 2 * |ids| < 0x1_0000 && Words(ids)
    case SentAck(_, _, program, _) => Short(program)
    case SentChange(changes) => (forall i :: 0 <= i < |changes| ==> Sendable(changes[i])) && |EnvsBytes(changes)| < 0x1_0000
    case SentColumns(Some(cs)) => GoodColumns(cs) && |cs| < 0xffff
    case SentRow(_, cells) => T.Matches(cols, cells)
    case SentSspi(msg) => |msg| < 0x1_0000
    case _ => true
  }

  function TokenBytes(cols: seq<T.Column>, t: Sent): seq<byte>
    requires Proper(cols, t)
  {
    match t
    case SentDone(id, status, command, rows) => [id] + (Word(status) + Word(command) + QWord(rows))
    case SentMessage(fails, _, _, _, _, _, _, _) =>
      [if fails then 0xaa else 0xab] + (Word(|MessageBytes(t)|) + MessageBytes(t))
    case SentStatus(code) => [0x79] + SignedDWord(code)
    case SentOrder(ids) => [0xa9] + (Word(2 * |ids|) + IdsBytes(ids))
    case SentAck(_, _, _, _) => [0xad] + (Word(|AckBytes(t)|) + AckBytes(t))
    case SentChange(changes) => [0xe3] + (Word(|EnvsBytes(changes)|) + EnvsBytes(changes))
    case SentColumns(None) => [0x81] + Word(0xffff)
    case SentColumns(Some(cs)) => [0x81] + (Word(|cs|) + ColumnsBytes(cs))
    case SentRow(false, cells) => [0xd1] + T.RowBytes(cols, cells)
    case SentRow(true, cells) => [0xd2] + T.NbcRowBytes(cols, cells)
    case SentSspi(msg) => [0xed] + (Word(|msg|) + msg)
  }

  // The end of the program name is computed in eight bits, and a row is readable when each of its cells is.
  predicate Readable(cols: seq<T.Column>, t: Sent)
    requires Proper(cols, t)
  {
    match t
    case SentAck(_, _, program, _) => |Text(program)| <= 2 * 124
    case SentRow(_, cells) => T.Meanings(cols, cells).Some?
    case _ => true
  }

  function Understood(cols: seq<T.Column>, t: Sent): T.Token
    requires Proper(cols, t) && Readable(cols, t)
  {
    match t
    case SentDone(id, status, command, rows) =>
      var d := T.Done(status, command, rows);
      if id == 0xff then T.TDoneInProc(d) else T.TDone(d)
    case SentMessage(fails, number, state, class_, message, server, proc, line) =>
      var e := T.Error(number, state, class_, message, server, proc, line);
      if fails then T.TError(e) else T.TInfo(e)
    case SentStatus(code) => T.TReturnStatus(code)
    case SentOrder(ids) => T.TOrder(ids)
    case SentAck(interface_, version, program, programVersion) => T.TLoginAck(interface_, version, program, programVersion)
    case SentChange(changes) => T.TEnvChange(Effects(changes))
    case SentColumns(None) => T.TColumns([])
    case SentColumns(Some(cs)) => T.TColumns(ColumnsMeaning(cs))
    case SentRow(_, cells) => T.TRow(T.Meanings(cols, cells).value)
    case SentSspi(msg) => T.TSspi(msg)
  }

  lemma ReadSigned(n: int32, rest: seq<byte>)
    ensures var r := ParseLe(SignedDWord(n) + rest, 4); r.Ok? && T.Signed32(r.value) == n && r.rest == rest
  {
    hide DWord, ParseLe;
    ReadDWord(if n < 0 then n + 0x1_0000_0000 else n, rest);
  }

  lemma ReadDone(status: word, command: word, rows: uint64, rest: seq<byte>)
    ensures T.ParseDone(Word(status) + Word(command) + QWord(rows) + rest) == Ok(T.Done(status, command, rows), rest)
  {
    hide Word, QWord, ParseLe;
    ReadWord(status, Word(command) + (QWord(rows) + rest));
    ReadWord(command, QWord(rows) + rest);
    ReadQWord(rows, rest);
    assert Word(status) + Word(command) + QWord(rows) + rest == Word(status) + (Word(command) + (QWord(rows) + rest));
  }

  lemma ReadMessage(t: Sent, rest: seq<byte>)
    requires Proper([], t) && t.SentMessage?
    ensures T.ParseError(Word(|MessageBytes(t)|) + MessageBytes(t) + rest) ==
      Ok(T.Error(t.number, t.state, t.class_, t.message, t.server, t.proc, t.line), rest)
  {
    hide Word, SignedDWord, LongerText, ShortText, Longer, Short, ParseLe, ParseByte, T.ParseString, T.Signed32;
    var s7 := SignedDWord(t.line) + rest;
    var s6 := ShortText(t.proc) + s7;
    var s5 := ShortText(t.server) + s6;
    var s4 := LongerText(t.message) + s5;
    var s3 := [t.class_] + s4;
    var s2 := [t.state] + s3;
    var s1 := SignedDWord(t.number) + s2;
    var size := Word(|MessageBytes(t)|);
    MessageSplits(t, rest);
    assert size + MessageBytes(t) + rest == size + s1;
    ReadWord(|MessageBytes(t)|, s1);
    ReadSigned(t.number, s2);
    Cons(t.state, s3);
    Cons(t.class_, s4);
    ReadLongerText(t.message, s5);
    ReadShortText(t.server, s6);
    ReadShortText(t.proc, s7);
    ReadSigned(t.line, rest);
  }

  lemma MessageSplits(t: Sent, rest: seq<byte>)
    requires t.SentMessage? && Longer(t.message) && Short(t.server) && Short(t.proc)
    ensures MessageBytes(t) + rest ==
      SignedDWord(t.number) + ([t.state] + ([t.class_] + (LongerText(t.message) +
      (ShortText(t.server) + (ShortText(t.proc) + (SignedDWord(t.line) + rest))))))
  {
    hide SignedDWord, LongerText, ShortText, Longer, Short;
  }

  lemma {:induction false} ReadIds(ids: seq<nat>, rest: seq<byte>)
    requires Words(ids)
    ensures T.ParseIds(IdsBytes(ids) + rest, |ids|) == Ok(ids, rest)
  {
    if ids == [] {
      assert IdsBytes(ids) + rest == rest;
    } else {
      hide Word, ParseLe;
      var more := IdsBytes(ids[1..]) + rest;
      assert IdsBytes(ids) + rest == Word(ids[0]) + more;
      ReadWord(ids[0], more);
      ReadIds(ids[1..], rest);
      assert ids == [ids[0]] + ids[1..];
    }
  }

  lemma ReadOrder(ids: seq<nat>, rest: seq<byte>)
    requires 2 * |ids| < 0x1_0000 && Words(ids)
    ensures T.ParseOrder(Word(2 * |ids|) + IdsBytes(ids) + rest) == Ok(ids, rest)
  {
    hide Word, ParseLe, IdsBytes, T.ParseIds, Words;
    Assoc(Word(2 * |ids|), IdsBytes(ids), rest);
    ReadWord(2 * |ids|, IdsBytes(ids) + rest);
    ReadIds(ids, rest);
  }

  lemma ReadSspi(msg: seq<byte>, rest: seq<byte>)
    requires |msg| < 0x1_0000
    ensures T.ParseSspi(Word(|msg|) + msg + rest) == Ok(msg, rest)
  {
    hide Word, ParseLe;
    Assoc(Word(|msg|), msg, rest);
    ReadWord(|msg|, msg + rest);
    TakeFront(msg, rest);
  }

  lemma ReadEnvChange(changes: seq<Env>, rest: seq<byte>)
    requires (forall i :: 0 <= i < |changes| ==> Sendable(changes[i])) && |EnvsBytes(changes)| < 0x1_0000
    ensures T.ParseEnvChange(Word(|EnvsBytes(changes)|) + EnvsBytes(changes) + rest) == Ok(T.TEnvChange(Effects(changes)), rest)
  {
    hide Word, ParseLe, EnvsBytes, Sendable, T.ReadChanges;
    var b := EnvsBytes(changes);
    Assoc(Word(|b|), b, rest);
    ReadWord(|b|, b + rest);
    ReadEnvs(changes);
    assert (b + rest)[..|b|] == b && (b + rest)[|b|..] == rest;
  }

  lemma ReadColumn(c: ServerColumn, rest: seq<byte>)
    requires Announced(c.type_) && Short(c.name)
    ensures var (ti, reader) := TypeMeaning(c.type_);
      T.ParseColumn(ColumnBytes(c) + rest) == Ok(T.Column(c.userType, c.flags, ti, reader, c.name), rest)
  {
    hide DWord, Word, TypeBytes, ShortText, Short, Announced, TypeMeaning, ParseLe, ParseTypeInfo, T.ParseString;
    var name := ShortText(c.name) + rest;
    var type_ := TypeBytes(c.type_) + name;
    assert ColumnBytes(c) + rest == DWord(c.userType) + (Word(c.flags) + type_);
    ReadDWord(c.userType, Word(c.flags) + type_);
    ReadWord(c.flags, type_);
    ReadType(c.type_, name);
    ReadShortText(c.name, rest);
  }

  lemma {:induction false} ReadColumns(cols: seq<ServerColumn>, rest: seq<byte>)
    requires GoodColumns(cols)
    ensures T.ParseColumns(ColumnsBytes(cols) + rest, |cols|) == Ok(ColumnsMeaning(cols), rest)
  {
    hide Announced, Short, ColumnBytes, TypeMeaning, T.ParseColumn;
    if cols == [] {
      assert ColumnsBytes(cols) + rest == rest;
    } else {
      var more := ColumnsBytes(cols[1..]) + rest;
      assert ColumnsBytes(cols) + rest == ColumnBytes(cols[0]) + more;
      ReadColumn(cols[0], more);
      ReadColumns(cols[1..], rest);
    }
  }

  lemma ReadMetadata(cols: seq<ServerColumn>, rest: seq<byte>)
    requires GoodColumns(cols) && |cols| < 0xffff
    ensures T.ParseColMetadata(Word(|cols|) + ColumnsBytes(cols) + rest) == Ok(ColumnsMeaning(cols), rest)
  {
    hide Word, ParseLe, GoodColumns;
    Assoc(Word(|cols|), ColumnsBytes(cols), rest);
    ReadWord(|cols|, ColumnsBytes(cols) + rest);
    ReadColumns(cols, rest);
  }

  lemma BigIs(n: uint32)
    ensures |BigDWord(n)| == 4 && T.FromBe32(BigDWord(n)) == n
  {
    var hi, lo := n / 0x1_0000, n / 0x100;
    assert n / 0x100_0000 == hi / 0x100;
    assert n == 0x100 * lo + n % 0x100 && lo == 0x100 * hi + lo % 0x100 && hi == 0x100 * (hi / 0x100) + hi % 0x100;
  }

  lemma AckSplits(t: Sent)
    requires t.SentAck? && Short(t.program)
    ensures var b, n := AckBytes(t), |Text(t.program)|;
      && |b| == 10 + n && b[0] == t.interface_ && b[1..5] == BigDWord(t.version) && b[5] == n / 2
      && b[6..6 + n] == Text(t.program) && b[6 + n..] == BigDWord(t.programVersion)
  {
    hide BigDWord, Text;
    BigIs(t.version);
    BigIs(t.programVersion);
    ReadText(t.program);
    var v, w, n := BigDWord(t.version), BigDWord(t.programVersion), |Text(t.program)|;
    var head := [t.interface_] + v + [n / 2];
    assert AckBytes(t) == head + Text(t.program) + w;
    assert head[1..5] == v;
    Middle(head, Text(t.program), w);
  }

  /** The acknowledgement of a login is understood exactly when its program name has at most 124 units. */
  lemma ReadAck(t: Sent, rest: seq<byte>)
    requires t.SentAck? && Short(t.program)
    ensures |AckBytes(t)| < 0x1_0000
    ensures (T.ParseLoginAck(Word(|AckBytes(t)|) + AckBytes(t) + rest) ==
      Ok(T.TLoginAck(t.interface_, t.version, t.program, t.programVersion), rest)) <==> |Text(t.program)| <= 2 * 124
  {
    hide Word, ParseLe, AckBytes, Text, Ucs22Str, BigDWord, T.FromBe32;
    AckSplits(t);
    ReadText(t.program);
    BigIs(t.version);
    BigIs(t.programVersion);
    var b, n := AckBytes(t), |Text(t.program)|;
    Assoc(Word(|b|), b, rest);
    ReadWord(|b|, b + rest);
    TakeFront(b, rest);
    if n > 2 * 124 {
      var end := (6 + n) % 256;
      if end >= 6 {
        TextIs(t.program);
        ShorterReadsAsOther(t.program, b[6..end]);
      }
    }
  }

  lemma IdFirst(cols: seq<T.Column>, id: byte, body: seq<byte>, rest: seq<byte>)
    ensures T.ParseToken(cols, [id] + body + rest) == T.ParseBody(cols, id, body + rest)
  {
    hide T.ParseBody;
    Cons(id, body + rest);
    Assoc([id], body, rest);
  }

  lemma ReadChangeOrColumns(cols: seq<T.Column>, t: Sent, rest: seq<byte>)
    requires (t.SentChange? || t.SentColumns? || t.SentSspi?) && Proper(cols, t)
    ensures T.ParseToken(cols, TokenBytes(cols, t) + rest) == Ok(Understood(cols, t), rest)
  {
    hide Word, EnvsBytes, ColumnsBytes, Effects, ColumnsMeaning, GoodColumns, Sendable, T.ParseToken;
    hide T.ParseEnvChange, T.ParseColMetadata, T.ParseSspi;
    match t {
      case SentChange(changes) =>
        ReadEnvChange(changes, rest);
        IdFirst(cols, 0xe3, Word(|EnvsBytes(changes)|) + EnvsBytes(changes), rest);
      case SentColumns(None) =>
        NoColumns(rest);
        IdFirst(cols, 0x81, Word(0xffff), rest);
      case SentColumns(Some(cs)) =>
        ReadMetadata(cs, rest);
        IdFirst(cols, 0x81, Word(|cs|) + ColumnsBytes(cs), rest);
      case SentSspi(msg) =>
        ReadSspi(msg, rest);
        IdFirst(cols, 0xed, Word(|msg|) + msg, rest);
    }
  }

  lemma NoColumns(rest: seq<byte>)
    ensures T.ParseColMetadata(Word(0xffff) + rest) == Ok([], rest)
  {
    hide Word, ParseLe;
    ReadWord(0xffff, rest);
  }

  lemma ReadRow(cols: seq<T.Column>, t: Sent, rest: seq<byte>)
    requires t.SentRow? && Proper(cols, t)
    ensures T.ParseToken(cols, TokenBytes(cols, t) + rest) ==
      match T.Meanings(cols, t.cells) case None => Fail case Some(vs) => Ok(T.TRow(vs), rest)
  {
    hide T.ParseToken, T.RowBytes, T.NbcRowBytes, T.ParseRow, T.ParseNbcRow, T.Meanings, T.Matches;
    T.RowEncodingsAgree(cols, t.cells, rest);
    if t.compressed {
      IdFirst(cols, 0xd2, T.NbcRowBytes(cols, t.cells), rest);
    } else {
      IdFirst(cols, 0xd1, T.RowBytes(cols, t.cells), rest);
    }
  }

  lemma ReadStatusOrOrder(cols: seq<T.Column>, t: Sent, rest: seq<byte>)
    requires (t.SentStatus? || t.SentOrder? || t.SentDone?) && Proper(cols, t)
    ensures T.ParseToken(cols, TokenBytes(cols, t) + rest) == Ok(Understood(cols, t), rest)
  {
    hide Word, QWord, SignedDWord, IdsBytes, Words, T.ParseToken, T.ParseOrder, T.ParseDone, T.Signed32, ParseLe;
    match t {
      case SentStatus(code) =>
        ReadSigned(code, rest);
        IdFirst(cols, 0x79, SignedDWord(code), rest);
      case SentOrder(ids) =>
        ReadOrder(ids, rest);
        IdFirst(cols, 0xa9, Word(2 * |ids|) + IdsBytes(ids), rest);
      case SentDone(id, status, command, rows) =>
        ReadDone(status, command, rows, rest);
        IdFirst(cols, id, Word(status) + Word(command) + QWord(rows), rest);
    }
  }

  lemma ReadMessageToken(cols: seq<T.Column>, t: Sent, rest: seq<byte>)
    requires t.SentMessage? && Proper(cols, t)
    ensures T.ParseToken(cols, TokenBytes(cols, t) + rest) == Ok(Understood(cols, t), rest)
  {
    hide Word, MessageBytes, Longer, Short, T.ParseToken, T.ParseError;
    ReadMessage(t, rest);
    IdFirst(cols, if t.fails then 0xaa else 0xab, Word(|MessageBytes(t)|) + MessageBytes(t), rest);
  }

  lemma ReadAckToken(cols: seq<T.Column>, t: Sent, rest: seq<byte>)
    requires t.SentAck? && Proper(cols, t)
    ensures (T.ParseToken(cols, TokenBytes(cols, t) + rest) ==
      Ok(T.TLoginAck(t.interface_, t.version, t.program, t.programVersion), rest)) <==> Readable(cols, t)
  {
    hide Word, AckBytes, Text, Short, T.ParseToken, T.ParseLoginAck;
    ReadAck(t, rest);
    IdFirst(cols, 0xad, Word(|AckBytes(t)|) + AckBytes(t), rest);
  }

  /** What a server writes as a token is read as that token, and nothing beyond it. */
  lemma ReadToken(cols: seq<T.Column>, t: Sent, rest: seq<byte>)
    requires Proper(cols, t) && Readable(cols, t)
    ensures T.ParseToken(cols, TokenBytes(cols, t) + rest) == Ok(Understood(cols, t), rest)
  {
    hide T.ParseToken, TokenBytes, Proper;
    match t {
      case SentMessage(_, _, _, _, _, _, _, _) => ReadMessageToken(cols, t, rest);
      case SentAck(_, _, _, _) => ReadAckToken(cols, t, rest);
      case SentRow(_, _) => ReadRow(cols, t, rest);
      case SentStatus(_) => ReadStatusOrOrder(cols, t, rest);
      case SentOrder(_) => ReadStatusOrOrder(cols, t, rest);
      case SentDone(_, _, _, _) => ReadStatusOrOrder(cols, t, rest);
      case _ => ReadChangeOrColumns(cols, t, rest);
    }
  }

  // ---------- responses ----------

  // The columns that rows have after a token.
  function Layout(cols: seq<T.Column>, t: Sent): seq<T.Column>
    requires Proper(cols, t)
  {
    match t
    case SentColumns(None) => []
    case SentColumns(Some(cs)) => ColumnsMeaning(cs)
    case _ => cols
  }

  predicate AllProper(cols: seq<T.Column>, ts: seq<Sent>)
    decreases ts
  {
    ts != [] ==> Proper(cols, ts[0]) && Readable(cols, ts[0]) && AllProper(Layout(cols, ts[0]), ts[1..])
  }

  function Stream(cols: seq<T.Column>, ts: seq<Sent>): seq<byte>
    requires AllProper(cols, ts)
    decreases ts
  {
    if ts == [] then [] else TokenBytes(cols, ts[0]) + Stream(Layout(cols, ts[0]), ts[1..])
  }

  function AllUnderstood(cols: seq<T.Column>, ts: seq<Sent>): seq<T.Token>
    requires AllProper(cols, ts)
    decreases ts
  {
    if ts == [] then [] else [Understood(cols, ts[0])] + AllUnderstood(Layout(cols, ts[0]), ts[1..])
  }

  function LastLayout(cols: seq<T.Column>, ts: seq<Sent>): seq<T.Column>
    requires AllProper(cols, ts)
    decreases ts
  {
    if ts == [] then cols else LastLayout(Layout(cols, ts[0]), ts[1..])
  }

  lemma LayoutIs(cols: seq<T.Column>, t: Sent)
    requires Proper(cols, t) && Readable(cols, t)
    ensures var u := Understood(cols, t); Layout(cols, t) == if u.TColumns? then u.cols else cols
  {
    hide ColumnsMeaning, GoodColumns, Sendable;
  }

  /** The tokens found in what a server writes are the tokens it wrote. */
  lemma {:induction false} TraceIsSent(cols: seq<T.Column>, ts: seq<Sent>, rest: seq<byte>)
    requires AllProper(cols, ts)
    ensures T.Trace(cols, Stream(cols, ts) + rest) == AllUnderstood(cols, ts) + T.Trace(LastLayout(cols, ts), rest)
    decreases ts
  {
    if ts == [] {
      assert Stream(cols, ts) + rest == rest;
      assert [] + T.Trace(cols, rest) == T.Trace(cols, rest);
    } else {
      hide T.ParseToken, TokenBytes, Understood, Proper, Readable, Layout;
      var t, next := ts[0], Layout(cols, ts[0]);
      var more := Stream(next, ts[1..]) + rest;
      Assoc(TokenBytes(cols, t), Stream(next, ts[1..]), rest);
      ReadToken(cols, t, more);
      LayoutIs(cols, t);
      TraceIsSent(next, ts[1..], rest);
      Assoc([Understood(cols, t)], AllUnderstood(next, ts[1..]), T.Trace(LastLayout(next, ts[1..]), rest));
    }
  }

  /** What a run has come to: what the caller has received, whether it is over, and what is kept in mind. */
  datatype Progress = Progress(items: seq<T.Item>, changes: seq<T.EnvChange>, over: bool, last: T.Error, failed: bool)

  function After(item: seq<T.Item>, changes: seq<T.EnvChange>, p: Progress): Progress {
    p.(items := item + p.items, changes := changes + p.changes)
  }

  /**
   * A response, token by token. DONE and DONEPROC end it with the last error if one was sent or their bit 1 says so,
   * with a server error if their bit 8 says so, and in success unless their bit 0 announces more.
   */
  function Answer(cols: seq<T.Column>, ts: seq<Sent>, last: T.Error, failed: bool): Progress
    requires AllProper(cols, ts)
    decreases ts
  {
    if ts == [] then Progress([], [], false, last, failed)
    else
      var t, next, rest := ts[0], Layout(cols, ts[0]), ts[1..];
      match t
      case SentDone(id, status, command, rows) =>
        var d := T.Done(status, command, rows);
        if id == 0xff then After([T.DoneInProcItem(d)], [], Answer(next, rest, last, failed))
        else if status / 2 % 2 == 1 || failed then Progress([T.Failure(last)], [], true, last, failed)
        else if status / 0x100 % 2 == 1 then
          Progress([T.Failure(last.(message := [83, 101, 114, 118, 101, 114, 32, 69, 114, 114, 111, 114]))], [], true, last, failed)
        else if status % 2 == 1 then After([T.DoneItem(d)], [], Answer(next, rest, last, failed))
        else Progress([T.DoneItem(d)], [], true, last, failed)
      case SentMessage(fails, number, state, class_, message, server, proc, line) =>
        if fails then Answer(next, rest, T.Error(number, state, class_, message, server, proc, line), true)
        else Answer(next, rest, last, failed)
      case SentStatus(code) => After([T.ReturnStatus(code)], [], Answer(next, rest, last, failed))
      case SentOrder(ids) => After([T.Order(ids)], [], Answer(next, rest, last, failed))
      case SentAck(_, version, program, _) => After([T.LoginAck(version, program)], [], Answer(next, rest, last, failed))
      case SentChange(changes) => After([], Effects(changes), Answer(next, rest, last, failed))
      case SentColumns(_) => After([T.Columns(next)], [], Answer(next, rest, last, failed))
      case SentRow(_, cells) => After([T.RowItem(T.Meanings(cols, cells).value)], [], Answer(next, rest, last, failed))
      case SentSspi(msg) => Progress([T.Sspi(msg)], [], true, last, failed)
  }

  // The powers of two up to 256.
  function Weight(b: nat): nat
    requires b <= 8
  {
    [1, 2, 4, 8, 16, 32, 64, 128, 256][b]
  }

  lemma {:induction false} BitWeighs(n: nat, b: nat)
    requires b <= 8
    ensures T.Bit(n, b) <==> n / Weight(b) % 2 == 1
    decreases b
  {
    if b > 0 {
      BitWeighs(n / 2, b - 1);
      assert Weight(b) == 2 * Weight(b - 1);
      HalfFirst(n, Weight(b - 1));
    }
  }

  lemma HalfFirst(n: nat, m: nat)
    requires m > 0
    ensures n / 2 / m == n / (2 * m)
  {
    var q, r := n / 2 / m, n / 2 % m;
    assert n / 2 == q * m + r && n == 2 * (q * m) + 2 * r + n % 2;
    assert q * (2 * m) == 2 * (q * m);
    ModOf(n, q, 2 * m, 2 * r + n % 2);
  }

  lemma StatusBits(n: nat)
    ensures T.Bit(n, T.DONE_MORE) <==> n % 2 == 1
    ensures T.Bit(n, T.DONE_ERROR) <==> n / 2 % 2 == 1
    ensures T.Bit(n, T.DONE_SRV_ERROR) <==> n / 0x100 % 2 == 1
  {
    BitWeighs(n, 0);
    BitWeighs(n, 1);
    BitWeighs(n, 8);
  }

  /** In a compressed row, bit i % 8 of byte i / 8 says whether the i-th cell is left out for being NULL. */
  lemma NullBit(cells: seq<Cell>, i: nat)
    requires i < |cells|
    ensures cells[i].NullCell? <==> T.Bitmap(cells)[i / 8] as int / Weight(i % 8) % 2 == 1
  {
    T.BitmapMarks(cells, i);
    BitWeighs(T.Bitmap(cells)[i / 8], i % 8);
  }

  // What one token of the run contributes to the answer.
  predicate FirstAnswers(cols: seq<T.Column>, ts: seq<Sent>, more: seq<T.Token>, last: T.Error, failed: bool)
    requires AllProper(cols, ts) && ts != []
  {
    var u, p := Understood(cols, ts[0]), Answer(cols, ts, last, failed);
    var e := if u.TError? then u.err else last;
    var q := Answer(Layout(cols, ts[0]), ts[1..], e, failed || u.TError?);
    if T.Continues(u, failed) then
      p == After(if u.TDone? then [T.DoneItem(u.done)] else T.Quiet(u), if u.TEnvChange? then u.changes else [], q)
    else p.over && p.changes == [] && p.items == T.Emit([u] + more, last, failed)
  }

  lemma DoneAnswers(cols: seq<T.Column>, ts: seq<Sent>, more: seq<T.Token>, last: T.Error, failed: bool)
    requires AllProper(cols, ts) && ts != [] && ts[0].SentDone?
    ensures FirstAnswers(cols, ts, more, last, failed)
  {
    hide T.Bit;
    var u := Understood(cols, ts[0]);
    StatusBits(ts[0].status);
    assert ([u] + more)[1..] == more;
  }

  lemma QuietAnswers(cols: seq<T.Column>, ts: seq<Sent>, more: seq<T.Token>, last: T.Error, failed: bool)
    requires AllProper(cols, ts) && ts != [] && (ts[0].SentStatus? || ts[0].SentOrder? || ts[0].SentAck?)
    ensures FirstAnswers(cols, ts, more, last, failed)
  {
    hide T.Bit, Proper, Readable, ColumnsMeaning, T.Meanings, T.Matches;
    assert ([Understood(cols, ts[0])] + more)[1..] == more;
  }

  lemma TableAnswers(cols: seq<T.Column>, ts: seq<Sent>, more: seq<T.Token>, last: T.Error, failed: bool)
    requires AllProper(cols, ts) && ts != [] && (ts[0].SentColumns? || ts[0].SentRow?)
    ensures FirstAnswers(cols, ts, more, last, failed)
  {
    hide T.Bit, Proper, Readable, ColumnsMeaning, T.Meanings, T.Matches;
    assert ([Understood(cols, ts[0])] + more)[1..] == more;
  }

  lemma MessageAnswers(cols: seq<T.Column>, ts: seq<Sent>, more: seq<T.Token>, last: T.Error, failed: bool)
    requires AllProper(cols, ts) && ts != [] && (ts[0].SentMessage?)
    ensures FirstAnswers(cols, ts, more, last, failed)
  {
    hide T.Bit, Proper, Readable, ColumnsMeaning, T.Meanings, T.Matches;
    assert ([Understood(cols, ts[0])] + more)[1..] == more;
  }

  lemma ChangeAnswers(cols: seq<T.Column>, ts: seq<Sent>, more: seq<T.Token>, last: T.Error, failed: bool)
    requires AllProper(cols, ts) && ts != [] && (ts[0].SentChange? || ts[0].SentSspi?)
    ensures FirstAnswers(cols, ts, more, last, failed)
  {
    hide T.Bit, Proper, Readable, ColumnsMeaning, T.Meanings, T.Matches;
    assert ([Understood(cols, ts[0])] + more)[1..] == more;
  }

  lemma Answers(cols: seq<T.Column>, ts: seq<Sent>, more: seq<T.Token>, last: T.Error, failed: bool)
    requires AllProper(cols, ts) && ts != []
    ensures FirstAnswers(cols, ts, more, last, failed)
  {
    hide FirstAnswers, AllProper;
    match ts[0] {
      case SentDone(_, _, _, _) => DoneAnswers(cols, ts, more, last, failed);
      case SentMessage(_, _, _, _, _, _, _, _) => MessageAnswers(cols, ts, more, last, failed);
      case SentColumns(_) => TableAnswers(cols, ts, more, last, failed);
      case SentRow(_, _) => TableAnswers(cols, ts, more, last, failed);
      case SentChange(_) => ChangeAnswers(cols, ts, more, last, failed);
      case SentSspi(_) => ChangeAnswers(cols, ts, more, last, failed);
      case _ => QuietAnswers(cols, ts, more, last, failed);
    }
  }

  lemma EmitStep(u: T.Token, ts: seq<T.Token>, last: T.Error, failed: bool)
    requires T.Continues(u, failed)
    ensures T.Emit([u] + ts, last, failed) ==
      (if u.TDone? then [T.DoneItem(u.done)] else T.Quiet(u)) +
      T.Emit(ts, if u.TError? then u.err else last, failed || u.TError?)
  {
    hide T.Bit;
    assert ([u] + ts)[1..] == ts;
  }

  lemma {:induction false} EmitIsAnswer(cols: seq<T.Column>, ts: seq<Sent>, more: seq<T.Token>, last: T.Error, failed: bool)
    requires AllProper(cols, ts)
    ensures var p := Answer(cols, ts, last, failed);
      T.Emit(AllUnderstood(cols, ts) + more, last, failed) == p.items + if p.over then [] else T.Emit(more, p.last, p.failed)
    decreases ts
  {
    if ts == [] {
      assert [] + more == more && [] + T.Emit(more, last, failed) == T.Emit(more, last, failed);
    } else {
      hide T.Emit, T.Quiet, T.Continues, Understood, Proper, Readable, Layout;
      var u, next := Understood(cols, ts[0]), Layout(cols, ts[0]);
      var after := AllUnderstood(next, ts[1..]) + more;
      Answers(cols, ts, after, last, failed);
      Assoc([u], AllUnderstood(next, ts[1..]), more);
      hide Answer;
      if T.Continues(u, failed) {
        var e := if u.TError? then u.err else last;
        EmitStep(u, after, last, failed);
        EmitIsAnswer(next, ts[1..], more, e, failed || u.TError?);
        var q := Answer(next, ts[1..], e, failed || u.TError?);
        Assoc(if u.TDone? then [T.DoneItem(u.done)] else T.Quiet(u), q.items,
          if q.over then [] else T.Emit(more, q.last, q.failed));
      }
    }
  }

  lemma {:induction false} EffectsAreAnswer(cols: seq<T.Column>, ts: seq<Sent>, tail: seq<byte>, last: T.Error, failed: bool)
    requires AllProper(cols, ts)
    ensures var p := Answer(cols, ts, last, failed);
      T.Effects(cols, Stream(cols, ts) + tail, failed) ==
      p.changes + if p.over then [] else T.Effects(LastLayout(cols, ts), tail, p.failed)
    decreases ts
  {
    if ts == [] {
      assert [] + tail == tail && [] + T.Effects(cols, tail, failed) == T.Effects(cols, tail, failed);
    } else {
      hide T.ParseToken, T.ChangesAt, T.Continues, TokenBytes, Understood, Proper, Readable, Layout;
      var t, u, next := ts[0], Understood(cols, ts[0]), Layout(cols, ts[0]);
      var more := Stream(next, ts[1..]) + tail;
      Assoc(TokenBytes(cols, t), Stream(next, ts[1..]), tail);
      ReadToken(cols, t, more);
      T.TokenChanges(cols, TokenBytes(cols, t) + more);
      LayoutIs(cols, t);
      Answers(cols, ts, [], last, failed);
      OnlyChangesGoOn(u, failed);
      hide Answer;
      if T.Continues(u, failed) {
        var e, late := if u.TError? then u.err else last, failed || u.TError?;
        EffectsAreAnswer(next, ts[1..], tail, e, late);
        var q := Answer(next, ts[1..], e, late);
        Assoc(if u.TEnvChange? then u.changes else [], q.changes,
          if q.over then [] else T.Effects(LastLayout(cols, ts), tail, q.failed));
      }
    }
  }

  lemma OnlyChangesGoOn(u: T.Token, failed: bool)
    ensures u.TEnvChange? ==> T.Continues(u, failed)
  {
  }

  /**
   * The caller of a run receives exactly what the tokens that the server wrote amount to, up to the one that ends the
   * run, and the session undergoes exactly the changes announced among them; what follows them counts only if they do
   * not end the run.
   */
  lemma ResponseIsAnswer(ts: seq<Sent>, tail: seq<byte>)
    requires AllProper([], ts)
    ensures var p, s, cols := Answer([], ts, T.NO_ERROR, false), Stream([], ts) + tail, LastLayout([], ts);
      && T.Response(s) == p.items + (if p.over then [] else T.Emit(T.Trace(cols, tail), p.last, p.failed))
      && T.Effects([], s, false) == p.changes + (if p.over then [] else T.Effects(cols, tail, p.failed))
  {
    TraceIsSent([], ts, tail);
    EmitIsAnswer([], ts, T.Trace(LastLayout([], ts), tail), T.NO_ERROR, false);
    EffectsAreAnswer([], ts, tail, T.NO_ERROR, false);
  }

  /** A change of language, to "de" from none, cannot be read. */
  lemma LanguageBreaks()
    ensures Short([100, 101]) && Short([]) && !T.ReadChanges([2] + (ShortText([100, 101]) + ShortText([]))).1
  {
    assert Text([]) == [] && [101][1..] == [] && [100, 101][1..] == [101];
    assert Text([101]) == [101, 0] + [];
    assert Text([100, 101]) == [100, 0] + [101, 0];
    var s := [2] + (ShortText([100, 101]) + ShortText([]));
    assert s == [2, 2, 100, 0, 101, 0, 0];
    Broken(s);
  }

  lemma Broken(s: seq<byte>)
    requires s == [2, 2, 100, 0, 101, 0, 0]
    ensures !T.ReadChanges(s).1
  {
    assert s[1..] == [2, 100, 0, 101, 0, 0] && s[1..][1..] == [100, 0, 101, 0, 0];
    assert s[1..][1..][2..] == [101, 0, 0] && s[1..][1..][2..][1..] == [0, 0];
    assert T.AfterBytes(s[1..]).Fail?;
  }
}
