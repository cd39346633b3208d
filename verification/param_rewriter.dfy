/** Rewriting `?`, `$n` and `:n` parameter markers of a query into `@pN`. */
module ParamRewriter {
  import opened Bytes
  import opened DecimalText

  // ---------- what the rewriting means ----------

  /** Where in the query text the reader is, as one pass over the characters without push-back. */
  datatype Context =
    | Normal
    | Dash            // normal text, just after '-'
    | Slash           // normal text, just after '/'
    | BracketEnd      // just after ']' inside brackets
    | Quote
    | DoubleQuote
    | Bracket
    | LineComment
    | Comment(nested: nat)
    | CommentStar(nested: nat)
    | CommentSlash(nested: nat)

  predicate Open(c: Context) { c.Normal? || c.Dash? || c.Slash? || c.BracketEnd? }

  function Begin(ch: char): Context {
    if ch == '\'' then Quote
    else if ch == '"' then DoubleQuote
    else if ch == '[' then Bracket
    else if ch == '-' then Dash
    else if ch == '/' then Slash
    else Normal
  }

  function After(c: Context, ch: char): Context {
    match c
    case Normal => Begin(ch)
    case Dash => if ch == '-' then LineComment else Begin(ch)
    case Slash => if ch == '*' then Comment(0) else Begin(ch)
    case BracketEnd => if ch == ']' then Bracket else Begin(ch)
    case Quote => if ch == '\'' then Normal else Quote
    case DoubleQuote => if ch == '"' then Normal else DoubleQuote
    case Bracket => if ch == ']' then BracketEnd else Bracket
    case LineComment => if ch == '\n' then Normal else LineComment
    case Comment(n) => if ch == '*' then CommentStar(n) else if ch == '/' then CommentSlash(n) else Comment(n)
    case CommentStar(n) =>
      if ch == '/' then (if n == 0 then Normal else CommentSlash(n - 1))
      else if ch == '*' then CommentStar(n) else Comment(n)
    case CommentSlash(n) =>
      if ch == '*' then Comment(n + 1) else if ch == '/' then CommentSlash(n) else Comment(n)
  }

  predicate StartsMarker(c: Context, s: string)
    requires s != []
  {
    Open(c) && (s[0] == '?' || ((s[0] == '$' || s[0] == ':') && |s| > 1 && IsDigit(s[1])))
  }

  datatype Token = Text(ch: char) | Marker(sign: char, digits: string)

  function DigitRun(s: string): (k: nat)
    ensures k <= |s| && AllDigits(s[..k]) && (k < |s| ==> !IsDigit(s[k]))
  {
    if s == [] || !IsDigit(s[0]) then 0 else 1 + DigitRun(s[1..])
  }

  function Lex(c: Context, s: string): seq<Token>
    decreases |s|
  {
    if s == [] then []
    else if StartsMarker(c, s) then
      var k := DigitRun(s[1..]);
      [Marker(s[0], s[1..][..k])] + Lex(Normal, s[1..][k..])
    else [Text(s[0])] + Lex(After(c, s[0]), s[1..])
  }

  /** The text a token was read from. */
  function Spelling(t: Token): string {
    match t case Text(ch) => [ch] case Marker(sign, ds) => [sign] + ds
  }

  /** The text a token sequence was read from. */
  function Source(ts: seq<Token>): string {
    if ts == [] then [] else Spelling(ts[0]) + Source(ts[1..])
  }

  const TWO63 := 0x8000_0000_0000_0000
  const TWO64 := 0x1_0000_0000_0000_0000

  /** The value of a 64-bit int after overflow. */
  function Wrap(x: int): int { (x + TWO63) % TWO64 - TWO63 }

  /** The number written in a marker, accumulated in a 64-bit int. */
  function Accumulate(acc: int, ds: string): int
    decreases ds
  {
    if ds == [] || !IsDigit(ds[0]) then acc
    else Accumulate(Wrap(acc * 10 + DigitValue(ds[0])), ds[1..])
  }

  predicate Unnumbered(t: Token) { t.Marker? && Accumulate(0, t.digits) == 0 }

  function CountUnnumbered(ts: seq<Token>): nat {
    if ts == [] then 0 else (if Unnumbered(ts[0]) then 1 else 0) + CountUnnumbered(ts[1..])
  }

  /** The parameter number of a marker when `count` unnumbered markers came before it. */
  function Number(t: Token, count: nat): int
    requires t.Marker?
  {
    if Unnumbered(t) then count + 1 else Accumulate(0, t.digits)
  }

  function NextCount(t: Token, count: nat): nat { if Unnumbered(t) then count + 1 else count }

  function RenderToken(t: Token, count: nat): string {
    match t case Text(ch) => [ch] case Marker(_, _) => "@p" + Itoa(Number(t, count))
  }

  function Render(ts: seq<Token>, count: nat): string {
    if ts == [] then [] else RenderToken(ts[0], count) + Render(ts[1..], NextCount(ts[0], count))
  }

  /** The numbers given to the markers, in order. */
  function Numbers(ts: seq<Token>, count: nat): seq<int> {
    if ts == [] then [] else TokenNumbers(ts[0], count) + Numbers(ts[1..], NextCount(ts[0], count))
  }

  function TokenNumbers(t: Token, count: nat): seq<int> {
    if t.Marker? then [Number(t, count)] else []
  }

  function MaxOf(m: int, ns: seq<int>): int
    decreases ns
  {
    if ns == [] then m else MaxOf(if ns[0] > m then ns[0] else m, ns[1..])
  }

  /** The result of rewriting: the text, and the largest parameter number used. */
  function Rewritten(q: string): (string, int) {
    (Render(Lex(Normal, q), 0), MaxOf(0, Numbers(Lex(Normal, q), 0)))
  }

  // ---------- what the rewriting preserves ----------

  lemma SourceCons(t: Token, ts: seq<Token>)
    ensures Source([t] + ts) == Spelling(t) + Source(ts)
  {
    assert ([t] + ts)[1..] == ts;
  }

  lemma MarkerSpelling(s: string, k: nat)
    requires k < |s|
    ensures Spelling(Marker(s[0], s[1..][..k])) + s[1..][k..] == s
  {
  }

  /** Tokenising loses nothing: the tokens spell the query. */
  lemma {:induction false} LexIsLossless(c: Context, s: string)
    decreases |s|
    ensures Source(Lex(c, s)) == s
  {
    hide StartsMarker, After, Source, Spelling, DigitRun;
    if s == [] {
      NoSource();
    } else if StartsMarker(c, s) {
      var k := DigitRun(s[1..]);
      LexIsLossless(Normal, s[1..][k..]);
      SourceCons(Marker(s[0], s[1..][..k]), Lex(Normal, s[1..][k..]));
      MarkerSpelling(s, k);
    } else {
      LexIsLossless(After(c, s[0]), s[1..]);
      SourceCons(Text(s[0]), Lex(After(c, s[0]), s[1..]));
      TextSpelling(s);
    }
  }

  lemma NoSource()
    ensures Source([]) == []
  {
  }

  lemma TextSpelling(s: string)
    requires s != []
    ensures Spelling(Text(s[0])) + s[1..] == s
  {
  }

  function Flatten(ps: seq<string>): string {
    if ps == [] then [] else ps[0] + Flatten(ps[1..])
  }

  function Pieces(ts: seq<Token>, count: nat): (ps: seq<string>)
    ensures |ps| == |ts|
  {
    if ts == [] then [] else [RenderToken(ts[0], count)] + Pieces(ts[1..], NextCount(ts[0], count))
  }

  lemma {:induction false} RenderIsPiecewise(ts: seq<Token>, count: nat)
    ensures Render(ts, count) == Flatten(Pieces(ts, count))
  {
    if ts != [] {
      RenderIsPiecewise(ts[1..], NextCount(ts[0], count));
      assert Pieces(ts, count)[1..] == Pieces(ts[1..], NextCount(ts[0], count));
    }
  }

  /** How many parameters have been numbered in sequence before the j-th token. */
  function Seen(ts: seq<Token>, count: nat, j: nat): nat
    requires j <= |ts|
  {
    count + CountUnnumbered(ts[..j])
  }

  lemma SeenShift(ts: seq<Token>, count: nat, j: nat)
    requires 0 < j <= |ts|
    ensures Seen(ts, count, j) == Seen(ts[1..], NextCount(ts[0], count), j - 1)
  {
    assert ts[..j][1..] == ts[1..][..j - 1];
  }

  /**
   * The output is the tokens rendered one by one in place: characters as they are, markers as their
   * parameter; a marker without a number gets one more than the unnumbered markers before it.
   */
  lemma {:induction false} PieceAt(ts: seq<Token>, count: nat, j: nat)
    requires j < |ts|
    ensures Pieces(ts, count)[j] == RenderToken(ts[j], Seen(ts, count, j))
    ensures ts[j].Marker? ==> Number(ts[j], Seen(ts, count, j)) in Numbers(ts, count)
  {
    if j == 0 {
      assert ts[..0] == [];
    } else {
      PieceAt(ts[1..], NextCount(ts[0], count), j - 1);
      SeenShift(ts, count, j);
    }
  }

  /** Every number in `Numbers` is the number of some marker. */
  lemma {:induction false} NumbersAreWritten(ts: seq<Token>, count: nat, n: int) returns (j: nat)
    requires n in Numbers(ts, count)
    ensures j < |ts| && ts[j].Marker? && n == Number(ts[j], Seen(ts, count, j))
  {
    if n in TokenNumbers(ts[0], count) {
      assert ts[..0] == [];
      j := 0;
    } else {
      var i := NumbersAreWritten(ts[1..], NextCount(ts[0], count), n);
      j := i + 1;
      SeenShift(ts, count, j);
    }
  }

  lemma {:induction false} MaxOfIsMax(m: int, ns: seq<int>)
    decreases ns
    ensures var r := MaxOf(m, ns); r >= m && (r == m || r in ns) && (forall n :: n in ns ==> n <= r)
  {
    if ns != [] {
      MaxOfIsMax(if ns[0] > m then ns[0] else m, ns[1..]);
      assert forall n :: n in ns ==> n == ns[0] || n in ns[1..];
    }
  }

  // ---------- rewriting twice is rewriting once ----------

  function Texts(s: string): seq<Token> {
    if s == [] then [] else [Text(s[0])] + Texts(s[1..])
  }

  lemma {:induction false} TextsRender(s: string, count: nat)
    ensures Render(Texts(s), count) == s && Numbers(Texts(s), count) == []
  {
    if s != [] {
      TextsRender(s[1..], count);
    }
  }

  lemma {:induction false} TextsConcat(a: string, b: string)
    ensures Texts(a + b) == Texts(a) + Texts(b)
  {
    if a == [] {
      assert a + b == b;
    } else {
      TextsConcat(a[1..], b);
      assert (a + b)[1..] == a[1..] + b && (a + b)[0] == a[0];
      var x, y, z := Texts(a), Texts(a[1..]), Texts(b);
      assert x == [Text(a[0])] + y;
      Assoc([Text(a[0])], y, z);
    }
  }

  /** Characters that neither start a marker nor begin or end any context of normal text. */
  predicate Inert(ch: char) { IsDigit(ch) || ch == '@' || ch == 'p' }

  lemma TextStep(c: Context, s: string)
    requires s != [] && !StartsMarker(c, s)
    ensures Lex(c, s) == [Text(s[0])] + Lex(After(c, s[0]), s[1..])
  {
  }

  lemma InertStep(c: Context, s: string)
    requires Open(c) && s != [] && Inert(s[0])
    ensures Lex(c, s) == [Text(s[0])] + Lex(Normal, s[1..])
  {
    assert After(c, s[0]) == Normal;
  }

  lemma {:induction false} InertIsText(c: Context, ds: string, rest: string)
    requires Open(c) && (forall i :: 0 <= i < |ds| ==> Inert(ds[i])) && ds != []
    decreases |ds|
    ensures Lex(c, ds + rest) == Texts(ds) + Lex(Normal, rest)
  {
    var s := ds + rest;
    InertStep(c, s);
    hide Lex;
    assert s[1..] == ds[1..] + rest && s[0] == ds[0];
    var tail := Lex(Normal, rest);
    if |ds| > 1 {
      InertIsText(Normal, ds[1..], rest);
    } else {
      assert ds[1..] == [] && [] + rest == rest;
      assert Texts([]) + tail == tail;
    }
    assert Texts(ds) == [Text(ds[0])] + Texts(ds[1..]);
    Assoc([Text(ds[0])], Texts(ds[1..]), tail);
  }

  lemma NumberIsText(n: int, rest: string)
    ensures Lex(Normal, Itoa(n) + rest) == Texts(Itoa(n)) + Lex(Normal, rest)
  {
    hide Lex, Dec;
    if n < 0 {
      var ds := Dec(-n);
      var s := Itoa(n) + rest;
      assert s[1..] == ds + rest && Itoa(n)[1..] == ds;
      InertIsText(Dash, ds, rest);
      TextStep(Normal, s);
      Assoc([Text('-')], Texts(ds), Lex(Normal, rest));
    } else {
      InertIsText(Normal, Dec(n), rest);
    }
  }

  /** A parameter written by the rewriter is plain text wherever a marker may stand. */
  lemma ParameterIsText(c: Context, n: int, rest: string)
    requires Open(c)
    ensures Lex(c, "@p" + Itoa(n) + rest) == Texts("@p" + Itoa(n)) + Lex(Normal, rest)
  {
    hide Lex, Itoa, Texts;
    Assoc("@p", Itoa(n), rest);
    InertIsText(c, "@p", Itoa(n) + rest);
    NumberIsText(n, rest);
    TextsConcat("@p", Itoa(n));
  }

  /** The output starts with the next input character or with '@'. */
  lemma RenderStart(c: Context, s: string, count: nat)
    ensures var r := Render(Lex(c, s), count);
      (r == [] <==> s == []) && (s != [] ==> r[0] == s[0] || r[0] == '@')
  {
  }

  lemma {:induction false} OutputIsText(c: Context, s: string, count: nat)
    decreases |s|
    ensures var r := Render(Lex(c, s), count); Lex(c, r) == Texts(r)
  {
    if s != [] {
      var ts := Lex(c, s);
      var rest := Render(ts[1..], NextCount(ts[0], count));
      if StartsMarker(c, s) {
        var k := DigitRun(s[1..]);
        assert ts[1..] == Lex(Normal, s[1..][k..]);
        OutputIsText(Normal, s[1..][k..], NextCount(ts[0], count));
        var n := Number(ts[0], count);
        ParameterIsText(c, n, rest);
        TextsConcat("@p" + Itoa(n), rest);
      } else {
        assert ts[1..] == Lex(After(c, s[0]), s[1..]);
        OutputIsText(After(c, s[0]), s[1..], count);
        RenderStart(After(c, s[0]), s[1..], count);
        var r := [s[0]] + rest;
        assert r[1..] == rest;
        assert !StartsMarker(c, r);
      }
    }
  }

  /** No marker survives, and the parameters written create no marker, comment or quotation. */
  lemma RewritingIsIdempotent(q: string)
    ensures Rewritten(Rewritten(q).0) == (Rewritten(q).0, 0)
  {
    var r := Rewritten(q).0;
    OutputIsText(Normal, q, 0);
    TextsRender(r, 0);
  }

  // ---------- the rewriter ----------

  datatype State =
    | ParseNormal | ParseParameter | ParseQuote | ParseDoubleQuote | ParseBracket
    | ParseLineComment | ParseComment | Stop

  function ContextOf(st: State): Context {
    match st
    case ParseQuote => Quote
    case ParseDoubleQuote => DoubleQuote
    case ParseBracket => Bracket
    case ParseLineComment => Dash
    case ParseComment => Slash
    case _ => Normal
  }

  /** The state function that a character of normal text leads to. */
  function Entered(ch: char): (st: State)
    ensures ContextOf(st) == Begin(ch) && st != Stop && st != ParseParameter
  {
    match ch
    case '\'' => ParseQuote
    case '"' => ParseDoubleQuote
    case '[' => ParseBracket
    case '-' => ParseLineComment
    case '/' => ParseComment
    case _ => ParseNormal
  }

  /** What a run will return from text written so far and tokens still to come. */
  function Outcome(w: string, count: nat, max: int, ts: seq<Token>): (string, int) {
    (w + Render(ts, count), MaxOf(max, Numbers(ts, count)))
  }

  lemma OutcomeText(w: string, count: nat, max: int, ch: char, ts: seq<Token>)
    ensures Outcome(w, count, max, [Text(ch)] + ts) == Outcome(w + [ch], count, max, ts)
  {
    assert ([Text(ch)] + ts)[1..] == ts;
    assert [] + Numbers(ts, count) == Numbers(ts, count);
    Assoc(w, [ch], Render(ts, count));
  }

  lemma SignIsDropped(w: string, count: nat, max: int, s: string)
    requires s != [] && StartsMarker(Normal, s)
    ensures var k := DigitRun(s[1..]);
      Outcome(w, count, max, Lex(Normal, s)) ==
      Outcome(w, count, max, [Marker('?', s[1..][..k])] + Lex(Normal, s[1..][k..]))
  {
    var k := DigitRun(s[1..]);
    var rest := Lex(Normal, s[1..][k..]);
    var t, u := Marker(s[0], s[1..][..k]), Marker('?', s[1..][..k]);
    assert ([t] + rest)[1..] == rest == ([u] + rest)[1..];
    assert RenderToken(t, count) == RenderToken(u, count) && TokenNumbers(t, count) == TokenNumbers(u, count);
  }

  lemma OutcomeMarker(w: string, count: nat, max: int, ds: string, ts: seq<Token>)
    ensures var t := Marker('?', ds);
      var n := Number(t, count);
      Outcome(w, count, max, [t] + ts) ==
      Outcome(w + ("@p" + Itoa(n)), NextCount(t, count), if n > max then n else max, ts)
  {
    var t := Marker('?', ds);
    assert ([t] + ts)[1..] == ts;
    Assoc(w, RenderToken(t, count), Render(ts, NextCount(t, count)));
    assert ([Number(t, count)] + Numbers(ts, NextCount(t, count)))[1..] == Numbers(ts, NextCount(t, count));
  }

  lemma {:induction false} OnlyDigitsCount(acc: int, s: string)
    decreases s
    ensures Accumulate(acc, s[..DigitRun(s)]) == Accumulate(acc, s)
  {
    if s != [] && IsDigit(s[0]) {
      OnlyDigitsCount(Wrap(acc * 10 + DigitValue(s[0])), s[1..]);
      assert s[..DigitRun(s)][1..] == s[1..][..DigitRun(s[1..])];
    }
  }

  class Parser {
    const src: string
    var pos: nat
    var readLast: bool  // the last operation on the reader was a successful read
    var w: string
    var paramCount: nat
    var paramMax: int

    constructor (src: string)
      ensures this.src == src && pos == 0 && w == [] && paramCount == 0 && paramMax == 0
    {
      this.src, pos, readLast, w, paramCount, paramMax := src, 0, false, [], 0, 0;
    }

    ghost predicate Valid()
      reads this
    {
      pos <= |src|
    }

    // What the run will return if it goes on from position `i` in context `c`.
    ghost function Then(c: Context, i: nat): (string, int)
      reads this`w, this`paramCount, this`paramMax
      requires i <= |src|
    {
      Outcome(w, paramCount, paramMax, Lex(c, src[i..]))
    }

    ghost function ThenIn(st: State): (string, int)
      reads this
      requires Valid()
    {
      if st == ParseParameter then
        var k := DigitRun(src[pos..]);
        Outcome(w, paramCount, paramMax, [Marker('?', src[pos..][..k])] + Lex(Normal, src[pos..][k..]))
      else Then(ContextOf(st), pos)
    }

    // At the end of the query the context no longer matters.
    lemma AtEnd(c: Context)
      ensures Then(c, |src|) == Then(Normal, |src|)
    {
    }

    // A character that does not continue what the last one began is read as in normal text.
    lemma AsNormal(c: Context)
      requires pos < |src| && Open(c) && After(c, src[pos]) == After(Normal, src[pos])
      ensures Then(c, pos) == Then(Normal, pos)
    {
      assert src[pos..][0] == src[pos];
      assert Lex(c, src[pos..]) == Lex(Normal, src[pos..]);
    }

    // Where a marker starts, reading goes on with its digits whatever its sign.
    lemma AtMarker()
      requires 0 < pos <= |src| && StartsMarker(Normal, src[pos - 1..])
      ensures ThenIn(ParseParameter) == Then(Normal, pos - 1)
    {
      assert src[pos - 1..][1..] == src[pos..];
      SignIsDropped(w, paramCount, paramMax, src[pos - 1..]);
    }

    method Next() returns (ch: char, ok: bool)
      requires Valid()
      modifies this`pos, this`readLast
      ensures Valid() && ok == (old(pos) < |src|) && readLast == ok
      ensures ok ==> ch == src[old(pos)] && pos == old(pos) + 1
      ensures !ok ==> pos == old(pos) == |src|
    {
      if pos == |src| {
        readLast := false;
        return '\0', false;
      }
      ch, ok, pos, readLast := src[pos], true, pos + 1, true;
    }

    /** Pushes back the rune just read; only one can be pushed back. */
    method Unread()
      requires Valid() && readLast && pos > 0
      modifies this`pos, this`readLast
      ensures Valid() && pos == old(pos) - 1
    {
      pos, readLast := pos - 1, false;
    }

    /** Copies to the output a character that starts no marker in context `c`. */
    method Copy(ch: char, ghost c: Context)
      requires 0 < pos <= |src| && ch == src[pos - 1] && !StartsMarker(c, src[pos - 1..])
      modifies this`w
      ensures Then(After(c, ch), pos) == old(Then(c, pos - 1))
    {
      ghost var s := src[pos - 1..];
      assert s[1..] == src[pos..];
      TextStep(c, s);
      OutcomeText(w, paramCount, paramMax, ch, Lex(After(c, ch), src[pos..]));
      w := w + [ch];
    }

    // What every state function keeps: the run goes on to the same result, one character or state ahead.
    twostate predicate Steps(st: State, next: State)
      reads this
    {
      old(Valid()) && Valid() && old(pos) <= pos && (next == Stop ==> pos == |src|)
      && ThenIn(next) == old(ThenIn(st))
      && (next != Stop ==> old(pos) < pos || (st != ParseNormal && next == ParseNormal))
    }

    /** Looks at the next character: whether it is a digit, and whether there is none. */
    method Peek() returns (digit: bool, ended: bool)
      requires Valid()
      modifies this`pos, this`readLast
      ensures Valid() && pos == old(pos) && ended == (pos == |src|)
      ensures digit <==> pos < |src| && '0' <= src[pos] <= '9'
    {
      var ch, ok := Next();
      if !ok {
        return false, true;
      }
      Unread();
      return '0' <= ch <= '9', false;
    }

    // A '?', or a '$' or ':' before a digit, and nothing else is a marker.
    lemma MarkerIs(i: nat)
      requires i < |src|
      ensures StartsMarker(Normal, src[i..]) <==>
        src[i] == '?' || ((src[i] == '$' || src[i] == ':') && i + 1 < |src| && IsDigit(src[i + 1]))
    {
    }

    lemma InText(st: State)
      requires Valid() && st != ParseParameter
      ensures ThenIn(st) == Then(ContextOf(st), pos)
    {
    }

    method ParseNormalText() returns (next: State)
      requires Valid()
      modifies this
      ensures Steps(ParseNormal, next)
    {
      hide Then, ThenIn, Outcome, Lex, StartsMarker, Entered, Begin;
      InText(ParseNormal);
      while true
        invariant Valid() && old(pos) <= pos && Then(Normal, pos) == old(Then(Normal, pos))
        decreases |src| - pos
      {
        var ch, ok := Next();
        if !ok {
          InText(Stop);
          return Stop;
        }
        MarkerIs(pos - 1);
        if ch == '?' {
          AtMarker();
          return ParseParameter;
        } else if ch == '$' || ch == ':' {
          var digit, ended := Peek();
          if ended {
            Copy(ch, Normal);
            AtEnd(Begin(ch));
            InText(Stop);
            return Stop;
          }
          if digit {
            AtMarker();
            return ParseParameter;
          }
        }
        Copy(ch, Normal);
        next := Entered(ch);
        if next != ParseNormal {
          InText(next);
          return;
        }
      }
    }

    /** Reads the digits of a marker; `ok` says whether a character followed them. */
    method ReadNumber() returns (paramN: int, ok: bool)
      requires Valid()
      modifies this`pos, this`readLast
      ensures Valid() && ok == (pos < |src|)
      ensures var s := src[old(pos)..]; pos == old(pos) + DigitRun(s) && paramN == Accumulate(0, s[..DigitRun(s)])
    {
      ghost var s := src[pos..];
      OnlyDigitsCount(0, s);
      paramN, ok := 0, true;
      while true
        invariant Valid() && old(pos) <= pos
        invariant pos + DigitRun(src[pos..]) == old(pos) + DigitRun(s)
        invariant Accumulate(paramN, src[pos..]) == Accumulate(0, s)
        decreases |src| - pos
      {
        ghost var rest := src[pos..];
        var ch;
        ch, ok := Next();
        if ok && '0' <= ch <= '9' {
          assert rest[1..] == src[pos..];
          paramN := Wrap(paramN * 10 + DigitValue(ch));
        } else {
          break;
        }
      }
      if ok {
        Unread();
      }
    }

    method ParseParameterNumber() returns (next: State)
      requires Valid()
      modifies this
      ensures Steps(ParseParameter, next)
    {
      hide Lex, Outcome, Itoa, Accumulate, DigitRun;
      ghost var s := src[pos..];
      ghost var k := DigitRun(s);
      var paramN, ok := ReadNumber();
      assert s[k..] == src[pos..];
      OutcomeMarker(w, paramCount, paramMax, s[..k], Lex(Normal, s[k..]));
      if paramN == 0 {
        paramCount := paramCount + 1;
        paramN := paramCount;
      }
      if paramN > paramMax {
        paramMax := paramN;
      }
      w := w + ("@p" + Itoa(paramN));
      next := if ok then ParseNormal else Stop;
    }

    method ParseQuoted() returns (next: State)
      requires Valid()
      modifies this
      ensures Steps(ParseQuote, next)
    {
      hide Then, Outcome, Lex;
      while true
        invariant Valid() && old(pos) <= pos && Then(Quote, pos) == old(Then(Quote, pos))
        decreases |src| - pos
      {
        var ch, ok := Next();
        if !ok {
          AtEnd(Quote);
          return Stop;
        }
        Copy(ch, Quote);
        if ch == '\'' {
          return ParseNormal;
        }
      }
    }

    method ParseDoubleQuoted() returns (next: State)
      requires Valid()
      modifies this
      ensures Steps(ParseDoubleQuote, next)
    {
      hide Then, Outcome, Lex;
      while true
        invariant Valid() && old(pos) <= pos && Then(DoubleQuote, pos) == old(Then(DoubleQuote, pos))
        decreases |src| - pos
      {
        var ch, ok := Next();
        if !ok {
          AtEnd(DoubleQuote);
          return Stop;
        }
        Copy(ch, DoubleQuote);
        if ch == '"' {
          return ParseNormal;
        }
      }
    }

    method ParseBracketed() returns (next: State)
      requires Valid()
      modifies this
      ensures Steps(ParseBracket, next)
    {
      hide Then, Outcome, Lex;
      while true
        invariant Valid() && old(pos) <= pos && Then(Bracket, pos) == old(Then(Bracket, pos))
        decreases |src| - pos
      {
        var ch, ok := Next();
        if !ok {
          AtEnd(Bracket);
          return Stop;
        }
        Copy(ch, Bracket);
        if ch == ']' {
          ch, ok := Next();
          if !ok {
            AtEnd(BracketEnd);
            return Stop;
          }
          if ch != ']' {
            Unread();
            AsNormal(BracketEnd);
            return ParseNormal;
          }
          Copy(ch, BracketEnd);
        }
      }
    }

    method ParseLineCommentText() returns (next: State)
      requires Valid()
      modifies this
      ensures Steps(ParseLineComment, next)
    {
      hide Then, Outcome, Lex;
      var ch, ok := Next();
      if !ok {
        AtEnd(Dash);
        return Stop;
      }
      if ch != '-' {
        Unread();
        AsNormal(Dash);
        return ParseNormal;
      }
      Copy(ch, Dash);
      while true
        invariant Valid() && old(pos) < pos && Then(LineComment, pos) == old(Then(Dash, pos))
        decreases |src| - pos
      {
        ch, ok := Next();
        if !ok {
          AtEnd(LineComment);
          return Stop;
        }
        Copy(ch, LineComment);
        if ch == '\n' {
          return ParseNormal;
        }
      }
    }

    /** The characters from `first` on while they are stars; a slash among them ends a comment. */
    method ReadStars(first: char, level: nat) returns (ch: char, nested: nat, over: bool, next: State)
      requires Valid()
      modifies this`pos, this`readLast, this`w
      ensures Valid() && old(pos) <= pos
      ensures !over ==> ch != '*' && Then(After(Comment(nested), ch), pos) == old(Then(After(Comment(level), first), pos))
      ensures over ==> Then(Normal, pos) == old(Then(After(Comment(level), first), pos))
      ensures over ==> (next == Stop && pos == |src|) || (next == ParseNormal && old(pos) < pos)
    {
      hide Then, Outcome, Lex, Begin;
      ghost var goal := Then(After(Comment(level), first), pos);
      ch, nested := first, level;
      while ch == '*'
        invariant old(pos) <= pos <= |src| && Then(After(Comment(nested), ch), pos) == goal
        decreases |src| - pos
      {
        var ok;
        ch, ok := Next();
        if !ok {
          AtEnd(CommentStar(nested));
          return ch, nested, true, Stop;
        }
        Copy(ch, CommentStar(nested));
        if ch == '/' {
          if nested == 0 {
            return ch, nested, true, ParseNormal;
          } else {
            nested := nested - 1;
          }
        }
      }
      over, next := false, ParseComment;
    }

    /** The characters from `first` on while they are slashes; a star after one opens another comment. */
    method ReadSlashes(first: char, level: nat) returns (nested: nat, over: bool)
      requires Valid() && first != '*'
      modifies this`pos, this`readLast, this`w
      ensures Valid() && old(pos) <= pos
      ensures !over ==> Then(Comment(nested), pos) == old(Then(After(Comment(level), first), pos))
      ensures over ==> Then(Normal, pos) == old(Then(After(Comment(level), first), pos)) && pos == |src|
    {
      hide Then, Outcome, Lex, Begin;
      ghost var goal := Then(After(Comment(level), first), pos);
      var ch := first;
      nested := level;
      while ch == '/'
        invariant old(pos) <= pos <= |src|
        invariant Then(if ch == '/' then CommentSlash(nested) else Comment(nested), pos) == goal
        decreases |src| - pos
      {
        var ok;
        ch, ok := Next();
        if !ok {
          AtEnd(CommentSlash(nested));
          return nested, true;
        }
        Copy(ch, CommentSlash(nested));
        if ch == '*' {
          nested := nested + 1;
        }
      }
      over := false;
    }

    method ParseCommentText() returns (next: State)
      requires Valid()
      modifies this
      ensures Steps(ParseComment, next)
    {
      hide Then, Outcome, Lex, Begin;
      ghost var goal := Then(Slash, pos);
      var nested: nat := 0;
      var ch, ok := Next();
      if !ok {
        AtEnd(Slash);
        return Stop;
      }
      if ch != '*' {
        Unread();
        AsNormal(Slash);
        return ParseNormal;
      }
      Copy(ch, Slash);
      while true
        invariant old(pos) < pos <= |src| && Then(Comment(nested), pos) == goal
        decreases |src| - pos
      {
        ch, ok := Next();
        if !ok {
          AtEnd(Comment(nested));
          return Stop;
        }
        Copy(ch, Comment(nested));
        var over;
        ch, nested, over, next := ReadStars(ch, nested);
        if over {
          return;
        }
        nested, over := ReadSlashes(ch, nested);
        if over {
          return Stop;
        }
      }
    }

    method Run(st: State) returns (next: State)
      requires Valid() && st != Stop
      modifies this
      ensures Steps(st, next)
    {
      hide Steps;
      match st {
        case ParseNormal => next := ParseNormalText();
        case ParseParameter => next := ParseParameterNumber();
        case ParseQuote => next := ParseQuoted();
        case ParseDoubleQuote => next := ParseDoubleQuoted();
        case ParseBracket => next := ParseBracketed();
        case ParseLineComment => next := ParseLineCommentText();
        case ParseComment => next := ParseCommentText();
      }
    }
  }

  /** The state functions, push-back and all, compute the one-pass rewriting, and always finish. */
  method ParseParams(query: string) returns (text: string, max: int)
    ensures (text, max) == Rewritten(query)
  {
    var p := new Parser(query);
    var state := ParseNormal;
    assert query[0..] == query && [] + Render(Lex(Normal, query), 0) == Render(Lex(Normal, query), 0);
    while state != Stop
      invariant p.Valid() && p.src == query && p.ThenIn(state) == Rewritten(query)
      invariant state == Stop ==> p.pos == |query|
      decreases |query| - p.pos, if state == Stop then 0 else if state == ParseNormal then 1 else 2
    {
      state := p.Run(state);
    }
    assert query[|query|..] == [] && p.w + [] == p.w;
    text, max := p.w, p.paramMax;
  }
}
