/** What a query is made of, and what becomes of each part: the rewriting, said without the rewriter. */
module QuerySegments {
  import opened Bytes
  import opened DecimalText
  import opened ParamRewriter

  // ---------- segments ----------

  /** Only the last segment of a query may be left open. */
  datatype Segment =
    | Char(ch: char)
    | Mark(sign: char, digits: string)
    | Quoted(body: string, closed: bool)         // '...'
    | DoubleQuoted(body: string, closed: bool)   // "..."
    | Bracketed(body: string, closed: bool)      // [...], a ']' of the name written twice
    | LineRemark(body: string, closed: bool)     // --... up to the end of the line
    | Remark(items: seq<Item>, closed: bool)     // /*...*/, with others inside

  // An inner comment that starts with the '/' that ended another one before it is shared.
  datatype Item = Ch(ch: char) | Inner(items: seq<Item>, shared: bool, closed: bool)

  function Doubled(name: string): string {
    if name == [] then []
    else (if name[0] == ']' then "]]" else [name[0]]) + Doubled(name[1..])
  }

  function SpellItem(i: Item): string {
    match i
    case Ch(ch) => [ch]
    case Inner(items, shared, closed) =>
      (if shared then "*" else "/*") + SpellItems(items) + if closed then "*/" else ""
  }

  function SpellItems(items: seq<Item>): string {
    if items == [] then "" else SpellItem(items[0]) + SpellItems(items[1..])
  }

  function SpellOne(g: Segment): string {
    match g
    case Char(ch) => [ch]
    case Mark(sign, digits) => [sign] + digits
    case Quoted(body, closed) => "'" + body + if closed then "'" else ""
    case DoubleQuoted(body, closed) => "\"" + body + if closed then "\"" else ""
    case Bracketed(body, closed) => "[" + Doubled(body) + if closed then "]" else ""
    case LineRemark(body, closed) => "--" + body + if closed then "\n" else ""
    case Remark(items, closed) => "/*" + SpellItems(items) + if closed then "*/" else ""
  }

  function Spell(gs: seq<Segment>): string {
    if gs == [] then "" else SpellOne(gs[0]) + Spell(gs[1..])
  }

  // ---------- which segments may follow each other ----------

  // What stands before a character of a comment.
  datatype Spot = Anything | AStar | ASlash | AnEnd

  function SpotAfter(i: Item): Spot {
    match i
    case Ch(ch) => if ch == '*' then AStar else if ch == '/' then ASlash else Anything
    case Inner(_, _, _) => AnEnd
  }

  /** A '*' does not follow a '/', nor a '/' a '*': those begin and end comments. */
  predicate WellFormed(spot: Spot, items: seq<Item>, closed: bool)
    decreases items
  {
    if items == [] then closed ==> spot == Anything || spot == AStar
    else
      var i := items[0];
      (match i
       case Ch(ch) => (ch == '*' ==> spot != ASlash && spot != AnEnd) && (ch == '/' ==> spot != AStar)
       case Inner(inner, shared, over) =>
         && (if shared then spot == AnEnd else spot != AStar)
         && (over || (|items| == 1 && !closed)) && WellFormed(Anything, inner, over))
      && WellFormed(SpotAfter(i), items[1..], closed)
  }

  // What stands before a segment.
  datatype Place = Plain | Dashed | Slashed | AfterName

  function PlaceAfter(g: Segment): Place {
    match g
    case Char(ch) => if ch == '-' then Dashed else if ch == '/' then Slashed else Plain
    case Bracketed(_, _) => AfterName
    case _ => Plain
  }

  predicate Fits(p: Place, g: Segment) {
    match g
    case Char(ch) =>
      && ch != '\'' && ch != '"' && ch != '[' && ch != '?'
      && !(p == Dashed && ch == '-') && !(p == Slashed && ch == '*') && !(p == AfterName && ch == ']')
    case Mark(sign, digits) =>
      AllDigits(digits) && (sign == '?' || ((sign == '$' || sign == ':') && digits != []))
    case Quoted(body, _) => '\'' !in body
    case DoubleQuoted(body, _) => '"' !in body
    case Bracketed(_, _) => true
    case LineRemark(body, _) => p != Dashed && '\n' !in body
    case Remark(items, closed) => WellFormed(Anything, items, closed)
  }

  predicate Ended(g: Segment) { g.Char? || g.Mark? || g.closed }

  // A digit belongs to the marker before it, and makes one of a '$' or ':'.
  predicate TakesDigits(g: Segment) { g.Mark? || (g.Char? && (g.ch == '$' || g.ch == ':')) }

  predicate DigitNext(gs: seq<Segment>) { gs != [] && gs[0].Char? && IsDigit(gs[0].ch) }

  predicate Valid(p: Place, gs: seq<Segment>)
    decreases gs
  {
    gs != [] ==>
      && Fits(p, gs[0]) && (Ended(gs[0]) || |gs| == 1) && !(TakesDigits(gs[0]) && DigitNext(gs[1..]))
      && Valid(PlaceAfter(gs[0]), gs[1..])
  }

  // ---------- what the rewriting does to them ----------

  /** The number a marker writes, in a 64-bit int; without one, or with zero, the next of its own count. */
  function Chosen(digits: string, count: nat): int
    requires AllDigits(digits)
  {
    var n := (Value(digits) + 0x8000_0000_0000_0000) % 0x1_0000_0000_0000_0000 - 0x8000_0000_0000_0000;
    if n == 0 then count + 1 else n
  }

  function Counted(g: Segment, count: nat): nat {
    if g.Mark? && AllDigits(g.digits) && Value(g.digits) % 0x1_0000_0000_0000_0000 == 0 then count + 1 else count
  }

  /** Everything as it was, but for the markers. */
  function Out(p: Place, gs: seq<Segment>, count: nat): string
    requires Valid(p, gs)
    decreases gs
  {
    if gs == [] then ""
    else
      (if gs[0].Mark? then "@p" + Itoa(Chosen(gs[0].digits, count)) else SpellOne(gs[0]))
      + Out(PlaceAfter(gs[0]), gs[1..], Counted(gs[0], count))
  }

  function Used(p: Place, gs: seq<Segment>, count: nat): seq<int>
    requires Valid(p, gs)
    decreases gs
  {
    if gs == [] then []
    else
      (if gs[0].Mark? then [Chosen(gs[0].digits, count)] else [])
      + Used(PlaceAfter(gs[0]), gs[1..], Counted(gs[0], count))
  }

  lemma WrapStep(a: int, b: nat)
    ensures Wrap(Wrap(a) * 10 + b) == Wrap(a * 10 + b)
  {
    var q := (a + TWO63) / TWO64;
    assert Wrap(a) == a - q * TWO64;
    var x, m := a * 10 + b + TWO63, TWO64;
    assert Wrap(a) * 10 + b + TWO63 == x - 10 * q * m;
    ModOf(x - 10 * q * m, x / m - 10 * q, m, x % m);
  }

  lemma {:induction false} AccumulateEnd(acc: int, ds: string, d: char)
    requires AllDigits(ds) && IsDigit(d)
    ensures Accumulate(acc, ds + [d]) == Wrap(Accumulate(acc, ds) * 10 + DigitValue(d))
    decreases ds
  {
    if ds == [] {
      assert ds + [d] == [d] && [d][1..] == [];
    } else {
      assert (ds + [d])[1..] == ds[1..] + [d];
      AccumulateEnd(Wrap(acc * 10 + DigitValue(ds[0])), ds[1..], d);
    }
  }

  /** The loop over the digits computes the number that they denote, in a 64-bit int. */
  lemma {:induction false} AccumulateIsValue(ds: string)
    requires AllDigits(ds)
    ensures Accumulate(0, ds) == Wrap(Value(ds))
  {
    if ds != [] {
      var init, d := ds[..|ds| - 1], ds[|ds| - 1];
      assert ds == init + [d];
      AccumulateIsValue(init);
      AccumulateEnd(0, init, d);
      WrapStep(Value(init), DigitValue(d));
    }
  }

  lemma ZeroWraps(n: nat)
    ensures Wrap(n) == 0 <==> n % TWO64 == 0
  {
  }

  function Tokens(gs: seq<Segment>): seq<Token> {
    if gs == [] then [] else OfOne(gs[0]) + Tokens(gs[1..])
  }

  function OfOne(g: Segment): seq<Token> {
    if g.Mark? then [Marker(g.sign, g.digits)] else Texts(SpellOne(g))
  }

  lemma RenderText(ch: char, ts: seq<Token>, count: nat)
    ensures Render([Text(ch)] + ts, count) == [ch] + Render(ts, count)
    ensures Numbers([Text(ch)] + ts, count) == Numbers(ts, count)
  {
    assert ([Text(ch)] + ts)[1..] == ts;
    assert [] + Numbers(ts, count) == Numbers(ts, count);
  }

  lemma {:induction false} RenderTexts(t: string, ts: seq<Token>, count: nat)
    ensures Render(Texts(t) + ts, count) == t + Render(ts, count)
    ensures Numbers(Texts(t) + ts, count) == Numbers(ts, count)
  {
    if t == [] {
      assert [] + ts == ts && t + Render(ts, count) == Render(ts, count);
    } else {
      RenderTexts(t[1..], ts, count);
      var more := Texts(t[1..]) + ts;
      assert Texts(t) + ts == [Text(t[0])] + more;
      hide Render, Numbers, Texts;
      RenderText(t[0], more, count);
      Assoc([t[0]], t[1..], Render(ts, count));
      assert [t[0]] + t[1..] == t;
    }
  }

  lemma MarkRender(t: Token, ts: seq<Token>, count: nat)
    requires t.Marker?
    ensures Render([t] + ts, count) == "@p" + Itoa(Number(t, count)) + Render(ts, NextCount(t, count))
    ensures Numbers([t] + ts, count) == [Number(t, count)] + Numbers(ts, NextCount(t, count))
  {
    assert ([t] + ts)[1..] == ts;
  }

  lemma MarkCounts(p: Place, g: Segment, count: nat)
    requires Fits(p, g) && g.Mark?
    ensures var t := Marker(g.sign, g.digits);
      AllDigits(g.digits) && Number(t, count) == Chosen(g.digits, count) && NextCount(t, count) == Counted(g, count)
  {
    AccumulateIsValue(g.digits);
    ZeroWraps(Value(g.digits));
  }

  lemma TextCounts(g: Segment, count: nat)
    requires !g.Mark?
    ensures Counted(g, count) == count
  {
  }

  /** The tokens of a query give the output and the numbers that its segments call for. */
  lemma {:induction false} TokensGiveOut(p: Place, gs: seq<Segment>, count: nat)
    requires Valid(p, gs)
    ensures Render(Tokens(gs), count) == Out(p, gs, count) && Numbers(Tokens(gs), count) == Used(p, gs, count)
    decreases gs
  {
    if gs != [] {
      var g, ts := gs[0], Tokens(gs[1..]);
      TokensGiveOut(PlaceAfter(g), gs[1..], Counted(g, count));
      hide Fits, Chosen, Counted, SpellOne, Texts, Itoa, PlaceAfter;
      if g.Mark? {
        MarkCounts(p, g, count);
        MarkRender(Marker(g.sign, g.digits), ts, count);
      } else {
        TextCounts(g, count);
        RenderTexts(SpellOne(g), ts, count);
        assert [] + Used(PlaceAfter(g), gs[1..], count) == Used(PlaceAfter(g), gs[1..], count);
      }
    }
  }

  // ---------- how they are read ----------

  // Where reading a text that holds no marker leads.
  function Walk(c: Context, t: string): Option<Context>
    decreases t
  {
    if t == [] then Some(c)
    else if Open(c) && (t[0] == '?' || t[0] == '$' || t[0] == ':') then None
    else Walk(After(c, t[0]), t[1..])
  }

  lemma {:induction false} WalkConcat(c: Context, a: string, b: string)
    requires Walk(c, a).Some?
    ensures Walk(c, a + b) == Walk(Walk(c, a).value, b)
    decreases a
  {
    if a == [] {
      assert a + b == b;
    } else {
      assert (a + b)[0] == a[0] && (a + b)[1..] == a[1..] + b;
      WalkConcat(After(c, a[0]), a[1..], b);
    }
  }

  lemma {:induction false} WalkLex(c: Context, t: string, rest: string)
    requires Walk(c, t).Some?
    ensures Lex(c, t + rest) == Texts(t) + Lex(Walk(c, t).value, rest)
    decreases t
  {
    hide Lex, After;
    if t == [] {
      assert t + rest == rest && [] + Lex(c, rest) == Lex(c, rest);
    } else {
      var s := t + rest;
      assert s[0] == t[0] && s[1..] == t[1..] + rest;
      WalkLex(After(c, t[0]), t[1..], rest);
      TextStep(c, s);
      Assoc([Text(t[0])], Texts(t[1..]), Lex(Walk(c, t).value, rest));
    }
  }

  // The character is not the first of a marker.
  predicate Passes(c: Context, ch: char) { !Open(c) || (ch != '?' && ch != '$' && ch != ':') }

  lemma WalkOne(c: Context, ch: char)
    requires Passes(c, ch)
    ensures Walk(c, [ch]) == Some(After(c, ch))
  {
    assert [ch][1..] == [];
  }

  lemma WalkTwo(c: Context, a: char, b: char)
    requires Passes(c, a) && Passes(After(c, a), b)
    ensures Walk(c, [a, b]) == Some(After(After(c, a), b))
  {
    WalkOne(c, a);
    WalkOne(After(c, a), b);
    assert [a] + [b] == [a, b];
    WalkConcat(c, [a], [b]);
  }

  lemma {:induction false} StaysQuoted(body: string)
    ensures '\'' !in body ==> Walk(Quote, body) == Some(Quote)
    ensures '"' !in body ==> Walk(DoubleQuote, body) == Some(DoubleQuote)
    ensures '\n' !in body ==> Walk(LineComment, body) == Some(LineComment)
    ensures Walk(Bracket, Doubled(body)) == Some(Bracket)
  {
    if body != [] {
      StaysQuoted(body[1..]);
      var first := if body[0] == ']' then "]]" else [body[0]];
      if body[0] == ']' {
        WalkTwo(Bracket, ']', ']');
      } else {
        WalkOne(Bracket, body[0]);
      }
      WalkConcat(Bracket, first, Doubled(body[1..]));
    }
  }

  function InComment(spot: Spot, n: nat): Context {
    match spot case Anything => Comment(n) case AStar => CommentStar(n) case _ => CommentSlash(n)
  }

  predicate MayEnd(c: Context, n: nat) { c == Comment(n) || c == CommentStar(n) }

  /** The characters of a comment's items keep the reader at their level, ready for what may follow. */
  lemma {:induction false} ItemsWalk(spot: Spot, items: seq<Item>, closed: bool, n: nat)
    requires WellFormed(spot, items, closed)
    ensures var w := Walk(InComment(spot, n), SpellItems(items)); w.Some? && (closed ==> MayEnd(w.value, n))
    decreases items
  {
    hide Walk;
    var c := InComment(spot, n);
    if items == [] {
      NoWalk(c);
    } else {
      var i, rest := items[0], SpellItems(items[1..]);
      ItemsWalk(SpotAfter(i), items[1..], closed, n);
      if i.Ch? {
        WalkOne(c, i.ch);
        WalkConcat(c, [i.ch], rest);
      } else {
        ItemsWalk(Anything, i.items, i.closed, n + 1);
        InnerWalk(spot, i, n);
        WalkConcat(c, SpellItem(i), rest);
        NoWalk(Walk(c, SpellItem(i)).value);
      }
    }
  }

  lemma NoWalk(c: Context)
    ensures Walk(c, []) == Some(c)
  {
  }

  lemma InnerWalk(spot: Spot, i: Item, n: nat)
    requires i.Inner? && if i.shared then spot == AnEnd else spot != AStar
    requires var w := Walk(Comment(n + 1), SpellItems(i.items)); w.Some? && (i.closed ==> MayEnd(w.value, n + 1))
    ensures var w := Walk(InComment(spot, n), SpellItem(i)); w.Some? && (i.closed ==> w.value == CommentSlash(n))
  {
    hide Walk;
    var c, body := InComment(spot, n), SpellItems(i.items);
    var head, tail := if i.shared then "*" else "/*", if i.closed then "*/" else "";
    if i.shared {
      WalkOne(c, '*');
    } else {
      WalkTwo(c, '/', '*');
    }
    WalkConcat(c, head, body);
    var w := Walk(c, head + body).value;
    WalkConcat(c, head + body, tail);
    if i.closed {
      WalkTwo(w, '*', '/');
    } else {
      NoWalk(w);
    }
  }

  function InText(p: Place): Context {
    match p case Plain => Normal case Dashed => Dash case Slashed => Slash case AfterName => BracketEnd
  }

  lemma TextIsOpen(p: Place)
    ensures Open(InText(p)) && After(InText(p), '/') == Slash
  {
  }

  lemma RemarkWalks(p: Place, items: seq<Item>, closed: bool)
    requires WellFormed(Anything, items, closed)
    ensures var w := Walk(InText(p), SpellOne(Remark(items, closed))); w.Some? && (closed ==> w.value == Normal)
  {
    hide Walk, WellFormed, SpellItems, InText;
    var c, body := InText(p), SpellItems(items);
    ItemsWalk(Anything, items, closed, 0);
    assert Open(c) && After(c, '/') == Slash by { TextIsOpen(p); }
    WalkTwo(c, '/', '*');
    WalkConcat(c, "/*", body);
    var w := Walk(c, "/*" + body).value;
    WalkConcat(c, "/*" + body, if closed then "*/" else "");
    if closed {
      WalkTwo(w, '*', '/');
    } else {
      NoWalk(w);
    }
  }

  lemma QuoteWalks(p: Place, g: Segment)
    requires Fits(p, g) && (g.Quoted? || g.DoubleQuoted? || g.Bracketed? || g.LineRemark?)
    ensures var w := Walk(InText(p), SpellOne(g)); w.Some? && (g.closed ==> w.value == InText(PlaceAfter(g)))
  {
    hide Walk, Doubled;
    StaysQuoted(g.body);
    var c := InText(p);
    var head := if g.Quoted? then "'" else if g.DoubleQuoted? then "\"" else if g.Bracketed? then "[" else "--";
    var inside :=
      if g.Quoted? then Quote else if g.DoubleQuoted? then DoubleQuote else if g.Bracketed? then Bracket else LineComment;
    var body := if g.Bracketed? then Doubled(g.body) else g.body;
    var tail :=
      if !g.closed then ""
      else if g.Quoted? then "'" else if g.DoubleQuoted? then "\"" else if g.Bracketed? then "]" else "\n";
    if g.LineRemark? {
      WalkTwo(c, '-', '-');
    } else {
      WalkOne(c, head[0]);
    }
    assert Walk(c, head) == Some(inside);
    WalkConcat(c, head, body);
    WalkConcat(c, head + body, tail);
    if g.closed {
      WalkOne(inside, tail[0]);
    } else {
      NoWalk(inside);
    }
  }

  lemma OneWalks(p: Place, g: Segment)
    requires Fits(p, g) && !g.Char? && !g.Mark?
    ensures var w := Walk(InText(p), SpellOne(g)); w.Some? && (Ended(g) ==> w.value == InText(PlaceAfter(g)))
  {
    hide Walk, SpellOne, WellFormed;
    if g.Remark? {
      RemarkWalks(p, g.items, g.closed);
    } else {
      QuoteWalks(p, g);
    }
  }

  lemma NoDigitFollows(p: Place, gs: seq<Segment>)
    requires Valid(p, gs) && !DigitNext(gs)
    ensures Spell(gs) == [] || !IsDigit(Spell(gs)[0])
  {
  }

  lemma {:induction false} RunEnds(digits: string, rest: string)
    requires AllDigits(digits) && (rest == [] || !IsDigit(rest[0]))
    ensures DigitRun(digits + rest) == |digits|
  {
    if digits == [] {
      assert digits + rest == rest;
    } else {
      assert (digits + rest)[1..] == digits[1..] + rest;
      RunEnds(digits[1..], rest);
    }
  }

  lemma MarkStep(c: Context, s: string)
    requires s != [] && StartsMarker(c, s)
    ensures var k := DigitRun(s[1..]); Lex(c, s) == [Marker(s[0], s[1..][..k])] + Lex(Normal, s[1..][k..])
  {
  }

  lemma MarkLex(c: Context, sign: char, digits: string, rest: string)
    requires Open(c) && Fits(Plain, Mark(sign, digits)) && (rest == [] || !IsDigit(rest[0]))
    ensures Lex(c, [sign] + digits + rest) == [Marker(sign, digits)] + Lex(Normal, rest)
  {
    hide Lex, DigitRun;
    var s := [sign] + digits + rest;
    assert s[1..] == digits + rest && s[0] == sign;
    RunEnds(digits, rest);
    assert s[1..][..|digits|] == digits && s[1..][|digits|..] == rest;
    MarkStep(c, s);
  }

  lemma CharLex(p: Place, ch: char, rest: string)
    requires Fits(p, Char(ch)) && ((ch == '$' || ch == ':') ==> rest == [] || !IsDigit(rest[0]))
    ensures Lex(InText(p), [ch] + rest) == [Text(ch)] + Lex(InText(PlaceAfter(Char(ch))), rest)
  {
    var s := [ch] + rest;
    assert s[1..] == rest && s[0] == ch;
    TextStep(InText(p), s);
  }

  /** The rewriter reads off a query the tokens of its segments. */
  lemma {:induction false} SegmentsLex(p: Place, gs: seq<Segment>)
    requires Valid(p, gs)
    ensures Lex(InText(p), Spell(gs)) == Tokens(gs)
    decreases gs
  {
    if gs != [] {
      hide Lex, Walk, InText, Fits, Valid;
      var g, rest := gs[0], Spell(gs[1..]);
      Unfold(p, gs);
      SegmentsLex(PlaceAfter(g), gs[1..]);
      if TakesDigits(g) {
        NoDigitFollows(PlaceAfter(g), gs[1..]);
      }
      if g.Char? {
        CharLex(p, g.ch, rest);
        OneText(g.ch);
      } else if g.Mark? {
        MarkFits(p, g);
        MarkLex(InText(p), g.sign, g.digits, rest);
      } else {
        OneWalks(p, g);
        WalkLex(InText(p), SpellOne(g), rest);
        if !Ended(g) {
          NoLex(Walk(InText(p), SpellOne(g)).value);
        }
      }
    }
  }

  lemma Unfold(p: Place, gs: seq<Segment>)
    requires Valid(p, gs) && gs != []
    ensures Fits(p, gs[0]) && (Ended(gs[0]) || |gs| == 1) && !(TakesDigits(gs[0]) && DigitNext(gs[1..]))
    ensures Valid(PlaceAfter(gs[0]), gs[1..])
  {
  }

  lemma OneText(ch: char)
    ensures Texts([ch]) == [Text(ch)]
  {
    assert [ch][1..] == [];
  }

  lemma MarkFits(p: Place, g: Segment)
    requires Fits(p, g) && g.Mark?
    ensures Fits(Plain, g) && Open(InText(p)) && InText(PlaceAfter(g)) == Normal
  {
  }

  lemma NoLex(c: Context)
    ensures Lex(c, "") == [] && Tokens([]) == []
  {
  }

  // ---------- every query has segments ----------

  // The text up to the next `ch`, whether there is one, and what follows it.
  function ReadTo(s: string, ch: char): (string, bool, string)
    ensures |ReadTo(s, ch).2| <= |s|
  {
    if s == [] then ("", false, "")
    else if s[0] == ch then ("", true, s[1..])
    else
      var (body, closed, rest) := ReadTo(s[1..], ch);
      ([s[0]] + body, closed, rest)
  }

  lemma {:induction false} ReadToIs(s: string, ch: char)
    ensures var (body, closed, rest) := ReadTo(s, ch);
      s == body + (if closed then [ch] else "") + rest && ch !in body && (closed || rest == "")
  {
    if s != [] && s[0] != ch {
      ReadToIs(s[1..], ch);
      assert s == [s[0]] + s[1..];
    }
  }

  function ReadName(s: string): (string, bool, string)
    ensures var (_, _, rest) := ReadName(s); |rest| <= |s|
  {
    if s == [] then ("", false, "")
    else if s[0] == ']' && (|s| == 1 || s[1] != ']') then ("", true, s[1..])
    else
      var (body, closed, rest) := ReadName(s[if s[0] == ']' then 2 else 1..]);
      ([s[0]] + body, closed, rest)
  }

  lemma DoubledCons(ch: char, name: string)
    ensures Doubled([ch] + name) == (if ch == ']' then "]]" else [ch]) + Doubled(name)
  {
    assert ([ch] + name)[1..] == name;
  }

  lemma {:induction false} NameIsRead(s: string)
    ensures var (body, closed, rest) := ReadName(s);
      s == Doubled(body) + (if closed then "]" else "") + rest && (closed || rest == "") && (rest == [] || rest[0] != ']')
  {
    if s != [] && !(s[0] == ']' && (|s| == 1 || s[1] != ']')) {
      var n := if s[0] == ']' then 2 else 1;
      NameIsRead(s[n..]);
      var (body, closed, rest) := ReadName(s[n..]);
      var end := if closed then "]" else "";
      assert ReadName(s) == ([s[0]] + body, closed, rest);
      hide ReadName;
      DoubledCons(s[0], body);
      var first := if s[0] == ']' then "]]" else [s[0]];
      assert s == first + s[n..];
      Assoc(first, Doubled(body), end);
      Assoc(first, Doubled(body) + end, rest);
    }
  }

  // The items of a comment from here on, whether it ends, and what follows it.
  function ReadItems(spot: Spot, s: string): (seq<Item>, bool, string)
    ensures var (_, _, rest) := ReadItems(spot, s); |rest| <= |s|
    decreases |s|
  {
    if s == [] then ([], false, "")
    else if s[0] == '*' && |s| > 1 && s[1] == '/' && spot != ASlash && spot != AnEnd then ([], true, s[2..])
    else if (s[0] == '*' && spot == AnEnd) || (s[0] == '/' && |s| > 1 && s[1] == '*') then
      var (inner, over, after) := ReadItems(Anything, s[if s[0] == '*' then 1 else 2..]);
      if !over then ([Inner(inner, s[0] == '*', false)], false, "")
      else
        var (items, closed, rest) := ReadItems(AnEnd, after);
        ([Inner(inner, s[0] == '*', true)] + items, closed, rest)
    else
      var (items, closed, rest) := ReadItems(SpotAfter(Ch(s[0])), s[1..]);
      ([Ch(s[0])] + items, closed, rest)
  }

  predicate AreItems(spot: Spot, s: string, items: seq<Item>, closed: bool, rest: string) {
    WellFormed(spot, items, closed) && s == SpellItems(items) + (if closed then "*/" else "") + rest &&
    (closed || rest == "")
  }

  lemma ChJoins(spot: Spot, ch: char, s: string, items: seq<Item>, closed: bool, rest: string)
    requires AreItems(SpotAfter(Ch(ch)), s, items, closed, rest)
    requires (ch == '*' ==> spot != ASlash && spot != AnEnd) && (ch == '/' ==> spot != AStar)
    ensures AreItems(spot, [ch] + s, [Ch(ch)] + items, closed, rest)
  {
    assert ([Ch(ch)] + items)[1..] == items;
    Assoc([ch], SpellItems(items), if closed then "*/" else "");
  }

  lemma InnerJoins(spot: Spot, i: Item, after: string, items: seq<Item>, closed: bool, rest: string)
    requires i.Inner? && (if i.shared then spot == AnEnd else spot != AStar) && WellFormed(Anything, i.items, i.closed)
    requires AreItems(AnEnd, after, items, closed, rest) && (i.closed || (items == [] && !closed))
    ensures AreItems(spot, SpellItem(i) + after, [i] + items, closed, rest)
  {
    assert ([i] + items)[1..] == items;
    hide SpellItem;
    Assoc(SpellItem(i), SpellItems(items), if closed then "*/" else "");
  }

  lemma InnerSpells(i: Item, s: string, after: string)
    requires i.Inner? && AreItems(Anything, s, i.items, i.closed, after)
    ensures SpellItem(i) + after == (if i.shared then "*" else "/*") + s
  {
  }

  lemma EndJoins(spot: Spot, rest: string)
    requires spot != ASlash && spot != AnEnd
    ensures AreItems(spot, "*/" + rest, [], true, rest)
  {
  }

  /** The items of a comment spell it. */
  lemma {:induction false} ItemsAreRead(spot: Spot, s: string)
    requires !(spot == AStar && s != [] && s[0] == '/') && !(spot == ASlash && s != [] && s[0] == '*')
    ensures var (items, closed, rest) := ReadItems(spot, s); AreItems(spot, s, items, closed, rest)
    decreases |s|
  {
    hide SpellItems, SpellItem, WellFormed;
    if s == [] {
      NoItems(spot);
    } else if s[0] == '*' && |s| > 1 && s[1] == '/' && spot != ASlash && spot != AnEnd {
      EndJoins(spot, s[2..]);
      assert s == "*/" + s[2..];
    } else if (s[0] == '*' && spot == AnEnd) || (s[0] == '/' && |s| > 1 && s[1] == '*') {
      var n := if s[0] == '*' then 1 else 2;
      ItemsAreRead(Anything, s[n..]);
      var (inner, over, after) := ReadItems(Anything, s[n..]);
      var i := Inner(inner, s[0] == '*', over);
      InnerSpells(i, s[n..], after);
      assert s == (if i.shared then "*" else "/*") + s[n..];
      if over {
        ItemsAreRead(AnEnd, after);
        var (items, closed, rest) := ReadItems(AnEnd, after);
        InnerJoins(spot, i, after, items, closed, rest);
      } else {
        NoItems(AnEnd);
        InnerJoins(spot, i, "", [], false, "");
        assert [i] + [] == [i];
      }
    } else {
      ItemsAreRead(SpotAfter(Ch(s[0])), s[1..]);
      var (items, closed, rest) := ReadItems(SpotAfter(Ch(s[0])), s[1..]);
      ChJoins(spot, s[0], s[1..], items, closed, rest);
      assert s == [s[0]] + s[1..];
    }
  }

  lemma NoItems(spot: Spot)
    ensures AreItems(spot, [], [], false, [])
  {
  }

  // The first segment of a query from here on, and what follows it.
  function ReadOne(p: Place, s: string): (Segment, string)
    requires s != []
    ensures |ReadOne(p, s).1| < |s|
  {
    var ch, k := s[0], DigitRun(s[1..]);
    if ch == '\'' then
      var (body, closed, rest) := ReadTo(s[1..], ch);
      (Quoted(body, closed), rest)
    else if ch == '"' then
      var (body, closed, rest) := ReadTo(s[1..], ch);
      (DoubleQuoted(body, closed), rest)
    else if ch == '[' then
      var (body, closed, rest) := ReadName(s[1..]);
      (Bracketed(body, closed), rest)
    else if ch == '-' && |s| > 1 && s[1] == '-' then
      var (body, closed, rest) := ReadTo(s[2..], '\n');
      (LineRemark(body, closed), rest)
    else if ch == '/' && |s| > 1 && s[1] == '*' then
      var (items, closed, rest) := ReadItems(Anything, s[2..]);
      (Remark(items, closed), rest)
    else if ch == '?' || ((ch == '$' || ch == ':') && k > 0) then (Mark(ch, s[1..][..k]), s[1..][k..])
    else (Char(ch), s[1..])
  }

  // Two characters that make no plain text next to each other.
  predicate Bars(p: Place, ch: char) {
    (p == Dashed && ch == '-') || (p == Slashed && ch == '*') || (p == AfterName && ch == ']')
  }

  predicate IsFirst(p: Place, s: string, g: Segment, rest: string) {
    && Fits(p, g) && SpellOne(g) + rest == s && (Ended(g) || rest == [])
    && !(rest != [] && ((TakesDigits(g) && IsDigit(rest[0])) || Bars(PlaceAfter(g), rest[0])))
  }

  lemma QuoteIsRead(p: Place, s: string)
    requires s != [] && (s[0] == '\'' || s[0] == '"')
    ensures var (g, rest) := ReadOne(p, s); IsFirst(p, s, g, rest)
  {
    hide ReadTo;
    ReadToIs(s[1..], s[0]);
    assert s == [s[0]] + s[1..];
  }

  lemma NameIsFirst(p: Place, s: string)
    requires s != [] && s[0] == '['
    ensures var (g, rest) := ReadOne(p, s); IsFirst(p, s, g, rest)
  {
    NameIsRead(s[1..]);
    assert s == "[" + s[1..];
  }

  lemma LineRemarkIsFirst(p: Place, s: string)
    requires |s| > 1 && s[0] == '-' && s[1] == '-' && p != Dashed
    ensures var (g, rest) := ReadOne(p, s); IsFirst(p, s, g, rest)
  {
    hide ReadTo;
    ReadToIs(s[2..], '\n');
    assert s == "--" + s[2..];
  }

  lemma RemarkIsFirst(p: Place, s: string)
    requires |s| > 1 && s[0] == '/' && s[1] == '*'
    ensures var (g, rest) := ReadOne(p, s); IsFirst(p, s, g, rest)
  {
    hide ReadItems, SpellItems, WellFormed;
    ItemsAreRead(Anything, s[2..]);
    assert s == "/*" + s[2..];
  }

  lemma MarkIsFirst(p: Place, s: string)
    requires s != [] && (s[0] == '?' || ((s[0] == '$' || s[0] == ':') && |s| > 1 && IsDigit(s[1])))
    ensures var (g, rest) := ReadOne(p, s); IsFirst(p, s, g, rest)
  {
    var k := DigitRun(s[1..]);
    assert s == [s[0]] + s[1..][..k] + s[1..][k..];
  }

  lemma CharIsFirst(p: Place, s: string)
    requires s != [] && !Bars(p, s[0]) && ReadOne(p, s).0.Char?
    ensures var (g, rest) := ReadOne(p, s); IsFirst(p, s, g, rest)
  {
    assert s == [s[0]] + s[1..];
  }

  lemma OneIsRead(p: Place, s: string)
    requires s != [] && !Bars(p, s[0])
    ensures var (g, rest) := ReadOne(p, s); IsFirst(p, s, g, rest)
  {
    hide IsFirst, ReadItems, ReadName, ReadTo;
    if s[0] == '\'' || s[0] == '"' {
      QuoteIsRead(p, s);
    } else if s[0] == '[' {
      NameIsFirst(p, s);
    } else if |s| > 1 && s[0] == '-' && s[1] == '-' {
      LineRemarkIsFirst(p, s);
    } else if |s| > 1 && s[0] == '/' && s[1] == '*' {
      RemarkIsFirst(p, s);
    } else if s[0] == '?' || ((s[0] == '$' || s[0] == ':') && |s| > 1 && IsDigit(s[1])) {
      MarkIsFirst(p, s);
    } else {
      CharIsFirst(p, s);
    }
  }

  /** The segments of a query. */
  function Segments(p: Place, s: string): seq<Segment>
    decreases |s|
  {
    if s == [] then [] else
      var (g, rest) := ReadOne(p, s);
      [g] + Segments(PlaceAfter(g), rest)
  }

  lemma {:induction false} SegmentsSpell(p: Place, s: string)
    requires s == [] || !Bars(p, s[0])
    ensures Valid(p, Segments(p, s)) && Spell(Segments(p, s)) == s
    decreases |s|
  {
    if s != [] {
      hide ReadOne, Fits, SpellOne;
      OneIsRead(p, s);
      var (g, rest) := ReadOne(p, s);
      SegmentsSpell(PlaceAfter(g), rest);
      assert Segments(p, s)[1..] == Segments(PlaceAfter(g), rest);
    }
  }

  // ---------- the rewriting ----------

  /**
   * Quotations, bracketed names, comments and plain text come out as they were. Every marker comes out as `@p` and the
   * number it writes, or the next of those that write none; the largest of these numbers is reported.
   */
  lemma SegmentsRewritten(gs: seq<Segment>)
    requires Valid(Plain, gs)
    ensures var (text, max) := Rewritten(Spell(gs));
      && text == Out(Plain, gs, 0)
      && (max == 0 || max in Used(Plain, gs, 0)) && max >= 0 && forall n :: n in Used(Plain, gs, 0) ==> n <= max
  {
    SegmentsLex(Plain, gs);
    TokensGiveOut(Plain, gs, 0);
    MaxOfIsMax(0, Used(Plain, gs, 0));
  }

  /** Every query has such segments, and so this says what happens to every query. */
  lemma QueryRewritten(q: string)
    ensures var gs, (text, max) := Segments(Plain, q), Rewritten(q);
      && Valid(Plain, gs) && Spell(gs) == q && text == Out(Plain, gs, 0)
      && (max == 0 || max in Used(Plain, gs, 0)) && max >= 0 && forall n :: n in Used(Plain, gs, 0) ==> n <= max
  {
    SegmentsSpell(Plain, q);
    SegmentsRewritten(Segments(Plain, q));
  }
}
