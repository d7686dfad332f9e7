/** The syntax highlighter of the editor (src/highlightHelper.ts): it walks
    the text and the token list side by side, wrapping each token that
    starts at the tracked row and column in a coloured `<span>`, and every
    other character except blanks in a black one. */
module Highlight {
  import opened Lexical
  import ServerLexer

  // ---------------------------------------------------------------------
  // Colours and escaping
  // ---------------------------------------------------------------------

  /** `getTokenColor`, lines 3-15. */
  function TokenColor(k: Kind): (cls: string)
    ensures cls == "syntax-blue" <==> k == Reserved || k == Identifier
    ensures cls == "syntax-orange" <==> k == String
    ensures cls == "syntax-purple" <==> k == Number
    ensures cls == "syntax-black" <==> !(k in {Reserved, Identifier, String, Number})
  {
    match k
    case Reserved => "syntax-blue"
    case Identifier => "syntax-blue"
    case String => "syntax-orange"
    case Number => "syntax-purple"
    case _ => "syntax-black"
  }

  /** `s.replace(/c/g, r)` for a one-character pattern. */
  function ReplaceAll(s: string, c: char, r: string): string
    decreases |s|
  {
    if s == [] then [] else (if s[0] == c then r else [s[0]]) + ReplaceAll(s[1..], c, r)
  }

  /** The three passes of lines 28-31 (and 43): `&` first, then `<`, then `>`. */
  function Escape(s: string): string {
    ReplaceAll(ReplaceAll(ReplaceAll(s, '&', "&amp;"), '<', "&lt;"), '>', "&gt;")
  }

  /** The entity one character becomes. */
  function EscapeChar(c: char): string {
    if c == '&' then "&amp;" else if c == '<' then "&lt;" else if c == '>' then "&gt;" else [c]
  }

  /** Escaping character by character. */
  function Entities(s: string): string
    decreases |s|
  {
    if s == [] then [] else EscapeChar(s[0]) + Entities(s[1..])
  }

  /** Reading the three entities back. */
  function Unescape(s: string): string
    decreases |s|
  {
    if s == [] then []
    else if |s| >= 5 && s[..5] == "&amp;" then "&" + Unescape(s[5..])
    else if |s| >= 4 && s[..4] == "&lt;" then "<" + Unescape(s[4..])
    else if |s| >= 4 && s[..4] == "&gt;" then ">" + Unescape(s[4..])
    else [s[0]] + Unescape(s[1..])
  }

  lemma {:induction false} ReplaceAllAppend(x: string, y: string, c: char, r: string)
    ensures ReplaceAll(x + y, c, r) == ReplaceAll(x, c, r) + ReplaceAll(y, c, r)
    decreases |x|
  {
    if x == [] {
      assert x + y == y;
    } else {
      var h := if x[0] == c then r else [x[0]];
      assert (x + y)[0] == x[0] && (x + y)[1..] == x[1..] + y;
      assert ReplaceAll(x + y, c, r) == h + ReplaceAll(x[1..] + y, c, r);
      ReplaceAllAppend(x[1..], y, c, r);
      assert h + (ReplaceAll(x[1..], c, r) + ReplaceAll(y, c, r))
          == (h + ReplaceAll(x[1..], c, r)) + ReplaceAll(y, c, r);
    }
  }

  lemma ReplaceAllOne(d: char, c: char, r: string)
    ensures ReplaceAll([d], c, r) == if d == c then r else [d]
  {
    assert [d][1..] == [];
  }

  /** A pass leaves a text without its character unchanged. */
  lemma {:induction false} ReplaceAllAbsent(s: string, c: char, r: string)
    requires c !in s
    ensures ReplaceAll(s, c, r) == s
    decreases |s|
  {
    if s != [] {
      ReplaceAllAbsent(s[1..], c, r);
      assert s == [s[0]] + s[1..];
    }
  }

  /** The three passes on one character give its entity: `&` is replaced
      before the other two entities, which contain it, are written. */
  lemma EscapeOne(d: char)
    ensures Escape([d]) == EscapeChar(d)
  {
    ReplaceAllOne(d, '&', "&amp;");
    if d == '&' {
      ReplaceAllAbsent("&amp;", '<', "&lt;");
      assert '>' !in "&amp;" by {
        assert "&amp;" == ['&', 'a', 'm', 'p', ';'];
      }
      ReplaceAllAbsent("&amp;", '>', "&gt;");
    } else {
      ReplaceAllOne(d, '<', "&lt;");
      if d == '<' {
        ReplaceAllAbsent("&lt;", '>', "&gt;");
      } else {
        ReplaceAllOne(d, '>', "&gt;");
      }
    }
  }

  /** Each pass works character by character, so escaping does too. */
  lemma EscapeCons(d: char, s: string)
    ensures Escape([d] + s) == EscapeChar(d) + Escape(s)
  {
    var r1, r2 := ReplaceAll(s, '&', "&amp;"), ReplaceAll(ReplaceAll(s, '&', "&amp;"), '<', "&lt;");
    var d1 := ReplaceAll([d], '&', "&amp;");
    var d2 := ReplaceAll(d1, '<', "&lt;");
    ReplaceAllAppend([d], s, '&', "&amp;");
    ReplaceAllAppend(d1, r1, '<', "&lt;");
    ReplaceAllAppend(d2, r2, '>', "&gt;");
    EscapeOne(d);
  }

  /** The three passes escape character by character. */
  lemma {:induction false} EscapeEntities(s: string)
    ensures Escape(s) == Entities(s)
    decreases |s|
  {
    if s == [] {
      assert Escape(s) == [];
    } else {
      EscapeEntities(s[1..]);
      EscapeCons(s[0], s[1..]);
      assert [s[0]] + s[1..] == s;
    }
  }

  /** Escaping leaves no `<` or `>`, so a lexeme cannot open or close a tag. */
  lemma {:induction false} EscapeNoBrackets(s: string)
    ensures '<' !in Escape(s) && '>' !in Escape(s)
  {
    EscapeEntities(s);
    EntitiesNoBrackets(s);
  }

  lemma {:induction false} EntitiesNoBrackets(s: string)
    ensures '<' !in Entities(s) && '>' !in Entities(s)
    decreases |s|
  {
    if s != [] {
      EntitiesNoBrackets(s[1..]);
    }
  }

  /** Escaping is undone by reading the entities back. */
  lemma UnescapeEscape(s: string)
    ensures Unescape(Escape(s)) == s
  {
    EscapeEntities(s);
    UnescapeEntities(s);
  }

  lemma {:induction false} UnescapeEntities(s: string)
    ensures Unescape(Entities(s)) == s
    decreases |s|
  {
    if s != [] {
      var c, rest := s[0], s[1..];
      UnescapeEntities(rest);
      var e, er := Entities(s), Entities(rest);
      assert e == EscapeChar(c) + er;
      if c == '&' {
        assert e[..5] == "&amp;" && e[5..] == er;
      } else if c == '<' {
        assert e[1] == 'l' && e[..4] == "&lt;" && e[4..] == er;
      } else if c == '>' {
        assert e[1] == 'g' && e[..4] == "&gt;" && e[4..] == er;
      } else {
        assert e[0] == c && e[1..] == er;
        assert |e| >= 4 ==> e[..4][0] == e[0];
        assert |e| >= 5 ==> e[..5][0] == e[0];
      }
      assert [c] + rest == s;
    }
  }

  // ---------------------------------------------------------------------
  // What the loop writes
  // ---------------------------------------------------------------------

  /** One piece of the markup: a token in its colour, a character in a black
      span, or a blank written as is. */
  datatype Segment = TokenSpan(t: Token) | CharSpan(c: char) | Raw(c: char)

  function Span(cls: string, body: string): string {
    "<span class=\"" + cls + "\">" + body + "</span>"
  }

  function Markup(s: Segment): string {
    match s
    case TokenSpan(t) => Span(TokenColor(t.kind), Entities(t.lexeme))
    case CharSpan(c) => Span("syntax-black", EscapeChar(c))
    case Raw(c) => [c]
  }

  /** The strings `f` gives for `xs`, one after the other. */
  function Join<T>(xs: seq<T>, f: T -> string): string
    decreases |xs|
  {
    if xs == [] then [] else f(xs[0]) + Join(xs[1..], f)
  }

  /** The markup of a list of segments. */
  function Html(segs: seq<Segment>): string {
    Join(segs, Markup)
  }

  /** The segment of a character no token covers (lines 37-45): a newline or
      a space as is, anything else in a black span. */
  function Plain(c: char): Segment {
    if c == '\n' || c == ' ' then Raw(c) else CharSpan(c)
  }

  /** What the loop of lines 24-48 writes from offset `i`, with `ts` the
      tokens not yet consumed and `row`, `col` the tracked position: the next
      token is written when it starts exactly at the tracked position, and
      the offset and column then move by its length; otherwise one character
      is written and a newline moves to the next row. */
  function Segments(text: string, ts: seq<Token>, i: nat, row: int, col: int): seq<Segment>
    decreases |text| - i, |ts|
  {
    if i >= |text| then []
    else if ts != [] && ts[0].row == row && ts[0].col == col then
      [TokenSpan(ts[0])] + Segments(text, ts[1..], i + |ts[0].lexeme|, row, col + |ts[0].lexeme|)
    else if text[i] == '\n' then
      [Plain(text[i])] + Segments(text, ts, i + 1, row + 1, 1)
    else
      [Plain(text[i])] + Segments(text, ts, i + 1, row, col + 1)
  }

  /** A token at the tracked position is written next. */
  lemma SegmentsToken(text: string, ts: seq<Token>, i: nat, row: int, col: int)
    requires i < |text| && ts != [] && ts[0].row == row && ts[0].col == col
    ensures Segments(text, ts, i, row, col)
         == [TokenSpan(ts[0])] + Segments(text, ts[1..], i + |ts[0].lexeme|, row, col + |ts[0].lexeme|)
  {
  }

  /** Otherwise the character at `i` is written, and the tracked position
      moves over it. */
  lemma SegmentsChar(text: string, ts: seq<Token>, i: nat, row: int, col: int)
    requires i < |text| && !(ts != [] && ts[0].row == row && ts[0].col == col)
    ensures var next := Advance(Pos(row, col), text[i]);
      Segments(text, ts, i, row, col) == [Plain(text[i])] + Segments(text, ts, i + 1, next.row, next.col)
  {
  }

  lemma {:induction false} JoinAppend<T>(a: seq<T>, b: seq<T>, f: T -> string)
    ensures Join(a + b, f) == Join(a, f) + Join(b, f)
    decreases |a|
  {
    if a == [] {
      assert a + b == b;
    } else {
      JoinAppend(a[1..], b, f);
      assert (a + b)[0] == a[0] && (a + b)[1..] == a[1..] + b;
    }
  }

  lemma JoinOne<T>(x: T, f: T -> string)
    ensures Join([x], f) == f(x)
  {
    assert [x][1..] == [];
  }

  /** `highlightText(text, tokens)`: the markup of the segments, and one more
      newline when the text ends with one (line 49). */
  function Highlighted(text: string, tokens: seq<Token>): string {
    Html(Segments(text, tokens, 0, 1, 1)) + (if |text| > 0 && text[|text| - 1] == '\n' then "\n" else "")
  }

  // ---------------------------------------------------------------------
  // The implementation
  // ---------------------------------------------------------------------

  /** `highlightText`, lines 17-51. */
  method HighlightText(text: string, tokens: seq<Token>) returns (html: string)
    ensures html == Highlighted(text, tokens)
  {
    html := "";
    var lastRow, lastCol := 1, 1;
    var i: nat := 0;
    var tokenIdx := 0;
    ghost var written: seq<Segment> := [];
    while i < |text|
      invariant tokenIdx <= |tokens|
      invariant html == Html(written)
      invariant written + Segments(text, tokens[tokenIdx..], i, lastRow, lastCol) == Segments(text, tokens, 0, 1, 1)
      decreases |text| - i, |tokens| - tokenIdx
    {
      var piece: string;
      ghost var seg: Segment;
      ghost var rest := Segments(text, tokens[tokenIdx..], i, lastRow, lastCol);
      piece, seg, i, tokenIdx, lastRow, lastCol := Turn(text, tokens, i, tokenIdx, lastRow, lastCol);
      assert written + rest == (written + [seg]) + Segments(text, tokens[tokenIdx..], i, lastRow, lastCol);
      JoinAppend(written, [seg], Markup);
      JoinOne(seg, Markup);
      written := written + [seg];
      html := html + piece;
    }
    assert written + [] == written;
    if |text| > 0 && text[|text| - 1] == '\n' {
      html := html + "\n";
    }
  }

  /** The segments from one state are `seg` followed by those from the
      next state. */
  predicate WritesFirst(text: string, ts: seq<Token>, i: nat, row: int, col: int,
                        seg: Segment, ts': seq<Token>, i': nat, row': int, col': int)
  {
    Segments(text, ts, i, row, col) == [seg] + Segments(text, ts', i', row', col')
  }

  /** One turn of the loop, lines 25-47: the markup it appends (the segment
      it writes) and the state it continues with. */
  method Turn(text: string, tokens: seq<Token>, i: nat, tokenIdx: nat, lastRow: int, lastCol: int)
    returns (piece: string, ghost seg: Segment, i': nat, tokenIdx': nat, lastRow': int, lastCol': int)
    requires i < |text| && tokenIdx <= |tokens|
    ensures tokenIdx' <= |tokens| && (i' > i || (i' == i && tokenIdx' > tokenIdx))
    ensures WritesFirst(text, tokens[tokenIdx..], i, lastRow, lastCol, seg, tokens[tokenIdx'..], i', lastRow', lastCol') == true
    ensures piece == Markup(seg)
  {
    if tokenIdx < |tokens| && tokens[tokenIdx].row == lastRow && tokens[tokenIdx].col == lastCol {
      var token := tokens[tokenIdx];
      seg := TokenSpan(token);
      piece := TokenMarkup(token);
      i', lastRow', lastCol', tokenIdx' := i + |token.lexeme|, lastRow, lastCol + |token.lexeme|, tokenIdx + 1;
      TokenWritesFirst(text, tokens, tokenIdx, i, lastRow, lastCol);
    } else {
      var c := text[i];
      seg := Plain(c);
      if c == '\n' {
        piece := "\n";
        lastRow', lastCol' := lastRow + 1, 1;
      } else {
        piece := CharMarkup(c);
        lastRow', lastCol' := lastRow, lastCol + 1;
      }
      i', tokenIdx' := i + 1, tokenIdx;
      CharWritesFirst(text, tokens, tokenIdx, i, lastRow, lastCol);
    }
  }

  /** `SegmentsToken` for the tokens from index `k` on. */
  lemma TokenWritesFirst(text: string, tokens: seq<Token>, k: nat, i: nat, row: int, col: int)
    requires i < |text| && k < |tokens| && tokens[k].row == row && tokens[k].col == col
    ensures WritesFirst(text, tokens[k..], i, row, col, TokenSpan(tokens[k]), tokens[k + 1..],
                        i + |tokens[k].lexeme|, row, col + |tokens[k].lexeme|) == true
  {
    assert tokens[k..][0] == tokens[k] && tokens[k..][1..] == tokens[k + 1..];
    SegmentsToken(text, tokens[k..], i, row, col);
  }

  /** `SegmentsChar` for the tokens from index `k` on. */
  lemma CharWritesFirst(text: string, tokens: seq<Token>, k: nat, i: nat, row: int, col: int)
    requires i < |text| && k <= |tokens| && !(k < |tokens| && tokens[k].row == row && tokens[k].col == col)
    ensures var next := Advance(Pos(row, col), text[i]);
      WritesFirst(text, tokens[k..], i, row, col, Plain(text[i]), tokens[k..], i + 1, next.row, next.col) == true
  {
    assert k < |tokens| ==> tokens[k..][0] == tokens[k];
    SegmentsChar(text, tokens[k..], i, row, col);
  }

  /** Lines 27-32: the token's lexeme, escaped, in a span of its colour. */
  method TokenMarkup(token: Token) returns (piece: string)
    ensures piece == Markup(TokenSpan(token))
  {
    var colorClass := TokenColor(token.kind);
    var safeLexeme := ReplaceAll(ReplaceAll(ReplaceAll(token.lexeme, '&', "&amp;"), '<', "&lt;"), '>', "&gt;");
    piece := "<span class=\"" + colorClass + "\">" + safeLexeme + "</span>";
    EscapeEntities(token.lexeme);
  }

  /** Line 43: a space as is, any other character escaped in a black span. */
  method CharMarkup(c: char) returns (piece: string)
    requires c != '\n'
    ensures piece == Markup(Plain(c))
  {
    piece := if c == ' ' then " "
             else "<span class=\"syntax-black\">" + ReplaceAll(ReplaceAll(ReplaceAll([c], '&', "&amp;"), '<', "&lt;"), '>', "&gt;") + "</span>";
    EscapeOne(c);
  }

  // ---------------------------------------------------------------------
  // Properties
  // ---------------------------------------------------------------------

  /** The tokens the markup shows, in order. */
  function Shown(segs: seq<Segment>): seq<Token>
    decreases |segs|
  {
    if segs == [] then []
    else (if segs[0].TokenSpan? then [segs[0].t] else []) + Shown(segs[1..])
  }

  /** The text a segment stands for: a token's lexeme or the character. */
  function Source(s: Segment): string {
    match s
    case TokenSpan(t) => t.lexeme
    case CharSpan(c) => [c]
    case Raw(c) => [c]
  }

  /** The text a list of segments stands for. */
  function Visible(segs: seq<Segment>): string {
    Join(segs, Source)
  }

  lemma JoinCons<T>(x: T, xs: seq<T>, f: T -> string)
    ensures Join([x] + xs, f) == f(x) + Join(xs, f)
  {
    assert ([x] + xs)[1..] == xs;
  }

  /** Tokens are consumed in order, each at most once: the tokens shown are
      always a prefix of the token list, whatever the tokens hold. */
  lemma {:induction false} ShownPrefix(text: string, ts: seq<Token>, i: nat, row: int, col: int)
    ensures var shown := Shown(Segments(text, ts, i, row, col));
      |shown| <= |ts| && shown == ts[..|shown|]
    decreases |text| - i, |ts|
  {
    var segs := Segments(text, ts, i, row, col);
    if i < |text| {
      if ts != [] && ts[0].row == row && ts[0].col == col {
        var n := |ts[0].lexeme|;
        ShownPrefix(text, ts[1..], i + n, row, col + n);
        assert segs[1..] == Segments(text, ts[1..], i + n, row, col + n);
      } else if text[i] == '\n' {
        ShownPrefix(text, ts, i + 1, row + 1, 1);
        assert segs[1..] == Segments(text, ts, i + 1, row + 1, 1);
      } else {
        ShownPrefix(text, ts, i + 1, row, col + 1);
        assert segs[1..] == Segments(text, ts, i + 1, row, col + 1);
      }
    }
  }

  /** Without tokens every character is written on its own: spaces and
      newlines as is, everything else in a black span. */
  lemma {:induction false} NoTokens(text: string, i: nat, row: int, col: int)
    requires i <= |text|
    ensures var segs := Segments(text, [], i, row, col);
      |segs| == |text| - i && forall k :: 0 <= k < |segs| ==> segs[k] == Plain(text[i + k])
    decreases |text| - i
  {
    var segs := Segments(text, [], i, row, col);
    if i < |text| {
      var row', col' := if text[i] == '\n' then row + 1 else row, if text[i] == '\n' then 1 else col + 1;
      NoTokens(text, i + 1, row', col');
      var rest := Segments(text, [], i + 1, row', col');
      assert segs == [Plain(text[i])] + rest;
      forall k | 0 < k < |segs|
        ensures segs[k] == Plain(text[i + k])
      {
        assert segs[k] == rest[k - 1];
      }
    }
  }

  /** Tokens laid out on the text (each the text's own slice, without a
      newline, stamped with its row and column) are all shown, in order, and
      the markup reads back as the text: the tracked position stays equal to
      the text's own position. */
  /** Highlighting from offset `i` shows exactly `ts` and reads back as the rest of the text. */
  predicate RoundTrips(text: string, ts: seq<Token>, i: nat)
    requires i <= |text|
  {
    var p := PosAt(text, i);
    var segs := Segments(text, ts, i, p.row, p.col);
    Shown(segs) == ts && Visible(segs) == text[i..]
  }

  lemma {:induction false} LaidOutRoundTrip(text: string, ts: seq<Token>, offs: seq<nat>, i: nat)
    requires i <= |text| && LaidOut(text, ts, offs, i)
    ensures RoundTrips(text, ts, i)
    decreases |text| - i, |ts|
  {
    if i == |text| {
      assert ts == [];
    } else if ts != [] && offs[0] == i {
      LaidOutRoundTrip(text, ts[1..], offs[1..], i + |ts[0].lexeme|);
      TokenStep(text, ts, offs, i);
    } else {
      LaidOutSkip(text, ts, offs, i);
      LaidOutRoundTrip(text, ts, offs, i + 1);
      CharStep(text, ts, offs, i);
    }
  }

  /** A list laid out at `i` whose first token does not start at `i` is laid out at `i + 1`. */
  lemma LaidOutSkip(text: string, ts: seq<Token>, offs: seq<nat>, i: nat)
    requires i < |text| && LaidOut(text, ts, offs, i) && !(ts != [] && offs[0] == i)
    ensures LaidOut(text, ts, offs, i + 1)
  {
  }

  lemma TokenStep(text: string, ts: seq<Token>, offs: seq<nat>, i: nat)
    requires i < |text| && LaidOut(text, ts, offs, i) && ts != [] && offs[0] == i
    requires RoundTrips(text, ts[1..], i + |ts[0].lexeme|)
    ensures RoundTrips(text, ts, i)
  {
    var p, n := PosAt(text, i), |ts[0].lexeme|;
    assert i + n <= |text| && text[i..i + n] == ts[0].lexeme && ts[0].row == p.row && ts[0].col == p.col
        && PosAt(text, i + n) == Pos(p.row, p.col + n) by {
      assert SitsAt(text, ts[0], i);
      PosAtSlice(text, i, i + n);
    }
    TokenTurnReads(text, ts, i, p.row, p.col);
  }

  lemma TokenTurnReads(text: string, ts: seq<Token>, i: nat, row: int, col: int)
    requires i < |text| && ts != [] && ts[0].row == row && ts[0].col == col
    requires i + |ts[0].lexeme| <= |text| && text[i..i + |ts[0].lexeme|] == ts[0].lexeme
    requires var n := |ts[0].lexeme|;
      var rest := Segments(text, ts[1..], i + n, row, col + n);
      Shown(rest) == ts[1..] && Visible(rest) == text[i + n..]
    ensures var segs := Segments(text, ts, i, row, col);
      Shown(segs) == ts && Visible(segs) == text[i..]
  {
    var n := |ts[0].lexeme|;
    TokenSpanRest(text, ts, i, row, col);
    assert ts == [ts[0]] + ts[1..];
    assert text[i..] == text[i..i + n] + text[i + n..];
  }

  lemma CharStep(text: string, ts: seq<Token>, offs: seq<nat>, i: nat)
    requires i < |text| && LaidOut(text, ts, offs, i) && !(ts != [] && offs[0] == i)
    requires RoundTrips(text, ts, i + 1)
    ensures RoundTrips(text, ts, i)
  {
    var p := PosAt(text, i);
    assert !(ts != [] && ts[0].row == p.row && ts[0].col == p.col) by {
      if ts != [] {
        PosAtInjective(text, i, offs[0]);
      }
    }
    assert PosAt(text, i + 1) == Advance(p, text[i]) by {
      if text[i] == '\n' {
        PosAtNewline(text, i);
      } else {
        PosAtSlice(text, i, i + 1);
      }
    }
    CharTurnReads(text, ts, i, p.row, p.col);
  }

  lemma CharTurnReads(text: string, ts: seq<Token>, i: nat, row: int, col: int)
    requires i < |text| && !(ts != [] && ts[0].row == row && ts[0].col == col)
    requires var next := Advance(Pos(row, col), text[i]);
      var rest := Segments(text, ts, i + 1, next.row, next.col);
      Shown(rest) == ts && Visible(rest) == text[i + 1..]
    ensures var segs := Segments(text, ts, i, row, col);
      Shown(segs) == ts && Visible(segs) == text[i..]
  {
    CharRest(text, ts, i, row, col);
    assert text[i..] == [text[i]] + text[i + 1..];
  }

  /** What a token turn adds to the shown tokens and the visible text. */
  lemma TokenSpanRest(text: string, ts: seq<Token>, i: nat, row: int, col: int)
    requires i < |text| && ts != [] && ts[0].row == row && ts[0].col == col
    ensures var n := |ts[0].lexeme|;
      var rest := Segments(text, ts[1..], i + n, row, col + n);
      && Shown(Segments(text, ts, i, row, col)) == [ts[0]] + Shown(rest)
      && Visible(Segments(text, ts, i, row, col)) == ts[0].lexeme + Visible(rest)
  {
    var n := |ts[0].lexeme|;
    var rest := Segments(text, ts[1..], i + n, row, col + n);
    SegmentsToken(text, ts, i, row, col);
    ShownCons(TokenSpan(ts[0]), rest);
    JoinCons(TokenSpan(ts[0]), rest, Source);
  }

  /** What a character turn adds: no token, and the character itself. */
  lemma CharRest(text: string, ts: seq<Token>, i: nat, row: int, col: int)
    requires i < |text| && !(ts != [] && ts[0].row == row && ts[0].col == col)
    ensures var next := Advance(Pos(row, col), text[i]);
      var rest := Segments(text, ts, i + 1, next.row, next.col);
      && Shown(Segments(text, ts, i, row, col)) == Shown(rest)
      && Visible(Segments(text, ts, i, row, col)) == [text[i]] + Visible(rest)
  {
    var next := Advance(Pos(row, col), text[i]);
    var rest := Segments(text, ts, i + 1, next.row, next.col);
    SegmentsChar(text, ts, i, row, col);
    ShownCons(Plain(text[i]), rest);
    JoinCons(Plain(text[i]), rest, Source);
  }

  lemma ShownCons(s: Segment, rest: seq<Segment>)
    ensures Shown([s] + rest) == (if s.TokenSpan? then [s.t] else []) + Shown(rest)
  {
    assert ([s] + rest)[1..] == rest;
  }

  /** The server's tokens are laid out on the text they were read from, so
      the highlighter shows every one of them, and its markup, with the tags
      dropped and the entities read back, is the text again (with the extra
      newline of line 49 when the text ends with one). */
  lemma ServerTokensRoundTrip(text: string)
    ensures var ts := ServerLexer.Lexer(text).tokens;
      && Shown(Segments(text, ts, 0, 1, 1)) == ts
      && Unescape(StripTags(Highlighted(text, ts))) == text + TrailingNewline(text)
  {
    ServerLexer.ScanLaidOut(text, 0);
    HighlightedReadsBack(text, ServerLexer.Scan(text, 0).tokens, ServerLexer.TokenStarts(text, 0));
  }

  /** The newline line 49 appends. */
  function TrailingNewline(text: string): string {
    if |text| > 0 && text[|text| - 1] == '\n' then "\n" else ""
  }

  /** For tokens laid out on the text, every token is shown, in order, and
      the returned markup, with the tags dropped and the entities read back,
      is the text followed by the newline of line 49. */
  lemma HighlightedReadsBack(text: string, ts: seq<Token>, offs: seq<nat>)
    requires LaidOut(text, ts, offs, 0)
    ensures Shown(Segments(text, ts, 0, 1, 1)) == ts
    ensures Unescape(StripTags(Highlighted(text, ts))) == text + TrailingNewline(text)
  {
    var segs := Segments(text, ts, 0, 1, 1);
    LaidOutRoundTrip(text, ts, offs, 0);
    assert text[..0] == [] && text[0..] == text;
    assert Visible(segs) == text;
    SegmentsBlanks(text, ts, 0, 1, 1);
    HtmlStrip(segs);
    TrailingNewlinePlain(text);
    ReadsBackAppend(Html(segs), text, TrailingNewline(text));
  }

  lemma TrailingNewlinePlain(text: string)
    ensures '<' !in TrailingNewline(text) && Entities(TrailingNewline(text)) == TrailingNewline(text)
  {
    if TrailingNewline(text) != [] {
      assert Entities("\n") == EscapeChar('\n') + Entities([]);
    }
  }

  /** Markup that reads back as `v`, followed by text with nothing to strip
      or escape, reads back as `v` followed by that text. */
  lemma ReadsBackAppend(html: string, v: string, tail: string)
    requires Strip(html, false) == Entities(v) && !InTagAfter(html, false)
    requires '<' !in tail && Entities(tail) == tail
    ensures Unescape(StripTags(html + tail)) == v + tail
  {
    StripAppend(html, tail, false);
    StripText(tail);
    EntitiesAppend(v, tail);
    UnescapeEntities(v + tail);
  }

  // ---------------------------------------------------------------------
  // Reading the markup back
  // ---------------------------------------------------------------------

  /** What is left of markup when every tag, from a `<` to the next `>`, is
      dropped; `inTag` says whether `s` starts inside a tag. */
  function Strip(s: string, inTag: bool): string
    decreases |s|
  {
    if s == [] then []
    else if inTag then Strip(s[1..], s[0] != '>')
    else if s[0] == '<' then Strip(s[1..], true)
    else [s[0]] + Strip(s[1..], false)
  }

  /** Whether reading `s` from state `inTag` ends inside a tag. */
  function InTagAfter(s: string, inTag: bool): bool
    decreases |s|
  {
    if s == [] then inTag
    else InTagAfter(s[1..], if inTag then s[0] != '>' else s[0] == '<')
  }

  /** The text of markup: everything outside its tags. */
  function StripTags(s: string): string {
    Strip(s, false)
  }

  lemma {:induction false} StripAppend(x: string, y: string, inTag: bool)
    ensures Strip(x + y, inTag) == Strip(x, inTag) + Strip(y, InTagAfter(x, inTag))
    ensures InTagAfter(x + y, inTag) == InTagAfter(y, InTagAfter(x, inTag))
    decreases |x|
  {
    if x == [] {
      assert x + y == y;
    } else {
      StripAppend(x[1..], y, if inTag then x[0] != '>' else x[0] == '<');
      assert (x + y)[0] == x[0] && (x + y)[1..] == x[1..] + y;
    }
  }

  /** Text without `<` is kept as it is. */
  lemma {:induction false} StripText(x: string)
    requires '<' !in x
    ensures Strip(x, false) == x && !InTagAfter(x, false)
    decreases |x|
  {
    if x != [] {
      StripText(x[1..]);
      assert x == [x[0]] + x[1..];
    }
  }

  /** Inside a tag, text without `>` is dropped and the tag stays open. */
  lemma {:induction false} StripInTag(x: string)
    requires '>' !in x
    ensures Strip(x, true) == [] && InTagAfter(x, true)
    decreases |x|
  {
    if x != [] {
      StripInTag(x[1..]);
    }
  }

  /** A whole tag is dropped. */
  lemma StripTag(inner: string)
    requires '>' !in inner
    ensures Strip("<" + inner + ">", false) == [] && !InTagAfter("<" + inner + ">", false)
  {
    var t := "<" + inner + ">";
    assert t[0] == '<' && t[1..] == inner + ">";
    StripInTag(inner);
    StripAppend(inner, ">", true);
    assert Strip(">", true) == [] && !InTagAfter(">", true) by { assert ">"[1..] == []; }
  }

  /** A span reads as its body when neither its class closes the tag nor its
      body opens one. */
  lemma StripSpan(cls: string, body: string)
    requires '>' !in cls && '<' !in body
    ensures Strip(Span(cls, body), false) == body && !InTagAfter(Span(cls, body), false)
  {
    var opening, closing := "span class=\"" + cls + "\"", "/span";
    assert Span(cls, body) == ("<" + opening + ">") + body + ("<" + closing + ">");
    StripTag(opening);
    StripTag(closing);
    StripText(body);
    StripAppend("<" + opening + ">", body, false);
    StripAppend("<" + opening + ">" + body, "<" + closing + ">", false);
  }

  lemma ColorNoBracket(k: Kind)
    ensures '>' !in TokenColor(k)
  {
  }

  lemma {:induction false} EntitiesAppend(x: string, y: string)
    ensures Entities(x + y) == Entities(x) + Entities(y)
    decreases |x|
  {
    if x == [] {
      assert x + y == y;
    } else {
      assert (x + y)[0] == x[0] && (x + y)[1..] == x[1..] + y;
      assert Entities(x + y) == EscapeChar(x[0]) + Entities(x[1..] + y);
      EntitiesAppend(x[1..], y);
      assert EscapeChar(x[0]) + (Entities(x[1..]) + Entities(y))
          == (EscapeChar(x[0]) + Entities(x[1..])) + Entities(y);
    }
  }

  /** Every segment written as is is a blank. */
  predicate Blanks(segs: seq<Segment>) {
    forall s :: s in segs && s.Raw? ==> s.c == ' ' || s.c == '\n'
  }

  lemma {:induction false} SegmentsBlanks(text: string, ts: seq<Token>, i: nat, row: int, col: int)
    ensures Blanks(Segments(text, ts, i, row, col))
    decreases |text| - i, |ts|
  {
    if i < |text| {
      if ts != [] && ts[0].row == row && ts[0].col == col {
        var n := |ts[0].lexeme|;
        SegmentsBlanks(text, ts[1..], i + n, row, col + n);
      } else if text[i] == '\n' {
        SegmentsBlanks(text, ts, i + 1, row + 1, 1);
      } else {
        SegmentsBlanks(text, ts, i + 1, row, col + 1);
      }
    }
  }

  /** A segment's markup, tags dropped, is the escaped text it stands for. */
  lemma MarkupStrip(s: Segment)
    requires s.Raw? ==> s.c == ' ' || s.c == '\n'
    ensures Strip(Markup(s), false) == Entities(Source(s)) && !InTagAfter(Markup(s), false)
  {
    match s
    case TokenSpan(t) =>
      ColorNoBracket(t.kind);
      EntitiesNoBrackets(t.lexeme);
      StripSpan(TokenColor(t.kind), Entities(t.lexeme));
    case CharSpan(c) =>
      assert Entities([c]) == EscapeChar(c) + Entities([]);
      EntitiesNoBrackets([c]);
      StripSpan("syntax-black", EscapeChar(c));
    case Raw(c) =>
      assert Entities([c]) == EscapeChar(c) + Entities([]);
      StripText([c]);
  }

  /** The markup of segments, tags dropped, is the escaped text they stand for. */
  lemma {:induction false} HtmlStrip(segs: seq<Segment>)
    requires Blanks(segs)
    ensures Strip(Html(segs), false) == Entities(Visible(segs)) && !InTagAfter(Html(segs), false)
    decreases |segs|
  {
    if segs != [] {
      assert segs[0] in segs;
      assert Blanks(segs[1..]) by {
        forall s | s in segs[1..] ensures s in segs { }
      }
      HtmlStrip(segs[1..]);
      MarkupStrip(segs[0]);
      StripAppend(Markup(segs[0]), Html(segs[1..]), false);
      EntitiesAppend(Source(segs[0]), Visible(segs[1..]));
    }
  }

  /** Dropping the tags of the markup and reading the entities back gives
      the text the segments stand for. */
  lemma MarkupReadsBack(segs: seq<Segment>)
    requires Blanks(segs)
    ensures Unescape(StripTags(Html(segs))) == Visible(segs)
  {
    HtmlStrip(segs);
    UnescapeEntities(Visible(segs));
  }
}
