/** The lexer behind the `/api/analyze` endpoint (server/src/lexer.ts):
    a character-at-a-time scan that stamps every token and error with the
    position of its first character, followed by a pass over the tokens that
    checks the shape of every `:=` and balances brackets with three net
    counters. */
module ServerLexer {
  import opened Lexical

  /** The reserved words of line 21 (the attribute names included). */
  const ReservedWords: set<string> := {"Equipo", "Jugador", "salud", "ataque", "defensa"}

  /** Space, tab and carriage return (skipped) and newline (skipped, next row). */
  predicate IsBlank(c: char) { c == ' ' || c == '\t' || c == '\r' || c == '\n' }

  /** The keys of the single-character table, lines 44-55. */
  predicate InTable(c: char) { c in {'{', '}', '(', ')', '[', ']', '=', ';', ':', '"'} }

  /** The token type the table gives a key. The quote's entry is never used:
      a quote always starts a string literal. */
  function TableKind(c: char): Kind
    requires InTable(c)
  {
    match c
    case '{' => LBrace
    case '}' => RBrace
    case '(' => LParen
    case ')' => RParen
    case '[' => LBracket
    case ']' => RBracket
    case '=' => Equal
    case ';' => Semicolon
    case ':' => Colon
    case '"' => Quote
  }

  /** A character that does not end a string literal's scan. */
  predicate NotStringStop(c: char) { c != '"' && c != '\n' }

  /** What the scan recognises at one offset. */
  datatype Unit =
    | Blank                        // consumed, nothing emitted
    | Tok(kind: Kind, width: nat)  // one token whose lexeme is the `width` characters consumed
    | CutAtNewline(width: nat)     // string cut by a newline: one UNCLOSED_STRING error
    | CutAtEnd(width: nat)         // string cut by the end of input: nothing emitted
    | Stray                        // one UNKNOWN error

  function Width(u: Unit): nat {
    match u
    case Blank => 1
    case Stray => 1
    case Tok(_, w) => w
    case CutAtNewline(w) => w
    case CutAtEnd(w) => w
  }

  /** The recogniser the scan loop applies at offset `i` (lines 24-140). */
  function Recognize(input: string, i: nat): (u: Unit)
    requires i < |input|
    ensures 1 <= Width(u) <= |input| - i
    ensures u.Blank? <==> IsBlank(input[i])
    ensures u.Blank? || '\n' !in input[i..i + Width(u)]
  {
    var c := input[i];
    if IsBlank(c) then Blank
    else if c == '"' then
      var j := RunEnd(input, i + 1, NotStringStop);
      if j < |input| && input[j] == '"' then Tok(String, j + 1 - i)
      else if j < |input| then CutAtNewline(j - i)
      else CutAtEnd(j - i)
    else if InTable(c) then
      if c == ':' && i + 1 < |input| && input[i + 1] == '=' then Tok(Assign, 2)
      else Tok(TableKind(c), 1)
    else if IsDigit(c) then
      Tok(Number, RunEnd(input, i + 1, IsDigit) - i)
    else if IsIdentStart(c) then
      var j := RunEnd(input, i + 1, IsIdentPart);
      Tok(if input[i..j] in ReservedWords then Reserved else Identifier, j - i)
    else Stray
  }

  /** A character no rule accepts is one UNKNOWN unit, and only such a character is. */
  lemma RecognizeStray(input: string, i: nat)
    requires i < |input|
    ensures Recognize(input, i).Stray?
        <==> !(IsBlank(input[i]) || InTable(input[i]) || IsDigit(input[i]) || IsIdentStart(input[i]))
  {
  }

  /** A quote starts a string literal: it is closed by the first quote,
      cut by a newline, or cut by the end of input, whichever comes first. */
  lemma RecognizeString(input: string, i: nat, u: Unit)
    requires i < |input| && u == Recognize(input, i)
    ensures (u.Tok? && u.kind == String) || u.CutAtNewline? || u.CutAtEnd? <==> input[i] == '"'
    ensures u.Tok? && u.kind == String ==>
      2 <= u.width && input[i + u.width - 1] == '"' &&
      forall k :: i < k < i + u.width - 1 ==> NotStringStop(input[k])
    ensures u.CutAtNewline? ==>
      i + u.width < |input| && input[i + u.width] == '\n' &&
      forall k :: i < k < i + u.width ==> NotStringStop(input[k])
    ensures u.CutAtEnd? ==>
      i + u.width == |input| && forall k :: i < k < |input| ==> NotStringStop(input[k])
  {
  }

  /** `:` directly followed by `=` is one ASSIGN of width 2; every other
      table character is one token of its table type. */
  lemma RecognizeSymbol(input: string, i: nat, u: Unit)
    requires i < |input| && u == Recognize(input, i)
    ensures (u.Tok? && u.kind == Assign) <==> input[i] == ':' && i + 1 < |input| && input[i + 1] == '='
    ensures u.Tok? && u.kind == Assign ==> u.width == 2
    ensures InTable(input[i]) && input[i] != '"' && !(u.Tok? && u.kind == Assign) ==>
      u == Tok(TableKind(input[i]), 1)
  {
  }

  /** A digit starts a NUMBER that covers the maximal digit run. */
  lemma RecognizeNumber(input: string, i: nat, u: Unit)
    requires i < |input| && u == Recognize(input, i)
    ensures (u.Tok? && u.kind == Number) <==> IsDigit(input[i])
    ensures u.Tok? && u.kind == Number ==>
      (forall k :: i <= k < i + u.width ==> IsDigit(input[k])) &&
      (i + u.width == |input| || !IsDigit(input[i + u.width]))
  {
  }

  /** A letter or underscore starts a maximal identifier run, RESERVED
      exactly when the run is one of the reserved words. */
  lemma RecognizeWord(input: string, i: nat, u: Unit)
    requires i < |input| && u == Recognize(input, i)
    ensures (u.Tok? && (u.kind == Reserved || u.kind == Identifier)) <==> IsIdentStart(input[i])
    ensures u.Tok? && (u.kind == Reserved || u.kind == Identifier) ==>
      (forall k :: i < k < i + u.width ==> IsIdentPart(input[k])) &&
      (i + u.width == |input| || !IsIdentPart(input[i + u.width])) &&
      (u.kind == Reserved <==> input[i..i + u.width] in ReservedWords)
  {
    var c := input[i];
    if IsIdentStart(c) {
      assert !IsBlank(c) && c != '"' && !InTable(c) && !IsDigit(c);
      var j := RunEnd(input, i + 1, IsIdentPart);
      assert u == Tok(if input[i..j] in ReservedWords then Reserved else Identifier, j - i);
    }
  }

  /** The tokens and the errors of a run of the lexer. */
  datatype Output = Output(tokens: seq<Token>, errors: seq<Token>)

  /** What a recognised unit contributes, stamped at the position of offset `i`. */
  function Emit(input: string, i: nat, u: Unit): Output
    requires i < |input| && i + Width(u) <= |input|
  {
    var p := PosAt(input, i);
    match u
    case Blank => Output([], [])
    case Tok(k, w) => Output([Token(k, input[i..i + w], p.row, p.col)], [])
    case CutAtNewline(w) => Output([], [Token(UnclosedString, input[i..i + w] + "...", p.row, p.col)])
    case CutAtEnd(_) => Output([], [])
    case Stray => Output([], [Token(Unknown, [input[i]], p.row, p.col)])
  }

  /** The tokens and scan errors of `input[i..]`, unit after unit. */
  function Scan(input: string, i: nat): Output
    requires i <= |input|
    decreases |input| - i
  {
    if i == |input| then Output([], [])
    else
      var u := Recognize(input, i);
      var here := Emit(input, i, u);
      var rest := Scan(input, i + Width(u));
      Output(here.tokens + rest.tokens, here.errors + rest.errors)
  }

  // ---------------------------------------------------------------------
  // The structure pass (lines 143-217)
  // ---------------------------------------------------------------------

  /** The four tokens before index `k` are `STRING [ IDENTIFIER ]`. */
  predicate ValidShape(ts: seq<Token>, k: nat)
    requires k < |ts|
  {
    k >= 4 && ts[k - 4].kind == String && ts[k - 3].kind == LBracket
    && ts[k - 2].kind == Identifier && ts[k - 1].kind == RBracket
  }

  predicate BadAssign(ts: seq<Token>, k: nat)
    requires k < |ts|
  {
    ts[k].kind == Assign && !ValidShape(ts, k)
  }

  function InvalidAt(t: Token): Token {
    Token(InvalidAssignment, t.lexeme, t.row, t.col)
  }

  /** The INVALID_ASSIGNMENT errors of the first `n` tokens, in token order. */
  function AssignErrors(ts: seq<Token>, n: nat): seq<Token>
    requires n <= |ts|
  {
    if n == 0 then []
    else AssignErrors(ts, n - 1) + (if BadAssign(ts, n - 1) then [InvalidAt(ts[n - 1])] else [])
  }

  /** Openers minus closers among the first `n` tokens. */
  function Net(ts: seq<Token>, n: nat, open: Kind, close: Kind): int
    requires n <= |ts|
  {
    if n == 0 then 0
    else Net(ts, n - 1, open, close) + (if ts[n - 1].kind == open then 1 else 0)
                                     - (if ts[n - 1].kind == close then 1 else 0)
  }

  /** The one error a nonzero counter yields, at the last token's position. */
  function Unmatched(ts: seq<Token>, kind: Kind, count: int, opener: string, closer: string): seq<Token>
    requires count != 0 ==> ts != []
  {
    if count == 0 then []
    else [Token(kind, if count > 0 then opener else closer, ts[|ts| - 1].row, ts[|ts| - 1].col)]
  }

  /** Braces, then parentheses, then brackets. */
  function BalanceErrors(ts: seq<Token>): seq<Token> {
    var n := |ts|;
    Unmatched(ts, UnmatchedBraces, Net(ts, n, LBrace, RBrace), "{", "}")
    + Unmatched(ts, UnmatchedParens, Net(ts, n, LParen, RParen), "(", ")")
    + Unmatched(ts, UnmatchedBrackets, Net(ts, n, LBracket, RBracket), "[", "]")
  }

  /** The whole result: scan errors, then assignment errors, then balance errors. */
  function Lexer(input: string): Output {
    var s := Scan(input, 0);
    Output(s.tokens, s.errors + AssignErrors(s.tokens, |s.tokens|) + BalanceErrors(s.tokens))
  }

  // ---------------------------------------------------------------------
  // The implementation
  // ---------------------------------------------------------------------

  /** `lexer(input)`, lines 13-220. */
  method Lex(input: string) returns (tokens: seq<Token>, errors: seq<Token>)
    ensures Output(tokens, errors) == Lexer(input)
  {
    tokens, errors := ScanInput(input);
    errors := CheckStructure(tokens, errors);
  }

  /** The main loop, lines 14-141: one unit per turn, appended in order. */
  method ScanInput(input: string) returns (tokens: seq<Token>, errors: seq<Token>)
    ensures Output(tokens, errors) == Scan(input, 0)
  {
    tokens, errors := [], [];
    var row, col := 1, 1;
    var i := 0;
    while i < |input|
      invariant 0 <= i <= |input|
      invariant Pos(row, col) == PosAt(input, i)
      invariant tokens + Scan(input, i).tokens == Scan(input, 0).tokens
      invariant errors + Scan(input, i).errors == Scan(input, 0).errors
      decreases |input| - i
    {
      var toks, errs, next, row', col' := ScanUnit(input, i, row, col);
      ScanAppend(input, i, tokens, errors, toks, errs);
      tokens, errors := tokens + toks, errors + errs;
      i, row, col := next, row', col';
    }
  }

  /** Appending one unit's output keeps the accumulated output plus the rest
      of the scan unchanged. */
  lemma ScanAppend(input: string, i: nat, tokens: seq<Token>, errors: seq<Token>,
                   toks: seq<Token>, errs: seq<Token>)
    requires i < |input| && Output(toks, errs) == Emit(input, i, Recognize(input, i))
    ensures var next := i + Width(Recognize(input, i));
      && tokens + Scan(input, i).tokens == (tokens + toks) + Scan(input, next).tokens
      && errors + Scan(input, i).errors == (errors + errs) + Scan(input, next).errors
  {
    var rest := Scan(input, i + Width(Recognize(input, i)));
    assert Scan(input, i) == Output(toks + rest.tokens, errs + rest.errors);
    assert tokens + (toks + rest.tokens) == (tokens + toks) + rest.tokens;
    assert errors + (errs + rest.errors) == (errors + errs) + rest.errors;
  }

  /** One turn of the main loop (lines 24-140): what is pushed, where the
      scan continues, and the row and column it continues at. */
  method ScanUnit(input: string, i: nat, row: int, col: int)
    returns (toks: seq<Token>, errs: seq<Token>, next: nat, row': int, col': int)
    requires i < |input| && Pos(row, col) == PosAt(input, i)
    ensures var u := Recognize(input, i);
      && next == i + Width(u)
      && Output(toks, errs) == Emit(input, i, u)
      && Pos(row', col') == PosAt(input, next)
  {
    toks, errs := [], [];
    var startRow, startCol := row, col;
    var c := input[i];
    row', col' := row, col;
    if c == ' ' || c == '\t' || c == '\r' {
      next := i + 1;
      col' := col + 1;
      assert Recognize(input, i) == Blank;
      PosAtSlice(input, i, next);
    } else if c == '\n' {
      PosAtNewline(input, i);
      next := i + 1;
      row' := row + 1;
      col' := 1;
      assert Recognize(input, i) == Blank;
    } else if InTable(c) {
      var kind := TableKind(c);
      if c == '"' {
        toks, errs, next, col' := ScanQuoted(input, i, row, col);
      } else if c == ':' && i + 1 < |input| && input[i + 1] == '=' {
        assert input[i..i + 2] == ":=";
        toks := toks + [Token(Assign, ":=", startRow, startCol)];
        next := i + 2;
        col' := col + 2;
        assert Recognize(input, i) == Tok(Assign, 2);
        PosAtSlice(input, i, next);
      } else {
        assert input[i..i + 1] == [c];
        toks := toks + [Token(kind, [c], startRow, startCol)];
        next := i + 1;
        col' := col + 1;
        assert Recognize(input, i) == Tok(kind, 1);
        PosAtSlice(input, i, next);
      }
    } else if IsDigit(c) {
      toks, next, col' := ScanNumber(input, i, row, col);
    } else if IsIdentStart(c) {
      toks, next, col' := ScanWord(input, i, row, col);
    } else {
      errs := errs + [Token(Unknown, [c], startRow, startCol)];
      next := i + 1;
      col' := col + 1;
      assert Recognize(input, i) == Stray;
      PosAtSlice(input, i, next);
    }
  }

  /** The number turn, lines 109-120: the maximal digit run is one NUMBER. */
  method ScanNumber(input: string, i: nat, row: int, col: int)
    returns (toks: seq<Token>, next: nat, col': int)
    requires i < |input| && IsDigit(input[i]) && Pos(row, col) == PosAt(input, i)
    ensures var u := Recognize(input, i);
      && next == i + Width(u)
      && Output(toks, []) == Emit(input, i, u)
      && Pos(row, col') == PosAt(input, next)
  {
    var lexeme, j := ScanRun(input, i, IsDigit);
    toks := [Token(Number, lexeme, row, col)];
    col' := col + |lexeme|;
    next := j;
    PosAtSlice(input, i, next);
  }

  /** The identifier turn, lines 123-135: the maximal identifier run is one
      RESERVED token when it is a reserved word and one IDENTIFIER otherwise. */
  method ScanWord(input: string, i: nat, row: int, col: int)
    returns (toks: seq<Token>, next: nat, col': int)
    requires i < |input| && IsIdentStart(input[i]) && Pos(row, col) == PosAt(input, i)
    ensures var u := Recognize(input, i);
      && next == i + Width(u)
      && Output(toks, []) == Emit(input, i, u)
      && Pos(row, col') == PosAt(input, next)
  {
    var lexeme, j := ScanRun(input, i, IsIdentPart);
    var kind := if lexeme in ReservedWords then Reserved else Identifier;
    RecognizeWordIs(input, i, j, kind);
    toks := [Token(kind, lexeme, row, col)];
    col' := col + |lexeme|;
    next := j;
    assert Emit(input, i, Tok(kind, j - i)) == Output(toks, []);
    assert '\n' !in input[i..next];
    PosAtSlice(input, i, next);
  }

  lemma RecognizeWordIs(input: string, i: nat, j: nat, kind: Kind)
    requires i < |input| && IsIdentStart(input[i]) && j == RunEnd(input, i + 1, IsIdentPart)
    requires kind == if input[i..j] in ReservedWords then Reserved else Identifier
    ensures Recognize(input, i) == Tok(kind, j - i)
  {
  }

  /** The string-literal turn, lines 61-91: a closed literal is one STRING
      token, quotes included; a literal cut by a newline is one UNCLOSED_STRING
      error and the newline is scanned next; one cut by the end is dropped. */
  method ScanQuoted(input: string, i: nat, row: int, col: int)
    returns (toks: seq<Token>, errs: seq<Token>, next: nat, col': int)
    requires i < |input| && input[i] == '"' && Pos(row, col) == PosAt(input, i)
    ensures var u := Recognize(input, i);
      && next == i + Width(u)
      && Output(toks, errs) == Emit(input, i, u)
      && Pos(row, col') == PosAt(input, next)
  {
    var lexeme: string, j: nat, closed: bool;
    lexeme, j, closed, errs := ScanString(input, i, row, col, []);
    RecognizeQuoted(input, i, j);
    ghost var u := Recognize(input, i);
    toks := [];
    if closed {
      toks := [Token(String, lexeme, row, col)];
      next := j + 1;
      assert Emit(input, i, u) == Output(toks, errs);
    } else {
      next := j;
      assert Emit(input, i, u) == Output(toks, errs);
    }
    col' := col + |lexeme|;
    assert lexeme == input[i..next];
    PosAtSlice(input, i, next);
  }

  lemma RecognizeQuoted(input: string, i: nat, j: nat)
    requires i < |input| && input[i] == '"' && j == RunEnd(input, i + 1, NotStringStop)
    ensures Recognize(input, i) == if j < |input| && input[j] == '"' then Tok(String, j + 1 - i)
                                   else if j < |input| then CutAtNewline(j - i)
                                   else CutAtEnd(j - i)
  {
  }

  /** The inner loop of lines 62-82: read a string literal from the quote at
      `i` up to the closing quote, a newline or the end of input; a newline
      records one UNCLOSED_STRING error stamped at the opening quote. */
  method ScanString(input: string, i: nat, startRow: int, startCol: int, errors0: seq<Token>)
    returns (lexeme: string, j: nat, closed: bool, errors: seq<Token>)
    requires i < |input| && input[i] == '"'
    ensures j == RunEnd(input, i + 1, NotStringStop)
    ensures closed <==> j < |input| && input[j] == '"'
    ensures lexeme == if closed then input[i..j + 1] else input[i..j]
    ensures '\n' !in lexeme
    ensures errors == if !closed && j < |input|
                      then errors0 + [Token(UnclosedString, input[i..j] + "...", startRow, startCol)]
                      else errors0
  {
    errors := errors0;
    lexeme := "\"";
    j := i + 1;
    closed := false;
    while j < |input|
      invariant i + 1 <= j <= |input|
      invariant lexeme == input[i..j] && '\n' !in lexeme
      invariant forall k :: i < k < j ==> NotStringStop(input[k])
      invariant !closed && errors == errors0
      decreases |input| - j
    {
      if input[j] == '"' {
        lexeme := lexeme + "\"";
        closed := true;
        break;
      }
      if input[j] == '\n' {
        errors := errors + [Token(UnclosedString, lexeme + "...", startRow, startCol)];
        break;
      }
      lexeme := lexeme + [input[j]];
      j := j + 1;
    }
    RunEndUnique(input, i + 1, NotStringStop, j);
  }

  /** The inner loops of lines 110-115 and 124-129: the maximal run of
      characters satisfying `p` that starts with the one at `i`. */
  method ScanRun(input: string, i: nat, p: char -> bool) returns (lexeme: string, j: nat)
    requires i < |input| && p(input[i])
    ensures j == RunEnd(input, i + 1, p)
    ensures lexeme == input[i..j]
  {
    lexeme := [input[i]];
    j := i + 1;
    while j < |input| && p(input[j])
      invariant i + 1 <= j <= |input|
      invariant lexeme == input[i..j]
      invariant forall k :: i < k < j ==> p(input[k])
      decreases |input| - j
    {
      lexeme := lexeme + [input[j]];
      j := j + 1;
    }
    RunEndUnique(input, i + 1, p, j);
  }

  /** The structure pass, lines 143-217: the loop over the tokens, then the
      three counter checks. */
  method CheckStructure(tokens: seq<Token>, errors0: seq<Token>) returns (errors: seq<Token>)
    ensures errors == errors0 + AssignErrors(tokens, |tokens|) + BalanceErrors(tokens)
  {
    var braceCount, parenCount, bracketCount;
    errors, braceCount, parenCount, bracketCount := CheckTokens(tokens, errors0);
    var n := |tokens|;
    ghost var before := errors;
    ghost var balance := BalanceErrors(tokens);
    ghost var u1 := Unmatched(tokens, UnmatchedBraces, braceCount, "{", "}");
    ghost var u2 := Unmatched(tokens, UnmatchedParens, parenCount, "(", ")");
    ghost var u3 := Unmatched(tokens, UnmatchedBrackets, bracketCount, "[", "]");
    assert balance == u1 + u2 + u3;
    if braceCount != 0 {
      errors := errors + [Token(UnmatchedBraces, if braceCount > 0 then "{" else "}",
                                tokens[n - 1].row, tokens[n - 1].col)];
    }
    assert errors == before + u1;
    if parenCount != 0 {
      errors := errors + [Token(UnmatchedParens, if parenCount > 0 then "(" else ")",
                                tokens[n - 1].row, tokens[n - 1].col)];
    }
    assert errors == before + u1 + u2;
    if bracketCount != 0 {
      errors := errors + [Token(UnmatchedBrackets, if bracketCount > 0 then "[" else "]",
                                tokens[n - 1].row, tokens[n - 1].col)];
    }
    assert errors == before + (u1 + u2 + u3);
  }

  /** The loop of lines 148-190: the three net counters and the shape check
      of every ASSIGN. */
  method CheckTokens(tokens: seq<Token>, errors0: seq<Token>)
    returns (errors: seq<Token>, braceCount: int, parenCount: int, bracketCount: int)
    ensures errors == errors0 + AssignErrors(tokens, |tokens|)
    ensures braceCount == Net(tokens, |tokens|, LBrace, RBrace)
    ensures parenCount == Net(tokens, |tokens|, LParen, RParen)
    ensures bracketCount == Net(tokens, |tokens|, LBracket, RBracket)
  {
    errors := errors0;
    braceCount, parenCount, bracketCount := 0, 0, 0;
    for k := 0 to |tokens|
      invariant braceCount == Net(tokens, k, LBrace, RBrace)
      invariant parenCount == Net(tokens, k, LParen, RParen)
      invariant bracketCount == Net(tokens, k, LBracket, RBracket)
      invariant errors == errors0 + AssignErrors(tokens, k)
    {
      braceCount, parenCount, bracketCount := Count(tokens, k, braceCount, parenCount, bracketCount);
      errors := CheckAssign(tokens, k, errors0, errors);
    }
  }

  /** Lines 151-156: one token moves the three counters. */
  method Count(tokens: seq<Token>, k: nat, braceCount: int, parenCount: int, bracketCount: int)
    returns (braceCount': int, parenCount': int, bracketCount': int)
    requires k < |tokens|
    requires braceCount == Net(tokens, k, LBrace, RBrace)
    requires parenCount == Net(tokens, k, LParen, RParen)
    requires bracketCount == Net(tokens, k, LBracket, RBracket)
    ensures braceCount' == Net(tokens, k + 1, LBrace, RBrace)
    ensures parenCount' == Net(tokens, k + 1, LParen, RParen)
    ensures bracketCount' == Net(tokens, k + 1, LBracket, RBracket)
  {
    var token := tokens[k];
    braceCount', parenCount', bracketCount' := braceCount, parenCount, bracketCount;
    if token.kind == LBrace { braceCount' := braceCount' + 1; }
    if token.kind == RBrace { braceCount' := braceCount' - 1; }
    if token.kind == LParen { parenCount' := parenCount' + 1; }
    if token.kind == RParen { parenCount' := parenCount' - 1; }
    if token.kind == LBracket { bracketCount' := bracketCount' + 1; }
    if token.kind == RBracket { bracketCount' := bracketCount' - 1; }
  }

  /** Lines 159-189: an ASSIGN at `k` is checked against the four tokens
      before it. */
  method CheckAssign(tokens: seq<Token>, k: nat, errors0: seq<Token>, errors: seq<Token>)
    returns (errors': seq<Token>)
    requires k < |tokens|
    requires errors == errors0 + AssignErrors(tokens, k)
    ensures errors' == errors0 + AssignErrors(tokens, k + 1)
  {
    errors' := errors;
    var token := tokens[k];
    if token.kind == Assign {
      if k < 4 {
        errors' := errors' + [Token(InvalidAssignment, token.lexeme, token.row, token.col)];
        return;
      }
      var t1, t2, t3, t4 := tokens[k - 4], tokens[k - 3], tokens[k - 2], tokens[k - 1];
      if t1.kind != String || t2.kind != LBracket || t3.kind != Identifier || t4.kind != RBracket {
        errors' := errors' + [Token(InvalidAssignment, token.lexeme, token.row, token.col)];
      }
    }
  }

  // ---------------------------------------------------------------------
  // Properties of the scan
  // ---------------------------------------------------------------------

  /** The offsets at which the scan starts its tokens. */
  function TokenStarts(input: string, i: nat): seq<nat>
    requires i <= |input|
    decreases |input| - i
  {
    if i == |input| then []
    else
      var u := Recognize(input, i);
      (if u.Tok? then [i] else []) + TokenStarts(input, i + Width(u))
  }

  /** The token a unit that is a token contributes: the slice it covers,
      stamped with the position of its first character. */
  function UnitToken(input: string, i: nat): Token
    requires i < |input| && Recognize(input, i).Tok?
  {
    var u, p := Recognize(input, i), PosAt(input, i);
    Token(u.kind, input[i..i + u.width], p.row, p.col)
  }

  /** A unit that is a token puts that token in front of the rest. */
  lemma ScanHead(input: string, i: nat)
    requires i < |input| && Recognize(input, i).Tok?
    ensures var w := Width(Recognize(input, i));
      && Scan(input, i).tokens == [UnitToken(input, i)] + Scan(input, i + w).tokens
      && TokenStarts(input, i) == [i] + TokenStarts(input, i + w)
  {
    var u := Recognize(input, i);
    assert Emit(input, i, u).tokens == [UnitToken(input, i)];
  }

  /** Any other unit contributes no token. */
  lemma ScanSkip(input: string, i: nat)
    requires i < |input| && !Recognize(input, i).Tok?
    ensures var w := Width(Recognize(input, i));
      && Scan(input, i).tokens == Scan(input, i + w).tokens
      && TokenStarts(input, i) == TokenStarts(input, i + w)
  {
    var u := Recognize(input, i);
    assert Emit(input, i, u).tokens == [];
  }

  /** The token of a unit sits on the input where the unit starts. */
  lemma RecognizeSits(input: string, i: nat)
    requires i < |input| && Recognize(input, i).Tok?
    ensures SitsAt(input, UnitToken(input, i), i)
    ensures |UnitToken(input, i).lexeme| == Width(Recognize(input, i))
  {
  }

  /** Every token is the slice of the input it was read from, stamped with
      the position of its first character; the tokens are in input order and
      do not overlap. */
  lemma ScanLaidOut(input: string, i: nat)
    requires i <= |input|
    ensures LaidOut(input, Scan(input, i).tokens, TokenStarts(input, i), i)
  {
    ScanLaidOutFrom(input, i, i);
  }

  /** The tokens scanned from offset `i` sit on the input at their start
      offsets, the first at or after `from`. The lemmas below state it as
      `ScanLaidOutAt(..) == true`, which the verifier keeps as one fact
      instead of unfolding the recursive `LaidOut` into its conjuncts. */
  predicate ScanLaidOutAt(input: string, i: nat, from: nat)
    requires i <= |input|
  {
    LaidOut(input, Scan(input, i).tokens, TokenStarts(input, i), from)
  }

  lemma {:induction false} ScanLaidOutFrom(input: string, i: nat, from: nat)
    requires from <= i <= |input|
    ensures ScanLaidOutAt(input, i, from) == true
    decreases |input| - i, 1
  {
    if i < |input| {
      if Recognize(input, i).Tok? {
        ScanLaidOutTok(input, i, from);
      } else {
        ScanLaidOutSkip(input, i, from);
      }
    }
  }

  lemma {:induction false} ScanLaidOutTok(input: string, i: nat, from: nat)
    requires from <= i < |input| && Recognize(input, i).Tok?
    ensures ScanLaidOutAt(input, i, from) == true
    decreases |input| - i, 0
  {
    ScanLaidOutFrom(input, i + Width(Recognize(input, i)), i + Width(Recognize(input, i)));
    ScanLaidOutPush(input, i, from);
  }

  lemma ScanLaidOutPush(input: string, i: nat, from: nat)
    requires from <= i < |input| && Recognize(input, i).Tok?
    requires ScanLaidOutAt(input, i + Width(Recognize(input, i)), i + Width(Recognize(input, i))) == true
    ensures ScanLaidOutAt(input, i, from) == true
  {
    ScanHead(input, i);
    RecognizeSits(input, i);
    LaidOutPush(input, UnitToken(input, i), i, Width(Recognize(input, i)),
                Scan(input, i + Width(Recognize(input, i))).tokens,
                TokenStarts(input, i + Width(Recognize(input, i))), from,
                Scan(input, i).tokens, TokenStarts(input, i));
  }

  lemma {:induction false} ScanLaidOutSkip(input: string, i: nat, from: nat)
    requires from <= i < |input| && !Recognize(input, i).Tok?
    ensures ScanLaidOutAt(input, i, from) == true
    decreases |input| - i, 0
  {
    ScanLaidOutFrom(input, i + Width(Recognize(input, i)), from);
    ScanLaidOutKeep(input, i, from);
  }

  lemma ScanLaidOutKeep(input: string, i: nat, from: nat)
    requires from <= i < |input| && !Recognize(input, i).Tok?
    requires ScanLaidOutAt(input, i + Width(Recognize(input, i)), from) == true
    ensures ScanLaidOutAt(input, i, from) == true
  {
    ScanSkip(input, i);
    LaidOutSame(input, Scan(input, i + Width(Recognize(input, i))).tokens,
                TokenStarts(input, i + Width(Recognize(input, i))), from,
                Scan(input, i).tokens, TokenStarts(input, i));
  }

  lemma LaidOutSame(text: string, ts: seq<Token>, offs: seq<nat>, from: nat, ts': seq<Token>, offs': seq<nat>)
    requires LaidOut(text, ts, offs, from) == true
    requires ts' == ts && offs' == offs
    ensures LaidOut(text, ts', offs', from) == true
  {
  }

  lemma LaidOutPush(text: string, t: Token, o: nat, w: nat, ts: seq<Token>, offs: seq<nat>, from: nat,
                    ts': seq<Token>, offs': seq<nat>)
    requires from <= o && SitsAt(text, t, o) && |t.lexeme| == w
    requires LaidOut(text, ts, offs, o + w) == true
    requires ts' == [t] + ts && offs' == [o] + offs
    ensures LaidOut(text, ts', offs', from) == true
  {
    LaidOutCons(text, t, o, ts, offs, from);
  }

  /** What every scan token looks like: never an error kind nor the quote's
      table entry; a word is RESERVED exactly when it is a reserved word; a
      STRING starts and ends with a quote. */
  predicate TokenShape(t: Token) {
    && t.kind in {Reserved, Identifier, String, Number, LBrace, RBrace, LParen, RParen,
                  LBracket, RBracket, Colon, Assign, Equal, Semicolon}
    && (t.kind == Reserved ==> t.lexeme in ReservedWords)
    && (t.kind == Identifier ==> t.lexeme !in ReservedWords)
    && (t.kind == String ==> 2 <= |t.lexeme| && t.lexeme[0] == '"' && t.lexeme[|t.lexeme| - 1] == '"')
  }

  lemma RecognizeShape(input: string, i: nat)
    requires i < |input| && Recognize(input, i).Tok?
    ensures TokenShape(UnitToken(input, i))
  {
    var u := Recognize(input, i);
    RecognizeString(input, i, u);
    RecognizeWord(input, i, u);
  }

  /** A property of every token a unit can give holds of every scan token. */
  lemma {:induction false} ScanTokensAll(input: string, i: nat, P: Token -> bool)
    requires i <= |input|
    requires forall j :: i <= j < |input| && Recognize(input, j).Tok? ==> P(UnitToken(input, j))
    ensures forall t :: t in Scan(input, i).tokens ==> P(t)
    decreases |input| - i
  {
    if i < |input| {
      ScanTokensAll(input, i + Width(Recognize(input, i)), P);
      ScanTokensStep(input, i, P);
    }
  }

  lemma ScanTokensStep(input: string, i: nat, P: Token -> bool)
    requires i < |input|
    requires Recognize(input, i).Tok? ==> P(UnitToken(input, i))
    requires forall t :: t in Scan(input, i + Width(Recognize(input, i))).tokens ==> P(t)
    ensures forall t :: t in Scan(input, i).tokens ==> P(t)
  {
    if Recognize(input, i).Tok? {
      ScanHead(input, i);
    } else {
      ScanSkip(input, i);
    }
  }

  /** Every scan token has the shape above. */
  lemma ScanTokenKinds(input: string, i: nat)
    requires i <= |input|
    ensures forall t :: t in Scan(input, i).tokens ==> TokenShape(t)
  {
    forall j | i <= j < |input| && Recognize(input, j).Tok?
      ensures TokenShape(UnitToken(input, j))
    {
      RecognizeShape(input, j);
    }
    ScanTokensAll(input, i, TokenShape);
  }

  /** A character no rule accepts. */
  predicate Unaccepted(c: char) {
    !(IsBlank(c) || InTable(c) || IsDigit(c) || IsIdentStart(c))
  }

  function UnknownAt(input: string, k: nat): Token
    requires k < |input|
  {
    Token(Unknown, [input[k]], PosAt(input, k).row, PosAt(input, k).col)
  }

  /** The errors the unit at `i` contributes in front of the rest. */
  lemma ScanErrorsHead(input: string, i: nat)
    requires i < |input|
    ensures var u := Recognize(input, i);
      Scan(input, i).errors == Emit(input, i, u).errors + Scan(input, i + Width(u)).errors
  {
  }

  /** Outside a string literal, a character no rule accepts is a unit of its
      own, and that unit is reported as UNKNOWN. */
  lemma UnacceptedStartsUnit(input: string, i: nat, k: nat)
    requires i < |input| && input[i] != '"'
    requires i <= k < i + Width(Recognize(input, i)) && Unaccepted(input[k])
    ensures k == i && Emit(input, i, Recognize(input, i)).errors == [UnknownAt(input, k)]
  {
    var u := Recognize(input, i);
    RecognizeStray(input, i);
    RecognizeSymbol(input, i, u);
    RecognizeNumber(input, i, u);
    RecognizeWord(input, i, u);
  }

  /** An UNKNOWN error of a unit is its first character, which no rule accepts. */
  lemma EmitUnknown(input: string, i: nat, e: Token)
    requires i < |input| && e in Emit(input, i, Recognize(input, i)).errors && e.kind == Unknown
    ensures Unaccepted(input[i]) && e == UnknownAt(input, i)
  {
    RecognizeStray(input, i);
  }

  /** The start of the unit that covers offset `k` when the scan begins at `i`. */
  function CoveringUnit(input: string, i: nat, k: nat): (s: nat)
    requires i <= k < |input|
    ensures i <= s <= k < s + Width(Recognize(input, s))
    decreases |input| - i
  {
    if k < i + Width(Recognize(input, i)) then i else CoveringUnit(input, i + Width(Recognize(input, i)), k)
  }

  /** Outside string literals (the unit covering the character does not start
      at a quote), every character no rule accepts is reported as one UNKNOWN
      error at its own position. */
  lemma {:induction false} UnacceptedReported(input: string, i: nat, k: nat)
    requires i <= k < |input| && Unaccepted(input[k])
    requires input[CoveringUnit(input, i, k)] != '"'
    ensures UnknownAt(input, k) in Scan(input, i).errors
    decreases |input| - i, 1
  {
    if k < i + Width(Recognize(input, i)) {
      UnacceptedStartsUnit(input, i, k);
      ScanErrorsIn(input, i, UnknownAt(input, k));
    } else {
      UnacceptedLater(input, i, k);
    }
  }

  lemma {:induction false} UnacceptedLater(input: string, i: nat, k: nat)
    requires i < |input| && i + Width(Recognize(input, i)) <= k < |input| && Unaccepted(input[k])
    requires input[CoveringUnit(input, i + Width(Recognize(input, i)), k)] != '"'
    ensures UnknownAt(input, k) in Scan(input, i).errors
    decreases |input| - i, 0
  {
    UnacceptedReported(input, i + Width(Recognize(input, i)), k);
    ScanErrorsIn(input, i, UnknownAt(input, k));
  }

  /** An error of the unit at `i`, or of the rest, is an error of the scan from `i`. */
  lemma ScanErrorsIn(input: string, i: nat, e: Token)
    requires i < |input|
    requires e in Emit(input, i, Recognize(input, i)).errors || e in Scan(input, i + Width(Recognize(input, i))).errors
    ensures e in Scan(input, i).errors
  {
    ScanErrorsHead(input, i);
  }

  /** In particular, with no quote before it, an unaccepted character is
      always reported. */
  lemma UnacceptedReportedBeforeQuotes(input: string, k: nat)
    requires k < |input| && Unaccepted(input[k]) && forall m :: 0 <= m <= k ==> input[m] != '"'
    ensures UnknownAt(input, k) in Scan(input, 0).errors
  {
    UnacceptedReported(input, 0, k);
  }

  /** Every UNKNOWN error is a character no rule accepts, at its position. */
  lemma {:induction false} UnknownIsUnaccepted(input: string, i: nat, e: Token)
    requires i <= |input| && e in Scan(input, i).errors && e.kind == Unknown
    ensures exists k :: i <= k < |input| && Unaccepted(input[k]) && e == UnknownAt(input, k)
    decreases |input| - i
  {
    var u := Recognize(input, i);
    var j := i + Width(u);
    ScanErrorsHead(input, i);
    if e in Emit(input, i, u).errors {
      EmitUnknown(input, i, e);
    } else {
      UnknownIsUnaccepted(input, j, e);
      var k :| j <= k < |input| && Unaccepted(input[k]) && e == UnknownAt(input, k);
      assert i <= k;
    }
  }

  // ---------------------------------------------------------------------
  // Properties of the structure pass
  // ---------------------------------------------------------------------

  /** One INVALID_ASSIGNMENT error per ASSIGN token of the wrong shape, at
      that token's position, and no other. */
  lemma {:induction false} AssignErrorsExact(ts: seq<Token>, n: nat)
    requires n <= |ts|
    ensures forall e :: (e in AssignErrors(ts, n)
                         <==> exists k :: 0 <= k < n && BadAssign(ts, k) && e == InvalidAt(ts[k]))
  {
    if n > 0 {
      AssignErrorsExact(ts, n - 1);
    }
  }

  /** Well-shaped assignments alone produce no INVALID_ASSIGNMENT error. */
  lemma {:induction false} AssignErrorsNone(ts: seq<Token>, n: nat)
    requires n <= |ts|
    requires forall k :: 0 <= k < n && ts[k].kind == Assign ==> ValidShape(ts, k)
    ensures AssignErrors(ts, n) == []
  {
    if n > 0 {
      AssignErrorsNone(ts, n - 1);
    }
  }

  /** The counters only see net counts: concatenating token lists adds them. */
  lemma {:induction false} NetAppend(a: seq<Token>, b: seq<Token>, n: nat, open: Kind, close: Kind)
    requires n <= |b|
    ensures Net(a + b, |a| + n, open, close) == Net(a, |a|, open, close) + Net(b, n, open, close)
  {
    if n == 0 {
      assert Net(a + b, |a|, open, close) == Net(a, |a|, open, close) by {
        NetPrefix(a + b, a, |a|, open, close);
      }
    } else {
      NetAppend(a, b, n - 1, open, close);
      assert (a + b)[|a| + n - 1] == b[n - 1];
    }
  }

  lemma {:induction false} NetPrefix(ts: seq<Token>, pre: seq<Token>, n: nat, open: Kind, close: Kind)
    requires n <= |pre| <= |ts| && pre == ts[..|pre|]
    ensures Net(ts, n, open, close) == Net(pre, n, open, close)
  {
    if n > 0 {
      NetPrefix(ts, pre, n - 1, open, close);
      assert ts[n - 1] == pre[n - 1];
    }
  }

  /** The balance pass yields at most one error per counter, none exactly when
      all three counters end at zero, each at the last token's position. */
  lemma BalanceErrorsExact(ts: seq<Token>)
    ensures |BalanceErrors(ts)| <= 3
    ensures BalanceErrors(ts) == []
      <==> Net(ts, |ts|, LBrace, RBrace) == 0 && Net(ts, |ts|, LParen, RParen) == 0
           && Net(ts, |ts|, LBracket, RBracket) == 0
    ensures forall e :: e in BalanceErrors(ts) ==> ts != [] && PosOf(e) == PosOf(ts[|ts| - 1])
    ensures Reports(BalanceErrors(ts), UnmatchedBraces, Net(ts, |ts|, LBrace, RBrace), "{", "}")
    ensures Reports(BalanceErrors(ts), UnmatchedParens, Net(ts, |ts|, LParen, RParen), "(", ")")
    ensures Reports(BalanceErrors(ts), UnmatchedBrackets, Net(ts, |ts|, LBracket, RBracket), "[", "]")
    ensures Ranked(BalanceErrors(ts))
    ensures forall e :: e in BalanceErrors(ts) ==> Rank(e.kind) < 3
  {
    var n := |ts|;
    UnmatchedFacts(ts, UnmatchedBraces, Net(ts, n, LBrace, RBrace), "{", "}");
    UnmatchedFacts(ts, UnmatchedParens, Net(ts, n, LParen, RParen), "(", ")");
    UnmatchedFacts(ts, UnmatchedBrackets, Net(ts, n, LBracket, RBracket), "[", "]");
    ThreePieces(Unmatched(ts, UnmatchedBraces, Net(ts, n, LBrace, RBrace), "{", "}"),
                Unmatched(ts, UnmatchedParens, Net(ts, n, LParen, RParen), "(", ")"),
                Unmatched(ts, UnmatchedBrackets, Net(ts, n, LBracket, RBracket), "[", "]"),
                Net(ts, n, LBrace, RBrace), Net(ts, n, LParen, RParen), Net(ts, n, LBracket, RBracket));
    ThreeKinds(Unmatched(ts, UnmatchedBraces, Net(ts, n, LBrace, RBrace), "{", "}"),
               Unmatched(ts, UnmatchedParens, Net(ts, n, LParen, RParen), "(", ")"),
               Unmatched(ts, UnmatchedBrackets, Net(ts, n, LBracket, RBracket), "[", "]"));
  }

  /** Three pieces of balance kinds hold nothing of another kind. */
  lemma ThreeKinds(a: seq<Token>, b: seq<Token>, c: seq<Token>)
    requires forall e :: e in a ==> e.kind == UnmatchedBraces
    requires forall e :: e in b ==> e.kind == UnmatchedParens
    requires forall e :: e in c ==> e.kind == UnmatchedBrackets
    ensures forall e :: e in a + b + c ==> Rank(e.kind) < 3
  {
    assert forall e :: e in a + b + c ==> e in a || e in b || e in c;
  }

  /** A counter's error piece: empty at zero, otherwise one error of its
      kind naming the opener or the closer, at the last token's position. */
  lemma UnmatchedFacts(ts: seq<Token>, kind: Kind, net: int, opener: string, closer: string)
    requires net != 0 ==> ts != []
    ensures Piece(Unmatched(ts, kind, net, opener, closer), kind, net, opener, closer)
    ensures forall e :: e in Unmatched(ts, kind, net, opener, closer) ==> ts != [] && PosOf(e) == PosOf(ts[|ts| - 1])
  {
    var u := Unmatched(ts, kind, net, opener, closer);
    if net != 0 {
      assert u[0] in u;
    }
  }

  /** What one counter contributes: at most one error, of its own kind,
      present exactly when the counter is nonzero. */
  predicate Piece(u: seq<Token>, kind: Kind, net: int, opener: string, closer: string) {
    && |u| <= 1 && (u == [] <==> net == 0) && Reports(u, kind, net, opener, closer)
    && forall e :: e in u ==> e.kind == kind
  }

  /** The three counters' pieces, in order, make the balance errors. */
  lemma ThreePieces(a: seq<Token>, b: seq<Token>, c: seq<Token>, na: int, nb: int, nc: int)
    requires Piece(a, UnmatchedBraces, na, "{", "}")
    requires Piece(b, UnmatchedParens, nb, "(", ")")
    requires Piece(c, UnmatchedBrackets, nc, "[", "]")
    ensures |a + b + c| <= 3
    ensures a + b + c == [] <==> na == 0 && nb == 0 && nc == 0
    ensures forall e :: e in a + b + c <==> e in a || e in b || e in c
    ensures Reports(a + b + c, UnmatchedBraces, na, "{", "}")
    ensures Reports(a + b + c, UnmatchedParens, nb, "(", ")")
    ensures Reports(a + b + c, UnmatchedBrackets, nc, "[", "]")
    ensures Ranked(a + b + c)
  {
    assert a + b + c == a + (b + c);
    ThreeReports(a, b, c, na, nb, nc);
    ThreeRanked(a, b, c);
  }

  lemma ThreeReports(a: seq<Token>, b: seq<Token>, c: seq<Token>, na: int, nb: int, nc: int)
    requires Reports(a, UnmatchedBraces, na, "{", "}") && forall e :: e in a ==> e.kind == UnmatchedBraces
    requires Reports(b, UnmatchedParens, nb, "(", ")") && forall e :: e in b ==> e.kind == UnmatchedParens
    requires Reports(c, UnmatchedBrackets, nc, "[", "]") && forall e :: e in c ==> e.kind == UnmatchedBrackets
    ensures Reports(a + (b + c), UnmatchedBraces, na, "{", "}")
    ensures Reports(a + (b + c), UnmatchedParens, nb, "(", ")")
    ensures Reports(a + (b + c), UnmatchedBrackets, nc, "[", "]")
  {
    assert forall e :: e in b + c <==> e in b || e in c;
    ReportsAppend(a, b + c, UnmatchedBraces, na, "{", "}");
    ReportsAppend(b, c, UnmatchedParens, nb, "(", ")");
    ReportsPrepend(a, b + c, UnmatchedParens, nb, "(", ")");
    ReportsPrepend(b, c, UnmatchedBrackets, nc, "[", "]");
    ReportsPrepend(a, b + c, UnmatchedBrackets, nc, "[", "]");
  }

  lemma ThreeRanked(a: seq<Token>, b: seq<Token>, c: seq<Token>)
    requires |a| <= 1 && |b| <= 1 && |c| <= 1
    requires forall e :: e in a ==> e.kind == UnmatchedBraces
    requires forall e :: e in b ==> e.kind == UnmatchedParens
    requires forall e :: e in c ==> e.kind == UnmatchedBrackets
    ensures Ranked(a + (b + c))
  {
    RankedAppend(b, c);
    assert forall f :: f in b + c ==> f in b || f in c;
    RankedAppend(a, b + c);
  }

  lemma ReportsAppend(x: seq<Token>, y: seq<Token>, kind: Kind, net: int, opener: string, closer: string)
    requires Reports(x, kind, net, opener, closer) && forall e :: e in y ==> e.kind != kind
    ensures Reports(x + y, kind, net, opener, closer)
  {
    assert forall e :: e in x + y <==> e in x || e in y;
  }

  lemma ReportsPrepend(x: seq<Token>, y: seq<Token>, kind: Kind, net: int, opener: string, closer: string)
    requires Reports(y, kind, net, opener, closer) && forall e :: e in x ==> e.kind != kind
    ensures Reports(x + y, kind, net, opener, closer)
  {
    assert forall e :: e in x + y <==> e in x || e in y;
  }

  /** Errors in strictly increasing rank: at most one per kind, in order. */
  predicate Ranked(errs: seq<Token>) {
    forall j, k :: 0 <= j < k < |errs| ==> Rank(errs[j].kind) < Rank(errs[k].kind)
  }

  lemma RankedAppend(x: seq<Token>, y: seq<Token>)
    requires |x| <= 1 && Ranked(y)
    requires forall e, f :: e in x && f in y ==> Rank(e.kind) < Rank(f.kind)
    ensures Ranked(x + y)
  {
    forall j, k | 0 <= j < k < |x + y|
      ensures Rank((x + y)[j].kind) < Rank((x + y)[k].kind)
    {
      if k < |x| {
      } else if j < |x| {
        assert (x + y)[j] in x && (x + y)[k] in y;
      } else {
        assert (x + y)[j] == y[j - |x|] && (x + y)[k] == y[k - |x|];
      }
    }
  }

  /** `errs` holds an error of `kind` exactly when the counter `net` is
      nonzero, and such an error names the opener when the counter is
      positive and the closer when it is negative. */
  predicate Reports(errs: seq<Token>, kind: Kind, net: int, opener: string, closer: string) {
    && ((exists e :: e in errs && e.kind == kind) <==> net != 0)
    && forall e :: e in errs && e.kind == kind ==> e.lexeme == if net > 0 then opener else closer
  }

  /** The order of the balance errors: braces, parentheses, brackets. */
  function Rank(kind: Kind): nat {
    match kind
    case UnmatchedBraces => 0
    case UnmatchedParens => 1
    case UnmatchedBrackets => 2
    case _ => 3
  }
}
