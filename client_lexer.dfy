/** The regular-expression lexer of the client (src/lexer.ts): an ordered
    table of anchored patterns tried at the current offset, the first that
    matches deciding the token. The scan functions take the table as a
    parameter; `TokenSpecs` is the table of the source. */
module ClientLexer {
  import opened Lexical

  // ---------------------------------------------------------------------
  // The rule table (lines 8-25)
  // ---------------------------------------------------------------------

  /** The character classes the patterns use. */
  datatype Class = Digits | IdentStarts | IdentParts | Spaces

  /** `\d`, `[a-zA-ZáéíóúÁÉÍÓÚñÑ_]`, `[a-zA-Z0-9_áéíóúÁÉÍÓÚñÑ]`, `[ \t\r]`. */
  function Pred(cl: Class): char -> bool {
    match cl
    case Digits => IsDigit
    case IdentStarts => IsIdentStart
    case IdentParts => IsIdentPart
    case Spaces => IsSpace
  }

  predicate IsSpace(c: char) { c == ' ' || c == '\t' || c == '\r' }

  /** Membership in a class, as a plain predicate. */
  predicate In(cl: Class, c: char) {
    match cl
    case Digits => IsDigit(c)
    case IdentStarts => IsIdentStart(c)
    case IdentParts => IsIdentPart(c)
    case Spaces => IsSpace(c)
  }

  /** `[^"]` (a newline included). */
  predicate NotQuote(c: char) { c != '"' }

  /** The shapes of the anchored regular expressions of the table. */
  datatype Pattern =
    | Sym(c: char)                    // the one-character literal `c`
    | Pair(c: char, d: char)          // the two-character literal `cd`
    | Word(s: string)                 // the literal `s` followed by `\b`
    | Quoted                          // `"[^"]*"`
    | Run(first: Class, rest: Class)  // one `first` character, then `rest*`

  datatype Rule = Rule(kind: Kind, pattern: Pattern)

  /** A rule table, tried from its head. */
  datatype Table = End | Then(rule: Rule, rest: Table)

  /** `tokenSpecs`, in table order. The table is written in two halves so
      that the solver evaluates facts about each half separately. */
  const TokenSpecs: Table :=
    Then(Rule(Reserved, Word("Jugador")),
    Then(Rule(Colon, Sym(':')),
    Then(Rule(String, Quoted),
    Then(Rule(LBrace, Sym('{')),
    Then(Rule(RBrace, Sym('}')),
    Then(Rule(LParen, Sym('(')),
    Then(Rule(RParen, Sym(')')),
    Then(Rule(LBracket, Sym('[')),
    LaterSpecs))))))))

  /** Lines 17-24 of the table. */
  const LaterSpecs: Table :=
    Then(Rule(RBracket, Sym(']')),
    Then(Rule(Assign, Pair(':', '=')),
    Then(Rule(Equal, Sym('=')),
    Then(Rule(Semicolon, Sym(';')),
    Then(Rule(Number, Run(Digits, Digits)),
    Then(IdentRule,
    Then(Rule(Newline, Sym('\n')),
    Then(Rule(Whitespace, Run(Spaces, Spaces)),
    End))))))))

  /** The rules of a table as a sequence, for statements about their order. */
  function Entries(t: Table): seq<Rule> {
    match t
    case End => []
    case Then(r, rest) => [r] + Entries(rest)
  }

  /** JavaScript's `\b` at offset `k > 0`: exactly one of the two characters
      around `k` is a word character (the end of input is not one). */
  predicate Boundary(input: string, k: nat)
    requires 0 < k <= |input|
  {
    IsWordChar(input[k - 1]) != (k < |input| && IsWordChar(input[k]))
  }

  /** The length of the match of `p` against `input.slice(i)`, or None.
      An empty literal is not taken as a match, since it would consume
      nothing; no literal of the table is empty. */
  function Match(p: Pattern, input: string, i: nat): (m: Option<nat>)
    requires i < |input|
    ensures m.Some? ==> 1 <= m.value <= |input| - i
  {
    match p
    case Sym(c) => if input[i] == c then Some(1) else None
    case Pair(c, d) => if input[i] == c && i + 1 < |input| && input[i + 1] == d then Some(2) else None
    case Word(s) =>
      if s != [] && i + |s| <= |input| && input[i..i + |s|] == s && Boundary(input, i + |s|)
      then Some(|s|) else None
    case Quoted =>
      if input[i] != '"' then None
      else
        var j := RunEnd(input, i + 1, NotQuote);
        if j < |input| then Some(j + 1 - i) else None
    case Run(first, rest) =>
      if In(first, input[i]) then Some(RunEnd(input, i + 1, Pred(rest)) - i) else None
  }

  /** The rule that wins at an offset and the length of its match. */
  datatype Hit = Hit(kind: Kind, len: nat)

  /** The first rule of `t` whose pattern matches at `i` (lines 36-42). */
  function First(t: Table, input: string, i: nat): (h: Option<Hit>)
    requires i < |input|
    ensures h.Some? ==> 1 <= h.value.len <= |input| - i
  {
    match t
    case End => None
    case Then(r, rest) =>
      match Match(r.pattern, input, i)
      case Some(n) => Some(Hit(r.kind, n))
      case None => First(rest, input, i)
  }

  // ---------------------------------------------------------------------
  // The scan
  // ---------------------------------------------------------------------

  /** What one turn of the loop consumes: the match of a rule, or a single
      character no rule matches. */
  datatype Piece = Matched(kind: Kind, text: string) | Unmatched(c: char)

  function Lexeme(p: Piece): string {
    match p
    case Matched(_, s) => s
    case Unmatched(c) => [c]
  }

  /** The piece the scan consumes at offset `i`: never empty, and always the
      input's own text from `i` on. */
  function PieceAt(t: Table, input: string, i: nat): (p: Piece)
    requires i < |input|
    ensures 1 <= |Lexeme(p)| <= |input| - i && Lexeme(p) == input[i..i + |Lexeme(p)|]
  {
    match First(t, input, i)
    case None => Unmatched(input[i])
    case Some(h) => Matched(h.kind, input[i..i + h.len])
  }

  /** The pieces of `input[i..]`, turn by turn. */
  function Pieces(t: Table, input: string, i: nat): seq<Piece>
    requires i <= |input|
    decreases |input| - i
  {
    if i == |input| then []
    else
      var p := PieceAt(t, input, i);
      [p] + Pieces(t, input, i + |Lexeme(p)|)
  }

  /** What one piece pushes at position `at` (lines 43-63): an unmatched
      character is pushed as UNKNOWN, NEWLINE and WHITESPACE matches are not
      pushed, any other match is pushed as a token of its rule's type. */
  function Emitted(p: Piece, at: Pos): seq<Token> {
    match p
    case Unmatched(c) => [Token(Unknown, [c], at.row, at.col)]
    case Matched(k, s) =>
      if k == Newline || k == Whitespace then [] else [Token(k, s, at.row, at.col)]
  }

  /** Where the scan continues after a piece: a NEWLINE match or an
      unmatched newline moves to the next row, anything else moves the column
      by the length of the lexeme. */
  function Next(p: Piece, at: Pos): Pos {
    match p
    case Unmatched(c) => if c == '\n' then Pos(at.row + 1, 1) else Pos(at.row, at.col + 1)
    case Matched(k, s) => if k == Newline then Pos(at.row + 1, 1) else Pos(at.row, at.col + |s|)
  }

  /** The tokens the pieces give from position `at` on. */
  function Stamp(ps: seq<Piece>, at: Pos): seq<Token>
    decreases |ps|
  {
    if ps == [] then [] else Emitted(ps[0], at) + Stamp(ps[1..], Next(ps[0], at))
  }

  /** The tokens a scan with table `t` returns. */
  function Tokens(t: Table, input: string): seq<Token> {
    Stamp(Pieces(t, input, 0), Pos(1, 1))
  }

  /** The tokens `lexer(input)` returns. */
  function Lexer(input: string): seq<Token> {
    Tokens(TokenSpecs, input)
  }

  // ---------------------------------------------------------------------
  // The implementation
  // ---------------------------------------------------------------------

  /** `lexer(input)`, lines 27-67. */
  method Lex(input: string) returns (tokens: seq<Token>)
    ensures tokens == Lexer(input)
  {
    tokens := Scan(TokenSpecs, input);
  }

  /** The loop of lines 28-66 over the rule table `t`: one piece per turn,
      its token (if any) stamped with the tracked row and column. */
  method Scan(t: Table, input: string) returns (tokens: seq<Token>)
    ensures tokens == Tokens(t, input)
  {
    tokens := [];
    var row, col := 1, 1;
    var i := 0;
    while i < |input|
      invariant 0 <= i <= |input|
      invariant tokens + Stamp(Pieces(t, input, i), Pos(row, col)) == Tokens(t, input)
      decreases |input| - i
    {
      ghost var i0, at0 := i, Pos(row, col);
      var step: seq<Token>;
      step, row, col, i := ScanTurn(t, input, i, row, col);
      TurnKeeps(t, input, i0, at0, step, Pos(row, col), i);
      assert tokens + (step + Stamp(Pieces(t, input, i), Pos(row, col)))
          == (tokens + step) + Stamp(Pieces(t, input, i), Pos(row, col));
      tokens := tokens + step;
    }
    assert tokens + [] == tokens;
  }

  /** One turn of the loop, lines 34-64: what it pushes, and the row,
      column and offset it continues at. */
  method ScanTurn(t: Table, input: string, i: nat, row: int, col: int)
    returns (step: seq<Token>, row': int, col': int, i': nat)
    requires i < |input|
    ensures step == Emitted(PieceAt(t, input, i), Pos(row, col))
    ensures Pos(row', col') == Next(PieceAt(t, input, i), Pos(row, col))
    ensures i' == i + |Lexeme(PieceAt(t, input, i))|
  {
    var hit := FirstMatch(t, input, i);
    if hit.None? {
      step := [Token(Unknown, [input[i]], row, col)];
      if input[i] == '\n' {
        row', col' := row + 1, 1;
      } else {
        row', col' := row, col + 1;
      }
      i' := i + 1;
      return;
    }
    var lexeme := input[i..i + hit.value.len];
    var matchedType := hit.value.kind;
    row', col' := row, col;
    step := [];
    if matchedType == Newline {
      row', col' := row + 1, 1;
    } else if matchedType != Whitespace {
      step := [Token(matchedType, lexeme, row, col)];
      col' := col + |lexeme|;
    } else {
      col' := col + |lexeme|;
    }
    i' := i + |lexeme|;
  }

  /** The inner loop of lines 36-42: try the rules in table order and stop
      at the first that matches. */
  method FirstMatch(t: Table, input: string, i: nat) returns (hit: Option<Hit>)
    requires i < |input|
    ensures hit == First(t, input, i)
  {
    var specs := t;
    while specs.Then?
      invariant First(t, input, i) == First(specs, input, i)
      decreases specs
    {
      var m := Match(specs.rule.pattern, input, i);
      if m.Some? {
        return Some(Hit(specs.rule.kind, m.value));
      }
      specs := specs.rest;
    }
    return None;
  }

  /** A turn emits the piece's tokens in front of the rest of the scan. */
  lemma TurnKeeps(t: Table, input: string, i: nat, at: Pos, step: seq<Token>, at': Pos, i': nat)
    requires i < |input|
    requires step == Emitted(PieceAt(t, input, i), at) && at' == Next(PieceAt(t, input, i), at)
    requires i' == i + |Lexeme(PieceAt(t, input, i))|
    ensures step + Stamp(Pieces(t, input, i'), at') == Stamp(Pieces(t, input, i), at)
  {
    var ps := Pieces(t, input, i);
    assert ps[1..] == Pieces(t, input, i');
  }

  // ---------------------------------------------------------------------
  // First match in table order
  // ---------------------------------------------------------------------

  /** No rule is chosen exactly when no pattern of the table matches. */
  lemma {:induction false} FirstNone(t: Table, input: string, i: nat)
    requires i < |input|
    ensures First(t, input, i).None?
        <==> forall q :: 0 <= q < |Entries(t)| ==> Match(Entries(t)[q].pattern, input, i).None?
  {
    if t.Then? {
      FirstNone(t.rest, input, i);
      assert Entries(t) == [t.rule] + Entries(t.rest);
      if First(t, input, i).None? {
        forall q | 0 < q < |Entries(t)|
          ensures Match(Entries(t)[q].pattern, input, i).None?
        {
          assert Entries(t)[q] == Entries(t.rest)[q - 1];
        }
        assert Entries(t)[0] == t.rule;
        assert Match(t.rule.pattern, input, i).None?;
        assert forall q :: 0 <= q < |Entries(t)| ==> Match(Entries(t)[q].pattern, input, i).None?;
      } else if Match(t.rule.pattern, input, i).None? {
        var q :| 0 <= q < |Entries(t.rest)| && Match(Entries(t.rest)[q].pattern, input, i).Some?;
        assert Entries(t)[q + 1] == Entries(t.rest)[q];
      }
    }
  }

  /** A rule whose pattern matches, with no matching rule before it, is the
      one chosen: the first match in table order wins. */
  lemma {:induction false} FirstAt(t: Table, input: string, i: nat, q: nat)
    requires i < |input| && q < |Entries(t)| && Match(Entries(t)[q].pattern, input, i).Some?
    requires forall e :: 0 <= e < q ==> Match(Entries(t)[e].pattern, input, i).None?
    ensures First(t, input, i) == Some(Hit(Entries(t)[q].kind, Match(Entries(t)[q].pattern, input, i).value))
    decreases q
  {
    if q > 0 {
      assert Match(Entries(t)[0].pattern, input, i).None?;
      forall e | 0 <= e < q - 1
        ensures Match(Entries(t.rest)[e].pattern, input, i).None?
      {
        assert Entries(t.rest)[e] == Entries(t)[e + 1];
      }
      assert Entries(t.rest)[q - 1] == Entries(t)[q];
      FirstAt(t.rest, input, i, q - 1);
    }
  }

  /** The characters a pattern can start with. */
  predicate Opens(p: Pattern, c: char) {
    match p
    case Sym(d) => d == c
    case Pair(d, _) => d == c
    case Word(s) => s != [] && s[0] == c
    case Quoted => c == '"'
    case Run(first, _) => In(first, c)
  }

  lemma MatchOpens(p: Pattern, input: string, i: nat)
    requires i < |input| && Match(p, input, i).Some?
    ensures Opens(p, input[i])
  {
    match p
    case Sym(_) =>
    case Pair(_, _) =>
    case Word(s) => assert input[i..i + |s|][0] == input[i];
    case Quoted =>
    case Run(_, _) =>
  }

  /** What decides which patterns can start with a character: its class
      for letters (telling `J` apart), digits and blanks, the character
      itself otherwise. */
  datatype Lead = Letter(isJ: bool) | Digit | Blank | Char(c: char)

  function LeadOf(c: char): Lead {
    if IsIdentStart(c) then Letter(c == 'J')
    else if IsDigit(c) then Digit
    else if IsSpace(c) then Blank
    else Char(c)
  }

  /** The leads a pattern can start with. */
  predicate OpensLead(p: Pattern, l: Lead) {
    match p
    case Sym(c) => LeadOf(c) == l
    case Pair(c, _) => LeadOf(c) == l
    case Word(s) => s != [] && LeadOf(s[0]) == l
    case Quoted => l == Char('"')
    case Run(first, _) =>
      match first
      case Digits => l == Digit
      case IdentStarts => l.Letter?
      case IdentParts => l.Letter? || l == Digit
      case Spaces => l == Blank
  }

  lemma OpensLeadOf(p: Pattern, c: char)
    requires Opens(p, c)
    ensures OpensLead(p, LeadOf(c))
  {
  }

  /** Every rule of `t` that can start with a character of lead `l` is `r`. */
  predicate Sole(t: Table, l: Lead, r: Rule) {
    match t
    case End => true
    case Then(q, rest) => (OpensLead(q.pattern, l) ==> q == r) && Sole(rest, l, r)
  }

  /** `r` is a rule of `t`. */
  predicate Has(t: Table, r: Rule) {
    t.Then? && (t.rule == r || Has(t.rest, r))
  }

  /** When `r` is the only rule that can start with the current character,
      the scan takes `r`'s match if `r` is in the table and matches, and
      finds no match otherwise. */
  lemma {:induction false} FirstSole(t: Table, input: string, i: nat, r: Rule)
    requires i < |input| && Sole(t, LeadOf(input[i]), r)
    ensures First(t, input, i)
         == if Has(t, r) && Match(r.pattern, input, i).Some?
            then Some(Hit(r.kind, Match(r.pattern, input, i).value)) else None
  {
    if t.Then? {
      FirstSole(t.rest, input, i, r);
      if Match(t.rule.pattern, input, i).Some? {
        MatchOpens(t.rule.pattern, input, i);
        OpensLeadOf(t.rule.pattern, input[i]);
      }
    }
  }

  /** No rule of `t` has type `k`. */
  predicate Lacks(t: Table, k: Kind) {
    match t
    case End => true
    case Then(r, rest) => r.kind != k && Lacks(rest, k)
  }

  /** Every rule of `t` of type `k` is a literal starting with `c` (or the
      string pattern, for a quote). */
  predicate Starts(t: Table, k: Kind, c: char) {
    match t
    case End => true
    case Then(r, rest) =>
      (r.kind == k ==> match r.pattern
                       case Sym(d) => d == c
    case Pair(d, _) => d == c
                       case Word(s) => s != [] && s[0] == c
                       case Quoted => c == '"'
                       case Run(_, _) => false)
      && Starts(rest, k, c)
  }

  /** A type no rule has is never the type of a match; a type whose rules
      all start with `c` is matched only at a `c`. */
  lemma {:induction false} FirstKind(t: Table, input: string, i: nat, k: Kind)
    requires i < |input|
    ensures Lacks(t, k) ==> !(First(t, input, i).Some? && First(t, input, i).value.kind == k)
    ensures forall c :: Starts(t, k, c) && First(t, input, i).Some? && First(t, input, i).value.kind == k
                        ==> input[i] == c
  {
    if t.Then? {
      FirstKind(t.rest, input, i, k);
      if Match(t.rule.pattern, input, i).Some? {
        MatchOpens(t.rule.pattern, input, i);
      }
    }
  }

  // ---------------------------------------------------------------------
  // The rules of the table that can start with a given character
  // ---------------------------------------------------------------------

  lemma PunctuationLeads()
    ensures LeadOf(':') == Char(':') && LeadOf('{') == Char('{') && LeadOf('}') == Char('}')
    ensures LeadOf('(') == Char('(') && LeadOf(')') == Char(')')
  {
  }

  lemma OtherLeads()
    ensures LeadOf('[') == Char('[') && LeadOf(']') == Char(']') && LeadOf('=') == Char('=')
    ensures LeadOf(';') == Char(';') && LeadOf('\n') == Char('\n') && LeadOf('J') == Letter(true)
  {
  }

  const EqualRule := Rule(Equal, Sym('='))
  const NewlineRule := Rule(Newline, Sym('\n'))
  const StringRule := Rule(String, Quoted)

  lemma SoleEqual()
    ensures Sole(TokenSpecs, Char('='), EqualRule) && Has(TokenSpecs, EqualRule)
  {
    PunctuationLeads();
    OtherLeads();
    assert Sole(LaterSpecs, Char('='), EqualRule);
  }

  lemma SoleNewline()
    ensures Sole(TokenSpecs, Char('\n'), NewlineRule) && Has(TokenSpecs, NewlineRule)
  {
    PunctuationLeads();
    OtherLeads();
    assert Sole(LaterSpecs, Char('\n'), NewlineRule) && Has(LaterSpecs, NewlineRule);
  }

  lemma SoleQuote()
    ensures Sole(TokenSpecs, Char('"'), StringRule) && Has(TokenSpecs, StringRule)
  {
    PunctuationLeads();
    OtherLeads();
    assert Sole(LaterSpecs, Char('"'), StringRule);
  }

  /** After the RESERVED rule, IDENTIFIER is the only rule a letter starts;
      RESERVED can only start with a `J`. */
  lemma SoleLetterRest(l: Lead)
    requires l.Letter?
    ensures Sole(TokenSpecs.rest, l, IdentRule) && Has(TokenSpecs.rest, IdentRule)
  {
    if l.isJ {
      SoleJRest();
    } else {
      SoleOtherLetterRest();
    }
  }

  lemma SoleJRest()
    ensures Sole(TokenSpecs.rest, Letter(true), IdentRule) && Has(TokenSpecs.rest, IdentRule)
  {
    PunctuationLeads();
    OtherLeads();
    assert Sole(LaterSpecs, Letter(true), IdentRule);
  }

  lemma SoleOtherLetterRest()
    ensures Sole(TokenSpecs.rest, Letter(false), IdentRule) && Has(TokenSpecs.rest, IdentRule)
  {
    PunctuationLeads();
    OtherLeads();
    assert Sole(LaterSpecs, Letter(false), IdentRule);
  }

  lemma StartsAssign()
    ensures Starts(TokenSpecs, Assign, ':')
  {
    assert Starts(LaterSpecs, Assign, ':');
  }

  lemma StartsReserved()
    ensures Starts(TokenSpecs, Reserved, 'J')
  {
    assert Starts(LaterSpecs, Reserved, 'J');
  }

  lemma StartsNewline()
    ensures Starts(TokenSpecs, Newline, '\n')
  {
    assert Starts(LaterSpecs, Newline, '\n');
  }

  lemma StartsString()
    ensures Starts(TokenSpecs, String, '"')
  {
    assert Starts(LaterSpecs, String, '"');
  }

  lemma LacksUnknown()
    ensures Lacks(TokenSpecs, Unknown)
  {
    assert Lacks(LaterSpecs, Unknown);
  }

  // ---------------------------------------------------------------------
  // What the table does with particular characters
  // ---------------------------------------------------------------------

  /** `ASSIGN` (line 18) never wins: at a `:` the `COLON` rule of line 10
      matches first, so `:=` is consumed as a COLON piece and then an EQUAL
      piece. */
  lemma AssignSplits(input: string, i: nat)
    requires i + 1 < |input| && input[i] == ':' && input[i + 1] == '='
    ensures PieceAt(TokenSpecs, input, i) == Matched(Colon, ":")
    ensures PieceAt(TokenSpecs, input, i + 1) == Matched(Equal, "=")
  {
    ColonPiece(input, i);
    EqualPiece(input, i + 1);
  }

  lemma ColonPiece(input: string, i: nat)
    requires i < |input| && input[i] == ':'
    ensures PieceAt(TokenSpecs, input, i) == Matched(Colon, ":")
  {
    JugadorMatch(input, i);
    assert First(TokenSpecs, input, i) == First(TokenSpecs.rest, input, i);
    assert TokenSpecs.rest.rule == Rule(Colon, Sym(':'));
    assert input[i..i + 1] == ":";
  }

  lemma EqualPiece(input: string, i: nat)
    requires i < |input| && input[i] == '='
    ensures PieceAt(TokenSpecs, input, i) == Matched(Equal, "=")
  {
    OtherLeads();
    SoleEqual();
    FirstSole(TokenSpecs, input, i, EqualRule);
    assert input[i..i + 1] == "=";
  }

  /** No piece of the table is an ASSIGN match. */
  lemma PieceNotAssign(input: string, i: nat)
    requires i < |input|
    ensures !(PieceAt(TokenSpecs, input, i).Matched? && PieceAt(TokenSpecs, input, i).kind == Assign)
  {
    if input[i] == ':' {
      ColonPiece(input, i);
    } else {
      StartsAssign();
      FirstKind(TokenSpecs, input, i, Assign);
    }
  }

  /** `^Jugador\b` at offset `i`. */
  predicate JugadorAt(input: string, i: nat) {
    i + 7 <= |input| && input[i..i + 7] == "Jugador" && (i + 7 == |input| || !IsWordChar(input[i + 7]))
  }

  lemma JugadorMatch(input: string, i: nat)
    requires i < |input|
    ensures Match(Word("Jugador"), input, i).Some? <==> JugadorAt(input, i)
    ensures JugadorAt(input, i) ==> input[i] == 'J'
  {
    if i + 7 <= |input| && input[i..i + 7] == "Jugador" {
      assert input[i + 6] == input[i..i + 7][6] == 'r';
      assert input[i] == input[i..i + 7][0];
    }
  }

  /** The IDENTIFIER rule, the only one a letter other than `J` can start. */
  const IdentRule := Rule(Identifier, Run(IdentStarts, IdentParts))

  lemma MatchIdent(input: string, i: nat)
    requires i < |input| && IsIdentStart(input[i])
    ensures Match(IdentRule.pattern, input, i) == Some(RunEnd(input, i + 1, IsIdentPart) - i)
  {
  }

  /** RESERVED is the first rule, so `Jugador` standing as a whole word is a
      RESERVED piece; any other letter or underscore starts an IDENTIFIER
      piece holding the maximal run of identifier characters. */
  lemma WordPiece(input: string, i: nat)
    requires i < |input| && IsIdentStart(input[i])
    ensures JugadorAt(input, i) ==> PieceAt(TokenSpecs, input, i) == Matched(Reserved, "Jugador")
    ensures !JugadorAt(input, i) ==>
      PieceAt(TokenSpecs, input, i) == Matched(Identifier, input[i..RunEnd(input, i + 1, IsIdentPart)])
  {
    JugadorMatch(input, i);
    MatchIdent(input, i);
    if input[i] == 'J' {
      FirstJ(input, i);
    } else {
      FirstOtherLetter(input, i);
    }
  }

  lemma FirstJ(input: string, i: nat)
    requires i < |input| && input[i] == 'J'
    ensures First(TokenSpecs, input, i)
         == if JugadorAt(input, i) then Some(Hit(Reserved, 7))
            else Some(Hit(Identifier, RunEnd(input, i + 1, IsIdentPart) - i))
  {
    JugadorMatch(input, i);
    assert TokenSpecs.rule == Rule(Reserved, Word("Jugador"));
    if JugadorAt(input, i) {
      assert Match(Word("Jugador"), input, i) == Some(7);
    } else {
      assert First(TokenSpecs, input, i) == First(TokenSpecs.rest, input, i);
      FirstAfterReserved(input, i);
    }
  }

  /** Past the RESERVED rule, a letter always starts an IDENTIFIER match. */
  lemma FirstAfterReserved(input: string, i: nat)
    requires i < |input| && IsIdentStart(input[i])
    ensures First(TokenSpecs.rest, input, i) == Some(Hit(Identifier, RunEnd(input, i + 1, IsIdentPart) - i))
  {
    MatchIdent(input, i);
    SoleLetterRest(LeadOf(input[i]));
    FirstSole(TokenSpecs.rest, input, i, IdentRule);
  }

  lemma FirstOtherLetter(input: string, i: nat)
    requires i < |input| && IsIdentStart(input[i]) && input[i] != 'J'
    ensures First(TokenSpecs, input, i) == Some(Hit(Identifier, RunEnd(input, i + 1, IsIdentPart) - i))
  {
    FirstAfterReserved(input, i);
    JugadorMatch(input, i);
    FirstSkip(TokenSpecs, input, i);
  }

  /** A table whose first rule does not match defers to the rest. */
  lemma FirstSkip(t: Table, input: string, i: nat)
    requires i < |input| && t.Then? && Match(t.rule.pattern, input, i).None?
    ensures First(t, input, i) == First(t.rest, input, i)
  {
  }

  /** A piece is RESERVED exactly where `Jugador` stands as a whole word. */
  lemma ReservedIffJugador(input: string, i: nat)
    requires i < |input|
    ensures PieceAt(TokenSpecs, input, i).Matched? && PieceAt(TokenSpecs, input, i).kind == Reserved
        <==> JugadorAt(input, i)
    ensures JugadorAt(input, i) ==> PieceAt(TokenSpecs, input, i).text == "Jugador"
  {
    JugadorMatch(input, i);
    if input[i] == 'J' {
      WordPiece(input, i);
    } else {
      StartsReserved();
      FirstKind(TokenSpecs, input, i, Reserved);
    }
  }

  /** `Jugador1` and `Equipo` are IDENTIFIER pieces, not RESERVED. */
  lemma JugadorOneIsIdentifier(w: string)
    requires w == "Jugador1"
    ensures PieceAt(TokenSpecs, w, 0) == Matched(Identifier, w)
  {
    assert IsWordChar(w[7]);
    WordPiece(w, 0);
    RunEndUnique(w, 1, IsIdentPart, 8);
    assert w[0..8] == w;
  }

  lemma EquipoIsIdentifier(w: string)
    requires w == "Equipo"
    ensures PieceAt(TokenSpecs, w, 0) == Matched(Identifier, w)
  {
    WordPiece(w, 0);
    RunEndUnique(w, 1, IsIdentPart, 6);
    assert w[0..6] == w;
  }

  /** `"` followed by non-quotes and a closing `"`. */
  predicate IsStringLexeme(s: string) {
    |s| >= 2 && s[0] == '"' && s[|s| - 1] == '"' && forall k :: 0 < k < |s| - 1 ==> s[k] != '"'
  }

  /** A quote opens a STRING piece, newlines allowed inside, when a later
      quote exists; otherwise no rule matches and the quote is pushed as a
      one-character UNKNOWN token (lines 43-53). */
  lemma QuotePiece(input: string, i: nat)
    requires i < |input| && input[i] == '"'
    ensures (exists e :: i < e < |input| && input[e] == '"') ==>
      PieceAt(TokenSpecs, input, i).Matched? && PieceAt(TokenSpecs, input, i).kind == String
      && IsStringLexeme(PieceAt(TokenSpecs, input, i).text)
    ensures (forall e :: i < e < |input| ==> input[e] != '"') ==>
      PieceAt(TokenSpecs, input, i) == Unmatched('"')
  {
    FirstQuote(input, i);
    var j := RunEnd(input, i + 1, NotQuote);
    if exists e :: i < e < |input| && input[e] == '"' {
      var e :| i < e < |input| && input[e] == '"';
      assert j <= e;
      var s := input[i..j + 1];
      assert forall k :: 0 < k < |s| - 1 ==> s[k] == input[i + k];
    }
  }

  /** At a quote only the STRING rule can match. */
  lemma FirstQuote(input: string, i: nat)
    requires i < |input| && input[i] == '"'
    ensures First(TokenSpecs, input, i)
         == if Match(Quoted, input, i).Some? then Some(Hit(String, Match(Quoted, input, i).value)) else None
  {
    SoleQuote();
    assert LeadOf('"') == Char('"');
    FirstSole(TokenSpecs, input, i, StringRule);
  }

  /** A newline is always a NEWLINE piece, so the row bump of lines 45-47,
      for an unmatched newline, is never taken. */
  lemma NewlinePiece(input: string, i: nat)
    requires i < |input| && input[i] == '\n'
    ensures PieceAt(TokenSpecs, input, i) == Matched(Newline, "\n")
  {
    OtherLeads();
    SoleNewline();
    FirstSole(TokenSpecs, input, i, NewlineRule);
    assert input[i..i + 1] == "\n";
  }

  /** The column of lines 58-60 moves by the lexeme's length even when a
      STRING piece holds a newline: the row is not bumped, so from then on
      the positions the lexer stamps fall behind the text's own. */
  lemma MultilineStringDrift(input: string, i: nat)
    requires i < |input|
    requires PieceAt(TokenSpecs, input, i).Matched? && PieceAt(TokenSpecs, input, i).kind == String
    requires '\n' in PieceAt(TokenSpecs, input, i).text
    ensures Next(PieceAt(TokenSpecs, input, i), PosAt(input, i)).row == PosAt(input, i).row
    ensures PosAt(input, i + |PieceAt(TokenSpecs, input, i).text|).row > PosAt(input, i).row
  {
    var p := PieceAt(TokenSpecs, input, i);
    var j := i + |p.text|;
    assert input[..j] == input[..i] + p.text;
    PosAfterRow(input[..i], p.text);
    NewlineCountPositive(p.text);
  }

  // ---------------------------------------------------------------------
  // The pieces spell the input
  // ---------------------------------------------------------------------

  /** The lexemes of `ps`, one after the other. */
  function Concat(ps: seq<Piece>): string
    decreases |ps|
  {
    if ps == [] then [] else Lexeme(ps[0]) + Concat(ps[1..])
  }

  /** Every turn consumes a non-empty slice right after the previous one:
      the pieces spell the input back, the WHITESPACE and NEWLINE pieces
      that are not pushed included. */
  lemma {:induction false} PiecesSpellInput(t: Table, input: string, i: nat)
    requires i <= |input|
    ensures Concat(Pieces(t, input, i)) == input[i..]
    decreases |input| - i
  {
    if i < |input| {
      var p := PieceAt(t, input, i);
      var j := i + |Lexeme(p)|;
      var rest := Pieces(t, input, j);
      PiecesSpellInput(t, input, j);
      SpellJoin(Pieces(t, input, i), p, rest, input, i, j);
    }
  }

  /** A piece reading `s[i..j]` in front of pieces reading `s[j..]`. */
  lemma SpellJoin(ps: seq<Piece>, p: Piece, rest: seq<Piece>, s: string, i: nat, j: nat)
    requires ps == [p] + rest && i <= j <= |s| && Lexeme(p) == s[i..j] && Concat(rest) == s[j..]
    ensures Concat(ps) == s[i..]
  {
    assert ps[1..] == rest;
    assert s[i..] == s[i..j] + s[j..];
  }

  // ---------------------------------------------------------------------
  // The token list
  // ---------------------------------------------------------------------

  /** What a piece of the table looks like. */
  predicate PieceShape(p: Piece) {
    match p
    case Unmatched(c) => c != '\n'
    case Matched(k, s) =>
      s != [] && k != Assign && k != Unknown
      && (k == Reserved ==> s == "Jugador")
      && (k == String ==> IsStringLexeme(s))
      && (k == Newline ==> s == "\n")
  }

  lemma PieceAtShape(input: string, i: nat)
    requires i < |input|
    ensures PieceShape(PieceAt(TokenSpecs, input, i))
  {
    var p := PieceAt(TokenSpecs, input, i);
    var c := input[i];
    PieceNotAssign(input, i);
    ReservedIffJugador(input, i);
    LacksUnknown();
    FirstKind(TokenSpecs, input, i, Unknown);
    StartsNewline();
    FirstKind(TokenSpecs, input, i, Newline);
    StartsString();
    FirstKind(TokenSpecs, input, i, String);
    if c == '\n' {
      NewlinePiece(input, i);
    }
    if c == '"' {
      QuotePiece(input, i);
    }
  }

  /** Every piece of `ps` has the shape of its rule. */
  predicate AllShaped(ps: seq<Piece>) {
    forall p :: p in ps ==> PieceShape(p)
  }

  /** A property every piece of a table has holds of all pieces of a scan. */
  lemma {:induction false} PiecesAll(t: Table, input: string, i: nat, P: Piece -> bool)
    requires i <= |input|
    requires forall j :: i <= j < |input| ==> P(PieceAt(t, input, j))
    ensures forall p :: p in Pieces(t, input, i) ==> P(p)
    decreases |input| - i
  {
    if i < |input| {
      PiecesAll(t, input, i + |Lexeme(PieceAt(t, input, i))|, P);
    }
  }

  /** Every piece of the scan has the shape of its rule. */
  lemma PiecesShape(input: string)
    ensures AllShaped(Pieces(TokenSpecs, input, 0))
  {
    forall j | 0 <= j < |input|
      ensures PieceShape(PieceAt(TokenSpecs, input, j))
    {
      PieceAtShape(input, j);
    }
    PiecesAll(TokenSpecs, input, 0, PieceShape);
  }

  /** What a token of the client lexer looks like. */
  predicate ClientShape(t: Token) {
    t.lexeme != []
    && t.kind != Newline && t.kind != Whitespace && t.kind != Assign
    && (t.kind == Reserved ==> t.lexeme == "Jugador")
    && (t.kind == String ==> IsStringLexeme(t.lexeme))
    && (t.kind == Unknown ==> |t.lexeme| == 1 && t.lexeme != "\n")
  }

  /** A piece the loop does not push: a NEWLINE or WHITESPACE match. */
  predicate Dropped(p: Piece) {
    p.Matched? && (p.kind == Newline || p.kind == Whitespace)
  }

  /** The type and lexeme a piece stands for; an unmatched character is UNKNOWN. */
  function Label(p: Piece): (Kind, string) {
    match p
    case Unmatched(c) => (Unknown, [c])
    case Matched(k, s) => (k, s)
  }

  /** The labels of the pieces that are not dropped, in order. */
  function Pushed(ps: seq<Piece>): seq<(Kind, string)>
    decreases |ps|
  {
    if ps == [] then [] else (if Dropped(ps[0]) then [] else [Label(ps[0])]) + Pushed(ps[1..])
  }

  /** The type and lexeme of each token, in order. */
  function Labels(ts: seq<Token>): seq<(Kind, string)> {
    seq(|ts|, k requires 0 <= k < |ts| => (ts[k].kind, ts[k].lexeme))
  }

  lemma LabelsAppend(a: seq<Token>, b: seq<Token>)
    ensures Labels(a + b) == Labels(a) + Labels(b)
  {
  }

  /** Stamping keeps the type and the lexeme of every match it pushes,
      pushes unmatched characters as UNKNOWN, and drops NEWLINE and
      WHITESPACE, keeping the order of the pieces. */
  lemma {:induction false} StampShapes(ps: seq<Piece>, at: Pos)
    requires AllShaped(ps)
    ensures forall t :: t in Stamp(ps, at) ==> ClientShape(t)
    ensures Labels(Stamp(ps, at)) == Pushed(ps)
    decreases |ps|
  {
    if ps != [] {
      assert ps[0] in ps && PieceShape(ps[0]);
      assert forall p :: p in ps[1..] ==> p in ps;
      StampShapes(ps[1..], Next(ps[0], at));
      LabelsAppend(Emitted(ps[0], at), Stamp(ps[1..], Next(ps[0], at)));
      assert Labels(Emitted(ps[0], at)) == if Dropped(ps[0]) then [] else [Label(ps[0])];
    }
  }

  /** NEWLINE, WHITESPACE and ASSIGN never reach the token list; RESERVED
      is only `Jugador`; STRING lexemes keep their quotes; UNKNOWN entries
      are single characters other than a newline. */
  lemma LexerShapes(input: string)
    ensures forall t :: t in Lexer(input) ==> ClientShape(t)
    ensures Labels(Lexer(input)) == Pushed(Pieces(TokenSpecs, input, 0))
  {
    PiecesShape(input);
    StampShapes(Pieces(TokenSpecs, input, 0), Pos(1, 1));
  }
}
