/** Vocabulary shared by both lexers, the highlighter and the roster extraction:
    token kinds, the token record, the character classes of the identifier and
    number rules, and the 1-based row/column position rule. */
module Lexical {

  /** The `type` strings the two lexers write into a token or an error record.
      `Quote` is in the server's single-character table but never emitted;
      `Newline` and `Whitespace` are rule names of the client lexer that it
      consumes without emitting. */
  datatype Kind =
    | Reserved | Identifier | String | Number
    | LBrace | RBrace | LParen | RParen | LBracket | RBracket
    | Colon | Assign | Equal | Semicolon | Quote
    | Newline | Whitespace
    // error kinds
    | Unknown | UnclosedString | InvalidAssignment
    | UnmatchedBraces | UnmatchedParens | UnmatchedBrackets

  /** `{type, lexeme, row, col}`: used both for tokens and for errors. */
  datatype Token = Token(kind: Kind, lexeme: string, row: int, col: int)

  datatype Option<T> = None | Some(value: T)

  /** A 1-based source position. */
  datatype Pos = Pos(row: int, col: int)

  function PosOf(t: Token): Pos { Pos(t.row, t.col) }

  // ---------------------------------------------------------------------
  // Character classes (the regular expressions as predicates)
  // ---------------------------------------------------------------------

  /** `[0-9]`, and JavaScript's `\d` (ASCII digits only). */
  predicate IsDigit(c: char) { '0' <= c <= '9' }

  predicate IsAsciiLetter(c: char) { 'a' <= c <= 'z' || 'A' <= c <= 'Z' }

  predicate IsAccented(c: char) {
    c == 'á' || c == 'é' || c == 'í' || c == 'ó' || c == 'ú' || c == 'Á' || c == 'É' || c == 'Í' || c == 'Ó' || c == 'Ú' || c == 'ñ' || c == 'Ñ'
  }

  /** `[a-zA-ZáéíóúÁÉÍÓÚñÑ_]`: the first character of an identifier. */
  predicate IsIdentStart(c: char) { IsAsciiLetter(c) || IsAccented(c) || c == '_' }

  /** `[a-zA-Z0-9_áéíóúÁÉÍÓÚñÑ]`: the later characters of an identifier. */
  predicate IsIdentPart(c: char) { IsIdentStart(c) || IsDigit(c) }

  /** A JavaScript word character (`\w`, which decides `\b`). */
  predicate IsWordChar(c: char) { IsAsciiLetter(c) || IsDigit(c) || c == '_' }

  // ---------------------------------------------------------------------
  // Maximal runs
  // ---------------------------------------------------------------------

  /** The end of the maximal run of characters satisfying `p` that starts at `j`. */
  function RunEnd(s: string, j: nat, p: char -> bool): (e: nat)
    requires j <= |s|
    ensures j <= e <= |s|
    ensures forall k :: j <= k < e ==> p(s[k])
    ensures e == |s| || !p(s[e])
    decreases |s| - j
  {
    if j == |s| || !p(s[j]) then j else RunEnd(s, j + 1, p)
  }

  /** The two facts RunEnd ensures pin the end of the run down uniquely. */
  lemma RunEndUnique(s: string, j: nat, p: char -> bool, e: nat)
    requires j <= e <= |s|
    requires forall k :: j <= k < e ==> p(s[k])
    requires e == |s| || !p(s[e])
    ensures e == RunEnd(s, j, p)
  {
  }

  // ---------------------------------------------------------------------
  // Positions
  // ---------------------------------------------------------------------

  /** The row/column rule both lexers and the highlighter follow:
      a newline bumps the row and resets the column, any other character
      moves one column right. */
  function Advance(p: Pos, c: char): Pos {
    if c == '\n' then Pos(p.row + 1, 1) else Pos(p.row, p.col + 1)
  }

  /** The position reached after reading `s` from row 1, column 1. */
  function PosAfter(s: string): Pos
    decreases |s|
  {
    if s == [] then Pos(1, 1) else Advance(PosAfter(s[..|s| - 1]), s[|s| - 1])
  }

  /** The position of offset `i` of `s`. */
  function PosAt(s: string, i: nat): Pos
    requires i <= |s|
  {
    PosAfter(s[..i])
  }

  function NewlineCount(s: string): nat
    decreases |s|
  {
    if s == [] then 0 else NewlineCount(s[..|s| - 1]) + (if s[|s| - 1] == '\n' then 1 else 0)
  }

  /** Offset just after the last newline of `s` (0 if there is none). */
  function LineStart(s: string): (k: nat)
    ensures k <= |s|
    decreases |s|
  {
    if s == [] then 0 else if s[|s| - 1] == '\n' then |s| else LineStart(s[..|s| - 1])
  }

  /** The row is one more than the newlines read; the column is one more
      than the characters read since the last newline. */
  lemma {:induction false} PosAfterCounts(s: string)
    ensures PosAfter(s) == Pos(1 + NewlineCount(s), 1 + |s| - LineStart(s))
    decreases |s|
  {
    if s != [] {
      PosAfterCounts(s[..|s| - 1]);
    }
  }

  /** Reading text without a newline only moves right by its length. */
  lemma {:induction false} PosAfterNoNewline(s: string, t: string)
    requires '\n' !in t
    ensures PosAfter(s + t) == Pos(PosAfter(s).row, PosAfter(s).col + |t|)
    decreases |t|
  {
    if t != [] {
      var t' := t[..|t| - 1];
      assert (s + t)[..|s + t| - 1] == s + t';
      assert (s + t)[|s + t| - 1] == t[|t| - 1] != '\n';
      assert '\n' !in t' by {
        forall k | 0 <= k < |t'| ensures t'[k] != '\n' { assert t'[k] == t[k]; }
      }
      PosAfterNoNewline(s, t');
      calc {
        PosAfter(s + t);
        Advance(PosAfter(s + t'), t[|t| - 1]);
        Pos(PosAfter(s).row, PosAfter(s).col + |t'| + 1);
      }
    } else {
      assert s + t == s;
    }
  }

  /** Reading text adds its newlines to the row. */
  lemma {:induction false} PosAfterRow(s: string, t: string)
    ensures PosAfter(s + t).row == PosAfter(s).row + NewlineCount(t)
    decreases |t|
  {
    if t != [] {
      var t' := t[..|t| - 1];
      assert (s + t)[..|s + t| - 1] == s + t';
      assert (s + t)[|s + t| - 1] == t[|t| - 1];
      PosAfterRow(s, t');
      calc {
        PosAfter(s + t).row;
        Advance(PosAfter(s + t'), t[|t| - 1]).row;
        PosAfter(s + t').row + (if t[|t| - 1] == '\n' then 1 else 0);
      }
    } else {
      assert s + t == s;
    }
  }

  lemma {:induction false} NewlineCountPositive(t: string)
    requires '\n' in t
    ensures NewlineCount(t) > 0
    decreases |t|
  {
    if t[|t| - 1] != '\n' {
      var t' := t[..|t| - 1];
      assert '\n' in t' by {
        var k :| 0 <= k < |t| && t[k] == '\n';
        assert t'[k] == '\n';
      }
      NewlineCountPositive(t');
    }
  }

  /** Positions strictly increase (row first, then column) along the text;
      in particular two offsets never share a position. */
  lemma PosAtIncreasing(s: string, i: nat, j: nat)
    requires i < j <= |s|
    ensures PosAt(s, i).row < PosAt(s, j).row
         || (PosAt(s, i).row == PosAt(s, j).row && PosAt(s, i).col < PosAt(s, j).col)
  {
    var mid := s[i..j];
    assert s[..j] == s[..i] + mid;
    if '\n' in mid {
      PosAfterRow(s[..i], mid);
      NewlineCountPositive(mid);
    } else {
      PosAfterNoNewline(s[..i], mid);
    }
  }

  lemma PosAtInjective(s: string, i: nat, j: nat)
    requires i <= |s| && j <= |s| && i != j
    ensures PosAt(s, i) != PosAt(s, j)
  {
    if i < j { PosAtIncreasing(s, i, j); } else { PosAtIncreasing(s, j, i); }
  }

  /** Stepping over a slice without newlines from offset `i` to `j`. */
  lemma PosAtSlice(s: string, i: nat, j: nat)
    requires i <= j <= |s|
    requires '\n' !in s[i..j]
    ensures PosAt(s, j) == Pos(PosAt(s, i).row, PosAt(s, i).col + (j - i))
  {
    assert s[..j] == s[..i] + s[i..j];
    PosAfterNoNewline(s[..i], s[i..j]);
  }

  /** Stepping over a newline at offset `i`. */
  lemma PosAtNewline(s: string, i: nat)
    requires i < |s| && s[i] == '\n'
    ensures PosAt(s, i + 1) == Pos(PosAt(s, i).row + 1, 1)
  {
    assert s[..i + 1][..i] == s[..i];
  }

  // ---------------------------------------------------------------------
  // Tokens laid out on a text
  // ---------------------------------------------------------------------

  /** `t` is the non-empty newline-free slice of `text` at offset `o`,
      stamped with the position of `o`. */
  predicate SitsAt(text: string, t: Token, o: nat) {
    o + |t.lexeme| <= |text| && t.lexeme != [] && text[o..o + |t.lexeme|] == t.lexeme
    && '\n' !in t.lexeme && PosOf(t) == PosAt(text, o)
  }

  /** `ts` sit on `text` at the offsets `offs`, in order and without overlap,
      the first of them at or after `from`. */
  predicate LaidOut(text: string, ts: seq<Token>, offs: seq<nat>, from: nat)
    decreases |ts|
  {
    |offs| == |ts|
    && (ts != [] ==>
          from <= offs[0] && SitsAt(text, ts[0], offs[0])
          && LaidOut(text, ts[1..], offs[1..], offs[0] + |ts[0].lexeme|))
  }

  /** A token sitting before a laid-out list extends it. */
  lemma LaidOutCons(text: string, t: Token, o: nat, ts: seq<Token>, offs: seq<nat>, from: nat)
    requires from <= o && SitsAt(text, t, o) && LaidOut(text, ts, offs, o + |t.lexeme|)
    ensures LaidOut(text, [t] + ts, [o] + offs, from)
  {
    assert ([t] + ts)[1..] == ts && ([o] + offs)[1..] == offs;
  }
}
