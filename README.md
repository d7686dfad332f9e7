# Pokémon team language: lexers, highlighter and roster extraction

This project models the sequential core of a small web application. The
application edits programs in a Spanish-keyword team-description language
(`Equipo: "name"`, `"Pikachu"[electrico] := { salud: 50; ... }`), lexes them,
colours them and builds Pokémon teams from them. There are four pieces, one
Dafny module each, plus a module of shared vocabulary:

- `Lexical` holds the shared vocabulary. It has the token kinds (the `type`
  strings), the `{type, lexeme, row, col}` record, the character classes of
  the identifier and number rules, and the 1-based row/column rule both lexers
  and the highlighter follow (a newline moves to the next row, column 1;
  anything else moves one column right).
- `ServerLexer` models `lexer` in `server/src/lexer.ts`, the lexer the
  application calls.
  - It is a character-at-a-time scan that writes tokens and scan errors.
  - An assignment-shape pass over the `ASSIGN` tokens follows.
  - A balance pass with three net counters comes last.
  - The loops are methods (`Lex`, `ScanInput`, `ScanString`, `ScanRun`,
    `CheckStructure`, `CheckTokens`). Each is proved equal to a recursive
    specification (`Scan`, `AssignErrors`, `Net`, `BalanceErrors`), and the
    lexer's promises are proved about that specification.
- `ClientLexer` models `lexer` in `src/lexer.ts`. It is an ordered table of
  patterns, each a prefix predicate standing for its regular expression, and a
  first-match scan. The scan is the method `Scan` (with `FirstMatch` for the
  inner loop over the table), proved equal to the function `Tokens`.
- `Highlight` models `getTokenColor` and `highlightText` in
  `src/highlightHelper.ts`.
  - The loop is the method `HighlightText`. It is proved equal to
    `Highlighted`, which is the markup of the segments `Segments` writes, plus
    the trailing newline rule.
  - It is proved that on the server lexer's tokens the markup shows every
    token in order. Dropping the tags and reading the entities back gives the
    text again.
- `TeamView` models `src/views/TeamView.tsx`. It covers `selectBestTeam`
  (method `SelectBestTeam`, proved equal to the function `BestTeam`). It also
  covers the token-to-team loop of `fetchPokemonTeams` (method `ExtractTeams`,
  proved equal to `Teams`, the `Walk` of the loop's `Turn` from the start
  state).

Token `type` strings are the constructors of `Lexical.Kind`. For example
`RESERVED` is `Reserved`, `UNCLOSED_STRING` is `UnclosedString` and
`UNMATCHED_BRACES` is `UnmatchedBraces`.

Behaviours of the code the model keeps:

- The server lexer drops a string literal cut by the end of input without any
  token or error.
- The balance check counts openers minus closers, so `)(` is balanced.
- `salud`, `ataque` and `defensa` are RESERVED for the server lexer. As a
  result the extraction's stat branch (which looks for IDENTIFIER) never fires
  on the server's tokens: `ServerStatsStayZero`.
- The client lexer makes only `Jugador` RESERVED. So no team header appears in
  its tokens and the extraction finds no team there: `ClientLexerNoTeams`.
- Records read before the first team header are not always dropped. One is
  kept, and goes into the first team, when that team's header comes before the
  next record start. `RecordsKept` states what is kept in general;
  `RecordsAllKept` covers the case where a header comes first.

## Model

| member | source | states |
|---|---|---|
| Lexical.RunEnd | server/src/lexer.ts:109-115 | the inner digit and identifier loops stop at the end of the maximal run of accepted characters: every character before the end is accepted, the one at the end (if any) is not |
| Lexical.RunEndUnique | server/src/lexer.ts:123-129 | a run end is determined by those two facts, so any loop reaching them stops where `RunEnd` does |
| Lexical.PosAfterCounts | server/src/lexer.ts:29-41 | after reading a text, the row is one more than its newlines and the column one more than the characters since its last newline |
| Lexical.PosAfterNoNewline | server/src/lexer.ts:29-33 | reading newline-free text moves the column right by its length and keeps the row |
| Lexical.PosAfterRow | server/src/lexer.ts:36-41 | reading text adds its newlines to the row |
| Lexical.PosAtIncreasing | server/src/lexer.ts:24-41 | positions strictly increase along the text (row first, then column) |
| Lexical.PosAtInjective | server/src/lexer.ts:24-41 | two offsets of a text never have the same position |
| Lexical.PosAtSlice | server/src/lexer.ts:116-118 | stepping over a newline-free slice keeps the row and adds its length to the column |
| Lexical.PosAtNewline | server/src/lexer.ts:36-41 | stepping over a newline moves to the next row, column 1 |
| ServerLexer.Recognize | server/src/lexer.ts:23-141 | every main-loop turn consumes at least one character and no more than remain; blanks are exactly space, tab, CR and newline; a unit other than a blank never covers a newline |
| ServerLexer.RecognizeStray | server/src/lexer.ts:137-140 | a character is an UNKNOWN unit exactly when it is no blank, table symbol, digit or identifier start |
| ServerLexer.RecognizeString | server/src/lexer.ts:61-92 | a quote, and only a quote, starts a string literal; it is a STRING closed by the first quote, or cut at the first newline, or cut at the end, with no quote or newline inside |
| ServerLexer.RecognizeSymbol | server/src/lexer.ts:44-57 | `:` directly followed by `=` is one ASSIGN of width 2, and only then; any other table character is one token of its table type |
| ServerLexer.RecognizeNumber | server/src/lexer.ts:108-120 | a digit, and only a digit, starts a NUMBER covering the maximal digit run |
| ServerLexer.RecognizeWord | server/src/lexer.ts:122-135 | an identifier start, and only one, starts a maximal identifier run, RESERVED exactly when the run is a reserved word |
| ServerLexer.Lex | server/src/lexer.ts:13-220 | the returned tokens and errors are those of `Lexer(input)`: scan, then assignment check, then balance check |
| ServerLexer.ScanInput | server/src/lexer.ts:23-141 | the main loop's tokens and errors are the scan specification's, unit after unit |
| ServerLexer.ScanAppend | server/src/lexer.ts:23-141 | appending one unit's output keeps the accumulated output plus the rest of the scan unchanged |
| ServerLexer.ScanUnit | server/src/lexer.ts:24-140 | one turn pushes what the recognised unit emits, continues after it, and keeps row and column equal to the position of the new offset |
| ServerLexer.ScanNumber | server/src/lexer.ts:109-120 | the number turn pushes the digit run as one NUMBER and moves the column by its length |
| ServerLexer.ScanWord | server/src/lexer.ts:123-135 | the identifier turn pushes the maximal run as RESERVED or IDENTIFIER and moves the column by its length |
| ServerLexer.RecognizeWordIs | server/src/lexer.ts:130 | unfolding of `Recognize` at an identifier start: the kind the identifier turn computes is the one the recogniser gives |
| ServerLexer.ScanQuoted | server/src/lexer.ts:61-91 | the string turn pushes a closed literal as one STRING, records a newline-cut literal as one UNCLOSED_STRING error, drops an end-cut one, and resumes at the closing quote's successor or at the cut |
| ServerLexer.RecognizeQuoted | server/src/lexer.ts:61-91 | the unit at a quote is a STRING up to and including the closing quote when the run of non-quote, non-newline characters ends at a quote, a newline cut when it ends at a newline, and an end cut otherwise |
| ServerLexer.ScanString | server/src/lexer.ts:62-82 | the inner loop stops at the first quote or newline; the lexeme holds no newline and keeps both quotes when closed; a newline cut records the partial text plus `...` at the opening quote |
| ServerLexer.ScanRun | server/src/lexer.ts:110-115 | the digit and identifier loops read the maximal run starting at the current character |
| ServerLexer.CheckStructure | server/src/lexer.ts:143-217 | the structure pass appends the assignment errors and then the balance errors to the scan errors |
| ServerLexer.CheckTokens | server/src/lexer.ts:148-190 | the three counters end at the net counts of openers minus closers; the assignment errors are those of the specification, in token order |
| ServerLexer.Count | server/src/lexer.ts:151-156 | one more token moves each counter from the net count of the first k tokens to that of the first k+1 |
| ServerLexer.CheckAssign | server/src/lexer.ts:159-189 | an ASSIGN whose four predecessors are not string, `[`, identifier, `]` (or that has fewer than four) appends exactly one INVALID_ASSIGNMENT error at its own position; any other token appends nothing |
| ServerLexer.ScanHead | server/src/lexer.ts:23-141 | unfolding of `Scan` at a token unit: a unit that is a token puts exactly that token, and its start offset, in front of those of the rest of the input |
| ServerLexer.ScanSkip | server/src/lexer.ts:23-141 | unfolding of `Scan` at a unit without token: a blank, a cut string or an unknown character adds no token and no token start |
| ServerLexer.RecognizeSits | server/src/lexer.ts:84-131 | a unit's token is the input slice it covers, stamped with the position of its first character |
| ServerLexer.ScanLaidOut | server/src/lexer.ts:23-141 | every token is the slice of the input it was read from, at its first character's position, in input order and without overlap |
| ServerLexer.RecognizeShape | server/src/lexer.ts:44-135 | a unit's token has the shape `TokenShape` states |
| ServerLexer.ScanTokensAll | server/src/lexer.ts:23-141 | a property every unit's token has holds of every scan token |
| ServerLexer.ScanTokenKinds | server/src/lexer.ts:21-135 | no scan token is an error kind or QUOTE; a word token is RESERVED exactly when it is a reserved word; a STRING starts and ends with a quote |
| ServerLexer.ScanErrorsHead | server/src/lexer.ts:72-138 | unfolding of `Scan` for errors: the errors a unit contributes come before those of the rest of the input |
| ServerLexer.UnacceptedStartsUnit | server/src/lexer.ts:137-140 | outside a string literal, a character no rule accepts is a unit of its own that yields exactly one UNKNOWN error |
| ServerLexer.EmitUnknown | server/src/lexer.ts:138 | an UNKNOWN error is the unit's first character, which no rule accepts |
| ServerLexer.CoveringUnit | server/src/lexer.ts:23-141 | a character at or after a unit start lies in the main-loop unit starting at the returned offset, which is at or before it |
| ServerLexer.UnacceptedReported | server/src/lexer.ts:23-140 | each character no rule accepts is reported as UNKNOWN at its own position, unless the unit covering it starts at a quote (it is then inside a string literal) |
| ServerLexer.UnacceptedReportedBeforeQuotes | server/src/lexer.ts:23-140 | in particular every such character before the first quote of the input is reported |
| ServerLexer.UnknownIsUnaccepted | server/src/lexer.ts:137-140 | every UNKNOWN error is such a character at its position |
| ServerLexer.AssignErrorsExact | server/src/lexer.ts:158-189 | an INVALID_ASSIGNMENT error exists exactly for each ASSIGN that has fewer than four tokens before it or is not preceded by `STRING [ IDENTIFIER ]`, at that token's position |
| ServerLexer.AssignErrorsNone | server/src/lexer.ts:180-188 | well-shaped assignments produce no INVALID_ASSIGNMENT error |
| ServerLexer.NetAppend | server/src/lexer.ts:151-156 | the counters only see net counts: they add up over concatenated token lists, so `)(` is balanced |
| ServerLexer.NetPrefix | server/src/lexer.ts:148-156 | a counter over a prefix depends on that prefix only |
| ServerLexer.BalanceErrorsExact | server/src/lexer.ts:192-217 | for each counter, an error of its kind exists exactly when its net count is not zero, with the opener (`{`, `(`, `[`) as lexeme when the count is positive and the closer when it is negative; every error is one of the three UNMATCHED kinds, at most one per kind, in the order braces, parentheses, brackets, none exactly when all three end at zero, each at the last token's position |
| ClientLexer.Match | src/lexer.ts:37 | a pattern match consumes at least one and no more than the remaining characters |
| ClientLexer.First | src/lexer.ts:36-42 | the chosen rule's match is non-empty and within the input |
| ClientLexer.PieceAt | src/lexer.ts:34-64 | every turn consumes a non-empty slice of the input at the current offset |
| ClientLexer.Lex | src/lexer.ts:27-67 | the returned tokens are `Lexer(input)`, the scan over the rule table |
| ClientLexer.Scan | src/lexer.ts:28-66 | the loop's tokens are the stamped pieces of the input, turn by turn |
| ClientLexer.ScanTurn | src/lexer.ts:34-64 | one turn pushes what its piece emits at the tracked position and moves offset, row and column as the piece says |
| ClientLexer.FirstMatch | src/lexer.ts:36-42 | the inner loop returns the first rule, in table order, whose pattern matches |
| ClientLexer.TurnKeeps | src/lexer.ts:33-65 | a turn's tokens come in front of the tokens of the rest of the scan |
| ClientLexer.FirstNone | src/lexer.ts:36-43 | no rule is chosen exactly when no pattern of the table matches |
| ClientLexer.FirstAt | src/lexer.ts:36-42 | a matching rule with no matching rule before it is the one chosen |
| ClientLexer.MatchOpens | src/lexer.ts:9-24 | a pattern only matches at a character it can start with |
| ClientLexer.FirstSole | src/lexer.ts:36-42 | when only one rule can start with the current character, the scan takes that rule's match or none |
| ClientLexer.FirstKind | src/lexer.ts:36-42 | a kind no rule has is never matched; a kind whose rules all start with `c` is matched only at a `c` |
| ClientLexer.AssignSplits | src/lexer.ts:10-19 | `:=` is read as a COLON piece and then an EQUAL piece, because COLON comes before ASSIGN in the table |
| ClientLexer.ColonPiece | src/lexer.ts:10 | a `:` is always one COLON piece |
| ClientLexer.EqualPiece | src/lexer.ts:19 | a `=` is always one EQUAL piece |
| ClientLexer.PieceNotAssign | src/lexer.ts:18 | no piece is ever an ASSIGN match |
| ClientLexer.JugadorMatch | src/lexer.ts:9 | `^Jugador\b` matches exactly where `Jugador` stands followed by no word character |
| ClientLexer.MatchIdent | src/lexer.ts:22 | the IDENTIFIER pattern matches the maximal run of identifier characters |
| ClientLexer.WordPiece | src/lexer.ts:9-22 | a whole-word `Jugador` is a RESERVED piece; any other letter or underscore starts a maximal IDENTIFIER piece |
| ClientLexer.SoleEqual | src/lexer.ts:8-25 | table fact: EQUAL is the only rule that can start with `=`, and it is in the table |
| ClientLexer.SoleNewline | src/lexer.ts:8-25 | table fact: NEWLINE is the only rule that can start with a newline, and it is in the table |
| ClientLexer.SoleQuote | src/lexer.ts:8-25 | table fact: STRING is the only rule that can start with a quote, and it is in the table |
| ClientLexer.SoleLetterRest | src/lexer.ts:10-25 | table fact: past the RESERVED rule, IDENTIFIER is the only rule a letter can start, and it is in the table |
| ClientLexer.SoleJRest | src/lexer.ts:10-25 | table fact: past the RESERVED rule, IDENTIFIER is the only rule a `J` can start |
| ClientLexer.SoleOtherLetterRest | src/lexer.ts:10-25 | table fact: past the RESERVED rule, IDENTIFIER is the only rule any other letter can start |
| ClientLexer.StartsAssign | src/lexer.ts:18 | table fact: every ASSIGN rule starts with `:` |
| ClientLexer.StartsReserved | src/lexer.ts:9 | table fact: every RESERVED rule starts with `J` |
| ClientLexer.StartsNewline | src/lexer.ts:23 | table fact: every NEWLINE rule starts with a newline |
| ClientLexer.StartsString | src/lexer.ts:11 | table fact: every STRING rule starts with a quote |
| ClientLexer.FirstJ | src/lexer.ts:9-22 | at a `J` the scan takes RESERVED for a whole-word `Jugador` and IDENTIFIER otherwise |
| ClientLexer.FirstAfterReserved | src/lexer.ts:22 | past the RESERVED rule a letter always starts an IDENTIFIER match |
| ClientLexer.FirstOtherLetter | src/lexer.ts:22 | a letter other than `J` always starts an IDENTIFIER match |
| ClientLexer.ReservedIffJugador | src/lexer.ts:9 | a piece is RESERVED exactly where `Jugador` stands as a whole word, and its lexeme is then `Jugador` |
| ClientLexer.JugadorOneIsIdentifier | src/lexer.ts:9-22 | `Jugador1` is one IDENTIFIER piece |
| ClientLexer.EquipoIsIdentifier | src/lexer.ts:9-22 | `Equipo` is one IDENTIFIER piece |
| ClientLexer.QuotePiece | src/lexer.ts:11-53 | a quote with a later quote opens a STRING piece (newlines allowed); a quote without one is a one-character UNKNOWN piece |
| ClientLexer.FirstQuote | src/lexer.ts:11 | at a quote only the STRING rule can match |
| ClientLexer.NewlinePiece | src/lexer.ts:23-47 | a newline is always a NEWLINE piece, so the unmatched-newline row bump is never taken |
| ClientLexer.MultilineStringDrift | src/lexer.ts:58-60 | after a STRING holding a newline the tracked row stays while the text's row has moved on |
| ClientLexer.PiecesSpellInput | src/lexer.ts:33-65 | the pieces, WHITESPACE and NEWLINE included, concatenate back to the input |
| ClientLexer.PieceAtShape | src/lexer.ts:8-25 | every piece has the shape of its rule |
| ClientLexer.PiecesAll | src/lexer.ts:33-65 | a property every piece has holds of all pieces of a scan |
| ClientLexer.PiecesShape | src/lexer.ts:33-65 | every piece of the scan has the shape of its rule |
| ClientLexer.StampShapes | src/lexer.ts:43-63 | the types and lexemes of the stamped tokens are, in order, those of the pieces that are not NEWLINE or WHITESPACE matches, an unmatched character giving UNKNOWN with that character; every stamped token has the client token shape |
| ClientLexer.LexerShapes | src/lexer.ts:27-67 | the returned types and lexemes are those of the scan's pieces less NEWLINE and WHITESPACE, in order; no NEWLINE, WHITESPACE or ASSIGN token is returned; RESERVED is only `Jugador`; STRING lexemes keep their quotes; UNKNOWN entries are single characters |
| Highlight.TokenColor | src/highlightHelper.ts:3-15 | RESERVED and IDENTIFIER are blue, STRING orange, NUMBER purple, and exactly every other kind black |
| Highlight.ReplaceAllAppend | src/highlightHelper.ts:28-31 | a one-character replacement works piecewise over concatenation |
| Highlight.ReplaceAllAbsent | src/highlightHelper.ts:28-31 | a pass leaves text without its character unchanged |
| Highlight.EscapeOne | src/highlightHelper.ts:28-31 | the three passes turn one character into its entity, because `&` is replaced first |
| Highlight.EscapeCons | src/highlightHelper.ts:28-31 | escaping works character by character |
| Highlight.EscapeEntities | src/highlightHelper.ts:28-43 | the three chained passes equal per-character entity escaping |
| Highlight.EscapeNoBrackets | src/highlightHelper.ts:28-31 | escaped text has no `<` or `>`, so a lexeme cannot open or close a tag |
| Highlight.UnescapeEscape | src/highlightHelper.ts:28-31 | reading the entities back undoes the escaping |
| Highlight.SegmentsToken | src/highlightHelper.ts:26-35 | unfolding of `Segments` at a token: a token at the tracked position is written next; offset and column move by its length |
| Highlight.SegmentsChar | src/highlightHelper.ts:36-47 | unfolding of `Segments` at a character: otherwise one character is written and the tracked position moves over it |
| Highlight.HighlightText | src/highlightHelper.ts:17-51 | the markup returned is the segments' markup, plus one newline when the text ends with a newline |
| Highlight.Turn | src/highlightHelper.ts:25-47 | each turn writes the next segment and makes progress |
| Highlight.TokenMarkup | src/highlightHelper.ts:27-32 | a token is its escaped lexeme in a span of its colour |
| Highlight.CharMarkup | src/highlightHelper.ts:43 | a space is written as is, any other character escaped in a black span |
| Highlight.ShownPrefix | src/highlightHelper.ts:25-35 | tokens are shown in list order, each at most once: the tokens shown are a prefix of the list, whatever the tokens hold |
| Highlight.NoTokens | src/highlightHelper.ts:37-46 | without tokens each character is written on its own: newline and space as is, everything else in a black span |
| Highlight.LaidOutRoundTrip | src/highlightHelper.ts:24-48 | when the tokens are slices of the text at their own positions, in order, the segments show all of them and stand for the text |
| Highlight.TokenStep | src/highlightHelper.ts:26-35 | a token turn keeps the round trip |
| Highlight.CharStep | src/highlightHelper.ts:36-47 | a character turn keeps the round trip |
| Highlight.TokenSpanRest | src/highlightHelper.ts:26-35 | a token turn shows that token and reads back as its lexeme |
| Highlight.CharRest | src/highlightHelper.ts:36-47 | a character turn shows no token and reads back as the character |
| Highlight.ServerTokensRoundTrip | src/highlightHelper.ts:17-51 | on the server lexer's tokens for a text, the markup shows every token in order, and the returned string, with its tags dropped and its entities read back, is the text plus the newline of line 49 when the text ends with one |
| Highlight.HighlightedReadsBack | src/highlightHelper.ts:17-51 | the same for any tokens laid out on the text |
| Highlight.MarkupReadsBack | src/highlightHelper.ts:24-48 | the markup of segments, tags dropped and entities read back, is the text they stand for |
| Highlight.HtmlStrip | src/highlightHelper.ts:24-48 | the markup of segments, tags dropped, is their text escaped, and it ends outside a tag |
| Highlight.MarkupStrip | src/highlightHelper.ts:27-46 | one segment's markup, tag dropped, is its text escaped: a span's class never closes the tag and its escaped body never opens one |
| Highlight.StripSpan | src/highlightHelper.ts:32-43 | a `<span class="…">…</span>` reads as its body when the class has no `>` and the body no `<` |
| Highlight.StripAppend | src/highlightHelper.ts:24-49 | dropping tags works piecewise over concatenation, carrying whether a tag is open |
| Highlight.SegmentsBlanks | src/highlightHelper.ts:37-44 | only spaces and newlines are written without a span |
| Highlight.EntitiesAppend | src/highlightHelper.ts:28-43 | escaping works piecewise over concatenation |
| Highlight.ColorNoBracket | src/highlightHelper.ts:3-15 | no colour class contains `>` |
| TeamView.InsertPermutes | src/views/TeamView.tsx:44-48 | inserting adds exactly the one entry |
| TeamView.InsertSorted | src/views/TeamView.tsx:44-48 | inserting into a list sorted by descending score keeps it sorted |
| TeamView.InsertStable | src/views/TeamView.tsx:44-48 | insertion keeps the order of equal scores, the new entry first among them |
| TeamView.SortSorted | src/views/TeamView.tsx:44-48 | the sort orders by score, highest first |
| TeamView.SortPermutes | src/views/TeamView.tsx:44-48 | the sort neither loses nor adds an entry |
| TeamView.SortStable | src/views/TeamView.tsx:44-48 | the sort is stable: entries of any one score keep their input order |
| TeamView.FirstOfTypeTypes | src/views/TeamView.tsx:53-59 | the first loop keeps an entry of every type and nothing outside the input |
| TeamView.FirstOfTypeDistinct | src/views/TeamView.tsx:55-57 | kept entries have pairwise distinct types, one per type of the input |
| TeamView.FirstOfTypeBest | src/views/TeamView.tsx:53-59 | in score order, the entry kept for a type scores highest among its type |
| TeamView.FirstOfTypeSubsequence | src/views/TeamView.tsx:53-59 | the kept entries are taken in order from the list |
| TeamView.FirstOfTypePrefix | src/views/TeamView.tsx:54 | stopping early keeps a prefix of what a full pass keeps |
| TeamView.SortTypes | src/views/TeamView.tsx:44-48 | sorting keeps the set of types |
| TeamView.BestTeamPrefix | src/views/TeamView.tsx:53-59 | the selection is a prefix of the first entry of each type in score order |
| TeamView.BestTeamSize | src/views/TeamView.tsx:53-69 | the selection holds min(6, number of distinct types) entries |
| TeamView.BestTeamDistinct | src/views/TeamView.tsx:55-66 | no two selected entries share a type |
| TeamView.BestTeamBestOfType | src/views/TeamView.tsx:44-59 | each selected entry scores highest among the input entries of its type |
| TeamView.BestTeamOrdered | src/views/TeamView.tsx:44-59 | the selection is a subsequence of the stable sort of the input, so it is in non-increasing score order |
| TeamView.SubsequenceSorted | src/views/TeamView.tsx:44-59 | a subsequence of a list sorted by score is sorted |
| TeamView.SelectBestTeam | src/views/TeamView.tsx:43-72 | the method returns `BestTeam(pokemon)`; the second loop adds nothing |
| TeamView.LeadingDigits | src/views/TeamView.tsx:125 | the leading digits of a lexeme are a prefix of digits followed by no digit |
| TeamView.ParseInt | src/views/TeamView.tsx:125 | `parseInt` is NaN exactly when the lexeme does not start with a digit |
| TeamView.StatOf | src/views/TeamView.tsx:121 | a word names a stat exactly when it is `salud`, `ataque` or `defensa` |
| TeamView.Jump | src/views/TeamView.tsx:96-119 | the loop index always grows and stays within the token list |
| TeamView.ExtractTeams | src/views/TeamView.tsx:90-135 | the loop and its epilogue return `Teams(tokens)` |
| TeamView.UnquoteNoQuote | src/views/TeamView.tsx:105-115 | names keep no quote and every other character |
| TeamView.UnquoteQuoted | src/views/TeamView.tsx:105 | a quoted text without inner quotes loses exactly its two quotes |
| TeamView.LowerNoCapital | src/views/TeamView.tsx:115-116 | lowering keeps the length, leaves no capital and changes only capitals |
| TeamView.HeadersJump | src/views/TeamView.tsx:100-108 | the header a turn passes, if any, is the next header |
| TeamView.StartsJump | src/views/TeamView.tsx:110-119 | the record start a turn passes, if any, is the next one the loop can reach |
| TeamView.TurnNames | src/views/TeamView.tsx:100-109 | a turn adds a team name exactly at a header |
| TeamView.WalkNames | src/views/TeamView.tsx:96-135 | the loop neither skips nor invents a header |
| TeamView.TeamsNamed | src/views/TeamView.tsx:100-135 | the teams are named by the headers, in order, one team per header |
| TeamView.TurnWithTeam | src/views/TeamView.tsx:110-120 | with a current team, a turn keeps every record and adds the started one |
| TeamView.WalkWithTeam | src/views/TeamView.tsx:96-132 | once a team exists every record is kept, in order of its start |
| TeamView.TurnBeforeTeam | src/views/TeamView.tsx:100-120 | before the first team, a header opens one and nothing is kept yet |
| TeamView.WalkBeforeTeam | src/views/TeamView.tsx:96-132 | before the first team, the records kept at the end are a tail of the pending record and later starts |
| TeamView.RecordsKept | src/views/TeamView.tsx:110-132 | the records of all teams are the record starts in order, less some of the first ones |
| TeamView.RecordsAllKept | src/views/TeamView.tsx:110-132 | when a header comes before every record start, every record is kept, in order |
| TeamView.HeaderTakesOpenRecord | src/views/TeamView.tsx:96-135 | a record still open at a team header is not pushed into the team the header closes (that team ends as it stood); it becomes the first member of a later team, the one named by the last header before the next record start or the end of the tokens |
| TeamView.WalkGrows | src/views/TeamView.tsx:96-135 | the loop only extends the teams: earlier teams stay as they are and the open team only gains members |
| TeamView.OpenRecordLands | src/views/TeamView.tsx:96-135 | a record open after a header ends up as the first member of a team named by the last header before the next record start or the end |
| TeamView.ParseIntDigits | src/views/TeamView.tsx:125 | a NUMBER lexeme reads as its decimal value |
| TeamView.StatThenNumber | src/views/TeamView.tsx:121-127 | a stat IDENTIFIER followed by a NUMBER, with a record open, sets that stat of the record to the number's value, disarms the stat, and changes nothing else |
| TeamView.TurnZero | src/views/TeamView.tsx:121-127 | without a stat word no stat is armed, so a turn keeps every stat zero |
| TeamView.StatsStayZero | src/views/TeamView.tsx:117-127 | without an IDENTIFIER naming a stat, every record keeps zero stats |
| TeamView.ServerStatsStayZero | src/views/TeamView.tsx:121 | on the server lexer's tokens, where stat words are RESERVED, every record keeps zero stats |
| TeamView.ClientLexerNoTeams | src/views/TeamView.tsx:100 | on the client lexer's tokens, where `Equipo` is an IDENTIFIER, no team is found |

## Left out

- Network, React state and rendering are not modelled: the Express handler in `server/src/index.ts` (with its `\\n` normalisation), the axios calls, the async wrapper of `fetchPokemonTeams` (`Promise.all`, `getPokemonInfo`, `setState`) and all JSX. The extraction takes the token list as a parameter.
- The `console.log` of server/src/lexer.ts:175 is output only and is left out.
- TeamView.Score: `calculateIVs` (`(salud + ataque + defensa) / 45 * 100`) is floating point. The model sorts by the integer sum. For sums below 2^50 this orders candidates the same way, because rounding is monotone and keeps distinct sums distinct there. Above that the source's doubles can tie two different sums, and its stable sort then keeps input order where the model puts the larger sum first; the model does not capture this. The selection does not depend on the percentage value otherwise.
- TeamView.SortByScore: the sort is modelled as a stable insertion sort. JavaScript's `Array.prototype.sort` is required to be stable, so the order is the same; the engine's algorithm is not modelled.
- TeamView.SelectBestTeam: `selected.includes(poke)` tests object identity in JavaScript; the model tests value membership. The second loop adds nothing either way.
- TeamView.Lower: `toLowerCase` is modelled for ASCII capitals and `ÁÉÍÓÚÑ`, the capitals of the identifier alphabet. Other Unicode case mappings are not modelled.
- TeamView.ParseInt: `parseInt` is modelled on lexemes that start with a digit or not at all. Leading whitespace and signs are not modelled; NUMBER lexemes have none of them. The source's result is a double: a NUMBER lexeme of more than 15 digits can exceed 2^53 and is then rounded, while the model keeps the exact value.
- ClientLexer: the JavaScript regular expression engine is replaced by one prefix predicate per pattern, with `\b` written out for ASCII word characters.
- ServerLexer, ClientLexer, Highlight.HighlightText: JavaScript strings are UTF-16, while the model indexes by character. This matches for text in the Basic Multilingual Plane only. A character outside it is two code units in the source: outside a string literal the server lexer (server/src/lexer.ts:137-140) and the client lexer (src/lexer.ts:45-53) report two UNKNOWN entries for it where the model reports one, and inside a string literal (server/src/lexer.ts:84-90) it moves the columns of later tokens on that line by two where the model moves them by one.
