/** The roster logic of the team view (src/views/TeamView.tsx): reading the
    teams and their Pokémon out of the analyzer's token list, and choosing
    the best six of a team, one per type. */
module TeamView {
  import opened Lexical
  import ServerLexer
  import ClientLexer

  // ---------------------------------------------------------------------
  // selectBestTeam (lines 43-72)
  // ---------------------------------------------------------------------

  datatype Ivs = Ivs(salud: int, ataque: int, defensa: int)

  /** A `PokemonWithIVs` (lines 21-28), reduced to what the selection reads. */
  datatype Candidate = Candidate(name: string, ivs: Ivs, analyzerType: string)

  /** The sort key. `calculateIVs` (lines 39-41) is `(salud + ataque +
      defensa) / 45 * 100` in doubles. Rounding is monotone, so the double
      never orders two sums the other way, and below 2^50 it keeps distinct
      sums distinct; there the sum orders the candidates the same way. */
  function Score(p: Candidate): int {
    p.ivs.salud + p.ivs.ataque + p.ivs.defensa
  }

  predicate SortedByScore(xs: seq<Candidate>) {
    forall i, j :: 0 <= i < j < |xs| ==> Score(xs[i]) >= Score(xs[j])
  }

  /** Puts `x` before the first entry of `ys` that scores no more than it. */
  function Insert(x: Candidate, ys: seq<Candidate>): seq<Candidate>
    decreases |ys|
  {
    if ys == [] || Score(x) >= Score(ys[0]) then [x] + ys
    else [ys[0]] + Insert(x, ys[1..])
  }

  /** `[...pokemon].sort((a, b) => bIV - aIV)`: highest score first, and
      equal scores in their original order (the sort is stable). */
  function SortByScore(xs: seq<Candidate>): seq<Candidate>
    decreases |xs|
  {
    if xs == [] then [] else Insert(xs[0], SortByScore(xs[1..]))
  }

  /** The entries scoring exactly `v`, in order. */
  function WithScore(xs: seq<Candidate>, v: int): seq<Candidate>
    decreases |xs|
  {
    if xs == [] then []
    else (if Score(xs[0]) == v then [xs[0]] else []) + WithScore(xs[1..], v)
  }

  lemma {:induction false} InsertPermutes(x: Candidate, ys: seq<Candidate>)
    ensures multiset(Insert(x, ys)) == multiset{x} + multiset(ys)
    decreases |ys|
  {
    if ys != [] && Score(x) < Score(ys[0]) {
      InsertPermutes(x, ys[1..]);
      assert ys == [ys[0]] + ys[1..];
    }
  }

  lemma {:induction false} InsertSorted(x: Candidate, ys: seq<Candidate>)
    requires SortedByScore(ys)
    ensures SortedByScore(Insert(x, ys))
    decreases |ys|
  {
    if ys != [] && Score(x) < Score(ys[0]) {
      var rest := Insert(x, ys[1..]);
      InsertSorted(x, ys[1..]);
      InsertPermutes(x, ys[1..]);
      forall q | q in rest
        ensures Score(ys[0]) >= Score(q)
      {
        assert q in multiset(rest);
        if q != x {
          assert q in multiset(ys[1..]);
        }
      }
      ConsSorted(ys[0], rest);
    } else if ys != [] {
      forall q | q in ys
        ensures Score(x) >= Score(q)
      {
        var k :| 0 <= k < |ys| && ys[k] == q;
      }
      ConsSorted(x, ys);
    }
  }

  /** An entry scoring at least as much as every entry of a sorted list can
      go in front of it. */
  lemma ConsSorted(y: Candidate, rest: seq<Candidate>)
    requires SortedByScore(rest) && forall q :: q in rest ==> Score(y) >= Score(q)
    ensures SortedByScore([y] + rest)
  {
    var r := [y] + rest;
    forall i, j | 0 <= i < j < |r|
      ensures Score(r[i]) >= Score(r[j])
    {
      assert r[j] == rest[j - 1] && rest[j - 1] in rest;
      if i > 0 {
        assert r[i] == rest[i - 1];
      }
    }
  }

  /** Inserting into a sorted list keeps the entries of each score in order,
      `x` first among its equals. */
  lemma {:induction false} InsertStable(x: Candidate, ys: seq<Candidate>, v: int)
    requires SortedByScore(ys)
    ensures WithScore(Insert(x, ys), v) == (if Score(x) == v then [x] else []) + WithScore(ys, v)
    decreases |ys|
  {
    if ys == [] || Score(x) >= Score(ys[0]) {
      WithScoreCons(x, ys, v);
    } else {
      var rest := Insert(x, ys[1..]);
      InsertStable(x, ys[1..], v);
      WithScoreCons(ys[0], rest, v);
      WithScoreCons(ys[0], ys[1..], v);
      assert ys == [ys[0]] + ys[1..];
      // `x` scores more than the head, so at most one of the two is kept.
      assert Score(x) != v || Score(ys[0]) != v;
    }
  }

  lemma WithScoreCons(y: Candidate, rest: seq<Candidate>, v: int)
    ensures WithScore([y] + rest, v) == (if Score(y) == v then [y] else []) + WithScore(rest, v)
  {
    assert ([y] + rest)[1..] == rest;
  }

  /** The sort orders by score, highest first. */
  lemma {:induction false} SortSorted(xs: seq<Candidate>)
    ensures SortedByScore(SortByScore(xs))
    decreases |xs|
  {
    if xs != [] {
      SortSorted(xs[1..]);
      InsertSorted(xs[0], SortByScore(xs[1..]));
    }
  }

  /** The sort neither loses nor adds an entry. */
  lemma {:induction false} SortPermutes(xs: seq<Candidate>)
    ensures multiset(SortByScore(xs)) == multiset(xs)
    decreases |xs|
  {
    if xs != [] {
      SortPermutes(xs[1..]);
      InsertPermutes(xs[0], SortByScore(xs[1..]));
      assert multiset(xs) == multiset{xs[0]} + multiset(xs[1..]) by {
        assert xs == [xs[0]] + xs[1..];
      }
      assert SortByScore(xs) == Insert(xs[0], SortByScore(xs[1..]));
    }
  }

  /** The sort is stable: the entries of any one score keep their order. */
  lemma {:induction false} SortStable(xs: seq<Candidate>, v: int)
    ensures WithScore(SortByScore(xs), v) == WithScore(xs, v)
    decreases |xs|
  {
    if xs != [] {
      SortStable(xs[1..], v);
      SortSorted(xs[1..]);
      InsertStable(xs[0], SortByScore(xs[1..]), v);
    }
  }

  function TypesOf(xs: seq<Candidate>): set<string> {
    set p | p in xs :: p.analyzerType
  }

  /** What the first loop (lines 53-59) keeps when it never stops early:
      each entry whose type no earlier kept entry has. */
  function FirstOfType(xs: seq<Candidate>): seq<Candidate>
    decreases |xs|
  {
    if xs == [] then []
    else
      var kept := FirstOfType(xs[..|xs| - 1]);
      if xs[|xs| - 1].analyzerType in TypesOf(kept) then kept else kept + [xs[|xs| - 1]]
  }

  /** `selectBestTeam(pokemon)`: the first entry of each type in score
      order, at most six of them. */
  function BestTeam(pokemon: seq<Candidate>): seq<Candidate> {
    var firsts := FirstOfType(SortByScore(pokemon));
    if |firsts| <= 6 then firsts else firsts[..6]
  }

  /** `a` is `b` with some entries left out. */
  predicate Subsequence(a: seq<Candidate>, b: seq<Candidate>)
    decreases |b|
  {
    a == []
    || (b != [] && ((a[|a| - 1] == b[|b| - 1] && Subsequence(a[..|a| - 1], b[..|b| - 1]))
                    || Subsequence(a, b[..|b| - 1])))
  }

  lemma {:induction false} FirstOfTypeTypes(xs: seq<Candidate>)
    ensures TypesOf(FirstOfType(xs)) == TypesOf(xs)
    ensures forall p :: p in FirstOfType(xs) ==> p in xs
    decreases |xs|
  {
    if xs != [] {
      var init, last := xs[..|xs| - 1], xs[|xs| - 1];
      FirstOfTypeTypes(init);
      assert xs == init + [last];
      assert TypesOf(xs) == TypesOf(init) + {last.analyzerType};
      var kept := FirstOfType(init);
      if last.analyzerType !in TypesOf(kept) {
        assert TypesOf(kept + [last]) == TypesOf(kept) + {last.analyzerType};
      }
    }
  }

  /** Kept entries have pairwise distinct types, one per type of the input. */
  lemma {:induction false} FirstOfTypeDistinct(xs: seq<Candidate>)
    ensures var f := FirstOfType(xs);
      (forall i, j :: 0 <= i < j < |f| ==> f[i].analyzerType != f[j].analyzerType)
      && |f| == |TypesOf(xs)|
    decreases |xs|
  {
    if xs != [] {
      var init, last := xs[..|xs| - 1], xs[|xs| - 1];
      var kept := FirstOfType(init);
      FirstOfTypeDistinct(init);
      FirstOfTypeTypes(init);
      assert xs == init + [last];
      assert TypesOf(xs) == TypesOf(init) + {last.analyzerType};
      if last.analyzerType !in TypesOf(kept) {
        var f := kept + [last];
        forall i, j | 0 <= i < j < |f|
          ensures f[i].analyzerType != f[j].analyzerType
        {
          if j == |f| - 1 {
            assert f[i] == kept[i] && kept[i] in kept;
          } else {
            assert f[i] == kept[i] && f[j] == kept[j];
          }
        }
      }
    }
  }

  /** In score order, the entry kept for a type scores highest among the
      entries of that type. */
  lemma {:induction false} FirstOfTypeBest(xs: seq<Candidate>)
    requires SortedByScore(xs)
    ensures forall s, q :: s in FirstOfType(xs) && q in xs && q.analyzerType == s.analyzerType ==> Score(q) <= Score(s)
    decreases |xs|
  {
    if xs != [] {
      var init, last := xs[..|xs| - 1], xs[|xs| - 1];
      SortedInit(xs);
      FirstOfTypeBest(init);
      FirstOfTypeTypes(init);
      assert xs == init + [last];
      BestStep(FirstOfType(init), init, last, FirstOfType(xs));
    }
  }

  /** The step of `FirstOfTypeBest`: keeping the last entry of a sorted list
      only when its type is new keeps the best of each type. */
  lemma BestStep(kept: seq<Candidate>, init: seq<Candidate>, last: Candidate, f: seq<Candidate>)
    requires forall s, q :: s in kept && q in init && q.analyzerType == s.analyzerType ==> Score(q) <= Score(s)
    requires (forall s :: s in kept ==> s in init) && TypesOf(kept) == TypesOf(init)
    requires forall q :: q in init ==> Score(q) >= Score(last)
    requires f == if last.analyzerType in TypesOf(kept) then kept else kept + [last]
    ensures forall s, q :: s in f && q in init + [last] && q.analyzerType == s.analyzerType ==> Score(q) <= Score(s)
  {
    forall s, q | s in f && q in init + [last] && q.analyzerType == s.analyzerType
      ensures Score(q) <= Score(s)
    {
      if q != last {
        assert q in init && q.analyzerType in TypesOf(init);
      }
    }
  }

  /** All but the last entry of a sorted list are sorted and score at least
      as much as the last. */
  lemma SortedInit(xs: seq<Candidate>)
    requires SortedByScore(xs) && xs != []
    ensures SortedByScore(xs[..|xs| - 1])
    ensures forall q :: q in xs[..|xs| - 1] ==> Score(q) >= Score(xs[|xs| - 1])
  {
    var init := xs[..|xs| - 1];
    forall i, j | 0 <= i < j < |init|
      ensures Score(init[i]) >= Score(init[j])
    {
      assert init[i] == xs[i] && init[j] == xs[j];
    }
    forall q | q in init
      ensures Score(q) >= Score(xs[|xs| - 1])
    {
      var k :| 0 <= k < |init| && init[k] == q;
      assert xs[k] == q;
    }
  }

  lemma {:induction false} FirstOfTypeSubsequence(xs: seq<Candidate>)
    ensures Subsequence(FirstOfType(xs), xs)
    decreases |xs|
  {
    if xs != [] {
      var init := xs[..|xs| - 1];
      var kept := FirstOfType(init);
      FirstOfTypeSubsequence(init);
      if xs[|xs| - 1].analyzerType !in TypesOf(kept) {
        var f := kept + [xs[|xs| - 1]];
        assert f[..|f| - 1] == kept;
      }
    }
  }

  /** Stopping early keeps a prefix. */
  lemma {:induction false} FirstOfTypePrefix(xs: seq<Candidate>, k: nat)
    requires k <= |xs|
    ensures var a, b := FirstOfType(xs[..k]), FirstOfType(xs);
      |a| <= |b| && b[..|a|] == a
    decreases |xs|
  {
    if k < |xs| {
      var init := xs[..|xs| - 1];
      assert init[..k] == xs[..k];
      FirstOfTypePrefix(init, k);
    } else {
      assert xs[..k] == xs;
    }
  }

  lemma {:induction false} SubsequencePrefix(a: seq<Candidate>, b: seq<Candidate>, n: nat)
    requires Subsequence(a, b) && n <= |a|
    ensures Subsequence(a[..n], b)
    decreases |b|
  {
    if n < |a| && b != [] {
      var b' := b[..|b| - 1];
      if a[|a| - 1] == b[|b| - 1] && Subsequence(a[..|a| - 1], b') {
        SubsequencePrefix(a[..|a| - 1], b', n);
        assert a[..|a| - 1][..n] == a[..n];
      } else {
        SubsequencePrefix(a, b', n);
      }
      SubsequenceGrow(a[..n], b);
    } else if n == |a| {
      assert a[..n] == a;
    }
  }

  /** A subsequence of all but the last entry is a subsequence of all. */
  lemma SubsequenceGrow(a: seq<Candidate>, b: seq<Candidate>)
    requires b != [] && Subsequence(a, b[..|b| - 1])
    ensures Subsequence(a, b)
  {
  }

  /** Sorting keeps the set of types. */
  lemma SortTypes(pokemon: seq<Candidate>)
    ensures TypesOf(SortByScore(pokemon)) == TypesOf(pokemon)
  {
    var sorted := SortByScore(pokemon);
    SortPermutes(pokemon);
    forall p
      ensures p in sorted <==> p in pokemon
    {
      assert p in sorted <==> p in multiset(sorted);
    }
  }

  /** The selection is a prefix of the first entries of each type in score order. */
  lemma BestTeamPrefix(pokemon: seq<Candidate>)
    ensures var f := FirstOfType(SortByScore(pokemon));
      |BestTeam(pokemon)| <= |f| && BestTeam(pokemon) == f[..|BestTeam(pokemon)|]
  {
    var f := FirstOfType(SortByScore(pokemon));
    assert |f| <= 6 ==> f[..|f|] == f;
  }

  /** The selection holds `min(6, number of types)` entries. */
  lemma BestTeamSize(pokemon: seq<Candidate>)
    ensures |BestTeam(pokemon)| == if |TypesOf(pokemon)| < 6 then |TypesOf(pokemon)| else 6
  {
    SortTypes(pokemon);
    FirstOfTypeDistinct(SortByScore(pokemon));
  }

  /** No two selected entries share a type. */
  lemma BestTeamDistinct(pokemon: seq<Candidate>)
    ensures var best := BestTeam(pokemon);
      forall i, j :: 0 <= i < j < |best| ==> best[i].analyzerType != best[j].analyzerType
  {
    var f := FirstOfType(SortByScore(pokemon));
    FirstOfTypeDistinct(SortByScore(pokemon));
    BestTeamPrefix(pokemon);
    var best := BestTeam(pokemon);
    forall i, j | 0 <= i < j < |best|
      ensures best[i].analyzerType != best[j].analyzerType
    {
      assert best[i] == f[i] && best[j] == f[j];
    }
  }

  /** Each selected entry scores highest among the input entries of its type. */
  lemma BestTeamBestOfType(pokemon: seq<Candidate>)
    ensures forall s, q :: s in BestTeam(pokemon) && q in pokemon && q.analyzerType == s.analyzerType ==>
      Score(q) <= Score(s)
  {
    var sorted := SortByScore(pokemon);
    SortSorted(pokemon);
    SortPermutes(pokemon);
    FirstOfTypeBest(sorted);
    BestTeamPrefix(pokemon);
    var f, best := FirstOfType(sorted), BestTeam(pokemon);
    forall s, q | s in best && q in pokemon && q.analyzerType == s.analyzerType
      ensures Score(q) <= Score(s)
    {
      assert s in f;
      assert q in multiset(pokemon);
      assert q in sorted;
    }
  }

  /** The selection is taken in order from the sorted input, so it is in
      score order too. */
  lemma BestTeamOrdered(pokemon: seq<Candidate>)
    ensures Subsequence(BestTeam(pokemon), SortByScore(pokemon))
    ensures SortedByScore(BestTeam(pokemon))
  {
    var sorted := SortByScore(pokemon);
    var f, best := FirstOfType(sorted), BestTeam(pokemon);
    SortSorted(pokemon);
    FirstOfTypeSubsequence(sorted);
    BestTeamPrefix(pokemon);
    SubsequencePrefix(f, sorted, |best|);
    SubsequenceSorted(best, sorted);
  }

  lemma SubsequenceSorted(a: seq<Candidate>, b: seq<Candidate>)
    requires Subsequence(a, b) && SortedByScore(b)
    ensures SortedByScore(a)
  {
    forall i, j | 0 <= i < j < |a|
      ensures Score(a[i]) >= Score(a[j])
    {
      SubsequenceOrder(a, b, i, j);
    }
  }

  /** Entries of a subsequence of a sorted list are in score order. */
  lemma {:induction false} SubsequenceOrder(a: seq<Candidate>, b: seq<Candidate>, i: nat, j: nat)
    requires Subsequence(a, b) && SortedByScore(b) && i < j < |a|
    ensures Score(a[i]) >= Score(a[j])
    decreases |b|
  {
    var b' := b[..|b| - 1];
    assert SortedByScore(b') by {
      forall x, y | 0 <= x < y < |b'| ensures Score(b'[x]) >= Score(b'[y]) {
        assert b'[x] == b[x] && b'[y] == b[y];
      }
    }
    if a[|a| - 1] == b[|b| - 1] && Subsequence(a[..|a| - 1], b') {
      if j < |a| - 1 {
        SubsequenceOrder(a[..|a| - 1], b', i, j);
      } else {
        SubsequenceIn(a[..|a| - 1], b', i);
        var k :| 0 <= k < |b'| && b'[k] == a[i];
        assert b[k] == a[i];
      }
    } else {
      SubsequenceOrder(a, b', i, j);
    }
  }

  lemma {:induction false} SubsequenceIn(a: seq<Candidate>, b: seq<Candidate>, i: nat)
    requires Subsequence(a, b) && i < |a|
    ensures a[i] in b
    decreases |b|
  {
    var b' := b[..|b| - 1];
    if a[|a| - 1] == b[|b| - 1] && Subsequence(a[..|a| - 1], b') {
      if i < |a| - 1 {
        SubsequenceIn(a[..|a| - 1], b', i);
        assert forall x :: x in b' ==> x in b;
      }
    } else {
      SubsequenceIn(a, b', i);
      assert forall x :: x in b' ==> x in b;
    }
  }

  /** `selectBestTeam`, lines 43-72. The second loop never adds an entry:
      it only runs when the first went through the whole list, and then
      every type is already used. */
  method SelectBestTeam(pokemon: seq<Candidate>) returns (selected: seq<Candidate>)
    ensures selected == BestTeam(pokemon)
  {
    var sortedByIVs := SortByScore(pokemon);
    selected := [];
    var usedTypes: set<string> := {};
    var k := 0;
    while k < |sortedByIVs|
      invariant k <= |sortedByIVs|
      invariant selected == FirstOfType(sortedByIVs[..k]) && usedTypes == TypesOf(selected)
      invariant |selected| <= 6
    {
      if |selected| >= 6 {
        break;
      }
      var poke := sortedByIVs[k];
      assert sortedByIVs[..k + 1][..k] == sortedByIVs[..k];
      if poke.analyzerType !in usedTypes {
        selected := selected + [poke];
        usedTypes := usedTypes + {poke.analyzerType};
      }
      k := k + 1;
    }
    FirstOfTypePrefix(sortedByIVs, k);
    if k == |sortedByIVs| {
      assert sortedByIVs[..k] == sortedByIVs;
    }

    if |selected| < 6 {
      FirstOfTypeTypes(sortedByIVs);
      var j := 0;
      while j < |sortedByIVs|
        invariant usedTypes == TypesOf(sortedByIVs)
        invariant selected == BestTeam(pokemon)
      {
        if |selected| >= 6 {
          break;
        }
        var poke := sortedByIVs[j];
        if poke !in selected && poke.analyzerType !in usedTypes {
          selected := selected + [poke];
          usedTypes := usedTypes + {poke.analyzerType};
        }
        j := j + 1;
      }
    }
  }

  // ---------------------------------------------------------------------
  // The token walk of fetchPokemonTeams (lines 90-135)
  // ---------------------------------------------------------------------

  /** A number as `parseInt` reads it, or NaN when no digit leads. */
  datatype Num = Num(n: nat) | NaN

  datatype Stat = Salud | Ataque | Defensa

  datatype Stats = Stats(salud: Num, ataque: Num, defensa: Num)

  const Zero := Stats(Num(0), Num(0), Num(0))

  /** A Pokémon of a team: name, type and stats (lines 10-17). */
  datatype Record = Record(name: string, pokeType: string, stats: Stats)

  datatype Team = Team(name: string, members: seq<Record>)

  /** The variables of the loop: `teamsData`, `currentTeam`,
      `currentPokemon` and `currentStat`. */
  datatype Progress = Progress(teamsData: seq<Team>, currentTeam: Option<Team>,
                               currentPokemon: Option<Record>, currentStat: Option<Stat>)

  const Start := Progress([], None, None, None)

  /** `s.replace(/"/g, '')`. */
  function Unquote(s: string): string
    decreases |s|
  {
    if s == [] then [] else (if s[0] == '"' then [] else [s[0]]) + Unquote(s[1..])
  }

  predicate IsUpper(c: char) {
    'A' <= c <= 'Z' || c == 'Á' || c == 'É' || c == 'Í' || c == 'Ó' || c == 'Ú' || c == 'Ñ'
  }

  /** `toLowerCase` on one character: the capitals of the identifier
      alphabet move to their small letters, 32 code points on. */
  function LowerChar(c: char): char {
    if IsUpper(c) then (c as int + 32) as char else c
  }

  /** `s.toLowerCase()`. */
  function Lower(s: string): string
    decreases |s|
  {
    if s == [] then [] else [LowerChar(s[0])] + Lower(s[1..])
  }

  /** The value of a run of decimal digits. */
  function Decimal(d: string): nat
    requires forall k :: 0 <= k < |d| ==> IsDigit(d[k])
    decreases |d|
  {
    if d == [] then 0
    else
      assert IsDigit(d[|d| - 1]);
      10 * Decimal(d[..|d| - 1]) + (d[|d| - 1] as int - '0' as int)
  }

  /** The digits `s` starts with. */
  function LeadingDigits(s: string): (d: string)
    ensures d <= s && forall k :: 0 <= k < |d| ==> IsDigit(d[k])
    ensures |d| < |s| ==> !IsDigit(s[|d|])
    decreases |s|
  {
    if s != [] && IsDigit(s[0]) then [s[0]] + LeadingDigits(s[1..]) else []
  }

  /** `parseInt(s)`: the value of the leading digits. */
  function ParseInt(s: string): (v: Num)
    ensures v == NaN <==> s == [] || !IsDigit(s[0])
  {
    var d := LeadingDigits(s);
    if d == [] then NaN else Num(Decimal(d))
  }

  /** The stat word an IDENTIFIER may name (line 121). */
  function StatOf(word: string): (r: Option<Stat>)
    ensures r.Some? <==> word in ["salud", "ataque", "defensa"]
  {
    if word == "salud" then Some(Salud)
    else if word == "ataque" then Some(Ataque)
    else if word == "defensa" then Some(Defensa)
    else None
  }

  function SetStat(s: Stats, which: Stat, v: Num): Stats {
    match which
    case Salud => s.(salud := v)
    case Ataque => s.(ataque := v)
    case Defensa => s.(defensa := v)
  }

  /** `RESERVED "Equipo"`, `COLON`, `STRING` at `i` (line 100). */
  predicate IsHeader(ts: seq<Token>, i: nat) {
    i + 2 < |ts| && ts[i].kind == Reserved && ts[i].lexeme == "Equipo"
    && ts[i + 1].kind == Colon && ts[i + 2].kind == String
  }

  /** `STRING`, `LBRACKET`, `IDENTIFIER` at `i` (line 110). */
  predicate IsRecordStart(ts: seq<Token>, i: nat) {
    i + 2 < |ts| && ts[i].kind == String && ts[i + 1].kind == LBracket && ts[i + 2].kind == Identifier
  }

  /** The team a header at `i` opens (lines 104-107). */
  function NewTeam(ts: seq<Token>, i: nat): Team
    requires IsHeader(ts, i)
  {
    Team(Unquote(ts[i + 2].lexeme), [])
  }

  /** The record a record start at `i` opens (lines 114-118). */
  function NewRecord(ts: seq<Token>, i: nat): Record
    requires IsRecordStart(ts, i)
  {
    Record(Lower(Unquote(ts[i].lexeme)), Lower(ts[i + 2].lexeme), Zero)
  }

  /** The record, if any, goes into the current team, if any (lines 111-113). */
  function PushRecord(team: Option<Team>, record: Option<Record>): Option<Team> {
    if team.Some? && record.Some? then Some(team.value.(members := team.value.members + [record.value]))
    else team
  }

  function Flush(team: Option<Team>): seq<Team> {
    if team.Some? then [team.value] else []
  }

  /** Where the loop goes on after index `i`: past the two tokens a header
      or a record start has read (`i += 2`, then `i++`), or to the next. */
  function Jump(ts: seq<Token>, i: nat): (j: nat)
    requires i < |ts|
    ensures i < j <= |ts|
  {
    if ts[i].kind == Newline || ts[i].kind == Whitespace then i + 1
    else if IsHeader(ts, i) || IsRecordStart(ts, i) then i + 3
    else i + 1
  }

  /** What one turn at index `i` makes of the variables (lines 96-128). */
  function Turn(ts: seq<Token>, i: nat, p: Progress): Progress
    requires i < |ts|
  {
    var t := ts[i];
    if t.kind == Newline || t.kind == Whitespace then p
    else if IsHeader(ts, i) then
      p.(teamsData := p.teamsData + Flush(p.currentTeam), currentTeam := Some(NewTeam(ts, i)))
    else if IsRecordStart(ts, i) then
      p.(currentTeam := PushRecord(p.currentTeam, p.currentPokemon), currentPokemon := Some(NewRecord(ts, i)))
    else if t.kind == Identifier && StatOf(t.lexeme).Some? then p.(currentStat := StatOf(t.lexeme))
    else if t.kind == Number && p.currentStat.Some? && p.currentPokemon.Some? then
      var r := p.currentPokemon.value;
      p.(currentPokemon := Some(r.(stats := SetStat(r.stats, p.currentStat.value, ParseInt(t.lexeme)))),
         currentStat := None)
    else p
  }

  /** The loop from index `i` on. */
  function Walk(ts: seq<Token>, i: nat, p: Progress): Progress
    decreases |ts| - i
  {
    if i >= |ts| then p else Walk(ts, Jump(ts, i), Turn(ts, i, p))
  }

  /** After the loop (lines 130-135): the last record into the current team,
      and the current team into the list. */
  function Finish(p: Progress): seq<Team> {
    p.teamsData + Flush(PushRecord(p.currentTeam, p.currentPokemon))
  }

  /** The teams read from a token list. */
  function Teams(ts: seq<Token>): seq<Team> {
    Finish(Walk(ts, 0, Start))
  }

  /** The token walk of `fetchPokemonTeams`, lines 90-135. */
  method ExtractTeams(tokens: seq<Token>) returns (teamsData: seq<Team>)
    ensures teamsData == Teams(tokens)
  {
    teamsData := [];
    var currentTeam: Option<Team> := None;
    var currentPokemon: Option<Record> := None;
    var currentStat: Option<Stat> := None;
    var i := 0;
    while i < |tokens|
      invariant i <= |tokens|
      invariant Walk(tokens, i, Progress(teamsData, currentTeam, currentPokemon, currentStat)) == Walk(tokens, 0, Start)
      decreases |tokens| - i
    {
      ghost var before, at := Progress(teamsData, currentTeam, currentPokemon, currentStat), i;
      var token := tokens[i];
      if token.kind == Newline || token.kind == Whitespace {
      } else if token.kind == Reserved && token.lexeme == "Equipo" && i + 1 < |tokens| && tokens[i + 1].kind == Colon
                && i + 2 < |tokens| && tokens[i + 2].kind == String {
        if currentTeam.Some? {
          teamsData := teamsData + [currentTeam.value];
        }
        currentTeam := Some(Team(Unquote(tokens[i + 2].lexeme), []));
        i := i + 2;
      } else if token.kind == String && i + 1 < |tokens| && tokens[i + 1].kind == LBracket
                && i + 2 < |tokens| && tokens[i + 2].kind == Identifier {
        if currentPokemon.Some? && currentTeam.Some? {
          currentTeam := Some(currentTeam.value.(members := currentTeam.value.members + [currentPokemon.value]));
        }
        currentPokemon := Some(Record(Lower(Unquote(token.lexeme)), Lower(tokens[i + 2].lexeme), Zero));
        i := i + 2;
      } else if token.kind == Identifier && token.lexeme in ["salud", "ataque", "defensa"] {
        currentStat := StatOf(token.lexeme);
      } else if token.kind == Number && currentStat.Some? && currentPokemon.Some? {
        var stats := SetStat(currentPokemon.value.stats, currentStat.value, ParseInt(token.lexeme));
        currentPokemon := Some(currentPokemon.value.(stats := stats));
        currentStat := None;
      }
      i := i + 1;
      assert Progress(teamsData, currentTeam, currentPokemon, currentStat) == Turn(tokens, at, before);
      assert i == Jump(tokens, at);
    }
    if currentPokemon.Some? && currentTeam.Some? {
      currentTeam := Some(currentTeam.value.(members := currentTeam.value.members + [currentPokemon.value]));
    }
    if currentTeam.Some? {
      teamsData := teamsData + [currentTeam.value];
    }
  }

  // ---------------------------------------------------------------------
  // Properties of the token walk
  // ---------------------------------------------------------------------

  /** Names lose every quote. */
  lemma {:induction false} UnquoteNoQuote(s: string)
    ensures '"' !in Unquote(s)
    ensures forall c :: c != '"' ==> (c in Unquote(s) <==> c in s)
    decreases |s|
  {
    if s != [] {
      UnquoteNoQuote(s[1..]);
      assert s == [s[0]] + s[1..];
    }
  }

  /** A quoted text without inner quotes loses exactly its two quotes. */
  lemma UnquoteQuoted(x: string)
    requires '"' !in x
    ensures Unquote("\"" + x + "\"") == x
  {
    var q := "\"" + x + "\"";
    assert q[1..] == x + "\"";
    UnquoteAppend(x, "\"");
    UnquoteAbsent(x);
  }

  lemma {:induction false} UnquoteAppend(a: string, b: string)
    ensures Unquote(a + b) == Unquote(a) + Unquote(b)
    decreases |a|
  {
    if a == [] {
      assert a + b == b;
    } else {
      var ab := a + b;
      assert ab[0] == a[0] && ab[1..] == a[1..] + b;
      var h := if a[0] == '"' then [] else [a[0]];
      assert Unquote(ab) == h + Unquote(a[1..] + b);
      UnquoteAppend(a[1..], b);
      RegroupStep(Unquote(ab), h, Unquote(a[1..] + b), Unquote(a[1..]), Unquote(b), Unquote(a));
    }
  }

  /** Sequence regrouping step, kept apart to keep the proofs above small. */
  lemma RegroupStep<T>(total: seq<T>, h: seq<T>, x: seq<T>, y: seq<T>, z: seq<T>, hy: seq<T>)
    requires total == h + x && x == y + z && hy == h + y
    ensures total == hy + z
  {
  }

  lemma {:induction false} UnquoteAbsent(s: string)
    requires '"' !in s
    ensures Unquote(s) == s
    decreases |s|
  {
    if s != [] {
      UnquoteAbsent(s[1..]);
      assert s == [s[0]] + s[1..];
    }
  }

  /** Lowering leaves no capital and changes nothing else. */
  lemma {:induction false} LowerNoCapital(s: string)
    ensures |Lower(s)| == |s|
    ensures forall k :: 0 <= k < |s| ==> !IsUpper(Lower(s)[k]) && (Lower(s)[k] == s[k] <==> !IsUpper(s[k]))
    decreases |s|
  {
    if s != [] {
      LowerNoCapital(s[1..]);
      var l := Lower(s);
      forall k | 0 <= k < |s|
        ensures !IsUpper(l[k]) && (l[k] == s[k] <==> !IsUpper(s[k]))
      {
        if k > 0 {
          assert l[k] == Lower(s[1..])[k - 1] && s[k] == s[1..][k - 1];
        }
      }
    }
  }

  function Names(teams: seq<Team>): seq<string>
    decreases |teams|
  {
    if teams == [] then [] else Names(teams[..|teams| - 1]) + [teams[|teams| - 1].name]
  }

  /** Every record of every team, in order. */
  function Members(teams: seq<Team>): seq<Record>
    decreases |teams|
  {
    if teams == [] then [] else Members(teams[..|teams| - 1]) + teams[|teams| - 1].members
  }

  /** The name and type of a record: what a record start fixes. */
  function Label(r: Record): (string, string) {
    (r.name, r.pokeType)
  }

  function Labels(rs: seq<Record>): seq<(string, string)> {
    seq(|rs|, k requires 0 <= k < |rs| => Label(rs[k]))
  }

  /** The names of the team headers from index `i` on. */
  function Headers(ts: seq<Token>, i: nat): seq<string>
    decreases |ts| - i
  {
    if i >= |ts| then []
    else (if IsHeader(ts, i) then [NewTeam(ts, i).name] else []) + Headers(ts, i + 1)
  }

  /** A record start the loop reaches: every one but the team-name string of
      a header, which the header's jump passes over. */
  predicate SeenStart(ts: seq<Token>, i: nat) {
    IsRecordStart(ts, i) && !(i >= 2 && IsHeader(ts, i - 2))
  }

  /** The name and type of the records started from index `i` on. */
  function Starts(ts: seq<Token>, i: nat): seq<(string, string)>
    decreases |ts| - i
  {
    if i >= |ts| then []
    else (if SeenStart(ts, i) then [Label(NewRecord(ts, i))] else []) + Starts(ts, i + 1)
  }

  /** `a` is what remains of `b` once some of its first entries are dropped. */
  predicate IsSuffix<T(==)>(a: seq<T>, b: seq<T>) {
    |a| <= |b| && a == b[|b| - |a|..]
  }

  /** An index the loop can stand on: the two before it are no header and no
      record start it would have jumped from. */
  predicate Visitable(ts: seq<Token>, i: nat) {
    (i >= 1 ==> !IsHeader(ts, i - 1) && !SeenStart(ts, i - 1))
    && (i >= 2 ==> !IsHeader(ts, i - 2) && !SeenStart(ts, i - 2))
  }

  /** The teams so far, the current one last. */
  function Held(p: Progress): seq<Team> {
    p.teamsData + Flush(p.currentTeam)
  }

  /** The team names so far. */
  function Named(p: Progress): seq<string> {
    Names(Held(p))
  }

  /** The records so far: those in the finished teams and the current one. */
  function Kept(p: Progress): seq<Record> {
    Members(Held(p))
  }

  function Pending(p: Progress): seq<(string, string)> {
    if p.currentPokemon.Some? then [Label(p.currentPokemon.value)] else []
  }

  lemma NamesSnoc(teams: seq<Team>, t: Team)
    ensures Names(teams + [t]) == Names(teams) + [t.name]
  {
    assert (teams + [t])[..|teams|] == teams;
  }

  lemma MembersSnoc(teams: seq<Team>, t: Team)
    ensures Members(teams + [t]) == Members(teams) + t.members
  {
    assert (teams + [t])[..|teams|] == teams;
  }

  lemma {:induction false} NamesLength(teams: seq<Team>)
    ensures |Names(teams)| == |teams|
    decreases |teams|
  {
    if teams != [] {
      NamesLength(teams[..|teams| - 1]);
    }
  }

  /** The header a turn passes, if any, is the next header. */
  lemma HeadersJump(ts: seq<Token>, i: nat)
    requires i < |ts|
    ensures Headers(ts, i) == (if IsHeader(ts, i) then [NewTeam(ts, i).name] else []) + Headers(ts, Jump(ts, i))
  {
    if Jump(ts, i) == i + 3 {
      assert Headers(ts, i + 1) == Headers(ts, i + 3) by {
        HeadersSkip(ts, i + 1);
        HeadersSkip(ts, i + 2);
      }
    }
  }

  lemma HeadersSkip(ts: seq<Token>, i: nat)
    requires i < |ts| && i >= 1 && (IsHeader(ts, i - 1) || IsRecordStart(ts, i - 1) || (i >= 2 && (IsHeader(ts, i - 2) || IsRecordStart(ts, i - 2))))
    ensures Headers(ts, i) == Headers(ts, i + 1)
  {
    assert ts[i].kind != Reserved;
  }

  /** From a visitable index the loop reaches a visitable index. */
  lemma VisitableJump(ts: seq<Token>, i: nat)
    requires i < |ts| && Visitable(ts, i)
    ensures Visitable(ts, Jump(ts, i))
    ensures IsRecordStart(ts, i) ==> SeenStart(ts, i)
  {
    if Jump(ts, i) == i + 3 {
      assert !IsHeader(ts, i + 1) && !SeenStart(ts, i + 1);
      assert !IsHeader(ts, i + 2) && !SeenStart(ts, i + 2);
    }
  }

  /** The record start a turn passes, if any, is the next one. */
  lemma StartsJump(ts: seq<Token>, i: nat)
    requires i < |ts| && Visitable(ts, i)
    ensures Starts(ts, i) == (if IsRecordStart(ts, i) then [Label(NewRecord(ts, i))] else []) + Starts(ts, Jump(ts, i))
  {
    VisitableJump(ts, i);
    if Jump(ts, i) == i + 3 {
      StartsSkip(ts, i);
    }
  }

  lemma StartsSkip(ts: seq<Token>, i: nat)
    requires i + 2 < |ts| && (IsHeader(ts, i) || IsRecordStart(ts, i))
    ensures Starts(ts, i + 1) == Starts(ts, i + 3)
  {
    assert !SeenStart(ts, i + 1) && !SeenStart(ts, i + 2);
    assert Starts(ts, i + 2) == Starts(ts, i + 3);
  }

  /** A turn adds a team name exactly at a header. */
  lemma TurnNames(ts: seq<Token>, i: nat, p: Progress)
    requires i < |ts|
    ensures Named(Turn(ts, i, p)) == Named(p) + (if IsHeader(ts, i) then [NewTeam(ts, i).name] else [])
  {
    var q := Turn(ts, i, p);
    if IsHeader(ts, i) {
      NamesSnoc(p.teamsData + Flush(p.currentTeam), NewTeam(ts, i));
    } else if IsRecordStart(ts, i) && p.currentTeam.Some? {
      NamesSnoc(p.teamsData, p.currentTeam.value);
      NamesSnoc(p.teamsData, q.currentTeam.value);
    }
  }

  /** The loop neither skips nor invents a header: the team names are the
      header names in order, after those of the teams it already holds. */
  lemma {:induction false} WalkNames(ts: seq<Token>, i: nat, p: Progress)
    ensures Names(Finish(Walk(ts, i, p))) == Named(p) + Headers(ts, i)
    decreases |ts| - i
  {
    if i >= |ts| {
      FinishNames(p);
    } else {
      WalkNames(ts, Jump(ts, i), Turn(ts, i, p));
      WalkNamesStep(ts, i, p);
    }
  }

  lemma FinishNames(p: Progress)
    ensures Names(Finish(p)) == Named(p)
  {
    if p.currentTeam.Some? {
      NamesSnoc(p.teamsData, p.currentTeam.value);
      NamesSnoc(p.teamsData, PushRecord(p.currentTeam, p.currentPokemon).value);
    } else {
      assert Finish(p) == p.teamsData + [];
    }
  }

  lemma WalkNamesStep(ts: seq<Token>, i: nat, p: Progress)
    requires i < |ts|
    requires Names(Finish(Walk(ts, Jump(ts, i), Turn(ts, i, p)))) == Named(Turn(ts, i, p)) + Headers(ts, Jump(ts, i))
    ensures Names(Finish(Walk(ts, i, p))) == Named(p) + Headers(ts, i)
  {
    var j, q := Jump(ts, i), Turn(ts, i, p);
    var x := if IsHeader(ts, i) then [NewTeam(ts, i).name] else [];
    assert Walk(ts, i, p) == Walk(ts, j, q);
    TurnNames(ts, i, p);
    HeadersJump(ts, i);
    ConcatStep(Names(Finish(Walk(ts, j, q))), Named(q), Named(p), x, Headers(ts, j), Headers(ts, i));
  }

  /** The teams are named by the headers, one team per header, in order. */
  lemma TeamsNamed(ts: seq<Token>)
    ensures Names(Teams(ts)) == Headers(ts, 0)
    ensures |Teams(ts)| == |Headers(ts, 0)|
  {
    WalkNames(ts, 0, Start);
    NamesLength(Teams(ts));
  }

  /** With a current team, the loop's end pushes the pending record into it. */
  lemma FinishWithTeam(p: Progress)
    requires p.currentTeam.Some?
    ensures Labels(Members(Finish(p))) == Labels(Kept(p)) + Pending(p)
  {
    var team := p.currentTeam.value;
    MembersSnoc(p.teamsData, team);
    MembersSnoc(p.teamsData, PushRecord(p.currentTeam, p.currentPokemon).value);
  }

  /** What a turn does to the records kept and pending, with a current team. */
  lemma TurnWithTeam(ts: seq<Token>, i: nat, p: Progress)
    requires i < |ts| && p.currentTeam.Some?
    ensures var q := Turn(ts, i, p);
      q.currentTeam.Some?
      && Labels(Kept(q)) + Pending(q)
         == Labels(Kept(p)) + Pending(p) + (if IsRecordStart(ts, i) then [Label(NewRecord(ts, i))] else [])
  {
    if IsHeader(ts, i) {
      HeaderWithTeam(ts, i, p);
    } else if IsRecordStart(ts, i) {
      RecordWithTeam(ts, i, p);
    } else {
      OtherWithTeam(ts, i, p);
    }
  }

  lemma HeaderWithTeam(ts: seq<Token>, i: nat, p: Progress)
    requires i < |ts| && p.currentTeam.Some? && IsHeader(ts, i)
    ensures var q := Turn(ts, i, p);
      q.currentTeam.Some? && !IsRecordStart(ts, i) && Labels(Kept(q)) + Pending(q) == Labels(Kept(p)) + Pending(p)
  {
    var q := Turn(ts, i, p);
    assert q == p.(teamsData := p.teamsData + Flush(p.currentTeam), currentTeam := Some(NewTeam(ts, i)));
    MembersSnoc(p.teamsData + Flush(p.currentTeam), NewTeam(ts, i));
  }

  lemma RecordWithTeam(ts: seq<Token>, i: nat, p: Progress)
    requires i < |ts| && p.currentTeam.Some? && !IsHeader(ts, i) && IsRecordStart(ts, i)
    ensures var q := Turn(ts, i, p);
      q.currentTeam.Some? && Labels(Kept(q)) + Pending(q) == Labels(Kept(p)) + Pending(p) + [Label(NewRecord(ts, i))]
  {
    var q := Turn(ts, i, p);
    assert q == p.(currentTeam := PushRecord(p.currentTeam, p.currentPokemon), currentPokemon := Some(NewRecord(ts, i)));
    FinishWithTeam(p);
    assert Kept(q) == Members(Finish(p));
  }

  lemma OtherWithTeam(ts: seq<Token>, i: nat, p: Progress)
    requires i < |ts| && p.currentTeam.Some? && !IsHeader(ts, i) && !IsRecordStart(ts, i)
    ensures var q := Turn(ts, i, p);
      q.currentTeam.Some? && Labels(Kept(q)) + Pending(q) == Labels(Kept(p)) + Pending(p)
  {
    var q := Turn(ts, i, p);
    assert q.teamsData == p.teamsData && q.currentTeam == p.currentTeam;
    assert Pending(q) == Pending(p);
  }

  /** Once a team exists every record is kept: the records at the end are
      those so far, the pending one, and every later record start. */
  lemma {:induction false} WalkWithTeam(ts: seq<Token>, i: nat, p: Progress)
    requires Visitable(ts, i) && p.currentTeam.Some?
    ensures Labels(Members(Finish(Walk(ts, i, p)))) == Labels(Kept(p)) + Pending(p) + Starts(ts, i)
    decreases |ts| - i
  {
    if i >= |ts| {
      FinishWithTeam(p);
    } else {
      VisitableJump(ts, i);
      TurnWithTeam(ts, i, p);
      WalkWithTeam(ts, Jump(ts, i), Turn(ts, i, p));
      WithTeamStep(ts, i, p);
    }
  }

  lemma WithTeamStep(ts: seq<Token>, i: nat, p: Progress)
    requires i < |ts| && Visitable(ts, i) && p.currentTeam.Some?
    requires var j, q := Jump(ts, i), Turn(ts, i, p);
      Labels(Members(Finish(Walk(ts, j, q)))) == Labels(Kept(q)) + Pending(q) + Starts(ts, j)
    ensures Labels(Members(Finish(Walk(ts, i, p)))) == Labels(Kept(p)) + Pending(p) + Starts(ts, i)
  {
    var j, q := Jump(ts, i), Turn(ts, i, p);
    var x := if IsRecordStart(ts, i) then [Label(NewRecord(ts, i))] else [];
    assert Walk(ts, i, p) == Walk(ts, j, q);
    StartsJump(ts, i);
    TurnWithTeam(ts, i, p);
    ConcatStep(Labels(Members(Finish(Walk(ts, j, q)))), Labels(Kept(q)) + Pending(q),
               Labels(Kept(p)) + Pending(p), x, Starts(ts, j), Starts(ts, i));
  }

  /** Sequence regrouping step of a walk, kept apart to keep the proofs small:
      what is gained in a turn moves from the tail to the kept part. */
  lemma ConcatStep<T>(total: seq<T>, kq: seq<T>, kp: seq<T>, x: seq<T>, sj: seq<T>, si: seq<T>)
    requires total == kq + sj && kq == kp + x && si == x + sj
    ensures total == kp + si
  {
  }

  /** What a turn does before the first team: a header opens one, anything
      else keeps nothing, and only a record start changes the pending record. */
  lemma TurnBeforeTeam(ts: seq<Token>, i: nat, p: Progress)
    requires i < |ts| && p.currentTeam.None? && p.teamsData == []
    ensures var q := Turn(ts, i, p);
      && q.teamsData == []
      && (q.currentTeam.Some? <==> IsHeader(ts, i))
      && Kept(q) == []
      && Pending(q) == if IsRecordStart(ts, i) then [Label(NewRecord(ts, i))] else Pending(p)
  {
    var q := Turn(ts, i, p);
    if IsHeader(ts, i) {
      MembersSnoc([], NewTeam(ts, i));
      assert q.teamsData + Flush(q.currentTeam) == [] + [NewTeam(ts, i)];
    } else {
      assert q.teamsData + Flush(q.currentTeam) == [];
    }
  }

  /** Before the first team, records are dropped when the next record
      starts: what is kept at the end is a tail of the pending record and
      the later record starts. */
  lemma {:induction false} WalkBeforeTeam(ts: seq<Token>, i: nat, p: Progress)
    requires Visitable(ts, i) && p.currentTeam.None? && p.teamsData == []
    ensures IsSuffix(Labels(Members(Finish(Walk(ts, i, p)))), Pending(p) + Starts(ts, i))
    decreases |ts| - i
  {
    if i >= |ts| {
      assert Finish(p) == [];
    } else {
      var j, q := Jump(ts, i), Turn(ts, i, p);
      VisitableJump(ts, i);
      TurnBeforeTeam(ts, i, p);
      if IsHeader(ts, i) {
        WalkWithTeam(ts, j, q);
        HeaderFirstStep(ts, i, p);
      } else {
        WalkBeforeTeam(ts, j, q);
        BeforeTeamStep(ts, i, p);
      }
    }
  }

  /** The first header: from there on, everything is kept. */
  lemma HeaderFirstStep(ts: seq<Token>, i: nat, p: Progress)
    requires i < |ts| && Visitable(ts, i) && p.currentTeam.None? && p.teamsData == [] && IsHeader(ts, i)
    requires var j, q := Jump(ts, i), Turn(ts, i, p);
      Labels(Members(Finish(Walk(ts, j, q)))) == Labels(Kept(q)) + Pending(q) + Starts(ts, j)
    ensures Labels(Members(Finish(Walk(ts, i, p)))) == Pending(p) + Starts(ts, i)
  {
    var j, q := Jump(ts, i), Turn(ts, i, p);
    assert Walk(ts, i, p) == Walk(ts, j, q);
    assert Starts(ts, i) == Starts(ts, j) by {
      assert !IsRecordStart(ts, i);
      StartsJump(ts, i);
    }
    assert Labels(Kept(q)) == [] && Pending(q) == Pending(p) by {
      TurnBeforeTeam(ts, i, p);
    }
    DropEmpty(Labels(Members(Finish(Walk(ts, j, q)))), Labels(Kept(q)), Pending(q), Starts(ts, j),
              Pending(p), Starts(ts, i));
  }

  /** Sequence regrouping step: an empty kept part drops out. */
  lemma DropEmpty<T>(out: seq<T>, kept: seq<T>, pending: seq<T>, rest: seq<T>, pending': seq<T>, rest': seq<T>)
    requires out == kept + pending + rest && kept == [] && pending == pending' && rest == rest'
    ensures out == pending' + rest'
  {
  }

  lemma BeforeTeamStep(ts: seq<Token>, i: nat, p: Progress)
    requires i < |ts| && Visitable(ts, i) && p.currentTeam.None? && p.teamsData == [] && !IsHeader(ts, i)
    requires var j, q := Jump(ts, i), Turn(ts, i, p);
      IsSuffix(Labels(Members(Finish(Walk(ts, j, q)))), Pending(q) + Starts(ts, j))
    ensures IsSuffix(Labels(Members(Finish(Walk(ts, i, p)))), Pending(p) + Starts(ts, i))
  {
    var j, q := Jump(ts, i), Turn(ts, i, p);
    var out := Labels(Members(Finish(Walk(ts, j, q))));
    assert Walk(ts, i, p) == Walk(ts, j, q);
    BeforeTeamTail(ts, i, p);
    SuffixTrans(out, Pending(q) + Starts(ts, j), Pending(p) + Starts(ts, i));
  }

  /** Before the first team, the pending record and later starts after a
      turn are a tail of those before it. */
  lemma BeforeTeamTail(ts: seq<Token>, i: nat, p: Progress)
    requires i < |ts| && Visitable(ts, i) && p.currentTeam.None? && p.teamsData == [] && !IsHeader(ts, i)
    ensures IsSuffix(Pending(Turn(ts, i, p)) + Starts(ts, Jump(ts, i)), Pending(p) + Starts(ts, i))
  {
    var q := Turn(ts, i, p);
    StartsJump(ts, i);
    TurnBeforeTeam(ts, i, p);
    var b := Pending(p) + Starts(ts, i);
    if IsRecordStart(ts, i) {
      assert Pending(q) + Starts(ts, Jump(ts, i)) == Starts(ts, i) == b[|Pending(p)|..];
    } else {
      assert Pending(q) + Starts(ts, Jump(ts, i)) == b == b[0..];
    }
  }

  lemma SuffixTrans<T>(a: seq<T>, b: seq<T>, c: seq<T>)
    requires IsSuffix(a, b) && IsSuffix(b, c)
    ensures IsSuffix(a, c)
  {
    assert c[|c| - |b|..][|b| - |a|..] == c[|c| - |a|..];
  }

  /** The records of the teams are the record starts of the token list in
      order, less some of the first ones: a record that is replaced by the
      next record start before any team header is dropped. */
  lemma RecordsKept(ts: seq<Token>)
    ensures IsSuffix(Labels(Members(Teams(ts))), Starts(ts, 0))
  {
    WalkBeforeTeam(ts, 0, Start);
  }

  lemma {:induction false} WalkUntilHeader(ts: seq<Token>, i: nat, p: Progress, h: nat)
    requires i <= h && IsHeader(ts, h) && Visitable(ts, i)
    requires p.currentTeam.None? && p.teamsData == [] && p.currentPokemon.None?
    requires forall k :: i <= k < h ==> !SeenStart(ts, k)
    ensures Labels(Members(Finish(Walk(ts, i, p)))) == Starts(ts, i)
    decreases h - i
  {
    var j, q := Jump(ts, i), Turn(ts, i, p);
    VisitableJump(ts, i);
    TurnBeforeTeam(ts, i, p);
    if IsHeader(ts, i) {
      WalkWithTeam(ts, j, q);
      HeaderFirstStep(ts, i, p);
    } else {
      assert i != h && !SeenStart(ts, i);
      WalkUntilHeader(ts, j, q, h);
      UntilHeaderStep(ts, i, p);
    }
  }

  lemma UntilHeaderStep(ts: seq<Token>, i: nat, p: Progress)
    requires i < |ts| && Visitable(ts, i) && p.currentTeam.None? && p.teamsData == [] && p.currentPokemon.None?
    requires !IsHeader(ts, i) && !SeenStart(ts, i)
    requires var j, q := Jump(ts, i), Turn(ts, i, p);
      Labels(Members(Finish(Walk(ts, j, q)))) == Starts(ts, j)
    ensures Labels(Members(Finish(Walk(ts, i, p)))) == Starts(ts, i)
  {
    StartsJump(ts, i);
    VisitableJump(ts, i);
  }

  /** When a team header comes before every record start, every record is
      kept. */
  lemma RecordsAllKept(ts: seq<Token>, h: nat)
    requires IsHeader(ts, h) && forall k :: 0 <= k < h ==> !SeenStart(ts, k)
    ensures Labels(Members(Teams(ts))) == Starts(ts, 0)
  {
    WalkUntilHeader(ts, 0, Start, h);
  }

  predicate ZeroStats(rs: seq<Record>) {
    forall r :: r in rs ==> r.stats == Zero
  }

  /** No IDENTIFIER names a stat. */
  predicate NoStatWords(ts: seq<Token>) {
    forall k :: 0 <= k < |ts| ==> !(ts[k].kind == Identifier && StatOf(ts[k].lexeme).Some?)
  }

  predicate ZeroProgress(p: Progress) {
    ZeroStats(Kept(p)) && (p.currentPokemon.Some? ==> p.currentPokemon.value.stats == Zero)
    && p.currentStat.None?
  }

  lemma ZeroFinish(p: Progress)
    requires ZeroProgress(p)
    ensures ZeroStats(Members(Finish(p)))
  {
    if p.currentTeam.Some? {
      MembersSnoc(p.teamsData, p.currentTeam.value);
      MembersSnoc(p.teamsData, PushRecord(p.currentTeam, p.currentPokemon).value);
    }
  }

  /** Without a stat word no stat is armed, so a turn keeps every stat zero. */
  lemma TurnZero(ts: seq<Token>, i: nat, p: Progress)
    requires i < |ts| && !(ts[i].kind == Identifier && StatOf(ts[i].lexeme).Some?) && ZeroProgress(p)
    ensures ZeroProgress(Turn(ts, i, p))
  {
    var q := Turn(ts, i, p);
    if IsHeader(ts, i) {
      if p.currentTeam.Some? {
        MembersSnoc(p.teamsData, p.currentTeam.value);
      }
      MembersSnoc(p.teamsData + Flush(p.currentTeam), NewTeam(ts, i));
    } else if IsRecordStart(ts, i) {
      ZeroFinish(p);
      assert Kept(q) == Members(Finish(p));
    }
  }

  lemma {:induction false} WalkZero(ts: seq<Token>, i: nat, p: Progress)
    requires NoStatWords(ts) && ZeroProgress(p)
    ensures ZeroStats(Members(Finish(Walk(ts, i, p))))
    decreases |ts| - i
  {
    if i >= |ts| {
      ZeroFinish(p);
    } else {
      TurnZero(ts, i, p);
      WalkZero(ts, Jump(ts, i), Turn(ts, i, p));
      ZeroStep(ts, i, p);
    }
  }

  lemma ZeroStep(ts: seq<Token>, i: nat, p: Progress)
    requires i < |ts|
    requires ZeroStats(Members(Finish(Walk(ts, Jump(ts, i), Turn(ts, i, p)))))
    ensures ZeroStats(Members(Finish(Walk(ts, i, p))))
  {
  }

  /** Without an IDENTIFIER naming a stat, no stat is ever set and every
      record keeps zero stats. */
  lemma StatsStayZero(ts: seq<Token>)
    requires NoStatWords(ts)
    ensures ZeroStats(Members(Teams(ts)))
  {
    WalkZero(ts, 0, Start);
  }

  /** The server's lexer makes `salud`, `ataque` and `defensa` RESERVED, so on
      its tokens every record keeps zero stats. */
  lemma ServerStatsStayZero(input: string)
    ensures ZeroStats(Members(Teams(ServerLexer.Lexer(input).tokens)))
  {
    var ts := ServerLexer.Lexer(input).tokens;
    ServerLexer.ScanTokenKinds(input, 0);
    forall k | 0 <= k < |ts|
      ensures !(ts[k].kind == Identifier && StatOf(ts[k].lexeme).Some?)
    {
      assert ts[k] in ts;
    }
    StatsStayZero(ts);
  }

  lemma {:induction false} NoHeaders(ts: seq<Token>, i: nat)
    requires forall t :: t in ts ==> (t.kind == Reserved ==> t.lexeme == "Jugador")
    ensures Headers(ts, i) == []
    decreases |ts| - i
  {
    if i < |ts| {
      assert ts[i] in ts;
      NoHeaders(ts, i + 1);
    }
  }

  /** The browser's lexer makes only `Jugador` RESERVED, so its tokens hold no
      team header and give no team. */
  lemma ClientLexerNoTeams(input: string)
    ensures Teams(ClientLexer.Lexer(input)) == []
  {
    var ts := ClientLexer.Lexer(input);
    ClientLexer.LexerShapes(input);
    NoHeaders(ts, 0);
    TeamsNamed(ts);
  }
  /** A record still open when a team header comes is not pushed into the
      team the header closes, which keeps its members as they were; it
      becomes the first member of the team current when the loop next reaches
      a record start or the end: the header's team, or the last of the
      headers that follow it before then. */
  lemma HeaderTakesOpenRecord(ts: seq<Token>, i: nat, p: Progress)
    requires IsHeader(ts, i) && p.currentPokemon.Some?
    ensures var teams := Finish(Walk(ts, i, p));
      && (p.currentTeam.Some? ==> |p.teamsData| < |teams| && teams[|p.teamsData|] == p.currentTeam.value)
      && exists n :: |Held(p)| <= n < |teams| && teams[n].name == LastTeamName(ts, i + 3, NewTeam(ts, i).name)
                     && teams[n].members != [] && Label(teams[n].members[0]) == Label(p.currentPokemon.value)
  {
    var q := Turn(ts, i, p);
    assert Jump(ts, i) == i + 3;
    assert Walk(ts, i, p) == Walk(ts, i + 3, q);
    assert q.teamsData == Held(p) && q.currentTeam == Some(NewTeam(ts, i)) && q.currentPokemon == p.currentPokemon;
    OpenRecordLands(ts, i + 3, q);
    if p.currentTeam.Some? {
      WalkGrows(ts, i + 3, q);
      assert Held(q) == p.teamsData + [p.currentTeam.value] + [NewTeam(ts, i)];
      assert Held(q)[|p.teamsData|] == p.currentTeam.value;
    }
  }

  /** The name of the team current when the loop, going on from index `j`
      with current team `name`, next reaches a record start or the end. */
  function LastTeamName(ts: seq<Token>, j: nat, name: string): string
    decreases |ts| - j
  {
    if j >= |ts| || IsRecordStart(ts, j) then name
    else LastTeamName(ts, Jump(ts, j), if IsHeader(ts, j) then NewTeam(ts, j).name else name)
  }

  /** `b` extends `a`: the same teams, the last of them possibly with more
      members, and possibly more teams after it. */
  predicate Grown(a: seq<Team>, b: seq<Team>) {
    && |a| <= |b|
    && (forall k :: 0 <= k < |a| - 1 ==> b[k] == a[k])
    && (a != [] ==> b[|a| - 1].name == a[|a| - 1].name && a[|a| - 1].members <= b[|a| - 1].members)
  }

  lemma GrownTrans(a: seq<Team>, b: seq<Team>, c: seq<Team>)
    requires Grown(a, b) && Grown(b, c)
    ensures Grown(a, c)
  {
    if a != [] {
      var k := |a| - 1;
      if |a| < |b| {
        assert c[k] == b[k];
      }
    }
  }

  /** A turn only adds teams or members: it never changes a team already held. */
  lemma TurnGrows(ts: seq<Token>, j: nat, p: Progress)
    requires j < |ts|
    ensures Grown(Held(p), Held(Turn(ts, j, p)))
  {
    var q := Turn(ts, j, p);
    if IsHeader(ts, j) && ts[j].kind != Newline && ts[j].kind != Whitespace {
      assert Held(q) == Held(p) + [NewTeam(ts, j)];
    } else if IsRecordStart(ts, j) && p.currentTeam.Some? && p.currentPokemon.Some? {
      var t := p.currentTeam.value;
      assert Held(q) == p.teamsData + [t.(members := t.members + [p.currentPokemon.value])];
    } else {
      assert Held(q) == Held(p);
    }
  }

  lemma FinishGrows(p: Progress)
    ensures Grown(Held(p), Finish(p))
  {
  }

  /** The loop and its end only add teams or members. */
  lemma {:induction false} WalkGrows(ts: seq<Token>, j: nat, p: Progress)
    ensures Grown(Held(p), Finish(Walk(ts, j, p)))
    decreases |ts| - j
  {
    if j >= |ts| {
      FinishGrows(p);
    } else {
      WalkGrows(ts, Jump(ts, j), Turn(ts, j, p));
      TurnGrows(ts, j, p);
      assert Walk(ts, j, p) == Walk(ts, Jump(ts, j), Turn(ts, j, p));
      GrownTrans(Held(p), Held(Turn(ts, j, p)), Finish(Walk(ts, j, p)));
    }
  }

  /** A record open while the current team has no members yet becomes the
      first member of the team current when the loop next reaches a record
      start or the end: headers passed before that only open empty teams. */
  lemma {:induction false} OpenRecordLands(ts: seq<Token>, j: nat, p: Progress)
    requires p.currentTeam.Some? && p.currentTeam.value.members == [] && p.currentPokemon.Some?
    ensures var teams := Finish(Walk(ts, j, p));
      exists n :: |p.teamsData| <= n < |teams| && teams[n].name == LastTeamName(ts, j, p.currentTeam.value.name)
                  && teams[n].members != [] && Label(teams[n].members[0]) == Label(p.currentPokemon.value)
    decreases |ts| - j
  {
    if j >= |ts| {
      var n := |p.teamsData|;
      assert Finish(Walk(ts, j, p))[n] == Team(p.currentTeam.value.name, [p.currentPokemon.value]);
    } else if IsRecordStart(ts, j) {
      OpenRecordPushed(ts, j, p);
    } else {
      OpenRecordKept(ts, j, p);
      OpenRecordLands(ts, Jump(ts, j), Turn(ts, j, p));
      OpenRecordStep(ts, j, p);
    }
  }

  /** At a record start the open record is pushed into the empty current team. */
  lemma OpenRecordPushed(ts: seq<Token>, j: nat, p: Progress)
    requires j < |ts| && IsRecordStart(ts, j)
    requires p.currentTeam.Some? && p.currentTeam.value.members == [] && p.currentPokemon.Some?
    ensures var teams := Finish(Walk(ts, j, p));
      && |p.teamsData| < |teams| && teams[|p.teamsData|].name == LastTeamName(ts, j, p.currentTeam.value.name)
      && teams[|p.teamsData|].members != [] && Label(teams[|p.teamsData|].members[0]) == Label(p.currentPokemon.value)
  {
    var q := Turn(ts, j, p);
    var t := Team(p.currentTeam.value.name, [p.currentPokemon.value]);
    assert Walk(ts, j, p) == Walk(ts, Jump(ts, j), q);
    assert !IsHeader(ts, j) && p.currentTeam.value.members + [p.currentPokemon.value] == [p.currentPokemon.value];
    assert q.currentTeam == Some(t);
    WalkGrows(ts, Jump(ts, j), q);
    assert Held(q) == p.teamsData + [t];
  }

  /** Any other turn keeps the current team empty or opens a new empty one,
      and keeps the open record's label. */
  lemma OpenRecordKept(ts: seq<Token>, j: nat, p: Progress)
    requires j < |ts| && !IsRecordStart(ts, j)
    requires p.currentTeam.Some? && p.currentTeam.value.members == [] && p.currentPokemon.Some?
    ensures var q := Turn(ts, j, p);
      && q.currentTeam.Some? && q.currentTeam.value.members == [] && q.currentPokemon.Some?
      && Label(q.currentPokemon.value) == Label(p.currentPokemon.value)
      && |p.teamsData| <= |q.teamsData|
      && q.currentTeam.value.name == if IsHeader(ts, j) then NewTeam(ts, j).name else p.currentTeam.value.name
  {
  }

  lemma OpenRecordStep(ts: seq<Token>, j: nat, p: Progress)
    requires j < |ts| && !IsRecordStart(ts, j)
    requires p.currentTeam.Some? && p.currentPokemon.Some?
    requires var q := Turn(ts, j, p);
      && q.currentTeam.Some? && q.currentPokemon.Some?
      && Label(q.currentPokemon.value) == Label(p.currentPokemon.value)
      && |p.teamsData| <= |q.teamsData|
      && q.currentTeam.value.name == (if IsHeader(ts, j) then NewTeam(ts, j).name else p.currentTeam.value.name)
      && var teams := Finish(Walk(ts, Jump(ts, j), q));
         exists n :: |q.teamsData| <= n < |teams| && teams[n].name == LastTeamName(ts, Jump(ts, j), q.currentTeam.value.name)
                     && teams[n].members != [] && Label(teams[n].members[0]) == Label(q.currentPokemon.value)
    ensures var teams := Finish(Walk(ts, j, p));
      exists n :: |p.teamsData| <= n < |teams| && teams[n].name == LastTeamName(ts, j, p.currentTeam.value.name)
                  && teams[n].members != [] && Label(teams[n].members[0]) == Label(p.currentPokemon.value)
  {
    var q := Turn(ts, j, p);
    assert Walk(ts, j, p) == Walk(ts, Jump(ts, j), q);
    assert LastTeamName(ts, j, p.currentTeam.value.name) == LastTeamName(ts, Jump(ts, j), q.currentTeam.value.name);
  }

  /** A NUMBER lexeme reads as its decimal value. */
  lemma ParseIntDigits(s: string)
    requires s != [] && forall k :: 0 <= k < |s| ==> IsDigit(s[k])
    ensures ParseInt(s) == Num(Decimal(s))
  {
    LeadingDigitsAll(s);
  }

  lemma {:induction false} LeadingDigitsAll(s: string)
    requires forall k :: 0 <= k < |s| ==> IsDigit(s[k])
    ensures LeadingDigits(s) == s
    decreases |s|
  {
    if s != [] {
      LeadingDigitsAll(s[1..]);
    }
  }

  /** A stat word followed by a NUMBER, with a record open, sets that stat of
      the record to the number's value and disarms it; nothing else changes. */
  lemma StatThenNumber(ts: seq<Token>, i: nat, p: Progress)
    requires i + 1 < |ts| && ts[i].kind == Identifier && StatOf(ts[i].lexeme).Some?
    requires ts[i + 1].kind == Number && p.currentPokemon.Some?
    ensures var r := p.currentPokemon.value;
      var r' := r.(stats := SetStat(r.stats, StatOf(ts[i].lexeme).value, ParseInt(ts[i + 1].lexeme)));
      Walk(ts, i, p) == Walk(ts, i + 2, p.(currentPokemon := Some(r'), currentStat := None))
  {
    assert Jump(ts, i) == i + 1;
    assert Walk(ts, i, p) == Walk(ts, i + 1, Turn(ts, i, p));
    assert Jump(ts, i + 1) == i + 2;
  }
}
