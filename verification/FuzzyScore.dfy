/** Scoring of ingredient names against a search text: which names match, and in which band. */
module FuzzyScore {
  import opened Text
  import opened EditDistance

  const NO_MATCH: nat := 100

  // The characters of the regular expression class `\s`.
  predicate IsSpace(u: Unit) {
    || 9 <= u <= 13 || u == 0x20 || u == 0xA0 || u == 0x1680 || 0x2000 <= u <= 0x200A
    || u == 0x2028 || u == 0x2029 || u == 0x202F || u == 0x205F || u == 0x3000 || u == 0xFEFF
  }

  function Word(s: Utf16): (w: Utf16)
    ensures w <= s
  {
    if s == [] || IsSpace(s[0]) then [] else [s[0]] + Word(s[1..])
  }

  function DropSpaces(s: Utf16): (r: Utf16)
    ensures |r| <= |s|
    ensures s != [] && IsSpace(s[0]) ==> |r| < |s|
  {
    if s != [] && IsSpace(s[0]) then DropSpaces(s[1..]) else s
  }

  lemma {:induction false} WordStopsAtSpace(s: Utf16)
    ensures |Word(s)| < |s| ==> IsSpace(s[|Word(s)|])
  {
    if s != [] && !IsSpace(s[0]) {
      WordStopsAtSpace(s[1..]);
    }
  }

  // `s.split(/\s+/)`; never empty.
  function Tokens(s: Utf16): (tokens: seq<Utf16>)
    ensures tokens != []
    decreases |s|
  {
    var word := Word(s);
    if |word| == |s| then [s]
    else
      WordStopsAtSpace(s);
      [word] + Tokens(DropSpaces(s[|word|..]))
  }

  predicate OccursAt(name: Utf16, query: Utf16, i: nat) {
    i + |query| <= |name| && name[i..i + |query|] == query
  }

  predicate Includes(name: Utf16, query: Utf16) {
    exists i | 0 <= i <= |name| :: OccursAt(name, query, i)
  }

  predicate SomeTokenStartsWith(tokens: seq<Utf16>, query: Utf16) {
    exists k | 0 <= k < |tokens| :: query <= tokens[k]
  }

  // Positions from `from` on where two equally long words differ, in order.
  function Differences(a: seq<Utf16>, b: seq<Utf16>, from: nat): (ds: seq<nat>)
    requires |a| == |b| && from <= |a|
    ensures forall k :: 0 <= k < |ds| ==> from <= ds[k] < |a| && a[ds[k]] != b[ds[k]]
    ensures forall j, k :: 0 <= j < k < |ds| ==> ds[j] < ds[k]
    decreases |a| - from
  {
    if from == |a| then []
    else
      var rest := Differences(a, b, from + 1);
      if a[from] == b[from] then rest else [from] + rest
  }

  predicate SwapTest(a: seq<Utf16>, b: seq<Utf16>) {
    |a| == |b| &&
    var differences := Differences(a, b, 0);
    && |differences| == 2
    && differences[1] == differences[0] + 1
    && a[differences[0]] == b[differences[1]]
    && a[differences[1]] == b[differences[0]]
  }

  function Nearest(tokens: seq<Utf16>, query: Utf16): nat
    requires tokens != []
  {
    var d := Distance(Characters(tokens[0]), Characters(query));
    if |tokens| == 1 then d else Min(d, Nearest(tokens[1..], query))
  }

  function Tolerance(query: Utf16): nat {
    if |query| / 4 <= 1 then 1 else |query| / 4
  }

  function Score(name: Utf16, query: Utf16): nat {
    if query == [] then 0
    else if name == query then 0
    else if query <= name then 10
    else if SomeTokenStartsWith(Tokens(name), query) then 20
    else if Includes(name, query) then 30
    else if |query| < 3 then NO_MATCH
    else if SwapTest(Characters(name), Characters(query)) then 40
    else
      var nearest := Nearest(Tokens(name), query);
      if nearest <= Tolerance(query) then 40 + nearest else NO_MATCH
  }

  // `normalize` stands for the host's case folding and decomposition.
  predicate MatchesIngredient(normalize: Utf16 -> Utf16, name: Utf16, query: Utf16) {
    normalize(query) != [] && Score(normalize(name), normalize(query)) < NO_MATCH
  }

  // ---------- What a token is ----------

  // White space and line ends as the regular expression class lists them (section 22.2.2.9 of ECMA-262).
  const WHITE_SPACE: set<int> := {
    9, 10, 11, 12, 13, 32, 160, 5760, 8192, 8193, 8194, 8195, 8196, 8197, 8198, 8199, 8200, 8201, 8202, 8232, 8233,
    8239, 8287, 12288, 65279}

  predicate White(u: Unit) {
    u in WHITE_SPACE
  }

  // No white space from `i` up to `j`, and white space or an end of the text on either side; nothing at
  // all stands there only at an end of the text.
  ghost predicate WordAt(s: Utf16, i: int, j: int) {
    && 0 <= i <= j <= |s|
    && (forall k :: i <= k < j ==> !White(s[k]))
    && (i == 0 || White(s[i - 1])) && (j == |s| || White(s[j]))
    && (i < j || i == 0 || j == |s|)
  }

  // The word stands between white space or ends of the text.
  ghost predicate IsWord(s: Utf16, w: Utf16) {
    exists i, j :: WordAt(s, i, j) && s[i..j] == w
  }

  lemma SpaceIsWhite(u: Unit)
    ensures IsSpace(u) <==> White(u)
  {
  }

  lemma {:induction false} WordHasNoWhite(s: Utf16)
    ensures forall k :: 0 <= k < |Word(s)| ==> !White(s[k])
    ensures |Word(s)| < |s| ==> White(s[|Word(s)|])
  {
    if s != [] {
      hide White, IsSpace;
      SpaceIsWhite(s[0]);
      WordHasNoWhite(s[1..]);
      assert forall k :: 0 < k < |s| ==> s[k] == s[1..][k - 1];
    }
  }

  lemma {:induction false} DroppedIsWhite(s: Utf16)
    ensures var r := DropSpaces(s);
      && r == s[|s| - |r|..] && (forall k :: 0 <= k < |s| - |r| ==> White(s[k])) && (r == [] || !White(r[0]))
  {
    if s != [] {
      hide White, IsSpace;
      SpaceIsWhite(s[0]);
      DroppedIsWhite(s[1..]);
      assert forall k :: 0 < k < |s| ==> s[k] == s[1..][k - 1];
    }
  }

  // Past its first word a text has the words of what follows the white space.
  lemma WordsAfterFirst(s: Utf16, n: nat, rest: Utf16, i: int, j: int)
    requires n < |s| && |rest| < |s| - n && rest == s[|s| - |rest|..]
    requires forall k :: 0 <= k < n ==> !White(s[k])
    requires forall k :: n <= k < |s| - |rest| ==> White(s[k])
    requires rest == [] || !White(rest[0])
    ensures var d := |s| - |rest|; WordAt(s, i, j) <==> (i == 0 && j == n) || WordAt(rest, i - d, j - d)
  {
    hide White;
    var d := |s| - |rest|;
    assert forall k :: d <= k < |s| ==> s[k] == rest[k - d];
    assert forall k :: 0 <= k < |rest| ==> rest[k] == s[k + d];
    assert 0 < i <= n ==> !White(s[i - 1]);
    assert n <= i < d ==> White(s[i]);
    assert 0 <= j < n ==> !White(s[j]);
    assert d <= i <= |s| ==> White(s[d - 1]) && (d < i ==> s[i - 1] == rest[i - 1 - d]);
    assert d <= j < |s| ==> s[j] == rest[j - d];
    assert White(s[n]);
  }

  lemma TokensStep(s: Utf16)
    requires |Word(s)| < |s|
    ensures Tokens(s) == [Word(s)] + Tokens(DropSpaces(s[|Word(s)|..]))
  {
    WordStopsAtSpace(s);
  }

  // The first word, the white space after it and the rest.
  lemma FirstToken(s: Utf16, n: nat, d: nat)
    requires n < d <= |s| && (forall k :: 0 <= k < n ==> !White(s[k])) && (forall k :: n <= k < d ==> White(s[k]))
    requires d == |s| || !White(s[d])
    ensures Tokens(s) == [s[..n]] + Tokens(s[d..])
  {
    hide White, IsSpace, Tokens;
    assert White(s[n]);
    WordHasNoWhite(s);
    assert |Word(s)| == n && Word(s) == s[..n];
    var after := s[n..];
    assert forall k :: 0 <= k < |after| ==> after[k] == s[n + k];
    DroppedIsWhite(after);
    var dropped := |after| - |DropSpaces(after)|;
    assert dropped < |after| ==> DropSpaces(after)[0] == after[dropped];
    assert dropped == d - n;
    assert DropSpaces(after) == s[d..];
    TokensStep(s);
  }

  lemma SliceShift(s: Utf16, d: nat, rest: Utf16)
    requires d <= |s| && rest == s[d..]
    ensures forall i, j :: 0 <= i <= j <= |rest| ==> rest[i..j] == s[i + d..j + d]
    ensures forall i, j :: WordAt(rest, i, j) ==> 0 <= i <= j <= |rest|
    ensures forall i, j :: WordAt(s, i, j) ==> 0 <= i <= j <= |s|
  {
  }

  // A text has its first word and the words of what follows the white space.
  lemma WordsSplit(s: Utf16, n: nat, d: nat, w: Utf16)
    requires n < d <= |s| && (forall k :: 0 <= k < n ==> !White(s[k])) && (forall k :: n <= k < d ==> White(s[k]))
    requires d == |s| || !White(s[d])
    ensures IsWord(s, w) <==> w == s[..n] || IsWord(s[d..], w)
  {
    hide White, WordAt;
    var rest := s[d..];
    forall i, j
      ensures WordAt(s, i, j) <==> (i == 0 && j == n) || WordAt(rest, i - d, j - d)
    {
      WordsAfterFirst(s, n, rest, i, j);
    }
    assert s[0..n] == s[..n] && WordAt(s, 0, n);
    SliceShift(s, d, rest);
    if i, j :| WordAt(rest, i, j) && rest[i..j] == w {
      assert WordAt(s, i + d, j + d) && s[i + d..j + d] == w;
    }
    if i, j :| WordAt(s, i, j) && s[i..j] == w {
      if !(i == 0 && j == n) { assert WordAt(rest, i - d, j - d) && rest[i - d..j - d] == w; }
    }
  }

  // Where the first word ends and the rest begins.
  lemma FirstWhite(s: Utf16) returns (n: nat, d: nat)
    requires exists k :: 0 <= k < |s| && White(s[k])
    ensures n < d <= |s| && (forall k :: 0 <= k < n ==> !White(s[k])) && (forall k :: n <= k < d ==> White(s[k]))
    ensures d == |s| || !White(s[d])
  {
    hide White, IsSpace;
    WordHasNoWhite(s);
    n := |Word(s)|;
    var after := s[n..];
    assert forall k :: 0 <= k < |after| ==> after[k] == s[n + k];
    DroppedIsWhite(after);
    d := |s| - |DropSpaces(after)|;
    assert White(after[0]);
    assert d < |s| ==> DropSpaces(after)[0] == s[d];
    assert forall k :: n <= k < d ==> s[k] == after[k - n];
  }

  lemma OnlyWord(s: Utf16)
    requires forall k :: 0 <= k < |s| ==> !White(s[k])
    ensures forall i, j :: WordAt(s, i, j) <==> i == 0 && j == |s|
  {
    hide White;
  }

  lemma OnlyWordIs(s: Utf16, w: Utf16)
    requires forall k :: 0 <= k < |s| ==> !White(s[k])
    ensures IsWord(s, w) <==> w == s
  {
    hide WordAt;
    OnlyWord(s);
    assert s[0..|s|] == s && WordAt(s, 0, |s|);
  }

  /** A text without white space is its own only token. */
  lemma TokensOfWord(w: Utf16)
    requires forall k :: 0 <= k < |w| ==> !White(w[k])
    ensures Tokens(w) == [w]
  {
    hide White, IsSpace;
    WordHasNoWhite(w);
  }

  /** The tokens of a text are its words, and nothing else. */
  lemma {:induction false} TokensAreWords(s: Utf16, w: Utf16)
    ensures w in Tokens(s) <==> IsWord(s, w)
    decreases |s|
  {
    hide White, WordAt, IsWord, Tokens;
    if k :| 0 <= k < |s| && White(s[k]) {
      var n, d := FirstWhite(s);
      FirstToken(s, n, d);
      WordsSplit(s, n, d, w);
      TokensAreWords(s[d..], w);
    } else {
      TokensOfWord(s);
      OnlyWordIs(s, w);
    }
  }

  /** White space between two texts separates their tokens. */
  lemma {:induction false} TokensSplit(a: Utf16, separator: Utf16, b: Utf16)
    requires separator != [] && forall k :: 0 <= k < |separator| ==> White(separator[k])
    requires (a == [] || !White(a[|a| - 1])) && (b == [] || !White(b[0]))
    ensures Tokens(a + separator + b) == Tokens(a) + Tokens(b)
    decreases |a|
  {
    hide White, Tokens;
    var s := a + separator + b;
    assert forall k :: 0 <= k < |a| ==> s[k] == a[k];
    assert forall k :: |a| <= k < |a| + |separator| ==> s[k] == separator[k - |a|];
    if k :| 0 <= k < |a| && White(a[k]) {
      var n, d := FirstWhite(a);
      assert a[..n] == s[..n] && s[d..] == a[d..] + separator + b;
      FirstToken(a, n, d);
      FirstToken(s, n, d);
      TokensSplit(a[d..], separator, b);
    } else {
      var d := |a| + |separator|;
      TokensOfWord(a);
      assert s[..|a|] == a && s[d..] == b;
      assert d < |s| ==> s[d] == b[0];
      FirstToken(s, |a|, d);
    }
  }

  // ---------- What the tests mean ----------

  lemma {:induction false} DifferencesComplete(a: seq<Utf16>, b: seq<Utf16>, from: nat, i: nat)
    requires |a| == |b| && from <= i < |a| && a[i] != b[i]
    ensures i in Differences(a, b, from)
    decreases |a| - from
  {
    if from < i {
      DifferencesComplete(a, b, from + 1, i);
    }
  }

  ghost predicate SwappedAt(a: seq<Utf16>, b: seq<Utf16>, i: nat)
    requires i < |a| - 1
  {
    a[i] != a[i + 1] && b == a[i := a[i + 1]][i + 1 := a[i]]
  }

  // `b` is `a` with two unequal neighbours exchanged.
  ghost predicate OneSwapApart(a: seq<Utf16>, b: seq<Utf16>) {
    exists i :: 0 <= i < |a| - 1 && SwappedAt(a, b, i)
  }

  lemma SwapTestSound(a: seq<Utf16>, b: seq<Utf16>)
    requires SwapTest(a, b)
    ensures OneSwapApart(a, b)
  {
    var i := Differences(a, b, 0)[0];
    forall k | 0 <= k < |a| && k != i && k != i + 1
      ensures a[k] == b[k]
    {
      if a[k] != b[k] { DifferencesComplete(a, b, 0, k); }
    }
    assert SwappedAt(a, b, i);
  }

  lemma IncreasingSpan(ds: seq<nat>)
    requires forall j, k :: 0 <= j < k < |ds| ==> ds[j] < ds[k]
    ensures |ds| > 2 ==> ds[0] + 1 < ds[2]
  {
    assert |ds| > 2 ==> ds[0] < ds[1] < ds[2];
  }

  lemma SwapTestComplete(a: seq<Utf16>, b: seq<Utf16>, i: nat)
    requires i < |a| - 1 && SwappedAt(a, b, i)
    ensures SwapTest(a, b)
  {
    var ds := Differences(a, b, 0);
    DifferencesComplete(a, b, 0, i);
    DifferencesComplete(a, b, 0, i + 1);
    assert forall k :: 0 <= k < |ds| ==> ds[k] == i || ds[k] == i + 1;
    IncreasingSpan(ds);
  }

  /** The source's test on the list of differing positions says: one adjacent swap. */
  lemma SwapTestMeaning(a: seq<Utf16>, b: seq<Utf16>)
    ensures SwapTest(a, b) <==> OneSwapApart(a, b)
  {
    if SwapTest(a, b) {
      SwapTestSound(a, b);
    }
    if OneSwapApart(a, b) {
      var i :| 0 <= i < |a| - 1 && SwappedAt(a, b, i);
      SwapTestComplete(a, b, i);
    }
  }

  lemma {:induction false} NearestIsMinimum(tokens: seq<Utf16>, query: Utf16)
    requires tokens != []
    ensures exists k ::
      0 <= k < |tokens| && Nearest(tokens, query) == Distance(Characters(tokens[k]), Characters(query))
    ensures forall k :: 0 <= k < |tokens| ==>
      Nearest(tokens, query) <= Distance(Characters(tokens[k]), Characters(query))
  {
    if |tokens| == 1 {
      assert Nearest(tokens, query) == Distance(Characters(tokens[0]), Characters(query));
    } else {
      NearestIsMinimum(tokens[1..], query);
      var k :| 0 <= k < |tokens[1..]| &&
        Nearest(tokens[1..], query) == Distance(Characters(tokens[1..][k]), Characters(query));
      var first := Distance(Characters(tokens[0]), Characters(query));
      var least := if Nearest(tokens, query) == first then 0 else k + 1;
      assert Nearest(tokens, query) == Distance(Characters(tokens[least]), Characters(query));
      forall j | 0 <= j < |tokens|
        ensures Nearest(tokens, query) <= Distance(Characters(tokens[j]), Characters(query))
      {
        if j > 0 { assert tokens[1..][j - 1] == tokens[j]; }
      }
    }
  }

  // Some word of the name is within `limit` insertions, deletions and substitutions of the query.
  ghost predicate WordWithin(name: Utf16, query: Utf16, limit: nat) {
    exists w :: IsWord(name, w) && Distance(Characters(w), Characters(query)) <= limit
  }

  ghost predicate SomeWordStartsWith(name: Utf16, query: Utf16) {
    exists w :: IsWord(name, w) && query <= w
  }

  // The query stands somewhere in the name.
  ghost predicate Contains(name: Utf16, query: Utf16) {
    exists before, after :: name == before + query + after
  }

  // The nearest word of the name is this far from the query.
  ghost predicate LeastDistance(name: Utf16, query: Utf16, d: nat) {
    WordWithin(name, query, d) && (d > 0 ==> !WordWithin(name, query, d - 1))
  }

  lemma WordWithinNearest(name: Utf16, query: Utf16, limit: nat)
    ensures WordWithin(name, query, limit) <==> Nearest(Tokens(name), query) <= limit
  {
    hide IsWord, Tokens, Nearest, Distance;
    var tokens := Tokens(name);
    NearestIsMinimum(tokens, query);
    if Nearest(tokens, query) <= limit {
      var k :| 0 <= k < |tokens| && Nearest(tokens, query) == Distance(Characters(tokens[k]), Characters(query));
      TokensAreWords(name, tokens[k]);
    }
    if WordWithin(name, query, limit) {
      var w :| IsWord(name, w) && Distance(Characters(w), Characters(query)) <= limit;
      TokensAreWords(name, w);
      var k :| 0 <= k < |tokens| && tokens[k] == w;
    }
  }

  lemma TokenStartsWord(name: Utf16, query: Utf16)
    ensures SomeTokenStartsWith(Tokens(name), query) <==> SomeWordStartsWith(name, query)
  {
    hide IsWord, Tokens;
    var tokens := Tokens(name);
    if k :| 0 <= k < |tokens| && query <= tokens[k] {
      TokensAreWords(name, tokens[k]);
    }
    if w :| IsWord(name, w) && query <= w {
      TokensAreWords(name, w);
      var k :| 0 <= k < |tokens| && tokens[k] == w;
    }
  }

  lemma IncludesContains(name: Utf16, query: Utf16)
    ensures Includes(name, query) <==> Contains(name, query)
    ensures query <= name ==> Contains(name, query)
  {
    if i :| 0 <= i <= |name| && OccursAt(name, query, i) {
      assert name == name[..i] + query + name[i + |query|..];
    }
    if before, after :| name == before + query + after {
      assert OccursAt(name, query, |before|);
    }
    if query <= name { assert OccursAt(name, query, 0); }
  }

  lemma WordContained(name: Utf16, query: Utf16)
    ensures SomeWordStartsWith(name, query) ==> Contains(name, query)
  {
    hide White;
    if w :| IsWord(name, w) && query <= w {
      var i, j :| WordAt(name, i, j) && name[i..j] == w;
      assert name == name[..i] + query + name[i + |query|..];
    }
  }

  /** Past the substring tests no token equals the query, so a near token costs at least one. */
  lemma NearestIsPositive(name: Utf16, query: Utf16)
    requires !SomeTokenStartsWith(Tokens(name), query)
    ensures Nearest(Tokens(name), query) >= 1
  {
    var tokens := Tokens(name);
    NearestIsMinimum(tokens, query);
    var k :| 0 <= k < |tokens| && Nearest(tokens, query) == Distance(Characters(tokens[k]), Characters(query));
    ZeroDistance(Characters(tokens[k]), Characters(query));
    CharactersInjective(tokens[k], query);
  }

  /** The score of a name: 0 for an empty query and for the query itself, 10, 20 or 30 when it begins with
      the query, has a word beginning with it, or contains it, 40 for one exchange of neighbours, 40 and the
      least distance of a word while that is at most one or a quarter of the query, and otherwise 100. */
  lemma ScoreIs(name: Utf16, query: Utf16)
    ensures name == query || query == [] ==> Score(name, query) == 0
    ensures query != [] && query < name ==> Score(name, query) == 10
    ensures !(query <= name) && SomeWordStartsWith(name, query) ==> Score(name, query) == 20
    ensures !(query <= name) && !SomeWordStartsWith(name, query) && Contains(name, query) ==> Score(name, query) == 30
    ensures !Contains(name, query) ==>
      && (|query| < 3 ==> Score(name, query) == 100)
      && (|query| >= 3 && OneSwapApart(Characters(name), Characters(query)) ==> Score(name, query) == 40)
      && (|query| >= 3 && !OneSwapApart(Characters(name), Characters(query)) ==>
          exists d: nat :: LeastDistance(name, query, d)
            && Score(name, query) == if d <= 1 || 4 * d <= |query| then 40 + d else 100)
  {
    hide Includes, Contains, SomeWordStartsWith, SomeTokenStartsWith, OneSwapApart, SwapTest, WordWithin, Nearest,
      Tokens;
    SwapTestMeaning(Characters(name), Characters(query));
    TokenStartsWord(name, query);
    IncludesContains(name, query);
    WordContained(name, query);
    var d := Nearest(Tokens(name), query);
    WordWithinNearest(name, query, d);
    if d > 0 { WordWithinNearest(name, query, d - 1); }
    assert LeastDistance(name, query, d);
  }

  /** Exactly the names that match, for queries of every length: a near word counts only below sixty
      edits, because forty plus the distance must stay below one hundred. */
  lemma MatchesExactly(name: Utf16, query: Utf16)
    requires query != []
    ensures Score(name, query) < 100 <==>
      || Contains(name, query)
      || (|query| >= 3 &&
        (|| OneSwapApart(Characters(name), Characters(query))
         || WordWithin(name, query, if |query| < 8 then 1 else if |query| < 240 then |query| / 4 else 59)))
  {
    hide Includes, Contains, SomeWordStartsWith, SomeTokenStartsWith, OneSwapApart, SwapTest, WordWithin, Nearest,
      Tokens;
    SwapTestMeaning(Characters(name), Characters(query));
    TokenStartsWord(name, query);
    IncludesContains(name, query);
    WordContained(name, query);
    WordWithinNearest(name, query, if |query| < 8 then 1 else if |query| < 240 then |query| / 4 else 59);
  }

  /** The search itself: a query that normalizes to nothing matches no name, any other the names above. */
  lemma SearchMatchesExactly(normalize: Utf16 -> Utf16, name: Utf16, query: Utf16)
    ensures var n, q := normalize(name), normalize(query);
      MatchesIngredient(normalize, name, query) <==>
        && q != []
        && (|| Contains(n, q)
            || (|q| >= 3 && OneSwapApart(Characters(n), Characters(q)))
            || (|q| >= 3 && WordWithin(n, q, if |q| < 8 then 1 else if |q| < 240 then |q| / 4 else 59)))
  {
    hide Score, Contains, OneSwapApart, WordWithin;
    if normalize(query) != [] { MatchesExactly(normalize(name), normalize(query)); }
  }

  /** For queries of at most 239 code units the tolerance is the whole condition. */
  lemma MatchesWithinTolerance(name: Utf16, query: Utf16)
    requires 3 <= |query| <= 239
    ensures Score(name, query) < 100 <==>
      || Contains(name, query)
      || OneSwapApart(Characters(name), Characters(query))
      || WordWithin(name, query, Tolerance(query))
  {
    hide Score, Contains, OneSwapApart, WordWithin;
    MatchesExactly(name, query);
  }

  lemma FarFromContained(near: Utf16, query: Utf16)
    requires |query| >= 3 && !Contains(near, query) && !OneSwapApart(Characters(near), Characters(query))
    ensures Score(near, query) > 40
  {
    hide Contains, OneSwapApart, SwapTest, Includes, SomeWordStartsWith, SomeTokenStartsWith, Nearest, Tokens;
    IncludesContains(near, query);
    WordContained(near, query);
    TokenStartsWord(near, query);
    SwapTestMeaning(Characters(near), Characters(query));
    NearestIsPositive(near, query);
  }

  /** Every match by edit distance ranks strictly behind every match by an adjacent swap, which
      ranks strictly behind every name containing the query. */
  lemma BandsAreOrdered(contains: Utf16, swapped: Utf16, near: Utf16, query: Utf16)
    requires |query| >= 3
    requires Contains(contains, query)
    requires !Contains(swapped, query) && OneSwapApart(Characters(swapped), Characters(query))
    requires !Contains(near, query) && !OneSwapApart(Characters(near), Characters(query))
    ensures Score(contains, query) < Score(swapped, query) < Score(near, query)
  {
    hide Score, Contains, OneSwapApart, WordWithin, Includes, SomeWordStartsWith;
    ScoreIs(contains, query);
    ScoreIs(swapped, query);
    FarFromContained(near, query);
  }

  // ---------- The tolerance alone is not enough from 240 code units on ----------

  function Repeat(u: Unit, n: nat): (s: Utf16)
    ensures |s| == n && forall i :: 0 <= i < n ==> s[i] == u
  {
    seq(n, _ => u)
  }

  lemma {:induction false} LengthDifference<T>(a: seq<T>, b: seq<T>)
    ensures |b| - |a| <= Distance(a, b)
    decreases |a| + |b|
  {
    if a != [] && b != [] {
      LengthDifference(a[..|a| - 1], b[..|b| - 1]);
      LengthDifference(a[..|a| - 1], b);
      LengthDifference(a, b[..|b| - 1]);
    }
  }

  lemma {:induction false} DistanceOfExtension<T>(a: seq<T>, more: seq<T>)
    ensures Distance(a, a + more) == |more|
    decreases |more|
  {
    if more == [] {
      assert a + more == a;
      ZeroDistance(a, a);
    } else {
      var fewer, y := more[..|more| - 1], more[|more| - 1];
      assert a + more == (a + fewer) + [y];
      DistanceOfExtension(a, fewer);
      OneMoreOnTheRight(a, a + fewer, y);
      LengthDifference(a, a + more);
    }
  }

  lemma {:induction false} PlainWord(s: Utf16)
    requires forall i :: 0 <= i < |s| ==> s[i] == Ascii('a')
    ensures Word(s) == s && Characters(s) == seq(|s|, _ => [Ascii('a')])
  {
    if s != [] {
      PlainWord(s[1..]);
      assert Characters(s) == [s[..1]] + Characters(s[1..]);
    }
  }

  /** From 240 code units on the tolerance alone is not enough, at any length: a word a quarter
      shorter is within the tolerance, yet does not match. */
  lemma ToleranceIsNotEnough(length: nat)
    requires length >= 240
    ensures var name, query := Repeat(Ascii('a'), length - length / 4), Repeat(Ascii('a'), length);
      WordWithin(name, query, Tolerance(query)) && Score(name, query) >= 100
  {
    var name, query := Repeat(Ascii('a'), length - length / 4), Repeat(Ascii('a'), length);
    PlainWord(name);
    PlainWord(query);
    assert Tokens(name) == [name];
    var a, more := Characters(name), seq(length / 4, _ => [Ascii('a')]);
    assert Characters(query) == a + more;
    DistanceOfExtension(a, more);
    assert name in Tokens(name);
    assert |query| > |name| && !Includes(name, query) && !(query <= name);
    assert |a| != |Characters(query)|;
    assert Nearest(Tokens(name), query) == length / 4;
    WordWithinNearest(name, query, Tolerance(query));
  }
}
