/** A reader for JSON texts without white space. It recovers from a canonical text the value it
    was printed from, up to member order, so canonical texts are unambiguous. */
module JsonReader {
  import opened Text
  import opened Wrappers
  import opened Entries
  import opened JsonLexical
  import opened Canonical

  // The longest prefix made of digits, signs, points and exponent marks.
  function NumberPrefix(t: Utf16): (p: Utf16)
    ensures p <= t
  {
    if t == [] || !IsNumberUnit(t[0]) then [] else [t[0]] + NumberPrefix(t[1..])
  }

  function ReadScalar(t: Utf16): (r: Option<(Json, Utf16)>)
    ensures r.Some? ==> |r.value.1| < |t|
  {
    if NULL_TEXT <= t then Some((Null, t[|NULL_TEXT|..]))
    else if TRUE_TEXT <= t then Some((Bool(true), t[|TRUE_TEXT|..]))
    else if FALSE_TEXT <= t then Some((Bool(false), t[|FALSE_TEXT|..]))
    else if t != [] && t[0] == QUOTE then
      match ReadString(t[1..])
      case Some((s, rest)) => Some((Str(s), rest))
      case None => None
    else
      var token := NumberPrefix(t);
      match ReadNumber(token)
      case Some(n) => if token != [] && ValidNumber(n) then Some((Num(n), t[|token|..])) else None
      case None => None
  }

  // The value at the start of a text, and what follows it.
  function ReadValue(t: Utf16): (r: Option<(Json, Utf16)>)
    ensures r.Some? ==> |r.value.1| < |t|
    decreases |t|, 1
  {
    if |t| >= 2 && t[0] == OPEN_BRACKET then
      if t[1] == CLOSE_BRACKET then Some((Arr([]), t[2..]))
      else
        match ReadItems(t[1..])
        case Some((items, rest)) => Some((Arr(items), rest))
        case None => None
    else if |t| >= 2 && t[0] == OPEN_BRACE then
      if t[1] == CLOSE_BRACE then Some((Obj([]), t[2..]))
      else
        match ReadMembers(t[1..])
        case Some((members, rest)) => Some((Obj(members), rest))
        case None => None
    else ReadScalar(t)
  }

  // One or more items up to the closing bracket.
  function ReadItems(t: Utf16): (r: Option<(seq<Json>, Utf16)>)
    ensures r.Some? ==> |r.value.1| < |t|
    decreases |t|, 2
  {
    match ReadValue(t)
    case None => None
    case Some((v, rest)) =>
      if rest == [] then None
      else if rest[0] == CLOSE_BRACKET then Some(([v], rest[1..]))
      else if rest[0] == COMMA then
        match ReadItems(rest[1..])
        case Some((vs, after)) => Some(([v] + vs, after))
        case None => None
      else None
  }

  function ReadMember(t: Utf16): (r: Option<(Entry<Json>, Utf16)>)
    ensures r.Some? ==> |r.value.1| < |t|
    decreases |t|, 0
  {
    if t == [] || t[0] != QUOTE then None
    else
      match ReadString(t[1..])
      case None => None
      case Some((key, rest)) =>
        if rest == [] || rest[0] != COLON then None
        else
          match ReadValue(rest[1..])
          case Some((v, after)) => Some((Entry(key, v), after))
          case None => None
  }

  // One or more members up to the closing brace.
  function ReadMembers(t: Utf16): (r: Option<(seq<Entry<Json>>, Utf16)>)
    ensures r.Some? ==> |r.value.1| < |t|
    decreases |t|, 2
  {
    match ReadMember(t)
    case None => None
    case Some((m, rest)) =>
      if rest == [] then None
      else if rest[0] == CLOSE_BRACE then Some(([m], rest[1..]))
      else if rest[0] == COMMA then
        match ReadMembers(rest[1..])
        case Some((ms, after)) => Some(([m] + ms, after))
        case None => None
      else None
  }

  // A whole text.
  function Read(t: Utf16): Option<Json> {
    match ReadValue(t)
    case Some((v, rest)) => if rest == [] then Some(v) else None
    case None => None
  }

  // ---------- Reading undoes printing ----------

  // No value runs on into the text that follows it.
  predicate Ends(rest: Utf16) {
    rest == [] || rest[0] == COMMA || rest[0] == CLOSE_BRACKET || rest[0] == CLOSE_BRACE
  }

  // No negative zero and no infinite number, whose texts are those of other values.
  ghost predicate Readable(v: Json) {
    match v
    case Num(n) => n != Zero(true)
    case Infinite(_) => false
    case Arr(items) => forall i :: 0 <= i < |items| ==> Readable(items[i])
    case Obj(members) => forall i :: 0 <= i < |members| ==> Readable(members[i].value)
    case _ => true
  }

  lemma {:induction false} NumberPrefixStops(token: Utf16, rest: Utf16)
    requires Ends(rest) && forall i :: 0 <= i < |token| ==> IsNumberUnit(token[i])
    ensures NumberPrefix(token + rest) == token
  {
    if token == [] {
      assert token + rest == rest;
    } else {
      NumberPrefixStops(token[1..], rest);
      assert (token + rest)[1..] == token[1..] + rest;
    }
  }

  lemma ReadNumberToken(n: Number, rest: Utf16)
    requires Ends(rest) && n != Zero(true)
    ensures ReadScalar(NumberText(n) + rest) == Some((Num(n), rest))
  {
    hide NumberText, ReadNumber, ReadString;
    var token := NumberText(n);
    NumberTextUnits(n);
    NumberPrefixStops(token, rest);
    ReadNumberText(n);
    var t := token + rest;
    assert t[0] == token[0] && t[|token|..] == rest;
  }

  lemma ReadStringToken(s: Utf16, rest: Utf16)
    ensures var t := StringText(s) + rest; t[0] == QUOTE && ReadString(t[1..]) == Some((s, rest))
  {
    hide EscapeAll, ReadString;
    ReadEscaped(s, rest);
    assert (StringText(s) + rest)[1..] == EscapeAll(s) + ([QUOTE] + rest);
  }

  lemma ReadScalarText(v: Json, rest: Utf16)
    requires !v.Arr? && !v.Obj? && Readable(v) && Ends(rest)
    ensures ReadScalar(ScalarText(v) + rest) == Some((v, rest))
  {
    hide NumberText, EscapeAll, ReadString;
    var t := ScalarText(v) + rest;
    if v.Null? {
      assert t == NULL_TEXT + rest && t[|NULL_TEXT|..] == rest;
      assert NULL_TEXT <= t;
    } else if v.Bool? {
      var text := if v.b then TRUE_TEXT else FALSE_TEXT;
      assert t[0] == text[0] && t[|text|..] == rest;
      assert text <= t;
    } else if v.Num? {
      ReadNumberToken(v.n, rest);
    } else {
      ReadStringToken(v.s, rest);
      assert t[0] == QUOTE;
    }
  }

  // A printed value is not empty and starts with no closing mark.
  lemma StringifyStarts(v: Json)
    ensures Stringify(v) != []
    ensures Stringify(v)[0] != CLOSE_BRACKET && Stringify(v)[0] != CLOSE_BRACE
    ensures !v.Arr? && !v.Obj? ==> Stringify(v)[0] != OPEN_BRACKET && Stringify(v)[0] != OPEN_BRACE
  {
    hide NumberText, EscapeAll;
    if v.Num? {
      NumberTextUnits(v.n);
    }
  }

  /** Reading what is printed gives the value back, at any depth, when nothing, a comma or a closing
      mark follows it. */
  lemma {:induction false} ReadStringify(v: Json, rest: Utf16)
    requires Readable(v) && Ends(rest)
    ensures ReadValue(Stringify(v) + rest) == Some((v, rest))
    decreases v, 0
  {
    hide ScalarText, ReadScalar, JoinTexts, ReadItems, ReadMembers, StringifyItems, StringifyMembers, MemberTexts;
    match v
    case Arr(items) =>
      if items == [] {
        assert Stringify(v) + rest == [OPEN_BRACKET, CLOSE_BRACKET] + rest by { EmptyJoin(); }
      } else {
        ReadStringifyItems(items, rest);
        ItemsStart(items);
        var body := JoinTexts(StringifyItems(items)) + ([CLOSE_BRACKET] + rest);
        assert Stringify(v) + rest == [OPEN_BRACKET] + body;
        assert ([OPEN_BRACKET] + body)[1..] == body;
      }
    case Obj(members) =>
      if members == [] {
        assert Stringify(v) + rest == [OPEN_BRACE, CLOSE_BRACE] + rest by { EmptyJoin(); }
      } else {
        ReadStringifyMembers(members, rest);
        MembersStart(members);
        var body := JoinTexts(MemberTexts(StringifyMembers(members))) + ([CLOSE_BRACE] + rest);
        assert Stringify(v) + rest == [OPEN_BRACE] + body;
        assert ([OPEN_BRACE] + body)[1..] == body;
      }
    case Infinite(_) => assert false;
    case _ =>
      StringifyStarts(v);
      ReadScalarText(v, rest);
      assert (ScalarText(v) + rest)[0] == ScalarText(v)[0];
  }

  lemma EmptyJoin()
    ensures JoinTexts(StringifyItems([])) == [] && JoinTexts(MemberTexts(StringifyMembers([]))) == []
  {
  }

  lemma ItemsStart(items: seq<Json>)
    requires items != []
    ensures var joined := JoinTexts(StringifyItems(items)); joined != [] && joined[0] != CLOSE_BRACKET
  {
    hide Stringify;
    StringifyStarts(items[0]);
  }

  lemma MembersStart(members: seq<Entry<Json>>)
    requires members != []
    ensures var joined := JoinTexts(MemberTexts(StringifyMembers(members))); joined != [] && joined[0] == QUOTE
  {
  }

  lemma JoinCons(first: Utf16, others: seq<Utf16>, tail: Utf16)
    requires others != []
    ensures JoinTexts([first] + others) + tail == first + ([COMMA] + (JoinTexts(others) + tail))
  {
  }

  lemma JoinOne(only: Utf16)
    ensures JoinTexts([only]) == only
  {
  }

  lemma {:induction false} ReadStringifyItems(items: seq<Json>, rest: Utf16)
    requires items != [] && forall i :: 0 <= i < |items| ==> Readable(items[i])
    ensures ReadItems(JoinTexts(StringifyItems(items)) + ([CLOSE_BRACKET] + rest)) == Some((items, rest))
    decreases items, 1
  {
    hide Stringify, ReadValue, JoinTexts;
    var close := [CLOSE_BRACKET] + rest;
    var first := Stringify(items[0]);
    if |items| == 1 {
      assert StringifyItems(items) == [first];
      JoinOne(first);
      ReadStringify(items[0], close);
      assert close[1..] == rest && items == [items[0]];
    } else {
      ReadStringifyItems(items[1..], rest);
      var tail := JoinTexts(StringifyItems(items[1..])) + close;
      JoinCons(first, StringifyItems(items[1..]), close);
      ReadStringify(items[0], [COMMA] + tail);
      assert ([COMMA] + tail)[1..] == tail;
      assert items == [items[0]] + items[1..];
    }
  }

  lemma {:induction false} ReadStringifyMember(m: Entry<Json>, rest: Utf16)
    requires Readable(m.value) && Ends(rest)
    ensures ReadMember(MemberText(Entry(m.key, Stringify(m.value))) + rest) == Some((m, rest))
    decreases m, 0
  {
    hide Stringify, ReadValue, StringText, ReadString;
    var after := [COLON] + (Stringify(m.value) + rest);
    ReadStringToken(m.key, after);
    ReadStringify(m.value, rest);
    var text := MemberText(Entry(m.key, Stringify(m.value))) + rest;
    assert text == StringText(m.key) + after;
    assert after[1..] == Stringify(m.value) + rest;
  }

  lemma {:induction false} ReadStringifyMembers(members: seq<Entry<Json>>, rest: Utf16)
    requires members != [] && forall i :: 0 <= i < |members| ==> Readable(members[i].value)
    ensures ReadMembers(JoinTexts(MemberTexts(StringifyMembers(members))) + ([CLOSE_BRACE] + rest))
      == Some((members, rest))
    decreases members, 1
  {
    hide Stringify, MemberText, ReadMember, JoinTexts, Readable;
    var close := [CLOSE_BRACE] + rest;
    var first := MemberText(Entry(members[0].key, Stringify(members[0].value)));
    var others := MemberTexts(StringifyMembers(members[1..]));
    assert StringifyMembers(members)[1..] == StringifyMembers(members[1..]);
    assert MemberTexts(StringifyMembers(members)) == [first] + others;
    if |members| == 1 {
      assert others == [] && [first] + others == [first];
      JoinOne(first);
      ReadStringifyMember(members[0], close);
      assert close[1..] == rest;
      assert members == [members[0]];
    } else {
      ReadStringifyMembers(members[1..], rest);
      var tail := JoinTexts(others) + close;
      JoinCons(first, others, close);
      ReadStringifyMember(members[0], [COMMA] + tail);
      assert ([COMMA] + tail)[1..] == tail;
      assert members == [members[0]] + members[1..];
    }
  }

  lemma {:induction false} NormalizeReadable(v: Json)
    requires Finite(v)
    ensures Readable(Normalize(v))
  {
    if v.Arr? {
      NormalizeItemsAt(v.items);
      forall i | 0 <= i < |v.items|
        ensures Readable(NormalizeItems(v.items)[i])
      {
        NormalizeReadable(v.items[i]);
      }
    } else if v.Obj? {
      var members := NormalizeMembers(v.members);
      NormalizeMembersAt(v.members);
      forall i | 0 <= i < |members|
        ensures Readable(members[i].value)
      {
        NormalizeReadable(v.members[i].value);
      }
      SortMembers(members);
      var sorted := SortByKey(members);
      forall k | 0 <= k < |sorted|
        ensures Readable(sorted[k].value)
      {
        assert sorted[k] in multiset(members);
      }
    }
  }

  lemma SortDistinct<V>(entries: seq<Entry<V>>)
    requires DistinctKeys(entries)
    ensures DistinctKeys(SortByKey(entries)) && SortByKey(SortByKey(entries)) == SortByKey(entries)
  {
    var sorted := SortByKey(entries);
    SortSorts(entries);
    SortMembers(entries);
    forall i, j | 0 <= i < j < |sorted|
      ensures sorted[i].key != sorted[j].key
    {
      LessTrichotomy(sorted[i].key, sorted[j].key);
    }
    SortMembers(sorted);
    SortSorts(sorted);
    SortedUnique(SortByKey(sorted), sorted);
  }

  // The representative is itself a parsed value, and its own representative.
  lemma {:induction false} NormalizeIdempotent(v: Json)
    requires Parsed(v)
    ensures Parsed(Normalize(v)) && Normalize(Normalize(v)) == Normalize(v)
  {
    if v.Arr? {
      var items := NormalizeItems(v.items);
      NormalizeItemsAt(v.items);
      NormalizeItemsAt(items);
      forall i | 0 <= i < |items|
        ensures Parsed(items[i]) && Normalize(items[i]) == items[i]
      {
        NormalizeIdempotent(v.items[i]);
      }
      assert NormalizeItems(items) == items;
    } else if v.Obj? {
      var members := NormalizeMembers(v.members);
      NormalizeMembersAt(v.members);
      forall i | 0 <= i < |members|
        ensures Parsed(members[i].value) && Normalize(members[i].value) == members[i].value
      {
        NormalizeIdempotent(v.members[i].value);
      }
      SortDistinct(members);
      NormalMembersStay(members, SortByKey(members));
    }
  }

  lemma NormalMembersStay(members: seq<Entry<Json>>, sorted: seq<Entry<Json>>)
    requires forall i :: 0 <= i < |members| ==>
      Parsed(members[i].value) && Normalize(members[i].value) == members[i].value
    requires sorted == SortByKey(members)
    ensures forall i :: 0 <= i < |sorted| ==> Parsed(sorted[i].value)
    ensures NormalizeMembers(sorted) == sorted
  {
    SortMembers(members);
    NormalizeMembersAt(sorted);
    forall i | 0 <= i < |sorted|
      ensures Parsed(sorted[i].value) && Normalize(sorted[i].value) == sorted[i].value
    {
      assert sorted[i] in multiset(members);
    }
  }

  // ---------- Main results ----------

  /** The reader recovers from the canonical text of a value what the text shows, up to member order:
      the value itself, but for infinite numbers, which become null. */
  lemma {:induction false} CanonicalRecovers(v: Json)
    requires Parsed(v)
    ensures Read(CanonicalText(v)) == Some(Normalize(Shown(v)))
    ensures Parsed(Shown(v)) && SameJson(Shown(v), Normalize(Shown(v)))
    ensures Finite(v) ==> Shown(v) == v
  {
    hide Shown, Replace, Normalize, Parsed, Finite, Readable, SameJson, NullFree, Stringify, ReadValue;
    var shown := Shown(v);
    ShownIs(v);
    ShownFinite(v);
    CanonicalIsNormalized(shown);
    NormalizeReadable(shown);
    ReadStringify(Normalize(shown), []);
    assert Stringify(Normalize(shown)) + [] == Stringify(Normalize(shown));
    NormalizeIdempotent(shown);
    SameJsonNormalizes(shown, Normalize(shown));
  }

  lemma {:induction false} ShownIs(v: Json)
    requires Parsed(v)
    ensures Parsed(Shown(v)) && CanonicalText(Shown(v)) == CanonicalText(v)
  {
    hide Replace, Parsed, CanonicalText;
    ReplaceParsed(v, Null, Null);
    ReplaceText(v, Null, Null);
  }

  /** Two payloads have the same canonical text exactly when they show the same up to member order. */
  lemma {:induction false} CanonicalUnambiguous(v: Json, w: Json)
    requires Parsed(v) && Parsed(w)
    ensures CanonicalText(v) == CanonicalText(w) <==> SameJson(Shown(v), Shown(w))
  {
    hide Shown, Normalize, Parsed, SameJson, Finite, CanonicalText, Stringify, Read;
    CanonicalRecovers(v);
    CanonicalRecovers(w);
    ShownIs(v);
    ShownIs(w);
    CanonicalIsNormalized(Shown(v));
    CanonicalIsNormalized(Shown(w));
    SameJsonNormalizes(Shown(v), Shown(w));
  }

  /** So without infinite numbers they have it exactly when they are equal up to member order. */
  lemma {:induction false} FiniteUnambiguous(v: Json, w: Json)
    requires Parsed(v) && Parsed(w) && Finite(v) && Finite(w)
    ensures CanonicalText(v) == CanonicalText(w) <==> SameJson(v, w)
  {
    hide Shown, Parsed, SameJson, Finite, CanonicalText, NullFree;
    CanonicalUnambiguous(v, w);
    ShownFinite(v);
    ShownFinite(w);
  }

  /** The text of a payload belongs to it alone, up to member order, exactly when it holds no null and
      no infinite number. */
  lemma {:induction false} TextDetermines(v: Json)
    requires Parsed(v)
    ensures (forall w :: Parsed(w) && CanonicalText(w) == CanonicalText(v) ==> SameJson(v, w)) <==> NullFree(v)
  {
    hide Shown, Exchanged, Replace, Normalize, Parsed, SameJson, Finite, CanonicalText, NullFree;
    if NullFree(v) {
      forall w | Parsed(w) && CanonicalText(w) == CanonicalText(v)
        ensures SameJson(v, w)
      {
        ShownFinite(v);
        ShownFinite(w);
        CanonicalUnambiguous(v, w);
        ShownIs(w);
        SameJsonNormalizes(v, Shown(w));
        NullFreeNormalizes(v);
        NullFreeNormalizes(Shown(w));
      }
    } else {
      ExchangedShares(v);
    }
  }

  lemma {:induction false} ExchangedShares(v: Json)
    requires Parsed(v) && !NullFree(v)
    ensures Parsed(Exchanged(v)) && CanonicalText(Exchanged(v)) == CanonicalText(v) && !SameJson(v, Exchanged(v))
  {
    ReplaceParsed(v, Infinite(false), Null);
    ReplaceText(v, Infinite(false), Null);
    ExchangedDiffers(v);
  }

  /** The payloads read from `{"a":1e400}`, `{"a":-1e400}` and `{"a":null}` share their text. */
  lemma {:induction false} InfinitePrintsNull()
    ensures var key := [0x61];
      var plus, minus := Obj([Entry(key, Infinite(false))]), Obj([Entry(key, Infinite(true))]);
      var nothing := Obj([Entry(key, Null)]);
      && Parsed(plus) && Parsed(minus) && Parsed(nothing)
      && CanonicalText(plus) == CanonicalText(minus) == CanonicalText(nothing)
      && !SameJson(plus, minus) && !SameJson(plus, nothing) && !SameJson(minus, nothing)
  {
    var key := [0x61];
    OnlyMember(key, Infinite(false), Infinite(true));
    OnlyMember(key, Infinite(false), Null);
    OnlyMember(key, Infinite(true), Null);
  }

  lemma {:induction false} OnlyMember(key: Utf16, v: Json, w: Json)
    requires PrintsNull(v) && PrintsNull(w) && v != w
    ensures CanonicalText(Obj([Entry(key, v)])) == CanonicalText(Obj([Entry(key, w)]))
    ensures !SameJson(Obj([Entry(key, v)]), Obj([Entry(key, w)]))
  {
    var a, b := [Entry(key, v)], [Entry(key, w)];
    assert a[1..] == [] && b[1..] == [];
    assert CanonicalMembers(a) == [Entry(key, NULL_TEXT)] == CanonicalMembers(b);
    assert !HasMember(b, a[0]);
  }
}
