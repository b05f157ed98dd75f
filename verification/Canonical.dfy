/** The canonical text of a JSON value, and a reader that recovers the value up to member order. */
module Canonical {
  import opened Text
  import opened Entries
  import opened JsonLexical

  /** What `JSON.parse` can return; a numeral too large for a double, such as `1e400`, becomes an
      infinite number. */
  datatype Json =
    | Null
    | Bool(b: bool)
    | Num(n: Number)
    | Infinite(negative: bool)
    | Str(s: Utf16)
    | Arr(items: seq<Json>)
    | Obj(members: seq<Entry<Json>>)

  const COMMA: Unit := 0x2C
  const COLON: Unit := 0x3A
  const OPEN_BRACKET: Unit := 0x5B
  const CLOSE_BRACKET: Unit := 0x5D
  const OPEN_BRACE: Unit := 0x7B
  const CLOSE_BRACE: Unit := 0x7D
  const NULL_TEXT: Utf16 := [0x6E, 0x75, 0x6C, 0x6C]
  const TRUE_TEXT: Utf16 := [0x74, 0x72, 0x75, 0x65]
  const FALSE_TEXT: Utf16 := [0x66, 0x61, 0x6C, 0x73, 0x65]

  /** A value as `JSON.parse` returns it: every object lists distinct keys. */
  ghost predicate Parsed(v: Json) {
    match v
    case Arr(items) => forall i :: 0 <= i < |items| ==> Parsed(items[i])
    case Obj(members) => DistinctKeys(members) && forall i :: 0 <= i < |members| ==> Parsed(members[i].value)
    case _ => true
  }

  // ---------- The printer of the source ----------

  // `texts.join(",")`
  function JoinTexts(texts: seq<Utf16>): Utf16 {
    if texts == [] then []
    else if |texts| == 1 then texts[0]
    else texts[0] + ([COMMA] + JoinTexts(texts[1..]))
  }

  function MemberText(e: Entry<Utf16>): Utf16 {
    StringText(e.key) + ([COLON] + e.value)
  }

  function MemberTexts(entries: seq<Entry<Utf16>>): seq<Utf16> {
    if entries == [] then [] else [MemberText(entries[0])] + MemberTexts(entries[1..])
  }

  // Values that are neither arrays nor objects; `JSON.stringify` prints an infinite number as `null`.
  function ScalarText(v: Json): Utf16
    requires !v.Arr? && !v.Obj?
  {
    match v
    case Null => NULL_TEXT
    case Bool(b) => if b then TRUE_TEXT else FALSE_TEXT
    case Num(n) => NumberText(n)
    case Infinite(_) => NULL_TEXT
    case Str(s) => StringText(s)
  }

  function ArrayText(items: seq<Utf16>): Utf16 {
    [OPEN_BRACKET] + (JoinTexts(items) + [CLOSE_BRACKET])
  }

  function ObjectText(members: seq<Entry<Utf16>>): Utf16 {
    [OPEN_BRACE] + (JoinTexts(MemberTexts(members)) + [CLOSE_BRACE])
  }

  /** `canonical`: members sorted by key at every depth, no white space. */
  function CanonicalText(v: Json): Utf16 {
    match v
    case Arr(items) => ArrayText(CanonicalItems(items))
    case Obj(members) => ObjectText(SortByKey(CanonicalMembers(members)))
    case _ => ScalarText(v)
  }

  function CanonicalItems(items: seq<Json>): seq<Utf16> {
    if items == [] then [] else [CanonicalText(items[0])] + CanonicalItems(items[1..])
  }

  function CanonicalMembers(members: seq<Entry<Json>>): seq<Entry<Utf16>> {
    if members == [] then []
    else [Entry(members[0].key, CanonicalText(members[0].value))] + CanonicalMembers(members[1..])
  }

  // ---------- Equality up to member order ----------

  /** Equal up to the order of object members; the two zeros count as one number. */
  ghost predicate SameJson(v: Json, w: Json) {
    match v
    case Num(n) => w.Num? && (n == w.n || (n.Zero? && w.n.Zero?))
    case Arr(items) =>
      w.Arr? && |items| == |w.items| && forall i :: 0 <= i < |items| ==> SameJson(items[i], w.items[i])
    case Obj(members) =>
      w.Obj? && |members| == |w.members| &&
      forall i :: 0 <= i < |members| ==> HasMember(w.members, members[i])
    case _ => v == w
  }

  ghost predicate HasMember(members: seq<Entry<Json>>, m: Entry<Json>)
    decreases m
  {
    exists j :: 0 <= j < |members| && members[j].key == m.key && SameJson(m.value, members[j].value)
  }

  // The representative whose members are sorted and whose zeros are positive.
  function Normalize(v: Json): Json {
    match v
    case Num(n) => if n.Zero? then Num(Zero(false)) else v
    case Arr(items) => Arr(NormalizeItems(items))
    case Obj(members) => Obj(SortByKey(NormalizeMembers(members)))
    case _ => v
  }

  function NormalizeItems(items: seq<Json>): seq<Json> {
    if items == [] then [] else [Normalize(items[0])] + NormalizeItems(items[1..])
  }

  function NormalizeMembers(members: seq<Entry<Json>>): seq<Entry<Json>> {
    if members == [] then []
    else [Entry(members[0].key, Normalize(members[0].value))] + NormalizeMembers(members[1..])
  }

  lemma {:induction false} NormalizeItemsAt(items: seq<Json>)
    ensures |NormalizeItems(items)| == |items|
    ensures forall i :: 0 <= i < |items| ==> NormalizeItems(items)[i] == Normalize(items[i])
  {
    if items != [] {
      NormalizeItemsAt(items[1..]);
    }
  }

  lemma {:induction false} NormalizeMembersAt(members: seq<Entry<Json>>)
    ensures |NormalizeMembers(members)| == |members|
    ensures forall i :: 0 <= i < |members| ==>
      NormalizeMembers(members)[i] == Entry(members[i].key, Normalize(members[i].value))
  {
    if members != [] {
      NormalizeMembersAt(members[1..]);
    }
  }

  lemma {:induction false} SameJsonNormalizes(v: Json, w: Json)
    requires Parsed(v) && Parsed(w)
    ensures SameJson(v, w) <==> Normalize(v) == Normalize(w)
  {
    if v.Arr? && w.Arr? {
      NormalizeItemsAt(v.items);
      NormalizeItemsAt(w.items);
      if |v.items| == |w.items| {
        forall i | 0 <= i < |v.items|
          ensures SameJson(v.items[i], w.items[i]) <==> Normalize(v.items[i]) == Normalize(w.items[i])
        {
          SameJsonNormalizes(v.items[i], w.items[i]);
        }
      }
    } else if v.Obj? && w.Obj? {
      SameObjects(v.members, w.members);
    }
  }

  // `b` has a member like `m` exactly when its normalized members include the normalized `m`.
  lemma {:induction false} HasMemberNormalizes(b: seq<Entry<Json>>, m: Entry<Json>)
    requires Parsed(m.value) && forall j :: 0 <= j < |b| ==> Parsed(b[j].value)
    ensures HasMember(b, m) <==> Entry(m.key, Normalize(m.value)) in NormalizeMembers(b)
    decreases m
  {
    var nb := NormalizeMembers(b);
    NormalizeMembersAt(b);
    forall j | 0 <= j < |b|
      ensures (b[j].key == m.key && SameJson(m.value, b[j].value)) <==> nb[j] == Entry(m.key, Normalize(m.value))
    {
      SameJsonNormalizes(m.value, b[j].value);
    }
  }

  lemma SortEqualIncludes<V>(a: seq<Entry<V>>, b: seq<Entry<V>>)
    requires DistinctKeys(a) && DistinctKeys(b)
    ensures SortByKey(a) == SortByKey(b) <==> |a| == |b| && forall i :: 0 <= i < |a| ==> a[i] in b
  {
    if SortByKey(a) == SortByKey(b) {
      SortMembers(a);
      SortMembers(b);
      assert |a| == |multiset(a)| == |multiset(b)| == |b|;
      assert forall i :: 0 <= i < |a| ==> a[i] in multiset(b);
    }
    if |a| == |b| && forall i :: 0 <= i < |a| ==> a[i] in b {
      SortCanonical(a, b);
    }
  }

  lemma {:induction false} SameObjects(a: seq<Entry<Json>>, b: seq<Entry<Json>>)
    requires DistinctKeys(a) && forall i :: 0 <= i < |a| ==> Parsed(a[i].value)
    requires DistinctKeys(b) && forall i :: 0 <= i < |b| ==> Parsed(b[i].value)
    ensures SameJson(Obj(a), Obj(b)) <==> SortByKey(NormalizeMembers(a)) == SortByKey(NormalizeMembers(b))
    decreases a, 0
  {
    NormalizeMembersAt(a);
    NormalizeMembersAt(b);
    SortEqualIncludes(NormalizeMembers(a), NormalizeMembers(b));
    forall i | 0 <= i < |a|
      ensures HasMember(b, a[i]) <==> NormalizeMembers(a)[i] in NormalizeMembers(b)
    {
      HasMemberNormalizes(b, a[i]);
    }
  }

  // ---------- Nulls and infinite numbers ----------

  // The value with its nulls and its infinite numbers replaced, at any depth.
  function Replace(v: Json, forNull: Json, forInfinite: Json): Json {
    match v
    case Null => forNull
    case Infinite(_) => forInfinite
    case Arr(items) => Arr(ReplaceItems(items, forNull, forInfinite))
    case Obj(members) => Obj(ReplaceMembers(members, forNull, forInfinite))
    case _ => v
  }

  function ReplaceItems(items: seq<Json>, forNull: Json, forInfinite: Json): seq<Json> {
    if items == [] then []
    else [Replace(items[0], forNull, forInfinite)] + ReplaceItems(items[1..], forNull, forInfinite)
  }

  function ReplaceMembers(members: seq<Entry<Json>>, forNull: Json, forInfinite: Json): seq<Entry<Json>> {
    if members == [] then []
    else
      var first := Entry(members[0].key, Replace(members[0].value, forNull, forInfinite));
      [first] + ReplaceMembers(members[1..], forNull, forInfinite)
  }

  /** What the text of a value shows: infinite numbers become null. */
  function Shown(v: Json): Json {
    Replace(v, Null, Null)
  }

  // Nulls and infinite numbers exchanged.
  function Exchanged(v: Json): Json {
    Replace(v, Infinite(false), Null)
  }

  // No infinite number.
  ghost predicate Finite(v: Json) {
    match v
    case Infinite(_) => false
    case Arr(items) => forall i :: 0 <= i < |items| ==> Finite(items[i])
    case Obj(members) => forall i :: 0 <= i < |members| ==> Finite(members[i].value)
    case _ => true
  }

  // No null and no infinite number.
  ghost predicate NullFree(v: Json) {
    match v
    case Null => false
    case Infinite(_) => false
    case Arr(items) => forall i :: 0 <= i < |items| ==> NullFree(items[i])
    case Obj(members) => forall i :: 0 <= i < |members| ==> NullFree(members[i].value)
    case _ => true
  }

  predicate PrintsNull(v: Json) {
    v.Null? || v.Infinite?
  }

  lemma {:induction false} ReplaceItemsAt(items: seq<Json>, a: Json, b: Json)
    ensures |ReplaceItems(items, a, b)| == |items|
    ensures forall i :: 0 <= i < |items| ==> ReplaceItems(items, a, b)[i] == Replace(items[i], a, b)
  {
    if items != [] { ReplaceItemsAt(items[1..], a, b); }
  }

  lemma {:induction false} ReplaceMembersAt(members: seq<Entry<Json>>, a: Json, b: Json)
    ensures |ReplaceMembers(members, a, b)| == |members|
    ensures forall i :: 0 <= i < |members| ==>
      ReplaceMembers(members, a, b)[i] == Entry(members[i].key, Replace(members[i].value, a, b))
  {
    if members != [] { ReplaceMembersAt(members[1..], a, b); }
  }

  lemma {:induction false} ReplaceParsed(v: Json, a: Json, b: Json)
    requires Parsed(v) && PrintsNull(a) && PrintsNull(b)
    ensures Parsed(Replace(v, a, b))
  {
    if v.Arr? {
      ReplaceItemsAt(v.items, a, b);
      forall i | 0 <= i < |v.items|
        ensures Parsed(ReplaceItems(v.items, a, b)[i])
      {
        ReplaceParsed(v.items[i], a, b);
      }
    } else if v.Obj? {
      ReplaceMembersAt(v.members, a, b);
      forall i | 0 <= i < |v.members|
        ensures Parsed(ReplaceMembers(v.members, a, b)[i].value)
      {
        ReplaceParsed(v.members[i].value, a, b);
      }
    }
  }

  lemma {:induction false} ShownFinite(v: Json)
    ensures Finite(Shown(v))
    ensures Finite(v) ==> Shown(v) == v
    ensures NullFree(Shown(v)) ==> Finite(v)
    ensures NullFree(v) ==> Finite(v)
  {
    if v.Arr? {
      var items := ReplaceItems(v.items, Null, Null);
      ReplaceItemsAt(v.items, Null, Null);
      forall i | 0 <= i < |items|
        ensures Finite(items[i]) && (Finite(v.items[i]) ==> items[i] == v.items[i])
        ensures (NullFree(items[i]) ==> Finite(v.items[i])) && (NullFree(v.items[i]) ==> Finite(v.items[i]))
      {
        ShownFinite(v.items[i]);
      }
      assert Finite(v) ==> items == v.items;
    } else if v.Obj? {
      var members, shown := v.members, ReplaceMembers(v.members, Null, Null);
      ReplaceMembersAt(members, Null, Null);
      forall i | 0 <= i < |members|
        ensures Finite(shown[i].value) && (Finite(members[i].value) ==> shown[i] == members[i])
        ensures NullFree(shown[i].value) ==> Finite(members[i].value)
        ensures NullFree(members[i].value) ==> Finite(members[i].value)
      {
        ShownFinite(members[i].value);
      }
      assert Finite(v) ==> shown == members;
    }
  }

  // Replacing what prints as null by what prints as null leaves the text.
  lemma {:induction false} ReplaceText(v: Json, a: Json, b: Json)
    requires PrintsNull(a) && PrintsNull(b)
    ensures CanonicalText(Replace(v, a, b)) == CanonicalText(v)
  {
    if v.Arr? {
      ReplaceItemsText(v.items, a, b);
    } else if v.Obj? {
      ReplaceMembersText(v.members, a, b);
    }
  }

  lemma {:induction false} ReplaceItemsText(items: seq<Json>, a: Json, b: Json)
    requires PrintsNull(a) && PrintsNull(b)
    ensures CanonicalItems(ReplaceItems(items, a, b)) == CanonicalItems(items)
  {
    hide Replace;
    if items != [] {
      ReplaceText(items[0], a, b);
      ReplaceItemsText(items[1..], a, b);
      assert ReplaceItems(items, a, b)[1..] == ReplaceItems(items[1..], a, b);
    }
  }

  lemma {:induction false} ReplaceMembersText(members: seq<Entry<Json>>, a: Json, b: Json)
    requires PrintsNull(a) && PrintsNull(b)
    ensures CanonicalMembers(ReplaceMembers(members, a, b)) == CanonicalMembers(members)
  {
    hide Replace;
    if members != [] {
      ReplaceText(members[0].value, a, b);
      ReplaceMembersText(members[1..], a, b);
      assert ReplaceMembers(members, a, b)[1..] == ReplaceMembers(members[1..], a, b);
    }
  }

  // A value with a null or an infinite number is not the one with them exchanged.
  lemma {:induction false} ExchangedDiffers(v: Json)
    requires Parsed(v) && !NullFree(v)
    ensures !SameJson(v, Exchanged(v))
  {
    if v.Arr? {
      var i :| 0 <= i < |v.items| && !NullFree(v.items[i]);
      ReplaceItemsAt(v.items, Infinite(false), Null);
      ExchangedDiffers(v.items[i]);
    } else if v.Obj? {
      var members, other := v.members, ReplaceMembers(v.members, Infinite(false), Null);
      var i :| 0 <= i < |members| && !NullFree(members[i].value);
      ReplaceMembersAt(members, Infinite(false), Null);
      ExchangedDiffers(members[i].value);
      assert forall j :: 0 <= j < |other| && other[j].key == members[i].key ==> j == i;
      assert !HasMember(other, members[i]);
    }
  }

  lemma {:induction false} NullFreeNormalizes(v: Json)
    ensures NullFree(Normalize(v)) <==> NullFree(v)
  {
    if v.Arr? {
      NormalizeItemsAt(v.items);
      forall i | 0 <= i < |v.items|
        ensures NullFree(NormalizeItems(v.items)[i]) <==> NullFree(v.items[i])
      {
        NullFreeNormalizes(v.items[i]);
      }
    } else if v.Obj? {
      var members := NormalizeMembers(v.members);
      NormalizeMembersAt(v.members);
      forall i | 0 <= i < |members|
        ensures NullFree(members[i].value) <==> NullFree(v.members[i].value)
      {
        NullFreeNormalizes(v.members[i].value);
      }
      SortNullFree(members);
    }
  }

  lemma {:induction false} SortNullFree(members: seq<Entry<Json>>)
    ensures NullFree(Obj(SortByKey(members))) <==> NullFree(Obj(members))
  {
    var sorted := SortByKey(members);
    SortMembers(members);
    forall i | 0 <= i < |members|
      ensures members[i] in sorted
    {
      assert members[i] in multiset(sorted);
    }
    forall i | 0 <= i < |sorted|
      ensures sorted[i] in members
    {
      assert sorted[i] in multiset(members);
    }
  }

  // ---------- Printing in the given member order ----------

  function Stringify(v: Json): Utf16 {
    match v
    case Arr(items) => ArrayText(StringifyItems(items))
    case Obj(members) => ObjectText(StringifyMembers(members))
    case _ => ScalarText(v)
  }

  function StringifyItems(items: seq<Json>): seq<Utf16> {
    if items == [] then [] else [Stringify(items[0])] + StringifyItems(items[1..])
  }

  function StringifyMembers(members: seq<Entry<Json>>): seq<Entry<Utf16>> {
    if members == [] then []
    else [Entry(members[0].key, Stringify(members[0].value))] + StringifyMembers(members[1..])
  }

  lemma {:induction false} InsertStringified(e: Entry<Json>, members: seq<Entry<Json>>)
    ensures StringifyMembers(Insert(e, members)) ==
      Insert(Entry(e.key, Stringify(e.value)), StringifyMembers(members))
  {
    hide Stringify, AtMost;
    if members != [] {
      InsertStringified(e, members[1..]);
      assert ([e] + members)[1..] == members;
      assert ([members[0]] + Insert(e, members[1..]))[1..] == Insert(e, members[1..]);
    } else {
      assert [e][1..] == members;
    }
  }

  lemma {:induction false} SortStringified(members: seq<Entry<Json>>)
    ensures StringifyMembers(SortByKey(members)) == SortByKey(StringifyMembers(members))
  {
    hide Stringify, Insert;
    if members != [] {
      SortStringified(members[1..]);
      InsertStringified(members[0], SortByKey(members[1..]));
      assert StringifyMembers(members)[1..] == StringifyMembers(members[1..]);
    }
  }

  // Sorting while printing is printing after sorting.
  lemma {:induction false} CanonicalIsNormalized(v: Json)
    ensures CanonicalText(v) == Stringify(Normalize(v))
  {
    match v
    case Arr(items) => CanonicalItemsNormalized(items);
    case Obj(members) =>
      CanonicalMembersNormalized(members);
      SortStringified(NormalizeMembers(members));
    case _ =>
  }

  lemma {:induction false} CanonicalItemsNormalized(items: seq<Json>)
    ensures CanonicalItems(items) == StringifyItems(NormalizeItems(items))
  {
    if items != [] {
      CanonicalIsNormalized(items[0]);
      CanonicalItemsNormalized(items[1..]);
    }
  }

  lemma {:induction false} CanonicalMembersNormalized(members: seq<Entry<Json>>)
    ensures CanonicalMembers(members) == StringifyMembers(NormalizeMembers(members))
  {
    if members != [] {
      CanonicalIsNormalized(members[0].value);
      CanonicalMembersNormalized(members[1..]);
    }
  }
}
