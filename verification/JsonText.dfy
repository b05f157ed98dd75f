/** What the canonical text of a JSON value is, character by character. */
module JsonText {
  import opened Text
  import opened Wrappers
  import opened Digits
  import opened Entries
  import opened JsonLexical
  import opened Canonical

  /** The marks and the words are those of section 2 of RFC 8259. */
  lemma MarksAndWords()
    ensures [OPEN_BRACKET, CLOSE_BRACKET, OPEN_BRACE, CLOSE_BRACE, COMMA, COLON, QUOTE] == AsciiText("[]{},:\"")
    ensures [MINUS, PLUS, DOT, EXPONENT, ZERO] == AsciiText("-+.e0")
    ensures ScalarText(Null) == AsciiText("null")
    ensures ScalarText(Bool(true)) == AsciiText("true") && ScalarText(Bool(false)) == AsciiText("false")
  {
  }

  // ---------- Strings ----------

  const LOWER_HEX := "0123456789abcdef"

  function HexMark(d: nat): Utf16
    requires d < 16
  {
    AsciiText([LOWER_HEX[d]])
  }

  /** The text of one character: a two-character escape for seven of them, four lower-case hexadecimal
      digits for the other control characters and for half a pair, and the character itself otherwise. */
  function CharacterText(c: Utf16): Utf16
    requires |c| == 1 || |c| == 2
  {
    if |c| == 2 then c
    else
      match c[0]
      case 0x22 => AsciiText("\\\"")
      case 0x5C => AsciiText("\\\\")
      case 0x08 => AsciiText("\\b")
      case 0x09 => AsciiText("\\t")
      case 0x0A => AsciiText("\\n")
      case 0x0C => AsciiText("\\f")
      case 0x0D => AsciiText("\\r")
      case u =>
        if u <= 0x1F || 0xD800 <= u <= 0xDFFF then
          AsciiText("\\u") + HexMark(u / 0x1000) + HexMark(u / 0x100 % 0x10) + HexMark(u / 0x10 % 0x10)
          + HexMark(u % 0x10)
        else c
  }

  function CharacterTexts(cs: seq<Utf16>): Utf16
    requires forall k :: 0 <= k < |cs| ==> |cs[k]| == 1 || |cs[k]| == 2
  {
    if cs == [] then [] else CharacterText(cs[0]) + CharacterTexts(cs[1..])
  }

  lemma HexDigits(d: nat)
    requires d < 16
    ensures HexMark(d) == [HexDigit(d)]
  {
    assert d in {0, 1, 2, 3, 4, 5, 6, 7, 8, 9, 10, 11, 12, 13, 14, 15};
  }

  lemma HexText(u: Unit)
    ensures AsciiText("\\u") + HexMark(u / 0x1000) + HexMark(u / 0x100 % 0x10) + HexMark(u / 0x10 % 0x10)
      + HexMark(u % 0x10) == UnicodeEscape(u)
  {
    hide HexMark, HexDigit;
    HexDigits(u / 0x1000);
    HexDigits(u / 0x100 % 0x10);
    HexDigits(u / 0x10 % 0x10);
    HexDigits(u % 0x10);
    assert u / 0x10 / 0x10 == u / 0x100 && u / 0x100 / 0x10 == u / 0x1000;
    assert AsciiText("\\u") == [0x5C, 0x75];
  }

  lemma UnitText(u: Unit)
    ensures CharacterText([u]) == EscapeUnit(u)
  {
    hide UnicodeEscape, HexMark;
    HexText(u);
  }

  lemma PairText(c: Utf16)
    requires |c| == 2
    ensures CharacterText(c) == c
  {
  }

  lemma {:induction false} EscapedCharacters(s: Utf16)
    ensures forall k :: 0 <= k < |Characters(s)| ==> |Characters(s)[k]| == 1 || |Characters(s)[k]| == 2
    ensures EscapeAll(s) == CharacterTexts(Characters(s))
  {
    CharactersAre(s);
    if s != [] {
      hide CharacterText, EscapeUnit, IsPair;
      var n := if StartsWithPair(s) then 2 else 1;
      EscapedCharacters(s[n..]);
      assert Characters(s) == [s[..n]] + Characters(s[n..]);
      assert Characters(s)[1..] == Characters(s[n..]);
      if n == 1 {
        UnitText(s[0]);
        assert s[..1] == [s[0]];
      } else {
        PairText(s[..2]);
      }
    }
  }

  /** A string is printed between quotes, character by character. */
  lemma StringTextIs(s: Utf16)
    ensures forall k :: 0 <= k < |Characters(s)| ==> |Characters(s)[k]| == 1 || |Characters(s)[k]| == 2
    ensures StringText(s) == AsciiText("\"") + CharacterTexts(Characters(s)) + AsciiText("\"")
  {
    EscapedCharacters(s);
    assert AsciiText("\"") == [QUOTE];
  }

  // ---------- Reading strings ----------

  // The value of a hexadecimal digit of either case.
  ghost predicate HexIs(u: Unit, d: int) {
    || ('0' as int <= u <= '9' as int && d == u - '0' as int)
    || ('a' as int <= u <= 'f' as int && d == 10 + u - 'a' as int)
    || ('A' as int <= u <= 'F' as int && d == 10 + u - 'A' as int)
  }

  // The two-character escapes of section 7 of RFC 8259.
  ghost predicate ShortFor(piece: Utf16, u: Unit) {
    || (piece == AsciiText("\\b") && u == 8) || (piece == AsciiText("\\t") && u == 9)
    || (piece == AsciiText("\\n") && u == 10) || (piece == AsciiText("\\f") && u == 12)
    || (piece == AsciiText("\\r") && u == 13) || (piece == AsciiText("\\\"") && u == 0x22)
    || (piece == AsciiText("\\\\") && u == 0x5C) || (piece == AsciiText("\\/") && u == 0x2F)
  }

  ghost predicate LongFor(piece: Utf16, u: Unit) {
    |piece| == 6 && piece[..2] == AsciiText("\\u") && exists w, x, y, z ::
      && HexIs(piece[2], w) && HexIs(piece[3], x) && HexIs(piece[4], y) && HexIs(piece[5], z)
      && u == 0x1000 * w + 0x100 * x + 0x10 * y + z
  }

  // A piece of a string text that stands for one code unit.
  ghost predicate Denotes(piece: Utf16, u: Unit) {
    (piece == [u] && 0x20 <= u && u != 0x22 && u != 0x5C) || ShortFor(piece, u) || LongFor(piece, u)
  }

  lemma HexValueIs(u: Unit, d: int)
    ensures HexValue(u) == Some(d) <==> HexIs(u, d)
    ensures HexIs(u, d) ==> 0 <= d < 16
  {
  }

  lemma ShortMarks()
    ensures AsciiText("\\b") == [0x5C, 0x62] && AsciiText("\\t") == [0x5C, 0x74] && AsciiText("\\n") == [0x5C, 0x6E]
    ensures AsciiText("\\f") == [0x5C, 0x66] && AsciiText("\\r") == [0x5C, 0x72]
    ensures AsciiText("\\\"") == [0x5C, 0x22] && AsciiText("\\\\") == [0x5C, 0x5C] && AsciiText("\\/") == [0x5C, 0x2F]
    ensures AsciiText("\\u") == [0x5C, 0x75]
  {
  }

  lemma ShortIs(t: Utf16, u: Unit)
    requires |t| >= 2
    ensures t[0] == 0x5C && ShortUnescape(t[1]) == Some(u) <==> ShortFor(t[..2], u)
    ensures ShortFor(t[..2], u) ==> t[1] != 0x75
  {
    assert t[..2] == [t[0], t[1]];
    ShortMarks();
  }

  lemma LongIs(t: Utf16, u: Unit)
    requires |t| >= 6
    ensures t[0] == 0x5C && t[1] == 0x75 && ReadHex4(t[2], t[3], t[4], t[5]) == Some(u) <==> LongFor(t[..6], u)
  {
    var piece := t[..6];
    assert piece[..2] == [t[0], t[1]];
    ShortMarks();
    hide HexValue, HexIs;
    var w, x, y, z := HexValue(t[2]), HexValue(t[3]), HexValue(t[4]), HexValue(t[5]);
    if w.Some? && x.Some? && y.Some? && z.Some? {
      HexValueIs(t[2], w.value);
      HexValueIs(t[3], x.value);
      HexValueIs(t[4], y.value);
      HexValueIs(t[5], z.value);
    }
    if LongFor(piece, u) {
      var w', x', y', z' :| HexIs(piece[2], w') && HexIs(piece[3], x') && HexIs(piece[4], y') && HexIs(piece[5], z')
        && u == 0x1000 * w' + 0x100 * x' + 0x10 * y' + z';
      HexValueIs(t[2], w');
      HexValueIs(t[3], x');
      HexValueIs(t[4], y');
      HexValueIs(t[5], z');
    }
  }

  lemma ShortU()
    ensures ShortUnescape(0x75).None?
  {
  }

  // What one piece gives the reader.
  lemma PieceRead(piece: Utf16, u: Unit, after: Utf16)
    requires Denotes(piece, u)
    ensures ReadString(piece + after) == Prepend(u, ReadString(after))
  {
    var t := piece + after;
    assert t[|piece|..] == after && t[..|piece|] == piece;
    ShortMarks();
    hide ShortUnescape, ReadHex4;
    if |piece| == 6 {
      if LongFor(piece, u) {
        LongIs(t, u);
        ShortU();
      }
    } else if |piece| == 2 {
      ShortIs(t, u);
    }
  }

  lemma PieceTaken(t: Utf16) returns (piece: Utf16, after: Utf16)
    requires ReadString(t).Some? && ReadString(t).value.0 != []
    ensures Denotes(piece, ReadString(t).value.0[0]) && t == piece + after
    ensures ReadString(t) == Prepend(ReadString(t).value.0[0], ReadString(after))
  {
    hide ShortUnescape, ReadHex4;
    var u := ReadString(t).value.0[0];
    var used := if t[0] != BACKSLASH then 1 else if ShortUnescape(t[1]).Some? then 2 else 6;
    piece, after := t[..used], t[used..];
    if used == 2 { ShortIs(t, u); } else if used == 6 { LongIs(t, u); }
    hide ShortFor, LongFor;
    assert t == piece + after;
  }

  lemma ClosingQuote(t: Utf16, rest: Utf16)
    ensures ReadString(t) == Some(([], rest)) <==> t == AsciiText("\"") + rest
  {
    assert AsciiText("\"") == [QUOTE];
    if t == [QUOTE] + rest { assert t[1..] == rest; }
    if t != [] { assert t == [t[0]] + t[1..]; }
  }

  /** The reader takes off a string text one piece after another, up to the closing quote, and nothing else. */
  lemma ReadStringIs(t: Utf16, u: Unit, s: Utf16, rest: Utf16)
    ensures ReadString(t) == Some(([], rest)) <==> t == AsciiText("\"") + rest
    ensures ReadString(t) == Some(([u] + s, rest)) <==>
      exists piece, after :: Denotes(piece, u) && t == piece + after && ReadString(after) == Some((s, rest))
  {
    ClosingQuote(t, rest);
    hide ReadString, Denotes;
    if ReadString(t) == Some(([u] + s, rest)) {
      var piece, after := PieceTaken(t);
      assert ([u] + s)[1..] == s;
    }
    if piece, after :| Denotes(piece, u) && t == piece + after && ReadString(after) == Some((s, rest)) {
      PieceRead(piece, u, after);
    }
  }

  // ---------- No string text is shorter ----------

  // No code unit is half of a pair without its other half.
  ghost predicate WellFormed(s: Utf16) {
    forall k :: 0 <= k < |Characters(s)| && |Characters(s)[k]| == 1 ==> !IsSurrogate(Characters(s)[k][0])
  }

  // The least length of a text for one code unit.
  function LeastLength(u: Unit): nat {
    if ShortEscape(u).Some? then 2 else if u < 0x20 then 6 else 1
  }

  function LeastLengths(s: Utf16): nat {
    if s == [] then 0 else LeastLength(s[0]) + LeastLengths(s[1..])
  }

  lemma {:induction false} WrittenLength(s: Utf16)
    requires WellFormed(s)
    ensures |EscapeAll(s)| == LeastLengths(s)
  {
    if s != [] {
      var n := if StartsWithPair(s) then 2 else 1;
      var cs, rest := Characters(s), Characters(s[n..]);
      assert cs == [s[..n]] + rest;
      assert forall k :: 0 <= k < |rest| ==> rest[k] == cs[k + 1];
      WrittenLength(s[n..]);
      if n == 1 {
        assert cs[0] == [s[0]];
      } else {
        assert s[1..][1..] == s[2..];
      }
    }
  }

  lemma ReadStep(t: Utf16) returns (used: nat)
    requires ReadString(t).Some? && ReadString(t).value.0 != []
    ensures 1 <= used <= |t| && ReadString(t[used..]).Some?
    ensures ReadString(t) == Prepend(ReadString(t).value.0[0], ReadString(t[used..]))
    ensures used >= LeastLength(ReadString(t).value.0[0])
  {
    used := if t[0] != BACKSLASH then 1 else if ShortUnescape(t[1]).Some? then 2 else 6;
  }

  lemma {:induction false} ReadingTakes(t: Utf16)
    requires ReadString(t).Some?
    ensures |t| >= LeastLengths(ReadString(t).value.0) + 1 + |ReadString(t).value.1|
  {
    var s := ReadString(t).value.0;
    if s != [] {
      hide ReadString, LeastLength;
      var used := ReadStep(t);
      ReadingTakes(t[used..]);
      assert s[1..] == ReadString(t[used..]).value.0;
    }
  }

  /** No other text that reads as the string is shorter. */
  lemma NoShorterText(s: Utf16, t: Utf16)
    requires WellFormed(s) && ReadString(t) == Some((s, []))
    ensures |StringText(s)| <= |[QUOTE] + t|
  {
    WrittenLength(s);
    ReadingTakes(t);
  }

  // ---------- Numbers ----------

  // The place of the first `u`.
  ghost predicate FirstAt(s: Utf16, u: Unit, i: int) {
    0 <= i < |s| && s[i] == u && u !in s[..i]
  }

  lemma {:induction false} NoLeadingZero(n: nat)
    ensures n > 0 ==> NatText(n)[0] != ZERO
  {
    if n >= 10 { NoLeadingZero(n / 10); }
  }

  /** How the value `0.d1d2...dk` times ten to `point` is laid out: without an exponent from 0.000001 up
      to below 10^21, and otherwise with one digit before the point, an `e` and the signed exponent. */
  ghost predicate LaidOut(text: Utf16, k: nat, point: int) {
    && (Ascii('e') in text <==> point > 21 || point <= -6)
    && (Ascii('e') !in text ==>
        && (Ascii('.') in text <==> point < k)
        && (Ascii('.') in text ==> FirstAt(text, Ascii('.'), if point > 0 then point else 1)))
    && (Ascii('e') in text ==>
        && (Ascii('.') in text <==> k > 1)
        && (Ascii('.') in text ==> FirstAt(text, Ascii('.'), 1))
        && var e := if k > 1 then k + 1 else 1;
        && FirstAt(text, Ascii('e'), e) && e + 2 < |text|
        && text[e + 1] == (if point > 0 then Ascii('+') else Ascii('-')) && text[e + 2] != Ascii('0'))
  }

  lemma OnlyDigits(digits: Utf16)
    requires AllDigits(digits)
    ensures Ascii('e') !in digits && Ascii('.') !in digits && Ascii('+') !in digits && Ascii('-') !in digits
  {
  }

  lemma WholeLayout(digits: Utf16, point: int)
    requires digits != [] && AllDigits(digits) && |digits| <= point <= 21
    ensures LaidOut(Magnitude(digits, point), |digits|, point)
  {
    OnlyDigits(digits);
    OnlyDigits(Zeros(point - |digits|));
  }

  lemma MiddleLayout(digits: Utf16, point: int)
    requires AllDigits(digits) && 0 < point <= 21 && point < |digits|
    ensures LaidOut(Magnitude(digits, point), |digits|, point)
  {
    OnlyDigits(digits);
    var text := Magnitude(digits, point);
    assert text == digits[..point] + [DOT] + digits[point..];
    assert text[point] == DOT && text[..point] == digits[..point];
  }

  lemma SmallLayout(digits: Utf16, point: int)
    requires digits != [] && AllDigits(digits) && -6 < point <= 0
    ensures LaidOut(Magnitude(digits, point), |digits|, point)
  {
    OnlyDigits(digits);
    OnlyDigits(Zeros(-point));
    var text := Magnitude(digits, point);
    assert text[1] == DOT && text[..1] == [ZERO];
  }

  lemma ExponentLayout(digits: Utf16, point: int)
    requires digits != [] && AllDigits(digits) && (point > 21 || point <= -6)
    ensures LaidOut(Magnitude(digits, point), |digits|, point)
  {
    hide NatText;
    OnlyDigits(digits);
    var k, e, text := |digits|, point - 1, Magnitude(digits, point);
    var mantissa := if k == 1 then digits else digits[..1] + [DOT] + digits[1..];
    var size := if e < 0 then -e else e;
    NoLeadingZero(size);
    OnlyDigits(NatText(size));
    var sign: Utf16 := if e < 0 then [MINUS] else [PLUS];
    assert text == mantissa + [EXPONENT] + (sign + NatText(size));
    assert text[..|mantissa|] == mantissa && text[|mantissa|] == EXPONENT;
    assert text[|mantissa| + 1] == sign[0] && text[|mantissa| + 2] == NatText(size)[0];
    if k > 1 { assert text[1] == DOT && text[..1] == digits[..1]; }
  }

  /** A number is printed with a minus sign when it is negative, and laid out as above. */
  lemma NumberLayout(negative: bool, digits: Utf16, point: int)
    requires digits != [] && ValidNumber(Decimal(negative, digits, point))
    ensures var text, sign := NumberText(Decimal(negative, digits, point)), AsciiText(if negative then "-" else "");
      sign <= text && LaidOut(text[|sign|..], |digits|, point)
  {
    hide LaidOut;
    assert AsciiText("-") == [MINUS];
    assert ([MINUS] + Magnitude(digits, point))[1..] == Magnitude(digits, point);
    if 0 < point <= 21 {
      if point < |digits| { MiddleLayout(digits, point); } else { WholeLayout(digits, point); }
    } else if -6 < point <= 0 {
      SmallLayout(digits, point);
    } else {
      ExponentLayout(digits, point);
    }
  }

  // ---------- Objects ----------

  lemma ObjectPrints(members: seq<Entry<Json>>)
    ensures CanonicalText(Obj(members)) == ObjectText(SortByKey(CanonicalMembers(members)))
  {
  }

  lemma {:induction false} CanonicalMembersAt(members: seq<Entry<Json>>)
    ensures |CanonicalMembers(members)| == |members|
    ensures forall i :: 0 <= i < |members| ==>
      CanonicalMembers(members)[i] == Entry(members[i].key, CanonicalText(members[i].value))
  {
    hide CanonicalText;
    if members != [] { CanonicalMembersAt(members[1..]); }
  }

  /** The members of an object are printed in rising order of their keys, each once. */
  lemma ObjectTextIs(members: seq<Entry<Json>>) returns (printed: seq<Entry<Utf16>>)
    requires DistinctKeys(members)
    ensures CanonicalText(Obj(members)) == ObjectText(printed)
    ensures StrictlySorted(printed) && |printed| == |members|
    ensures forall i :: 0 <= i < |members| ==> Entry(members[i].key, CanonicalText(members[i].value)) in printed
  {
    hide CanonicalText;
    var texts := CanonicalMembers(members);
    printed := SortByKey(texts);
    assert CanonicalText(Obj(members)) == ObjectText(printed) by { ObjectPrints(members); }
    CanonicalMembersAt(members);
    SortSorts(texts);
    SortMembers(texts);
    assert |printed| == |multiset(printed)| == |multiset(texts)| == |texts|;
    forall i | 0 <= i < |members|
      ensures texts[i] in printed
    {
      assert texts[i] in multiset(printed);
    }
  }
}
