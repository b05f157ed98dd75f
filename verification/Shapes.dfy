/** The shapes of texts the source tests with regular expressions, taken apart piece by piece. */
module Shapes {
  import opened Text
  import opened Digits
  import opened Replica

  ghost predicate Between(u: Unit, first: char, last: char) {
    first as int <= u <= last as int
  }

  ghost predicate OnlyDigits(s: Utf16) {
    forall i :: 0 <= i < |s| ==> Between(s[i], '0', '9')
  }

  ghost predicate OnlyHex(s: Utf16) {
    forall i :: 0 <= i < |s| ==> Between(s[i], '0', '9') || Between(s[i], 'a', 'f') || Between(s[i], 'A', 'F')
  }

  ghost predicate OnlyLettersAndDigits(s: Utf16) {
    forall i :: 0 <= i < |s| ==> Between(s[i], '0', '9') || Between(s[i], 'a', 'z') || Between(s[i], 'A', 'Z')
  }

  // Five groups of hexadecimal digits joined by hyphens.
  ghost predicate HexGroups(s: Utf16, a: Utf16, b: Utf16, c: Utf16, d: Utf16, e: Utf16) {
    && s == a + AsciiText("-") + b + AsciiText("-") + c + AsciiText("-") + d + AsciiText("-") + e
    && |a| == 8 && |b| == 4 && |c| == 4 && |d| == 4 && |e| == 12
    && OnlyHex(a + b + c + d + e)
  }

  lemma GroupsAreUuid(s: Utf16, a: Utf16, b: Utf16, c: Utf16, d: Utf16, e: Utf16)
    requires HexGroups(s, a, b, c, d, e)
    ensures IsUuid(s)
  {
    var all := a + b + c + d + e;
    forall i | 0 <= i < 36
      ensures if i == 8 || i == 13 || i == 18 || i == 23 then s[i] == 0x2D else IsHexDigit(s[i])
    {
      if i != 8 && i != 13 && i != 18 && i != 23 {
        var k := if i < 8 then i else if i < 13 then i - 1 else if i < 18 then i - 2 else if i < 23 then i - 3
          else i - 4;
        assert s[i] == all[k];
      }
    }
  }

  lemma UuidPieces(s: Utf16)
    requires |s| == 36 && s[8] == s[13] == s[18] == s[23] == 0x2D
    ensures s == s[..8] + [0x2D] + s[9..13] + [0x2D] + s[14..18] + [0x2D] + s[19..23] + [0x2D] + s[24..]
  {
    assert s[..13] == s[..8] + [0x2D] + s[9..13];
    assert s[..18] == s[..13] + [0x2D] + s[14..18];
    assert s[..23] == s[..18] + [0x2D] + s[19..23];
    assert s == s[..23] + [0x2D] + s[24..];
  }

  lemma UuidAreGroups(s: Utf16)
    requires IsUuid(s)
    ensures HexGroups(s, s[..8], s[9..13], s[14..18], s[19..23], s[24..])
  {
    UuidPieces(s);
    assert AsciiText("-") == [0x2D];
    var all := s[..8] + s[9..13] + s[14..18] + s[19..23] + s[24..];
    forall i | 0 <= i < |all|
      ensures IsHexDigit(all[i])
    {
      var k := if i < 8 then i else if i < 12 then i + 1 else if i < 16 then i + 2 else if i < 20 then i + 3 else i + 4;
      assert all[i] == s[k];
    }
  }

  /** A UUID is eight, four, four, four and twelve hexadecimal digits with hyphens between. */
  lemma UuidIs(s: Utf16)
    ensures IsUuid(s) <==> exists a, b, c, d, e :: HexGroups(s, a, b, c, d, e)
  {
    if IsUuid(s) { UuidAreGroups(s); }
    if a, b, c, d, e :| HexGroups(s, a, b, c, d, e) { GroupsAreUuid(s, a, b, c, d, e); }
  }

  /** A position key is 1 to 255 ASCII letters and digits. */
  lemma PositionKeyIs(s: Utf16)
    ensures IsPositionKey(s) <==> 1 <= |s| <= 255 && OnlyLettersAndDigits(s)
  {
  }

  // Neither U+0000 nor a surrogate.
  ghost predicate Clean(s: Utf16) {
    forall i :: 0 <= i < |s| ==> s[i] != 0 && !(0xD800 <= s[i] <= 0xDFFF)
  }

  ghost predicate DecimalParts(s: Utf16, whole: Utf16, fraction: Utf16) {
    && whole != [] && OnlyDigits(whole) && OnlyDigits(fraction) && (whole[0] == Ascii('0') ==> |whole| == 1)
    && s == if fraction == [] then whole else whole + AsciiText(".") + fraction
  }

  // Digits without a leading zero, and more digits after a point, if there is one.
  ghost predicate PlainDecimal(s: Utf16) {
    exists whole, fraction :: DecimalParts(s, whole, fraction)
  }

  lemma {:induction false} DigitRunIs(whole: Utf16, rest: Utf16)
    requires OnlyDigits(whole) && (rest == [] || !Between(rest[0], '0', '9'))
    ensures DigitRun(whole + rest) == |whole|
  {
    if whole == [] {
      assert whole + rest == rest;
    } else {
      assert (whole + rest)[1..] == whole[1..] + rest;
      DigitRunIs(whole[1..], rest);
    }
  }
}
