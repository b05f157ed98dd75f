/** The number and string texts of `JSON.stringify`, with readers that undo them. */
module JsonLexical {
  import opened Text
  import opened Wrappers
  import opened Digits

  const QUOTE: Unit := 0x22
  const BACKSLASH: Unit := 0x5C
  const MINUS: Unit := 0x2D
  const PLUS: Unit := 0x2B
  const DOT: Unit := 0x2E
  const EXPONENT: Unit := 0x65

  // ---------- Numbers ----------

  /** A finite double, named by its shortest decimal: `0.d1d2...dk` times ten to the power `point`,
      with `d1` and `dk` not zero (section 6.1.6.1.20 of ECMA-262). */
  datatype RawNumber = Zero(negative: bool) | Decimal(negative: bool, digits: Utf16, point: int)

  type Number = n: RawNumber | ValidNumber(n) witness Zero(false)

  predicate ValidNumber(n: RawNumber) {
    n.Decimal? ==> n.digits != [] && AllDigits(n.digits) && n.digits[0] != ZERO && n.digits[|n.digits| - 1] != ZERO
  }

  function Zeros(n: nat): (s: Utf16)
    ensures |s| == n && forall i :: 0 <= i < n ==> s[i] == ZERO
  {
    seq(n, _ => ZERO)
  }

  function Magnitude(digits: Utf16, point: int): Utf16
    requires digits != []
  {
    var k := |digits|;
    if k <= point <= 21 then digits + Zeros(point - k)
    else if 0 < point <= 21 then digits[..point] + [DOT] + digits[point..]
    else if -6 < point <= 0 then [ZERO, DOT] + Zeros(-point) + digits
    else
      var e := point - 1;
      var mantissa := if k == 1 then digits else digits[..1] + [DOT] + digits[1..];
      mantissa + [EXPONENT] + ExponentText(e)
  }

  function ExponentText(e: int): Utf16 {
    if e < 0 then [MINUS] + NatText(-e) else [PLUS] + NatText(e)
  }

  // `Number::toString`: both zeros print alike.
  function NumberText(n: Number): Utf16 {
    match n
    case Zero(_) => [ZERO]
    case Decimal(negative, digits, point) => (if negative then [MINUS] else []) + Magnitude(digits, point)
  }

  function Find(s: Utf16, u: Unit): (i: nat)
    ensures i <= |s|
    ensures i < |s| ==> s[i] == u
    ensures forall k :: 0 <= k < i ==> s[k] != u
  {
    if s == [] || s[0] == u then 0 else 1 + Find(s[1..], u)
  }

  function ReadExponent(s: Utf16): Option<int> {
    if |s| < 2 || !AllDigits(s[1..]) then None
    else
      var size: int := ReadNat(s[1..]);
      if s[0] == MINUS then Some(-size) else if s[0] == PLUS then Some(size) else None
  }

  function DropLeadingZeros(s: Utf16): Utf16 {
    if s != [] && s[0] == ZERO then DropLeadingZeros(s[1..]) else s
  }

  function DropTrailingZeros(s: Utf16): Utf16 {
    if s != [] && s[|s| - 1] == ZERO then DropTrailingZeros(s[..|s| - 1]) else s
  }

  // The number with digits `all` and the decimal point after `point` of them.
  function Normal(negative: bool, all: Utf16, point: int): RawNumber {
    var significant := DropLeadingZeros(all);
    if significant == [] then Zero(negative)
    else Decimal(negative, DropTrailingZeros(significant), point - (|all| - |significant|))
  }

  function ReadMantissa(negative: bool, mantissa: Utf16, exponent: int): Option<RawNumber> {
    var dot := Find(mantissa, DOT);
    var whole := mantissa[..dot];
    var fraction := if dot == |mantissa| then [] else mantissa[dot + 1..];
    if whole == [] || !AllDigits(whole) || !AllDigits(fraction) then None
    else Some(Normal(negative, whole + fraction, |whole| + exponent))
  }

  function ReadMagnitude(negative: bool, body: Utf16): Option<RawNumber> {
    var e := Find(body, EXPONENT);
    if e == |body| then ReadMantissa(negative, body, 0)
    else
      var exponent := ReadExponent(body[e + 1..]);
      if exponent.None? then None else ReadMantissa(negative, body[..e], exponent.value)
  }

  function ReadNumber(s: Utf16): Option<RawNumber> {
    if s != [] && s[0] == MINUS then ReadMagnitude(true, s[1..]) else ReadMagnitude(false, s)
  }

  lemma FindAfter(a: Utf16, u: Unit, b: Utf16)
    requires u !in a
    ensures Find(a + [u] + b, u) == |a|
    ensures Find(a, u) == |a|
  {
    var s := a + [u] + b;
    assert s[|a|] == u;
    assert forall k :: 0 <= k < |a| ==> s[k] == a[k];
  }

  lemma {:induction false} LeadingZeros(n: nat, s: Utf16)
    requires s != [] && s[0] != ZERO
    ensures DropLeadingZeros(Zeros(n) + s) == s
  {
    if n > 0 {
      assert (Zeros(n) + s)[1..] == Zeros(n - 1) + s;
      LeadingZeros(n - 1, s);
    } else {
      assert Zeros(0) + s == s;
    }
  }

  lemma {:induction false} TrailingZeros(s: Utf16, n: nat)
    requires s != [] && s[|s| - 1] != ZERO
    ensures DropTrailingZeros(s + Zeros(n)) == s
  {
    if n > 0 {
      var t := s + Zeros(n);
      assert t[..|t| - 1] == s + Zeros(n - 1);
      TrailingZeros(s, n - 1);
    } else {
      assert s + Zeros(0) == s;
    }
  }

  // Padding the digits with zeros on either side does not change the number read.
  lemma NormalPadded(negative: bool, left: nat, digits: Utf16, right: nat, point: int)
    requires digits != [] && digits[0] != ZERO && digits[|digits| - 1] != ZERO
    ensures Normal(negative, Zeros(left) + digits + Zeros(right), point) == Decimal(negative, digits, point - left)
  {
    var padded := digits + Zeros(right);
    assert Zeros(left) + digits + Zeros(right) == Zeros(left) + padded;
    LeadingZeros(left, padded);
    TrailingZeros(digits, right);
  }

  lemma ReadWhole(negative: bool, whole: Utf16, exponent: int)
    requires whole != [] && AllDigits(whole)
    ensures ReadMantissa(negative, whole, exponent) == Some(Normal(negative, whole, |whole| + exponent))
  {
    assert forall i :: 0 <= i < |whole| ==> IsDigit(whole[i]);
    FindAfter(whole, DOT, []);
    assert whole[..|whole|] == whole && whole + [] == whole;
  }

  lemma ReadFraction(negative: bool, whole: Utf16, fraction: Utf16, exponent: int)
    requires whole != [] && AllDigits(whole) && AllDigits(fraction)
    ensures ReadMantissa(negative, whole + [DOT] + fraction, exponent) ==
      Some(Normal(negative, whole + fraction, |whole| + exponent))
  {
    var mantissa := whole + [DOT] + fraction;
    assert forall i :: 0 <= i < |whole| ==> IsDigit(whole[i]);
    FindAfter(whole, DOT, fraction);
    assert mantissa[..|whole|] == whole && mantissa[|whole| + 1..] == fraction;
  }

  // Digits and points hold no exponent mark.
  predicate Plain(s: Utf16) {
    forall i | 0 <= i < |s| :: IsDigit(s[i]) || s[i] == DOT
  }

  lemma ReadPlain(negative: bool, body: Utf16)
    requires Plain(body)
    ensures ReadMagnitude(negative, body) == ReadMantissa(negative, body, 0)
  {
  }

  lemma ReadWithExponent(negative: bool, mantissa: Utf16, e: int)
    requires Plain(mantissa)
    ensures ReadMagnitude(negative, mantissa + [EXPONENT] + ExponentText(e)) == ReadMantissa(negative, mantissa, e)
  {
    hide ReadMantissa, Find, NatText;
    var body := mantissa + [EXPONENT] + ExponentText(e);
    assert EXPONENT !in mantissa;
    FindAfter(mantissa, EXPONENT, ExponentText(e));
    assert body[..|mantissa|] == mantissa && body[|mantissa| + 1..] == ExponentText(e);
    ReadNatText(if e < 0 then -e else e);
    assert ExponentText(e)[1..] == NatText(if e < 0 then -e else e);
  }

  // The two shapes without an exponent, their digits padded by zeros.
  lemma ReadPaddedWhole(negative: bool, digits: Utf16, right: nat)
    requires ValidNumber(Decimal(negative, digits, 0)) && digits != []
    ensures ReadMagnitude(negative, digits + Zeros(right)) == Some(Decimal(negative, digits, |digits| + right))
  {
    var whole := digits + Zeros(right);
    ReadPlain(negative, whole);
    ReadWhole(negative, whole, 0);
    NormalPadded(negative, 0, digits, right, |whole|);
    assert Zeros(0) + digits + Zeros(right) == whole;
  }

  lemma ReadPaddedFraction(negative: bool, digits: Utf16, left: nat, whole: Utf16, fraction: Utf16)
    requires ValidNumber(Decimal(negative, digits, 0))
    requires whole != [] && whole + fraction == Zeros(left) + digits
    ensures ReadMagnitude(negative, whole + [DOT] + fraction) == Some(Decimal(negative, digits, |whole| - left))
  {
    hide ReadMagnitude, ReadMantissa, Normal;
    assert forall i :: 0 <= i < |whole| ==> whole[i] == (whole + fraction)[i];
    assert forall i :: 0 <= i < |fraction| ==> fraction[i] == (whole + fraction)[|whole| + i];
    ReadPlain(negative, whole + [DOT] + fraction);
    ReadFraction(negative, whole, fraction, 0);
    NormalPadded(negative, left, digits, 0, |whole|);
    assert Zeros(left) + digits + Zeros(0) == whole + fraction;
  }

  // One digit before the point, and an exponent.
  lemma ReadScientific(negative: bool, digits: Utf16, e: int)
    requires ValidNumber(Decimal(negative, digits, 0))
    ensures var mantissa := if |digits| == 1 then digits else digits[..1] + [DOT] + digits[1..];
      ReadMagnitude(negative, mantissa + [EXPONENT] + ExponentText(e)) == Some(Decimal(negative, digits, 1 + e))
  {
    hide ReadMagnitude, ReadMantissa, ExponentText, Normal;
    NormalPadded(negative, 0, digits, 0, 1 + e);
    assert Zeros(0) + digits + Zeros(0) == digits;
    if |digits| == 1 {
      ReadWithExponent(negative, digits, e);
      ReadWhole(negative, digits, e);
    } else {
      ReadWithExponent(negative, digits[..1] + [DOT] + digits[1..], e);
      ReadFraction(negative, digits[..1], digits[1..], e);
      assert digits[..1] + digits[1..] == digits;
    }
  }

  lemma ReadMiddle(negative: bool, digits: Utf16, point: int)
    requires digits != [] && ValidNumber(Decimal(negative, digits, point)) && 0 < point <= 21 && point < |digits|
    ensures ReadMagnitude(negative, Magnitude(digits, point)) == Some(Decimal(negative, digits, point))
  {
    hide ReadMagnitude, AllDigits, Zeros;
    assert digits[..point] + digits[point..] == Zeros(0) + digits;
    ReadPaddedFraction(negative, digits, 0, digits[..point], digits[point..]);
  }

  lemma ReadSmall(negative: bool, digits: Utf16, point: int)
    requires digits != [] && ValidNumber(Decimal(negative, digits, point)) && -6 < point <= 0
    ensures ReadMagnitude(negative, Magnitude(digits, point)) == Some(Decimal(negative, digits, point))
  {
    hide ReadMagnitude, AllDigits, Zeros;
    var fraction := Zeros(-point) + digits;
    assert [ZERO] + fraction == Zeros(1 - point) + digits;
    ReadPaddedFraction(negative, digits, 1 - point, [ZERO], fraction);
    assert Magnitude(digits, point) == [ZERO] + [DOT] + fraction;
  }

  lemma ReadMagnitudeText(negative: bool, digits: Utf16, point: int)
    requires digits != [] && ValidNumber(Decimal(negative, digits, point))
    ensures ReadMagnitude(negative, Magnitude(digits, point)) == Some(Decimal(negative, digits, point))
  {
    hide ReadMagnitude, ExponentText, AllDigits, Zeros;
    if |digits| <= point <= 21 {
      ReadPaddedWhole(negative, digits, point - |digits|);
    } else if 0 < point <= 21 {
      ReadMiddle(negative, digits, point);
    } else if -6 < point <= 0 {
      ReadSmall(negative, digits, point);
    } else {
      ReadScientific(negative, digits, point - 1);
    }
  }

  lemma MagnitudeStart(digits: Utf16, point: int)
    requires digits != [] && AllDigits(digits)
    ensures Magnitude(digits, point) != [] && IsDigit(Magnitude(digits, point)[0])
  {
  }

  /** Reading what `JSON.stringify` prints gives the number back; only the sign of zero is lost. */
  lemma ReadNumberText(n: Number)
    ensures ReadNumber(NumberText(n)) == Some(if n.Zero? then Zero(false) else n)
  {
    match n
    case Zero(_) =>
      ReadPlain(false, [ZERO]);
      ReadWhole(false, [ZERO], 0);
      assert DropLeadingZeros([ZERO]) == [];
    case Decimal(negative, digits, point) =>
      var magnitude := Magnitude(digits, point);
      ReadMagnitudeText(negative, digits, point);
      MagnitudeStart(digits, point);
      if negative {
        assert ([MINUS] + magnitude)[1..] == magnitude;
      } else {
        assert [] + magnitude == magnitude;
      }
  }

  predicate IsNumberUnit(u: Unit) {
    IsDigit(u) || u == MINUS || u == PLUS || u == DOT || u == EXPONENT
  }

  lemma NumberTextUnits(n: Number)
    ensures NumberText(n) != [] && (NumberText(n)[0] == MINUS || IsDigit(NumberText(n)[0]))
    ensures forall i :: 0 <= i < |NumberText(n)| ==> IsNumberUnit(NumberText(n)[i])
  {
    if n.Decimal? {
      MagnitudeStart(n.digits, n.point);
      MagnitudeUnits(n.digits, n.point);
    }
  }

  lemma MagnitudeUnits(digits: Utf16, point: int)
    requires digits != [] && AllDigits(digits)
    ensures forall i :: 0 <= i < |Magnitude(digits, point)| ==> IsNumberUnit(Magnitude(digits, point)[i])
  {
  }

  // ---------- Strings ----------

  function HexDigit(d: nat): Unit
    requires d < 16
  {
    if d < 10 then 0x30 + d else 0x61 + (d - 10)
  }

  function HexValue(u: Unit): Option<nat> {
    if 0x30 <= u <= 0x39 then Some(u - 0x30)
    else if 0x61 <= u <= 0x66 then Some(u - 0x61 + 10)
    else if 0x41 <= u <= 0x46 then Some(u - 0x41 + 10)
    else None
  }

  function UnicodeEscape(u: Unit): Utf16 {
    var high := u / 16;
    var higher := high / 16;
    [BACKSLASH, 0x75, HexDigit(higher / 16), HexDigit(higher % 16), HexDigit(high % 16), HexDigit(u % 16)]
  }

  // The two-character escapes: backspace, tab, line feed, form feed, carriage return, quote, backslash.
  function ShortEscape(u: Unit): Option<Unit> {
    if u == 8 then Some(0x62) else if u == 9 then Some(0x74) else if u == 10 then Some(0x6E)
    else if u == 12 then Some(0x66) else if u == 13 then Some(0x72)
    else if u == QUOTE || u == BACKSLASH then Some(u) else None
  }

  function ShortUnescape(u: Unit): Option<Unit> {
    if u == 0x62 then Some(8) else if u == 0x74 then Some(9) else if u == 0x6E then Some(10)
    else if u == 0x66 then Some(12) else if u == 0x72 then Some(13)
    else if u == QUOTE || u == BACKSLASH || u == 0x2F then Some(u) else None
  }

  // One code unit that is not the start of a surrogate pair.
  function EscapeUnit(u: Unit): Utf16 {
    if ShortEscape(u).Some? then [BACKSLASH, ShortEscape(u).value]
    else if u < 0x20 || IsSurrogate(u) then UnicodeEscape(u)
    else [u]
  }

  function EscapeAll(s: Utf16): Utf16 {
    if s == [] then []
    else if StartsWithPair(s) then s[..2] + EscapeAll(s[2..])
    else EscapeUnit(s[0]) + EscapeAll(s[1..])
  }

  // `JSON.stringify` of a string: lone surrogates are escaped (section 25.5.4.3 of ECMA-262).
  function StringText(s: Utf16): Utf16 {
    [QUOTE] + EscapeAll(s) + [QUOTE]
  }

  function Prepend(u: Unit, r: Option<(Utf16, Utf16)>): Option<(Utf16, Utf16)> {
    match r
    case None => None
    case Some((s, rest)) => Some(([u] + s, rest))
  }

  function ReadHex4(a: Unit, b: Unit, c: Unit, d: Unit): Option<Unit> {
    match (HexValue(a), HexValue(b), HexValue(c), HexValue(d))
    case (Some(w), Some(x), Some(y), Some(z)) =>
      if w < 16 && x < 16 && y < 16 && z < 16 then Some(w * 0x1000 + x * 0x100 + y * 0x10 + z) else None
    case _ => None
  }

  // The string after an opening quote, and what follows its closing quote.
  function ReadString(t: Utf16): (r: Option<(Utf16, Utf16)>)
    ensures r.Some? ==> |r.value.1| < |t|
  {
    if t == [] || t[0] < 0x20 then None
    else if t[0] == QUOTE then Some(([], t[1..]))
    else if t[0] != BACKSLASH then Prepend(t[0], ReadString(t[1..]))
    else if |t| >= 2 && ShortUnescape(t[1]).Some? then Prepend(ShortUnescape(t[1]).value, ReadString(t[2..]))
    else if |t| >= 6 && t[1] == 0x75 && ReadHex4(t[2], t[3], t[4], t[5]).Some? then
      Prepend(ReadHex4(t[2], t[3], t[4], t[5]).value, ReadString(t[6..]))
    else None
  }

  lemma HexRoundTrip(w: nat, x: nat, y: nat, z: nat)
    requires w < 16 && x < 16 && y < 16 && z < 16
    ensures ReadHex4(HexDigit(w), HexDigit(x), HexDigit(y), HexDigit(z)) == Some(w * 0x1000 + x * 0x100 + y * 0x10 + z)
  {
  }

  lemma ReadUnicodeEscape(u: Unit, t: Utf16)
    ensures ReadString(UnicodeEscape(u) + t) == Prepend(u, ReadString(t))
  {
    var high := u / 16;
    var higher := high / 16;
    HexRoundTrip(higher / 16, higher % 16, high % 16, u % 16);
    var all := UnicodeEscape(u) + t;
    assert all[0] == BACKSLASH && all[1] == 0x75 && all[6..] == t;
  }

  lemma ReadEscapedUnit(u: Unit, t: Utf16)
    ensures ReadString(EscapeUnit(u) + t) == Prepend(u, ReadString(t))
  {
    if ShortEscape(u).Some? {
      var all := [BACKSLASH, ShortEscape(u).value] + t;
      assert all[0] == BACKSLASH && all[1] == ShortEscape(u).value && all[2..] == t;
    } else if u < 0x20 || IsSurrogate(u) {
      ReadUnicodeEscape(u, t);
    } else {
      ReadPlainUnit(u, t);
    }
  }

  lemma ReadPlainUnit(u: Unit, t: Utf16)
    requires u >= 0x20 && u != QUOTE && u != BACKSLASH
    ensures ReadString([u] + t) == Prepend(u, ReadString(t))
  {
  }

  lemma ReadClosingQuote(rest: Utf16)
    ensures ReadString([QUOTE] + rest) == Some(([], rest))
  {
  }

  lemma ReadPair(a: Unit, b: Unit, t: Utf16)
    requires IsLead(a) && IsTrail(b)
    ensures ReadString([a] + ([b] + t)) == Prepend(a, Prepend(b, ReadString(t)))
  {
  }

  lemma EscapeStep(s: Utf16, close: Utf16)
    requires s != []
    ensures EscapeAll(s) + close ==
      if StartsWithPair(s) then [s[0]] + ([s[1]] + (EscapeAll(s[2..]) + close))
      else EscapeUnit(s[0]) + (EscapeAll(s[1..]) + close)
  {
    hide EscapeUnit;
  }

  /** Reading an escaped string gives the string back, whatever follows its closing quote. */
  lemma {:induction false} ReadEscaped(s: Utf16, rest: Utf16)
    ensures ReadString(EscapeAll(s) + ([QUOTE] + rest)) == Some((s, rest))
  {
    hide EscapeUnit, ReadString;
    var close := [QUOTE] + rest;
    if s == [] {
      ReadClosingQuote(rest);
      assert EscapeAll(s) + close == close;
    } else if StartsWithPair(s) {
      ReadEscaped(s[2..], rest);
      EscapeStep(s, close);
      ReadPair(s[0], s[1], EscapeAll(s[2..]) + close);
      assert s == [s[0]] + ([s[1]] + s[2..]);
    } else {
      ReadEscaped(s[1..], rest);
      EscapeStep(s, close);
      ReadEscapedUnit(s[0], EscapeAll(s[1..]) + close);
      assert s == [s[0]] + s[1..];
    }
  }
}
