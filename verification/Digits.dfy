/** Decimal digits as code units, and the numbers they write. */
module Digits {
  import opened Text

  const ZERO: Unit := 0x30

  predicate IsDigit(u: Unit) { 0x30 <= u <= 0x39 }

  predicate AllDigits(s: Utf16) { forall i | 0 <= i < |s| :: IsDigit(s[i]) }

  function DigitOf(d: nat): Unit
    requires d < 10
  {
    ZERO + d
  }

  function DigitValue(u: Unit): nat
    requires IsDigit(u)
  {
    u - ZERO
  }

  function NatText(n: nat): (s: Utf16)
    ensures s != [] && AllDigits(s)
  {
    if n < 10 then [DigitOf(n)] else NatText(n / 10) + [DigitOf(n % 10)]
  }

  function ReadNat(s: Utf16): nat
    requires AllDigits(s)
  {
    if s == [] then 0
    else
      ReadNat(s[..|s| - 1]) * 10 + DigitValue(s[|s| - 1])
  }

  // How many digits a text starts with.
  function DigitRun(s: Utf16): (n: nat)
    ensures n <= |s| && AllDigits(s[..n])
  {
    if s == [] || !IsDigit(s[0]) then 0
    else
      var n := DigitRun(s[1..]);
      assert forall i :: 1 <= i < 1 + n ==> s[i] == s[1..][..n][i - 1];
      1 + n
  }

  lemma {:induction false} ReadNatText(n: nat)
    ensures ReadNat(NatText(n)) == n
  {
    if n >= 10 {
      ReadNatText(n / 10);
      assert NatText(n)[..|NatText(n)| - 1] == NatText(n / 10);
    }
  }

  // Between equally long digit strings, text order is number order.
  lemma {:induction false} DigitOrder(a: Utf16, b: Utf16)
    requires AllDigits(a) && AllDigits(b) && |a| == |b|
    ensures Less(a, b) <==> ReadNat(a) < ReadNat(b)
    ensures a == b <==> ReadNat(a) == ReadNat(b)
  {
    if a != [] {
      var a', b' := a[..|a| - 1], b[..|b| - 1];
      DigitOrder(a', b');
      assert a == a' + [a[|a| - 1]] && b == b' + [b[|b| - 1]];
      LessConcat(a', [a[|a| - 1]], b', [b[|b| - 1]]);
    }
  }
}
