/** JavaScript strings: sequences of UTF-16 code units, compared unit by unit. */
module Text {

  type Unit = x: int | 0 <= x < 0x1_0000
  type Utf16 = seq<Unit>

  // The code unit of an ASCII character.
  function Ascii(c: char): Unit
    requires c < '\U{0080}'
  {
    c as int
  }

  function AsciiText(s: string): Utf16
    requires forall i :: 0 <= i < |s| ==> s[i] < '\U{0080}'
  {
    seq(|s|, i requires 0 <= i < |s| => Ascii(s[i]))
  }

  predicate IsLead(u: Unit) { 0xD800 <= u <= 0xDBFF }

  predicate IsTrail(u: Unit) { 0xDC00 <= u <= 0xDFFF }

  predicate IsSurrogate(u: Unit) { 0xD800 <= u <= 0xDFFF }

  // True when the text begins with one character written as a surrogate pair.
  predicate StartsWithPair(s: Utf16) {
    |s| >= 2 && IsLead(s[0]) && IsTrail(s[1])
  }

  // The spread `[...s]`: one element per code point, a lone surrogate standing alone.
  function Characters(s: Utf16): seq<Utf16> {
    if s == [] then []
    else if StartsWithPair(s) then [s[..2]] + Characters(s[2..])
    else [s[..1]] + Characters(s[1..])
  }

  function Flatten(parts: seq<Utf16>): Utf16 {
    if parts == [] then [] else parts[0] + Flatten(parts[1..])
  }

  lemma {:induction false} CharactersFlatten(s: Utf16)
    ensures Flatten(Characters(s)) == s
  {
    if s == [] {
    } else if StartsWithPair(s) {
      CharactersFlatten(s[2..]);
      assert Characters(s)[1..] == Characters(s[2..]);
      assert s == s[..2] + s[2..];
    } else {
      CharactersFlatten(s[1..]);
      assert Characters(s)[1..] == Characters(s[1..]);
      assert s == s[..1] + s[1..];
    }
  }

  // Splitting into characters loses nothing, so it tells different strings apart.
  lemma CharactersInjective(a: Utf16, b: Utf16)
    ensures Characters(a) == Characters(b) <==> a == b
  {
    CharactersFlatten(a);
    CharactersFlatten(b);
  }

  // The `<` of JavaScript strings.
  predicate Less(a: Utf16, b: Utf16) {
    b != [] && (a == [] || a[0] < b[0] || (a[0] == b[0] && Less(a[1..], b[1..])))
  }

  predicate AtMost(a: Utf16, b: Utf16) {
    a == b || Less(a, b)
  }

  lemma {:induction false} LessTrichotomy(a: Utf16, b: Utf16)
    ensures Less(a, b) || Less(b, a) || a == b
    ensures !(Less(a, b) && Less(b, a))
    ensures a == b ==> !Less(a, b)
  {
    if a != [] && b != [] {
      LessTrichotomy(a[1..], b[1..]);
      if a[0] == b[0] && a[1..] == b[1..] {
        assert a == [a[0]] + a[1..] == b;
      }
    }
  }

  lemma {:induction false} LessTransitive(a: Utf16, b: Utf16, c: Utf16)
    requires Less(a, b) && Less(b, c)
    ensures Less(a, c)
  {
    if a != [] && a[0] == b[0] == c[0] {
      LessTransitive(a[1..], b[1..], c[1..]);
    }
  }

  // Equally long first parts decide first.
  lemma {:induction false} LessConcat(a: Utf16, b: Utf16, c: Utf16, d: Utf16)
    requires |a| == |c|
    ensures Less(a + b, c + d) <==> Less(a, c) || (a == c && Less(b, d))
  {
    if a == [] {
      assert a + b == b && c + d == d;
    } else {
      LessConcat(a[1..], b, c[1..], d);
      assert (a + b)[1..] == a[1..] + b && (c + d)[1..] == c[1..] + d;
      assert a == [a[0]] + a[1..] && c == [c[0]] + c[1..];
    }
  }

  // The texts agree up to the i-th code unit, where the first one is smaller.
  ghost predicate DifferAt(a: Utf16, b: Utf16, i: nat) {
    i < |a| && i < |b| && a[..i] == b[..i] && a[i] < b[i]
  }

  lemma DifferLater(a: Utf16, b: Utf16, i: nat)
    requires a != [] && b != [] && a[0] == b[0]
    ensures DifferAt(a[1..], b[1..], i) <==> DifferAt(a, b, i + 1)
  {
    if i < |a[1..]| && i < |b[1..]| {
      assert a[..i + 1] == [a[0]] + a[1..][..i] && b[..i + 1] == [b[0]] + b[1..][..i];
      assert a[..i + 1][1..] == a[1..][..i] && b[..i + 1][1..] == b[1..][..i];
    }
  }

  /** The order is by the first code unit that differs, a proper beginning coming first. */
  lemma {:induction false} LessIsFirstDifference(a: Utf16, b: Utf16)
    ensures Less(a, b) <==> (a <= b && a != b) || exists i: nat :: DifferAt(a, b, i)
  {
    if a != [] && b != [] {
      var a', b' := a[1..], b[1..];
      assert a == [a[0]] + a' && b == [b[0]] + b';
      if a[0] == b[0] {
        LessIsFirstDifference(a', b');
        if i: nat :| DifferAt(a', b', i) { DifferLater(a, b, i); }
        if i: nat :| DifferAt(a, b, i) {
          assert i > 0;
          DifferLater(a, b, i - 1);
        }
      } else {
        if a[0] < b[0] { assert DifferAt(a, b, 0); }
        if i: nat :| DifferAt(a, b, i) && i > 0 { assert a[..i][0] == b[..i][0]; }
      }
    } else if b != [] {
      assert a <= b;
    }
  }

  // The code units of one character beyond the first 65536: section 3.9 of the Unicode standard.
  predicate IsPair(a: Unit, b: Unit) {
    0xD800 <= a < 0xDC00 <= b < 0xE000
  }

  /** The characters of a string are single code units and surrogate pairs, with no pair left apart. */
  lemma {:induction false} CharactersAre(s: Utf16)
    ensures Flatten(Characters(s)) == s
    ensures forall k :: 0 <= k < |Characters(s)| ==>
      |Characters(s)[k]| == 1 || (|Characters(s)[k]| == 2 && IsPair(Characters(s)[k][0], Characters(s)[k][1]))
    ensures forall k :: 0 <= k < |Characters(s)| - 1 && |Characters(s)[k]| == 1 ==>
      !IsPair(Characters(s)[k][0], Characters(s)[k + 1][0])
  {
    CharactersFlatten(s);
    if s != [] {
      var n := if StartsWithPair(s) then 2 else 1;
      var rest := Characters(s[n..]);
      CharactersAre(s[n..]);
      assert Characters(s) == [s[..n]] + rest;
      if rest != [] { assert rest[0][0] == s[n]; }
    }
  }
}
