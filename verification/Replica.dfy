/** Records of the local replica: authoritative records and the overlays of pending intent. */
module Replica {
  import opened Text
  import opened Wrappers

  /** A stored value as far as the source looks into it; `Whole` is a safe integer, `Other` any
      other number, an array or an object. */
  datatype Value = Undefined | Null | Flag(b: bool) | Whole(n: int) | Str(s: Utf16) | Other(token: nat)

  // JavaScript's `a ?? b`.
  function Coalesce(a: Value, b: Value): Value {
    if a.Undefined? || a.Null? then b else a
  }

  /** A field clock: missing or null, not an object, or an object in the local or the server spelling. */
  datatype Clock =
    | NoClock
    | NotAnObject
    | Clock(actionAt: Value, winningTime: Value, mutationId: Value, winningId: Value)

  // The clock `{ mutationId, actionAt }` a winning write leaves.
  function LocalClock(mutationId: Utf16, actionAt: Utf16): Clock {
    Clock(Str(actionAt), Undefined, Str(mutationId), Undefined)
  }

  datatype Lifecycle = Active | Retired | Tombstone

  datatype Record = Record(
    lifecycle: Lifecycle,
    fields: map<string, Value>,
    fieldClocks: map<string, Clock>,
    updatedAt: Utf16)

  datatype Key = Key(userId: Utf16, organizationId: Utf16, entityType: string, entityId: Utf16)

  datatype Command = Command(id: Utf16, actionAt: Utf16, payload: map<string, Value>)

  // `values[f]`
  function ValueIn(values: map<string, Value>, f: string): Value {
    if f in values then values[f] else Undefined
  }

  function Field(r: Record, f: string): Value {
    ValueIn(r.fields, f)
  }

  function PayloadValue(c: Command, f: string): Value {
    ValueIn(c.payload, f)
  }

  function ClockOf(r: Record, f: string): Clock {
    if f in r.fieldClocks then r.fieldClocks[f] else NoClock
  }

  // Records that agree in everything but the time of their last change.
  predicate SameRecord(a: Record, b: Record) {
    a == b.(updatedAt := a.updatedAt)
  }

  predicate SameOverlay(a: Option<Record>, b: Option<Record>) {
    a == b || (a.Some? && b.Some? && SameRecord(a.value, b.value))
  }

  ghost predicate DistinctCommandIds(cs: seq<Command>) {
    forall c, d :: c in cs && d in cs && c.id == d.id ==> c == d
  }

  // The text form of a UUID, hexadecimal digits of either case.
  predicate IsUuid(s: Utf16) {
    |s| == 36 && forall i | 0 <= i < 36 ::
      if i == 8 || i == 13 || i == 18 || i == 23 then s[i] == 0x2D else IsHexDigit(s[i])
  }

  predicate IsHexDigit(u: Unit) {
    0x30 <= u <= 0x39 || 0x61 <= u <= 0x66 || 0x41 <= u <= 0x46
  }

  predicate IsAlphanumeric(u: Unit) {
    0x30 <= u <= 0x39 || 0x41 <= u <= 0x5A || 0x61 <= u <= 0x7A
  }

  // 1 to 255 ASCII letters and digits.
  predicate IsPositionKey(s: Utf16) {
    1 <= |s| <= 255 && forall i | 0 <= i < |s| :: IsAlphanumeric(s[i])
  }

  // The entries outside the listed names.
  function Except<V>(m: map<string, V>, names: seq<string>): map<string, V> {
    map f | f in m && f !in names :: m[f]
  }

  lemma SameLookups<V>(m: map<string, V>, n: map<string, V>)
    requires forall f: string :: Lookup(m, f) == Lookup(n, f)
    ensures m == n
  {
    forall f | f in m
      ensures f in n && m[f] == n[f]
    {
      assert Lookup(m, f) == Lookup(n, f);
    }
    forall f | f in n
      ensures f in m
    {
      assert Lookup(m, f) == Lookup(n, f);
    }
  }
}
