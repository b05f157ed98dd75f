/** Event metadata: commands replayed field by field onto the overlay of an event. */
module EventMetadata {
  import opened Text
  import opened Wrappers
  import opened Digits
  import opened Replica
  import Calendar

  /** What the source takes from its host: reading a timestamp to microseconds, the Unicode
      normalisations, and `String(value)` of a value that is not a string. */
  datatype Host = Host(
    micros: Utf16 -> Option<int>,
    trimmed: Utf16 -> Utf16,
    unixLines: Utf16 -> Utf16,
    show: Value -> Utf16)

  const LEGACY_FIELDS: seq<string> := ["name", "location", "budget_amount", "general_note"]
  const FIELDS: seq<string> := LEGACY_FIELDS + ["start_date", "end_date"]
  const NUL: Unit := 0

  // ---------- Clocks ----------

  function TimestampMicros(host: Host, v: Value): Option<int> {
    if v.Str? then host.micros(v.s) else None
  }

  predicate Wins(host: Host, clock: Clock, mutationId: Utf16, actionAt: Utf16) {
    match clock
    case NoClock => true
    case NotAnObject => false
    case Clock(_, _, _, _) =>
      var currentAt := Coalesce(clock.actionAt, clock.winningTime);
      var currentId := Coalesce(clock.mutationId, clock.winningId);
      var candidate := host.micros(actionAt);
      var current := TimestampMicros(host, currentAt);
      && currentId.Str? && IsUuid(currentId.s)
      && candidate.Some? && current.Some?
      && (candidate.value > current.value || (candidate.value == current.value && Less(currentId.s, mutationId)))
  }

  // ---------- Field values ----------

  predicate NoBadUnits(s: Utf16) {
    forall i | 0 <= i < |s| :: s[i] != NUL && !IsSurrogate(s[i])
  }

  function NameValue(host: Host, s: Utf16): Option<Utf16> {
    var normalized := host.trimmed(s);
    if normalized != [] && |normalized| <= 200 && NoBadUnits(normalized) then Some(normalized) else None
  }

  // `None` is undefined; an empty text becomes null.
  function OptionalText(normalized: Utf16, limit: nat): Option<Value> {
    if |normalized| <= limit && NoBadUnits(normalized)
    then Some(if normalized == [] then Null else Str(normalized)) else None
  }

  function LocationValue(host: Host, v: Value): Option<Value> {
    if v.Null? then Some(Null) else if !v.Str? then None else OptionalText(host.trimmed(v.s), 300)
  }

  function NoteValue(host: Host, v: Value): Option<Value> {
    if v.Null? then Some(Null) else if !v.Str? then None else OptionalText(host.unixLines(v.s), 4000)
  }

  // A decimal without sign or leading zeros, with digits after any point.
  predicate IsDecimal(s: Utf16) {
    var whole := DigitRun(s);
    && 0 < whole && (s[0] == ZERO ==> whole == 1)
    && (whole == |s| || (s[whole] == 0x2E && whole + 1 < |s| && AllDigits(s[whole + 1..])))
  }

  predicate IsBudget(s: Utf16) {
    |s| <= 100 && IsDecimal(s)
  }

  datatype Input = Input(name: Utf16, location: Utf16, budgetAmount: Utf16, generalNote: Utf16, startDate: Utf16,
        endDate: Utf16)

  function Values(host: Host, input: Input, includeDates: bool): Option<map<string, Value>> {
    var name := NameValue(host, input.name);
    var location := LocationValue(host, Str(input.location));
    var note := NoteValue(host, Str(input.generalNote));
    var start := Calendar.ParseCalendarDate(input.startDate);
    var end := Calendar.ParseCalendarDate(input.endDate);
    if name.None? || location.None? || note.None? || !IsBudget(input.budgetAmount) then None
    else if includeDates && (start.None? || end.None? || Calendar.MetadataRangeRejected(start.value, end.value)) then
      None
    else
      var plain := map["name" := Str(name.value), "location" := location.value,
          "budget_amount" := Str(input.budgetAmount), "general_note" := note.value];
      Some(if includeDates then plain["start_date" := Str(start.value)]["end_date" := Str(end.value)] else plain)
  }

  // ---------- Applying ----------

  // The visible event, when metadata may still change.
  function CurrentEvent(canonical: Option<Record>, overlay: Option<Record>, k: Key): Option<Record> {
    if canonical.Some? && canonical.value.lifecycle == Retired then None
    else
      var event := OrElse(overlay, canonical);
      if event.Some? && event.value.lifecycle == Active
         && Field(event.value, "lifecycle") == Str(AsciiText("active"))
         && Field(event.value, "id") == Str(k.entityId)
         && Field(event.value, "organization_id") == Str(k.organizationId)
      then event else None
  }

  function Winning(host: Host, event: Record, mutationId: Utf16, actionAt: Utf16, selected: seq<string>): set<string> {
    set f | f in selected && Wins(host, ClockOf(event, f), mutationId, actionAt)
  }

  function NewValues(winning: set<string>, values: map<string, Value>): map<string, Value> {
    map f | f in winning :: ValueIn(values, f)
  }

  function NewClocks(winning: set<string>, mutationId: Utf16, actionAt: Utf16): map<string, Clock> {
    map f | f in winning :: LocalClock(mutationId, actionAt)
  }

  // The event after the winning fields took the new values and clocks.
  function Merge(event: Record, winning: set<string>, values: map<string, Value>, mutationId: Utf16,
        actionAt: Utf16): Record
  {
    event.(
      fields := event.fields + NewValues(winning, values),
      fieldClocks := event.fieldClocks + NewClocks(winning, mutationId, actionAt))
  }

  lemma AddOne<V>(m: map<string, V>, additions: map<string, V>, f: string, v: V)
    ensures m + additions[f := v] == (m + additions)[f := v]
  {
  }

  lemma MergeOneMore(event: Record, winning: set<string>, f: string, values: map<string, Value>, mutationId: Utf16,
        actionAt: Utf16)
    ensures var before, after := Merge(event, winning, values, mutationId, actionAt),
                Merge(event, winning + {f}, values, mutationId, actionAt);
      after == before.(fields := before.fields[f := ValueIn(values, f)],
        fieldClocks := before.fieldClocks[f := LocalClock(mutationId, actionAt)])
  {
    hide ValueIn, LocalClock;
    assert NewValues(winning + {f}, values) == NewValues(winning, values)[f := ValueIn(values, f)];
    assert NewClocks(winning + {f}, mutationId, actionAt)
      == NewClocks(winning, mutationId, actionAt)[f := LocalClock(mutationId, actionAt)];
    AddOne(event.fields, NewValues(winning, values), f, ValueIn(values, f));
    AddOne(event.fieldClocks, NewClocks(winning, mutationId, actionAt), f, LocalClock(mutationId, actionAt));
  }

  lemma MergeNothing(event: Record, values: map<string, Value>, mutationId: Utf16, actionAt: Utf16)
    ensures Merge(event, {}, values, mutationId, actionAt) == event
  {
  }

  lemma ClockUntouched(event: Record, winning: set<string>, f: string, values: map<string, Value>, mutationId: Utf16,
        actionAt: Utf16)
    requires f !in winning
    ensures ClockOf(Merge(event, winning, values, mutationId, actionAt), f) == ClockOf(event, f)
  {
  }

  // The overlay after `apply`.
  function Applied(host: Host, canonical: Option<Record>, overlay: Option<Record>, k: Key, values: map<string, Value>,
                   mutationId: Utf16, actionAt: Utf16, selected: seq<string>): Option<Record> {
    var event := CurrentEvent(canonical, overlay, k);
    if event.None? then overlay
    else
      var winning := Winning(host, event.value, mutationId, actionAt, selected);
      if winning == {} then overlay
      else Some(Merge(event.value, winning, values, mutationId, actionAt).(updatedAt := actionAt))
  }

  // ---------- Replaying ----------

  function ToText(host: Host, v: Value): Utf16 {
    if v.Str? then v.s else host.show(v)
  }

  predicate IsLegacy(c: Command) {
    c.payload.Keys == {"event_id", "name", "location", "budget_amount", "general_note"}
  }

  predicate IsModern(c: Command) {
    c.payload.Keys == {"event_id", "name", "location", "budget_amount", "general_note", "start_date", "end_date"}
  }

  function CommandInput(host: Host, c: Command): Input {
    Input(
      ToText(host, Coalesce(PayloadValue(c, "name"), Str([]))),
      if PayloadValue(c, "location").Null? then [] else ToText(host, Coalesce(PayloadValue(c, "location"), Str([NUL]))),
      ToText(host, Coalesce(PayloadValue(c, "budget_amount"), Str([]))),
      if PayloadValue(c, "general_note").Null? then []
      else ToText(host, Coalesce(PayloadValue(c, "general_note"), Str([NUL]))),
      ToText(host, Coalesce(PayloadValue(c, "start_date"), Str([]))),
      ToText(host, Coalesce(PayloadValue(c, "end_date"), Str([]))))
  }

  // What an accepted command writes; `None` for a command the replay ignores.
  function Accepted(host: Host, c: Command): Option<map<string, Value>> {
    if !IsUuid(c.id) || host.micros(c.actionAt).None? || !IsUuid(ToText(host, PayloadValue(c, "event_id"))) then None
    else if !IsLegacy(c) && !IsModern(c) then None
    else
      var modern := IsModern(c);
      var normalized := Values(host, CommandInput(host, c), modern);
      var location, note := PayloadValue(c, "location"), PayloadValue(c, "general_note");
      if normalized.None?
         || (!location.Null? && LocationValue(host, location) != Some(location))
         || (!note.Null? && NoteValue(host, note) != Some(note))
         || PayloadValue(c, "name") != normalized.value["name"]
         || PayloadValue(c, "budget_amount") != normalized.value["budget_amount"]
         || (modern &&
             (PayloadValue(c, "start_date") != normalized.value["start_date"]
              || PayloadValue(c, "end_date") != normalized.value["end_date"]))
      then None else normalized
  }

  function Selected(c: Command): seq<string> {
    if IsModern(c) then FIELDS else LEGACY_FIELDS
  }

  function EventKey(host: Host, userId: Utf16, organizationId: Utf16, c: Command): Key {
    Key(userId, organizationId, "event", ToText(host, PayloadValue(c, "event_id")))
  }

  // What one replayed command does to the overlay stored under `k`.
  function ReplayAt(host: Host, userId: Utf16, organizationId: Utf16, canonical: Option<Record>,
        overlay: Option<Record>, k: Key, c: Command): Option<Record>
  {
    var values := Accepted(host, c);
    if values.None? || k != EventKey(host, userId, organizationId, c) then overlay
    else Applied(host, canonical, overlay, k, values.value, c.id, c.actionAt, Selected(c))
  }

  /** The two tables and the replay as the source runs it, one command at a time. */
  class EventReplica {
    const host: Host
    var canonicalRecords: map<Key, Record>
    var optimisticOverlays: map<Key, Record>

    constructor (host: Host, canonicalRecords: map<Key, Record>, optimisticOverlays: map<Key, Record>)
      ensures this.host == host
      ensures this.canonicalRecords == canonicalRecords && this.optimisticOverlays == optimisticOverlays
    {
      this.host := host;
      this.canonicalRecords := canonicalRecords;
      this.optimisticOverlays := optimisticOverlays;
    }

    method Apply(k: Key, values: map<string, Value>, mutationId: Utf16, actionAt: Utf16, selected: seq<string>)
      returns (changed: bool)
      requires forall i, j :: 0 <= i < j < |selected| ==> selected[i] != selected[j]
      modifies this`optimisticOverlays
      ensures Lookup(optimisticOverlays, k) == Applied(host, Lookup(canonicalRecords, k),
        Lookup(old(optimisticOverlays), k), k, values, mutationId, actionAt, selected)
      ensures forall other :: other != k ==> Lookup(optimisticOverlays, other) == Lookup(old(optimisticOverlays), other)
      ensures var event := CurrentEvent(Lookup(canonicalRecords, k), Lookup(old(optimisticOverlays), k), k);
        changed <==> event.Some? && Winning(host, event.value, mutationId, actionAt, selected) != {}
    {
      hide CurrentEvent, Wins, LocalClock, Merge, ValueIn;
      var event := CurrentEvent(Lookup(canonicalRecords, k), Lookup(optimisticOverlays, k), k);
      if event.None? { return false; }
      var nextFields := event.value.fields;
      var nextClocks := event.value.fieldClocks;
      changed := false;
      ghost var winning: set<string> := {};
      MergeNothing(event.value, values, mutationId, actionAt);
      for i := 0 to |selected|
        invariant winning == set f | f in selected[..i] && Wins(host, ClockOf(event.value, f), mutationId, actionAt)
        invariant Merge(event.value, winning, values, mutationId, actionAt) ==
          event.value.(fields := nextFields, fieldClocks := nextClocks)
        invariant changed <==> winning != {}
        invariant optimisticOverlays == old(optimisticOverlays)
      {
        var field := selected[i];
        assert field !in selected[..i];
        assert selected[..i + 1] == selected[..i] + [field];
        var clock := if field in nextClocks then nextClocks[field] else NoClock;
        ClockUntouched(event.value, winning, field, values, mutationId, actionAt);
        if Wins(host, clock, mutationId, actionAt) {
          MergeOneMore(event.value, winning, field, values, mutationId, actionAt);
          nextFields := nextFields[field := ValueIn(values, field)];
          nextClocks := nextClocks[field := LocalClock(mutationId, actionAt)];
          changed := true;
          winning := winning + {field};
        }
      }
      assert selected[..|selected|] == selected;
      assert winning == Winning(host, event.value, mutationId, actionAt, selected);
      if changed {
        var next := event.value.(fields := nextFields, fieldClocks := nextClocks, updatedAt := actionAt);
        optimisticOverlays := optimisticOverlays[k := next];
      }
    }

    method ReplayEventMetadataUpdate(userId: Utf16, organizationId: Utf16, c: Command)
      modifies this`optimisticOverlays
      ensures forall k ::
        Lookup(optimisticOverlays, k)
        == ReplayAt(host, userId, organizationId, Lookup(canonicalRecords, k), Lookup(old(optimisticOverlays), k), k, c)
    {
      hide Accepted, Applied;
      var values := Accepted(host, c);
      if values.None? { return; }
      var _ := Apply(EventKey(host, userId, organizationId, c), values.value, c.id, c.actionAt, Selected(c));
    }
  }
}
