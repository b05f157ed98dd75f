/** Which event-metadata commands the replay accepts and what each does to an event, written out from
    the payload, and why the replay does exactly that. */
module EventRules {
  import opened Text
  import opened Digits
  import opened Wrappers
  import opened Replica
  import opened EventMetadata
  import opened EventQueue
  import opened Shapes
  import Calendar

  // ---------- Well-formed commands ----------

  // A text that is normal as it stands, of at most `limit` code units, and clean.
  ghost predicate Normal(normalize: Utf16 -> Utf16, s: Utf16, limit: nat) {
    normalize(s) == s && 1 <= |s| <= limit && Clean(s)
  }

  ghost predicate NullOrNormal(normalize: Utf16 -> Utf16, v: Value, limit: nat) {
    v.Null? || (v.Str? && Normal(normalize, v.s, limit))
  }

  // Two real dates, the second not before the first and at most 365 days after it.
  ghost predicate DateRange(start: Value, end: Value) {
    && start.Str? && end.Str?
    && Calendar.DateMilliseconds(start.s).Some? && Calendar.DateMilliseconds(end.s).Some?
    && 0 <= Calendar.DateMilliseconds(end.s).value - Calendar.DateMilliseconds(start.s).value <= 365 * 86_400_000
  }

  // The identity and the time of the command, and the id of its event.
  ghost predicate GoodIds(host: Host, c: Command, eventId: Utf16) {
    && IsUuid(c.id) && host.micros(c.actionAt).Some? && IsUuid(eventId)
    && (PayloadValue(c, "event_id") == Str(eventId)
        || (!PayloadValue(c, "event_id").Str? && host.show(PayloadValue(c, "event_id")) == eventId))
  }

  ghost predicate GoodTexts(host: Host, c: Command) {
    && PayloadValue(c, "name").Str? && Normal(host.trimmed, PayloadValue(c, "name").s, 200)
    && NullOrNormal(host.trimmed, PayloadValue(c, "location"), 300)
    && NullOrNormal(host.unixLines, PayloadValue(c, "general_note"), 4000)
    && PayloadValue(c, "budget_amount").Str?
    && |PayloadValue(c, "budget_amount").s| <= 100 && PlainDecimal(PayloadValue(c, "budget_amount").s)
  }

  ghost predicate LegacyCommand(host: Host, c: Command, eventId: Utf16) {
    && GoodIds(host, c, eventId) && GoodTexts(host, c)
    && c.payload.Keys == {"event_id", "name", "location", "budget_amount", "general_note"}
  }

  ghost predicate ModernCommand(host: Host, c: Command, eventId: Utf16) {
    && GoodIds(host, c, eventId) && GoodTexts(host, c)
    && c.payload.Keys ==
       {"event_id", "name", "location", "budget_amount", "general_note", "start_date", "end_date"}
    && DateRange(PayloadValue(c, "start_date"), PayloadValue(c, "end_date"))
  }

  // Normalizing nothing gives nothing.
  ghost predicate KeepsEmpty(host: Host) {
    host.trimmed([]) == [] && host.unixLines([]) == []
  }

  lemma CleanIs(s: Utf16)
    ensures NoBadUnits(s) <==> Clean(s)
  {
  }

  lemma NameIs(host: Host, s: Utf16)
    ensures NameValue(host, s) == Some(s) <==> Normal(host.trimmed, s, 200)
  {
    CleanIs(host.trimmed(s));
  }

  lemma LocationIs(host: Host, v: Value)
    requires v.Null? || v.Str?
    ensures v.Null? || LocationValue(host, v) == Some(v) <==> NullOrNormal(host.trimmed, v, 300)
  {
    if v.Str? { CleanIs(host.trimmed(v.s)); }
  }

  lemma NoteIs(host: Host, v: Value)
    requires v.Null? || v.Str?
    ensures v.Null? || NoteValue(host, v) == Some(v) <==> NullOrNormal(host.unixLines, v, 4000)
  {
    if v.Str? { CleanIs(host.unixLines(v.s)); }
  }

  lemma PartsAreDecimal(s: Utf16, whole: Utf16, fraction: Utf16)
    requires DecimalParts(s, whole, fraction)
    ensures IsDecimal(s)
  {
    hide DigitRun;
    if fraction == [] {
      DigitRunIs(whole, []);
      assert whole + [] == whole;
    } else {
      var rest := AsciiText(".") + fraction;
      assert s == whole + rest && rest[0] == 0x2E;
      DigitRunIs(whole, rest);
      assert s[|whole|] == 0x2E && s[|whole| + 1..] == fraction;
    }
  }

  lemma DecimalIs(s: Utf16)
    ensures IsDecimal(s) <==> PlainDecimal(s)
  {
    if IsDecimal(s) {
      var n := DigitRun(s);
      if n == |s| {
        assert s[..n] == s;
        assert DecimalParts(s, s, []);
      } else {
        assert s == s[..n] + AsciiText(".") + s[n + 1..];
        assert DecimalParts(s, s[..n], s[n + 1..]);
      }
    }
    if whole, fraction :| DecimalParts(s, whole, fraction) { PartsAreDecimal(s, whole, fraction); }
  }

  lemma WholeDays(v: Utf16) returns (days: int)
    requires Calendar.DateMilliseconds(v).Some?
    ensures Calendar.DateMilliseconds(v).value == 86_400_000 * days
  {
    hide Calendar.MakeDay, Calendar.DateMilliseconds;
    Calendar.Recognized(v);
    days := Calendar.MakeDay(Calendar.YearOf(v), Calendar.MonthOf(v) - 1, Calendar.DateOf(v));
  }

  lemma RangeIs(start: Utf16, end: Utf16)
    requires Calendar.DateMilliseconds(start).Some? && Calendar.DateMilliseconds(end).Some?
    ensures !Calendar.MetadataRangeRejected(start, end) <==> DateRange(Str(start), Str(end))
  {
    hide Calendar.DateMilliseconds, Less;
    Calendar.DaysFollowText(end, start);
    var from := WholeDays(start);
    var to := WholeDays(end);
  }

  lemma ParsedIs(s: Utf16)
    ensures Calendar.ParseCalendarDate(s).Some? <==> Calendar.DateMilliseconds(s).Some?
    ensures Calendar.ParseCalendarDate(s).Some? ==> Calendar.ParseCalendarDate(s).value == s
  {
    hide Calendar.MakeDay, Calendar.YearFromDay, Calendar.MonthFromDay, Calendar.DateFromDay;
  }

  // The optional texts as they reach the checks: null as the empty text, which is stored as null.
  lemma OptionalIs(host: Host, c: Command)
    requires KeepsEmpty(host)
    ensures var input := CommandInput(host, c);
      var location, note := PayloadValue(c, "location"), PayloadValue(c, "general_note");
      && (location.Null? ==> LocationValue(host, Str(input.location)) == Some(Null))
      && (location.Str? ==> input.location == location.s)
      && (note.Null? ==> NoteValue(host, Str(input.generalNote)) == Some(Null))
      && (note.Str? ==> input.generalNote == note.s)
  {
  }

  lemma InputIs(host: Host, c: Command)
    requires KeepsEmpty(host) && GoodTexts(host, c)
    ensures var input := CommandInput(host, c);
      && Str(input.name) == PayloadValue(c, "name") && NameValue(host, input.name) == Some(input.name)
      && LocationValue(host, Str(input.location)) == Some(PayloadValue(c, "location"))
      && NoteValue(host, Str(input.generalNote)) == Some(PayloadValue(c, "general_note"))
      && Str(input.budgetAmount) == PayloadValue(c, "budget_amount") && IsBudget(input.budgetAmount)
      && (PayloadValue(c, "start_date").Str? ==> Str(input.startDate) == PayloadValue(c, "start_date"))
      && (PayloadValue(c, "end_date").Str? ==> Str(input.endDate) == PayloadValue(c, "end_date"))
  {
    OptionalIs(host, c);
    NameIs(host, PayloadValue(c, "name").s);
    LocationIs(host, PayloadValue(c, "location"));
    NoteIs(host, PayloadValue(c, "general_note"));
    DecimalIs(PayloadValue(c, "budget_amount").s);
    hide NameValue, LocationValue, NoteValue, IsDecimal, PlainDecimal, KeepsEmpty, Normal;
  }

  lemma StringDates(start: Value, end: Value)
    requires DateRange(start, end)
    ensures start.Str? && end.Str?
    ensures Calendar.DateMilliseconds(start.s).Some? && Calendar.DateMilliseconds(end.s).Some?
  {
  }

  // The values of well-formed texts and dates are those of the payload.
  lemma TextsAre(host: Host, c: Command, dates: bool)
    requires KeepsEmpty(host) && GoodTexts(host, c)
    requires dates ==> DateRange(PayloadValue(c, "start_date"), PayloadValue(c, "end_date"))
    ensures Values(host, CommandInput(host, c), dates).Some?
    ensures var values := Values(host, CommandInput(host, c), dates).value;
      && (forall f :: f in LEGACY_FIELDS ==> ValueIn(values, f) == PayloadValue(c, f))
      && (dates ==> forall f :: f in FIELDS ==> ValueIn(values, f) == PayloadValue(c, f))
  {
    hide KeepsEmpty, GoodTexts, CommandInput, NameValue, LocationValue, NoteValue, IsBudget, DateRange,
      Calendar.ParseCalendarDate, Calendar.DateMilliseconds, Calendar.MetadataRangeRejected;
    InputIs(host, c);
    if dates {
      StringDates(PayloadValue(c, "start_date"), PayloadValue(c, "end_date"));
      var start, end := PayloadValue(c, "start_date").s, PayloadValue(c, "end_date").s;
      ParsedIs(start);
      ParsedIs(end);
      RangeIs(start, end);
    }
  }

  lemma GoodStrings(host: Host, c: Command)
    requires GoodTexts(host, c)
    ensures PayloadValue(c, "name").Str? && PayloadValue(c, "budget_amount").Str?
    ensures NullOrNormal(host.trimmed, PayloadValue(c, "location"), 300)
    ensures NullOrNormal(host.unixLines, PayloadValue(c, "general_note"), 4000)
  {
  }

  lemma WellFormedAccepted(host: Host, c: Command, eventId: Utf16)
    requires KeepsEmpty(host) && (LegacyCommand(host, c, eventId) || ModernCommand(host, c, eventId))
    ensures Accepted(host, c).Some?
  {
    TextsAre(host, c, IsModern(c));
    LocationIs(host, PayloadValue(c, "location"));
    NoteIs(host, PayloadValue(c, "general_note"));
    hide Values, CommandInput, LocationValue, NoteValue, IsUuid, KeepsEmpty, DateRange, PlainDecimal, Normal, Clean,
      GoodTexts;
    GoodStrings(host, c);
    var values := Values(host, CommandInput(host, c), IsModern(c)).value;
    assert ValueIn(values, "name") == PayloadValue(c, "name");
    assert ValueIn(values, "budget_amount") == PayloadValue(c, "budget_amount");
    if IsModern(c) {
      assert ValueIn(values, "start_date") == PayloadValue(c, "start_date");
      assert ValueIn(values, "end_date") == PayloadValue(c, "end_date");
    }
  }

  lemma AcceptedTexts(host: Host, c: Command)
    requires Accepted(host, c).Some?
    ensures GoodTexts(host, c)
  {
    hide Calendar.ParseCalendarDate, Calendar.MetadataRangeRejected, IsDecimal, NoBadUnits, PlainDecimal, IsUuid;
    var name, budget := PayloadValue(c, "name"), PayloadValue(c, "budget_amount");
    assert name.Str? && NameValue(host, name.s) == Some(name.s);
    assert budget.Str? && IsBudget(budget.s);
    NameIs(host, name.s);
    LocationIs(host, PayloadValue(c, "location"));
    NoteIs(host, PayloadValue(c, "general_note"));
    DecimalIs(budget.s);
  }

  lemma AcceptedDates(host: Host, c: Command)
    requires Accepted(host, c).Some? && IsModern(c)
    ensures DateRange(PayloadValue(c, "start_date"), PayloadValue(c, "end_date"))
  {
    hide IsDecimal, IsUuid, NameValue, LocationValue, NoteValue, Calendar.ParseCalendarDate,
      Calendar.MetadataRangeRejected, Calendar.DateMilliseconds;
    var input := CommandInput(host, c);
    ParsedIs(input.startDate);
    ParsedIs(input.endDate);
    assert PayloadValue(c, "start_date") == Str(input.startDate) && PayloadValue(c, "end_date") == Str(input.endDate);
    RangeIs(input.startDate, input.endDate);
  }

  lemma AcceptedWellFormed(host: Host, c: Command)
    requires KeepsEmpty(host) && Accepted(host, c).Some?
    ensures var eventId := ToText(host, PayloadValue(c, "event_id"));
      LegacyCommand(host, c, eventId) || ModernCommand(host, c, eventId)
    ensures forall f :: f in Selected(c) ==> ValueIn(Accepted(host, c).value, f) == PayloadValue(c, f)
  {
    AcceptedTexts(host, c);
    if IsModern(c) { AcceptedDates(host, c); }
    TextsAre(host, c, IsModern(c));
    hide Values, CommandInput, LocationValue, NoteValue, IsUuid, KeepsEmpty, DateRange, GoodTexts;
  }

  /** The replay accepts exactly the well-formed commands of either shape, and takes from them what their
      payload says. */
  lemma AcceptedIs(host: Host, c: Command)
    requires KeepsEmpty(host)
    ensures Accepted(host, c).Some? <==>
      exists eventId :: LegacyCommand(host, c, eventId) || ModernCommand(host, c, eventId)
    ensures Accepted(host, c).Some? ==>
      forall f :: f in Selected(c) ==> ValueIn(Accepted(host, c).value, f) == PayloadValue(c, f)
  {
    var eventId := ToText(host, PayloadValue(c, "event_id"));
    if LegacyCommand(host, c, eventId) || ModernCommand(host, c, eventId) { WellFormedAccepted(host, c, eventId); }
    if Accepted(host, c).Some? { AcceptedWellFormed(host, c); }
    if id :| LegacyCommand(host, c, id) || ModernCommand(host, c, id) { assert id == eventId; }
  }

  // ---------- What a command does ----------

  // The event as shown, while neither the server nor the replica has retired it and it is what its key says.
  ghost predicate OpenEvent(canonical: Option<Record>, overlay: Option<Record>, k: Key, event: Record) {
    && (canonical.Some? ==> canonical.value.lifecycle != Retired)
    && (overlay == Some(event) || (overlay.None? && canonical == Some(event)))
    && event.lifecycle == Active && Lookup(event.fields, "lifecycle") == Some(Str(AsciiText("active")))
    && Lookup(event.fields, "id") == Some(Str(k.entityId))
    && Lookup(event.fields, "organization_id") == Some(Str(k.organizationId))
  }

  // The first of two spellings that is given.
  ghost predicate Given(local: Value, server: Value, s: Utf16) {
    local == Str(s) || ((local.Undefined? || local.Null?) && server == Str(s))
  }

  // No clock, or one of an earlier time, or of the same time and a lesser id.
  ghost predicate Beats(host: Host, c: Command, clock: Clock)
    requires host.micros(c.actionAt).Some?
  {
    || clock.NoClock?
    || (clock.Clock? && exists at, id ::
          && Given(clock.actionAt, clock.winningTime, at) && Given(clock.mutationId, clock.winningId, id)
          && IsUuid(id) && host.micros(at).Some?
          && var before, now := host.micros(at).value, host.micros(c.actionAt).value;
          before < now || (before == now && Less(id, c.id)))
  }

  lemma BeatsIs(host: Host, c: Command, clock: Clock)
    requires host.micros(c.actionAt).Some?
    ensures Wins(host, clock, c.id, c.actionAt) <==> Beats(host, c, clock)
  {
    hide IsUuid, Less;
    if clock.Clock? {
      var currentAt, currentId := Coalesce(clock.actionAt, clock.winningTime),
        Coalesce(clock.mutationId, clock.winningId);
      if Wins(host, clock, c.id, c.actionAt) {
        assert Given(clock.actionAt, clock.winningTime, currentAt.s);
        assert Given(clock.mutationId, clock.winningId, currentId.s);
      }
    }
  }

  lemma OpenIs(canonical: Option<Record>, overlay: Option<Record>, k: Key, event: Record)
    ensures CurrentEvent(canonical, overlay, k) == Some(event) <==> OpenEvent(canonical, overlay, k, event)
  {
  }

  // The event with the beaten fields, and only those, set to the payload and clocked by the command.
  ghost predicate Sets(host: Host, c: Command, fields: seq<string>, before: Record, after: Record)
    requires host.micros(c.actionAt).Some?
  {
    && after.lifecycle == before.lifecycle && after.updatedAt == c.actionAt
    && forall f ::
         if f in fields && Beats(host, c, ClockOf(before, f)) then
           && Lookup(after.fields, f) == Some(PayloadValue(c, f))
           && Lookup(after.fieldClocks, f) == Some(LocalClock(c.id, c.actionAt))
         else
           && Lookup(after.fields, f) == Lookup(before.fields, f)
           && Lookup(after.fieldClocks, f) == Lookup(before.fieldClocks, f)
  }

  ghost predicate BeatsSome(host: Host, c: Command, fields: seq<string>, event: Record)
    requires host.micros(c.actionAt).Some?
  {
    exists f :: f in fields && Beats(host, c, ClockOf(event, f))
  }

  ghost function EventKeyOf(host: Host, c: Command): Utf16 {
    EventKey(host, [], [], c).entityId
  }

  lemma SelectedIs(host: Host, c: Command, eventId: Utf16)
    requires LegacyCommand(host, c, eventId) || ModernCommand(host, c, eventId)
    ensures host.micros(c.actionAt).Some?
    ensures EventKeyOf(host, c) == eventId
    ensures Selected(c) == ["name", "location", "budget_amount", "general_note"]
      + if ModernCommand(host, c, eventId) then ["start_date", "end_date"] else []
  {
    assert "start_date" !in {"event_id", "name", "location", "budget_amount", "general_note"};
  }

  lemma AppliedSets(host: Host, canonical: Option<Record>, overlay: Option<Record>, k: Key, c: Command)
    requires CurrentEvent(canonical, overlay, k).Some? && Accepted(host, c).Some? && host.micros(c.actionAt).Some?
    requires forall f :: f in Selected(c) ==> ValueIn(Accepted(host, c).value, f) == PayloadValue(c, f)
    ensures var event := CurrentEvent(canonical, overlay, k).value;
      var next := Applied(host, canonical, overlay, k, Accepted(host, c).value, c.id, c.actionAt, Selected(c));
      if BeatsSome(host, c, Selected(c), event) then next.Some? && Sets(host, c, Selected(c), event, next.value)
      else next == overlay
  {
    hide Accepted, CurrentEvent, Wins, Beats, Selected;
    var event, selected := CurrentEvent(canonical, overlay, k).value, Selected(c);
    var winning := Winning(host, event, c.id, c.actionAt, selected);
    forall f
      ensures f in winning <==> f in selected && Beats(host, c, ClockOf(event, f))
    {
      BeatsIs(host, c, ClockOf(event, f));
    }
    if winning != {} {
      var f :| f in winning;
      assert BeatsSome(host, c, selected, event);
    }
  }

  /** On an open event, a well-formed command sets exactly the fields it carries whose clocks it beats, and
      when it beats none it does nothing. */
  lemma ReplayOnOpen(host: Host, userId: Utf16, organizationId: Utf16, canonical: Option<Record>,
        overlay: Option<Record>, event: Record, eventId: Utf16, c: Command)
    requires KeepsEmpty(host) && (LegacyCommand(host, c, eventId) || ModernCommand(host, c, eventId))
    requires OpenEvent(canonical, overlay, Key(userId, organizationId, "event", eventId), event)
    ensures host.micros(c.actionAt).Some?
    ensures var k := Key(userId, organizationId, "event", eventId);
      var fields := ["name", "location", "budget_amount", "general_note"]
        + if ModernCommand(host, c, eventId) then ["start_date", "end_date"] else [];
      var next := ReplayAt(host, userId, organizationId, canonical, overlay, k, c);
      if BeatsSome(host, c, fields, event) then next.Some? && Sets(host, c, fields, event, next.value)
      else next == overlay
  {
    AcceptedIs(host, c);
    var k := Key(userId, organizationId, "event", eventId);
    SelectedIs(host, c, eventId);
    OpenIs(canonical, overlay, k, event);
    hide Accepted, LegacyCommand, ModernCommand, KeepsEmpty, OpenEvent, CurrentEvent, Sets, BeatsSome, Applied,
      Selected;
    AppliedSets(host, canonical, overlay, k, c);
  }

  /** On an event that is not open it does nothing, and on no event but its own. */
  lemma ReplayElsewhere(host: Host, userId: Utf16, organizationId: Utf16, canonical: Option<Record>,
        overlay: Option<Record>, k: Key, eventId: Utf16, c: Command)
    requires KeepsEmpty(host) && (LegacyCommand(host, c, eventId) || ModernCommand(host, c, eventId))
    requires k == Key(userId, organizationId, "event", eventId) ==>
      forall event :: !OpenEvent(canonical, overlay, k, event)
    ensures ReplayAt(host, userId, organizationId, canonical, overlay, k, c) == overlay
  {
    SelectedIs(host, c, eventId);
    hide Accepted, LegacyCommand, ModernCommand, KeepsEmpty, OpenEvent, CurrentEvent, Selected;
    var current := CurrentEvent(canonical, overlay, k);
    if current.Some? { OpenIs(canonical, overlay, k, current.value); }
  }

  /** A command that is not well formed does nothing anywhere. */
  lemma ReplayRefused(host: Host, userId: Utf16, organizationId: Utf16, canonical: Option<Record>,
        overlay: Option<Record>, k: Key, c: Command)
    requires KeepsEmpty(host)
    requires forall eventId :: !LegacyCommand(host, c, eventId) && !ModernCommand(host, c, eventId)
    ensures ReplayAt(host, userId, organizationId, canonical, overlay, k, c) == overlay
  {
    hide Accepted, LegacyCommand, ModernCommand, KeepsEmpty;
    AcceptedIs(host, c);
  }

  lemma LegacyKeys(host: Host, c: Command, eventId: Utf16)
    ensures LegacyCommand(host, c, eventId) ==> "start_date" !in c.payload.Keys
    ensures ModernCommand(host, c, eventId) ==> "start_date" in c.payload.Keys
  {
    hide GoodIds, GoodTexts, DateRange;
  }

  lemma NotModern(host: Host, c: Command, eventId: Utf16)
    requires LegacyCommand(host, c, eventId)
    ensures !ModernCommand(host, c, eventId)
  {
    hide LegacyCommand, ModernCommand;
    LegacyKeys(host, c, eventId);
  }

  lemma BeatsOne(host: Host, c: Command, fields: seq<string>, event: Record, f: string)
    requires host.micros(c.actionAt).Some? && f in fields && Beats(host, c, ClockOf(event, f))
    ensures BeatsSome(host, c, fields, event)
  {
  }

  lemma FourSet(host: Host, c: Command, before: Record, after: Record)
    requires host.micros(c.actionAt).Some?
    requires Sets(host, c, ["name", "location", "budget_amount", "general_note"], before, after)
    requires forall f :: f in {"name", "location", "budget_amount", "general_note"} ==>
      Beats(host, c, ClockOf(before, f))
    ensures forall f :: f in {"name", "location", "budget_amount", "general_note"} ==>
      && Lookup(after.fields, f) == Some(PayloadValue(c, f))
      && Lookup(after.fieldClocks, f) == Some(LocalClock(c.id, c.actionAt))
    ensures forall f :: f in {"start_date", "end_date"} ==>
      && Lookup(after.fields, f) == Lookup(before.fields, f)
      && Lookup(after.fieldClocks, f) == Lookup(before.fieldClocks, f)
  {
    hide Beats;
    var fields := ["name", "location", "budget_amount", "general_note"];
    assert forall f :: f in fields <==> f in {"name", "location", "budget_amount", "general_note"};
    assert "start_date" !in fields && "end_date" !in fields;
  }

  /** So a legacy command that is later than the clocks of its four fields, or finds them without one, sets
      them on an open event and leaves both dates and their clocks. */
  lemma LegacySetsFour(host: Host, userId: Utf16, organizationId: Utf16, canonical: Option<Record>,
        overlay: Option<Record>, event: Record, eventId: Utf16, c: Command)
    requires KeepsEmpty(host) && LegacyCommand(host, c, eventId)
    requires OpenEvent(canonical, overlay, Key(userId, organizationId, "event", eventId), event)
    requires forall f :: f in {"name", "location", "budget_amount", "general_note"} ==>
      Beats(host, c, ClockOf(event, f))
    ensures var k := Key(userId, organizationId, "event", eventId);
      var next := ReplayAt(host, userId, organizationId, canonical, overlay, k, c);
      && next.Some?
      && (forall f :: f in {"name", "location", "budget_amount", "general_note"} ==>
           && Lookup(next.value.fields, f) == Some(PayloadValue(c, f))
           && Lookup(next.value.fieldClocks, f) == Some(LocalClock(c.id, c.actionAt)))
      && (forall f :: f in {"start_date", "end_date"} ==>
           && Lookup(next.value.fields, f) == Lookup(event.fields, f)
           && Lookup(next.value.fieldClocks, f) == Lookup(event.fieldClocks, f))
  {
    hide GoodIds, GoodTexts, OpenEvent, Beats, ReplayAt, Sets, BeatsSome;
    ReplayOnOpen(host, userId, organizationId, canonical, overlay, event, eventId, c);
    var fields := ["name", "location", "budget_amount", "general_note"];
    NotModern(host, c, eventId);
    assert fields + [] == fields;
    assert "name" in fields;
    BeatsOne(host, c, fields, event, "name");
    var next := ReplayAt(host, userId, organizationId, canonical, overlay,
      Key(userId, organizationId, "event", eventId), c);
    FourSet(host, c, event, next.value);
  }

  // ---------- What the page queues ----------

  // Null for the empty text.
  ghost function TextOrNull(s: Utf16): Value {
    if s == [] then Null else Str(s)
  }

  ghost predicate GoodInput(host: Host, input: Input) {
    && 1 <= |host.trimmed(input.name)| <= 200 && Clean(host.trimmed(input.name))
    && |host.trimmed(input.location)| <= 300 && Clean(host.trimmed(input.location))
    && |host.unixLines(input.generalNote)| <= 4000 && Clean(host.unixLines(input.generalNote))
    && |input.budgetAmount| <= 100 && PlainDecimal(input.budgetAmount)
    && DateRange(Str(input.startDate), Str(input.endDate))
  }

  lemma InputValues(host: Host, input: Input)
    requires Values(host, input, true).Some?
    ensures NameValue(host, input.name) == Some(host.trimmed(input.name))
    ensures LocationValue(host, Str(input.location)) == Some(TextOrNull(host.trimmed(input.location)))
    ensures NoteValue(host, Str(input.generalNote)) == Some(TextOrNull(host.unixLines(input.generalNote)))
  {
    hide NoBadUnits, IsDecimal, Calendar.ParseCalendarDate, Calendar.MetadataRangeRejected;
  }

  lemma InputAccepted(host: Host, input: Input)
    ensures Values(host, input, true).Some? <==> GoodInput(host, input)
  {
    CleanIs(host.trimmed(input.name));
    CleanIs(host.trimmed(input.location));
    CleanIs(host.unixLines(input.generalNote));
    DecimalIs(input.budgetAmount);
    ParsedIs(input.startDate);
    ParsedIs(input.endDate);
    hide NoBadUnits, Clean, IsDecimal, PlainDecimal, Calendar.ParseCalendarDate, Calendar.DateMilliseconds,
      Calendar.MetadataRangeRejected;
    if Calendar.DateMilliseconds(input.startDate).Some? && Calendar.DateMilliseconds(input.endDate).Some? {
      RangeIs(input.startDate, input.endDate);
    }
  }

  /** The page queues an input exactly when its event id is a UUID and its texts, normalized, and its dates
      are good; the command then carries all of them. */
  lemma QueuedIs(host: Host, eventId: Utf16, input: Input, id: Utf16, actionAt: Utf16)
    ensures QueuedCommand(host, eventId, input, id, actionAt) ==
      if IsUuid(eventId) && GoodInput(host, input) then
        Some(Command(id, actionAt, map[
          "event_id" := Str(eventId),
          "name" := Str(host.trimmed(input.name)),
          "location" := TextOrNull(host.trimmed(input.location)),
          "budget_amount" := Str(input.budgetAmount),
          "general_note" := TextOrNull(host.unixLines(input.generalNote)),
          "start_date" := Str(input.startDate),
          "end_date" := Str(input.endDate)]))
      else None
  {
    InputAccepted(host, input);
    hide IsUuid, GoodInput, NameValue, LocationValue, NoteValue, IsBudget, Calendar.ParseCalendarDate;
    if QueuedCommand(host, eventId, input, id, actionAt).Some? {
      InputValues(host, input);
      ParsedIs(input.startDate);
      ParsedIs(input.endDate);
      assert QueuedCommand(host, eventId, input, id, actionAt).value.payload == map[
        "event_id" := Str(eventId),
        "name" := Str(host.trimmed(input.name)),
        "location" := TextOrNull(host.trimmed(input.location)),
        "budget_amount" := Str(input.budgetAmount),
        "general_note" := TextOrNull(host.unixLines(input.generalNote)),
        "start_date" := Str(input.startDate),
        "end_date" := Str(input.endDate)];
    }
  }
}
