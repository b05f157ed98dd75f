/** Queueing an update of event metadata, and why its replay does the same. */
module EventQueue {
  import opened Text
  import opened Wrappers
  import opened Replica
  import opened EventMetadata
  import Calendar

  // The command an update queues; `None` when the input is refused.
  function QueuedCommand(host: Host, eventId: Utf16, input: Input, id: Utf16, actionAt: Utf16): Option<Command> {
    var normalized := Values(host, input, true);
    if !IsUuid(eventId) || normalized.None? then None
    else Some(Command(id, actionAt, normalized.value["event_id" := Str(eventId)]))
  }

  /** Normalizing twice is normalizing once, which both Unicode forms and trimming satisfy. */
  ghost predicate Idempotent(host: Host) {
    && (forall s :: host.trimmed(host.trimmed(s)) == host.trimmed(s))
    && (forall s :: host.unixLines(host.unixLines(s)) == host.unixLines(s))
  }

  lemma NameStays(host: Host, s: Utf16)
    requires Idempotent(host) && NameValue(host, s).Some?
    ensures NameValue(host, NameValue(host, s).value) == NameValue(host, s)
  {
  }

  // A stored optional text, as the replay reads it back.
  function ReadBack(v: Value): Utf16 {
    if v.Str? then v.s else []
  }

  lemma LocationStays(host: Host, s: Utf16)
    requires Idempotent(host) && LocationValue(host, Str(s)).Some?
    ensures var v := LocationValue(host, Str(s)).value;
      && (v.Null? || v.Str?)
      && LocationValue(host, Str(ReadBack(v))) == Some(v)
      && (v.Str? ==> LocationValue(host, v) == Some(v))
  {
    assert host.trimmed(host.trimmed(s)) == host.trimmed(s);
  }

  lemma NoteStays(host: Host, s: Utf16)
    requires Idempotent(host) && NoteValue(host, Str(s)).Some?
    ensures var v := NoteValue(host, Str(s)).value;
      && (v.Null? || v.Str?)
      && NoteValue(host, Str(ReadBack(v))) == Some(v)
      && (v.Str? ==> NoteValue(host, v) == Some(v))
  {
    assert host.unixLines(host.unixLines(s)) == host.unixLines(s);
  }

  // The input the replay rebuilds from a queued command.
  function NormalInput(host: Host, input: Input): Input
    requires Values(host, input, true).Some?
  {
    Input(NameValue(host, input.name).value,
      ReadBack(LocationValue(host, Str(input.location)).value),
      input.budgetAmount,
      ReadBack(NoteValue(host, Str(input.generalNote)).value),
      input.startDate, input.endDate)
  }

  lemma DateStays(s: Utf16)
    ensures Calendar.ParseCalendarDate(s).Some? ==> Calendar.ParseCalendarDate(s).value == s
  {
  }

  lemma ValuesStay(host: Host, input: Input)
    requires Idempotent(host) && Values(host, input, true).Some?
    ensures Values(host, NormalInput(host, input), true) == Values(host, input, true)
  {
    hide NameValue, LocationValue, NoteValue, IsBudget, Idempotent;
    NameStays(host, input.name);
    LocationStays(host, input.location);
    NoteStays(host, input.generalNote);
  }

  // What the command carries.
  lemma PayloadIs(host: Host, eventId: Utf16, input: Input, id: Utf16, actionAt: Utf16)
    requires QueuedCommand(host, eventId, input, id, actionAt).Some?
    ensures var c, values := QueuedCommand(host, eventId, input, id, actionAt).value, Values(host, input, true).value;
      && c.payload.Keys == {"event_id", "name", "location", "budget_amount", "general_note", "start_date", "end_date"}
      && PayloadValue(c, "event_id") == Str(eventId)
      && PayloadValue(c, "name") == Str(NameValue(host, input.name).value)
      && PayloadValue(c, "location") == LocationValue(host, Str(input.location)).value
      && PayloadValue(c, "budget_amount") == Str(input.budgetAmount)
      && PayloadValue(c, "general_note") == NoteValue(host, Str(input.generalNote)).value
      && PayloadValue(c, "start_date") == Str(input.startDate) && PayloadValue(c, "end_date") == Str(input.endDate)
      && values.Keys == c.payload.Keys - {"event_id"}
      && forall f :: f in values ==> values[f] == PayloadValue(c, f)
  {
    hide NameValue, LocationValue, NoteValue, IsBudget, IsUuid, Calendar.ParseCalendarDate,
      Calendar.MetadataRangeRejected;
    DateStays(input.startDate);
    DateStays(input.endDate);
  }

  lemma InputRebuilt(host: Host, eventId: Utf16, input: Input, id: Utf16, actionAt: Utf16)
    requires Idempotent(host) && QueuedCommand(host, eventId, input, id, actionAt).Some?
    ensures Values(host, input, true).Some?
    ensures CommandInput(host, QueuedCommand(host, eventId, input, id, actionAt).value) == NormalInput(host, input)
  {
    hide NameValue, LocationValue, NoteValue, Idempotent, IsBudget, IsUuid, Calendar.ParseCalendarDate,
      Calendar.MetadataRangeRejected, PayloadValue;
    PayloadIs(host, eventId, input, id, actionAt);
    LocationStays(host, input.location);
    NoteStays(host, input.generalNote);
    hide QueuedCommand, Values;
  }

  /** The replay accepts every command the page queues, and takes from it exactly the values the
      page wrote. */
  lemma QueuedIsAccepted(host: Host, eventId: Utf16, input: Input, id: Utf16, actionAt: Utf16)
    requires Idempotent(host) && IsUuid(id) && host.micros(actionAt).Some?
    requires QueuedCommand(host, eventId, input, id, actionAt).Some?
    ensures var c := QueuedCommand(host, eventId, input, id, actionAt).value;
      && PayloadValue(c, "event_id") == Str(eventId)
      && Accepted(host, c) == Values(host, input, true) && Selected(c) == FIELDS
  {
    hide NameValue, LocationValue, NoteValue, Idempotent, IsBudget, IsUuid, Calendar.ParseCalendarDate,
      Calendar.MetadataRangeRejected, PayloadValue, CommandInput, NormalInput;
    var c := QueuedCommand(host, eventId, input, id, actionAt).value;
    assert c.id == id && c.actionAt == actionAt && IsUuid(eventId);
    PayloadIs(host, eventId, input, id, actionAt);
    LocationStays(host, input.location);
    NoteStays(host, input.generalNote);
    assert LocationValue(host, Str(input.location)).Some? && NoteValue(host, Str(input.generalNote)).Some?;
    hide QueuedCommand, Values;
    InputRebuilt(host, eventId, input, id, actionAt);
    ValuesStay(host, input);
  }

  /** So replaying a queued command on the overlay as it was gives what queueing it gave. */
  lemma ReplayRepeatsQueue(
      host: Host, userId: Utf16, organizationId: Utf16, canonical: Option<Record>, overlay: Option<Record>,
      eventId: Utf16, input: Input, id: Utf16, actionAt: Utf16)
    requires Idempotent(host) && IsUuid(id) && host.micros(actionAt).Some?
    requires QueuedCommand(host, eventId, input, id, actionAt).Some?
    ensures var c := QueuedCommand(host, eventId, input, id, actionAt).value;
      var k := Key(userId, organizationId, "event", eventId);
      ReplayAt(host, userId, organizationId, canonical, overlay, k, c)
      == Applied(host, canonical, overlay, k, Values(host, input, true).value, id, actionAt, FIELDS)
  {
    hide Accepted, Applied, Values, Idempotent, IsUuid, Selected, PayloadValue;
    QueuedIsAccepted(host, eventId, input, id, actionAt);
  }

  // The update is queued: the input is accepted, the event is open, and some field wins.
  ghost predicate Queues(
      host: Host, canonical: Option<Record>, overlay: Option<Record>, k: Key, input: Input, id: Utf16, actionAt: Utf16)
  {
    var event := CurrentEvent(canonical, overlay, k);
    && QueuedCommand(host, k.entityId, input, id, actionAt).Some?
    && event.Some? && Winning(host, event.value, id, actionAt, FIELDS) != {}
  }

  // Applies the update and gives the command for the outbox; `None` throws and changes nothing.
  method QueueEventMetadataUpdate(
      replica: EventReplica, userId: Utf16, organizationId: Utf16, eventId: Utf16, input: Input, id: Utf16,
      actionAt: Utf16)
    returns (queued: Option<Command>)
    modifies replica`optimisticOverlays
    ensures var host, k := replica.host, Key(userId, organizationId, "event", eventId);
      var canonical, overlay := Lookup(replica.canonicalRecords, k), Lookup(old(replica.optimisticOverlays), k);
      && queued == (if Queues(host, canonical, overlay, k, input, id, actionAt)
                    then QueuedCommand(host, eventId, input, id, actionAt) else None)
      && Lookup(replica.optimisticOverlays, k) ==
         if queued.Some? then
           Applied(host, canonical, overlay, k, Values(host, input, true).value, id, actionAt, FIELDS)
         else overlay
    ensures forall other :: other != Key(userId, organizationId, "event", eventId) ==>
      Lookup(replica.optimisticOverlays, other) == Lookup(old(replica.optimisticOverlays), other)
  {
    hide Values, IsUuid, CurrentEvent, Merge, Winning;
    queued := QueuedCommand(replica.host, eventId, input, id, actionAt);
    if queued.None? { return; }
    var values := Values(replica.host, input, true).value;
    var changed := replica.Apply(Key(userId, organizationId, "event", eventId), values, id, actionAt, FIELDS);
    if !changed { return None; }
  }
}
