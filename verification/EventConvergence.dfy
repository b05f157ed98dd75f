/** Replaying event metadata converges over every order of the commands, and keeps the two dates of
    an event together. */
module EventConvergence {
  import opened Text
  import opened Wrappers
  import opened Replica
  import opened EventMetadata
  import opened LastWriter
  import Calendar

  // ---------- An event seen as cells ----------

  datatype Content = Content(value: Option<Value>, clock: Option<Clock>)

  function StampOf(host: Host, clock: Clock): Stamp {
    match clock
    case NoClock => Unset
    case NotAnObject => Frozen
    case Clock(_, _, _, _) =>
      var at := TimestampMicros(host, Coalesce(clock.actionAt, clock.winningTime));
      var id := Coalesce(clock.mutationId, clock.winningId);
      if id.Str? && IsUuid(id.s) && at.Some? then At(at.value, id.s) else Frozen
  }

  function CellOf(host: Host, r: Record, f: string): Cell<Content> {
    Cell(Content(Lookup(r.fields, f), Lookup(r.fieldClocks, f)), StampOf(host, ClockOf(r, f)))
  }

  function Cells(host: Host, r: Record): map<string, Cell<Content>> {
    map f | f in FIELDS :: CellOf(host, r, f)
  }

  // Everything of a record that replay leaves alone; the time of the last change is not looked at.
  function Rest(r: Record): Record {
    r.(fields := Except(r.fields, FIELDS), fieldClocks := Except(r.fieldClocks, FIELDS), updatedAt := [])
  }

  // One user's replica of one organization, looked at under one key.
  datatype Site = Site(host: Host, userId: Utf16, organizationId: Utf16, canonical: Option<Record>, k: Key) {
    function Visible(overlay: Option<Record>): Option<Record> {
      OrElse(overlay, canonical)
    }

    predicate Open(overlay: Option<Record>) {
      CurrentEvent(canonical, overlay, k).Some?
    }

    function Next(overlay: Option<Record>, c: Command): Option<Record> {
      ReplayAt(host, userId, organizationId, canonical, overlay, k, c)
    }

    // The overlay after replaying a list of commands.
    function Run(overlay: Option<Record>, cs: seq<Command>): Option<Record> {
      LastWriter.Run((o, c) => Next(o, c), overlay, cs)
    }

    predicate Takes(c: Command) {
      Accepted(host, c).Some? && k == EventKey(host, userId, organizationId, c)
    }

    // The write a command makes here.
    function WriteOf(c: Command): Write<string, Content> {
      var contents :=
        if !Takes(c) then map[]
        else (map f | f in Selected(c) ::
                Content(Some(ValueIn(Accepted(host, c).value, f)), Some(LocalClock(c.id, c.actionAt))));
      Write(host.micros(c.actionAt).GetOr(0), c.id, contents)
    }

    function Writes(cs: seq<Command>): seq<Write<string, Content>> {
      LastWriter.Writes(c => WriteOf(c), cs)
    }
  }

  lemma WinsIsNewer(host: Host, clock: Clock, mutationId: Utf16, actionAt: Utf16)
    requires host.micros(actionAt).Some?
    ensures Wins(host, clock, mutationId, actionAt) <==>
      Newer(At(host.micros(actionAt).value, mutationId), StampOf(host, clock))
  {
  }

  lemma AcceptedStamp(host: Host, c: Command)
    requires Accepted(host, c).Some?
    ensures IsUuid(c.id) && host.micros(c.actionAt).Some? && (IsLegacy(c) || IsModern(c))
    ensures StampOf(host, LocalClock(c.id, c.actionAt)) == At(host.micros(c.actionAt).value, c.id)
  {
    hide IsUuid, IsLegacy, IsModern, Values, CommandInput;
  }

  // Equal cells and equal rest make equal records.
  lemma RecordDetermined(host: Host, a: Record, b: Record)
    requires Cells(host, a) == Cells(host, b) && Rest(a) == Rest(b)
    ensures SameRecord(a, b)
  {
    forall f: string
      ensures Lookup(a.fields, f) == Lookup(b.fields, f) && Lookup(a.fieldClocks, f) == Lookup(b.fieldClocks, f)
    {
      if f in FIELDS {
        assert Cells(host, a)[f] == Cells(host, b)[f];
      } else {
        assert Lookup(a.fields, f) == Lookup(Rest(a).fields, f) && Lookup(b.fields, f) == Lookup(Rest(b).fields, f);
        assert Lookup(a.fieldClocks, f) == Lookup(Rest(a).fieldClocks, f)
          && Lookup(b.fieldClocks, f) == Lookup(Rest(b).fieldClocks, f);
      }
    }
    SameLookups(a.fields, b.fields);
    SameLookups(a.fieldClocks, b.fieldClocks);
    assert a.lifecycle == Rest(a).lifecycle == Rest(b).lifecycle == b.lifecycle;
  }

  // ---------- One step ----------

  // `w` is the write of the accepted command `c`.
  ghost predicate IsWriteOf(host: Host, c: Command, values: map<string, Value>, w: Write<string, Content>) {
    && Accepted(host, c) == Some(values)
    && w.time == host.micros(c.actionAt).GetOr(0) && w.id == c.id
    && w.contents == map f | f in Selected(c) :: Content(Some(ValueIn(values, f)), Some(LocalClock(c.id, c.actionAt)))
  }

  function Merged(host: Host, event: Record, values: map<string, Value>, c: Command): Record {
    var winning := Winning(host, event, c.id, c.actionAt, Selected(c));
    Merge(event, winning, values, c.id, c.actionAt).(updatedAt := c.actionAt)
  }

  lemma MergedCell(host: Host, event: Record, values: map<string, Value>, w: Write<string, Content>, c: Command,
        f: string)
    requires IsWriteOf(host, c, values, w)
    ensures f in Winning(host, event, c.id, c.actionAt, Selected(c)) <==>
      f in w.contents && Newer(w.Stamp(), CellOf(host, event, f).stamp)
    ensures CellOf(host, Merged(host, event, values, c), f) == StepCell(CellOf(host, event, f), w, f)
  {
    hide Accepted, Selected, Wins, StampOf, Newer, LocalClock, ValueIn;
    AcceptedStamp(host, c);
    WinsIsNewer(host, ClockOf(event, f), c.id, c.actionAt);
  }

  lemma MergedRest(host: Host, event: Record, values: map<string, Value>, c: Command)
    ensures Rest(Merged(host, event, values, c)) == Rest(event)
  {
    hide Wins, LocalClock, ValueIn, IsModern;
    var merged := Merged(host, event, values, c);
    assert forall f :: f in Selected(c) ==> f in FIELDS;
    assert Except(merged.fields, FIELDS) == Except(event.fields, FIELDS);
    assert Except(merged.fieldClocks, FIELDS) == Except(event.fieldClocks, FIELDS);
  }

  // Merging an accepted command is one step of the cells.
  lemma MergedCells(host: Host, event: Record, values: map<string, Value>, w: Write<string, Content>, c: Command)
    requires IsWriteOf(host, c, values, w)
    ensures Cells(host, Merged(host, event, values, c)) == Step(Cells(host, event), w)
    ensures var winning := Winning(host, event, c.id, c.actionAt, Selected(c));
      forall f :: f in winning ==>
        f in Cells(host, event) && f in w.contents && Newer(w.Stamp(), Cells(host, event)[f].stamp)
    ensures Winning(host, event, c.id, c.actionAt, Selected(c)) == {} ==>
      Step(Cells(host, event), w) == Cells(host, event)
  {
    hide Accepted, IsModern, Winning, CellOf, Newer, Merged, LocalClock, ValueIn;
    forall f: string
      ensures f in Winning(host, event, c.id, c.actionAt, Selected(c)) <==>
        f in w.contents && Newer(w.Stamp(), CellOf(host, event, f).stamp)
      ensures CellOf(host, Merged(host, event, values, c), f) == StepCell(CellOf(host, event, f), w, f)
    {
      MergedCell(host, event, values, w, c, f);
    }
    assert forall f :: f in w.contents ==> f in FIELDS;
  }

  // ---------- Whole runs ----------

  // An open event with the rest of the first one; once anything was stored, there is an overlay.
  ghost predicate Tracks(site: Site, first: Option<Record>, reached: Option<Record>) {
    && site.Open(first) && site.Open(reached)
    && Rest(site.Visible(reached).value) == Rest(site.Visible(first).value)
    && (reached == first || reached.Some?)
  }

  function VisibleCells(site: Site, overlay: Option<Record>): map<string, Cell<Content>> {
    if site.Visible(overlay).Some? then Cells(site.host, site.Visible(overlay).value) else map[]
  }

  // Whether metadata may change depends only on what replay leaves alone.
  lemma OpenByRest(site: Site, a: Option<Record>, b: Option<Record>)
    requires site.Open(a) && b.Some? && Rest(b.value) == Rest(site.Visible(a).value)
    ensures site.Open(b)
  {
    var r, t := site.Visible(a).value, b.value;
    assert "lifecycle" !in FIELDS && "id" !in FIELDS && "organization_id" !in FIELDS;
    assert r.lifecycle == Rest(r).lifecycle == t.lifecycle;
    FieldByRest(r, t, "lifecycle");
    FieldByRest(r, t, "id");
    FieldByRest(r, t, "organization_id");
  }

  lemma FieldByRest(a: Record, b: Record, f: string)
    requires Rest(a) == Rest(b) && f !in FIELDS
    ensures Field(a, f) == Field(b, f)
  {
    assert f in a.fields <==> f in Rest(a).fields;
    assert f in b.fields <==> f in Rest(b).fields;
  }

  lemma OpenIsVisible(site: Site, overlay: Option<Record>)
    requires site.Open(overlay)
    ensures site.Visible(overlay).Some? && CurrentEvent(site.canonical, overlay, site.k) == site.Visible(overlay)
  {
  }

  lemma StepTracks(site: Site, first: Option<Record>, reached: Option<Record>, c: Command)
    requires Tracks(site, first, reached)
    ensures var next, cells := site.Next(reached, c), VisibleCells(site, reached);
      && Tracks(site, first, next) && VisibleCells(site, next) == Step(cells, site.WriteOf(c))
      && (next == reached || Advances(cells, site.WriteOf(c)))
  {
    hide Accepted, CurrentEvent, Rest, Cells, Winning, Merge;
    OpenIsVisible(site, first);
    OpenIsVisible(site, reached);
    var w, host, b := site.WriteOf(c), site.host, site.Visible(reached).value;
    if !site.Takes(c) {
      StepNothing(Cells(host, b), w);
    } else {
      var values := Accepted(host, c).value;
      var winning := Winning(host, b, c.id, c.actionAt, Selected(c));
      MergedCells(host, b, values, w, c);
      if winning != {} {
        var merged := Merged(host, b, values, c);
        assert site.Next(reached, c) == Some(merged);
        MergedRest(host, b, values, c);
        OpenByRest(site, reached, Some(merged));
        OpenIsVisible(site, Some(merged));
        var f :| f in winning;
        assert Advances(Cells(host, b), w);
      }
    }
  }

  lemma SiteSteps(site: Site, first: Option<Record>)
    ensures StepsByWrite(o => Tracks(site, first, o), o => VisibleCells(site, o), (o, c) => site.Next(o, c),
      c => site.WriteOf(c))
  {
    hide Tracks, VisibleCells, Advances, Step;
    forall o, c | Tracks(site, first, o)
      ensures Tracks(site, first, site.Next(o, c))
      ensures VisibleCells(site, site.Next(o, c)) == Step(VisibleCells(site, o), site.WriteOf(c))
      ensures site.Next(o, c) == o || Advances(VisibleCells(site, o), site.WriteOf(c))
    {
      StepTracks(site, first, o, c);
    }
  }

  lemma RunTracks(site: Site, overlay: Option<Record>, cs: seq<Command>)
    requires site.Open(overlay)
    ensures site.Open(site.Run(overlay, cs)) && site.Visible(overlay).Some? && site.Visible(site.Run(overlay, cs)).Some?
    ensures Cells(site.host, site.Visible(site.Run(overlay, cs)).value)
      == Replay(Cells(site.host, site.Visible(overlay).value), site.Writes(cs))
  {
    hide CurrentEvent, Rest, Cells;
    SiteSteps(site, overlay);
    OpenIsVisible(site, overlay);
    RunReplays(o => Tracks(site, overlay, o), o => VisibleCells(site, o), (o, c) => site.Next(o, c),
      c => site.WriteOf(c), overlay, cs);
    OpenIsVisible(site, site.Run(overlay, cs));
  }

  lemma {:induction false} ClosedRunStays(site: Site, overlay: Option<Record>, cs: seq<Command>)
    requires !site.Open(overlay)
    ensures site.Run(overlay, cs) == overlay
  {
    if cs != [] {
      ClosedRunStays(site, overlay, cs[..|cs| - 1]);
    }
  }

  // ---------- Convergence ----------

  /** Every order of replay, with any repeats, of commands with distinct ids ends with the same
      overlay under every key, apart from the time of the last change. The base is arbitrary: absent,
      readable and unreadable clocks, and events that may not change at all. */
  lemma EventReplayConverges(site: Site, overlay: Option<Record>, xs: seq<Command>, ys: seq<Command>)
    requires SameMembers(xs, ys) && DistinctCommandIds(xs)
    ensures SameOverlay(site.Run(overlay, xs), site.Run(overlay, ys))
  {
    hide Rest, Cells, CurrentEvent;
    if site.Open(overlay) {
      SiteSteps(site, overlay);
      RunsConverge(o => Tracks(site, overlay, o), o => VisibleCells(site, o), (o, c) => site.Next(o, c),
        c => site.WriteOf(c), overlay, xs, ys);
      var a, b := site.Run(overlay, xs), site.Run(overlay, ys);
      OpenIsVisible(site, a);
      OpenIsVisible(site, b);
      RecordDetermined(site.host, site.Visible(a).value, site.Visible(b).value);
    } else {
      ClosedRunStays(site, overlay, xs);
      ClosedRunStays(site, overlay, ys);
    }
  }

  /** And each field then holds the newest of the writes that beat the base, or the base. */
  lemma EventFieldIsNewest(site: Site, overlay: Option<Record>, cs: seq<Command>, f: string)
    requires site.Open(overlay) && f in FIELDS
    ensures site.Open(site.Run(overlay, cs))
    ensures IsWinner(CellOf(site.host, site.Visible(overlay).value, f), site.Writes(cs), f,
              CellOf(site.host, site.Visible(site.Run(overlay, cs)).value, f))
  {
    hide CurrentEvent, Rest;
    RunTracks(site, overlay, cs);
    var a, b := site.Visible(overlay).value, site.Visible(site.Run(overlay, cs)).value;
    ReplayWinner(Cells(site.host, a), site.Writes(cs), f);
    assert Cells(site.host, b)[f] == CellOf(site.host, b, f);
  }

  // ---------- The two dates stay together ----------

  predicate ClocksTogether(r: Record) {
    ClockOf(r, "start_date") == ClockOf(r, "end_date")
  }

  // The dates are real, in order, and span less than 366 days.
  ghost predicate GoodDates(start: Value, end: Value) {
    && start.Str? && end.Str?
    && Calendar.DateMilliseconds(start.s).Some? && Calendar.DateMilliseconds(end.s).Some?
    && !Calendar.CreateRangeRejected(Calendar.DateMilliseconds(start.s).value, Calendar.DateMilliseconds(end.s).value)
  }

  predicate DatesOf(r: Record, start: Value, end: Value) {
    Field(r, "start_date") == start && Field(r, "end_date") == end
  }

  lemma AcceptedDates(host: Host, c: Command)
    requires Accepted(host, c).Some? && IsModern(c)
    ensures var values := Accepted(host, c).value;
      && "start_date" in values && "end_date" in values
      && values["start_date"] == PayloadValue(c, "start_date") && values["end_date"] == PayloadValue(c, "end_date")
      && GoodDates(values["start_date"], values["end_date"])
  {
    hide NameValue, LocationValue, NoteValue, IsBudget, IsUuid, ToText, Calendar.ParseCalendarDate;
    var input := CommandInput(host, c);
    ValuesDates(host, input);
  }

  lemma ParseReturnsItself(value: Utf16)
    ensures Calendar.ParseCalendarDate(value).Some? ==> Calendar.ParseCalendarDate(value) == Some(value)
  {
  }

  lemma ValuesDates(host: Host, input: Input)
    requires Values(host, input, true).Some?
    ensures var values := Values(host, input, true).value;
      && "start_date" in values && "end_date" in values
      && GoodDates(values["start_date"], values["end_date"])
  {
    hide NameValue, LocationValue, NoteValue, IsBudget, Calendar.ParseCalendarDate, Calendar.MakeDay;
    ParseReturnsItself(input.startDate);
    ParseReturnsItself(input.endDate);
    var start, end := Calendar.ParseCalendarDate(input.startDate), Calendar.ParseCalendarDate(input.endDate);
    assert start == Some(input.startDate) && end == Some(input.endDate);
    Calendar.RangeChecksAgree(input.startDate, input.endDate);
  }

  lemma MergedField(host: Host, event: Record, values: map<string, Value>, c: Command, f: string)
    ensures var merged := Merged(host, event, values, c);
      var wins := f in Winning(host, event, c.id, c.actionAt, Selected(c));
      && Field(merged, f) == (if wins then ValueIn(values, f) else Field(event, f))
      && ClockOf(merged, f) == (if wins then LocalClock(c.id, c.actionAt) else ClockOf(event, f))
  {
  }

  lemma DatesWinTogether(host: Host, event: Record, c: Command)
    requires ClocksTogether(event)
    ensures var winning := Winning(host, event, c.id, c.actionAt, Selected(c));
      && ("start_date" in winning <==> "end_date" in winning)
      && ("start_date" in winning ==> IsModern(c))
  {
  }

  // One command moves both dates or neither.
  lemma MergedDates(host: Host, event: Record, values: map<string, Value>, c: Command)
    requires ClocksTogether(event) && Accepted(host, c) == Some(values)
    ensures var merged := Merged(host, event, values, c);
      && ClocksTogether(merged)
      && (|| DatesOf(merged, Field(event, "start_date"), Field(event, "end_date"))
          || (IsModern(c) && DatesOf(merged, PayloadValue(c, "start_date"), PayloadValue(c, "end_date"))))
  {
    hide Accepted, Merged, Winning, LocalClock, GoodDates, IsModern;
    DatesWinTogether(host, event, c);
    MergedField(host, event, values, c, "start_date");
    MergedField(host, event, values, c, "end_date");
    if IsModern(c) {
      AcceptedDates(host, c);
    }
  }

  lemma NextVisible(site: Site, overlay: Option<Record>, c: Command)
    requires site.Open(overlay)
    ensures site.Visible(site.Next(overlay, c)).Some?
    ensures var before, after := site.Visible(overlay).value, site.Visible(site.Next(overlay, c)).value;
      after == before || (site.Takes(c) && after == Merged(site.host, before, Accepted(site.host, c).value, c))
  {
  }

  lemma NextKeepsDates(site: Site, overlay: Option<Record>, c: Command)
    requires site.Open(overlay) && ClocksTogether(site.Visible(overlay).value)
    ensures site.Visible(site.Next(overlay, c)).Some?
    ensures var before, after := site.Visible(overlay).value, site.Visible(site.Next(overlay, c)).value;
      && ClocksTogether(after)
      && (|| DatesOf(after, Field(before, "start_date"), Field(before, "end_date"))
          || (&& site.Takes(c) && IsModern(c)
              && DatesOf(after, PayloadValue(c, "start_date"), PayloadValue(c, "end_date"))))
  {
    hide Accepted, CurrentEvent, ReplayAt, Merged, IsModern;
    OpenIsVisible(site, overlay);
    NextVisible(site, overlay, c);
    if site.Takes(c) {
      MergedDates(site.host, site.Visible(overlay).value, Accepted(site.host, c).value, c);
    }
  }

  /** If the clocks of the two dates begin equal they stay equal through every replay; the two dates
      always come from the base or from one command, so a good range stays good. */
  lemma {:induction false} DatesStayTogether(site: Site, overlay: Option<Record>, cs: seq<Command>)
    requires site.Open(overlay) && ClocksTogether(site.Visible(overlay).value)
    ensures site.Open(site.Run(overlay, cs))
    ensures var before, after := site.Visible(overlay).value, site.Visible(site.Run(overlay, cs)).value;
      && ClocksTogether(after)
      && (|| DatesOf(after, Field(before, "start_date"), Field(before, "end_date"))
          || exists c ::
               && c in cs && site.Takes(c) && IsModern(c)
               && DatesOf(after, PayloadValue(c, "start_date"), PayloadValue(c, "end_date")))
      && (GoodDates(Field(before, "start_date"), Field(before, "end_date")) ==>
          GoodDates(Field(after, "start_date"), Field(after, "end_date")))
  {
    hide Accepted, CurrentEvent, ReplayAt, IsModern, GoodDates;
    RunTracks(site, overlay, cs);
    if cs != [] {
      var earlier, last := cs[..|cs| - 1], cs[|cs| - 1];
      DatesStayTogether(site, overlay, earlier);
      NextKeepsDates(site, site.Run(overlay, earlier), last);
      if site.Takes(last) && IsModern(last) {
        AcceptedDates(site.host, last);
      }
    }
  }
}
