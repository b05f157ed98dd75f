/** Replaying catalog configuration converges over every order of the commands, creation and
    lifecycle included, and a meal-role preset keeps exactly one kind of name. */
module CatalogConvergence {
  import opened Text
  import opened Wrappers
  import opened Replica
  import opened CatalogConfiguration
  import opened LastWriter

  // ---------- A record seen as cells ----------

  datatype Content = Content(value: Option<Value>, lifecycle: Option<Lifecycle>, clock: Option<Clock>)

  const OWNED: seq<string> :=
    ["name", "position_key", "color", "custom_name", "built_in_translation_key", "retired_at", "id", "organization_id"]

  function StampOf(host: Host, clock: Clock): Stamp {
    match clock
    case NoClock => Unset
    case NotAnObject => Unset
    case Clock(_, _, _, _) =>
      var at := StringOr(clock.actionAt, clock.winningTime);
      var id := StringOr(clock.mutationId, clock.winningId);
      if at.GetOr([]) == [] || id.GetOr([]) == [] then Unset
      else if host.nanos(at.value).None? then Frozen
      else At(host.nanos(at.value).value, id.value)
  }

  function CellOf(host: Host, r: Record, f: string): Cell<Content> {
    var lifecycle := if f == "lifecycle" then Some(r.lifecycle) else None;
    Cell(Content(Lookup(r.fields, StoredName(f)), lifecycle, Lookup(r.fieldClocks, f)),
      StampOf(host, ClockOf(r, f)))
  }

  function Cells(host: Host, r: Record): map<string, Cell<Content>> {
    map f | f in CLOCKED :: CellOf(host, r, f)
  }

  // Everything of a record that replay leaves alone, the constant identity fields aside.
  function Rest(r: Record): Record {
    Record(Active, Except(r.fields, OWNED), Except(r.fieldClocks, CLOCKED), [])
  }

  function NewContent(m: Mutation, f: string): Content {
    Content(Some(StoredValue(m, f)),
      if f == "lifecycle" then Some(if m.operation == Retire then Retired else Active) else None,
      Some(LocalClock(m.id, m.actionAt)))
  }

  datatype Site = Site(host: Host, userId: Utf16, organizationId: Utf16, canonical: Option<Record>, k: Key) {
    function Current(overlay: Option<Record>): Record {
      Base(OrElse(overlay, canonical))
    }

    function Next(overlay: Option<Record>, c: Command): Option<Record> {
      ReplayAt(host, userId, organizationId, canonical, overlay, k, c)
    }

    function Run(overlay: Option<Record>, cs: seq<Command>): Option<Record> {
      LastWriter.Run((o, c) => Next(o, c), overlay, cs)
    }

    predicate Takes(c: Command) {
      Accepted(host, c).Some? && k == MutationKey(userId, organizationId, Accepted(host, c).value)
    }

    function WriteOf(c: Command): Write<string, Content> {
      var contents :=
        if !Takes(c) then map[]
        else
          var m := Accepted(host, c).value;
          (map f | f in ClockFields(m.kind, m.operation) :: NewContent(m, f));
      Write(host.nanos(c.actionAt).GetOr(0), c.id, contents)
    }
  }

  lemma WinsIsNewer(host: Host, clock: Clock, mutationId: Utf16, actionAt: Utf16)
    requires host.nanos(actionAt).Some?
    ensures Wins(host, actionAt, mutationId, clock) <==>
      Newer(At(host.nanos(actionAt).value, mutationId), StampOf(host, clock))
  {
  }

  // A host that reads no time from the empty text, as the source's timestamp pattern does not.
  predicate Sane(host: Host) {
    host.nanos([]).None?
  }

  lemma AcceptedStamp(host: Host, c: Command)
    requires Sane(host) && Accepted(host, c).Some?
    ensures var m := Accepted(host, c).value;
      && m.id == c.id && m.actionAt == c.actionAt && host.nanos(c.actionAt).Some?
      && StampOf(host, LocalClock(m.id, m.actionAt)) == At(host.nanos(c.actionAt).value, c.id)
  {
  }

  // ---------- One mutation ----------

  lemma {:induction false} FilterMembers(host: Host, m: Mutation, current: Record, names: seq<string>)
    ensures forall f :: f in Filter(host, m, current, names) <==>
      f in names && Wins(host, m.actionAt, m.id, ClockOf(current, f))
  {
    hide Wins;
    if names != [] {
      FilterMembers(host, m, current, names[..|names| - 1]);
      assert names == names[..|names| - 1] + [names[|names| - 1]];
    }
  }

  lemma ClockFieldsClocked(kind: Kind, operation: Operation)
    ensures forall f :: f in ClockFields(kind, operation) ==> f in CLOCKED
  {
  }

  lemma {:induction false} SetFieldsAt(fields: map<string, Value>, m: Mutation, winning: seq<string>, f: string)
    requires f in CLOCKED && forall w :: w in winning ==> w in CLOCKED
    ensures Lookup(SetFields(fields, m, winning), StoredName(f)) ==
      if f in winning then Some(StoredValue(m, f)) else Lookup(fields, StoredName(f))
  {
    hide StoredValue;
    if winning != [] {
      var earlier, last := winning[..|winning| - 1], winning[|winning| - 1];
      SetFieldsAt(fields, m, earlier, f);
      assert winning == earlier + [last];
      StoredNameInjective(f, last);
    }
  }

  lemma StoredNameInjective(f: string, g: string)
    requires f in CLOCKED && g in CLOCKED
    ensures StoredName(f) == StoredName(g) <==> f == g
    ensures StoredName(f) in OWNED && StoredName(f) != "id" && StoredName(f) != "organization_id"
  {
  }

  lemma {:induction false} SetFieldsElsewhere(fields: map<string, Value>, m: Mutation, winning: seq<string>,
        name: string)
    requires forall w :: w in winning ==> w in CLOCKED
    requires name !in OWNED || name == "id" || name == "organization_id"
    ensures Lookup(SetFields(fields, m, winning), name) == Lookup(fields, name)
  {
    hide StoredValue, StoredName;
    if winning != [] {
      SetFieldsElsewhere(fields, m, winning[..|winning| - 1], name);
      StoredNameInjective(winning[|winning| - 1], winning[|winning| - 1]);
    }
  }

  lemma PutCell(host: Host, k: Key, m: Mutation, current: Record, w: Write<string, Content>, f: string)
    requires f in CLOCKED && w.Stamp() == StampOf(host, LocalClock(m.id, m.actionAt)) && w.Stamp().At?
    requires w.contents == map g | g in ClockFields(m.kind, m.operation) :: NewContent(m, g)
    requires host.nanos(m.actionAt).Some? && w.Stamp() == At(host.nanos(m.actionAt).value, m.id)
    ensures var winning := Winning(host, m, current);
      && (f in winning <==> f in w.contents && Newer(w.Stamp(), CellOf(host, current, f).stamp))
      && CellOf(host, Put(k, m, current, winning), f) == StepCell(CellOf(host, current, f), w, f)
  {
    hide Wins, StampOf, Newer, StoredValue, ClockFields, SetFields, LocalClock;
    var winning := Winning(host, m, current);
    FilterMembers(host, m, current, ClockFields(m.kind, m.operation));
    ClockFieldsClocked(m.kind, m.operation);
    WinsIsNewer(host, ClockOf(current, f), m.id, m.actionAt);
    var base := current.fields["id" := Str(k.entityId)]["organization_id" := Str(k.organizationId)];
    SetFieldsAt(base, m, winning, f);
    StoredNameInjective(f, f);
  }

  // Outside its clocked fields, a mutation sets the identity fields and nothing else.
  lemma PutElsewhere(host: Host, k: Key, m: Mutation, current: Record, name: string)
    requires name !in OWNED || name == "id" || name == "organization_id"
    ensures Lookup(Put(k, m, current, Winning(host, m, current)).fields, name) ==
      if name == "id" then Some(Str(k.entityId))
      else if name == "organization_id" then Some(Str(k.organizationId))
      else Lookup(current.fields, name)
  {
    hide Wins, StoredValue, StoredName, ClockFields, SetFields, LocalClock;
    FilterMembers(host, m, current, ClockFields(m.kind, m.operation));
    ClockFieldsClocked(m.kind, m.operation);
    SetFieldsElsewhere(current.fields["id" := Str(k.entityId)]["organization_id" := Str(k.organizationId)],
      m, Winning(host, m, current), name);
  }

  lemma PutRest(host: Host, k: Key, m: Mutation, current: Record)
    ensures Rest(Put(k, m, current, Winning(host, m, current))) == Rest(current)
  {
    hide Wins, StoredValue, StoredName, ClockFields, SetFields, LocalClock;
    FilterMembers(host, m, current, ClockFields(m.kind, m.operation));
    ClockFieldsClocked(m.kind, m.operation);
    var put := Put(k, m, current, Winning(host, m, current));
    assert "id" in OWNED && "organization_id" in OWNED;
    forall name: string
      ensures Lookup(Except(put.fields, OWNED), name) == Lookup(Except(current.fields, OWNED), name)
    {
      if name !in OWNED {
        PutElsewhere(host, k, m, current, name);
      }
    }
    SameLookups(Except(put.fields, OWNED), Except(current.fields, OWNED));
    assert Except(put.fieldClocks, CLOCKED) == Except(current.fieldClocks, CLOCKED);
  }

  lemma PutCells(host: Host, k: Key, m: Mutation, current: Record, w: Write<string, Content>)
    requires w.contents == map g | g in ClockFields(m.kind, m.operation) :: NewContent(m, g)
    requires host.nanos(m.actionAt).Some? && w.Stamp() == At(host.nanos(m.actionAt).value, m.id)
    requires w.Stamp() == StampOf(host, LocalClock(m.id, m.actionAt))
    ensures var winning := Winning(host, m, current);
      && Cells(host, Put(k, m, current, winning)) == Step(Cells(host, current), w)
      && (forall f :: f in winning ==>
        f in Cells(host, current) && f in w.contents && Newer(w.Stamp(), Cells(host, current)[f].stamp))
      && (winning == [] ==> Step(Cells(host, current), w) == Cells(host, current))
  {
    hide Winning, CellOf, Newer, Put, ClockFields, NewContent, LocalClock, StampOf;
    ClockFieldsClocked(m.kind, m.operation);
    WinningClocked(host, m, current);
    var winning := Winning(host, m, current);
    forall f | f in CLOCKED
      ensures f in winning <==> f in w.contents && Newer(w.Stamp(), CellOf(host, current, f).stamp)
      ensures CellOf(host, Put(k, m, current, winning), f) == StepCell(CellOf(host, current, f), w, f)
    {
      PutCell(host, k, m, current, w, f);
    }
    assert winning == [] ==> forall f :: f in CLOCKED ==> f !in winning;
  }

  lemma WinningClocked(host: Host, m: Mutation, current: Record)
    ensures forall f :: f in Winning(host, m, current) ==> f in CLOCKED
  {
    hide Wins, ClockFields;
    FilterMembers(host, m, current, ClockFields(m.kind, m.operation));
    ClockFieldsClocked(m.kind, m.operation);
  }

  // Equal cells, identity and rest make equal records.
  lemma RecordDetermined(host: Host, a: Record, b: Record)
    requires Cells(host, a) == Cells(host, b) && Rest(a) == Rest(b)
    requires Lookup(a.fields, "id") == Lookup(b.fields, "id")
    requires Lookup(a.fields, "organization_id") == Lookup(b.fields, "organization_id")
    ensures SameRecord(a, b)
  {
    hide StampOf;
    forall f | f in CLOCKED
      ensures Lookup(a.fields, StoredName(f)) == Lookup(b.fields, StoredName(f))
      ensures Lookup(a.fieldClocks, f) == Lookup(b.fieldClocks, f)
    {
      assert Cells(host, a)[f] == Cells(host, b)[f];
    }
    forall name: string
      ensures Lookup(a.fields, name) == Lookup(b.fields, name)
      ensures Lookup(a.fieldClocks, name) == Lookup(b.fieldClocks, name)
    {
      OwnedNames(name);
      assert Lookup(Rest(a).fields, name) == Lookup(Rest(b).fields, name);
      assert Lookup(Rest(a).fieldClocks, name) == Lookup(Rest(b).fieldClocks, name);
    }
    SameLookups(a.fields, b.fields);
    SameLookups(a.fieldClocks, b.fieldClocks);
    assert Cells(host, a)["lifecycle"] == Cells(host, b)["lifecycle"];
  }

  lemma OwnedNames(name: string)
    ensures name in OWNED ==>
      name == "id" || name == "organization_id" || exists f :: f in CLOCKED && StoredName(f) == name
  {
    if name == "retired_at" {
      assert "lifecycle" in CLOCKED && StoredName("lifecycle") == name;
    } else if name in OWNED && name != "id" && name != "organization_id" {
      assert name in CLOCKED && StoredName(name) == name;
    }
  }

  // ---------- Whole runs ----------

  // The rest of the first record; once anything was stored, the identity fields too.
  ghost predicate Tracks(site: Site, first: Option<Record>, reached: Option<Record>) {
    var b := site.Current(reached);
    && Rest(b) == Rest(site.Current(first))
    && (reached == first ||
        (reached.Some? && Lookup(b.fields, "id") == Some(Str(site.k.entityId))
         && Lookup(b.fields, "organization_id") == Some(Str(site.k.organizationId))))
  }

  function CurrentCells(site: Site, overlay: Option<Record>): map<string, Cell<Content>> {
    Cells(site.host, site.Current(overlay))
  }

  lemma PutIdentity(host: Host, k: Key, m: Mutation, b: Record)
    ensures var put := Put(k, m, b, Winning(host, m, b));
      && Rest(put) == Rest(b)
      && Lookup(put.fields, "id") == Some(Str(k.entityId))
      && Lookup(put.fields, "organization_id") == Some(Str(k.organizationId))
  {
    hide Put, Winning, Rest;
    PutRest(host, k, m, b);
    PutElsewhere(host, k, m, b, "id");
    PutElsewhere(host, k, m, b, "organization_id");
  }

  lemma StepTracks(site: Site, first: Option<Record>, reached: Option<Record>, c: Command)
    requires Sane(site.host) && Tracks(site, first, reached)
    ensures var next, cells := site.Next(reached, c), CurrentCells(site, reached);
      && Tracks(site, first, next) && CurrentCells(site, next) == Step(cells, site.WriteOf(c))
      && (next == reached || Advances(cells, site.WriteOf(c)))
  {
    hide Accepted, Rest, Cells, Winning, Put, StampOf, NewContent, Step, Newer, ClockFields, LocalClock;
    var w, host, b := site.WriteOf(c), site.host, site.Current(reached);
    if !site.Takes(c) {
      StepNothing(Cells(host, b), w);
    } else {
      var m := Accepted(host, c).value;
      AcceptedStamp(host, c);
      PutCells(host, site.k, m, b, w);
      var winning := Winning(host, m, b);
      if winning != [] {
        PutIdentity(host, site.k, m, b);
        assert winning[0] in winning;
      }
    }
  }

  lemma SiteSteps(site: Site, first: Option<Record>)
    requires Sane(site.host)
    ensures StepsByWrite(o => Tracks(site, first, o), o => CurrentCells(site, o), (o, c) => site.Next(o, c),
      c => site.WriteOf(c))
  {
    hide Tracks, CurrentCells, Advances, Step;
    forall o, c | Tracks(site, first, o)
      ensures Tracks(site, first, site.Next(o, c))
      ensures CurrentCells(site, site.Next(o, c)) == Step(CurrentCells(site, o), site.WriteOf(c))
      ensures site.Next(o, c) == o || Advances(CurrentCells(site, o), site.WriteOf(c))
    {
      StepTracks(site, first, o, c);
    }
  }

  // ---------- Convergence ----------

  /** Every order of replay, with any repeats, of commands with distinct ids ends with the same
      overlay under every key, apart from the time of the last change: the same fields, clocks and
      lifecycle, whether the record existed or is created by the commands. */
  lemma CatalogReplayConverges(site: Site, overlay: Option<Record>, xs: seq<Command>, ys: seq<Command>)
    requires Sane(site.host)
    requires SameMembers(xs, ys) && DistinctCommandIds(xs)
    ensures SameOverlay(site.Run(overlay, xs), site.Run(overlay, ys))
  {
    hide Rest, Cells;
    SiteSteps(site, overlay);
    RunsConverge(o => Tracks(site, overlay, o), o => CurrentCells(site, o), (o, c) => site.Next(o, c),
      c => site.WriteOf(c), overlay, xs, ys);
    var a, b := site.Run(overlay, xs), site.Run(overlay, ys);
    if a != overlay {
      RecordDetermined(site.host, site.Current(a), site.Current(b));
    }
  }

  /** And each clocked field then holds the newest of the writes that beat the base, or the base. */
  lemma CatalogFieldIsNewest(site: Site, overlay: Option<Record>, cs: seq<Command>, f: string)
    requires Sane(site.host) && f in CLOCKED
    ensures IsWinner(CellOf(site.host, site.Current(overlay), f), Writes(c => site.WriteOf(c), cs), f,
              CellOf(site.host, site.Current(site.Run(overlay, cs)), f))
  {
    hide Rest, Replay, IsWinner;
    SiteSteps(site, overlay);
    RunReplays(o => Tracks(site, overlay, o), o => CurrentCells(site, o), (o, c) => site.Next(o, c),
      c => site.WriteOf(c), overlay, cs);
    var a, b := site.Current(overlay), site.Current(site.Run(overlay, cs));
    ReplayWinner(Cells(site.host, a), Writes(c => site.WriteOf(c), cs), f);
    assert Cells(site.host, a)[f] == CellOf(site.host, a, f);
    assert Cells(site.host, b)[f] == CellOf(site.host, b, f);
  }

  // ---------- Meal-role presets ----------

  predicate ClocksTogether(r: Record) {
    ClockOf(r, "custom_name") == ClockOf(r, "built_in_translation_key")
  }

  ghost predicate Exclusive(custom: Value, builtIn: Value) {
    (custom.Str? && builtIn.Null?) || (custom.Null? && builtIn.Str?)
  }

  predicate NamesOf(r: Record, custom: Value, builtIn: Value) {
    Field(r, "custom_name") == custom && Field(r, "built_in_translation_key") == builtIn
  }

  lemma AcceptedNames(host: Host, c: Command)
    requires Accepted(host, c).Some?
    ensures var m := Accepted(host, c).value;
      m.kind == MealRolePreset && (m.operation == Create || m.operation == Update) ==>
        Exclusive(ValueIn(m.values, "custom_name"), ValueIn(m.values, "built_in_translation_key"))
  {
    hide ReadKind, ReadOperation, IsUuid, ValidPosition, ValidColor;
  }

  lemma NamesWinTogether(host: Host, m: Mutation, current: Record)
    requires m.kind == MealRolePreset && ClocksTogether(current)
    ensures var winning := Winning(host, m, current);
      && ("custom_name" in winning <==> "built_in_translation_key" in winning)
      && ("custom_name" in winning ==> m.operation == Create || m.operation == Update)
  {
    hide Wins;
    FilterMembers(host, m, current, ClockFields(m.kind, m.operation));
    assert UpdateClockFields(MealRolePreset)[0] == "built_in_translation_key";
    assert UpdateClockFields(MealRolePreset)[1] == "custom_name";
  }

  lemma PutName(host: Host, k: Key, m: Mutation, current: Record, f: string)
    requires f == "custom_name" || f == "built_in_translation_key"
    ensures var winning := Winning(host, m, current);
      var put := Put(k, m, current, winning);
      && Field(put, f) == (if f in winning then ValueIn(m.values, f) else Field(current, f))
      && ClockOf(put, f) == (if f in winning then LocalClock(m.id, m.actionAt) else ClockOf(current, f))
  {
    hide Winning, LocalClock, SetFields;
    WinningClocked(host, m, current);
    var base := current.fields["id" := Str(k.entityId)]["organization_id" := Str(k.organizationId)];
    SetFieldsAt(base, m, Winning(host, m, current), f);
    var put := Put(k, m, current, Winning(host, m, current));
    assert Lookup(put.fields, f) == if f in Winning(host, m, current) then Some(ValueIn(m.values, f))
      else Lookup(current.fields, f);
  }

  // One command moves both names or neither.
  lemma NextKeepsNames(site: Site, overlay: Option<Record>, c: Command)
    requires site.k.entityType == KindName(MealRolePreset) && ClocksTogether(site.Current(overlay))
    ensures var before, after := site.Current(overlay), site.Current(site.Next(overlay, c));
      && ClocksTogether(after)
      && (|| NamesOf(after, Field(before, "custom_name"), Field(before, "built_in_translation_key"))
          || Exclusive(Field(after, "custom_name"), Field(after, "built_in_translation_key")))
  {
    hide Accepted, Winning, Put, LocalClock, Exclusive;
    if site.Takes(c) {
      var m, current := Accepted(site.host, c).value, site.Current(overlay);
      assert m.kind == MealRolePreset;
      AcceptedNames(site.host, c);
      NamesWinTogether(site.host, m, current);
      PutName(site.host, site.k, m, current, "custom_name");
      PutName(site.host, site.k, m, current, "built_in_translation_key");
    }
  }

  /** If the clocks of a preset's two names begin equal or both absent they stay so, and the preset
      keeps the names it began with or has exactly one custom name or built-in key. */
  lemma {:induction false} PresetNamesExclusive(site: Site, overlay: Option<Record>, cs: seq<Command>)
    requires site.k.entityType == KindName(MealRolePreset) && ClocksTogether(site.Current(overlay))
    ensures var before, after := site.Current(overlay), site.Current(site.Run(overlay, cs));
      && ClocksTogether(after)
      && (|| NamesOf(after, Field(before, "custom_name"), Field(before, "built_in_translation_key"))
          || Exclusive(Field(after, "custom_name"), Field(after, "built_in_translation_key")))
  {
    hide ReplayAt, Exclusive;
    if cs != [] {
      PresetNamesExclusive(site, overlay, cs[..|cs| - 1]);
      NextKeepsNames(site, site.Run(overlay, cs[..|cs| - 1]), cs[|cs| - 1]);
    }
  }
}
