/** Which changes to a meal role are accepted and what each stores, written out from the tables and the
    payload, and why the replica does exactly that. */
module RoleRules {
  import opened Text
  import opened Digits
  import opened Wrappers
  import opened Replica
  import opened MealRoles
  import opened Shapes

  // ---------- Texts ----------

  ghost predicate GoodName(s: Utf16) {
    1 <= |s| <= 200 && Clean(s)
  }

  lemma {:induction false} CleanCharacters(s: Utf16)
    requires Clean(s)
    ensures |Characters(s)| == |s|
  {
    if s != [] { CleanCharacters(s[1..]); }
  }

  /** A valid name is 1 to 200 code units, none of them U+0000 or half of a pair. */
  lemma NameIs(s: Utf16)
    ensures ValidName(s) <==> GoodName(s)
  {
    if Clean(s) { CleanCharacters(s); }
  }

  lemma LastUnit(s: Utf16, u: Unit)
    ensures WithoutDashes(s + [u]) == WithoutDashes(s) + if u == 0x2D then [] else [u]
  {
    assert (s + [u])[..|s|] == s;
  }

  lemma {:induction false} DashesDropped(s: Utf16, separator: Utf16, rest: Utf16)
    requires separator == [] || separator == [0x2D]
    requires forall i :: 0 <= i < |rest| ==> rest[i] != 0x2D
    ensures WithoutDashes(s + separator + rest) == WithoutDashes(s) + rest
  {
    hide WithoutDashes;
    if rest == [] {
      assert s + separator + rest == s + separator;
      if separator == [] { assert s + [] == s; } else { LastUnit(s, 0x2D); }
    } else {
      var front, last := rest[..|rest| - 1], rest[|rest| - 1];
      DashesDropped(s, separator, front);
      LastUnit(s + separator + front, last);
      assert s + separator + rest == s + separator + front + [last] && rest == front + [last];
    }
  }

  lemma NoDashes()
    ensures WithoutDashes([]) == []
  {
  }

  /** Of a UUID the hyphens are dropped and the five groups of digits stay. */
  lemma DashesOfUuid(s: Utf16, a: Utf16, b: Utf16, c: Utf16, d: Utf16, e: Utf16)
    requires HexGroups(s, a, b, c, d, e)
    ensures WithoutDashes(s) == a + b + c + d + e
  {
    var hyphen, all := AsciiText("-"), a + b + c + d + e;
    forall i | 0 <= i < |all|
      ensures all[i] != Ascii('-')
    {
    }
    assert forall i :: 0 <= i < |a| ==> a[i] == all[i];
    assert forall i :: 0 <= i < |b| ==> b[i] == all[8 + i];
    assert forall i :: 0 <= i < |c| ==> c[i] == all[12 + i];
    assert forall i :: 0 <= i < |d| ==> d[i] == all[16 + i];
    assert forall i :: 0 <= i < |e| ==> e[i] == all[20 + i];
    hide WithoutDashes;
    NoDashes();
    assert [] + [] + a == a && hyphen == [0x2D];
    DashesDropped([], [], a);
    DashesDropped(a, hyphen, b);
    DashesDropped(a + hyphen + b, hyphen, c);
    DashesDropped(a + hyphen + b + hyphen + c, hyphen, d);
    DashesDropped(a + hyphen + b + hyphen + c + hyphen + d, hyphen, e);
  }

  // ---------- What the tables say ----------

  // The pending row when there is one, and otherwise the authoritative row.
  ghost predicate Shows(canonical: Table, overlays: Table, k: Key, r: Record) {
    if k in overlays then overlays[k] == r else k in canonical && canonical[k] == r
  }

  // The server has not retired the event, and the row shown says it is active.
  ghost predicate NotClosed(canonical: Table, overlays: Table, event: Key, r: Record) {
    && !(event in canonical && canonical[event].lifecycle == Retired)
    && Shows(canonical, overlays, event, r) && Lookup(r.fields, "lifecycle") == Some(Str(AsciiText("active")))
  }

  // A role other than `roleId` goes by the name in either table.
  ghost predicate NameTaken(canonical: Table, overlays: Table, userId: Utf16, organizationId: Utf16, roleId: Utf16,
        eventId: Utf16, name: Utf16)
  {
    exists other, r ::
      && Holds(canonical, overlays, Key(userId, organizationId, "event_meal_role", other), r) && other != roleId
      && Lookup(r.fields, "event_id") == Some(Str(eventId))
      && Lookup(r.fields, "normalized_custom_name") == Some(Str(name))
  }

  // The first of two spellings that is a text.
  ghost predicate Given(local: Value, server: Value, s: Utf16) {
    local == Str(s) || (!local.Str? && server == Str(s))
  }

  // No clock, or one of an earlier time, or of the same time and a lesser id.
  ghost predicate Beats(host: Host, a: Action, clock: Clock) {
    || clock.NoClock?
    || (clock.Clock? && exists at, id ::
          && Given(clock.actionAt, clock.winningTime, at) && Given(clock.mutationId, clock.winningId, id)
          && IsUuid(id) && host.nanos(at).Some? && host.nanos(a.actionAt).Some?
          && var before, now := host.nanos(at).value, host.nanos(a.actionAt).value;
          before < now || (before == now && Less(id, a.mutationId)))
  }

  lemma BeatsIs(host: Host, a: Action, clock: Clock)
    ensures Wins(host, clock, a.mutationId, a.actionAt) <==> Beats(host, a, clock)
  {
    hide IsUuid, Less;
    if clock.Clock? && Wins(host, clock, a.mutationId, a.actionAt) {
      var at, id := StringOr(clock.actionAt, clock.winningTime), StringOr(clock.mutationId, clock.winningId);
      assert Given(clock.actionAt, clock.winningTime, at.s) && Given(clock.mutationId, clock.winningId, id.s);
    }
  }

  lemma OpenIs(canonical: Table, overlays: Table, event: Key)
    ensures !RetiredIn(canonical, event) && FieldActive(Visible(canonical, overlays, event)) <==>
      exists r :: NotClosed(canonical, overlays, event, r)
    ensures OpenEvent(canonical, overlays, event) <==>
      exists r :: NotClosed(canonical, overlays, event, r) && r.lifecycle == Active
  {
    var shown := Visible(canonical, overlays, event);
    if shown.Some? { assert Shows(canonical, overlays, event, shown.value); }
    if !RetiredIn(canonical, event) && FieldActive(shown) {
      assert NotClosed(canonical, overlays, event, shown.value);
    }
  }

  lemma ShowsIs(canonical: Table, overlays: Table, k: Key, r: Record)
    ensures Visible(canonical, overlays, k) == Some(r) <==> Shows(canonical, overlays, k, r)
  {
  }

  lemma TakenIs(canonical: Table, overlays: Table, userId: Utf16, organizationId: Utf16, roleId: Utf16,
        eventId: Utf16, name: Utf16)
    ensures Taken(canonical, overlays, RoleKey(userId, organizationId, roleId), eventId, name) <==>
      NameTaken(canonical, overlays, userId, organizationId, roleId, eventId, name)
  {
    var role := RoleKey(userId, organizationId, roleId);
    if TakenIn(canonical, role, eventId, name) {
      var k :| k in canonical && SameScope(k, role) && k.entityId != role.entityId
        && Field(canonical[k], "event_id") == Str(eventId)
        && Field(canonical[k], "normalized_custom_name") == Str(name);
      assert k == Key(userId, organizationId, "event_meal_role", k.entityId);
      assert Holds(canonical, overlays, k, canonical[k]);
    }
    if TakenIn(overlays, role, eventId, name) {
      var k :| k in overlays && SameScope(k, role) && k.entityId != role.entityId
        && Field(overlays[k], "event_id") == Str(eventId)
        && Field(overlays[k], "normalized_custom_name") == Str(name);
      assert k == Key(userId, organizationId, "event_meal_role", k.entityId);
      assert Holds(canonical, overlays, k, overlays[k]);
    }
  }

  // ---------- What a change stores ----------

  // The role as it is shown, of the event, in this part of its life, and with a clock the action beats.
  ghost predicate Changeable(host: Host, canonical: Table, overlays: Table, a: Action, role: Record,
        lifecycle: Lifecycle, clock: string)
  {
    && Shows(canonical, overlays, Key(a.userId, a.organizationId, "event_meal_role", a.roleId), role)
    && Lookup(role.fields, "event_id") == Some(Str(a.eventId)) && role.lifecycle == lifecycle
    && (clock in role.fieldClocks ==> Beats(host, a, role.fieldClocks[clock]))
  }

  ghost predicate EventOpen(canonical: Table, overlays: Table, a: Action) {
    exists event ::
      && NotClosed(canonical, overlays, Key(a.userId, a.organizationId, "event", a.eventId), event)
      && event.lifecycle == Active
  }

  // Moving a role does not look at the life of the row shown for the event, only at the event's own field.
  ghost predicate EventNotClosed(canonical: Table, overlays: Table, a: Action) {
    exists event :: NotClosed(canonical, overlays, Key(a.userId, a.organizationId, "event", a.eventId), event)
  }

  // The action is accepted with `role` before it, or with no role for a new one.
  ghost predicate Allowed(host: Host, canonical: Table, overlays: Table, a: Action, role: Option<Record>) {
    match a.change
    case CreateRole(name) =>
      && role.None? && EventOpen(canonical, overlays, a)
      && !NameTaken(canonical, overlays, a.userId, a.organizationId, a.roleId, a.eventId, host.lower(name))
    case RenameRole(name) =>
      && role.Some? && EventOpen(canonical, overlays, a)
      && Changeable(host, canonical, overlays, a, role.value, Active, "custom_name")
      && Lookup(role.value.fields, "built_in_translation_key") == Some(Null)
      && !NameTaken(canonical, overlays, a.userId, a.organizationId, a.roleId, a.eventId, host.lower(name))
    case MoveRole(_) =>
      && role.Some? && EventNotClosed(canonical, overlays, a)
      && Changeable(host, canonical, overlays, a, role.value, Active, "position_key")
    case RetireRole =>
      && role.Some? && EventOpen(canonical, overlays, a)
      && Changeable(host, canonical, overlays, a, role.value, Active, "lifecycle")
    case RestoreRole =>
      && role.Some? && EventOpen(canonical, overlays, a)
      && Changeable(host, canonical, overlays, a, role.value, Retired, "lifecycle")
  }

  ghost predicate NewFields(host: Host, a: Action, name: Utf16, fields: map<string, Value>) {
    && fields.Keys == {"id", "event_id", "source_preset_id", "built_in_translation_key", "custom_name",
                       "normalized_custom_name", "position_key", "retired_at"}
    && fields["id"] == Str(a.roleId) && fields["event_id"] == Str(a.eventId)
    && fields["custom_name"] == Str(name) && fields["normalized_custom_name"] == Str(host.lower(name))
    && fields["source_preset_id"] == Null && fields["built_in_translation_key"] == Null && fields["retired_at"] == Null
    && fields["position_key"].Str?
    && forall p, q, r, s, t :: HexGroups(a.roleId, p, q, r, s, t) ==>
         fields["position_key"].s == AsciiText("z") + p + q + r + s + t
  }

  // The row after the action: the fields and the one clock it writes, and all else as before.
  ghost predicate Becomes(host: Host, a: Action, role: Option<Record>, after: Record) {
    var clock := LocalClock(a.mutationId, a.actionAt);
    && after.updatedAt == a.actionAt
    && match (a.change, role)
       case (CreateRole(name), _) =>
         && after.lifecycle == Active && NewFields(host, a, name, after.fields)
         && after.fieldClocks == map["position_key" := clock]
       case (RenameRole(name), Some(before)) =>
         && after.lifecycle == Active && after.fieldClocks == before.fieldClocks["custom_name" := clock]
         && after.fields ==
            before.fields["custom_name" := Str(name)]["normalized_custom_name" := Str(host.lower(name))]
       case (MoveRole(position), Some(before)) =>
         && after.lifecycle == Active && after.fieldClocks == before.fieldClocks["position_key" := clock]
         && after.fields == before.fields["position_key" := Str(position)]
       case (RetireRole, Some(before)) =>
         && after.lifecycle == Retired && after.fieldClocks == before.fieldClocks["lifecycle" := clock]
         && after.fields == before.fields["retired_at" := Str(a.actionAt)]
       case (RestoreRole, Some(before)) =>
         && after.lifecycle == Active && after.fieldClocks == before.fieldClocks["lifecycle" := clock]
         && after.fields == before.fields["retired_at" := Null]
       case _ => false
  }

  lemma NewRoleIs(host: Host, a: Action, name: Utf16)
    requires a.change == CreateRole(name)
    ensures Becomes(host, a, None, NewRole(host, a, name))
  {
    hide WithoutDashes;
    var fields := NewRole(host, a, name).fields;
    assert fields["position_key"] == Str(AsciiText("z") + WithoutDashes(a.roleId));
    forall p, q, r, s, t | HexGroups(a.roleId, p, q, r, s, t)
      ensures fields["position_key"].s == AsciiText("z") + p + q + r + s + t
    {
      DashesOfUuid(a.roleId, p, q, r, s, t);
      assert AsciiText("z") + (p + q + r + s + t) == AsciiText("z") + p + q + r + s + t;
    }
  }

  lemma EventOpenIs(canonical: Table, overlays: Table, a: Action)
    ensures var event := EventKey(a.userId, a.organizationId, a.eventId);
      && (OpenEvent(canonical, overlays, event) <==> EventOpen(canonical, overlays, a))
      && (!RetiredIn(canonical, event) && FieldActive(Visible(canonical, overlays, event)) <==>
          EventNotClosed(canonical, overlays, a))
  {
    OpenIs(canonical, overlays, EventKey(a.userId, a.organizationId, a.eventId));
  }

  lemma NoClockBeaten(host: Host, a: Action)
    ensures Beats(host, a, NoClock)
  {
  }

  lemma ChangeableIs(host: Host, canonical: Table, overlays: Table, a: Action, lifecycle: Lifecycle, clock: string)
    ensures var role := Visible(canonical, overlays, RoleKey(a.userId, a.organizationId, a.roleId));
      (&& role.Some? && Field(role.value, "event_id") == Str(a.eventId) && role.value.lifecycle == lifecycle
       && Wins(host, ClockOf(role.value, clock), a.mutationId, a.actionAt)) <==>
      (role.Some? && Changeable(host, canonical, overlays, a, role.value, lifecycle, clock))
  {
    var role := Visible(canonical, overlays, RoleKey(a.userId, a.organizationId, a.roleId));
    if role.Some? {
      ShowsIs(canonical, overlays, RoleKey(a.userId, a.organizationId, a.roleId), role.value);
      BeatsIs(host, a, ClockOf(role.value, clock));
      NoClockBeaten(host, a);
      hide Wins, Beats, Shows;
    }
  }

  // The row the rules start from.
  ghost function Before(canonical: Table, overlays: Table, a: Action): Option<Record> {
    if a.change.CreateRole? then None
    else Visible(canonical, overlays, RoleKey(a.userId, a.organizationId, a.roleId))
  }

  lemma BeforeIs(host: Host, canonical: Table, overlays: Table, a: Action, role: Option<Record>)
    requires Allowed(host, canonical, overlays, a, role)
    ensures role == Before(canonical, overlays, a)
  {
    hide NameTaken, Beats, EventOpen, EventNotClosed;
    if role.Some? {
      ShowsIs(canonical, overlays, RoleKey(a.userId, a.organizationId, a.roleId), role.value);
    }
  }

  lemma StoredWhenAllowed(host: Host, canonical: Table, overlays: Table, a: Action)
    ensures Stored(host, canonical, overlays, a).Some? <==>
      Allowed(host, canonical, overlays, a, Before(canonical, overlays, a))
  {
    hide NameTaken, Taken, Beats, Wins, EventOpen, EventNotClosed, OpenEvent, RetiredIn, FieldActive, Visible,
      Changeable, NewRole, Renamed, Moved, WithLifecycle;
    EventOpenIs(canonical, overlays, a);
    match a.change
    case CreateRole(name) =>
      TakenIs(canonical, overlays, a.userId, a.organizationId, a.roleId, a.eventId, host.lower(name));
    case RenameRole(name) =>
      TakenIs(canonical, overlays, a.userId, a.organizationId, a.roleId, a.eventId, host.lower(name));
      ChangeableIs(host, canonical, overlays, a, Active, "custom_name");
    case MoveRole(_) => ChangeableIs(host, canonical, overlays, a, Active, "position_key");
    case RetireRole => ChangeableIs(host, canonical, overlays, a, Active, "lifecycle");
    case RestoreRole => ChangeableIs(host, canonical, overlays, a, Retired, "lifecycle");
  }

  lemma StoredBecomes(host: Host, canonical: Table, overlays: Table, a: Action)
    requires Stored(host, canonical, overlays, a).Some?
    ensures Becomes(host, a, Before(canonical, overlays, a), Stored(host, canonical, overlays, a).value)
  {
    hide Taken, Wins, OpenEvent, RetiredIn, FieldActive, Visible, NewRole, NewFields, LocalClock;
    if a.change.CreateRole? { NewRoleIs(host, a, a.change.name); }
  }

  /** A change is stored exactly when the tables allow it, as the row it becomes and under no other key. */
  lemma AfterIs(host: Host, canonical: Table, overlays: Table, a: Action)
    ensures var k := Key(a.userId, a.organizationId, "event_meal_role", a.roleId);
      var after := After(host, canonical, overlays, a);
      if exists role :: Allowed(host, canonical, overlays, a, role) then
        && k in after && after == overlays[k := after[k]]
        && forall role :: Allowed(host, canonical, overlays, a, role) ==> Becomes(host, a, role, after[k])
      else after == overlays
  {
    hide Allowed, Becomes, Stored;
    StoredWhenAllowed(host, canonical, overlays, a);
    if role :| Allowed(host, canonical, overlays, a, role) { BeforeIs(host, canonical, overlays, a, role); }
    forall role | Allowed(host, canonical, overlays, a, role)
      ensures role == Before(canonical, overlays, a)
    {
      BeforeIs(host, canonical, overlays, a, role);
    }
    if Stored(host, canonical, overlays, a).Some? { StoredBecomes(host, canonical, overlays, a); }
  }

  // ---------- Requests ----------

  // The change as it is stored: its name normalized.
  ghost predicate Normalizes(host: Host, asked: Change, change: Change) {
    match asked
    case CreateRole(name) => change == CreateRole(host.normalized(name))
    case RenameRole(name) => change == RenameRole(host.normalized(name))
    case _ => change == asked
  }

  ghost predicate GoodChange(change: Change) {
    match change
    case CreateRole(name) => GoodName(name)
    case RenameRole(name) => GoodName(name)
    case MoveRole(position) => 1 <= |position| <= 255 && OnlyLettersAndDigits(position)
    case _ => true
  }

  /** What the page queues: the change asked for, its name normalized, of a named role or of a new one that
      takes the id of its command. */
  lemma QueuedIs(host: Host, r: Request, a: Action)
    requires r.Queue?
    ensures Queued(host, r) == Some(a) <==>
      && a.userId == r.userId && a.organizationId == r.organizationId && a.mutationId == r.id && a.actionAt == r.at
      && a.eventId == r.eventId && IsUuid(r.eventId) && Normalizes(host, r.change, a.change) && GoodChange(a.change)
      && if r.change.CreateRole? then a.roleId == r.id else a.roleId == r.roleId && IsUuid(r.roleId)
  {
    if a.change.CreateRole? || a.change.RenameRole? { NameIs(a.change.name); }
    if r.change.CreateRole? || r.change.RenameRole? { NameIs(host.normalized(r.change.name)); }
    if r.change.MoveRole? { PositionKeyIs(r.change.position); }
    hide ValidName, GoodName, IsUuid, IsPositionKey, OnlyLettersAndDigits;
  }

  // The payload that asks for a change to a role of an event.
  ghost function Payload(eventId: Utf16, roleId: Utf16, change: Change): map<string, Value> {
    match change
    case CreateRole(name) =>
      map["event_meal_role_id" := Str(roleId), "event_id" := Str(eventId), "custom_name" := Str(name)]
    case RenameRole(name) =>
      map["event_meal_role_id" := Str(roleId), "event_id" := Str(eventId), "custom_name" := Str(name)]
    case MoveRole(position) =>
      map["event_meal_role_id" := Str(roleId), "event_id" := Str(eventId), "position_key" := Str(position)]
    case RetireRole =>
      map["event_meal_role_id" := Str(roleId), "event_id" := Str(eventId), "operation" := Str(AsciiText("retire"))]
    case RestoreRole =>
      map["event_meal_role_id" := Str(roleId), "event_id" := Str(eventId), "operation" := Str(AsciiText("restore"))]
  }

  // The change is of the kind the request replays, and the time of its command is one this kind can use.
  ghost predicate Timed(host: Host, r: Request, change: Change)
    requires !r.Queue?
  {
    match r
    case ReplayCreate(_, _, c) => change.CreateRole? && host.isDate(c.actionAt)
    case ReplayName(_, _, c) => change.RenameRole? && host.nanos(c.actionAt).Some?
    case ReplayPosition(_, _, c) => change.MoveRole? && host.isDate(c.actionAt)
    case ReplayLifecycle(_, _, c) => (change.RetireRole? || change.RestoreRole?) && host.nanos(c.actionAt).Some?
  }

  lemma KeysAre(m: map<string, Value>, x: string, y: string, z: string)
    requires x in m && y in m && z in m && x != y && y != z && x != z
    ensures |m| == 3 <==> m.Keys == {x, y, z}
  {
    assert |m| == |m.Keys| && {x, y, z} <= m.Keys && |{x, y, z}| == 3;
    assert |m.Keys - {x, y, z}| == |m.Keys| - 3;
    if |m| == 3 { assert m.Keys - {x, y, z} == {}; }
  }

  lemma PayloadIs(payload: map<string, Value>, eventId: Utf16, roleId: Utf16, f: string, v: Value)
    requires f != "event_id" && f != "event_meal_role_id" && v.Str?
    ensures payload == map["event_meal_role_id" := Str(roleId), "event_id" := Str(eventId), f := v] <==>
      && |payload| == 3 && ValueIn(payload, "event_id") == Str(eventId)
      && ValueIn(payload, "event_meal_role_id") == Str(roleId) && ValueIn(payload, f) == v
  {
    if "event_id" in payload && "event_meal_role_id" in payload && f in payload {
      KeysAre(payload, "event_id", "event_meal_role_id", f);
    }
  }

  // The payload asks for the change, and says nothing else.
  ghost predicate Asks(host: Host, r: Request, eventId: Utf16, roleId: Utf16, change: Change)
    requires !r.Queue?
  {
    && r.command.payload == Payload(eventId, roleId, change) && Timed(host, r, change) && GoodChange(change)
    && Normalizes(host, change, change)
  }

  ghost predicate AskedFor(host: Host, r: Request, eventId: Utf16, roleId: Utf16, change: Change)
    requires !r.Queue?
  {
    && |r.command.payload| == 3 && PayloadValue(r.command, "event_id") == Str(eventId)
    && PayloadValue(r.command, "event_meal_role_id") == Str(roleId) && PayloadChange(host, r) == Some(change)
  }

  lemma NameAsked(host: Host, r: Request, eventId: Utf16, roleId: Utf16, change: Change)
    requires !r.Queue? && (change.CreateRole? || change.RenameRole?)
    ensures AskedFor(host, r, eventId, roleId, change) <==> Asks(host, r, eventId, roleId, change)
  {
    NameIs(change.name);
    PayloadIs(r.command.payload, eventId, roleId, "custom_name", Str(change.name));
    hide ValidName, GoodName, IsPositionKey;
  }

  lemma PositionAsked(host: Host, r: Request, eventId: Utf16, roleId: Utf16, change: Change)
    requires !r.Queue? && change.MoveRole?
    ensures AskedFor(host, r, eventId, roleId, change) <==> Asks(host, r, eventId, roleId, change)
  {
    PositionKeyIs(change.position);
    PayloadIs(r.command.payload, eventId, roleId, "position_key", Str(change.position));
    hide ValidName, IsPositionKey, OnlyLettersAndDigits;
  }

  lemma LifecycleAsked(host: Host, r: Request, eventId: Utf16, roleId: Utf16, change: Change)
    requires !r.Queue? && (change.RetireRole? || change.RestoreRole?)
    ensures AskedFor(host, r, eventId, roleId, change) <==> Asks(host, r, eventId, roleId, change)
  {
    hide ValidName, IsPositionKey;
    assert AsciiText("retire")[2] != AsciiText("restore")[2];
    PayloadIs(r.command.payload, eventId, roleId, "operation",
      Str(if change.RetireRole? then AsciiText("retire") else AsciiText("restore")));
  }

  lemma ChangeIs(host: Host, r: Request, eventId: Utf16, roleId: Utf16, change: Change)
    requires !r.Queue?
    ensures AskedFor(host, r, eventId, roleId, change) <==> Asks(host, r, eventId, roleId, change)
  {
    hide AskedFor, Asks;
    match change
    case CreateRole(_) => NameAsked(host, r, eventId, roleId, change);
    case RenameRole(_) => NameAsked(host, r, eventId, roleId, change);
    case MoveRole(_) => PositionAsked(host, r, eventId, roleId, change);
    case _ => LifecycleAsked(host, r, eventId, roleId, change);
  }

  /** A replayed command is accepted exactly when its payload, and nothing besides, asks for a good change of
      its kind, with three UUIDs, a usable time and a name that is normal as it stands. */
  lemma ReplayedIs(host: Host, r: Request, a: Action)
    requires !r.Queue?
    ensures Replayed(host, r) == Some(a) <==>
      && a.userId == r.userId && a.organizationId == r.organizationId
      && a.mutationId == r.command.id && a.actionAt == r.command.actionAt
      && IsUuid(r.command.id) && IsUuid(a.eventId) && IsUuid(a.roleId)
      && r.command.payload == Payload(a.eventId, a.roleId, a.change) && Timed(host, r, a.change)
      && GoodChange(a.change) && Normalizes(host, a.change, a.change)
  {
    ChangeIs(host, r, a.eventId, a.roleId, a.change);
    hide IsUuid, PayloadChange, Payload, Timed, GoodChange, Normalizes;
  }

  // ---------- What the page shows ----------

  // Four, two and two digits with hyphens between, and a `T`.
  ghost predicate DateStart(s: Utf16, year: Utf16, month: Utf16, day: Utf16, rest: Utf16) {
    && s == year + AsciiText("-") + month + AsciiText("-") + day + AsciiText("T") + rest
    && |year| == 4 && |month| == 2 && |day| == 2 && OnlyDigits(year + month + day)
  }

  lemma StartIs(s: Utf16)
    ensures StartsLikeTimestamp(s) <==> exists year, month, day, rest :: DateStart(s, year, month, day, rest)
  {
    if StartsLikeTimestamp(s) {
      var year, month, day, rest := s[..4], s[5..7], s[8..10], s[11..];
      assert s == year + AsciiText("-") + month + AsciiText("-") + day + AsciiText("T") + rest;
      assert DateStart(s, year, month, day, rest);
    }
    if year, month, day, rest :| DateStart(s, year, month, day, rest) {
      var all := year + month + day;
      forall i | 0 <= i < 10
        ensures if i == 4 || i == 7 then s[i] == Ascii('-') else IsDigit(s[i])
      {
        if i != 4 && i != 7 { assert s[i] == all[if i < 4 then i else if i < 7 then i - 1 else i - 2]; }
      }
    }
  }

  // The pending row is active with no date of retirement, and a lifecycle clock in the page's own spelling.
  ghost predicate Restored(host: Host, overlay: Record) {
    && overlay.lifecycle == Active && Lookup(overlay.fields, "retired_at") == Some(Null)
    && "lifecycle" in overlay.fieldClocks && overlay.fieldClocks["lifecycle"].Clock?
    && var clock := overlay.fieldClocks["lifecycle"];
    && clock.mutationId.Str? && IsUuid(clock.mutationId.s) && clock.actionAt.Str? && host.isDate(clock.actionAt.s)
    && exists year, month, day, rest :: DateStart(clock.actionAt.s, year, month, day, rest)
  }

  /** The page shows the pending row, unless the authoritative row is no longer active and the pending one
      does not restore a retired role; then it shows the authoritative row. */
  lemma ShownIs(host: Host, canonical: Table, overlays: Table, k: Key, r: Record)
    ensures Shown(host, canonical, overlays, k) == Some(r) <==>
      if k in overlays
         && (k !in canonical || canonical[k].lifecycle == Active
             || (canonical[k].lifecycle == Retired && Restored(host, overlays[k])))
      then overlays[k] == r
      else k in canonical && canonical[k] == r
  {
    if k in overlays {
      var clock := ClockOf(overlays[k], "lifecycle");
      if clock.Clock? && clock.actionAt.Str? { StartIs(clock.actionAt.s); }
      hide StartsLikeTimestamp, DateStart, IsUuid;
      assert ExplicitRestore(host, overlays[k]) <==> Restored(host, overlays[k]);
    }
  }
}
