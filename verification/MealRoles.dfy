/** Meal roles of an event: created, renamed, moved, retired and restored in the local replica. */
module MealRoles {
  import opened Text
  import opened Wrappers
  import opened Digits
  import opened Replica

  /** What the source takes from its host: reading a timestamp to nanoseconds, whether `Date.parse`
      gives a finite number, `normalize("NFC").trim()` and `toLowerCase()`. */
  datatype Host = Host(
    nanos: Utf16 -> Option<int>, isDate: Utf16 -> bool, normalized: Utf16 -> Utf16, lower: Utf16 -> Utf16)

  type Table = map<Key, Record>

  predicate ValidName(name: Utf16) {
    name != [] && |Characters(name)| <= 200 && forall i | 0 <= i < |name| :: name[i] != 0 && !IsSurrogate(name[i])
  }

  function StringOr(a: Value, b: Value): Value {
    if a.Str? then a else b
  }

  predicate Wins(host: Host, clock: Clock, mutationId: Utf16, actionAt: Utf16) {
    match clock
    case NoClock => true
    case NotAnObject => false
    case Clock(_, _, _, _) =>
      var currentAt, currentId := StringOr(clock.actionAt, clock.winningTime),
        StringOr(clock.mutationId, clock.winningId);
      var candidate := host.nanos(actionAt);
      var current := if currentAt.Str? then host.nanos(currentAt.s) else None;
      && currentId.Str? && IsUuid(currentId.s) && candidate.Some? && current.Some?
      && (candidate.value > current.value || (candidate.value == current.value && Less(currentId.s, mutationId)))
  }

  // ---------- Reading the tables ----------

  function EventKey(userId: Utf16, organizationId: Utf16, eventId: Utf16): Key {
    Key(userId, organizationId, "event", eventId)
  }

  function RoleKey(userId: Utf16, organizationId: Utf16, roleId: Utf16): Key {
    Key(userId, organizationId, "event_meal_role", roleId)
  }

  function Visible(canonical: Table, overlays: Table, k: Key): Option<Record> {
    OrElse(Lookup(overlays, k), Lookup(canonical, k))
  }

  predicate RetiredIn(canonical: Table, k: Key) {
    k in canonical && canonical[k].lifecycle == Retired
  }

  predicate FieldActive(event: Option<Record>) {
    event.Some? && Field(event.value, "lifecycle") == Str(AsciiText("active"))
  }

  predicate OpenEvent(canonical: Table, overlays: Table, k: Key) {
    var event := Visible(canonical, overlays, k);
    !RetiredIn(canonical, k) && FieldActive(event) && event.value.lifecycle == Active
  }

  predicate SameScope(k: Key, role: Key) {
    k.userId == role.userId && k.organizationId == role.organizationId && k.entityType == role.entityType
  }

  // Another role of the event goes by this name in the table.
  predicate TakenIn(t: Table, role: Key, eventId: Utf16, name: Utf16) {
    exists k | k in t ::
      && SameScope(k, role) && k.entityId != role.entityId
      && Field(t[k], "event_id") == Str(eventId) && Field(t[k], "normalized_custom_name") == Str(name)
  }

  predicate Taken(canonical: Table, overlays: Table, role: Key, eventId: Utf16, name: Utf16) {
    TakenIn(canonical, role, eventId, name) || TakenIn(overlays, role, eventId, name)
  }

  // ---------- The four changes ----------

  datatype Change =
    | CreateRole(name: Utf16)
    | RenameRole(name: Utf16)
    | MoveRole(position: Utf16)
    | RetireRole
    | RestoreRole

  /** A change to one role of one event, with the id and time of its command. */
  datatype Action = Action(userId: Utf16, organizationId: Utf16, eventId: Utf16, roleId: Utf16, change: Change,
        mutationId: Utf16, actionAt: Utf16)

  function WithoutDashes(s: Utf16): Utf16 {
    if s == [] then []
    else WithoutDashes(s[..|s| - 1]) + if s[|s| - 1] == Ascii('-') then [] else [s[|s| - 1]]
  }

  function NewRole(host: Host, a: Action, name: Utf16): Record {
    Record(
      Active,
      map["id" := Str(a.roleId), "event_id" := Str(a.eventId), "source_preset_id" := Null,
        "built_in_translation_key" := Null,
        "custom_name" := Str(name),
        "normalized_custom_name" := Str(host.lower(name)),
        "position_key" := Str([Ascii('z')] + WithoutDashes(a.roleId)), "retired_at" := Null],
      map["position_key" := LocalClock(a.mutationId, a.actionAt)],
      a.actionAt)
  }

  function WithClock(role: Record, f: string, a: Action): Record {
    role.(fieldClocks := role.fieldClocks[f := LocalClock(a.mutationId, a.actionAt)], updatedAt := a.actionAt)
  }

  function Renamed(host: Host, role: Record, a: Action, name: Utf16): Record {
    WithClock(role, "custom_name", a).(
      fields := role.fields["custom_name" := Str(name)]["normalized_custom_name" := Str(host.lower(name))])
  }

  function Moved(role: Record, a: Action, position: Utf16): Record {
    WithClock(role, "position_key", a).(fields := role.fields["position_key" := Str(position)])
  }

  function WithLifecycle(role: Record, a: Action): Record {
    var retire := a.change == RetireRole;
    WithClock(role, "lifecycle", a).(
      lifecycle := if retire then Retired else Active,
      fields := role.fields["retired_at" := if retire then Str(a.actionAt) else Null])
  }

  // What the action stores for its role; `None` when it is refused.
  function Stored(host: Host, canonical: Table, overlays: Table, a: Action): Option<Record> {
    var eventKey, roleKey := EventKey(a.userId, a.organizationId, a.eventId),
      RoleKey(a.userId, a.organizationId, a.roleId);
    var role := Visible(canonical, overlays, roleKey);
    var open := OpenEvent(canonical, overlays, eventKey);
    var ofEvent := role.Some? && Field(role.value, "event_id") == Str(a.eventId);
    match a.change
    case CreateRole(name) =>
      if open && !Taken(canonical, overlays, roleKey, a.eventId, host.lower(name))
      then Some(NewRole(host, a, name)) else None
    case RenameRole(name) =>
      if open && ofEvent && role.value.lifecycle == Active && Field(role.value, "built_in_translation_key") == Null
         && Wins(host, ClockOf(role.value, "custom_name"), a.mutationId, a.actionAt)
         && !Taken(canonical, overlays, roleKey, a.eventId, host.lower(name))
      then Some(Renamed(host, role.value, a, name)) else None
    case MoveRole(position) =>
      if !RetiredIn(canonical, eventKey) && FieldActive(Visible(canonical, overlays, eventKey))
         && ofEvent && role.value.lifecycle == Active
         && Wins(host, ClockOf(role.value, "position_key"), a.mutationId, a.actionAt)
      then Some(Moved(role.value, a, position)) else None
    case _ =>
      if open && ofEvent && role.value.lifecycle == (if a.change == RetireRole then Active else Retired)
         && Wins(host, ClockOf(role.value, "lifecycle"), a.mutationId, a.actionAt)
      then Some(WithLifecycle(role.value, a)) else None
  }

  function After(host: Host, canonical: Table, overlays: Table, a: Action): Table {
    match Stored(host, canonical, overlays, a)
    case None => overlays
    case Some(role) => overlays[RoleKey(a.userId, a.organizationId, a.roleId) := role]
  }

  // ---------- Requests ----------

  /** What the page asks for, or a queued command replayed after a fresh snapshot. */
  datatype Request =
    | Queue(userId: Utf16, organizationId: Utf16, eventId: Utf16, roleId: Utf16, change: Change, id: Utf16, at: Utf16)
    | ReplayCreate(userId: Utf16, organizationId: Utf16, command: Command)
    | ReplayName(userId: Utf16, organizationId: Utf16, command: Command)
    | ReplayPosition(userId: Utf16, organizationId: Utf16, command: Command)
    | ReplayLifecycle(userId: Utf16, organizationId: Utf16, command: Command)

  // A queued change; its id is fresh and names the role it creates. `None` throws.
  function Queued(host: Host, r: Request): Option<Action>
    requires r.Queue?
  {
    var roleId := if r.change.CreateRole? then r.id else r.roleId;
    var change :=
      match r.change
      case CreateRole(name) => CreateRole(host.normalized(name))
      case RenameRole(name) => RenameRole(host.normalized(name))
      case _ => r.change;
    if !IsUuid(r.eventId) || (!r.change.CreateRole? && !IsUuid(roleId)) then None
    else if (change.CreateRole? || change.RenameRole?) && !ValidName(change.name) then None
    else if change.MoveRole? && !IsPositionKey(change.position) then None
    else Some(Action(r.userId, r.organizationId, r.eventId, roleId, change, r.id, r.at))
  }

  // The change a replayed command asks for, when its payload is well formed.
  function PayloadChange(host: Host, r: Request): Option<Change>
    requires !r.Queue?
  {
    var name, position, operation :=
      PayloadValue(r.command, "custom_name"), PayloadValue(r.command, "position_key"),
        PayloadValue(r.command, "operation");
    var validName := name.Str? && ValidName(name.s) && host.normalized(name.s) == name.s;
    match r
    case ReplayCreate(_, _, c) => if validName && host.isDate(c.actionAt) then Some(CreateRole(name.s)) else None
    case ReplayName(_, _, c) => if validName && host.nanos(c.actionAt).Some? then Some(RenameRole(name.s)) else None
    case ReplayPosition(_, _, c) =>
      if position.Str? && IsPositionKey(position.s) && host.isDate(c.actionAt) then Some(MoveRole(position.s)) else None
    case ReplayLifecycle(_, _, c) =>
      if host.nanos(c.actionAt).None? then None
      else if operation == Str(AsciiText("retire")) then Some(RetireRole)
      else if operation == Str(AsciiText("restore")) then Some(RestoreRole)
      else None
  }

  function Replayed(host: Host, r: Request): Option<Action>
    requires !r.Queue?
  {
    var c := r.command;
    var eventId, roleId, change := PayloadValue(c, "event_id"), PayloadValue(c, "event_meal_role_id"),
      PayloadChange(host, r);
    if |c.payload| != 3 || !eventId.Str? || !roleId.Str? || !IsUuid(c.id) || !IsUuid(eventId.s) || !IsUuid(roleId.s)
      || change.None?
    then None
    else Some(Action(r.userId, r.organizationId, eventId.s, roleId.s, change.value, c.id, c.actionAt))
  }

  function ActionOf(host: Host, r: Request): Option<Action> {
    if r.Queue? then Queued(host, r) else Replayed(host, r)
  }

  function AfterRequest(host: Host, canonical: Table, overlays: Table, r: Request): Table {
    match ActionOf(host, r)
    case None => overlays
    case Some(a) => After(host, canonical, overlays, a)
  }

  function Run(host: Host, canonical: Table, overlays: Table, requests: seq<Request>): Table {
    if requests == [] then overlays
    else AfterRequest(host, canonical, Run(host, canonical, overlays, requests[..|requests| - 1]),
      requests[|requests| - 1])
  }

  // ---------- Queueing, then replaying ----------

  // The command a queued action leaves in the outbox.
  function QueuedCommand(a: Action): Command {
    var ids := map["event_meal_role_id" := Str(a.roleId), "event_id" := Str(a.eventId)];
    Command(a.mutationId, a.actionAt,
      match a.change
      case CreateRole(name) => ids["custom_name" := Str(name)]
      case RenameRole(name) => ids["custom_name" := Str(name)]
      case MoveRole(position) => ids["position_key" := Str(position)]
      case RetireRole => ids["operation" := Str(AsciiText("retire"))]
      case RestoreRole => ids["operation" := Str(AsciiText("restore"))])
  }

  // The request that replays it.
  function ReplayOf(a: Action): Request {
    match a.change
    case CreateRole(_) => ReplayCreate(a.userId, a.organizationId, QueuedCommand(a))
    case RenameRole(_) => ReplayName(a.userId, a.organizationId, QueuedCommand(a))
    case MoveRole(_) => ReplayPosition(a.userId, a.organizationId, QueuedCommand(a))
    case _ => ReplayLifecycle(a.userId, a.organizationId, QueuedCommand(a))
  }

  lemma ChangeReadBack(host: Host, a: Action)
    requires host.isDate(a.actionAt) && host.nanos(a.actionAt).Some?
    requires a.change.CreateRole? || a.change.RenameRole? ==>
      ValidName(a.change.name) && host.normalized(a.change.name) == a.change.name
    requires a.change.MoveRole? ==> IsPositionKey(a.change.position)
    ensures PayloadChange(host, ReplayOf(a)) == Some(a.change)
  {
    hide ValidName, IsPositionKey;
    assert AsciiText("retire")[2] != AsciiText("restore")[2];
  }

  lemma IdsReadBack(a: Action)
    ensures var c := ReplayOf(a).command;
      && |c.payload| == 3 && c.id == a.mutationId && c.actionAt == a.actionAt
      && PayloadValue(c, "event_id") == Str(a.eventId) && PayloadValue(c, "event_meal_role_id") == Str(a.roleId)
      && ReplayOf(a).userId == a.userId && ReplayOf(a).organizationId == a.organizationId
  {
    ThreeKeys(a);
  }

  /** Every action the page queues is the action its command replays, provided the host's
      normalization is idempotent and its ids and times are readable. */
  lemma ReplayRepeatsQueue(host: Host, r: Request)
    requires r.Queue? && Queued(host, r).Some?
    requires IsUuid(r.id) && host.isDate(r.at) && host.nanos(r.at).Some?
    requires forall s :: host.normalized(host.normalized(s)) == host.normalized(s)
    ensures Replayed(host, ReplayOf(Queued(host, r).value)) == Queued(host, r)
  {
    hide IsUuid, ValidName, IsPositionKey, PayloadChange, QueuedCommand, PayloadValue;
    var a := Queued(host, r).value;
    ChangeReadBack(host, a);
    IdsReadBack(a);
  }

  lemma ThreeKeys(a: Action)
    ensures |QueuedCommand(a).payload| == 3
  {
    var ids := map["event_meal_role_id" := Str(a.roleId), "event_id" := Str(a.eventId)];
    assert ids.Keys == {"event_meal_role_id", "event_id"};
    var extra :=
      if a.change.MoveRole? then "position_key"
      else if a.change.CreateRole? || a.change.RenameRole? then "custom_name"
      else "operation";
    assert extra !in ids;
    assert QueuedCommand(a).payload.Keys == ids.Keys + {extra};
    assert |ids.Keys| == 2 && |ids.Keys + {extra}| == 3;
    assert |QueuedCommand(a).payload| == |QueuedCommand(a).payload.Keys|;
  }

  // ---------- Names stay unique ----------

  ghost predicate Holds(canonical: Table, overlays: Table, k: Key, r: Record) {
    (k in canonical && canonical[k] == r) || (k in overlays && overlays[k] == r)
  }

  ghost predicate Named(r: Record) {
    !Field(r, "normalized_custom_name").Null? && !Field(r, "normalized_custom_name").Undefined?
  }

  // Two rows of different roles, in one event, under one name.
  ghost predicate Clash(j: Key, a: Record, k: Key, b: Record) {
    && j.entityType == "event_meal_role" && SameScope(j, k) && j.entityId != k.entityId
    && Field(a, "event_id") == Field(b, "event_id")
    && Named(a) && Field(a, "normalized_custom_name") == Field(b, "normalized_custom_name")
  }

  // The rows of both tables together, whichever is visible.
  ghost predicate NamesUnique(canonical: Table, overlays: Table) {
    forall j, a, k, b :: Holds(canonical, overlays, j, a) && Holds(canonical, overlays, k, b) ==> !Clash(j, a, k, b)
  }

  // The row keeps the event and the name of a row its role had.
  ghost predicate KeepsName(canonical: Table, overlays: Table, k: Key, r: Record) {
    exists held :: Holds(canonical, overlays, k, held)
      && Field(held, "event_id") == Field(r, "event_id")
      && Field(held, "normalized_custom_name") == Field(r, "normalized_custom_name")
  }

  ghost predicate FreshName(canonical: Table, overlays: Table, k: Key, r: Record) {
    exists eventId, name ::
      && Field(r, "event_id") == Str(eventId) && Field(r, "normalized_custom_name") == Str(name)
      && !Taken(canonical, overlays, k, eventId, name)
  }

  lemma PutKeepsUnique(canonical: Table, overlays: Table, k: Key, r: Record)
    requires NamesUnique(canonical, overlays)
    requires KeepsName(canonical, overlays, k, r) || FreshName(canonical, overlays, k, r)
    ensures NamesUnique(canonical, overlays[k := r])
  {
    forall j, a | Holds(canonical, overlays, j, a)
      ensures !Clash(j, a, k, r) && !Clash(k, r, j, a)
    {
      if KeepsName(canonical, overlays, k, r) {
        var kept :| Holds(canonical, overlays, k, kept)
          && Field(kept, "event_id") == Field(r, "event_id")
          && Field(kept, "normalized_custom_name") == Field(r, "normalized_custom_name");
        assert !Clash(j, a, k, kept) && !Clash(k, kept, j, a);
      } else {
        var eventId, name :| Field(r, "event_id") == Str(eventId) && Field(r, "normalized_custom_name") == Str(name)
          && !Taken(canonical, overlays, k, eventId, name);
        assert (j in canonical && canonical[j] == a) || (j in overlays && overlays[j] == a);
      }
    }
    var overlays' := overlays[k := r];
    forall j, a, i, b | Holds(canonical, overlays', j, a) && Holds(canonical, overlays', i, b)
      ensures !Clash(j, a, i, b)
    {
      assert Holds(canonical, overlays, j, a) || (j == k && a == r);
      assert Holds(canonical, overlays, i, b) || (i == k && b == r);
    }
  }

  lemma StoredName(host: Host, canonical: Table, overlays: Table, a: Action)
    requires Stored(host, canonical, overlays, a).Some?
    ensures var k := RoleKey(a.userId, a.organizationId, a.roleId);
      var r := Stored(host, canonical, overlays, a).value;
      KeepsName(canonical, overlays, k, r) || FreshName(canonical, overlays, k, r)
  {
    hide Wins, OpenEvent, FieldActive, RetiredIn, Taken, WithoutDashes;
    var k, r := RoleKey(a.userId, a.organizationId, a.roleId), Stored(host, canonical, overlays, a).value;
    if a.change.CreateRole? || a.change.RenameRole? {
      assert Field(r, "event_id") == Str(a.eventId);
      assert Field(r, "normalized_custom_name") == Str(host.lower(a.change.name));
    } else {
      var role := Visible(canonical, overlays, k).value;
      assert Holds(canonical, overlays, k, role);
      assert Field(r, "normalized_custom_name") == Field(role, "normalized_custom_name");
      assert Field(r, "event_id") == Field(role, "event_id");
    }
  }

  /** Every run of requests keeps the names of different roles of one event apart, in the canonical
      rows and the overlays taken together. */
  lemma {:induction false} RunKeepsNamesUnique(host: Host, canonical: Table, overlays: Table, requests: seq<Request>)
    requires NamesUnique(canonical, overlays)
    ensures NamesUnique(canonical, Run(host, canonical, overlays, requests))
  {
    hide NamesUnique, Stored, ActionOf, KeepsName, FreshName;
    if requests != [] {
      RunKeepsNamesUnique(host, canonical, overlays, requests[..|requests| - 1]);
      var now := Run(host, canonical, overlays, requests[..|requests| - 1]);
      var request := ActionOf(host, requests[|requests| - 1]);
      if request.Some? && Stored(host, canonical, now, request.value).Some? {
        StoredName(host, canonical, now, request.value);
        PutKeepsUnique(canonical, now,
          RoleKey(request.value.userId, request.value.organizationId, request.value.roleId),
          Stored(host, canonical, now, request.value).value);
      }
    }
  }

  // Digits, dashes and a `T`, as an ISO date and time begins.
  predicate StartsLikeTimestamp(s: Utf16) {
    && |s| >= 11
    && (forall i | 0 <= i < 10 :: if i == 4 || i == 7 then s[i] == Ascii('-') else IsDigit(s[i]))
    && s[10] == Ascii('T')
  }

  // The overlay is active because a command restored it, not by default.
  predicate ExplicitRestore(host: Host, overlay: Record) {
    var clock := ClockOf(overlay, "lifecycle");
    && overlay.lifecycle == Active && Field(overlay, "retired_at") == Null && clock.Clock?
    && clock.mutationId.Str? && IsUuid(clock.mutationId.s)
    && clock.actionAt.Str? && StartsLikeTimestamp(clock.actionAt.s) && host.isDate(clock.actionAt.s)
  }

  // What the page shows of a role: an overlay does not revive a row the server retired, unless it restores it.
  function Shown(host: Host, canonical: Table, overlays: Table, k: Key): Option<Record> {
    if k !in overlays then Lookup(canonical, k)
    else if k !in canonical || canonical[k].lifecycle == Active
            || (canonical[k].lifecycle == Retired && ExplicitRestore(host, overlays[k])) then Some(overlays[k])
    else Some(canonical[k])
  }

  /** In particular no two roles of an event that the page shows, retired ones included, share a name. */
  lemma ShownNamesUnique(host: Host, canonical: Table, overlays: Table, requests: seq<Request>, j: Key, k: Key)
    requires NamesUnique(canonical, overlays)
    ensures var after := Run(host, canonical, overlays, requests);
      var a, b := Shown(host, canonical, after, j), Shown(host, canonical, after, k);
      a.Some? && b.Some? ==> !Clash(j, a.value, k, b.value)
  {
    hide ExplicitRestore, Run, Clash;
    RunKeepsNamesUnique(host, canonical, overlays, requests);
    var after := Run(host, canonical, overlays, requests);
    var a, b := Shown(host, canonical, after, j), Shown(host, canonical, after, k);
    assert a.Some? ==> Holds(canonical, after, j, a.value);
    assert b.Some? ==> Holds(canonical, after, k, b.value);
  }

  // ---------- Closed events, and undoing a retirement ----------

  /** Once the authoritative event is retired, no request about it changes anything. */
  lemma {:induction false} RetiredEventIsFrozen(host: Host, canonical: Table, overlays: Table, eventId: Utf16,
        requests: seq<Request>)
    requires forall i :: 0 <= i < |requests| && ActionOf(host, requests[i]).Some? ==>
      var a := ActionOf(host, requests[i]).value;
      a.eventId == eventId && RetiredIn(canonical, EventKey(a.userId, a.organizationId, eventId))
    ensures Run(host, canonical, overlays, requests) == overlays
  {
    if requests != [] {
      var earlier, last := requests[..|requests| - 1], requests[|requests| - 1];
      assert forall i :: 0 <= i < |earlier| ==> earlier[i] == requests[i];
      RetiredEventIsFrozen(host, canonical, overlays, eventId, earlier);
      hide ActionOf, Wins, Taken, FieldActive, Visible;
      assert ActionOf(host, last).Some? ==> Stored(host, canonical, overlays, ActionOf(host, last).value).None?;
    }
  }

  // The second command is later than the first, or as late with the greater id, and both can be compared.
  predicate Later(host: Host, first: Action, second: Action) {
    var before, after := host.nanos(first.actionAt), host.nanos(second.actionAt);
    && IsUuid(first.mutationId) && before.Some? && after.Some?
    && (after.value > before.value || (after.value == before.value && Less(first.mutationId, second.mutationId)))
  }

  lemma StillOpen(canonical: Table, overlays: Table, event: Key, role: Key, r: Record)
    requires event.entityType == "event" && role.entityType == "event_meal_role"
    ensures OpenEvent(canonical, overlays[role := r], event) <==> OpenEvent(canonical, overlays, event)
  {
  }

  /** After a role was retired, a request to restore it is accepted exactly when it is about the same
      event and later than the retirement. It gives the role back active and otherwise as it was, but
      for its lifecycle clock, the time of its last change and `retired_at`. */
  lemma RestoreUndoesRetire(host: Host, canonical: Table, overlays: Table, retire: Action, restore: Action)
    requires retire.change == RetireRole && restore.change == RestoreRole
    requires restore.userId == retire.userId && restore.organizationId == retire.organizationId
      && restore.roleId == retire.roleId
    requires Stored(host, canonical, overlays, retire).Some?
    ensures var k := RoleKey(retire.userId, retire.organizationId, retire.roleId);
      var before := Visible(canonical, overlays, k).value;
      var restored := Stored(host, canonical, After(host, canonical, overlays, retire), restore);
      restored == if restore.eventId == retire.eventId && Later(host, retire, restore)
        then Some(before.(
          fields := before.fields["retired_at" := Null],
          fieldClocks := before.fieldClocks["lifecycle" := LocalClock(restore.mutationId, restore.actionAt)],
          updatedAt := restore.actionAt))
        else None
  {
    hide OpenEvent, IsUuid, Less;
    var k := RoleKey(retire.userId, retire.organizationId, retire.roleId);
    var before := Visible(canonical, overlays, k).value;
    var retired := Stored(host, canonical, overlays, retire).value;
    StillOpen(canonical, overlays, EventKey(restore.userId, restore.organizationId, restore.eventId), k, retired);
    assert Field(retired, "event_id") == Field(before, "event_id") == Str(retire.eventId);
    assert Wins(host, ClockOf(retired, "lifecycle"), restore.mutationId, restore.actionAt) <==>
      Later(host, retire, restore);
    assert retired.fields["retired_at" := Null] == before.fields["retired_at" := Null];
    var clock := LocalClock(restore.mutationId, restore.actionAt);
    assert retired.fieldClocks["lifecycle" := clock] == before.fieldClocks["lifecycle" := clock];
  }

  // ---------- The replica ----------

  class RoleReplica {
    const host: Host
    var canonicalRecords: Table
    var optimisticOverlays: Table

    constructor (host: Host, canonicalRecords: Table, optimisticOverlays: Table)
      ensures this.host == host
      ensures this.canonicalRecords == canonicalRecords && this.optimisticOverlays == optimisticOverlays
    {
      this.host := host;
      this.canonicalRecords := canonicalRecords;
      this.optimisticOverlays := optimisticOverlays;
    }

    // The `some` over the rows of one table.
    method SomeTaken(t: Table, role: Key, eventId: Utf16, name: Utf16) returns (taken: bool)
      ensures taken <==> TakenIn(t, role, eventId, name)
    {
      var rest := t.Keys;
      while rest != {}
        invariant rest <= t.Keys
        invariant forall k :: k in t && k !in rest ==>
          !(SameScope(k, role) && k.entityId != role.entityId
            && Field(t[k], "event_id") == Str(eventId) && Field(t[k], "normalized_custom_name") == Str(name))
        decreases rest
      {
        var k :| k in rest;
        rest := rest - {k};
        if SameScope(k, role) && k.entityId != role.entityId
           && Field(t[k], "event_id") == Str(eventId) && Field(t[k], "normalized_custom_name") == Str(name) {
          return true;
        }
      }
      return false;
    }

    method Perform(a: Action) returns (done: bool)
      modifies this`optimisticOverlays
      ensures done <==> Stored(host, canonicalRecords, old(optimisticOverlays), a).Some?
      ensures optimisticOverlays == After(host, canonicalRecords, old(optimisticOverlays), a)
    {
      hide Wins, OpenEvent, TakenIn, NewRole, Renamed, Moved, WithLifecycle, FieldActive, RetiredIn;
      var eventKey, roleKey := EventKey(a.userId, a.organizationId, a.eventId),
        RoleKey(a.userId, a.organizationId, a.roleId);
      var role := Visible(canonicalRecords, optimisticOverlays, roleKey);
      if a.change.MoveRole? {
        var open := FieldActive(Visible(canonicalRecords, optimisticOverlays, eventKey));
        if RetiredIn(canonicalRecords, eventKey) || !open { return false; }
      } else if !OpenEvent(canonicalRecords, optimisticOverlays, eventKey) {
        return false;
      }
      if !a.change.CreateRole? && (role.None? || Field(role.value, "event_id") != Str(a.eventId)) { return false; }
      var next: Record;
      match a.change {
        case CreateRole(name) =>
          var inCanonical := SomeTaken(canonicalRecords, roleKey, a.eventId, host.lower(name));
          var inOverlays := SomeTaken(optimisticOverlays, roleKey, a.eventId, host.lower(name));
          if inCanonical || inOverlays { return false; }
          next := NewRole(host, a, name);
        case RenameRole(name) =>
          if role.value.lifecycle != Active || Field(role.value, "built_in_translation_key") != Null
             || !Wins(host, ClockOf(role.value, "custom_name"), a.mutationId, a.actionAt) { return false; }
          var inCanonical := SomeTaken(canonicalRecords, roleKey, a.eventId, host.lower(name));
          var inOverlays := SomeTaken(optimisticOverlays, roleKey, a.eventId, host.lower(name));
          if inCanonical || inOverlays { return false; }
          next := Renamed(host, role.value, a, name);
        case MoveRole(position) =>
          if role.value.lifecycle != Active
             || !Wins(host, ClockOf(role.value, "position_key"), a.mutationId, a.actionAt) { return false; }
          next := Moved(role.value, a, position);
        case _ =>
          if role.value.lifecycle != (if a.change == RetireRole then Active else Retired)
             || !Wins(host, ClockOf(role.value, "lifecycle"), a.mutationId, a.actionAt) { return false; }
          next := WithLifecycle(role.value, a);
      }
      optimisticOverlays := optimisticOverlays[roleKey := next];
      return true;
    }

    method Serve(r: Request) returns (done: bool)
      modifies this`optimisticOverlays
      ensures optimisticOverlays == AfterRequest(host, canonicalRecords, old(optimisticOverlays), r)
      ensures done <==>
        && ActionOf(host, r).Some?
        && Stored(host, canonicalRecords, old(optimisticOverlays), ActionOf(host, r).value).Some?
    {
      hide ActionOf, Stored;
      var a := ActionOf(host, r);
      if a.None? { return false; }
      done := Perform(a.value);
    }
  }
}
