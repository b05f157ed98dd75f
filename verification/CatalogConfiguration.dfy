/** Catalog configuration (sections, tags, units, meal-role presets): commands replayed field by
    field, creating the record when it does not exist yet. */
module CatalogConfiguration {
  import opened Text
  import opened Wrappers
  import opened Digits
  import opened Replica

  datatype Host = Host(nanos: Utf16 -> Option<int>, trimmed: Utf16 -> Utf16)

  datatype Kind = StoreSection | RecipeTag | DietaryTag | UnitDefinition | MealRolePreset
  datatype Operation = Create | Update | Retire | Restore

  const CLOCKED: seq<string> := ["name", "position_key", "color", "custom_name",
    "built_in_translation_key", "lifecycle"]

  function KindName(kind: Kind): string {
    match kind
    case StoreSection => "store_section"
    case RecipeTag => "recipe_tag"
    case DietaryTag => "dietary_tag"
    case UnitDefinition => "unit_definition"
    case MealRolePreset => "organization_meal_role_preset"
  }

  function ReadKind(v: Value): Option<Kind> {
    if v == Str(AsciiText("store_section")) then Some(StoreSection)
    else if v == Str(AsciiText("recipe_tag")) then Some(RecipeTag)
    else if v == Str(AsciiText("dietary_tag")) then Some(DietaryTag)
    else if v == Str(AsciiText("unit_definition")) then Some(UnitDefinition)
    else if v == Str(AsciiText("organization_meal_role_preset")) then Some(MealRolePreset)
    else None
  }

  function ReadOperation(v: Value): Option<Operation> {
    if v == Str(AsciiText("create")) then Some(Create)
    else if v == Str(AsciiText("update")) then Some(Update)
    else if v == Str(AsciiText("retire")) then Some(Retire)
    else if v == Str(AsciiText("restore")) then Some(Restore)
    else None
  }

  // The fields whose clocks an operation moves.
  function ClockFields(kind: Kind, operation: Operation): seq<string> {
    match operation
    case Create => UpdateClockFields(kind) + ["lifecycle"]
    case Update => UpdateClockFields(kind)
    case _ => ["lifecycle"]
  }

  function UpdateClockFields(kind: Kind): seq<string> {
    match kind
    case StoreSection => ["name", "position_key"]
    case MealRolePreset => ["built_in_translation_key", "custom_name", "position_key"]
    case UnitDefinition => ["custom_name"]
    case _ => ["name", "color"]
  }

  function StringOr(a: Value, b: Value): Option<Utf16> {
    if a.Str? then Some(a.s) else if b.Str? then Some(b.s) else None
  }

  // A clock without a time or an id yields; one whose time cannot be read does not.
  predicate Wins(host: Host, actionAt: Utf16, mutationId: Utf16, current: Clock) {
    match current
    case NoClock => true
    case NotAnObject => true
    case Clock(_, _, _, _) =>
      var currentAt := StringOr(current.actionAt, current.winningTime);
      var currentId := StringOr(current.mutationId, current.winningId);
      if currentAt.GetOr([]) == [] || currentId.GetOr([]) == [] then true
      else
        var candidateTime := host.nanos(actionAt);
        var currentTime := host.nanos(currentAt.value);
        && candidateTime.Some? && currentTime.Some?
        && (candidateTime.value > currentTime.value
            || (candidateTime.value == currentTime.value && Less(currentId.value, mutationId)))
  }

  // ---------- Payloads ----------

  predicate ValidText(host: Host, v: Value) {
    && v.Str? && host.trimmed(v.s) == v.s && 0 < |v.s| <= 200
    && forall i | 0 <= i < |v.s| :: v.s[i] != 0 && !IsSurrogate(v.s[i])
  }

  predicate ValidPosition(v: Value) {
    v.Str? && IsPositionKey(v.s)
  }

  predicate ValidColor(v: Value) {
    v.Str? && |v.s| == 7 && v.s[0] == 0x23 && forall i | 1 <= i < 7 :: IsHexDigit(v.s[i])
  }

  predicate ValidTranslationKey(v: Value) {
    && v.Str? && v.s != [] && 0x61 <= v.s[0] <= 0x7A
    && forall i | 0 <= i < |v.s| ::
      0x61 <= v.s[i] <= 0x7A || IsDigit(v.s[i]) || v.s[i] == 0x5F || v.s[i] == 0x2E || v.s[i] == 0x2D
  }

  function PayloadFields(c: Command): map<string, Value> {
    map f | f in c.payload && f !in ["entity_id", "entity_kind", "operation"] :: c.payload[f]
  }

  function ExpectedFields(kind: Kind, operation: Operation, fields: map<string, Value>): set<string> {
    if operation == Retire || operation == Restore then {}
    else
      match kind
      case StoreSection => {"name", "position_key"}
      case RecipeTag => {"color", "name"}
      case DietaryTag => {"color", "name"}
      case UnitDefinition =>
        if operation == Create then {"allows_ingredient_quantity", "allows_recipe_scaling", "name"} else {"name"}
      case MealRolePreset =>
        if !ValueIn(fields, "built_in_translation_key").Undefined? then {"built_in_translation_key", "position_key"}
        else {"name", "position_key"}
  }

  predicate ValidFields(host: Host, kind: Kind, operation: Operation, fields: map<string, Value>) {
    && fields.Keys == ExpectedFields(kind, operation, fields)
    && (operation != Retire && operation != Restore ==>
        && ("name" in fields ==> ValidText(host, fields["name"]))
        && ("position_key" in fields ==> ValidPosition(fields["position_key"]))
        && ("color" in fields ==> ValidColor(fields["color"]))
        && ("built_in_translation_key" in fields ==> ValidTranslationKey(fields["built_in_translation_key"]))
        && (kind == UnitDefinition && operation == Create ==>
            ValueIn(fields, "allows_ingredient_quantity").Flag? && ValueIn(fields, "allows_recipe_scaling").Flag?)
        && (kind == MealRolePreset ==> ("name" in fields <==> "built_in_translation_key" !in fields)))
  }

  function FieldValues(kind: Kind, fields: map<string, Value>): map<string, Value> {
    match kind
    case UnitDefinition =>
      map["custom_name" := ValueIn(fields, "name"),
        "allows_ingredient_quantity" := ValueIn(fields, "allows_ingredient_quantity"),
        "allows_recipe_scaling" := ValueIn(fields, "allows_recipe_scaling")]
    case MealRolePreset =>
      var custom := Coalesce(Coalesce(ValueIn(fields, "name"), ValueIn(fields, "custom_name")), Null);
      var builtIn :=
        if !ValueIn(fields, "name").Undefined? || !ValueIn(fields, "custom_name").Undefined? then Null
        else ValueIn(fields, "built_in_translation_key");
      fields["custom_name" := custom]["built_in_translation_key" := builtIn]
    case _ => fields
  }

  /** A command the replay accepts. */
  datatype Mutation = Mutation(id: Utf16, actionAt: Utf16, entityId: Utf16, kind: Kind, operation: Operation,
        values: map<string, Value>)

  function Accepted(host: Host, c: Command): Option<Mutation> {
    if !IsUuid(c.id) || host.nanos(c.actionAt).None? then None
    else
      var entityId := ValueIn(c.payload, "entity_id");
      var kind := ReadKind(ValueIn(c.payload, "entity_kind"));
      var operation := ReadOperation(ValueIn(c.payload, "operation"));
      var fields := PayloadFields(c);
      if !entityId.Str? || !IsUuid(entityId.s) || kind.None? || operation.None? then None
      else if !ValidFields(host, kind.value, operation.value, fields) then None
      else Some(Mutation(c.id, c.actionAt, entityId.s, kind.value, operation.value, FieldValues(kind.value, fields)))
  }

  // ---------- Replaying ----------

  // `current?.` with the defaults of a record that does not exist.
  function Base(current: Option<Record>): Record {
    current.GetOr(Record(Active, map[], map[], []))
  }

  function Winning(host: Host, m: Mutation, current: Record): seq<string> {
    Filter(host, m, current, ClockFields(m.kind, m.operation))
  }

  function Filter(host: Host, m: Mutation, current: Record, names: seq<string>): seq<string> {
    if names == [] then []
    else
      var rest := Filter(host, m, current, names[..|names| - 1]);
      var last := names[|names| - 1];
      if Wins(host, m.actionAt, m.id, ClockOf(current, last)) then rest + [last] else rest
  }

  // Where a clocked field is stored, and what the mutation stores there.
  function StoredName(f: string): string {
    if f == "lifecycle" then "retired_at" else f
  }

  function StoredValue(m: Mutation, f: string): Value {
    if f == "lifecycle" then (if m.operation == Retire then Str(m.actionAt) else Null) else ValueIn(m.values, f)
  }

  function SetFields(fields: map<string, Value>, m: Mutation, winning: seq<string>): map<string, Value> {
    if winning == [] then fields
    else
      var last := winning[|winning| - 1];
      SetFields(fields, m, winning[..|winning| - 1])[StoredName(last) := StoredValue(m, last)]
  }

  function Put(k: Key, m: Mutation, current: Record, winning: seq<string>): Record {
    Record(
      if "lifecycle" in winning then (if m.operation == Retire then Retired else Active) else current.lifecycle,
      SetFields(current.fields["id" := Str(k.entityId)]["organization_id" := Str(k.organizationId)], m, winning),
      current.fieldClocks + (map f | f in winning :: LocalClock(m.id, m.actionAt)),
      m.actionAt)
  }

  function MutationKey(userId: Utf16, organizationId: Utf16, m: Mutation): Key {
    Key(userId, organizationId, KindName(m.kind), m.entityId)
  }

  // What one replayed command does to the overlay stored under `k`.
  function ReplayAt(host: Host, userId: Utf16, organizationId: Utf16, canonical: Option<Record>,
        overlay: Option<Record>, k: Key, c: Command): Option<Record>
  {
    var m := Accepted(host, c);
    if m.None? || k != MutationKey(userId, organizationId, m.value) then overlay
    else
      var current := Base(OrElse(overlay, canonical));
      var winning := Winning(host, m.value, current);
      if winning == [] then overlay else Some(Put(k, m.value, current, winning))
  }

  class CatalogReplica {
    const host: Host
    var canonicalRecords: map<Key, Record>
    var optimisticOverlays: map<Key, Record>

    constructor (host: Host, canonicalRecords: map<Key, Record>, optimisticOverlays: map<Key, Record>)
      ensures this.host == host
      ensures this.canonicalRecords == canonicalRecords && this.optimisticOverlays == optimisticOverlays
    {
      this.host := host;
      this.canonicalRecords := canonicalRecords;
      this.optimisticOverlays := optimisticOverlays;
    }

    method ReplayCatalogConfiguration(userId: Utf16, organizationId: Utf16, c: Command)
      modifies this`optimisticOverlays
      ensures forall k ::
        Lookup(optimisticOverlays, k)
        == ReplayAt(host, userId, organizationId, Lookup(canonicalRecords, k), Lookup(old(optimisticOverlays), k), k, c)
    {
      hide Accepted, Winning, StoredValue, StoredName;
      var accepted := Accepted(host, c);
      if accepted.None? { return; }
      var m := accepted.value;
      var k := MutationKey(userId, organizationId, m);
      var current := Base(OrElse(Lookup(optimisticOverlays, k), Lookup(canonicalRecords, k)));
      var winning := Winning(host, m, current);
      if winning == [] { return; }
      var base := current.fields["id" := Str(k.entityId)]["organization_id" := Str(k.organizationId)];
      var nextFields := base;
      for i := 0 to |winning|
        invariant nextFields == SetFields(base, m, winning[..i])
        invariant optimisticOverlays == old(optimisticOverlays)
      {
        assert winning[..i + 1][..i] == winning[..i];
        nextFields := nextFields[StoredName(winning[i]) := StoredValue(m, winning[i])];
      }
      assert winning[..|winning|] == winning;
      optimisticOverlays := optimisticOverlays[k := Record(
        if "lifecycle" in winning then (if m.operation == Retire then Retired else Active) else current.lifecycle,
        nextFields,
        current.fieldClocks + (map f | f in winning :: LocalClock(m.id, m.actionAt)),
        m.actionAt)];
    }
  }
}
