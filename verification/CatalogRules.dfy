/** Which catalog commands the replay accepts and what each does to a record, written out from the
    payload, and why the replay does exactly that. */
module CatalogRules {
  import opened Text
  import opened Wrappers
  import opened Replica
  import opened CatalogConfiguration
  import opened CatalogConvergence
  import opened Shapes

  // ---------- Names ----------

  function TypeName(kind: Kind): string {
    match kind
    case StoreSection => "store_section"
    case RecipeTag => "recipe_tag"
    case DietaryTag => "dietary_tag"
    case UnitDefinition => "unit_definition"
    case MealRolePreset => "organization_meal_role_preset"
  }

  function KindText(kind: Kind): Utf16 {
    AsciiText(TypeName(kind))
  }

  function OperationText(operation: Operation): Utf16 {
    AsciiText(
      match operation
      case Create => "create"
      case Update => "update"
      case Retire => "retire"
      case Restore => "restore")
  }

  lemma KindsDiffer()
    ensures AsciiText("store_section")[0] == 0x73 && AsciiText("recipe_tag")[0] == 0x72
    ensures AsciiText("dietary_tag")[0] == 0x64 && AsciiText("unit_definition")[0] == 0x75
    ensures AsciiText("organization_meal_role_preset")[0] == 0x6F
    ensures AsciiText("create")[0] == 0x63 && AsciiText("update")[0] == 0x75
    ensures |AsciiText("retire")| == 6 && |AsciiText("restore")| == 7
    ensures AsciiText("retire")[0] == AsciiText("restore")[0] == 0x72
  {
  }

  lemma KindIs(v: Value, kind: Kind)
    ensures ReadKind(v) == Some(kind) <==> v == Str(KindText(kind))
    ensures KindName(kind) == TypeName(kind)
  {
    KindsDiffer();
  }

  lemma OperationIs(v: Value, operation: Operation)
    ensures ReadOperation(v) == Some(operation) <==> v == Str(OperationText(operation))
  {
    KindsDiffer();
  }

  // ---------- Well-formed commands ----------

  ghost predicate GoodName(host: Host, v: Value) {
    v.Str? && host.trimmed(v.s) == v.s && 1 <= |v.s| <= 200 && Clean(v.s)
  }

  ghost predicate GoodPosition(v: Value) {
    v.Str? && 1 <= |v.s| <= 255 && OnlyLettersAndDigits(v.s)
  }

  // A number sign and six hexadecimal digits.
  ghost predicate GoodColor(v: Value) {
    v.Str? && |v.s| == 7 && v.s[..1] == AsciiText("#") && OnlyHex(v.s[1..])
  }

  // A lower-case letter, and then lower-case letters, digits, underscores, points and hyphens.
  ghost predicate GoodTranslationKey(v: Value) {
    && v.Str? && v.s != [] && Between(v.s[0], 'a', 'z')
    && forall i :: 0 <= i < |v.s| ==>
         Between(v.s[i], 'a', 'z') || Between(v.s[i], '0', '9') || v.s[i] in {Ascii('_'), Ascii('.'), Ascii('-')}
  }

  // What a command carries besides its ids, by kind and operation.
  ghost predicate Carries(host: Host, c: Command, kind: Kind, operation: Operation) {
    var keys, ids := c.payload.Keys, {"entity_id", "entity_kind", "operation"};
    var name, position := PayloadValue(c, "name"), PayloadValue(c, "position_key");
    match (operation, kind)
    case (Retire, _) => keys == ids
    case (Restore, _) => keys == ids
    case (_, StoreSection) => keys == ids + {"name", "position_key"} && GoodName(host, name) && GoodPosition(position)
    case (_, RecipeTag) =>
      keys == ids + {"name", "color"} && GoodName(host, name) && GoodColor(PayloadValue(c, "color"))
    case (_, DietaryTag) =>
      keys == ids + {"name", "color"} && GoodName(host, name) && GoodColor(PayloadValue(c, "color"))
    case (Create, UnitDefinition) =>
      && keys == ids + {"name", "allows_ingredient_quantity", "allows_recipe_scaling"} && GoodName(host, name)
      && PayloadValue(c, "allows_ingredient_quantity").Flag? && PayloadValue(c, "allows_recipe_scaling").Flag?
    case (Update, UnitDefinition) => keys == ids + {"name"} && GoodName(host, name)
    case (_, MealRolePreset) =>
      && GoodPosition(position)
      && ((keys == ids + {"name", "position_key"} && GoodName(host, name))
          || (keys == ids + {"built_in_translation_key", "position_key"}
              && GoodTranslationKey(PayloadValue(c, "built_in_translation_key"))))
  }

  ghost predicate WellFormed(host: Host, c: Command, kind: Kind, operation: Operation, entityId: Utf16) {
    && IsUuid(c.id) && host.nanos(c.actionAt).Some?
    && PayloadValue(c, "entity_id") == Str(entityId) && IsUuid(entityId)
    && PayloadValue(c, "entity_kind") == Str(KindText(kind))
    && PayloadValue(c, "operation") == Str(OperationText(operation))
    && Carries(host, c, kind, operation)
  }

  lemma TextsAre(host: Host, v: Value)
    ensures ValidText(host, v) <==> GoodName(host, v)
    ensures ValidPosition(v) <==> GoodPosition(v)
    ensures ValidColor(v) <==> GoodColor(v)
    ensures ValidTranslationKey(v) <==> GoodTranslationKey(v)
    ensures GoodTranslationKey(v) ==> v.Str?
  {
    if v.Str? { PositionKeyIs(v.s); }
    assert AsciiText("#") == [0x23];
    hide IsPositionKey, OnlyLettersAndDigits;
    if v.Str? && |v.s| == 7 {
      assert v.s[..1] == [0x23] <==> v.s[0] == 0x23;
      assert forall i :: 0 <= i < 6 ==> v.s[1..][i] == v.s[i + 1];
      assert forall i :: 1 <= i < 7 ==> v.s[i] == v.s[1..][i - 1];
    }
  }

  lemma FieldKeys(c: Command)
    requires {"entity_id", "entity_kind", "operation"} <= c.payload.Keys
    ensures PayloadFields(c).Keys == c.payload.Keys - {"entity_id", "entity_kind", "operation"}
    ensures forall f :: f in PayloadFields(c) ==> PayloadFields(c)[f] == PayloadValue(c, f)
  {
  }

  lemma KeysPlus(c: Command, extra: set<string>)
    requires var ids := {"entity_id", "entity_kind", "operation"}; ids <= c.payload.Keys && ids !! extra
    ensures PayloadFields(c).Keys == extra <==> c.payload.Keys == {"entity_id", "entity_kind", "operation"} + extra
  {
    FieldKeys(c);
    var ids := {"entity_id", "entity_kind", "operation"};
    assert PayloadFields(c).Keys + ids == c.payload.Keys;
    assert ids + extra - ids == extra;
  }

  lemma UnitIs(host: Host, c: Command, operation: Operation)
    requires {"entity_id", "entity_kind", "operation"} <= c.payload.Keys && (operation == Create || operation == Update)
    ensures ValidFields(host, UnitDefinition, operation, PayloadFields(c)) <==>
      Carries(host, c, UnitDefinition, operation)
  {
    hide ValidText, GoodName, PayloadFields;
    FieldKeys(c);
    TextsAre(host, PayloadValue(c, "name"));
    KeysPlus(c, {"name", "allows_ingredient_quantity", "allows_recipe_scaling"});
    KeysPlus(c, {"name"});
  }

  lemma PresetIs(host: Host, c: Command, operation: Operation)
    requires {"entity_id", "entity_kind", "operation"} <= c.payload.Keys && (operation == Create || operation == Update)
    ensures ValidFields(host, MealRolePreset, operation, PayloadFields(c)) <==>
      Carries(host, c, MealRolePreset, operation)
  {
    hide ValidText, ValidPosition, ValidTranslationKey, GoodName, GoodPosition, GoodTranslationKey, PayloadFields;
    FieldKeys(c);
    TextsAre(host, PayloadValue(c, "name"));
    TextsAre(host, PayloadValue(c, "position_key"));
    TextsAre(host, PayloadValue(c, "built_in_translation_key"));
    KeysPlus(c, {"name", "position_key"});
    KeysPlus(c, {"built_in_translation_key", "position_key"});
    assert "name" !in {"built_in_translation_key", "position_key"};
    assert "built_in_translation_key" !in {"name", "position_key"};
  }

  lemma CarriesIs(host: Host, c: Command, kind: Kind, operation: Operation)
    requires {"entity_id", "entity_kind", "operation"} <= c.payload.Keys
    ensures ValidFields(host, kind, operation, PayloadFields(c)) <==> Carries(host, c, kind, operation)
  {
    hide ValidText, ValidPosition, ValidColor, ValidTranslationKey, GoodName, GoodPosition, GoodColor,
      GoodTranslationKey, PayloadFields;
    FieldKeys(c);
    if operation == Retire || operation == Restore {
      KeysPlus(c, {});
      return;
    }
    TextsAre(host, PayloadValue(c, "name"));
    match kind
    case StoreSection =>
      TextsAre(host, PayloadValue(c, "position_key"));
      KeysPlus(c, {"name", "position_key"});
    case UnitDefinition => UnitIs(host, c, operation);
    case MealRolePreset => PresetIs(host, c, operation);
    case _ =>
      TextsAre(host, PayloadValue(c, "color"));
      KeysPlus(c, {"color", "name"});
  }

  lemma IdsCarried(c: Command)
    requires PayloadValue(c, "entity_id").Str? && PayloadValue(c, "entity_kind").Str?
    requires PayloadValue(c, "operation").Str?
    ensures {"entity_id", "entity_kind", "operation"} <= c.payload.Keys
  {
  }

  lemma AcceptedStrings(host: Host, c: Command)
    requires Accepted(host, c).Some?
    ensures PayloadValue(c, "entity_id").Str? && PayloadValue(c, "entity_kind").Str?
    ensures PayloadValue(c, "operation").Str?
  {
  }

  /** The replay accepts exactly the well-formed commands, each of one kind and operation. */
  lemma AcceptedIs(host: Host, c: Command, kind: Kind, operation: Operation, entityId: Utf16)
    ensures WellFormed(host, c, kind, operation, entityId) <==>
      && Accepted(host, c).Some? && Accepted(host, c).value.entityId == entityId
      && Accepted(host, c).value.kind == kind && Accepted(host, c).value.operation == operation
  {
    KindIs(PayloadValue(c, "entity_kind"), kind);
    OperationIs(PayloadValue(c, "operation"), operation);
    hide ReadKind, ReadOperation, KindText, OperationText, ValidFields, Carries, IsUuid, FieldValues, PayloadFields;
    if PayloadValue(c, "entity_id").Str? && PayloadValue(c, "entity_kind").Str? && PayloadValue(c, "operation").Str? {
      IdsCarried(c);
      CarriesIs(host, c, kind, operation);
    }
    if Accepted(host, c).Some? { AcceptedStrings(host, c); }
  }

  // ---------- What a command does ----------

  // The clocked fields a command may set, each with what it stores; the lifecycle stores the date of retirement.
  function Changes(c: Command, kind: Kind, operation: Operation): map<string, Value> {
    var name, position := PayloadValue(c, "name"), PayloadValue(c, "position_key");
    if operation == Retire then map["lifecycle" := Str(c.actionAt)]
    else if operation == Restore then map["lifecycle" := Null]
    else
      var values :=
        match kind
        case StoreSection => map["name" := name, "position_key" := position]
        case RecipeTag => map["name" := name, "color" := PayloadValue(c, "color")]
        case DietaryTag => map["name" := name, "color" := PayloadValue(c, "color")]
        case UnitDefinition => map["custom_name" := name]
        case MealRolePreset =>
          if name.Str? then map["custom_name" := name, "built_in_translation_key" := Null, "position_key" := position]
          else
            map["custom_name" := Null, "built_in_translation_key" := PayloadValue(c, "built_in_translation_key"),
                "position_key" := position];
      if operation == Create then values["lifecycle" := Null] else values
  }

  // The first of two spellings that is a text, if either is.
  function FirstText(local: Value, server: Value): Utf16 {
    if local.Str? then local.s else if server.Str? then server.s else []
  }

  // A clock without a time or an id, of an earlier time, or of the same time and a lesser id.
  ghost predicate Yields(host: Host, c: Command, clock: Clock) {
    || !clock.Clock?
    || FirstText(clock.actionAt, clock.winningTime) == [] || FirstText(clock.mutationId, clock.winningId) == []
    || (var before, now := host.nanos(FirstText(clock.actionAt, clock.winningTime)), host.nanos(c.actionAt);
        && before.Some? && now.Some?
        && (before.value < now.value
            || (before.value == now.value && Less(FirstText(clock.mutationId, clock.winningId), c.id))))
  }

  lemma YieldsIs(host: Host, c: Command, clock: Clock)
    ensures Wins(host, c.actionAt, c.id, clock) <==> Yields(host, c, clock)
  {
    hide Less;
  }

  // The field is one the command changes, and its clock yields.
  ghost predicate Changed(host: Host, c: Command, changes: map<string, Value>, before: Record, f: string) {
    f in changes && Yields(host, c, ClockOf(before, f))
  }

  // What a field of the record becomes.
  ghost function FieldAfter(host: Host, c: Command, k: Key, changes: map<string, Value>, before: Record,
        f: string): Option<Value>
  {
    if f == "id" then Some(Str(k.entityId))
    else if f == "organization_id" then Some(Str(k.organizationId))
    else if f == "retired_at" && Changed(host, c, changes, before, "lifecycle") then Some(changes["lifecycle"])
    else if f != "lifecycle" && Changed(host, c, changes, before, f) then Some(changes[f])
    else Lookup(before.fields, f)
  }

  // The record with its ids, and the changed fields and clocks, and nothing else.
  ghost predicate Becomes(host: Host, c: Command, k: Key, changes: map<string, Value>, before: Record, after: Record) {
    && after.updatedAt == c.actionAt
    && after.lifecycle == (
         if !Changed(host, c, changes, before, "lifecycle") then before.lifecycle
         else if changes["lifecycle"].Null? then Active else Retired)
    && (forall f :: Lookup(after.fieldClocks, f) ==
         (if Changed(host, c, changes, before, f) then Some(LocalClock(c.id, c.actionAt))
          else Lookup(before.fieldClocks, f)))
    && (forall f :: Lookup(after.fields, f) == FieldAfter(host, c, k, changes, before, f))
  }

  lemma CarriedFields(c: Command, f: string)
    requires {"entity_id", "entity_kind", "operation"} <= c.payload.Keys
    ensures f !in {"entity_id", "entity_kind", "operation"} ==> ValueIn(PayloadFields(c), f) == PayloadValue(c, f)
  {
  }

  // A preset carries one of its two names, and no other.
  lemma PresetNames(host: Host, c: Command, operation: Operation)
    requires Carries(host, c, MealRolePreset, operation) && (operation == Create || operation == Update)
    ensures PayloadValue(c, "custom_name").Undefined?
    ensures PayloadValue(c, "name").Str? ==> PayloadValue(c, "built_in_translation_key").Undefined?
    ensures !PayloadValue(c, "name").Str? ==>
      PayloadValue(c, "name").Undefined? && PayloadValue(c, "built_in_translation_key").Str?
  {
    hide GoodPosition;
    assert "custom_name" !in
      {"entity_id", "entity_kind", "operation", "name", "built_in_translation_key", "position_key"};
  }

  // The clocked fields of a carried payload, and what they store.
  lemma CarriedChanges(host: Host, c: Command, kind: Kind, operation: Operation, f: string)
    requires {"entity_id", "entity_kind", "operation"} <= c.payload.Keys && Carries(host, c, kind, operation)
    ensures f in ClockFields(kind, operation) <==> f in Changes(c, kind, operation)
    ensures f in Changes(c, kind, operation) && f != "lifecycle" ==>
      ValueIn(FieldValues(kind, PayloadFields(c)), f) == Changes(c, kind, operation)[f]
  {
    TextsAre(host, PayloadValue(c, "name"));
    TextsAre(host, PayloadValue(c, "built_in_translation_key"));
    hide ValidText, ValidTranslationKey, GoodPosition, GoodColor, GoodTranslationKey, PayloadFields;
    CarriedFields(c, "name");
    CarriedFields(c, "position_key");
    CarriedFields(c, "color");
    CarriedFields(c, "custom_name");
    CarriedFields(c, "built_in_translation_key");
    if operation == Retire || operation == Restore { return; }
    match kind
    case StoreSection =>
    case RecipeTag =>
    case DietaryTag =>
    case UnitDefinition =>
    case MealRolePreset => PresetNames(host, c, operation);
  }

  lemma LifecycleChange(c: Command, kind: Kind, operation: Operation)
    ensures var changes := Changes(c, kind, operation);
      "lifecycle" in changes ==> changes["lifecycle"] == if operation == Retire then Str(c.actionAt) else Null
  {
  }

  lemma ChangesAre(host: Host, c: Command, kind: Kind, operation: Operation, entityId: Utf16, f: string)
    requires WellFormed(host, c, kind, operation, entityId) && Accepted(host, c).Some?
    requires Accepted(host, c).value.kind == kind && Accepted(host, c).value.operation == operation
    ensures var m, changes := Accepted(host, c).value, Changes(c, kind, operation);
      && (f in ClockFields(kind, operation) <==> f in changes)
      && (f in changes ==> StoredValue(m, f) == changes[f])
  {
    hide ReadKind, ReadOperation, KindText, OperationText, ValidFields, IsUuid, Carries, FieldValues, PayloadFields,
      ClockFields;
    AcceptedStrings(host, c);
    IdsCarried(c);
    CarriedChanges(host, c, kind, operation, f);
    LifecycleChange(c, kind, operation);
  }

  lemma MutationIds(host: Host, c: Command)
    requires Accepted(host, c).Some?
    ensures Accepted(host, c).value.id == c.id && Accepted(host, c).value.actionAt == c.actionAt
  {
    hide ReadKind, ReadOperation, ValidFields, FieldValues;
  }

  lemma WinningIs(host: Host, c: Command, kind: Kind, operation: Operation, entityId: Utf16, before: Record)
    requires WellFormed(host, c, kind, operation, entityId) && Accepted(host, c).Some?
    requires Accepted(host, c).value.kind == kind && Accepted(host, c).value.operation == operation
    ensures forall f :: f in Winning(host, Accepted(host, c).value, before) <==>
      Changed(host, c, Changes(c, kind, operation), before, f)
  {
    hide WellFormed, Changes, ClockFields, Wins, Yields;
    var m := Accepted(host, c).value;
    MutationIds(host, c);
    hide Accepted;
    FilterMembers(host, m, before, ClockFields(kind, operation));
    forall f
      ensures f in Winning(host, m, before) <==> Changed(host, c, Changes(c, kind, operation), before, f)
    {
      ChangesAre(host, c, kind, operation, entityId, f);
      YieldsIs(host, c, ClockOf(before, f));
    }
  }

  lemma InChanges(host: Host, c: Command, changes: map<string, Value>, before: Record)
    ensures forall f :: Changed(host, c, changes, before, f) ==> f in changes
  {
  }

  lemma ClocksAdded(k: Key, m: Mutation, before: Record, winning: seq<string>)
    ensures forall f ::
      Lookup(Put(k, m, before, winning).fieldClocks, f) ==
      if f in winning then Some(LocalClock(m.id, m.actionAt)) else Lookup(before.fieldClocks, f)
  {
    hide LocalClock, SetFields;
  }

  lemma PutOther(host: Host, c: Command, k: Key, kind: Kind, operation: Operation, entityId: Utf16, before: Record)
    requires WellFormed(host, c, kind, operation, entityId) && Accepted(host, c).Some?
    requires Accepted(host, c).value.kind == kind && Accepted(host, c).value.operation == operation
    ensures var m, changes := Accepted(host, c).value, Changes(c, kind, operation);
      var put := Put(k, m, before, Winning(host, m, before));
      && put.updatedAt == c.actionAt
      && (Changed(host, c, changes, before, "lifecycle") ==> "lifecycle" in changes)
      && put.lifecycle == (
           if !Changed(host, c, changes, before, "lifecycle") then before.lifecycle
           else if changes["lifecycle"].Null? then Active else Retired)
      && (forall f :: Lookup(put.fieldClocks, f) ==
           (if Changed(host, c, changes, before, f) then Some(LocalClock(c.id, c.actionAt))
            else Lookup(before.fieldClocks, f)))
  {
    hide WellFormed, Changes, Changed, Winning, SetFields, LocalClock, Wins, ClockFields, Filter;
    MutationIds(host, c);
    hide Accepted;
    WinningIs(host, c, kind, operation, entityId, before);
    LifecycleChange(c, kind, operation);
    InChanges(host, c, Changes(c, kind, operation), before);
    ClocksAdded(k, Accepted(host, c).value, before, Winning(host, Accepted(host, c).value, before));
  }

  lemma NotRetiredAt(host: Host, c: Command, kind: Kind, operation: Operation, entityId: Utf16, before: Record)
    ensures !Changed(host, c, Changes(c, kind, operation), before, "retired_at")
    ensures forall f :: Changed(host, c, Changes(c, kind, operation), before, f) ==> f in CLOCKED
  {
  }

  lemma PutField(host: Host, c: Command, k: Key, kind: Kind, operation: Operation, entityId: Utf16, before: Record,
        f: string)
    requires WellFormed(host, c, kind, operation, entityId) && Accepted(host, c).Some?
    requires Accepted(host, c).value.kind == kind && Accepted(host, c).value.operation == operation
    ensures var m, changes := Accepted(host, c).value, Changes(c, kind, operation);
      && (Changed(host, c, changes, before, "lifecycle") ==> "lifecycle" in changes)
      && (Changed(host, c, changes, before, f) ==> f in changes)
      && Lookup(Put(k, m, before, Winning(host, m, before)).fields, f) == FieldAfter(host, c, k, changes, before, f)
  {
    hide Accepted, WellFormed, Changes, Changed, ClockFields, Winning, StoredValue, SetFields;
    var m, changes := Accepted(host, c).value, Changes(c, kind, operation);
    WinningIs(host, c, kind, operation, entityId, before);
    InChanges(host, c, changes, before);
    var winning := Winning(host, m, before);
    var base := before.fields["id" := Str(k.entityId)]["organization_id" := Str(k.organizationId)];
    WinningClocked(host, m, before);
    NotRetiredAt(host, c, kind, operation, entityId, before);
    if f in CLOCKED && f != "lifecycle" {
      SetFieldsAt(base, m, winning, f);
      ChangesAre(host, c, kind, operation, entityId, f);
    } else if f == "retired_at" {
      SetFieldsAt(base, m, winning, "lifecycle");
      ChangesAre(host, c, kind, operation, entityId, "lifecycle");
    } else {
      SetFieldsElsewhere(base, m, winning, f);
    }
  }

  lemma PutBecomes(host: Host, c: Command, k: Key, kind: Kind, operation: Operation, entityId: Utf16, before: Record)
    requires WellFormed(host, c, kind, operation, entityId) && Accepted(host, c).Some?
    requires Accepted(host, c).value.kind == kind && Accepted(host, c).value.operation == operation
    ensures var m := Accepted(host, c).value;
      Becomes(host, c, k, Changes(c, kind, operation), before, Put(k, m, before, Winning(host, m, before)))
  {
    hide WellFormed, Changes, Changed, Winning, FieldAfter, Put;
    var m, changes := Accepted(host, c).value, Changes(c, kind, operation);
    hide Accepted;
    var put := Put(k, m, before, Winning(host, m, before));
    PutOther(host, c, k, kind, operation, entityId, before);
    forall f
      ensures Lookup(put.fields, f) == FieldAfter(host, c, k, changes, before, f)
    {
      PutField(host, c, k, kind, operation, entityId, before, f);
    }
  }

  /** A well-formed command changes exactly the fields it carries whose clocks yield, on the record as shown
      or on a new one; when none yields it does nothing. */
  lemma ReplayIs(host: Host, userId: Utf16, organizationId: Utf16, canonical: Option<Record>, overlay: Option<Record>,
        c: Command, kind: Kind, operation: Operation, entityId: Utf16)
    requires WellFormed(host, c, kind, operation, entityId)
    ensures var k := Key(userId, organizationId, TypeName(kind), entityId);
      var before := if overlay.Some? then overlay.value else if canonical.Some? then canonical.value
                    else Record(Active, map[], map[], []);
      var changes := Changes(c, kind, operation);
      var next := ReplayAt(host, userId, organizationId, canonical, overlay, k, c);
      if exists f :: Changed(host, c, changes, before, f) then
        next.Some? && Becomes(host, c, k, changes, before, next.value)
      else next == overlay
  {
    hide Accepted, WellFormed, Changes, Winning, Put, Becomes, Changed, TypeName, KindName, ReadKind, KindText;
    AcceptedIs(host, c, kind, operation, entityId);
    KindIs(Null, kind);
    var m, k := Accepted(host, c).value, Key(userId, organizationId, TypeName(kind), entityId);
    var before := Base(OrElse(overlay, canonical));
    WinningIs(host, c, kind, operation, entityId, before);
    PutBecomes(host, c, k, kind, operation, entityId, before);
    var winning := Winning(host, m, before);
    if winning != [] { assert winning[0] in winning; }
  }

  /** No other record changes, and a command that is not well formed changes none. */
  lemma ReplayElsewhere(host: Host, userId: Utf16, organizationId: Utf16, canonical: Option<Record>,
        overlay: Option<Record>, k: Key, c: Command)
    requires forall kind, operation, entityId :: WellFormed(host, c, kind, operation, entityId) ==>
      k != Key(userId, organizationId, TypeName(kind), entityId)
    ensures ReplayAt(host, userId, organizationId, canonical, overlay, k, c) == overlay
  {
    if Accepted(host, c).Some? {
      var m := Accepted(host, c).value;
      AcceptedIs(host, c, m.kind, m.operation, m.entityId);
      KindIs(Null, m.kind);
      assert WellFormed(host, c, m.kind, m.operation, m.entityId);
      hide Accepted, WellFormed, TypeName, KindName;
    }
  }
}
