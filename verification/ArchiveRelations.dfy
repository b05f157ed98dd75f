/** The relation checks an event archive must pass before it is cached. */
module ArchiveRelations {
  import opened Text
  import opened Wrappers
  import opened Replica

  /** A record of the archive. Objects are equal only to themselves, so distinct ones carry distinct
      tokens; an item that is no object has no fields. */
  type Row = map<string, Value>

  /** The collections of the payload, by name. */
  type Payload = map<string, seq<Row>>

  function Rows(p: Payload, collection: string): seq<Row> {
    if collection in p then p[collection] else []
  }

  // ---------- The checks ----------

  datatype Check =
    | EventIs                                                              // event_id is the requested event
    | Ref(field: string, collection: string)                               // requireRef
    | Scope(field: string, collection: string, fields: seq<string>)        // sameScope with the referenced row
    | Back(field: string, collection: string, back: string)                // the referenced row points back
    | OwnId(field: string)                                                 // the id repeats a field
    | If(field: string, check: Check)                                      // only when the field is not null

  function ScopedRef(field: string, collection: string, fields: seq<string>): seq<Check> {
    [Ref(field, collection), Scope(field, collection, fields)]
  }

  const EVENT_SCOPE := ["event_id", "organization_id"]
  const LIST_SCOPE := ["shopping_list_id", "event_id", "organization_id"]
  const ROW_SCOPE := LIST_SCOPE + ["ingredient_id"]
  const PRICE_SCOPE := EVENT_SCOPE + ["ingredient_id"]
  const CHAIN_SCOPE := ["event_ingredient_price_id"] + PRICE_SCOPE
  const ORGANIZATION := ["organization_id"]

  const COLLECTIONS: seq<string> := [
    "event_days", "event_meal_roles", "scheduled_recipes", "scheduled_ingredient_overrides", "event_ingredient_prices",
    "event_ingredient_price_snapshots", "shopping_lists", "shopping_generation_revisions", "shopping_revision_sources",
    "shopping_ingredient_rows", "shopping_contributions", "shopping_contribution_snapshots", "ad_hoc_shopping_items",
    "receipts", "receipt_attachments", "recipe_versions", "recipe_version_lines", "recipe_version_tags",
    "ingredient_versions", "ingredient_version_dietary_tags", "dietary_exceptions", "resolved_dietary_warnings"]

  function ShoppingChecks(collection: string): seq<Check> {
    match collection
    case "shopping_lists" =>
      [EventIs,
       If("current_generation_revision_id", Ref("current_generation_revision_id", "shopping_generation_revisions")),
       If("current_generation_revision_id",
         Scope("current_generation_revision_id", "shopping_generation_revisions", EVENT_SCOPE)),
       If("current_generation_revision_id",
         Back("current_generation_revision_id", "shopping_generation_revisions", "shopping_list_id"))]
    case "shopping_generation_revisions" =>
      [Ref("shopping_list_id", "shopping_lists"), Scope("shopping_list_id", "shopping_lists", EVENT_SCOPE),
       If("parent_revision_id", Ref("parent_revision_id", "shopping_generation_revisions")),
       If("parent_revision_id", Scope("parent_revision_id", "shopping_generation_revisions", LIST_SCOPE))]
    case "shopping_revision_sources" =>
      ScopedRef("generation_revision_id", "shopping_generation_revisions", LIST_SCOPE)
      + ScopedRef("shopping_list_id", "shopping_lists", EVENT_SCOPE)
      + ScopedRef("scheduled_recipe_id", "scheduled_recipes", EVENT_SCOPE) + [EventIs]
    case "shopping_ingredient_rows" =>
      [Ref("shopping_list_id", "shopping_lists"), Scope("shopping_list_id", "shopping_lists", EVENT_SCOPE)]
    case "shopping_contributions" =>
      [Ref("shopping_list_id", "shopping_lists"), Ref("shopping_ingredient_row_id", "shopping_ingredient_rows"),
       Ref("scheduled_recipe_id", "scheduled_recipes"),
       Scope("shopping_ingredient_row_id", "shopping_ingredient_rows", ROW_SCOPE)]
    case "shopping_contribution_snapshots" =>
      [Ref("generation_revision_id", "shopping_generation_revisions"),
       Ref("shopping_contribution_id", "shopping_contributions"),
       Scope("generation_revision_id", "shopping_generation_revisions", LIST_SCOPE),
       Scope("shopping_contribution_id", "shopping_contributions", ROW_SCOPE)]
    case _ => []
  }

  function PriceChecks(collection: string): seq<Check> {
    match collection
    case "event_ingredient_prices" =>
      [EventIs, Ref("ingredient_id", "ingredients"), Scope("ingredient_id", "ingredients", ORGANIZATION),
       If("current_snapshot_id", Ref("current_snapshot_id", "event_ingredient_price_snapshots")),
       If("current_snapshot_id", Scope("current_snapshot_id", "event_ingredient_price_snapshots", PRICE_SCOPE)),
       If("current_snapshot_id",
         Back("current_snapshot_id", "event_ingredient_price_snapshots", "event_ingredient_price_id"))]
    case "event_ingredient_price_snapshots" =>
      [Ref("event_ingredient_price_id", "event_ingredient_prices"),
       Scope("event_ingredient_price_id", "event_ingredient_prices", PRICE_SCOPE),
       If("previous_snapshot_id", Ref("previous_snapshot_id", "event_ingredient_price_snapshots")),
       If("previous_snapshot_id", Scope("previous_snapshot_id", "event_ingredient_price_snapshots", CHAIN_SCOPE))]
    case _ => []
  }

  function EventChecks(collection: string): seq<Check> {
    match collection
    case "event_days" => [EventIs]
    case "event_meal_roles" => [EventIs]
    case "ad_hoc_shopping_items" => [EventIs]
    case "receipts" => [EventIs]
    case "dietary_exceptions" => [EventIs]
    case "receipt_attachments" => ScopedRef("receipt_id", "receipts", EVENT_SCOPE)
    case "scheduled_recipes" =>
      [EventIs] + ScopedRef("recipe_id", "recipes", ORGANIZATION)
      + ScopedRef("recipe_version_id", "recipe_versions", ["organization_id", "recipe_id"])
      + [If("event_day_id", Ref("event_day_id", "event_days")),
        If("event_day_id", Scope("event_day_id", "event_days", ["event_id"])),
         If("event_meal_role_id", Ref("event_meal_role_id", "event_meal_roles")),
         If("event_meal_role_id", Scope("event_meal_role_id", "event_meal_roles", ["event_id"]))]
    case "scheduled_ingredient_overrides" =>
      [EventIs] + ScopedRef("scheduled_recipe_id", "scheduled_recipes", EVENT_SCOPE)
      + ScopedRef("ingredient_id", "ingredients", ORGANIZATION)
      + ScopedRef("ingredient_version_id", "ingredient_versions", ["organization_id", "ingredient_id"])
    case "resolved_dietary_warnings" =>
      [EventIs] + ScopedRef("scheduled_recipe_id", "scheduled_recipes", EVENT_SCOPE) + [OwnId("scheduled_recipe_id")]
    case _ => []
  }

  function CatalogChecks(collection: string): seq<Check> {
    match collection
    case "recipe_versions" =>
      ScopedRef("recipe_id", "recipes", ORGANIZATION)
      + [If("based_on_version_id", Ref("based_on_version_id", "recipe_versions")),
         If("based_on_version_id", Scope("based_on_version_id", "recipe_versions", ["recipe_id", "organization_id"]))]
    case "recipe_version_lines" =>
      ScopedRef("recipe_version_id", "recipe_versions", ["recipe_id", "organization_id"])
      + ScopedRef("recipe_id", "recipes", ORGANIZATION)
    case "recipe_version_tags" =>
      ScopedRef("recipe_version_id", "recipe_versions", ORGANIZATION)
      + ScopedRef("recipe_tag_id", "recipe_tags", ORGANIZATION)
    case "ingredient_versions" => ScopedRef("ingredient_id", "ingredients", ORGANIZATION)
    case "ingredient_version_dietary_tags" =>
      ScopedRef("ingredient_version_id", "ingredient_versions", ORGANIZATION)
      + ScopedRef("dietary_tag_id", "dietary_tags", ORGANIZATION)
    case _ => []
  }

  function ChecksOf(collection: string): seq<Check> {
    ShoppingChecks(collection) + PriceChecks(collection) + EventChecks(collection) + CatalogChecks(collection)
  }

  // ---------- What they say ----------

  // The string ids of a collection.
  function Ids(rows: seq<Row>): set<Value> {
    set i | 0 <= i < |rows| && ValueIn(rows[i], "id").Str? :: ValueIn(rows[i], "id")
  }

  // `new Map(rows.map((row) => [row.id, row]))`: a later row replaces an earlier one.
  function ById(rows: seq<Row>): map<Value, Row> {
    if rows == [] then map[]
    else
      var last := rows[|rows| - 1];
      ById(rows[..|rows| - 1])[ValueIn(last, "id") := last]
  }

  predicate SameFields(row: Row, parent: Row, fields: seq<string>) {
    forall i | 0 <= i < |fields| :: ValueIn(row, fields[i]) == ValueIn(parent, fields[i])
  }

  predicate Holds(p: Payload, eventId: Utf16, row: Row, check: Check) {
    match check
    case EventIs => ValueIn(row, "event_id") == Str(eventId)
    case Ref(field, collection) => ValueIn(row, field) in Ids(Rows(p, collection))
    case Scope(field, collection, fields) =>
      var parent := Lookup(ById(Rows(p, collection)), ValueIn(row, field));
      parent.Some? && SameFields(row, parent.value, fields)
    case Back(field, collection, back) =>
      var parent := Lookup(ById(Rows(p, collection)), ValueIn(row, field));
      parent.Some? && ValueIn(parent.value, back) == ValueIn(row, "id")
    case OwnId(field) => ValueIn(row, "id") == ValueIn(row, field)
    case If(field, check) =>
      ValueIn(row, field).Null? || ValueIn(row, field).Undefined? || Holds(p, eventId, row, check)
  }

  predicate RowPasses(p: Payload, eventId: Utf16, row: Row, checks: seq<Check>) {
    forall k | 0 <= k < |checks| :: Holds(p, eventId, row, checks[k])
  }

  predicate CollectionPasses(p: Payload, eventId: Utf16, collection: string) {
    forall i | 0 <= i < |Rows(p, collection)| :: RowPasses(p, eventId, Rows(p, collection)[i], ChecksOf(collection))
  }

  predicate Accepted(p: Payload, eventId: Utf16) {
    forall k | 0 <= k < |COLLECTIONS| :: CollectionPasses(p, eventId, COLLECTIONS[k])
  }

  // The loops of checks; the first that fails throws.
  method ValidateRelations(p: Payload, eventId: Utf16) returns (accepted: bool)
    ensures accepted <==> Accepted(p, eventId)
  {
    hide Holds, ChecksOf;
    for k := 0 to |COLLECTIONS|
      invariant forall i :: 0 <= i < k ==> CollectionPasses(p, eventId, COLLECTIONS[i])
    {
      var collection := COLLECTIONS[k];
      var passes := ValidateCollection(p, eventId, collection);
      if !passes { return false; }
    }
    return true;
  }

  method ValidateCollection(p: Payload, eventId: Utf16, collection: string) returns (passes: bool)
    ensures passes <==> CollectionPasses(p, eventId, collection)
  {
    hide Holds, ChecksOf;
    var rows, checks := Rows(p, collection), ChecksOf(collection);
    for i := 0 to |rows|
      invariant forall j :: 0 <= j < i ==> RowPasses(p, eventId, rows[j], checks)
    {
      for k := 0 to |checks|
        invariant forall j :: 0 <= j < k ==> Holds(p, eventId, rows[i], checks[j])
      {
        if !Holds(p, eventId, rows[i], checks[k]) { return false; }
      }
    }
    return true;
  }

  // ---------- Following references ----------

  // No two rows share an id.
  ghost predicate NoRepeatedId(p: Payload, collection: string) {
    var rows := Rows(p, collection);
    forall i, j :: 0 <= i < j < |rows| && ValueIn(rows[i], "id").Str? ==>
      ValueIn(rows[i], "id") != ValueIn(rows[j], "id")
  }

  // The row is in the collection and the field names it.
  ghost predicate Refers(p: Payload, row: Row, field: string, collection: string, target: Row) {
    target in Rows(p, collection) && ValueIn(target, "id") == ValueIn(row, field)
  }

  lemma {:induction false} ByIdGives(rows: seq<Row>, i: nat)
    requires i < |rows| && forall j :: i < j < |rows| ==> ValueIn(rows[j], "id") != ValueIn(rows[i], "id")
    ensures Lookup(ById(rows), ValueIn(rows[i], "id")) == Some(rows[i])
  {
    if i < |rows| - 1 {
      ByIdGives(rows[..|rows| - 1], i);
      assert ValueIn(rows[|rows| - 1], "id") != ValueIn(rows[i], "id");
    }
  }

  // A reference that passed leads to a row, and to one that agrees on the scope.
  lemma RefLeads(p: Payload, eventId: Utf16, row: Row, field: string, collection: string)
    requires Holds(p, eventId, row, Ref(field, collection))
    ensures ValueIn(row, field).Str? && exists target :: Refers(p, row, field, collection, target)
  {
    var rows := Rows(p, collection);
    var i :| 0 <= i < |rows| && ValueIn(rows[i], "id").Str? && ValueIn(rows[i], "id") == ValueIn(row, field);
    assert Refers(p, row, field, collection, rows[i]);
  }

  lemma ScopeAgrees(p: Payload, eventId: Utf16, row: Row, field: string, collection: string, fields: seq<string>,
        target: Row)
    requires Holds(p, eventId, row, Scope(field, collection, fields)) && NoRepeatedId(p, collection)
    requires ValueIn(row, field).Str? && Refers(p, row, field, collection, target)
    ensures SameFields(row, target, fields)
  {
    var rows := Rows(p, collection);
    var i :| 0 <= i < |rows| && rows[i] == target;
    ByIdGives(rows, i);
  }

  lemma PassesOne(p: Payload, eventId: Utf16, c: nat, row: Row, k: nat)
    requires Accepted(p, eventId) && c < |COLLECTIONS| && row in Rows(p, COLLECTIONS[c])
      && k < |ChecksOf(COLLECTIONS[c])|
    ensures Holds(p, eventId, row, ChecksOf(COLLECTIONS[c])[k])
  {
  }

  // Where a collection stands in the list of checked ones.
  lemma PassesChecks(p: Payload, eventId: Utf16, collection: string, row: Row, check: Check)
    requires Accepted(p, eventId) && collection in COLLECTIONS && row in Rows(p, collection)
      && check in ChecksOf(collection)
    ensures Holds(p, eventId, row, check)
  {
    hide Holds, ChecksOf, Accepted;
    var c :| 0 <= c < |COLLECTIONS| && COLLECTIONS[c] == collection;
    var k :| 0 <= k < |ChecksOf(collection)| && ChecksOf(collection)[k] == check;
    PassesOne(p, eventId, c, row, k);
  }
}
