/** What each record of an accepted archive must point to, collection by collection, and why the checks
    accept exactly the archives in which every record does. */
module ArchiveRules {
  import opened Text
  import opened Wrappers
  import opened Replica
  import opened ArchiveRelations

  // ---------- References ----------

  // The record of the collection that has this id; of several, the last.
  ghost predicate Named(p: Payload, collection: string, id: Value, target: Row) {
    exists i :: 0 <= i < |Rows(p, collection)| && Rows(p, collection)[i] == target && ValueIn(target, "id") == id
      && forall j :: i < j < |Rows(p, collection)| ==> ValueIn(Rows(p, collection)[j], "id") != id
  }

  ghost predicate Shares(row: Row, target: Row, fields: seq<string>) {
    forall f :: f in fields ==> ValueIn(row, f) == ValueIn(target, f)
  }

  // The field names a record of the collection, and the two agree on these fields.
  ghost predicate Belongs(p: Payload, row: Row, field: string, collection: string, shared: seq<string>) {
    ValueIn(row, field).Str?
    && exists target :: Named(p, collection, ValueIn(row, field), target) && Shares(row, target, shared)
  }

  ghost predicate Absent(v: Value) {
    v.Null? || v.Undefined?
  }

  ghost predicate MayBelong(p: Payload, row: Row, field: string, collection: string, shared: seq<string>) {
    Absent(ValueIn(row, field)) || Belongs(p, row, field, collection, shared)
  }

  // The record the field names, if it names one, points back here.
  ghost predicate PointedAt(p: Payload, row: Row, field: string, collection: string, back: string) {
    Absent(ValueIn(row, field))
    || exists target :: Named(p, collection, ValueIn(row, field), target) && ValueIn(target, back) == ValueIn(row, "id")
  }

  ghost predicate InEvent(row: Row, eventId: Utf16) {
    ValueIn(row, "event_id") == Str(eventId)
  }

  // ---------- The records ----------

  ghost predicate GoodShopping(p: Payload, eventId: Utf16, collection: string, row: Row) {
    var list, rowOfList := ["shopping_list_id", "event_id", "organization_id"],
        ["shopping_list_id", "event_id", "organization_id", "ingredient_id"];
    match collection
    case "shopping_lists" =>
      && InEvent(row, eventId)
      && MayBelong(p, row, "current_generation_revision_id", "shopping_generation_revisions",
           ["event_id", "organization_id"])
      && PointedAt(p, row, "current_generation_revision_id", "shopping_generation_revisions", "shopping_list_id")
    case "shopping_generation_revisions" =>
      && Belongs(p, row, "shopping_list_id", "shopping_lists", ["event_id", "organization_id"])
      && MayBelong(p, row, "parent_revision_id", "shopping_generation_revisions", list)
    case "shopping_revision_sources" =>
      && InEvent(row, eventId) && Belongs(p, row, "generation_revision_id", "shopping_generation_revisions", list)
      && Belongs(p, row, "shopping_list_id", "shopping_lists", ["event_id", "organization_id"])
      && Belongs(p, row, "scheduled_recipe_id", "scheduled_recipes", ["event_id", "organization_id"])
    case "shopping_ingredient_rows" =>
      Belongs(p, row, "shopping_list_id", "shopping_lists", ["event_id", "organization_id"])
    case "shopping_contributions" =>
      && Belongs(p, row, "shopping_list_id", "shopping_lists", [])
      && Belongs(p, row, "scheduled_recipe_id", "scheduled_recipes", [])
      && Belongs(p, row, "shopping_ingredient_row_id", "shopping_ingredient_rows", rowOfList)
    case "shopping_contribution_snapshots" =>
      && Belongs(p, row, "generation_revision_id", "shopping_generation_revisions", list)
      && Belongs(p, row, "shopping_contribution_id", "shopping_contributions", rowOfList)
    case _ => true
  }

  ghost predicate GoodPrice(p: Payload, eventId: Utf16, collection: string, row: Row) {
    var price := ["event_id", "organization_id", "ingredient_id"];
    match collection
    case "event_ingredient_prices" =>
      && InEvent(row, eventId) && Belongs(p, row, "ingredient_id", "ingredients", ["organization_id"])
      && MayBelong(p, row, "current_snapshot_id", "event_ingredient_price_snapshots", price)
      && PointedAt(p, row, "current_snapshot_id", "event_ingredient_price_snapshots", "event_ingredient_price_id")
    case "event_ingredient_price_snapshots" =>
      && Belongs(p, row, "event_ingredient_price_id", "event_ingredient_prices", price)
      && MayBelong(p, row, "previous_snapshot_id", "event_ingredient_price_snapshots",
           ["event_ingredient_price_id", "event_id", "organization_id", "ingredient_id"])
    case _ => true
  }

  ghost predicate GoodPlan(p: Payload, eventId: Utf16, collection: string, row: Row) {
    match collection
    case "event_days" => InEvent(row, eventId)
    case "event_meal_roles" => InEvent(row, eventId)
    case "ad_hoc_shopping_items" => InEvent(row, eventId)
    case "receipts" => InEvent(row, eventId)
    case "dietary_exceptions" => InEvent(row, eventId)
    case "receipt_attachments" => Belongs(p, row, "receipt_id", "receipts", ["event_id", "organization_id"])
    case "scheduled_recipes" =>
      && InEvent(row, eventId) && Belongs(p, row, "recipe_id", "recipes", ["organization_id"])
      && Belongs(p, row, "recipe_version_id", "recipe_versions", ["organization_id", "recipe_id"])
      && MayBelong(p, row, "event_day_id", "event_days", ["event_id"])
      && MayBelong(p, row, "event_meal_role_id", "event_meal_roles", ["event_id"])
    case "scheduled_ingredient_overrides" =>
      && InEvent(row, eventId)
      && Belongs(p, row, "scheduled_recipe_id", "scheduled_recipes", ["event_id", "organization_id"])
      && Belongs(p, row, "ingredient_id", "ingredients", ["organization_id"])
      && Belongs(p, row, "ingredient_version_id", "ingredient_versions", ["organization_id", "ingredient_id"])
    case "resolved_dietary_warnings" =>
      && InEvent(row, eventId) && ValueIn(row, "id") == ValueIn(row, "scheduled_recipe_id")
      && Belongs(p, row, "scheduled_recipe_id", "scheduled_recipes", ["event_id", "organization_id"])
    case _ => true
  }

  ghost predicate GoodCatalog(p: Payload, collection: string, row: Row) {
    match collection
    case "recipe_versions" =>
      && Belongs(p, row, "recipe_id", "recipes", ["organization_id"])
      && MayBelong(p, row, "based_on_version_id", "recipe_versions", ["recipe_id", "organization_id"])
    case "recipe_version_lines" =>
      && Belongs(p, row, "recipe_version_id", "recipe_versions", ["recipe_id", "organization_id"])
      && Belongs(p, row, "recipe_id", "recipes", ["organization_id"])
    case "recipe_version_tags" =>
      && Belongs(p, row, "recipe_version_id", "recipe_versions", ["organization_id"])
      && Belongs(p, row, "recipe_tag_id", "recipe_tags", ["organization_id"])
    case "ingredient_versions" => Belongs(p, row, "ingredient_id", "ingredients", ["organization_id"])
    case "ingredient_version_dietary_tags" =>
      && Belongs(p, row, "ingredient_version_id", "ingredient_versions", ["organization_id"])
      && Belongs(p, row, "dietary_tag_id", "dietary_tags", ["organization_id"])
    case _ => true
  }

  // ---------- What the checks say ----------

  // Where the row of an id is found.
  lemma {:induction false} Found(rows: seq<Row>, id: Value) returns (i: nat)
    requires id in ById(rows)
    ensures i < |rows| && rows[i] == ById(rows)[id] && ValueIn(rows[i], "id") == id
    ensures forall j :: i < j < |rows| ==> ValueIn(rows[j], "id") != id
  {
    i := |rows| - 1;
    if ValueIn(rows[i], "id") != id {
      var last := i;
      i := Found(rows[..last], id);
      assert forall j :: i < j < last ==> rows[j] == rows[..last][j];
    }
  }

  lemma NamedIs(p: Payload, collection: string, id: Value, target: Row)
    ensures Lookup(ById(Rows(p, collection)), id) == Some(target) <==> Named(p, collection, id, target)
  {
    var rows := Rows(p, collection);
    if id in ById(rows) {
      var i := Found(rows, id);
      assert rows[i] == ById(rows)[id];
    }
    if Named(p, collection, id, target) {
      var i :| 0 <= i < |rows| && rows[i] == target && ValueIn(target, "id") == id
        && forall j :: i < j < |rows| ==> ValueIn(rows[j], "id") != id;
      ByIdGives(rows, i);
    }
  }

  lemma {:induction false} KnownIds(rows: seq<Row>, id: Value)
    requires id.Str?
    ensures id in Ids(rows) <==> id in ById(rows)
  {
    if rows != [] {
      KnownIds(rows[..|rows| - 1], id);
      assert forall i :: 0 <= i < |rows| - 1 ==> rows[i] == rows[..|rows| - 1][i];
    }
  }

  lemma SharesIs(row: Row, target: Row, fields: seq<string>)
    ensures SameFields(row, target, fields) <==> Shares(row, target, fields)
  {
    if Shares(row, target, fields) {
      forall i | 0 <= i < |fields|
        ensures ValueIn(row, fields[i]) == ValueIn(target, fields[i])
      {
        assert fields[i] in fields;
      }
    }
  }

  // A reference with its scope, or without one.
  lemma BelongsIs(p: Payload, eventId: Utf16, row: Row, field: string, collection: string, fields: seq<string>)
    ensures Holds(p, eventId, row, Ref(field, collection)) <==> Belongs(p, row, field, collection, [])
    ensures Holds(p, eventId, row, Ref(field, collection)) && Holds(p, eventId, row, Scope(field, collection, fields))
      <==> Belongs(p, row, field, collection, fields)
  {
    var rows, id := Rows(p, collection), ValueIn(row, field);
    if id.Str? {
      KnownIds(rows, id);
      if id in ById(rows) {
        var target := ById(rows)[id];
        NamedIs(p, collection, id, target);
        SharesIs(row, target, fields);
        assert Shares(row, target, []);
      }
      forall target | Named(p, collection, id, target)
        ensures Lookup(ById(rows), id) == Some(target)
      {
        NamedIs(p, collection, id, target);
      }
    }
  }

  lemma MayBelongIs(p: Payload, eventId: Utf16, row: Row, field: string, collection: string, fields: seq<string>)
    ensures Holds(p, eventId, row, If(field, Ref(field, collection)))
            && Holds(p, eventId, row, If(field, Scope(field, collection, fields)))
      <==> MayBelong(p, row, field, collection, fields)
  {
    BelongsIs(p, eventId, row, field, collection, fields);
  }

  lemma PointedAtIs(p: Payload, eventId: Utf16, row: Row, field: string, collection: string, back: string)
    ensures Holds(p, eventId, row, If(field, Back(field, collection, back))) <==>
      PointedAt(p, row, field, collection, back)
  {
    var rows, id := Rows(p, collection), ValueIn(row, field);
    if id in ById(rows) { NamedIs(p, collection, id, ById(rows)[id]); }
    forall target | Named(p, collection, id, target)
      ensures Lookup(ById(rows), id) == Some(target)
    {
      NamedIs(p, collection, id, target);
    }
  }

  lemma EventHolds(p: Payload, eventId: Utf16, row: Row)
    ensures Holds(p, eventId, row, EventIs) <==> InEvent(row, eventId)
  {
  }

  lemma ScopesAre()
    ensures EVENT_SCOPE == ["event_id", "organization_id"] && ORGANIZATION == ["organization_id"]
    ensures LIST_SCOPE == ["shopping_list_id", "event_id", "organization_id"]
    ensures ROW_SCOPE == ["shopping_list_id", "event_id", "organization_id", "ingredient_id"]
    ensures PRICE_SCOPE == ["event_id", "organization_id", "ingredient_id"]
    ensures CHAIN_SCOPE == ["event_ingredient_price_id", "event_id", "organization_id", "ingredient_id"]
  {
  }

  // A list of checks passes when each of its members does.
  lemma PassesIs(p: Payload, eventId: Utf16, row: Row, checks: seq<Check>)
    ensures RowPasses(p, eventId, row, checks) <==> forall c :: c in checks ==> Holds(p, eventId, row, c)
  {
    hide Holds;
    if forall c :: c in checks ==> Holds(p, eventId, row, c) {
      forall k | 0 <= k < |checks|
        ensures Holds(p, eventId, row, checks[k])
      {
        assert checks[k] in checks;
      }
    }
  }

  lemma OwnIdHolds(p: Payload, eventId: Utf16, row: Row, field: string)
    ensures Holds(p, eventId, row, OwnId(field)) <==> ValueIn(row, "id") == ValueIn(row, field)
  {
  }

  lemma Joined(p: Payload, eventId: Utf16, row: Row, some: seq<Check>, more: seq<Check>)
    ensures RowPasses(p, eventId, row, some + more) <==>
      RowPasses(p, eventId, row, some) && RowPasses(p, eventId, row, more)
  {
    hide Holds, RowPasses;
    PassesIs(p, eventId, row, some);
    PassesIs(p, eventId, row, more);
    PassesIs(p, eventId, row, some + more);
  }

  lemma ListIs(p: Payload, eventId: Utf16, row: Row)
    ensures RowPasses(p, eventId, row, ShoppingChecks("shopping_lists")) <==>
      GoodShopping(p, eventId, "shopping_lists", row)
  {
    hide Holds, RowPasses, Belongs, MayBelong, PointedAt, InEvent;
    ScopesAre();
    PassesIs(p, eventId, row, ShoppingChecks("shopping_lists"));
    EventHolds(p, eventId, row);
    MayBelongIs(p, eventId, row, "current_generation_revision_id", "shopping_generation_revisions", EVENT_SCOPE);
    PointedAtIs(p, eventId, row, "current_generation_revision_id", "shopping_generation_revisions", "shopping_list_id");
  }

  lemma RevisionIs(p: Payload, eventId: Utf16, row: Row)
    ensures RowPasses(p, eventId, row, ShoppingChecks("shopping_generation_revisions")) <==>
      GoodShopping(p, eventId, "shopping_generation_revisions", row)
  {
    hide Holds, RowPasses, Belongs, MayBelong, PointedAt, InEvent;
    ScopesAre();
    PassesIs(p, eventId, row, ShoppingChecks("shopping_generation_revisions"));
    BelongsIs(p, eventId, row, "shopping_list_id", "shopping_lists", EVENT_SCOPE);
    MayBelongIs(p, eventId, row, "parent_revision_id", "shopping_generation_revisions", LIST_SCOPE);
  }

  lemma SourceIs(p: Payload, eventId: Utf16, row: Row)
    ensures RowPasses(p, eventId, row, ShoppingChecks("shopping_revision_sources")) <==>
      GoodShopping(p, eventId, "shopping_revision_sources", row)
  {
    hide Holds, RowPasses, Belongs, MayBelong, PointedAt, InEvent;
    ScopesAre();
    PassesIs(p, eventId, row, ShoppingChecks("shopping_revision_sources"));
    EventHolds(p, eventId, row);
    BelongsIs(p, eventId, row, "generation_revision_id", "shopping_generation_revisions", LIST_SCOPE);
    BelongsIs(p, eventId, row, "shopping_list_id", "shopping_lists", EVENT_SCOPE);
    BelongsIs(p, eventId, row, "scheduled_recipe_id", "scheduled_recipes", EVENT_SCOPE);
  }

  lemma RowIs(p: Payload, eventId: Utf16, row: Row)
    ensures RowPasses(p, eventId, row, ShoppingChecks("shopping_ingredient_rows")) <==>
      GoodShopping(p, eventId, "shopping_ingredient_rows", row)
  {
    hide Holds, RowPasses, Belongs, MayBelong, PointedAt, InEvent;
    ScopesAre();
    PassesIs(p, eventId, row, ShoppingChecks("shopping_ingredient_rows"));
    BelongsIs(p, eventId, row, "shopping_list_id", "shopping_lists", EVENT_SCOPE);
  }

  lemma ContributionIs(p: Payload, eventId: Utf16, row: Row)
    ensures RowPasses(p, eventId, row, ShoppingChecks("shopping_contributions")) <==>
      GoodShopping(p, eventId, "shopping_contributions", row)
  {
    hide Holds, RowPasses, Belongs, MayBelong, PointedAt, InEvent;
    ScopesAre();
    PassesIs(p, eventId, row, ShoppingChecks("shopping_contributions"));
    BelongsIs(p, eventId, row, "shopping_list_id", "shopping_lists", EVENT_SCOPE);
    BelongsIs(p, eventId, row, "scheduled_recipe_id", "scheduled_recipes", EVENT_SCOPE);
    BelongsIs(p, eventId, row, "shopping_ingredient_row_id", "shopping_ingredient_rows", ROW_SCOPE);
  }

  lemma SnapshotIs(p: Payload, eventId: Utf16, row: Row)
    ensures RowPasses(p, eventId, row, ShoppingChecks("shopping_contribution_snapshots")) <==>
      GoodShopping(p, eventId, "shopping_contribution_snapshots", row)
  {
    hide Holds, RowPasses, Belongs, MayBelong, PointedAt, InEvent;
    ScopesAre();
    PassesIs(p, eventId, row, ShoppingChecks("shopping_contribution_snapshots"));
    BelongsIs(p, eventId, row, "generation_revision_id", "shopping_generation_revisions", LIST_SCOPE);
    BelongsIs(p, eventId, row, "shopping_contribution_id", "shopping_contributions", ROW_SCOPE);
  }

  lemma PriceIs(p: Payload, eventId: Utf16, row: Row)
    ensures RowPasses(p, eventId, row, PriceChecks("event_ingredient_prices")) <==>
      GoodPrice(p, eventId, "event_ingredient_prices", row)
  {
    hide Holds, RowPasses, Belongs, MayBelong, PointedAt, InEvent;
    ScopesAre();
    PassesIs(p, eventId, row, PriceChecks("event_ingredient_prices"));
    EventHolds(p, eventId, row);
    BelongsIs(p, eventId, row, "ingredient_id", "ingredients", ORGANIZATION);
    MayBelongIs(p, eventId, row, "current_snapshot_id", "event_ingredient_price_snapshots", PRICE_SCOPE);
    PointedAtIs(p, eventId, row, "current_snapshot_id", "event_ingredient_price_snapshots",
      "event_ingredient_price_id");
  }

  lemma PriceSnapshotIs(p: Payload, eventId: Utf16, row: Row)
    ensures RowPasses(p, eventId, row, PriceChecks("event_ingredient_price_snapshots")) <==>
      GoodPrice(p, eventId, "event_ingredient_price_snapshots", row)
  {
    hide Holds, RowPasses, Belongs, MayBelong, PointedAt, InEvent;
    ScopesAre();
    PassesIs(p, eventId, row, PriceChecks("event_ingredient_price_snapshots"));
    BelongsIs(p, eventId, row, "event_ingredient_price_id", "event_ingredient_prices", PRICE_SCOPE);
    MayBelongIs(p, eventId, row, "previous_snapshot_id", "event_ingredient_price_snapshots", CHAIN_SCOPE);
  }

  lemma AttachmentIs(p: Payload, eventId: Utf16, row: Row)
    ensures RowPasses(p, eventId, row, EventChecks("receipt_attachments")) <==>
      GoodPlan(p, eventId, "receipt_attachments", row)
  {
    hide Holds, RowPasses, Belongs, MayBelong, PointedAt, InEvent;
    ScopesAre();
    PassesIs(p, eventId, row, EventChecks("receipt_attachments"));
    BelongsIs(p, eventId, row, "receipt_id", "receipts", EVENT_SCOPE);
  }

  lemma ScheduledIs(p: Payload, eventId: Utf16, row: Row)
    ensures RowPasses(p, eventId, row, EventChecks("scheduled_recipes")) <==>
      GoodPlan(p, eventId, "scheduled_recipes", row)
  {
    hide Holds, RowPasses, Belongs, MayBelong, PointedAt, InEvent;
    ScopesAre();
    PassesIs(p, eventId, row, EventChecks("scheduled_recipes"));
    EventHolds(p, eventId, row);
    BelongsIs(p, eventId, row, "recipe_id", "recipes", ORGANIZATION);
    BelongsIs(p, eventId, row, "recipe_version_id", "recipe_versions", ["organization_id", "recipe_id"]);
    MayBelongIs(p, eventId, row, "event_day_id", "event_days", ["event_id"]);
    MayBelongIs(p, eventId, row, "event_meal_role_id", "event_meal_roles", ["event_id"]);
  }

  lemma OverrideIs(p: Payload, eventId: Utf16, row: Row)
    ensures RowPasses(p, eventId, row, EventChecks("scheduled_ingredient_overrides")) <==>
      GoodPlan(p, eventId, "scheduled_ingredient_overrides", row)
  {
    hide Holds, RowPasses, Belongs, MayBelong, PointedAt, InEvent;
    ScopesAre();
    PassesIs(p, eventId, row, EventChecks("scheduled_ingredient_overrides"));
    EventHolds(p, eventId, row);
    BelongsIs(p, eventId, row, "scheduled_recipe_id", "scheduled_recipes", EVENT_SCOPE);
    BelongsIs(p, eventId, row, "ingredient_id", "ingredients", ORGANIZATION);
    BelongsIs(p, eventId, row, "ingredient_version_id", "ingredient_versions", ["organization_id", "ingredient_id"]);
  }

  lemma WarningIs(p: Payload, eventId: Utf16, row: Row)
    ensures RowPasses(p, eventId, row, EventChecks("resolved_dietary_warnings")) <==>
      GoodPlan(p, eventId, "resolved_dietary_warnings", row)
  {
    hide Holds, RowPasses, Belongs, MayBelong, PointedAt, InEvent;
    ScopesAre();
    PassesIs(p, eventId, row, EventChecks("resolved_dietary_warnings"));
    EventHolds(p, eventId, row);
    BelongsIs(p, eventId, row, "scheduled_recipe_id", "scheduled_recipes", EVENT_SCOPE);
    OwnIdHolds(p, eventId, row, "scheduled_recipe_id");
  }

  lemma VersionIs(p: Payload, eventId: Utf16, row: Row)
    ensures RowPasses(p, eventId, row, CatalogChecks("recipe_versions")) <==>
      GoodCatalog(p, "recipe_versions", row)
  {
    hide Holds, RowPasses, Belongs, MayBelong, PointedAt, InEvent;
    ScopesAre();
    PassesIs(p, eventId, row, CatalogChecks("recipe_versions"));
    BelongsIs(p, eventId, row, "recipe_id", "recipes", ORGANIZATION);
    MayBelongIs(p, eventId, row, "based_on_version_id", "recipe_versions", ["recipe_id", "organization_id"]);
  }

  lemma LineIs(p: Payload, eventId: Utf16, row: Row)
    ensures RowPasses(p, eventId, row, CatalogChecks("recipe_version_lines")) <==>
      GoodCatalog(p, "recipe_version_lines", row)
  {
    hide Holds, RowPasses, Belongs, MayBelong, PointedAt, InEvent;
    ScopesAre();
    PassesIs(p, eventId, row, CatalogChecks("recipe_version_lines"));
    BelongsIs(p, eventId, row, "recipe_version_id", "recipe_versions", ["recipe_id", "organization_id"]);
    BelongsIs(p, eventId, row, "recipe_id", "recipes", ORGANIZATION);
  }

  lemma TagIs(p: Payload, eventId: Utf16, row: Row)
    ensures RowPasses(p, eventId, row, CatalogChecks("recipe_version_tags")) <==>
      GoodCatalog(p, "recipe_version_tags", row)
  {
    hide Holds, RowPasses, Belongs, MayBelong, PointedAt, InEvent;
    ScopesAre();
    PassesIs(p, eventId, row, CatalogChecks("recipe_version_tags"));
    BelongsIs(p, eventId, row, "recipe_version_id", "recipe_versions", ORGANIZATION);
    BelongsIs(p, eventId, row, "recipe_tag_id", "recipe_tags", ORGANIZATION);
  }

  lemma IngredientIs(p: Payload, eventId: Utf16, row: Row)
    ensures RowPasses(p, eventId, row, CatalogChecks("ingredient_versions")) <==>
      GoodCatalog(p, "ingredient_versions", row)
  {
    hide Holds, RowPasses, Belongs, MayBelong, PointedAt, InEvent;
    ScopesAre();
    PassesIs(p, eventId, row, CatalogChecks("ingredient_versions"));
    BelongsIs(p, eventId, row, "ingredient_id", "ingredients", ORGANIZATION);
  }

  lemma DietaryTagIs(p: Payload, eventId: Utf16, row: Row)
    ensures RowPasses(p, eventId, row, CatalogChecks("ingredient_version_dietary_tags")) <==>
      GoodCatalog(p, "ingredient_version_dietary_tags", row)
  {
    hide Holds, RowPasses, Belongs, MayBelong, PointedAt, InEvent;
    ScopesAre();
    PassesIs(p, eventId, row, CatalogChecks("ingredient_version_dietary_tags"));
    BelongsIs(p, eventId, row, "ingredient_version_id", "ingredient_versions", ORGANIZATION);
    BelongsIs(p, eventId, row, "dietary_tag_id", "dietary_tags", ORGANIZATION);
  }

  lemma ShoppingIs(p: Payload, eventId: Utf16, collection: string, row: Row)
    ensures RowPasses(p, eventId, row, ShoppingChecks(collection)) <==> GoodShopping(p, eventId, collection, row)
  {
    hide Holds, Belongs, MayBelong, PointedAt, InEvent;
    match collection
    case "shopping_lists" => ListIs(p, eventId, row);
    case "shopping_generation_revisions" => RevisionIs(p, eventId, row);
    case "shopping_revision_sources" => SourceIs(p, eventId, row);
    case "shopping_ingredient_rows" => RowIs(p, eventId, row);
    case "shopping_contributions" => ContributionIs(p, eventId, row);
    case "shopping_contribution_snapshots" => SnapshotIs(p, eventId, row);
    case _ =>
  }

  lemma PricingIs(p: Payload, eventId: Utf16, collection: string, row: Row)
    ensures RowPasses(p, eventId, row, PriceChecks(collection)) <==> GoodPrice(p, eventId, collection, row)
  {
    hide Holds, Belongs, MayBelong, PointedAt, InEvent;
    match collection
    case "event_ingredient_prices" => PriceIs(p, eventId, row);
    case "event_ingredient_price_snapshots" => PriceSnapshotIs(p, eventId, row);
    case _ =>
  }

  lemma PlanIs(p: Payload, eventId: Utf16, collection: string, row: Row)
    ensures RowPasses(p, eventId, row, EventChecks(collection)) <==> GoodPlan(p, eventId, collection, row)
  {
    hide Holds, Belongs, MayBelong, InEvent;
    EventHolds(p, eventId, row);
    match collection
    case "receipt_attachments" => AttachmentIs(p, eventId, row);
    case "scheduled_recipes" => ScheduledIs(p, eventId, row);
    case "scheduled_ingredient_overrides" => OverrideIs(p, eventId, row);
    case "resolved_dietary_warnings" => WarningIs(p, eventId, row);
    case _ => assert [EventIs][0] == EventIs;
  }

  lemma CatalogIs(p: Payload, eventId: Utf16, collection: string, row: Row)
    ensures RowPasses(p, eventId, row, CatalogChecks(collection)) <==> GoodCatalog(p, collection, row)
  {
    hide Holds, Belongs, MayBelong;
    match collection
    case "recipe_versions" => VersionIs(p, eventId, row);
    case "recipe_version_lines" => LineIs(p, eventId, row);
    case "recipe_version_tags" => TagIs(p, eventId, row);
    case "ingredient_versions" => IngredientIs(p, eventId, row);
    case "ingredient_version_dietary_tags" => DietaryTagIs(p, eventId, row);
    case _ =>
  }

  // What a record must point to, whatever its collection.
  ghost predicate GoodRow(p: Payload, eventId: Utf16, collection: string, row: Row) {
    && GoodShopping(p, eventId, collection, row) && GoodPrice(p, eventId, collection, row)
    && GoodPlan(p, eventId, collection, row) && GoodCatalog(p, collection, row)
  }

  lemma GoodRowIs(p: Payload, eventId: Utf16, collection: string, row: Row)
    ensures RowPasses(p, eventId, row, ChecksOf(collection)) <==> GoodRow(p, eventId, collection, row)
  {
    hide Holds, RowPasses, ShoppingChecks, PriceChecks, EventChecks, CatalogChecks, GoodShopping, GoodPrice, GoodPlan,
      GoodCatalog;
    var shopping, prices, plan, catalog := ShoppingChecks(collection), PriceChecks(collection),
      EventChecks(collection), CatalogChecks(collection);
    Joined(p, eventId, row, shopping + prices + plan, catalog);
    Joined(p, eventId, row, shopping + prices, plan);
    Joined(p, eventId, row, shopping, prices);
    ShoppingIs(p, eventId, collection, row);
    PricingIs(p, eventId, collection, row);
    PlanIs(p, eventId, collection, row);
    CatalogIs(p, eventId, collection, row);
  }

  // No record of another collection has anything to prove.
  lemma OnlyListed(p: Payload, eventId: Utf16, collection: string, row: Row)
    requires collection !in COLLECTIONS
    ensures GoodRow(p, eventId, collection, row)
  {
    hide Belongs, MayBelong, PointedAt, InEvent;
  }

  /** The archive is accepted exactly when every record of every collection points where it must. */
  lemma AcceptedIs(p: Payload, eventId: Utf16)
    ensures Accepted(p, eventId) <==>
      forall collection, row :: row in Rows(p, collection) ==> GoodRow(p, eventId, collection, row)
  {
    hide RowPasses, ChecksOf, GoodRow, COLLECTIONS;
    if Accepted(p, eventId) {
      forall collection, row | row in Rows(p, collection)
        ensures GoodRow(p, eventId, collection, row)
      {
        if k :| 0 <= k < |COLLECTIONS| && COLLECTIONS[k] == collection {
          assert CollectionPasses(p, eventId, COLLECTIONS[k]);
          GoodRowIs(p, eventId, collection, row);
        } else {
          OnlyListed(p, eventId, collection, row);
        }
      }
    }
    if forall collection, row :: row in Rows(p, collection) ==> GoodRow(p, eventId, collection, row) {
      forall k, i | 0 <= k < |COLLECTIONS| && 0 <= i < |Rows(p, COLLECTIONS[k])|
        ensures RowPasses(p, eventId, Rows(p, COLLECTIONS[k])[i], ChecksOf(COLLECTIONS[k]))
      {
        GoodRowIs(p, eventId, COLLECTIONS[k], Rows(p, COLLECTIONS[k])[i]);
      }
    }
  }
}
