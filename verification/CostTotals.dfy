/** The cost projection in value: what recipes, shopping rows and receipts add up to, and what is shown. */
module CostTotals {
  import opened Text
  import opened Wrappers
  import opened Replica
  import opened Lists
  import opened Fractions
  import opened EventCosts
  import opened CostAllocation
  import opened CostRules
  import opened Shapes

  // ---------- Scheduled recipes ----------

  lemma CountedItem(scope: Scope, t: Tables, l: Lookups, item: Row)
    returns (version: Row, selected: Amount, base: Amount, diners: int)
    requires ItemCostOf(scope, t, l, item).Some?
    ensures Counts(scope, l, item, version, selected, base, diners)
  {
    IdIs(item, "event_id");
    IdIs(item, "recipe_version_id");
    hide ParseDecimal, ResolvedLines, Replacements, Additions, HasId, IsUuid, LineCosts, LineNames, Total;
    var id := FieldId(item, "recipe_version_id").GetOr([]);
    version, selected := l.versions[id], ParseDecimal(Get(item, "selected_scale_amount")).value;
    base, diners := ParseDecimal(Get(version, "base_scaling_amount")).value, Get(item, "diner_count").n;
    assert Id(item, "recipe_version_id", id) || (!HasId(item, "recipe_version_id") && id == []);
    assert Lookup(l.versions, id) == Some(version);
  }

  lemma CountedLines(scope: Scope, t: Tables, l: Lookups, item: Row, version: Row, selected: Amount, base: Amount,
        diners: int)
    requires Counts(scope, l, item, version, selected, base, diners)
    ensures Divide(selected, base).Some? && IsAmount(Divide(selected, base).value)
    ensures ItemLines(scope, t, l, item) == Some((
      ResolvedLines(version.entityId, ToMap(Replacements(scope, item, t.overrides)), Divide(selected, base).value,
        t.recipeLines) + Additions(scope, item, t.overrides), diners))
  {
    IdIs(item, "event_id");
    IdIs(item, "recipe_version_id");
    DivideAmounts(selected, base);
    hide ParseDecimal, ResolvedLines, Replacements, Additions, HasId, IsUuid, FieldId;
    var id :|
      && (Id(item, "recipe_version_id", id) || (!HasId(item, "recipe_version_id") && id == []))
      && Lookup(l.versions, id) == Some(version);
    assert FieldId(item, "recipe_version_id").GetOr([]) == id;
  }

  /** A scheduled recipe is costed exactly when it counts. */
  lemma ItemIs(scope: Scope, t: Tables, l: Lookups, item: Row)
    ensures ItemCostOf(scope, t, l, item).Some? <==>
      exists version, selected, base, diners :: Counts(scope, l, item, version, selected, base, diners)
  {
    if ItemCostOf(scope, t, l, item).Some? { var _, _, _, _ := CountedItem(scope, t, l, item); }
    if version, selected, base, diners :| Counts(scope, l, item, version, selected, base, diners) {
      CountedLines(scope, t, l, item, version, selected, base, diners);
    }
  }

  lemma PerDinerIs(total: Amount, diners: int)
    ensures PerDiner(total, diners).Some? <==> diners > 0
    ensures diners > 0 ==> ValueOf(PerDiner(total, diners).value) == ValueOf(total) / diners as real
  {
    if diners > 0 {
      DivideValue(total, Fraction(diners, 1));
      assert ValueOf(Fraction(diners, 1)) == diners as real;
    }
  }

  /** It costs in value what its resolved lines and its additions do, a diner's share of that when it has
      diners, and its missing names are theirs. */
  lemma ItemCostIs(scope: Scope, t: Tables, l: Lookups, item: Row, version: Row, selected: Amount, base: Amount,
        diners: int)
    requires Counts(scope, l, item, version, selected, base, diners)
    ensures Divide(selected, base).Some? && IsAmount(Divide(selected, base).value)
    ensures var lines := ResolvedLines(version.entityId, ToMap(Replacements(scope, item, t.overrides)),
                           Divide(selected, base).value, t.recipeLines) + Additions(scope, item, t.overrides);
      && ItemCostOf(scope, t, l, item).Some?
      && var cost := ItemCostOf(scope, t, l, item).value;
      && ValueOf(cost.total) == LinesValue(l, lines)
      && (forall name :: name in cost.missing <==> NamedMissing(l, lines, name))
      && (cost.perDiner.Some? <==> diners > 0)
      && (diners > 0 ==> ValueOf(cost.perDiner.value) == LinesValue(l, lines) / diners as real)
  {
    CountedLines(scope, t, l, item, version, selected, base, diners);
    hide Counts, ItemLines, ResolvedLines, Replacements, Additions, LinesValue, NamedMissing, Total, LineCosts,
      LineNames, ValueOf, Divide;
    var lines := ItemLines(scope, t, l, item).value.0;
    LinesValueIs(l, lines);
    forall name
      ensures name in LineNames(l, lines) <==> NamedMissing(l, lines, name)
    {
      LineNamesAre(l, lines, name);
    }
    PerDinerIs(Total(LineCosts(l, lines)), diners);
  }

  // ---------- Shopping rows ----------

  // An active row of a list with a current revision, for an ingredient that is listed.
  ghost predicate ListedRow(scope: Scope, l: Lookups, row: Row, listId: Utf16, revisionId: Utf16, ingredientId: Utf16) {
    && ActiveRow(scope, row)
    && Id(row, "shopping_list_id", listId) && Lookup(l.currentRevisions, listId) == Some(revisionId)
    && Id(row, "ingredient_id", ingredientId) && ingredientId in l.ingredients
  }

  lemma RowScopeIs(scope: Scope, l: Lookups, row: Row, listId: Utf16, revisionId: Utf16, ingredientId: Utf16)
    ensures RowScope(scope, l, row) == Some((listId, revisionId, ingredientId)) <==>
      ListedRow(scope, l, row, listId, revisionId, ingredientId)
  {
    EventRowIs(scope, row);
    IdIs(row, "shopping_list_id");
    IdIs(row, "ingredient_id");
    hide ActiveRow, ActiveOfEvent, FieldId, Id;
  }

  // The contribution of the snapshot is one to this row of the list.
  ghost predicate ContributesToRow(scope: Scope, l: Lookups, row: Row, listId: Utf16, ingredientId: Utf16, s: Row) {
    exists id, c ::
      && Id(s, "shopping_contribution_id", id) && Lookup(l.contributions, id) == Some(c)
      && Id(c, "shopping_list_id", listId) && Id(c, "event_id", scope.eventId)
      && Id(c, "shopping_ingredient_row_id", row.entityId) && Id(c, "ingredient_id", ingredientId)
  }

  // It is of an immutable version of the ingredient.
  ghost predicate OfVersion(l: Lookups, ingredientId: Utf16, s: Row) {
    exists id, info ::
      && Id(s, "ingredient_version_id", id) && Lookup(l.ingredientVersions, id) == Some(info)
      && id in l.immutableVersions && info.ingredientId == ingredientId
  }

  ghost predicate Blank(v: Value) { v == Undefined || v == Null }

  ghost predicate WithoutPrice(s: Row) {
    && Blank(Get(s, "event_price_snapshot_id")) && Blank(Get(s, "price_amount")) && Blank(Get(s, "priced_quantity"))
    && Blank(Get(s, "priced_unit_id")) && Blank(Get(s, "currency"))
  }

  // A whole price in the event's currency, taken from a price snapshot of the event for the same ingredient.
  ghost predicate WithPrice(l: Lookups, s: Row) {
    && ParseDecimal(Get(s, "price_amount")).Some? && HasId(s, "priced_unit_id") && Get(s, "currency") == Str(l.currency)
    && ParseDecimal(Get(s, "priced_quantity")).Some? && ParseDecimal(Get(s, "priced_quantity")).value.numerator > 0
    && exists id, source, priceId, price ::
         && Id(s, "event_price_snapshot_id", id) && Lookup(l.eventPriceSnapshots, id) == Some(source)
         && (Id(source, "event_ingredient_price_id", priceId)
             || (!HasId(source, "event_ingredient_price_id") && priceId == []))
         && Lookup(l.eventPrices, priceId) == Some(price)
         && FieldId(source, "ingredient_id") == FieldId(s, "ingredient_id") == FieldId(price, "ingredient_id")
  }

  lemma WithPriceIs(l: Lookups, s: Row)
    ensures CompletePrice(l, s) <==> WithPrice(l, s)
    ensures NoPrice(s) <==> WithoutPrice(s)
  {
    IdIs(s, "event_price_snapshot_id");
    IdIs(s, "priced_unit_id");
    forall source: Row
      ensures forall id :: FieldId(source, "event_ingredient_price_id") == Some(id) <==>
        Id(source, "event_ingredient_price_id", id)
      ensures FieldId(source, "event_ingredient_price_id").Some? <==> HasId(source, "event_ingredient_price_id")
    {
      IdIs(source, "event_ingredient_price_id");
    }
    hide FieldId, Id, HasId, ParseDecimal;
    if CompletePrice(l, s) {
      var id := FieldId(s, "event_price_snapshot_id").value;
      var source := l.eventPriceSnapshots[id];
      var priceId := FieldId(source, "event_ingredient_price_id").GetOr([]);
      assert Lookup(l.eventPriceSnapshots, id) == Some(source);
      assert Id(source, "event_ingredient_price_id", priceId)
             || (!HasId(source, "event_ingredient_price_id") && priceId == []);
      assert Lookup(l.eventPrices, priceId) == Some(l.eventPrices[priceId]);
    }
  }

  // A snapshot of the row's revision that counts.
  ghost predicate CountedSnapshot(scope: Scope, l: Lookups, row: Row, listId: Utf16, revisionId: Utf16,
        ingredientId: Utf16, s: Row)
  {
    && s.immutable && ActiveRow(scope, s) && Get(s, "active_in_revision") == Flag(true)
    && Id(s, "shopping_list_id", listId) && Id(s, "generation_revision_id", revisionId)
    && Id(s, "ingredient_id", ingredientId)
    && ContributesToRow(scope, l, row, listId, ingredientId, s) && OfVersion(l, ingredientId, s)
    && ParseDecimal(Get(s, "generated_quantity")).Some? && (WithoutPrice(s) || WithPrice(l, s))
  }

  lemma ContributesIs(scope: Scope, l: Lookups, row: Row, listId: Utf16, ingredientId: Utf16, s: Row)
    ensures ContributesToRow(scope, l, row, listId, ingredientId, s) <==>
      var id := FieldId(s, "shopping_contribution_id");
      var c := Lookup(l.contributions, id.GetOr([]));
      && id.Some? && c.Some?
      && FieldId(c.value, "shopping_list_id") == Some(listId) && FieldId(c.value, "event_id") == Some(scope.eventId)
      && FieldId(c.value, "shopping_ingredient_row_id") == Some(row.entityId)
      && FieldId(c.value, "ingredient_id") == Some(ingredientId)
  {
    forall r: Row, key: string
      ensures forall id :: FieldId(r, key) == Some(id) <==> Id(r, key, id)
    {
      IdIs(r, key);
    }
    hide FieldId, Id;
    if FieldId(s, "shopping_contribution_id").Some? {
      var id := FieldId(s, "shopping_contribution_id").value;
      assert Id(s, "shopping_contribution_id", id);
      if id in l.contributions { assert Lookup(l.contributions, id) == Some(l.contributions[id]); }
    }
  }

  lemma VersionIs(l: Lookups, ingredientId: Utf16, s: Row)
    ensures OfVersion(l, ingredientId, s) <==>
      var id := FieldId(s, "ingredient_version_id");
      var info := Lookup(l.ingredientVersions, id.GetOr([]));
      id.Some? && info.Some? && id.value in l.immutableVersions && info.value.ingredientId == ingredientId
  {
    IdIs(s, "ingredient_version_id");
    hide FieldId, Id;
    if FieldId(s, "ingredient_version_id").Some? {
      var id := FieldId(s, "ingredient_version_id").value;
      assert Id(s, "ingredient_version_id", id);
    }
  }

  lemma SnapshotIs(scope: Scope, l: Lookups, row: Row, listId: Utf16, revisionId: Utf16, ingredientId: Utf16, s: Row)
    ensures ValidSnapshot(scope, l, row, listId, revisionId, ingredientId, s) <==>
      CountedSnapshot(scope, l, row, listId, revisionId, ingredientId, s)
  {
    EventRowIs(scope, s);
    WithPriceIs(l, s);
    ContributesIs(scope, l, row, listId, ingredientId, s);
    VersionIs(l, ingredientId, s);
    IdIs(s, "shopping_list_id");
    IdIs(s, "generation_revision_id");
    IdIs(s, "ingredient_id");
    hide ActiveRow, ActiveOfEvent, FieldId, Id, ParseDecimal, CompletePrice, NoPrice, WithPrice, WithoutPrice,
      ContributesToRow, OfVersion;
  }

  ghost function Matches(key: Option<Utf16>, rows: seq<Row>): set<int> {
    set j | 0 <= j < |rows| && FieldId(rows[j], "shopping_contribution_id") == key
  }

  lemma {:induction false} CountMatches(key: Option<Utf16>, rows: seq<Row>)
    ensures |Collect(o => SameContribution(key, o), rows)| == |Matches(key, rows)|
  {
    hide FieldId;
    if rows != [] {
      var earlier, last := rows[..|rows| - 1], rows[|rows| - 1];
      CountMatches(key, earlier);
      assert Matches(key, rows) == Matches(key, earlier)
        + if FieldId(last, "shopping_contribution_id") == key then {|earlier|} else {};
    }
  }

  lemma OneMatch(key: Option<Utf16>, rows: seq<Row>, i: nat)
    requires i < |rows| && FieldId(rows[i], "shopping_contribution_id") == key
    ensures |Matches(key, rows)| == 1 <==>
      forall j :: 0 <= j < |rows| && j != i ==> FieldId(rows[j], "shopping_contribution_id") != key
  {
    hide FieldId;
    var m := Matches(key, rows);
    assert i in m;
    if forall j :: 0 <= j < |rows| && j != i ==> FieldId(rows[j], "shopping_contribution_id") != key {
      assert m == {i};
    } else {
      var j :| 0 <= j < |rows| && j != i && FieldId(rows[j], "shopping_contribution_id") == key;
      assert {i, j} <= m;
      assert |{i, j}| == 2 && |m - {i, j}| == |m| - 2;
    }
  }

  /** Of the snapshots that count, those are priced whose contribution has no other. */
  lemma SingleIs(counted: seq<Row>, i: nat)
    requires i < |counted|
    ensures OnlyOne(counted, counted[i]).Some? <==>
      forall j :: 0 <= j < |counted| && j != i ==>
        FieldId(counted[j], "shopping_contribution_id") != FieldId(counted[i], "shopping_contribution_id")
  {
    hide FieldId;
    var key := FieldId(counted[i], "shopping_contribution_id");
    CountMatches(key, counted);
    OneMatch(key, counted, i);
  }

  ghost function Max(x: real, y: real): real {
    if x < y then y else x
  }

  lemma NullIsNoDecimal()
    ensures ParseDecimal(Null).None?
  {
  }

  lemma MinusTimes(x: int, y: int)
    ensures (-x) * y == -(x * y)
  {
  }

  lemma DifferenceValue(a: Amount, b: Amount)
    ensures Positive(Subtract(a, b)) && ValueOf(Subtract(a, b)) == ValueOf(a) - ValueOf(b)
    ensures ValueOf(MaxZeroSubtract(a, b)) == Max(0.0, ValueOf(a) - ValueOf(b))
  {
    ProductsArePositive(a.denominator, b.denominator);
    var minus := Fraction(-b.numerator, b.denominator);
    AddValue(a, minus);
    MinusTimes(b.numerator, a.denominator);
    assert Subtract(a, b) == Add(a, minus);
    assert ValueOf(minus) == -ValueOf(b);
  }

  /** What is bought: the manual target where one is written, otherwise what was generated less the supply,
      never below nothing. */
  lemma PurchaseIs(row: Row, generated: Amount)
    ensures var manual, supply := ParseDecimal(Get(row, "manual_purchase_target")),
                                  ParseDecimal(Get(row, "available_supply_quantity"));
      ValueOf(PurchaseQuantity(row, generated)) ==
        if manual.Some? then ValueOf(manual.value)
        else if supply.Some? then Max(0.0, ValueOf(generated) - ValueOf(supply.value))
        else ValueOf(generated)
  {
    hide ParseDecimal;
    assert ParseDecimal(Null).None? by { NullIsNoDecimal(); }
    var supply := ParseDecimal(Get(row, "available_supply_quantity"));
    if supply.Some? { DifferenceValue(generated, supply.value); }
  }

  // The price of a snapshot: that of its ingredient version, written on it in the event's currency, its unit
  // and the priced unit known and of one dimension.
  ghost predicate SnapshotPrice(l: Lookups, s: Row, p: Pricing) {
    exists versionId, info, unitId ::
      && (Id(s, "ingredient_version_id", versionId) || (!HasId(s, "ingredient_version_id") && versionId == []))
      && Lookup(l.ingredientVersions, versionId) == Some(info) && Lookup(l.units, info.unitId) == Some(p.source)
      && Id(s, "priced_unit_id", unitId) && Lookup(l.units, unitId) == Some(p.target)
      && p.source.dimension == p.target.dimension && Get(s, "currency") == Str(l.currency)
      && ParseDecimal(Get(s, "price_amount")) == Some(p.amount)
      && ParseDecimal(Get(s, "priced_quantity")) == Some(p.pricedQuantity)
  }

  lemma SnapshotPriceIs(l: Lookups, s: Row, p: Pricing)
    ensures PricingOf(l, s) == Some(p) <==> SnapshotPrice(l, s, p)
  {
    IdIs(s, "ingredient_version_id");
    IdIs(s, "priced_unit_id");
    hide FieldId, Id, HasId, ParseDecimal;
    if PricingOf(l, s) == Some(p) {
      var versionId := FieldId(s, "ingredient_version_id").GetOr([]);
      var unitId := FieldId(s, "priced_unit_id").value;
      assert Id(s, "ingredient_version_id", versionId) || (!HasId(s, "ingredient_version_id") && versionId == []);
      assert Lookup(l.ingredientVersions, versionId) == Some(l.ingredientVersions[versionId]);
      assert Id(s, "priced_unit_id", unitId);
    }
  }

  /** A row that is missing is named by its ingredient, or by its own id when it states no name. */
  lemma RowNameIs(scope: Scope, t: Tables, l: Lookups, row: Row)
    ensures forall name :: name in RowMissing(scope, t, l, row) ==>
      name == if Get(row, "ingredient_name").Str? then Get(row, "ingredient_name").s else row.entityId
  {
    hide RowScope, ValidSnapshots, SnapshotCosts, GeneratedTotal, PurchaseQuantity, Total;
  }

  // ---------- Receipts ----------

  // An active receipt of the event in its currency, over a readable amount.
  ghost predicate Spent(scope: Scope, currency: Utf16, r: Row) {
    && r.lifecycle == Active && Id(r, "event_id", scope.eventId) && Get(r, "currency") == Str(currency)
    && ParseDecimal(Get(r, "total_amount")).Some?
  }

  ghost function SpentValue(scope: Scope, currency: Utf16, receipts: seq<Row>): real {
    if receipts == [] then 0.0
    else
      var r := receipts[|receipts| - 1];
      SpentValue(scope, currency, receipts[..|receipts| - 1])
      + if Spent(scope, currency, r) then ValueOf(ParseDecimal(Get(r, "total_amount")).value) else 0.0
  }

  lemma {:induction false} SpentIs(scope: Scope, currency: Utf16, receipts: seq<Row>)
    ensures ValueOf(Total(ReceiptAmounts(scope, currency, receipts))) == SpentValue(scope, currency, receipts)
  {
    hide ParseDecimal, ValueOf, Total, FieldId, Id;
    if receipts == [] {
      EmptyTotal();
    } else {
      var earlier, last := receipts[..|receipts| - 1], receipts[|receipts| - 1];
      SpentIs(scope, currency, earlier);
      IdIs(last, "event_id");
      if ReceiptAmount(scope, currency, last).Some? {
        TotalValue(ReceiptAmounts(scope, currency, earlier), ReceiptAmount(scope, currency, last).value);
      }
    }
  }

  // ---------- The event ----------

  // The event, the first record under its id that is identified.
  ghost predicate EventFound(scope: Scope, t: Tables, event: Row) {
    exists i ::
      && 0 <= i < |t.events| && t.events[i] == event && event.entityId == scope.eventId && Identified(scope, event)
      && forall j :: 0 <= j < i ==> !(t.events[j].entityId == scope.eventId && Identified(scope, t.events[j]))
  }

  ghost predicate Capitals(s: Utf16) {
    forall i :: 0 <= i < |s| ==> Between(s[i], 'A', 'Z')
  }

  lemma {:induction false} FirstFound<T(!new)>(p: T -> bool, xs: seq<T>, x: T)
    ensures FindFirst(p, xs) == Some(x) <==>
      exists i :: 0 <= i < |xs| && xs[i] == x && p(x) && forall j :: 0 <= j < i ==> !p(xs[j])
  {
    if xs != [] {
      FirstFound(p, xs[1..], x);
      if p(xs[0]) {
        assert FindFirst(p, xs) == Some(xs[0]);
      } else {
        if i :| 0 <= i < |xs[1..]| && xs[1..][i] == x && p(x) && forall j :: 0 <= j < i ==> !p(xs[1..][j]) {
          assert xs[i + 1] == x && forall j :: 0 <= j < i + 1 ==> !p(xs[j]) by {
            assert forall j :: 1 <= j < i + 1 ==> xs[j] == xs[1..][j - 1];
          }
        }
        if i :| 0 <= i < |xs| && xs[i] == x && p(x) && forall j :: 0 <= j < i ==> !p(xs[j]) {
          assert i > 0 && xs[1..][i - 1] == x;
          assert forall j :: 0 <= j < i - 1 ==> xs[1..][j] == xs[j + 1];
        }
      }
    }
  }

  lemma EventIs(scope: Scope, t: Tables, currency: Utf16, budget: Amount)
    ensures EventOf(scope, t) == Some((currency, budget)) <==>
      && IsUuid(scope.userId) && IsUuid(scope.organizationId) && IsUuid(scope.eventId)
      && |currency| == 3 && Capitals(currency)
      && exists event ::
           && EventFound(scope, t, event) && Get(event, "currency") == Str(currency)
           && ParseDecimal(Get(event, "budget_amount")) == Some(budget)
  {
    var p := (r: Row) => r.entityId == scope.eventId && ValidIdentity(scope, r);
    forall event
      ensures FindFirst(p, t.events) == Some(event) <==> EventFound(scope, t, event)
    {
      FirstFound(p, t.events, event);
      forall r: Row
        ensures p(r) <==> r.entityId == scope.eventId && Identified(scope, r)
      {
        EventRowIs(scope, r);
      }
    }
    hide EventFound, IsUuid, ParseDecimal, FindFirst;
    if FindFirst(p, t.events).Some? { assert EventFound(scope, t, FindFirst(p, t.events).value); }
  }

  // ---------- What is shown ----------

  // The text shows the amount to the nearest hundredth.
  ghost predicate Shows(text: string, x: real) {
    -0.5 <= ReadMoney(text) as real - 100.0 * x <= 0.5
  }

  lemma MoneyShows(f: Fraction)
    requires Positive(f)
    ensures Shows(Money(f), ValueOf(f))
  {
    hide Money, ReadMoney, ValueOf;
    RoundingError(f);
  }

  ghost function ScheduledValue(scope: Scope, t: Tables, l: Lookups, items: seq<Row>): real {
    if items == [] then 0.0
    else
      var cost := ItemCostOf(scope, t, l, items[|items| - 1]);
      ScheduledValue(scope, t, l, items[..|items| - 1]) + if cost.Some? then ValueOf(cost.value.total) else 0.0
  }

  ghost function ShoppingValue(scope: Scope, t: Tables, l: Lookups, rows: seq<Row>): real {
    if rows == [] then 0.0
    else
      var cost := RowCost(scope, t, l, rows[|rows| - 1]);
      ShoppingValue(scope, t, l, rows[..|rows| - 1]) + if cost.Some? then ValueOf(cost.value) else 0.0
  }

  lemma {:induction false} ScheduledIs(scope: Scope, t: Tables, l: Lookups, items: seq<Row>)
    ensures ValueOf(Total(ItemTotals(scope, t, l, items))) == ScheduledValue(scope, t, l, items)
  {
    hide ItemCostOf, ValueOf, Total;
    if items == [] {
      EmptyTotal();
    } else {
      var earlier, last := items[..|items| - 1], items[|items| - 1];
      ScheduledIs(scope, t, l, earlier);
      if ItemCostOf(scope, t, l, last).Some? {
        TotalValue(ItemTotals(scope, t, l, earlier), ItemCostOf(scope, t, l, last).value.total);
      }
    }
  }

  lemma {:induction false} ShoppingIs(scope: Scope, t: Tables, l: Lookups, rows: seq<Row>)
    ensures ValueOf(Total(RowCostsOf(scope, t, l, rows))) == ShoppingValue(scope, t, l, rows)
  {
    hide RowCost, ValueOf, Total;
    if rows == [] {
      EmptyTotal();
    } else {
      var earlier, last := rows[..|rows| - 1], rows[|rows| - 1];
      ShoppingIs(scope, t, l, earlier);
      if RowCost(scope, t, l, last).Some? {
        TotalValue(RowCostsOf(scope, t, l, earlier), RowCost(scope, t, l, last).value);
      }
    }
  }

  lemma {:induction false} NamesAre(f: Row -> set<Utf16>, rows: seq<Row>, name: Utf16)
    ensures name in AllNames(f, rows) <==> exists r :: r in rows && name in f(r)
  {
    if rows != [] {
      var earlier, last := rows[..|rows| - 1], rows[|rows| - 1];
      NamesAre(f, earlier, name);
      assert rows == earlier + [last];
    }
  }

  // The recipe is shown with its costs, and marked when a name is missing.
  ghost predicate ItemShown(scope: Scope, t: Tables, l: Lookups, item: Row, id: Utf16, shown: ScheduledCost) {
    && item.entityId == id && ItemCostOf(scope, t, l, item).Some?
    && var cost := ItemCostOf(scope, t, l, item).value;
    && shown.total == Money(cost.total) && (shown.missing <==> cost.missing != {})
    && (shown.perDiner.Some? <==> cost.perDiner.Some?)
    && (cost.perDiner.Some? ==> shown.perDiner.value == Money(cost.perDiner.value))
  }

  lemma ShownIs(scope: Scope, t: Tables, l: Lookups, id: Utf16, shown: ScheduledCost)
    ensures Lookup(ScheduledMap(scope, t, l, t.scheduledRecipes), id) == Some(shown) <==>
      LastSays(t.scheduledRecipes, (r, k, v) => ItemShown(scope, t, l, r, k, v), id, shown)
  {
    hide ItemCostOf, Money;
    TableSays(item => ScheduledEntry(scope, t, l, item), (r, k, v) => ItemShown(scope, t, l, r, k, v),
      t.scheduledRecipes, id, shown);
  }

  /** The projection shows, to the hundredth, what the scheduled recipes cost, the budget, what the shopping
      rows cost, what the receipts amount to, and the budget less that; it names every missing ingredient
      and shows each recipe that is costed. */
  lemma ProjectionIs(scope: Scope, t: Tables, currency: Utf16, budget: Amount)
    ensures CostsOf(scope, t).Some? <==> EventOf(scope, t).Some?
    ensures EventOf(scope, t) == Some((currency, budget)) ==>
      var l, c := LookupsOf(scope, t, currency), CostsOf(scope, t).value;
      var spent := SpentValue(scope, currency, t.receipts);
      && c.currency == currency
      && Shows(c.total, ScheduledValue(scope, t, l, t.scheduledRecipes))
      && Shows(c.budget, ValueOf(budget))
      && Shows(c.expectedShopping, ShoppingValue(scope, t, l, t.ingredientRows))
      && Shows(c.actual, spent) && Shows(c.remaining, ValueOf(budget) - spent)
      && (forall name :: name in c.missingIngredients <==>
           || (exists item :: item in t.scheduledRecipes && name in ItemMissing(scope, t, l, item))
           || (exists row :: row in t.ingredientRows && name in RowMissing(scope, t, l, row)))
      && (forall id, shown :: Lookup(c.scheduled, id) == Some(shown) <==>
           LastSays(t.scheduledRecipes, (r, k, v) => ItemShown(scope, t, l, r, k, v), id, shown))
  {
    hide EventOf, LookupsOf, ItemTotals, RowCostsOf, ReceiptAmounts, Total, Money, ValueOf, Shows, ItemMissing,
      RowMissing, ScheduledEntry, ItemShown, Subtract, ScheduledValue, ShoppingValue, SpentValue;
    if EventOf(scope, t) == Some((currency, budget)) {
      var l := LookupsOf(scope, t, currency);
      var actual := Total(ReceiptAmounts(scope, currency, t.receipts));
      ScheduledIs(scope, t, l, t.scheduledRecipes);
      ShoppingIs(scope, t, l, t.ingredientRows);
      SpentIs(scope, currency, t.receipts);
      DifferenceValue(budget, actual);
      MoneyShows(Total(ItemTotals(scope, t, l, t.scheduledRecipes)));
      MoneyShows(budget);
      MoneyShows(Total(RowCostsOf(scope, t, l, t.ingredientRows)));
      MoneyShows(actual);
      MoneyShows(Remaining(budget, actual));
      forall name
        ensures name in ItemNames(scope, t, l, t.scheduledRecipes) <==>
          exists item :: item in t.scheduledRecipes && name in ItemMissing(scope, t, l, item)
        ensures name in RowNames(scope, t, l, t.ingredientRows) <==>
          exists row :: row in t.ingredientRows && name in RowMissing(scope, t, l, row)
      {
        NamesAre(item => ItemMissing(scope, t, l, item), t.scheduledRecipes, name);
        NamesAre(row => RowMissing(scope, t, l, row), t.ingredientRows, name);
      }
      forall id, shown
        ensures Lookup(ScheduledMap(scope, t, l, t.scheduledRecipes), id) == Some(shown) <==>
          LastSays(t.scheduledRecipes, (r, k, v) => ItemShown(scope, t, l, r, k, v), id, shown)
      {
        ShownIs(scope, t, l, id, shown);
      }
    }
  }
}
