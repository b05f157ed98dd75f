/** The cost figures do not depend on the order in which the records are read. */
module CostOrder {
  import opened Text
  import opened Wrappers
  import opened Replica
  import opened Lists
  import opened Fractions
  import opened EventCosts

  // The same records of every kind, each list in any order.
  ghost predicate SameRecords(a: Tables, b: Tables) {
    && Permuted(a.events, b.events) && Permuted(a.scheduledRecipes, b.scheduledRecipes)
    && Permuted(a.overrides, b.overrides) && Permuted(a.recipeVersions, b.recipeVersions)
    && Permuted(a.recipeLines, b.recipeLines) && Permuted(a.ingredients, b.ingredients)
    && Permuted(a.ingredientVersions, b.ingredientVersions) && Permuted(a.units, b.units)
    && Permuted(a.prices, b.prices) && Permuted(a.priceSnapshots, b.priceSnapshots)
    && Permuted(a.shoppingLists, b.shoppingLists) && Permuted(a.revisions, b.revisions)
    && Permuted(a.ingredientRows, b.ingredientRows) && Permuted(a.contributions, b.contributions)
    && Permuted(a.contributionSnapshots, b.contributionSnapshots) && Permuted(a.receipts, b.receipts)
  }

  ghost predicate DistinctIds(rows: seq<Row>) {
    DistinctBy((r: Row) => r.entityId, rows)
  }

  ghost predicate PricesOnce(scope: Scope, t: Tables, currency: Utf16) {
    DistinctFirsts(PriceEntries(scope, currency, EventSnapshots(scope, t.priceSnapshots), t.prices))
  }

  // Every key of a lookup occurs once: the ids of the records looked up by id, the ingredient of
  // a price accepted in the event's currency, and the target line of an active replacement of one recipe.
  ghost predicate KeysOnce(scope: Scope, t: Tables) {
    && DistinctIds(t.events) && DistinctIds(t.scheduledRecipes) && DistinctIds(t.recipeVersions)
    && DistinctIds(t.ingredientVersions) && DistinctIds(t.units) && DistinctIds(t.prices)
    && DistinctIds(t.priceSnapshots) && DistinctIds(t.shoppingLists) && DistinctIds(t.revisions)
    && DistinctIds(t.contributions)
    && (EventOf(scope, t).Some? ==> PricesOnce(scope, t, EventOf(scope, t).value.0))
    && (forall item: Row :: item in t.scheduledRecipes ==> DistinctFirsts(Replacements(scope, item, t.overrides)))
  }

  lemma TableById<V>(f: Row -> Option<(Utf16, V)>, a: seq<Row>, b: seq<Row>)
    requires Permuted(a, b) && DistinctIds(a)
    requires forall r :: f(r).Some? ==> f(r).value.0 == r.entityId
    ensures ToMap(Collect(f, a)) == ToMap(Collect(f, b))
  {
    TablePermuted(f, (r: Row) => r.entityId, a, b);
  }

  lemma ByIdPermuted(keep: Row -> bool, a: seq<Row>, b: seq<Row>)
    requires Permuted(a, b) && DistinctIds(a)
    ensures ById(keep, a) == ById(keep, b)
  {
    TableById(r => KeepEntry(keep, r), a, b);
  }

  lemma IdSetsPermuted(scope: Scope, a: Tables, b: Tables)
    requires SameRecords(a, b)
    ensures IngredientIds(scope, a.ingredients) == IngredientIds(scope, b.ingredients)
    ensures ImmutableIds(a.ingredientVersions) == ImmutableIds(b.ingredientVersions)
  {
    hide IngredientId, ImmutableId;
    CollectPermuted(r => IngredientId(scope, r), a.ingredients, b.ingredients);
    ElementsPermuted(Collect(r => IngredientId(scope, r), a.ingredients),
      Collect(r => IngredientId(scope, r), b.ingredients));
    CollectPermuted(ImmutableId, a.ingredientVersions, b.ingredientVersions);
    ElementsPermuted(Collect(ImmutableId, a.ingredientVersions), Collect(ImmutableId, b.ingredientVersions));
  }

  lemma PricesPermuted(scope: Scope, a: Tables, b: Tables, currency: Utf16, snapshots: map<Utf16, Row>)
    requires Permuted(a.prices, b.prices) && DistinctFirsts(PriceEntries(scope, currency, snapshots, a.prices))
    ensures ToMap(PriceEntries(scope, currency, snapshots, a.prices))
      == ToMap(PriceEntries(scope, currency, snapshots, b.prices))
  {
    hide PriceEntry;
    CollectPermuted(r => PriceEntry(scope, currency, snapshots, r), a.prices, b.prices);
    ToMapPermuted(PriceEntries(scope, currency, snapshots, a.prices),
      PriceEntries(scope, currency, snapshots, b.prices));
  }

  lemma VersionsPermuted(scope: Scope, ingredients: set<Utf16>, a: seq<Row>, b: seq<Row>)
    requires Permuted(a, b) && DistinctIds(a)
    ensures VersionTable(scope, ingredients, a) == VersionTable(scope, ingredients, b)
  {
    TableById(r => VersionEntry(scope, ingredients, r), a, b);
  }

  lemma UnitsPermuted(scope: Scope, a: seq<Row>, b: seq<Row>)
    requires Permuted(a, b) && DistinctIds(a)
    ensures UnitTable(scope, a) == UnitTable(scope, b)
  {
    TableById(r => UnitEntry(scope, r), a, b);
  }

  lemma RevisionsPermuted(scope: Scope, revisions: map<Utf16, Row>, a: seq<Row>, b: seq<Row>)
    requires Permuted(a, b) && DistinctIds(a)
    ensures RevisionTable(scope, revisions, a) == RevisionTable(scope, revisions, b)
  {
    TableById(r => CurrentRevisionEntry(scope, revisions, r), a, b);
  }

  lemma LookupsPermuted(scope: Scope, a: Tables, b: Tables, currency: Utf16)
    requires SameRecords(a, b) && KeysOnce(scope, a) && PricesOnce(scope, a, currency)
    ensures LookupsOf(scope, a, currency) == LookupsOf(scope, b, currency)
  {
    hide IngredientIds, ImmutableIds, VersionTable, UnitTable, PriceEntries, RevisionTable, ById, ToMap;
    IdSetsPermuted(scope, a, b);
    ByIdPermuted(r => OfEvent(scope, r), a.priceSnapshots, b.priceSnapshots);
    ByIdPermuted(r => true, a.recipeVersions, b.recipeVersions);
    ByIdPermuted(OnEventList(scope), a.revisions, b.revisions);
    ByIdPermuted(PricedForEvent(scope), a.prices, b.prices);
    ByIdPermuted(PricedForEvent(scope), a.priceSnapshots, b.priceSnapshots);
    ByIdPermuted(ContributesTo(scope), a.contributions, b.contributions);
    VersionsPermuted(scope, IngredientIds(scope, a.ingredients), a.ingredientVersions, b.ingredientVersions);
    UnitsPermuted(scope, a.units, b.units);
    PricesPermuted(scope, a, b, currency, EventSnapshots(scope, a.priceSnapshots));
    RevisionsPermuted(scope, ById(OnEventList(scope), a.revisions), a.shoppingLists, b.shoppingLists);
  }

  // ---------- One scheduled recipe ----------

  lemma ReplacementsPermuted(scope: Scope, item: Row, a: seq<Row>, b: seq<Row>)
    requires Permuted(a, b) && DistinctFirsts(Replacements(scope, item, a))
    ensures ToMap(Replacements(scope, item, a)) == ToMap(Replacements(scope, item, b))
  {
    hide ReplacementEntry;
    CollectPermuted(o => ReplacementEntry(scope, item, o), a, b);
    ToMapPermuted(Replacements(scope, item, a), Replacements(scope, item, b));
  }

  lemma AdditionsPermuted(scope: Scope, item: Row, a: seq<Row>, b: seq<Row>)
    requires Permuted(a, b)
    ensures Permuted(Additions(scope, item, a), Additions(scope, item, b))
  {
    hide ResolveAddition;
    CollectPermuted(o => ResolveAddition(scope, item, o), a, b);
  }

  lemma ResolvedPermuted(versionId: Utf16, replacements: map<Option<Utf16>, Row>, proportional: Amount, a: seq<Row>,
        b: seq<Row>)
    requires Permuted(a, b)
    ensures Permuted(ResolvedLines(versionId, replacements, proportional, a),
      ResolvedLines(versionId, replacements, proportional, b))
  {
    hide ResolveLine;
    CollectPermuted(line => ResolveLine(versionId, replacements, proportional, line), a, b);
  }

  lemma LinesPermuted(scope: Scope, a: Tables, b: Tables, l: Lookups, item: Row)
    requires SameRecords(a, b) && DistinctFirsts(Replacements(scope, item, a.overrides))
    ensures ItemLines(scope, a, l, item).Some? == ItemLines(scope, b, l, item).Some?
    ensures ItemLines(scope, a, l, item).Some? ==>
      && Permuted(ItemLines(scope, a, l, item).value.0, ItemLines(scope, b, l, item).value.0)
      && ItemLines(scope, a, l, item).value.1 == ItemLines(scope, b, l, item).value.1
  {
    hide Replacements, Additions, ResolvedLines, ToMap, IsUuid, ParseDecimal;
    ReplacementsPermuted(scope, item, a.overrides, b.overrides);
    AdditionsPermuted(scope, item, a.overrides, b.overrides);
    forall versionId, proportional: Amount {
      ResolvedPermuted(versionId, ToMap(Replacements(scope, item, a.overrides)), proportional, a.recipeLines,
        b.recipeLines);
    }
  }

  lemma TotalPermuted(xs: seq<Amount>, ys: seq<Amount>)
    requires Permuted(xs, ys)
    ensures Total(xs) == Total(ys)
  {
    SumPermuted(xs, ys);
  }

  lemma LineCostsPermuted(l: Lookups, a: seq<ResolvedLine>, b: seq<ResolvedLine>)
    requires Permuted(a, b)
    ensures Total(LineCosts(l, a)) == Total(LineCosts(l, b)) && Elements(LineNames(l, a)) == Elements(LineNames(l, b))
  {
    hide LineCost, LineMissing, Total, Elements;
    CollectPermuted(line => LineCost(l, line), a, b);
    CollectPermuted(line => LineMissing(l, line), a, b);
    TotalPermuted(LineCosts(l, a), LineCosts(l, b));
    ElementsPermuted(LineNames(l, a), LineNames(l, b));
  }

  lemma ItemPermuted(scope: Scope, a: Tables, b: Tables, l: Lookups, item: Row)
    requires SameRecords(a, b) && DistinctFirsts(Replacements(scope, item, a.overrides))
    ensures ItemCostOf(scope, a, l, item) == ItemCostOf(scope, b, l, item)
  {
    hide ItemLines, LineCosts, LineNames, Total, Elements, PerDiner;
    LinesPermuted(scope, a, b, l, item);
    if ItemLines(scope, a, l, item).Some? {
      LineCostsPermuted(l, ItemLines(scope, a, l, item).value.0, ItemLines(scope, b, l, item).value.0);
    }
  }

  // ---------- One shopping row ----------

  lemma {:induction false} CollectSame<T, U>(f: T -> Option<U>, g: T -> Option<U>, xs: seq<T>)
    requires forall i :: 0 <= i < |xs| ==> f(xs[i]) == g(xs[i])
    ensures Collect(f, xs) == Collect(g, xs)
  {
    if xs != [] { CollectSame(f, g, xs[..|xs| - 1]); }
  }

  lemma OnlyOnePermuted(a: seq<Row>, b: seq<Row>, s: Row)
    requires Permuted(a, b)
    ensures OnlyOne(a, s) == OnlyOne(b, s)
  {
    hide SameContribution;
    CollectPermuted(o => SameContribution(FieldId(s, "shopping_contribution_id"), o), a, b);
    PermutedMembers(OfContribution(s, a), OfContribution(s, b), s);
  }

  lemma SinglesPermuted(a: seq<Row>, b: seq<Row>)
    requires Permuted(a, b)
    ensures Permuted(Singles(a), Singles(b))
  {
    hide OnlyOne;
    CollectPermuted(s => OnlyOne(a, s), a, b);
    forall i | 0 <= i < |b|
      ensures OnlyOne(a, b[i]) == OnlyOne(b, b[i])
    {
      OnlyOnePermuted(a, b, b[i]);
    }
    CollectSame(s => OnlyOne(a, s), s => OnlyOne(b, s), b);
  }

  lemma ValidSnapshotsPermuted(scope: Scope, a: seq<Row>, b: seq<Row>, l: Lookups, row: Row, ids: (Utf16, Utf16, Utf16))
    requires Permuted(a, b)
    ensures Permuted(ValidSnapshots(scope, a, l, row, ids), ValidSnapshots(scope, b, l, row, ids))
  {
    hide SnapshotOfRow, Singles;
    CollectPermuted(s => SnapshotOfRow(scope, l, row, ids, s), a, b);
    SinglesPermuted(SnapshotsOfRow(scope, a, l, row, ids), SnapshotsOfRow(scope, b, l, row, ids));
  }

  lemma OutcomePermuted(l: Lookups, row: Row, a: seq<Row>, b: seq<Row>)
    requires Permuted(a, b)
    ensures OutcomeOfSnapshots(l, row, a) == OutcomeOfSnapshots(l, row, b)
  {
    hide GeneratedQuantity, SnapshotCost, Total, PurchaseQuantity;
    CollectPermuted(s => GeneratedQuantity(s), a, b);
    TotalPermuted(Collect(s => GeneratedQuantity(s), a), Collect(s => GeneratedQuantity(s), b));
    var generated := GeneratedTotal(a);
    var quantity := PurchaseQuantity(row, generated);
    CollectPermuted(s => SnapshotCost(l, quantity, generated, s), a, b);
    var x, y := SnapshotCosts(l, quantity, generated, a), SnapshotCosts(l, quantity, generated, b);
    TotalPermuted(x, y);
    assert |multiset(x)| == |multiset(y)| && |multiset(a)| == |multiset(b)|;
  }

  lemma RowPermuted(scope: Scope, a: Tables, b: Tables, l: Lookups, row: Row)
    requires SameRecords(a, b)
    ensures RowOutcomeOf(scope, a, l, row) == RowOutcomeOf(scope, b, l, row)
  {
    hide RowScope, ValidSnapshots, OutcomeOfSnapshots;
    if RowScope(scope, l, row).Some? {
      var ids := RowScope(scope, l, row).value;
      ValidSnapshotsPermuted(scope, a.contributionSnapshots, b.contributionSnapshots, l, row, ids);
      OutcomePermuted(l, row, ValidSnapshots(scope, a.contributionSnapshots, l, row, ids),
        ValidSnapshots(scope, b.contributionSnapshots, l, row, ids));
    }
  }

  // ---------- The totals ----------

  lemma {:induction false} AllNamesAre(f: Row -> set<Utf16>, rows: seq<Row>)
    ensures AllNames(f, rows) == set i, n | 0 <= i < |rows| && n in f(rows[i]) :: n
  {
    if rows != [] {
      AllNamesAre(f, rows[..|rows| - 1]);
    }
  }

  lemma AllNamesPermuted(f: Row -> set<Utf16>, g: Row -> set<Utf16>, a: seq<Row>, b: seq<Row>)
    requires Permuted(a, b) && forall i :: 0 <= i < |a| ==> f(a[i]) == g(a[i])
    ensures AllNames(f, a) == AllNames(g, b)
  {
    AllNamesAre(f, a);
    AllNamesAre(g, b);
    forall i | 0 <= i < |a|
      ensures a[i] in b
    {
      PermutedMembers(a, b, a[i]);
    }
    forall i | 0 <= i < |b|
      ensures b[i] in a
    {
      PermutedMembers(a, b, b[i]);
    }
  }

  lemma CollectSamePermuted<T, U>(f: T -> Option<U>, g: T -> Option<U>, a: seq<T>, b: seq<T>)
    requires Permuted(a, b) && forall i :: 0 <= i < |a| ==> f(a[i]) == g(a[i])
    ensures Permuted(Collect(f, a), Collect(g, b))
  {
    CollectSame(f, g, a);
    CollectPermuted(g, a, b);
  }

  lemma ScheduledPermuted(scope: Scope, a: Tables, b: Tables, l: Lookups)
    requires SameRecords(a, b) && KeysOnce(scope, a)
    ensures Total(ItemTotals(scope, a, l, a.scheduledRecipes)) == Total(ItemTotals(scope, b, l, b.scheduledRecipes))
    ensures ItemNames(scope, a, l, a.scheduledRecipes) == ItemNames(scope, b, l, b.scheduledRecipes)
    ensures ScheduledMap(scope, a, l, a.scheduledRecipes) == ScheduledMap(scope, b, l, b.scheduledRecipes)
  {
    hide ItemCostOf, Total, Displayed, Replacements;
    var xs, ys := a.scheduledRecipes, b.scheduledRecipes;
    forall i | 0 <= i < |xs|
      ensures ItemCostOf(scope, a, l, xs[i]) == ItemCostOf(scope, b, l, xs[i])
    {
      assert xs[i] in a.scheduledRecipes;
      ItemPermuted(scope, a, b, l, xs[i]);
    }
    CollectSamePermuted(item => ItemTotal(scope, a, l, item), item => ItemTotal(scope, b, l, item), xs, ys);
    TotalPermuted(ItemTotals(scope, a, l, xs), ItemTotals(scope, b, l, ys));
    AllNamesPermuted(item => ItemMissing(scope, a, l, item), item => ItemMissing(scope, b, l, item), xs, ys);
    CollectSame(item => ScheduledEntry(scope, a, l, item), item => ScheduledEntry(scope, b, l, item), xs);
    TableById(item => ScheduledEntry(scope, b, l, item), xs, ys);
  }

  lemma ShoppingPermuted(scope: Scope, a: Tables, b: Tables, l: Lookups)
    requires SameRecords(a, b)
    ensures Total(RowCostsOf(scope, a, l, a.ingredientRows)) == Total(RowCostsOf(scope, b, l, b.ingredientRows))
    ensures RowNames(scope, a, l, a.ingredientRows) == RowNames(scope, b, l, b.ingredientRows)
  {
    hide RowOutcomeOf, Total;
    var xs, ys := a.ingredientRows, b.ingredientRows;
    forall i | 0 <= i < |xs|
      ensures RowOutcomeOf(scope, a, l, xs[i]) == RowOutcomeOf(scope, b, l, xs[i])
    {
      RowPermuted(scope, a, b, l, xs[i]);
    }
    CollectSamePermuted(row => RowCost(scope, a, l, row), row => RowCost(scope, b, l, row), xs, ys);
    TotalPermuted(RowCostsOf(scope, a, l, xs), RowCostsOf(scope, b, l, ys));
    AllNamesPermuted(row => RowMissing(scope, a, l, row), row => RowMissing(scope, b, l, row), xs, ys);
  }

  lemma EventPermuted(scope: Scope, a: Tables, b: Tables)
    requires SameRecords(a, b) && DistinctIds(a.events)
    ensures EventOf(scope, a) == EventOf(scope, b)
  {
    hide ParseDecimal, IsUuid, IsCurrency, ValidIdentity;
    forall x, y | x in a.events && y in a.events && x.entityId == y.entityId
      ensures x == y
    {
      var i :| 0 <= i < |a.events| && a.events[i] == x;
      var j :| 0 <= j < |a.events| && a.events[j] == y;
    }
    FindFirstPermuted((r: Row) => r.entityId == scope.eventId && ValidIdentity(scope, r), a.events, b.events);
  }

  lemma ReceiptsPermuted(scope: Scope, currency: Utf16, a: seq<Row>, b: seq<Row>)
    requires Permuted(a, b)
    ensures Total(ReceiptAmounts(scope, currency, a)) == Total(ReceiptAmounts(scope, currency, b))
  {
    hide ReceiptAmount, Total;
    CollectPermuted(r => ReceiptAmount(scope, currency, r), a, b);
    TotalPermuted(ReceiptAmounts(scope, currency, a), ReceiptAmounts(scope, currency, b));
  }

  /** With every lookup key occurring once, permuting any list of records changes no figure and no name. */
  lemma CostsIgnoreOrder(scope: Scope, a: Tables, b: Tables)
    requires SameRecords(a, b) && KeysOnce(scope, a)
    ensures CostsOf(scope, a) == CostsOf(scope, b)
  {
    hide EventOf, LookupsOf, ItemTotals, ItemNames, ScheduledMap, RowCostsOf, RowNames, ReceiptAmounts, Total, Money,
      Remaining;
    EventPermuted(scope, a, b);
    if EventOf(scope, a).Some? {
      var currency := EventOf(scope, a).value.0;
      var l := LookupsOf(scope, a, currency);
      LookupsPermuted(scope, a, b, currency);
      ScheduledPermuted(scope, a, b, l);
      ShoppingPermuted(scope, a, b, l);
      ReceiptsPermuted(scope, currency, a.receipts, b.receipts);
    }
  }
}
