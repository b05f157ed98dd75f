/** Advisory costs of an event, derived from its cached records by exact fractions. */
module EventCosts {
  import opened Text
  import opened Wrappers
  import opened Digits
  import opened Replica
  import opened Lists
  import opened Fractions

  datatype Row = Row(entityId: Utf16, lifecycle: Lifecycle, immutable: bool, fields: map<string, Value>)

  /** The record lists the projection reads, one a kind. */
  datatype Tables = Tables(
    events: seq<Row>, scheduledRecipes: seq<Row>, overrides: seq<Row>, recipeVersions: seq<Row>, recipeLines: seq<Row>,
    ingredients: seq<Row>, ingredientVersions: seq<Row>, units: seq<Row>, prices: seq<Row>, priceSnapshots: seq<Row>,
    shoppingLists: seq<Row>, revisions: seq<Row>, ingredientRows: seq<Row>, contributions: seq<Row>,
    contributionSnapshots: seq<Row>, receipts: seq<Row>)

  /** The question asked; `trim` stands for the host's trimming of white space. */
  datatype Scope = Scope(trim: Utf16 -> Utf16, userId: Utf16, organizationId: Utf16, eventId: Utf16)

  // ---------- Reading fields ----------

  function Get(r: Row, key: string): Value {
    ValueIn(r.fields, key)
  }

  function TextOf(r: Row, key: string): Option<Utf16> {
    if Get(r, key).Str? then Some(Get(r, key).s) else None
  }

  function FieldId(r: Row, key: string): Option<Utf16> {
    if Get(r, key).Str? && IsUuid(Get(r, key).s) then Some(Get(r, key).s) else None
  }

  predicate Is(r: Row, key: string, text: string)
    requires forall i :: 0 <= i < |text| ==> text[i] < '\U{0080}'
  {
    Get(r, key) == Str(AsciiText(text))
  }

  predicate Missing(v: Value) { v.Undefined? || v.Null? }

  function PowerOfTen(n: nat): (p: nat)
    ensures p > 0
  {
    if n == 0 then 1 else 10 * PowerOfTen(n - 1)
  }

  // Digits with an optional fraction, at most 38 of them.
  function ParseDecimal(v: Value): Option<Amount>
  {
    if !v.Str? then None
    else
      var whole := DigitRun(v.s);
      if whole == |v.s| then
        (if 0 < whole <= 38 then Some(Fraction(ReadNat(v.s[..whole]), 1)) else None)
      else
        var part := v.s[whole + 1..];
        if whole == 0 || v.s[whole] != 0x2E || part == [] || !AllDigits(part) || whole + |part| > 38 then None
        else Some(Fraction(ReadNat(v.s[..whole] + part), PowerOfTen(|part|)))
  }

  // ---------- Lookup tables ----------

  datatype UnitInfo = UnitInfo(dimension: Utf16, factor: PositiveAmount)
  datatype IngredientInfo = IngredientInfo(ingredientId: Utf16, unitId: Utf16, name: Utf16)

  predicate ValidIdentity(scope: Scope, r: Row) {
    IsUuid(r.entityId) && TextOf(r, "id") == Some(r.entityId)
      && TextOf(r, "organization_id") == Some(scope.organizationId)
  }

  // An identified record of this event.
  predicate OfEvent(scope: Scope, r: Row) {
    ValidIdentity(scope, r) && FieldId(r, "event_id") == Some(scope.eventId)
  }

  predicate ActiveOfEvent(scope: Scope, r: Row) {
    r.lifecycle == Active && OfEvent(scope, r)
  }

  function UnitEntry(scope: Scope, r: Row): Option<(Utf16, UnitInfo)> {
    var organization := Get(r, "organization_id");
    if !IsUuid(r.entityId) || TextOf(r, "id") != Some(r.entityId)
       || (!organization.Null? && organization != Str(scope.organizationId)) then None
    else
      var dimension := if TextOf(r, "dimension").Some? then scope.trim(TextOf(r, "dimension").value) else [];
      var factor := ParseDecimal(Get(r, "base_unit_factor"));
      if dimension in [AsciiText("mass"), AsciiText("volume"), AsciiText("count"), AsciiText("custom")]
         && factor.Some? && factor.value.numerator > 0
      then Some((r.entityId, UnitInfo(dimension, factor.value))) else None
  }

  function IngredientId(scope: Scope, r: Row): Option<Utf16> {
    if r.lifecycle == Active && ValidIdentity(scope, r) then Some(r.entityId) else None
  }

  function VersionEntry(scope: Scope, ingredients: set<Utf16>, r: Row): Option<(Utf16, IngredientInfo)> {
    var ingredientId, unitId := FieldId(r, "ingredient_id"), FieldId(r, "canonical_unit_id");
    var name := if TextOf(r, "name").Some? then scope.trim(TextOf(r, "name").value) else [];
    if ValidIdentity(scope, r) && ingredientId.Some? && unitId.Some? && name != [] && ingredientId.value in ingredients
    then Some((r.entityId, IngredientInfo(ingredientId.value, unitId.value, name))) else None
  }

  predicate ValidPriceSnapshot(scope: Scope, currency: Utf16, priceId: Utf16, ingredientId: Utf16, s: Row) {
    var quantity := ParseDecimal(Get(s, "priced_quantity"));
    && OfEvent(scope, s)
    && FieldId(s, "ingredient_id") == Some(ingredientId)
    && FieldId(s, "event_ingredient_price_id") == Some(priceId)
    && Is(s, "state", "available")
    && ParseDecimal(Get(s, "price_amount")).Some?
    && quantity.Some? && quantity.value.numerator > 0
    && FieldId(s, "priced_unit_id").Some?
    && Get(s, "currency") == Str(currency)
  }

  function PriceEntry(scope: Scope, currency: Utf16, snapshots: map<Utf16, Row>, r: Row): Option<(Utf16, Row)> {
    var ingredientId, snapshotId := FieldId(r, "ingredient_id"), FieldId(r, "current_snapshot_id");
    if ingredientId.None? || snapshotId.None? || snapshotId.value !in snapshots then None
    else
      var snapshot := snapshots[snapshotId.value];
      if OfEvent(scope, r) && ValidPriceSnapshot(scope, currency, r.entityId, ingredientId.value, snapshot)
      then Some((ingredientId.value, snapshot)) else None
  }

  function CurrentRevisionEntry(scope: Scope, revisions: map<Utf16, Row>, r: Row): Option<(Utf16, Utf16)> {
    var revisionId := FieldId(r, "current_generation_revision_id");
    if !ActiveOfEvent(scope, r) || revisionId.None? || revisionId.value !in revisions then None
    else
      var revision := revisions[revisionId.value];
      if FieldId(revision, "shopping_list_id") == Some(r.entityId) then Some((r.entityId, revision.entityId)) else None
  }

  // The records that pass a test, by id.
  function KeepEntry(keep: Row -> bool, r: Row): Option<(Utf16, Row)> {
    if keep(r) then Some((r.entityId, r)) else None
  }

  function ById(keep: Row -> bool, rows: seq<Row>): map<Utf16, Row> {
    ToMap(Collect(r => KeepEntry(keep, r), rows))
  }

  function EventSnapshots(scope: Scope, rows: seq<Row>): map<Utf16, Row> {
    ById(r => OfEvent(scope, r), rows)
  }

  function AllById(rows: seq<Row>): map<Utf16, Row> {
    ById(r => true, rows)
  }

  datatype Lookups = Lookups(
    currency: Utf16,
    ingredients: set<Utf16>,
    ingredientVersions: map<Utf16, IngredientInfo>,
    units: map<Utf16, UnitInfo>,
    prices: map<Utf16, Row>,
    eventPrices: map<Utf16, Row>,
    eventPriceSnapshots: map<Utf16, Row>,
    versions: map<Utf16, Row>,
    immutableVersions: set<Utf16>,
    currentRevisions: map<Utf16, Utf16>,
    contributions: map<Utf16, Row>)

  function IngredientIds(scope: Scope, rows: seq<Row>): set<Utf16> {
    Elements(Collect(r => IngredientId(scope, r), rows))
  }

  function ImmutableId(r: Row): Option<Utf16> {
    if r.immutable then Some(r.entityId) else None
  }

  function ImmutableIds(rows: seq<Row>): set<Utf16> {
    Elements(Collect(ImmutableId, rows))
  }

  function VersionTable(scope: Scope, ingredients: set<Utf16>, rows: seq<Row>): map<Utf16, IngredientInfo> {
    ToMap(Collect(r => VersionEntry(scope, ingredients, r), rows))
  }

  function UnitTable(scope: Scope, rows: seq<Row>): map<Utf16, UnitInfo> {
    ToMap(Collect(r => UnitEntry(scope, r), rows))
  }

  function PriceEntries(scope: Scope, currency: Utf16, snapshots: map<Utf16, Row>, rows: seq<Row>): seq<(Utf16, Row)> {
    Collect(r => PriceEntry(scope, currency, snapshots, r), rows)
  }

  function RevisionTable(scope: Scope, revisions: map<Utf16, Row>, rows: seq<Row>): map<Utf16, Utf16> {
    ToMap(Collect(r => CurrentRevisionEntry(scope, revisions, r), rows))
  }

  function PricedForEvent(scope: Scope): Row -> bool {
    r => ActiveOfEvent(scope, r) && FieldId(r, "ingredient_id").Some?
  }

  function OnEventList(scope: Scope): Row -> bool {
    r => ActiveOfEvent(scope, r) && FieldId(r, "shopping_list_id").Some?
  }

  function ContributesTo(scope: Scope): Row -> bool {
    r => ActiveOfEvent(scope, r) && FieldId(r, "shopping_list_id").Some?
         && FieldId(r, "shopping_ingredient_row_id").Some? && FieldId(r, "ingredient_id").Some?
  }

  function LookupsOf(scope: Scope, t: Tables, currency: Utf16): Lookups {
    var ingredients := IngredientIds(scope, t.ingredients);
    var snapshots := EventSnapshots(scope, t.priceSnapshots);
    var revisions := ById(OnEventList(scope), t.revisions);
    Lookups(
      currency,
      ingredients,
      VersionTable(scope, ingredients, t.ingredientVersions),
      UnitTable(scope, t.units),
      ToMap(PriceEntries(scope, currency, snapshots, t.prices)),
      ById(PricedForEvent(scope), t.prices),
      ById(PricedForEvent(scope), t.priceSnapshots),
      AllById(t.recipeVersions),
      ImmutableIds(t.ingredientVersions),
      RevisionTable(scope, revisions, t.shoppingLists),
      ById(ContributesTo(scope), t.contributions))
  }

  // ---------- Pricing ----------

  // `quantity` of the source unit, at `amount` per `pricedQuantity` of the target unit.
  function Price(quantity: Amount, source: UnitInfo, target: UnitInfo, amount: Amount,
        pricedQuantity: Amount): Option<Amount>
  {
    MultiplyAmounts(quantity, source.factor);
    DivideAmounts(Multiply(quantity, source.factor), target.factor);
    match Divide(Multiply(quantity, source.factor), target.factor)
    case None => None
    case Some(converted) =>
      MultiplyAmounts(amount, converted);
      DivideAmounts(Multiply(amount, converted), pricedQuantity);
      Divide(Multiply(amount, converted), pricedQuantity)
  }

  function UnitOf(l: Lookups, unitId: Option<Utf16>): Option<UnitInfo> {
    if unitId.Some? then Lookup(l.units, unitId.value) else None
  }

  // ---------- Scheduled recipes ----------

  datatype ResolvedLine = ResolvedLine(ingredientVersionId: Utf16, quantity: Amount)

  function ReplacementEntry(scope: Scope, item: Row, o: Row): Option<(Option<Utf16>, Row)> {
    if o.lifecycle == Active && FieldId(o, "event_id") == Some(scope.eventId)
       && FieldId(o, "scheduled_recipe_id") == Some(item.entityId) && Is(o, "override_kind", "replace")
    then Some((TextOf(o, "target_line_key"), o)) else None
  }

  function ResolveLine(versionId: Utf16, replacements: map<Option<Utf16>, Row>, proportional: Amount,
        line: Row): Option<ResolvedLine>
  {
    if FieldId(line, "recipe_version_id") != Some(versionId) then None
    else
      var replacement := Lookup(replacements, TextOf(line, "line_key"));
      var quantity := ParseDecimal(Coalesce(
        if replacement.Some? then Get(replacement.value, "quantity") else Undefined, Get(line, "base_quantity")));
      var ingredientVersionId := FieldId(replacement.GetOr(line), "ingredient_version_id");
      if quantity.None? || ingredientVersionId.None? then None
      else
        MultiplyAmounts(quantity.value, proportional);
        Some(ResolvedLine(ingredientVersionId.value,
        if Is(line, "scaling_behavior", "fixed") then quantity.value else Multiply(quantity.value, proportional)))
  }

  function ResolveAddition(scope: Scope, item: Row, o: Row): Option<ResolvedLine> {
    if o.lifecycle == Active && FieldId(o, "event_id") == Some(scope.eventId)
       && FieldId(o, "scheduled_recipe_id") == Some(item.entityId) && Is(o, "override_kind", "add")
    then
      var quantity, versionId := ParseDecimal(Get(o, "quantity")), FieldId(o, "ingredient_version_id");
      if quantity.Some? && versionId.Some? then Some(ResolvedLine(versionId.value, quantity.value)) else None
    else None
  }

  function Replacements(scope: Scope, item: Row, overrides: seq<Row>): seq<(Option<Utf16>, Row)> {
    Collect(o => ReplacementEntry(scope, item, o), overrides)
  }

  function ResolvedLines(versionId: Utf16, replacements: map<Option<Utf16>, Row>, proportional: Amount,
        lines: seq<Row>): seq<ResolvedLine>
  {
    Collect(line => ResolveLine(versionId, replacements, proportional, line), lines)
  }

  function Additions(scope: Scope, item: Row, overrides: seq<Row>): seq<ResolvedLine> {
    Collect(o => ResolveAddition(scope, item, o), overrides)
  }

  datatype LineOutcome = Free | Unpriced(name: Utf16) | Costs(cost: Amount)

  function LineOutcomeOf(l: Lookups, line: ResolvedLine): LineOutcome {
    if line.quantity.numerator == 0 then Free
    else
      var ingredient := Lookup(l.ingredientVersions, line.ingredientVersionId);
      if ingredient.None? then Unpriced(line.ingredientVersionId)
      else
        var snapshot := Lookup(l.prices, ingredient.value.ingredientId);
        if snapshot.None? then Unpriced(ingredient.value.name)
        else
          var amount, quantity := ParseDecimal(Get(snapshot.value, "price_amount")),
            ParseDecimal(Get(snapshot.value, "priced_quantity"));
          var source, target := Lookup(l.units, ingredient.value.unitId),
            UnitOf(l, FieldId(snapshot.value, "priced_unit_id"));
          if !Is(snapshot.value, "state", "available") || Get(snapshot.value, "currency") != Str(l.currency)
             || amount.None? || quantity.None? || source.None? || target.None?
             || source.value.dimension != target.value.dimension
          then Unpriced(ingredient.value.name)
          else
            match Price(line.quantity, source.value, target.value, amount.value, quantity.value)
            case Some(cost) => Costs(cost)
            case None => Unpriced(ingredient.value.name)
  }

  function LineCost(l: Lookups, line: ResolvedLine): Option<Amount> {
    if LineOutcomeOf(l, line).Costs? then Some(LineOutcomeOf(l, line).cost) else None
  }

  function LineMissing(l: Lookups, line: ResolvedLine): Option<Utf16> {
    if LineOutcomeOf(l, line).Unpriced? then Some(LineOutcomeOf(l, line).name) else None
  }

  function LineCosts(l: Lookups, lines: seq<ResolvedLine>): seq<Amount> {
    Collect(line => LineCost(l, line), lines)
  }

  function LineNames(l: Lookups, lines: seq<ResolvedLine>): seq<Utf16> {
    Collect(line => LineMissing(l, line), lines)
  }

  // The lines of a scheduled recipe and its diners; `None` when the recipe is left out.
  function ItemLines(scope: Scope, t: Tables, l: Lookups, item: Row): Option<(seq<ResolvedLine>, int)> {
    if FieldId(item, "event_id") != Some(scope.eventId) || item.lifecycle != Active then None
    else
      var version := Lookup(l.versions, FieldId(item, "recipe_version_id").GetOr([]));
      var selected := ParseDecimal(Get(item, "selected_scale_amount"));
      if version.None? || selected.None? || !Get(item, "diner_count").Whole? then None
      else
        var base := ParseDecimal(Get(version.value, "base_scaling_amount"));
        if base.None? || Divide(selected.value, base.value).None? then None
        else
          DivideAmounts(selected.value, base.value);
          var proportional := Divide(selected.value, base.value).value;
          var replacements := ToMap(Replacements(scope, item, t.overrides));
          Some((
            ResolvedLines(version.value.entityId, replacements, proportional, t.recipeLines)
            + Additions(scope, item, t.overrides),
            Get(item, "diner_count").n))
  }

  datatype ItemCost = ItemCost(total: Amount, perDiner: Option<Amount>, missing: set<Utf16>)

  function Total(amounts: seq<Amount>): Amount {
    SumOfAmounts(amounts);
    Sum(amounts)
  }

  function PerDiner(total: Amount, diners: int): Option<Amount> {
    if diners > 0 then
      DivideAmounts(total, Fraction(diners, 1));
      Divide(total, Fraction(diners, 1))
    else None
  }

  function ItemCostOf(scope: Scope, t: Tables, l: Lookups, item: Row): Option<ItemCost> {
    match ItemLines(scope, t, l, item)
    case None => None
    case Some((resolved, diners)) =>
      var total := Total(LineCosts(l, resolved));
      Some(ItemCost(total, PerDiner(total, diners), Elements(LineNames(l, resolved))))
  }

  // ---------- Shopping rows ----------

  predicate CompletePrice(l: Lookups, s: Row) {
    var snapshotId := FieldId(s, "event_price_snapshot_id");
    var amount, quantity := ParseDecimal(Get(s, "price_amount")), ParseDecimal(Get(s, "priced_quantity"));
    && snapshotId.Some? && amount.Some? && quantity.Some? && quantity.value.numerator > 0
    && FieldId(s, "priced_unit_id").Some? && Get(s, "currency") == Str(l.currency)
    && snapshotId.value in l.eventPriceSnapshots
    && var source := l.eventPriceSnapshots[snapshotId.value];
    var parent := Lookup(l.eventPrices, FieldId(source, "event_ingredient_price_id").GetOr([]));
    && parent.Some?
    && FieldId(source, "ingredient_id") == FieldId(s, "ingredient_id")
    && FieldId(parent.value, "ingredient_id") == FieldId(s, "ingredient_id")
  }

  predicate NoPrice(s: Row) {
    && Missing(Get(s, "event_price_snapshot_id")) && Missing(Get(s, "price_amount"))
      && Missing(Get(s, "priced_quantity"))
    && Missing(Get(s, "priced_unit_id")) && Missing(Get(s, "currency"))
  }

  // The list, its current revision and the ingredient of a row that counts.
  function RowScope(scope: Scope, l: Lookups, row: Row): Option<(Utf16, Utf16, Utf16)> {
    var listId, ingredientId := FieldId(row, "shopping_list_id"), FieldId(row, "ingredient_id");
    if !ActiveOfEvent(scope, row) || listId.None? || listId.value !in l.currentRevisions
       || ingredientId.None? || ingredientId.value !in l.ingredients then None
    else Some((listId.value, l.currentRevisions[listId.value], ingredientId.value))
  }

  predicate ValidSnapshot(scope: Scope, l: Lookups, row: Row, listId: Utf16, revisionId: Utf16, ingredientId: Utf16,
        s: Row)
  {
    var contribution := Lookup(l.contributions, FieldId(s, "shopping_contribution_id").GetOr([]));
    var version := Lookup(l.ingredientVersions, FieldId(s, "ingredient_version_id").GetOr([]));
    && FieldId(s, "shopping_contribution_id").Some? && contribution.Some?
    && s.immutable && ActiveOfEvent(scope, s) && Get(s, "active_in_revision") == Flag(true)
    && FieldId(s, "shopping_list_id") == Some(listId)
    && FieldId(s, "generation_revision_id") == Some(revisionId)
    && FieldId(contribution.value, "shopping_list_id") == Some(listId)
    && FieldId(contribution.value, "event_id") == Some(scope.eventId)
    && FieldId(contribution.value, "shopping_ingredient_row_id") == Some(row.entityId)
    && FieldId(contribution.value, "ingredient_id") == Some(ingredientId)
    && FieldId(s, "ingredient_id") == Some(ingredientId)
    && FieldId(s, "ingredient_version_id").Some? && version.Some?
    && FieldId(s, "ingredient_version_id").value in l.immutableVersions
    && version.value.ingredientId == ingredientId
    && ParseDecimal(Get(s, "generated_quantity")).Some?
    && (NoPrice(s) || CompletePrice(l, s))
  }

  function SameContribution(contributionId: Option<Utf16>, s: Row): Option<Row> {
    if FieldId(s, "shopping_contribution_id") == contributionId then Some(s) else None
  }

  function SnapshotOfRow(scope: Scope, l: Lookups, row: Row, ids: (Utf16, Utf16, Utf16), s: Row): Option<Row> {
    if ValidSnapshot(scope, l, row, ids.0, ids.1, ids.2, s) then Some(s) else None
  }

  function OfContribution(s: Row, snapshots: seq<Row>): seq<Row> {
    Collect(o => SameContribution(FieldId(s, "shopping_contribution_id"), o), snapshots)
  }

  function OnlyOne(snapshots: seq<Row>, s: Row): Option<Row> {
    if |OfContribution(s, snapshots)| == 1 then Some(s) else None
  }

  // The valid snapshots of a row whose contribution has no other one.
  function ValidSnapshots(scope: Scope, snapshots: seq<Row>, l: Lookups, row: Row,
        ids: (Utf16, Utf16, Utf16)): seq<Row>
  {
    Singles(SnapshotsOfRow(scope, snapshots, l, row, ids))
  }

  function SnapshotsOfRow(scope: Scope, snapshots: seq<Row>, l: Lookups, row: Row,
        ids: (Utf16, Utf16, Utf16)): seq<Row>
  {
    Collect(s => SnapshotOfRow(scope, l, row, ids, s), snapshots)
  }

  function Singles(valid: seq<Row>): seq<Row> {
    Collect(s => OnlyOne(valid, s), valid)
  }

  function GeneratedQuantity(s: Row): Option<Amount> {
    ParseDecimal(Get(s, "generated_quantity"))
  }

  function RemainingAmount(generated: Amount, supply: Amount): Amount {
    ProductsArePositive(generated.denominator, supply.denominator);
    MaxZeroSubtract(generated, supply)
  }

  function PurchaseQuantity(row: Row, generated: Amount): Amount {
    var manual := if Get(row, "manual_purchase_target").Null? then None
      else ParseDecimal(Get(row, "manual_purchase_target"));
    var supply := ParseDecimal(Get(row, "available_supply_quantity"));
    if manual.Some? then manual.value
    else if supply.Some? then RemainingAmount(generated, supply.value) else generated
  }

  // The share of the purchase that one snapshot's generated quantity carries.
  function Allocated(quantity: Amount, part: Amount, generated: Amount): Option<Amount> {
    MultiplyAmounts(quantity, part);
    DivideAmounts(Multiply(quantity, part), generated);
    if generated.numerator > 0 then Divide(Multiply(quantity, part), generated) else None
  }

  function ShareOf(quantity: Amount, generated: Amount, s: Row): Option<Amount> {
    match GeneratedQuantity(s)
    case None => None
    case Some(part) => Allocated(quantity, part, generated)
  }

  // What prices one snapshot: source and target units, price and priced quantity.
  datatype Pricing = Pricing(source: UnitInfo, target: UnitInfo, amount: Amount, pricedQuantity: Amount)

  function PricingOf(l: Lookups, s: Row): Option<Pricing> {
    var ingredient := Lookup(l.ingredientVersions, FieldId(s, "ingredient_version_id").GetOr([]));
    var amount, pricedQuantity := ParseDecimal(Get(s, "price_amount")), ParseDecimal(Get(s, "priced_quantity"));
    var source := if ingredient.Some? then Lookup(l.units, ingredient.value.unitId) else None;
    var target := UnitOf(l, FieldId(s, "priced_unit_id"));
    if ingredient.None? || amount.None? || pricedQuantity.None? || source.None? || target.None?
       || Get(s, "currency") != Str(l.currency) || source.value.dimension != target.value.dimension then None
    else Some(Pricing(source.value, target.value, amount.value, pricedQuantity.value))
  }

  function SnapshotCost(l: Lookups, quantity: Amount, generated: Amount, s: Row): Option<Amount> {
    match (PricingOf(l, s), ShareOf(quantity, generated, s))
    case (Some(p), Some(share)) => Price(share, p.source, p.target, p.amount, p.pricedQuantity)
    case _ => None
  }

  function GeneratedTotal(snapshots: seq<Row>): Amount {
    Total(Collect(s => GeneratedQuantity(s), snapshots))
  }

  function SnapshotCosts(l: Lookups, quantity: Amount, generated: Amount, snapshots: seq<Row>): seq<Amount> {
    Collect(s => SnapshotCost(l, quantity, generated, s), snapshots)
  }

  datatype RowOutcome = Outside | RowUnpriced(name: Utf16) | RowCosts(cost: Amount)

  function RowOutcomeOf(scope: Scope, t: Tables, l: Lookups, row: Row): RowOutcome {
    match RowScope(scope, l, row)
    case None => Outside
    case Some(ids) => OutcomeOfSnapshots(l, row, ValidSnapshots(scope, t.contributionSnapshots, l, row, ids))
  }

  function OutcomeOfSnapshots(l: Lookups, row: Row, snapshots: seq<Row>): RowOutcome {
    var generated := GeneratedTotal(snapshots);
    var quantity := PurchaseQuantity(row, generated);
    if quantity.numerator == 0 then Outside
    else
      var costs := SnapshotCosts(l, quantity, generated, snapshots);
      if generated.numerator > 0 && |costs| == |snapshots| then RowCosts(Total(costs))
      else RowUnpriced(TextOf(row, "ingredient_name").GetOr(row.entityId))
  }

  // ---------- The projection ----------

  datatype ScheduledCost = ScheduledCost(total: string, perDiner: Option<string>, missing: bool)

  datatype Projection = Projection(
    currency: Utf16, total: string, budget: string, expectedShopping: string, actual: string, remaining: string,
    missingIngredients: set<Utf16>, scheduled: map<Utf16, ScheduledCost>)

  predicate IsCurrency(s: Utf16) {
    |s| == 3 && forall i | 0 <= i < 3 :: 0x41 <= s[i] <= 0x5A
  }

  // The event with its currency and budget, when the question can be answered.
  function EventOf(scope: Scope, t: Tables): Option<(Utf16, Amount)> {
    if !IsUuid(scope.userId) || !IsUuid(scope.organizationId) || !IsUuid(scope.eventId) then None
    else
      match FindFirst((r: Row) => r.entityId == scope.eventId && ValidIdentity(scope, r), t.events)
      case None => None
      case Some(event) =>
        var currency, budget := TextOf(event, "currency"), ParseDecimal(Get(event, "budget_amount"));
        if currency.None? || budget.None? || !IsCurrency(currency.value) then None
        else Some((currency.value, budget.value))
  }

  function ReceiptAmount(scope: Scope, currency: Utf16, r: Row): Option<Amount> {
    if r.lifecycle == Active && FieldId(r, "event_id") == Some(scope.eventId) && Get(r, "currency") == Str(currency)
    then ParseDecimal(Get(r, "total_amount")) else None
  }

  function ItemTotal(scope: Scope, t: Tables, l: Lookups, item: Row): Option<Amount> {
    var cost := ItemCostOf(scope, t, l, item);
    if cost.Some? then Some(cost.value.total) else None
  }

  function RowCost(scope: Scope, t: Tables, l: Lookups, row: Row): Option<Amount> {
    var outcome := RowOutcomeOf(scope, t, l, row);
    if outcome.RowCosts? then Some(outcome.cost) else None
  }

  function ItemMissing(scope: Scope, t: Tables, l: Lookups, item: Row): set<Utf16> {
    var cost := ItemCostOf(scope, t, l, item);
    if cost.Some? then cost.value.missing else {}
  }

  function RowMissing(scope: Scope, t: Tables, l: Lookups, row: Row): set<Utf16> {
    var outcome := RowOutcomeOf(scope, t, l, row);
    if outcome.RowUnpriced? then {outcome.name} else {}
  }

  function Displayed(total: Amount, perDiner: Option<Amount>, missing: bool): ScheduledCost {
    ScheduledCost(Money(total), if perDiner.Some? then Some(Money(perDiner.value)) else None, missing)
  }

  function ScheduledEntry(scope: Scope, t: Tables, l: Lookups, item: Row): Option<(Utf16, ScheduledCost)> {
    match ItemCostOf(scope, t, l, item)
    case None => None
    case Some(cost) =>
      Some((item.entityId, Displayed(cost.total, cost.perDiner, cost.missing != {})))
  }

  function AllNames(f: Row -> set<Utf16>, rows: seq<Row>): set<Utf16> {
    if rows == [] then {} else AllNames(f, rows[..|rows| - 1]) + f(rows[|rows| - 1])
  }

  function ItemTotals(scope: Scope, t: Tables, l: Lookups, items: seq<Row>): seq<Amount> {
    Collect(item => ItemTotal(scope, t, l, item), items)
  }

  function ItemNames(scope: Scope, t: Tables, l: Lookups, items: seq<Row>): set<Utf16> {
    AllNames(item => ItemMissing(scope, t, l, item), items)
  }

  function ScheduledMap(scope: Scope, t: Tables, l: Lookups, items: seq<Row>): map<Utf16, ScheduledCost> {
    ToMap(Collect(item => ScheduledEntry(scope, t, l, item), items))
  }

  function RowCostsOf(scope: Scope, t: Tables, l: Lookups, rows: seq<Row>): seq<Amount> {
    Collect(row => RowCost(scope, t, l, row), rows)
  }

  function RowNames(scope: Scope, t: Tables, l: Lookups, rows: seq<Row>): set<Utf16> {
    AllNames(row => RowMissing(scope, t, l, row), rows)
  }

  function ReceiptAmounts(scope: Scope, currency: Utf16, receipts: seq<Row>): seq<Amount> {
    Collect(r => ReceiptAmount(scope, currency, r), receipts)
  }

  // The positive denominator that `Money` divides by.
  function Remaining(budget: Amount, actual: Amount): (f: Fraction)
    ensures Positive(f)
  {
    ProductsArePositive(budget.denominator, actual.denominator);
    Subtract(budget, actual)
  }

  function CostsOf(scope: Scope, t: Tables): Option<Projection> {
    match EventOf(scope, t)
    case None => None
    case Some((currency, budget)) =>
      var l := LookupsOf(scope, t, currency);
      var actual := Total(ReceiptAmounts(scope, currency, t.receipts));
      Some(Projection(
        currency,
        Money(Total(ItemTotals(scope, t, l, t.scheduledRecipes))),
        Money(budget),
        Money(Total(RowCostsOf(scope, t, l, t.ingredientRows))),
        Money(actual),
        Money(Remaining(budget, actual)),
        ItemNames(scope, t, l, t.scheduledRecipes) + RowNames(scope, t, l, t.ingredientRows),
        ScheduledMap(scope, t, l, t.scheduledRecipes)))
  }

  // ---------- The loops ----------

  lemma PrefixStep<T>(s: seq<T>, i: nat)
    requires i < |s|
    ensures s[..i + 1] != [] && s[..i + 1][..|s[..i + 1]| - 1] == s[..i] && s[..i + 1][|s[..i + 1]| - 1] == s[i]
  {
  }

  lemma TotalStep(amounts: seq<Amount>, x: Amount)
    ensures IsAmount(Add(Total(amounts), x)) && Add(Total(amounts), x) == Total(amounts + [x])
  {
  }

  // Adds up the lines of one recipe and notes the ones without a usable price.
  method PriceLines(l: Lookups, resolved: seq<ResolvedLine>, known: set<Utf16>)
    returns (itemTotal: Amount, itemMissing: bool, missing: set<Utf16>)
    ensures itemTotal == Total(LineCosts(l, resolved))
    ensures missing == known + Elements(LineNames(l, resolved))
    ensures itemMissing <==> Elements(LineNames(l, resolved)) != {}
  {
    itemTotal, itemMissing, missing := ZERO_FRACTION, false, known;
    for i := 0 to |resolved|
      invariant itemTotal == Total(LineCosts(l, resolved[..i]))
      invariant missing == known + Elements(LineNames(l, resolved[..i]))
      invariant itemMissing <==> LineNames(l, resolved[..i]) != []
    {
      hide LineOutcomeOf, Total;
      var line := resolved[i];
      PrefixStep(resolved, i);
      match LineOutcomeOf(l, line) {
        case Free =>
        case Unpriced(name) =>
          itemMissing := true;
          missing := missing + {name};
          assert LineNames(l, resolved[..i + 1]) == LineNames(l, resolved[..i]) + [name];
        case Costs(cost) =>
          TotalStep(LineCosts(l, resolved[..i]), cost);
          itemTotal := Add(itemTotal, cost);
      }
    }
    assert resolved[..|resolved|] == resolved;
    assert itemMissing ==> LineNames(l, resolved)[0] in Elements(LineNames(l, resolved));
  }

  // One scheduled recipe, or nothing when the recipe is left out.
  method PriceItem(scope: Scope, t: Tables, l: Lookups, item: Row, known: set<Utf16>)
    returns (priced: Option<(Amount, ScheduledCost)>, missing: set<Utf16>)
    ensures missing == known + ItemMissing(scope, t, l, item)
    ensures ItemTotal(scope, t, l, item) == if priced.Some? then Some(priced.value.0) else None
    ensures ScheduledEntry(scope, t, l, item) == if priced.Some? then Some((item.entityId, priced.value.1)) else None
  {
    hide Total, Money, ItemLines, LineCosts, LineNames, PerDiner, Elements;
    match ItemLines(scope, t, l, item) {
      case None => return None, known;
      case Some((resolved, diners)) =>
        var itemTotal, itemMissing, names := PriceLines(l, resolved, known);
        return Some((itemTotal, Displayed(itemTotal, PerDiner(itemTotal, diners), itemMissing))), names;
    }
  }

  lemma ItemTotalsStep(scope: Scope, t: Tables, l: Lookups, items: seq<Row>, i: nat)
    requires i < |items|
    ensures ItemTotal(scope, t, l, items[i]).None? ==>
      ItemTotals(scope, t, l, items[..i + 1]) == ItemTotals(scope, t, l, items[..i])
    ensures ItemTotal(scope, t, l, items[i]).Some? ==>
      ItemTotals(scope, t, l, items[..i + 1])
        == ItemTotals(scope, t, l, items[..i]) + [ItemTotal(scope, t, l, items[i]).value]
  {
    hide ItemTotal;
    PrefixStep(items, i);
  }

  lemma ScheduledMapStep(scope: Scope, t: Tables, l: Lookups, items: seq<Row>, i: nat)
    requires i < |items|
    ensures ScheduledEntry(scope, t, l, items[i]).None? ==>
      ScheduledMap(scope, t, l, items[..i + 1]) == ScheduledMap(scope, t, l, items[..i])
    ensures ScheduledEntry(scope, t, l, items[i]).Some? ==>
      var e := ScheduledEntry(scope, t, l, items[i]).value;
      ScheduledMap(scope, t, l, items[..i + 1]) == ScheduledMap(scope, t, l, items[..i])[e.0 := e.1]
  {
    hide ScheduledEntry;
    PrefixStep(items, i);
  }

  lemma ItemNamesStep(scope: Scope, t: Tables, l: Lookups, items: seq<Row>, i: nat)
    requires i < |items|
    ensures ItemNames(scope, t, l, items[..i + 1])
      == ItemNames(scope, t, l, items[..i]) + ItemMissing(scope, t, l, items[i])
  {
    hide ItemMissing;
    PrefixStep(items, i);
  }

  method ScheduleCosts(scope: Scope, t: Tables, l: Lookups)
    returns (total: Amount, scheduled: map<Utf16, ScheduledCost>, missing: set<Utf16>)
    ensures total == Total(ItemTotals(scope, t, l, t.scheduledRecipes))
    ensures scheduled == ScheduledMap(scope, t, l, t.scheduledRecipes)
    ensures missing == ItemNames(scope, t, l, t.scheduledRecipes)
  {
    total, scheduled, missing := ZERO_FRACTION, map[], {};
    for i := 0 to |t.scheduledRecipes|
      invariant total == Total(ItemTotals(scope, t, l, t.scheduledRecipes[..i]))
      invariant scheduled == ScheduledMap(scope, t, l, t.scheduledRecipes[..i])
      invariant missing == ItemNames(scope, t, l, t.scheduledRecipes[..i])
    {
      hide Total, ItemTotal, ScheduledEntry, ItemMissing, ItemTotals, ScheduledMap, ItemNames;
      var item := t.scheduledRecipes[i];
      ItemTotalsStep(scope, t, l, t.scheduledRecipes, i);
      ScheduledMapStep(scope, t, l, t.scheduledRecipes, i);
      ItemNamesStep(scope, t, l, t.scheduledRecipes, i);
      var priced, names := PriceItem(scope, t, l, item, missing);
      missing := names;
      if priced.Some? {
        TotalStep(ItemTotals(scope, t, l, t.scheduledRecipes[..i]), priced.value.0);
        total := Add(total, priced.value.0);
        scheduled := scheduled[item.entityId := priced.value.1];
      }
    }
    assert t.scheduledRecipes[..|t.scheduledRecipes|] == t.scheduledRecipes;
  }

  lemma SnapshotCostsStep(l: Lookups, quantity: Amount, generated: Amount, snapshots: seq<Row>, i: nat)
    requires i < |snapshots|
    ensures SnapshotCost(l, quantity, generated, snapshots[i]).None? ==>
      SnapshotCosts(l, quantity, generated, snapshots[..i + 1]) == SnapshotCosts(l, quantity, generated, snapshots[..i])
    ensures SnapshotCost(l, quantity, generated, snapshots[i]).Some? ==>
      SnapshotCosts(l, quantity, generated, snapshots[..i + 1])
      == SnapshotCosts(l, quantity, generated,
        snapshots[..i])
        + [SnapshotCost(l, quantity, generated, snapshots[i]).value]
  {
    hide SnapshotCost;
    PrefixStep(snapshots, i);
  }

  method PriceRow(l: Lookups, row: Row, snapshots: seq<Row>) returns (outcome: RowOutcome)
    ensures outcome == OutcomeOfSnapshots(l, row, snapshots)
  {
    var generated := GeneratedTotal(snapshots);
    var quantity := PurchaseQuantity(row, generated);
    if quantity.numerator == 0 { return Outside; }
    var rowCost, pricingValid := ZERO_FRACTION, generated.numerator > 0;
    for i := 0 to |snapshots|
      invariant |SnapshotCosts(l, quantity, generated, snapshots[..i])| <= i
      invariant rowCost == Total(SnapshotCosts(l, quantity, generated, snapshots[..i]))
      invariant pricingValid <==>
        generated.numerator > 0 && |SnapshotCosts(l, quantity, generated, snapshots[..i])| == i
    {
      hide Total, SnapshotCost, SnapshotCosts;
      SnapshotCostsStep(l, quantity, generated, snapshots, i);
      match SnapshotCost(l, quantity, generated, snapshots[i]) {
        case None => pricingValid := false;
        case Some(cost) =>
          TotalStep(SnapshotCosts(l, quantity, generated, snapshots[..i]), cost);
          rowCost := Add(rowCost, cost);
      }
    }
    assert snapshots[..|snapshots|] == snapshots;
    if pricingValid { return RowCosts(rowCost); }
    return RowUnpriced(TextOf(row, "ingredient_name").GetOr(row.entityId));
  }

  // ---------- Grouping snapshots by contribution ----------

  function ContributionOf(s: Row): Option<Utf16> {
    FieldId(s, "shopping_contribution_id")
  }

  function OfKey(key: Option<Utf16>, snapshots: seq<Row>): seq<Row> {
    Collect(o => SameContribution(key, o), snapshots)
  }

  // The keys of a Map in the order they were first set.
  function FirstKeys(snapshots: seq<Row>): seq<Option<Utf16>> {
    if snapshots == [] then []
    else
      var keys, key := FirstKeys(snapshots[..|snapshots| - 1]), ContributionOf(snapshots[|snapshots| - 1]);
      if key in keys then keys else keys + [key]
  }

  // The groups of one, in the order of their keys.
  function GroupsOfOne(snapshots: seq<Row>, keys: seq<Option<Utf16>>): seq<Row> {
    if keys == [] then []
    else
      var group := OfKey(keys[|keys| - 1], snapshots);
      GroupsOfOne(snapshots, keys[..|keys| - 1]) + if |group| == 1 then group else []
  }

  lemma {:induction false} KeysAreFirst(snapshots: seq<Row>, key: Option<Utf16>)
    ensures key in FirstKeys(snapshots) <==> OfKey(key, snapshots) != []
  {
    hide FieldId;
    if snapshots != [] { KeysAreFirst(snapshots[..|snapshots| - 1], key); }
  }

  // A snapshot that follows one of its contribution makes two.
  lemma OfKeyAround(snapshots: seq<Row>, n: nat)
    requires n < |snapshots|
    ensures var key := ContributionOf(snapshots[n]);
      && (|OfKey(key, snapshots)| == 1 ==> OfKey(key, snapshots) == [snapshots[n]] && key !in FirstKeys(snapshots[..n]))
      && OfKey(key, snapshots) != []
  {
    var key := ContributionOf(snapshots[n]);
    var f := o => SameContribution(key, o);
    KeysAreFirst(snapshots[..n], key);
    assert snapshots == snapshots[..n] + [snapshots[n]] + snapshots[n + 1..];
    CollectConcat(f, snapshots[..n] + [snapshots[n]], snapshots[n + 1..]);
    CollectConcat(f, snapshots[..n], [snapshots[n]]);
    assert [snapshots[n]][..0] == [];
  }

  /** The groups of one of the Map are exactly the snapshots whose contribution has no other, in their order. */
  lemma {:induction false} GroupsAreSingles(snapshots: seq<Row>, n: nat)
    requires n <= |snapshots|
    ensures GroupsOfOne(snapshots, FirstKeys(snapshots[..n])) == Collect(s => OnlyOne(snapshots, s), snapshots[..n])
    decreases n
  {
    if n == 0 {
      assert snapshots[..0] == [];
    } else {
      hide OfKey, ContributionOf;
      var s := snapshots[n - 1];
      GroupsAreSingles(snapshots, n - 1);
      assert snapshots[..n][..n - 1] == snapshots[..n - 1];
      OfKeyAround(snapshots, n - 1);
      OnlyOneByKey(snapshots, s);
      LastGroup(snapshots, FirstKeys(snapshots[..n - 1]), ContributionOf(s));
    }
  }

  lemma OnlyOneByKey(snapshots: seq<Row>, s: Row)
    ensures OnlyOne(snapshots, s) == if |OfKey(ContributionOf(s), snapshots)| == 1 then Some(s) else None
  {
  }

  lemma LastGroup(snapshots: seq<Row>, keys: seq<Option<Utf16>>, key: Option<Utf16>)
    ensures GroupsOfOne(snapshots, keys + [key]) ==
      GroupsOfOne(snapshots, keys) + if |OfKey(key, snapshots)| == 1 then OfKey(key, snapshots) else []
  {
    hide OfKey;
    assert (keys + [key])[..|keys|] == keys;
  }

  // The Map holds the snapshots taken so far, under their contributions.
  ghost predicate Groups(groups: map<Option<Utf16>, seq<Row>>, keys: seq<Option<Utf16>>, taken: seq<Row>) {
    keys == FirstKeys(taken) && forall key :: Lookup(groups, key).GetOr([]) == OfKey(key, taken)
  }

  lemma GroupsStep(groups: map<Option<Utf16>, seq<Row>>, keys: seq<Option<Utf16>>, taken: seq<Row>, s: Row)
    requires Groups(groups, keys, taken)
    ensures var key := ContributionOf(s);
      Groups(groups[key := Lookup(groups, key).GetOr([]) + [s]], if key in keys then keys else keys + [key],
        taken + [s])
  {
    var key, more := ContributionOf(s), taken + [s];
    assert more[..|taken|] == taken;
    var groups' := groups[key := Lookup(groups, key).GetOr([]) + [s]];
    forall other
      ensures Lookup(groups', other).GetOr([]) == OfKey(other, more)
    {
      assert Lookup(groups, other).GetOr([]) == OfKey(other, taken);
    }
  }

  // Fills the Map with the valid snapshots of the row and keeps the groups of one.
  method GroupSnapshots(scope: Scope, l: Lookups, row: Row, ids: (Utf16, Utf16, Utf16), snapshots: seq<Row>)
    returns (singles: seq<Row>)
    ensures singles == ValidSnapshots(scope, snapshots, l, row, ids)
  {
    hide ValidSnapshot, Groups, OnlyOne, OfKey;
    var groups: map<Option<Utf16>, seq<Row>>, keys: seq<Option<Utf16>> := map[], [];
    NothingGrouped();
    for i := 0 to |snapshots|
      invariant Groups(groups, keys, SnapshotsOfRow(scope, snapshots[..i], l, row, ids))
    {
      PrefixStep(snapshots, i);
      var s := snapshots[i];
      if ValidSnapshot(scope, l, row, ids.0, ids.1, ids.2, s) {
        GroupsStep(groups, keys, SnapshotsOfRow(scope, snapshots[..i], l, row, ids), s);
        var key := ContributionOf(s);
        groups := groups[key := Lookup(groups, key).GetOr([]) + [s]];
        if key !in keys { keys := keys + [key]; }
      }
    }
    assert snapshots[..|snapshots|] == snapshots;
    ghost var valid := SnapshotsOfRow(scope, snapshots, l, row, ids);
    singles := [];
    for i := 0 to |keys|
      invariant singles == GroupsOfOne(valid, keys[..i])
    {
      GroupsLookup(groups, keys, valid, keys[i]);
      assert keys[..i + 1][..i] == keys[..i];
      var group := Lookup(groups, keys[i]).GetOr([]);
      if |group| == 1 { singles := singles + group; }
    }
    assert keys[..|keys|] == keys && valid[..|valid|] == valid;
    GroupsAreSingles(valid, |valid|);
    GroupsKeys(groups, keys, valid);
  }

  lemma NothingGrouped()
    ensures Groups(map[], [], [])
  {
  }

  lemma GroupsLookup(groups: map<Option<Utf16>, seq<Row>>, keys: seq<Option<Utf16>>, taken: seq<Row>,
        key: Option<Utf16>)
    requires Groups(groups, keys, taken)
    ensures Lookup(groups, key).GetOr([]) == OfKey(key, taken)
  {
  }

  lemma GroupsKeys(groups: map<Option<Utf16>, seq<Row>>, keys: seq<Option<Utf16>>, taken: seq<Row>)
    requires Groups(groups, keys, taken)
    ensures keys == FirstKeys(taken)
  {
  }

  method PriceListedRow(scope: Scope, t: Tables, l: Lookups, row: Row) returns (outcome: RowOutcome)
    ensures outcome == RowOutcomeOf(scope, t, l, row)
  {
    hide RowScope, ValidSnapshots, OutcomeOfSnapshots;
    match RowScope(scope, l, row) {
      case None => return Outside;
      case Some(ids) =>
        var snapshots := GroupSnapshots(scope, l, row, ids, t.contributionSnapshots);
        outcome := PriceRow(l, row, snapshots);
    }
  }

  lemma RowCostsStep(scope: Scope, t: Tables, l: Lookups, rows: seq<Row>, i: nat)
    requires i < |rows|
    ensures RowCost(scope, t, l, rows[i]).None? ==>
      RowCostsOf(scope, t, l, rows[..i + 1]) == RowCostsOf(scope, t, l, rows[..i])
    ensures RowCost(scope, t, l, rows[i]).Some? ==>
      RowCostsOf(scope, t, l, rows[..i + 1])
        == RowCostsOf(scope, t, l, rows[..i]) + [RowCost(scope, t, l, rows[i]).value]
  {
    hide RowCost;
    PrefixStep(rows, i);
  }

  lemma RowNamesStep(scope: Scope, t: Tables, l: Lookups, rows: seq<Row>, i: nat)
    requires i < |rows|
    ensures RowNames(scope, t, l, rows[..i + 1]) == RowNames(scope, t, l, rows[..i]) + RowMissing(scope, t, l, rows[i])
  {
    hide RowMissing;
    PrefixStep(rows, i);
  }

  method ShoppingCosts(scope: Scope, t: Tables, l: Lookups, known: set<Utf16>)
    returns (expectedShopping: Amount, missing: set<Utf16>)
    ensures expectedShopping == Total(RowCostsOf(scope, t, l, t.ingredientRows))
    ensures missing == known + RowNames(scope, t, l, t.ingredientRows)
  {
    expectedShopping, missing := ZERO_FRACTION, known;
    for i := 0 to |t.ingredientRows|
      invariant expectedShopping == Total(RowCostsOf(scope, t, l, t.ingredientRows[..i]))
      invariant missing == known + RowNames(scope, t, l, t.ingredientRows[..i])
    {
      hide Total, RowOutcomeOf, RowCostsOf, RowNames;
      var row := t.ingredientRows[i];
      RowCostsStep(scope, t, l, t.ingredientRows, i);
      RowNamesStep(scope, t, l, t.ingredientRows, i);
      var outcome := PriceListedRow(scope, t, l, row);
      match outcome {
        case Outside =>
        case RowCosts(cost) =>
          TotalStep(RowCostsOf(scope, t, l, t.ingredientRows[..i]), cost);
          expectedShopping := Add(expectedShopping, cost);
        case RowUnpriced(name) => missing := missing + {name};
      }
    }
    assert t.ingredientRows[..|t.ingredientRows|] == t.ingredientRows;
  }

  method ReadEventCosts(scope: Scope, t: Tables) returns (costs: Option<Projection>)
    ensures costs == CostsOf(scope, t)
  {
    hide Money, EventOf, LookupsOf, Total, ItemTotals, RowCostsOf, ItemNames, RowNames, ScheduledMap, Remaining,
      ReceiptAmounts;
    match EventOf(scope, t) {
      case None => return None;
      case Some((currency, budget)) =>
        var l := LookupsOf(scope, t, currency);
        var total, scheduled, named := ScheduleCosts(scope, t, l);
        var expectedShopping, missing := ShoppingCosts(scope, t, l, named);
        var actual := Total(ReceiptAmounts(scope, currency, t.receipts));
        return Some(Projection(currency, Money(total), Money(budget), Money(expectedShopping), Money(actual),
          Money(Remaining(budget, actual)), missing, scheduled));
    }
  }
}
