/** What each record contributes to the cost projection, written out from its fields and in value. */
module CostRules {
  import opened Text
  import opened Digits
  import opened Wrappers
  import opened Replica
  import opened Lists
  import opened Fractions
  import opened EventCosts
  import opened CostAllocation
  import opened Shapes

  // ---------- Decimals ----------

  // Up to 38 digits, some of them after a point.
  ghost predicate DecimalDigits(s: Utf16, whole: Utf16, fraction: Utf16) {
    && whole != [] && OnlyDigits(whole) && OnlyDigits(fraction) && |whole| + |fraction| <= 38
    && s == if fraction == [] then whole else whole + AsciiText(".") + fraction
  }

  // A one and this many zeros.
  ghost function OneAndZeros(n: nat): (s: Utf16)
    ensures AllDigits(s)
  {
    AsciiText("1") + seq(n, _ => Ascii('0'))
  }

  lemma {:induction false} PowersAre(n: nat)
    ensures ReadNat(OneAndZeros(n)) == PowerOfTen(n)
  {
    var s := OneAndZeros(n);
    if n == 0 {
      assert s[..0] == [] && |s| == 1;
    } else {
      PowersAre(n - 1);
      assert s[..|s| - 1] == OneAndZeros(n - 1);
    }
  }

  // The number the digits write, over a one and a zero for each digit after the point.
  ghost predicate DecimalValue(whole: Utf16, fraction: Utf16, f: Amount)
    requires OnlyDigits(whole) && OnlyDigits(fraction)
  {
    && AllDigits(whole + fraction)
    && f.numerator == ReadNat(whole + fraction) && f.denominator == ReadNat(OneAndZeros(|fraction|))
  }

  lemma DigitsParse(s: Utf16, whole: Utf16, fraction: Utf16, f: Amount)
    requires DecimalDigits(s, whole, fraction) && DecimalValue(whole, fraction, f)
    ensures ParseDecimal(Str(s)) == Some(f)
  {
    PowersAre(|fraction|);
    if fraction == [] {
      DigitRunIs(whole, []);
      assert whole + [] == whole && s[..|whole|] == whole && PowerOfTen(0) == 1;
    } else {
      var rest := AsciiText(".") + fraction;
      assert s == whole + rest && rest[0] == 0x2E;
      DigitRunIs(whole, rest);
      assert s[|whole|] == 0x2E && s[|whole| + 1..] == fraction && s[..|whole|] == whole;
    }
  }

  lemma DecimalIs(v: Value, f: Amount)
    ensures ParseDecimal(v) == Some(f) <==>
      v.Str? && exists whole, fraction :: DecimalDigits(v.s, whole, fraction) && DecimalValue(whole, fraction, f)
  {
    if v.Str? {
      PowersAre(0);
      if ParseDecimal(v) == Some(f) {
        var n := DigitRun(v.s);
        if n < |v.s| { PowersAre(|v.s| - n - 1); }
        if n == |v.s| {
          assert v.s[..n] == v.s && v.s + [] == v.s && PowerOfTen(0) == 1;
          assert DecimalDigits(v.s, v.s, []) && DecimalValue(v.s, [], f);
        } else {
          var fraction := v.s[n + 1..];
          assert v.s == v.s[..n] + AsciiText(".") + fraction;
          assert DecimalDigits(v.s, v.s[..n], fraction) && DecimalValue(v.s[..n], fraction, f);
        }
      }
      if whole, fraction :| DecimalDigits(v.s, whole, fraction) && DecimalValue(whole, fraction, f) {
        DigitsParse(v.s, whole, fraction, f);
      }
    }
  }

  // ---------- Lines of a recipe ----------

  // The ingredient of the line is known and priced for this event: its unit and the priced unit are known
  // and of one dimension, and the price is available, in the event's currency, of a positive quantity.
  ghost predicate LinePrice(l: Lookups, line: ResolvedLine, p: Pricing) {
    exists ingredient, s, unitId ::
      && Lookup(l.ingredientVersions, line.ingredientVersionId) == Some(ingredient)
      && Lookup(l.prices, ingredient.ingredientId) == Some(s)
      && Lookup(l.units, ingredient.unitId) == Some(p.source)
      && Get(s, "priced_unit_id") == Str(unitId) && IsUuid(unitId) && Lookup(l.units, unitId) == Some(p.target)
      && p.source.dimension == p.target.dimension
      && Get(s, "state") == Str(AsciiText("available")) && Get(s, "currency") == Str(l.currency)
      && ParseDecimal(Get(s, "price_amount")) == Some(p.amount)
      && ParseDecimal(Get(s, "priced_quantity")) == Some(p.pricedQuantity) && p.pricedQuantity.numerator > 0
  }

  // The name of the ingredient, or the id of its version when that is unknown.
  ghost function NameOf(l: Lookups, versionId: Utf16): Utf16 {
    if versionId in l.ingredientVersions then l.ingredientVersions[versionId].name else versionId
  }

  lemma CostedQuantity(quantity: Amount, p: Pricing)
    requires Price(quantity, p.source, p.target, p.amount, p.pricedQuantity).Some?
    ensures p.pricedQuantity.numerator > 0
  {
  }

  lemma PriceOfCosted(l: Lookups, line: ResolvedLine) returns (p: Pricing)
    requires LineCost(l, line).Some?
    ensures LinePrice(l, line, p)
  {
    hide ParseDecimal, IsUuid;
    var ingredient := l.ingredientVersions[line.ingredientVersionId];
    var s := l.prices[ingredient.ingredientId];
    var unitId := FieldId(s, "priced_unit_id").value;
    p := Pricing(l.units[ingredient.unitId], l.units[unitId], ParseDecimal(Get(s, "price_amount")).value,
      ParseDecimal(Get(s, "priced_quantity")).value);
    assert Lookup(l.ingredientVersions, line.ingredientVersionId) == Some(ingredient);
    assert p.pricedQuantity.numerator > 0 by { CostedQuantity(line.quantity, p); }
  }

  /** A line of no quantity costs nothing and is not missing. Any other costs its quantity times the unit
      price of its ingredient exactly when that is priced, and otherwise its ingredient is missing by name. */
  lemma LineCostIs(l: Lookups, line: ResolvedLine)
    ensures line.quantity.numerator == 0 ==> LineCost(l, line).None? && LineMissing(l, line).None?
    ensures line.quantity.numerator > 0 ==>
      && (LineCost(l, line).Some? <==> exists p :: LinePrice(l, line, p))
      && LineMissing(l, line) ==
         if LineCost(l, line).Some? then None else Some(NameOf(l, line.ingredientVersionId))
    ensures forall p :: line.quantity.numerator > 0 && LinePrice(l, line, p) ==>
      && p.pricedQuantity.numerator > 0 && LineCost(l, line).Some?
      && ValueOf(LineCost(l, line).value) == ValueOf(line.quantity) * UnitPrice(p)
  {
    hide ParseDecimal, IsUuid, ValueOf, UnitPrice, Price;
    if line.quantity.numerator > 0 {
      if LineCost(l, line).Some? {
        var p := PriceOfCosted(l, line);
        assert LinePrice(l, line, p);
      }
      forall p | LinePrice(l, line, p)
        ensures p.pricedQuantity.numerator > 0 && LineCost(l, line).Some?
        ensures ValueOf(LineCost(l, line).value) == ValueOf(line.quantity) * UnitPrice(p)
      {
        PriceValue(line.quantity, p);
      }
    }
  }

  // ---------- The records that are found by id ----------

  ghost predicate SilentAfter<K(!new), V(!new)>(rows: seq<Row>, says: (Row, K, V) -> bool, k: K, i: nat) {
    forall j, v :: i < j < |rows| ==> !says(rows[j], k, v)
  }

  // The last row to say that `k` is `v`, no later one saying anything about `k`.
  ghost predicate LastSays<K(!new), V(!new)>(rows: seq<Row>, says: (Row, K, V) -> bool, k: K, v: V) {
    exists i :: 0 <= i < |rows| && says(rows[i], k, v) && SilentAfter(rows, says, k, i)
  }

  lemma SaysSnoc<K(!new), V(!new)>(f: Row -> Option<(K, V)>, says: (Row, K, V) -> bool, rows: seq<Row>, k: K, v: V)
    requires rows != [] && forall r, k, v :: says(r, k, v) <==> f(r) == Some((k, v))
    ensures var earlier, last := rows[..|rows| - 1], rows[|rows| - 1];
      LastSays(rows, says, k, v) <==>
        if f(last).Some? && f(last).value.0 == k then f(last).value.1 == v else LastSays(earlier, says, k, v)
  {
    var earlier, last := rows[..|rows| - 1], rows[|rows| - 1];
    var n := |earlier|;
    assert SilentAfter(rows, says, k, n);
    if f(last).Some? && f(last).value.0 == k {
      assert says(rows[n], k, f(last).value.1);
    } else {
      forall i | 0 <= i < n
        ensures SilentAfter(rows, says, k, i) <==> SilentAfter(earlier, says, k, i)
      {
        assert forall j :: 0 <= j < n ==> earlier[j] == rows[j];
      }
      if i :| 0 <= i < n && says(earlier[i], k, v) && SilentAfter(earlier, says, k, i) {
        assert says(rows[i], k, v) && SilentAfter(rows, says, k, i);
      }
      if i :| 0 <= i < |rows| && says(rows[i], k, v) && SilentAfter(rows, says, k, i) {
        assert i < n && says(earlier[i], k, v) && SilentAfter(earlier, says, k, i);
      }
    }
  }

  lemma {:induction false} TableSays<K(!new), V(!new)>(f: Row -> Option<(K, V)>, says: (Row, K, V) -> bool,
        rows: seq<Row>,
        k: K, v: V)
    requires forall r, k, v :: says(r, k, v) <==> f(r) == Some((k, v))
    ensures Lookup(ToMap(Collect(f, rows)), k) == Some(v) <==> LastSays(rows, says, k, v)
  {
    if rows != [] {
      var earlier, last := rows[..|rows| - 1], rows[|rows| - 1];
      TableSays(f, says, earlier, k, v);
      if f(last).Some? {
        assert Collect(f, rows) == Collect(f, earlier) + [f(last).value];
        assert says(last, f(last).value.0, f(last).value.1);
      }
      SaysSnoc(f, says, rows, k, v);
    }
  }

  // The field holds this UUID.
  ghost predicate Id(r: Row, key: string, id: Utf16) {
    Get(r, key) == Str(id) && IsUuid(id)
  }

  ghost predicate HasId(r: Row, key: string) {
    exists id :: Id(r, key, id)
  }

  lemma IdIs(r: Row, key: string)
    ensures forall id :: FieldId(r, key) == Some(id) <==> Id(r, key, id)
    ensures FieldId(r, key).Some? <==> HasId(r, key)
  {
    hide IsUuid;
    if FieldId(r, key).Some? { assert Id(r, key, FieldId(r, key).value); }
  }

  // A record of the organization under its own id, and one of the event.
  ghost predicate Identified(scope: Scope, r: Row) {
    Id(r, "id", r.entityId) && Get(r, "organization_id") == Str(scope.organizationId)
  }

  ghost predicate EventRow(scope: Scope, r: Row) {
    Identified(scope, r) && Id(r, "event_id", scope.eventId)
  }

  ghost predicate ActiveRow(scope: Scope, r: Row) {
    EventRow(scope, r) && r.lifecycle == Active
  }

  lemma EventRowIs(scope: Scope, r: Row)
    ensures ValidIdentity(scope, r) <==> Identified(scope, r)
    ensures OfEvent(scope, r) <==> EventRow(scope, r)
    ensures ActiveOfEvent(scope, r) <==> ActiveRow(scope, r)
  {
    hide IsUuid;
    IdIs(r, "event_id");
  }

  // A unit of the organization or of everyone.
  ghost predicate UnitSays(scope: Scope, r: Row, id: Utf16, info: UnitInfo) {
    && r.entityId == id && Id(r, "id", id)
    && (Get(r, "organization_id") == Null || Get(r, "organization_id") == Str(scope.organizationId))
    && Get(r, "dimension").Str? && scope.trim(Get(r, "dimension").s) == info.dimension
    && info.dimension in {AsciiText("mass"), AsciiText("volume"), AsciiText("count"), AsciiText("custom")}
    && ParseDecimal(Get(r, "base_unit_factor")) == Some(info.factor) && info.factor.numerator > 0
  }

  lemma Lengths()
    ensures AsciiText("mass") != [] && AsciiText("volume") != []
    ensures AsciiText("count") != [] && AsciiText("custom") != []
  {
    assert |AsciiText("mass")| == 4 && |AsciiText("volume")| == 6;
    assert |AsciiText("count")| == 5 && |AsciiText("custom")| == 6;
  }

  lemma UnitSaysIs(scope: Scope, r: Row, id: Utf16, info: UnitInfo)
    ensures UnitEntry(scope, r) == Some((id, info)) <==> UnitSays(scope, r, id, info)
  {
    hide IsUuid, ParseDecimal;
    assert AsciiText("mass")[0] == 0x6D;
    Lengths();
  }

  // A version of a listed ingredient, with a unit and a name.
  ghost predicate VersionSays(scope: Scope, ingredients: set<Utf16>, r: Row, id: Utf16, info: IngredientInfo) {
    && r.entityId == id && Identified(scope, r)
    && Id(r, "ingredient_id", info.ingredientId) && info.ingredientId in ingredients
    && Id(r, "canonical_unit_id", info.unitId)
    && Get(r, "name").Str? && scope.trim(Get(r, "name").s) == info.name && info.name != []
  }

  lemma VersionSaysIs(scope: Scope, ingredients: set<Utf16>, r: Row, id: Utf16, info: IngredientInfo)
    ensures VersionEntry(scope, ingredients, r) == Some((id, info)) <==> VersionSays(scope, ingredients, r, id, info)
  {
    EventRowIs(scope, r);
    hide IsUuid, ValidIdentity, Identified;
  }

  // An identified price snapshot of the event.
  ghost predicate SnapshotSays(scope: Scope, r: Row, id: Utf16, s: Row) {
    EventRow(scope, r) && r.entityId == id && s == r
  }

  // The snapshot is an available price of the ingredient in the currency, and belongs to the price.
  ghost predicate AvailableFor(scope: Scope, currency: Utf16, priceId: Utf16, ingredientId: Utf16, s: Row) {
    && EventRow(scope, s) && Id(s, "ingredient_id", ingredientId) && Id(s, "event_ingredient_price_id", priceId)
    && Get(s, "state") == Str(AsciiText("available")) && Get(s, "currency") == Str(currency)
    && ParseDecimal(Get(s, "price_amount")).Some? && HasId(s, "priced_unit_id")
    && ParseDecimal(Get(s, "priced_quantity")).Some? && ParseDecimal(Get(s, "priced_quantity")).value.numerator > 0
  }

  ghost predicate SnapshotFound(scope: Scope, rows: seq<Row>, id: Utf16, s: Row) {
    LastSays(rows, (r, k, v) => SnapshotSays(scope, r, k, v), id, s)
  }

  ghost predicate PriceSays(scope: Scope, t: Tables, currency: Utf16, r: Row, ingredientId: Utf16, s: Row) {
    && EventRow(scope, r) && Id(r, "ingredient_id", ingredientId)
    && AvailableFor(scope, currency, r.entityId, ingredientId, s)
    && exists id :: Id(r, "current_snapshot_id", id) && SnapshotFound(scope, t.priceSnapshots, id, s)
  }

  // An active record of the event that names these others.
  ghost predicate NamesAll(scope: Scope, keys: set<string>, r: Row, id: Utf16, s: Row) {
    ActiveRow(scope, r) && r.entityId == id && s == r && forall key :: key in keys ==> HasId(r, key)
  }

  ghost predicate NamingFound(scope: Scope, keys: set<string>, rows: seq<Row>, id: Utf16, s: Row) {
    LastSays(rows, (r, k, v) => NamesAll(scope, keys, r, k, v), id, s)
  }

  // A list whose current revision is an active revision of that list.
  ghost predicate ListSays(scope: Scope, t: Tables, r: Row, listId: Utf16, revisionId: Utf16) {
    && ActiveRow(scope, r) && r.entityId == listId
    && exists id, revision ::
         && Id(r, "current_generation_revision_id", id)
         && NamingFound(scope, {"shopping_list_id"}, t.revisions, id, revision)
         && Id(revision, "shopping_list_id", listId) && revisionId == revision.entityId
  }

  /** The lookup tables hold, under each id, what the last record to say something about it says. */
  lemma UnitsAre(scope: Scope, t: Tables, currency: Utf16, id: Utf16, info: UnitInfo)
    ensures Lookup(LookupsOf(scope, t, currency).units, id) == Some(info) <==>
      LastSays(t.units, (r, k, v) => UnitSays(scope, r, k, v), id, info)
  {
    hide UnitEntry, UnitSays;
    forall r, k, v
      ensures UnitSays(scope, r, k, v) <==> UnitEntry(scope, r) == Some((k, v))
    {
      UnitSaysIs(scope, r, k, v);
    }
    TableSays(r => UnitEntry(scope, r), (r, k, v) => UnitSays(scope, r, k, v), t.units, id, info);
  }

  lemma VersionsAre(scope: Scope, t: Tables, currency: Utf16, id: Utf16, info: IngredientInfo)
    ensures var l := LookupsOf(scope, t, currency);
      Lookup(l.ingredientVersions, id) == Some(info) <==>
      LastSays(t.ingredientVersions, (r, k, v) => VersionSays(scope, l.ingredients, r, k, v), id, info)
  {
    hide VersionEntry, VersionSays;
    var ingredients := LookupsOf(scope, t, currency).ingredients;
    forall r, k, v
      ensures VersionSays(scope, ingredients, r, k, v) <==> VersionEntry(scope, ingredients, r) == Some((k, v))
    {
      VersionSaysIs(scope, ingredients, r, k, v);
    }
    TableSays(r => VersionEntry(scope, ingredients, r), (r, k, v) => VersionSays(scope, ingredients, r, k, v),
      t.ingredientVersions, id, info);
  }

  lemma {:induction false} CollectHolds<T, U>(f: T -> Option<U>, xs: seq<T>, u: U)
    ensures u in Collect(f, xs) <==> exists x :: x in xs && f(x) == Some(u)
  {
    if xs != [] {
      var earlier, last := xs[..|xs| - 1], xs[|xs| - 1];
      CollectHolds(f, earlier, u);
      assert xs == earlier + [last];
    }
  }

  lemma IngredientsAre(scope: Scope, t: Tables, currency: Utf16, id: Utf16)
    ensures id in LookupsOf(scope, t, currency).ingredients <==>
      exists r :: r in t.ingredients && r.lifecycle == Active && Identified(scope, r) && r.entityId == id
  {
    hide ValidIdentity, Identified;
    var ids := Collect(r => IngredientId(scope, r), t.ingredients);
    CollectHolds(r => IngredientId(scope, r), t.ingredients, id);
    assert id in LookupsOf(scope, t, currency).ingredients <==> id in ids;
    forall r: Row
      ensures IngredientId(scope, r) == Some(id) <==> r.lifecycle == Active && Identified(scope, r) && r.entityId == id
    {
      EventRowIs(scope, r);
    }
  }

  lemma ImmutableVersionsAre(scope: Scope, t: Tables, currency: Utf16, id: Utf16)
    ensures id in LookupsOf(scope, t, currency).immutableVersions <==>
      exists r :: r in t.ingredientVersions && r.immutable && r.entityId == id
  {
    CollectHolds(ImmutableId, t.ingredientVersions, id);
    assert id in LookupsOf(scope, t, currency).immutableVersions <==> id in Collect(ImmutableId, t.ingredientVersions);
  }

  // A table of rows by id, kept by a test.
  lemma RowsById(keep: Row -> bool, says: (Row, Utf16, Row) -> bool, rows: seq<Row>, id: Utf16, s: Row)
    requires forall r, k, v :: says(r, k, v) <==> keep(r) && r.entityId == k && v == r
    ensures Lookup(ById(keep, rows), id) == Some(s) <==> LastSays(rows, says, id, s)
  {
    TableSays(r => KeepEntry(keep, r), says, rows, id, s);
  }

  lemma EventSnapshotsAre(scope: Scope, rows: seq<Row>, id: Utf16, s: Row)
    ensures Lookup(EventSnapshots(scope, rows), id) == Some(s) <==> SnapshotFound(scope, rows, id, s)
  {
    hide OfEvent, EventRow;
    forall r
      ensures OfEvent(scope, r) <==> EventRow(scope, r)
    {
      EventRowIs(scope, r);
    }
    RowsById(r => OfEvent(scope, r), (r, k, v) => SnapshotSays(scope, r, k, v), rows, id, s);
  }

  lemma AvailableIs(scope: Scope, currency: Utf16, priceId: Utf16, ingredientId: Utf16, s: Row)
    requires IsUuid(ingredientId)
    ensures IsUuid(priceId) ==>
      (ValidPriceSnapshot(scope, currency, priceId, ingredientId, s) <==>
       AvailableFor(scope, currency, priceId, ingredientId, s))
  {
    EventRowIs(scope, s);
    IdIs(s, "ingredient_id");
    IdIs(s, "event_ingredient_price_id");
    IdIs(s, "priced_unit_id");
    hide IsUuid, OfEvent, EventRow, ParseDecimal, FieldId;
  }

  lemma PriceSaysIs(scope: Scope, t: Tables, currency: Utf16, r: Row, k: Utf16, s: Row)
    ensures PriceEntry(scope, currency, EventSnapshots(scope, t.priceSnapshots), r) == Some((k, s)) <==>
      PriceSays(scope, t, currency, r, k, s)
  {
    var snapshots := EventSnapshots(scope, t.priceSnapshots);
    EventRowIs(scope, r);
    IdIs(r, "ingredient_id");
    IdIs(r, "current_snapshot_id");
    assert forall id :: Id(r, "ingredient_id", id) ==> IsUuid(id);
    assert Identified(scope, r) ==> IsUuid(r.entityId);
    forall id
      ensures Lookup(snapshots, id) == Some(s) <==> SnapshotFound(scope, t.priceSnapshots, id, s)
    {
      EventSnapshotsAre(scope, t.priceSnapshots, id, s);
    }
    if IsUuid(k) { AvailableIs(scope, currency, r.entityId, k, s); }
    hide IsUuid, OfEvent, FieldId, EventSnapshots, SnapshotFound, ValidPriceSnapshot, AvailableFor, Id, Identified,
      HasId;
  }

  lemma PricesAre(scope: Scope, t: Tables, currency: Utf16, id: Utf16, s: Row)
    ensures Lookup(LookupsOf(scope, t, currency).prices, id) == Some(s) <==>
      LastSays(t.prices, (r, k, v) => PriceSays(scope, t, currency, r, k, v), id, s)
  {
    hide PriceEntry, PriceSays, EventSnapshots;
    var snapshots := EventSnapshots(scope, t.priceSnapshots);
    forall r, k, v
      ensures PriceSays(scope, t, currency, r, k, v) <==> PriceEntry(scope, currency, snapshots, r) == Some((k, v))
    {
      PriceSaysIs(scope, t, currency, r, k, v);
    }
    TableSays(r => PriceEntry(scope, currency, snapshots, r), (r, k, v) => PriceSays(scope, t, currency, r, k, v),
      t.prices, id, s);
  }

  lemma NamingIs(scope: Scope, keys: set<string>, keep: Row -> bool, rows: seq<Row>, id: Utf16, s: Row)
    requires forall r :: keep(r) <==> ActiveRow(scope, r) && forall key :: key in keys ==> HasId(r, key)
    ensures Lookup(ById(keep, rows), id) == Some(s) <==> NamingFound(scope, keys, rows, id, s)
  {
    hide ActiveRow, HasId;
    RowsById(keep, (r, k, v) => NamesAll(scope, keys, r, k, v), rows, id, s);
  }

  lemma EventPricesAre(scope: Scope, t: Tables, currency: Utf16, id: Utf16, s: Row)
    ensures var l := LookupsOf(scope, t, currency);
      && (Lookup(l.eventPrices, id) == Some(s) <==> NamingFound(scope, {"ingredient_id"}, t.prices, id, s))
      && (Lookup(l.eventPriceSnapshots, id) == Some(s) <==>
          NamingFound(scope, {"ingredient_id"}, t.priceSnapshots, id, s))
  {
    forall r
      ensures PricedForEvent(scope)(r) <==>
        ActiveRow(scope, r) && forall key :: key in {"ingredient_id"} ==> HasId(r, key)
    {
      EventRowIs(scope, r);
      IdIs(r, "ingredient_id");
    }
    hide ActiveRow, HasId, NamingFound, ActiveOfEvent, FieldId;
    NamingIs(scope, {"ingredient_id"}, PricedForEvent(scope), t.prices, id, s);
    NamingIs(scope, {"ingredient_id"}, PricedForEvent(scope), t.priceSnapshots, id, s);
  }

  lemma ContributionsAre(scope: Scope, t: Tables, currency: Utf16, id: Utf16, s: Row)
    ensures Lookup(LookupsOf(scope, t, currency).contributions, id) == Some(s) <==>
      NamingFound(scope, {"shopping_list_id", "shopping_ingredient_row_id", "ingredient_id"}, t.contributions, id, s)
  {
    var keys := {"shopping_list_id", "shopping_ingredient_row_id", "ingredient_id"};
    forall r
      ensures ContributesTo(scope)(r) <==> ActiveRow(scope, r) && forall key :: key in keys ==> HasId(r, key)
    {
      EventRowIs(scope, r);
      IdIs(r, "shopping_list_id");
      IdIs(r, "shopping_ingredient_row_id");
      IdIs(r, "ingredient_id");
    }
    hide ActiveRow, HasId, NamingFound, ActiveOfEvent, FieldId;
    NamingIs(scope, keys, ContributesTo(scope), t.contributions, id, s);
  }

  lemma RevisionFoundIs(scope: Scope, t: Tables, id: Utf16, s: Row)
    ensures Lookup(ById(OnEventList(scope), t.revisions), id) == Some(s) <==>
      NamingFound(scope, {"shopping_list_id"}, t.revisions, id, s)
  {
    forall r
      ensures OnEventList(scope)(r) <==>
        ActiveRow(scope, r) && forall key :: key in {"shopping_list_id"} ==> HasId(r, key)
    {
      EventRowIs(scope, r);
      IdIs(r, "shopping_list_id");
    }
    hide ActiveRow, HasId, NamingFound, ActiveOfEvent, FieldId;
    NamingIs(scope, {"shopping_list_id"}, OnEventList(scope), t.revisions, id, s);
  }

  lemma ListSaysIs(scope: Scope, t: Tables, r: Row, listId: Utf16, revisionId: Utf16)
    ensures CurrentRevisionEntry(scope, ById(OnEventList(scope), t.revisions), r) == Some((listId, revisionId)) <==>
      ListSays(scope, t, r, listId, revisionId)
  {
    var revisions := ById(OnEventList(scope), t.revisions);
    EventRowIs(scope, r);
    IdIs(r, "current_generation_revision_id");
    forall id, s
      ensures Lookup(revisions, id) == Some(s) <==> NamingFound(scope, {"shopping_list_id"}, t.revisions, id, s)
      ensures forall listId :: FieldId(s, "shopping_list_id") == Some(listId) <==> Id(s, "shopping_list_id", listId)
    {
      RevisionFoundIs(scope, t, id, s);
      IdIs(s, "shopping_list_id");
    }
    hide ActiveRow, NamingFound, ActiveOfEvent, FieldId, ById, OnEventList, Id;
    if CurrentRevisionEntry(scope, revisions, r) == Some((listId, revisionId)) {
      var id := FieldId(r, "current_generation_revision_id").value;
      assert Lookup(revisions, id) == Some(revisions[id]);
      assert Id(r, "current_generation_revision_id", id);
    }
  }

  lemma CurrentRevisionsAre(scope: Scope, t: Tables, currency: Utf16, id: Utf16, revisionId: Utf16)
    ensures Lookup(LookupsOf(scope, t, currency).currentRevisions, id) == Some(revisionId) <==>
      LastSays(t.shoppingLists, (r, k, v) => ListSays(scope, t, r, k, v), id, revisionId)
  {
    hide CurrentRevisionEntry, ListSays, ById;
    var revisions := ById(OnEventList(scope), t.revisions);
    forall r, k, v
      ensures ListSays(scope, t, r, k, v) <==> CurrentRevisionEntry(scope, revisions, r) == Some((k, v))
    {
      ListSaysIs(scope, t, r, k, v);
    }
    TableSays(r => CurrentRevisionEntry(scope, revisions, r), (r, k, v) => ListSays(scope, t, r, k, v), t.shoppingLists,
      id, revisionId);
  }

  lemma RecipeVersionsAre(scope: Scope, t: Tables, currency: Utf16, id: Utf16, version: Row)
    ensures Lookup(LookupsOf(scope, t, currency).versions, id) == Some(version) <==>
      LastSays(t.recipeVersions, (r: Row, k: Utf16, v: Row) => r.entityId == k && v == r, id, version)
  {
    RowsById(r => true, (r: Row, k: Utf16, v: Row) => r.entityId == k && v == r, t.recipeVersions, id, version);
  }

  // ---------- Scheduled recipes ----------

  // An active override of the scheduled recipe, of this kind.
  ghost predicate Overrides(scope: Scope, item: Row, o: Row, kind: string)
    requires forall i :: 0 <= i < |kind| ==> kind[i] < '\U{0080}'
  {
    && o.lifecycle == Active && Id(o, "event_id", scope.eventId) && Id(o, "scheduled_recipe_id", item.entityId)
    && Get(o, "override_kind") == Str(AsciiText(kind))
  }

  /** An addition is a line of its own, in the quantity written. */
  lemma AdditionIs(scope: Scope, item: Row, o: Row, line: ResolvedLine)
    ensures ResolveAddition(scope, item, o) == Some(line) <==>
      && Overrides(scope, item, o, "add")
      && ParseDecimal(Get(o, "quantity")) == Some(line.quantity)
      && Id(o, "ingredient_version_id", line.ingredientVersionId)
  {
    IdIs(o, "event_id");
    IdIs(o, "scheduled_recipe_id");
    IdIs(o, "ingredient_version_id");
    hide IsUuid, FieldId, ParseDecimal, Id;
  }

  /** The replacement of a line is the last one that targets its key. */
  lemma ReplacementsAre(scope: Scope, item: Row, overrides: seq<Row>, key: Option<Utf16>, o: Row)
    ensures Lookup(ToMap(Replacements(scope, item, overrides)), key) == Some(o) <==>
      LastSays(overrides, (r: Row, k: Option<Utf16>, v: Row) =>
        Overrides(scope, item, r, "replace") && TextOf(r, "target_line_key") == k && v == r, key, o)
  {
    forall r: Row, k: Option<Utf16>, v: Row
      ensures Overrides(scope, item, r, "replace") && TextOf(r, "target_line_key") == k && v == r <==>
        ReplacementEntry(scope, item, r) == Some((k, v))
    {
      IdIs(r, "event_id");
      IdIs(r, "scheduled_recipe_id");
      hide IsUuid, FieldId, Id;
    }
    hide Overrides, ReplacementEntry;
    TableSays(r => ReplacementEntry(scope, item, r), (r: Row, k: Option<Utf16>, v: Row) =>
      Overrides(scope, item, r, "replace") && TextOf(r, "target_line_key") == k && v == r, overrides, key, o);
  }

  // The recipe counts: an active one of the event, its version known, both amounts written and the base
  // one positive, and a whole number of diners.
  ghost predicate Counts(scope: Scope, l: Lookups, item: Row, version: Row, selected: Amount, base: Amount,
        diners: int)
  {
    && item.lifecycle == Active && Id(item, "event_id", scope.eventId)
    && (exists id ::
          && (Id(item, "recipe_version_id", id) || (!HasId(item, "recipe_version_id") && id == []))
          && Lookup(l.versions, id) == Some(version))
    && ParseDecimal(Get(item, "selected_scale_amount")) == Some(selected)
    && ParseDecimal(Get(version, "base_scaling_amount")) == Some(base) && base.numerator > 0
    && Get(item, "diner_count") == Whole(diners)
  }

  // What a line costs in value: nothing unless it is priced.
  ghost function LineValue(l: Lookups, line: ResolvedLine): real {
    if line.quantity.numerator > 0 && exists p :: LinePrice(l, line, p) then
      var p :| LinePrice(l, line, p);
      ValueOf(line.quantity) * UnitPrice(p)
    else 0.0
  }

  ghost function LinesValue(l: Lookups, lines: seq<ResolvedLine>): real {
    if lines == [] then 0.0 else LinesValue(l, lines[..|lines| - 1]) + LineValue(l, lines[|lines| - 1])
  }

  // The names of the lines of some quantity that are not priced.
  ghost predicate NamedMissing(l: Lookups, lines: seq<ResolvedLine>, name: Utf16) {
    exists line :: line in lines && line.quantity.numerator > 0 && (forall p :: !LinePrice(l, line, p))
                   && name == NameOf(l, line.ingredientVersionId)
  }

  lemma {:induction false} LinesValueIs(l: Lookups, lines: seq<ResolvedLine>)
    ensures ValueOf(Total(LineCosts(l, lines))) == LinesValue(l, lines)
  {
    hide LinePrice, LineOutcomeOf, UnitPrice, ValueOf, Total;
    if lines == [] {
      EmptyTotal();
    } else {
      var earlier, last := lines[..|lines| - 1], lines[|lines| - 1];
      LinesValueIs(l, earlier);
      LineCostIs(l, last);
      if LineCost(l, last).Some? { TotalValue(LineCosts(l, earlier), LineCost(l, last).value); }
    }
  }

  lemma {:induction false} LineNamesAre(l: Lookups, lines: seq<ResolvedLine>, name: Utf16)
    ensures name in LineNames(l, lines) <==> NamedMissing(l, lines, name)
  {
    hide LinePrice, LineOutcomeOf, LineMissing, LineCost;
    CollectHolds(line => LineMissing(l, line), lines, name);
    forall line: ResolvedLine
      ensures LineMissing(l, line) == Some(name) <==>
        && line.quantity.numerator > 0 && (forall p :: !LinePrice(l, line, p))
        && name == NameOf(l, line.ingredientVersionId)
    {
      LineCostIs(l, line);
    }
  }
}
