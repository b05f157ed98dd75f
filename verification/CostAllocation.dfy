/** What the shopping forecast and the recipe totals conserve. */
module CostAllocation {
  import opened Text
  import opened Wrappers
  import opened Replica
  import opened Lists
  import opened Fractions
  import opened EventCosts

  function SharesOf(quantity: Amount, generated: Amount, snapshots: seq<Row>): seq<Amount> {
    Collect(s => ShareOf(quantity, generated, s), snapshots)
  }

  function QuantitiesOf(snapshots: seq<Row>): seq<Amount> {
    Collect(s => GeneratedQuantity(s), snapshots)
  }

  ghost predicate AllGenerated(snapshots: seq<Row>) {
    forall i :: 0 <= i < |snapshots| ==> GeneratedQuantity(snapshots[i]).Some?
  }

  lemma ShareValue(quantity: Amount, part: Amount, generated: Amount)
    requires generated.numerator > 0
    ensures Allocated(quantity, part, generated).Some? && ValueOf(generated) > 0.0
    ensures ValueOf(Allocated(quantity, part, generated).value)
      == ValueOf(quantity) * ValueOf(part) / ValueOf(generated)
  {
  }

  lemma TotalValue(amounts: seq<Amount>, x: Amount)
    ensures ValueOf(Total(amounts + [x])) == ValueOf(Total(amounts)) + ValueOf(x)
  {
    TotalStep(amounts, x);
    AddValue(Total(amounts), x);
  }

  lemma DistributeQuotient(q: real, a: real, b: real, g: real)
    requires g > 0.0
    ensures q * a / g + q * b / g == q * (a + b) / g
  {
  }

  lemma {:induction false} SharesValue(quantity: Amount, generated: Amount, snapshots: seq<Row>)
    requires generated.numerator > 0 && AllGenerated(snapshots)
    ensures |SharesOf(quantity, generated, snapshots)| == |snapshots| && ValueOf(generated) > 0.0
    ensures ValueOf(Total(SharesOf(quantity, generated, snapshots)))
      == ValueOf(quantity) * ValueOf(Total(QuantitiesOf(snapshots))) / ValueOf(generated)
  {
    hide Total, GeneratedQuantity, Allocated, ValueOf;
    if snapshots == [] {
      ShareValue(quantity, ZERO_FRACTION, generated);
      EmptyTotal();
    } else {
      var earlier, s := snapshots[..|snapshots| - 1], snapshots[|snapshots| - 1];
      SharesValue(quantity, generated, earlier);
      var part := GeneratedQuantity(s).value;
      ShareValue(quantity, part, generated);
      TotalValue(SharesOf(quantity, generated, earlier), Allocated(quantity, part, generated).value);
      TotalValue(QuantitiesOf(earlier), part);
      DistributeQuotient(ValueOf(quantity), ValueOf(Total(QuantitiesOf(earlier))), ValueOf(part), ValueOf(generated));
    }
  }

  lemma EmptyTotal()
    ensures ValueOf(Total([])) == 0.0
  {
  }

  /** The shares of a purchase add up to it, whatever the snapshots: nothing is lost to the split. */
  lemma AllocationConserves(quantity: Amount, snapshots: seq<Row>)
    requires AllGenerated(snapshots) && GeneratedTotal(snapshots).numerator > 0
    ensures |SharesOf(quantity, GeneratedTotal(snapshots), snapshots)| == |snapshots|
    ensures ValueOf(Total(SharesOf(quantity, GeneratedTotal(snapshots), snapshots))) == ValueOf(quantity)
  {
    hide Total, ValueOf, GeneratedQuantity, ShareOf;
    var generated := GeneratedTotal(snapshots);
    SharesValue(quantity, generated, snapshots);
    assert ValueOf(quantity) * ValueOf(generated) / ValueOf(generated) == ValueOf(quantity);
  }

  // The snapshots a row is priced from all state what they generated.
  lemma ValidSnapshotsGenerate(scope: Scope, l: Lookups, row: Row, ids: (Utf16, Utf16, Utf16), snapshots: seq<Row>)
    ensures AllGenerated(ValidSnapshots(scope, snapshots, l, row, ids))
  {
    hide OnlyOne;
    var valid := SnapshotsOfRow(scope, snapshots, l, row, ids);
    forall k | 0 <= k < |Singles(valid)|
      ensures GeneratedQuantity(Singles(valid)[k]).Some?
    {
      var i := CollectedFrom(s => OnlyOne(valid, s), valid, k);
      OnlyOneIsItself(valid, valid[i]);
      var j := CollectedFrom(s => SnapshotOfRow(scope, l, row, ids, s), snapshots, i);
    }
  }

  lemma OnlyOneIsItself(valid: seq<Row>, s: Row)
    ensures OnlyOne(valid, s).Some? ==> OnlyOne(valid, s).value == s
  {
  }

  // ---------- Scaling a recipe ----------

  // The quantity and the ingredient a line is resolved with: its replacement's where it has one.
  function WrittenQuantity(replacement: Option<Row>, line: Row): Option<Amount> {
    var replaced := if replacement.Some? then Get(replacement.value, "quantity") else Undefined;
    ParseDecimal(Coalesce(replaced, Get(line, "base_quantity")))
  }

  /** A line is resolved exactly when it is one of the version, and it or its replacement has a readable
      quantity and an ingredient. It then needs that quantity of that ingredient: as it is when the line is
      fixed, otherwise times the selected amount over the amount the recipe is written for. */
  lemma LineScales(versionId: Utf16, replacements: map<Option<Utf16>, Row>, selected: Amount, base: Amount, line: Row)
    requires base.numerator > 0
    ensures Divide(selected, base).Some? && IsAmount(Divide(selected, base).value) && ValueOf(base) > 0.0
    ensures var replacement := Lookup(replacements, TextOf(line, "line_key"));
      var written := WrittenQuantity(replacement, line);
      var ingredient := FieldId(replacement.GetOr(line), "ingredient_version_id");
      var resolved := ResolveLine(versionId, replacements, Divide(selected, base).value, line);
      && (resolved.Some? <==>
          FieldId(line, "recipe_version_id") == Some(versionId) && written.Some? && ingredient.Some?)
      && (resolved.Some? ==>
        && resolved.value.ingredientVersionId == ingredient.value
        && ValueOf(resolved.value.quantity) ==
           if Is(line, "scaling_behavior", "fixed") then ValueOf(written.value)
           else ValueOf(written.value) * (ValueOf(selected) / ValueOf(base)))
  {
    hide ValueOf, ParseDecimal, IsUuid;
    DivideAmounts(selected, base);
    DivideValue(selected, base);
    var written := WrittenQuantity(Lookup(replacements, TextOf(line, "line_key")), line);
    if written.Some? { MultiplyValue(written.value, Divide(selected, base).value); }
  }

  // ---------- A common price ----------

  lemma PositiveValue(f: Amount)
    ensures f.numerator > 0 ==> ValueOf(f) > 0.0
  {
  }

  // The value of one unit of the ingredient at a price.
  ghost function UnitPrice(p: Pricing): real
    requires p.pricedQuantity.numerator > 0
  {
    PositiveValue(p.pricedQuantity);
    PositiveValue(p.target.factor);
    ValueOf(p.amount) * (ValueOf(p.source.factor) / ValueOf(p.target.factor)) / ValueOf(p.pricedQuantity)
  }

  lemma Regroup(q: real, s: real, t: real, a: real, p: real)
    requires t > 0.0 && p > 0.0
    ensures a * (q * s / t) / p == q * (a * (s / t) / p)
  {
    assert q * s / t == q * (s / t);
    assert a * (q * (s / t)) == q * (a * (s / t));
    assert q * (a * (s / t)) / p == q * (a * (s / t) / p);
  }

  lemma UnitPriceTimes(quantity: real, p: Pricing)
    requires p.pricedQuantity.numerator > 0
    ensures ValueOf(p.pricedQuantity) > 0.0 && ValueOf(p.target.factor) > 0.0
    ensures ValueOf(p.amount) * (quantity * ValueOf(p.source.factor) / ValueOf(p.target.factor))
      / ValueOf(p.pricedQuantity) == quantity * UnitPrice(p)
  {
    PositiveValue(p.pricedQuantity);
    PositiveValue(p.target.factor);
    hide ValueOf;
    Regroup(quantity, ValueOf(p.source.factor), ValueOf(p.target.factor), ValueOf(p.amount), ValueOf(p.pricedQuantity));
  }

  lemma PriceValue(quantity: Amount, p: Pricing)
    requires p.pricedQuantity.numerator > 0
    ensures Price(quantity, p.source, p.target, p.amount, p.pricedQuantity).Some?
    ensures ValueOf(Price(quantity, p.source, p.target, p.amount, p.pricedQuantity).value)
      == ValueOf(quantity) * UnitPrice(p)
  {
    hide ValueOf, UnitPrice;
    MultiplyAmounts(quantity, p.source.factor);
    MultiplyValue(quantity, p.source.factor);
    DivideValue(Multiply(quantity, p.source.factor), p.target.factor);
    DivideAmounts(Multiply(quantity, p.source.factor), p.target.factor);
    var converted := Divide(Multiply(quantity, p.source.factor), p.target.factor).value;
    MultiplyAmounts(p.amount, converted);
    MultiplyValue(p.amount, converted);
    DivideValue(Multiply(p.amount, converted), p.pricedQuantity);
    UnitPriceTimes(ValueOf(quantity), p);
  }

  // The snapshot has a price, of a positive quantity.
  ghost predicate Priced(l: Lookups, s: Row) {
    PricingOf(l, s).Some? && PricingOf(l, s).value.pricedQuantity.numerator > 0
  }

  ghost predicate AllPriced(l: Lookups, snapshots: seq<Row>) {
    forall i :: 0 <= i < |snapshots| ==> Priced(l, snapshots[i])
  }

  // What the shares cost, each at the unit price of its snapshot.
  ghost function PricedShares(l: Lookups, quantity: Amount, generated: Amount, snapshots: seq<Row>): real
    requires generated.numerator > 0 && AllGenerated(snapshots) && AllPriced(l, snapshots)
  {
    if snapshots == [] then 0.0
    else
      PositiveValue(generated);
      var s := snapshots[|snapshots| - 1];
      PricedShares(l, quantity, generated, snapshots[..|snapshots| - 1])
      + ValueOf(quantity) * ValueOf(GeneratedQuantity(s).value) / ValueOf(generated) * UnitPrice(PricingOf(l, s).value)
  }

  lemma {:induction false} CostsValue(l: Lookups, quantity: Amount, generated: Amount, snapshots: seq<Row>)
    requires generated.numerator > 0 && AllGenerated(snapshots) && AllPriced(l, snapshots)
    ensures |SnapshotCosts(l, quantity, generated, snapshots)| == |snapshots|
    ensures ValueOf(Total(SnapshotCosts(l, quantity, generated, snapshots)))
      == PricedShares(l, quantity, generated, snapshots)
  {
    hide Total, ValueOf, GeneratedQuantity, Allocated, PricingOf, Price, UnitPrice;
    if snapshots == [] {
      EmptyTotal();
    } else {
      var earlier, s := snapshots[..|snapshots| - 1], snapshots[|snapshots| - 1];
      CostsValue(l, quantity, generated, earlier);
      assert Priced(l, s);
      var p := PricingOf(l, s).value;
      ShareValue(quantity, GeneratedQuantity(s).value, generated);
      var share := ShareOf(quantity, generated, s).value;
      PriceValue(share, p);
      TotalValue(SnapshotCosts(l, quantity, generated, earlier),
        Price(share, p.source, p.target, p.amount, p.pricedQuantity).value);
    }
  }

  lemma {:induction false} SharesAtOnePrice(l: Lookups, quantity: Amount, generated: Amount, snapshots: seq<Row>,
        p: Pricing)
    requires generated.numerator > 0 && p.pricedQuantity.numerator > 0 && AllGenerated(snapshots)
    requires forall i :: 0 <= i < |snapshots| ==> PricingOf(l, snapshots[i]) == Some(p)
    ensures AllPriced(l, snapshots)
    ensures PricedShares(l, quantity, generated, snapshots)
      == ValueOf(Total(SharesOf(quantity, generated, snapshots))) * UnitPrice(p)
  {
    hide Total, ValueOf, GeneratedQuantity, Allocated, PricingOf, UnitPrice;
    if snapshots == [] {
      EmptyTotal();
    } else {
      var earlier, s := snapshots[..|snapshots| - 1], snapshots[|snapshots| - 1];
      SharesAtOnePrice(l, quantity, generated, earlier, p);
      ShareValue(quantity, GeneratedQuantity(s).value, generated);
      var share, before := ShareOf(quantity, generated, s).value, SharesOf(quantity, generated, earlier);
      TotalValue(before, share);
      assert (ValueOf(Total(before)) + ValueOf(share)) * UnitPrice(p)
        == ValueOf(Total(before)) * UnitPrice(p) + ValueOf(share) * UnitPrice(p);
    }
  }

  // ---------- Whole or not at all ----------

  lemma {:induction false} CollectAll<T, U>(f: T -> Option<U>, xs: seq<T>)
    ensures |Collect(f, xs)| <= |xs|
    ensures |Collect(f, xs)| == |xs| <==> forall i :: 0 <= i < |xs| ==> f(xs[i]).Some?
  {
    if xs != [] {
      var earlier := xs[..|xs| - 1];
      CollectAll(f, earlier);
      assert forall i :: 0 <= i < |earlier| ==> earlier[i] == xs[i];
    }
  }

  // A row enters the forecast when every one of its snapshots has a cost, with the sum of all of them.
  lemma WholeOrNothing(l: Lookups, row: Row, snapshots: seq<Row>)
    ensures var generated := GeneratedTotal(snapshots);
      var quantity := PurchaseQuantity(row, generated);
      var outcome := OutcomeOfSnapshots(l, row, snapshots);
      && (outcome.Outside? <==> quantity.numerator == 0)
      && (outcome.RowCosts? <==>
        && quantity.numerator > 0 && generated.numerator > 0
        && forall i :: 0 <= i < |snapshots| ==> SnapshotCost(l, quantity, generated, snapshots[i]).Some?)
      && (outcome.RowCosts? ==> outcome.cost == Total(SnapshotCosts(l, quantity, generated, snapshots)))
  {
    hide SnapshotCost, GeneratedTotal, Total, PurchaseQuantity;
    var generated := GeneratedTotal(snapshots);
    var quantity := PurchaseQuantity(row, generated);
    CollectAll(s => SnapshotCost(l, quantity, generated, s), snapshots);
  }

  // ---------- A listed row of the projection ----------

  // The snapshots a listed row is priced from.
  function RowSnapshots(scope: Scope, t: Tables, l: Lookups, row: Row): seq<Row>
    requires RowScope(scope, l, row).Some?
  {
    ValidSnapshots(scope, t.contributionSnapshots, l, row, RowScope(scope, l, row).value)
  }

  lemma ValidAt(scope: Scope, l: Lookups, row: Row, ids: (Utf16, Utf16, Utf16), snapshots: seq<Row>, k: nat)
    requires k < |ValidSnapshots(scope, snapshots, l, row, ids)|
    ensures ValidSnapshot(scope, l, row, ids.0, ids.1, ids.2, ValidSnapshots(scope, snapshots, l, row, ids)[k])
  {
    hide OnlyOne, ValidSnapshot;
    var valid := SnapshotsOfRow(scope, snapshots, l, row, ids);
    var i := CollectedFrom(s => OnlyOne(valid, s), valid, k);
    OnlyOneIsItself(valid, valid[i]);
    var j := CollectedFrom(s => SnapshotOfRow(scope, l, row, ids, s), snapshots, i);
  }

  // A valid snapshot with any usable price has one of a positive quantity.
  lemma UsablePriceIsPositive(scope: Scope, l: Lookups, row: Row, ids: (Utf16, Utf16, Utf16), s: Row)
    requires ValidSnapshot(scope, l, row, ids.0, ids.1, ids.2, s)
    ensures PricingOf(l, s).Some? ==> Priced(l, s)
  {
    hide FieldId, UnitOf, OfEvent;
  }

  lemma CostedExactlyWhenPriced(l: Lookups, quantity: Amount, generated: Amount, s: Row)
    requires generated.numerator > 0 && GeneratedQuantity(s).Some? && (PricingOf(l, s).Some? ==> Priced(l, s))
    ensures SnapshotCost(l, quantity, generated, s).Some? <==> PricingOf(l, s).Some?
  {
    hide PricingOf, GeneratedQuantity, Allocated, Price;
    ShareValue(quantity, GeneratedQuantity(s).value, generated);
    if PricingOf(l, s).Some? { PriceValue(ShareOf(quantity, generated, s).value, PricingOf(l, s).value); }
  }

  /** A listed row enters the forecast exactly when something is bought and generated and every one of its
      valid snapshots has a usable price. It then costs the whole purchase, each share at the unit price of
      its snapshot; a row that buys something and does not enter has its name reported, and no other. */
  lemma ListedRowWholeOrNothing(scope: Scope, t: Tables, l: Lookups, row: Row)
    requires RowScope(scope, l, row).Some?
    ensures var snapshots := RowSnapshots(scope, t, l, row);
      var generated := GeneratedTotal(snapshots);
      var quantity, cost := PurchaseQuantity(row, generated), RowCost(scope, t, l, row);
      && AllGenerated(snapshots)
      && (cost.Some? <==>
          && quantity.numerator > 0 && generated.numerator > 0
          && forall i :: 0 <= i < |snapshots| ==> PricingOf(l, snapshots[i]).Some?)
      && (RowMissing(scope, t, l, row) != {} <==> quantity.numerator > 0 && cost.None?)
      && (cost.Some? ==>
          && AllPriced(l, snapshots)
          && ValueOf(cost.value) == PricedShares(l, quantity, generated, snapshots)
          && ValueOf(Total(SharesOf(quantity, generated, snapshots))) == ValueOf(quantity))
  {
    var ids, snapshots := RowScope(scope, l, row).value, RowSnapshots(scope, t, l, row);
    hide ValidSnapshots, RowScope, ValidSnapshot, OutcomeOfSnapshots, GeneratedTotal, PurchaseQuantity, PricingOf,
      SnapshotCost, GeneratedQuantity, Total, ValueOf, SharesOf, PricedShares, SnapshotCosts;
    var generated := GeneratedTotal(snapshots);
    var quantity := PurchaseQuantity(row, generated);
    ValidSnapshotsGenerate(scope, l, row, ids, t.contributionSnapshots);
    WholeOrNothing(l, row, snapshots);
    forall i | 0 <= i < |snapshots| && generated.numerator > 0
      ensures SnapshotCost(l, quantity, generated, snapshots[i]).Some? <==> PricingOf(l, snapshots[i]).Some?
      ensures PricingOf(l, snapshots[i]).Some? ==> Priced(l, snapshots[i])
    {
      ValidAt(scope, l, row, ids, t.contributionSnapshots, i);
      UsablePriceIsPositive(scope, l, row, ids, snapshots[i]);
      CostedExactlyWhenPriced(l, quantity, generated, snapshots[i]);
    }
    if RowCost(scope, t, l, row).Some? {
      CostsValue(l, quantity, generated, snapshots);
      AllocationConserves(quantity, snapshots);
    }
  }

  ghost predicate AtOnePrice(l: Lookups, snapshots: seq<Row>, p: Pricing) {
    forall i :: 0 <= i < |snapshots| ==> PricingOf(l, snapshots[i]) == Some(p)
  }

  /** So at one common price a listed row that enters costs quantity times unit price, however it is split. */
  lemma ListedRowAtOnePrice(scope: Scope, t: Tables, l: Lookups, row: Row, p: Pricing)
    requires RowScope(scope, l, row).Some? && RowCost(scope, t, l, row).Some?
    requires AtOnePrice(l, RowSnapshots(scope, t, l, row), p)
    ensures p.pricedQuantity.numerator > 0
    ensures ValueOf(RowCost(scope, t, l, row).value)
      == ValueOf(PurchaseQuantity(row, GeneratedTotal(RowSnapshots(scope, t, l, row)))) * UnitPrice(p)
  {
    hide RowSnapshots, RowScope, RowCost, PurchaseQuantity, PricingOf, GeneratedQuantity, Total, ValueOf, SharesOf,
      PricedShares, UnitPrice, RowMissing;
    var snapshots := RowSnapshots(scope, t, l, row);
    ListedRowWholeOrNothing(scope, t, l, row);
    NothingGenerated(snapshots);
    assert Priced(l, snapshots[0]);
    var generated := GeneratedTotal(snapshots);
    SharesAtOnePrice(l, PurchaseQuantity(row, generated), generated, snapshots, p);
  }

  /** And two listed rows that enter, buying the same quantity at the same price, show the same cost,
      whatever contributed to them. */
  lemma SplitDoesNotShow(scope: Scope, t: Tables, l: Lookups, row: Row, row': Row, p: Pricing)
    requires RowScope(scope, l, row).Some? && RowCost(scope, t, l, row).Some?
    requires RowScope(scope, l, row').Some? && RowCost(scope, t, l, row').Some?
    requires AtOnePrice(l, RowSnapshots(scope, t, l, row), p) && AtOnePrice(l, RowSnapshots(scope, t, l, row'), p)
    requires ValueOf(PurchaseQuantity(row, GeneratedTotal(RowSnapshots(scope, t, l, row))))
      == ValueOf(PurchaseQuantity(row', GeneratedTotal(RowSnapshots(scope, t, l, row'))))
    ensures Money(RowCost(scope, t, l, row).value) == Money(RowCost(scope, t, l, row').value)
  {
    hide RowSnapshots, RowScope, RowCost, PurchaseQuantity, PricingOf, GeneratedTotal, ValueOf, UnitPrice, Money;
    ListedRowAtOnePrice(scope, t, l, row, p);
    ListedRowAtOnePrice(scope, t, l, row', p);
    MoneyOfValue(RowCost(scope, t, l, row).value, RowCost(scope, t, l, row').value);
  }

  lemma NothingGenerated(snapshots: seq<Row>)
    ensures GeneratedTotal(snapshots).numerator > 0 ==> snapshots != []
  {
  }
}
