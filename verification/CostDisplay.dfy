/** What the displayed recipe costs add up to. */
module CostDisplay {
  import opened Text
  import opened Wrappers
  import opened Lists
  import opened Fractions
  import opened EventCosts
  import opened CostOrder

  // The displayed totals under some ids, read back and added up in hundredths.
  function ShownCents(scheduled: map<Utf16, ScheduledCost>, ids: seq<Utf16>): int
    requires forall i :: 0 <= i < |ids| ==> ids[i] in scheduled
  {
    if ids == [] then 0
    else ShownCents(scheduled, ids[..|ids| - 1]) + ReadMoney(scheduled[ids[|ids| - 1]].total)
  }

  lemma {:induction false} ShownConcat(scheduled: map<Utf16, ScheduledCost>, a: seq<Utf16>, b: seq<Utf16>)
    requires forall i :: 0 <= i < |a| ==> a[i] in scheduled
    requires forall i :: 0 <= i < |b| ==> b[i] in scheduled
    ensures ShownCents(scheduled, a + b) == ShownCents(scheduled, a) + ShownCents(scheduled, b)
  {
    hide ReadMoney;
    if b == [] {
      assert a + b == a;
    } else {
      assert (a + b)[..|a + b| - 1] == a + b[..|b| - 1];
      ShownConcat(scheduled, a, b[..|b| - 1]);
    }
  }

  lemma {:induction false} ShownPermuted(scheduled: map<Utf16, ScheduledCost>, xs: seq<Utf16>, ys: seq<Utf16>)
    requires Permuted(xs, ys)
    requires forall i :: 0 <= i < |xs| ==> xs[i] in scheduled
    requires forall i :: 0 <= i < |ys| ==> ys[i] in scheduled
    ensures ShownCents(scheduled, xs) == ShownCents(scheduled, ys)
  {
    hide ReadMoney;
    if xs == [] {
      assert |multiset(ys)| == 0;
      assert ys == [];
    } else {
      var i, rest := TakeOut(xs, ys);
      ShownPermuted(scheduled, xs[..|xs| - 1], rest);
      ShownConcat(scheduled, ys[..i], ys[i + 1..]);
      ShownConcat(scheduled, ys[..i] + [ys[i]], ys[i + 1..]);
      ShownConcat(scheduled, ys[..i], [ys[i]]);
      var one := [ys[i]];
      assert one[..|one| - 1] == [];
    }
  }

  ghost predicate Distinct(ids: seq<Utf16>) {
    forall i, j :: 0 <= i < j < |ids| ==> ids[i] != ids[j]
  }

  lemma {:induction false} CountOne(ids: seq<Utf16>, id: Utf16)
    requires Distinct(ids)
    ensures multiset(ids)[id] == if id in ids then 1 else 0
  {
    if ids != [] {
      var earlier, last := ids[..|ids| - 1], ids[|ids| - 1];
      CountOne(earlier, id);
      assert ids == earlier + [last];
      assert last !in earlier;
    }
  }

  lemma SameElementsPermuted(xs: seq<Utf16>, ys: seq<Utf16>)
    requires Distinct(xs) && Distinct(ys) && forall id :: id in xs <==> id in ys
    ensures Permuted(xs, ys)
  {
    forall id
      ensures multiset(xs)[id] == multiset(ys)[id]
    {
      CountOne(xs, id);
      CountOne(ys, id);
    }
  }

  // ---------- The entries of the map ----------

  function Entries(scope: Scope, t: Tables, l: Lookups, items: seq<Row>): seq<(Utf16, ScheduledCost)> {
    Collect(item => ScheduledEntry(scope, t, l, item), items)
  }

  function Firsts(entries: seq<(Utf16, ScheduledCost)>): seq<Utf16> {
    seq(|entries|, i requires 0 <= i < |entries| => entries[i].0)
  }

  function EntryCents(entries: seq<(Utf16, ScheduledCost)>): int {
    if entries == [] then 0 else EntryCents(entries[..|entries| - 1]) + ReadMoney(entries[|entries| - 1].1.total)
  }

  // Each recipe that counts has its total in the sum and in the map.
  lemma {:induction false} EntriesShowTotals(scope: Scope, t: Tables, l: Lookups, items: seq<Row>)
    ensures |Entries(scope, t, l, items)| == |ItemTotals(scope, t, l, items)|
    ensures EntryCents(Entries(scope, t, l, items)) == TotalCents(ItemTotals(scope, t, l, items))
  {
    hide ItemCostOf, ReadMoney, Money;
    if items != [] {
      EntriesShowTotals(scope, t, l, items[..|items| - 1]);
    }
  }

  lemma {:induction false} EntriesAreShown(scheduled: map<Utf16, ScheduledCost>, entries: seq<(Utf16, ScheduledCost)>)
    requires forall e :: e in entries ==> e.0 in scheduled && scheduled[e.0] == e.1
    ensures forall i :: 0 <= i < |entries| ==> Firsts(entries)[i] in scheduled
    ensures ShownCents(scheduled, Firsts(entries)) == EntryCents(entries)
  {
    hide ReadMoney;
    forall i | 0 <= i < |entries|
      ensures Firsts(entries)[i] in scheduled
    {
      assert entries[i] in entries;
    }
    if entries != [] {
      var earlier, last := entries[..|entries| - 1], entries[|entries| - 1];
      EntriesAreShown(scheduled, earlier);
      assert Firsts(entries)[..|earlier|] == Firsts(earlier);
      assert last in entries;
    }
  }

  // The keys of the map, however listed, show what its entries show.
  lemma KeysShowEntries(entries: seq<(Utf16, ScheduledCost)>, ids: seq<Utf16>)
    requires DistinctFirsts(entries) && Distinct(ids) && forall id :: id in ids <==> id in ToMap(entries)
    ensures |ids| == |entries| && ShownCents(ToMap(entries), ids) == EntryCents(entries)
  {
    hide ShownCents, EntryCents;
    var scheduled, firsts := ToMap(entries), Firsts(entries);
    ToMapMembers(entries);
    EntriesAreShown(scheduled, entries);
    forall id
      ensures id in firsts <==> id in ids
    {
      if id in scheduled {
        var i :| 0 <= i < |entries| && entries[i] == (id, scheduled[id]);
        assert firsts[i] == id;
      }
    }
    SameElementsPermuted(ids, firsts);
    PermutedMembers(ids, firsts, []);
    ShownPermuted(scheduled, ids, firsts);
  }

  lemma EntriesDistinct(scope: Scope, t: Tables, l: Lookups)
    requires DistinctIds(t.scheduledRecipes)
    ensures DistinctFirsts(Entries(scope, t, l, t.scheduledRecipes))
  {
    hide ItemCostOf, Displayed;
    CollectDistinct(item => ScheduledEntry(scope, t, l, item), (r: Row) => r.entityId, t.scheduledRecipes);
  }

  lemma MapOfEntries(scope: Scope, t: Tables, l: Lookups, items: seq<Row>)
    ensures ScheduledMap(scope, t, l, items) == ToMap(Entries(scope, t, l, items))
  {
    hide ScheduledEntry;
  }

  // The two displayed parts that are compared.
  lemma ProjectionShows(scope: Scope, t: Tables)
    requires CostsOf(scope, t).Some?
    ensures EventOf(scope, t).Some?
    ensures var l := LookupsOf(scope, t, EventOf(scope, t).value.0);
      && CostsOf(scope, t).value.scheduled == ToMap(Entries(scope, t, l, t.scheduledRecipes))
      && CostsOf(scope, t).value.total == Money(Total(ItemTotals(scope, t, l, t.scheduledRecipes)))
  {
    hide EventOf, LookupsOf, ItemTotals, RowCostsOf, ReceiptAmounts, Total, Money, Remaining, ItemNames, RowNames,
      ScheduledMap, Entries, ToMap;
    MapOfEntries(scope, t, LookupsOf(scope, t, EventOf(scope, t).value.0), t.scheduledRecipes);
  }

  lemma TotalsDiffer(totals: seq<Amount>)
    ensures 2 * Abs(TotalCents(totals) - ReadMoney(Money(Total(totals)))) <= |totals| + 1
  {
    hide TotalCents, ReadMoney, Money, Sum;
    DisplayedTotals(totals);
  }

  /** In the displayed projection the recipe totals, under whatever listing of their ids, add up to the
      displayed total within (n + 1)/200. */
  lemma RecipeTotalsAddUp(scope: Scope, t: Tables, ids: seq<Utf16>)
    requires CostsOf(scope, t).Some? && DistinctIds(t.scheduledRecipes)
    requires Distinct(ids) && forall id :: id in ids <==> id in CostsOf(scope, t).value.scheduled
    ensures var costs := CostsOf(scope, t).value;
      2 * Abs(ShownCents(costs.scheduled, ids) - ReadMoney(costs.total)) <= |ids| + 1
  {
    hide CostsOf, LookupsOf, EventOf, ItemTotals, Entries, TotalCents, ReadMoney, Money, Total, ToMap, ShownCents,
      EntryCents, Distinct;
    ProjectionShows(scope, t);
    var l := LookupsOf(scope, t, EventOf(scope, t).value.0);
    EntriesDistinct(scope, t, l);
    KeysShowEntries(Entries(scope, t, l, t.scheduledRecipes), ids);
    EntriesShowTotals(scope, t, l, t.scheduledRecipes);
    TotalsDiffer(ItemTotals(scope, t, l, t.scheduledRecipes));
  }
}
