/** What an accepted archive guarantees along chains of references. */
module ArchiveClosure {
  import opened Text
  import opened Replica
  import opened ArchiveRelations

  const REVISIONS := "shopping_generation_revisions"
  const PRICES := "event_ingredient_prices"
  const PRICE_SNAPSHOTS := "event_ingredient_price_snapshots"

  // ---------- Which checks apply ----------

  lemma ListChecked()
    ensures "shopping_lists" in COLLECTIONS && EventIs in ChecksOf("shopping_lists")
  {
  }

  lemma RevisionChecked()
    ensures REVISIONS in COLLECTIONS
    ensures Ref("shopping_list_id", "shopping_lists") in ChecksOf(REVISIONS)
    ensures Scope("shopping_list_id", "shopping_lists", EVENT_SCOPE) in ChecksOf(REVISIONS)
    ensures If("parent_revision_id", Ref("parent_revision_id", REVISIONS)) in ChecksOf(REVISIONS)
    ensures If("parent_revision_id", Scope("parent_revision_id", REVISIONS, LIST_SCOPE)) in ChecksOf(REVISIONS)
  {
  }

  lemma ContributionChecked()
    ensures "shopping_contributions" in COLLECTIONS
    ensures Ref("shopping_ingredient_row_id", "shopping_ingredient_rows") in ChecksOf("shopping_contributions")
    ensures Scope("shopping_ingredient_row_id", "shopping_ingredient_rows", ROW_SCOPE)
      in ChecksOf("shopping_contributions")
  {
    assert COLLECTIONS[10] == "shopping_contributions";
    var checks := ChecksOf("shopping_contributions");
    assert checks[1] == Ref("shopping_ingredient_row_id", "shopping_ingredient_rows");
    assert checks[3] == Scope("shopping_ingredient_row_id", "shopping_ingredient_rows", ROW_SCOPE);
  }

  lemma SnapshotChecked()
    ensures "shopping_contribution_snapshots" in COLLECTIONS
    ensures Ref("generation_revision_id", REVISIONS) in ChecksOf("shopping_contribution_snapshots")
    ensures Ref("shopping_contribution_id", "shopping_contributions") in ChecksOf("shopping_contribution_snapshots")
    ensures Scope("generation_revision_id", REVISIONS, LIST_SCOPE) in ChecksOf("shopping_contribution_snapshots")
    ensures Scope("shopping_contribution_id", "shopping_contributions", ROW_SCOPE)
      in ChecksOf("shopping_contribution_snapshots")
  {
    assert COLLECTIONS[11] == "shopping_contribution_snapshots";
    var checks := ChecksOf("shopping_contribution_snapshots");
    assert checks[0] == Ref("generation_revision_id", REVISIONS);
    assert checks[1] == Ref("shopping_contribution_id", "shopping_contributions");
    assert checks[2] == Scope("generation_revision_id", REVISIONS, LIST_SCOPE);
    assert checks[3] == Scope("shopping_contribution_id", "shopping_contributions", ROW_SCOPE);
  }

  lemma PriceChecked()
    ensures PRICES in COLLECTIONS
    ensures EventIs in ChecksOf(PRICES) && Ref("ingredient_id", "ingredients") in ChecksOf(PRICES)
  {
  }

  lemma PriceSnapshotChecked()
    ensures PRICE_SNAPSHOTS in COLLECTIONS
    ensures Ref("event_ingredient_price_id", PRICES) in ChecksOf(PRICE_SNAPSHOTS)
    ensures Scope("event_ingredient_price_id", PRICES, PRICE_SCOPE) in ChecksOf(PRICE_SNAPSHOTS)
    ensures If("previous_snapshot_id", Ref("previous_snapshot_id", PRICE_SNAPSHOTS)) in ChecksOf(PRICE_SNAPSHOTS)
    ensures If("previous_snapshot_id", Scope("previous_snapshot_id", PRICE_SNAPSHOTS, CHAIN_SCOPE))
      in ChecksOf(PRICE_SNAPSHOTS)
  {
  }

  // ---------- Following one reference ----------

  predicate Present(v: Value) {
    !v.Null? && !v.Undefined?
  }

  lemma Required(p: Payload, eventId: Utf16, from: string, row: Row, field: string, to: string)
    requires Accepted(p, eventId) && from in COLLECTIONS && row in Rows(p, from) && Ref(field, to) in ChecksOf(from)
    ensures ValueIn(row, field).Str? && exists target :: Refers(p, row, field, to, target)
  {
    hide Accepted, ChecksOf, Refers;
    PassesChecks(p, eventId, from, row, Ref(field, to));
    RefLeads(p, eventId, row, field, to);
  }

  lemma Agrees(p: Payload, eventId: Utf16, from: string, row: Row, field: string, to: string, fields: seq<string>,
        target: Row)
    requires Accepted(p, eventId) && from in COLLECTIONS && row in Rows(p, from)
    requires Ref(field, to) in ChecksOf(from) && Scope(field, to, fields) in ChecksOf(from)
    requires NoRepeatedId(p, to) && Refers(p, row, field, to, target)
    ensures SameFields(row, target, fields)
  {
    hide Accepted, ChecksOf, Refers, NoRepeatedId, SameFields;
    Required(p, eventId, from, row, field, to);
    PassesChecks(p, eventId, from, row, Scope(field, to, fields));
    ScopeAgrees(p, eventId, row, field, to, fields, target);
  }

  lemma RequiredIf(p: Payload, eventId: Utf16, from: string, row: Row, field: string, to: string)
    requires Accepted(p, eventId) && from in COLLECTIONS && row in Rows(p, from)
      && If(field, Ref(field, to)) in ChecksOf(from)
    requires Present(ValueIn(row, field))
    ensures ValueIn(row, field).Str? && exists target :: Refers(p, row, field, to, target)
  {
    hide Accepted, ChecksOf, Refers;
    PassesChecks(p, eventId, from, row, If(field, Ref(field, to)));
    RefLeads(p, eventId, row, field, to);
  }

  lemma AgreesIf(p: Payload, eventId: Utf16, from: string, row: Row, field: string, to: string, fields: seq<string>,
        target: Row)
    requires Accepted(p, eventId) && from in COLLECTIONS && row in Rows(p, from)
    requires If(field, Ref(field, to)) in ChecksOf(from) && If(field, Scope(field, to, fields)) in ChecksOf(from)
    requires Present(ValueIn(row, field)) && NoRepeatedId(p, to) && Refers(p, row, field, to, target)
    ensures SameFields(row, target, fields)
  {
    hide Accepted, ChecksOf, Refers, NoRepeatedId, SameFields;
    RequiredIf(p, eventId, from, row, field, to);
    PassesChecks(p, eventId, from, row, If(field, Scope(field, to, fields)));
    ScopeAgrees(p, eventId, row, field, to, fields, target);
  }

  // ---------- Shopping ----------

  // The row belongs to the list, and with it to the requested event and its organization.
  ghost predicate InList(row: Row, list: Row, eventId: Utf16) {
    && ValueIn(row, "shopping_list_id") == ValueIn(list, "id")
    && ValueIn(row, "event_id") == Str(eventId)
    && ValueIn(row, "organization_id") == ValueIn(list, "organization_id")
  }

  lemma ListScope(a: Row, b: Row, list: Row, eventId: Utf16)
    requires SameFields(a, b, LIST_SCOPE)
    ensures InList(a, list, eventId) <==> InList(b, list, eventId)
  {
    assert ValueIn(a, LIST_SCOPE[0]) == ValueIn(b, LIST_SCOPE[0]);
    assert ValueIn(a, LIST_SCOPE[1]) == ValueIn(b, LIST_SCOPE[1]);
    assert ValueIn(a, LIST_SCOPE[2]) == ValueIn(b, LIST_SCOPE[2]);
  }

  lemma RowScope(a: Row, b: Row)
    requires SameFields(a, b, ROW_SCOPE)
    ensures SameFields(a, b, LIST_SCOPE) && ValueIn(a, "ingredient_id") == ValueIn(b, "ingredient_id")
  {
    forall i | 0 <= i < |LIST_SCOPE|
      ensures ValueIn(a, LIST_SCOPE[i]) == ValueIn(b, LIST_SCOPE[i])
    {
      assert ROW_SCOPE[i] == LIST_SCOPE[i];
    }
    assert ROW_SCOPE[3] == "ingredient_id";
  }

  lemma RevisionList(p: Payload, eventId: Utf16, revision: Row) returns (list: Row)
    requires Accepted(p, eventId) && NoRepeatedId(p, "shopping_lists") && revision in Rows(p, REVISIONS)
    ensures list in Rows(p, "shopping_lists") && InList(revision, list, eventId)
  {
    RevisionChecked();
    ListChecked();
    hide Accepted, ChecksOf, NoRepeatedId;
    Required(p, eventId, REVISIONS, revision, "shopping_list_id", "shopping_lists");
    list :| Refers(p, revision, "shopping_list_id", "shopping_lists", list);
    Agrees(p, eventId, REVISIONS, revision, "shopping_list_id", "shopping_lists", EVENT_SCOPE, list);
    PassesChecks(p, eventId, "shopping_lists", list, EventIs);
    assert ValueIn(revision, EVENT_SCOPE[0]) == ValueIn(list, EVENT_SCOPE[0]);
    assert ValueIn(revision, EVENT_SCOPE[1]) == ValueIn(list, EVENT_SCOPE[1]);
  }

  // The row has a predecessor in its own collection, and this is it.
  ghost predicate Follows(p: Payload, row: Row, field: string, collection: string, previous: Row) {
    Present(ValueIn(row, field)) && Refers(p, row, field, collection, previous)
  }

  // Rows of one collection, each naming the next one in a field.
  ghost predicate Chain(p: Payload, field: string, collection: string, chain: seq<Row>) {
    && chain != [] && (forall i :: 0 <= i < |chain| ==> chain[i] in Rows(p, collection))
    && (forall i, j :: 0 <= i < j < |chain| && j == i + 1 ==> Follows(p, chain[i], field, collection, chain[j]))
  }

  ghost predicate RevisionChain(p: Payload, chain: seq<Row>) {
    Chain(p, "parent_revision_id", REVISIONS, chain)
  }

  lemma Extended(p: Payload, field: string, collection: string, chain: seq<Row>, previous: Row)
    requires Chain(p, field, collection, chain) && Follows(p, chain[|chain| - 1], field, collection, previous)
    ensures Chain(p, field, collection, chain + [previous])
  {
  }

  lemma ParentInList(p: Payload, eventId: Utf16, revision: Row, parent: Row, list: Row)
    requires Accepted(p, eventId) && NoRepeatedId(p, REVISIONS) && revision in Rows(p, REVISIONS)
    requires Follows(p, revision, "parent_revision_id", REVISIONS, parent) && InList(revision, list, eventId)
    ensures InList(parent, list, eventId)
  {
    RevisionChecked();
    hide Accepted, ChecksOf, NoRepeatedId, InList, SameFields;
    AgreesIf(p, eventId, REVISIONS, revision, "parent_revision_id", REVISIONS, LIST_SCOPE, parent);
    ListScope(revision, parent, list, eventId);
  }

  lemma {:induction false} ChainInList(p: Payload, eventId: Utf16, chain: seq<Row>, list: Row, k: nat)
    requires Accepted(p, eventId) && NoRepeatedId(p, REVISIONS) && RevisionChain(p, chain) && k < |chain|
    requires InList(chain[0], list, eventId)
    ensures InList(chain[k], list, eventId)
  {
    hide Accepted, NoRepeatedId, InList, Follows;
    if k > 0 {
      ChainInList(p, eventId, chain, list, k - 1);
      ParentInList(p, eventId, chain[k - 1], chain[k], list);
    }
  }

  /** A contribution snapshot, its contribution, the ingredient row, the revision and every ancestor
      along any parent chain belong to one list of the requested event, with one ingredient. */
  lemma SnapshotInOneList(p: Payload, eventId: Utf16, snapshot: Row, contribution: Row, row: Row, chain: seq<Row>)
    returns (list: Row)
    requires Accepted(p, eventId) && NoRepeatedId(p, "shopping_lists") && NoRepeatedId(p, REVISIONS)
    requires NoRepeatedId(p, "shopping_contributions") && NoRepeatedId(p, "shopping_ingredient_rows")
    requires snapshot in Rows(p, "shopping_contribution_snapshots") && RevisionChain(p, chain)
    requires Refers(p, snapshot, "shopping_contribution_id", "shopping_contributions", contribution)
    requires Refers(p, contribution, "shopping_ingredient_row_id", "shopping_ingredient_rows", row)
    requires Refers(p, snapshot, "generation_revision_id", REVISIONS, chain[0])
    ensures list in Rows(p, "shopping_lists") && ValueIn(list, "event_id") == Str(eventId)
    ensures InList(snapshot, list, eventId) && InList(contribution, list, eventId) && InList(row, list, eventId)
    ensures forall k :: 0 <= k < |chain| ==> InList(chain[k], list, eventId)
    ensures ValueIn(snapshot, "ingredient_id") == ValueIn(contribution, "ingredient_id")
      == ValueIn(row, "ingredient_id")
  {
    list := RevisionList(p, eventId, chain[0]);
    forall k | 0 <= k < |chain|
      ensures InList(chain[k], list, eventId)
    {
      ChainInList(p, eventId, chain, list, k);
    }
    SnapshotChecked();
    ContributionChecked();
    ListChecked();
    hide Accepted, ChecksOf, NoRepeatedId, InList, SameFields, RevisionChain;
    PassesChecks(p, eventId, "shopping_lists", list, EventIs);
    Agrees(p, eventId, "shopping_contribution_snapshots", snapshot, "generation_revision_id", REVISIONS, LIST_SCOPE,
      chain[0]);
    ListScope(snapshot, chain[0], list, eventId);
    Agrees(p, eventId, "shopping_contribution_snapshots", snapshot, "shopping_contribution_id",
      "shopping_contributions", ROW_SCOPE, contribution);
    RowScope(snapshot, contribution);
    ListScope(snapshot, contribution, list, eventId);
    Agrees(p, eventId, "shopping_contributions", contribution, "shopping_ingredient_row_id",
      "shopping_ingredient_rows", ROW_SCOPE, row);
    RowScope(contribution, row);
    ListScope(contribution, row, list, eventId);
  }

  /** And all of them exist: no reference on the way leads out of the archive. */
  lemma SnapshotClosed(p: Payload, eventId: Utf16, snapshot: Row) returns (contribution: Row, row: Row, revision: Row)
    requires Accepted(p, eventId) && snapshot in Rows(p, "shopping_contribution_snapshots")
    ensures Refers(p, snapshot, "shopping_contribution_id", "shopping_contributions", contribution)
    ensures Refers(p, contribution, "shopping_ingredient_row_id", "shopping_ingredient_rows", row)
    ensures Refers(p, snapshot, "generation_revision_id", REVISIONS, revision)
  {
    SnapshotChecked();
    ContributionChecked();
    hide Accepted, ChecksOf;
    Required(p, eventId, "shopping_contribution_snapshots", snapshot, "shopping_contribution_id",
      "shopping_contributions");
    contribution :| Refers(p, snapshot, "shopping_contribution_id", "shopping_contributions", contribution);
    Required(p, eventId, "shopping_contributions", contribution, "shopping_ingredient_row_id",
      "shopping_ingredient_rows");
    row :| Refers(p, contribution, "shopping_ingredient_row_id", "shopping_ingredient_rows", row);
    Required(p, eventId, "shopping_contribution_snapshots", snapshot, "generation_revision_id", REVISIONS);
    revision :| Refers(p, snapshot, "generation_revision_id", REVISIONS, revision);
  }

  /** Every chain of revisions either ends or can be followed further inside the archive. */
  lemma ChainExtends(p: Payload, eventId: Utf16, chain: seq<Row>) returns (parent: Row)
    requires Accepted(p, eventId) && RevisionChain(p, chain)
      && Present(ValueIn(chain[|chain| - 1], "parent_revision_id"))
    ensures RevisionChain(p, chain + [parent])
  {
    RevisionChecked();
    var last := chain[|chain| - 1];
    assert last in Rows(p, REVISIONS);
    hide Accepted, ChecksOf, Chain, Refers, Present;
    RequiredIf(p, eventId, REVISIONS, last, "parent_revision_id", REVISIONS);
    parent :| Refers(p, last, "parent_revision_id", REVISIONS, parent);
    Extended(p, "parent_revision_id", REVISIONS, chain, parent);
  }

  // ---------- Prices ----------

  // The snapshot is one of this price, in its event, organization and ingredient.
  ghost predicate OfPrice(snapshot: Row, price: Row, eventId: Utf16) {
    && ValueIn(snapshot, "event_ingredient_price_id") == ValueIn(price, "id")
    && ValueIn(snapshot, "event_id") == Str(eventId)
    && ValueIn(snapshot, "organization_id") == ValueIn(price, "organization_id")
    && ValueIn(snapshot, "ingredient_id") == ValueIn(price, "ingredient_id")
  }

  lemma ChainScope(a: Row, b: Row, price: Row, eventId: Utf16)
    requires SameFields(a, b, CHAIN_SCOPE)
    ensures OfPrice(a, price, eventId) <==> OfPrice(b, price, eventId)
  {
    assert CHAIN_SCOPE[0] == "event_ingredient_price_id" && CHAIN_SCOPE[1] == "event_id";
    assert CHAIN_SCOPE[2] == "organization_id" && CHAIN_SCOPE[3] == "ingredient_id";
    assert ValueIn(a, CHAIN_SCOPE[0]) == ValueIn(b, CHAIN_SCOPE[0])
      && ValueIn(a, CHAIN_SCOPE[1]) == ValueIn(b, CHAIN_SCOPE[1]);
    assert ValueIn(a, CHAIN_SCOPE[2]) == ValueIn(b, CHAIN_SCOPE[2])
      && ValueIn(a, CHAIN_SCOPE[3]) == ValueIn(b, CHAIN_SCOPE[3]);
  }

  ghost predicate PriceChain(p: Payload, chain: seq<Row>) {
    Chain(p, "previous_snapshot_id", PRICE_SNAPSHOTS, chain)
  }

  lemma PredecessorOfPrice(p: Payload, eventId: Utf16, snapshot: Row, previous: Row, price: Row)
    requires Accepted(p, eventId) && NoRepeatedId(p, PRICE_SNAPSHOTS) && snapshot in Rows(p, PRICE_SNAPSHOTS)
    requires Follows(p, snapshot, "previous_snapshot_id", PRICE_SNAPSHOTS, previous)
      && OfPrice(snapshot, price, eventId)
    ensures OfPrice(previous, price, eventId)
  {
    PriceSnapshotChecked();
    hide Accepted, ChecksOf, NoRepeatedId, OfPrice, SameFields;
    AgreesIf(p, eventId, PRICE_SNAPSHOTS, snapshot, "previous_snapshot_id", PRICE_SNAPSHOTS, CHAIN_SCOPE, previous);
    ChainScope(snapshot, previous, price, eventId);
  }

  lemma {:induction false} ChainOfPrice(p: Payload, eventId: Utf16, chain: seq<Row>, price: Row, k: nat)
    requires Accepted(p, eventId) && NoRepeatedId(p, PRICE_SNAPSHOTS) && PriceChain(p, chain) && k < |chain|
    requires OfPrice(chain[0], price, eventId)
    ensures OfPrice(chain[k], price, eventId)
  {
    hide Accepted, NoRepeatedId, OfPrice, Follows;
    if k > 0 {
      ChainOfPrice(p, eventId, chain, price, k - 1);
      PredecessorOfPrice(p, eventId, chain[k - 1], chain[k], price);
    }
  }

  /** A price snapshot and all its predecessors belong to one price of the requested event, for one
      ingredient of the archive. */
  lemma PriceHistoryInOneScope(p: Payload, eventId: Utf16, chain: seq<Row>) returns (price: Row, ingredient: Row)
    requires Accepted(p, eventId) && NoRepeatedId(p, PRICES) && NoRepeatedId(p, PRICE_SNAPSHOTS) && PriceChain(p, chain)
    ensures price in Rows(p, PRICES) && ValueIn(price, "event_id") == Str(eventId)
    ensures forall k :: 0 <= k < |chain| ==> OfPrice(chain[k], price, eventId)
    ensures ingredient in Rows(p, "ingredients") && ValueIn(ingredient, "id") == ValueIn(price, "ingredient_id")
  {
    PriceSnapshotChecked();
    PriceChecked();
    FirstOfPrice(p, eventId, chain[0]);
    price :| Refers(p, chain[0], "event_ingredient_price_id", PRICES, price) && OfPrice(chain[0], price, eventId);
    forall k | 0 <= k < |chain|
      ensures OfPrice(chain[k], price, eventId)
    {
      ChainOfPrice(p, eventId, chain, price, k);
    }
    hide Accepted, ChecksOf, NoRepeatedId, OfPrice, PriceChain;
    PassesChecks(p, eventId, PRICES, price, EventIs);
    Required(p, eventId, PRICES, price, "ingredient_id", "ingredients");
    ingredient :| Refers(p, price, "ingredient_id", "ingredients", ingredient);
  }

  lemma FirstOfPrice(p: Payload, eventId: Utf16, snapshot: Row)
    requires Accepted(p, eventId) && NoRepeatedId(p, PRICES) && snapshot in Rows(p, PRICE_SNAPSHOTS)
    ensures exists price ::
      Refers(p, snapshot, "event_ingredient_price_id", PRICES, price) && OfPrice(snapshot, price, eventId)
  {
    PriceSnapshotChecked();
    PriceChecked();
    hide Accepted, ChecksOf, NoRepeatedId;
    Required(p, eventId, PRICE_SNAPSHOTS, snapshot, "event_ingredient_price_id", PRICES);
    var price :| Refers(p, snapshot, "event_ingredient_price_id", PRICES, price);
    Agrees(p, eventId, PRICE_SNAPSHOTS, snapshot, "event_ingredient_price_id", PRICES, PRICE_SCOPE, price);
    PassesChecks(p, eventId, PRICES, price, EventIs);
    assert PRICE_SCOPE[0] == "event_id" && PRICE_SCOPE[1] == "organization_id" && PRICE_SCOPE[2] == "ingredient_id";
    assert ValueIn(snapshot, PRICE_SCOPE[0]) == ValueIn(price, PRICE_SCOPE[0])
      && ValueIn(snapshot, PRICE_SCOPE[1]) == ValueIn(price, PRICE_SCOPE[1]);
    assert ValueIn(snapshot, PRICE_SCOPE[2]) == ValueIn(price, PRICE_SCOPE[2]);
  }
}
