/** What the copy form offers for each dependency and when a mapping is complete, written out. */
module CopyRules {
  import opened Wrappers
  import opened Lists
  import opened CopyMappings

  // ---------- Sources and groups ----------

  // The first source unit with the id.
  ghost predicate SourceIs(c: Context, id: string, source: Unit) {
    exists i :: 0 <= i < |c.sourceUnits| && c.sourceUnits[i] == source && source.id == id
      && forall j :: 0 <= j < i ==> c.sourceUnits[j].id != id
  }

  lemma {:induction false} FirstIs(units: seq<Unit>, id: string, unit: Unit)
    ensures FindFirst((u: Unit) => u.id == id, units) == Some(unit) <==>
      exists i :: 0 <= i < |units| && units[i] == unit && unit.id == id && forall j :: 0 <= j < i ==> units[j].id != id
  {
    if units != [] {
      FirstIs(units[1..], id, unit);
      if units[0].id != id {
        if i :| 0 <= i < |units[1..]| && units[1..][i] == unit && unit.id == id
              && forall j :: 0 <= j < i ==> units[1..][j].id != id {
          assert units[i + 1] == unit;
          assert forall j :: 0 < j < i + 1 ==> units[j] == units[1..][j - 1];
        }
        if i :| 0 <= i < |units| && units[i] == unit && unit.id == id && forall j :: 0 <= j < i ==> units[j].id != id {
          assert units[1..][i - 1] == unit;
        }
      } else if units[0] == unit {
        assert units[0] == unit;
      }
    }
  }

  lemma SourceUnitIs(c: Context, id: string, source: Unit)
    ensures SourceUnit(c, id) == Some(source) <==> SourceIs(c, id, source)
  {
    FirstIs(c.sourceUnits, id, source);
    assert SourceUnit(c, id) == FindFirst((u: Unit) => u.id == id, c.sourceUnits);
  }

  // Two units to be mapped together: both counted, or both of the user's own kind.
  ghost predicate Together(c: Context, r: Requirement, s: Requirement) {
    && r.kind == CanonicalUnit && s.kind == CanonicalUnit
    && exists a, b :: SourceIs(c, r.sourceId, a) && SourceIs(c, s.sourceId, b)
         && a.dimension == b.dimension && (a.dimension == "count" || a.dimension == "custom")
  }

  lemma SameDimension(a: string, b: string)
    ensures "canonical_unit:" + a == "canonical_unit:" + b <==> a == b
    ensures KindName(CanonicalUnit) + ":" + a == "canonical_unit:" + a
    ensures KindName(CanonicalUnit) + ":" + b == "canonical_unit:" + b
  {
    assert ("canonical_unit:" + a)[15..] == a && ("canonical_unit:" + b)[15..] == b;
    assert "canonical_unit" + ":" + a == "canonical_unit:" + a && "canonical_unit" + ":" + b == "canonical_unit:" + b;
  }

  lemma TogetherIs(c: Context, r: Requirement, s: Requirement)
    ensures SameGroup(c, r, s) <==> Together(c, r, s)
  {
    hide SourceIs, SourceUnit;
    var a, b := SourceUnit(c, r.sourceId), SourceUnit(c, s.sourceId);
    if a.Some? { SourceUnitIs(c, r.sourceId, a.value); }
    if b.Some? { SourceUnitIs(c, s.sourceId, b.value); }
    forall x | SourceIs(c, r.sourceId, x)
      ensures a == Some(x)
    {
      SourceUnitIs(c, r.sourceId, x);
    }
    forall x | SourceIs(c, s.sourceId, x)
      ensures b == Some(x)
    {
      SourceUnitIs(c, s.sourceId, x);
    }
    assert "count" != "custom" && "count"[2] != "custom"[2];
    if a.Some? && b.Some? && r.kind == CanonicalUnit && s.kind == CanonicalUnit {
      SameDimension(a.value.dimension, b.value.dimension);
    }
  }

  // ---------- What is offered ----------

  // The values picked from some of the positions of a list, in its order.
  ghost predicate Rising(at: seq<nat>, n: nat) {
    && (forall k :: 0 <= k < |at| ==> at[k] < n)
    && forall k, m :: 0 <= k < m < |at| ==> at[k] < at[m]
  }

  // A unit of the same dimension; for a mass, of the mass some version of the ingredient gives the source unit.
  ghost predicate Suits(c: Context, source: Unit, u: Unit) {
    && u.dimension == source.dimension
    && (source.dimension != "mass"
        || exists v :: v in c.versions && v.canonicalUnitId == source.id
             && v.mass == match u.baseUnitFactor case Some(factor) => factor case None => "")
  }

  lemma SuitsIs(c: Context, source: Unit, u: Unit)
    ensures UnitCandidate(c, source.id, source.dimension, u) == if Suits(c, source, u) then Some(u.id) else None
  {
    var mass := match u.baseUnitFactor case Some(factor) => factor case None => "";
    if v :| v in c.versions && v.canonicalUnitId == source.id && v.mass == mass {
      assert v == Version(source.id, mass);
    }
    if HasMass(c, source.id, mass) {
      assert Version(source.id, mass) in c.versions;
    }
  }

  lemma {:induction false} EveryOffered(lists: seq<seq<string>>, ids: seq<string>, some: seq<string>)
    requires forall i :: 0 <= i < |lists| ==> lists[i] == ids
    requires forall x :: x in some ==> x in ids
    ensures Collect(id => InEvery(lists, id), some) == some
  {
    if some != [] {
      EveryOffered(lists, ids, some[..|some| - 1]);
      assert InEvery(lists, some[|some| - 1]) == Some(some[|some| - 1]);
      assert some == some[..|some| - 1] + [some[|some| - 1]];
    }
  }

  lemma {:induction false} SameUnits(c: Context, a: string, b: string, dimension: string, units: seq<Unit>)
    requires dimension != "mass"
    ensures Collect((u: Unit) => UnitCandidate(c, a, dimension, u), units) ==
      Collect((u: Unit) => UnitCandidate(c, b, dimension, u), units)
  {
    if units != [] { SameUnits(c, a, b, dimension, units[..|units| - 1]); }
  }

  // Two members of a group are offered the same values on their own.
  lemma OfferedTogether(c: Context, r: Requirement, s: Requirement)
    requires SameGroup(c, r, s)
    ensures CandidateIds(c, r) == CandidateIds(c, s)
  {
    TogetherIs(c, r, s);
    hide SourceIs;
    var a, b :| SourceIs(c, r.sourceId, a) && SourceIs(c, s.sourceId, b)
      && a.dimension == b.dimension && (a.dimension == "count" || a.dimension == "custom");
    SourceUnitIs(c, r.sourceId, a);
    SourceUnitIs(c, s.sourceId, b);
    assert "count"[0] == 'c' && "custom"[0] == 'c' && "mass"[0] == 'm';
    hide SourceUnit;
    SameUnits(c, r.sourceId, s.sourceId, a.dimension, c.units);
  }

  // A requirement is offered what it would be offered on its own.
  lemma OfferedAlone(c: Context, requirements: seq<Requirement>, r: Requirement)
    requires r in requirements
    ensures CandidatesFor(c, requirements, r) == CandidateIds(c, r)
  {
    hide CandidateIds, GroupKey;
    var group := GroupKey(c, r);
    if group.Some? {
      var f := (item: Requirement) => GroupCandidates(c, group.value, item);
      var lists := Collect(f, requirements);
      var at := CollectedAll(f, requirements);
      var i :| 0 <= i < |requirements| && requirements[i] == r;
      assert f(requirements[i]).Some?;
      assert i in at;
      forall k | 0 <= k < |lists|
        ensures lists[k] == CandidateIds(c, r)
      {
        OfferedTogether(c, requirements[at[k]], r);
      }
      EveryOffered(lists, CandidateIds(c, r), lists[0]);
    }
  }

  /** For a unit the form offers, in the catalog's order, exactly the units that suit its source. */
  lemma UnitsOffered(c: Context, requirements: seq<Requirement>, r: Requirement, source: Unit) returns (at: seq<nat>)
    requires r in requirements && r.kind == CanonicalUnit && SourceIs(c, r.sourceId, source)
    ensures Rising(at, |c.units|) && |at| == |CandidatesFor(c, requirements, r)|
    ensures forall k :: 0 <= k < |at| ==> CandidatesFor(c, requirements, r)[k] == c.units[at[k]].id
    ensures forall i :: i in at <==> 0 <= i < |c.units| && Suits(c, source, c.units[i])
  {
    OfferedAlone(c, requirements, r);
    SourceUnitIs(c, r.sourceId, source);
    var f := (u: Unit) => UnitCandidate(c, r.sourceId, source.dimension, u);
    assert source.id == r.sourceId;
    assert CandidatesFor(c, requirements, r) == Collect(f, c.units);
    hide CandidatesFor, UnitCandidate, Suits, SourceIs;
    at := CollectedAll(f, c.units);
    forall i | 0 <= i < |c.units|
      ensures f(c.units[i]) == if Suits(c, source, c.units[i]) then Some(c.units[i].id) else None
    {
      SuitsIs(c, source, c.units[i]);
    }
  }

  /** A unit whose source is unknown is offered nothing. */
  lemma UnknownOffered(c: Context, requirements: seq<Requirement>, r: Requirement)
    requires r in requirements && r.kind == CanonicalUnit && forall source :: !SourceIs(c, r.sourceId, source)
    ensures CandidatesFor(c, requirements, r) == []
  {
    OfferedAlone(c, requirements, r);
    if SourceUnit(c, r.sourceId).Some? { SourceUnitIs(c, r.sourceId, SourceUnit(c, r.sourceId).value); }
    hide SourceIs, SourceUnit;
  }

  /** For a section the form offers all sections, and for a tag the tags with its seed key, or all without one. */
  lemma OthersOffered(c: Context, requirements: seq<Requirement>, r: Requirement) returns (at: seq<nat>)
    requires r in requirements
    ensures r.kind == DefaultStoreSection ==> CandidatesFor(c, requirements, r) == c.sections
    ensures r.kind == DietaryTag ==>
      && Rising(at, |c.tags|) && |at| == |CandidatesFor(c, requirements, r)|
      && (forall k :: 0 <= k < |at| ==> CandidatesFor(c, requirements, r)[k] == c.tags[at[k]].id)
      && forall i :: i in at <==>
           0 <= i < |c.tags| && (r.seedKey == None || c.tags[i].seedKey == r.seedKey)
  {
    OfferedAlone(c, requirements, r);
    var f := (t: Tag) => TagCandidate(r.seedKey, t);
    at := [];
    if r.kind == DietaryTag {
      assert CandidatesFor(c, requirements, r) == Collect(f, c.tags);
      at := CollectedAll(f, c.tags);
    }
  }

  // ---------- Complete mappings ----------

  function KeyText(r: Requirement): string {
    match r.kind
    case CanonicalUnit => "canonical_unit:" + r.sourceId
    case DefaultStoreSection => "default_store_section:" + r.sourceId
    case DietaryTag => "dietary_tag:" + r.sourceId
  }

  lemma KeyIs(r: Requirement)
    ensures RequirementKey(r) == KeyText(r)
  {
  }

  // A missing value is as good as none.
  ghost predicate Chosen(m: Mappings, r: Requirement, id: string) {
    KeyText(r) in m && m[KeyText(r)] == Some(id)
  }

  lemma OptionalIs(r: Requirement)
    ensures IsOptional(r) <==> r.kind == DietaryTag && r.seedKey == None
  {
  }

  lemma GroupsBothWays(c: Context, r: Requirement, s: Requirement)
    ensures SameGroup(c, r, s) ==> SameGroup(c, s, r)
  {
  }

  ghost predicate Agreeing(c: Context, requirements: seq<Requirement>, m: Mappings) {
    forall r, s :: r in requirements && s in requirements && SameGroup(c, r, s) ==> ValueOf(m, r) == ValueOf(m, s)
  }

  lemma MembersMet(c: Context, requirements: seq<Requirement>, m: Mappings)
    ensures Complete(c, requirements, m) <==>
      (forall r :: r in requirements ==> Met(c, requirements, m, r)) && Agreeing(c, requirements, m)
  {
    hide Met, SameGroup, ValueOf;
    if Complete(c, requirements, m) {
      forall r | r in requirements
        ensures Met(c, requirements, m, r)
      {
        var i :| 0 <= i < |requirements| && requirements[i] == r;
      }
      forall r, s | r in requirements && s in requirements && SameGroup(c, r, s)
        ensures ValueOf(m, r) == ValueOf(m, s)
      {
        var i, j :| 0 <= i < |requirements| && requirements[i] == r && 0 <= j < |requirements| && requirements[j] == s;
        assert SameGroup(c, requirements[i], requirements[j]);
      }
    }
    if (forall r :: r in requirements ==> Met(c, requirements, m, r)) && Agreeing(c, requirements, m) {
      forall i | 0 <= i < |requirements|
        ensures Met(c, requirements, m, requirements[i])
      {
        assert requirements[i] in requirements;
      }
      forall i, j | 0 <= i < |requirements| && 0 <= j < |requirements| && SameGroup(c, requirements[i], requirements[j])
        ensures ValueOf(m, requirements[i]) == ValueOf(m, requirements[j])
      {
        assert requirements[i] in requirements && requirements[j] in requirements;
      }
    }
  }

  /** A mapping is complete exactly when everything but a tag without a seed key has a value, every value is an
      offered one, and units to be mapped together have one value. */
  lemma CompleteIs(c: Context, requirements: seq<Requirement>, m: Mappings)
    ensures Complete(c, requirements, m) <==>
      && (forall r :: r in requirements && !(exists id :: Chosen(m, r, id)) ==>
            r.kind == DietaryTag && r.seedKey == None)
      && (forall r, id :: r in requirements && Chosen(m, r, id) ==> id in CandidatesFor(c, requirements, r))
      && (forall r, s, id :: r in requirements && s in requirements && Together(c, r, s) && Chosen(m, r, id) ==>
            Chosen(m, s, id))
  {
    hide CandidatesFor, RequirementKey, KeyText, SameGroup, Together, IsOptional;
    MembersMet(c, requirements, m);
    hide Complete;
    forall r
      ensures forall id :: ValueOf(m, r) == Some(id) <==> Chosen(m, r, id)
      ensures IsOptional(r) <==> r.kind == DietaryTag && r.seedKey == None
    {
      KeyIs(r);
      OptionalIs(r);
    }
    forall r, s
      ensures SameGroup(c, r, s) <==> Together(c, r, s)
      ensures SameGroup(c, r, s) ==> SameGroup(c, s, r)
    {
      TogetherIs(c, r, s);
      GroupsBothWays(c, r, s);
    }
    hide ValueOf, Chosen;
    forall r
      ensures ValueOf(m, r).None? <==> !exists id :: Chosen(m, r, id)
    {
      if ValueOf(m, r).Some? { assert Chosen(m, r, ValueOf(m, r).value); }
    }
    if (forall r :: r in requirements ==> Met(c, requirements, m, r)) && Agreeing(c, requirements, m) {
      forall r, s, id | r in requirements && s in requirements && Together(c, r, s) && Chosen(m, r, id)
        ensures Chosen(m, s, id)
      {
        assert ValueOf(m, r) == ValueOf(m, s);
      }
    }
  }
}
