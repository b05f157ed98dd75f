/** Mapping the dependencies of a copied ingredient onto the catalog of another organization. */
module CopyMappings {
  import opened Wrappers
  import opened Lists

  datatype Kind = CanonicalUnit | DefaultStoreSection | DietaryTag

  datatype Requirement = Requirement(kind: Kind, sourceId: string, seedKey: Option<string>)

  datatype Unit = Unit(id: string, dimension: string, baseUnitFactor: Option<string>)

  datatype Tag = Tag(id: string, seedKey: Option<string>)

  datatype Version = Version(canonicalUnitId: string, mass: string)

  /** What the choices depend on: the source's units, the versions of the ingredient, and the
      destination's units, sections and tags. */
  datatype Context = Context(
    sourceUnits: seq<Unit>, versions: seq<Version>, units: seq<Unit>, sections: seq<string>, tags: seq<Tag>)

  // The record of chosen values, by requirement key; `None` is null.
  type Mappings = map<string, Option<string>>

  function KindName(kind: Kind): string {
    match kind
    case CanonicalUnit => "canonical_unit"
    case DefaultStoreSection => "default_store_section"
    case DietaryTag => "dietary_tag"
  }

  function RequirementKey(r: Requirement): string {
    KindName(r.kind) + ":" + r.sourceId
  }

  function SourceUnit(c: Context, id: string): Option<Unit> {
    FindFirst((u: Unit) => u.id == id, c.sourceUnits)
  }

  predicate HasMass(c: Context, unitId: string, mass: string) {
    exists i | 0 <= i < |c.versions| :: c.versions[i] == Version(unitId, mass)
  }

  function UnitCandidate(c: Context, sourceId: string, dimension: string, u: Unit): Option<string> {
    if u.dimension == dimension && (dimension != "mass" || HasMass(c, sourceId, u.baseUnitFactor.GetOr("")))
    then Some(u.id) else None
  }

  function TagCandidate(seedKey: Option<string>, t: Tag): Option<string> {
    if seedKey.None? || t.seedKey == seedKey then Some(t.id) else None
  }

  function CandidateIds(c: Context, r: Requirement): seq<string> {
    match r.kind
    case CanonicalUnit =>
      var source := SourceUnit(c, r.sourceId);
      if source.None? then [] else Collect(u => UnitCandidate(c, r.sourceId, source.value.dimension, u), c.units)
    case DefaultStoreSection => c.sections
    case DietaryTag => Collect(t => TagCandidate(r.seedKey, t), c.tags)
  }

  // Units counted or custom are chosen together; `None` for a requirement on its own.
  function GroupKey(c: Context, r: Requirement): Option<string> {
    if r.kind != CanonicalUnit then None
    else
      var source := SourceUnit(c, r.sourceId);
      if source.Some? && (source.value.dimension == "count" || source.value.dimension == "custom")
      then Some(KindName(r.kind) + ":" + source.value.dimension) else None
  }

  function GroupCandidates(c: Context, group: string, r: Requirement): Option<seq<string>> {
    if GroupKey(c, r) == Some(group) then Some(CandidateIds(c, r)) else None
  }

  function InEvery(lists: seq<seq<string>>, id: string): Option<string> {
    if forall i | 0 <= i < |lists| :: id in lists[i] then Some(id) else None
  }

  function CandidatesFor(c: Context, requirements: seq<Requirement>, r: Requirement): seq<string> {
    var group := GroupKey(c, r);
    if group.None? then CandidateIds(c, r)
    else
      var lists := Collect(item => GroupCandidates(c, group.value, item), requirements);
      if lists == [] then [] else Collect(id => InEvery(lists, id), lists[0])
  }

  // ---------- Complete mappings ----------

  predicate IsOptional(r: Requirement) {
    r.kind == DietaryTag && r.seedKey.None?
  }

  function ValueOf(m: Mappings, r: Requirement): Option<string> {
    if RequirementKey(r) in m then m[RequirementKey(r)] else None
  }

  // A requirement is met: a value where one is needed, and only an offered one.
  predicate Met(c: Context, requirements: seq<Requirement>, m: Mappings, r: Requirement) {
    var value := ValueOf(m, r);
    && (value.None? ==> IsOptional(r))
    && (value.Some? ==> value.value in CandidatesFor(c, requirements, r))
  }

  predicate SameGroup(c: Context, r: Requirement, s: Requirement) {
    GroupKey(c, r).Some? && GroupKey(c, r) == GroupKey(c, s)
  }

  ghost predicate Complete(c: Context, requirements: seq<Requirement>, m: Mappings) {
    && (forall i :: 0 <= i < |requirements| ==> Met(c, requirements, m, requirements[i]))
    && (forall i, j ::
          0 <= i < |requirements| && 0 <= j < |requirements| && SameGroup(c, requirements[i], requirements[j]) ==>
          ValueOf(m, requirements[i]) == ValueOf(m, requirements[j]))
  }

  // ---------- The automatic mapping ----------

  function AutoValue(c: Context, requirements: seq<Requirement>, r: Requirement): Option<string> {
    if IsOptional(r) then None
    else
      var candidates := CandidatesFor(c, requirements, r);
      if candidates == [] then None else Some(candidates[0])
  }

  // The first loop: each requirement in turn takes its first candidate.
  function FirstChoices(c: Context, requirements: seq<Requirement>, some: seq<Requirement>): Mappings {
    if some == [] then map[]
    else
      var last := some[|some| - 1];
      FirstChoices(c, requirements, some[..|some| - 1])[RequirementKey(last) := AutoValue(c, requirements, last)]
  }

  ghost predicate DistinctKeys(requirements: seq<Requirement>) {
    forall i, j :: 0 <= i < j < |requirements| ==> RequirementKey(requirements[i]) != RequirementKey(requirements[j])
  }

  // The kind of a requirement can be read off its key, and so can its source.
  lemma KeyDetermines(r: Requirement, s: Requirement)
    requires RequirementKey(r) == RequirementKey(s)
    ensures r.kind == s.kind && r.sourceId == s.sourceId
  {
    var a, b := RequirementKey(r), RequirementKey(s);
    assert a[0] == KindName(r.kind)[0] && b[0] == KindName(s.kind)[0];
    assert a[2] == KindName(r.kind)[2] && b[2] == KindName(s.kind)[2];
    assert r.sourceId == a[|KindName(r.kind)| + 1..] && s.sourceId == b[|KindName(s.kind)| + 1..];
  }

  // Requirements of one group are offered the same values.
  lemma GroupOffersSame(c: Context, requirements: seq<Requirement>, r: Requirement, s: Requirement)
    requires SameGroup(c, r, s)
    ensures CandidatesFor(c, requirements, r) == CandidatesFor(c, requirements, s)
    ensures AutoValue(c, requirements, r) == AutoValue(c, requirements, s)
  {
  }

  lemma {:induction false} FirstChoicesAre(c: Context, requirements: seq<Requirement>, some: seq<Requirement>, i: nat)
    requires i < |some|
    requires some[i].kind == CanonicalUnit
      || forall j :: i < j < |some| ==> RequirementKey(some[j]) != RequirementKey(some[i])
    ensures RequirementKey(some[i]) in FirstChoices(c, requirements, some)
    ensures ValueOf(FirstChoices(c, requirements, some), some[i]) == AutoValue(c, requirements, some[i])
  {
    hide AutoValue, RequirementKey;
    var last := some[|some| - 1];
    if i < |some| - 1 {
      FirstChoicesAre(c, requirements, some[..|some| - 1], i);
      if RequirementKey(last) == RequirementKey(some[i]) {
        SameKeySameValue(c, requirements, last, some[i]);
      }
    }
  }

  lemma SameKeySameValue(c: Context, requirements: seq<Requirement>, r: Requirement, s: Requirement)
    requires RequirementKey(r) == RequirementKey(s) && s.kind == CanonicalUnit
    ensures AutoValue(c, requirements, r) == AutoValue(c, requirements, s)
  {
    KeyDetermines(r, s);
    assert CandidateIds(c, r) == CandidateIds(c, s);
    assert GroupKey(c, r) == GroupKey(c, s);
  }

  // First choices, then every group made equal.
  method InitialMappings(c: Context, requirements: seq<Requirement>) returns (mappings: Mappings)
    ensures mappings == FirstChoices(c, requirements, requirements)
  {
    mappings := map[];
    for i := 0 to |requirements|
      invariant mappings == FirstChoices(c, requirements, requirements[..i])
    {
      hide CandidatesFor;
      assert requirements[..i + 1][..i] == requirements[..i];
      var requirement := requirements[i];
      var candidates := CandidatesFor(c, requirements, requirement);
      mappings := mappings[RequirementKey(requirement) :=
        if IsOptional(requirement) then None else if candidates == [] then None else Some(candidates[0])];
    }
    assert requirements[..|requirements|] == requirements;
    for i := 0 to |requirements|
      invariant mappings == FirstChoices(c, requirements, requirements)
    {
      hide FirstChoices, GroupKey, RequirementKey, AutoValue;
      var requirement := requirements[i];
      var group := GroupKey(c, requirement);
      if group.Some? {
        GroupedIsUnit(c, requirement);
        FirstChoicesAre(c, requirements, requirements, i);
        var value := mappings[RequirementKey(requirement)];
        for j := 0 to |requirements|
          invariant mappings == FirstChoices(c, requirements, requirements)
        {
          if GroupKey(c, requirements[j]) == group {
            GroupedIsUnit(c, requirements[j]);
            FirstChoicesAre(c, requirements, requirements, j);
            GroupOffersSame(c, requirements, requirement, requirements[j]);
            PutSame(mappings, RequirementKey(requirements[j]), value);
            mappings := mappings[RequirementKey(requirements[j]) := value];
          }
        }
      }
    }
  }

  lemma GroupedIsUnit(c: Context, r: Requirement)
    ensures GroupKey(c, r).Some? ==> r.kind == CanonicalUnit
  {
  }

  lemma PutSame(m: Mappings, key: string, value: Option<string>)
    ensures key in m && m[key] == value ==> m[key := value] == m
  {
  }

  lemma AutoIsAuto(c: Context, requirements: seq<Requirement>, i: nat)
    requires DistinctKeys(requirements) && i < |requirements|
    ensures ValueOf(FirstChoices(c, requirements, requirements), requirements[i])
      == AutoValue(c, requirements, requirements[i])
  {
    FirstChoicesAre(c, requirements, requirements, i);
  }

  /** The automatic mapping is complete exactly when some complete mapping exists. */
  lemma AutoCompleteIffPossible(c: Context, requirements: seq<Requirement>)
    requires DistinctKeys(requirements)
    ensures Complete(c, requirements, FirstChoices(c, requirements, requirements)) <==>
      exists m :: Complete(c, requirements, m)
  {
    var auto := FirstChoices(c, requirements, requirements);
    if m :| Complete(c, requirements, m) {
      hide FirstChoices, CandidatesFor, GroupKey, RequirementKey, ValueOf, DistinctKeys;
      forall i | 0 <= i < |requirements|
        ensures Met(c, requirements, auto, requirements[i])
      {
        AutoIsAuto(c, requirements, i);
        assert Met(c, requirements, m, requirements[i]);
      }
      forall i, j | 0 <= i < |requirements| && 0 <= j < |requirements| && SameGroup(c, requirements[i], requirements[j])
        ensures ValueOf(auto, requirements[i]) == ValueOf(auto, requirements[j])
      {
        AutoIsAuto(c, requirements, i);
        AutoIsAuto(c, requirements, j);
        GroupOffersSame(c, requirements, requirements[i], requirements[j]);
      }
    }
  }

  // ---------- Selections ----------

  // The keys a selection writes: the requirement's and those of its group.
  function SelectedKeys(c: Context, requirements: seq<Requirement>, r: Requirement): set<string> {
    {RequirementKey(r)}
    + set i | 0 <= i < |requirements| && SameGroup(c, r, requirements[i]) :: RequirementKey(requirements[i])
  }

  function Selected(c: Context, requirements: seq<Requirement>, m: Mappings, r: Requirement,
        value: Option<string>): Mappings
  {
    m + map key | key in SelectedKeys(c, requirements, r) :: value
  }

  /** A choice in the form: which requirement, and an offered value or none. */
  datatype Selection = Selection(index: nat, value: Option<string>)

  predicate Offered(c: Context, requirements: seq<Requirement>, s: Selection) {
    && s.index < |requirements|
    && (s.value.Some? ==> s.value.value in CandidatesFor(c, requirements, requirements[s.index]))
  }

  function AfterSelections(c: Context, requirements: seq<Requirement>, selections: seq<Selection>): Mappings
    requires forall i :: 0 <= i < |selections| ==> Offered(c, requirements, selections[i])
  {
    if selections == [] then FirstChoices(c, requirements, requirements)
    else
      var last := selections[|selections| - 1];
      assert Offered(c, requirements, last);
      Selected(c, requirements, AfterSelections(c, requirements, selections[..|selections| - 1]),
        requirements[last.index], last.value)
  }

  // Groups are equal, and every value is an offered one.
  ghost predicate Consistent(c: Context, requirements: seq<Requirement>, m: Mappings) {
    && (forall i :: 0 <= i < |requirements| && ValueOf(m, requirements[i]).Some? ==>
        ValueOf(m, requirements[i]).value in CandidatesFor(c, requirements, requirements[i]))
    && (forall i, j ::
          0 <= i < |requirements| && 0 <= j < |requirements| && SameGroup(c, requirements[i], requirements[j]) ==>
          ValueOf(m, requirements[i]) == ValueOf(m, requirements[j]))
  }

  lemma SelectedValue(c: Context, requirements: seq<Requirement>, m: Mappings, k: nat, value: Option<string>, i: nat)
    requires DistinctKeys(requirements) && k < |requirements| && i < |requirements|
    ensures ValueOf(Selected(c, requirements, m, requirements[k], value), requirements[i])
      == if i == k || SameGroup(c, requirements[k], requirements[i]) then value else ValueOf(m, requirements[i])
  {
    hide RequirementKey, SameGroup;
  }

  lemma SelectionKeeps(c: Context, requirements: seq<Requirement>, m: Mappings, s: Selection)
    requires DistinctKeys(requirements) && Consistent(c, requirements, m) && Offered(c, requirements, s)
    ensures Consistent(c, requirements, Selected(c, requirements, m, requirements[s.index], s.value))
  {
    hide RequirementKey, CandidatesFor, ValueOf, DistinctKeys, GroupKey;
    var m' := Selected(c, requirements, m, requirements[s.index], s.value);
    forall i | 0 <= i < |requirements|
      ensures ValueOf(m', requirements[i])
        == if i == s.index || SameGroup(c, requirements[s.index], requirements[i]) then s.value
          else ValueOf(m, requirements[i])
    {
      SelectedValue(c, requirements, m, s.index, s.value, i);
    }
    forall i | 0 <= i < |requirements| && ValueOf(m', requirements[i]).Some?
      ensures ValueOf(m', requirements[i]).value in CandidatesFor(c, requirements, requirements[i])
    {
      if SameGroup(c, requirements[s.index], requirements[i]) {
        GroupOffersSame(c, requirements, requirements[s.index], requirements[i]);
      }
    }
  }

  /** From the automatic mapping on, every sequence of selections from the offered candidates keeps
      the groups equal and every value among its candidates. */
  lemma {:induction false} SelectionsKeep(c: Context, requirements: seq<Requirement>, selections: seq<Selection>)
    requires DistinctKeys(requirements)
    requires forall i :: 0 <= i < |selections| ==> Offered(c, requirements, selections[i])
    ensures Consistent(c, requirements, AfterSelections(c, requirements, selections))
  {
    if selections == [] {
      hide FirstChoices, CandidatesFor, GroupKey, RequirementKey, ValueOf, DistinctKeys;
      var auto := FirstChoices(c, requirements, requirements);
      forall i | 0 <= i < |requirements|
        ensures ValueOf(auto, requirements[i]) == AutoValue(c, requirements, requirements[i])
      {
        AutoIsAuto(c, requirements, i);
      }
      forall i, j | 0 <= i < |requirements| && 0 <= j < |requirements| && SameGroup(c, requirements[i], requirements[j])
        ensures ValueOf(auto, requirements[i]) == ValueOf(auto, requirements[j])
      {
        GroupOffersSame(c, requirements, requirements[i], requirements[j]);
      }
    } else {
      hide Consistent, Selected, Offered;
      SelectionsKeep(c, requirements, selections[..|selections| - 1]);
      assert Offered(c, requirements, selections[|selections| - 1]);
      SelectionKeeps(c, requirements, AfterSelections(c, requirements, selections[..|selections| - 1]),
        selections[|selections| - 1]);
    }
  }

  /** So a mapping made in the form is complete as soon as everything required has a value. */
  lemma CompleteWhenFilled(c: Context, requirements: seq<Requirement>, selections: seq<Selection>)
    requires DistinctKeys(requirements)
    requires forall i :: 0 <= i < |selections| ==> Offered(c, requirements, selections[i])
    ensures var m := AfterSelections(c, requirements, selections);
      Complete(c, requirements, m) <==>
      forall i :: 0 <= i < |requirements| && !IsOptional(requirements[i]) ==> ValueOf(m, requirements[i]).Some?
  {
    hide AfterSelections, CandidatesFor, GroupKey, RequirementKey, ValueOf, DistinctKeys;
    SelectionsKeep(c, requirements, selections);
    var m := AfterSelections(c, requirements, selections);
    if Complete(c, requirements, m) {
      forall i | 0 <= i < |requirements| && !IsOptional(requirements[i])
        ensures ValueOf(m, requirements[i]).Some?
      {
        assert Met(c, requirements, m, requirements[i]);
      }
    }
  }

  // ---------- Checking completeness ----------

  // The members of a group, in the order of the requirements.
  function GroupMember(c: Context, group: string, r: Requirement): Option<Requirement> {
    if GroupKey(c, r) == Some(group) then Some(r) else None
  }

  function GroupOf(c: Context, group: string, some: seq<Requirement>): seq<Requirement> {
    Collect(r => GroupMember(c, group, r), some)
  }

  predicate AllEqual(m: Mappings, some: seq<Requirement>) {
    forall i | 0 <= i < |some| :: ValueOf(m, some[i]).Some? && ValueOf(m, some[i]) == ValueOf(m, some[0])
  }

  lemma {:induction false} GroupHas(c: Context, group: string, some: seq<Requirement>, i: nat)
    requires i < |some| && GroupKey(c, some[i]) == Some(group)
    ensures exists k :: 0 <= k < |GroupOf(c, group, some)| && GroupOf(c, group, some)[k] == some[i]
  {
    hide GroupKey;
    var last, earlier := |some| - 1, GroupOf(c, group, some[..|some| - 1]);
    if i < last {
      GroupHas(c, group, some[..last], i);
      var k :| 0 <= k < |earlier| && earlier[k] == some[i];
      assert GroupOf(c, group, some)[k] == some[i];
    } else {
      assert GroupOf(c, group, some)[|earlier|] == some[i];
    }
  }

  lemma GroupStep(c: Context, some: seq<Requirement>, k: nat, group: string)
    requires k < |some|
    ensures GroupOf(c, group, some[..k + 1]) ==
      GroupOf(c, group, some[..k]) + if GroupKey(c, some[k]) == Some(group) then [some[k]] else []
  {
    hide GroupKey;
    assert some[..k + 1][..k] == some[..k];
  }

  lemma GroupsEqual(c: Context, requirements: seq<Requirement>, m: Mappings)
    requires forall i :: 0 <= i < |requirements| ==> Met(c, requirements, m, requirements[i])
    ensures Complete(c, requirements, m) <==> forall group :: AllEqual(m, GroupOf(c, group, requirements))
  {
    hide CandidatesFor, GroupKey, RequirementKey;
    if Complete(c, requirements, m) {
      forall group
        ensures AllEqual(m, GroupOf(c, group, requirements))
      {
        var members := GroupOf(c, group, requirements);
        forall k | 0 <= k < |members|
          ensures ValueOf(m, members[k]).Some? && ValueOf(m, members[k]) == ValueOf(m, members[0])
        {
          var i := CollectedFrom(r => GroupMember(c, group, r), requirements, k);
          var j := CollectedFrom(r => GroupMember(c, group, r), requirements, 0);
          GroupedIsUnit(c, requirements[i]);
          assert SameGroup(c, requirements[i], requirements[j]);
        }
      }
    }
    if forall group :: AllEqual(m, GroupOf(c, group, requirements)) {
      forall i, j | 0 <= i < |requirements| && 0 <= j < |requirements| && SameGroup(c, requirements[i], requirements[j])
        ensures ValueOf(m, requirements[i]) == ValueOf(m, requirements[j])
      {
        var group := GroupKey(c, requirements[i]).value;
        assert AllEqual(m, GroupOf(c, group, requirements));
        GroupHas(c, group, requirements, i);
        GroupHas(c, group, requirements, j);
      }
    }
  }

  // The map holds every group of the requirements seen so far.
  ghost predicate Grouped(c: Context, groups: map<string, seq<Requirement>>, some: seq<Requirement>) {
    forall group :: Lookup(groups, group).GetOr([]) == GroupOf(c, group, some)
  }

  lemma GroupedStep(c: Context, groups: map<string, seq<Requirement>>, some: seq<Requirement>, k: nat)
    requires k < |some| && Grouped(c, groups, some[..k])
    ensures GroupKey(c, some[k]).None? ==> Grouped(c, groups, some[..k + 1])
    ensures GroupKey(c, some[k]).Some? ==>
      var group := GroupKey(c, some[k]).value;
      Grouped(c, groups[group := Lookup(groups, group).GetOr([]) + [some[k]]], some[..k + 1])
  {
    hide GroupKey, GroupOf;
    var key := GroupKey(c, some[k]);
    var groups' := if key.Some? then groups[key.value := Lookup(groups, key.value).GetOr([]) + [some[k]]] else groups;
    forall group
      ensures Lookup(groups', group).GetOr([]) == GroupOf(c, group, some[..k + 1])
    {
      GroupStep(c, some, k, group);
      assert Lookup(groups, group).GetOr([]) == GroupOf(c, group, some[..k]);
    }
  }

  // Whether the members of each group have one value.
  method GroupsHaveOneValue(m: Mappings, groups: map<string, seq<Requirement>>) returns (equal: bool)
    ensures equal <==> forall group :: group in groups ==> AllEqual(m, groups[group])
  {
    hide AllEqual;
    var rest := groups.Keys;
    while rest != {}
      invariant rest <= groups.Keys
      invariant forall group :: group in groups && group !in rest ==> AllEqual(m, groups[group])
      decreases rest
    {
      var group :| group in rest;
      rest := rest - {group};
      if !AllEqual(m, groups[group]) { return false; }
    }
    return true;
  }

  lemma GroupedEqual(c: Context, groups: map<string, seq<Requirement>>, requirements: seq<Requirement>, m: Mappings)
    requires Grouped(c, groups, requirements)
    ensures (forall group :: group in groups ==> AllEqual(m, groups[group])) <==>
      forall group :: AllEqual(m, GroupOf(c, group, requirements))
  {
    hide GroupOf, ValueOf;
    forall group
      ensures AllEqual(m, GroupOf(c, group, requirements)) <==> (group in groups ==> AllEqual(m, groups[group]))
    {
      assert Lookup(groups, group).GetOr([]) == GroupOf(c, group, requirements);
    }
  }

  method MappingsAreComplete(c: Context, requirements: seq<Requirement>, m: Mappings) returns (complete: bool)
    ensures complete <==> Complete(c, requirements, m)
  {
    hide CandidatesFor, GroupKey, GroupOf, RequirementKey, Grouped, AllEqual, Met;
    var groups: map<string, seq<Requirement>> := map[];
    NothingGrouped(c, requirements);
    for k := 0 to |requirements|
      invariant forall i :: 0 <= i < k ==> Met(c, requirements, m, requirements[i])
      invariant Grouped(c, groups, requirements[..k])
    {
      var requirement := requirements[k];
      GroupedStep(c, groups, requirements, k);
      var group := GroupKey(c, requirement);
      if group.Some? {
        groups := groups[group.value := Lookup(groups, group.value).GetOr([]) + [requirement]];
      }
      if !Met(c, requirements, m, requirement) { return false; }
    }
    assert requirements[..|requirements|] == requirements;
    GroupsEqual(c, requirements, m);
    GroupedEqual(c, groups, requirements, m);
    complete := GroupsHaveOneValue(m, groups);
  }

  lemma NothingGrouped(c: Context, requirements: seq<Requirement>)
    ensures Grouped(c, map[], requirements[..0])
  {
  }
}
