/**
 * Preparing a stored work for presentation: count its manifestations, keep
 * only the ones the search index shows the caller, attach each unit's
 * relation indexes and flatten the survivors into one list ordered by id.
 */
module FilterResults {
  import opened Wrappers
  import opened TypedValues
  import opened PresentationPojo
  import opened NaturalSorting
  import RelationIndex

  /** A manifestation as the service returns it, with the relation indexes of its unit once assigned. */
  datatype ManifestationResponse = ManifestationResponse(
    id: Option<string>,
    title: Option<string>,
    fullTitle: Option<string>,
    creators: Option<seq<TypedValue>>,
    description: Option<string>,
    subjects: Option<seq<TypedValue>>,
    types: Option<seq<string>>,
    relations: Option<seq<int>>)

  /** `ManifestationInformationResponse.from`: seven fields copied, no relations yet. */
  function ResponseFrom(m: ManifestationInformation): (r: ManifestationResponse)
    ensures r.id == m.manifestationId && r.types == m.materialTypes && r.relations.None?
  {
    ManifestationResponse(m.manifestationId, m.title, m.fullTitle, m.creators, m.description, m.subjects, m.materialTypes, None)
  }

  /** A work as stored: its units of manifestations and its units of related manifestations. */
  datatype Work = Work(
    workId: Option<string>,
    title: Option<string>,
    fullTitle: Option<string>,
    description: Option<string>,
    units: map<string, set<ManifestationInformation>>,
    relUnits: map<string, seq<RelationInformation>>)

  /** A work as presented. */
  datatype WorkResponse = WorkResponse(
    workId: Option<string>,
    title: Option<string>,
    fullTitle: Option<string>,
    description: Option<string>,
    records: seq<ManifestationResponse>,
    relations: seq<RelationIndex.Response>)

  // ---------------------------------------------------------------------
  // The manifestation count handed to the search index
  // ---------------------------------------------------------------------

  /** The sum of the units' sizes. */
  ghost function SumSizes(units: map<string, set<ManifestationInformation>>): nat
    decreases |units|
  {
    if units == map[] then 0
    else
      var u :| u in units;
      |units[u]| + SumSizes(units - {u})
  }

  /** The sum does not depend on which unit is taken first. */
  lemma {:induction false} SumSizesAny(units: map<string, set<ManifestationInformation>>, k: string)
    requires k in units
    ensures SumSizes(units) == |units[k]| + SumSizes(units - {k})
    decreases |units|
  {
    var u :| u in units && SumSizes(units) == |units[u]| + SumSizes(units - {u});
    if u != k {
      assert k in units - {u};
      SumSizesAny(units - {u}, k);
      assert u in units - {k};
      SumSizesAny(units - {k}, u);
      assert units - {u} - {k} == units - {k} - {u};
    }
  }

  /** Each unit's size is part of the count. */
  lemma UnitWithinCount(units: map<string, set<ManifestationInformation>>, k: string)
    requires k in units
    ensures |units[k]| <= SumSizes(units)
  {
    SumSizesAny(units, k);
  }

  /** `mapToInt(Set::size).sum()`: the number of manifestations over all units. */
  method ManifestationCount(units: map<string, set<ManifestationInformation>>) returns (n: nat)
    ensures n == SumSizes(units)
  {
    n := 0;
    var rest := units;
    while rest != map[]
      invariant n + SumSizes(rest) == SumSizes(units)
      decreases |rest|
    {
      var u :| u in rest;
      SumSizesAny(rest, u);
      n := n + |rest[u]|;
      rest := rest - {u};
    }
  }

  // ---------------------------------------------------------------------
  // Filtering, relation assignment and flattening
  // ---------------------------------------------------------------------

  /** `visibleManifestations.contains(m.manifestationId)`: a null id is never visible. */
  predicate Visible(m: ManifestationInformation, visible: set<string>)
  {
    m.manifestationId.Some? && m.manifestationId.value in visible
  }

  /** The responses of a unit's visible manifestations. */
  function VisibleResponses(ms: set<ManifestationInformation>, visible: set<string>): set<ManifestationResponse>
  {
    set m | m in ms && Visible(m, visible) :: ResponseFrom(m)
  }

  /** The filtered units: only visible manifestations, and only units where one survives. */
  function FilterUnits(units: map<string, set<ManifestationInformation>>, visible: set<string>): map<string, set<ManifestationResponse>>
  {
    map u | u in units && VisibleResponses(units[u], visible) != {} :: VisibleResponses(units[u], visible)
  }

  /** A unit survives exactly when one of its manifestations is visible, and keeps exactly those. */
  lemma FilterUnitsSurvivors(units: map<string, set<ManifestationInformation>>, visible: set<string>, u: string)
    ensures u in FilterUnits(units, visible) <==> u in units && exists m :: m in units[u] && Visible(m, visible)
    ensures u in FilterUnits(units, visible) ==>
      forall x :: x in FilterUnits(units, visible)[u] <==> exists m :: m in units[u] && Visible(m, visible) && x == ResponseFrom(m)
  {
    if u in units && exists m :: m in units[u] && Visible(m, visible) {
      var m :| m in units[u] && Visible(m, visible);
      assert ResponseFrom(m) in VisibleResponses(units[u], visible);
    }
  }

  /** `unitRelationIndexes(unitId)`: the unit's array, or the empty one. */
  function ArrayFor(arrays: map<string, seq<int>>, u: string): seq<int>
  {
    if u in arrays then arrays[u] else []
  }

  /** The `forEach` that gives every response of a unit that unit's relation indexes. */
  function WithRelations(units: map<string, set<ManifestationResponse>>, arrays: map<string, seq<int>>): map<string, set<ManifestationResponse>>
  {
    map u | u in units :: set m | m in units[u] :: m.(relations := Some(ArrayFor(arrays, u)))
  }

  /** All responses of all units, each once. */
  function Flatten(units: map<string, set<ManifestationResponse>>): set<ManifestationResponse>
  {
    set u, m | u in units && m in units[u] :: m
  }

  /**
   * What the records are, said directly from the stored work: the response
   * of every visible manifestation, carrying the relation indexes of its
   * unit.
   */
  ghost function Records(units: map<string, set<ManifestationInformation>>, visible: set<string>, arrays: map<string, seq<int>>): set<ManifestationResponse>
  {
    set u, m | u in units && m in units[u] && Visible(m, visible) :: ResponseFrom(m).(relations := Some(ArrayFor(arrays, u)))
  }

  /** Filtering, assigning and flattening gives exactly those records. */
  lemma FlattenIsRecords(units: map<string, set<ManifestationInformation>>, visible: set<string>, arrays: map<string, seq<int>>)
    ensures Flatten(WithRelations(FilterUnits(units, visible), arrays)) == Records(units, visible, arrays)
  {
    var f := FilterUnits(units, visible);
    var w := WithRelations(f, arrays);
    forall x | x in Records(units, visible, arrays) ensures x in Flatten(w) {
      var u, m :| u in units && m in units[u] && Visible(m, visible) && x == ResponseFrom(m).(relations := Some(ArrayFor(arrays, u)));
      assert ResponseFrom(m) in VisibleResponses(units[u], visible);
      assert u in f && ResponseFrom(m) in f[u];
      assert x in w[u];
    }
    forall x | x in Flatten(w) ensures x in Records(units, visible, arrays) {
      var u, y :| u in w && y in w[u] && x == y;
      var r: ManifestationResponse :| r in f[u] && y == r.(relations := Some(ArrayFor(arrays, u)));
      var m: ManifestationInformation :| m in units[u] && Visible(m, visible) && r == ResponseFrom(m);
    }
  }

  /** Every record has an id, so the records can be ordered by it. */
  lemma RecordsHaveIds(units: map<string, set<ManifestationInformation>>, visible: set<string>, arrays: map<string, seq<int>>)
    ensures forall x :: x in Records(units, visible, arrays) ==> x.id.Some?
  {
  }

  // ---------------------------------------------------------------------
  // Ordering the records by id
  // ---------------------------------------------------------------------

  /** Every record of the list has an id. */
  predicate HaveIds(list: seq<ManifestationResponse>)
  {
    forall x :: x in list ==> x.id.Some?
  }

  /** The records are in ascending id order, as Java compares strings. */
  predicate IdsAscending(list: seq<ManifestationResponse>)
    requires HaveIds(list)
  {
    forall i, j :: 0 <= i < j < |list| ==> CompareStrings(list[i].id.value, list[j].id.value) <= 0
  }

  /** Insert `x` before the first record whose id it does not follow. */
  function InsertById(x: ManifestationResponse, sorted: seq<ManifestationResponse>): (r: seq<ManifestationResponse>)
    requires x.id.Some? && HaveIds(sorted)
    ensures multiset(r) == multiset(sorted) + multiset{x}
  {
    if sorted == [] then [x]
    else if CompareStrings(x.id.value, sorted[0].id.value) <= 0 then [x] + sorted
    else
      assert sorted == [sorted[0]] + sorted[1..];
      [sorted[0]] + InsertById(x, sorted[1..])
  }

  /** An element of the result of inserting is `x` or an element of the list. */
  lemma InsertByIdElements(x: ManifestationResponse, sorted: seq<ManifestationResponse>, y: ManifestationResponse)
    requires x.id.Some? && HaveIds(sorted)
    requires y in InsertById(x, sorted)
    ensures y == x || y in sorted
  {
    assert y in multiset(InsertById(x, sorted));
  }

  /** A record whose id precedes every id of an ordered list may go in front of it. */
  lemma PrependAscending(x: ManifestationResponse, s: seq<ManifestationResponse>)
    requires x.id.Some? && HaveIds(s) && IdsAscending(s)
    requires forall y :: y in s ==> CompareStrings(x.id.value, y.id.value) <= 0
    ensures HaveIds([x] + s) && IdsAscending([x] + s)
  {
    var r := [x] + s;
    forall i, j | 0 <= i < j < |r| ensures CompareStrings(r[i].id.value, r[j].id.value) <= 0 {
      assert r[j] == s[j - 1];
      if i > 0 {
        assert r[i] == s[i - 1];
      }
    }
  }

  /** Inserting into an id-ordered list keeps it ordered. */
  lemma {:induction false} InsertByIdAscending(x: ManifestationResponse, sorted: seq<ManifestationResponse>)
    requires x.id.Some? && HaveIds(sorted) && IdsAscending(sorted)
    ensures HaveIds(InsertById(x, sorted)) && IdsAscending(InsertById(x, sorted))
    decreases |sorted|
  {
    if sorted != [] {
      var first := sorted[0];
      if CompareStrings(x.id.value, first.id.value) <= 0 {
        forall y | y in sorted ensures CompareStrings(x.id.value, y.id.value) <= 0 {
          var k :| 0 <= k < |sorted| && sorted[k] == y;
          if k > 0 {
            CompareTransitive(x.id.value, first.id.value, y.id.value);
          }
        }
        PrependAscending(x, sorted);
      } else {
        var tail := sorted[1..];
        InsertByIdAscending(x, tail);
        var rest := InsertById(x, tail);
        CompareAntisymmetric(x.id.value, first.id.value);
        forall y | y in rest ensures CompareStrings(first.id.value, y.id.value) <= 0 {
          InsertByIdElements(x, tail, y);
          if y in tail {
            var k :| 0 <= k < |tail| && tail[k] == y;
            assert sorted[k + 1] == y;
          }
        }
        PrependAscending(first, rest);
      }
    }
  }

  /**
   * `sorted((l, r) -> l.id.compareTo(r.id)).forEach(wir.records::add)`:
   * every record once, in ascending id order; records with equal ids come
   * in an unspecified order.
   */
  method SortById(all: set<ManifestationResponse>) returns (records: seq<ManifestationResponse>)
    requires forall x :: x in all ==> x.id.Some?
    ensures multiset(records) == multiset(all)
    ensures HaveIds(records) && IdsAscending(records)
  {
    records := [];
    var rest := all;
    while rest != {}
      invariant rest <= all
      invariant multiset(records) == multiset(all - rest)
      invariant HaveIds(records) && IdsAscending(records)
      decreases |rest|
    {
      var x :| x in rest;
      InsertByIdAscending(x, records);
      assert multiset(all - (rest - {x})) == multiset(all - rest) + multiset{x} by {
        assert all - (rest - {x}) == (all - rest) + {x};
      }
      records := InsertById(x, records);
      rest := rest - {x};
    }
  }

  // ---------------------------------------------------------------------
  // processWork
  // ---------------------------------------------------------------------

  /**
   * `processWork`, with the search index's answer as the set of visible
   * manifestation ids. It returns the count it would ask the index with,
   * the relation ids it would ask about, and the presented work.
   */
  method ProcessWork(work: Work, visible: set<string>) returns (count: nat, possibleRelations: set<Option<string>>, wir: WorkResponse)
    requires forall u, r :: u in work.relUnits && r in work.relUnits[u] ==> RelationIndex.Keyed(RelationIndex.From(r))
    ensures count == SumSizes(work.units)
    ensures forall id :: id in possibleRelations <==>
      exists u, r :: u in work.relUnits && r in work.relUnits[u] && r.manifestation.manifestationId == id
    ensures wir.workId == work.workId && wir.title == work.title && wir.fullTitle == work.fullTitle
      && wir.description == work.description
    ensures multiset(wir.relations) == multiset(RelationIndex.AllResponses(work.relUnits))
    ensures RelationIndex.AllKeyed(wir.relations) && RelationIndex.Sorted(wir.relations)
    ensures exists arrays: map<string, seq<int>> ::
      && arrays.Keys == work.relUnits.Keys
      && (forall u :: u in work.relUnits ==>
            (forall r :: r in work.relUnits[u] ==> RelationIndex.From(r) in wir.relations) &&
            RelationIndex.UnitArray(arrays[u], work.relUnits[u], wir.relations))
      && multiset(wir.records) == multiset(Records(work.units, visible, arrays))
    ensures HaveIds(wir.records) && IdsAscending(wir.records)
  {
    count := ManifestationCount(work.units);
    var units := FilterUnits(work.units, visible);
    possibleRelations := set u, r | u in work.relUnits && r in work.relUnits[u] :: r.manifestation.manifestationId;
    var relationIndexes := new RelationIndex.RelationIndexComputer(work.relUnits);
    var arrays := relationIndexes.unitRelationIndexes;
    var withRelations := WithRelations(units, arrays);
    var all := Flatten(withRelations);
    FlattenIsRecords(work.units, visible, arrays);
    RecordsHaveIds(work.units, visible, arrays);
    var records := SortById(all);
    var relations := relationIndexes.GetRelationList();
    wir := WorkResponse(work.workId, work.title, work.fullTitle, work.description, records, relations);
  }
}
