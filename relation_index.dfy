/**
 * The relation part of a work presentation: the response record of one
 * related manifestation, its order, and the index computer that lists the
 * distinct relations of all units in order and gives each unit the sorted
 * positions of its relations in that list.
 */
module RelationIndex {
  import opened Wrappers
  import opened PresentationPojo
  import opened NaturalSorting

  // ---------------------------------------------------------------------
  // RelationInformationResponse
  // ---------------------------------------------------------------------

  /** A relation as the service returns it: the kind, the manifestation id and its material types. */
  datatype Response = Response(relationType: Option<string>, id: Option<string>, types: Option<seq<string>>)

  /** `RelationInformationResponse.from`. */
  function From(ri: RelationInformation): (r: Response)
    ensures r.relationType == ri.relationType
    ensures r.id == ri.manifestation.manifestationId
    ensures r.types == ri.manifestation.materialTypes
  {
    Response(ri.relationType, ri.manifestation.manifestationId, ri.manifestation.materialTypes)
  }

  /** A response `compareTo` can order: it has an id and a relation type. */
  predicate Keyed(r: Response)
  {
    r.id.Some? && r.relationType.Some?
  }

  /** `compareTo`: by id, then by type, each as Java compares strings. */
  function CompareTo(a: Response, b: Response): int
    requires Keyed(a) && Keyed(b)
  {
    var byId := CompareStrings(a.id.value, b.id.value);
    if byId == 0 then CompareStrings(a.relationType.value, b.relationType.value) else byId
  }

  /** The id decides unless the ids are equal; then the type decides. */
  lemma CompareToIdThenType(a: Response, b: Response)
    requires Keyed(a) && Keyed(b)
    ensures a.id != b.id ==> CompareTo(a, b) == CompareStrings(a.id.value, b.id.value) != 0
    ensures a.id == b.id ==> CompareTo(a, b) == CompareStrings(a.relationType.value, b.relationType.value)
    ensures CompareTo(a, b) == 0 <==> a.id == b.id && a.relationType == b.relationType
  {
    CompareZeroIffEqual(a.id.value, b.id.value);
    if a.id == b.id {
      CompareZeroIffEqual(a.relationType.value, b.relationType.value);
    }
  }

  /** Swapping the operands negates the result. */
  lemma CompareToAntisymmetric(a: Response, b: Response)
    requires Keyed(a) && Keyed(b)
    ensures CompareTo(b, a) == -CompareTo(a, b)
  {
    CompareAntisymmetric(a.id.value, b.id.value);
    CompareAntisymmetric(a.relationType.value, b.relationType.value);
  }

  /** The order is transitive. */
  lemma CompareToTransitive(a: Response, b: Response, c: Response)
    requires Keyed(a) && Keyed(b) && Keyed(c)
    requires CompareTo(a, b) <= 0 && CompareTo(b, c) <= 0
    ensures CompareTo(a, c) <= 0
  {
    var ab, bc := CompareStrings(a.id.value, b.id.value), CompareStrings(b.id.value, c.id.value);
    CompareZeroIffEqual(a.id.value, b.id.value);
    CompareZeroIffEqual(b.id.value, c.id.value);
    CompareZeroIffEqual(a.id.value, c.id.value);
    CompareTransitive(a.id.value, b.id.value, c.id.value);
    if a.id == c.id {
      CompareAntisymmetric(a.id.value, b.id.value);
      assert a.id == b.id;
      CompareTransitive(a.relationType.value, b.relationType.value, c.relationType.value);
    }
  }

  /** `equals`: type, id and types all agree; false for null. */
  predicate ResponseEquals(a: Response, o: Option<Response>)
  {
    o.Some? && a.relationType == o.value.relationType && a.id == o.value.id && a.types == o.value.types
  }

  /** The fields `hashCode` ranges over: type and id. */
  function ResponseHashFields(r: Response): (Option<string>, Option<string>)
  {
    (r.relationType, r.id)
  }

  /** `equals` is equality of the records, and equal responses hash over equal fields and compare as 0. */
  lemma ResponseEqualsConsistent(a: Response, b: Response)
    requires Keyed(a) && Keyed(b)
    ensures ResponseEquals(a, Some(b)) <==> a == b
    ensures ResponseEquals(a, Some(b)) ==> ResponseHashFields(a) == ResponseHashFields(b) && CompareTo(a, b) == 0
  {
    CompareToIdThenType(a, b);
  }

  /** `compareTo` is not consistent with `equals`: responses that differ only in their types compare as 0. */
  lemma CompareToIgnoresTypes()
    ensures var a := Response(Some("review"), Some("id"), Some(["book"]));
      var b := Response(Some("review"), Some("id"), Some(["ebook"]));
      Keyed(a) && Keyed(b) && CompareTo(a, b) == 0 && !ResponseEquals(a, Some(b))
  {
    var a := Response(Some("review"), Some("id"), Some(["book"]));
    var b := Response(Some("review"), Some("id"), Some(["ebook"]));
    CompareToIdThenType(a, b);
    assert a.types != b.types by { assert a.types.value[0] != b.types.value[0]; }
  }

  // ---------------------------------------------------------------------
  // Sorting the distinct responses
  // ---------------------------------------------------------------------

  /** Every response of the list can be ordered. */
  predicate AllKeyed(list: seq<Response>)
  {
    forall r :: r in list ==> Keyed(r)
  }

  /** The responses are in non-decreasing `compareTo` order. */
  ghost predicate Sorted(list: seq<Response>)
    requires AllKeyed(list)
  {
    forall i, j :: 0 <= i < j < |list| ==> CompareTo(list[i], list[j]) <= 0
  }

  /** Insert `x` before the first element it does not sort after. */
  function Insert(x: Response, sorted: seq<Response>): (r: seq<Response>)
    requires Keyed(x) && AllKeyed(sorted)
    ensures multiset(r) == multiset(sorted) + multiset{x}
  {
    if sorted == [] then [x]
    else if CompareTo(x, sorted[0]) <= 0 then [x] + sorted
    else
      assert sorted == [sorted[0]] + sorted[1..];
      [sorted[0]] + Insert(x, sorted[1..])
  }

  /** An element of the result of inserting is `x` or an element of the list. */
  lemma InsertElements(x: Response, sorted: seq<Response>, y: Response)
    requires Keyed(x) && AllKeyed(sorted)
    requires y in Insert(x, sorted)
    ensures y == x || y in sorted
  {
    assert y in multiset(Insert(x, sorted));
  }

  /** Inserting into a sorted list keeps it sorted. */
  lemma {:induction false} InsertSorted(x: Response, sorted: seq<Response>)
    requires Keyed(x) && AllKeyed(sorted) && Sorted(sorted)
    ensures AllKeyed(Insert(x, sorted)) && Sorted(Insert(x, sorted))
    decreases |sorted|
  {
    var r := Insert(x, sorted);
    forall y | y in r ensures Keyed(y) {
      InsertElements(x, sorted, y);
    }
    if sorted != [] {
      if CompareTo(x, sorted[0]) <= 0 {
        forall j | 0 < j < |r| ensures CompareTo(r[0], r[j]) <= 0 {
          if j > 1 {
            CompareToTransitive(x, sorted[0], sorted[j - 1]);
          }
        }
      } else {
        var tail := sorted[1..];
        InsertSorted(x, tail);
        var rest := Insert(x, tail);
        assert r == [sorted[0]] + rest;
        CompareToAntisymmetric(x, sorted[0]);
        forall j | 0 < j < |r| ensures CompareTo(r[0], r[j]) <= 0 {
          assert r[j] == rest[j - 1];
          InsertElements(x, tail, rest[j - 1]);
        }
        forall i, j | 0 < i < j < |r| ensures CompareTo(r[i], r[j]) <= 0 {
          assert r[i] == rest[i - 1] && r[j] == rest[j - 1];
        }
      }
    }
  }

  /**
   * `collect(toSet()).stream().sorted()`: the set is iterated in some
   * order (any element may come next) and the result is in `compareTo`
   * order, holding each response once.
   */
  method SortedList(rs: set<Response>) returns (list: seq<Response>)
    requires forall r :: r in rs ==> Keyed(r)
    ensures multiset(list) == multiset(rs)
    ensures AllKeyed(list) && Sorted(list)
  {
    list := [];
    var rest := rs;
    while rest != {}
      invariant rest <= rs
      invariant multiset(list) == multiset(rs - rest)
      invariant AllKeyed(list) && Sorted(list)
      decreases |rest|
    {
      var x :| x in rest;
      InsertSorted(x, list);
      assert multiset(rs - (rest - {x})) == multiset(rs - rest) + multiset{x} by {
        assert rs - (rest - {x}) == (rs - rest) + {x};
      }
      list := Insert(x, list);
      rest := rest - {x};
    }
  }

  /** An element at two positions of a list is counted twice. */
  lemma CountedTwice(list: seq<Response>, i: nat, j: nat)
    requires i < j < |list| && list[i] == list[j]
    ensures multiset(list)[list[i]] >= 2
  {
    var x := list[i];
    assert list == list[..i] + [x] + list[i + 1..j] + [x] + list[j + 1..];
  }

  /** A list with the multiset of a set holds each element once. */
  lemma SetMultisetDistinct(list: seq<Response>, rs: set<Response>)
    requires multiset(list) == multiset(rs)
    ensures Distinct(list)
  {
    forall i, j | 0 <= i < j < |list| ensures list[i] != list[j] {
      if list[i] == list[j] {
        CountedTwice(list, i, j);
      }
    }
  }

  // ---------------------------------------------------------------------
  // Indexes
  // ---------------------------------------------------------------------

  /** The elements of the list are pairwise different. */
  predicate Distinct(list: seq<Response>)
  {
    forall i, j :: 0 <= i < j < |list| ==> list[i] != list[j]
  }

  /** The position of an element of the list. */
  function IndexIn(list: seq<Response>, x: Response): (i: nat)
    requires x in list
    ensures i < |list| && list[i] == x
    ensures forall j :: 0 <= j < i ==> list[j] != x
  {
    if list[0] == x then 0 else 1 + IndexIn(list[1..], x)
  }

  /** The loop that numbers the list: each element is mapped to its position. */
  method IndexesOf(list: seq<Response>) returns (indexes: map<Response, int>)
    requires Distinct(list)
    ensures forall r :: r in indexes <==> r in list
    ensures forall i :: 0 <= i < |list| ==> indexes[list[i]] == i
    ensures forall r :: r in indexes ==> indexes[r] == IndexIn(list, r)
  {
    var i := 0;
    indexes := map[];
    for k := 0 to |list|
      invariant i == k
      invariant indexes.Keys == set r | r in list[..k]
      invariant forall j :: 0 <= j < k ==> indexes[list[j]] == j
    {
      assert list[..k + 1] == list[..k] + [list[k]];
      indexes := indexes[list[k] := i];
      i := i + 1;
    }
    assert list[..|list|] == list;
    forall r | r in indexes ensures indexes[r] == IndexIn(list, r) {
      var j :| 0 <= j < |list| && list[j] == r;
      var p := IndexIn(list, r);
      assert list[p] == list[j];
    }
  }

  /** Integers in ascending order. */
  predicate Ascending(a: seq<int>)
  {
    forall i, j :: 0 <= i < j < |a| ==> a[i] <= a[j]
  }

  /** Insert `x` into an ascending sequence. */
  function InsertInt(x: int, sorted: seq<int>): (r: seq<int>)
    ensures multiset(r) == multiset(sorted) + multiset{x}
  {
    if sorted == [] then [x]
    else if x <= sorted[0] then [x] + sorted
    else
      assert sorted == [sorted[0]] + sorted[1..];
      [sorted[0]] + InsertInt(x, sorted[1..])
  }

  /** An integer no greater than any of an ascending sequence may go in front of it. */
  lemma PrependInt(x: int, s: seq<int>)
    requires Ascending(s)
    requires forall k :: 0 <= k < |s| ==> x <= s[k]
    ensures Ascending([x] + s)
  {
    var r := [x] + s;
    forall i, j | 0 <= i < j < |r| ensures r[i] <= r[j] {
      assert r[j] == s[j - 1];
      if i > 0 {
        assert r[i] == s[i - 1];
      }
    }
  }

  /** Inserting into an ascending sequence keeps it ascending. */
  lemma {:induction false} InsertIntAscending(x: int, sorted: seq<int>)
    requires Ascending(sorted)
    ensures Ascending(InsertInt(x, sorted))
    decreases |sorted|
  {
    if sorted != [] {
      if x <= sorted[0] {
        PrependInt(x, sorted);
      } else {
        var tail := sorted[1..];
        InsertIntAscending(x, tail);
        var rest := InsertInt(x, tail);
        forall k | 0 <= k < |rest| ensures sorted[0] <= rest[k] {
          assert rest[k] in multiset(tail) + multiset{x};
          if rest[k] != x {
            var m :| 0 <= m < |tail| && tail[m] == rest[k];
            assert sorted[m + 1] == rest[k];
          }
        }
        PrependInt(sorted[0], rest);
      }
    }
  }

  /** `IntStream.sorted()`: the same integers in ascending order. */
  function SortInts(a: seq<int>): (r: seq<int>)
    ensures Ascending(r) && multiset(r) == multiset(a)
  {
    if a == [] then []
    else
      assert a == a[..|a| - 1] + [a[|a| - 1]];
      InsertIntAscending(a[|a| - 1], SortInts(a[..|a| - 1]));
      InsertInt(a[|a| - 1], SortInts(a[..|a| - 1]))
  }

  /** The positions of a unit's relations, in the unit's iteration order. */
  function Positions(rels: seq<RelationInformation>, list: seq<Response>): (p: seq<int>)
    requires forall r :: r in rels ==> From(r) in list
    ensures |p| == |rels| && forall k :: 0 <= k < |p| ==> 0 <= p[k] < |list| && list[p[k]] == From(rels[k])
  {
    seq(|rels|, k requires 0 <= k < |rels| => IndexIn(list, From(rels[k])))
  }

  /** `mapToInt(indexes::get)`: the positions of a unit's relations, looked up in the index map. */
  function Lookup(rels: seq<RelationInformation>, indexes: map<Response, int>): (p: seq<int>)
    requires forall r :: r in rels ==> From(r) in indexes
    ensures |p| == |rels| && forall k :: 0 <= k < |p| ==> p[k] == indexes[From(rels[k])]
  {
    seq(|rels|, k requires 0 <= k < |rels| => indexes[From(rels[k])])
  }

  /** A unit's array: the positions of its relations, one per relation, ascending. */
  ghost predicate UnitArray(a: seq<int>, rels: seq<RelationInformation>, list: seq<Response>)
    requires forall r :: r in rels ==> From(r) in list
  {
    |a| == |rels| && Ascending(a) && multiset(a) == multiset(Positions(rels, list))
    && forall k :: 0 <= k < |a| ==> 0 <= a[k] < |list|
  }

  /** Every entry of a unit's array lies in the list's index range. */
  lemma UnitArrayInRange(rels: seq<RelationInformation>, list: seq<Response>)
    requires forall r :: r in rels ==> From(r) in list
    ensures UnitArray(SortInts(Positions(rels, list)), rels, list)
  {
    var p := Positions(rels, list);
    var a := SortInts(p);
    assert |a| == |p| by {
      assert |multiset(a)| == |a| && |multiset(p)| == |p|;
    }
    forall k | 0 <= k < |a| ensures 0 <= a[k] < |list| {
      assert a[k] in multiset(a);
      var m :| 0 <= m < |p| && p[m] == a[k];
    }
  }

  /** Every response of every unit. */
  function AllResponses(unitRelations: map<string, seq<RelationInformation>>): (rs: set<Response>)
    ensures forall u, r :: u in unitRelations && r in unitRelations[u] ==> From(r) in rs
  {
    set u, r | u in unitRelations && r in unitRelations[u] :: From(r)
  }

  /** `toMap`: each unit's index lookups, sorted. */
  function UnitArraysVia(unitRelations: map<string, seq<RelationInformation>>, indexes: map<Response, int>): map<string, seq<int>>
    requires forall u, r :: u in unitRelations && r in unitRelations[u] ==> From(r) in indexes
  {
    map u | u in unitRelations :: SortInts(Lookup(unitRelations[u], indexes))
  }

  /** The lookups of one unit are its relations' positions in the list. */
  lemma LookupIsPositions(rels: seq<RelationInformation>, indexes: map<Response, int>, list: seq<Response>)
    requires forall r :: r in rels ==> From(r) in list
    requires forall r :: r in indexes <==> r in list
    requires forall r :: r in indexes ==> indexes[r] == IndexIn(list, r)
    ensures Lookup(rels, indexes) == Positions(rels, list)
  {
  }

  /** Each unit's array holds its relations' positions in the list, one per relation, ascending. */
  lemma UnitArraysViaCorrect(unitRelations: map<string, seq<RelationInformation>>, indexes: map<Response, int>, list: seq<Response>)
    requires forall u, r :: u in unitRelations && r in unitRelations[u] ==> From(r) in list
    requires forall r :: r in indexes <==> r in list
    requires forall r :: r in indexes ==> indexes[r] == IndexIn(list, r)
    ensures UnitArraysVia(unitRelations, indexes).Keys == unitRelations.Keys
    ensures forall u :: u in unitRelations ==> UnitArray(UnitArraysVia(unitRelations, indexes)[u], unitRelations[u], list)
  {
    var m := UnitArraysVia(unitRelations, indexes);
    forall u | u in unitRelations ensures UnitArray(m[u], unitRelations[u], list) {
      LookupIsPositions(unitRelations[u], indexes, list);
      UnitArrayInRange(unitRelations[u], list);
    }
  }

  /** The relation lists and per-unit index arrays of a work. */
  class RelationIndexComputer {
    const relationList: seq<Response>
    const unitRelationIndexes: map<string, seq<int>>

    /**
     * The constructor: the distinct responses of all units in `compareTo`
     * order, and for each unit its relations' positions in that list,
     * ascending.
     */
    constructor(unitRelations: map<string, seq<RelationInformation>>)
      requires forall u, r :: u in unitRelations && r in unitRelations[u] ==> Keyed(From(r))
      ensures multiset(relationList) == multiset(AllResponses(unitRelations))
      ensures Distinct(relationList) && AllKeyed(relationList) && Sorted(relationList)
      ensures forall u, r :: u in unitRelations && r in unitRelations[u] ==> From(r) in relationList
      ensures unitRelationIndexes.Keys == unitRelations.Keys
      ensures forall u :: u in unitRelations ==> UnitArray(unitRelationIndexes[u], unitRelations[u], relationList)
    {
      var responses := AllResponses(unitRelations);
      var list := SortedList(responses);
      SetMultisetDistinct(list, responses);
      var indexes := IndexesOf(list);
      assert forall u, r :: u in unitRelations && r in unitRelations[u] ==> From(r) in list by {
        forall u, r | u in unitRelations && r in unitRelations[u] ensures From(r) in list {
          assert From(r) in multiset(responses);
        }
      }
      relationList := list;
      unitRelationIndexes := UnitArraysVia(unitRelations, indexes);
      new;
      UnitArraysViaCorrect(unitRelations, indexes, list);
    }

    /** `getRelationList`. */
    method GetRelationList() returns (r: seq<Response>)
      ensures r == relationList
    {
      r := relationList;
    }

    /** `unitRelationIndexes`: a known unit's array, the shared empty array for any other id. */
    method UnitRelationIndexes(unitId: string) returns (r: seq<int>)
      ensures unitId in unitRelationIndexes ==> r == unitRelationIndexes[unitId]
      ensures unitId !in unitRelationIndexes ==> r == []
    {
      r := if unitId in unitRelationIndexes then unitRelationIndexes[unitId] else [];
    }
  }
}
