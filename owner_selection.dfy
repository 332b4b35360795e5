// getKeysInOrder of SelectOwnerPriority.use.js and the composition in SelectWorkOwner.js.
module OwnerSelection {
  import opened Wrappers
  import opened OwnerPriority
  import opened OwnerValues

  // -------------------------------------------------------- getKeysInOrder

  /** Every id of `ids` has a value. */
  predicate AllScored(ids: seq<string>, values: map<string, real>)
  {
    forall i :: 0 <= i < |ids| ==> ids[i] in values
  }

  /** Highest value first: no id is followed by one with a larger value. */
  predicate NonIncreasing(ids: seq<string>, values: map<string, real>)
    requires AllScored(ids, values)
  {
    forall i, j :: 0 <= i < j < |ids| ==> values[ids[j]] <= values[ids[i]]
  }

  /**
   * One step of a stable sort by `values[r] - values[l]`: `k` goes after every
   * id whose value is at least its own.
   */
  function Insert(k: string, sorted: seq<string>, values: map<string, real>): (r: seq<string>)
    requires k in values && AllScored(sorted, values)
    ensures AllScored(r, values)
    ensures multiset(r) == multiset(sorted) + multiset{k}
  {
    if sorted == [] then [k]
    else if values[k] > values[sorted[0]] then [k] + sorted
    else
      assert sorted == [sorted[0]] + sorted[1..];
      [sorted[0]] + Insert(k, sorted[1..], values)
  }

  /**
   * getKeysInOrder: `Object.keys(values)` (the ids in insertion order) sorted
   * by descending value with a stable sort: the script runs on Nashorn,
   * whose Array.prototype.sort delegates to `java.util.Arrays.sort`, a
   * stable merge sort (ECMAScript 5.1 itself does not require stability).
   */
  function KeysInOrder(ids: seq<string>, values: map<string, real>): (sorted: seq<string>)
    requires AllScored(ids, values)
    ensures AllScored(sorted, values)
    ensures multiset(sorted) == multiset(ids)
  {
    if ids == [] then []
    else
      assert ids == ids[..|ids| - 1] + [ids[|ids| - 1]];
      Insert(ids[|ids| - 1], KeysInOrder(ids[..|ids| - 1], values), values)
  }

  /** Inserting into a non-increasing sequence keeps it non-increasing. */
  lemma {:induction false} InsertKeepsOrder(k: string, sorted: seq<string>, values: map<string, real>)
    requires k in values && AllScored(sorted, values) && NonIncreasing(sorted, values)
    ensures NonIncreasing(Insert(k, sorted, values), values)
    decreases |sorted|
  {
    if sorted != [] && values[k] <= values[sorted[0]] {
      var rest := sorted[1..];
      InsertKeepsOrder(k, rest, values);
      var r := Insert(k, sorted, values);
      var tail := Insert(k, rest, values);
      assert r == [sorted[0]] + tail;
      InsertBelowHead(k, sorted, values);
      forall i, j | 0 <= i < j < |r| ensures values[r[j]] <= values[r[i]] {
        assert r[j] == tail[j - 1];
        if i == 0 {
          assert r[i] == sorted[0];
        } else {
          assert r[i] == tail[i - 1];
        }
      }
    }
  }

  /** When `k` goes after the head, nothing it is inserted among exceeds the head. */
  lemma InsertBelowHead(k: string, sorted: seq<string>, values: map<string, real>)
    requires k in values && AllScored(sorted, values) && NonIncreasing(sorted, values)
    requires sorted != [] && values[k] <= values[sorted[0]]
    ensures forall j :: 0 <= j < |Insert(k, sorted[1..], values)| ==>
      values[Insert(k, sorted[1..], values)[j]] <= values[sorted[0]]
  {
    var rest := sorted[1..];
    var tail := Insert(k, rest, values);
    forall j | 0 <= j < |tail| ensures values[tail[j]] <= values[sorted[0]] {
      assert tail[j] in multiset(tail);
      assert tail[j] in multiset(rest) + multiset{k};
      if tail[j] != k {
        assert tail[j] in multiset(rest);
        var m :| 0 <= m < |rest| && rest[m] == tail[j];
        assert sorted[m + 1] == rest[m];
      }
    }
  }

  /** The keys come out highest value first. */
  lemma {:induction false} KeysInOrderNonIncreasing(ids: seq<string>, values: map<string, real>)
    requires AllScored(ids, values)
    ensures NonIncreasing(KeysInOrder(ids, values), values)
    decreases |ids|
  {
    if ids != [] {
      KeysInOrderNonIncreasing(ids[..|ids| - 1], values);
      InsertKeepsOrder(ids[|ids| - 1], KeysInOrder(ids[..|ids| - 1], values), values);
    }
  }

  /** The first key has the largest value of all ids. */
  lemma FirstKeyIsBest(ids: seq<string>, values: map<string, real>)
    requires AllScored(ids, values) && ids != []
    ensures |KeysInOrder(ids, values)| == |ids|
    ensures forall i :: 0 <= i < |ids| ==> values[ids[i]] <= values[KeysInOrder(ids, values)[0]]
  {
    var sorted := KeysInOrder(ids, values);
    assert |sorted| == |multiset(sorted)| == |multiset(ids)| == |ids|;
    KeysInOrderNonIncreasing(ids, values);
    forall i | 0 <= i < |ids| ensures values[ids[i]] <= values[sorted[0]] {
      assert ids[i] in multiset(ids);
      assert ids[i] in multiset(sorted);
      var m :| 0 <= m < |sorted| && sorted[m] == ids[i];
      if m > 0 {
        assert values[sorted[m]] <= values[sorted[0]];
      }
    }
  }

  // ------------------------------------------------------- selectWorkOwner

  /**
   * selectWorkOwner: element 0 of getKeysInOrder(computeValues(manifestations)).
   * The keys of the scores are the ids in the order the manifestations object
   * lists them. Element 0 of an empty array is `undefined`, here None.
   */
  function SelectWorkOwner(ids: seq<string>, ms: map<string, Manifestation>): (owner: Option<string>)
    requires IsKeyOrder(ids, ms)
  {
    ScoresCoverIds(ids, ms);
    var sorted := KeysInOrder(ids, Scores(ids, ms));
    if sorted == [] then None else Some(sorted[0])
  }

  lemma ScoresCoverIds(ids: seq<string>, ms: map<string, Manifestation>)
    requires IsKeyOrder(ids, ms)
    ensures AllScored(ids, Scores(ids, ms))
  {
    KeyOrderInMap(ids, ms);
  }

  /** There is an owner iff there is a candidate, and it is a candidate with a maximal score. */
  lemma OwnerHasBestScore(ids: seq<string>, ms: map<string, Manifestation>)
    requires IsKeyOrder(ids, ms)
    ensures SelectWorkOwner(ids, ms).None? <==> |ms| == 0
    ensures SelectWorkOwner(ids, ms).Some? ==> SelectWorkOwner(ids, ms).value in ms
    ensures SelectWorkOwner(ids, ms).Some? ==>
              forall id :: id in ms ==> Scores(ids, ms)[id] <= Scores(ids, ms)[SelectWorkOwner(ids, ms).value]
  {
    var scores := Scores(ids, ms);
    KeyOrderInMap(ids, ms);
    var sorted := KeysInOrder(ids, scores);
    assert |sorted| == |multiset(sorted)| == |multiset(ids)| == |ids|;
    KeysOfCardinality(ids);
    if ids != [] {
      FirstKeyIsBest(ids, scores);
      forall id | id in ms ensures scores[id] <= scores[sorted[0]] {
        var i := KeysOfWitness(ids, id);
      }
    }
  }

  /** A sequence of distinct ids has as many keys as elements. */
  lemma {:induction false} KeysOfCardinality(ids: seq<string>)
    requires Distinct(ids)
    ensures |KeysOf(ids)| == |ids|
    decreases |ids|
  {
    if ids != [] {
      var init := ids[..|ids| - 1];
      DistinctInit(ids);
      KeysOfCardinality(init);
      if ids[|ids| - 1] in KeysOf(init) {
        var i := KeysOfWitness(init, ids[|ids| - 1]);
        DistinctAt(ids, i, |ids| - 1);
      }
    }
  }

  /** Dropping the last id keeps the ids distinct. */
  lemma {:induction false} DistinctInit(ids: seq<string>)
    requires Distinct(ids) && ids != []
    ensures Distinct(ids[..|ids| - 1])
    decreases |ids|
  {
    if |ids| > 1 {
      var init := ids[..|ids| - 1];
      assert init[1..] == ids[1..][..|ids[1..]| - 1];
      DistinctInit(ids[1..]);
    }
  }

  /** Distinct ids differ at different positions. */
  lemma {:induction false} DistinctAt(ids: seq<string>, i: int, j: int)
    requires Distinct(ids) && 0 <= i < j < |ids|
    ensures ids[i] != ids[j]
    decreases |ids|
  {
    if i == 0 {
      assert ids[j] == ids[1..][j - 1];
    } else {
      DistinctAt(ids[1..], i - 1, j - 1);
    }
  }

  // --------------------------------------------------------- the fixture

  /** The computeValues fixture: two books of library 710101. */
  const BookA := Manifestation(PriorityKeys("abc|710101", Some("2019"), Some("1. udgave")), ["Bog"])
  const BookB := Manifestation(PriorityKeys("def|710101", Some("2016"), Some("2. udgave")), ["Bog"])

  function FixtureCandidates(): map<string, Manifestation>
  {
    map["a" := BookA, "b" := BookB]
  }

  lemma FixtureKeyOrder()
    ensures IsKeyOrder(["a", "b"], FixtureCandidates())
  {
    assert ["a", "b"][..1] == ["a"] && ["a", "b"][1..] == ["b"];
    assert KeysOf(["a", "b"]) == {"a", "b"};
  }

  lemma FixtureYears()
    ensures YearOf(BookA) == Some(2019.0) && YearOf(BookB) == Some(2016.0)
  {
    PlainYear("2019");
    DigitsValue4("2019");
    assert "2019"[..4] == "2019";
    PlainYear("2016");
    DigitsValue4("2016");
    assert "2016"[..4] == "2016";
  }

  lemma FixtureEditions()
    ensures EditionFactor(BookA.priorityKeys.version) == 1.0
    ensures EditionFactor(BookB.priorityKeys.version) == Decay(1.0)
  {
    FirstEditionExample();
    SecondEditionExample();
  }

  lemma FixtureTypes()
    ensures ListPrio(["Bog"]) == 5.0
  {
    TypePrioBog();
    assert ["Bog"][..0] == [];
  }

  /** The fixture's records belong to library 710101, which gets no bonus. */
  lemma FixtureBonusA()
    ensures IdBonus(BookA.priorityKeys.identifier) == 0.0
  {
    assert BookA.priorityKeys.identifier == "abc" + "|" + "710101";
    OtherLibraryBonus("abc", "710101");
  }

  lemma FixtureBonusB()
    ensures IdBonus(BookB.priorityKeys.identifier) == 0.0
  {
    assert BookB.priorityKeys.identifier == "def" + "|" + "710101";
    OtherLibraryBonus("def", "710101");
  }

  /** "a" (2019) is three years younger than "b" (2016), the oldest, so its age factor is Decay(3). */
  lemma FixtureAges()
    ensures IsKeyOrder(["a", "b"], FixtureCandidates())
    ensures AgeValues(["a", "b"], FixtureCandidates())["a"] == Decay(3.0)
    ensures AgeValues(["a", "b"], FixtureCandidates())["b"] == 1.0
  {
    var ids, ms := ["a", "b"], FixtureCandidates();
    FixtureKeyOrder();
    FixtureYears();
    var years := Years(ms);
    assert years["a"] == Some(2019.0) && years["b"] == Some(2016.0);
    KeyOrderInMap(ids, years);
    var ys := YearSeq(ids, years);
    assert ys == [Some(2019.0), Some(2016.0)];
    assert ys[..1] == [Some(2019.0)] && ys[..1][..0] == [];
    assert MinOf(ys[..1]) == 2019.0;
    assert MinOf(ys) == 2016.0;
    DatedFactor(ids, years, "a");
    DatedFactor(ids, years, "b");
  }

  /** The scores of the fixture: 50 Decay(3) for "a" and 50 Decay(1) for "b". */
  lemma FixtureScores()
    ensures IsKeyOrder(["a", "b"], FixtureCandidates())
    ensures Scores(["a", "b"], FixtureCandidates())["a"] < Scores(["a", "b"], FixtureCandidates())["b"]
  {
    var ids, ms := ["a", "b"], FixtureCandidates();
    FixtureAges();
    FixtureEditions();
    FixtureTypes();
    FixtureBonusA();
    FixtureBonusB();
    ScoreOf(ids, ms, "a");
    ScoreOf(ids, ms, "b");
    assert ms["a"] == BookA && ms["b"] == BookB;
    var scores := Scores(ids, ms);
    assert scores["a"] == Formula(Decay(3.0), 1.0, 5.0, 0.0) == 50.0 * Decay(3.0);
    assert scores["b"] == Formula(1.0, Decay(1.0), 5.0, 0.0) == 50.0 * Decay(1.0);
    DecayDecreasing(1.0, 3.0);
  }

  /** Two keys come out in the order of their values; the first listed stays first on a tie. */
  lemma TwoKeysInOrder(a: string, b: string, values: map<string, real>)
    requires a in values && b in values
    ensures values[a] < values[b] ==> KeysInOrder([a, b], values) == [b, a]
    ensures values[b] <= values[a] ==> KeysInOrder([a, b], values) == [a, b]
  {
    var ids := [a, b];
    assert KeysInOrder([a], values) == [a] by { assert [a][..0] == []; }
    assert ids[..|ids| - 1] == [a];
    assert KeysInOrder(ids, values) == Insert(b, [a], values);
    assert Insert(b, [], values) == [b];
  }

  /** The older second edition outscores the newer first edition: "b" comes first and is selected. */
  lemma FixtureSelectsOlder()
    ensures IsKeyOrder(["a", "b"], FixtureCandidates())
    ensures SelectWorkOwner(["a", "b"], FixtureCandidates()) == Some("b")
  {
    var ids, ms := ["a", "b"], FixtureCandidates();
    FixtureScores();
    ScoresCoverIds(ids, ms);
    TwoKeysInOrder("a", "b", Scores(ids, ms));
  }
}
