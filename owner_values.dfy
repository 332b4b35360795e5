/**
 * The per-object passes of SelectOwnerPriority.use.js: every factor as a map
 * from manifestation id to number, the in-place combination of two such maps,
 * computeValues and getKeysInOrder.
 *
 * The `manifestations` object is `ids` (its keys in enumeration order) with
 * `ms` (the map); IsKeyOrder relates the two.
 */
module OwnerValues {
  import opened Wrappers
  import opened OwnerPriority

  // ------------------------------------------------------------ the factors

  /** The year of a candidate, from its dc:date. */
  function YearOf(m: Manifestation): Option<real>
  {
    DetermineYear(m.priorityKeys.date)
  }

  /** The year of every candidate. */
  function Years(ms: map<string, Manifestation>): (years: map<string, Option<real>>)
    ensures years.Keys == ms.Keys
  {
    map id | id in ms :: YearOf(ms[id])
  }

  /** Math.min over Number.MAX_VALUE and the years present in `ys`. */
  function MinOf(ys: seq<Option<real>>): (min: real)
    ensures min <= MaxValue
  {
    if ys == [] then MaxValue
    else
      var rest := MinOf(ys[..|ys| - 1]);
      match ys[|ys| - 1]
      case Some(y) => Min(rest, y)
      case None => rest
  }

  /** The minimum is at most every year present. */
  lemma {:induction false} MinOfBelow(ys: seq<Option<real>>, i: int)
    requires 0 <= i < |ys| && ys[i].Some?
    ensures MinOf(ys) <= ys[i].value
    decreases |ys|
  {
    if i < |ys| - 1 {
      MinOfBelow(ys[..|ys| - 1], i);
    }
  }

  /** The minimum is Number.MAX_VALUE or one of the years. */
  lemma {:induction false} MinOfAttained(ys: seq<Option<real>>) returns (i: int)
    requires MinOf(ys) != MaxValue
    ensures 0 <= i < |ys| && ys[i] == Some(MinOf(ys))
    decreases |ys|
  {
    var rest := MinOf(ys[..|ys| - 1]);
    if ys[|ys| - 1].Some? && ys[|ys| - 1].value <= rest {
      i := |ys| - 1;
    } else {
      i := MinOfAttained(ys[..|ys| - 1]);
    }
  }

  /** The years of `ids` in key order. */
  function YearSeq(ids: seq<string>, years: map<string, Option<real>>): (ys: seq<Option<real>>)
    requires forall i :: 0 <= i < |ids| ==> ids[i] in years
    ensures |ys| == |ids| && forall i :: 0 <= i < |ids| ==> ys[i] == years[ids[i]]
  {
    seq(|ids|, i requires 0 <= i < |ids| => years[ids[i]])
  }

  /** `min` after the first loop of getAgeValues, which visits the ids in key order. */
  function MinYear(ids: seq<string>, years: map<string, Option<real>>): real
    requires IsKeyOrder(ids, years)
  {
    KeyOrderInMap(ids, years);
    MinOf(YearSeq(ids, years))
  }

  /** The age factor: Decay(year - min) for a dated candidate, 0.1 for an undatable one. */
  function AgeFactor(year: Option<real>, min: real): real
    requires year.Some? ==> min <= year.value
  {
    match year
    case Some(y) => Decay(y - min)
    case None => 0.1
  }

  /** Every key appears in `ids`, so the minimum is at most its year. */
  lemma MinYearBelow(ids: seq<string>, years: map<string, Option<real>>, id: string)
    requires IsKeyOrder(ids, years) && id in years
    ensures years[id].Some? ==> MinYear(ids, years) <= years[id].value
  {
    KeyOrderInMap(ids, years);
    var j := KeysOfWitness(ids, id);
    if years[id].Some? {
      MinOfBelow(YearSeq(ids, years), j);
    }
  }

  /**
   * The second loop of getAgeValues for given years. The script returns {}
   * when `min === Number.INFINITY`, but `Number.INFINITY` is undefined in
   * JavaScript, so that guard never fires and every id gets a factor.
   */
  function AgeValuesFor(ids: seq<string>, years: map<string, Option<real>>): (values: map<string, real>)
    requires IsKeyOrder(ids, years)
    ensures values.Keys == years.Keys
  {
    map id | id in years :: (MinYearBelow(ids, years, id); AgeFactor(years[id], MinYear(ids, years)))
  }

  /** getAgeValues. */
  function AgeValues(ids: seq<string>, ms: map<string, Manifestation>): (values: map<string, real>)
    requires IsKeyOrder(ids, ms)
    ensures values.Keys == ms.Keys
  {
    AgeValuesFor(ids, Years(ms))
  }

  /** The factor of a dated candidate. */
  lemma DatedFactor(ids: seq<string>, years: map<string, Option<real>>, a: string)
    requires IsKeyOrder(ids, years) && a in years && years[a].Some?
    ensures MinYear(ids, years) <= years[a].value
    ensures AgeValuesFor(ids, years)[a] == Decay(years[a].value - MinYear(ids, years))
  {
    MinYearBelow(ids, years, a);
  }

  /** A younger candidate gets a strictly smaller age factor. */
  lemma YoungerGetsLess(ids: seq<string>, years: map<string, Option<real>>, a: string, b: string)
    requires IsKeyOrder(ids, years) && a in years && b in years
    requires years[a].Some? && years[b].Some? && years[a].value < years[b].value
    ensures AgeValuesFor(ids, years)[b] < AgeValuesFor(ids, years)[a]
  {
    var min := MinYear(ids, years);
    MinYearBelow(ids, years, a);
    DatedFactor(ids, years, a);
    DatedFactor(ids, years, b);
    DecayDecreasing(years[a].value - min, years[b].value - min);
  }

  /** The oldest dated candidate gets the factor Decay(0) = 1. */
  lemma OldestGetsOne(ids: seq<string>, years: map<string, Option<real>>, a: string)
    requires IsKeyOrder(ids, years) && a in years && years[a].Some? && years[a].value < MaxValue
    requires forall b :: b in years && years[b].Some? ==> years[a].value <= years[b].value
    ensures AgeValuesFor(ids, years)[a] == 1.0
  {
    var min := MinYear(ids, years);
    MinYearBelow(ids, years, a);
    KeyOrderInMap(ids, years);
    var i := MinOfAttained(YearSeq(ids, years));
    assert years[ids[i]] == Some(min);
    assert years[a].value <= min;
  }

  /** A candidate without a determinable year gets 0.1, whether or not any other has a year. */
  lemma UndatableGetsTenth(ids: seq<string>, years: map<string, Option<real>>, a: string)
    requires IsKeyOrder(ids, years) && a in years && years[a].None?
    ensures AgeValuesFor(ids, years)[a] == 0.1
  {
  }

  /** Determined years lie below 10000, far below Number.MAX_VALUE. */
  lemma YearsBelowMaxValue(ms: map<string, Manifestation>, a: string)
    requires a in ms && Years(ms)[a].Some?
    ensures Years(ms)[a].value < MaxValue
  {
    assert Years(ms)[a] == DetermineYear(ms[a].priorityKeys.date);
  }

  /** Every key of a key order is a key of the map. */
  lemma KeyOrderInMap<V>(ids: seq<string>, m: map<string, V>)
    requires IsKeyOrder(ids, m)
    ensures forall i :: 0 <= i < |ids| ==> ids[i] in m
  {
    forall i | 0 <= i < |ids| ensures ids[i] in m {
      KeysOfContains(ids, i);
    }
  }

  // ------------------------------------------------------------ the passes

  /** getDefaultValues: 10 for every id of the object. */
  method GetDefaultValues(ids: seq<string>, ms: map<string, Manifestation>) returns (values: map<string, real>)
    requires IsKeyOrder(ids, ms)
    ensures values.Keys == ms.Keys
    ensures forall id :: id in values ==> values[id] == 10.0
  {
    values := map[];
    for i := 0 to |ids|
      invariant values.Keys == KeysOf(ids[..i])
      invariant forall id :: id in values ==> values[id] == 10.0
    {
      KeysOfStep(ids, i);
      values := values[ids[i] := 10.0];
    }
    assert ids[..|ids|] == ids;
  }

  /**
   * getAgeValues: the first loop collects the determinable years and their
   * minimum, the second gives every id its age factor.
   */
  method GetAgeValues(ids: seq<string>, ms: map<string, Manifestation>) returns (values: map<string, real>)
    requires IsKeyOrder(ids, ms)
    ensures values == AgeValues(ids, ms)
  {
    var years, min := CollectYears(ids, ms);
    values := AgeFactorsOf(ids, Years(ms), years, min);
    assert values == AgeValues(ids, ms);
  }

  /** The first loop of getAgeValues: the years that could be determined, and their minimum. */
  method CollectYears(ids: seq<string>, ms: map<string, Manifestation>) returns (years: map<string, real>, min: real)
    requires IsKeyOrder(ids, ms)
    ensures min == MinYear(ids, Years(ms))
    ensures forall id :: id in years ==> id in ms && Years(ms)[id] == Some(years[id])
    ensures forall id :: id in ms && Years(ms)[id].Some? ==> id in years
  {
    KeyOrderInMap(ids, ms);
    ghost var ys := Years(ms);
    ghost var found: seq<Option<real>> := [];
    years := map[];
    min := MaxValue;
    for i := 0 to |ids|
      invariant |found| == i && forall j :: 0 <= j < i ==> found[j] == ys[ids[j]]
      invariant min == MinOf(found)
      invariant forall id :: id in years ==> id in ys && ys[id] == Some(years[id])
      invariant forall j :: 0 <= j < i && found[j].Some? ==> ids[j] in years
    {
      var year := DetermineYear(ms[ids[i]].priorityKeys.date);
      YearsAt(ms, ids[i]);
      assert year == ys[ids[i]];
      MinOfAppend(found, year);
      ghost var before := found;
      found := found + [year];
      if year.Some? {
        years := years[ids[i] := year.value];
        min := Min(min, year.value);
      }
      forall j | 0 <= j < i + 1 ensures found[j] == ys[ids[j]] && (found[j].Some? ==> ids[j] in years) {
        if j < i {
          assert found[j] == before[j];
        }
      }
    }
    assert found == YearSeq(ids, ys);
    forall id | id in ms && ys[id].Some? ensures id in years {
      var j := KeysOfWitness(ids, id);
      assert found[j] == ys[id];
    }
  }

  /** One more entry folds into the minimum when it holds a year. */
  lemma MinOfAppend(found: seq<Option<real>>, year: Option<real>)
    ensures MinOf(found + [year]) == (if year.Some? then Min(MinOf(found), year.value) else MinOf(found))
  {
    assert (found + [year])[..|found|] == found;
  }

  /** The year of one candidate. */
  lemma YearsAt(ms: map<string, Manifestation>, id: string)
    requires id in ms
    ensures Years(ms)[id] == DetermineYear(ms[id].priorityKeys.date)
  {
  }

  /** The second loop of getAgeValues: Decay(year - min) for the ids with a year, 0.1 for the rest. */
  method AgeFactorsOf(ids: seq<string>, ghost ys: map<string, Option<real>>, years: map<string, real>, min: real)
    returns (values: map<string, real>)
    requires IsKeyOrder(ids, ys)
    requires min == MinYear(ids, ys)
    requires forall id :: id in years ==> id in ys && ys[id] == Some(years[id])
    requires forall id :: id in ys && ys[id].Some? ==> id in years
    ensures values.Keys == ys.Keys
    ensures forall id :: id in ys ==> values[id] == AgeValuesFor(ids, ys)[id]
  {
    KeyOrderInMap(ids, ys);
    values := map[];
    for i := 0 to |ids|
      invariant values.Keys == KeysOf(ids[..i])
      invariant forall id :: id in values ==> id in ys && values[id] == AgeValuesFor(ids, ys)[id]
    {
      var id := ids[i];
      KeysOfStep(ids, i);
      if id in years {
        DatedFactor(ids, ys, id);
        values := values[id := Decay(years[id] - min)];
      } else {
        values := values[id := 0.1];
      }
    }
    assert ids[..|ids|] == ids;
  }

  /** getEditionPriorities: every id gets the edition factor of its version. */
  method GetEditionPriorities(ids: seq<string>, ms: map<string, Manifestation>) returns (values: map<string, real>)
    requires IsKeyOrder(ids, ms)
    ensures values == EditionValues(ms)
  {
    KeyOrderInMap(ids, ms);
    values := map[];
    for i := 0 to |ids|
      invariant values.Keys == KeysOf(ids[..i])
      invariant forall id :: id in values ==> id in ms && values[id] == EditionFactor(ms[id].priorityKeys.version)
    {
      KeysOfStep(ids, i);
      var edition := EditionNumber(ms[ids[i]].priorityKeys.version);
      values := values[ids[i] := Decay(edition as real - 1.0)];
    }
    assert ids[..|ids|] == ids;
  }

  /** getTypePriorities: every id gets the best priority of its type names. */
  method GetTypePriorities(ids: seq<string>, ms: map<string, Manifestation>) returns (values: map<string, real>)
    requires IsKeyOrder(ids, ms)
    ensures values == TypeValues(ms)
  {
    KeyOrderInMap(ids, ms);
    values := map[];
    for i := 0 to |ids|
      invariant values.Keys == KeysOf(ids[..i])
      invariant forall id :: id in values ==> id in ms && values[id] == ListPrio(ms[id].types)
    {
      KeysOfStep(ids, i);
      var prio := GetTypePrioFromList(ms[ids[i]].types);
      values := values[ids[i] := prio];
    }
    assert ids[..|ids|] == ids;
  }

  /** getIdBonus: every id gets the bonus of its identifier. */
  method GetIdBonus(ids: seq<string>, ms: map<string, Manifestation>) returns (values: map<string, real>)
    requires IsKeyOrder(ids, ms)
    ensures values == IdBonusValues(ms)
  {
    KeyOrderInMap(ids, ms);
    values := map[];
    for i := 0 to |ids|
      invariant values.Keys == KeysOf(ids[..i])
      invariant forall id :: id in values ==> id in ms && values[id] == IdBonus(ms[id].priorityKeys.identifier)
    {
      KeysOfStep(ids, i);
      values := values[ids[i] := IdBonus(ms[ids[i]].priorityKeys.identifier)];
    }
    assert ids[..|ids|] == ids;
  }

  // ------------------------------------------------------------ combining

  /** The first object after addValues: ids present in both objects get the sum, no key is added or dropped. */
  function Added(values: map<string, real>, addition: map<string, real>): (r: map<string, real>)
    ensures r.Keys == values.Keys
    ensures forall id :: id in values && id in addition ==> r[id] == values[id] + addition[id]
    ensures forall id :: id in values && id !in addition ==> r[id] == values[id]
  {
    map id | id in values :: if id in addition then values[id] + addition[id] else values[id]
  }

  /** The first object after multiplyValues: ids present in both objects get the product, no key is added or dropped. */
  function Multiplied(values: map<string, real>, multiplier: map<string, real>): (r: map<string, real>)
    ensures r.Keys == values.Keys
    ensures forall id :: id in values && id in multiplier ==> r[id] == values[id] * multiplier[id]
    ensures forall id :: id in values && id !in multiplier ==> r[id] == values[id]
  {
    map id | id in values :: if id in multiplier then values[id] * multiplier[id] else values[id]
  }

  /** A JavaScript object from manifestation id to number, which addValues and multiplyValues update in place. */
  class ScoreTable {
    var values: map<string, real>

    constructor(values: map<string, real>)
      ensures this.values == values
    {
      this.values := values;
    }

    /** addValues: `for (var id in values) if (id in addition) values[id] += addition[id]`. */
    method AddValues(addition: map<string, real>)
      modifies this
      ensures values == Added(old(values), addition)
    {
      ghost var before := values;
      var todo := values.Keys;
      while todo != {}
        invariant todo <= values.Keys && values.Keys == before.Keys
        invariant forall id :: id in values && id !in todo && id in addition ==> values[id] == before[id] + addition[id]
        invariant forall id :: id in values && (id in todo || id !in addition) ==> values[id] == before[id]
        decreases todo
      {
        var id :| id in todo;
        if id in addition {
          values := values[id := values[id] + addition[id]];
        }
        todo := todo - {id};
      }
    }

    /** multiplyValues: `for (var id in values) if (id in multiplier) values[id] *= multiplier[id]`. */
    method MultiplyValues(multiplier: map<string, real>)
      modifies this
      ensures values == Multiplied(old(values), multiplier)
    {
      ghost var before := values;
      var todo := values.Keys;
      while todo != {}
        invariant todo <= values.Keys && values.Keys == before.Keys
        invariant forall id :: id in values && id !in todo && id in multiplier ==> values[id] == before[id] * multiplier[id]
        invariant forall id :: id in values && (id in todo || id !in multiplier) ==> values[id] == before[id]
        decreases todo
      {
        var id :| id in todo;
        if id in multiplier {
          values := values[id := values[id] * multiplier[id]];
        }
        todo := todo - {id};
      }
      assert forall id :: id in values ==> values[id] == Multiplied(before, multiplier)[id];
    }
  }

  /** The addValues fixture: keys only in the addition are ignored. */
  lemma AddValuesExample()
    ensures Added(map["a" := 2.0, "b" := 4.0, "c" := 8.0], map["b" := -2.0, "c" := 2.0, "d" := 10.0])
         == map["a" := 2.0, "b" := 2.0, "c" := 10.0]
  {
    var r := Added(map["a" := 2.0, "b" := 4.0, "c" := 8.0], map["b" := -2.0, "c" := 2.0, "d" := 10.0]);
    assert r["a"] == 2.0 && r["b"] == 2.0 && r["c"] == 10.0;
  }

  /** The multiplyValues fixture: keys only in the multiplier are ignored. */
  lemma MultiplyValuesExample()
    ensures Multiplied(map["a" := 2.0, "b" := 4.0, "c" := 8.0], map["b" := 2.0, "c" := -2.0, "d" := 10.0])
         == map["a" := 2.0, "b" := 8.0, "c" := -16.0]
  {
    var r := Multiplied(map["a" := 2.0, "b" := 4.0, "c" := 8.0], map["b" := 2.0, "c" := -2.0, "d" := 10.0]);
    assert r["a"] == 2.0 && r["b"] == 8.0 && r["c"] == -16.0;
  }

  /** The objects of getEditionPriorities, getTypePriorities and getIdBonus, as maps. */
  function EditionValues(ms: map<string, Manifestation>): (r: map<string, real>)
    ensures r.Keys == ms.Keys
  {
    map id | id in ms :: EditionFactor(ms[id].priorityKeys.version)
  }

  function TypeValues(ms: map<string, Manifestation>): (r: map<string, real>)
    ensures r.Keys == ms.Keys
  {
    map id | id in ms :: ListPrio(ms[id].types)
  }

  function IdBonusValues(ms: map<string, Manifestation>): (r: map<string, real>)
    ensures r.Keys == ms.Keys
  {
    map id | id in ms :: IdBonus(ms[id].priorityKeys.identifier)
  }

  /** The score formula of computeValues: 10 x age x edition x type + bonus. */
  function Formula(age: real, edition: real, prio: real, bonus: real): real
  {
    10.0 * age * edition * prio + bonus
  }

  /** The formula per id. */
  function Combine(age: map<string, real>, edition: map<string, real>, types: map<string, real>, bonus: map<string, real>)
    : (r: map<string, real>)
    requires age.Keys == edition.Keys == types.Keys == bonus.Keys
    ensures r.Keys == age.Keys
  {
    map id | id in age :: Formula(age[id], edition[id], types[id], bonus[id])
  }

  /** The object computeValues returns, as a map. */
  function Scores(ids: seq<string>, ms: map<string, Manifestation>): (scores: map<string, real>)
    requires IsKeyOrder(ids, ms)
    ensures scores.Keys == ms.Keys
  {
    Combine(AgeValues(ids, ms), EditionValues(ms), TypeValues(ms), IdBonusValues(ms))
  }

  /** The score of one candidate. */
  lemma ScoreOf(ids: seq<string>, ms: map<string, Manifestation>, id: string)
    requires IsKeyOrder(ids, ms) && id in ms
    ensures Scores(ids, ms)[id] ==
      Formula(AgeValues(ids, ms)[id], EditionFactor(ms[id].priorityKeys.version), ListPrio(ms[id].types), IdBonus(ms[id].priorityKeys.identifier))
  {
  }

  /**
   * computeValues: starts from 10 per id, multiplies by the age, edition and
   * type factors and adds the id bonus, every step over the same keys.
   */
  method ComputeValues(ids: seq<string>, ms: map<string, Manifestation>) returns (table: ScoreTable)
    requires IsKeyOrder(ids, ms)
    ensures fresh(table)
    ensures table.values == Scores(ids, ms)
  {
    var defaults := GetDefaultValues(ids, ms);
    table := new ScoreTable(defaults);
    var ageValues := GetAgeValues(ids, ms);
    table.MultiplyValues(ageValues);
    var editionValues := GetEditionPriorities(ids, ms);
    table.MultiplyValues(editionValues);
    var typeValues := GetTypePriorities(ids, ms);
    table.MultiplyValues(typeValues);
    var idBonus := GetIdBonus(ids, ms);
    table.AddValues(idBonus);
    PassesGiveFormula(defaults, ageValues, editionValues, typeValues, idBonus);
  }

  /** Starting from 10 per id, the three multiplications and the addition give the formula per id. */
  lemma PassesGiveFormula(defaults: map<string, real>, age: map<string, real>, edition: map<string, real>,
                          types: map<string, real>, bonus: map<string, real>)
    requires defaults.Keys == age.Keys == edition.Keys == types.Keys == bonus.Keys
    requires forall id :: id in defaults ==> defaults[id] == 10.0
    ensures Added(Multiplied(Multiplied(Multiplied(defaults, age), edition), types), bonus) == Combine(age, edition, types, bonus)
  {
    var v4 := Added(Multiplied(Multiplied(Multiplied(defaults, age), edition), types), bonus);
    var c := Combine(age, edition, types, bonus);
    forall id | id in v4 ensures v4[id] == c[id] {
      PassesAt(defaults, age, edition, types, bonus, id);
    }
  }

  lemma PassesAt(defaults: map<string, real>, age: map<string, real>, edition: map<string, real>,
                 types: map<string, real>, bonus: map<string, real>, id: string)
    requires id in defaults && id in age && id in edition && id in types && id in bonus
    requires defaults[id] == 10.0
    ensures id in Added(Multiplied(Multiplied(Multiplied(defaults, age), edition), types), bonus)
    ensures Added(Multiplied(Multiplied(Multiplied(defaults, age), edition), types), bonus)[id]
         == Formula(age[id], edition[id], types[id], bonus[id])
  {
    var v1 := Multiplied(defaults, age);
    var v2 := Multiplied(v1, edition);
    var v3 := Multiplied(v2, types);
    var v4 := Added(v3, bonus);
    FormulaSteps(defaults[id], age[id], edition[id], types[id], bonus[id], v1[id], v2[id], v3[id], v4[id]);
  }

  lemma FormulaSteps(x0: real, a: real, e: real, t: real, b: real, x1: real, x2: real, x3: real, x4: real)
    requires x0 == 10.0 && x1 == x0 * a && x2 == x1 * e && x3 == x2 * t && x4 == x3 + b
    ensures x4 == Formula(a, e, t, b)
  {
  }
}
