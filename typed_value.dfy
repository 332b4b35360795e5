/**
 * Values with a declared type, and the case-insensitive de-duplication
 * that keeps one spelling per type and lower-cased value, preferring a
 * spelling with capitals over an all-lowercase one.
 *
 * Unicode normalisation (NFC) and root-locale lower-casing are library
 * code; they are parameters `nfc` and `lower` of the operations that use
 * them.
 */
module TypedValues {
  import opened Wrappers

  /** A value with a declared type; the type may be null. */
  datatype TypedValue = TypedValue(valueType: Option<string>, value: string)

  /** `TypedValue.with`: an empty type stays empty, so the type is kept as given. */
  function With(valueType: string, value: string): (r: TypedValue)
    ensures r.valueType == Some(valueType) && r.value == value
  {
    TypedValue(Some(if valueType == "" then "" else valueType), value)
  }

  /** `equals`: both fields agree (`Objects.equals` on each). */
  predicate Equals(a: TypedValue, b: TypedValue)
  {
    a.valueType == b.valueType && a.value == b.value
  }

  /** Java `int` arithmetic: the value wrapped into 32-bit two's complement. */
  function Wrap32(x: int): (r: int)
    ensures -0x8000_0000 <= r < 0x8000_0000
    ensures (r - x) % 0x1_0000_0000 == 0
  {
    (x + 0x8000_0000) % 0x1_0000_0000 - 0x8000_0000
  }

  /** `String.hashCode`: h = 31 * h + c over the characters, in `int` arithmetic. */
  function StringHash(s: string): int
    decreases |s|
  {
    if s == [] then 0 else Wrap32(31 * StringHash(s[..|s| - 1]) + s[|s| - 1] as int)
  }

  /** `Objects.hash(type, value)`: 31 * (31 * 1 + hash(type)) + hash(value); null hashes to 0. */
  function HashCode(t: TypedValue): (h: int)
    ensures -0x8000_0000 <= h < 0x8000_0000
  {
    var typeHash := match t.valueType case None => 0 case Some(s) => StringHash(s);
    Wrap32(31 * Wrap32(31 + typeHash) + StringHash(t.value))
  }

  /** `equals` is equality of the pair, and equal values hash equally. */
  lemma EqualsIsFieldEquality(a: TypedValue, b: TypedValue)
    ensures Equals(a, b) <==> a == b
    ensures Equals(a, b) ==> HashCode(a) == HashCode(b)
  {
  }

  // ---------------------------------------------------------------------
  // distinctSet
  // ---------------------------------------------------------------------

  /** The bucket of a type: null becomes "". */
  function SafeType(valueType: Option<string>): (t: string)
    ensures valueType.Some? ==> t == valueType.value
    ensures valueType.None? ==> t == ""
  {
    valueType.GetOr("")
  }

  /**
   * The remapping function given to `compute`: an existing spelling that
   * is not the all-lowercase key is kept, otherwise the new spelling wins.
   */
  function Merge(stored: Option<string>, key: string, normalized: string): string
  {
    if stored.Some? && stored.value != key then stored.value else normalized
  }

  /** The per-type maps after one more input value. */
  function Step(collection: map<string, map<string, string>>, tv: TypedValue,
                nfc: string -> string, lower: string -> string): map<string, map<string, string>>
  {
    var safeType := SafeType(tv.valueType);
    var values := if safeType in collection then collection[safeType] else map[];
    var normalized := nfc(tv.value);
    var key := lower(normalized);
    var stored := if key in values then Some(values[key]) else None;
    collection[safeType := values[key := Merge(stored, key, normalized)]]
  }

  /** The per-type maps after the whole input, in input order. */
  function Collect(input: seq<TypedValue>, nfc: string -> string, lower: string -> string): map<string, map<string, string>>
    decreases |input|
  {
    if input == [] then map[]
    else Step(Collect(input[..|input| - 1], nfc, lower), input[|input| - 1], nfc, lower)
  }

  /** The output set: one typed value per type and key. */
  function Flatten(collection: map<string, map<string, string>>): set<TypedValue>
  {
    set t, k | t in collection && k in collection[t] :: With(t, collection[t][k])
  }

  /** The part of the output that comes from the types in `done`. */
  function FlattenTypes(collection: map<string, map<string, string>>, done: set<string>): set<TypedValue>
  {
    set t, k | t in done && t in collection && k in collection[t] :: With(t, collection[t][k])
  }

  /** `distinctSet`: the input folded into per-type maps, then flattened. */
  method DistinctSet(typedValues: seq<TypedValue>, nfc: string -> string, lower: string -> string)
    returns (ret: set<TypedValue>)
    ensures ret == Flatten(Collect(typedValues, nfc, lower))
  {
    var completeCollection := CollectByType(typedValues, nfc, lower);
    ret := FlattenCollection(completeCollection);
  }

  /** The first `forEach` of `distinctSet`: `computeIfAbsent` per type, then `compute` per key. */
  method CollectByType(typedValues: seq<TypedValue>, nfc: string -> string, lower: string -> string)
    returns (completeCollection: map<string, map<string, string>>)
    ensures completeCollection == Collect(typedValues, nfc, lower)
  {
    completeCollection := map[];
    for i := 0 to |typedValues|
      invariant completeCollection == Collect(typedValues[..i], nfc, lower)
    {
      var typedValue := typedValues[i];
      ghost var before := completeCollection;
      var safeType := if typedValue.valueType.None? then "" else typedValue.valueType.value;
      var values := if safeType in completeCollection then completeCollection[safeType] else map[];
      var normalized := nfc(typedValue.value);
      var key := lower(normalized);
      var stored := if key in values then Some(values[key]) else None;
      values := values[key := if stored.Some? && stored.value != key then stored.value else normalized];
      completeCollection := completeCollection[safeType := values];
      assert completeCollection == Step(before, typedValue, nfc, lower);
      CollectOneMore(typedValues, i, nfc, lower);
    }
    assert typedValues[..|typedValues|] == typedValues;
  }

  /** One more input value is one more step. */
  lemma CollectOneMore(input: seq<TypedValue>, i: int, nfc: string -> string, lower: string -> string)
    requires 0 <= i < |input|
    ensures Collect(input[..i + 1], nfc, lower) == Step(Collect(input[..i], nfc, lower), input[i], nfc, lower)
  {
    assert input[..i + 1][..i] == input[..i];
  }

  /** The second `forEach` of `distinctSet`: every (type, value) of the maps added to the result set. */
  method FlattenCollection(completeCollection: map<string, map<string, string>>) returns (ret: set<TypedValue>)
    ensures ret == Flatten(completeCollection)
  {
    ret := {};
    var done: set<string> := {};
    var types := completeCollection.Keys;
    while types != {}
      invariant types == completeCollection.Keys - done && done <= completeCollection.Keys
      invariant ret == FlattenTypes(completeCollection, done)
      decreases |types|
    {
      var t :| t in types;
      ret := AddTypeValues(ret, t, completeCollection[t]);
      FlattenOneMore(completeCollection, done, t);
      done := done + {t};
      types := types - {t};
    }
    assert done == completeCollection.Keys;
  }

  /** The values of one type, as typed values. */
  function TypeValues(t: string, valueMap: map<string, string>, keys: set<string>): set<TypedValue>
  {
    set k | k in keys && k in valueMap :: With(t, valueMap[k])
  }

  /** The inner `forEach`: each value of one type's map added to the result set. */
  method AddTypeValues(ret0: set<TypedValue>, t: string, valueMap: map<string, string>) returns (ret: set<TypedValue>)
    ensures ret == ret0 + TypeValues(t, valueMap, valueMap.Keys)
  {
    ret := ret0;
    var keys := valueMap.Keys;
    ghost var seen: set<string> := {};
    while keys != {}
      invariant keys == valueMap.Keys - seen && seen <= valueMap.Keys
      invariant ret == ret0 + TypeValues(t, valueMap, seen)
      decreases |keys|
    {
      var key :| key in keys;
      TypeValuesOneMore(t, valueMap, seen, key);
      ret := ret + {With(t, valueMap[key])};
      keys := keys - {key};
      seen := seen + {key};
    }
    assert seen == valueMap.Keys;
  }

  /** One more key adds its typed value. */
  lemma TypeValuesOneMore(t: string, valueMap: map<string, string>, seen: set<string>, key: string)
    requires key in valueMap
    ensures TypeValues(t, valueMap, seen + {key}) == TypeValues(t, valueMap, seen) + {With(t, valueMap[key])}
  {
  }

  /** Adding one type to `done` adds that type's values. */
  lemma FlattenOneMore(collection: map<string, map<string, string>>, done: set<string>, t: string)
    requires t in collection
    ensures FlattenTypes(collection, done + {t})
      == FlattenTypes(collection, done) + TypeValues(t, collection[t], collection[t].Keys)
  {
  }

  // ---------------------------------------------------------------------
  // What distinctSet promises
  // ---------------------------------------------------------------------

  /** Every stored spelling lower-cases to the key it is stored under. */
  ghost predicate WellKeyed(collection: map<string, map<string, string>>, lower: string -> string)
  {
    forall t, k :: t in collection && k in collection[t] ==> lower(collection[t][k]) == k
  }

  /** Every stored spelling is the normal form of an input value of that type bucket. */
  ghost predicate FromInput(collection: map<string, map<string, string>>, input: seq<TypedValue>, nfc: string -> string)
  {
    forall t, k :: t in collection && k in collection[t] ==>
      exists i :: 0 <= i < |input| && SafeType(input[i].valueType) == t && nfc(input[i].value) == collection[t][k]
  }

  /** Every input value has an entry under its type bucket and key. */
  ghost predicate Covers(collection: map<string, map<string, string>>, input: seq<TypedValue>,
                         nfc: string -> string, lower: string -> string)
  {
    forall i :: 0 <= i < |input| ==>
      SafeType(input[i].valueType) in collection && lower(nfc(input[i].value)) in collection[SafeType(input[i].valueType)]
  }

  /**
   * One step: the entry under the value's type and key becomes the new
   * spelling unless a spelling that is not all-lowercase is already
   * there; every other entry stays.
   */
  lemma StepEffect(collection: map<string, map<string, string>>, tv: TypedValue,
                   nfc: string -> string, lower: string -> string)
    ensures var c := Step(collection, tv, nfc, lower);
      var t, key := SafeType(tv.valueType), lower(nfc(tv.value));
      && c.Keys == collection.Keys + {t}
      && key in c[t]
      && (t in collection && key in collection[t] && collection[t][key] != key ==> c[t][key] == collection[t][key])
      && (!(t in collection && key in collection[t] && collection[t][key] != key) ==> c[t][key] == nfc(tv.value))
      && (forall t' :: t' in collection && t' != t ==> c[t'] == collection[t'])
      && (t in collection ==> c[t].Keys == collection[t].Keys + {key})
      && (t in collection ==> forall k :: k in collection[t] && k != key ==> c[t][k] == collection[t][k])
  {
  }

  /** Every stored spelling lower-cases to its key. */
  lemma {:induction false} CollectWellKeyed(input: seq<TypedValue>, nfc: string -> string, lower: string -> string)
    ensures WellKeyed(Collect(input, nfc, lower), lower)
    decreases |input|
  {
    if input != [] {
      var init := input[..|input| - 1];
      CollectWellKeyed(init, nfc, lower);
      StepEffect(Collect(init, nfc, lower), input[|input| - 1], nfc, lower);
    }
  }

  /** Every stored spelling is the normal form of an input value of its type bucket. */
  lemma {:induction false} CollectFromInput(input: seq<TypedValue>, nfc: string -> string, lower: string -> string)
    ensures FromInput(Collect(input, nfc, lower), input, nfc)
    decreases |input|
  {
    if input != [] {
      var init := input[..|input| - 1];
      var tv := input[|input| - 1];
      CollectFromInput(init, nfc, lower);
      var c0 := Collect(init, nfc, lower);
      var c := Collect(input, nfc, lower);
      StepEffect(c0, tv, nfc, lower);
      var t, key := SafeType(tv.valueType), lower(nfc(tv.value));
      forall t', k | t' in c && k in c[t']
        ensures exists i :: 0 <= i < |input| && SafeType(input[i].valueType) == t' && nfc(input[i].value) == c[t'][k]
      {
        if t' == t && k == key && !(t in c0 && key in c0[t] && c0[t][key] != key) {
          assert SafeType(input[|input| - 1].valueType) == t' && nfc(input[|input| - 1].value) == c[t'][k];
        } else {
          assert t' in c0 && k in c0[t'] && c[t'][k] == c0[t'][k];
          var i :| 0 <= i < |init| && SafeType(init[i].valueType) == t' && nfc(init[i].value) == c0[t'][k];
          assert input[i] == init[i];
        }
      }
    }
  }

  /** Every input value has an entry under its type bucket and key. */
  lemma {:induction false} CollectCovers(input: seq<TypedValue>, nfc: string -> string, lower: string -> string)
    ensures Covers(Collect(input, nfc, lower), input, nfc, lower)
    decreases |input|
  {
    if input != [] {
      var init := input[..|input| - 1];
      CollectCovers(init, nfc, lower);
      StepEffect(Collect(init, nfc, lower), input[|input| - 1], nfc, lower);
      forall i | 0 <= i < |init| ensures input[i] == init[i] { }
    }
  }

  /** The three facts together. */
  lemma CollectProperties(input: seq<TypedValue>, nfc: string -> string, lower: string -> string)
    ensures WellKeyed(Collect(input, nfc, lower), lower)
    ensures FromInput(Collect(input, nfc, lower), input, nfc)
    ensures Covers(Collect(input, nfc, lower), input, nfc, lower)
  {
    CollectWellKeyed(input, nfc, lower);
    CollectFromInput(input, nfc, lower);
    CollectCovers(input, nfc, lower);
  }

  /** At most one output value per type and lower-cased value. */
  lemma DistinctOutput(input: seq<TypedValue>, nfc: string -> string, lower: string -> string, a: TypedValue, b: TypedValue)
    requires a in Flatten(Collect(input, nfc, lower)) && b in Flatten(Collect(input, nfc, lower))
    requires a.valueType == b.valueType && lower(a.value) == lower(b.value)
    ensures a == b
  {
    var c := Collect(input, nfc, lower);
    CollectProperties(input, nfc, lower);
    var ta, ka :| ta in c && ka in c[ta] && a == With(ta, c[ta][ka]);
    var tb, kb :| tb in c && kb in c[tb] && b == With(tb, c[tb][kb]);
    assert ta == tb;
  }

  /** Every output value is the normal form of an input value, with that input's type bucket. */
  lemma OutputFromInput(input: seq<TypedValue>, nfc: string -> string, lower: string -> string, o: TypedValue)
    requires o in Flatten(Collect(input, nfc, lower))
    ensures exists i :: 0 <= i < |input| && o.valueType == Some(SafeType(input[i].valueType)) && o.value == nfc(input[i].value)
  {
    var c := Collect(input, nfc, lower);
    CollectProperties(input, nfc, lower);
    var t, k :| t in c && k in c[t] && o == With(t, c[t][k]);
    var i :| 0 <= i < |input| && SafeType(input[i].valueType) == t && nfc(input[i].value) == c[t][k];
  }

  /** Every input value is represented by an output value with its type bucket and lower-cased value. */
  lemma OutputCoversInput(input: seq<TypedValue>, nfc: string -> string, lower: string -> string, i: nat)
    requires i < |input|
    ensures exists o :: (o in Flatten(Collect(input, nfc, lower))
      && o.valueType == Some(SafeType(input[i].valueType)) && lower(o.value) == lower(nfc(input[i].value)))
  {
    var c := Collect(input, nfc, lower);
    CollectProperties(input, nfc, lower);
    var t, k := SafeType(input[i].valueType), lower(nfc(input[i].value));
    assert With(t, c[t][k]) in Flatten(c);
  }

  /** No input, no output. */
  lemma EmptyInputEmptyOutput(nfc: string -> string, lower: string -> string)
    ensures DistinctSetOf([], nfc, lower) == {}
  {
  }

  /** The set `distinctSet` returns, as a function of its input. */
  function DistinctSetOf(input: seq<TypedValue>, nfc: string -> string, lower: string -> string): set<TypedValue>
  {
    Flatten(Collect(input, nfc, lower))
  }

  /** A capitalised spelling wins over the lowercase one, in either input order. */
  lemma UseCapitalisedExample(nfc: string -> string, lower: string -> string)
    requires nfc("abc") == "abc" && nfc("Abc") == "Abc"
    requires lower("abc") == "abc" && lower("Abc") == "abc"
    ensures DistinctSetOf([With("", "abc"), With("", "Abc")], nfc, lower) == {With("", "Abc")}
    ensures DistinctSetOf([With("", "Abc"), With("", "abc")], nfc, lower) == {With("", "Abc")}
  {
    var lowerFirst := [With("", "abc"), With("", "Abc")];
    var capitalFirst := [With("", "Abc"), With("", "abc")];
    var lowerOnly, capitalOnly := map["" := map["abc" := "abc"]], map["" := map["abc" := "Abc"]];
    assert Collect(lowerFirst[..1], nfc, lower) == lowerOnly;
    assert With("", "Abc").value == "Abc" && SafeType(With("", "Abc").valueType) == "";
    assert lowerOnly[""]["abc" := "Abc"] == capitalOnly[""];
    assert lowerOnly["" := capitalOnly[""]] == capitalOnly;
    assert Step(lowerOnly, With("", "Abc"), nfc, lower) == capitalOnly;
    assert lowerFirst[..|lowerFirst| - 1] == lowerFirst[..1];
    assert Collect(capitalFirst[..1], nfc, lower) == capitalOnly;
    assert With("", "abc").value == "abc" && SafeType(With("", "abc").valueType) == "";
    assert capitalOnly[""]["abc" := "Abc"] == capitalOnly[""];
    assert capitalOnly["" := capitalOnly[""]] == capitalOnly;
    assert Step(capitalOnly, With("", "abc"), nfc, lower) == capitalOnly;
    assert capitalFirst[..|capitalFirst| - 1] == capitalFirst[..1];
    SingleEntry("", "abc", "Abc");
  }

  /** The output of a single entry. */
  lemma SingleEntry(t: string, k: string, v: string)
    ensures Flatten(map[t := map[k := v]]) == {With(t, v)}
  {
    var c := map[t := map[k := v]];
    assert With(t, c[t][k]) in Flatten(c);
  }

  /** A null type goes to the "" bucket and is reported as type "". */
  lemma NullTypeExample(nfc: string -> string, lower: string -> string)
    requires nfc("abc") == "abc" && lower("abc") == "abc"
    ensures DistinctSetOf([TypedValue(None, "abc")], nfc, lower) == {With("", "abc")}
  {
    assert Collect([TypedValue(None, "abc")], nfc, lower) == map["" := map["abc" := "abc"]];
    SingleEntry("", "abc", "abc");
  }

  /** Once a spelling that is not all-lowercase is stored, later input never replaces it. */
  lemma {:induction false} CapitalisedStays(input: seq<TypedValue>, more: seq<TypedValue>,
                                           nfc: string -> string, lower: string -> string, t: string, key: string)
    requires t in Collect(input, nfc, lower) && key in Collect(input, nfc, lower)[t]
    requires Collect(input, nfc, lower)[t][key] != key
    ensures t in Collect(input + more, nfc, lower) && key in Collect(input + more, nfc, lower)[t]
    ensures Collect(input + more, nfc, lower)[t][key] == Collect(input, nfc, lower)[t][key]
    decreases |more|
  {
    if more != [] {
      var init := more[..|more| - 1];
      CapitalisedStays(input, init, nfc, lower, t, key);
      assert (input + more)[..|input + more| - 1] == input + init;
      StepEffect(Collect(input + init, nfc, lower), more[|more| - 1], nfc, lower);
    } else {
      assert input + more == input;
    }
  }

  /** Values of different types are kept apart. */
  lemma DifferentTypesExample(nfc: string -> string, lower: string -> string)
    requires nfc("abc") == "abc" && nfc("def") == "def" && lower("abc") == "abc" && lower("def") == "def"
    ensures DistinctSetOf([With("1", "abc"), With("a", "def")], nfc, lower) == {With("1", "abc"), With("a", "def")}
  {
    var input := [With("1", "abc"), With("a", "def")];
    var first := map["1" := map["abc" := "abc"]];
    var both := map["1" := map["abc" := "abc"], "a" := map["def" := "def"]];
    assert Collect(input[..1], nfc, lower) == first;
    assert With("a", "def").value == "def" && SafeType(With("a", "def").valueType) == "a";
    assert Step(first, With("a", "def"), nfc, lower) == both;
    assert input[..|input| - 1] == input[..1];
    var out := Flatten(both);
    assert With("1", both["1"]["abc"]) in out && With("a", both["a"]["def"]) in out;
  }
}
