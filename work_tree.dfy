/**
 * The structure of a corepo work as the worker sees it: units, the objects
 * of each unit, and a cache builder per manifestation stream of each
 * object. Every level is a hash map; its entries are held here as a
 * sequence in the map's iteration order, so "the last one visited" has a
 * meaning.
 */
module WorkTrees {
  import opened Wrappers
  import opened Instants
  import opened CacheBuilders

  /** An object of a unit: its builders keyed by stream name. */
  datatype ObjectTree = ObjectTree(primary: bool, modified: Instant, streams: seq<(string, CacheContentBuilder)>)

  /** A unit of the work: its objects keyed by corepo id. */
  datatype UnitTree = UnitTree(primary: bool, modified: Instant, objects: seq<(string, ObjectTree)>)

  // ---------------------------------------------------------------------
  // Hash map entries in iteration order
  // ---------------------------------------------------------------------

  predicate DistinctKeys<V>(entries: seq<(string, V)>)
  {
    forall i, j :: 0 <= i < j < |entries| ==> entries[i].0 != entries[j].0
  }

  function Keys<V>(entries: seq<(string, V)>): (ks: seq<string>)
    ensures |ks| == |entries| && forall i :: 0 <= i < |entries| ==> ks[i] == entries[i].0
  {
    seq(|entries|, i requires 0 <= i < |entries| => entries[i].0)
  }

  function Values<V>(entries: seq<(string, V)>): (vs: seq<V>)
    ensures |vs| == |entries| && forall i :: 0 <= i < |entries| ==> vs[i] == entries[i].1
  {
    seq(|entries|, i requires 0 <= i < |entries| => entries[i].1)
  }

  /** `HashMap.put`: a present key keeps its place and gets the new value; a new key is added at the end. */
  function Put<V>(entries: seq<(string, V)>, key: string, value: V): seq<(string, V)>
    decreases |entries|
  {
    if |entries| == 0 then [(key, value)]
    else if entries[0].0 == key then [(key, value)] + entries[1..]
    else [entries[0]] + Put(entries[1..], key, value)
  }

  /** An entry whose key no other entry has may go in front of distinct entries. */
  lemma ConsDistinct<V>(head: (string, V), tail: seq<(string, V)>)
    requires DistinctKeys(tail)
    requires forall e :: e in tail ==> e.0 != head.0
    ensures DistinctKeys([head] + tail)
  {
    var s := [head] + tail;
    forall i, j | 0 <= i < j < |s| ensures s[i].0 != s[j].0 {
      assert s[j] == tail[j - 1];
      if i > 0 {
        assert s[i] == tail[i - 1];
      }
    }
  }

  /** The tail of distinct entries is distinct and does not hold the head's key. */
  lemma TailDistinct<V>(entries: seq<(string, V)>)
    requires DistinctKeys(entries) && |entries| > 0
    ensures DistinctKeys(entries[1..])
    ensures forall e :: e in entries[1..] ==> e.0 != entries[0].0
  {
    var rest := entries[1..];
    forall i, j | 0 <= i < j < |rest| ensures rest[i].0 != rest[j].0 {
      assert rest[i] == entries[i + 1] && rest[j] == entries[j + 1];
    }
    forall e | e in rest ensures e.0 != entries[0].0 {
      var k :| 0 <= k < |rest| && rest[k] == e;
      assert entries[k + 1] == e;
    }
  }

  /**
   * After a put the key holds the new value, every other entry is as it
   * was, and keys stay distinct.
   */
  lemma PutSpec<V>(entries: seq<(string, V)>, key: string, value: V)
    requires DistinctKeys(entries)
    ensures DistinctKeys(Put(entries, key, value))
    ensures (key, value) in Put(entries, key, value)
    ensures forall e :: e in Put(entries, key, value) && e.0 != key ==> e in entries
    ensures forall e :: e in entries && e.0 != key ==> e in Put(entries, key, value)
    ensures key in Keys(entries) ==> |Put(entries, key, value)| == |entries|
    ensures key !in Keys(entries) ==> Put(entries, key, value) == entries + [(key, value)]
  {
    PutMembers(entries, key, value);
    PutShape(entries, key, value);
    PutDistinct(entries, key, value);
  }

  /** A put holds the new entry and keeps every entry of another key. */
  lemma {:induction false} PutMembers<V>(entries: seq<(string, V)>, key: string, value: V)
    ensures (key, value) in Put(entries, key, value)
    ensures forall e :: e in Put(entries, key, value) && e.0 != key ==> e in entries
    ensures forall e :: e in entries && e.0 != key ==> e in Put(entries, key, value)
    decreases |entries|
  {
    if |entries| > 0 {
      var rest := entries[1..];
      assert entries == [entries[0]] + rest;
      if entries[0].0 == key {
        assert Put(entries, key, value) == [(key, value)] + rest;
      } else {
        PutMembers(rest, key, value);
        assert Put(entries, key, value) == [entries[0]] + Put(rest, key, value);
      }
    }
  }

  /** The keys of entries are the first key and the keys of the rest. */
  lemma KeysTail<V>(entries: seq<(string, V)>)
    requires |entries| > 0
    ensures forall k :: k in Keys(entries) <==> k == entries[0].0 || k in Keys(entries[1..])
  {
    var rest := entries[1..];
    forall k ensures k in Keys(entries) <==> k == entries[0].0 || k in Keys(rest) {
      if k in Keys(entries) && k != entries[0].0 {
        var i :| 0 <= i < |entries| && Keys(entries)[i] == k;
        assert Keys(rest)[i - 1] == k;
      }
      if k in Keys(rest) {
        var i :| 0 <= i < |rest| && Keys(rest)[i] == k;
        assert Keys(entries)[i + 1] == k;
      }
      if k == entries[0].0 {
        assert Keys(entries)[0] == k;
      }
    }
  }

  /** A put of a present key keeps the length; a put of a new key appends. */
  lemma {:induction false} PutShape<V>(entries: seq<(string, V)>, key: string, value: V)
    ensures key in Keys(entries) ==> |Put(entries, key, value)| == |entries|
    ensures key !in Keys(entries) ==> Put(entries, key, value) == entries + [(key, value)]
    decreases |entries|
  {
    if |entries| > 0 {
      var rest := entries[1..];
      KeysTail(entries);
      if entries[0].0 != key {
        PutShape(rest, key, value);
        assert Put(entries, key, value) == [entries[0]] + Put(rest, key, value);
        if key !in Keys(entries) {
          assert entries + [(key, value)] == [entries[0]] + (rest + [(key, value)]);
        }
      }
    }
  }

  /** A put keeps keys distinct. */
  lemma {:induction false} PutDistinct<V>(entries: seq<(string, V)>, key: string, value: V)
    requires DistinctKeys(entries)
    ensures DistinctKeys(Put(entries, key, value))
    decreases |entries|
  {
    if |entries| > 0 {
      var rest := entries[1..];
      TailDistinct(entries);
      if entries[0].0 == key {
        assert Put(entries, key, value) == [(key, value)] + rest;
        ConsDistinct((key, value), rest);
      } else {
        PutDistinct(rest, key, value);
        PutMembers(rest, key, value);
        assert Put(entries, key, value) == [entries[0]] + Put(rest, key, value);
        ConsDistinct(entries[0], Put(rest, key, value));
      }
    }
  }

  /** The elements of a list of lists, in order. */
  function Flatten<T>(xss: seq<seq<T>>): seq<T>
    decreases |xss|
  {
    if |xss| == 0 then [] else xss[0] + Flatten(xss[1..])
  }

  lemma {:induction false} FlattenMember<T>(xss: seq<seq<T>>, x: T)
    ensures x in Flatten(xss) <==> exists i :: 0 <= i < |xss| && x in xss[i]
    decreases |xss|
  {
    if |xss| > 0 {
      FlattenMember(xss[1..], x);
      if exists i :: 1 <= i < |xss| && x in xss[i] {
        var i :| 1 <= i < |xss| && x in xss[i];
        assert x in xss[1..][i - 1];
      }
      if exists i :: 0 <= i < |xss[1..]| && x in xss[1..][i] {
        var i :| 0 <= i < |xss[1..]| && x in xss[1..][i];
        assert x in xss[i + 1];
      }
    }
  }

  // ---------------------------------------------------------------------
  // The builders of a tree
  // ---------------------------------------------------------------------

  /** Every builder of a unit: the values of each of its objects, object by object. */
  function UnitBuilders(u: UnitTree): seq<CacheContentBuilder>
  {
    Flatten(seq(|u.objects|, i requires 0 <= i < |u.objects| => Values(u.objects[i].1.streams)))
  }

  /** Every builder of a tree, unit by unit. */
  function TreeBuilders(units: seq<(string, UnitTree)>): seq<CacheContentBuilder>
  {
    Flatten(seq(|units|, i requires 0 <= i < |units| => UnitBuilders(units[i].1)))
  }

  /** A builder sits under some stream of some object of the unit. */
  lemma UnitBuildersMember(u: UnitTree, b: CacheContentBuilder)
    ensures b in UnitBuilders(u) <==> exists j, k :: 0 <= j < |u.objects| && 0 <= k < |u.objects[j].1.streams| && u.objects[j].1.streams[k].1 == b
  {
    var xss := seq(|u.objects|, i requires 0 <= i < |u.objects| => Values(u.objects[i].1.streams));
    FlattenMember(xss, b);
    if b in UnitBuilders(u) {
      var j :| 0 <= j < |xss| && b in xss[j];
      var k :| 0 <= k < |xss[j]| && xss[j][k] == b;
      assert u.objects[j].1.streams[k].1 == b;
    }
    if exists j, k :: 0 <= j < |u.objects| && 0 <= k < |u.objects[j].1.streams| && u.objects[j].1.streams[k].1 == b {
      var j, k :| 0 <= j < |u.objects| && 0 <= k < |u.objects[j].1.streams| && u.objects[j].1.streams[k].1 == b;
      assert xss[j][k] == b;
    }
  }

  /** A builder sits under some unit of the tree. */
  lemma TreeBuildersMember(units: seq<(string, UnitTree)>, b: CacheContentBuilder)
    ensures b in TreeBuilders(units) <==> exists i :: 0 <= i < |units| && b in UnitBuilders(units[i].1)
  {
    var xss := seq(|units|, i requires 0 <= i < |units| => UnitBuilders(units[i].1));
    FlattenMember(xss, b);
    if exists i :: 0 <= i < |units| && b in UnitBuilders(units[i].1) {
      var i :| 0 <= i < |units| && b in UnitBuilders(units[i].1);
      assert b in xss[i];
    }
  }

  /** The builders that are not marked deleted, in order. */
  function Active(bs: seq<CacheContentBuilder>): seq<CacheContentBuilder>
    decreases |bs|
  {
    if |bs| == 0 then []
    else (if bs[0].deleted then [] else [bs[0]]) + Active(bs[1..])
  }

  /** A builder is active exactly when it is one of the builders and is not deleted. */
  lemma {:induction false} ActiveMember(bs: seq<CacheContentBuilder>, b: CacheContentBuilder)
    ensures b in Active(bs) <==> b in bs && !b.deleted
    decreases |bs|
  {
    if |bs| > 0 {
      ActiveMember(bs[1..], b);
      assert bs == [bs[0]] + bs[1..];
    }
  }

  /** The manifestation ids of some builders. */
  function IdsOf(bs: seq<CacheContentBuilder>): (ids: set<string>)
    ensures forall b :: b in bs ==> b.manifestationId in ids
    ensures forall m :: m in ids ==> exists b :: b in bs && b.manifestationId == m
  {
    set b | b in bs :: b.manifestationId
  }

  // ---------------------------------------------------------------------
  // The primary object
  // ---------------------------------------------------------------------

  /** The object keyed `objects[j]` is primary and so is its unit `units[i]`. */
  predicate PrimaryPair(units: seq<(string, UnitTree)>, i: int, j: int)
  {
    0 <= i < |units| && 0 <= j < |units[i].1.objects|
    && units[i].1.primary && units[i].1.objects[j].1.primary
  }

  /** The pair is primary and no primary pair is visited after it. */
  ghost predicate LastPrimaryPair(units: seq<(string, UnitTree)>, i: int, j: int)
  {
    PrimaryPair(units, i, j)
    && forall i2, j2 :: PrimaryPair(units, i2, j2) ==> i2 < i || (i2 == i && j2 <= j)
  }

  /** `objects[j]` is primary and no later object is. */
  ghost predicate LastPrimaryObject(objects: seq<(string, ObjectTree)>, j: int)
  {
    0 <= j < |objects| && objects[j].1.primary
    && forall j2 :: j < j2 < |objects| ==> !objects[j2].1.primary
  }

  /** The keys of the primary objects, in visiting order. */
  function ObjectCandidates(objects: seq<(string, ObjectTree)>): seq<string>
    decreases |objects|
  {
    if |objects| == 0 then []
    else
      var last := objects[|objects| - 1];
      ObjectCandidates(objects[..|objects| - 1]) + (if last.1.primary then [last.0] else [])
  }

  /** The keys of the primary objects of the primary units, in visiting order. */
  function UnitCandidates(units: seq<(string, UnitTree)>): seq<string>
    decreases |units|
  {
    if |units| == 0 then []
    else
      var last := units[|units| - 1];
      UnitCandidates(units[..|units| - 1]) + (if last.1.primary then ObjectCandidates(last.1.objects) else [])
  }

  function LastOf(s: seq<string>): Option<string>
  {
    if |s| == 0 then None else Some(s[|s| - 1])
  }

  /** What the visit of `getPrimary` leaves: the last primary object of a primary unit, if any. */
  function PrimaryOf(units: seq<(string, UnitTree)>): Option<string>
  {
    LastOf(UnitCandidates(units))
  }

  lemma {:induction false} ObjectCandidatesSpec(objects: seq<(string, ObjectTree)>)
    ensures |ObjectCandidates(objects)| == 0 <==> forall j :: 0 <= j < |objects| ==> !objects[j].1.primary
    ensures |ObjectCandidates(objects)| > 0 ==>
      exists j :: LastPrimaryObject(objects, j) && objects[j].0 == ObjectCandidates(objects)[|ObjectCandidates(objects)| - 1]
    decreases |objects|
  {
    if |objects| > 0 {
      var n := |objects| - 1;
      var init := objects[..n];
      ObjectCandidatesSpec(init);
      var ci := ObjectCandidates(init);
      forall j | 0 <= j < n ensures objects[j] == init[j] { }
      if objects[n].1.primary {
        assert ObjectCandidates(objects) == ci + [objects[n].0];
        assert LastPrimaryObject(objects, n);
      } else {
        assert ObjectCandidates(objects) == ci;
        if |ci| > 0 {
          var j :| LastPrimaryObject(init, j) && init[j].0 == ci[|ci| - 1];
          assert LastPrimaryObject(objects, j);
        }
      }
    }
  }

  /**
   * `getPrimary`'s visit finds nothing exactly when no primary unit holds a
   * primary object; otherwise it finds the key of the last such object
   * visited.
   */
  lemma {:induction false} PrimaryOfSpec(units: seq<(string, UnitTree)>)
    ensures PrimaryOf(units).None? <==> forall i, j :: !PrimaryPair(units, i, j)
    ensures PrimaryOf(units).Some? ==> exists i, j :: LastPrimaryPair(units, i, j) && units[i].1.objects[j].0 == PrimaryOf(units).value
    decreases |units|
  {
    CandidatesEmpty(units);
    if |UnitCandidates(units)| > 0 {
      var i, j := CandidatesLast(units);
    }
  }

  /** Unit `i` holds no primary pair. */
  ghost predicate NoPrimaryIn(units: seq<(string, UnitTree)>, i: int)
  {
    forall j :: !PrimaryPair(units, i, j)
  }

  /** The last unit holds a primary pair exactly when it adds candidates. */
  lemma LastUnitPairs(units: seq<(string, UnitTree)>)
    requires |units| > 0
    ensures var last := units[|units| - 1].1;
      |(if last.primary then ObjectCandidates(last.objects) else [])| == 0
      <==> NoPrimaryIn(units, |units| - 1)
  {
    var n := |units| - 1;
    var objs := units[n].1.objects;
    ObjectCandidatesSpec(objs);
    forall j ensures PrimaryPair(units, n, j) <==> units[n].1.primary && 0 <= j < |objs| && objs[j].1.primary {
    }
  }

  /** No candidate is visited exactly when no primary unit holds a primary object. */
  lemma {:induction false} CandidatesEmpty(units: seq<(string, UnitTree)>)
    ensures |UnitCandidates(units)| == 0 <==> forall i, j :: !PrimaryPair(units, i, j)
    decreases |units|
  {
    if |units| > 0 {
      var n := |units| - 1;
      var init := units[..n];
      CandidatesEmpty(init);
      InitPairs(units);
      LastUnitPairs(units);
      var last := units[n].1;
      var tail := if last.primary then ObjectCandidates(last.objects) else [];
      assert UnitCandidates(units) == UnitCandidates(init) + tail;
      if |UnitCandidates(units)| == 0 {
        forall i, j ensures !PrimaryPair(units, i, j) {
          if 0 <= i < n {
            assert PrimaryPair(units, i, j) ==> PrimaryPair(init, i, j);
          }
        }
      } else if |tail| == 0 {
        var i, j :| PrimaryPair(init, i, j);
        assert PrimaryPair(units, i, j);
      }
    }
  }

  /** The last candidate visited is the key of the last primary pair. */
  lemma {:induction false} CandidatesLast(units: seq<(string, UnitTree)>) returns (i: int, j: int)
    requires |UnitCandidates(units)| > 0
    ensures LastPrimaryPair(units, i, j) && units[i].1.objects[j].0 == UnitCandidates(units)[|UnitCandidates(units)| - 1]
    decreases |units|
  {
    var n := |units| - 1;
    var init := units[..n];
    var last := units[n].1;
    var tail := if last.primary then ObjectCandidates(last.objects) else [];
    assert UnitCandidates(units) == UnitCandidates(init) + tail;
    if |tail| > 0 {
      i := n;
      j := LastObjectCandidate(last.objects);
      LastUnitWins(units, j);
    } else {
      i, j := CandidatesLast(init);
      LastUnitPairs(units);
      InitPairWins(units, i, j);
    }
  }

  /** The last candidate of a unit is the key of its last primary object. */
  lemma LastObjectCandidate(objects: seq<(string, ObjectTree)>) returns (j: int)
    requires |ObjectCandidates(objects)| > 0
    ensures LastPrimaryObject(objects, j) && objects[j].0 == ObjectCandidates(objects)[|ObjectCandidates(objects)| - 1]
  {
    ObjectCandidatesSpec(objects);
    j :| LastPrimaryObject(objects, j) && objects[j].0 == ObjectCandidates(objects)[|ObjectCandidates(objects)| - 1];
  }

  /** The last primary object of a primary last unit is the last primary pair. */
  lemma LastUnitWins(units: seq<(string, UnitTree)>, j: int)
    requires |units| > 0 && units[|units| - 1].1.primary
    requires LastPrimaryObject(units[|units| - 1].1.objects, j)
    ensures LastPrimaryPair(units, |units| - 1, j)
  {
  }

  /** When the last unit holds no primary pair, the last pair of the others is the last one. */
  lemma InitPairWins(units: seq<(string, UnitTree)>, i: int, j: int)
    requires |units| > 0 && LastPrimaryPair(units[..|units| - 1], i, j)
    requires NoPrimaryIn(units, |units| - 1)
    ensures LastPrimaryPair(units, i, j) && units[i] == units[..|units| - 1][i]
  {
    InitPairs(units);
  }

  /** The primary pairs of all units but the last are those of the shorter list. */
  lemma InitPairs(units: seq<(string, UnitTree)>)
    requires |units| > 0
    ensures forall i, j :: 0 <= i < |units| - 1 ==> (PrimaryPair(units[..|units| - 1], i, j) <==> PrimaryPair(units, i, j))
  {
    forall i, j | 0 <= i < |units| - 1
      ensures PrimaryPair(units[..|units| - 1], i, j) <==> PrimaryPair(units, i, j)
    {
      assert units[..|units| - 1][i] == units[i];
    }
  }

  /** `getPersistentWorkId` of a non-empty tree: "work-of-" and the primary key, or "null" when there is none. */
  function PersistentWorkIdOf(primary: Option<string>): (id: string)
    ensures |id| >= |"work-of-"| && id[..|"work-of-"|] == "work-of-"
    ensures primary.Some? ==> id[|"work-of-"|..] == primary.value
    ensures primary.None? ==> id[|"work-of-"|..] == "null"
  {
    "work-of-" + (if primary.Some? then primary.value else "null")
  }

  /** The memo after a `getPrimary`: an empty tree or a known primary leave it; otherwise it becomes the visit's result. */
  function MemoAfter(memo: Option<string>, units: seq<(string, UnitTree)>): Option<string>
  {
    if |units| == 0 || memo.Some? then memo else PrimaryOf(units)
  }

  // ---------------------------------------------------------------------
  // The work tree
  // ---------------------------------------------------------------------

  /** A work: its corepo id, its modified time, its units and the memo of its primary object. */
  class WorkTree {
    const work: string
    const modified: Instant
    var units: seq<(string, UnitTree)>
    var primary: Option<string>

    /** A tree with no units and no primary yet. */
    constructor(work: string, modified: Instant)
      ensures this.work == work && this.modified == modified
      ensures units == [] && primary.None?
    {
      this.work := work;
      this.modified := modified;
      units := [];
      primary := None;
    }

    /** `put` of a unit; the memo is left as it is. */
    method PutUnit(key: string, unit: UnitTree)
      modifies this`units
      ensures units == Put(old(units), key, unit)
    {
      units := Put(units, key, unit);
    }

    /**
     * `getPrimary`: null for a tree without units; otherwise the memo when
     * it is set, and the visit's result (now memoised) when it is not.
     */
    method GetPrimary() returns (p: Option<string>)
      modifies this`primary
      ensures primary == MemoAfter(old(primary), units)
      ensures p == if |units| == 0 then None else primary
    {
      if |units| == 0 {
        return None;
      }
      if primary.None? {
        var i := 0;
        while i < |units|
          invariant 0 <= i <= |units|
          invariant primary == LastOf(UnitCandidates(units[..i]))
        {
          var u := units[i].1;
          assert units[..i + 1][..i] == units[..i];
          if u.primary {
            var j := 0;
            while j < |u.objects|
              invariant 0 <= j <= |u.objects|
              invariant primary == LastOf(UnitCandidates(units[..i]) + ObjectCandidates(u.objects[..j]))
            {
              assert u.objects[..j + 1][..j] == u.objects[..j];
              if u.objects[j].1.primary {
                primary := Some(u.objects[j].0);
              }
              j := j + 1;
            }
            assert u.objects[..j] == u.objects;
          }
          i := i + 1;
        }
        assert units[..i] == units;
      }
      p := primary;
    }

    /** `getPersistentWorkId`: null for a tree without units, else "work-of-" and the primary (memoised as by `getPrimary`). */
    method GetPersistentWorkId() returns (id: Option<string>)
      modifies this`primary
      ensures primary == MemoAfter(old(primary), units)
      ensures id == if |units| == 0 then None else Some(PersistentWorkIdOf(primary))
    {
      if |units| == 0 {
        return None;
      }
      var p := GetPrimary();
      id := Some(PersistentWorkIdOf(p));
    }
  }

  /** A tree with units but no primary object in a primary unit is stored as "work-of-null". */
  lemma WorkOfNull(units: seq<(string, UnitTree)>)
    requires |units| > 0 && forall i, j :: !PrimaryPair(units, i, j)
    ensures PersistentWorkIdOf(MemoAfter(None, units)) == "work-of-null"
  {
    PrimaryOfSpec(units);
  }

  /** Once the memo is set, further units change neither the primary nor the persistent work id. */
  lemma MemoStable(memo: string, units: seq<(string, UnitTree)>, key: string, unit: UnitTree)
    ensures MemoAfter(Some(memo), Put(units, key, unit)) == Some(memo)
    ensures |Put(units, key, unit)| > 0
  {
  }
}
