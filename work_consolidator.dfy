/**
 * Consolidating a work: the record stored for a work is assembled from the
 * cached manifestations of its units, with the owner's titles, creators
 * and description, every unit's manifestations, and the union of their
 * subjects; it is saved under the work's persistent id with the latest
 * modified time found anywhere in the tree.
 */
module WorkConsolidation {
  import opened Wrappers
  import opened Instants
  import TypedValues
  import opened PresentationPojo
  import opened CacheBuilders
  import opened JpaEntities
  import opened WorkTrees

  // ---------------------------------------------------------------------
  // Cached contents
  // ---------------------------------------------------------------------

  /** The message of the `IllegalStateException` for a manifestation without cached content. */
  function NullContentMessage(id: string): string
  {
    "Got null content for: " + id
  }

  /** `getCacheContentFor`: the cached content, refused when the entry is missing or has none. */
  function CacheContentFor(cache: map<string, CacheRow>, id: string): (r: Result<ManifestationInformation, string>)
    ensures r.Ok? <==> id in cache && cache[id].content.Some?
    ensures r.Ok? ==> Some(r.value) == cache[id].content
    ensures r.Err? ==> r.error == NullContentMessage(id)
  {
    var row := Found(cache, id, BlankCacheRow).1;
    if row.content.None? then Err(NullContentMessage(id)) else Ok(row.content.value)
  }

  /** The contents of some builders' manifestations, as a set; the first one without content stops it. */
  function ContentsOf(cache: map<string, CacheRow>, bs: seq<CacheContentBuilder>): Result<set<ManifestationInformation>, string>
    decreases |bs|
  {
    if |bs| == 0 then Ok({})
    else
      match CacheContentFor(cache, bs[0].manifestationId)
      case Err(e) => Err(e)
      case Ok(m) =>
        match ContentsOf(cache, bs[1..])
        case Err(e) => Err(e)
        case Ok(ms) => Ok({m} + ms)
  }

  /**
   * The contents are found exactly when every builder's entry has
   * content, and are then exactly those contents; otherwise the error
   * names a builder without content.
   */
  lemma {:induction false} ContentsOfSpec(cache: map<string, CacheRow>, bs: seq<CacheContentBuilder>)
    ensures ContentsOf(cache, bs).Ok? <==> forall b :: b in bs ==> CacheContentFor(cache, b.manifestationId).Ok?
    ensures ContentsOf(cache, bs).Ok? ==> forall m :: m in ContentsOf(cache, bs).value <==>
      exists b :: b in bs && CacheContentFor(cache, b.manifestationId) == Ok(m)
    ensures ContentsOf(cache, bs).Err? ==>
      exists b :: b in bs && CacheContentFor(cache, b.manifestationId).Err? && ContentsOf(cache, bs).error == NullContentMessage(b.manifestationId)
    decreases |bs|
  {
    if |bs| > 0 {
      ContentsOfSpec(cache, bs[1..]);
      assert bs == [bs[0]] + bs[1..];
    }
  }

  /** A unit's manifestations: the contents of its builders that are not deleted. */
  function UnitContents(cache: map<string, CacheRow>, u: UnitTree): Result<set<ManifestationInformation>, string>
  {
    ContentsOf(cache, Active(UnitBuilders(u)))
  }

  /** `dbUnitInformation`: unit id to its manifestations, unit by unit; the first unit that fails stops it. */
  function UnitInformation(cache: map<string, CacheRow>, units: seq<(string, UnitTree)>): Result<map<string, set<ManifestationInformation>>, string>
    decreases |units|
  {
    if |units| == 0 then Ok(map[])
    else
      var last := units[|units| - 1];
      match UnitInformation(cache, units[..|units| - 1])
      case Err(e) => Err(e)
      case Ok(db) =>
        match UnitContents(cache, last.1)
        case Err(e) => Err(e)
        case Ok(ms) => Ok(db[last.0 := ms])
  }

  /** The ids of the units. */
  function UnitKeys(units: seq<(string, UnitTree)>): set<string>
  {
    set i | 0 <= i < |units| :: units[i].0
  }

  lemma UnitKeysSnoc(units: seq<(string, UnitTree)>)
    requires |units| > 0
    ensures UnitKeys(units) == UnitKeys(units[..|units| - 1]) + {units[|units| - 1].0}
  {
    var n := |units| - 1;
    forall k | k in UnitKeys(units) ensures k in UnitKeys(units[..n]) + {units[n].0} {
      var i :| 0 <= i < |units| && units[i].0 == k;
      if i < n { assert units[..n][i].0 == k; }
    }
    forall k | k in UnitKeys(units[..n]) ensures k in UnitKeys(units) {
      var i :| 0 <= i < n && units[..n][i].0 == k;
      assert units[i].0 == k;
    }
  }

  /** The map is built exactly when every unit's manifestations are. */
  lemma {:induction false} UnitInformationOk(cache: map<string, CacheRow>, units: seq<(string, UnitTree)>)
    ensures UnitInformation(cache, units).Ok? <==> forall i :: 0 <= i < |units| ==> UnitContents(cache, units[i].1).Ok?
    decreases |units|
  {
    if |units| > 0 {
      var n := |units| - 1;
      UnitInformationOk(cache, units[..n]);
      forall i | 0 <= i < n ensures units[i] == units[..n][i] { }
    }
  }

  /** A built map has one entry per unit, holding that unit's manifestations. */
  lemma {:induction false} UnitInformationEntries(cache: map<string, CacheRow>, units: seq<(string, UnitTree)>)
    requires DistinctKeys(units) && UnitInformation(cache, units).Ok?
    ensures UnitInformation(cache, units).value.Keys == UnitKeys(units)
    ensures forall i :: 0 <= i < |units| ==>
      UnitContents(cache, units[i].1).Ok? && UnitInformation(cache, units).value[units[i].0] == UnitContents(cache, units[i].1).value
    decreases |units|
  {
    UnitInformationOk(cache, units);
    if |units| > 0 {
      var n := |units| - 1;
      var init := units[..n];
      assert DistinctKeys(init) by {
        forall i, j | 0 <= i < j < n ensures init[i].0 != init[j].0 {
          assert init[i] == units[i] && init[j] == units[j];
        }
      }
      UnitInformationEntries(cache, init);
      UnitKeysSnoc(units);
      forall i | 0 <= i < n ensures units[i] == init[i] && units[i].0 != units[n].0 { }
    }
  }

  /** Every manifestation of every unit. */
  function AllManifestations(db: map<string, set<ManifestationInformation>>): set<ManifestationInformation>
  {
    set k, m | k in db && m in db[k] :: m
  }

  /** The work's subjects: the union of the subjects of all its manifestations that have any. */
  function SubjectsOf(db: map<string, set<ManifestationInformation>>): (subjects: set<TypedValues.TypedValue>)
    ensures forall t :: t in subjects <==>
      exists k, m :: k in db && m in db[k] && m.subjects.Some? && t in m.subjects.value
  {
    set m, t | m in AllManifestations(db) && m.subjects.Some? && t in m.subjects.value :: t
  }

  /**
   * `buildWorkInformation`: the work id, the owner's creators, description
   * and titles, the units' manifestations and their subjects; refused when
   * the owner or any manifestation of a unit has no cached content.
   */
  function WorkInformationOf(cache: map<string, CacheRow>, workId: Option<string>, units: seq<(string, UnitTree)>, ownerId: string)
    : Result<WorkInformation, string>
  {
    match CacheContentFor(cache, ownerId)
    case Err(e) => Err(e)
    case Ok(owner) =>
      match UnitInformation(cache, units)
      case Err(e) => Err(e)
      case Ok(db) =>
        Ok(WorkInformation(workId, owner.title, owner.fullTitle, owner.creators, owner.description, Some(SubjectsOf(db)), Some(db)))
  }

  /**
   * The record copies the owner's fields, holds one entry per unit with
   * that unit's manifestations, and collects their subjects; it is refused
   * exactly when the owner or some unit's manifestation has no content.
   */
  lemma WorkInformationOfSpec(cache: map<string, CacheRow>, workId: Option<string>, units: seq<(string, UnitTree)>, ownerId: string)
    requires DistinctKeys(units)
    ensures var r := WorkInformationOf(cache, workId, units, ownerId);
      && (r.Ok? <==> CacheContentFor(cache, ownerId).Ok? && forall i :: 0 <= i < |units| ==> UnitContents(cache, units[i].1).Ok?)
      && (r.Ok? ==>
        var owner := CacheContentFor(cache, ownerId).value;
        && r.value.workId == workId
        && r.value.creators == owner.creators && r.value.description == owner.description
        && r.value.fullTitle == owner.fullTitle && r.value.title == owner.title
        && r.value.dbUnitInformation.Some? && r.value.dbUnitInformation.value.Keys == UnitKeys(units)
        && (forall i :: 0 <= i < |units| ==> r.value.dbUnitInformation.value[units[i].0] == UnitContents(cache, units[i].1).value)
        && r.value.subjects == Some(SubjectsOf(r.value.dbUnitInformation.value)))
  {
    UnitInformationOk(cache, units);
    if UnitInformation(cache, units).Ok? {
      UnitInformationEntries(cache, units);
    }
  }

  // ---------------------------------------------------------------------
  // Modified time
  // ---------------------------------------------------------------------

  /** A unit's time followed by its objects' times. */
  function UnitTimes(u: UnitTree): seq<Instant>
  {
    [u.modified] + seq(|u.objects|, j requires 0 <= j < |u.objects| => u.objects[j].1.modified)
  }

  /** The times `saveWork` takes the latest of: the tree's own, then each unit's and its objects'. */
  function TreeTimes(modified: Instant, units: seq<(string, UnitTree)>): seq<Instant>
  {
    [modified] + Flatten(seq(|units|, i requires 0 <= i < |units| => UnitTimes(units[i].1)))
  }

  /** A time of the tree is the tree's own, a unit's or an object's. */
  lemma TreeTimesFrom(modified: Instant, units: seq<(string, UnitTree)>, t: Instant)
    requires t in TreeTimes(modified, units)
    ensures || t == modified
            || (exists i :: 0 <= i < |units| && t == units[i].1.modified)
            || (exists i, j :: 0 <= i < |units| && 0 <= j < |units[i].1.objects| && t == units[i].1.objects[j].1.modified)
  {
    var xss := seq(|units|, i requires 0 <= i < |units| => UnitTimes(units[i].1));
    FlattenMember(xss, t);
    if t != modified {
      var i :| 0 <= i < |xss| && t in xss[i];
      var k :| 0 <= k < |xss[i]| && xss[i][k] == t;
      if k > 0 { assert t == units[i].1.objects[k - 1].1.modified; }
    }
  }

  /** Each unit's time is one of the tree's times. */
  lemma UnitTimeIn(modified: Instant, units: seq<(string, UnitTree)>, i: int)
    requires 0 <= i < |units|
    ensures units[i].1.modified in TreeTimes(modified, units)
  {
    var xss := seq(|units|, i requires 0 <= i < |units| => UnitTimes(units[i].1));
    FlattenMember(xss, units[i].1.modified);
    assert xss[i][0] == units[i].1.modified;
  }

  /** Each object's time is one of the tree's times. */
  lemma ObjectTimeIn(modified: Instant, units: seq<(string, UnitTree)>, i: int, j: int)
    requires 0 <= i < |units| && 0 <= j < |units[i].1.objects|
    ensures units[i].1.objects[j].1.modified in TreeTimes(modified, units)
  {
    var xss := seq(|units|, i requires 0 <= i < |units| => UnitTimes(units[i].1));
    FlattenMember(xss, units[i].1.objects[j].1.modified);
    assert xss[i][j + 1] == units[i].1.objects[j].1.modified;
  }

  /** Every time in a tree is a well-formed instant. */
  ghost predicate ValidTimes(modified: Instant, units: seq<(string, UnitTree)>)
  {
    modified.Valid()
    && (forall i :: 0 <= i < |units| ==> units[i].1.modified.Valid())
    && (forall i, j :: 0 <= i < |units| && 0 <= j < |units[i].1.objects| ==> units[i].1.objects[j].1.modified.Valid())
  }

  /**
   * The modified time `saveWork` stores is one of the tree's times, and
   * none of the tree's, units' or objects' times lies after it.
   */
  lemma LatestTime(modified: Instant, units: seq<(string, UnitTree)>)
    requires ValidTimes(modified, units)
    ensures var latest := MaxInstant(TreeTimes(modified, units));
      && latest in TreeTimes(modified, units)
      && !Before(latest, modified)
      && (forall i :: 0 <= i < |units| ==> !Before(latest, units[i].1.modified))
      && (forall i, j :: 0 <= i < |units| && 0 <= j < |units[i].1.objects| ==> !Before(latest, units[i].1.objects[j].1.modified))
  {
    var times := TreeTimes(modified, units);
    forall k | 0 <= k < |times| ensures times[k].Valid() {
      TreeTimesFrom(modified, units, times[k]);
    }
    MaxInstantIsMax(times);
    var latest := MaxInstant(times);
    forall t | t in times ensures !Before(latest, t) {
      var k :| 0 <= k < |times| && times[k] == t;
    }
    forall i | 0 <= i < |units| ensures !Before(latest, units[i].1.modified) {
      UnitTimeIn(modified, units, i);
    }
    forall i, j | 0 <= i < |units| && 0 <= j < |units[i].1.objects| ensures !Before(latest, units[i].1.objects[j].1.modified) {
      ObjectTimeIn(modified, units, i, j);
    }
  }

  lemma {:induction false} FlattenSnoc<T>(xss: seq<seq<T>>, xs: seq<T>)
    ensures Flatten(xss + [xs]) == Flatten(xss) + xs
    decreases |xss|
  {
    if |xss| > 0 {
      assert (xss + [xs])[1..] == xss[1..] + [xs];
      FlattenSnoc(xss[1..], xs);
    }
  }

  // ---------------------------------------------------------------------
  // The consolidator
  // ---------------------------------------------------------------------

  /** The consolidator, over the entity manager. */
  class WorkConsolidator {
    const em: EntityManager

    constructor(em: EntityManager)
      ensures this.em == em
    {
      this.em := em;
    }

    /** The stream builder of `saveWork`: the tree's time, then each unit's time followed by its objects' times. */
    static method CollectTimes(tree: WorkTree) returns (times: seq<Instant>)
      ensures times == TreeTimes(tree.modified, tree.units)
    {
      var units := tree.units;
      var xss := seq(|units|, i requires 0 <= i < |units| => UnitTimes(units[i].1));
      times := [tree.modified];
      for i := 0 to |units|
        invariant times == [tree.modified] + Flatten(xss[..i])
      {
        var u := units[i].1;
        var unitTimes := [u.modified];
        for j := 0 to |u.objects|
          invariant unitTimes == [u.modified] + seq(j, k requires 0 <= k < j => u.objects[k].1.modified)
        {
          unitTimes := unitTimes + [u.objects[j].1.modified];
        }
        assert unitTimes == xss[i];
        assert xss[..i + 1] == xss[..i] + [xss[i]];
        FlattenSnoc(xss[..i], xss[i]);
        times := times + unitTimes;
      }
      assert xss[..|units|] == xss;
    }

    /**
     * `saveWork`: the work is stored under the tree's persistent id with
     * the corepo work id, the latest time of the tree and the content. A
     * tree without units has no persistent id, and nothing is stored.
     */
    method SaveWork(corepoWorkId: string, tree: WorkTree, content: WorkInformation) returns (saved: bool)
      modifies em`works, tree`primary
      ensures tree.primary == MemoAfter(old(tree.primary), tree.units)
      ensures saved <==> |tree.units| > 0
      ensures saved ==> em.works == old(em.works)[PersistentWorkIdOf(tree.primary) :=
        WorkRow(Some(corepoWorkId), Some(MaxInstant(TreeTimes(tree.modified, tree.units))), Some(content))]
      ensures !saved ==> em.works == old(em.works)
    {
      var id := tree.GetPersistentWorkId();
      if id.None? {
        return false;
      }
      var record := WorkObjectEntity.From(em, id.value);
      record.corepoWorkId := Some(corepoWorkId);
      var times := CollectTimes(tree);
      record.modified := Some(MaxInstant(times));
      record.content := Some(content);
      record.Save();
      saved := true;
    }

    /** `deleteWork`: remove a stored work with the corepo work id, if there is one. */
    method DeleteWork(corepoWorkId: string)
      modifies em`works
      ensures (forall k :: !WorkObjectEntity.HasCorepoWorkId(old(em.works), k, corepoWorkId)) ==> em.works == old(em.works)
      ensures (exists k :: WorkObjectEntity.HasCorepoWorkId(old(em.works), k, corepoWorkId)) ==>
        exists k :: WorkObjectEntity.HasCorepoWorkId(old(em.works), k, corepoWorkId) && em.works == old(em.works) - {k}
    {
      var record := WorkObjectEntity.FromCorepoWorkId(em, corepoWorkId);
      if record != null {
        record.Delete();
      }
    }

    /**
     * `buildWorkInformation`, with the owner's manifestation id given: the
     * record `WorkInformationOf` describes, under the tree's persistent id.
     */
    method BuildWorkInformation(tree: WorkTree, ownerId: string) returns (r: Result<WorkInformation, string>)
      modifies tree`primary
      ensures tree.primary == MemoAfter(old(tree.primary), tree.units)
      ensures r == WorkInformationOf(em.cache, if |tree.units| == 0 then None else Some(PersistentWorkIdOf(tree.primary)), tree.units, ownerId)
    {
      var workId := tree.GetPersistentWorkId();
      var owner := CacheContentFor(em.cache, ownerId);
      if owner.Err? {
        return Err(owner.error);
      }
      var units := tree.units;
      var db: map<string, set<ManifestationInformation>> := map[];
      for i := 0 to |units|
        invariant UnitInformation(em.cache, units[..i]) == Ok(db)
      {
        assert units[..i + 1][..i] == units[..i];
        var manifestations := UnitContents(em.cache, units[i].1);
        if manifestations.Err? {
          assert UnitInformation(em.cache, units[..i + 1]).Err?;
          UnitInformationFails(em.cache, units, i + 1);
          return Err(manifestations.error);
        }
        db := db[units[i].0 := manifestations.value];
      }
      assert units[..|units|] == units;
      r := Ok(WorkInformation(workId, owner.value.title, owner.value.fullTitle, owner.value.creators, owner.value.description,
                              Some(SubjectsOf(db)), Some(db)));
    }
  }

  /** Once a prefix of the units fails, the whole map fails with the same error. */
  lemma {:induction false} UnitInformationFails(cache: map<string, CacheRow>, units: seq<(string, UnitTree)>, n: nat)
    requires n <= |units| && UnitInformation(cache, units[..n]).Err?
    ensures UnitInformation(cache, units) == UnitInformation(cache, units[..n])
    decreases |units| - n
  {
    if n < |units| {
      assert units[..n + 1][..n] == units[..n];
      UnitInformationFails(cache, units, n + 1);
    } else {
      assert units[..n] == units;
    }
  }
}
