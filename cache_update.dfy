/**
 * Keeping the manifestation cache up to date. All three updaters follow one
 * rule: a deleted builder removes its entry; an entry that is missing, or
 * older than the builder, is rebuilt and stored with the builder's
 * modified time; a newer or equally new entry is left alone.
 */
module CacheUpdate {
  import opened Wrappers
  import opened Instants
  import opened PresentationPojo
  import opened CacheBuilders
  import opened JpaEntities
  import opened WorkTrees

  /** An entry must be rebuilt: it has no modified time, or one strictly before the builder's. */
  predicate Stale(row: CacheRow, modified: Instant)
  {
    row.modified.None? || Before(row.modified.value, modified)
  }

  /** The row a rebuild stores. */
  function RowOf(modified: Instant, content: ManifestationInformation): CacheRow
  {
    CacheRow(Some(modified), Some(content))
  }

  /**
   * The update rule, through `from`, the setters and `save`/`delete`: the
   * cache after one builder with the given id, deleted flag, modified time
   * and content.
   */
  function UpdatedEntry(cache: map<string, CacheRow>, id: string, deleted: bool, modified: Instant, content: ManifestationInformation): map<string, CacheRow>
  {
    var found := Found(cache, id, BlankCacheRow);
    if deleted then Deleted(cache, id, found.0)
    else if Stale(found.1, modified) then Saved(cache, id, RowOf(modified, content))
    else cache
  }

  /** The same rule with `save` as written, through `refresh` for an entry that was found. */
  function UpdatedEntryAsWritten(cache: map<string, CacheRow>, id: string, deleted: bool, modified: Instant, content: ManifestationInformation): map<string, CacheRow>
  {
    var found := Found(cache, id, BlankCacheRow);
    if deleted then Deleted(cache, id, found.0)
    else if Stale(found.1, modified) then SavedAsWritten(cache, id, found.0, RowOf(modified, content))
    else cache
  }

  /** A deleted builder leaves no entry under its id. */
  lemma UpdatedEntryDeleted(cache: map<string, CacheRow>, id: string, modified: Instant, content: ManifestationInformation)
    ensures UpdatedEntry(cache, id, true, modified, content) == cache - {id}
  {
  }

  /**
   * After a non-deleted builder its entry exists and is at least as new as
   * the builder; a missing or older entry now holds exactly the builder's
   * time and content, and any other entry is left as it was.
   */
  lemma UpdatedEntryFresh(cache: map<string, CacheRow>, id: string, modified: Instant, content: ManifestationInformation)
    ensures var r := UpdatedEntry(cache, id, false, modified, content);
      && id in r && !Stale(r[id], modified)
      && (id !in cache || Stale(cache[id], modified) ==> r[id] == RowOf(modified, content))
      && (id in cache && !Stale(cache[id], modified) ==> r == cache)
  {
    BeforeTotal(modified, modified, modified);
  }

  /** No entry but the builder's is read or written. */
  lemma UpdatedEntryOnlyItsId(cache: map<string, CacheRow>, id: string, deleted: bool, modified: Instant, content: ManifestationInformation, other: string)
    requires other != id
    ensures other in UpdatedEntry(cache, id, deleted, modified, content) <==> other in cache
    ensures other in cache ==> UpdatedEntry(cache, id, deleted, modified, content)[other] == cache[other]
  {
  }

  /** Repeating an update changes nothing. */
  lemma UpdatedEntryIdempotent(cache: map<string, CacheRow>, id: string, deleted: bool, modified: Instant, content: ManifestationInformation)
    ensures var once := UpdatedEntry(cache, id, deleted, modified, content);
      UpdatedEntry(once, id, deleted, modified, content) == once
  {
    if !deleted {
      UpdatedEntryFresh(cache, id, modified, content);
    }
  }

  /**
   * With `save` as written, an entry older than the builder is found,
   * given the new time and content, and then refreshed from the table:
   * it stays as old as it was, and stays stale.
   */
  lemma StaleEntryKeptAsWritten()
    ensures var cache := map["1:1" := RowOf(Instant(1, 0), EmptyManifestation)];
      var r := UpdatedEntryAsWritten(cache, "1:1", false, Instant(2, 0), EmptyManifestation);
      && r["1:1"] == RowOf(Instant(1, 0), EmptyManifestation)
      && Stale(r["1:1"], Instant(2, 0))
      && !Stale(UpdatedEntry(cache, "1:1", false, Instant(2, 0), EmptyManifestation)["1:1"], Instant(2, 0))
  {
    var cache := map["1:1" := RowOf(Instant(1, 0), EmptyManifestation)];
    assert Found(cache, "1:1", BlankCacheRow) == (false, cache["1:1"]);
  }

  /** Every entry has its modified time: the column is declared not null. */
  predicate ModifiedSet(cache: map<string, CacheRow>)
  {
    forall k :: k in cache ==> cache[k].modified.Some?
  }

  // ---------------------------------------------------------------------
  // CacheInterface
  // ---------------------------------------------------------------------

  /** The cache updater driven by `CacheDataBuilder`s. */
  class CacheInterface {
    const em: EntityManager

    constructor(em: EntityManager)
      ensures this.em == em
    {
      this.em := em;
    }

    /** `updateCache`: the update rule for one builder, with the builder's own generated content. */
    method UpdateCache(b: CacheDataBuilder)
      modifies em`cache
      ensures em.cache == UpdatedEntry(old(em.cache), b.manifestationId, b.deleted, b.modified, GenerateDataContent(b))
    {
      var cacheObj := CacheEntity.From(em, b.manifestationId);
      if b.deleted {
        cacheObj.Delete();
      } else if cacheObj.modified.None? || Before(cacheObj.modified.value, b.modified) {
        cacheObj.modified := Some(b.modified);
        cacheObj.content := Some(GenerateDataContent(b));
        cacheObj.Save();
      }
    }
  }

  // ---------------------------------------------------------------------
  // AsyncCacheContentBuilder
  // ---------------------------------------------------------------------

  /** The cache reader that builds and stores an entry when it must. */
  class AsyncCacheContentBuilder {
    const em: EntityManager

    constructor(em: EntityManager)
      ensures this.em == em
    {
      this.em := em;
    }

    /**
     * `getFromCache`: with `delete` set, a deleted builder removes its
     * entry and gives null. Otherwise the update rule applies with the
     * content `cacheBuild` makes, and the result is the content the entry
     * now holds.
     */
    method GetFromCache(b: CacheContentBuilder, delete: bool, cacheBuild: CacheContentBuilder -> ManifestationInformation)
      returns (r: Option<ManifestationInformation>)
      requires ModifiedSet(em.cache)
      modifies em`cache
      ensures delete && b.deleted ==> r.None? && em.cache == old(em.cache) - {b.manifestationId}
      ensures !(delete && b.deleted) ==>
        && em.cache == UpdatedEntry(old(em.cache), b.manifestationId, false, b.modified, cacheBuild(b))
        && b.manifestationId in em.cache && r == em.cache[b.manifestationId].content
    {
      var id := b.manifestationId;
      var detached := if id in em.cache then Some(em.cache[id]) else None;
      if delete && b.deleted {
        if detached.Some? {
          var cacheObj := CacheEntity.From(em, id);
          cacheObj.Delete();
        }
        return None;
      }
      if detached.None? || Before(detached.value.modified.value, b.modified) {
        var content := cacheBuild(b);
        var cacheObj := CacheEntity.From(em, id);
        cacheObj.content := Some(content);
        cacheObj.modified := Some(b.modified);
        cacheObj.Save();
        return Some(content);
      }
      r := detached.value.content;
    }
  }

  // ---------------------------------------------------------------------
  // ParallelCacheContentBuilder
  // ---------------------------------------------------------------------

  /** The message a failed build is rethrown with. */
  function BuildFailure(message: string): string
  {
    "Error building manifestation: " + message
  }

  /** The builders `updateCache` starts a job for: not deleted, and their entry must be rebuilt. */
  function Pending(cache: map<string, CacheRow>, bs: seq<CacheContentBuilder>): seq<CacheContentBuilder>
    decreases |bs|
  {
    if |bs| == 0 then []
    else
      var b := bs[|bs| - 1];
      Pending(cache, bs[..|bs| - 1])
        + (if !b.deleted && Stale(Found(cache, b.manifestationId, BlankCacheRow).1, b.modified) then [b] else [])
  }

  lemma {:induction false} PendingMember(cache: map<string, CacheRow>, bs: seq<CacheContentBuilder>, b: CacheContentBuilder)
    ensures b in Pending(cache, bs) <==> b in bs && !b.deleted && Stale(Found(cache, b.manifestationId, BlankCacheRow).1, b.modified)
    decreases |bs|
  {
    if |bs| > 0 {
      PendingMember(cache, bs[..|bs| - 1], b);
      assert bs == bs[..|bs| - 1] + [bs[|bs| - 1]];
    }
  }

  /**
   * Running the jobs and saving their results in order: the first failing
   * build stops the run with its message; every job before it has stored
   * its builder's time and content.
   */
  function Rebuilt(cache: map<string, CacheRow>, pending: seq<CacheContentBuilder>,
                   build: CacheContentBuilder -> Result<ManifestationInformation, string>): (map<string, CacheRow>, Option<string>)
    decreases |pending|
  {
    if |pending| == 0 then (cache, None)
    else
      var b := pending[0];
      match build(b)
      case Err(e) => (cache, Some(BuildFailure(e)))
      case Ok(content) => Rebuilt(cache[b.manifestationId := RowOf(b.modified, content)], pending[1..], build)
  }

  /** The run fails exactly when some build fails, with that build's message; entries of ids no job has are untouched. */
  lemma {:induction false} RebuiltOutcome(cache: map<string, CacheRow>, pending: seq<CacheContentBuilder>,
                                          build: CacheContentBuilder -> Result<ManifestationInformation, string>)
    ensures Rebuilt(cache, pending, build).1.None? <==> forall b :: b in pending ==> build(b).Ok?
    ensures Rebuilt(cache, pending, build).1.Some? ==>
      exists b :: b in pending && build(b).Err? && Rebuilt(cache, pending, build).1.value == BuildFailure(build(b).error)
    ensures forall k :: k !in IdsOf(pending) ==>
      (k in Rebuilt(cache, pending, build).0 <==> k in cache)
      && (k in cache ==> Rebuilt(cache, pending, build).0[k] == cache[k])
    ensures Rebuilt(cache, pending, build).1.None? ==> cache.Keys + IdsOf(pending) == Rebuilt(cache, pending, build).0.Keys
    decreases |pending|
  {
    if |pending| > 0 {
      var b := pending[0];
      assert pending == [b] + pending[1..];
      if build(b).Ok? {
        var next := cache[b.manifestationId := RowOf(b.modified, build(b).value)];
        RebuiltOutcome(next, pending[1..], build);
        assert IdsOf(pending) == {b.manifestationId} + IdsOf(pending[1..]);
      }
    }
  }

  /** No two different builders share an id. */
  predicate UniqueIds(bs: seq<CacheContentBuilder>)
  {
    forall b1, b2 :: b1 in bs && b2 in bs && b1.manifestationId == b2.manifestationId ==> b1 == b2
  }

  /** When every build succeeds, each job's entry holds its builder's time and content. */
  lemma {:induction false} RebuiltRows(cache: map<string, CacheRow>, pending: seq<CacheContentBuilder>,
                                       build: CacheContentBuilder -> Result<ManifestationInformation, string>)
    requires UniqueIds(pending)
    requires forall b :: b in pending ==> build(b).Ok?
    ensures forall b :: b in pending ==>
      b.manifestationId in Rebuilt(cache, pending, build).0
      && Rebuilt(cache, pending, build).0[b.manifestationId] == RowOf(b.modified, build(b).value)
    decreases |pending|
  {
    if |pending| > 0 {
      var b := pending[0];
      var rest := pending[1..];
      assert pending == [b] + rest;
      var next := cache[b.manifestationId := RowOf(b.modified, build(b).value)];
      RebuiltRows(next, rest, build);
      RebuiltOutcome(next, rest, build);
      if b !in rest {
        assert b.manifestationId !in IdsOf(rest);
      }
    }
  }

  /** The cache entries of all manifestations recorded for a work. */
  function RecordedFor(contains: set<(string, string)>, corepoWorkId: string): set<string>
  {
    set k | k in contains && k.0 == corepoWorkId :: k.1
  }

  /**
   * After `updateCache`: every entry recorded for the work but no longer
   * active is gone; when no build failed and active ids are unique, every
   * active builder's entry is at least as new as the builder.
   */
  lemma UpdateCacheEffect(cache: map<string, CacheRow>, recorded: set<string>, active: seq<CacheContentBuilder>,
                          build: CacheContentBuilder -> Result<ManifestationInformation, string>)
    requires forall b :: b in active ==> !b.deleted
    ensures var afterDelete := cache - (recorded - IdsOf(active));
      var r := Rebuilt(afterDelete, Pending(afterDelete, active), build);
      && (forall m :: m in recorded && m !in IdsOf(active) ==> m !in r.0)
      && (r.1.None? && UniqueIds(active) ==>
            forall b :: b in active ==> b.manifestationId in r.0 && !Stale(r.0[b.manifestationId], b.modified))
  {
    var afterDelete := cache - (recorded - IdsOf(active));
    var pending := Pending(afterDelete, active);
    var r := Rebuilt(afterDelete, pending, build);
    RebuiltOutcome(afterDelete, pending, build);
    forall m | m in IdsOf(pending) ensures m in IdsOf(active) {
      var b :| b in pending && b.manifestationId == m;
      PendingMember(afterDelete, active, b);
    }
    if r.1.None? && UniqueIds(active) {
      assert UniqueIds(pending) by {
        forall b | b in pending ensures b in active { PendingMember(afterDelete, active, b); }
      }
      RebuiltRows(afterDelete, pending, build);
      forall b | b in active ensures b.manifestationId in r.0 && !Stale(r.0[b.manifestationId], b.modified) {
        PendingMember(afterDelete, active, b);
        BeforeTotal(b.modified, b.modified, b.modified);
        if b !in pending && b.manifestationId !in IdsOf(pending) {
          assert b.manifestationId in afterDelete;
        } else if b !in pending {
          var b2 :| b2 in pending && b2.manifestationId == b.manifestationId;
          PendingMember(afterDelete, active, b2);
        }
      }
    }
  }

  /** The cache updater that rebuilds a whole work's entries, one job per stale builder. */
  class ParallelCacheContentBuilder {
    const em: EntityManager

    constructor(em: EntityManager)
      ensures this.em == em
    {
      this.em := em;
    }

    /** Deletes the entries of the given ids, one found entity at a time. */
    method DeleteEntries(ids: set<string>)
      modifies em`cache
      ensures em.cache == old(em.cache) - ids
    {
      var todo := ids;
      while todo != {}
        invariant todo <= ids
        invariant em.cache == old(em.cache) - (ids - todo)
        decreases |todo|
      {
        var m :| m in todo;
        var cacheObj := CacheEntity.From(em, m);
        cacheObj.Delete();
        assert ids - (todo - {m}) == (ids - todo) + {m};
        todo := todo - {m};
      }
    }

    /** `deleteCacheForCorepoWorkId`: drop the entry of every manifestation recorded for the work. */
    method DeleteCacheForCorepoWorkId(corepoWorkId: string)
      modifies em`cache
      ensures em.cache == old(em.cache) - RecordedFor(em.contains, corepoWorkId)
    {
      DeleteEntries(WorkContainsEntity.ListFrom(em, corepoWorkId));
    }

    /**
     * `updateCache`: delete the entries recorded for the work whose ids no
     * active builder has, start a job for each builder whose entry is
     * stale, then save the jobs' results in order; a failed job is
     * rethrown with its message.
     */
    method UpdateCache(tree: WorkTree, build: CacheContentBuilder -> Result<ManifestationInformation, string>)
      returns (error: Option<string>)
      modifies em`cache
      ensures var active := Active(TreeBuilders(tree.units));
        var afterDelete := old(em.cache) - (RecordedFor(em.contains, tree.work) - IdsOf(active));
        (em.cache, error) == Rebuilt(afterDelete, Pending(afterDelete, active), build)
    {
      var active := Active(TreeBuilders(tree.units));
      var recorded := WorkContainsEntity.ListFrom(em, tree.work);
      DeleteEntries(recorded - IdsOf(active));
      var jobs, pending := StartJobs(active);
      error := RunJobs(jobs, pending, build);
    }

    /** The entities and builders of the entries that must be rebuilt, in the builders' order. */
    method StartJobs(active: seq<CacheContentBuilder>) returns (jobs: seq<CacheEntity>, pending: seq<CacheContentBuilder>)
      ensures pending == Pending(em.cache, active) && |jobs| == |pending|
      ensures forall k :: 0 <= k < |jobs| ==> fresh(jobs[k]) && jobs[k].em == em && jobs[k].manifestationId == pending[k].manifestationId
    {
      jobs, pending := [], [];
      var i := 0;
      while i < |active|
        invariant 0 <= i <= |active|
        invariant pending == Pending(em.cache, active[..i]) && |jobs| == |pending|
        invariant forall k :: 0 <= k < |jobs| ==> fresh(jobs[k]) && jobs[k].em == em && jobs[k].manifestationId == pending[k].manifestationId
      {
        assert active[..i + 1][..i] == active[..i];
        var b := active[i];
        if !b.deleted {
          var cacheObj := CacheEntity.From(em, b.manifestationId);
          if cacheObj.modified.None? || Before(cacheObj.modified.value, b.modified) {
            jobs := jobs + [cacheObj];
            pending := pending + [b];
          }
        }
        i := i + 1;
      }
      assert active[..i] == active;
    }

    /** Each job's content built and saved in order, stopping at the first failure. */
    method RunJobs(jobs: seq<CacheEntity>, pending: seq<CacheContentBuilder>, build: CacheContentBuilder -> Result<ManifestationInformation, string>)
      returns (error: Option<string>)
      requires |jobs| == |pending|
      requires forall k :: 0 <= k < |jobs| ==> jobs[k].em == em && jobs[k].manifestationId == pending[k].manifestationId
      modifies em`cache, set k | 0 <= k < |jobs| :: jobs[k]
      ensures (em.cache, error) == Rebuilt(old(em.cache), pending, build)
    {
      var j := 0;
      while j < |pending|
        invariant 0 <= j <= |pending|
        invariant Rebuilt(em.cache, pending[j..], build) == Rebuilt(old(em.cache), pending, build)
      {
        var b := pending[j];
        var outcome := build(b);
        assert pending[j..] == [b] + pending[j + 1..];
        if outcome.Err? {
          return Some(BuildFailure(outcome.error));
        }
        jobs[j].content := Some(outcome.value);
        jobs[j].modified := Some(b.modified);
        jobs[j].Save();
        j := j + 1;
      }
      error := None;
    }

    /** `updateWorkContains`: the work's recorded manifestations become exactly the active builders' ids. */
    method UpdateWorkContains(tree: WorkTree)
      modifies em`contains
      ensures em.contains == UpdatedContains(old(em.contains), tree.work, IdsOf(Active(TreeBuilders(tree.units))))
    {
      var works := EntitiesFor(tree.work, IdsOf(Active(TreeBuilders(tree.units))));
      WorkContainsEntity.UpdateToList(em, tree.work, works);
    }

    /** One entity per id, each found or new as `from` gives it. */
    method EntitiesFor(corepoWorkId: string, ids: set<string>) returns (works: seq<WorkContainsEntity>)
      ensures Ids(works) == ids
      ensures forall i :: 0 <= i < |works| ==> fresh(works[i]) && works[i].em == em && works[i].corepoWorkId == corepoWorkId
      ensures forall i :: 0 <= i < |works| ==> (works[i].persist <==> works[i].Key() !in em.contains)
      ensures forall i, j :: 0 <= i < j < |works| ==> works[i].manifestationId != works[j].manifestationId
    {
      var list := ListOf(ids);
      works := [];
      for i := 0 to |list|
        invariant |works| == i
        invariant forall k :: 0 <= k < i ==> works[k].manifestationId == list[k]
        invariant forall k :: 0 <= k < i ==> fresh(works[k]) && works[k].em == em && works[k].corepoWorkId == corepoWorkId
        invariant forall k :: 0 <= k < i ==> (works[k].persist <==> works[k].Key() !in em.contains)
      {
        var w := WorkContainsEntity.From(em, corepoWorkId, list[i]);
        works := works + [w];
      }
      forall m | m in ids ensures m in Ids(works) {
        var k :| 0 <= k < |list| && list[k] == m;
        assert works[k].manifestationId == m;
      }
    }
  }

  /** The elements of a set, each once, in some order. */
  method ListOf(ids: set<string>) returns (list: seq<string>)
    ensures forall m :: m in list <==> m in ids
    ensures forall i, j :: 0 <= i < j < |list| ==> list[i] != list[j]
  {
    list := [];
    var todo := ids;
    while todo != {}
      invariant todo <= ids
      invariant forall m :: m in list <==> m in ids - todo
      invariant forall i, j :: 0 <= i < j < |list| ==> list[i] != list[j]
      decreases |todo|
    {
      var m :| m in todo;
      assert m !in list;
      ghost var before := list;
      list := list + [m];
      forall i, j | 0 <= i < j < |list| ensures list[i] != list[j] {
        assert list[i] == before[i];
        if j < |before| {
          assert list[j] == before[j];
        }
      }
      todo := todo - {m};
    }
  }}
