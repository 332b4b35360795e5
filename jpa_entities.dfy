/**
 * The database entities: a cached manifestation, a row tying a manifestation
 * to its corepo work, and a stored work. Each carries a `persist` flag that
 * says whether `save` must insert it (it is new) or update it (it was
 * found), and `delete` removes only what was found.
 */
module JpaEntities {
  import opened Wrappers
  import opened Instants
  import opened TypedValues
  import opened PresentationPojo

  /** A work record as it is stored. */
  datatype WorkInformation = WorkInformation(
    workId: Option<string>,
    title: Option<string>,
    fullTitle: Option<string>,
    creators: Option<seq<TypedValue>>,
    description: Option<string>,
    subjects: Option<set<TypedValue>>,
    dbUnitInformation: Option<map<string, set<ManifestationInformation>>>)

  /** The columns of a cache row. */
  datatype CacheRow = CacheRow(modified: Option<Instant>, content: Option<ManifestationInformation>)

  /** The columns of a work row. */
  datatype WorkRow = WorkRow(corepoWorkId: Option<string>, modified: Option<Instant>, content: Option<WorkInformation>)

  const BlankCacheRow := CacheRow(None, None)
  const BlankWorkRow := WorkRow(None, None, None)

  // ---------------------------------------------------------------------
  // What find, save and delete do to a table
  // ---------------------------------------------------------------------

  /** What `from` yields: a found row, not new; or, when there is none, a new entity with blank columns. */
  function Found<K, R>(table: map<K, R>, key: K, blank: R): (r: (bool, R))
  {
    if key in table then (false, table[key]) else (true, blank)
  }

  /** `save` through `persist` or `merge`: the entity's columns are stored under its key. */
  function Saved<K, R>(table: map<K, R>, key: K, row: R): map<K, R>
  {
    table[key := row]
  }

  /** `save` through `persist` or `refresh`: a new entity is inserted; a found one is reloaded, and the table keeps its row. */
  function SavedAsWritten<K, R>(table: map<K, R>, key: K, persist: bool, row: R): map<K, R>
  {
    if persist then table[key := row] else table
  }

  /** `delete`: a found entity's row is removed; a new one was never stored. */
  function Deleted<K, R>(table: map<K, R>, key: K, persist: bool): map<K, R>
  {
    if persist then table else table - {key}
  }

  /**
   * The flag cycle: an absent key gives a new entity; once saved, `from`
   * finds it with the saved columns; once that is deleted, `from` gives a
   * new entity again and the table is as it was.
   */
  lemma FlagCycle<K, R>(table: map<K, R>, key: K, blank: R, row: R)
    requires key !in table
    ensures Found(table, key, blank) == (true, blank)
    ensures Found(Saved(table, key, row), key, blank) == (false, row)
    ensures var stored := Saved(table, key, row);
      Found(Deleted(stored, key, Found(stored, key, blank).0), key, blank) == (true, blank)
      && Deleted(stored, key, Found(stored, key, blank).0) == table
  {
    assert Saved(table, key, row) - {key} == table;
  }

  /** Saving or deleting one entity leaves every other key's row as it was. */
  lemma OnlyOwnKey<K, R>(table: map<K, R>, key: K, other: K, persist: bool, row: R)
    requires other != key
    ensures other in Saved(table, key, row) <==> other in table
    ensures other in Deleted(table, key, persist) <==> other in table
    ensures other in table ==> Saved(table, key, row)[other] == table[other] && Deleted(table, key, persist)[other] == table[other]
  {
  }

  /**
   * `save` of a found entity through `refresh` stores nothing: whatever
   * columns were set on it, the table keeps its old row.
   */
  lemma RefreshKeepsStoredRow<K, R>(table: map<K, R>, key: K, blank: R, row: R)
    requires key in table && row != table[key]
    ensures Found(table, key, blank).0 == false
    ensures SavedAsWritten(table, key, Found(table, key, blank).0, row)[key] != row
    ensures Found(Saved(table, key, row), key, blank) == (false, row)
  {
  }

  // ---------------------------------------------------------------------
  // The entity manager
  // ---------------------------------------------------------------------

  /** The three tables as the entity manager sees them. */
  class EntityManager {
    var cache: map<string, CacheRow>
    /** The rows of `workContains`, keyed by (corepo work id, manifestation id). */
    var contains: set<(string, string)>
    var works: map<string, WorkRow>

    constructor()
      ensures cache == map[] && contains == {} && works == map[]
    {
      cache := map[];
      contains := {};
      works := map[];
    }
  }

  // ---------------------------------------------------------------------
  // CacheEntity
  // ---------------------------------------------------------------------

  /** A cached manifestation. */
  class CacheEntity {
    const em: EntityManager
    const manifestationId: string
    var modified: Option<Instant>
    var content: Option<ManifestationInformation>
    var persist: bool

    function Row(): CacheRow
      reads this
    {
      CacheRow(modified, content)
    }

    constructor Make(em: EntityManager, manifestationId: string, found: (bool, CacheRow))
      ensures this.em == em && this.manifestationId == manifestationId
      ensures (persist, Row()) == found
    {
      this.em := em;
      this.manifestationId := manifestationId;
      modified := found.1.modified;
      content := found.1.content;
      persist := found.0;
    }

    /** `from`: the stored row, or a new entity with no content. */
    static method From(em: EntityManager, manifestationId: string) returns (e: CacheEntity)
      ensures fresh(e) && e.em == em && e.manifestationId == manifestationId
      ensures (e.persist, e.Row()) == Found(em.cache, manifestationId, BlankCacheRow)
    {
      e := new CacheEntity.Make(em, manifestationId, Found(em.cache, manifestationId, BlankCacheRow));
    }

    /** `save` as written: insert a new entity; reload a found one from its row. */
    method SaveAsWritten()
      modifies this, em`cache
      ensures !persist
      ensures em.cache == SavedAsWritten(old(em.cache), manifestationId, old(persist), old(Row()))
      ensures Row() == (if !old(persist) && manifestationId in old(em.cache) then old(em.cache)[manifestationId] else old(Row()))
    {
      if persist {
        em.cache := em.cache[manifestationId := Row()];
      } else if manifestationId in em.cache {
        modified := em.cache[manifestationId].modified;
        content := em.cache[manifestationId].content;
      }
      persist := false;
    }

    /** `save` storing the entity's columns, as `WorkObjectEntity.save` does with `merge`. */
    method Save()
      modifies this`persist, em`cache
      ensures !persist
      ensures em.cache == Saved(old(em.cache), manifestationId, Row())
    {
      em.cache := em.cache[manifestationId := Row()];
      persist := false;
    }

    /** `delete`: remove a found entity's row; a new entity stays unstored. */
    method Delete()
      modifies this`persist, em`cache
      ensures persist
      ensures em.cache == Deleted(old(em.cache), manifestationId, old(persist))
    {
      if !persist {
        em.cache := em.cache - {manifestationId};
      }
      persist := true;
    }
  }

  // ---------------------------------------------------------------------
  // WorkContainsEntity
  // ---------------------------------------------------------------------

  /** The rows `updateToList` leaves for a work: the other works' rows, and exactly the listed manifestations for this one. */
  function UpdatedContains(table: set<(string, string)>, corepoWorkId: string, listed: set<string>): set<(string, string)>
  {
    (set k | k in table && k.0 != corepoWorkId) + (set m | m in listed :: (corepoWorkId, m))
  }

  /** After `updateToList` the work holds exactly the listed manifestations, and no other work's rows change. */
  lemma UpdatedContainsExact(table: set<(string, string)>, corepoWorkId: string, listed: set<string>, k: (string, string))
    ensures k.0 == corepoWorkId ==> (k in UpdatedContains(table, corepoWorkId, listed) <==> k.1 in listed)
    ensures k.0 != corepoWorkId ==> (k in UpdatedContains(table, corepoWorkId, listed) <==> k in table)
  {
    if k.0 == corepoWorkId && k.1 in listed {
      assert k == (corepoWorkId, k.1);
    }
  }

  /** A row saying a manifestation belongs to a corepo work. */
  class WorkContainsEntity {
    const em: EntityManager
    const corepoWorkId: string
    const manifestationId: string
    var persist: bool

    function Key(): (string, string)
    {
      (corepoWorkId, manifestationId)
    }

    constructor Make(em: EntityManager, corepoWorkId: string, manifestationId: string, persist: bool)
      ensures this.em == em && this.corepoWorkId == corepoWorkId && this.manifestationId == manifestationId
      ensures this.persist == persist
    {
      this.em := em;
      this.corepoWorkId := corepoWorkId;
      this.manifestationId := manifestationId;
      this.persist := persist;
    }

    /** `from`: the stored row, or a new entity when there is none. */
    static method From(em: EntityManager, corepoWorkId: string, manifestationId: string) returns (e: WorkContainsEntity)
      ensures fresh(e) && e.em == em && e.corepoWorkId == corepoWorkId && e.manifestationId == manifestationId
      ensures e.persist <==> (corepoWorkId, manifestationId) !in em.contains
    {
      e := new WorkContainsEntity.Make(em, corepoWorkId, manifestationId, (corepoWorkId, manifestationId) !in em.contains);
    }

    /** `listFrom`: the manifestations stored for a work. */
    static function ListFrom(em: EntityManager, corepoWorkId: string): (ids: set<string>)
      reads em
      ensures forall m :: m in ids <==> (corepoWorkId, m) in em.contains
    {
      set k | k in em.contains && k.0 == corepoWorkId :: k.1
    }

    /** `save`: insert a new row; a found one is reloaded and stays as it is. */
    method Save()
      modifies this`persist, em`contains
      ensures !persist
      ensures em.contains == if old(persist) then old(em.contains) + {Key()} else old(em.contains)
    {
      if persist {
        em.contains := em.contains + {Key()};
      }
      persist := false;
    }

    /** `delete`: remove a found row; a new entity stays unstored. */
    method Delete()
      modifies this`persist, em`contains
      ensures persist
      ensures em.contains == if old(persist) then old(em.contains) else old(em.contains) - {Key()}
    {
      if !persist {
        em.contains := em.contains - {Key()};
      }
      persist := true;
    }

    /**
     * `updateToList`: save every listed entity, then delete every row the
     * work had that was not listed.
     */
    static method UpdateToList(em: EntityManager, corepoWorkId: string, works: seq<WorkContainsEntity>)
      requires forall i :: 0 <= i < |works| ==> works[i].em == em && works[i].corepoWorkId == corepoWorkId
      requires forall i :: 0 <= i < |works| ==> (works[i].persist <==> works[i].Key() !in em.contains)
      requires forall i, j :: 0 <= i < j < |works| ==> works[i].manifestationId != works[j].manifestationId
      modifies em`contains, set i | 0 <= i < |works| :: works[i]
      ensures em.contains == UpdatedContains(old(em.contains), corepoWorkId, Ids(works))
    {
      var existing := ListFrom(em, corepoWorkId) - Ids(works);
      SaveAll(em, corepoWorkId, works);
      DeleteAll(em, corepoWorkId, existing);
      UpdatedByPhases(old(em.contains), corepoWorkId, Ids(works));
    }

    /** The first phase of `updateToList`: every listed entity saved. */
    static method SaveAll(em: EntityManager, corepoWorkId: string, works: seq<WorkContainsEntity>)
      requires forall i :: 0 <= i < |works| ==> works[i].em == em && works[i].corepoWorkId == corepoWorkId
      requires forall i :: 0 <= i < |works| ==> (works[i].persist <==> works[i].Key() !in em.contains)
      requires forall i, j :: 0 <= i < j < |works| ==> works[i].manifestationId != works[j].manifestationId
      modifies em`contains, set i | 0 <= i < |works| :: works[i]
      ensures em.contains == old(em.contains) + Pairs(corepoWorkId, Ids(works))
    {
      var i := 0;
      while i < |works|
        invariant 0 <= i <= |works|
        invariant em.contains == old(em.contains) + Pairs(corepoWorkId, Ids(works[..i]))
        invariant forall j :: i <= j < |works| ==> (works[j].persist <==> works[j].Key() !in old(em.contains))
      {
        IdsStep(works, i);
        works[i].Save();
        i := i + 1;
      }
      assert works[..i] == works;
    }

    /** The second phase of `updateToList`: the unlisted stored rows deleted, one found entity at a time. */
    static method DeleteAll(em: EntityManager, corepoWorkId: string, stale: set<string>)
      modifies em`contains
      ensures em.contains == old(em.contains) - Pairs(corepoWorkId, stale)
    {
      var todo := stale;
      while todo != {}
        invariant todo <= stale
        invariant em.contains == old(em.contains) - Pairs(corepoWorkId, stale - todo)
        decreases |todo|
      {
        var m :| m in todo;
        var found := new WorkContainsEntity.Make(em, corepoWorkId, m, false);
        found.Delete();
        PairsStep(corepoWorkId, stale - todo, m);
        assert stale - (todo - {m}) == (stale - todo) + {m};
        todo := todo - {m};
      }
    }
  }

  /** The manifestation ids of a list of entities. */
  function Ids(works: seq<WorkContainsEntity>): set<string>
  {
    set i | 0 <= i < |works| :: works[i].manifestationId
  }

  /** The keys of a work's rows for the given manifestations. */
  function Pairs(corepoWorkId: string, ms: set<string>): set<(string, string)>
  {
    set m | m in ms :: (corepoWorkId, m)
  }

  lemma IdsStep(works: seq<WorkContainsEntity>, i: nat)
    requires i < |works|
    ensures Ids(works[..i + 1]) == Ids(works[..i]) + {works[i].manifestationId}
  {
    var a, b := works[..i + 1], works[..i];
    forall m | m in Ids(a) ensures m in Ids(b) + {works[i].manifestationId} {
      var k :| 0 <= k < |a| && a[k].manifestationId == m;
      if k < i { assert b[k] == a[k]; }
    }
    forall m | m in Ids(b) ensures m in Ids(a) {
      var k :| 0 <= k < |b| && b[k].manifestationId == m;
      assert a[k] == b[k];
    }
    assert a[i] == works[i];
  }

  lemma PairsStep(corepoWorkId: string, ms: set<string>, m: string)
    ensures Pairs(corepoWorkId, ms + {m}) == Pairs(corepoWorkId, ms) + {(corepoWorkId, m)}
  {
  }

  /**
   * Saving the listed rows and then deleting the stored rows that were not
   * listed leaves the table `UpdatedContains` describes.
   */
  lemma UpdatedByPhases(table: set<(string, string)>, corepoWorkId: string, listed: set<string>)
    ensures (table + Pairs(corepoWorkId, listed))
      - Pairs(corepoWorkId, (set k | k in table && k.0 == corepoWorkId :: k.1) - listed)
      == UpdatedContains(table, corepoWorkId, listed)
  {
    var stored := set k | k in table && k.0 == corepoWorkId :: k.1;
    var lhs := (table + Pairs(corepoWorkId, listed)) - Pairs(corepoWorkId, stored - listed);
    forall k | k in lhs ensures k in UpdatedContains(table, corepoWorkId, listed) {
      UpdatedContainsExact(table, corepoWorkId, listed, k);
      assert k.0 == corepoWorkId ==> k == (corepoWorkId, k.1);
    }
    forall k | k in UpdatedContains(table, corepoWorkId, listed) ensures k in lhs {
      UpdatedContainsExact(table, corepoWorkId, listed, k);
      if k.0 == corepoWorkId {
        assert k == (corepoWorkId, k.1);
      }
    }
  }

  // ---------------------------------------------------------------------
  // WorkObjectEntity
  // ---------------------------------------------------------------------

  /** A stored work, under its persistent work id. */
  class WorkObjectEntity {
    var em: EntityManager?
    const persistentWorkId: string
    var corepoWorkId: Option<string>
    var modified: Option<Instant>
    var content: Option<WorkInformation>
    var persist: bool

    function Row(): WorkRow
      reads this
    {
      WorkRow(corepoWorkId, modified, content)
    }

    /** The full constructor: a new entity with every column given and no entity manager yet. */
    constructor(persistentWorkId: string, corepoWorkId: string, modified: Instant, content: WorkInformation)
      ensures this.persistentWorkId == persistentWorkId && em == null
      ensures Row() == WorkRow(Some(corepoWorkId), Some(modified), Some(content))
      ensures persist
    {
      em := null;
      this.persistentWorkId := persistentWorkId;
      this.corepoWorkId := Some(corepoWorkId);
      this.modified := Some(modified);
      this.content := Some(content);
      persist := true;
    }

    constructor Make(em: EntityManager, persistentWorkId: string, found: (bool, WorkRow))
      ensures this.em == em && this.persistentWorkId == persistentWorkId
      ensures (persist, Row()) == found
    {
      this.em := em;
      this.persistentWorkId := persistentWorkId;
      corepoWorkId := found.1.corepoWorkId;
      modified := found.1.modified;
      content := found.1.content;
      persist := found.0;
    }

    /** `from`: the stored work, or a new entity with no columns set. */
    static method From(em: EntityManager, persistentWorkId: string) returns (e: WorkObjectEntity)
      ensures fresh(e) && e.em == em && e.persistentWorkId == persistentWorkId
      ensures (e.persist, e.Row()) == Found(em.works, persistentWorkId, BlankWorkRow)
    {
      e := new WorkObjectEntity.Make(em, persistentWorkId, Found(em.works, persistentWorkId, BlankWorkRow));
    }

    /** `readOnlyFrom`: a detached copy of the stored work, or null when there is none. */
    static function ReadOnlyFrom(em: EntityManager, persistentWorkId: string): (r: Option<WorkRow>)
      reads em
      ensures r.None? <==> persistentWorkId !in em.works
      ensures r.Some? ==> Found(em.works, persistentWorkId, BlankWorkRow) == (false, r.value)
    {
      if persistentWorkId in em.works then Some(em.works[persistentWorkId]) else None
    }

    /** Some stored work whose corepo work id is the given one. */
    static predicate HasCorepoWorkId(works: map<string, WorkRow>, key: string, corepoWorkId: string)
    {
      key in works && works[key].corepoWorkId == Some(corepoWorkId)
    }

    /** `fromCorepoWorkId`: any one stored work with the corepo work id, or null when there is none. */
    static method FromCorepoWorkId(em: EntityManager, corepoWorkId: string) returns (e: WorkObjectEntity?)
      ensures e == null <==> forall k :: !HasCorepoWorkId(em.works, k, corepoWorkId)
      ensures e != null ==>
        && fresh(e) && e.em == em && !e.persist
        && HasCorepoWorkId(em.works, e.persistentWorkId, corepoWorkId) && e.Row() == em.works[e.persistentWorkId]
    {
      if k :| k in em.works && em.works[k].corepoWorkId == Some(corepoWorkId) {
        assert HasCorepoWorkId(em.works, k, corepoWorkId);
        e := new WorkObjectEntity.Make(em, k, Found(em.works, k, BlankWorkRow));
      } else {
        e := null;
        forall k ensures !HasCorepoWorkId(em.works, k, corepoWorkId) { }
      }
    }

    /** `readOnlyFromCorepoWorkId`: a detached copy of any one stored work with the corepo work id, or null. */
    static method ReadOnlyFromCorepoWorkId(em: EntityManager, corepoWorkId: string) returns (r: Option<(string, WorkRow)>)
      ensures r.None? <==> forall k :: !HasCorepoWorkId(em.works, k, corepoWorkId)
      ensures r.Some? ==> HasCorepoWorkId(em.works, r.value.0, corepoWorkId) && r.value.1 == em.works[r.value.0]
    {
      if k :| k in em.works && em.works[k].corepoWorkId == Some(corepoWorkId) {
        assert HasCorepoWorkId(em.works, k, corepoWorkId);
        r := Some((k, em.works[k]));
      } else {
        r := None;
        forall k ensures !HasCorepoWorkId(em.works, k, corepoWorkId) { }
      }
    }

    /** `save`: `persist` when new, `merge` when found; either way the row holds the entity's columns. */
    method Save()
      requires em != null
      modifies this`persist, em`works
      ensures !persist
      ensures em.works == Saved(old(em.works), persistentWorkId, Row())
    {
      em.works := em.works[persistentWorkId := Row()];
      persist := false;
    }

    /** `delete`: remove and flush a found work; a new one stays unstored. */
    method Delete()
      requires em != null
      modifies this`persist, em`works
      ensures persist
      ensures em.works == Deleted(old(em.works), persistentWorkId, old(persist))
    {
      if !persist {
        em.works := em.works - {persistentWorkId};
      }
      persist := true;
    }
  }
}
