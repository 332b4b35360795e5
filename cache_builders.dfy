/**
 * The builders of cache entries: each names one manifestation of a corepo
 * object by its local data stream, derives the manifestation id from the
 * stream and the object id, and produces the content to cache.
 */
module CacheBuilders {
  import opened Wrappers
  import opened Strings
  import opened Instants
  import opened PresentationPojo

  const LocalData := "localData."

  /** The message of the `IllegalStateException` a stream without the prefix gives. */
  function NotLocalDataMessage(localStream: string): string
  {
    "Trying to build a CacheDataBuilder for stream: " + localStream
  }

  /**
   * The manifestation id: the stream name after "localData.", a colon, and
   * the object id after its first colon (all of it when it has none).
   */
  function ManifestationIdOf(corepoId: string, localStream: string): (id: string)
    requires StartsWith(localStream, LocalData)
    ensures |id| == |localStream| - |LocalData| + 1 + |AfterFirst(corepoId, ':')|
  {
    localStream[|LocalData|..] + ":" + AfterFirst(corepoId, ':')
  }

  /**
   * When the agency part of the stream has no colon, the id splits back
   * into it and the object's local id at its first colon.
   */
  lemma ManifestationIdSplits(corepoId: string, localStream: string)
    requires StartsWith(localStream, LocalData)
    requires forall i :: |LocalData| <= i < |localStream| ==> localStream[i] != ':'
    ensures var id := ManifestationIdOf(corepoId, localStream);
      var agency := localStream[|LocalData|..];
      && IndexOf(id, ':') == |agency|
      && id[..|agency|] == agency
      && id[|agency| + 1..] == AfterFirst(corepoId, ':')
  {
    var id := ManifestationIdOf(corepoId, localStream);
    var agency := localStream[|LocalData|..];
    var rest := AfterFirst(corepoId, ':');
    assert ':' !in agency by {
      forall j | 0 <= j < |agency| ensures agency[j] != ':' {
        assert agency[j] == localStream[|LocalData| + j];
      }
    }
    assert id == agency + [':'] + rest;
    IndexOfAfterPrefix(agency, ':', rest);
    assert id[..|agency|] == agency;
    assert id[|agency| + 1..] == rest;
  }

  /** A character not in a prefix is first found right after it. */
  lemma IndexOfAfterPrefix(a: string, c: char, rest: string)
    requires c !in a
    ensures IndexOf(a + [c] + rest, c) == |a|
  {
    var s := a + [c] + rest;
    assert s[|a|] == c;
    forall j | 0 <= j < |a| ensures s[j] != c {
      assert s[j] == a[j];
    }
    IndexOfFirst(s, c, |a|);
  }

  /** "obj:1" with stream "localData.100000" is manifestation "100000:1". */
  lemma ManifestationIdExample()
    ensures ManifestationIdOf("obj:1", "localData.100000") == "100000:1"
  {
    assert "obj:1"[3] == ':';
    IndexOfFirst("obj:1", ':', 3);
    assert "localData.100000"[|LocalData|..] == "100000";
  }

  // ---------------------------------------------------------------------
  // CacheContentBuilder
  // ---------------------------------------------------------------------

  /** A builder of the cached content of one manifestation, fetched from the content service. */
  datatype CacheContentBuilder = CacheContentBuilder(
    corepoId: string,
    localStream: string,
    modified: Instant,
    deleted: bool,
    manifestationId: string)

  /**
   * `new CacheContentBuilder(...)`: refused with an `IllegalStateException`
   * when the stream is not a local data stream; otherwise the getters give
   * back what was passed and the derived manifestation id.
   */
  function NewCacheContentBuilder(corepoId: string, localStream: string, modified: Instant, deleted: bool): (r: Result<CacheContentBuilder, string>)
    ensures r.Ok? <==> StartsWith(localStream, LocalData)
    ensures r.Err? ==> r.error == NotLocalDataMessage(localStream)
    ensures r.Ok? ==>
      && r.value.corepoId == corepoId && r.value.localStream == localStream
      && r.value.modified == modified && r.value.deleted == deleted
      && r.value.manifestationId == ManifestationIdOf(corepoId, localStream)
  {
    if !StartsWith(localStream, LocalData) then Err(NotLocalDataMessage(localStream))
    else Ok(CacheContentBuilder(corepoId, localStream, modified, deleted, ManifestationIdOf(corepoId, localStream)))
  }

  /**
   * The data streams `generateContent` hands to the JavaScript: the local
   * stream, "commonData" and "DC" of the object, each fetched by
   * `datastreamContent(corepoId, stream)`.
   */
  function DataStreamsOf(b: CacheContentBuilder, datastreamContent: (string, string) -> string): (streams: map<string, string>)
    ensures streams.Keys == {"localData", "commonData", "DC"}
    ensures streams["localData"] == datastreamContent(b.corepoId, b.localStream)
    ensures streams["commonData"] == datastreamContent(b.corepoId, "commonData")
    ensures streams["DC"] == datastreamContent(b.corepoId, "DC")
  {
    map["localData" := datastreamContent(b.corepoId, b.localStream),
        "commonData" := datastreamContent(b.corepoId, "commonData"),
        "DC" := datastreamContent(b.corepoId, "DC")]
  }

  /** `generateContent`: the JavaScript's manifestation record for the id and the three streams. */
  function GenerateContent(b: CacheContentBuilder, datastreamContent: (string, string) -> string,
                           extract: (string, map<string, string>) -> ManifestationInformation): ManifestationInformation
  {
    extract(b.manifestationId, DataStreamsOf(b, datastreamContent))
  }

  // ---------------------------------------------------------------------
  // CacheDataBuilder
  // ---------------------------------------------------------------------

  /** The older builder, which caches only the manifestation id. */
  datatype CacheDataBuilder = CacheDataBuilder(deleted: bool, manifestationId: string, modified: Instant)

  /**
   * `new CacheDataBuilder(...)`, with a `Timestamp` or an `Instant` alike:
   * refused for a stream that is not a local data stream; otherwise the
   * manifestation id is derived as for the content builder.
   */
  function NewCacheDataBuilder(corepoId: string, localStream: string, modified: Instant, deleted: bool): (r: Result<CacheDataBuilder, string>)
    ensures r.Ok? <==> StartsWith(localStream, LocalData)
    ensures r.Err? ==> r.error == NotLocalDataMessage(localStream)
    ensures r.Ok? ==> r.value == CacheDataBuilder(deleted, ManifestationIdOf(corepoId, localStream), modified)
  {
    if !StartsWith(localStream, LocalData) then Err(NotLocalDataMessage(localStream))
    else Ok(CacheDataBuilder(deleted, ManifestationIdOf(corepoId, localStream), modified))
  }

  /** Both builders derive the same manifestation id from the same object and stream. */
  lemma BuildersAgree(corepoId: string, localStream: string, modified: Instant, deleted: bool)
    ensures NewCacheDataBuilder(corepoId, localStream, modified, deleted).Ok?
      <==> NewCacheContentBuilder(corepoId, localStream, modified, deleted).Ok?
    ensures NewCacheDataBuilder(corepoId, localStream, modified, deleted).Ok? ==>
      NewCacheDataBuilder(corepoId, localStream, modified, deleted).value.manifestationId
        == NewCacheContentBuilder(corepoId, localStream, modified, deleted).value.manifestationId
  {
  }

  /** `CacheDataBuilder.generateContent`: a record whose only field set is the manifestation id. */
  function GenerateDataContent(b: CacheDataBuilder): (m: ManifestationInformation)
    ensures m.manifestationId == Some(b.manifestationId)
    ensures m.title.None? && m.fullTitle.None? && m.series.None? && m.creators.None? && m.description.None?
      && m.subjects.None? && m.materialTypes.None? && m.workTypes.None? && m.priorityKeys.None?
  {
    EmptyManifestation.(manifestationId := Some(b.manifestationId))
  }
}
