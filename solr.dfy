/**
 * The search-index side of the presentation service: which relation ids a
 * profile may see, asked in batches of bounded query length; the paging
 * of one request; and the parsing of the index's URL.
 */
module SolrAccess {
  import opened Wrappers
  import opened Strings

  const WorkIdField := "rec.persistentWorkId"
  const ManifestationIdField := "rec.manifestationId"

  /** The terms query over manifestation ids, before the ids. */
  const RelationTermsPrefix := "{!terms f=\"" + ManifestationIdField + "\"}"

  /** The terms query over work ids, before the id. */
  const WorkTermsPrefix := "{!terms f=\"" + WorkIdField + "\"}"

  // ---------------------------------------------------------------------
  // Batching the relation ids
  // ---------------------------------------------------------------------

  /** The batches one after another. */
  function Flatten(batches: seq<seq<string>>): seq<string>
  {
    if batches == [] then [] else batches[0] + Flatten(batches[1..])
  }

  lemma {:induction false} FlattenAppend(batches: seq<seq<string>>, b: seq<string>)
    ensures Flatten(batches + [b]) == Flatten(batches) + b
  {
    if batches != [] {
      assert (batches + [b])[1..] == batches[1..] + [b];
      FlattenAppend(batches[1..], b);
    }
  }

  /** The query for one batch: the terms prefix and the ids joined by commas. */
  function BatchQuery(batch: seq<string>): string
  {
    RelationTermsPrefix + Join(batch, ",")
  }

  lemma {:induction false} JoinAppend(parts: seq<string>, x: string, sep: string)
    requires parts != []
    ensures Join(parts + [x], sep) == Join(parts, sep) + sep + x
  {
    if |parts| == 1 {
      assert (parts + [x])[1..] == [x];
    } else {
      assert (parts + [x])[1..] == parts[1..] + [x];
      JoinAppend(parts[1..], x, sep);
    }
  }

  /**
   * What the batching loop of `getAccessibleRelations` produces: the
   * batches are the ids in iteration order, cut into non-empty runs; a run
   * grew by one more id only while its query was shorter than `max`; and
   * every run but the last stopped because its query had reached `max`.
   */
  predicate GreedyBatching(batches: seq<seq<string>>, ids: seq<string>, max: int)
  {
    && Flatten(batches) == ids
    && (forall i :: 0 <= i < |batches| ==> batches[i] != [])
    && (forall i, k :: 0 <= i < |batches| && 1 <= k < |batches[i]| ==> |BatchQuery(batches[i][..k])| < max)
    && (forall i :: 0 <= i < |batches| - 1 ==> |BatchQuery(batches[i])| >= max)
  }

  /**
   * The inner loop of the batching: a batch starts with the id at `t` and
   * takes further ids while there are more and its query is shorter than
   * `max`. Returns the batch and the position after it.
   */
  method NextBatch(ids: seq<string>, t: nat, max: int) returns (batch: seq<string>, next: nat)
    requires t < |ids|
    ensures t < next <= |ids| && batch == ids[t..next]
    ensures forall k :: 1 <= k < |batch| ==> |BatchQuery(batch[..k])| < max
    ensures next < |ids| ==> |BatchQuery(batch)| >= max
  {
    batch := [ids[t]];
    var query := RelationTermsPrefix + ids[t];
    next := t + 1;
    while next < |ids| && |query| < max
      invariant t < next <= |ids| && batch == ids[t..next]
      invariant query == BatchQuery(batch)
      invariant forall k :: 1 <= k < |batch| ==> |BatchQuery(batch[..k])| < max
    {
      JoinAppend(batch, ids[next], ",");
      query := query + "," + ids[next];
      ghost var shorter := batch;
      batch := batch + [ids[next]];
      assert batch[..|shorter|] == shorter;
      forall k | 1 <= k < |batch| ensures |BatchQuery(batch[..k])| < max {
        if k < |shorter| {
          assert batch[..k] == shorter[..k];
        }
      }
      next := next + 1;
    }
  }

  /**
   * The batching loop of `getAccessibleRelations`: batch after batch until
   * the ids run out.
   */
  method Batches(ids: seq<string>, max: int) returns (batches: seq<seq<string>>)
    ensures GreedyBatching(batches, ids, max)
  {
    batches := [];
    var t := 0;
    while t < |ids|
      invariant 0 <= t <= |ids|
      invariant Flatten(batches) == ids[..t]
      invariant forall i :: 0 <= i < |batches| ==> batches[i] != []
      invariant forall i, k :: 0 <= i < |batches| && 1 <= k < |batches[i]| ==> |BatchQuery(batches[i][..k])| < max
      invariant forall i :: 0 <= i < |batches| - 1 ==> |BatchQuery(batches[i])| >= max
      invariant batches != [] && t < |ids| ==> |BatchQuery(batches[|batches| - 1])| >= max
    {
      var batch, next := NextBatch(ids, t, max);
      FlattenAppend(batches, batch);
      assert ids[..next] == ids[..t] + batch;
      batches := batches + [batch];
      t := next;
    }
    assert ids[..t] == ids;
  }

  /** A greedy batching is empty exactly when there are no ids. */
  lemma EmptyBatching(a: seq<seq<string>>, ids: seq<string>, max: int)
    requires GreedyBatching(a, ids, max)
    ensures a == [] <==> ids == []
  {
    if a != [] {
      assert ids == a[0] + Flatten(a[1..]);
    }
  }

  /** The first batch of a greedy batching is a prefix of the ids, and its proper prefixes of length at least one have short queries. */
  lemma FirstBatchShortPrefixes(b: seq<seq<string>>, ids: seq<string>, max: int, k: nat)
    requires GreedyBatching(b, ids, max) && b != [] && 1 <= k < |b[0]|
    ensures b[0] <= ids && |BatchQuery(ids[..k])| < max
  {
    assert ids == b[0] + Flatten(b[1..]);
    assert b[0][..k] == ids[..k];
  }

  /** A first batch that does not take all ids has a query of at least `max`. */
  lemma FirstBatchLongQuery(a: seq<seq<string>>, ids: seq<string>, max: int)
    requires GreedyBatching(a, ids, max) && a != [] && |a[0]| < |ids|
    ensures a[0] <= ids && |BatchQuery(ids[..|a[0]|])| >= max
  {
    assert ids == a[0] + Flatten(a[1..]);
    assert ids[..|a[0]|] == a[0];
    assert Flatten(a[1..]) != [];
  }

  /** The contract of the batching loop fixes the batches: two greedy batchings of the same ids are the same. */
  lemma {:induction false} GreedyBatchingUnique(a: seq<seq<string>>, b: seq<seq<string>>, ids: seq<string>, max: int)
    requires GreedyBatching(a, ids, max) && GreedyBatching(b, ids, max)
    ensures a == b
    decreases |ids|
  {
    EmptyBatching(a, ids, max);
    EmptyBatching(b, ids, max);
    if a != [] {
      TailBatching(a, ids, max);
      TailBatching(b, ids, max);
      if |a[0]| < |b[0]| {
        FirstBatchShortPrefixes(b, ids, max, |a[0]|);
        FirstBatchLongQuery(a, ids, max);
        assert false;
      }
      if |b[0]| < |a[0]| {
        FirstBatchShortPrefixes(a, ids, max, |b[0]|);
        FirstBatchLongQuery(b, ids, max);
        assert false;
      }
      assert a[0] == b[0];
      GreedyBatchingUnique(a[1..], b[1..], ids[|a[0]|..], max);
      assert a == [a[0]] + a[1..] && b == [b[0]] + b[1..];
    }
  }

  /** Dropping the first batch of a greedy batching leaves a greedy batching of the remaining ids. */
  lemma TailBatching(a: seq<seq<string>>, ids: seq<string>, max: int)
    requires GreedyBatching(a, ids, max) && a != []
    ensures a[0] <= ids && GreedyBatching(a[1..], ids[|a[0]|..], max)
  {
    assert ids == a[0] + Flatten(a[1..]);
    assert ids[|a[0]|..] == Flatten(a[1..]);
    forall i, k | 0 <= i < |a[1..]| && 1 <= k < |a[1..][i]|
      ensures |BatchQuery(a[1..][i][..k])| < max
    {
      assert a[1..][i] == a[i + 1];
    }
    forall i | 0 <= i < |a[1..]| - 1
      ensures |BatchQuery(a[1..][i])| >= max
    {
      assert a[1..][i] == a[i + 1];
    }
  }

  // ---------------------------------------------------------------------
  // Paging one request
  // ---------------------------------------------------------------------

  /** The manifestation ids carried by a list of result documents. */
  function IdsOf(docs: seq<seq<string>>): set<string>
  {
    set i, x | 0 <= i < |docs| && x in docs[i] :: x
  }

  /** The first page size: room for the expected rows and one sixteenth more, plus sixteen. */
  function FirstPageSize(expected: nat): (rows: nat)
    ensures rows >= expected + 16
  {
    16 + expected + expected / 16
  }

  /**
   * `pullSolrManifestations` against an index whose matching documents are
   * `docs` (so the reported row count is `|docs|`): request a page, add its
   * ids, and when rows remain beyond the page move the start past it and
   * request those rows and sixteen more. Returns the ids collected and the
   * (start, rows) of every request made.
   */
  method PullSolrManifestations(docs: seq<seq<string>>, expected: nat, acc: set<string>)
    returns (ids: set<string>, pages: seq<(nat, nat)>)
    ensures ids == acc + IdsOf(docs)
    ensures 1 <= |pages| <= 2 && pages[0] == (0, FirstPageSize(expected))
    ensures forall i :: 0 <= i < |pages| - 1 ==> pages[i].0 + pages[i].1 < |docs| && pages[i + 1].0 == pages[i].0 + pages[i].1
    ensures pages[|pages| - 1].0 + pages[|pages| - 1].1 >= |docs|
    ensures |docs| <= FirstPageSize(expected) ==> |pages| == 1
  {
    var requested: nat := FirstPageSize(expected);
    var start: nat := 0;
    ids := acc;
    pages := [];
    while true
      invariant |pages| <= 1
      invariant |pages| == 0 ==> start == 0 && requested == FirstPageSize(expected) && ids == acc
      invariant |pages| == 1 ==> pages[0] == (0, FirstPageSize(expected)) && start == pages[0].1 < |docs|
      invariant |pages| == 1 ==> start + requested == |docs| + 16 && ids == acc + IdsOf(docs[..start])
      decreases 2 - |pages|
    {
      pages := pages + [(start, requested)];
      var end := if start + requested <= |docs| then start + requested else |docs|;
      PageIds(docs, start, end);
      ids := ids + IdsOf(docs[start..end]);
      var extraRows := |docs| - start - requested;
      if extraRows <= 0 {
        assert docs[..end] == docs;
        return;
      }
      start := start + requested;
      requested := extraRows + 16;
    }
  }

  /** The ids up to `end` are those up to `start` and those of the page between. */
  lemma PageIds(docs: seq<seq<string>>, start: nat, end: nat)
    requires start <= end <= |docs|
    ensures IdsOf(docs[..end]) == IdsOf(docs[..start]) + IdsOf(docs[start..end])
  {
    forall x | x in IdsOf(docs[..end]) ensures x in IdsOf(docs[..start]) + IdsOf(docs[start..end]) {
      var i :| 0 <= i < end && x in docs[..end][i];
      if i < start {
        assert x in docs[..start][i];
      } else {
        assert x in docs[start..end][i - start];
      }
    }
    forall x | x in IdsOf(docs[start..end]) ensures x in IdsOf(docs[..end]) {
      var i :| 0 <= i < end - start && x in docs[start..end][i];
      assert x in docs[..end][start + i];
    }
    forall x | x in IdsOf(docs[..start]) ensures x in IdsOf(docs[..end]) {
      var i :| 0 <= i < start && x in docs[..start][i];
      assert x in docs[..end][i];
    }
  }

  // ---------------------------------------------------------------------
  // The two lookups
  // ---------------------------------------------------------------------

  /** The ids the index returns for the queries of a list of batches, one request per batch. */
  function IdsOfBatches(batches: seq<seq<string>>, search: string -> seq<seq<string>>): set<string>
  {
    if batches == [] then {} else IdsOf(search(BatchQuery(batches[0]))) + IdsOfBatches(batches[1..], search)
  }

  /**
   * `getAccessibleRelations`: no ids, no request; otherwise the ids in
   * iteration order are batched so that each query fits in the query size
   * left after the profile's filter query, and the ids every batch's
   * request returns are collected. `search` is the index under the
   * profile's filter.
   */
  method GetAccessibleRelations(relationIds: seq<string>, solrQuerySize: int, filterQuery: string,
                                search: string -> seq<seq<string>>)
    returns (visible: set<string>, batches: seq<seq<string>>)
    ensures relationIds == [] ==> visible == {} && batches == []
    ensures GreedyBatching(batches, relationIds, solrQuerySize - |filterQuery|)
    ensures visible == IdsOfBatches(batches, search)
  {
    if relationIds == [] {
      return {}, [];
    }
    var max := solrQuerySize - |filterQuery|;
    batches := Batches(relationIds, max);
    visible := {};
    var b := 0;
    while b < |batches|
      invariant 0 <= b <= |batches|
      invariant visible + IdsOfBatches(batches[b..], search) == IdsOfBatches(batches, search)
    {
      assert batches[b..][1..] == batches[b + 1..];
      var pages;
      visible, pages := PullSolrManifestations(search(BatchQuery(batches[b])), |batches[b]|, visible);
      b := b + 1;
    }
  }

  /**
   * When the index answers each batch's query with documents for exactly
   * the visible ids among the batch, the relations found are exactly the
   * visible ones among the relation ids, however they were batched.
   */
  lemma {:induction false} AccessibleRelationsAreVisible(batches: seq<seq<string>>, ids: seq<string>,
                                                        search: string -> seq<seq<string>>, visibleIds: set<string>)
    requires Flatten(batches) == ids
    requires forall b :: IdsOf(search(BatchQuery(b))) == set x | x in b && x in visibleIds
    ensures IdsOfBatches(batches, search) == set x | x in ids && x in visibleIds
  {
    if batches != [] {
      AccessibleRelationsAreVisible(batches[1..], Flatten(batches[1..]), search, visibleIds);
    }
  }

  /** `getAccessibleManifestations`: one paged request for the work, expecting the given number of manifestations. */
  method GetAccessibleManifestations(workId: string, maxExpectedManifestations: nat, search: string -> seq<seq<string>>)
    returns (ids: set<string>)
    ensures ids == IdsOf(search(WorkTermsPrefix + workId))
  {
    var pages;
    ids, pages := PullSolrManifestations(search(WorkTermsPrefix + workId), maxExpectedManifestations, {});
  }

  // ---------------------------------------------------------------------
  // The index URL
  // ---------------------------------------------------------------------

  const ZkScheme := "zk://"

  /** A client for the index: through ZooKeeper, or plain HTTP. */
  datatype SolrClient =
    | CloudClient(zkHosts: seq<string>, zkChroot: Option<string>, collection: string)
    | HttpClient(url: string)

  /**
   * `makeSolrClient`: a URL matching `zk://hosts(/chroot)?/collection`
   * (hosts and collection without '/') is a ZooKeeper client with the
   * hosts split on commas, the chroot (everything from the first '/' up
   * to the last one, when those differ) and the collection after the last
   * '/'; any other URL is an HTTP client.
   */
  function MakeSolrClient(solrUrl: string): (c: SolrClient)
    ensures c.HttpClient? ==> c.url == solrUrl
    ensures c.CloudClient? <==> StartsWith(solrUrl, ZkScheme) && IndexOf(solrUrl[|ZkScheme|..], '/') >= 0
    ensures c.CloudClient? ==> forall i :: 0 <= i < |c.collection| ==> c.collection[i] != '/'
  {
    if !StartsWith(solrUrl, ZkScheme) then HttpClient(solrUrl)
    else
      var rest := solrUrl[|ZkScheme|..];
      var first := IndexOf(rest, '/');
      if first == -1 then HttpClient(solrUrl)
      else
        var last := LastIndexOf(rest, '/');
        CloudClient(JavaSplit(rest[..first], ','), if first == last then None else Some(rest[first..last]), rest[last + 1..])
  }

  predicate NoSlash(s: string) { forall i :: 0 <= i < |s| ==> s[i] != '/' }

  /** The chroot as it appears in the URL. */
  function ChrootText(chroot: Option<string>): string
  {
    if chroot.Some? then chroot.value else ""
  }

  /**
   * Writing hosts, a chroot (starting with '/') and a collection into a
   * `zk://` URL and parsing it gives back the comma-split hosts, the
   * chroot and the collection.
   */
  lemma ZkUrlRoundTrip(hosts: string, chroot: Option<string>, collection: string)
    requires NoSlash(hosts) && NoSlash(collection)
    requires chroot.Some? ==> |chroot.value| > 0 && chroot.value[0] == '/'
    ensures MakeSolrClient(ZkScheme + hosts + ChrootText(chroot) + "/" + collection)
      == CloudClient(JavaSplit(hosts, ','), chroot, collection)
  {
    ZkParse(hosts, ChrootText(chroot), collection);
  }

  /** The parse of a `zk://` URL written from its parts, with the chroot as text. */
  lemma ZkParse(hosts: string, c: string, collection: string)
    requires NoSlash(hosts) && NoSlash(collection)
    requires c != [] ==> c[0] == '/'
    ensures MakeSolrClient(ZkScheme + hosts + c + "/" + collection)
      == CloudClient(JavaSplit(hosts, ','), if c == [] then None else Some(c), collection)
  {
    var rest := hosts + c + "/" + collection;
    assert ZkScheme + hosts + c + "/" + collection == ZkScheme + rest;
    ZkSlashes(hosts, c, collection);
    ZkParts(hosts, c, collection);
    ZkClient(rest);
  }

  /** A `zk://` URL with a '/' after the scheme is parsed at the first and last '/' of what follows the scheme. */
  lemma ZkClient(rest: string)
    requires IndexOf(rest, '/') >= 0
    ensures var first := IndexOf(rest, '/');
      var last := LastIndexOf(rest, '/');
      MakeSolrClient(ZkScheme + rest)
        == CloudClient(JavaSplit(rest[..first], ','), if first == last then None else Some(rest[first..last]), rest[last + 1..])
  {
    ZkSchemeRest(rest);
  }

  /** The three parts of hosts + chroot + "/" + collection, read back by position. */
  lemma ZkParts(hosts: string, chroot: string, collection: string)
    ensures var rest := hosts + chroot + "/" + collection;
      && rest[..|hosts|] == hosts
      && rest[|hosts|..|hosts| + |chroot|] == chroot
      && rest[|hosts| + |chroot| + 1..] == collection
  {
    var rest := hosts + chroot + "/" + collection;
    assert rest == hosts + (chroot + ("/" + collection));
  }

  lemma ZkSchemeRest(rest: string)
    ensures StartsWith(ZkScheme + rest, ZkScheme) && (ZkScheme + rest)[|ZkScheme|..] == rest
  {
  }

  /** In hosts + chroot + "/" + collection the first '/' ends the hosts and the last one starts the collection. */
  lemma ZkSlashes(hosts: string, chroot: string, collection: string)
    requires NoSlash(hosts) && NoSlash(collection)
    requires chroot != [] ==> chroot[0] == '/'
    ensures var rest := hosts + chroot + "/" + collection;
      && IndexOf(rest, '/') == |hosts|
      && LastIndexOf(rest, '/') == |hosts| + |chroot|
  {
    var rest := hosts + chroot + "/" + collection;
    var last := |hosts| + |chroot|;
    assert rest[last] == '/';
    forall j | last < j < |rest| ensures rest[j] != '/' {
      assert rest[j] == collection[j - last - 1];
    }
    LastIndexOfLast(rest, '/', last);
    forall j | 0 <= j < |hosts| ensures rest[j] != '/' {
      assert rest[j] == hosts[j];
    }
    assert rest[|hosts|] == '/';
    IndexOfFirst(rest, '/', |hosts|);
  }
}
