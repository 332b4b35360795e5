/**
 * The per-work cache of content-service responses: one call of the fetch
 * function per URI, whose bytes, or whose runtime exception, are kept and
 * handed out again on every later request for that URI until the cache is
 * cleared.
 */
module CorepoCaching {
  import opened Wrappers

  type Bytes = seq<bv8>

  /** What the fetch function does for one URI: return bytes, throw a runtime exception, or return null. */
  datatype Fetched = Returned(bytes: Bytes) | Threw(exception: string) | ReturnedNull

  /** What the cache keeps for a URI: the bytes, or the exception the fetch threw. */
  datatype Entry = Content(bytes: Bytes) | Failure(exception: string)

  /** How `computeIfAbsent` fails: rethrowing the kept exception, or the impossible-case `IllegalStateException`. */
  datatype Error = Rethrown(exception: string) | IllegalState(message: string)

  const CannotHappen := "This cannot happen"

  /** What a kept entry gives the caller. */
  function Deliver(e: Entry): Result<Bytes, Error>
  {
    match e
    case Content(b) => Ok(b)
    case Failure(ex) => Err(Rethrown(ex))
  }

  /**
   * One `computeIfAbsent`: a kept URI gives its entry and changes nothing;
   * otherwise the fetch's bytes or exception are kept and given, and a null
   * is not kept and fails with `IllegalStateException`.
   */
  function Step(objects: map<string, Entry>, uri: string, fetched: Fetched): (map<string, Entry>, Result<Bytes, Error>)
  {
    if uri in objects then (objects, Deliver(objects[uri]))
    else
      match fetched
      case Returned(b) => (objects[uri := Content(b)], Ok(b))
      case Threw(ex) => (objects[uri := Failure(ex)], Err(Rethrown(ex)))
      case ReturnedNull => (objects, Err(IllegalState(CannotHappen)))
  }

  /**
   * The first request for a URI keeps what the fetch did: its bytes are
   * returned, its exception is rethrown, and a null leaves nothing kept.
   */
  lemma FirstRequest(objects: map<string, Entry>, uri: string, fetched: Fetched)
    requires uri !in objects
    ensures var (after, r) := Step(objects, uri, fetched);
      && (fetched.Returned? ==> after[uri] == Content(fetched.bytes) && r == Ok(fetched.bytes))
      && (fetched.Threw? ==> after[uri] == Failure(fetched.exception) && r == Err(Rethrown(fetched.exception)))
      && (fetched.ReturnedNull? ==> uri !in after && r == Err(IllegalState(CannotHappen)))
  {
  }

  /**
   * Once a URI is kept, every later request gives the same outcome and
   * changes nothing, whatever the fetch would now do.
   */
  lemma LaterRequest(objects: map<string, Entry>, uri: string, first: Fetched, later: Fetched)
    requires !first.ReturnedNull?
    ensures var (after, r) := Step(objects, uri, first);
      uri in after && Step(after, uri, later) == (after, r)
  {
  }

  /** A request changes no other URI's entry. */
  lemma OtherUris(objects: map<string, Entry>, uri: string, fetched: Fetched, other: string)
    requires other != uri
    ensures var after := Step(objects, uri, fetched).0;
      (other in after <==> other in objects) && (other in objects ==> after[other] == objects[other])
  {
  }

  /** The cache, with a record of the URIs the fetch function was called for. */
  class CorepoCache {
    var objects: map<string, Entry>
    ghost var fetches: seq<string>

    constructor()
      ensures objects == map[] && fetches == []
    {
      objects := map[];
      fetches := [];
    }

    /**
     * `computeIfAbsent`: the outcome `Step` gives; the fetch function is
     * called only when the URI is not kept.
     */
    method ComputeIfAbsent(uri: string, fetch: string -> Fetched) returns (r: Result<Bytes, Error>)
      modifies this
      ensures (objects, r) == Step(old(objects), uri, fetch(uri))
      ensures fetches == old(fetches) + (if uri in old(objects) then [] else [uri])
    {
      if uri !in objects {
        fetches := fetches + [uri];
        var fetched := fetch(uri);
        match fetched
        case Returned(b) => objects := objects[uri := Content(b)];
        case Threw(ex) => objects := objects[uri := Failure(ex)];
        case ReturnedNull =>
      }
      if uri in objects {
        r := Deliver(objects[uri]);
      } else {
        r := Err(IllegalState(CannotHappen));
      }
    }

    /** `clear`: forget every entry. */
    method Clear()
      modifies this`objects
      ensures objects == map[]
    {
      objects := map[];
    }
  }
}
