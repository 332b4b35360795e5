/**
 * The request endpoints of the presentation service: parameter checks, the
 * lookup that finds a stored work or redirects a superseded id, and the
 * mapping of exceptions to HTTP statuses.
 */
module WorkPresentation {
  import opened Wrappers
  import opened Strings
  import opened ExceptionSafety

  const WorkOf := "work-of:"

  // ---------------------------------------------------------------------
  // Exceptions the endpoint distinguishes
  // ---------------------------------------------------------------------

  const NewWorkIdClass := "NewWorkIdException"
  const NotFoundClass := "NotFoundException"
  const ForbiddenClass := "ForbiddenException"
  const NoSuchProfileClass := "NoSuchProfileException"
  const WebApplicationClass := "WebApplicationException"

  /** The classes `get` raises, in call order. */
  const RaisedClasses := [NewWorkIdClass, NotFoundClass, NoSuchProfileClass, WebApplicationClass]

  /** The class hierarchy among these exceptions: each of them is unchecked. */
  predicate WellKinded(t: Throwable)
  {
    && (NotFoundClass in t.kinds ==> WebApplicationClass in t.kinds)
    && (ForbiddenClass in t.kinds ==> WebApplicationClass in t.kinds)
    && (WebApplicationClass in t.kinds ==> RuntimeExceptionClass in t.kinds)
    && (NewWorkIdClass in t.kinds ==> RuntimeExceptionClass in t.kinds)
    && (NoSuchProfileClass in t.kinds ==> RuntimeExceptionClass in t.kinds)
    && (RuntimeExceptionClass in t.kinds ==> ExceptionClass in t.kinds)
  }

  /** A `javax.ws.rs.NotFoundException`, with or without a message. */
  function NotFound(message: Option<string>): (t: Throwable)
    ensures WellKinded(t) && NotFoundClass in t.kinds && NewWorkIdClass !in t.kinds
  {
    Throwable({NotFoundClass, "ClientErrorException", WebApplicationClass, RuntimeExceptionClass, "Exception", "Throwable"}, message)
  }

  /** A `NewWorkIdException`; its message carries the new persistent work id. */
  function NewWorkId(workId: string): (t: Throwable)
    ensures WellKinded(t) && NewWorkIdClass in t.kinds && t.message == Some(workId)
  {
    Throwable({NewWorkIdClass, RuntimeExceptionClass, "Exception", "Throwable"}, Some(workId))
  }

  // ---------------------------------------------------------------------
  // Responses
  // ---------------------------------------------------------------------

  datatype ErrorCode = ProfileError | MissingParameters | NotFoundError

  /** The HTTP responses the endpoints build. */
  datatype HttpResponse<R> =
    | Success(body: R)
    | Failed(status: int, code: ErrorCode, message: Option<string>)
    | MovedPermanently(query: seq<(string, seq<string>)>)
    | ServerError
    | Escaped(error: Failure)

  /** The status code of a response. */
  function Status<R>(r: HttpResponse<R>): int
  {
    match r
    case Success(_) => 200
    case Failed(status, _, _) => status
    case MovedPermanently(_) => 301
    case ServerError => 500
    case Escaped(_) => 500
  }

  // ---------------------------------------------------------------------
  // Missing parameters
  // ---------------------------------------------------------------------

  /** A query parameter counts as missing when it is absent or empty. */
  predicate Missing(p: Option<string>)
  {
    p.None? || p.value == ""
  }

  /** The names of the missing parameters, in the order workId, agencyId, profile. */
  function MissingNames(workId: Option<string>, agencyId: Option<string>, profile: Option<string>): seq<string>
  {
    (if Missing(workId) then ["workId"] else []) +
    (if Missing(agencyId) then ["agencyId"] else []) +
    (if Missing(profile) then ["profile"] else [])
  }

  /** A name is listed exactly when that parameter is missing, each at most once and in declaration order. */
  lemma MissingNamesExact(workId: Option<string>, agencyId: Option<string>, profile: Option<string>)
    ensures var names := MissingNames(workId, agencyId, profile);
      && ("workId" in names <==> Missing(workId))
      && ("agencyId" in names <==> Missing(agencyId))
      && ("profile" in names <==> Missing(profile))
      && (forall i, j :: 0 <= i < j < |names| ==> names[i] != names[j])
      && (names == [] <==> !Missing(workId) && !Missing(agencyId) && !Missing(profile))
  {
  }

  /** The message for the missing names: one named alone, several joined by ", " with the last after "and". */
  function MissingMessage(names: seq<string>): Option<string>
  {
    if names == [] then None
    else if |names| == 1 then Some("Required parameter " + names[0] + " is missing")
    else Some("Required parameters " + Join(names[..|names| - 1], ", ") + " and " + names[|names| - 1] + " are missing")
  }

  /**
   * The parameter check of `get`: collect the missing names in a list,
   * take the last one off, and build the message from it and the rest.
   */
  method CheckParameters(workId: Option<string>, agencyId: Option<string>, profile: Option<string>) returns (message: Option<string>)
    ensures message == MissingMessage(MissingNames(workId, agencyId, profile))
  {
    var missing: seq<string> := [];
    if Missing(workId) {
      missing := missing + ["workId"];
    }
    if Missing(agencyId) {
      missing := missing + ["agencyId"];
    }
    if Missing(profile) {
      missing := missing + ["profile"];
    }
    if missing == [] {
      return None;
    }
    var variables := missing[|missing| - 1];
    missing := missing[..|missing| - 1];
    if missing == [] {
      message := Some("Required parameter " + variables + " is missing");
    } else {
      message := Some("Required parameters " + Join(missing, ", ") + " and " + variables + " are missing");
    }
  }

  /** With only the profile missing the message names it alone. */
  lemma OneMissingMessage()
    ensures MissingMessage(MissingNames(Some("work-of:x"), Some("870970"), None)) == Some("Required parameter profile is missing")
  {
    assert MissingNames(Some("work-of:x"), Some("870970"), None) == ["profile"];
    assert "Required parameter " + "profile" + " is missing" == "Required parameter profile is missing";
  }

  /** With all three missing the message lists the first two with a comma and the last after "and". */
  lemma AllMissingMessage()
    ensures MissingMessage(MissingNames(None, Some(""), None)) == Some("Required parameters workId, agencyId and profile are missing")
  {
    var names := MissingNames(None, Some(""), None);
    assert names == ["workId", "agencyId", "profile"];
    MessageOfThree(names, "workId", "agencyId", "profile");
    AllMissingText();
  }

  /** The literal message for all three names. */
  lemma AllMissingText()
    ensures "Required parameters " + "workId" + ", " + "agencyId" + " and " + "profile" + " are missing"
      == "Required parameters workId, agencyId and profile are missing"
  {
    assert "Required parameters " + "workId" == "Required parameters workId";
    assert "Required parameters workId" + ", " + "agencyId" == "Required parameters workId, agencyId";
    assert "Required parameters workId, agencyId" + " and " + "profile" == "Required parameters workId, agencyId and profile";
  }

  /** The message for three missing names. */
  lemma MessageOfThree(names: seq<string>, a: string, b: string, c: string)
    requires names == [a, b, c]
    ensures MissingMessage(names) == Some("Required parameters " + a + ", " + b + " and " + c + " are missing")
  {
    assert names[..2] == [a, b];
    JoinTwo(a, b, ", ");
    var p := "Required parameters ";
    assert MissingMessage(names) == Some(p + (a + ", " + b) + " and " + c + " are missing");
    assert p + (a + ", " + b) + " and " + c + " are missing" == p + a + ", " + b + " and " + c + " are missing";
  }

  /** Two names joined. */
  lemma JoinTwo(a: string, b: string, sep: string)
    ensures Join([a, b], sep) == a + sep + b
  {
    assert [a, b][1..] == [b];
  }

  // ---------------------------------------------------------------------
  // The stored state the endpoints read
  // ---------------------------------------------------------------------

  /**
   * The database as the endpoints see it: works by persistent id (their
   * corepo work id), the work a manifestation belongs to, and the
   * persistent id of each corepo work.
   */
  datatype Db = Db(
    corepoWorkIdOf: map<string, string>,
    workContains: map<string, string>,
    persistentIdOf: map<string, string>)

  /**
   * The not-found message of `getPersistentWorkId` as written: the format
   * string uses a logging placeholder `{}`, which `String.format` leaves
   * as it is, so the id is never inserted.
   */
  function CorepoNotFoundMessageAsWritten(corepoWorkId: string): string
  {
    "corepo work-id not found {}"
  }

  /** As written, two different ids get the same message: the message does not say which id was not found. */
  lemma CorepoNotFoundMessageDropsId()
    ensures "work:1" != "work:2"
    ensures CorepoNotFoundMessageAsWritten("work:1") == CorepoNotFoundMessageAsWritten("work:2")
  {
    assert "work:1"[5] != "work:2"[5];
  }

  const CorepoNotFoundPrefix := "corepo work-id not found "

  /** The not-found message as evidently intended: the fixed text followed by the id. */
  function CorepoNotFoundMessage(corepoWorkId: string): (m: string)
    ensures StartsWith(m, CorepoNotFoundPrefix) && m[|CorepoNotFoundPrefix|..] == corepoWorkId
  {
    CorepoNotFoundPrefix + corepoWorkId
  }

  /** The intended message names the id: different ids give different messages. */
  lemma CorepoNotFoundMessageNamesId(a: string, b: string)
    ensures CorepoNotFoundMessage(a) == CorepoNotFoundMessage(b) <==> a == b
  {
    if CorepoNotFoundMessage(a) == CorepoNotFoundMessage(b) {
      assert a == CorepoNotFoundMessage(a)[|CorepoNotFoundPrefix|..];
    }
  }

  /** `getPersistentWorkId`: 400 for a missing id, 404 for an unknown one, else 200 with the persistent id. */
  function GetPersistentWorkId(corepoWorkId: Option<string>, db: Db): (r: HttpResponse<string>)
    ensures Missing(corepoWorkId) ==> r == Failed(400, MissingParameters, Some("Required parameter corepoWorkId is missing"))
    ensures !Missing(corepoWorkId) && corepoWorkId.value !in db.persistentIdOf ==>
      r == Failed(404, NotFoundError, Some(CorepoNotFoundMessage(corepoWorkId.value)))
    ensures !Missing(corepoWorkId) && corepoWorkId.value in db.persistentIdOf ==> r == Success(db.persistentIdOf[corepoWorkId.value])
  {
    if Missing(corepoWorkId) then Failed(400, MissingParameters, Some("Required parameter corepoWorkId is missing"))
    else if corepoWorkId.value !in db.persistentIdOf then Failed(404, NotFoundError, Some(CorepoNotFoundMessage(corepoWorkId.value)))
    else Success(db.persistentIdOf[corepoWorkId.value])
  }

  /**
   * `processRequest`: a stored persistent id is presented by `present`
   * (the filtering of the stored work, given its corepo work id); a
   * "work-of:" id of a manifestation whose work is stored is redirected to
   * that work's persistent id; anything else is not found.
   */
  function ProcessRequest<R>(workId: string, db: Db, present: string -> Execution<R>): (r: Execution<R>)
    ensures r.Throws? ==> WellKinded(r.failure.top) || (workId in db.corepoWorkIdOf && r == present(db.corepoWorkIdOf[workId]))
  {
    if workId in db.corepoWorkIdOf then present(db.corepoWorkIdOf[workId])
    else if StartsWith(workId, WorkOf) then
      var manifestationId := workId[|WorkOf|..];
      if manifestationId !in db.workContains then Throws(Failure(NotFound(Some("No Such Work")), []))
      else if db.workContains[manifestationId] !in db.persistentIdOf then Throws(Failure(NotFound(None), []))
      else Throws(Failure(NewWorkId(db.persistentIdOf[db.workContains[manifestationId]]), []))
    else Throws(Failure(NotFound(Some("No Such Work")), []))
  }

  /** The query of a redirect: every parameter kept in order, only the workId values replaced by the new id. */
  function ReplaceWorkId(query: seq<(string, seq<string>)>, newId: string): (r: seq<(string, seq<string>)>)
    ensures |r| == |query|
    ensures forall i :: 0 <= i < |r| ==> r[i].0 == query[i].0
    ensures forall i :: 0 <= i < |r| ==> r[i].1 == (if query[i].0 == "workId" then [newId] else query[i].1)
  {
    seq(|query|, i requires 0 <= i < |query| => if query[i].0 == "workId" then (query[i].0, [newId]) else query[i])
  }

  /** The `catch` clauses of `get`, in order. */
  function Catch<R>(t: Throwable, query: seq<(string, seq<string>)>): HttpResponse<R>
  {
    if NewWorkIdClass in t.kinds then MovedPermanently(ReplaceWorkId(query, t.message.GetOr("")))
    else if ForbiddenClass in t.kinds then Failed(403, ProfileError, t.message)
    else if NotFoundClass in t.kinds then Failed(404, NotFoundError, t.message)
    else if NoSuchProfileClass in t.kinds then Failed(400, ProfileError, t.message)
    else ServerError
  }

  /** `get` after the parameter check: process, raise the four classes in order, get, and map what is thrown. */
  function Respond<R>(exec: Execution<R>, query: seq<(string, seq<string>)>): HttpResponse<R>
  {
    match Wrap(exec)
    case Throws(error) => Escaped(error)
    case Returns(wrapped) =>
      match RaiseAll(wrapped, RaisedClasses)
      case Thrown(f) => Catch(f.top, query)
      case Continue(es) =>
        match Get(es)
        case Got(v) => Success(v)
        case ThrowsRuntime(f) => Catch(f.top, query)
  }

  /** `get`: the parameter check, then the request. */
  function GetWork<R>(workId: Option<string>, agencyId: Option<string>, profile: Option<string>, db: Db,
                      present: string -> Execution<R>, query: seq<(string, seq<string>)>): HttpResponse<R>
  {
    var names := MissingNames(workId, agencyId, profile);
    if names != [] then Failed(404, MissingParameters, MissingMessage(names))
    else Respond(ProcessRequest(workId.value, db, present), query)
  }

  /** Missing parameters give status 404 (not 400) with the missing-parameters code and message. */
  lemma MissingParametersNotFound<R>(workId: Option<string>, agencyId: Option<string>, profile: Option<string>, db: Db,
                                     present: string -> Execution<R>, query: seq<(string, seq<string>)>)
    requires Missing(workId) || Missing(agencyId) || Missing(profile)
    ensures var r := GetWork(workId, agencyId, profile, db, present, query);
      r.Failed? && r.status == 404 && r.code == MissingParameters && r.message.Some?
  {
  }

  /** A stored work that is presented without error is returned with status 200. */
  lemma StoredWorkPresented<R>(workId: string, db: Db, present: string -> Execution<R>, query: seq<(string, seq<string>)>, v: R)
    requires workId in db.corepoWorkIdOf && present(db.corepoWorkIdOf[workId]) == Returns(v)
    ensures Respond(ProcessRequest(workId, db, present), query) == Success(v)
  {
    RaiseAllValue(v, RaisedClasses);
  }

  /** A "work-of:" id of a manifestation whose work has a persistent id redirects there, replacing only the workId value. */
  lemma WorkOfRedirects<R>(workId: string, db: Db, present: string -> Execution<R>, query: seq<(string, seq<string>)>)
    requires workId !in db.corepoWorkIdOf && StartsWith(workId, WorkOf)
    requires workId[|WorkOf|..] in db.workContains && db.workContains[workId[|WorkOf|..]] in db.persistentIdOf
    ensures Respond(ProcessRequest(workId, db, present), query)
      == MovedPermanently(ReplaceWorkId(query, db.persistentIdOf[db.workContains[workId[|WorkOf|..]]]))
  {
    var f := Failure(NewWorkId(db.persistentIdOf[db.workContains[workId[|WorkOf|..]]]), []);
    assert FirstMatch(f.Chain(), NewWorkIdClass, 0) == Some(0);
    RaiseAllFirstClass<R>(f, RaisedClasses);
  }

  /** An unknown id, or a "work-of:" id without a stored work, is not found. */
  lemma UnknownWorkNotFound<R>(workId: string, db: Db, present: string -> Execution<R>, query: seq<(string, seq<string>)>)
    requires workId !in db.corepoWorkIdOf
    requires !StartsWith(workId, WorkOf) || workId[|WorkOf|..] !in db.workContains
      || db.workContains[workId[|WorkOf|..]] !in db.persistentIdOf
    ensures var r := Respond(ProcessRequest(workId, db, present), query);
      r.Failed? && r.status == 404 && r.code == NotFoundError
  {
    var e := ProcessRequest(workId, db, present);
    var t := e.failure.top;
    assert e == Throws(Failure(t, [])) && t == NotFound(t.message);
    DirectThrowCaught<R>(t, query);
  }

  /**
   * The status of an exception thrown while presenting a stored work,
   * when nothing on its cause chain is one of the raised classes: 403 for
   * a Forbidden exception, 500 for any other exception, and a throwable
   * that is not an `Exception` escapes `get` uncaught.
   */
  lemma UnmatchedExceptionStatus<R>(f: Failure, query: seq<(string, seq<string>)>)
    requires forall k :: 0 <= k < |RaisedClasses| ==> FirstMatch(f.Chain(), RaisedClasses[k], 0).None?
    ensures !IsException(f) ==> Respond(Execution<R>.Throws(f), query) == Escaped(f)
    ensures IsException(f) && RuntimeExceptionClass in f.top.kinds ==> Respond(Execution<R>.Throws(f), query) == Catch(f.top, query)
    ensures IsException(f) && ForbiddenClass !in f.top.kinds ==> Respond(Execution<R>.Throws(f), query) == ServerError
  {
    RaiseAllFirstClass<R>(f, RaisedClasses);
    assert NotFoundClass !in f.top.kinds && NewWorkIdClass !in f.top.kinds && NoSuchProfileClass !in f.top.kinds by {
      assert FirstMatch(f.Chain(), RaisedClasses[0], 0).None?;
      assert FirstMatch(f.Chain(), RaisedClasses[1], 0).None?;
      assert FirstMatch(f.Chain(), RaisedClasses[2], 0).None?;
    }
  }

  /**
   * Exceptions thrown directly (no causes) map to their statuses: a
   * Forbidden exception 403, a not-found 404, a missing profile 400, any
   * other runtime exception 500.
   */
  lemma ThrownStatus<R>(t: Throwable, query: seq<(string, seq<string>)>)
    requires WellKinded(t) && RuntimeExceptionClass in t.kinds && NewWorkIdClass !in t.kinds
    ensures ForbiddenClass in t.kinds && NotFoundClass !in t.kinds ==> Status(Respond(Execution<R>.Throws(Failure(t, [])), query)) == 403
    ensures NotFoundClass in t.kinds && ForbiddenClass !in t.kinds ==> Status(Respond(Execution<R>.Throws(Failure(t, [])), query)) == 404
    ensures NoSuchProfileClass in t.kinds && WebApplicationClass !in t.kinds ==> Status(Respond(Execution<R>.Throws(Failure(t, [])), query)) == 400
    ensures ForbiddenClass !in t.kinds && NotFoundClass !in t.kinds && NoSuchProfileClass !in t.kinds ==>
      Status(Respond(Execution<R>.Throws(Failure(t, [])), query)) == 500
  {
    DirectThrowCaught<R>(t, query);
  }

  /** A runtime exception thrown directly reaches the `catch` clauses as it is. */
  lemma DirectThrowCaught<R>(t: Throwable, query: seq<(string, seq<string>)>)
    requires WellKinded(t) && RuntimeExceptionClass in t.kinds
    ensures Respond(Execution<R>.Throws(Failure(t, [])), query) == Catch(t, query)
  {
    RaiseAllDirect<R>(t, RaisedClasses);
  }
}
