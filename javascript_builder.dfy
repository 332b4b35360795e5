/**
 * The builders of JavaScript environments: set-once settings, an ordered
 * search-path list, defaults filled in at build time, and a supplier that
 * creates the environment on demand. The cache-object builder is this
 * builder with its own defaults; creating its environment registers the
 * search paths and looks the script file up along them.
 */
module ScriptBuilding {
  import opened Wrappers
  import opened Strings
  import opened ExceptionSafety

  /** A class loader, known by name; the builder class's own loader is the default. */
  datatype ClassLoader = ClassLoader(name: string)

  const OwnClassLoader := ClassLoader("JavascriptCacheObjectBuilder")
  const DefaultSearchPath: seq<string> := ["classpath:javascript"]
  const DefaultScriptFile := "BuildCacheObject.js"
  const DefaultMethod := "buildManifestationInformation"

  /** `IllegalArgumentException` with its message, or `IllegalStateException` for a field (its message renders both values). */
  datatype SetError = IllegalArgument(message: string) | IllegalState(field: string)

  /** `setOnce`: null is refused, a field already set is refused, else the new value is stored. */
  function SetOnce<T>(field: string, current: Option<T>, given: Option<T>): Result<T, SetError>
  {
    if given.None? then Err(IllegalArgument("Cannot set field: " + field + " to null"))
    else if current.Some? then Err(IllegalState(field))
    else Ok(given.value)
  }

  /**
   * A setting succeeds exactly for a non-null value on an unset field and
   * stores that value; once it succeeded, every later setting of the
   * field fails and the value stays.
   */
  lemma SetOnceOnly<T>(field: string, current: Option<T>, given: Option<T>, later: Option<T>)
    ensures SetOnce(field, current, given).Ok? <==> given.Some? && current.None?
    ensures SetOnce(field, current, given).Ok? ==> SetOnce(field, current, given).value == given.value
    ensures given.None? ==> SetOnce(field, current, given).error.IllegalArgument?
    ensures given.Some? && current.Some? ==> SetOnce(field, current, given) == Err(IllegalState(field))
    ensures SetOnce(field, current, given).Ok? ==> SetOnce(field, Some(SetOnce(field, current, given).value), later).Err?
  {
  }

  /** The first non-null value, or null. */
  function FirstPresent<T>(ts: seq<Option<T>>): Option<T>
  {
    if |ts| == 0 then None
    else if ts[0].Some? then ts[0]
    else FirstPresent(ts[1..])
  }

  /** The first non-null value is an argument preceded only by nulls; there is none only when every argument is null. */
  lemma {:induction false} FirstPresentFirst<T>(ts: seq<Option<T>>)
    ensures FirstPresent(ts).None? <==> forall i :: 0 <= i < |ts| ==> ts[i].None?
    ensures FirstPresent(ts).Some? ==>
      exists i :: 0 <= i < |ts| && ts[i] == FirstPresent(ts) && forall j :: 0 <= j < i ==> ts[j].None?
  {
    if |ts| > 0 && ts[0].None? {
      FirstPresentFirst(ts[1..]);
      if FirstPresent(ts).Some? {
        var i :| 0 <= i < |ts[1..]| && ts[1..][i] == FirstPresent(ts) && forall j :: 0 <= j < i ==> ts[1..][j].None?;
        assert ts[i + 1] == FirstPresent(ts);
        forall j | 0 <= j < i + 1
          ensures ts[j].None?
        {
          if j > 0 {
            assert ts[j] == ts[1..][j - 1];
          }
        }
      } else {
        forall i | 0 <= i < |ts|
          ensures ts[i].None?
        {
          if i > 0 {
            assert ts[i] == ts[1..][i - 1];
          }
        }
      }
    }
  }

  /** `or`: walk the arguments and return the first non-null one. */
  method Or<T>(ts: seq<Option<T>>) returns (r: Option<T>)
    ensures r == FirstPresent(ts)
  {
    for i := 0 to |ts|
      invariant FirstPresent(ts) == FirstPresent(ts[i..])
    {
      if ts[i].Some? {
        return ts[i];
      }
      assert ts[i..][1..] == ts[i + 1..];
    }
    assert ts[|ts|..] == [];
    return None;
  }

  /** The builder's search-path list: one list object, shared with every supplier the builder built. */
  class SearchPaths {
    var paths: seq<string>

    constructor()
      ensures paths == []
    {
      paths := [];
    }
  }

  /** What `build` hands out: the settings it resolved, and the builder's own path list. */
  datatype Supplier = Supplier(scriptFile: string, methodName: string, classLoader: ClassLoader, searchPaths: SearchPaths)

  /** A builder: three set-once settings, the search paths, and the defaults of the environment it builds. */
  class ScriptBuilder {
    const defaultScriptFile: string
    const defaultMethod: string
    var scriptFileName: Option<string>
    var methodName: Option<string>
    var classLoader: Option<ClassLoader>
    const searchPaths: SearchPaths

    /** A builder with nothing set and no search paths. */
    constructor(defaultScriptFile: string, defaultMethod: string)
      ensures this.defaultScriptFile == defaultScriptFile && this.defaultMethod == defaultMethod
      ensures scriptFileName.None? && methodName.None? && classLoader.None?
      ensures fresh(searchPaths) && searchPaths.paths == []
    {
      this.defaultScriptFile := defaultScriptFile;
      this.defaultMethod := defaultMethod;
      scriptFileName := None;
      methodName := None;
      classLoader := None;
      searchPaths := new SearchPaths();
    }

    /** `scriptFileName`: set once. */
    method SetScriptFileName(name: Option<string>) returns (r: Result<(), SetError>)
      modifies this
      ensures var s := SetOnce("scriptFileName", old(scriptFileName), name);
        && (r.Ok? <==> s.Ok?)
        && (s.Err? ==> r.error == s.error && scriptFileName == old(scriptFileName))
        && (s.Ok? ==> scriptFileName == Some(s.value))
      ensures methodName == old(methodName) && classLoader == old(classLoader)
    {
      var s := SetOnce("scriptFileName", scriptFileName, name);
      if s.Err? {
        return Err(s.error);
      }
      scriptFileName := Some(s.value);
      r := Ok(());
    }

    /** `manifestationInformationMethod`: set once. */
    method SetMethodName(name: Option<string>) returns (r: Result<(), SetError>)
      modifies this
      ensures var s := SetOnce("manifestationInformationMethod", old(methodName), name);
        && (r.Ok? <==> s.Ok?)
        && (s.Err? ==> r.error == s.error && methodName == old(methodName))
        && (s.Ok? ==> methodName == Some(s.value))
      ensures scriptFileName == old(scriptFileName) && classLoader == old(classLoader)
    {
      var s := SetOnce("manifestationInformationMethod", methodName, name);
      if s.Err? {
        return Err(s.error);
      }
      methodName := Some(s.value);
      r := Ok(());
    }

    /** `classLoader`: set once. */
    method SetClassLoader(loader: Option<ClassLoader>) returns (r: Result<(), SetError>)
      modifies this
      ensures var s := SetOnce("classLoader", old(classLoader), loader);
        && (r.Ok? <==> s.Ok?)
        && (s.Err? ==> r.error == s.error && classLoader == old(classLoader))
        && (s.Ok? ==> classLoader == Some(s.value))
      ensures scriptFileName == old(scriptFileName) && methodName == old(methodName)
    {
      var s := SetOnce("classLoader", classLoader, loader);
      if s.Err? {
        return Err(s.error);
      }
      classLoader := Some(s.value);
      r := Ok(());
    }

    /** `appendPath`: at the end. */
    method AppendPath(path: string)
      modifies searchPaths
      ensures searchPaths.paths == old(searchPaths.paths) + [path]
    {
      searchPaths.paths := searchPaths.paths + [path];
    }

    /** `prependPath`: at the front. */
    method PrependPath(path: string)
      modifies searchPaths
      ensures searchPaths.paths == [path] + old(searchPaths.paths)
    {
      searchPaths.paths := [path] + searchPaths.paths;
    }

    /** `appendPaths`: the list, in its order, at the end. */
    method AppendPaths(paths: seq<string>)
      modifies searchPaths
      ensures searchPaths.paths == old(searchPaths.paths) + paths
    {
      searchPaths.paths := searchPaths.paths + paths;
    }

    /** `prependPaths`: the list, in its order, at the front. */
    method PrependPaths(paths: seq<string>)
      modifies searchPaths
      ensures searchPaths.paths == paths + old(searchPaths.paths)
    {
      searchPaths.paths := paths + searchPaths.paths;
    }

    /**
     * `build`: each unset setting takes its default, an empty path list is
     * filled with the default search path, and the supplier keeps the
     * builder's own path list.
     */
    method Build() returns (s: Supplier)
      modifies searchPaths
      ensures s.scriptFile == scriptFileName.GetOr(defaultScriptFile)
      ensures s.methodName == methodName.GetOr(defaultMethod)
      ensures s.classLoader == classLoader.GetOr(OwnClassLoader)
      ensures s.searchPaths == searchPaths
      ensures searchPaths.paths == if old(searchPaths.paths) == [] then DefaultSearchPath else old(searchPaths.paths)
    {
      var file := Or([scriptFileName, Some(defaultScriptFile)]);
      var name := Or([methodName, Some(defaultMethod)]);
      var loader := Or([classLoader, Some(OwnClassLoader)]);
      if searchPaths.paths == [] {
        searchPaths.paths := searchPaths.paths + DefaultSearchPath;
      }
      s := Supplier(file.value, name.value, loader.value, searchPaths);
    }
  }

  /** The cache-object builder: a builder whose defaults are "BuildCacheObject.js" and "buildManifestationInformation". */
  method CacheObjectBuilder() returns (b: ScriptBuilder)
    ensures fresh(b) && fresh(b.searchPaths)
    ensures b.defaultScriptFile == DefaultScriptFile && b.defaultMethod == DefaultMethod
    ensures b.scriptFileName.None? && b.methodName.None? && b.classLoader.None? && b.searchPaths.paths == []
  {
    b := new ScriptBuilder(DefaultScriptFile, DefaultMethod);
  }

  /** Appending paths one at a time. */
  function AppendEach(paths: seq<string>, added: seq<string>): seq<string>
    decreases |added|
  {
    if |added| == 0 then paths else AppendEach(paths + [added[0]], added[1..])
  }

  /** Prepending paths one at a time. */
  function PrependEach(paths: seq<string>, added: seq<string>): seq<string>
    decreases |added|
  {
    if |added| == 0 then paths else PrependEach([added[0]] + paths, added[1..])
  }

  /** `appendPaths` is `appendPath` of each path in order. */
  lemma {:induction false} AppendPathsInOrder(paths: seq<string>, added: seq<string>)
    ensures AppendEach(paths, added) == paths + added
    decreases |added|
  {
    if |added| > 0 {
      AppendPathsInOrder(paths + [added[0]], added[1..]);
      assert paths + [added[0]] + added[1..] == paths + added;
    }
  }

  /** `prependPaths` is `prependPath` of each path in reverse order, so the block keeps its order at the front. */
  lemma {:induction false} PrependPathsInOrder(paths: seq<string>, added: seq<string>)
    ensures PrependEach(paths, Reversed(added)) == added + paths
    decreases |added|
  {
    if |added| > 0 {
      var n := |added| - 1;
      assert Reversed(added)[0] == added[n];
      assert Reversed(added)[1..] == Reversed(added[..n]);
      PrependPathsInOrder([added[n]] + paths, added[..n]);
      assert added[..n] + ([added[n]] + paths) == added + paths;
    }
  }

  function Reversed(s: seq<string>): (r: seq<string>)
    ensures |r| == |s| && forall i :: 0 <= i < |s| ==> r[i] == s[|s| - 1 - i]
  {
    if |s| == 0 then [] else Reversed(s[1..]) + [s[0]]
  }

  /**
   * The supplier: create the environment from the resolved settings and
   * the path list as it is now; any exception of the creation, unchecked
   * ones included, is wrapped in a new RuntimeException.
   */
  function Get<T>(s: Supplier, create: (string, string, seq<string>, ClassLoader) -> Execution<T>): (r: Execution<T>)
    reads s.searchPaths
    ensures var e := create(s.scriptFile, s.methodName, s.searchPaths.paths, s.classLoader);
      && (r.Returns? <==> e.Returns?)
      && (e.Returns? ==> r.result == e.result)
      && (e.Throws? && IsException(e.failure) ==>
            RuntimeExceptionClass in r.failure.top.kinds && r.failure.causes == e.failure.Chain())
      && (e.Throws? && !IsException(e.failure) ==> r.failure == e.failure)
  {
    match create(s.scriptFile, s.methodName, s.searchPaths.paths, s.classLoader)
    case Returns(v) => Returns(v)
    case Throws(f) => if IsException(f) then Throws(WrapInRuntime(f)) else Throws(f)
  }

  /** A search path as registered with the module handler: '/' appended unless it already ends in ':' or '/'. */
  function Normalised(path: string): (r: string)
  {
    if EndsWith(path, ":") || EndsWith(path, "/") then path else path + "/"
  }

  /** A registered path ends in ':' or '/', differs from the given one only by that '/', and normalising again changes nothing. */
  lemma NormalisedShape(path: string)
    ensures Normalised(path) == path || Normalised(path) == path + "/"
    ensures EndsWith(Normalised(path), ":") || EndsWith(Normalised(path), "/")
    ensures Normalised(path) == path <==> EndsWith(path, ":") || EndsWith(path, "/")
    ensures Normalised(Normalised(path)) == Normalised(path)
  {
    var r := path + "/";
    assert r[|r| - 1..] == "/";
    if EndsWith(path, ":") || EndsWith(path, "/") {
    } else {
      assert Normalised(path) != path by {
        assert |Normalised(path)| == |path| + 1;
      }
    }
  }

  /** The `forEach` over the search paths: each registered in order, normalised. */
  method RegisterSearchPaths(paths: seq<string>) returns (registered: seq<string>)
    ensures |registered| == |paths|
    ensures forall i :: 0 <= i < |paths| ==> registered[i] == Normalised(paths[i])
  {
    registered := [];
    for i := 0 to |paths|
      invariant |registered| == i
      invariant forall j :: 0 <= j < i ==> registered[j] == Normalised(paths[j])
    {
      var path := paths[i];
      if !EndsWith(path, ":") && !EndsWith(path, "/") {
        path := path + "/";
      }
      registered := registered + [path];
    }
  }

  /** A search path split into its scheme and its path at the first ':'; without one, no scheme. */
  datatype SchemeUri = SchemeUri(scheme: string, path: string)

  function ParseSchemeUri(s: string): SchemeUri
  {
    var k := IndexOf(s, ':');
    if k < 0 then SchemeUri("", s) else SchemeUri(s[..k], s[k + 1..])
  }

  /** A script found: a class-path resource or a file. */
  datatype Location = Location(scheme: string, path: string)

  /** Where `findFile` looks for a file along one search path: the path, a '/' if it lacks one, then the file name. */
  function Candidate(searchPath: string, fileName: string): Location
  {
    var u := ParseSchemeUri(searchPath);
    Location(u.scheme, (if EndsWith(u.path, "/") then u.path else u.path + "/") + fileName)
  }

  /** A class-path candidate is there when the class loader has the resource; a file candidate when the file is a readable file; other schemes never. */
  predicate Present(loc: Location, resources: string -> bool, files: string -> bool)
  {
    (loc.scheme == "classpath" && resources(loc.path)) || (loc.scheme == "file" && files(loc.path))
  }

  function NotFound(fileName: string): Failure
  {
    Failure(Throwable({"FileNotFoundException", "IOException", ExceptionClass, "Throwable"},
                      Some("Cannot locate '" + fileName + "'")), [])
  }

  /** `findFile`: the candidate of the first search path that is present, else `FileNotFoundException`. */
  function FindFileOf(paths: seq<string>, fileName: string, resources: string -> bool, files: string -> bool): Result<Location, Failure>
  {
    if |paths| == 0 then Err(NotFound(fileName))
    else if Present(Candidate(paths[0], fileName), resources, files) then Ok(Candidate(paths[0], fileName))
    else FindFileOf(paths[1..], fileName, resources, files)
  }

  /** The file found is the first present candidate in search-path order; it fails only when no candidate is present. */
  lemma {:induction false} FindFileFirst(paths: seq<string>, fileName: string, resources: string -> bool, files: string -> bool)
    ensures FindFileOf(paths, fileName, resources, files).Err? <==>
      forall i :: 0 <= i < |paths| ==> !Present(Candidate(paths[i], fileName), resources, files)
    ensures FindFileOf(paths, fileName, resources, files).Err? ==> FindFileOf(paths, fileName, resources, files).error == NotFound(fileName)
    ensures FindFileOf(paths, fileName, resources, files).Ok? ==>
      exists i :: 0 <= i < |paths|
        && FindFileOf(paths, fileName, resources, files).value == Candidate(paths[i], fileName)
        && Present(Candidate(paths[i], fileName), resources, files)
        && forall j :: 0 <= j < i ==> !Present(Candidate(paths[j], fileName), resources, files)
  {
    if |paths| > 0 && !Present(Candidate(paths[0], fileName), resources, files) {
      FindFileFirst(paths[1..], fileName, resources, files);
      var r := FindFileOf(paths, fileName, resources, files);
      if r.Ok? {
        var i :| 0 <= i < |paths[1..]| && r.value == Candidate(paths[1..][i], fileName)
          && Present(Candidate(paths[1..][i], fileName), resources, files)
          && forall j :: 0 <= j < i ==> !Present(Candidate(paths[1..][j], fileName), resources, files);
        assert paths[i + 1] == paths[1..][i];
        forall j | 0 <= j < i + 1
          ensures !Present(Candidate(paths[j], fileName), resources, files)
        {
          if j > 0 {
            assert paths[j] == paths[1..][j - 1];
          }
        }
      } else {
        forall i | 0 <= i < |paths|
          ensures !Present(Candidate(paths[i], fileName), resources, files)
        {
          if i > 0 {
            assert paths[i] == paths[1..][i - 1];
          }
        }
      }
    }
  }

  /** `findFile`: walk the search paths in order and stop at the first candidate present. */
  method FindFile(paths: seq<string>, fileName: string, resources: string -> bool, files: string -> bool)
    returns (r: Result<Location, Failure>)
    ensures r == FindFileOf(paths, fileName, resources, files)
  {
    for i := 0 to |paths|
      invariant FindFileOf(paths, fileName, resources, files) == FindFileOf(paths[i..], fileName, resources, files)
    {
      var u := ParseSchemeUri(paths[i]);
      var path := u.path;
      if !EndsWith(path, "/") {
        path := path + "/";
      }
      path := path + fileName;
      if u.scheme == "classpath" {
        if resources(path) {
          return Ok(Location(u.scheme, path));
        }
      } else if u.scheme == "file" {
        if files(path) {
          return Ok(Location(u.scheme, path));
        }
      }
      assert paths[i..][1..] == paths[i + 1..];
    }
    assert paths[|paths|..] == [];
    r := Err(NotFound(fileName));
  }

  /** The resources one class loader has. */
  function LoaderResources(resources: (ClassLoader, string) -> bool, cl: ClassLoader): string -> bool
  {
    p => resources(cl, p)
  }

  /** A created cache-object environment: the method it calls, the search paths registered, and where its script was found. */
  datatype CacheObjectEnvironment = CacheObjectEnvironment(methodName: string, registered: seq<string>, script: Location)

  /** Creating the environment: register the normalised search paths, then load the script found along the given ones. */
  function CacheObjectOf(scriptFile: string, methodName: string, paths: seq<string>, cl: ClassLoader,
                         resources: (ClassLoader, string) -> bool, files: string -> bool): Execution<CacheObjectEnvironment>
  {
    match FindFileOf(paths, scriptFile, LoaderResources(resources, cl), files)
    case Ok(loc) => Returns(CacheObjectEnvironment(methodName, seq(|paths|, i requires 0 <= i < |paths| => Normalised(paths[i])), loc))
    case Err(f) => Throws(f)
  }

  /** The `JavascriptCacheObjectBuilder` constructor: the two registration passes, then the script lookup. */
  method NewCacheObjectEnvironment(scriptFile: string, methodName: string, paths: seq<string>, cl: ClassLoader,
                                   resources: (ClassLoader, string) -> bool, files: string -> bool)
    returns (r: Execution<CacheObjectEnvironment>)
    ensures r == CacheObjectOf(scriptFile, methodName, paths, cl, resources, files)
  {
    var registered := RegisterSearchPaths(paths);
    assert registered == seq(|paths|, i requires 0 <= i < |paths| => Normalised(paths[i]));
    var found := FindFile(paths, scriptFile, LoaderResources(resources, cl), files);
    if found.Err? {
      return Throws(found.error);
    }
    r := Returns(CacheObjectEnvironment(methodName, registered, found.value));
  }

  /**
   * A cache-object supplier fails exactly when no search path has the
   * script, and then throws a RuntimeException caused by the
   * `FileNotFoundException`; otherwise its environment calls the resolved
   * method and has every search path registered in order.
   */
  lemma CacheObjectSupplied(s: Supplier, resources: (ClassLoader, string) -> bool, files: string -> bool)
    ensures var create := (f, m, ps, cl) => CacheObjectOf(f, m, ps, cl, resources, files);
      var r := Get(s, create);
      && (r.Throws? <==> forall i :: 0 <= i < |s.searchPaths.paths| ==>
            !Present(Candidate(s.searchPaths.paths[i], s.scriptFile), LoaderResources(resources, s.classLoader), files))
      && (r.Throws? ==> RuntimeExceptionClass in r.failure.top.kinds && r.failure.causes == [NotFound(s.scriptFile).top])
      && (r.Returns? ==>
            && r.result.methodName == s.methodName
            && |r.result.registered| == |s.searchPaths.paths|
            && (forall i :: 0 <= i < |s.searchPaths.paths| ==> r.result.registered[i] == Normalised(s.searchPaths.paths[i])))
  {
    FindFileFirst(s.searchPaths.paths, s.scriptFile, LoaderResources(resources, s.classLoader), files);
  }
}
