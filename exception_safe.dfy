/**
 * Deferred exception handling: the outcome of a computation is kept as a
 * value or as the exception it raised, and the caller picks, class by
 * class, which exception on the cause chain to throw.
 */
module ExceptionSafety {
  import opened Wrappers

  /**
   * A throwable: the classes it is an instance of (its own class and every
   * superclass) and its message.
   */
  datatype Throwable = Throwable(kinds: set<string>, message: Option<string>)

  /** A raised exception and its causes, nearest cause first. */
  datatype Failure = Failure(top: Throwable, causes: seq<Throwable>)
  {
    /** The throwables from the exception itself down its cause chain. */
    function Chain(): (c: seq<Throwable>)
      ensures |c| == 1 + |causes| && c[0] == top
    {
      [top] + causes
    }
  }

  const RuntimeExceptionClass := "RuntimeException"
  const ExceptionClass := "Exception"

  /** Caught by `catch (Exception ex)`: any throwable but an `Error`. */
  predicate IsException(f: Failure)
  {
    ExceptionClass in f.top.kinds
  }

  /** What running the producer did: return a value or throw. */
  datatype Execution<T> = Returns(result: T) | Throws(failure: Failure)

  /** The wrapper: a value or the exception that replaced it. */
  datatype ExceptionSafe<T> = Value(value: T) | Error(ex: Failure)

  /** The outcome of `raise`: the wrapper itself, for chaining, or a thrown exception. */
  datatype Raised<T> = Continue(self: ExceptionSafe<T>) | Thrown(thrown: Failure)

  /** The outcome of `get`: the value, or a RuntimeException thrown. */
  datatype Got<T> = Got(value: T) | ThrowsRuntime(thrown: Failure)

  /**
   * `wrap`: a normal return becomes a value and a caught `Exception` an
   * error; any other throwable (a `java.lang.Error`) is not caught and
   * leaves `wrap` as it was thrown.
   */
  function Wrap<T>(exec: Execution<T>): (r: Execution<ExceptionSafe<T>>)
    ensures exec.Returns? <==> r.Returns? && r.result.Value?
    ensures r.Throws? <==> exec.Throws? && !IsException(exec.failure)
    ensures r.Throws? ==> r.failure == exec.failure
    ensures r.Returns? && r.result.Error? ==> r.result.ex == exec.failure
  {
    match exec
    case Returns(v) => Returns(Value(v))
    case Throws(f) => if IsException(f) then Returns(Error(f)) else Throws(f)
  }

  /** The first position on the chain, at or after `from`, whose throwable is an instance of `cls`. */
  function FirstMatch(chain: seq<Throwable>, cls: string, from: nat): (r: Option<nat>)
    requires from <= |chain|
    ensures r.Some? ==> from <= r.value < |chain| && cls in chain[r.value].kinds
    ensures forall i :: from <= i < |chain| && (r.None? || i < r.value) ==> cls !in chain[i].kinds
    decreases |chain| - from
  {
    if from == |chain| then None
    else if cls in chain[from].kinds then Some(from)
    else FirstMatch(chain, cls, from + 1)
  }

  /** What `raise(cls)` does, stated over the chain. */
  function RaiseOf<T>(es: ExceptionSafe<T>, cls: string): Raised<T>
  {
    match es
    case Value(_) => Continue(es)
    case Error(f) =>
      var m := FirstMatch(f.Chain(), cls, 0);
      if m.Some? then Thrown(Failure(f.Chain()[m.value], f.Chain()[m.value + 1..])) else Continue(es)
  }

  /**
   * `raise`: a value is passed on; an error walks its cause chain from the
   * exception itself and throws the first throwable that is an instance of
   * the class, or passes itself on when there is none.
   */
  method Raise<T>(es: ExceptionSafe<T>, cls: string) returns (r: Raised<T>)
    ensures r == RaiseOf(es, cls)
  {
    if es.Value? {
      return Continue(es);
    }
    var chain := es.ex.Chain();
    var t := 0;
    while t < |chain|
      invariant 0 <= t <= |chain|
      invariant FirstMatch(chain, cls, 0) == FirstMatch(chain, cls, t)
    {
      if cls in chain[t].kinds {
        return Thrown(Failure(chain[t], chain[t + 1..]));
      }
      t := t + 1;
    }
    return Continue(es);
  }

  /** `raise` throws exactly when something on the chain is an instance of the class, and then the nearest such throwable with its own causes. */
  lemma RaiseThrowsNearest<T>(f: Failure, cls: string)
    ensures RaiseOf(ExceptionSafe<T>.Error(f), cls).Thrown? <==> exists i :: 0 <= i < |f.Chain()| && cls in f.Chain()[i].kinds
    ensures RaiseOf(ExceptionSafe<T>.Error(f), cls).Thrown? ==>
      exists i :: 0 <= i < |f.Chain()| && cls in f.Chain()[i].kinds
        && RaiseOf(ExceptionSafe<T>.Error(f), cls).thrown == Failure(f.Chain()[i], f.Chain()[i + 1..])
        && forall j :: 0 <= j < i ==> cls !in f.Chain()[j].kinds
    ensures RaiseOf(ExceptionSafe<T>.Error(f), cls).Continue? ==> RaiseOf(ExceptionSafe<T>.Error(f), cls).self == Error(f)
  {
  }

  /** A value passes every `raise` unchanged. */
  lemma RaiseValueIdentity<T>(v: T, cls: string)
    ensures RaiseOf(Value(v), cls) == Continue(Value(v))
  {
  }

  /** A chain of `raise` calls, in call order. */
  function RaiseAll<T>(es: ExceptionSafe<T>, classes: seq<string>): Raised<T>
  {
    if classes == [] then Continue(es)
    else
      match RaiseOf(es, classes[0])
      case Thrown(f) => Thrown(f)
      case Continue(next) => RaiseAll(next, classes[1..])
  }

  /** A value passes a whole chain of `raise` calls unchanged. */
  lemma {:induction false} RaiseAllValue<T>(v: T, classes: seq<string>)
    ensures RaiseAll(Value(v), classes) == Continue(Value(v))
  {
    if classes != [] {
      RaiseAllValue(v, classes[1..]);
    }
  }

  /** An exception without causes is either thrown as it is or passed on by a chain of `raise` calls. */
  lemma {:induction false} RaiseAllDirect<T>(t: Throwable, classes: seq<string>)
    ensures var r := RaiseAll(ExceptionSafe<T>.Error(Failure(t, [])), classes);
      r == Thrown(Failure(t, [])) || r == Continue(Error(Failure(t, [])))
  {
    if classes != [] {
      var f := Failure(t, []);
      assert f.Chain() == [t] && [t][1..] == [];
      RaiseAllDirect<T>(t, classes[1..]);
    }
  }

  /**
   * In a chain of `raise` calls the first class, in call order, that
   * matches anything on the cause chain decides what is thrown; when none
   * matches the error is passed on.
   */
  lemma {:induction false} RaiseAllFirstClass<T>(f: Failure, classes: seq<string>)
    ensures (forall k :: 0 <= k < |classes| ==> FirstMatch(f.Chain(), classes[k], 0).None?) ==>
      RaiseAll(ExceptionSafe<T>.Error(f), classes) == Continue(Error(f))
    ensures forall k :: (0 <= k < |classes| && FirstMatch(f.Chain(), classes[k], 0).Some?
      && (forall l :: 0 <= l < k ==> FirstMatch(f.Chain(), classes[l], 0).None?)) ==>
      RaiseAll(ExceptionSafe<T>.Error(f), classes) == RaiseOf(ExceptionSafe<T>.Error(f), classes[k])
  {
    if classes != [] {
      RaiseAllFirstClass<T>(f, classes[1..]);
      if FirstMatch(f.Chain(), classes[0], 0).None? {
        forall k | 1 <= k < |classes| ensures classes[k] == classes[1..][k - 1] {
        }
      }
    }
  }

  /** `new RuntimeException(cause)`: a fresh RuntimeException whose causes are the wrapped exception's whole chain. */
  function WrapInRuntime(f: Failure): (r: Failure)
    ensures RuntimeExceptionClass in r.top.kinds && r.causes == f.Chain()
  {
    Failure(Throwable({RuntimeExceptionClass, "Exception", "Throwable"}, None), f.Chain())
  }

  /** `get`: the value; a RuntimeException rethrown as it is; any other exception wrapped in a new RuntimeException. */
  function Get<T>(es: ExceptionSafe<T>): (r: Got<T>)
    ensures es.Value? ==> r == Got(es.value)
    ensures es.Error? ==> r.ThrowsRuntime? && RuntimeExceptionClass in r.thrown.top.kinds
    ensures es.Error? && RuntimeExceptionClass in es.ex.top.kinds ==> r.thrown == es.ex
    ensures es.Error? && RuntimeExceptionClass !in es.ex.top.kinds ==> r.thrown.causes == es.ex.Chain()
  {
    match es
    case Value(v) => Got(v)
    case Error(f) =>
      if RuntimeExceptionClass in f.top.kinds then ThrowsRuntime(f) else ThrowsRuntime(WrapInRuntime(f))
  }

  /**
   * Wrapping then getting returns the producer's value, or throws its
   * exception: a RuntimeException itself, a checked exception wrapped in a
   * new RuntimeException; an `Error` never reaches `get`.
   */
  lemma WrapGetRoundTrip<T>(exec: Execution<T>)
    ensures exec.Returns? ==> Wrap(exec).Returns? && Get(Wrap(exec).result) == Got(exec.result)
    ensures exec.Throws? && IsException(exec.failure) ==>
      && Wrap(exec).Returns?
      && Get(Wrap(exec).result).ThrowsRuntime?
      && (RuntimeExceptionClass in exec.failure.top.kinds ==> Get(Wrap(exec).result).thrown == exec.failure)
      && (RuntimeExceptionClass !in exec.failure.top.kinds ==> Get(Wrap(exec).result).thrown.causes == exec.failure.Chain())
    ensures exec.Throws? && !IsException(exec.failure) ==> Wrap(exec) == Throws(exec.failure)
  {
  }
}
