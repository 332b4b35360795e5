/**
 * A pool of reusable objects that leases one object to a scope at a time:
 * the object goes back to the pool when the scope is done with it, or is
 * invalidated when the scope reports it broken. The `call` operations
 * propagate failures as unchecked exceptions; the `exec` operations hand
 * them back in an exception result.
 *
 * Pooled objects are known by the number of their creation. The idle
 * objects form a stack (the pool's default last-in first-out order). A
 * scope is a function from the leased object to what the scope does with
 * it; what the pool's supplier would do when asked for a new object is a
 * parameter. `voidCall` and `voidExec` are `valueCall` and `valueExec` at
 * the unit result type.
 */
module QuickPooling {
  import opened Wrappers
  import opened ExceptionSafety

  const BadObjectClass := "BadObjectException"

  /** Caught by `catch (BadObjectException ex)`: the scope reports its object broken. */
  predicate IsBad(f: Failure)
  {
    BadObjectClass in f.top.kinds
  }

  /** The class hierarchy the kinds of a throwable follow: `BadObjectException` is a `RuntimeException`, which is an `Exception`. */
  predicate Coherent(f: Failure)
  {
    && (BadObjectClass in f.top.kinds ==> RuntimeExceptionClass in f.top.kinds)
    && (RuntimeExceptionClass in f.top.kinds ==> ExceptionClass in f.top.kinds)
  }

  /** What the pool is asked to do with an object. */
  datatype PoolCall = Borrowed(id: nat) | Returned(id: nat) | Invalidated(id: nat)

  /**
   * The pool: its idle objects (the top of the stack last), the objects
   * leased out, the invalidated objects, how many objects were created,
   * and every borrow, return and invalidation so far.
   */
  datatype Pool = Pool(idle: seq<nat>, leased: set<nat>, destroyed: set<nat>, created: nat, calls: seq<PoolCall>)

  /** Every created object is in exactly one place: idle (once), leased or invalidated. */
  predicate Valid(p: Pool)
  {
    && (forall i, j :: 0 <= i < j < |p.idle| ==> p.idle[i] != p.idle[j])
    && (forall i :: 0 <= i < |p.idle| ==> p.idle[i] < p.created && p.idle[i] !in p.leased && p.idle[i] !in p.destroyed)
    && (forall t :: t in p.leased ==> t < p.created && t !in p.destroyed)
    && (forall t :: t in p.destroyed ==> t < p.created)
    && (forall t: nat :: t < p.created ==> t in p.idle || t in p.leased || t in p.destroyed)
  }

  /** An empty pool. */
  const EmptyPool := Pool([], {}, {}, 0, [])

  /** `borrowObject`: the most recently returned idle object, else a new one from the supplier, whose failure propagates. */
  function BorrowOf(p: Pool, supplied: Option<Failure>): (Pool, Execution<nat>)
  {
    if |p.idle| > 0 then
      var t := p.idle[|p.idle| - 1];
      (p.(idle := p.idle[..|p.idle| - 1], leased := p.leased + {t}, calls := p.calls + [Borrowed(t)]), Returns(t))
    else if supplied.Some? then
      (p, Throws(supplied.value))
    else
      (p.(leased := p.leased + {p.created}, created := p.created + 1, calls := p.calls + [Borrowed(p.created)]),
       Returns(p.created))
  }

  /** `returnObject`: the object is idle again, on top of the stack. */
  function ReturnOf(p: Pool, t: nat): Pool
  {
    p.(idle := p.idle + [t], leased := p.leased - {t}, calls := p.calls + [Returned(t)])
  }

  /** `invalidateObject`: the object is destroyed and never handed out again. */
  function InvalidateOf(p: Pool, t: nat): Pool
  {
    p.(leased := p.leased - {t}, destroyed := p.destroyed + {t}, calls := p.calls + [Invalidated(t)])
  }

  /**
   * The inner `try` after the scope ran: a normal return or an exception
   * gives the object back, a `BadObjectException` invalidates it, and an
   * `Error`, which no clause catches, leaves it leased.
   */
  function Release<R>(p: Pool, t: nat, outcome: Execution<R>): Pool
  {
    match outcome
    case Returns(_) => ReturnOf(p, t)
    case Throws(f) =>
      if IsBad(f) then InvalidateOf(p, t)
      else if IsException(f) then ReturnOf(p, t)
      else p
  }

  /** What a lease came to: the borrow failed, or the scope ran on an object. */
  datatype Lease<R> = NotBorrowed(failure: Failure) | Ran(id: nat, outcome: Execution<R>)

  /** The pool after a lease, and what became of it; shared by the `call` and the `exec` operations. */
  function LeaseOf<R>(p: Pool, scope: nat -> Execution<R>, supplied: Option<Failure>): (Pool, Lease<R>)
  {
    var (q, b) := BorrowOf(p, supplied);
    match b
    case Throws(f) => (q, NotBorrowed(f))
    case Returns(t) => (Release(q, t, scope(t)), Ran(t, scope(t)))
  }

  /** The outer `try` of the `call` operations: an unchecked exception or an `Error` passes, a checked one is wrapped. */
  function Propagated(f: Failure): Failure
  {
    if RuntimeExceptionClass in f.top.kinds || !IsException(f) then f else WrapInRuntime(f)
  }

  /** What `valueCall` returns or throws after a lease. */
  function CallResult<R>(l: Lease<R>): Execution<R>
  {
    match l
    case NotBorrowed(f) => Throws(Propagated(f))
    case Ran(_, Returns(v)) => Returns(v)
    case Ran(_, Throws(f)) => Throws(Propagated(f))
  }

  /** What `valueExec` returns after a lease: every exception becomes an error result; only an `Error` escapes. */
  function ExecResult<R>(l: Lease<R>): Execution<ExceptionSafe<R>>
  {
    match l
    case NotBorrowed(f) => if IsException(f) then Returns(Error(f)) else Throws(f)
    case Ran(_, Returns(v)) => Returns(Value(v))
    case Ran(_, Throws(f)) => if IsBad(f) || IsException(f) then Returns(Error(f)) else Throws(f)
  }

  /** A borrow keeps the pool consistent and hands out an object that was neither leased nor invalidated. */
  lemma BorrowValid(p: Pool, supplied: Option<Failure>)
    requires Valid(p)
    ensures Valid(BorrowOf(p, supplied).0)
    ensures BorrowOf(p, supplied).1.Returns? ==>
      var t := BorrowOf(p, supplied).1.result;
      t !in p.leased && t !in p.destroyed && BorrowOf(p, supplied).0.leased == p.leased + {t}
  {
    var (q, b) := BorrowOf(p, supplied);
    if |p.idle| > 0 {
      var t := p.idle[|p.idle| - 1];
      assert q.idle == p.idle[..|p.idle| - 1];
      forall u: nat | u < q.created
        ensures u in q.idle || u in q.leased || u in q.destroyed
      {
        if u in p.idle && u != t {
          var k :| 0 <= k < |p.idle| && p.idle[k] == u;
          assert q.idle[k] == u;
        }
      }
    }
  }

  /** Giving a leased object back keeps the pool consistent. */
  lemma ReturnValid(p: Pool, t: nat)
    requires Valid(p) && t in p.leased
    ensures Valid(ReturnOf(p, t))
  {
    var q := ReturnOf(p, t);
    forall u: nat | u < q.created
      ensures u in q.idle || u in q.leased || u in q.destroyed
    {
      if u in p.idle {
        var k :| 0 <= k < |p.idle| && p.idle[k] == u;
        assert q.idle[k] == u;
      }
    }
  }

  /** Invalidating a leased object keeps the pool consistent. */
  lemma InvalidateValid(p: Pool, t: nat)
    requires Valid(p) && t in p.leased
    ensures Valid(InvalidateOf(p, t))
  {
  }

  /**
   * The lease discipline: the pool stays consistent; a failed borrow
   * changes nothing; a successful borrow hands out an object that was never
   * invalidated and is followed by exactly one return (normal end or an
   * exception) or one invalidation (`BadObjectException`), and by neither
   * only when the scope raised an `Error`; invalidated objects stay
   * invalidated.
   */
  lemma LeaseDiscipline<R>(p: Pool, scope: nat -> Execution<R>, supplied: Option<Failure>)
    requires Valid(p)
    ensures var (q, l) := LeaseOf(p, scope, supplied);
      && Valid(q)
      && p.destroyed <= q.destroyed
      && (l.NotBorrowed? ==> q == p && |p.idle| == 0 && supplied == Some(l.failure))
      && (l.Ran? ==> l.id !in p.destroyed && l.outcome == scope(l.id))
      && (l.Ran? && l.outcome.Returns? ==>
            q.calls == p.calls + [Borrowed(l.id), Returned(l.id)] && q.leased == p.leased && q.idle[|q.idle| - 1] == l.id)
      && (l.Ran? && l.outcome.Throws? && IsBad(l.outcome.failure) ==>
            q.calls == p.calls + [Borrowed(l.id), Invalidated(l.id)] && q.leased == p.leased && l.id in q.destroyed)
      && (l.Ran? && l.outcome.Throws? && !IsBad(l.outcome.failure) && IsException(l.outcome.failure) ==>
            q.calls == p.calls + [Borrowed(l.id), Returned(l.id)] && q.leased == p.leased && q.idle[|q.idle| - 1] == l.id)
      && (l.Ran? && l.outcome.Throws? && !IsBad(l.outcome.failure) && !IsException(l.outcome.failure) ==>
            q.calls == p.calls + [Borrowed(l.id)] && q.leased == p.leased + {l.id})
  {
    LeaseValid(p, scope, supplied);
    LeaseCalls(p, scope, supplied);
  }

  /** A lease keeps the pool consistent and never brings an invalidated object back. */
  lemma LeaseValid<R>(p: Pool, scope: nat -> Execution<R>, supplied: Option<Failure>)
    requires Valid(p)
    ensures Valid(LeaseOf(p, scope, supplied).0)
    ensures p.destroyed <= LeaseOf(p, scope, supplied).0.destroyed
  {
    BorrowValid(p, supplied);
    var (q0, b) := BorrowOf(p, supplied);
    if b.Returns? {
      var t := b.result;
      var o := scope(t);
      if o.Returns? || (!IsBad(o.failure) && IsException(o.failure)) {
        ReturnValid(q0, t);
      } else if IsBad(o.failure) {
        InvalidateValid(q0, t);
      }
    }
  }

  /** What a lease asks of the pool, by how the scope ended. */
  lemma LeaseCalls<R>(p: Pool, scope: nat -> Execution<R>, supplied: Option<Failure>)
    requires Valid(p)
    ensures var (q, l) := LeaseOf(p, scope, supplied);
      && (l.NotBorrowed? ==> q == p && |p.idle| == 0 && supplied == Some(l.failure))
      && (l.Ran? ==> l.id !in p.destroyed && l.outcome == scope(l.id))
      && (l.Ran? && l.outcome.Returns? ==>
            q.calls == p.calls + [Borrowed(l.id), Returned(l.id)] && q.leased == p.leased && q.idle[|q.idle| - 1] == l.id)
      && (l.Ran? && l.outcome.Throws? && IsBad(l.outcome.failure) ==>
            q.calls == p.calls + [Borrowed(l.id), Invalidated(l.id)] && q.leased == p.leased && l.id in q.destroyed)
      && (l.Ran? && l.outcome.Throws? && !IsBad(l.outcome.failure) && IsException(l.outcome.failure) ==>
            q.calls == p.calls + [Borrowed(l.id), Returned(l.id)] && q.leased == p.leased && q.idle[|q.idle| - 1] == l.id)
      && (l.Ran? && l.outcome.Throws? && !IsBad(l.outcome.failure) && !IsException(l.outcome.failure) ==>
            q.calls == p.calls + [Borrowed(l.id)] && q.leased == p.leased + {l.id})
  {
    BorrowValid(p, supplied);
    var (q0, b) := BorrowOf(p, supplied);
    if b.Returns? {
      var t := b.result;
      assert q0.calls == p.calls + [Borrowed(t)];
      assert q0.calls + [Returned(t)] == p.calls + [Borrowed(t), Returned(t)];
      assert q0.calls + [Invalidated(t)] == p.calls + [Borrowed(t), Invalidated(t)];
    }
  }

  /** An invalidated object is never leased again, whatever runs on the pool later. */
  lemma InvalidatedNeverReused<R>(p: Pool, scope: nat -> Execution<R>, supplied: Option<Failure>, t: nat)
    requires Valid(p) && t in p.destroyed
    ensures LeaseOf(p, scope, supplied).1.Ran? ==> LeaseOf(p, scope, supplied).1.id != t
    ensures t in LeaseOf(p, scope, supplied).0.destroyed && t !in LeaseOf(p, scope, supplied).0.idle
  {
    LeaseDiscipline(p, scope, supplied);
    var q := LeaseOf(p, scope, supplied).0;
    forall k | 0 <= k < |q.idle|
      ensures q.idle[k] != t
    {
    }
  }

  /**
   * `valueExec(scope).value()` does what `valueCall(scope)` does: the same
   * pool effect, the same value, and the same exception, an unchecked one
   * as it is and a checked one wrapped; an `Error` escapes both unchanged.
   */
  lemma ExecValueIsCall<R>(l: Lease<R>)
    requires l.NotBorrowed? ==> Coherent(l.failure)
    requires l.Ran? && l.outcome.Throws? ==> Coherent(l.outcome.failure)
    ensures ExecResult(l).Returns? && ExecResult(l).result.Value? <==> CallResult(l).Returns?
    ensures CallResult(l).Returns? ==> Get(ExecResult(l).result) == Got(CallResult(l).result)
    ensures ExecResult(l).Returns? && ExecResult(l).result.Error? ==>
      CallResult(l).Throws? && Get(ExecResult(l).result) == ThrowsRuntime(CallResult(l).failure)
    ensures ExecResult(l).Throws? ==> CallResult(l) == Throws(ExecResult(l).failure)
  {
  }

  /** `valueExec` never throws an exception: a borrow failure and every exception of the scope come back as an error result. */
  lemma ExecNeverThrows<R>(l: Lease<R>)
    ensures ExecResult(l).Throws? ==> !IsException(ExecResult(l).failure)
    ensures l.NotBorrowed? && IsException(l.failure) ==> ExecResult(l) == Returns(Error(l.failure))
    ensures l.Ran? && l.outcome.Throws? && IsException(l.outcome.failure) ==> ExecResult(l) == Returns(Error(l.outcome.failure))
  {
  }

  /** The pool object: the idle stack and the leases, with the invalidated objects and the call history as ghost state. */
  class QuickPool {
    var idle: seq<nat>
    var leased: set<nat>
    var created: nat
    ghost var destroyed: set<nat>
    ghost var calls: seq<PoolCall>

    ghost function State(): Pool
      reads this
    {
      Pool(idle, leased, destroyed, created, calls)
    }

    constructor()
      ensures State() == EmptyPool
    {
      idle := [];
      leased := {};
      created := 0;
      destroyed := {};
      calls := [];
    }

    method Borrow(supplied: Option<Failure>) returns (b: Execution<nat>)
      modifies this
      ensures State() == BorrowOf(old(State()), supplied).0
      ensures b == BorrowOf(old(State()), supplied).1
    {
      if |idle| > 0 {
        var t := idle[|idle| - 1];
        idle := idle[..|idle| - 1];
        leased := leased + {t};
        calls := calls + [Borrowed(t)];
        return Returns(t);
      }
      if supplied.Some? {
        return Throws(supplied.value);
      }
      var t := created;
      created := created + 1;
      leased := leased + {t};
      calls := calls + [Borrowed(t)];
      b := Returns(t);
    }

    method ReturnObject(t: nat)
      modifies this
      ensures State() == ReturnOf(old(State()), t)
    {
      idle := idle + [t];
      leased := leased - {t};
      calls := calls + [Returned(t)];
    }

    method InvalidateObject(t: nat)
      modifies this
      ensures State() == InvalidateOf(old(State()), t)
    {
      leased := leased - {t};
      destroyed := destroyed + {t};
      calls := calls + [Invalidated(t)];
    }

    /** `valueCall`: lease an object, apply the scope, give the object back or invalidate it, and propagate any failure unchecked. */
    method ValueCall<R>(scope: nat -> Execution<R>, supplied: Option<Failure>) returns (r: Execution<R>)
      modifies this
      ensures State() == LeaseOf(old(State()), scope, supplied).0
      ensures r == CallResult(LeaseOf(old(State()), scope, supplied).1)
    {
      var b := Borrow(supplied);
      if b.Throws? {
        return Throws(Propagated(b.failure));
      }
      var t := b.result;
      var outcome := scope(t);
      match outcome {
        case Returns(v) =>
          ReturnObject(t);
          r := Returns(v);
        case Throws(f) =>
          if IsBad(f) {
            InvalidateObject(t);
          } else if IsException(f) {
            ReturnObject(t);
          }
          r := Throws(Propagated(f));
      }
    }

    /** `valueExec`: the same lease, with every exception, the borrow's included, returned as an error result. */
    method ValueExec<R>(scope: nat -> Execution<R>, supplied: Option<Failure>) returns (r: Execution<ExceptionSafe<R>>)
      modifies this
      ensures State() == LeaseOf(old(State()), scope, supplied).0
      ensures r == ExecResult(LeaseOf(old(State()), scope, supplied).1)
    {
      var b := Borrow(supplied);
      if b.Throws? {
        if IsException(b.failure) {
          return Returns(Error(b.failure));
        }
        return Throws(b.failure);
      }
      var t := b.result;
      var outcome := scope(t);
      match outcome {
        case Returns(v) =>
          ReturnObject(t);
          r := Returns(Value(v));
        case Throws(f) =>
          if IsBad(f) {
            InvalidateObject(t);
            r := Returns(Error(f));
          } else if IsException(f) {
            ReturnObject(t);
            r := Returns(Error(f));
          } else {
            r := Throws(f);
          }
      }
    }
  }

  /** `raise` on an exception result: only the carried exception itself is tested, never its causes. */
  function RaiseTop<T>(r: ExceptionSafe<T>, cls: string): Raised<T>
  {
    if r.Error? && cls in r.ex.top.kinds then Thrown(r.ex) else Continue(r)
  }

  /**
   * `raise` throws exactly when the carried exception is an instance of
   * the class, and then agrees with the cause-walking `raise`; a value
   * always passes, and `value()` returns it.
   */
  lemma RaiseTopTestsOnlyTheTop<T>(r: ExceptionSafe<T>, cls: string)
    ensures RaiseTop(r, cls).Thrown? <==> r.Error? && cls in r.ex.top.kinds
    ensures RaiseTop(r, cls).Thrown? ==> RaiseTop(r, cls).thrown == r.ex && RaiseOf(r, cls) == RaiseTop(r, cls)
    ensures RaiseTop(r, cls).Continue? ==> RaiseTop(r, cls).self == r
    ensures r.Value? ==> RaiseTop(r, cls) == Continue(r) && RaiseOf(r, cls) == Continue(r) && Get(r) == Got(r.value)
  {
  }

  /** The loop of `raiseNested` as written, after some passes: still testing a throwable, or having thrown one. */
  datatype NestedLoop = Looping(current: Throwable) | Threw(thrown: Throwable)

  /** `raiseNested` as written, after `n` passes of its loop: the tested throwable is never replaced by its cause. */
  function NestedPasses(e: Throwable, cls: string, n: nat): NestedLoop
  {
    if n == 0 then Looping(e)
    else
      match NestedPasses(e, cls, n - 1)
      case Threw(x) => Threw(x)
      case Looping(t) => if cls in t.kinds then Threw(t) else Looping(t)
  }

  /** As written, a carried exception that is not an instance of the class is tested forever: the loop neither throws nor returns. */
  lemma {:induction false} NestedAsWrittenSpins(e: Throwable, cls: string, n: nat)
    requires cls !in e.kinds
    ensures NestedPasses(e, cls, n) == Looping(e)
  {
    if n > 0 {
      NestedAsWrittenSpins(e, cls, n - 1);
    }
  }

  /** As written, a carried exception that is an instance of the class is thrown on the first pass, as the cause-walking version does. */
  lemma {:induction false} NestedAsWrittenThrowsTop(e: Throwable, cls: string, n: nat)
    requires cls in e.kinds && n >= 1
    ensures NestedPasses(e, cls, n) == Threw(e)
  {
    if n > 1 {
      NestedAsWrittenThrowsTop(e, cls, n - 1);
    }
  }

  /**
   * An unchecked wrapper around an `IOException`: `raiseNested(IOException)`
   * as written never ends, where walking the causes throws the
   * `IOException`.
   */
  lemma NestedCauseNeverReached(n: nat)
    ensures var io := Throwable({"IOException", ExceptionClass, "Throwable"}, None);
      var f := Failure(Throwable({RuntimeExceptionClass, ExceptionClass, "Throwable"}, None), [io]);
      && NestedPasses(f.top, "IOException", n) == Looping(f.top)
      && RaiseOf(ExceptionSafe<()>.Error(f), "IOException") == Thrown(Failure(io, []))
  {
    var io := Throwable({"IOException", ExceptionClass, "Throwable"}, None);
    var top := Throwable({RuntimeExceptionClass, ExceptionClass, "Throwable"}, None);
    NestedAsWrittenSpins(top, "IOException", n);
    var f := Failure(top, [io]);
    assert "IOException" !in top.kinds;
    assert FirstMatch(f.Chain(), "IOException", 1) == Some(1);
    assert f.Chain()[2..] == [];
  }
}
