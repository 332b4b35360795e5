/**
 * Points in time as `java.time.Instant` holds them (seconds since the epoch
 * and nanoseconds within the second), the order `Timestamp.before` and
 * `Instant` agree on, and the worker's own comparator `instantCmp`.
 */
module Instants {
  const IntMin := -0x8000_0000
  const IntMax := 0x7fff_ffff

  /** An instant: whole seconds since the epoch and the nanoseconds after them. */
  datatype Instant = Instant(epochSecond: int, nano: int)
  {
    predicate Valid() { 0 <= nano < 1_000_000_000 }
  }

  /** `a` lies strictly before `b`. */
  predicate Before(a: Instant, b: Instant)
  {
    a.epochSecond < b.epochSecond || (a.epochSecond == b.epochSecond && a.nano < b.nano)
  }

  /** `WorkConsolidator.truncateLongToInt`: a long clamped to the int range. */
  function TruncateLongToInt(l: int): (r: int)
    ensures IntMin <= r <= IntMax
    ensures IntMin <= l <= IntMax ==> r == l
    ensures (r < 0 <==> l < 0) && (r == 0 <==> l == 0)
    ensures l < IntMin ==> r == IntMin
    ensures l > IntMax ==> r == IntMax
  {
    if l < IntMin then IntMin
    else if l > IntMax then IntMax
    else l
  }

  /**
   * `WorkConsolidator.instantCmp`: the clamped difference of the seconds,
   * or, when the seconds agree, the difference of the nanoseconds.
   */
  function InstantCmp(a: Instant, b: Instant): int
  {
    var epochDiff := TruncateLongToInt(a.epochSecond - b.epochSecond);
    if epochDiff != 0 then epochDiff else a.nano - b.nano
  }

  /** The comparator's sign is the instants' order: negative exactly when `a` is before `b`, zero exactly when they are equal. */
  lemma InstantCmpOrder(a: Instant, b: Instant)
    requires a.Valid() && b.Valid()
    ensures InstantCmp(a, b) < 0 <==> Before(a, b)
    ensures InstantCmp(a, b) > 0 <==> Before(b, a)
    ensures InstantCmp(a, b) == 0 <==> a == b
  {
  }

  /** The comparator is antisymmetric in sign and stays within the int range. */
  lemma InstantCmpAntisymmetric(a: Instant, b: Instant)
    requires a.Valid() && b.Valid()
    ensures (InstantCmp(a, b) < 0 <==> InstantCmp(b, a) > 0) && (InstantCmp(a, b) == 0 <==> InstantCmp(b, a) == 0)
    ensures IntMin <= InstantCmp(a, b) <= IntMax
  {
  }

  /** `before` is a strict total order on valid instants. */
  lemma BeforeTotal(a: Instant, b: Instant, c: Instant)
    ensures !Before(a, a)
    ensures Before(a, b) && Before(b, c) ==> Before(a, c)
    ensures a == b || Before(a, b) || Before(b, a)
  {
  }

  /**
   * `Stream.max` with `instantCmp`: a left fold that keeps the current
   * maximum unless the next instant compares greater.
   */
  function MaxInstant(xs: seq<Instant>): (m: Instant)
    requires |xs| > 0
    decreases |xs|
  {
    if |xs| == 1 then xs[0]
    else
      var m := MaxInstant(xs[..|xs| - 1]);
      if InstantCmp(m, xs[|xs| - 1]) >= 0 then m else xs[|xs| - 1]
  }

  /** The maximum is one of the instants and none of them lies after it. */
  lemma {:induction false} MaxInstantIsMax(xs: seq<Instant>)
    requires |xs| > 0 && forall i :: 0 <= i < |xs| ==> xs[i].Valid()
    ensures MaxInstant(xs) in xs
    ensures forall i :: 0 <= i < |xs| ==> !Before(MaxInstant(xs), xs[i])
    decreases |xs|
  {
    if |xs| > 1 {
      var init := xs[..|xs| - 1];
      MaxInstantIsMax(init);
      var m := MaxInstant(init);
      InstantCmpOrder(m, xs[|xs| - 1]);
      forall i | 0 <= i < |xs| ensures !Before(MaxInstant(xs), xs[i]) {
        if i < |xs| - 1 {
          assert xs[i] == init[i];
          BeforeTotal(xs[i], m, MaxInstant(xs));
          BeforeTotal(MaxInstant(xs), xs[i], m);
        }
      }
    }
  }
}
