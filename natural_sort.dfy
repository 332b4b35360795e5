/**
 * The natural-order string comparator: every run of digits is rewritten
 * into a key in which a shorter number sorts before a longer one and
 * leading zeros are ignored; the comparator then compares those keys
 * as Java compares strings.
 */
module NaturalSorting {
  import opened Wrappers
  import opened Strings

  // ---------------------------------------------------------------------
  // Java `String.compareTo`
  // ---------------------------------------------------------------------

  /**
   * Java `a.compareTo(b)`: the difference of the first differing
   * characters, or the difference of the lengths when one is a prefix
   * of the other.
   */
  function CompareStrings(a: string, b: string): int
    decreases |a|
  {
    if a == [] || b == [] then |a| - |b|
    else if a[0] != b[0] then a[0] as int - b[0] as int
    else CompareStrings(a[1..], b[1..])
  }

  /** A string compares equal to itself and to nothing else. */
  lemma {:induction false} CompareZeroIffEqual(a: string, b: string)
    ensures CompareStrings(a, b) == 0 <==> a == b
    decreases |a|
  {
    if a != [] && b != [] && a[0] == b[0] {
      CompareZeroIffEqual(a[1..], b[1..]);
      assert a == [a[0]] + a[1..] && b == [b[0]] + b[1..];
    }
  }

  /** Swapping the operands negates the result. */
  lemma {:induction false} CompareAntisymmetric(a: string, b: string)
    ensures CompareStrings(b, a) == -CompareStrings(a, b)
    decreases |a|
  {
    if a != [] && b != [] && a[0] == b[0] {
      CompareAntisymmetric(a[1..], b[1..]);
    }
  }

  /** The order is transitive. */
  lemma {:induction false} CompareTransitive(a: string, b: string, c: string)
    requires CompareStrings(a, b) <= 0 && CompareStrings(b, c) <= 0
    ensures CompareStrings(a, c) <= 0
    decreases |a|
  {
    if a != [] && b != [] && c != [] && a[0] == b[0] && b[0] == c[0] {
      CompareTransitive(a[1..], b[1..], c[1..]);
    }
  }

  /** A common prefix does not change the comparison. */
  lemma {:induction false} CompareCommonPrefix(p: string, a: string, b: string)
    ensures CompareStrings(p + a, p + b) == CompareStrings(a, b)
    decreases |p|
  {
    if p != [] {
      var pa, pb := p + a, p + b;
      assert pa != [] && pb != [] && pa[0] == p[0] == pb[0];
      assert pa[1..] == p[1..] + a && pb[1..] == p[1..] + b;
      CompareCommonPrefix(p[1..], a, b);
      assert CompareStrings(pa, pb) == CompareStrings(pa[1..], pb[1..]);
    } else {
      assert p + a == a && p + b == b;
    }
  }

  /** The first `k` characters agree and the next ones differ: they decide. */
  lemma {:induction false} CompareFirstDifference(a: string, b: string, k: nat)
    requires k < |a| && k < |b| && a[..k] == b[..k] && a[k] != b[k]
    ensures CompareStrings(a, b) == a[k] as int - b[k] as int
    decreases k
  {
    if k > 0 {
      assert a[1..][..k - 1] == a[..k][1..] && b[1..][..k - 1] == b[..k][1..];
      assert a[0] == a[..k][0] && b[0] == b[..k][0];
      CompareFirstDifference(a[1..], b[1..], k - 1);
    }
  }

  /** A proper prefix sorts first. */
  lemma {:induction false} ComparePrefixFirst(a: string, rest: string)
    requires rest != []
    ensures CompareStrings(a, a + rest) < 0
    decreases |a|
  {
    if a != [] {
      assert (a + rest)[1..] == a[1..] + rest;
      ComparePrefixFirst(a[1..], rest);
    }
  }

  // ---------------------------------------------------------------------
  // The digit-run pattern 0*(0|[1-9]\d*)((?:\.\d+)*)
  // ---------------------------------------------------------------------

  /** The end of the run of digits that starts at `i`. */
  function DigitRunEnd(s: string, i: nat): (j: nat)
    requires i <= |s|
    ensures i <= j <= |s| && (j == |s| || !IsDigit(s[j]))
    ensures forall k :: i <= k < j ==> IsDigit(s[k])
    decreases |s| - i
  {
    if i < |s| && IsDigit(s[i]) then DigitRunEnd(s, i + 1) else i
  }

  /** The end of the greedy `(?:\.\d+)*` that starts at `j`. */
  function TailEnd(s: string, j: nat): (e: nat)
    requires j <= |s|
    ensures j <= e <= |s|
    decreases |s| - j
  {
    if j + 1 < |s| && s[j] == '.' && IsDigit(s[j + 1]) then TailEnd(s, DigitRunEnd(s, j + 1)) else j
  }

  /** The first digit at or after `i`, or `|s|` when there is none. */
  function NextDigit(s: string, i: nat): (p: nat)
    requires i <= |s|
    ensures i <= p <= |s| && (p < |s| ==> IsDigit(s[p]))
    ensures forall k :: i <= k < p ==> !IsDigit(s[k])
    decreases |s| - i
  {
    if i == |s| || IsDigit(s[i]) then i else NextDigit(s, i + 1)
  }

  /**
   * Group 1 of the pattern on a whole digit run: `0*` takes the leading
   * zeros greedily and gives one back when nothing else is left, so a run
   * of zeros yields "0".
   */
  function StripZeros(run: string): (number: string)
    ensures |number| <= |run| && number == run[|run| - |number|..]
    ensures |run| > 0 ==> |number| > 0
    ensures |number| > 1 ==> number[0] != '0'
    decreases |run|
  {
    if |run| > 1 && run[0] == '0' then StripZeros(run[1..]) else run
  }

  /** One match of the pattern: where it starts, group 1, group 2 and where it ends. */
  datatype Match = Match(start: nat, number: string, tail: string, end: nat)

  /**
   * `matcher.find()` continuing at `from`: a match can only start on a
   * digit, so it starts at the next digit and runs over the whole digit
   * run and the decimal tail after it.
   */
  function FindFrom(s: string, from: nat): (m: Option<Match>)
    requires from <= |s|
    ensures m.Some? ==> from <= m.value.start < m.value.end <= |s|
  {
    var p := NextDigit(s, from);
    if p == |s| then None
    else
      var q := DigitRunEnd(s, p);
      var e := TailEnd(s, q);
      Some(Match(p, StripZeros(s[p..q]), s[q..e], e))
  }

  /**
   * `(char)('@' + n)`: the letter that encodes the digit count. Counts
   * that would reach the surrogate block are capped (see README).
   */
  function LengthMark(n: nat): (c: char)
    ensures n < 0xD800 - 64 ==> c as int == '@' as int + n
  {
    if 64 + n < 0xD800 then (64 + n) as char else 0xD7FF as char
  }

  /** What a match is replaced by: '0', the length letter, the number, the tail. */
  function NumberKey(number: string, tail: string): string
  {
    ['0', LengthMark(|number|)] + number + tail
  }

  /** The key of `s` from position `end` on. */
  function SortKeyFrom(s: string, end: nat): string
    requires end <= |s|
    decreases |s| - end
  {
    match FindFrom(s, end)
    case None => s[end..]
    case Some(m) => s[end..m.start] + NumberKey(m.number, m.tail) + SortKeyFrom(s, m.end)
  }

  /** The sort key of a whole string. */
  function SortKey(s: string): string
  {
    SortKeyFrom(s, 0)
  }

  /** `compare(o1, o2)`: the keys compared as Java strings. */
  function NaturalCompare(a: string, b: string): int
  {
    CompareStrings(SortKey(a), SortKey(b))
  }

  /** One step of the key: the text before the next match, then its replacement. */
  lemma SortKeyFromMatch(s: string, end: nat)
    requires end <= |s| && FindFrom(s, end).Some?
    ensures var m := FindFrom(s, end).value;
      SortKeyFrom(s, end) == s[end..m.start] + NumberKey(m.number, m.tail) + SortKeyFrom(s, m.end)
  {
  }

  /** The appends of one loop step leave the key of the rest still to come. */
  lemma StepKey(key: string, end: nat, before: string)
    requires end <= |key| && FindFrom(key, end).Some?
    ensures var m := FindFrom(key, end).value;
      before + SortKeyFrom(key, end)
      == (before + key[end..m.start] + ['0'] + [LengthMark(|m.number|)] + m.number + m.tail) + SortKeyFrom(key, m.end)
  {
    SortKeyFromMatch(key, end);
    var m := FindFrom(key, end).value;
    AppendRegroup(before, key[end..m.start], m.number, m.tail, SortKeyFrom(key, m.end));
  }

  /** The appends of one loop step, regrouped as the key function groups them. */
  lemma AppendRegroup(before: string, gap: string, number: string, tail: string, rest: string)
    ensures (before + gap + ['0'] + [LengthMark(|number|)] + number + tail) + rest
      == before + (gap + NumberKey(number, tail) + rest)
  {
    assert ['0'] + [LengthMark(|number|)] == ['0', LengthMark(|number|)];
  }

  /** `sortKeyBuilder`: the loop over the matches, proved to build `SortKey`. */
  method SortKeyBuilder(key: string) returns (alphaNumKey: string)
    ensures alphaNumKey == SortKey(key)
  {
    ghost var goal := SortKey(key);
    alphaNumKey := "";
    var end := 0;
    var m := FindFrom(key, end);
    while m.Some?
      invariant end <= |key| && m == FindFrom(key, end)
      invariant alphaNumKey + SortKeyFrom(key, end) == goal
      decreases |key| - end
    {
      ghost var before := alphaNumKey;
      var start := m.value.start;
      if end != start {
        alphaNumKey := alphaNumKey + key[end..start];
      }
      assert alphaNumKey == before + key[end..start];
      var number := m.value.number;
      alphaNumKey := alphaNumKey + ['0'] + [LengthMark(|number|)] + number + m.value.tail;
      assert alphaNumKey + SortKeyFrom(key, m.value.end) == goal by {
        StepKey(key, end, before);
      }
      end := m.value.end;
      m := FindFrom(key, end);
    }
    assert SortKeyFrom(key, end) == key[end..] by {
      SortKeyFromNoMatch(key, end);
    }
    if end != |key| {
      alphaNumKey := alphaNumKey + key[end..];
    } else {
      assert alphaNumKey + key[end..] == alphaNumKey;
    }
  }

  /** With no match left, the rest of the key is the rest of the string. */
  lemma SortKeyFromNoMatch(s: string, end: nat)
    requires end <= |s| && FindFrom(s, end).None?
    ensures SortKeyFrom(s, end) == s[end..]
  {
  }

  /** The comparator object with its memo of keys. */
  class NaturalSort {
    var sortKeys: map<string, string>

    /** Every cached key is the key its string would be given afresh. */
    ghost predicate Valid()
      reads this
    {
      forall k :: k in sortKeys ==> sortKeys[k] == SortKey(k)
    }

    constructor()
      ensures Valid() && sortKeys == map[]
    {
      sortKeys := map[];
    }

    /** `sortKey`: `computeIfAbsent` on the memo; the result never depends on it. */
    method SortKeyOf(key: string) returns (r: string)
      requires Valid()
      modifies this
      ensures Valid() && r == SortKey(key)
      ensures key in old(sortKeys) ==> sortKeys == old(sortKeys)
      ensures key !in old(sortKeys) ==> sortKeys == old(sortKeys)[key := r]
    {
      if key in sortKeys {
        r := sortKeys[key];
      } else {
        r := SortKeyBuilder(key);
        sortKeys := sortKeys[key := r];
      }
    }

    /** `compare`: the same answer with or without cached keys. */
    method Compare(o1: string, o2: string) returns (c: int)
      requires Valid()
      modifies this
      ensures Valid() && c == NaturalCompare(o1, o2)
      ensures sortKeys.Keys == old(sortKeys.Keys) + {o1, o2}
    {
      var k1 := SortKeyOf(o1);
      var k2 := SortKeyOf(o2);
      c := CompareStrings(k1, k2);
    }
  }

  // ---------------------------------------------------------------------
  // What the keys promise
  // ---------------------------------------------------------------------

  /** Every string is in the same class as itself. */
  lemma NaturalCompareReflexive(a: string)
    ensures NaturalCompare(a, a) == 0
  {
    CompareZeroIffEqual(SortKey(a), SortKey(a));
  }

  /** The comparator is a total preorder: total, antisymmetric in sign and transitive. */
  lemma NaturalCompareTotalPreorder(a: string, b: string, c: string)
    ensures NaturalCompare(a, b) <= 0 || NaturalCompare(b, a) <= 0
    ensures NaturalCompare(b, a) == -NaturalCompare(a, b)
    ensures NaturalCompare(a, b) <= 0 && NaturalCompare(b, c) <= 0 ==> NaturalCompare(a, c) <= 0
  {
    CompareAntisymmetric(SortKey(a), SortKey(b));
    if NaturalCompare(a, b) <= 0 && NaturalCompare(b, c) <= 0 {
      CompareTransitive(SortKey(a), SortKey(b), SortKey(c));
    }
  }

  /** A string without digits is its own key. */
  lemma NoDigitsOwnKey(s: string)
    requires forall i :: 0 <= i < |s| ==> !IsDigit(s[i])
    ensures SortKey(s) == s
  {
    assert NextDigit(s, 0) == |s|;
  }

  /** Dropping a leading zero keeps a digit run's value. */
  lemma {:induction false} LeadingZeroValue(run: string)
    requires AllDigits(run)
    ensures AllDigits("0" + run) && DigitsValue("0" + run) == DigitsValue(run)
    decreases |run|
  {
    if run != [] {
      var init := run[..|run| - 1];
      LeadingZeroValue(init);
      assert ("0" + run)[..|run|] == "0" + init;
    }
  }

  /** Group 1 is the digit run without its leading zeros and has the same value. */
  lemma {:induction false} StripZerosValue(run: string)
    requires AllDigits(run) && |run| > 0
    ensures AllDigits(StripZeros(run)) && DigitsValue(StripZeros(run)) == DigitsValue(run)
    ensures StripZeros(run) == "0" || StripZeros(run)[0] != '0'
    decreases |run|
  {
    if |run| > 1 && run[0] == '0' {
      var t := run[1..];
      assert AllDigits(t) by {
        forall i | 0 <= i < |t| ensures IsDigit(t[i]) {
          assert t[i] == run[i + 1];
        }
      }
      StripZerosValue(t);
      LeadingZeroValue(t);
      assert run == "0" + t;
      assert StripZeros(run) == StripZeros(t);
    }
  }

  /** From `end` on there are no digits: the rest is copied as it is. */
  lemma SortKeyFromNoDigits(s: string, end: nat)
    requires end <= |s| && NextDigit(s, end) == |s|
    ensures SortKeyFrom(s, end) == s[end..]
  {
  }

  /**
   * The next digit run after `end` is s[p..q] and its decimal tail ends at
   * `e`: the text before it is copied and the run is replaced by its
   * number key.
   */
  lemma SortKeyFromNumber(s: string, end: nat, p: nat, q: nat, e: nat)
    requires end <= |s| && NextDigit(s, end) == p < |s|
    requires DigitRunEnd(s, p) == q && TailEnd(s, q) == e
    ensures SortKeyFrom(s, end) == s[end..p] + NumberKey(StripZeros(s[p..q]), s[q..e]) + SortKeyFrom(s, e)
  {
  }

  /** `NextDigit` passes over a digit-free stretch. */
  lemma {:induction false} NextDigitSkips(s: string, i: nat, p: nat)
    requires i <= p <= |s|
    requires forall k :: i <= k < p ==> !IsDigit(s[k])
    requires p == |s| || IsDigit(s[p])
    ensures NextDigit(s, i) == p
    decreases p - i
  {
    if i < p {
      NextDigitSkips(s, i + 1, p);
    }
  }

  /** `DigitRunEnd` runs to the end of a stretch of digits. */
  lemma {:induction false} DigitRunEndAt(s: string, i: nat, j: nat)
    requires i <= j <= |s|
    requires forall k :: i <= k < j ==> IsDigit(s[k])
    requires j == |s| || !IsDigit(s[j])
    ensures DigitRunEnd(s, i) == j
    decreases j - i
  {
    if i < j {
      DigitRunEndAt(s, i + 1, j);
    }
  }

  /**
   * Numbers with fewer digits sort first, whatever follows them, once the
   * text before them agrees.
   */
  lemma FewerDigitsFirst(x: string, y: string, t1: string, t2: string, r1: string, r2: string)
    requires |x| < |y| < 0xD800 - 64
    ensures CompareStrings(NumberKey(x, t1) + r1, NumberKey(y, t2) + r2) < 0
  {
    var a := NumberKey(x, t1) + r1;
    var b := NumberKey(y, t2) + r2;
    assert a[..1] == b[..1] == "0";
    CompareFirstDifference(a, b, 1);
  }

  /** A digit run's value is its first digit times 10^(n-1) plus the value of the rest. */
  lemma {:induction false} DigitsValueHead(run: string)
    requires AllDigits(run) && |run| > 0
    ensures AllDigits(run[1..])
    ensures DigitsValue(run) == (run[0] as int - '0' as int) * Pow10(|run| - 1) + DigitsValue(run[1..])
    decreases |run|
  {
    assert AllDigits(run[1..]) by {
      forall i | 0 <= i < |run| - 1 ensures IsDigit(run[1..][i]) { assert run[1..][i] == run[i + 1]; }
    }
    if |run| > 1 {
      var init := run[..|run| - 1];
      var h := run[0] as int - '0' as int;
      DigitsValueHead(init);
      assert init[1..] == run[1..][..|run| - 2];
      assert init[0] == run[0];
      calc {
        DigitsValue(run);
        10 * DigitsValue(init) + (run[|run| - 1] as int - '0' as int);
        10 * (h * Pow10(|run| - 2) + DigitsValue(init[1..])) + (run[|run| - 1] as int - '0' as int);
        { assert 10 * (h * Pow10(|run| - 2)) == h * Pow10(|run| - 1); }
        h * Pow10(|run| - 1) + DigitsValue(run[1..]);
      }
    }
  }

  /** A run of n digits that does not start with '0' is at least 10^(n-1). */
  lemma {:induction false} DigitsAtLeast(run: string)
    requires AllDigits(run) && |run| > 0 && run[0] != '0'
    ensures DigitsValue(run) >= Pow10(|run| - 1)
  {
    DigitsValueHead(run);
    DigitsBelow(run[1..]);
    var p := Pow10(|run| - 1);
    HigherHeadLarger(0, run[0] as int - '0' as int, p, p - 1, DigitsValue(run[1..]));
  }

  /**
   * Two digit runs of the same length compare as text the way their
   * values compare: the smaller value sorts first, and equal values are
   * equal texts.
   */
  lemma {:induction false} SameLengthDigitsOrder(x: string, y: string)
    requires AllDigits(x) && AllDigits(y) && |x| == |y|
    ensures CompareStrings(x, y) < 0 <==> DigitsValue(x) < DigitsValue(y)
    ensures CompareStrings(x, y) == 0 <==> DigitsValue(x) == DigitsValue(y)
    decreases |x|
  {
    if x != [] {
      DigitsValueHead(x);
      DigitsValueHead(y);
      var p := Pow10(|x| - 1);
      var hx, hy := x[0] as int - '0' as int, y[0] as int - '0' as int;
      var vx, vy := DigitsValue(x[1..]), DigitsValue(y[1..]);
      DigitsBelow(x[1..]);
      DigitsBelow(y[1..]);
      assert DigitsValue(x) == hx * p + vx && DigitsValue(y) == hy * p + vy;
      assert CompareStrings(x, y) == if hx != hy then hx - hy else CompareStrings(x[1..], y[1..]);
      if hx == hy {
        SameLengthDigitsOrder(x[1..], y[1..]);
      } else if hx < hy {
        HigherHeadLarger(hx, hy, p, vx, vy);
      } else {
        HigherHeadLarger(hy, hx, p, vy, vx);
      }
    }
  }

  /** A higher leading digit outweighs any rest below the place value. */
  lemma {:induction false} HigherHeadLarger(low: int, high: int, p: nat, restLow: nat, restHigh: nat)
    requires low < high && restLow < p
    ensures low * p + restLow < high * p + restHigh
    decreases high - low
  {
    assert high * p == (high - 1) * p + p;
    if low < high - 1 {
      HigherHeadLarger(low, high - 1, p, restLow, restHigh);
    }
  }

  /** Two texts of the same length that differ: what follows them does not matter. */
  lemma {:induction false} SameLengthDecides(x: string, y: string, u: string, v: string)
    requires |x| == |y| && x != y
    ensures CompareStrings(x + u, y + v) == CompareStrings(x, y)
    decreases |x|
  {
    assert (x + u)[0] == x[0] && (y + v)[0] == y[0];
    if x[0] == y[0] {
      assert x == [x[0]] + x[1..] && y == [y[0]] + y[1..];
      assert (x + u)[1..] == x[1..] + u && (y + v)[1..] == y[1..] + v;
      SameLengthDecides(x[1..], y[1..], u, v);
    }
  }

  /**
   * Numbers with the same count of digits sort by value, whatever
   * follows them, once the text before them agrees.
   */
  lemma SameDigitCountByValue(x: string, y: string, t1: string, t2: string, r1: string, r2: string)
    requires AllDigits(x) && AllDigits(y) && |x| == |y| < 0xD800 - 64
    requires DigitsValue(x) < DigitsValue(y)
    ensures CompareStrings(NumberKey(x, t1) + r1, NumberKey(y, t2) + r2) < 0
  {
    var mark := ['0', LengthMark(|x|)];
    assert NumberKey(x, t1) + r1 == mark + (x + (t1 + r1));
    assert NumberKey(y, t2) + r2 == mark + (y + (t2 + r2));
    CompareCommonPrefix(mark, x + (t1 + r1), y + (t2 + r2));
    SameLengthDigitsOrder(x, y);
    SameLengthDecides(x, y, t1 + r1, t2 + r2);
  }

  /**
   * Numeric order: of two digit runs, the one of smaller value sorts
   * first whatever their leading zeros and whatever follows, and two runs
   * of equal value have the same number, so their tails decide.
   */
  lemma NumericOrder(run1: string, run2: string, t1: string, t2: string, r1: string, r2: string)
    requires AllDigits(run1) && AllDigits(run2) && |run1| > 0 && |run2| > 0
    requires |run1| < 0xD800 - 64 && |run2| < 0xD800 - 64
    ensures DigitsValue(run1) < DigitsValue(run2) ==>
      CompareStrings(NumberKey(StripZeros(run1), t1) + r1, NumberKey(StripZeros(run2), t2) + r2) < 0
    ensures DigitsValue(run1) == DigitsValue(run2) ==> StripZeros(run1) == StripZeros(run2)
  {
    var x, y := StripZeros(run1), StripZeros(run2);
    StripZerosValue(run1);
    StripZerosValue(run2);
    if |x| < |y| {
      FewerDigitsFirst(x, y, t1, t2, r1, r2);
      assert y[0] != '0';
      DigitsAtLeast(y);
      DigitsBelow(x);
      assert Pow10(|x|) <= Pow10(|y| - 1) by { Pow10Monotone(|x|, |y| - 1); }
    } else if |y| < |x| {
      assert x[0] != '0';
      DigitsAtLeast(x);
      DigitsBelow(y);
      Pow10Monotone(|y|, |x| - 1);
    } else {
      SameLengthDigitsOrder(x, y);
      CompareZeroIffEqual(x, y);
      if DigitsValue(run1) < DigitsValue(run2) {
        SameDigitCountByValue(x, y, t1, t2, r1, r2);
      }
    }
  }

  /** 10^m grows with m. */
  lemma {:induction false} Pow10Monotone(m: nat, n: nat)
    requires m <= n
    ensures Pow10(m) <= Pow10(n)
    decreases n
  {
    if m < n {
      Pow10Monotone(m, n - 1);
    }
  }

  /** The key of "1" */
  lemma KeyOfOne(s: string)
    requires s == "1"
    ensures SortKey(s) == "0A1"
  {
    SortKeyFromNumber(s, 0, 0, 1, 1);
  }

  /** The key of "004" */
  lemma KeyOfZeroZeroFour(s: string)
    requires s == "004"
    ensures SortKey(s) == "0A4"
  {
    assert DigitRunEnd(s, 3) == 3;
    assert DigitRunEnd(s, 2) == 3;
    assert DigitRunEnd(s, 1) == 3;
    assert DigitRunEnd(s, 0) == 3;
    assert s[0..3] == s;
    assert StripZeros(s[2..]) == "4";
    assert StripZeros(s[1..]) == "4" by { assert s[1..][1..] == s[2..]; }
    assert StripZeros(s) == "4" by { assert s[1..] == s[1..]; }
    SortKeyFromNumber(s, 0, 0, 3, 3);
  }

  /** The leading-zero test case: "1" sorts before "004". */
  lemma ZeroPrefixExample(x: string, y: string)
    requires x == "1" && y == "004"
    ensures NaturalCompare(x, y) < 0
  {
    KeyOfOne(x);
    KeyOfZeroZeroFour(y);
    CompareFirstDifference("0A1", "0A4", 2);
  }

  /** The key of "a8b" */
  lemma KeyOfA8B(s: string)
    requires s == "a8b"
    ensures SortKey(s) == "a" + NumberKey("8", "") + "b"
  {
    SortKeyFromNumber(s, 0, 1, 2, 2);
    SortKeyFromNoDigits(s, 2);
  }

  /** The key of "a12d" */
  lemma KeyOfA12D(s: string)
    requires s == "a12d"
    ensures SortKey(s) == "a" + NumberKey("12", "") + "d"
  {
    assert DigitRunEnd(s, 3) == 3;
    assert DigitRunEnd(s, 2) == 3;
    assert DigitRunEnd(s, 1) == 3;
    assert NextDigit(s, 1) == 1 && NextDigit(s, 0) == 1;
    assert NextDigit(s, 4) == 4 && NextDigit(s, 3) == 4;
    assert TailEnd(s, 3) == 3;
    assert s[1..3] == "12" && StripZeros("12") == "12";
    SortKeyFromNumber(s, 0, 1, 3, 3);
    SortKeyFromNoDigits(s, 3);
  }

  /** The digit-count test case: "a8b" sorts before "a12d". */
  lemma DigitCountExample(x: string, y: string)
    requires x == "a8b" && y == "a12d"
    ensures NaturalCompare(x, y) < 0
  {
    KeyOfA8B(x);
    KeyOfA12D(y);
    DigitCountKeys("a" + NumberKey("8", "") + "b", "a" + NumberKey("12", "") + "d");
  }

  /** The keys of "a8b" and "a12d" differ first at the digit count. */
  lemma DigitCountKeys(ka: string, kb: string)
    requires ka == "a" + NumberKey("8", "") + "b" && kb == "a" + NumberKey("12", "") + "d"
    ensures CompareStrings(ka, kb) < 0
  {
    assert ka == "a" + (NumberKey("8", "") + "b");
    assert kb == "a" + (NumberKey("12", "") + "d");
    CompareCommonPrefix("a", NumberKey("8", "") + "b", NumberKey("12", "") + "d");
    FewerDigitsFirst("8", "12", "", "", "b", "d");
  }

  /** The first character of a key: '0' for a leading number, the character itself otherwise. */
  lemma FirstKeyChar(s: string)
    requires |s| > 0
    ensures |SortKey(s)| > 0 && SortKey(s)[0] == (if IsDigit(s[0]) then '0' else s[0])
  {
    var p := NextDigit(s, 0);
    if p == |s| {
      SortKeyFromNoDigits(s, 0);
      assert s[0..] == s;
    } else {
      var m := FindFrom(s, 0).value;
      SortKeyFromMatch(s, 0);
      assert m.start == p;
      var rest := NumberKey(m.number, m.tail) + SortKeyFrom(s, m.end);
      assert rest[0] == '0';
      HeadOfConcat(s[0..p], rest);
      if p > 0 {
        assert s[0..p][0] == s[0];
      }
    }
  }

  /** The first character of a concatenation. */
  lemma HeadOfConcat(a: string, b: string)
    requires |b| > 0
    ensures (a + b)[0] == if |a| > 0 then a[0] else b[0]
  {
  }

  /** A string that starts with a number sorts before one that starts with a letter. */
  lemma LeadingNumberFirst(a: string, b: string)
    requires |a| > 0 && |b| > 0 && IsDigit(a[0]) && b[0] > '9'
    ensures NaturalCompare(a, b) < 0
  {
    FirstKeyChar(a);
    FirstKeyChar(b);
    CompareFirstDifference(SortKey(a), SortKey(b), 0);
  }

  /** The number-first test case: "4" sorts before "a6b2". */
  lemma NumberFirstExample()
    ensures NaturalCompare("4", "a6b2") < 0
  {
    LeadingNumberFirst("4", "a6b2");
  }

  /** Equal numbers: their decimal tails and what follows decide, as text. */
  lemma SameNumberTailsDecide(number: string, t1: string, t2: string, r1: string, r2: string)
    ensures CompareStrings(NumberKey(number, t1) + r1, NumberKey(number, t2) + r2)
      == CompareStrings(t1 + r1, t2 + r2)
  {
    var k := ['0', LengthMark(|number|)] + number;
    KeyThenRest(number, t1, r1);
    KeyThenRest(number, t2, r2);
    CompareCommonPrefix(k, t1 + r1, t2 + r2);
  }

  /** A number key followed by more text, as the shared number part and the rest. */
  lemma KeyThenRest(number: string, t: string, r: string)
    ensures NumberKey(number, t) + r == (['0', LengthMark(|number|)] + number) + (t + r)
  {
  }


  /** The key of "1.1.1" */
  lemma KeyOfOneOneOne(s: string)
    requires s == "1.1.1"
    ensures SortKey(s) == NumberKey("1", ".1.1")
  {
    assert DigitRunEnd(s, 5) == 5 && DigitRunEnd(s, 4) == 5;
    assert DigitRunEnd(s, 3) == 3 && DigitRunEnd(s, 2) == 3;
    assert DigitRunEnd(s, 1) == 1 && DigitRunEnd(s, 0) == 1;
    assert TailEnd(s, 5) == 5 && TailEnd(s, 3) == 5 && TailEnd(s, 1) == 5;
    assert NextDigit(s, 0) == 0 && NextDigit(s, 5) == 5;
    assert s[0..1] == "1" && s[1..5] == ".1.1";
    SortKeyFromNumber(s, 0, 0, 1, 5);
    SortKeyFromNoDigits(s, 5);
  }

  /** The key of "1.2" */
  lemma KeyOfOneTwo(s: string)
    requires s == "1.2"
    ensures SortKey(s) == NumberKey("1", ".2")
  {
    assert DigitRunEnd(s, 3) == 3 && DigitRunEnd(s, 2) == 3;
    assert DigitRunEnd(s, 1) == 1 && DigitRunEnd(s, 0) == 1;
    assert TailEnd(s, 3) == 3 && TailEnd(s, 1) == 3;
    assert NextDigit(s, 0) == 0 && NextDigit(s, 3) == 3;
    assert s[0..1] == "1" && s[1..3] == ".2";
    SortKeyFromNumber(s, 0, 0, 1, 3);
    SortKeyFromNoDigits(s, 3);
  }

  /** The key of "1.234" */
  lemma KeyOfOneTwoThreeFour(s: string)
    requires s == "1.234"
    ensures SortKey(s) == NumberKey("1", ".234")
  {
    assert DigitRunEnd(s, 1) == 1 && DigitRunEnd(s, 0) == 1;
    assert TailEnd(s, 1) == 5 by {
      DigitRunEndAt(s, 2, 5);
      assert TailEnd(s, 5) == 5;
    }
    assert NextDigit(s, 0) == 0 && NextDigit(s, 5) == 5;
    assert s[0..1] == "1" && s[1..5] == ".234";
    SortKeyFromNumber(s, 0, 0, 1, 5);
    SortKeyFromNoDigits(s, 5);
  }

  /** The keys of the decimal test case are in the expected order. */
  lemma DecimalKeysOrdered()
    ensures CompareStrings(NumberKey("1", ".1.1"), NumberKey("1", ".2")) < 0
    ensures CompareStrings(NumberKey("1", ".2"), NumberKey("1", ".234")) < 0
  {
    SameNumberTailsDecide("1", ".1.1", ".2", "", "");
    TailPrefixFirst("1", ".2", "34");
  }

  /** Equal numbers, and one tail extends the other: the shorter tail sorts first. */
  lemma TailPrefixFirst(number: string, tail: string, more: string)
    requires more != []
    ensures CompareStrings(NumberKey(number, tail), NumberKey(number, tail + more)) < 0
  {
    assert NumberKey(number, tail + more) == NumberKey(number, tail) + more;
    ComparePrefixFirst(NumberKey(number, tail), more);
  }

  /** The decimal test case: "1.1.1" sorts before "1.2", which sorts before "1.234". */
  lemma DecimalsExample(x: string, y: string, z: string)
    requires x == "1.1.1" && y == "1.2" && z == "1.234"
    ensures NaturalCompare(x, y) < 0 && NaturalCompare(y, z) < 0
  {
    KeyOfOneOneOne(x);
    KeyOfOneTwo(y);
    KeyOfOneTwoThreeFour(z);
    DecimalKeysOrdered();
  }
}
