/**
 * Work-owner scoring (SelectOwnerPriority.use.js).
 *
 * Every candidate manifestation of a work gets the score
 *   10 x age factor x edition factor x type priority + identifier bonus
 * and the candidates are ordered by descending score.
 * A JavaScript object from manifestation id to manifestation is modelled as
 * its keys in enumeration order (`ids`) together with a map (`ms`).
 */
module OwnerPriority {
  import opened Wrappers
  import opened Strings

  /** The `priorityKeys` record: identifier "id|agency", dc:date and version text (null as None). */
  datatype PriorityKeys = PriorityKeys(identifier: string, date: Option<string>, version: Option<string>)

  /** A candidate manifestation: its priority keys and its list of material type names. */
  datatype Manifestation = Manifestation(priorityKeys: PriorityKeys, types: seq<string>)

  /** No key occurs twice in `ids`. */
  predicate Distinct(ids: seq<string>)
  {
    ids == [] || (ids[0] !in ids[1..] && Distinct(ids[1..]))
  }

  /** The keys listed in `ids`. */
  function KeysOf(ids: seq<string>): set<string>
  {
    if ids == [] then {} else KeysOf(ids[..|ids| - 1]) + {ids[|ids| - 1]}
  }

  /** `ids` enumerates the keys of `m` once each. */
  predicate IsKeyOrder<V>(ids: seq<string>, m: map<string, V>)
  {
    Distinct(ids) && m.Keys == KeysOf(ids)
  }

  /** Every listed key is a key. */
  lemma {:induction false} KeysOfContains(ids: seq<string>, i: int)
    requires 0 <= i < |ids|
    ensures ids[i] in KeysOf(ids)
    decreases |ids|
  {
    if i < |ids| - 1 {
      KeysOfContains(ids[..|ids| - 1], i);
    }
  }

  /** Every key is listed at some index. */
  lemma {:induction false} KeysOfWitness(ids: seq<string>, id: string) returns (i: int)
    requires id in KeysOf(ids)
    ensures 0 <= i < |ids| && ids[i] == id
    decreases |ids|
  {
    if ids[|ids| - 1] == id {
      i := |ids| - 1;
    } else {
      i := KeysOfWitness(ids[..|ids| - 1], id);
    }
  }

  /** The keys listed by a prefix one longer. */
  lemma KeysOfStep(ids: seq<string>, n: int)
    requires 0 <= n < |ids|
    ensures KeysOf(ids[..n + 1]) == KeysOf(ids[..n]) + {ids[n]}
  {
    assert ids[..n + 1][..n] == ids[..n];
  }

  /*
   * Decay(x) stands for 1 / ln(x + e).  Floating point is not modelled; the
   * body below is a rational stand-in, and the proofs use only what the lemmas
   * DecayDecreasing and the ensures of Decay state: Decay(0) = 1, Decay is
   * positive and strictly decreasing on x >= -1 (the smallest argument the
   * scripts pass is an edition number 0 minus 1).
   */
  function Decay(x: real): (r: real)
    requires x >= -1.0
    ensures r > 0.0
    ensures x == 0.0 ==> r == 1.0
  {
    2.0 / (x + 2.0)
  }

  lemma DecayDecreasing(x: real, y: real)
    requires -1.0 <= x < y
    ensures Decay(y) < Decay(x)
  {
    var a, b := x + 2.0, y + 2.0;
    assert 2.0 / a - 2.0 / b == 2.0 * (b - a) / (a * b);
    assert a * b > 0.0;
  }

  function Min(a: real, b: real): real { if a <= b then a else b }

  function Max(a: real, b: real): real { if a >= b then a else b }

  /** JavaScript `Number.MAX_VALUE`, the start value of the minimum in getAgeValues. */
  const MaxValue: real := 1.7976931348623157e308

  // ---------------------------------------------------------------- years

  predicate IsLineTerminator(c: char)
  {
    c == '\n' || c == '\r' || c == '\U{2028}' || c == '\U{2029}'
  }

  predicate NoLineTerminator(s: string)
  {
    forall i :: 0 <= i < |s| ==> !IsLineTerminator(s[i])
  }

  /** Whole-string match of `^(\d{4})(-?\d{4})?$`. */
  predicate IsYearForm(d: string)
  {
    ((|d| == 4 || |d| == 8) && AllDigits(d)) ||
    (|d| == 9 && AllDigits(d[..4]) && d[4] == '-' && AllDigits(d[5..]))
  }

  /** `\d{3}\?{1}|\d{2}\?{2}|\d{1}\?{3}`: k digits followed by 4 - k question marks, 1 <= k <= 3. */
  predicate IsWildcardHead(h: string)
  {
    |h| == 4 && exists k :: 1 <= k <= 3 && AllDigits(h[..k]) && forall i :: k <= i < 4 ==> h[i] == '?'
  }

  /**
   * The length of `s` in UTF-16 code units, which is what a pattern
   * without the `u` flag counts: a character outside the Basic
   * Multilingual Plane is two.
   */
  function Utf16Length(s: string): (n: nat)
    ensures |s| <= n <= 2 * |s|
    ensures (forall i :: 0 <= i < |s| ==> s[i] as int < 0x10000) ==> n == |s|
  {
    if s == [] then 0 else (if s[0] as int >= 0x10000 then 2 else 1) + Utf16Length(s[1..])
  }

  /** `.{4}`: four UTF-16 code units, none of them a line terminator. */
  predicate FourUnits(t: string)
  {
    Utf16Length(t) == 4 && NoLineTerminator(t)
  }

  /**
   * Whole-string match of `^(\d{3}\?{1}|\d{2}\?{2}|\d{1}\?{3})(-?.{4})?$`:
   * the tail after the head is empty, or four code units, or '-' and
   * four code units.
   */
  predicate IsWildcardForm(d: string)
  {
    |d| >= 4 && IsWildcardHead(d[..4]) &&
    (|d| == 4 || FourUnits(d[4..]) || (d[4] == '-' && FourUnits(d[5..])))
  }

  /** JavaScript `s.replace(/c/, r)`: only the first occurrence is replaced. */
  function ReplaceFirst(s: string, c: char, r: char): (t: string)
    ensures |t| == |s|
  {
    var i := IndexOf(s, c);
    if i == -1 then s else s[i := r]
  }

  /** JavaScript `parseInt` of a string that starts with a digit: the value of the leading digit run. */
  function LeadingNumber(s: string): nat
    requires |s| > 0 && IsDigit(s[0])
  {
    DigitsValue(LeadingDigits(s))
  }

  /**
   * determineYear: a plain year (or the first year of a range) when it is at
   * least 1600; for a wildcard year such as "191?" the point a quarter into
   * the range it spans, computed from the FIRST '?' replaced by 0 and by 9;
   * None for anything else, including null and "".
   */
  function DetermineYear(date: Option<string>): (year: Option<real>)
    ensures year.Some? ==> 0.0 <= year.value < 10000.0
  {
    match date
    case None => None
    case Some(d) =>
      if d == "" then None
      else if IsYearForm(d) then
        var y := DigitsValue(d[..4]);
        FourDigitsBelow(d[..4]);
        if y >= 1600 then Some(y as real) else None
      else if IsWildcardForm(d) then
        var head := d[..4];
        var low := LeadingNumber(ReplaceFirst(head, '?', '0'));
        var high := LeadingNumber(ReplaceFirst(head, '?', '9')) + 1;
        WildcardBounds(head);
        Some(low as real + (high - low) as real * 0.25)
      else None
  }

  lemma FourDigitsBelow(s: string)
    requires |s| == 4 && AllDigits(s)
    ensures DigitsValue(s) < 10000
  {
    DigitsBelow(s);
  }

  /** The digits of a wildcard head, the leading digit run. */
  function WildcardDigits(head: string): string
  {
    LeadingDigits(head)
  }

  lemma WildcardHeadShape(head: string) returns (k: nat)
    requires IsWildcardHead(head)
    ensures 1 <= k <= 3 && LeadingDigits(head) == head[..k] && AllDigits(head[..k])
    ensures forall i :: k <= i < 4 ==> head[i] == '?'
    ensures IndexOf(head, '?') == k
  {
    k :| 1 <= k <= 3 && AllDigits(head[..k]) && forall i :: k <= i < 4 ==> head[i] == '?';
    LeadingDigitsOfShape(head, k);
    assert head[k] == '?';
    assert forall i :: 0 <= i < k ==> head[i] != '?' by {
      forall i | 0 <= i < k ensures head[i] != '?' { assert IsDigit(head[..k][i]); }
    }
    IndexOfFirst(head, '?', k);
  }

  /** Replacing the first '?' of a wildcard head by the digit `d` makes parseInt read `10 * digits + d`. */
  lemma WildcardBound(head: string, d: char)
    requires IsWildcardHead(head) && IsDigit(d)
    ensures |ReplaceFirst(head, '?', d)| > 0 && IsDigit(ReplaceFirst(head, '?', d)[0])
    ensures LeadingNumber(ReplaceFirst(head, '?', d)) == 10 * DigitsValue(LeadingDigits(head)) + (d as int - '0' as int)
  {
    var k := WildcardHeadShape(head);
    var r := head[k := d];
    assert ReplaceFirst(head, '?', d) == r;
    assert r[..k + 1] == head[..k] + [d];
    DigitsValueAppend(head[..k], d);
    if k + 1 < 4 {
      assert r[k + 1] == '?';
      LeadingDigitsOfShape(r, k + 1);
    } else {
      assert r[..k + 1] == r;
      AllDigitsLeading(r);
    }
  }

  /** The replacement by 0 and by 9 reads `10 * digits` and `10 * digits + 9`. */
  lemma WildcardBounds(head: string)
    requires IsWildcardHead(head)
    ensures |ReplaceFirst(head, '?', '0')| > 0 && IsDigit(ReplaceFirst(head, '?', '0')[0])
    ensures |ReplaceFirst(head, '?', '9')| > 0 && IsDigit(ReplaceFirst(head, '?', '9')[0])
    ensures LeadingNumber(ReplaceFirst(head, '?', '0')) == 10 * DigitsValue(LeadingDigits(head))
    ensures LeadingNumber(ReplaceFirst(head, '?', '9')) == 10 * DigitsValue(LeadingDigits(head)) + 9
    ensures DigitsValue(LeadingDigits(head)) < 1000
  {
    var k := WildcardHeadShape(head);
    DigitsBelow(head[..k]);
    WildcardBound(head, '0');
    WildcardBound(head, '9');
  }

  lemma DigitsValue3(s: string)
    requires |s| == 3 && AllDigits(s)
    ensures DigitsValue(s) == 100 * (s[0] as int - '0' as int) + 10 * (s[1] as int - '0' as int) + (s[2] as int - '0' as int)
  {
    assert s[..2][..1] == s[..1] && s[..1][..0] == [];
    assert DigitsValue(s[..1]) == s[0] as int - '0' as int;
    assert DigitsValue(s[..2]) == 10 * DigitsValue(s[..1]) + (s[1] as int - '0' as int);
  }

  lemma DigitsValue4(s: string)
    requires |s| == 4 && AllDigits(s)
    ensures DigitsValue(s) == 1000 * (s[0] as int - '0' as int) + 100 * (s[1] as int - '0' as int) + 10 * (s[2] as int - '0' as int) + (s[3] as int - '0' as int)
  {
    DigitsValue3(s[..3]);
    assert DigitsValue(s) == 10 * DigitsValue(s[..3]) + (s[3] as int - '0' as int);
  }

  /** The two date forms never overlap, so the order of the two tests does not matter. */
  lemma YearFormsDisjoint(d: string)
    ensures !(IsYearForm(d) && IsWildcardForm(d))
  {
    if IsWildcardForm(d) {
      var k := WildcardHeadShape(d[..4]);
      assert d[3] == d[..4][3] == '?';
    }
  }

  /**
   * The wildcard branch yields 10 x (the leading digits) + 2.5: the first '?'
   * spans ten values and any further '?' stops parseInt, so "191?" gives
   * 1912.5 and "19??" gives 192.5.
   */
  lemma WildcardYear(d: string)
    requires IsWildcardForm(d)
    ensures DetermineYear(Some(d)) == Some(10.0 * DigitsValue(LeadingDigits(d[..4])) as real + 2.5)
  {
    YearFormsDisjoint(d);
    WildcardBounds(d[..4]);
  }

  /** A plain year or range gives its first four digits when they are at least 1600, otherwise None. */
  lemma PlainYear(d: string)
    requires IsYearForm(d)
    ensures DigitsValue(d[..4]) >= 1600 ==> DetermineYear(Some(d)) == Some(DigitsValue(d[..4]) as real)
    ensures DigitsValue(d[..4]) < 1600 ==> DetermineYear(Some(d)) == None
  {
  }

  lemma PlainYearExamples()
    ensures DetermineYear(Some("1915-1920")) == Some(1915.0)
    ensures DetermineYear(Some("2016")) == Some(2016.0)
    ensures DetermineYear(Some("1599")) == None
  {
    PlainYearExample("1915-1920", "1915");
    PlainYearExample("2016", "2016");
    PlainYearExample("1599", "1599");
  }

  /** A year form is read by its first four digits. */
  lemma PlainYearExample(d: string, head: string)
    requires IsYearForm(d) && d[..4] == head
    ensures DigitsValue(head) >= 1600 ==> DetermineYear(Some(d)) == Some(DigitsValue(head) as real)
    ensures DigitsValue(head) < 1600 ==> DetermineYear(Some(d)) == None
    ensures DigitsValue(head) == 1000 * (head[0] as int - '0' as int) + 100 * (head[1] as int - '0' as int) + 10 * (head[2] as int - '0' as int) + (head[3] as int - '0' as int)
  {
    DigitsValue4(head);
    PlainYear(d);
  }

  lemma WildcardDecadeExample()
    ensures DetermineYear(Some("191?")) == Some(1912.5)
  {
    WildcardExample("191?", 3);
    assert "191?"[..3] == "191";
    DigitsValue3("191");
  }

  /**
   * A wildcard year followed by two characters outside the Basic
   * Multilingual Plane: four code units, so the pattern matches and the
   * date is 1912.5.
   */
  lemma WildcardAstralTailExample()
    ensures DetermineYear(Some("191?\U{1F600}\U{1F600}")) == Some(1912.5)
  {
    var d := "191?\U{1F600}\U{1F600}";
    var t := d[4..];
    assert t == "\U{1F600}\U{1F600}";
    assert Utf16Length(t[1..]) == 2;
    assert FourUnits(t);
    assert d[..4] == "191?";
    assert IsWildcardHead(d[..4]) by {
      assert AllDigits(d[..4][..3]);
    }
    WildcardYear(d);
    LeadingDigitsOfShape("191?", 3);
    assert "191?"[..3] == "191";
    DigitsValue3("191");
  }

  lemma WildcardCenturyExample()
    ensures DetermineYear(Some("19??")) == Some(192.5)
  {
    WildcardExample("19??", 2);
    assert "19??"[..2] == "19";
    assert "19"[..1] == "1" && "1"[..0] == "";
    assert DigitsValue("19") == 19;
  }

  /** A four-character wildcard year: `k` digits, then question marks. */
  lemma WildcardExample(d: string, k: nat)
    requires |d| == 4 && 1 <= k <= 3 && AllDigits(d[..k])
    requires forall i :: k <= i < 4 ==> d[i] == '?'
    ensures DetermineYear(Some(d)) == Some(10.0 * DigitsValue(d[..k]) as real + 2.5)
  {
    assert d[..4] == d;
    assert IsWildcardHead(d);
    WildcardYear(d);
    LeadingDigitsOfShape(d, k);
  }

  lemma UndatableExample()
    ensures DetermineYear(Some("????")) == None
  {
    assert !IsYearForm("????") by { assert !IsDigit("????"[0]); }
    assert !IsWildcardHead("????"[..4]) by {
      assert "????"[..4] == "????";
      forall k | 1 <= k <= 3 ensures !AllDigits("????"[..k]) { assert !IsDigit("????"[..k][0]); }
    }
  }

  // ------------------------------------------------------ type priority

  /** TYPE_PRIORITY: the priority of a normalised material type name. */
  const TypePriority: map<string, real> := map[
    "_default_" := 0.5,
    "bog" := 5.0, "ebog" := 4.0, "lydbog" := 4.0, "serie" := 3.0, "tegneserie" := 3.0,
    "billedbog" := 2.0, "bog stor skrift" := 2.0, "tegneserie net" := 2.0,
    "dvd" := 3.5, "video" := 3.5, "film" := 3.5, "blu ray" := 3.5,
    "cd" := 2.5, "node" := 1.25, "grammofonplade" := 1.5, "musik net" := 2.5,
    "lyd" := 1.5, "baand" := 1.5, "sang" := 1.0, "lyd cd" := 1.5,
    "spil" := 2.5, "cd rom" := 2.5, "xbox" := 2.5, "playstation" := 2.5, "nintendo" := 2.5, "pc" := 2.5,
    "foto" := 2.0,
    "artikel" := 1.0, "tidsskrift" := 1.0, "netdokument" := 1.0, "tidsskriftsartikel" := 1.0,
    "avisartikel" := 1.0, "anmeldelse" := 1.0, "tidsskrift net" := 1.0, "avis" := 1.0
  ]

  /** `TYPE_PRIORITY['_default_']`. */
  const DefaultPriority: real := 0.5

  lemma DefaultPriorityInTable()
    ensures "_default_" in TypePriority && TypePriority["_default_"] == DefaultPriority
  {
  }

  /** One character of `toLowerCase().replace(/[^0-9a-z]/g, ' ')`. */
  function NormalizeChar(c: char): char
  {
    var l := LowerChar(c);
    if '0' <= l <= '9' || 'a' <= l <= 'z' then l else ' '
  }

  /**
   * What one character becomes. The pattern has no `u` flag, so it sees UTF-16 code units:
   * a character outside the Basic Multilingual Plane is two units and becomes two spaces.
   */
  function NormalizeUnits(c: char): string
  {
    if c as int >= 0x10000 then "  " else [NormalizeChar(c)]
  }

  /**
   * The normalised type name: lower case, every UTF-16 code unit outside [0-9a-z] turned
   * into a space.
   */
  function NormalizeType(name: string): (n: string)
    ensures |n| == Utf16Length(name)
  {
    NormalizeLength(name);
    Join(UnitPieces(name), "")
  }

  /** What each character of `name` becomes, in order. */
  function UnitPieces(name: string): (pieces: seq<string>)
    ensures |pieces| == |name|
  {
    seq(|name|, i requires 0 <= i < |name| => NormalizeUnits(name[i]))
  }

  lemma {:induction false} NormalizeLength(name: string)
    ensures |Join(UnitPieces(name), "")| == Utf16Length(name)
  {
    if name != [] {
      assert UnitPieces(name)[1..] == UnitPieces(name[1..]);
      JoinEmptyCons(UnitPieces(name));
      NormalizeLength(name[1..]);
    }
  }

  /** `p` is `n` itself or the part of `n` before one of its spaces. */
  predicate WordPrefix(p: string, n: string)
  {
    p <= n && (|p| == |n| || n[|p|] == ' ')
  }

  /** A word prefix of `n` that has an entry in `table`. */
  predicate KnownWordPrefix(table: map<string, real>, p: string, n: string)
  {
    WordPrefix(p, n) && p in table
  }

  /** The lookup loop of getTypePrio over `table`: look `n` up, then drop its last word until a lookup succeeds. */
  function LookupByWords(table: map<string, real>, n: string): real
    decreases |n|
  {
    if n in table then table[n]
    else
      var i := LastIndexOf(n, ' ');
      if i == -1 then DefaultPriority else LookupByWords(table, n[..i])
  }

  /** getTypePrio after normalisation. */
  function TypePrioOf(n: string): real
  {
    LookupByWords(TypePriority, n)
  }

  /** getTypePrio: normalises `name` and shortens it word by word from the right until the table knows it. */
  method GetTypePrio(name: string) returns (p: real)
    ensures p == TypePrioOf(NormalizeType(name))
  {
    var n := NormalizeType(name);
    if n in TypePriority {
      return TypePriority[n];
    }
    while true
      invariant n !in TypePriority && LookupByWords(TypePriority, n) == TypePrioOf(NormalizeType(name))
      decreases |n|
    {
      var idx := LastIndexOf(n, ' ');
      if idx == -1 {
        DefaultPriorityInTable();
        return TypePriority["_default_"];
      }
      n := n[..idx];
      if n in TypePriority {
        return TypePriority[n];
      }
    }
  }

  /** The word prefixes of `n` other than `n` are exactly the word prefixes of `n` cut at its last space. */
  lemma WordPrefixesBeforeLastSpace(n: string, i: int, p: string)
    requires i == LastIndexOf(n, ' ') && i >= 0
    ensures WordPrefix(p, n) && p != n <==> WordPrefix(p, n[..i])
  {
    if WordPrefix(p, n) && p != n {
      assert |p| < |n|;
      assert n[|p|] == ' ';
      assert |p| <= i;
      assert p <= n[..i];
    }
    if WordPrefix(p, n[..i]) {
      assert p <= n;
      assert n[|p|] == ' ' by {
        if |p| < i {
          assert n[..i][|p|] == n[|p|];
        }
      }
    }
  }

  /** The lookup finds the entry of the longest word prefix that has one. */
  lemma {:induction false} LookupFindsLongestKnownPrefix(table: map<string, real>, n: string, p: string)
    requires KnownWordPrefix(table, p, n)
    requires forall q :: KnownWordPrefix(table, q, n) ==> |q| <= |p|
    ensures LookupByWords(table, n) == table[p]
    decreases |n|
  {
    if n in table {
      assert KnownWordPrefix(table, n, n);
      assert p == n;
    } else {
      assert p != n;
      assert |p| < |n| && n[|p|] == ' ';
      var i := LastIndexOf(n, ' ');
      assert i >= 0;
      WordPrefixesBeforeLastSpace(n, i, p);
      forall q | KnownWordPrefix(table, q, n[..i]) ensures |q| <= |p| {
        WordPrefixesBeforeLastSpace(n, i, q);
        assert KnownWordPrefix(table, q, n);
      }
      LookupFindsLongestKnownPrefix(table, n[..i], p);
    }
  }

  /** Without any known word prefix the lookup falls back to the default. */
  lemma {:induction false} LookupDefaultsWithoutKnownPrefix(table: map<string, real>, n: string)
    requires forall q :: !KnownWordPrefix(table, q, n)
    ensures LookupByWords(table, n) == DefaultPriority
    decreases |n|
  {
    assert !KnownWordPrefix(table, n, n);
    var i := LastIndexOf(n, ' ');
    if i != -1 {
      forall q ensures !KnownWordPrefix(table, q, n[..i]) {
        WordPrefixesBeforeLastSpace(n, i, q);
        assert !KnownWordPrefix(table, q, n);
      }
      LookupDefaultsWithoutKnownPrefix(table, n[..i]);
    }
  }

  /** getTypePrioFromList: the largest priority of the names, never below the default. */
  function ListPrio(names: seq<string>): (p: real)
    ensures p >= DefaultPriority
  {
    if names == [] then DefaultPriority
    else Max(ListPrio(names[..|names| - 1]), TypePrioOf(NormalizeType(names[|names| - 1])))
  }

  /** The list priority is the default or the priority of one of the names, and no name has a higher one. */
  lemma {:induction false} ListPrioIsBest(names: seq<string>)
    ensures forall i :: 0 <= i < |names| ==> ListPrio(names) >= TypePrioOf(NormalizeType(names[i]))
    ensures ListPrio(names) == DefaultPriority || exists i :: 0 <= i < |names| && ListPrio(names) == TypePrioOf(NormalizeType(names[i]))
    decreases |names|
  {
    if names != [] {
      var init := names[..|names| - 1];
      ListPrioIsBest(init);
      forall i | 0 <= i < |names| - 1 ensures names[i] == init[i] { }
    }
  }

  /** getTypePrioFromList as the loop of the script. */
  method GetTypePrioFromList(names: seq<string>) returns (p: real)
    ensures p == ListPrio(names)
  {
    DefaultPriorityInTable();
    p := TypePriority["_default_"];
    var i := 0;
    while i < |names|
      invariant 0 <= i <= |names|
      invariant p == ListPrio(names[..i])
    {
      var prio := GetTypePrio(names[i]);
      assert names[..i + 1][..i] == names[..i];
      p := Max(p, prio);
      i := i + 1;
    }
    assert names[..|names|] == names;
  }

  lemma TypePrioUnknownExample()
    ensures ListPrio([]) == 0.5
    ensures ListPrio(["xxx"]) == 0.5
  {
    assert NormalizeType("xxx") == "xxx";
    assert "xxx" !in TypePriority;
    assert LastIndexOf("xxx", ' ') == -1;
    assert ["xxx"][..0] == [];
  }

  /** "lydbog cd mp3" and "lydbog cd" are not in the table; dropping words reaches "lydbog". */
  lemma TypePrioFallbackSteps()
    ensures TypePrioOf("lydbog cd mp3") == 4.0
  {
    NotInTable();
    LastIndexOfLast("lydbog cd mp3", ' ', 9);
    assert "lydbog cd mp3"[..9] == "lydbog cd";
    LastIndexOfLast("lydbog cd", ' ', 6);
    assert "lydbog cd"[..6] == "lydbog";
    KnownType("lydbog", 4.0);
  }

  lemma NotInTable()
    ensures "lydbog cd mp3" !in TypePriority && "lydbog cd" !in TypePriority
  {
  }

  lemma NormalizeLydbog()
    ensures NormalizeType("Lydbog CD MP3") == "lydbog cd mp3"
  {
    NormalizeTo("Lydbog CD MP3", "lydbog cd mp3");
  }

  /** `expected` is `name` normalised character by character, and `name` stays inside the BMP. */
  lemma NormalizeTo(name: string, expected: string)
    requires forall i :: 0 <= i < |name| ==> name[i] as int < 0x10000
    requires |expected| == |name| && forall i :: 0 <= i < |name| ==> expected[i] == NormalizeChar(name[i])
    ensures NormalizeType(name) == expected
  {
    NormalizeBmp(name);
  }

  /** Inside the Basic Multilingual Plane each character gives exactly one character. */
  lemma {:induction false} NormalizeBmp(name: string)
    requires forall i :: 0 <= i < |name| ==> name[i] as int < 0x10000
    ensures |NormalizeType(name)| == |name|
    ensures forall i :: 0 <= i < |name| ==> NormalizeType(name)[i] == NormalizeChar(name[i])
  {
    if name != [] {
      NormalizeBmp(name[1..]);
      NormalizeCons(name);
      forall i | 1 <= i < |name|
        ensures NormalizeType(name)[i] == NormalizeChar(name[i])
      {
        assert name[1..][i - 1] == name[i];
      }
    }
  }

  /** Normalisation works unit by unit, so it distributes over concatenation. */
  lemma NormalizeAppend(a: string, b: string)
    ensures NormalizeType(a + b) == NormalizeType(a) + NormalizeType(b)
  {
    assert UnitPieces(a + b) == UnitPieces(a) + UnitPieces(b);
    JoinEmptyAppend(UnitPieces(a), UnitPieces(b));
  }

  /** The first character's units come first. */
  lemma NormalizeCons(name: string)
    requires name != []
    ensures NormalizeType(name) == NormalizeUnits(name[0]) + NormalizeType(name[1..])
  {
    assert UnitPieces(name)[1..] == UnitPieces(name[1..]);
    JoinEmptyCons(UnitPieces(name));
  }

  /**
   * A character outside the Basic Multilingual Plane is two UTF-16 units and so two spaces;
   * "Bog\U{1F600}stor skrift" then falls back to the entry for "bog".
   */
  lemma AstralCharacterTwoSpaces()
    ensures NormalizeType("Bog\U{1F600}stor skrift") == "bog  stor skrift"
    ensures TypePrioOf(NormalizeType("Bog\U{1F600}stor skrift")) == 5.0
  {
    AstralNormalForm();
    TwoSpacesFallback();
  }

  lemma AstralNormalForm()
    ensures NormalizeType("Bog\U{1F600}stor skrift") == "bog  stor skrift"
  {
    assert "Bog\U{1F600}stor skrift" == "Bog" + ['\U{1F600}'] + "stor skrift";
    NormalizeAround("Bog", '\U{1F600}', "stor skrift", "bog", "stor skrift");
    assert "bog" + "  " + "stor skrift" == "bog  stor skrift";
  }

  /** One character outside the BMP between two BMP names leaves two spaces between their normal forms. */
  lemma NormalizeAround(a: string, c: char, b: string, na: string, nb: string)
    requires forall i :: 0 <= i < |a| ==> a[i] as int < 0x10000
    requires |na| == |a| && forall i :: 0 <= i < |a| ==> na[i] == NormalizeChar(a[i])
    requires c as int >= 0x10000
    requires forall i :: 0 <= i < |b| ==> b[i] as int < 0x10000
    requires |nb| == |b| && forall i :: 0 <= i < |b| ==> nb[i] == NormalizeChar(b[i])
    ensures NormalizeType(a + [c] + b) == na + "  " + nb
  {
    NormalizeAppend(a + [c], b);
    NormalizeAppend(a, [c]);
    NormalizeTo(a, na);
    NormalizeTo(b, nb);
    NormalizeCons([c]);
    assert [c][1..] == [];
  }

  lemma TwoSpacesNotInTable()
    ensures "bog  stor skrift" !in TypePriority && "bog  stor" !in TypePriority && "bog " !in TypePriority
  {
  }

  /** "bog  stor skrift" and "bog  stor" are unknown; dropping words reaches "bog " and then "bog". */
  lemma TwoSpacesFallback()
    ensures TypePrioOf("bog  stor skrift") == 5.0
  {
    var n := "bog  stor skrift";
    TwoSpacesNotInTable();
    LastIndexOfLast(n, ' ', 9);
    assert n[..9] == "bog  stor";
    LastIndexOfLast("bog  stor", ' ', 4);
    assert "bog  stor"[..4] == "bog ";
    LastIndexOfLast("bog ", ' ', 3);
    assert "bog "[..3] == "bog";
    KnownType("bog", 5.0);
  }

  lemma TypePrioFallbackExample()
    ensures ListPrio(["Lydbog CD MP3"]) == 4.0
  {
    NormalizeLydbog();
    TypePrioFallbackSteps();
    assert ["Lydbog CD MP3"][..0] == [];
  }

  /** A name written in lower-case letters only is its own normal form. */
  lemma NormalizeLowerWord(name: string)
    requires forall i :: 0 <= i < |name| ==> 'a' <= name[i] <= 'z'
    ensures NormalizeType(name) == name
  {
    NormalizeBmp(name);
  }

  /** A name the table knows gets its entry. */
  lemma KnownType(n: string, p: real)
    requires n in TypePriority && TypePriority[n] == p
    ensures TypePrioOf(n) == p
  {
  }

  /** A BMP name whose normal form the table knows gets that entry. */
  lemma NormalizedKnownType(name: string, n: string, p: real)
    requires forall i :: 0 <= i < |name| ==> name[i] as int < 0x10000
    requires |n| == |name| && forall i :: 0 <= i < |name| ==> n[i] == NormalizeChar(name[i])
    requires n in TypePriority && TypePriority[n] == p
    ensures TypePrioOf(NormalizeType(name)) == p
  {
    NormalizeTo(name, n);
    KnownType(n, p);
  }

  lemma BestOfListPriorities()
    ensures TypePrioOf(NormalizeType("tegneserie")) == 3.0
    ensures TypePrioOf(NormalizeType("Bog")) == 5.0
    ensures TypePrioOf(NormalizeType("film")) == 3.5
  {
    TypePrioTegneserie();
    TypePrioBog();
    TypePrioFilm();
  }

  lemma TypePrioTegneserie()
    ensures TypePrioOf(NormalizeType("tegneserie")) == 3.0
  {
    NormalizedKnownType("tegneserie", "tegneserie", 3.0);
  }

  lemma TypePrioBog()
    ensures TypePrioOf(NormalizeType("Bog")) == 5.0
  {
    NormalizedKnownType("Bog", "bog", 5.0);
  }

  lemma TypePrioFilm()
    ensures TypePrioOf(NormalizeType("film")) == 3.5
  {
    NormalizedKnownType("film", "film", 3.5);
  }

  /** The list takes the best of its names: "Bog" beats "tegneserie" and "film". */
  lemma TypePrioBestOfListExample()
    ensures ListPrio(["tegneserie", "Bog", "film"]) == 5.0
  {
    BestOfListPriorities();
    ListPrioOfThree("tegneserie", "Bog", "film");
  }

  /** A list of three names, unfolded. */
  lemma ListPrioOfThree(a: string, b: string, c: string)
    ensures ListPrio([a, b, c]) ==
      Max(Max(Max(DefaultPriority, TypePrioOf(NormalizeType(a))), TypePrioOf(NormalizeType(b))), TypePrioOf(NormalizeType(c)))
  {
    assert [a][..0] == [];
    assert ListPrio([a]) == Max(DefaultPriority, TypePrioOf(NormalizeType(a)));
    assert [a, b][..1] == [a];
    assert ListPrio([a, b]) == Max(ListPrio([a]), TypePrioOf(NormalizeType(b)));
    assert [a, b, c][..2] == [a, b];
  }

  // ------------------------------------------------------------ editions

  /** `^(\d+)\.? <word>` matches with its digit run ending just before index k. */
  predicate EditionMatchAt(v: string, word: string, k: int)
  {
    1 <= k <= |v| && AllDigits(v[..k]) && (StartsWith(v[k..], ". " + word) || StartsWith(v[k..], " " + word))
  }

  /** The edition number of getEditionPriorities: N for "N. udgave", N + 12 for "N. bogklubudgave", 25 otherwise and for null. */
  function EditionNumber(version: Option<string>): nat
  {
    match version
    case None => 25
    case Some(v) =>
      var k := |LeadingDigits(v)|;
      if EditionMatchAt(v, "udgave", k) then DigitsValue(v[..k])
      else if EditionMatchAt(v, "bogklubudgave", k) then DigitsValue(v[..k]) + 12
      else 25
  }

  /** The edition factor `1 / ln(edition - 1 + e)`. */
  function EditionFactor(version: Option<string>): real
  {
    Decay(EditionNumber(version) as real - 1.0)
  }

  /** A regular-expression match can only end where the leading digit run ends. */
  lemma EditionMatchOnlyAfterDigitRun(v: string, word: string, k: int)
    requires EditionMatchAt(v, word, k)
    ensures k == |LeadingDigits(v)|
  {
    assert k < |v| && (v[k] == '.' || v[k] == ' ') by { assert v[k..][0] == v[k]; }
    LeadingDigitsOfShape(v, k);
  }

  /** EditionNumber agrees with the two regular expressions of the script, tried in order. */
  lemma EditionNumberMatchesPatterns(v: string)
    ensures forall k :: EditionMatchAt(v, "udgave", k) ==> EditionNumber(Some(v)) == DigitsValue(v[..k])
    ensures forall k :: EditionMatchAt(v, "bogklubudgave", k) ==> EditionNumber(Some(v)) == DigitsValue(v[..k]) + 12
    ensures (forall k :: !EditionMatchAt(v, "udgave", k) && !EditionMatchAt(v, "bogklubudgave", k)) ==> EditionNumber(Some(v)) == 25
  {
    forall k | EditionMatchAt(v, "udgave", k) ensures EditionNumber(Some(v)) == DigitsValue(v[..k]) {
      EditionMatchOnlyAfterDigitRun(v, "udgave", k);
    }
    forall k | EditionMatchAt(v, "bogklubudgave", k) ensures EditionNumber(Some(v)) == DigitsValue(v[..k]) + 12 {
      EditionMatchOnlyAfterDigitRun(v, "bogklubudgave", k);
      BookClubIsNotPlain(v, k);
    }
  }

  /** Where "bogklubudgave" follows the number, "udgave" does not. */
  lemma BookClubIsNotPlain(v: string, k: int)
    requires EditionMatchAt(v, "bogklubudgave", k)
    ensures !EditionMatchAt(v, "udgave", k)
  {
    var r := v[k..];
    if StartsWith(r, ". bogklubudgave") {
      assert r[0] == '.' && r[2] == 'b';
    } else {
      assert r[0] == ' ' && r[1] == 'b';
    }
  }

  /** Lower edition numbers give strictly larger factors. */
  lemma EarlierEditionPreferred(a: Option<string>, b: Option<string>)
    requires EditionNumber(a) < EditionNumber(b)
    ensures EditionFactor(a) > EditionFactor(b)
  {
    DecayDecreasing(EditionNumber(a) as real - 1.0, EditionNumber(b) as real - 1.0);
  }

  /** A "N. udgave" match after the digit run gives edition N. */
  lemma PlainEdition(v: string, k: int)
    requires EditionMatchAt(v, "udgave", k)
    ensures EditionNumber(Some(v)) == DigitsValue(v[..k])
  {
    EditionMatchOnlyAfterDigitRun(v, "udgave", k);
  }

  /** A one-digit edition written "d. udgave", followed by anything, is edition d. */
  lemma OneDigitEdition(d: char, tail: string)
    requires '0' <= d <= '9'
    ensures EditionNumber(Some([d] + ". udgave" + tail)) == d as int - '0' as int
  {
    var v := [d] + ". udgave" + tail;
    assert v[..1] == [d];
    assert EditionMatchAt(v, "udgave", 1) by { assert v[1..] == ". udgave" + tail; }
    PlainEdition(v, 1);
  }

  lemma FirstEditionExample()
    ensures EditionNumber(Some("1. udgave")) == 1 && EditionFactor(Some("1. udgave")) == 1.0
  {
    assert "1. udgave" == ['1'] + ". udgave" + "";
    OneDigitEdition('1', "");
  }

  lemma SecondEditionExample()
    ensures EditionNumber(Some("2. udgave")) == 2
  {
    assert "2. udgave" == ['2'] + ". udgave" + "";
    OneDigitEdition('2', "");
  }

  lemma NumberedEditionExample()
    ensures EditionNumber(Some("3. udgave, 13. oplag (2018)")) == 3
  {
    assert "3. udgave, 13. oplag (2018)" == ['3'] + ". udgave" + ", 13. oplag (2018)";
    OneDigitEdition('3', ", 13. oplag (2018)");
  }

  lemma BookClubEditionExample()
    ensures EditionNumber(Some("1. bogklubudgave")) == 13
  {
    assert "1. bogklubudgave" == ['1'] + ". bogklubudgave";
    OneDigitBookClubEdition('1');
  }

  /** A one-digit book-club edition "d. bogklubudgave" counts as edition d + 12. */
  lemma OneDigitBookClubEdition(d: char)
    requires '0' <= d <= '9'
    ensures EditionNumber(Some([d] + ". bogklubudgave")) == d as int - '0' as int + 12
  {
    var v := [d] + ". bogklubudgave";
    assert v[..1] == [d] && AllDigits(v[..1]);
    assert DigitsValue(v[..1]) == d as int - '0' as int by { assert v[..1][..0] == []; }
    assert EditionMatchAt(v, "bogklubudgave", 1) by {
      assert v[1..] == ". bogklubudgave" == ". " + "bogklubudgave";
    }
    EditionMatchOnlyAfterDigitRun(v, "bogklubudgave", 1);
    BookClubIsNotPlain(v, 1);
  }

  /** Versions the patterns do not recognise count like a missing version. */
  lemma UnrecognisedEditionExample()
    ensures EditionNumber(Some("f\U{F8}rste udgave")) == 25 && EditionNumber(None) == 25
    ensures EditionNumber(Some("1st edition")) == 25
  {
    assert LeadingDigits("f\U{F8}rste udgave") == "";
    assert LeadingDigits("1st edition") == "1" by { LeadingDigitsOfShape("1st edition", 1); }
    assert "1st edition"[1..][0] == 's';
  }

  // ------------------------------------------------------------- id bonus

  /** The text before the first '|' of `s` (all of `s` without one). */
  function FirstField(s: string): string
  {
    var i := IndexOf(s, '|');
    if i == -1 then s else s[..i]
  }

  /** The local id of "id|agency". */
  function LocalPart(identifier: string): string
  {
    FirstField(identifier)
  }

  /** The agency of "id|agency": the second '|'-separated field, if there is one. */
  function AgencyPart(identifier: string): Option<string>
  {
    var i := IndexOf(identifier, '|');
    if i == -1 then None else Some(FirstField(identifier[i + 1..]))
  }

  /**
   * getIdBonus: the first volume of a multi-volume id ("__1" at the end of the
   * local part) gets 0, any later volume ("__" in the local part) -5, a
   * common-library record (agency 870970) +5, anything else 0. The script
   * reads the two parts as `identifier.split("|")[0]` and `[1]`; SplitHead and
   * SplitSecond show that LocalPart and AgencyPart are those two elements.
   */
  function IdBonus(identifier: string): (bonus: real)
    ensures bonus == -5.0 || bonus == 0.0 || bonus == 5.0
  {
    var local := LocalPart(identifier);
    if EndsWith(local, "__1") then 0.0
    else if Contains(local, "__") then -5.0
    else if AgencyPart(identifier) == Some("870970") then 5.0
    else 0.0
  }

  /** `split("|")[0]` is the local part. */
  lemma SplitHead(s: string)
    ensures Split(s, '|')[0] == FirstField(s)
  {
  }

  /** `split("|")` has a second element exactly when there is an agency part. */
  lemma SplitLength(s: string)
    ensures |Split(s, '|')| > 1 <==> AgencyPart(s).Some?
  {
    var i := IndexOf(s, '|');
    if i != -1 {
      SplitAtFirst(s, '|');
      assert |Split(s, '|')| == 1 + |Split(s[i + 1..], '|')|;
    }
  }

  /** `split("|")[1]` is the agency part. */
  lemma SplitSecond(s: string)
    requires |Split(s, '|')| > 1
    ensures AgencyPart(s).Some? && Split(s, '|')[1] == AgencyPart(s).value
  {
    var i := IndexOf(s, '|');
    var rest := s[i + 1..];
    SplitHead(rest);
    assert Split(s, '|')[1] == Split(rest, '|')[0];
  }

  /** The bonus cases in terms of the two fields of the identifier. */
  lemma IdBonusCases(identifier: string)
    ensures IdBonus(identifier) == 5.0 <==> !Contains(LocalPart(identifier), "__") && AgencyPart(identifier) == Some("870970")
    ensures IdBonus(identifier) == -5.0 <==> Contains(LocalPart(identifier), "__") && !EndsWith(LocalPart(identifier), "__1")
  {
    var local := LocalPart(identifier);
    if EndsWith(local, "__1") {
      assert OccursAt(local, "__", |local| - 3);
    }
  }

  /** No '|' in `s`. */
  predicate NoBar(s: string)
  {
    forall j :: 0 <= j < |s| ==> s[j] != '|'
  }

  /** The two fields of "local|agency" are read back as written. */
  lemma IdFields(local: string, agency: string)
    requires NoBar(local) && NoBar(agency)
    ensures LocalPart(local + "|" + agency) == local
    ensures AgencyPart(local + "|" + agency) == Some(agency)
  {
    var id := local + "|" + agency;
    IndexOfFirst(id, '|', |local|);
    assert id[..|local|] == local;
    assert id[|local| + 1..] == agency;
  }

  /** An id whose local part has no '_' gets +5 in the common library and nothing elsewhere. */
  lemma PlainLocalBonus(local: string, agency: string)
    requires NoBar(local) && NoBar(agency)
    requires forall j :: 0 <= j < |local| ==> local[j] != '_'
    ensures IdBonus(local + "|" + agency) == (if agency == "870970" then 5.0 else 0.0)
  {
    IdFields(local, agency);
    NotContainsWithoutFirst(local, "__");
    assert !EndsWith(local, "__1") by {
      if |local| >= 3 {
        assert local[|local| - 3..][0] == local[|local| - 3];
      }
    }
  }

  /** A common-library record whose local id has no "__" gets +5. */
  lemma CommonLibraryBonus(local: string)
    requires NoBar(local) && forall j :: 0 <= j < |local| ==> local[j] != '_'
    ensures IdBonus(local + "|870970") == 5.0
  {
    assert local + "|870970" == local + "|" + "870970";
    PlainLocalBonus(local, "870970");
  }

  /** A record of any other library without "__" gets nothing. */
  lemma OtherLibraryBonus(local: string, agency: string)
    requires NoBar(local) && NoBar(agency) && agency != "870970"
    requires forall j :: 0 <= j < |local| ==> local[j] != '_'
    ensures IdBonus(local + "|" + agency) == 0.0
  {
    PlainLocalBonus(local, agency);
  }

  /** A later volume ("__2", "__3", ...) gets -5 whatever its library. */
  lemma LaterVolumeBonus(base: string, volume: char, agency: string)
    requires NoBar(base) && NoBar(agency) && volume != '|' && volume != '1'
    ensures IdBonus(base + "__" + [volume] + "|" + agency) == -5.0
  {
    var local := base + "__" + [volume];
    assert NoBar(local) by {
      forall j | 0 <= j < |local| ensures local[j] != '|' {
        if j < |base| { assert local[j] == base[j]; }
      }
    }
    IdFields(local, agency);
    assert OccursAt(local, "__", |base|) by { assert local[|base|..|base| + 2] == "__"; }
    assert local[|local| - 1] == volume;
  }

  /** The first volume ("__1") gets nothing, even in the common library. */
  lemma FirstVolumeBonus(base: string, agency: string)
    requires NoBar(base) && NoBar(agency)
    ensures IdBonus(base + "__1|" + agency) == 0.0
  {
    var local := base + "__1";
    assert NoBar(local) by {
      forall j | 0 <= j < |local| ensures local[j] != '|' {
        if j < |base| { assert local[j] == base[j]; }
      }
    }
    assert base + "__1|" + agency == local + "|" + agency;
    IdFields(local, agency);
    assert local[|local| - 3..] == "__1";
  }
}
