/**
 * The worker's configuration: durations such as "3s" or "5 minutes", the
 * postpone range "from-to", and the settings read from the environment.
 */
module WorkerConfig {
  import opened Wrappers
  import opened Strings

  /** The exceptions configuration can fail with: an `EJBException` with its message, or a `NumberFormatException` on the given text. */
  datatype ConfigError = Ejb(message: string) | NumberFormat(input: string)

  const LongMax := 0x7fff_ffff_ffff_ffff
  const IntMin := -0x8000_0000
  const IntMax := 0x7fff_ffff

  // ---------------------------------------------------------------------
  // Durations
  // ---------------------------------------------------------------------

  /** `\s` of a Java pattern. */
  predicate IsPatternSpace(c: char)
  {
    c == ' ' || c == '\t' || c == '\n' || c == '\U{B}' || c == '\U{C}' || c == '\r'
  }

  predicate NoDigits(s: string) { forall i :: 0 <= i < |s| ==> !IsDigit(s[i]) }

  /** A run of digits as the pattern `0|[1-9]\d*` accepts it: "0" or no leading zero. */
  predicate CanonicalDigits(d: string)
  {
    d != [] && AllDigits(d) && (d[0] != '0' || |d| == 1)
  }

  /** The string matches `(0|[1-9]\d*)\s*(\D+)` as a whole: a canonical number, then at least one character and no more digits. */
  predicate MatchesMs(s: string)
  {
    exists k :: 0 < k < |s| && CanonicalDigits(s[..k]) && NoDigits(s[k..])
  }

  /** The unit group `(\D+)`: the text after the number, less the leading spaces `\s*` takes, which leaves it at least one character. */
  function UnitGroup(rest: string): (g: string)
    requires rest != []
    ensures g != [] && |g| <= |rest| && g == rest[|rest| - |g|..]
  {
    if |rest| > 1 && IsPatternSpace(rest[0]) then UnitGroup(rest[1..]) else rest
  }

  /** The three time units `ms` knows. */
  datatype Unit = Minutes | Seconds | Millis

  /** The unit words `ms` accepts, after lower-casing and trimming, with their units. */
  const UnitWords: seq<(string, Unit)> := [
    ("m", Minutes), ("min", Minutes), ("mins", Minutes), ("minute", Minutes), ("minutes", Minutes),
    ("s", Seconds), ("sec", Seconds), ("secs", Seconds), ("second", Seconds), ("seconds", Seconds),
    ("ms", Millis), ("milli", Millis), ("millis", Millis), ("millisecond", Millis), ("milliseconds", Millis)]

  /** The unit of the first entry for `word` in the table. */
  function LookupUnit(word: string, table: seq<(string, Unit)>): (u: Option<Unit>)
    ensures u.Some? <==> exists i :: 0 <= i < |table| && table[i].0 == word
    ensures u.Some? ==> exists i :: 0 <= i < |table| && table[i] == (word, u.value)
  {
    if table == [] then None
    else if table[0].0 == word then Some(table[0].1)
    else LookupUnit(word, table[1..])
  }

  function UnitOf(word: string): Option<Unit>
  {
    LookupUnit(word, UnitWords)
  }

  /** Milliseconds per unit. */
  function Factor(u: Unit): nat
  {
    match u
    case Minutes => 60000
    case Seconds => 1000
    case Millis => 1
  }

  /** `TimeUnit.toMillis`: the amount in milliseconds, saturated at the largest long. */
  function ToMillis(amount: nat, u: Unit): (ms: nat)
    requires amount <= LongMax
    ensures ms <= LongMax
    ensures ms == amount * Factor(u) || (ms == LongMax && amount * Factor(u) > LongMax)
  {
    match u
    case Minutes => if amount > LongMax / 60000 then LongMax else amount * 60000
    case Seconds => if amount > LongMax / 1000 then LongMax else amount * 1000
    case Millis => amount
  }

  /** The unit word of the text after the number: the unit group lower-cased and trimmed. */
  function UnitWord(rest: string): string
    requires rest != []
  {
    Trim(Lower(UnitGroup(rest)))
  }

  function NotOfFormat(duration: string): string
  {
    "Duration: '" + duration + "' is not of format {number}{unit}"
  }

  function UnknownUnit(duration: string): string
  {
    "Duration: '" + duration + "' with unknown unit (ms/s/m)"
  }

  /**
   * `Config.ms`: a duration "{number}{unit}" in milliseconds. The unit is
   * lower-cased and trimmed and must be a minute, second or millisecond
   * word; a number beyond a long fails to parse.
   */
  function Ms(duration: string): (r: Result<nat, ConfigError>)
    ensures r.Ok? ==> r.value <= LongMax
  {
    var d := LeadingDigits(duration);
    if !CanonicalDigits(d) || |d| == |duration| || !NoDigits(duration[|d|..]) then Err(Ejb(NotOfFormat(duration)))
    else if DigitsValue(d) > LongMax then Err(NumberFormat(d))
    else
      match UnitOf(UnitWord(duration[|d|..]))
      case None => Err(Ejb(UnknownUnit(duration)))
      case Some(u) => Ok(ToMillis(DigitsValue(d), u))
  }

  /** `ms` rejects a duration as not of format exactly when it does not match the pattern. */
  lemma MsFormatIff(duration: string)
    ensures Ms(duration) == Err(Ejb(NotOfFormat(duration))) <==> !MatchesMs(duration)
  {
    var d := LeadingDigits(duration);
    assert CanonicalDigits(d) && |d| < |duration| && NoDigits(duration[|d|..]) ==> MatchesMs(duration) by {
      if CanonicalDigits(d) && |d| < |duration| {
        assert duration[..|d|] == d;
      }
    }
    if MatchesMs(duration) {
      var k :| 0 < k < |duration| && CanonicalDigits(duration[..k]) && NoDigits(duration[k..]);
      assert !IsDigit(duration[k]) by { assert duration[k..][0] == duration[k]; }
      LeadingDigitsOfShape(duration, k);
      NotOfFormatDiffers(duration);
    }
  }

  /** The not-of-format message differs from the unknown-unit one. */
  lemma NotOfFormatDiffers(duration: string)
    ensures NotOfFormat(duration) != UnknownUnit(duration)
  {
    var i := |"Duration: '" + duration + "' "|;
    assert NotOfFormat(duration)[i] == 'i';
    assert UnknownUnit(duration)[i] == 'w';
  }

  /**
   * A canonical number followed by a unit word (with or without spaces,
   * in any case of ASCII letters) is that many minutes, seconds or
   * milliseconds in milliseconds, saturated at the largest long.
   */
  lemma MsOfNumberAndUnit(d: string, spaces: string, unit: string)
    requires CanonicalDigits(d) && DigitsValue(d) <= LongMax
    requires forall i :: 0 <= i < |spaces| ==> IsPatternSpace(spaces[i])
    requires unit != [] && NoDigits(unit) && !IsPatternSpace(unit[0])
    requires UnitOf(Trim(Lower(unit))).Some?
    ensures Ms(d + spaces + unit) == Ok(ToMillis(DigitsValue(d), UnitOf(Trim(Lower(unit))).value))
  {
    var rest := spaces + unit;
    var s := d + rest;
    assert d + spaces + unit == s;
    SpacesThenUnit(spaces, unit);
    NumberThenRest(d, rest);
    UnitGroupSkipsSpaces(spaces, unit);
    assert UnitWord(s[|d|..]) == Trim(Lower(unit));
    MsOfParts(s, d, UnitOf(Trim(Lower(unit))).value);
  }

  /** Spaces then a unit word hold no digit and do not start with one. */
  lemma SpacesThenUnit(spaces: string, unit: string)
    requires forall i :: 0 <= i < |spaces| ==> IsPatternSpace(spaces[i])
    requires unit != [] && NoDigits(unit)
    ensures NoDigits(spaces + unit)
  {
    var rest := spaces + unit;
    forall i | 0 <= i < |rest| ensures !IsDigit(rest[i]) {
      if i < |spaces| { assert IsPatternSpace(spaces[i]); } else { assert rest[i] == unit[i - |spaces|]; }
    }
  }

  /** A canonical number followed by a non-digit is the leading number. */
  lemma NumberThenRest(d: string, rest: string)
    requires CanonicalDigits(d) && rest != [] && NoDigits(rest)
    ensures LeadingDigits(d + rest) == d && (d + rest)[|d|..] == rest
  {
    var s := d + rest;
    assert s[..|d|] == d;
    assert s[|d|..] == rest;
    assert !IsDigit(s[|d|]) by { assert s[|d|] == rest[0]; }
    LeadingDigitsOfShape(s, |d|);
  }

  /** `ms` of a duration whose leading number and unit word are known. */
  lemma MsOfParts(s: string, d: string, u: Unit)
    requires LeadingDigits(s) == d && CanonicalDigits(d) && |d| < |s| && NoDigits(s[|d|..])
    requires DigitsValue(d) <= LongMax && UnitOf(UnitWord(s[|d|..])) == Some(u)
    ensures Ms(s) == Ok(ToMillis(DigitsValue(d), u))
  {
  }

  /** `\s*` takes all leading spaces when a non-space follows. */
  lemma {:induction false} UnitGroupSkipsSpaces(spaces: string, unit: string)
    requires forall i :: 0 <= i < |spaces| ==> IsPatternSpace(spaces[i])
    requires unit != [] && !IsPatternSpace(unit[0])
    ensures UnitGroup(spaces + unit) == unit
    decreases |spaces|
  {
    if spaces != [] {
      assert (spaces + unit)[1..] == spaces[1..] + unit;
      UnitGroupSkipsSpaces(spaces[1..], unit);
    }
  }

  /** A matching duration whose unit is not a known word fails with the unknown-unit message. */
  lemma MsUnknownUnit(duration: string)
    requires MatchesMs(duration)
    requires var d := LeadingDigits(duration);
      |d| < |duration| && UnitOf(UnitWord(duration[|d|..])).None? && DigitsValue(d) <= LongMax
    ensures Ms(duration) == Err(Ejb(UnknownUnit(duration)))
  {
    MsFormatIff(duration);
  }

  // ---------------------------------------------------------------------
  // Environment values
  // ---------------------------------------------------------------------

  /** `getOrFail`: the value of a required variable, or a failure naming it. */
  function GetOrFail(env: map<string, string>, name: string): (r: Result<string, ConfigError>)
    ensures name in env <==> r.Ok?
    ensures r.Ok? ==> r.value == env[name]
    ensures r.Err? ==> r.error.Ejb? && EndsWith(r.error.message, name)
  {
    if name in env then Ok(env[name]) else Err(Ejb("Missing required configuration: " + name))
  }

  function GetOrDefault(env: map<string, string>, name: string, default: string): (v: string)
    ensures name in env ==> v == env[name]
    ensures name !in env ==> v == default
  {
    if name in env then env[name] else default
  }

  /** `Integer.parseInt`: an optional sign and ASCII digits, within the int range. */
  function ParseInt(s: string): (r: Option<int>)
    ensures r.Some? ==> IntMin <= r.value <= IntMax
    ensures r.Some? && AllDigits(s) ==> r.value == DigitsValue(s)
  {
    if s == [] then None
    else
      var signed := s[0] == '-' || s[0] == '+';
      var digits := if signed then s[1..] else s;
      if digits == [] || !AllDigits(digits) then None
      else
        var v: int := if s[0] == '-' then -(DigitsValue(digits) as int) else DigitsValue(digits);
        if IntMin <= v <= IntMax then Some(v) else None
  }

  lemma LowerTrue()
    ensures Lower("true") == "true"
  {
  }

  /** `Boolean.parseBoolean`: true exactly for "true" in any case. */
  predicate ParseBoolean(s: string)
  {
    Lower(s) == "true"
  }

  /** A separator of the queue list: `[\s,]`. */
  predicate IsQueueSeparator(c: char)
  {
    IsPatternSpace(c) || c == ','
  }

  predicate IsQueueName(s: string)
  {
    s != [] && forall i :: 0 <= i < |s| ==> !IsQueueSeparator(s[i])
  }

  /** The length of the run of non-separators at the start. */
  function NameLength(s: string): (n: nat)
    ensures n <= |s|
    ensures forall i :: 0 <= i < n ==> !IsQueueSeparator(s[i])
    ensures n < |s| ==> IsQueueSeparator(s[n])
  {
    if s == [] || IsQueueSeparator(s[0]) then 0 else 1 + NameLength(s[1..])
  }

  /**
   * The queue names: `split("[\\s,]+")` with the empty pieces dropped,
   * that is the maximal runs of characters that are neither white space
   * nor commas.
   */
  function QueueNames(s: string): (names: seq<string>)
    ensures forall i :: 0 <= i < |names| ==> IsQueueName(names[i])
    decreases |s|
  {
    if s == [] then []
    else if IsQueueSeparator(s[0]) then QueueNames(s[1..])
    else var n := NameLength(s); [s[..n]] + QueueNames(s[n..])
  }

  /** Names written with commas between them are read back as they were. */
  lemma {:induction false} QueueNamesRoundTrip(names: seq<string>)
    requires forall i :: 0 <= i < |names| ==> IsQueueName(names[i])
    ensures QueueNames(Join(names, ",")) == names
  {
    if |names| == 1 {
      QueueNamesOne(names[0]);
    } else if |names| > 1 {
      QueueNamesCons(names[0], Join(names[1..], ","));
      QueueNamesRoundTrip(names[1..]);
      assert names == [names[0]] + names[1..];
    }
  }

  /** A single name is read back alone. */
  lemma QueueNamesOne(name: string)
    requires IsQueueName(name)
    ensures QueueNames(name) == [name]
  {
    assert name + "" == name;
    NameLengthOf(name, "");
    assert name[|name|..] == [];
  }

  /** A name followed by a comma is read first, then the rest. */
  lemma QueueNamesCons(name: string, rest: string)
    requires IsQueueName(name)
    ensures QueueNames(name + "," + rest) == [name] + QueueNames(rest)
  {
    var s := name + "," + rest;
    NameLengthOf(name, "," + rest);
    assert s[..|name|] == name;
    assert s[|name|..] == "," + rest;
    assert ("," + rest)[1..] == rest;
  }

  lemma {:induction false} NameLengthOf(name: string, rest: string)
    requires forall i :: 0 <= i < |name| ==> !IsQueueSeparator(name[i])
    requires rest == [] || IsQueueSeparator(rest[0])
    ensures NameLength(name + rest) == |name|
    decreases |name|
  {
    if name != [] {
      assert (name + rest)[1..] == name[1..] + rest;
      NameLengthOf(name[1..], rest);
    } else {
      assert name + rest == rest;
    }
  }

  // ---------------------------------------------------------------------
  // The postpone range
  // ---------------------------------------------------------------------

  const PostponeFormat := "JPA_POSTPONE should be 'duration-duration'"
  const PostponeOrder := "JPA_POSTPONE should be 'duration-duration' where durations is lower-higher"

  /** The postpone rule read as (from, range), or the failure `computePostponeParameters` throws. */
  function PostponeParameters(rule: string): (r: Result<(nat, nat), ConfigError>)
  {
    var parts := JavaSplit(rule, '-');
    if |parts| != 2 then Err(Ejb(PostponeFormat)) else RangeOf(Ms(parts[0]), Ms(parts[1]))
  }

  /** The (from, range) of two read durations: the first failure, or the order check. */
  function RangeOf(from: Result<nat, ConfigError>, to: Result<nat, ConfigError>): (r: Result<(nat, nat), ConfigError>)
  {
    match from
    case Err(e) => Err(e)
    case Ok(f) =>
      match to
      case Err(e) => Err(e)
      case Ok(t) => if t - f < 0 then Err(Ejb(PostponeOrder)) else Ok((f, t - f))
  }

  /**
   * A postpone rule is accepted exactly when it has two parts that are
   * both durations, the second at least the first; then the range runs
   * from the first to the second.
   */
  lemma PostponeParametersIff(rule: string)
    ensures var parts := JavaSplit(rule, '-');
      PostponeParameters(rule).Ok? <==>
        |parts| == 2 && Ms(parts[0]).Ok? && Ms(parts[1]).Ok? && Ms(parts[0]).value <= Ms(parts[1]).value
    ensures var parts := JavaSplit(rule, '-');
      PostponeParameters(rule).Ok? ==>
        PostponeParameters(rule).value == (Ms(parts[0]).value, Ms(parts[1]).value - Ms(parts[0]).value)
  {
    var parts := JavaSplit(rule, '-');
    if |parts| == 2 {
      RangeOfIff(Ms(parts[0]), Ms(parts[1]));
    }
  }

  lemma RangeOfIff(from: Result<nat, ConfigError>, to: Result<nat, ConfigError>)
    ensures RangeOf(from, to).Ok? <==> from.Ok? && to.Ok? && from.value <= to.value
    ensures RangeOf(from, to).Ok? ==> RangeOf(from, to).value == (from.value, to.value - from.value)
  {
  }

  /** The settings the configuration holds. */
  datatype Settings = Settings(
    corepoContentService: string,
    queues: seq<string>,
    queueDeduplicate: bool,
    threads: int,
    jsPoolSize: int,
    postponeFrom: int,
    postponeRange: int)

  /**
   * What `computePostponeParameters` leaves behind: the fields are
   * assigned as the rule is read, so a failure on the second duration or
   * on the order leaves the earlier assignments in place. Nothing but the
   * two postpone fields changes.
   */
  function PostponeAssign(rule: string, s: Settings): (r: (Settings, Option<ConfigError>))
    ensures r.0 == s.(postponeFrom := r.0.postponeFrom, postponeRange := r.0.postponeRange)
  {
    var parts := JavaSplit(rule, '-');
    if |parts| != 2 then (s, Some(Ejb(PostponeFormat))) else AssignRange(Ms(parts[0]), Ms(parts[1]), s)
  }

  /** The assignments of two read durations, in order. */
  function AssignRange(from: Result<nat, ConfigError>, to: Result<nat, ConfigError>, s: Settings): (r: (Settings, Option<ConfigError>))
    ensures r.0 == s.(postponeFrom := r.0.postponeFrom, postponeRange := r.0.postponeRange)
  {
    match from
    case Err(e) => (s, Some(e))
    case Ok(f) =>
      match to
      case Err(e) => (s.(postponeFrom := f), Some(e))
      case Ok(t) =>
        var s' := s.(postponeFrom := f, postponeRange := t - f);
        if t - f < 0 then (s', Some(Ejb(PostponeOrder))) else (s', None)
  }

  /** The assignment agrees with the rule's reading: it succeeds exactly when the rule is accepted, and then holds its from and range. */
  lemma PostponeAssignAgrees(rule: string, s: Settings)
    ensures var (s', error) := PostponeAssign(rule, s);
      && (error.None? <==> PostponeParameters(rule).Ok?)
      && (error.Some? ==> PostponeParameters(rule) == Err(error.value))
      && (error.None? ==> (s'.postponeFrom, s'.postponeRange) == PostponeParameters(rule).value)
  {
    var parts := JavaSplit(rule, '-');
    if |parts| == 2 {
      AssignRangeAgrees(Ms(parts[0]), Ms(parts[1]), s);
    }
  }

  lemma AssignRangeAgrees(from: Result<nat, ConfigError>, to: Result<nat, ConfigError>, s: Settings)
    ensures var (s', error) := AssignRange(from, to, s);
      && (error.None? <==> RangeOf(from, to).Ok?)
      && (error.Some? ==> RangeOf(from, to) == Err(error.value))
      && (error.None? ==> (s'.postponeFrom, s'.postponeRange) == RangeOf(from, to).value)
  {
  }

  // ---------------------------------------------------------------------
  // Reading the environment
  // ---------------------------------------------------------------------

  const CorepoUrlVar := "COREPO_CONTENT_SERVICE_URL"
  const QueuesVar := "QUEUES"
  const DeduplicateVar := "QUEUE_DEDUPLICATE"
  const ThreadsVar := "THREADS"
  const JsPoolSizeVar := "JS_POOL_SIZE"
  const PostponeVar := "JPA_POSTPONE"

  function Max(a: int, b: int): int { if a >= b then a else b }

  /**
   * What `init` leaves behind, step by step: the content-service URL and
   * the queues are required; deduplication defaults to true and the
   * thread count to 5, at least 1; the pool size is required, at least 1;
   * then the postpone rule. Each failure stops the reading and keeps the
   * fields assigned before it.
   */
  function ReadSettings(env: map<string, string>, s: Settings): (Settings, Option<ConfigError>)
  {
    match GetOrFail(env, CorepoUrlVar)
    case Err(e) => (s, Some(e))
    case Ok(url) =>
      var s1 := s.(corepoContentService := url);
      match GetOrFail(env, QueuesVar)
      case Err(e) => (s1, Some(e))
      case Ok(queues) =>
        var s2 := s1.(queues := QueueNames(queues),
                      queueDeduplicate := ParseBoolean(GetOrDefault(env, DeduplicateVar, "true")));
        var threads := GetOrDefault(env, ThreadsVar, "5");
        match ParseInt(threads)
        case None => (s2, Some(NumberFormat(threads)))
        case Some(t) =>
          var s3 := s2.(threads := Max(1, t));
          match GetOrFail(env, JsPoolSizeVar)
          case Err(e) => (s3, Some(e))
          case Ok(pool) =>
            match ParseInt(pool)
            case None => (s3, Some(NumberFormat(pool)))
            case Some(p) => (s3.(jsPoolSize := Max(1, p)), None)
  }

  /** The whole of `init`: the settings above, then the postpone rule. */
  function InitFrom(env: map<string, string>, s: Settings): (Settings, Option<ConfigError>)
  {
    var (s4, e) := ReadSettings(env, s);
    if e.Some? then (s4, e)
    else
      match GetOrFail(env, PostponeVar)
      case Err(e) => (s4, Some(e))
      case Ok(rule) => PostponeAssign(rule, s4)
  }

  /**
   * A successful reading holds the required URL, the queue names from the
   * queue list, thread and pool sizes of at least 1 and the accepted
   * postpone range.
   */
  lemma InitSettings(env: map<string, string>, s: Settings)
    requires InitFrom(env, s).1.None?
    ensures var s' := InitFrom(env, s).0;
      && CorepoUrlVar in env && QueuesVar in env && JsPoolSizeVar in env && PostponeVar in env
      && s'.corepoContentService == env[CorepoUrlVar]
      && s'.queues == QueueNames(env[QueuesVar])
      && s'.threads >= 1 && s'.jsPoolSize >= 1
      && PostponeParameters(env[PostponeVar]) == Ok((s'.postponeFrom, s'.postponeRange))
  {
    PostponeAssignAgrees(env[PostponeVar], InitFrom(env, s).0);
    var r := InitFrom(env, s);
    var s4 := r.0.(postponeFrom := s.postponeFrom, postponeRange := s.postponeRange);
    PostponeAssignAgrees(env[PostponeVar], s4);
  }

  /** Without THREADS and QUEUE_DEDUPLICATE a successful reading has 5 threads and deduplication on. */
  lemma InitDefaults(env: map<string, string>, s: Settings)
    requires ThreadsVar !in env && DeduplicateVar !in env
    requires InitFrom(env, s).1.None?
    ensures InitFrom(env, s).0.threads == 5 && InitFrom(env, s).0.queueDeduplicate
  {
    ReadDefaults(env, s);
  }

  lemma ReadDefaults(env: map<string, string>, s: Settings)
    requires ThreadsVar !in env && DeduplicateVar !in env
    requires ReadSettings(env, s).1.None?
    ensures ReadSettings(env, s).0.threads == 5 && ReadSettings(env, s).0.queueDeduplicate
  {
    assert ParseInt("5") == Some(5) by {
      assert AllDigits("5");
      assert DigitsValue("5") == 10 * DigitsValue([]) + 5 by { assert "5"[..0] == []; }
    }
    LowerTrue();
  }

  /** The first required variable that is missing is named in the failure. */
  lemma InitMissingRequired(env: map<string, string>, s: Settings)
    ensures CorepoUrlVar !in env ==> InitFrom(env, s).1 == Some(Ejb("Missing required configuration: " + CorepoUrlVar))
    ensures CorepoUrlVar in env && QueuesVar !in env ==>
      InitFrom(env, s).1 == Some(Ejb("Missing required configuration: " + QueuesVar))
    ensures var r := InitFrom(env, s);
      r.1.Some? && r.1.value.Ejb? && (CorepoUrlVar !in env || QueuesVar !in env || JsPoolSizeVar !in env || PostponeVar !in env) ==>
        (exists v :: v in [CorepoUrlVar, QueuesVar, JsPoolSizeVar, PostponeVar] && v !in env && EndsWith(r.1.value.message, v))
        || r.1.value.message in [PostponeFormat, PostponeOrder] || r.1.value.message[..11] == "Duration: '"
  {
  }

  /**
   * The configuration bean: the environment it reads and the settings
   * `init` assigns.
   */
  class Config {
    const env: map<string, string>
    var corepoContentService: string
    var queues: seq<string>
    var queueDeduplicate: bool
    var threads: int
    var jsPoolSize: int
    var postponeFrom: int
    var postponeRange: int

    function Current(): Settings
      reads this
    {
      Settings(corepoContentService, queues, queueDeduplicate, threads, jsPoolSize, postponeFrom, postponeRange)
    }

    /** A configuration over an environment, with every setting at its Java default. */
    constructor(env: map<string, string>)
      ensures this.env == env
      ensures Current() == Settings("", [], false, 0, 0, 0, 0)
    {
      this.env := env;
      corepoContentService := "";
      queues := [];
      queueDeduplicate := false;
      threads := 0;
      jsPoolSize := 0;
      postponeFrom := 0;
      postponeRange := 0;
    }

    /** `computePostponeParameters`: split the rule, assign from and range, and fail on a bad rule. */
    method ComputePostponeParameters(postponeRule: string) returns (error: Option<ConfigError>)
      modifies this`postponeFrom, this`postponeRange
      ensures (Current(), error) == PostponeAssign(postponeRule, old(Current()))
    {
      var postponeParts := JavaSplit(postponeRule, '-');
      if |postponeParts| != 2 {
        return Some(Ejb(PostponeFormat));
      }
      var from := Ms(postponeParts[0]);
      var to := Ms(postponeParts[1]);
      error := AssignDurations(from, to);
    }

    /** The assignments of `computePostponeParameters` once both durations are read. */
    method AssignDurations(from: Result<nat, ConfigError>, to: Result<nat, ConfigError>) returns (error: Option<ConfigError>)
      modifies this`postponeFrom, this`postponeRange
      ensures (Current(), error) == AssignRange(from, to, old(Current()))
    {
      if from.Err? {
        return Some(from.error);
      }
      postponeFrom := from.value;
      if to.Err? {
        return Some(to.error);
      }
      postponeRange := to.value - postponeFrom;
      if postponeRange < 0 {
        return Some(Ejb(PostponeOrder));
      }
      return None;
    }

    /** `init`: read and check every setting, in order, stopping at the first failure. */
    method Init() returns (error: Option<ConfigError>)
      modifies this`corepoContentService, this`queues, this`queueDeduplicate, this`threads, this`jsPoolSize,
               this`postponeFrom, this`postponeRange
      ensures (Current(), error) == InitFrom(env, old(Current()))
    {
      var url := GetOrFail(env, CorepoUrlVar);
      if url.Err? {
        return Some(url.error);
      }
      corepoContentService := url.value;
      var q := GetOrFail(env, QueuesVar);
      if q.Err? {
        return Some(q.error);
      }
      queues := QueueNames(q.value);
      queueDeduplicate := ParseBoolean(GetOrDefault(env, DeduplicateVar, "true"));
      var threadsText := GetOrDefault(env, ThreadsVar, "5");
      var t := ParseInt(threadsText);
      if t.None? {
        return Some(NumberFormat(threadsText));
      }
      threads := Max(1, t.value);
      var pool := GetOrFail(env, JsPoolSizeVar);
      if pool.Err? {
        return Some(pool.error);
      }
      var p := ParseInt(pool.value);
      if p.None? {
        return Some(NumberFormat(pool.value));
      }
      jsPoolSize := Max(1, p.value);
      var rule := GetOrFail(env, PostponeVar);
      if rule.Err? {
        return Some(rule.error);
      }
      error := ComputePostponeParameters(rule.value);
    }

    /**
     * `postponeDuration`: from plus the range scaled by a random factor in
     * [0, 1), truncated; it lies between from and from + range.
     */
    function PostponeDuration(random: real): (d: int)
      reads this
      requires 0.0 <= random < 1.0 && postponeRange >= 0
      ensures postponeFrom <= d <= postponeFrom + postponeRange
      ensures postponeRange > 0 ==> d < postponeFrom + postponeRange
    {
      ScaledBelow(random, postponeRange);
      postponeFrom + (random * postponeRange as real).Floor
    }
  }

  /** A factor in [0, 1) scales a range to a value in [0, range], below range when it is positive. */
  lemma ScaledBelow(random: real, range: int)
    requires 0.0 <= random < 1.0 && range >= 0
    ensures 0 <= (random * range as real).Floor <= range
    ensures range > 0 ==> (random * range as real).Floor < range
  {
    var x := random * range as real;
    var gap := (1.0 - random) * range as real;
    assert range as real - x == gap;
    ProductOfNonNegatives(random, range as real);
    ProductOfNonNegatives(1.0 - random, range as real);
  }

  /** A product of non-negative reals is non-negative, and positive when both factors are. */
  lemma ProductOfNonNegatives(a: real, b: real)
    requires 0.0 <= a && 0.0 <= b
    ensures 0.0 <= a * b
    ensures 0.0 < a && 0.0 < b ==> 0.0 < a * b
  {
  }
}
