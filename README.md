# Work presentation: a verified model of its decision logic

The work-presentation system builds one presentation record per library
"work" (a group of manifestations of the same title) from the corepo object
store. This project models its decision, decoding and reconciliation logic
in Dafny and proves what that logic promises:

- **Owner selection** (`owner_priority.dfy`, `owner_values.dfy`,
  `owner_selection.dfy`). The JavaScript scoring of candidate
  manifestations is modelled here. The score is 10 × age factor × edition
  factor × best type priority + id bonus. The candidate with the highest
  score becomes the work owner.
- **Natural sort** (`natural_sort.dfy`). The comparator rewrites each digit
  run into a key in which shorter numbers sort first and leading zeros are
  ignored. The keys are then compared as Java compares strings, and a memo
  caches them.
- **Typed values** (`typed_value.dfy`). `distinctSet` removes case-insensitive
  duplicates per type and prefers a spelling with capitals over an
  all-lowercase one.
- **Presentation records** (`presentation_pojo.dfy`). The manifestation and
  relation records, their projections onto the presentation fields and
  their equality. The relation equality as written is inverted (see
  Findings); the model also gives the intended equality.
- **Relation index** (`relation_index.dfy`). The relations of all units are
  de-duplicated and sorted by id, then type. Each unit gets the ascending
  positions of its relations in that list.
- **Filtering a work** (`filter_result.dfy`). The stored work is cut down to
  the manifestations the search index says are visible. Each gets the
  positions of its unit's relations. The records are ordered by id.
- **Deferred exceptions** (`exception_safe.dfy`). A computation's outcome is
  kept as a value or an exception. Calls to `raise` pick, class by class,
  which exception on the cause chain to throw, and `get` returns the value
  or throws.
- **The endpoints** (`work_presentation.dfy`). The parameter check, the
  lookup that serves a stored work or redirects a "work-of:" id, and the
  mapping of exceptions to HTTP statuses.
- **The search index** (`solr.dfy`). Relation ids are asked about in
  batches whose query stays within the size limit. A request is paged
  until every row is read. A `zk://` URL is split into hosts, chroot and
  collection.
- **Worker configuration** (`config.dfy`). A duration such as "5 minutes"
  is read as milliseconds. The postpone rule "from-to" gives a range. The
  environment is read in order and the first missing or malformed setting
  stops the reading.
- **Instants** (`instants.dfy`). The consolidator's instant comparator and
  its long-to-int clamp, and the latest instant they pick.
- **Cache builders** (`cache_builders.dfy`). The manifestation id derived
  from an object id and its local stream, and the two builders that carry
  it.
- **Entities** (`jpa_entities.dfy`). The cache, work-contains and
  work-object entities. The entity manager is a set of tables; `from`,
  `save` and `delete` read and write them. The cache entity's `save` as
  written loses the new columns of a found entry (see Findings).
- **Work tree** (`work_tree.dfy`). The units of a work, its memoised
  primary object and its persistent work id.
- **Cache updates** (`cache_update.dfy`). The three cache updaters and the
  rule they share: a deleted builder drops its entry, and a missing or
  older entry is rebuilt.
- **Consolidation** (`work_consolidator.dfy`). Assembling a work's record
  from its cached manifestations, and saving it with the latest time found
  in the tree.
- **Corepo cache** (`corepo_cache.dfy`). The per-request cache of fetched
  objects, which keeps a fetch's exception as well as its bytes.
- **XML decoders** (`element_handler.dfy`, `simple_fields.dfy`,
  `rels_sys.dfy`, `rels_ext.dfy`, `corepo_metadata.dfy`). The SAX handler
  that turns callbacks into one `element` call per element, and the
  decoders of the rels-sys, rels-ext, metadata and datastream streams.
- **Object pool** (`quick_pool.dfy`). Leasing one object to a scope at a
  time: it is returned after the scope, or invalidated when the scope
  reports it broken. `raiseNested` as written never walks the cause chain
  (see Findings).
- **Script builders** (`javascript_builder.dfy`). Set-once settings, the
  ordered search-path list, defaults filled in at build time, and the
  lookup of the script along the search paths.

Strings are `seq<char>`; scores are `real`. `wrappers.dfy` holds `Option`
and `Result`, and `strings.dfy` the string helpers (digit runs, `indexOf`,
`split`, trimming) the modules share.

## Model

| member | source | states |
|---|---|---|
| OwnerPriority.DecayDecreasing | javascript/src/main/resources/javascript/SelectOwnerPriority.use.js:254 | the decay `1/ln(x+e)` is strictly decreasing, so every later year or edition weighs strictly less |
| OwnerPriority.DetermineYear | javascript/src/main/resources/javascript/SelectOwnerPriority.use.js:193-214 | a determined year lies in [0, 10000) |
| OwnerPriority.Utf16Length | javascript/src/main/resources/javascript/SelectOwnerPriority.use.js:203 | the pattern without the `u` flag counts UTF-16 code units: a string is at least as long and at most twice as long in units as in characters, and as long when every character is in the Basic Multilingual Plane |
| OwnerPriority.WildcardAstralTailExample | javascript/src/main/resources/javascript/SelectOwnerPriority.use.js:203-208 | "191?" followed by two characters outside the Basic Multilingual Plane, four code units, is dated 1912.5 |
| OwnerPriority.PlainYear | javascript/src/main/resources/javascript/SelectOwnerPriority.use.js:196-202 | a date matching `^\d{4}(-?\d{4})?$` gives its first four digits when they are at least 1600, and null otherwise |
| OwnerPriority.WildcardYear | javascript/src/main/resources/javascript/SelectOwnerPriority.use.js:203-208 | a wildcard date gives 10 × its leading digits + 2.5, because only the first `?` is replaced and `parseInt` stops at the next one |
| OwnerPriority.WildcardBounds | javascript/src/main/resources/javascript/SelectOwnerPriority.use.js:204-205 | replacing the first `?` by 0 and by 9 makes `parseInt` read 10 × digits and 10 × digits + 9 |
| OwnerPriority.YearFormsDisjoint | javascript/src/main/resources/javascript/SelectOwnerPriority.use.js:196-203 | no date matches both patterns, so the order of the two tests does not matter |
| OwnerPriority.PlainYearExamples | javascript/src/main/resources/javascript/SelectOwnerPriority.use.js:196-202 | "1915-1920" gives 1915, "2016" gives 2016 and "1599" gives null |
| OwnerPriority.WildcardDecadeExample | javascript/src/main/resources/javascript/SelectOwnerPriority.test.js:107-109 | "191?" gives 1912.5 |
| OwnerPriority.WildcardCenturyExample | javascript/src/main/resources/javascript/SelectOwnerPriority.use.js:203-208 | "19??" gives 192.5, since `parseInt` stops at the second `?` |
| OwnerPriority.UndatableExample | javascript/src/main/resources/javascript/SelectOwnerPriority.test.js:112-114 | "????" gives null |
| OwnerPriority.GetTypePrio | javascript/src/main/resources/javascript/SelectOwnerPriority.use.js:281-297 | the loop returns the word-dropping lookup of the normalised name |
| OwnerPriority.NormalizeType | javascript/src/main/resources/javascript/SelectOwnerPriority.use.js:282 | the pattern has no `u` flag, so the normal form has one character per UTF-16 code unit of the name: a character outside the Basic Multilingual Plane becomes two spaces |
| OwnerPriority.NormalizeBmp | javascript/src/main/resources/javascript/SelectOwnerPriority.use.js:282 | for a name inside the Basic Multilingual Plane each character becomes its lower case when that is an ASCII digit or letter, and a space otherwise |
| OwnerPriority.NormalizeAppend | javascript/src/main/resources/javascript/SelectOwnerPriority.use.js:282 | the replacement works unit by unit, so normalising a concatenation concatenates the normal forms |
| OwnerPriority.AstralCharacterTwoSpaces | javascript/src/main/resources/javascript/SelectOwnerPriority.use.js:281-297 | "Bog\U{1F600}stor skrift" normalises to "bog  stor skrift", with two spaces, and falls back through "bog  stor" and "bog " to the entry 5 of "bog" |
| OwnerPriority.WordPrefixesBeforeLastSpace | javascript/src/main/resources/javascript/SelectOwnerPriority.use.js:288-292 | cutting at the last space keeps exactly the shorter word prefixes |
| OwnerPriority.LookupFindsLongestKnownPrefix | javascript/src/main/resources/javascript/SelectOwnerPriority.use.js:281-297 | the priority is the table entry of the longest word prefix of the name that the table knows |
| OwnerPriority.LookupDefaultsWithoutKnownPrefix | javascript/src/main/resources/javascript/SelectOwnerPriority.use.js:289-290 | without a known word prefix the priority is `_default_` (0.5) |
| OwnerPriority.ListPrio | javascript/src/main/resources/javascript/SelectOwnerPriority.use.js:311-317 | the list priority is never below the default 0.5 |
| OwnerPriority.ListPrioIsBest | javascript/src/main/resources/javascript/SelectOwnerPriority.use.js:311-317 | the list priority is at least every name's priority and is the default or one of them |
| OwnerPriority.GetTypePrioFromList | javascript/src/main/resources/javascript/SelectOwnerPriority.use.js:311-317 | the loop computes the list priority |
| OwnerPriority.TypePrioUnknownExample | javascript/src/main/resources/javascript/SelectOwnerPriority.test.js:128-149 | an empty list and ["xxx"] give 0.5 |
| OwnerPriority.TypePrioFallbackExample | javascript/src/main/resources/javascript/SelectOwnerPriority.test.js:136-147 | "Lydbog CD MP3" falls back word by word to "lydbog" and gives 4 |
| OwnerPriority.TypePrioBestOfListExample | javascript/src/main/resources/javascript/SelectOwnerPriority.test.js:133-146 | ["tegneserie", "Bog", "film"] gives 5, the best of 3, 5 and 3.5 |
| OwnerPriority.EditionNumberMatchesPatterns | javascript/src/main/resources/javascript/SelectOwnerPriority.use.js:367-375 | a match of `^(\d+)\.? udgave` gives N, else a match of `^(\d+)\.? bogklubudgave` gives N + 12, else 25 |
| OwnerPriority.EarlierEditionPreferred | javascript/src/main/resources/javascript/SelectOwnerPriority.use.js:376-377 | a lower edition number gets a strictly larger factor |
| OwnerPriority.FirstEditionExample | javascript/src/main/resources/javascript/SelectOwnerPriority.use.js:369-377 | "1. udgave" is edition 1 with factor exactly 1 |
| OwnerPriority.NumberedEditionExample | javascript/src/main/resources/javascript/SelectOwnerPriority.test.js:158-160 | "3. udgave, 13. oplag (2018)" is edition 3 |
| OwnerPriority.BookClubEditionExample | javascript/src/main/resources/javascript/SelectOwnerPriority.use.js:371-372 | "1. bogklubudgave" is edition 13 |
| OwnerPriority.UnrecognisedEditionExample | javascript/src/main/resources/javascript/SelectOwnerPriority.use.js:367-375 | "første udgave", "1st edition" and null are all edition 25 |
| OwnerPriority.IdBonus | javascript/src/main/resources/javascript/SelectOwnerPriority.use.js:405-416 | the bonus is -5, 0 or 5 |
| OwnerPriority.SplitHead | javascript/src/main/resources/javascript/SelectOwnerPriority.use.js:407-408 | `split("\|")[0]` is the local part |
| OwnerPriority.SplitLength | javascript/src/main/resources/javascript/SelectOwnerPriority.use.js:407-412 | `split("\|")` has a second element exactly when the identifier has an agency part |
| OwnerPriority.SplitSecond | javascript/src/main/resources/javascript/SelectOwnerPriority.use.js:407-412 | `split("\|")[1]` is the agency part |
| OwnerPriority.IdBonusCases | javascript/src/main/resources/javascript/SelectOwnerPriority.use.js:408-416 | +5 exactly for agency 870970 without "__"; -5 exactly for "__" in the local part not ending in "__1" |
| OwnerPriority.IdFields | javascript/src/main/resources/javascript/SelectOwnerPriority.use.js:406-407 | "local\|agency" splits back into its two fields |
| OwnerPriority.PlainLocalBonus | javascript/src/main/resources/javascript/SelectOwnerPriority.use.js:405-416 | a local id without "_" gets +5 in the common library (870970) and 0 in any other |
| OwnerPriority.CommonLibraryBonus | javascript/src/main/resources/javascript/SelectOwnerPriority.test.js:218-222 | a common-library record (870970) gets +5 |
| OwnerPriority.OtherLibraryBonus | javascript/src/main/resources/javascript/SelectOwnerPriority.test.js:228-232 | a record of any other library gets 0 |
| OwnerPriority.LaterVolumeBonus | javascript/src/main/resources/javascript/SelectOwnerPriority.test.js:223-227 | a later volume ("__3") gets -5 |
| OwnerPriority.FirstVolumeBonus | javascript/src/main/resources/javascript/SelectOwnerPriority.test.js:233-237 | a first volume ("__1") gets 0 |
| OwnerValues.Years | javascript/src/main/resources/javascript/SelectOwnerPriority.use.js:238-244 | one determined year (or none) per candidate |
| OwnerValues.MinOfBelow | javascript/src/main/resources/javascript/SelectOwnerPriority.use.js:236-243 | the running minimum is at most every year seen |
| OwnerValues.MinOfAttained | javascript/src/main/resources/javascript/SelectOwnerPriority.use.js:236-243 | the minimum is `Number.MAX_VALUE` or one of the years |
| OwnerValues.MinYearBelow | javascript/src/main/resources/javascript/SelectOwnerPriority.use.js:238-244 | the minimum is at most the year of every dated candidate |
| OwnerValues.AgeValuesFor | javascript/src/main/resources/javascript/SelectOwnerPriority.use.js:246-261 | every candidate gets an age factor: the `Number.INFINITY` guard never fires |
| OwnerValues.DatedFactor | javascript/src/main/resources/javascript/SelectOwnerPriority.use.js:253-254 | a dated candidate gets Decay(year − min) |
| OwnerValues.YoungerGetsLess | javascript/src/main/resources/javascript/SelectOwnerPriority.use.js:254 | a younger candidate gets a strictly smaller factor |
| OwnerValues.OldestGetsOne | javascript/src/main/resources/javascript/SelectOwnerPriority.use.js:254 | the oldest dated candidate gets factor 1 |
| OwnerValues.UndatableGetsTenth | javascript/src/main/resources/javascript/SelectOwnerPriority.use.js:255-256 | an undatable candidate gets 0.1, also when no candidate is datable |
| OwnerValues.GetDefaultValues | javascript/src/main/resources/javascript/SelectOwnerPriority.use.js:164-175 | 10 for every candidate and no other key |
| OwnerValues.CollectYears | javascript/src/main/resources/javascript/SelectOwnerPriority.use.js:235-244 | the first loop collects exactly the determined years and their minimum |
| OwnerValues.AgeFactorsOf | javascript/src/main/resources/javascript/SelectOwnerPriority.use.js:251-258 | the second loop gives every candidate its age factor |
| OwnerValues.GetAgeValues | javascript/src/main/resources/javascript/SelectOwnerPriority.use.js:232-262 | the two loops compute the age factors |
| OwnerValues.GetEditionPriorities | javascript/src/main/resources/javascript/SelectOwnerPriority.use.js:359-383 | the loop gives every candidate its edition factor |
| OwnerValues.GetTypePriorities | javascript/src/main/resources/javascript/SelectOwnerPriority.use.js:335-346 | the loop gives every candidate its list priority |
| OwnerValues.GetIdBonus | javascript/src/main/resources/javascript/SelectOwnerPriority.use.js:401-421 | the loop gives every candidate its id bonus |
| OwnerValues.Added | javascript/src/main/resources/javascript/SelectOwnerPriority.use.js:114-124 | ids in both objects get the sum, other ids keep their value, no key is added |
| OwnerValues.Multiplied | javascript/src/main/resources/javascript/SelectOwnerPriority.use.js:140-150 | ids in both objects get the product, other ids keep their value, no key is added |
| OwnerValues.ScoreTable.AddValues | javascript/src/main/resources/javascript/SelectOwnerPriority.use.js:114-124 | the object is updated in place to the sum |
| OwnerValues.ScoreTable.MultiplyValues | javascript/src/main/resources/javascript/SelectOwnerPriority.use.js:140-150 | the object is updated in place to the product |
| OwnerValues.AddValuesExample | javascript/src/main/resources/javascript/SelectOwnerPriority.test.js:40-62 | {a:2,b:4,c:8} plus {b:-2,c:2,d:10} is {a:2,b:2,c:10} |
| OwnerValues.MultiplyValuesExample | javascript/src/main/resources/javascript/SelectOwnerPriority.test.js:64-86 | {a:2,b:4,c:8} times {b:2,c:-2,d:10} is {a:2,b:8,c:-16} |
| OwnerValues.Combine | javascript/src/main/resources/javascript/SelectOwnerPriority.use.js:66-82 | one score per candidate |
| OwnerValues.Scores | javascript/src/main/resources/javascript/SelectOwnerPriority.use.js:66-82 | the scores cover exactly the candidates |
| OwnerValues.ScoreOf | javascript/src/main/resources/javascript/SelectOwnerPriority.use.js:66-82 | a candidate's score is 10 × age × edition × type + bonus of its own fields |
| OwnerValues.PassesGiveFormula | javascript/src/main/resources/javascript/SelectOwnerPriority.use.js:69-77 | starting from 10, the three multiplications and the addition give the formula for every id |
| OwnerValues.ComputeValues | javascript/src/main/resources/javascript/SelectOwnerPriority.use.js:66-82 | the in-place passes compute the scores |
| OwnerSelection.Insert | javascript/src/main/resources/javascript/SelectOwnerPriority.use.js:96-100 | inserting adds exactly one key |
| OwnerSelection.KeysInOrder | javascript/src/main/resources/javascript/SelectOwnerPriority.use.js:96-100 | the ordered keys are a permutation of the keys |
| OwnerSelection.InsertKeepsOrder | javascript/src/main/resources/javascript/SelectOwnerPriority.use.js:97-99 | inserting keeps the keys in non-increasing order of score |
| OwnerSelection.KeysInOrderNonIncreasing | javascript/src/main/resources/javascript/SelectOwnerPriority.use.js:96-100 | the keys come out highest score first |
| OwnerSelection.FirstKeyIsBest | javascript/src/main/resources/javascript/SelectOwnerPriority.use.js:96-100 | the first key has the highest score |
| OwnerSelection.TwoKeysInOrder | javascript/src/main/resources/javascript/SelectOwnerPriority.use.js:97-99 | two keys come out by score, the first listed first on a tie |
| OwnerSelection.OwnerHasBestScore | javascript/src/main/resources/javascript/SelectWorkOwner.js:11-14 | there is an owner iff there is a candidate; the owner is a candidate with a maximal score |
| OwnerSelection.FixtureAges | javascript/src/main/resources/javascript/SelectOwnerPriority.test.js:7-24 | in the fixture "b" (2016) gets age factor 1 and "a" (2019) gets Decay(3) |
| OwnerSelection.FixtureScores | javascript/src/main/resources/javascript/SelectOwnerPriority.test.js:5-38 | the older second edition "b" outscores the newer first edition "a" |
| OwnerSelection.FixtureSelectsOlder | javascript/src/main/resources/javascript/SelectOwnerPriority.test.js:5-38 | "b" is selected as owner |
| NaturalSorting.CompareZeroIffEqual | service/src/main/java/dk/dbc/search/work/presentation/service/NaturalSort.java:48 | Java `compareTo` on two keys is 0 exactly when the keys are equal |
| NaturalSorting.CompareAntisymmetric | service/src/main/java/dk/dbc/search/work/presentation/service/NaturalSort.java:48 | swapping the keys negates `compareTo` |
| NaturalSorting.CompareTransitive | service/src/main/java/dk/dbc/search/work/presentation/service/NaturalSort.java:48 | `compareTo` on keys is transitive |
| NaturalSorting.CompareCommonPrefix | service/src/main/java/dk/dbc/search/work/presentation/service/NaturalSort.java:48 | text common to the front of both keys does not change the comparison |
| NaturalSorting.CompareFirstDifference | service/src/main/java/dk/dbc/search/work/presentation/service/NaturalSort.java:48 | the first differing character decides the comparison |
| NaturalSorting.ComparePrefixFirst | service/src/main/java/dk/dbc/search/work/presentation/service/NaturalSort.java:48 | a key that is a proper prefix of another sorts first |
| NaturalSorting.DigitRunEnd | service/src/main/java/dk/dbc/search/work/presentation/service/NaturalSort.java:40 | `\d*` and `\d+` stop at the first non-digit and consume only digits |
| NaturalSorting.NextDigit | service/src/main/java/dk/dbc/search/work/presentation/service/NaturalSort.java:58 | `find` skips exactly the non-digits before the next match |
| NaturalSorting.StripZeros | service/src/main/java/dk/dbc/search/work/presentation/service/NaturalSort.java:40 | group 1 is a suffix of the digit run, never empty for a non-empty run and without a leading zero unless it is "0" |
| NaturalSorting.FindFrom | service/src/main/java/dk/dbc/search/work/presentation/service/NaturalSort.java:58-67 | a match starts at or after the search position and ends after it starts, within the string |
| NaturalSorting.LengthMark | service/src/main/java/dk/dbc/search/work/presentation/service/NaturalSort.java:65 | the length letter is `'@'` plus the digit count |
| NaturalSorting.SortKeyFromMatch | service/src/main/java/dk/dbc/search/work/presentation/service/NaturalSort.java:58-68 | one step of the key: the text before the next match, then `'0'`, the length letter, group 1 and group 2 |
| NaturalSorting.SortKeyBuilder | service/src/main/java/dk/dbc/search/work/presentation/service/NaturalSort.java:55-74 | the loop over the matches builds exactly the key function's key |
| NaturalSorting.NaturalSort.SortKeyOf | service/src/main/java/dk/dbc/search/work/presentation/service/NaturalSort.java:51-53 | the memoised key equals the key built afresh; a new key is cached and nothing else changes |
| NaturalSorting.NaturalSort.Compare | service/src/main/java/dk/dbc/search/work/presentation/service/NaturalSort.java:46-49 | `compare` is the key comparison whatever was cached, and caches both keys |
| NaturalSorting.NaturalCompareReflexive | service/src/main/java/dk/dbc/search/work/presentation/service/NaturalSort.java:46-49 | every string compares equal to itself |
| NaturalSorting.NaturalCompareTotalPreorder | service/src/main/java/dk/dbc/search/work/presentation/service/NaturalSort.java:46-49 | the comparator is total, sign-antisymmetric and transitive |
| NaturalSorting.NoDigitsOwnKey | service/src/main/java/dk/dbc/search/work/presentation/service/NaturalSort.java:70-73 | a string without digits is its own key |
| NaturalSorting.LeadingZeroValue | service/src/main/java/dk/dbc/search/work/presentation/service/NaturalSort.java:40 | a leading zero does not change a digit run's value |
| NaturalSorting.StripZerosValue | service/src/main/java/dk/dbc/search/work/presentation/service/NaturalSort.java:40 | group 1 has the value of the whole digit run and no leading zero unless it is "0" |
| NaturalSorting.SortKeyFromNoDigits | service/src/main/java/dk/dbc/search/work/presentation/service/NaturalSort.java:70-73 | with no digit left, the rest of the string is copied |
| NaturalSorting.SortKeyFromNumber | service/src/main/java/dk/dbc/search/work/presentation/service/NaturalSort.java:58-68 | a digit run with its decimal tail is replaced by its number key and the text before it is copied |
| NaturalSorting.FewerDigitsFirst | service/src/main/java/dk/dbc/search/work/presentation/service/NaturalSort.java:65 | a number with fewer digits sorts before one with more, whatever follows |
| NaturalSorting.SameLengthDigitsOrder | service/src/main/java/dk/dbc/search/work/presentation/service/NaturalSort.java:64-66 | two digit runs of the same length compare as text exactly as their values compare: the smaller value first, equal values equal |
| NaturalSorting.SameDigitCountByValue | service/src/main/java/dk/dbc/search/work/presentation/service/NaturalSort.java:64-67 | of two numbers with the same count of digits the smaller value sorts first, whatever follows, so "12" before "19" |
| NaturalSorting.NumericOrder | service/src/main/java/dk/dbc/search/work/presentation/service/NaturalSort.java:28 | numeric order: of two digit runs the one of smaller value sorts first whatever its leading zeros and whatever follows, and runs of equal value give the same number, leaving the decision to the tails |
| NaturalSorting.KeyOfOne | service/src/test/java/dk/dbc/search/work/presentation/service/NaturalSortTest.java:55-63 | the key of "1" is "0A1" |
| NaturalSorting.KeyOfZeroZeroFour | service/src/test/java/dk/dbc/search/work/presentation/service/NaturalSortTest.java:55-63 | the key of "004" is "0A4": leading zeros are dropped |
| NaturalSorting.ZeroPrefixExample | service/src/test/java/dk/dbc/search/work/presentation/service/NaturalSortTest.java:55-63 | "1" sorts before "004" |
| NaturalSorting.KeyOfA8B | service/src/test/java/dk/dbc/search/work/presentation/service/NaturalSortTest.java:35-44 | the key of "a8b" is "a", the key of 8, "b" |
| NaturalSorting.KeyOfA12D | service/src/test/java/dk/dbc/search/work/presentation/service/NaturalSortTest.java:35-44 | the key of "a12d" is "a", the key of 12, "d" |
| NaturalSorting.DigitCountExample | service/src/test/java/dk/dbc/search/work/presentation/service/NaturalSortTest.java:35-44 | "a8b" sorts before "a12d" |
| NaturalSorting.FirstKeyChar | service/src/main/java/dk/dbc/search/work/presentation/service/NaturalSort.java:58-73 | a key starts with '0' when the string starts with a digit and with the string's first character otherwise |
| NaturalSorting.LeadingNumberFirst | service/src/main/java/dk/dbc/search/work/presentation/service/NaturalSort.java:46-49 | a string that starts with a number sorts before one that starts with a character above '9' |
| NaturalSorting.NumberFirstExample | service/src/test/java/dk/dbc/search/work/presentation/service/NaturalSortTest.java:35-44 | "4" sorts before "a6b2" |
| NaturalSorting.SameNumberTailsDecide | service/src/main/java/dk/dbc/search/work/presentation/service/NaturalSort.java:40 | for equal numbers the decimal tails and the rest compare as text |
| NaturalSorting.TailPrefixFirst | service/src/main/java/dk/dbc/search/work/presentation/service/NaturalSort.java:40 | for equal numbers a tail that extends another sorts after it |
| NaturalSorting.KeyOfOneOneOne | service/src/test/java/dk/dbc/search/work/presentation/service/NaturalSortTest.java:46-53 | the key of "1.1.1" is the key of 1 with the tail ".1.1" |
| NaturalSorting.KeyOfOneTwo | service/src/test/java/dk/dbc/search/work/presentation/service/NaturalSortTest.java:46-53 | the key of "1.2" is the key of 1 with the tail ".2" |
| NaturalSorting.KeyOfOneTwoThreeFour | service/src/test/java/dk/dbc/search/work/presentation/service/NaturalSortTest.java:46-53 | the key of "1.234" is the key of 1 with the tail ".234" |
| NaturalSorting.DecimalKeysOrdered | service/src/test/java/dk/dbc/search/work/presentation/service/NaturalSortTest.java:46-53 | those three keys are in increasing order |
| NaturalSorting.DecimalsExample | service/src/test/java/dk/dbc/search/work/presentation/service/NaturalSortTest.java:46-53 | "1.1.1" sorts before "1.2", which sorts before "1.234" |
| TypedValues.With | api/src/main/java/dk/dbc/search/work/presentation/api/pojo/TypedValue.java:104-109 | `with` keeps the type as given (the empty-type branch is the identity) and the value |
| TypedValues.Wrap32 | api/src/main/java/dk/dbc/search/work/presentation/api/pojo/TypedValue.java:59 | Java `int` arithmetic: the result is in the 32-bit range and congruent to the exact value |
| TypedValues.HashCode | api/src/main/java/dk/dbc/search/work/presentation/api/pojo/TypedValue.java:57-60 | `hashCode` is a 32-bit value computed from type and value only |
| TypedValues.EqualsIsFieldEquality | api/src/main/java/dk/dbc/search/work/presentation/api/pojo/TypedValue.java:46-60 | `equals` holds exactly when type and value agree, and equal values hash equally |
| TypedValues.SafeType | api/src/main/java/dk/dbc/search/work/presentation/api/pojo/TypedValue.java:82 | a null type is bucketed as "", any other type as itself |
| TypedValues.DistinctSet | api/src/main/java/dk/dbc/search/work/presentation/api/pojo/TypedValue.java:79-102 | the result is the flattening of the per-type maps the input folds into |
| TypedValues.CollectByType | api/src/main/java/dk/dbc/search/work/presentation/api/pojo/TypedValue.java:80-91 | the first `forEach` builds exactly the per-type maps of the input, in input order |
| TypedValues.FlattenCollection | api/src/main/java/dk/dbc/search/work/presentation/api/pojo/TypedValue.java:92-99 | the second `forEach` adds exactly one typed value per type and key |
| TypedValues.AddTypeValues | api/src/main/java/dk/dbc/search/work/presentation/api/pojo/TypedValue.java:94-97 | the inner `forEach` adds every value of one type, with that type |
| TypedValues.FlattenOneMore | api/src/main/java/dk/dbc/search/work/presentation/api/pojo/TypedValue.java:93-99 | one more type adds exactly that type's values |
| TypedValues.TypeValuesOneMore | api/src/main/java/dk/dbc/search/work/presentation/api/pojo/TypedValue.java:94-97 | one more key adds exactly its typed value |
| TypedValues.StepEffect | api/src/main/java/dk/dbc/search/work/presentation/api/pojo/TypedValue.java:82-90 | one input value sets the entry under its type and key to its normal form, unless a spelling that is not all-lowercase is stored there; every other entry stays |
| TypedValues.CollectWellKeyed | api/src/main/java/dk/dbc/search/work/presentation/api/pojo/TypedValue.java:84-90 | every stored spelling lower-cases to the key it is stored under |
| TypedValues.CollectFromInput | api/src/main/java/dk/dbc/search/work/presentation/api/pojo/TypedValue.java:84-90 | every stored spelling is the normal form of an input value of that type bucket |
| TypedValues.CollectCovers | api/src/main/java/dk/dbc/search/work/presentation/api/pojo/TypedValue.java:82-90 | every input value has an entry under its type bucket and key |
| TypedValues.CollectProperties | api/src/main/java/dk/dbc/search/work/presentation/api/pojo/TypedValue.java:80-91 | the three facts above together |
| TypedValues.DistinctOutput | api/src/main/java/dk/dbc/search/work/presentation/api/pojo/TypedValue.java:83-99 | at most one output value per type and lower-cased value |
| TypedValues.OutputFromInput | api/src/main/java/dk/dbc/search/work/presentation/api/pojo/TypedValue.java:84-99 | every output value is the normal form of an input value and carries that input's type bucket |
| TypedValues.OutputCoversInput | api/src/main/java/dk/dbc/search/work/presentation/api/pojo/TypedValue.java:80-99 | every input value is represented by an output value of its type bucket with the same lower-cased value |
| TypedValues.EmptyInputEmptyOutput | api/src/test/java/dk/dbc/search/work/presentation/api/pojo/TypedValueTest.java:37-42 | empty input gives an empty set |
| TypedValues.UseCapitalisedExample | api/src/test/java/dk/dbc/search/work/presentation/api/pojo/TypedValueTest.java:84-103 | "abc" and "Abc", in either order, give only "Abc" |
| TypedValues.SingleEntry | api/src/main/java/dk/dbc/search/work/presentation/api/pojo/TypedValue.java:92-99 | a single stored spelling gives a single typed value |
| TypedValues.NullTypeExample | api/src/main/java/dk/dbc/search/work/presentation/api/pojo/TypedValue.java:82-109 | a value with a null type is returned with type "" |
| TypedValues.CapitalisedStays | api/src/main/java/dk/dbc/search/work/presentation/api/pojo/TypedValue.java:86-90 | once a spelling that is not all-lowercase is stored, no later input replaces it |
| TypedValues.DifferentTypesExample | api/src/test/java/dk/dbc/search/work/presentation/api/pojo/TypedValueTest.java:58-68 | values of different types are both kept |
| PresentationPojo.OnlyPresentationFieldsKeeps | api/src/main/java/dk/dbc/search/work/presentation/api/pojo/ManifestationInformation.java:82-88 | the manifestation projection keeps exactly the id, the material types and the work types, nulls the other seven fields, and projecting twice equals projecting once |
| PresentationPojo.ManifestationEqualsIsEquality | api/src/main/java/dk/dbc/search/work/presentation/api/pojo/ManifestationInformation.java:42-59 | equals holds exactly when the other object is non-null and all ten fields agree, i.e. it is record equality and false for null |
| PresentationPojo.ManifestationHashConsistent | api/src/main/java/dk/dbc/search/work/presentation/api/pojo/ManifestationInformation.java:42-64 | two manifestations are equal exactly when the ten fields `hashCode` hashes agree, so equal records hash alike |
| PresentationPojo.RelationFrom | api/src/main/java/dk/dbc/search/work/presentation/api/pojo/RelationInformation.java:17-28 | a relation built from a manifestation carries the given type and leaves series, work types and priority keys null |
| PresentationPojo.MapperWithIsFrom | api/src/main/java/dk/dbc/search/work/presentation/api/pojo/RelationInformation.java:30-32 | the mapper is from with the type fixed, and from copies id, title, full title, creators, description, subjects and material types unchanged |
| PresentationPojo.RelationOnlyPresentationFieldsKeeps | api/src/main/java/dk/dbc/search/work/presentation/api/pojo/RelationInformation.java:34-41 | the relation projection keeps type, id and material types, drops the work types (unlike the manifestation projection) and is idempotent |
| PresentationPojo.RelationEqualsAsWrittenBroken | api/src/main/java/dk/dbc/search/work/presentation/api/pojo/RelationInformation.java:43-49 | the equality as written calls two relations with different ids equal although their hash fields differ, and calls every relation equal to null |
| PresentationPojo.RelationEqualsIsEquality | api/src/main/java/dk/dbc/search/work/presentation/api/pojo/RelationInformation.java:43-49 | the corrected equality holds exactly when the other object is the same record: manifestation fields and type agree, false for null |
| PresentationPojo.RelationHashConsistent | api/src/main/java/dk/dbc/search/work/presentation/api/pojo/RelationInformation.java:51-54 | under the corrected equality, equal relations hash over equal fields |
| RelationIndex.From | service/src/main/java/dk/dbc/search/work/presentation/service/response/RelationInformationResponse.java:54-60 | a response carries the relation's type, its manifestation id and its material types |
| RelationIndex.CompareToIdThenType | service/src/main/java/dk/dbc/search/work/presentation/service/response/RelationInformationResponse.java:62-68 | different ids decide the order by the Java string comparison of the ids; equal ids leave it to the types; the result is 0 exactly when id and type both agree |
| RelationIndex.CompareToAntisymmetric | service/src/main/java/dk/dbc/search/work/presentation/service/response/RelationInformationResponse.java:62-68 | swapping the operands negates the comparison |
| RelationIndex.CompareToTransitive | service/src/main/java/dk/dbc/search/work/presentation/service/response/RelationInformationResponse.java:62-68 | the order is transitive, so sorting by it is well defined |
| RelationIndex.ResponseEqualsConsistent | service/src/main/java/dk/dbc/search/work/presentation/service/response/RelationInformationResponse.java:70-85 | equals is record equality, and equal responses hash over equal fields (type and id) and compare as 0 |
| RelationIndex.CompareToIgnoresTypes | service/src/main/java/dk/dbc/search/work/presentation/service/response/RelationInformationResponse.java:62-80 | two responses differing only in material types compare as 0 yet are not equal: the order is not consistent with equals |
| RelationIndex.InsertSorted | service/src/main/java/dk/dbc/search/work/presentation/service/RelationIndexComputer.java:45-51 | inserting one response into a list sorted by compareTo keeps it sorted |
| RelationIndex.SortedList | service/src/main/java/dk/dbc/search/work/presentation/service/RelationIndexComputer.java:45-51 | de-duplicating and sorting yields a list holding each distinct response exactly once (same multiset as the set), sorted by compareTo, whatever order the set is iterated in |
| RelationIndex.IndexesOf | service/src/main/java/dk/dbc/search/work/presentation/service/RelationIndexComputer.java:53-57 | the numbering loop maps every element of the list, and only those, to its position |
| RelationIndex.SortInts | service/src/main/java/dk/dbc/search/work/presentation/service/RelationIndexComputer.java:68 | sorting a unit's indexes gives an ascending permutation of them |
| RelationIndex.UnitArrayInRange | service/src/main/java/dk/dbc/search/work/presentation/service/RelationIndexComputer.java:63-69 | a unit's array has one entry per relation, is ascending, is a permutation of the relations' positions and every entry is a valid index into the relation list |
| RelationIndex.UnitArraysViaCorrect | service/src/main/java/dk/dbc/search/work/presentation/service/RelationIndexComputer.java:63-69 | looking a unit's relations up in the numbering gives their positions in the list, so every unit's array has the properties above and the map has exactly the units as keys |
| RelationIndex.RelationIndexComputer.constructor | service/src/main/java/dk/dbc/search/work/presentation/service/RelationIndexComputer.java:44-70 | the relation list holds each distinct response of every unit once, sorted; every unit's relations occur in it; and each unit's array is its relations' positions, ascending |
| RelationIndex.RelationIndexComputer.GetRelationList | service/src/main/java/dk/dbc/search/work/presentation/service/RelationIndexComputer.java:72-74 | returns the sorted relation list |
| RelationIndex.RelationIndexComputer.UnitRelationIndexes | service/src/main/java/dk/dbc/search/work/presentation/service/RelationIndexComputer.java:76-78 | a known unit gets its array; any other id gets the empty array |
| FilterResults.ResponseFrom | service/src/main/java/dk/dbc/search/work/presentation/service/response/ManifestationInformationResponse.java:66-76 | a manifestation response carries the manifestation's id and material types and has no relation indexes yet |
| FilterResults.SumSizesAny | service/src/main/java/dk/dbc/search/work/presentation/service/FilterResult.java:70-73 | the sum of the unit sizes does not depend on the order the units are visited in |
| FilterResults.UnitWithinCount | service/src/main/java/dk/dbc/search/work/presentation/service/FilterResult.java:70-73 | every unit's size is at most the total count |
| FilterResults.ManifestationCount | service/src/main/java/dk/dbc/search/work/presentation/service/FilterResult.java:70-73 | the count handed to the search index is the sum of the unit set sizes |
| FilterResults.FilterUnitsSurvivors | service/src/main/java/dk/dbc/search/work/presentation/service/FilterResult.java:77-86 | a unit survives exactly when one of its manifestations has an id in the visible set, and it keeps exactly the responses of those manifestations |
| FilterResults.FlattenIsRecords | service/src/main/java/dk/dbc/search/work/presentation/service/FilterResult.java:97-109 | filtering, assigning each unit's relation array and flattening yields exactly the visible manifestations' responses, each with its own unit's array (the empty array for a unit without relations) |
| FilterResults.InsertByIdAscending | service/src/main/java/dk/dbc/search/work/presentation/service/FilterResult.java:106-109 | inserting a record into an id-ordered list keeps it ordered |
| FilterResults.SortById | service/src/main/java/dk/dbc/search/work/presentation/service/FilterResult.java:106-109 | the records are every flattened response once, in ascending id order |
| FilterResults.ProcessWork | service/src/main/java/dk/dbc/search/work/presentation/service/FilterResult.java:68-111 | the count is the sum of unit sizes; the candidate relation ids are exactly the ids of all relations; the work fields are copied; the relation list is every distinct relation response once, sorted; and the records are exactly the visible manifestations' responses with their unit's relation positions in that list, ordered by id |
| ExceptionSafety.Wrap | service/src/main/java/dk/dbc/search/work/presentation/service/ExceptionSafe.java:48-54 | a producer that returns gives a value wrapper, one that throws an `Exception` an error wrapper holding it, and any other throwable leaves `wrap` unchanged |
| ExceptionSafety.FirstMatch | service/src/main/java/dk/dbc/search/work/presentation/service/ExceptionSafe.java:114-117 | the position found is an instance of the class and no earlier position on the cause chain is; none is found only when nothing on the chain is one |
| ExceptionSafety.Raise | service/src/main/java/dk/dbc/search/work/presentation/service/ExceptionSafe.java:113-119 | the cause-chain walk throws the nearest instance of the class with its own causes, or passes the error on; a value is passed on (the specification RaiseOf) |
| ExceptionSafety.RaiseThrowsNearest | service/src/main/java/dk/dbc/search/work/presentation/service/ExceptionSafe.java:113-119 | raise throws exactly when some throwable on the chain is an instance of the class, and then the first such one; otherwise it returns the wrapper itself |
| ExceptionSafety.RaiseValueIdentity | service/src/main/java/dk/dbc/search/work/presentation/service/ExceptionSafe.java:89-91 | a value wrapper passes raise unchanged |
| ExceptionSafety.RaiseAllValue | service/src/main/java/dk/dbc/search/work/presentation/service/ExceptionSafe.java:89-91 | a value wrapper passes a whole chain of raise calls unchanged |
| ExceptionSafety.RaiseAllFirstClass | service/src/main/java/dk/dbc/search/work/presentation/service/ExceptionSafe.java:113-119 | in a chain of raise calls the first class that matches anything on the cause chain decides what is thrown; with no match the error is passed on |
| ExceptionSafety.RaiseAllDirect | service/src/main/java/dk/dbc/search/work/presentation/service/ExceptionSafe.java:113-119 | an exception without causes is either thrown as itself or passed on by a chain of raise calls |
| ExceptionSafety.Get | service/src/main/java/dk/dbc/search/work/presentation/service/ExceptionSafe.java:122-128 | a value is returned; a runtime exception is rethrown unchanged; any other exception is thrown wrapped in a new runtime exception whose causes are the original chain |
| ExceptionSafety.WrapGetRoundTrip | service/src/main/java/dk/dbc/search/work/presentation/service/ExceptionSafe.java:48-54 | wrapping then getting returns what the producer returned; an `Exception` the producer throws comes out of `get` itself when it is a RuntimeException and otherwise wrapped with it as the cause chain; a throwable that is not an `Exception` comes out of `wrap` itself |
| WorkPresentation.CheckParameters | service/src/main/java/dk/dbc/search/work/presentation/service/WorkPresentationBean.java:221-235 | the message is built from exactly the missing parameters: none gives no message, one names it alone, several list all but the last joined by ", " and the last after "and" |
| WorkPresentation.MissingNamesExact | service/src/main/java/dk/dbc/search/work/presentation/service/WorkPresentationBean.java:221-227 | a parameter is listed exactly when it is null or empty, each once, in the order workId, agencyId, profile |
| WorkPresentation.OneMissingMessage | service/src/main/java/dk/dbc/search/work/presentation/service/WorkPresentationBean.java:229-232 | only the profile missing gives "Required parameter profile is missing" |
| WorkPresentation.MessageOfThree | service/src/main/java/dk/dbc/search/work/presentation/service/WorkPresentationBean.java:233-235 | three missing names give the first two joined by ", " and the third after "and" |
| WorkPresentation.AllMissingMessage | service/src/main/java/dk/dbc/search/work/presentation/service/WorkPresentationBean.java:221-235 | all three missing gives "Required parameters workId, agencyId and profile are missing" |
| WorkPresentation.MissingParametersNotFound | service/src/main/java/dk/dbc/search/work/presentation/service/WorkPresentationBean.java:229-240 | any missing parameter answers status 404 with the missing-parameters code and a message, before the work is looked up |
| WorkPresentation.CorepoNotFoundMessageDropsId | service/src/main/java/dk/dbc/search/work/presentation/service/WorkPresentationBean.java:148 | as written the not-found message is the same for every corepo work id |
| WorkPresentation.CorepoNotFoundMessageNamesId | service/src/main/java/dk/dbc/search/work/presentation/service/WorkPresentationBean.java:148 | the corrected message determines the id: two messages are equal exactly when the ids are |
| WorkPresentation.GetPersistentWorkId | service/src/main/java/dk/dbc/search/work/presentation/service/WorkPresentationBean.java:134-152 | a null or empty id gives 400 with the missing-parameters code; an unknown id 404 with the not-found code and the corrected message, which names the id; a known one 200 with its persistent work id |
| WorkPresentation.ProcessRequest | service/src/main/java/dk/dbc/search/work/presentation/service/WorkPresentationBean.java:296-311 | every exception it throws itself is one of the modelled unchecked exceptions; anything else thrown comes from presenting a stored work |
| WorkPresentation.ReplaceWorkId | service/src/main/java/dk/dbc/search/work/presentation/service/WorkPresentationBean.java:256-260 | the redirect keeps every query parameter in order and replaces only the values of workId by the new id |
| WorkPresentation.StoredWorkPresented | service/src/main/java/dk/dbc/search/work/presentation/service/WorkPresentationBean.java:241-252 | a stored work presented without error answers 200 with the presentation |
| WorkPresentation.WorkOfRedirects | service/src/main/java/dk/dbc/search/work/presentation/service/WorkPresentationBean.java:301-308 | a "work-of:" id of a manifestation whose work has a persistent id answers 301 to the same query with workId replaced by that id |
| WorkPresentation.UnknownWorkNotFound | service/src/main/java/dk/dbc/search/work/presentation/service/WorkPresentationBean.java:301-310 | an id that is neither stored nor a "work-of:" id of a stored work's manifestation answers 404 with the not-found code |
| WorkPresentation.UnmatchedExceptionStatus | service/src/main/java/dk/dbc/search/work/presentation/service/WorkPresentationBean.java:241-281 | when nothing on an exception's cause chain is one of the raised classes, a throwable that is not an `Exception` escapes `get` uncaught, a runtime exception goes straight to the catch clauses, and any other exception that is not a Forbidden exception gives 500 |
| WorkPresentation.ThrownStatus | service/src/main/java/dk/dbc/search/work/presentation/service/WorkPresentationBean.java:253-281 | an exception thrown without causes maps to 403 when Forbidden, 404 when not found, 400 when the profile is unknown and 500 otherwise |
| WorkPresentation.DirectThrowCaught | service/src/main/java/dk/dbc/search/work/presentation/service/WorkPresentationBean.java:253-281 | a runtime exception thrown without causes reaches the catch clauses as itself, whatever classes it is an instance of |
| SolrAccess.NextBatch | service/src/main/java/dk/dbc/search/work/presentation/service/solr/Solr.java:123-130 | a batch is the next run of ids in iteration order, at least one long; it takes another id only while its query is shorter than the maximum, and stops short of the end only once its query has reached it |
| SolrAccess.Batches | service/src/main/java/dk/dbc/search/work/presentation/service/solr/Solr.java:119-134 | the batches are the ids in iteration order cut into non-empty runs, so every id lands in exactly one batch; a batch grew only while its query was below the maximum; every batch but the last reached it |
| SolrAccess.GreedyBatchingUnique | service/src/main/java/dk/dbc/search/work/presentation/service/solr/Solr.java:122-130 | the batching contract fixes the batches: two batchings meeting it for the same ids and maximum are equal |
| SolrAccess.FirstPageSize | service/src/main/java/dk/dbc/search/work/presentation/service/solr/Solr.java:140 | the first page has room for the expected rows plus sixteen (and a sixteenth more) |
| SolrAccess.PullSolrManifestations | service/src/main/java/dk/dbc/search/work/presentation/service/solr/Solr.java:138-164 | the first request asks for 16 + n + n/16 rows from row 0; each further request starts where the previous page ended, and is made only while rows remain beyond it; the last page reaches the row count; with a stable row count at most two requests are made, one when the expected count fits; the ids of every document are collected into the set |
| SolrAccess.GetAccessibleRelations | service/src/main/java/dk/dbc/search/work/presentation/service/solr/Solr.java:110-136 | no relation ids make no request and give the empty set; otherwise the ids are batched against the query size left after the filter query, and the result is the ids every batch's request returns |
| SolrAccess.AccessibleRelationsAreVisible | service/src/main/java/dk/dbc/search/work/presentation/service/solr/Solr.java:122-135 | when the index answers each batch with the visible ids among it, the result is exactly the visible relation ids, whatever the batching |
| SolrAccess.GetAccessibleManifestations | service/src/main/java/dk/dbc/search/work/presentation/service/solr/Solr.java:89-96 | the result is every id of every document the work's terms query returns |
| SolrAccess.MakeSolrClient | service/src/main/java/dk/dbc/search/work/presentation/service/solr/Solr.java:178-196 | a URL is a ZooKeeper URL exactly when it starts with zk:// and has a '/' after the hosts; its collection has no '/'; any other URL is used as it is for an HTTP client |
| SolrAccess.ZkUrlRoundTrip | service/src/main/java/dk/dbc/search/work/presentation/service/solr/Solr.java:67 | parsing zk://hosts(/chroot)?/collection gives back the hosts split on commas, the chroot (absent when there is none) and the collection |
| WorkerConfig.UnitGroup | worker/src/main/java/dk/dbc/search/work/presentation/worker/Config.java:155 | the unit group is a non-empty suffix of the text after the number: `\s*` takes leading spaces but leaves at least one character to `(\D+)` |
| WorkerConfig.LookupUnit | worker/src/main/java/dk/dbc/search/work/presentation/worker/Config.java:163-181 | a word has a unit exactly when it is one of the table's words, and the unit returned is the one the table gives it |
| WorkerConfig.ToMillis | worker/src/main/java/dk/dbc/search/work/presentation/worker/Config.java:169-181 | the amount in milliseconds is the amount times 60000, 1000 or 1, or the largest long when that product is larger; it never exceeds the largest long |
| WorkerConfig.Ms | worker/src/main/java/dk/dbc/search/work/presentation/worker/Config.java:157-185 | a duration that parses is at most the largest long |
| WorkerConfig.MsFormatIff | worker/src/main/java/dk/dbc/search/work/presentation/worker/Config.java:155-161 | `ms` fails with the not-of-format message exactly when the duration is not a canonical number followed by at least one character and no more digits |
| WorkerConfig.MsOfNumberAndUnit | worker/src/main/java/dk/dbc/search/work/presentation/worker/Config.java:157-181 | a canonical number within a long, optional spaces and a known unit word in any case give that many minutes, seconds or milliseconds in milliseconds |
| WorkerConfig.MsUnknownUnit | worker/src/main/java/dk/dbc/search/work/presentation/worker/Config.java:182-183 | a duration of the right shape whose unit word is unknown fails with the unknown-unit message |
| WorkerConfig.GetOrFail | worker/src/main/java/dk/dbc/search/work/presentation/worker/Config.java:134-139 | a required variable gives its value when it is set, and otherwise a failure whose message ends with the variable's name |
| WorkerConfig.GetOrDefault | worker/src/main/java/dk/dbc/search/work/presentation/worker/Config.java:141-143 | a variable that is set gives its value; one that is not gives the default |
| WorkerConfig.ParseInt | worker/src/main/java/dk/dbc/search/work/presentation/worker/Config.java:80 | a parsed int lies in the 32-bit range, and a string of digits parses to its decimal value |
| WorkerConfig.NameLength | worker/src/main/java/dk/dbc/search/work/presentation/worker/Config.java:76 | the first queue name runs up to the first white space or comma |
| WorkerConfig.QueueNames | worker/src/main/java/dk/dbc/search/work/presentation/worker/Config.java:76-78 | every queue name read from the list is non-empty and holds neither white space nor commas |
| WorkerConfig.QueueNamesRoundTrip | worker/src/main/java/dk/dbc/search/work/presentation/worker/Config.java:76-78 | queue names joined with commas are read back as the same names in the same order |
| WorkerConfig.PostponeParametersIff | worker/src/main/java/dk/dbc/search/work/presentation/worker/Config.java:94-103 | a postpone rule is accepted exactly when it splits on '-' into two durations with the second at least the first; then from is the first and the range the difference |
| WorkerConfig.PostponeAssign | worker/src/main/java/dk/dbc/search/work/presentation/worker/Config.java:94-103 | reading a postpone rule changes nothing but the from and range fields |
| WorkerConfig.PostponeAssignAgrees | worker/src/main/java/dk/dbc/search/work/presentation/worker/Config.java:94-103 | the field assignments succeed exactly when the rule is accepted, fail with the same exception otherwise, and on success hold the rule's from and range |
| WorkerConfig.InitSettings | worker/src/main/java/dk/dbc/search/work/presentation/worker/Config.java:72-92 | a successful `init` means every required variable is set; the URL is the variable's value, the queues are the names in its list, thread and pool sizes are at least 1, and the postpone range is the rule's |
| WorkerConfig.InitDefaults | worker/src/main/java/dk/dbc/search/work/presentation/worker/Config.java:79-80 | without THREADS and QUEUE_DEDUPLICATE a successful `init` sets 5 threads and deduplication on |
| WorkerConfig.InitMissingRequired | worker/src/main/java/dk/dbc/search/work/presentation/worker/Config.java:75-91 | a missing URL or queue list fails `init` with the message naming it; any failure while a required variable is missing names a missing variable or comes from the postpone rule |
| WorkerConfig.Config.constructor | worker/src/main/java/dk/dbc/search/work/presentation/worker/Config.java:68-70 | a new configuration holds the environment and every setting at its Java default |
| WorkerConfig.Config.ComputePostponeParameters | worker/src/main/java/dk/dbc/search/work/presentation/worker/Config.java:94-103 | the postpone fields and the failure are those of reading the rule, with earlier assignments kept on a later failure |
| WorkerConfig.Config.AssignDurations | worker/src/main/java/dk/dbc/search/work/presentation/worker/Config.java:98-102 | from is assigned once the first duration is read, the range once the second is, and an order failure leaves both assigned |
| WorkerConfig.Config.Init | worker/src/main/java/dk/dbc/search/work/presentation/worker/Config.java:72-92 | the settings and the failure are those of reading the environment in order, stopping at the first failure |
| WorkerConfig.Config.PostponeDuration | worker/src/main/java/dk/dbc/search/work/presentation/worker/Config.java:130-132 | a postpone duration lies between from and from + range, below from + range when the range is positive |
| WorkerConfig.ScaledBelow | worker/src/main/java/dk/dbc/search/work/presentation/worker/Config.java:131 | a random factor in [0, 1) times a range, truncated, lies in [0, range], below range when it is positive |
| Instants.TruncateLongToInt | worker/src/main/java/dk/dbc/search/work/presentation/worker/WorkConsolidator.java:162-168 | the result lies in the 32-bit range, is the long itself when that fits, has the long's sign, and is the nearest bound when it does not fit |
| Instants.InstantCmpOrder | worker/src/main/java/dk/dbc/search/work/presentation/worker/WorkConsolidator.java:155-160 | the comparator is negative exactly when the first instant is earlier, positive exactly when it is later, and zero exactly when the instants are equal |
| Instants.InstantCmpAntisymmetric | worker/src/main/java/dk/dbc/search/work/presentation/worker/WorkConsolidator.java:155-160 | swapping the instants flips the comparator's sign, and its result always fits an int despite the nanosecond subtraction |
| Instants.MaxInstantIsMax | worker/src/main/java/dk/dbc/search/work/presentation/worker/WorkConsolidator.java:86-87 | the maximum under the comparator is one of the instants and none of them is later |
| CacheBuilders.ManifestationIdOf | worker/src/main/java/dk/dbc/search/work/presentation/worker/tree/CacheContentBuilder.java:54-56 | the id is the stream name after "localData.", a colon, and the corepo id after its first colon (its length is the sum of those parts) |
| CacheBuilders.ManifestationIdSplits | worker/src/main/java/dk/dbc/search/work/presentation/worker/tree/CacheContentBuilder.java:54-56 | when the agency part has no colon, the id's first colon separates the agency from the object's local id, so both parts can be read back |
| CacheBuilders.ManifestationIdExample | worker/src/main/java/dk/dbc/search/work/presentation/worker/tree/CacheContentBuilder.java:54-56 | object "obj:1" with stream "localData.100000" gives the manifestation id "100000:1" |
| CacheBuilders.NewCacheContentBuilder | worker/src/main/java/dk/dbc/search/work/presentation/worker/tree/CacheContentBuilder.java:46-57 | construction fails, with the exception's message, exactly when the stream name lacks the "localData." prefix; otherwise the builder keeps its arguments and the derived manifestation id |
| CacheBuilders.DataStreamsOf | worker/src/main/java/dk/dbc/search/work/presentation/worker/tree/CacheContentBuilder.java:79-88 | the script gets exactly the streams "localData" (the builder's own local stream), "commonData" and "DC" of the object |
| CacheBuilders.NewCacheDataBuilder | worker/src/main/java/dk/dbc/search/work/presentation/worker/cache/CacheDataBuilder.java:43-58 | construction fails exactly when the stream name lacks the prefix; otherwise the builder holds the deleted flag, the derived id and the time |
| CacheBuilders.BuildersAgree | worker/src/main/java/dk/dbc/search/work/presentation/worker/cache/CacheDataBuilder.java:43-58 | the two builders accept the same stream names and derive the same manifestation id |
| CacheBuilders.GenerateDataContent | worker/src/main/java/dk/dbc/search/work/presentation/worker/cache/CacheDataBuilder.java:77-81 | the generated record carries the manifestation id and nothing else |
| JpaEntities.FlagCycle | api/src/main/java/dk/dbc/search/work/presentation/api/jpa/WorkObjectEntity.java:81-90 | an absent key gives a new entity; once saved it is found with the saved columns; once deleted, a new entity is given again and the table is as before |
| JpaEntities.OnlyOwnKey | api/src/main/java/dk/dbc/search/work/presentation/api/jpa/WorkObjectEntity.java:146-161 | saving or deleting one entity leaves every other key's row as it was |
| JpaEntities.RefreshKeepsStoredRow | api/src/main/java/dk/dbc/search/work/presentation/api/jpa/CacheEntity.java:119-126 | a found entity saved through refresh stores nothing: the row keeps its old columns, where a merge stores the new ones |
| JpaEntities.CacheEntity.From | api/src/main/java/dk/dbc/search/work/presentation/api/jpa/CacheEntity.java:72-79 | the stored row, not to be inserted, or a blank entity to be inserted when the key is absent |
| JpaEntities.CacheEntity.SaveAsWritten | api/src/main/java/dk/dbc/search/work/presentation/api/jpa/CacheEntity.java:119-126 | as written: a new entity is inserted; a found one is reloaded from its row, losing the columns set on it |
| JpaEntities.CacheEntity.Save | api/src/main/java/dk/dbc/search/work/presentation/api/jpa/CacheEntity.java:119-126 | corrected: the row holds the entity's columns, inserted or merged |
| JpaEntities.CacheEntity.Delete | api/src/main/java/dk/dbc/search/work/presentation/api/jpa/CacheEntity.java:128-133 | a found entity's row is removed; a new one changes nothing |
| JpaEntities.UpdatedContainsExact | api/src/main/java/dk/dbc/search/work/presentation/api/jpa/WorkContainsEntity.java:108-117 | after the update the work holds exactly the listed manifestations and no other work's rows change |
| JpaEntities.UpdatedByPhases | api/src/main/java/dk/dbc/search/work/presentation/api/jpa/WorkContainsEntity.java:108-117 | saving the listed rows, then deleting the stored rows not listed, gives exactly that table |
| JpaEntities.WorkContainsEntity.From | api/src/main/java/dk/dbc/search/work/presentation/api/jpa/WorkContainsEntity.java:69-78 | the row for the pair if stored, else a new entity for the pair to be inserted |
| JpaEntities.WorkContainsEntity.ListFrom | api/src/main/java/dk/dbc/search/work/presentation/api/jpa/WorkContainsEntity.java:87-97 | exactly the manifestations stored for the work |
| JpaEntities.WorkContainsEntity.Save | api/src/main/java/dk/dbc/search/work/presentation/api/jpa/WorkContainsEntity.java:131-138 | a new pair is inserted; a found one is reloaded and stays as stored; no other pair changes |
| JpaEntities.WorkContainsEntity.Delete | api/src/main/java/dk/dbc/search/work/presentation/api/jpa/WorkContainsEntity.java:140-145 | a found pair is removed; a new one changes nothing |
| JpaEntities.WorkContainsEntity.UpdateToList | api/src/main/java/dk/dbc/search/work/presentation/api/jpa/WorkContainsEntity.java:108-117 | the table becomes the one where the work holds exactly the listed manifestations |
| JpaEntities.WorkContainsEntity.SaveAll | api/src/main/java/dk/dbc/search/work/presentation/api/jpa/WorkContainsEntity.java:110-113 | saving each listed entity adds exactly their pairs |
| JpaEntities.WorkContainsEntity.DeleteAll | api/src/main/java/dk/dbc/search/work/presentation/api/jpa/WorkContainsEntity.java:114-116 | deleting each remaining stored entity removes exactly their pairs |
| JpaEntities.WorkObjectEntity.constructor | api/src/main/java/dk/dbc/search/work/presentation/api/jpa/WorkObjectEntity.java:132-139 | a new entity with every column given, to be inserted |
| JpaEntities.WorkObjectEntity.From | api/src/main/java/dk/dbc/search/work/presentation/api/jpa/WorkObjectEntity.java:81-90 | the stored row, or a new blank entity for the id to be inserted |
| JpaEntities.WorkObjectEntity.ReadOnlyFrom | api/src/main/java/dk/dbc/search/work/presentation/api/jpa/WorkObjectEntity.java:92-99 | null exactly when no row has the id, else a detached copy of that row |
| JpaEntities.WorkObjectEntity.FromCorepoWorkId | api/src/main/java/dk/dbc/search/work/presentation/api/jpa/WorkObjectEntity.java:101-112 | null exactly when no row has the corepo work id, else a row that has it |
| JpaEntities.WorkObjectEntity.ReadOnlyFromCorepoWorkId | api/src/main/java/dk/dbc/search/work/presentation/api/jpa/WorkObjectEntity.java:114-125 | null exactly when no row has the corepo work id, else a detached copy of a row that has it |
| JpaEntities.WorkObjectEntity.Save | api/src/main/java/dk/dbc/search/work/presentation/api/jpa/WorkObjectEntity.java:146-153 | inserted when new, merged when found: the row under the id holds the entity's columns afterwards, and no other row changes |
| JpaEntities.WorkObjectEntity.Delete | api/src/main/java/dk/dbc/search/work/presentation/api/jpa/WorkObjectEntity.java:155-161 | a found entity's row is removed; a new one changes nothing |
| WorkTrees.PutSpec | worker/src/main/java/dk/dbc/search/work/presentation/worker/tree/WorkTree.java:35 | putting a unit keeps keys distinct, stores the new entry, keeps every entry of another key, adds a new key at the end and keeps the size for a present key |
| WorkTrees.UnitBuildersMember | worker/src/main/java/dk/dbc/search/work/presentation/worker/ParallelCacheContentBuilder.java:125-126 | a builder is among a unit's builders exactly when it sits under some stream of some object of the unit |
| WorkTrees.TreeBuildersMember | worker/src/main/java/dk/dbc/search/work/presentation/worker/ParallelCacheContentBuilder.java:124-125 | a builder is among the tree's builders exactly when it is among some unit's |
| WorkTrees.ActiveMember | worker/src/main/java/dk/dbc/search/work/presentation/worker/ParallelCacheContentBuilder.java:123-129 | a builder is active exactly when it is one of the builders and is not deleted |
| WorkTrees.IdsOf | worker/src/main/java/dk/dbc/search/work/presentation/worker/ParallelCacheContentBuilder.java:131-135 | the set holds exactly the builders' manifestation ids |
| WorkTrees.ObjectCandidatesSpec | worker/src/main/java/dk/dbc/search/work/presentation/worker/tree/WorkTree.java:58-62 | there is no candidate exactly when no object of the unit is primary; otherwise the last candidate is the last primary object |
| WorkTrees.PrimaryOfSpec | worker/src/main/java/dk/dbc/search/work/presentation/worker/tree/WorkTree.java:55-65 | the visit finds nothing exactly when no primary object sits in a primary unit; otherwise it keeps the last such object visited |
| WorkTrees.PersistentWorkIdOf | worker/src/main/java/dk/dbc/search/work/presentation/worker/tree/WorkTree.java:72 | the id is "work-of-" followed by the primary object's key, or by "null" when there is none |
| WorkTrees.WorkTree.constructor | worker/src/main/java/dk/dbc/search/work/presentation/worker/tree/WorkTree.java:43-46 | a tree with its work id and time, no units and no primary yet |
| WorkTrees.WorkTree.PutUnit | worker/src/main/java/dk/dbc/search/work/presentation/worker/tree/WorkTree.java:35 | the units become the put of the new unit; the memo is untouched |
| WorkTrees.WorkTree.GetPrimary | worker/src/main/java/dk/dbc/search/work/presentation/worker/tree/WorkTree.java:52-67 | null for a tree without units; otherwise the memo, computed by the visit only while it is unset |
| WorkTrees.WorkTree.GetPersistentWorkId | worker/src/main/java/dk/dbc/search/work/presentation/worker/tree/WorkTree.java:69-73 | null for a tree without units, else "work-of-" and the (memoised) primary |
| WorkTrees.WorkOfNull | worker/src/main/java/dk/dbc/search/work/presentation/worker/tree/WorkTree.java:69-73 | a tree with units but no primary object in a primary unit gets the id "work-of-null" |
| WorkTrees.MemoStable | worker/src/main/java/dk/dbc/search/work/presentation/worker/tree/WorkTree.java:55-66 | once the primary is memoised, adding units changes neither it nor the persistent id |
| CacheUpdate.UpdatedEntryDeleted | worker/src/main/java/dk/dbc/search/work/presentation/worker/cache/CacheInterface.java:47-48 | a deleted builder leaves no entry under its id and changes nothing else |
| CacheUpdate.UpdatedEntryFresh | worker/src/main/java/dk/dbc/search/work/presentation/worker/cache/CacheInterface.java:49-56 | afterwards the entry exists and is not older than the builder; a missing or older entry holds exactly the builder's time and content, a newer or equal one is kept |
| CacheUpdate.UpdatedEntryOnlyItsId | worker/src/main/java/dk/dbc/search/work/presentation/worker/cache/CacheInterface.java:43-57 | no entry but the builder's is added, removed or changed |
| CacheUpdate.UpdatedEntryIdempotent | worker/src/main/java/dk/dbc/search/work/presentation/worker/cache/CacheInterface.java:43-57 | running the same update twice is the same as running it once |
| CacheUpdate.StaleEntryKeptAsWritten | api/src/main/java/dk/dbc/search/work/presentation/api/jpa/CacheEntity.java:119-126 | as written, an entry older than the builder keeps its old time and content and stays stale, where the corrected save refreshes it |
| CacheUpdate.CacheInterface.UpdateCache | worker/src/main/java/dk/dbc/search/work/presentation/worker/cache/CacheInterface.java:43-57 | the cache becomes the update rule applied to the builder with its generated content |
| CacheUpdate.AsyncCacheContentBuilder.GetFromCache | worker/src/main/java/dk/dbc/search/work/presentation/worker/AsyncCacheContentBuilder.java:65-90 | with delete set, a deleted builder removes its entry and gives null; otherwise the update rule applies with the built content and the result is the content the entry now holds |
| CacheUpdate.PendingMember | worker/src/main/java/dk/dbc/search/work/presentation/worker/ParallelCacheContentBuilder.java:93-101 | a job is started for a builder exactly when it is not deleted and its entry is missing or older |
| CacheUpdate.RebuiltOutcome | worker/src/main/java/dk/dbc/search/work/presentation/worker/ParallelCacheContentBuilder.java:102-110 | the run fails exactly when some build fails, with that build's message wrapped; entries no job touches are kept, and on success the jobs' ids are added |
| CacheUpdate.RebuiltRows | worker/src/main/java/dk/dbc/search/work/presentation/worker/ParallelCacheContentBuilder.java:144-167 | when every build succeeds, each job's entry holds its builder's time and content |
| CacheUpdate.UpdateCacheEffect | worker/src/main/java/dk/dbc/search/work/presentation/worker/ParallelCacheContentBuilder.java:72-111 | every recorded but no longer active entry is gone; after a successful run every active builder's entry exists and is not older than the builder |
| CacheUpdate.ParallelCacheContentBuilder.DeleteEntries | worker/src/main/java/dk/dbc/search/work/presentation/worker/ParallelCacheContentBuilder.java:89-91 | exactly the given ids' entries are removed |
| CacheUpdate.ParallelCacheContentBuilder.DeleteCacheForCorepoWorkId | worker/src/main/java/dk/dbc/search/work/presentation/worker/ParallelCacheContentBuilder.java:65-70 | the entries of every manifestation recorded for the work are removed, and no others |
| CacheUpdate.ParallelCacheContentBuilder.UpdateCache | worker/src/main/java/dk/dbc/search/work/presentation/worker/ParallelCacheContentBuilder.java:72-111 | the cache and the error are the run over the stale active builders after the deletion of recorded inactive entries |
| CacheUpdate.ParallelCacheContentBuilder.StartJobs | worker/src/main/java/dk/dbc/search/work/presentation/worker/ParallelCacheContentBuilder.java:93-101 | one fresh entity per pending builder, in the builders' order, each for its builder's id |
| CacheUpdate.ParallelCacheContentBuilder.RunJobs | worker/src/main/java/dk/dbc/search/work/presentation/worker/ParallelCacheContentBuilder.java:102-110 | the jobs are built and saved in order, stopping at the first failure, as the run describes |
| CacheUpdate.ParallelCacheContentBuilder.UpdateWorkContains | worker/src/main/java/dk/dbc/search/work/presentation/worker/ParallelCacheContentBuilder.java:113-121 | the work's recorded manifestations become exactly the active builders' ids |
| CacheUpdate.ParallelCacheContentBuilder.EntitiesFor | worker/src/main/java/dk/dbc/search/work/presentation/worker/ParallelCacheContentBuilder.java:117-119 | one entity per id, no id twice, each new exactly when its pair is not yet stored |
| WorkConsolidation.CacheContentFor | worker/src/main/java/dk/dbc/search/work/presentation/worker/WorkConsolidator.java:148-153 | the cached content is returned exactly when the entry exists and has content; otherwise the "Got null content for" error |
| WorkConsolidation.ContentsOfSpec | worker/src/main/java/dk/dbc/search/work/presentation/worker/WorkConsolidator.java:119-125 | a unit's contents are found exactly when every builder's entry has content, and are then exactly those contents; otherwise the error names a builder without content |
| WorkConsolidation.UnitInformationOk | worker/src/main/java/dk/dbc/search/work/presentation/worker/WorkConsolidator.java:117-127 | the unit map is built exactly when every unit's manifestations are found |
| WorkConsolidation.UnitInformationEntries | worker/src/main/java/dk/dbc/search/work/presentation/worker/WorkConsolidator.java:117-127 | a built map has one entry per unit, holding that unit's manifestations |
| WorkConsolidation.UnitInformationFails | worker/src/main/java/dk/dbc/search/work/presentation/worker/WorkConsolidator.java:118-126 | once some unit fails, the whole map fails with that unit's error |
| WorkConsolidation.SubjectsOf | worker/src/main/java/dk/dbc/search/work/presentation/worker/WorkConsolidator.java:130-138 | a subject is in the work's subjects exactly when some manifestation of some unit has it |
| WorkConsolidation.WorkInformationOfSpec | worker/src/main/java/dk/dbc/search/work/presentation/worker/WorkConsolidator.java:103-140 | the record copies the owner's creators, description and titles, has one entry per unit with its manifestations and collects their subjects; it is refused exactly when the owner or some unit's manifestation lacks content |
| WorkConsolidation.TreeTimesFrom | worker/src/main/java/dk/dbc/search/work/presentation/worker/WorkConsolidator.java:78-85 | every time collected is the tree's, a unit's or an object's |
| WorkConsolidation.UnitTimeIn | worker/src/main/java/dk/dbc/search/work/presentation/worker/WorkConsolidator.java:80-81 | every unit's time is collected |
| WorkConsolidation.ObjectTimeIn | worker/src/main/java/dk/dbc/search/work/presentation/worker/WorkConsolidator.java:82-84 | every object's time is collected |
| WorkConsolidation.LatestTime | worker/src/main/java/dk/dbc/search/work/presentation/worker/WorkConsolidator.java:78-88 | the stored time is one of the tree's times and no tree, unit or object time lies after it |
| WorkConsolidation.WorkConsolidator.CollectTimes | worker/src/main/java/dk/dbc/search/work/presentation/worker/WorkConsolidator.java:78-85 | the stream holds the tree's time, then each unit's time followed by its objects' times |
| WorkConsolidation.WorkConsolidator.SaveWork | worker/src/main/java/dk/dbc/search/work/presentation/worker/WorkConsolidator.java:75-91 | a tree with units is stored under its persistent id with the corepo work id, the latest time and the content; other rows are untouched |
| WorkConsolidation.WorkConsolidator.DeleteWork | worker/src/main/java/dk/dbc/search/work/presentation/worker/WorkConsolidator.java:60-63 | nothing changes when no row has the corepo work id; otherwise one such row is removed |
| WorkConsolidation.WorkConsolidator.BuildWorkInformation | worker/src/main/java/dk/dbc/search/work/presentation/worker/WorkConsolidator.java:103-140 | the result is the record the consolidation describes, under the tree's persistent id |
| CorepoCaching.FirstRequest | worker/src/main/java/dk/dbc/search/work/presentation/worker/CorepoCache.java:40-53 | a first request keeps what the fetch did: bytes are returned, a runtime exception is kept and rethrown, a null keeps nothing and fails with the impossible-case exception |
| CorepoCaching.LaterRequest | worker/src/main/java/dk/dbc/search/work/presentation/worker/CorepoCache.java:40-53 | once a URI is kept, every later request gives the same outcome and changes nothing, whatever the fetch would do now |
| CorepoCaching.OtherUris | worker/src/main/java/dk/dbc/search/work/presentation/worker/CorepoCache.java:40-53 | a request changes no other URI's entry |
| CorepoCaching.CorepoCache.ComputeIfAbsent | worker/src/main/java/dk/dbc/search/work/presentation/worker/CorepoCache.java:40-53 | the cache and the outcome are one request step, and the fetch is called only for a URI not yet kept |
| CorepoCaching.CorepoCache.Clear | worker/src/main/java/dk/dbc/search/work/presentation/worker/CorepoCache.java:56-58 | every entry is forgotten |
| ElementHandling.AttributeMapKeys | worker/src/main/java/dk/dbc/search/work/presentation/worker/corepo/ElementHandler.java:91-100 | a key is stored exactly when some attribute is stored under it, by its name or by its namespaced name |
| ElementHandling.AttributeMapLast | worker/src/main/java/dk/dbc/search/work/presentation/worker/corepo/ElementHandler.java:91-100 | each key holds the value of the last attribute stored under it |
| ElementHandling.NodeReports | worker/src/main/java/dk/dbc/search/work/presentation/worker/corepo/ElementHandler.java:84-118 | an element's events report, besides an element still open before them, exactly one element per start tag, and leave the buffer closed |
| ElementHandling.ContentReports | worker/src/main/java/dk/dbc/search/work/presentation/worker/corepo/ElementHandler.java:84-118 | content with a child element reports the open element once and closes the buffer; content without one reports nothing and keeps it open |
| ElementHandling.ContentAfterClose | worker/src/main/java/dk/dbc/search/work/presentation/worker/corepo/ElementHandler.java:84-118 | content after a closed buffer reports one element per start tag and leaves the buffer closed |
| ElementHandling.DocumentReports | worker/src/main/java/dk/dbc/search/work/presentation/worker/corepo/ElementHandler.java:84-118 | a well-nested document yields exactly one element call per element |
| ElementHandling.ElementHandler.StartElement | worker/src/main/java/dk/dbc/search/work/presentation/worker/corepo/ElementHandler.java:84-102 | a still-open element is reported with null text, then the tag and its attributes are recorded and a fresh buffer opened |
| ElementHandling.ElementHandler.Characters | worker/src/main/java/dk/dbc/search/work/presentation/worker/corepo/ElementHandler.java:105-108 | text extends an open buffer and reports nothing |
| ElementHandling.ElementHandler.EndElement | worker/src/main/java/dk/dbc/search/work/presentation/worker/corepo/ElementHandler.java:111-118 | an open buffer's element is reported with its text and the buffer closed; otherwise nothing happens |
| ElementHandling.ElementHandler.Parse | worker/src/main/java/dk/dbc/search/work/presentation/worker/corepo/ElementHandler.java:65-74 | feeding events in order leaves the state and the reports of the run over them |
| ElementHandling.ParseReports | worker/src/main/java/dk/dbc/search/work/presentation/worker/corepo/ElementHandler.java:65-74 | a fresh handler fed a parse makes exactly the element calls of the run |
| SimpleFieldsDecoding.FieldsOfTexts | worker/src/main/java/dk/dbc/search/work/presentation/worker/corepo/SimpleFields.java:43-47 | a name is in the map exactly when some element of that name had text, and then it holds all those texts in document order |
| SimpleFieldsDecoding.SimpleFields.constructor | worker/src/main/java/dk/dbc/search/work/presentation/worker/corepo/SimpleFields.java:38-41 | a decoder fed a whole parse, its map built from the parse's element calls |
| SimpleFieldsDecoding.SimpleFields.Element | worker/src/main/java/dk/dbc/search/work/presentation/worker/corepo/SimpleFields.java:43-47 | non-null text is appended to its name's list; null text is ignored |
| SimpleFieldsDecoding.SimpleFields.GetFirst | worker/src/main/java/dk/dbc/search/work/presentation/worker/corepo/SimpleFields.java:49-54 | null exactly when the name had no text, else its first text in document order |
| SimpleFieldsDecoding.SimpleFields.GetList | worker/src/main/java/dk/dbc/search/work/presentation/worker/corepo/SimpleFields.java:56-58 | every text of the name in document order; empty for an absent name |
| SimpleFieldsDecoding.SimpleFields.GetFields | worker/src/main/java/dk/dbc/search/work/presentation/worker/corepo/SimpleFields.java:60-62 | one list per name that had text, holding its texts in order |
| RelsSysDecoding.DescribedId | worker/src/main/java/dk/dbc/search/work/presentation/worker/corepo/RelsSys.java:99-103 | the id is the about value after its first '/', or the whole value without one |
| RelsSysDecoding.AfterFirstSplit | worker/src/main/java/dk/dbc/search/work/presentation/worker/corepo/RelsSys.java:102 | what follows the first occurrence of a character, together with what precedes it, rebuilds the string |
| RelsSysDecoding.IdOfLast | worker/src/main/java/dk/dbc/search/work/presentation/worker/corepo/RelsSys.java:97-106 | the last Description with an about attribute names the id |
| RelsSysDecoding.IdOfNone | worker/src/main/java/dk/dbc/search/work/presentation/worker/corepo/RelsSys.java:97-106 | without such a Description there is no id |
| RelsSysDecoding.RelsSysOf | worker/src/main/java/dk/dbc/search/work/presentation/worker/corepo/RelsSys.java:46-66 | no id is the IllegalStateException; a work has no parent and is primary; a record neither unit nor work has no children |
| RelsSysDecoding.SimpleFieldsWithId.Element | worker/src/main/java/dk/dbc/search/work/presentation/worker/corepo/RelsSys.java:97-106 | a Description with about sets the id, then the simple fields are updated |
| RelsSysDecoding.RelsSysFrom | worker/src/main/java/dk/dbc/search/work/presentation/worker/corepo/RelsSys.java:46-66 | the record decoded from the parse's id and fields |
| RelsSysDecoding.UnitPrimary | worker/src/main/java/dk/dbc/search/work/presentation/worker/corepo/RelsSys.java:53-56 | a unit is primary exactly when some isPrimaryUnitObjectFor element has text |
| RelsExtTypes.AllKinds | worker/src/main/java/dk/dbc/search/work/presentation/worker/corepo/RelsExtType.java:32-49 | the eighteen kinds are listed once each |
| RelsExtTypes.FromText | worker/src/main/java/dk/dbc/search/work/presentation/worker/corepo/RelsExtType.java:51-66 | looking up a kind's text gives the kind back |
| RelsExtTypes.FromOnlyTexts | worker/src/main/java/dk/dbc/search/work/presentation/worker/corepo/RelsExtType.java:64-66 | a lookup finds a kind whose text is the string, and finds nothing exactly when no kind has that text |
| RelsExtTypes.TextsDistinct | worker/src/main/java/dk/dbc/search/work/presentation/worker/corepo/RelsExtType.java:51-53 | no two kinds share a text, as building the lookup table requires |
| RelsExtDecoding.RelsExtOf | worker/src/main/java/dk/dbc/search/work/presentation/worker/corepo/RelsExt.java:40-53 | a kind is in the table exactly when a field has its text, and holds that field's list; other fields are dropped |
| RelsExtDecoding.GetInDocumentOrder | worker/src/main/java/dk/dbc/search/work/presentation/worker/corepo/RelsExt.java:55-57 | a kind's ids are its elements' texts in document order, empty for an absent kind; no known kind gives an empty table |
| RelsExtDecoding.ForEachOnce | worker/src/main/java/dk/dbc/search/work/presentation/worker/corepo/RelsExt.java:59-61 | the walk visits exactly the present kinds, each once |
| RelsExtDecoding.RelsExtFrom | worker/src/main/java/dk/dbc/search/work/presentation/worker/corepo/RelsExt.java:40-53 | the table decoded from the parse's fields |
| MetaDataDecoding.GatherFails | worker/src/main/java/dk/dbc/search/work/presentation/worker/corepo/ObjectMetaData.java:92-97 | parsing fails exactly when some timestamp element has no text |
| MetaDataDecoding.GatherLast | worker/src/main/java/dk/dbc/search/work/presentation/worker/corepo/ObjectMetaData.java:87-104 | the id is the last profile's pid, each timestamp the last text of its element, and active whether the last state text is "A" |
| MetaDataDecoding.FailedStays | worker/src/main/java/dk/dbc/search/work/presentation/worker/corepo/ElementHandler.java:65-74 | once a timestamp text was missing the parse stays failed |
| MetaDataDecoding.ObjectMetaDataOf | worker/src/main/java/dk/dbc/search/work/presentation/worker/corepo/ObjectMetaData.java:38-52 | construction succeeds exactly when pid, created, modified and active are all present, and then holds them; a missing pid gives its message |
| MetaDataDecoding.DataStreamMetaDataOf | worker/src/main/java/dk/dbc/search/work/presentation/worker/corepo/DataStreamMetaData.java:37-48 | construction succeeds exactly when pid, created and active are present, and then holds them; a missing pid gives its message |
| MetaDataDecoding.ObjectMetaDataOfDocument | worker/src/main/java/dk/dbc/search/work/presentation/worker/corepo/ObjectMetaData.java:38-104 | an object's metadata is refused exactly when a timestamp text or an element is missing; otherwise it is the last profile's pid, the last timestamps and whether the last state is "A" |
| MetaDataDecoding.DataStreamMetaDataOfDocument | worker/src/main/java/dk/dbc/search/work/presentation/worker/corepo/DataStreamMetaData.java:37-93 | a datastream's metadata is refused exactly when a timestamp text or an element is missing; otherwise it is the last profile's pid, the last creation time and whether the last state is "A" |
| MetaDataDecoding.MetaDataHandler.Element | worker/src/main/java/dk/dbc/search/work/presentation/worker/corepo/ObjectMetaData.java:87-104 | the field the element names is set; a null timestamp text fails |
| MetaDataDecoding.ObjectMetaDataFrom | worker/src/main/java/dk/dbc/search/work/presentation/worker/corepo/ObjectMetaData.java:38-52 | the object metadata decoded from the parse |
| MetaDataDecoding.DataStreamMetaDataFrom | worker/src/main/java/dk/dbc/search/work/presentation/worker/corepo/DataStreamMetaData.java:37-48 | the datastream metadata decoded from the parse |
| MetaDataDecoding.DataStreamsHandler.Element | worker/src/main/java/dk/dbc/search/work/presentation/worker/corepo/DataStreams.java:59-65 | a datastream element's dsid, when it has one, joins the set |
| MetaDataDecoding.DataStreamsFrom | worker/src/main/java/dk/dbc/search/work/presentation/worker/corepo/DataStreams.java:35-38 | the set holds exactly the dsid of every datastream element that has one |
| QuickPooling.LeaseDiscipline | worker/src/main/java/dk/dbc/search/work/presentation/worker/pool/QuickPool.java:163-183 | the pool stays consistent; a failed borrow changes nothing; an object leased is never an invalidated one and is returned after a normal end or an exception, invalidated after a BadObjectException, and left leased only after an Error |
| QuickPooling.InvalidatedNeverReused | worker/src/main/java/dk/dbc/search/work/presentation/worker/pool/QuickPool.java:169-171 | an invalidated object is never leased again and never becomes idle |
| QuickPooling.ExecValueIsCall | worker/src/main/java/dk/dbc/search/work/presentation/worker/pool/QuickPool.java:218-237 | valueExec followed by value() returns what valueCall returns and throws what it throws, a checked exception wrapped |
| QuickPooling.ExecNeverThrows | worker/src/main/java/dk/dbc/search/work/presentation/worker/pool/QuickPool.java:218-237 | valueExec never throws an exception: a borrow failure and every exception of the scope come back as an error result |
| QuickPooling.QuickPool.ValueCall | worker/src/main/java/dk/dbc/search/work/presentation/worker/pool/QuickPool.java:163-183 | the pool after one lease, and the scope's value or its failure propagated unchecked |
| QuickPooling.QuickPool.ValueExec | worker/src/main/java/dk/dbc/search/work/presentation/worker/pool/QuickPool.java:218-237 | the same lease, with every exception returned as an error result |
| QuickPooling.RaiseTopTestsOnlyTheTop | worker/src/main/java/dk/dbc/search/work/presentation/worker/pool/QuickPool.java:325-330 | raise throws exactly when the carried exception itself is an instance of the class, then agreeing with the cause-walking raise; a value passes and value() returns it |
| QuickPooling.NestedAsWrittenSpins | worker/src/main/java/dk/dbc/search/work/presentation/worker/pool/QuickPool.java:332-340 | as written, a carried exception that is not an instance of the class is tested forever |
| QuickPooling.NestedAsWrittenThrowsTop | worker/src/main/java/dk/dbc/search/work/presentation/worker/pool/QuickPool.java:332-340 | as written, a carried exception that is an instance of the class is thrown on the first pass |
| QuickPooling.NestedCauseNeverReached | worker/src/main/java/dk/dbc/search/work/presentation/worker/pool/QuickPool.java:332-340 | a RuntimeException caused by an IOException makes raiseNested(IOException) loop, where walking the causes throws the IOException |
| ScriptBuilding.SetOnceOnly | javascript/src/main/java/dk/dbc/search/work/presentation/javascript/JavascriptBuilder.java:155-163 | a setting succeeds exactly for a non-null value on an unset field and stores it; null is the IllegalArgumentException, a set field the IllegalStateException; after success every later setting fails |
| ScriptBuilding.FirstPresentFirst | javascript/src/main/java/dk/dbc/search/work/presentation/javascript/JavascriptBuilder.java:165-171 | the result is an argument preceded only by nulls; it is null only when every argument is |
| ScriptBuilding.Or | javascript/src/main/java/dk/dbc/search/work/presentation/javascript/JavascriptBuilder.java:165-171 | the loop returns the first non-null argument, or null |
| ScriptBuilding.ScriptBuilder.SetScriptFileName | javascript/src/main/java/dk/dbc/search/work/presentation/javascript/JavascriptBuilder.java:60-63 | the script file is set once, with the set-once errors, and nothing else changes |
| ScriptBuilding.ScriptBuilder.SetMethodName | javascript/src/main/java/dk/dbc/search/work/presentation/javascript/JavascriptBuilder.java:71-74 | the method name is set once, with the set-once errors, and nothing else changes |
| ScriptBuilding.ScriptBuilder.SetClassLoader | javascript/src/main/java/dk/dbc/search/work/presentation/javascript/JavascriptBuilder.java:82-85 | the class loader is set once, with the set-once errors, and nothing else changes |
| ScriptBuilding.ScriptBuilder.AppendPath | javascript/src/main/java/dk/dbc/search/work/presentation/javascript/JavascriptBuilder.java:93-96 | the path is added at the end |
| ScriptBuilding.ScriptBuilder.PrependPath | javascript/src/main/java/dk/dbc/search/work/presentation/javascript/JavascriptBuilder.java:104-107 | the path is added at the front |
| ScriptBuilding.ScriptBuilder.AppendPaths | javascript/src/main/java/dk/dbc/search/work/presentation/javascript/JavascriptBuilder.java:115-118 | the paths are added at the end in their order |
| ScriptBuilding.ScriptBuilder.PrependPaths | javascript/src/main/java/dk/dbc/search/work/presentation/javascript/JavascriptBuilder.java:126-129 | the paths are added at the front in their order |
| ScriptBuilding.ScriptBuilder.Build | javascript/src/main/java/dk/dbc/search/work/presentation/javascript/JavascriptBuilder.java:136-153 | each unset setting takes its default, an empty path list gets the default search path, and the supplier shares the builder's path list |
| ScriptBuilding.CacheObjectBuilder | javascript/src/main/java/dk/dbc/search/work/presentation/javascript/JavascriptCacheObjectBuilder.java:61-78 | a fresh builder with nothing set, no paths and the defaults "BuildCacheObject.js" and "buildManifestationInformation" |
| ScriptBuilding.AppendPathsInOrder | javascript/src/main/java/dk/dbc/search/work/presentation/javascript/JavascriptBuilder.java:93-118 | appending paths one by one is appending the list |
| ScriptBuilding.PrependPathsInOrder | javascript/src/main/java/dk/dbc/search/work/presentation/javascript/JavascriptBuilder.java:104-129 | prepending the list's paths one by one in reverse order puts the list in its order at the front |
| ScriptBuilding.Get | javascript/src/main/java/dk/dbc/search/work/presentation/javascript/JavascriptBuilder.java:143-152 | the supplier returns what creation returns; any exception, unchecked ones included, is thrown wrapped in a new RuntimeException; an Error passes |
| ScriptBuilding.NormalisedShape | javascript/src/main/java/dk/dbc/search/work/presentation/javascript/JavascriptCacheObjectBuilder.java:208-219 | a registered path ends in ':' or '/', differs from the given one only by an added '/', is the given one exactly when that already ends so, and normalising twice changes nothing |
| ScriptBuilding.RegisterSearchPaths | javascript/src/main/java/dk/dbc/search/work/presentation/javascript/JavascriptCacheObjectBuilder.java:208-213 | every search path is registered in order, normalised |
| ScriptBuilding.FindFileFirst | javascript/src/main/java/dk/dbc/search/work/presentation/javascript/JavascriptCacheObjectBuilder.java:329-351 | the file found is the candidate of the first search path where it is present; it fails, with FileNotFoundException "Cannot locate", exactly when no candidate is present |
| ScriptBuilding.FindFile | javascript/src/main/java/dk/dbc/search/work/presentation/javascript/JavascriptCacheObjectBuilder.java:329-351 | the loop finds what the search describes |
| ScriptBuilding.NewCacheObjectEnvironment | javascript/src/main/java/dk/dbc/search/work/presentation/javascript/JavascriptCacheObjectBuilder.java:203-225 | the environment registers the normalised paths and loads the script found along them, or fails with the lookup's exception |
| ScriptBuilding.CacheObjectSupplied | javascript/src/main/java/dk/dbc/search/work/presentation/javascript/JavascriptCacheObjectBuilder.java:162-225 | the supplier fails exactly when no search path has the script, then with a RuntimeException caused by the FileNotFoundException; otherwise the environment calls the resolved method with every path registered in order |

## Left out

- OwnerPriority.Decay: the factor `1 / ln(x + e)` is replaced by the rational `2 / (x + 2)`. Every proof uses only what that stand-in shares with it: Decay(0) = 1, positive, strictly decreasing. No score is checked as a floating-point number.
- Floating-point rounding of the scores is not modelled; scores are exact reals.
- OwnerSelection.KeysInOrder: ties are ordered as a stable sort orders them, because the script runs on Nashorn, whose `Array.prototype.sort` delegates to `java.util.Arrays.sort`, a stable merge sort; ECMAScript 5.1, which Nashorn implements, does not require a stable sort, so another engine may order ties differently.
- OwnerPriority.NormalizeType: `toLowerCase` is modelled for ASCII letters only. Every other UTF-16 code unit becomes a space, as the pattern `[^0-9a-z]` keeps only ASCII; the few non-ASCII characters whose lower case is ASCII or longer (the Kelvin sign, U+0130) are not modelled.
- OwnerPriority.IdBonus: the identifier is never null in the model; for a manifestation whose priority keys have no identifier, the script's `split` throws a `TypeError`.
- OwnerPriority.GetTypePrio: the test `name in TYPE_PRIORITY` is also true for names the object inherits, such as "constructor", for which the script returns a function instead of a number; the model looks up the table's own keys only.
- The logging loop of selectWorkOwner and all `Log` calls are left out: they do not affect results.
- The deletion-penalty fixture of the script's tests tests a function the script does not define; it is not modelled.
- NaturalSorting.LengthMark: Java's `(char)('@' + n)` wraps at 16 bits and can produce a lone surrogate; digit runs of 55232 digits or more are capped at U+D7FF here.
- NaturalSorting.CompareStrings: Java compares UTF-16 code units; characters outside the Basic Multilingual Plane are compared here as whole code points.
- TypedValues: Unicode NFC normalisation and root-locale lower-casing are parameters `nfc` and `lower`; no property of them is assumed beyond what each example lemma requires.
- TypedValues: the tests for "" types expect the type "not specified", but `with` keeps "" as it is; the model follows the code.
- TypedValues.DistinctSet: a null value makes the source throw a `NullPointerException`; values are never null in the model.
- TypedValues.StringHash: Java's `String.hashCode` folds over UTF-16 code units; the model folds over code points, so the hash of a string with characters outside the Basic Multilingual Plane differs.
- TypedValues: `HashSet` iteration order is not modelled; the result is a mathematical set.
- PresentationPojo.RelationOnlyPresentationFieldsKeeps: the relation projection drops the work types although the manifestation projection keeps them; the code does this and the model follows it.
- Java object identity (`this == o`), class checks and the numeric value of `hashCode` for the presentation records are not modelled; equality is on the field values, and the hash is modelled by the fields it ranges over.
- RelationIndex.RelationIndexComputer.constructor: requires every relation to have an id and a type; the code only dereferences the type when two ids tie, so inputs with a null type and no tie are outside the model.
- RelationIndex.SortedList: the order among responses that compare as 0 (same id and type, different material types) is left open, as the code leaves it to the iteration order of a hash set and the stability of the sort.
- RelationIndex: a unit's relations are a sequence; the code takes them from a hash set whose membership uses the relation equality as written, so its de-duplication of the units' own sets is not modelled.
- FilterResults.ProcessWork: the search index is a parameter (the set of visible ids); the relation ids it would be asked about are returned, but its answer is not used, since the snapshot's two-argument `RelationIndexComputer` constructor does not exist and the extra argument's meaning is not modelled. Creators, subjects and series of the work response are not modelled, since the snapshot's `WorkInformation` lacks the fields `WorkInformationResponse.from` reads.
- FilterResults.ManifestationResponse: the `relations` field assigned by `processWork` is not declared in the snapshot's `ManifestationInformationResponse`; the model adds it, and compares responses including it, so `LinkedHashSet` de-duplication across units ignores nothing.
- ExceptionSafety: Java's unchecked cast `(E) t` and class objects are modelled by sets of class names per throwable; a throwable is an instance of a class when the name is in its set.
- ExceptionSafety.Get: the message of the wrapping `RuntimeException` (the cause's `toString`) is not modelled; it is None.
- WorkPresentation: `NewWorkIdException` and `NoSuchProfileException` are not part of this model; they are taken as unchecked exceptions, since `processRequest` declares no checked exceptions while throwing them, and the new work id is carried as the exception's message.
- WorkPresentation.ReplaceWorkId: the redirect's base URI and the URI encoding of the query are not modelled; the redirect is the list of query parameters.
- WorkPresentation.GetWork: missing parameters give status 404 in the code, while the endpoint's API annotation documents 400 for invalid parameters and `getPersistentWorkId` answers 400; the model follows the code.
- WorkPresentation: logging, the tracking id, `includeRelations` and the agency and profile arguments are not modelled; presenting a stored work is the parameter `present`.
- WorkPresentation.GetPersistentWorkId: answers an unknown id with the corrected message, which names the id; as written, the message is the literal text with the unreplaced `{}` (WorkPresentation.CorepoNotFoundMessageDropsId).
- WorkPresentation.Respond: a throwable that is not an `Exception` leaves `get` uncaught; the model returns it as the response `Escaped`, whose status 500 stands for the container's answer, which is not part of this model.
- SolrAccess: the relation-id set is given in its iteration order; query lengths count characters, not UTF-16 code units; Java's 32-bit overflow of `16 + n + n / 16` and of the `(int)` cast of the row count is not modelled (counts are natural numbers).
- SolrAccess.PullSolrManifestations: the index is a fixed list of matching documents, so its row count does not change between the pages of one request; with a changing count the source can make more requests, which the model does not capture. Server and I/O errors (`InternalServerErrorException`) are left out.
- SolrAccess: the profile service that supplies the filter query, and the index itself, are parameters (`filterQuery`, `search`); the HTTP and ZooKeeper clients are not modelled beyond the parsed URL.
- SolrAccess.MakeSolrClient: in the pattern `zk://([^/]*)(/.*)?/([^/]*)` the `.` of the chroot does not match line terminators; the model accepts any character there, so a URL with a line break in its chroot is a ZooKeeper URL in the model and an HTTP URL in the source. SolrAccess.ZkUrlRoundTrip has the same gap.
- WorkerConfig: the HTTP client and its user-agent header are not modelled; the content-service URL is kept as the string it was given, and the `UriBuilder` is not part of this model. `init` reads the URL twice in the code; the model reads it once, since the second read assigns the same value.
- WorkerConfig.UnitWord: `toLowerCase(Locale.ROOT)` is modelled for ASCII letters, and `trim` removes characters up to U+0020 as Java's does.
- WorkerConfig.ParseInt: `Integer.parseInt` also accepts non-ASCII digits through `Character.digit`; the model accepts ASCII digits only.
- WorkerConfig.Ms: `Long.parseLong` of a number beyond the largest long throws a `NumberFormatException`; the model returns that as `NumberFormat`.
- WorkerConfig.Config.PostponeDuration: `Math.random()` is the parameter `random`; the double arithmetic is modelled with exact reals, so the rounding of the product is not modelled.
- Instants: `Instant` is seconds and nanoseconds; `Timestamp.from` and the `Timestamp`/`Instant` conversions are taken as exact.
- CacheBuilders.GenerateContent: the content service and the JavaScript call are parameters; `extractManifestationInformation` and the JSON conversion are not modelled.
- JpaEntities: the entity manager is a set of tables (maps and sets); optimistic locking (`OPTIMISTIC_FORCE_INCREMENT`), version columns, flushing and transaction rollback are not modelled. Entity `equals`/`hashCode` are taken as key equality.
- JpaEntities.WorkObjectEntity.Save: requires an attached entity manager (`em != null`); the source throws a `NullPointerException` for a detached or newly constructed entity.
- JpaEntities.WorkObjectEntity.Delete: requires an attached entity manager, for the same reason.
- JpaEntities.WorkContainsEntity.UpdateToList: requires the listed entities to be distinct and made by `from` for the same work, as `updateWorkContains` makes them; other callers are not modelled.
- WorkConsolidation: `WorkConsolidator` uses `RecordEntity`, which is not part of this model; it is modelled by `WorkObjectEntity`, which has the same `from`, `fromCorepoWorkId`, `save` and `delete`.
- WorkConsolidation.WorkConsolidator.BuildWorkInformation: `WorkTree.getPrimaryManifestationId` is not part of this model, so the owner's manifestation id is a parameter.
- WorkConsolidation.WorkConsolidator.SaveWork: a tree without units has no persistent id, and the source then looks the row up under a null key, which the entity manager rejects with an `IllegalArgumentException`; the model returns without saving anything and does not model that exception. The `InternalServerErrorException` of an empty time stream cannot happen, since the tree's own time is always collected.
- CacheUpdate: `WorkTree.getCorepoWorkId` is not part of this model; the tree's work id stands for it. `CacheContentBuilder.generateContent()` without arguments is not part of this model; the build is the parameter `build`.
- CacheUpdate.AsyncCacheContentBuilder.GetFromCache: `CacheEntity.detachedFrom` is not part of this model; it is modelled as a read of the stored row. Requires every stored entry to have its modified time, as the column is declared not null.
- CacheUpdate: the executor, futures, the MDC logging context and the threads the jobs run on are not modelled; jobs are built and saved one after another in submission order, which is the order the source saves them in.
- CacheUpdate.CacheInterface.UpdateCache: a found entry is saved by the corrected save (a merge), so it takes the builder's time and content; as written, `CacheEntity.save` refreshes a found entity and the stored row is kept unchanged (CacheUpdate.StaleEntryKeptAsWritten).
- CacheUpdate.AsyncCacheContentBuilder.GetFromCache: stores with the corrected save; as written, a found entry keeps its stored row, and the content returned is the newly built one, which then differs from what is stored.
- CacheUpdate.RebuiltRows: states the rows the corrected save writes; as written, a job whose entry was already stored leaves that row as it was.
- CacheUpdate.UpdateCacheEffect: states the effect under the corrected save; as written, an active builder whose entry was stored but older keeps the older entry after a successful run.
- CacheUpdate.ParallelCacheContentBuilder.UpdateCache: runs the jobs with the corrected save; as written, rebuilt entries that were already stored are not updated.
- CacheUpdate.ParallelCacheContentBuilder.RunJobs: saves each job with the corrected save; as written, a job for an entry that is already stored writes nothing.
- WorkTrees: `HashMap` iteration order is modelled as insertion order; the source leaves it unspecified, so which of several primary objects `getPrimary` keeps is fixed here by that order.
- WorkTrees: `UnitTree` and `ObjectTree` relations, `toString` and `prettyPrint` are not modelled.
- CorepoCaching: `ConcurrentHashMap` atomicity and concurrent callers are not modelled; one request runs at a time.
- ElementHandling: the SAX parser is replaced by the sequence of its callbacks; XML well-formedness errors (`IllegalStateException` "Error parsing XML input") are not modelled.
- MetaDataDecoding: `parseTimeStamp` is not modelled; timestamps are kept as their text, so a `DateTimeParseException` for malformed text is not modelled; only the missing text (`NullPointerException`) is.
- SimpleFieldsDecoding: the unmodifiable views returned by the getters are plain values.
- QuickPooling: the capacity, blocking, `maxIdle`, eviction and validation of the underlying object pool are not modelled; idle objects are reused last-in first-out, the pool's default.
- QuickPooling: what the supplier does when a new object is needed is the parameter `supplied`; `voidCall` and `voidExec` are `valueCall` and `valueExec` at the unit type, and the deprecated `borrowObject` overloads are left out. Threads are not modelled.
- ScriptBuilding.SetOnceOnly: the message of the `IllegalStateException`, which renders the old and new values, is not modelled; only the field is.
- ScriptBuilding: null path elements in `appendPaths`/`prependPaths` are not modelled; `SchemeURI` is taken to split at the first ':'.
- ScriptBuilding: `JsCommonPaths.registerPaths` and the `ModuleHandler` are modelled only as the list of registered paths; evaluating the script, `javaScriptObjectToJson` and `extractManifestationInformation` are left out. Class loaders are known by name.

## Findings

| source | as written | input that shows it | evidently intended | confidence | as-written member | corrected member |
|---|---|---|---|---|---|---|
| api/src/main/java/dk/dbc/search/work/presentation/api/pojo/RelationInformation.java:43-49 | when the manifestation fields differ, or the other object is null, `equals` returns true | two relations with manifestation ids "a" and "b"; or any relation against null | return false when the manifestation fields differ, so equality is record equality and agrees with `hashCode` | not executed | PresentationPojo.RelationEqualsAsWrittenBroken | PresentationPojo.RelationEqualsIsEquality |
| service/src/main/java/dk/dbc/search/work/presentation/service/WorkPresentationBean.java:148 | the not-found message is built with `String.format` and the logging placeholder `{}`, which `String.format` does not replace, so the corepo work id is left out | any two unknown ids, such as "work:1" and "work:2", get the same message | the message names the id that was not found | not executed | WorkPresentation.CorepoNotFoundMessageDropsId | WorkPresentation.CorepoNotFoundMessageNamesId |
| api/src/main/java/dk/dbc/search/work/presentation/api/jpa/CacheEntity.java:119-126 | `save` of a found entity calls `refresh`, which reloads the stored row over the content and time just set on it, so nothing is written | a cache entry with time 1 rebuilt by a builder with time 2: after `save` the entry still has time 1 and its old content | `merge` for a found entity, as `WorkObjectEntity.save` does, so the entry holds the new content and time | not executed | CacheUpdate.StaleEntryKeptAsWritten | CacheUpdate.UpdatedEntryFresh |
| worker/src/main/java/dk/dbc/search/work/presentation/worker/pool/QuickPool.java:332-340 | the loop of `raiseNested` never moves to the cause: it tests the carried exception again on every pass | an unchecked exception caused by an `IOException`, with `raiseNested(IOException.class)`: the loop never ends | walk the cause chain and throw the first instance of the class, else return the result | not executed | QuickPooling.NestedCauseNeverReached | ExceptionSafety.Raise |
