# timelogging: the transcript parser and the analytics aggregator, in Dafny

This project models the two pieces of logic in the timelogging app and
proves properties about them.

- **The landmark transcript parser** (`src/utils/voiceParsing.ts`) turns a spoken or typed line such as
  `from 7 am to 9 am, category: faith, sub-category: bible, description: ESV version` into a partial time-log
  entry. It does this in four steps:
  1. It normalises the text: it drops the word "colon", spells every sub-category variant `sub-category`,
     collapses whitespace and trims.
  2. It splits the text on the keywords `from`, `to`, `category`, `sub-category` and `description`.
  3. It keeps the last non-empty segment after each keyword.
  4. It fills the fields. Times go through `normalizeTime`, the category must be one of the five stored names,
     and the sub-category and description are capitalised.
- **The analytics aggregator** (`src/utils/analytics.ts`) does the following:
  1. It filters a user's logs to a date window.
  2. It totals their durations.
  3. It groups them per category and per (category, sub-category) pair in insertion-ordered maps.
  4. It turns the groups into rows with minutes, tenths of hours, a count and a percentage of the total.
  5. It sorts the category rows by minutes. It sorts the pair rows by their category's place among the
     category rows, then by minutes.
- **The stored record** (`src/utils/storage.ts`) is the TimeLog datatype. Its category is a closed set of five values.

The source's three loops are methods proved against specification functions. `parseVoiceEntry`'s segment loop is
`VoiceParsing.CollectSegments`, and the two `forEach` passes of `getAnalytics` are
`Analytics.TallyCategories` and `Analytics.TallySubCategories`. Everything else is a function, with lemmas about it.

How the files are laid out:

- `text.dfy`: characters, ASCII case, `\s`, `\b` and string comparison.
- `storage.dfy`: the record.
- `voice_parsing.dfy`: the parser.
- `transcript_*.dfy`: how each normalisation pass treats a rendered transcript.
- `time_props.dfy` and `voice_props.dfy`: properties of the parser.
- `voice_examples.dfy` and `example_facts.dfy`: the test suite's examples.
- `seqs.dfy`, `insertion_map.dfy` and `stable_sort.dfy`: sums, a JavaScript `Map`, and `Array.prototype.sort`.
- `analytics.dfy`: the aggregator.
- `analytics_totals.dfy`, `analytics_rows.dfy`, `analytics_sub_rows.dfy` and `analytics_props.dfy`: properties of the aggregator.
- `analytics_examples.dfy`: a worked breakdown and two date windows.
- `findings.dfy`: a discrepancy in the source.

## Model

| member | source | states |
|---|---|---|
| VoiceParsing.NormalizeTime | src/utils/voiceParsing.ts:15-41 | the intended normalizeTime, which looks number words up as own keys of WORD_TO_NUM only, returns nothing but a zero-padded HH:MM with hour 0..23 and minute 0..59 |
| VoiceParsing.FirstToken | src/utils/voiceParsing.ts:24 | `s.split(' ')[0]` is the prefix of s that holds no space and ends at the first space or at the end of s |
| VoiceParsing.MatchClock | src/utils/voiceParsing.ts:30-34 | a match of `^(\d{1,2})(?::(\d{2}))?(?:\s*(am\|pm))?$` has one or two hour digits, two minute digits and at most the period am or pm |
| VoiceParsing.Pad2 | src/utils/voiceParsing.ts:40 | `padStart(2, '0')` of a number below 100 gives two digits that read back as that number |
| VoiceParsing.Capitalize | src/utils/voiceParsing.ts:43 | the result has the same length, the first character upper-cased and the rest unchanged |
| VoiceParsing.CategoryNamed | src/utils/voiceParsing.ts:77-80 | a category is found exactly when the name is one of CATEGORIES, and it is the one with that stored name |
| VoiceParsing.SubMatchLengthSound | src/utils/voiceParsing.ts:54 | what the sub-category scan finds is a `sub\s?-?\s?category` match, 11 to 14 characters long |
| VoiceParsing.SubMatchLengthComplete | src/utils/voiceParsing.ts:54 | every sub-category match at a position is found, with its length |
| VoiceParsing.SubMatchUnique | src/utils/voiceParsing.ts:54 | at one position the pattern matches with at most one middle |
| VoiceParsing.FirstKeywordMatches | src/utils/voiceParsing.ts:58 | the alternative found matches at the position as a whole word, no alternative listed before it matches there, and none is found exactly when no alternative matches |
| VoiceParsing.KeywordAtMatches | src/utils/voiceParsing.ts:58 | a keyword found at a position is one of from, to, category, sub-category and description, written there as a whole word in any case; it is the first of them in the alternation's order that matches; none is found exactly when none matches |
| VoiceParsing.SplitOnKeywordsOdd | src/utils/voiceParsing.ts:58 | `split` with a capturing group always gives an odd number of parts, so each keyword sits at an odd index and is followed by its segment |
| VoiceParsing.CollectSegments | src/utils/voiceParsing.ts:60-65 | the loop builds exactly the segment map of the parts, with the invariant that after k steps it holds the first k pairs |
| VoiceParsing.ParseVoiceEntry | src/utils/voiceParsing.ts:49-91 | the method returns the entry ParseVoice specifies for the transcript |
| VoiceProps.CollectedHas | src/utils/voiceParsing.ts:61-64 | after k steps a key is present exactly when some step stored a non-empty segment under it |
| VoiceProps.CollectedLastWins | src/utils/voiceParsing.ts:61-64 | after k steps the value under a key is the stripped segment of the last step that stored it |
| VoiceProps.SegmentsLastWins | src/utils/voiceParsing.ts:61-64 | for all the parts, a repeated keyword keeps its last non-empty segment, and a segment that strips to nothing never sets or overwrites |
| VoiceProps.NoKeywordsEmpty | src/utils/voiceParsing.ts:50-65 | a transcript with no keyword anywhere in its normal form gives the entry with every field absent |
| VoiceProps.SpellingInvariance | src/utils/voiceParsing.ts:52-56 | transcripts with the same keywords and values give the same entry, whatever the keyword case, the sub-category spelling, a colon or the word "colon", and commas |
| VoiceProps.NoonAnyCase | src/utils/voiceParsing.ts:16-18 | "noon" in any mix of cases is 12:00 |
| VoiceProps.MidnightAnyCase | src/utils/voiceParsing.ts:16-19 | "midnight" in any mix of cases is 00:00 |
| TranscriptRender.ParseRendered | src/utils/voiceParsing.ts:49-91 | a transcript rendered from well-formed clauses parses to each keyword's last value, passed through normalizeTime, the category lookup or capitalize |
| TranscriptValues.PlainJoin | src/utils/voiceParsing.ts:52-58 | two values that the normalisation passes leave alone, joined by a space or a colon, are left alone too |
| TimeProps.MatchClockComplete | src/utils/voiceParsing.ts:30 | every text of the clock pattern is matched, with its own groups |
| TimeProps.MatchClockSound | src/utils/voiceParsing.ts:30 | every text the pattern matches is the text of its groups |
| TimeProps.MeridiemTwelveHour | src/utils/voiceParsing.ts:35-36 | with one of am and pm, hours 1..12 follow the 12-hour clock: 12 am is 0, 12 pm is 12, and h pm is h + 12 below 12 |
| TimeProps.MeridiemRange | src/utils/voiceParsing.ts:27-28 | the meridiem step keeps 24-hour hours in range, keeps the hour without a period, and adds 12 only below noon |
| TimeProps.WordValues | src/utils/voiceParsing.ts:5-11 | every number word names an hour of at most 20 |
| TimeProps.WordHourTime | src/utils/voiceParsing.ts:24-28 | a number word as the first token always gives a time on the hour, with the word's hour after the meridiem step, whatever follows |
| TimeProps.NormalizeClock | src/utils/voiceParsing.ts:29-40 | a time that reads as the clock pattern is normalised from the digits it matched, or rejected when out of range |
| TimeProps.NormalizeClockText | src/utils/voiceParsing.ts:29-40 | the canonical spoken form `h[:mm][ am\|pm]` is normalised from the digits it spells |
| TimeProps.ClockFixed | src/utils/voiceParsing.ts:29-40 | a zero-padded 24-hour time reads back unchanged |
| TimeProps.NormalizeIdempotent | src/utils/voiceParsing.ts:15-41 | normalising a normalised time changes nothing |
| VoiceExamples.FullEntryWithColons | src/utils/voiceParsing.test.ts:7-16 | the whole entry of the "full entry with colons" example |
| VoiceExamples.FullEntryCommaSeparated | src/utils/voiceParsing.test.ts:20-29 | the whole entry of the comma-separated example |
| VoiceExamples.FullEntryNoCommas | src/utils/voiceParsing.test.ts:31-40 | the whole entry of the example without colons or commas |
| VoiceExamples.SpokenColon | src/utils/voiceParsing.test.ts:42-49 | the whole entry when "colon" is spoken as a word |
| VoiceExamples.DetectsAllCategories | src/utils/voiceParsing.test.ts:53-57 | `from 9 to 10, category <name>` sets that category for each of the five names |
| VoiceExamples.CaseInsensitiveLabels | src/utils/voiceParsing.test.ts:59-64 | capitalised labels are recognised and the values are capitalised |
| VoiceExamples.SubcategoryOneWord | src/utils/voiceParsing.test.ts:68-71 | "subcategory" written as one word sets the sub-category |
| VoiceExamples.SubCategoryTwoWords | src/utils/voiceParsing.test.ts:73-76 | "sub category" written as two words sets the sub-category |
| VoiceExamples.NumericTimes | src/utils/voiceParsing.test.ts:80-84 | 9:30 am is 09:30 and 11:45 pm is 23:45 |
| VoiceExamples.NoonAndMidnight | src/utils/voiceParsing.test.ts:86-90 | noon is 12:00 and midnight is 00:00 |
| VoiceExamples.PmConversion | src/utils/voiceParsing.test.ts:92-96 | 1 pm is 13:00 and 3 pm is 15:00 |
| VoiceExamples.OnlyTime | src/utils/voiceParsing.test.ts:100-107 | `from 9 am to 10 am` sets the two times and nothing else |
| VoiceExamples.OnlyLabels | src/utils/voiceParsing.test.ts:109-116 | labelled fields without times leave both times absent |
| VoiceExamples.UnrecognisedCategory | src/utils/voiceParsing.test.ts:118-121 | an unknown category name leaves the category absent |
| VoiceExamples.EmptyTranscript | src/utils/voiceParsing.test.ts:123-125 | the empty transcript gives the empty entry |
| InsertionMap.IndexOf | src/utils/analytics.ts:68 | the index found holds the key with no earlier entry holding it, and no index means no entry holds the key |
| InsertionMap.GetSet | src/utils/analytics.ts:69 | after `map.set(k, v)` k reads back v, other keys are untouched, and the key order is kept, with k appended when new |
| InsertionMap.SumBySet | src/utils/analytics.ts:92 | setting a key changes a sum over the entries by the new entry minus the one it replaces |
| StableSort.SortPermutesAndOrders | src/utils/analytics.ts:83 | the sort (insertion sort by a two-part key) permutes its input and orders it by key |
| StableSort.SortStable | src/utils/analytics.ts:108-113 | elements with equal keys keep their input order |
| Analytics.CategoryRows | src/utils/analytics.ts:75-82 | one row per map entry, in map order, each built from that entry |
| Analytics.SubRows | src/utils/analytics.ts:99-107 | one row per map value, in map order, each built from that value |
| Analytics.CategoryOrder | src/utils/analytics.ts:109 | the list of the breakdown's categories, index by index |
| Analytics.IndexOfCategory | src/utils/analytics.ts:110 | `indexOf` gives the first index of the category, or -1 exactly when it is absent |
| Analytics.TallyCategories | src/utils/analytics.ts:65-73 | the forEach loop builds categoryMap as CategoryTotals specifies, with the invariant that after i logs it holds the totals of the first i |
| Analytics.TallySubCategories | src/utils/analytics.ts:86-97 | the forEach loop builds catSubMap as SubTotals specifies, with the same invariant |
| Analytics.GetAnalytics | src/utils/analytics.ts:32-120 | the method resolves to the snapshot Analytics specifies for the logs, the window and the cutoff |
| AnalyticsTotals.CategoryCountPositive | src/utils/analytics.ts:65-73 | a category has logs exactly when it occurs among them |
| AnalyticsTotals.CategoryTotalsGet | src/utils/analytics.ts:65-73 | categoryMap holds, for each category with logs, the sum of their durations and their number, and nothing for other categories |
| AnalyticsTotals.CategoryTotalsKeys | src/utils/analytics.ts:65-73 | categoryMap's keys are the categories in first-appearance order, each once |
| AnalyticsTotals.CategoryTotalsSums | src/utils/analytics.ts:59-73 | across categoryMap the counts add up to the number of logs and the minutes to totalMinutes |
| AnalyticsTotals.SubKeyInjective | src/utils/analytics.ts:89 | two keys `category\|sub` are equal exactly when their categories and sub-categories are |
| AnalyticsTotals.SubTotalsShape | src/utils/analytics.ts:86-97 | every catSubMap key is made of the category and sub-category its value records, and no key repeats |
| AnalyticsTotals.SubTotalsGet | src/utils/analytics.ts:86-97 | catSubMap holds, under the key of each pair with logs, the pair and the sum and number of its logs, and nothing under the key of a pair without logs |
| AnalyticsTotals.SubTotalsMinutes | src/utils/analytics.ts:86-97 | within one category, the sub-category minutes add up to the category's minutes |
| AnalyticsTotals.SubTotalsCounts | src/utils/analytics.ts:86-97 | within one category, the sub-category counts add up to the category's count |
| AnalyticsRows.BreakdownRows | src/utils/analytics.ts:65-83 | the category breakdown has a row exactly for each category with logs, never two for one, each with that category's minutes, hours, count and percentage |
| AnalyticsRows.BreakdownOrder | src/utils/analytics.ts:75-83 | the category rows are non-increasing in minutes, and rows with equal minutes come in the order their categories first appear among the logs |
| AnalyticsRows.BreakdownSums | src/utils/analytics.ts:59-83 | the category rows' counts add up to the number of logs and their minutes to the total |
| AnalyticsSubRows.SubCountWithin | src/utils/analytics.ts:86-97 | a pair never has more logs than its category |
| AnalyticsSubRows.SubBreakdownRows | src/utils/analytics.ts:86-107 | the sub breakdown has a row exactly for each (category, sub-category or placeholder) pair with logs, never two for one, each with the pair's minutes, hours, count and percentage |
| AnalyticsSubRows.SubBreakdownOrder | src/utils/analytics.ts:108-113 | sub rows follow their categories' places in the category breakdown, every category is found there, each category's rows are contiguous, and within a category minutes do not increase |
| AnalyticsSubRows.SubBreakdownSums | src/utils/analytics.ts:86-107 | per category, the sub rows' minutes and counts add up to the category's |
| AnalyticsSubRows.SubRowsAddUp | src/utils/analytics.ts:75-113 | each category row's minutes and count are the sums over its sub rows |
| AnalyticsProps.LexLeClock | src/utils/analytics.ts:26-30 | HH:MM strings compare as strings the way their (hours, minutes) pairs compare |
| AnalyticsProps.DurationSign | src/utils/analytics.ts:26-30 | within a day the duration lies strictly between -1440 and 1440, is negative exactly when the end is the earlier time, is never wrapped, and is zero exactly for equal times |
| AnalyticsProps.WindowMembers | src/utils/analytics.ts:40-48 | the filter keeps exactly the logs inside the window, and no more logs than it is given |
| AnalyticsProps.WindowAppend | src/utils/analytics.ts:40-48 | the filter decides log by log, so it distributes over concatenation |
| AnalyticsProps.WindowIdempotent | src/utils/analytics.ts:40-48 | filtering the filtered logs again changes nothing |
| AnalyticsProps.WindowAll | src/utils/analytics.ts:40-48 | with no custom range and a missing or zero daysBack every log is kept, in order |
| AnalyticsProps.WindowRangeWins | src/utils/analytics.ts:40-42 | with a custom range, daysBack and the cutoff make no difference |
| AnalyticsProps.HoursRounding | src/utils/analytics.ts:79 | totalHours in tenths is minutes/6 rounded to the nearest integer, halves up |
| AnalyticsProps.PercentRounding | src/utils/analytics.ts:81 | over a non-zero total the percentage is 100·minutes/total rounded to the nearest integer, halves up; over a zero total it is an infinity or NaN |
| AnalyticsProps.PercentBounds | src/utils/analytics.ts:105 | a part between 0 and a positive total gets a percentage between 0 and 100 |
| AnalyticsProps.ResolvedValue | src/utils/analytics.ts:50-56 | the early return on an empty window equals the general result, totalEntries is the number of kept logs, and the category rows add up to it and to the total minutes |
| AnalyticsProps.PercentSum | src/utils/analytics.ts:81 | over a non-zero total, the category percentages add up to 100 within half a point per category, either way |
| AnalyticsExamples.ThreeLogsBreakdown | src/utils/analytics.ts:59-83 | work 09:00-10:00 and 10:00-10:30 with self 09:00-09:15 give work (90 minutes, 1.5 hours, 2 entries, 86%) before self (15 minutes, 0.3 hours, 1 entry, 14%) |
| AnalyticsExamples.ThreeLogsAnalytics | src/utils/analytics.ts:37-119 | with no window those three logs resolve to three entries and that breakdown |
| AnalyticsExamples.RangeExample | src/utils/analytics.ts:40-41 | the range 2024-05-01 to 2024-06-30 keeps the log of 2024-06-01 and drops the one of 2024-01-01, whatever daysBack is |
| AnalyticsExamples.CutoffExample | src/utils/analytics.ts:42-47 | with daysBack 7 and the cutoff 2024-05-29, a log of the cutoff day and one of 2024-06-05 are kept, one of 2024-05-28 is dropped |
| Findings.InheritedRejected | src/utils/voiceParsing.ts:24-31 | with the intended lookup, "constructor" or "__proto__" as the first word is no time |
| Findings.AsWrittenDiffers | src/utils/voiceParsing.ts:24-40 | as written, normalizeTime differs from the intended one exactly when the first word is an inherited member name, and then returns something that is not a time |
| Findings.ConstructorCounterexample | src/utils/voiceParsing.ts:24-40 | as written, "constructor" normalises to "function Object() { [native code] }:00"; the intended version gives none |

## Left out

- Firebase: the `getLogsFromFirebase` fetch is not part of this model. The logs are a parameter of `Analytics.Analytics` and `Analytics.GetAnalytics`.
- The clock: the cutoff date string that `new Date()` minus daysBack produces is a parameter (`cutoff`). The model does not compute it from today.
- Floating point: `Math.round(minutes / 60 * 10) / 10` is kept as an integer number of tenths, and `Math.round(minutes / total * 100)` as an integer. Both are computed exactly, halves rounded up, and the percentage over a zero total is an infinity or NaN as in JavaScript. Doubles that round differently from exact arithmetic are not modelled.
- daysBack is an optional integer. A fractional or NaN daysBack, which JavaScript also accepts, is not modelled: NaN is falsy there like 0.
- calculateDuration's `Number()` of each part of a time: the record's times are HH:MM strings by type, so a malformed stored time, which would give NaN, is not modelled.
- String comparison of dates is per character. It matches JavaScript's per-UTF-16-code-unit comparison for the ASCII date strings the app stores.
- Case mapping is ASCII only: `toLowerCase` and `toUpperCase` of non-ASCII letters are not modelled. `\s` and `trim` use JavaScript's full whitespace set, including the Unicode spaces, the line and paragraph separators and U+FEFF.
- categoryMap is keyed by the Category value, not by its name string. Names are distinct, so the maps agree entry for entry.
- The sort is an insertion sort. `Array.prototype.sort` is only required to be stable. Both give the same order whenever the comparator is consistent, which these two comparators are.
- VoiceParsing.NormalizeTime, VoiceParsing.ParseVoice, VoiceParsing.ParseVoiceEntry and TranscriptRender.ParseRendered use the intended number-word lookup. When a time's first word is "constructor" or "__proto__", they give no time, while the source stores a string that is not a time. Findings.NormalizeTimeAsWritten is the version that does what the source does.
- The Web Speech capture, the React components and `getTodayString` are not part of this model.

## Findings

| source | as written | input that shows it | evidently intended | confidence | as-written member | corrected member |
|---|---|---|---|---|---|---|
| src/utils/voiceParsing.ts:24 | `WORD_TO_NUM[s.split(' ')[0]]` on a plain object also finds the inherited `constructor` and `__proto__`. Every comparison with the value found is false, so the range check at line 39 lets it through and it is printed as the hour | the time "constructor" normalises to `function Object() { [native code] }:00`, so "from constructor to ten" sets that as startTime | only the 21 number words give an hour; anything else falls through to the clock pattern and, here, to null | not executed | Findings.NormalizeTimeAsWritten, Findings.ConstructorCounterexample | VoiceParsing.NormalizeTime, Findings.InheritedRejected |
