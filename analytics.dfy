/** The analytics summary over stored time logs (src/utils/analytics.ts):
    filtering by a date window, per-category totals, per category and
    sub-category totals, rounding, and the two orderings. */
module Analytics {
  import opened Wrappers
  import opened Text
  import opened Storage
  import opened Seqs
  import opened InsertionMap
  import opened StableSort

  /** The label a log without a sub-category is grouped under. */
  const NO_SUB_CATEGORY := "(no sub-category)"

  /** An inclusive range of YYYY-MM-DD dates. */
  datatype DateRange = DateRange(start: string, end: string)

  /** What `Math.round(x / total * 100)` yields: an integer, or, when the
      total is zero, an infinity or NaN. */
  datatype Percentage = Finite(value: int) | PositiveInfinity | NegativeInfinity | NotANumber

  /** One category's row. `totalHours` counts tenths of an hour: the
      source's `Math.round(minutes / 60 * 10) / 10` is totalHours / 10. */
  datatype CategoryStats = CategoryStats(
    category: Category,
    totalMinutes: int,
    totalHours: int,
    count: nat,
    percentage: Percentage)

  /** One (category, sub-category) row; `totalHours` as in CategoryStats. */
  datatype CategorySubStats = CategorySubStats(
    category: Category,
    subCategory: string,
    totalMinutes: int,
    totalHours: int,
    percentage: Percentage,
    count: nat)

  datatype AnalyticsData = AnalyticsData(
    totalEntries: nat,
    categoryBreakdown: seq<CategoryStats>,
    categorySubBreakdown: seq<CategorySubStats>)

  /** The value categoryMap keeps per category. */
  datatype Tally = Tally(minutes: int, count: nat)

  /** The value catSubMap keeps per (category, sub-category) key. */
  datatype SubTally = SubTally(category: Category, subCategory: string, minutes: int, count: nat)

  // ---------------------------------------------------------------------
  // Durations and the date window

  /** `calculateDuration`: minutes from start to end, negative when the end
      is the earlier time of day. */
  function Duration(start: HHMM, end: HHMM): int
  {
    (HoursOf(end) * 60 + MinutesOf(end)) - (HoursOf(start) * 60 + MinutesOf(start))
  }

  function LogMinutes(log: TimeLog): int
  {
    Duration(log.startTime, log.endTime)
  }

  /** A JavaScript number is truthy unless it is 0 (or absent). */
  predicate Truthy(daysBack: Option<int>)
  {
    daysBack.Some? && daysBack.value != 0
  }

  /** Whether a log survives the filter. A custom range wins over daysBack;
      `cutoff` is the YYYY-MM-DD date daysBack days before today. Dates
      compare as strings. */
  predicate InWindow(log: TimeLog, daysBack: Option<int>, customRange: Option<DateRange>, cutoff: string)
  {
    match customRange
    case Some(r) => LexLe(r.start, log.date) && LexLe(log.date, r.end)
    case None => Truthy(daysBack) ==> LexLe(cutoff, log.date)
  }

  /** The logs the filter keeps, in their order. */
  function Window(logs: seq<TimeLog>, daysBack: Option<int>, customRange: Option<DateRange>, cutoff: string): seq<TimeLog>
  {
    if logs == [] then []
    else
      var last := logs[|logs| - 1];
      Window(logs[..|logs| - 1], daysBack, customRange, cutoff)
        + (if InWindow(last, daysBack, customRange, cutoff) then [last] else [])
  }

  /** `logs.reduce((sum, log) => sum + calculateDuration(...), 0)`. */
  function TotalMinutes(logs: seq<TimeLog>): int
  {
    SumBy(logs, LogMinutes)
  }

  // ---------------------------------------------------------------------
  // The two maps

  /** `categoryMap.get(c) || { minutes: 0, count: 0 }`. */
  function Existing(m: seq<Entry<Category, Tally>>, c: Category): Tally
  {
    match Get(m, c)
    case Some(t) => t
    case None => Tally(0, 0)
  }

  /** `{ minutes: existing.minutes + duration, count: existing.count + 1 }`. */
  function Added(existing: Tally, duration: int): Tally
  {
    Tally(existing.minutes + duration, existing.count + 1)
  }

  /** One step of the first forEach. */
  function AddToCategory(m: seq<Entry<Category, Tally>>, log: TimeLog): seq<Entry<Category, Tally>>
  {
    Set(m, log.category, Added(Existing(m, log.category), LogMinutes(log)))
  }

  /** categoryMap after the first forEach over logs. */
  function CategoryTotals(logs: seq<TimeLog>): seq<Entry<Category, Tally>>
  {
    if logs == [] then [] else AddToCategory(CategoryTotals(logs[..|logs| - 1]), logs[|logs| - 1])
  }

  /** `log.subCategory || '(no sub-category)'`: only the empty string is falsy. */
  function SubOf(log: TimeLog): string
  {
    if log.subCategory == "" then NO_SUB_CATEGORY else log.subCategory
  }

  /** The catSubMap key `${category}|${sub}`. */
  function SubKey(c: Category, sub: string): string
  {
    c.Name() + "|" + sub
  }

  /** `catSubMap.get(key) || { category, subCategory: sub, minutes: 0, count: 0 }`. */
  function ExistingSub(m: seq<Entry<string, SubTally>>, log: TimeLog): SubTally
  {
    match Get(m, SubKey(log.category, SubOf(log)))
    case Some(t) => t
    case None => SubTally(log.category, SubOf(log), 0, 0)
  }

  /** `{ ...existing, minutes: existing.minutes + duration, count: existing.count + 1 }`. */
  function SubAdded(existing: SubTally, duration: int): SubTally
  {
    existing.(minutes := existing.minutes + duration, count := existing.count + 1)
  }

  /** One step of the second forEach. */
  function AddToSub(m: seq<Entry<string, SubTally>>, log: TimeLog): seq<Entry<string, SubTally>>
  {
    Set(m, SubKey(log.category, SubOf(log)), SubAdded(ExistingSub(m, log), LogMinutes(log)))
  }

  /** catSubMap after the second forEach over logs. */
  function SubTotals(logs: seq<TimeLog>): seq<Entry<string, SubTally>>
  {
    if logs == [] then [] else AddToSub(SubTotals(logs[..|logs| - 1]), logs[|logs| - 1])
  }

  // ---------------------------------------------------------------------
  // Rounding

  /** `Math.round(minutes / 60 * 10)`, in exact arithmetic: tenths of an
      hour, halves rounded up. */
  function Hours(minutes: int): int
  {
    (minutes + 3) / 6
  }

  /** `Math.round(minutes / total * 100)`, in exact arithmetic, halves
      rounded up; a zero total gives an infinity or NaN. */
  function Percent(minutes: int, total: int): Percentage
  {
    if total > 0 then Finite((200 * minutes + total) / (2 * total))
    else if total < 0 then Finite((-200 * minutes - total) / (-2 * total))
    else if minutes > 0 then PositiveInfinity
    else if minutes < 0 then NegativeInfinity
    else NotANumber
  }

  // ---------------------------------------------------------------------
  // Rows and orderings

  function CategoryRow(e: Entry<Category, Tally>, total: int): CategoryStats
  {
    CategoryStats(e.key, e.value.minutes, Hours(e.value.minutes), e.value.count, Percent(e.value.minutes, total))
  }

  /** `Array.from(categoryMap.entries()).map(...)`. */
  function CategoryRows(m: seq<Entry<Category, Tally>>, total: int): (rows: seq<CategoryStats>)
    ensures |rows| == |m| && forall i :: 0 <= i < |m| ==> rows[i] == CategoryRow(m[i], total)
  {
    if m == [] then [] else CategoryRows(m[..|m| - 1], total) + [CategoryRow(m[|m| - 1], total)]
  }

  function SubRow(t: SubTally, total: int): CategorySubStats
  {
    CategorySubStats(t.category, t.subCategory, t.minutes, Hours(t.minutes), Percent(t.minutes, total), t.count)
  }

  /** `Array.from(catSubMap.values()).map(...)`. */
  function SubRows(m: seq<Entry<string, SubTally>>, total: int): (rows: seq<CategorySubStats>)
    ensures |rows| == |m| && forall i :: 0 <= i < |m| ==> rows[i] == SubRow(m[i].value, total)
  {
    if m == [] then [] else SubRows(m[..|m| - 1], total) + [SubRow(m[|m| - 1].value, total)]
  }

  /** The comparator `b.totalMinutes - a.totalMinutes`: more minutes first. */
  function ByMinutes(r: CategoryStats): SortKey
  {
    SortKey(-r.totalMinutes, 0)
  }

  /** `categoryBreakdown.map((c) => c.category)`. */
  function CategoryOrder(breakdown: seq<CategoryStats>): (order: seq<Category>)
    ensures |order| == |breakdown| && forall i :: 0 <= i < |order| ==> order[i] == breakdown[i].category
  {
    if breakdown == [] then [] else CategoryOrder(breakdown[..|breakdown| - 1]) + [breakdown[|breakdown| - 1].category]
  }

  /** `Array.prototype.indexOf`: the first index of c, or -1. */
  function IndexOfCategory(order: seq<Category>, c: Category): (r: int)
    ensures -1 <= r < |order|
    ensures r == -1 <==> c !in order
    ensures r >= 0 ==> order[r] == c && forall j :: 0 <= j < r ==> order[j] != c
  {
    if order == [] then -1
    else if order[0] == c then 0
    else var r := IndexOfCategory(order[1..], c); if r == -1 then -1 else r + 1
  }

  /** The sub-row comparator: the category's place in the breakdown first,
      then more minutes first. */
  function SubOrder(breakdown: seq<CategoryStats>): CategorySubStats -> SortKey
  {
    (r: CategorySubStats) => SortKey(IndexOfCategory(CategoryOrder(breakdown), r.category), -r.totalMinutes)
  }

  function CategoryBreakdown(logs: seq<TimeLog>): seq<CategoryStats>
  {
    Sort(CategoryRows(CategoryTotals(logs), TotalMinutes(logs)), ByMinutes)
  }

  function SubBreakdown(logs: seq<TimeLog>): seq<CategorySubStats>
  {
    Sort(SubRows(SubTotals(logs), TotalMinutes(logs)), SubOrder(CategoryBreakdown(logs)))
  }

  /** What getAnalytics resolves to for the fetched logs. */
  function Analytics(logs: seq<TimeLog>, daysBack: Option<int>, customRange: Option<DateRange>, cutoff: string): AnalyticsData
  {
    var kept := Window(logs, daysBack, customRange, cutoff);
    if |kept| == 0 then AnalyticsData(0, [], [])
    else AnalyticsData(|kept|, CategoryBreakdown(kept), SubBreakdown(kept))
  }

  /** One pass of the first forEach extends the fold by one log. */
  lemma CategoryStep(kept: seq<TimeLog>, i: nat)
    requires i < |kept|
    ensures CategoryTotals(kept[..i + 1]) == AddToCategory(CategoryTotals(kept[..i]), kept[i])
  {
    assert kept[..i + 1][..i] == kept[..i];
  }

  /** One pass of the second forEach extends the fold by one log. */
  lemma SubStep(kept: seq<TimeLog>, i: nat)
    requires i < |kept|
    ensures SubTotals(kept[..i + 1]) == AddToSub(SubTotals(kept[..i]), kept[i])
  {
    assert kept[..i + 1][..i] == kept[..i];
  }

  /** The loop bodies below spell out AddToCategory and AddToSub. */
  lemma AddToCategoryIs(m: seq<Entry<Category, Tally>>, log: TimeLog, existing: Tally, duration: int)
    requires existing == Existing(m, log.category) && duration == LogMinutes(log)
    ensures AddToCategory(m, log) == Set(m, log.category, Tally(existing.minutes + duration, existing.count + 1))
  {
  }

  lemma AddToSubIs(m: seq<Entry<string, SubTally>>, log: TimeLog, key: string, existing: SubTally, duration: int)
    requires key == SubKey(log.category, SubOf(log)) && existing == ExistingSub(m, log) && duration == LogMinutes(log)
    ensures AddToSub(m, log) == Set(m, key, existing.(minutes := existing.minutes + duration, count := existing.count + 1))
  {
  }

  /** The first forEach: tally minutes and entries per category. */
  method TallyCategories(kept: seq<TimeLog>) returns (categoryMap: seq<Entry<Category, Tally>>)
    ensures categoryMap == CategoryTotals(kept)
  {
    categoryMap := [];
    var i := 0;
    while i < |kept|
      invariant 0 <= i <= |kept|
      invariant categoryMap == CategoryTotals(kept[..i])
    {
      var log := kept[i];
      var duration := LogMinutes(log);
      var existing := Existing(categoryMap, log.category);
      CategoryStep(kept, i);
      AddToCategoryIs(categoryMap, log, existing, duration);
      categoryMap := Set(categoryMap, log.category, Tally(existing.minutes + duration, existing.count + 1));
      i := i + 1;
    }
    assert kept[..i] == kept;
  }

  /** The second forEach: tally minutes and entries per (category,
      sub-category) key. */
  method TallySubCategories(kept: seq<TimeLog>) returns (catSubMap: seq<Entry<string, SubTally>>)
    ensures catSubMap == SubTotals(kept)
  {
    catSubMap := [];
    var i := 0;
    while i < |kept|
      invariant 0 <= i <= |kept|
      invariant catSubMap == SubTotals(kept[..i])
    {
      var log := kept[i];
      var sub := SubOf(log);
      var key := SubKey(log.category, sub);
      var duration := LogMinutes(log);
      var existing := ExistingSub(catSubMap, log);
      SubStep(kept, i);
      AddToSubIs(catSubMap, log, key, existing, duration);
      catSubMap := Set(catSubMap, key, existing.(minutes := existing.minutes + duration, count := existing.count + 1));
      i := i + 1;
    }
    assert kept[..i] == kept;
  }

  /** getAnalytics, with the fetched logs passed in. */
  method GetAnalytics(logs: seq<TimeLog>, daysBack: Option<int>, customRange: Option<DateRange>, cutoff: string)
    returns (data: AnalyticsData)
    ensures data == Analytics(logs, daysBack, customRange, cutoff)
  {
    var kept := Window(logs, daysBack, customRange, cutoff);
    if |kept| == 0 {
      return AnalyticsData(0, [], []);
    }
    var totalMinutes := TotalMinutes(kept);
    var categoryMap := TallyCategories(kept);
    var categoryBreakdown := Sort(CategoryRows(categoryMap, totalMinutes), ByMinutes);
    var catSubMap := TallySubCategories(kept);
    var categorySubBreakdown := Sort(SubRows(catSubMap, totalMinutes), SubOrder(categoryBreakdown));
    data := AnalyticsData(|kept|, categoryBreakdown, categorySubBreakdown);
  }
}
