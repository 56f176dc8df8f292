/** What the sub-category breakdown of getAnalytics holds: one row per
    (category, sub-category) pair with logs, grouped by category in the
    order of the category breakdown, more minutes first within a group, and
    adding up, per category, to that category's row. */
module AnalyticsSubRows {
  import opened Wrappers
  import opened Storage
  import opened Seqs
  import opened InsertionMap
  import opened StableSort
  import opened Analytics
  import opened AnalyticsTotals
  import opened AnalyticsRows

  /** The row the pair (c, sub) should have. */
  function ExpectedSubRow(logs: seq<TimeLog>, c: Category, sub: string): CategorySubStats
  {
    CategorySubStats(c, sub, SubMinutes(logs, c, sub), Hours(SubMinutes(logs, c, sub)),
                     Percent(SubMinutes(logs, c, sub), TotalMinutes(logs)), SubCount(logs, c, sub))
  }

  /** A pair's logs are among its category's. */
  lemma {:induction false} SubCountWithin(logs: seq<TimeLog>, c: Category, sub: string)
    ensures SubCount(logs, c, sub) <= CategoryCount(logs, c)
  {
    if logs != [] {
      SubCountWithin(logs[..|logs| - 1], c, sub);
    }
  }

  /** Every catSubMap entry is the tally of a pair with logs. */
  lemma SubEntry(logs: seq<TimeLog>, m: seq<Entry<string, SubTally>>, i: nat)
    requires m == SubTotals(logs) && i < |m|
    ensures m[i].value == SubTally(m[i].value.category, m[i].value.subCategory,
      SubMinutes(logs, m[i].value.category, m[i].value.subCategory), SubCount(logs, m[i].value.category, m[i].value.subCategory))
    ensures SubCount(logs, m[i].value.category, m[i].value.subCategory) > 0
  {
    SubTotalsShape(logs);
    GetEntry(m, i);
    SubTotalsGet(logs, m[i].value.category, m[i].value.subCategory);
  }

  /** A pair with logs has its entry in catSubMap. */
  lemma SubEntryPresent(logs: seq<TimeLog>, m: seq<Entry<string, SubTally>>, c: Category, sub: string) returns (i: nat)
    requires m == SubTotals(logs) && SubCount(logs, c, sub) > 0
    ensures i < |m| && m[i].value == SubTally(c, sub, SubMinutes(logs, c, sub), SubCount(logs, c, sub))
  {
    SubTotalsGet(logs, c, sub);
    i := IndexOf(m, SubKey(c, sub)).value;
  }

  /** Before the sort: each row is its pair's expected row, every pair with
      logs has one, and no row repeats. */
  lemma UnsortedSubRows(logs: seq<TimeLog>, m: seq<Entry<string, SubTally>>, rows: seq<CategorySubStats>)
    requires m == SubTotals(logs) && rows == SubRows(m, TotalMinutes(logs))
    ensures Distinct(rows)
    ensures forall r :: r in rows ==> r == ExpectedSubRow(logs, r.category, r.subCategory) && SubCount(logs, r.category, r.subCategory) > 0
    ensures forall c, sub :: SubCount(logs, c, sub) > 0 ==> ExpectedSubRow(logs, c, sub) in rows
  {
    SubTotalsShape(logs);
    forall r | r in rows
      ensures r == ExpectedSubRow(logs, r.category, r.subCategory) && SubCount(logs, r.category, r.subCategory) > 0
    {
      var i :| 0 <= i < |rows| && rows[i] == r;
      SubEntry(logs, m, i);
    }
    forall i, j | 0 <= i < j < |rows|
      ensures rows[i] != rows[j]
    {
      assert m[i].key != m[j].key;
    }
    forall c, sub | SubCount(logs, c, sub) > 0
      ensures ExpectedSubRow(logs, c, sub) in rows
    {
      var i := SubEntryPresent(logs, m, c, sub);
      assert rows[i] == ExpectedSubRow(logs, c, sub);
    }
  }

  lemma SortedSubRows(logs: seq<TimeLog>, rows: seq<CategorySubStats>, subs: seq<CategorySubStats>, key: CategorySubStats -> SortKey)
    requires rows == SubRows(SubTotals(logs), TotalMinutes(logs)) && subs == Sort(rows, key)
    ensures forall r :: r in subs ==> r == ExpectedSubRow(logs, r.category, r.subCategory) && SubCount(logs, r.category, r.subCategory) > 0
    ensures forall c, sub :: SubCount(logs, c, sub) > 0 ==> ExpectedSubRow(logs, c, sub) in subs
    ensures forall i, j :: 0 <= i < j < |subs| ==>
      subs[i].category != subs[j].category || subs[i].subCategory != subs[j].subCategory
  {
    UnsortedSubRows(logs, SubTotals(logs), rows);
    SortKeeps(rows, key, subs);
    DistinctPermutation(rows, subs);
    forall i, j | 0 <= i < j < |subs|
      ensures subs[i].category != subs[j].category || subs[i].subCategory != subs[j].subCategory
    {
      assert subs[i] in subs && subs[j] in subs;
    }
  }

  /** The sub-category breakdown has one row per (category, sub-category)
      pair with logs, holding the pair's minutes, hours, count and share of
      the total, and no pair twice. */
  lemma SubBreakdownRows(logs: seq<TimeLog>)
    ensures forall r :: r in SubBreakdown(logs) ==>
      r == ExpectedSubRow(logs, r.category, r.subCategory) && SubCount(logs, r.category, r.subCategory) > 0
    ensures forall c, sub :: SubCount(logs, c, sub) > 0 ==> ExpectedSubRow(logs, c, sub) in SubBreakdown(logs)
    ensures forall i, j :: 0 <= i < j < |SubBreakdown(logs)| ==>
      SubBreakdown(logs)[i].category != SubBreakdown(logs)[j].category
      || SubBreakdown(logs)[i].subCategory != SubBreakdown(logs)[j].subCategory
  {
    SortedSubRows(logs, SubRows(SubTotals(logs), TotalMinutes(logs)), SubBreakdown(logs), SubOrder(CategoryBreakdown(logs)));
  }

  /** What the sub-row comparator gives for rows whose categories are all in
      the breakdown. */
  lemma SubOrderFacts(b: seq<CategoryStats>, subs: seq<CategorySubStats>)
    requires SortedBy(subs, SubOrder(b))
    requires forall r :: r in subs ==> r.category in CategoryOrder(b)
    ensures forall i, j :: 0 <= i < j < |subs| ==>
      0 <= IndexOfCategory(CategoryOrder(b), subs[i].category) <= IndexOfCategory(CategoryOrder(b), subs[j].category)
    ensures forall i, j :: 0 <= i < j < |subs| && subs[i].category == subs[j].category ==>
      subs[i].totalMinutes >= subs[j].totalMinutes
    ensures forall i, j, k :: 0 <= i < j < k < |subs| && subs[i].category == subs[k].category ==>
      subs[j].category == subs[i].category
  {
    var order := CategoryOrder(b);
    forall i, j | 0 <= i < j < |subs|
      ensures 0 <= IndexOfCategory(order, subs[i].category) <= IndexOfCategory(order, subs[j].category)
      ensures subs[i].category == subs[j].category ==> subs[i].totalMinutes >= subs[j].totalMinutes
    {
      assert KeyLe(SubOrder(b)(subs[i]), SubOrder(b)(subs[j]));
      assert subs[i] in subs;
    }
    forall i, j, k | 0 <= i < j < k < |subs| && subs[i].category == subs[k].category
      ensures subs[j].category == subs[i].category
    {
      assert KeyLe(SubOrder(b)(subs[i]), SubOrder(b)(subs[j]));
      assert KeyLe(SubOrder(b)(subs[j]), SubOrder(b)(subs[k]));
      assert subs[i] in subs && subs[j] in subs;
    }
  }

  /** Sub rows follow the category breakdown's order, so each category's rows
      sit together; within a category more minutes come first. */
  lemma SubBreakdownOrder(logs: seq<TimeLog>)
    ensures forall i, j :: 0 <= i < j < |SubBreakdown(logs)| ==>
      0 <= IndexOfCategory(CategoryOrder(CategoryBreakdown(logs)), SubBreakdown(logs)[i].category)
        <= IndexOfCategory(CategoryOrder(CategoryBreakdown(logs)), SubBreakdown(logs)[j].category)
    ensures forall i, j :: 0 <= i < j < |SubBreakdown(logs)| && SubBreakdown(logs)[i].category == SubBreakdown(logs)[j].category ==>
      SubBreakdown(logs)[i].totalMinutes >= SubBreakdown(logs)[j].totalMinutes
    ensures forall i, j, k :: 0 <= i < j < k < |SubBreakdown(logs)| && SubBreakdown(logs)[i].category == SubBreakdown(logs)[k].category ==>
      SubBreakdown(logs)[j].category == SubBreakdown(logs)[i].category
  {
    var b, subs := CategoryBreakdown(logs), SubBreakdown(logs);
    var rows := SubRows(SubTotals(logs), TotalMinutes(logs));
    SortedSubRows(logs, rows, subs, SubOrder(b));
    SortPermutesAndOrders(rows, SubOrder(b));
    BreakdownRows(logs);
    forall r | r in subs
      ensures r.category in CategoryOrder(b)
    {
      SubCountWithin(logs, r.category, r.subCategory);
    }
    SubOrderFacts(b, subs);
  }

  function SubRowMinutesIn(c: Category): CategorySubStats -> int
  {
    (r: CategorySubStats) => if r.category == c then r.totalMinutes else 0
  }

  function SubRowCountIn(c: Category): CategorySubStats -> int
  {
    (r: CategorySubStats) => if r.category == c then r.count else 0
  }

  lemma {:induction false} SubRowsSum(m: seq<Entry<string, SubTally>>, total: int, c: Category)
    ensures SumBy(SubRows(m, total), SubRowMinutesIn(c)) == SumBy(m, SubEntryMinutesIn(c))
    ensures SumBy(SubRows(m, total), SubRowCountIn(c)) == SumBy(m, SubEntryCountIn(c))
  {
    if m != [] {
      var rows := SubRows(m, total);
      assert rows[..|rows| - 1] == SubRows(m[..|m| - 1], total);
      SubRowsSum(m[..|m| - 1], total, c);
    }
  }

  /** Within one category, the sub rows' minutes and counts add up to the
      category's. */
  lemma SubBreakdownSums(logs: seq<TimeLog>, c: Category)
    ensures SumBy(SubBreakdown(logs), SubRowMinutesIn(c)) == CategoryMinutes(logs, c)
    ensures SumBy(SubBreakdown(logs), SubRowCountIn(c)) == CategoryCount(logs, c)
  {
    var rows := SubRows(SubTotals(logs), TotalMinutes(logs));
    SortPermutesAndOrders(rows, SubOrder(CategoryBreakdown(logs)));
    SumByPermutation(SubBreakdown(logs), rows, SubRowMinutesIn(c));
    SumByPermutation(SubBreakdown(logs), rows, SubRowCountIn(c));
    SubRowsSum(SubTotals(logs), TotalMinutes(logs), c);
    SubTotalsMinutes(logs, c);
    SubTotalsCounts(logs, c);
  }

  /** Each category row is the sum of its sub rows. */
  lemma SubRowsAddUp(logs: seq<TimeLog>, i: nat)
    requires i < |CategoryBreakdown(logs)|
    ensures SumBy(SubBreakdown(logs), SubRowMinutesIn(CategoryBreakdown(logs)[i].category)) == CategoryBreakdown(logs)[i].totalMinutes
    ensures SumBy(SubBreakdown(logs), SubRowCountIn(CategoryBreakdown(logs)[i].category)) == CategoryBreakdown(logs)[i].count
  {
    var r := CategoryBreakdown(logs)[i];
    BreakdownRows(logs);
    assert r in CategoryBreakdown(logs);
    SubBreakdownSums(logs, r.category);
  }
}
