/** What the two breakdowns of getAnalytics hold: one row per category, and
    one per (category, sub-category) pair, with the logs' minutes, hours,
    count and share of the total, in the order the two comparators give. */
module AnalyticsRows {
  import opened Wrappers
  import opened Storage
  import opened Seqs
  import opened InsertionMap
  import opened StableSort
  import opened Analytics
  import opened AnalyticsTotals

  // ---------------------------------------------------------------------
  // The category breakdown

  /** The row category c should have. */
  function ExpectedRow(logs: seq<TimeLog>, c: Category): CategoryStats
  {
    CategoryStats(c, CategoryMinutes(logs, c), Hours(CategoryMinutes(logs, c)), CategoryCount(logs, c),
                  Percent(CategoryMinutes(logs, c), TotalMinutes(logs)))
  }

  /** Every categoryMap entry is the tally of a category with logs. */
  lemma CategoryEntry(logs: seq<TimeLog>, i: nat)
    requires i < |CategoryTotals(logs)|
    ensures CategoryTotals(logs)[i].value
      == Tally(CategoryMinutes(logs, CategoryTotals(logs)[i].key), CategoryCount(logs, CategoryTotals(logs)[i].key))
    ensures CategoryCount(logs, CategoryTotals(logs)[i].key) > 0
  {
    CategoryTotalsKeys(logs);
    GetEntry(CategoryTotals(logs), i);
    CategoryTotalsGet(logs, CategoryTotals(logs)[i].key);
  }

  /** Before the sort, row i is the expected row of the i-th category to
      appear among the logs. */
  lemma UnsortedRows(logs: seq<TimeLog>)
    ensures |CategoryRows(CategoryTotals(logs), TotalMinutes(logs))| == |FirstSeen(Categories(logs))|
    ensures forall i :: 0 <= i < |FirstSeen(Categories(logs))| ==>
      CategoryRows(CategoryTotals(logs), TotalMinutes(logs))[i] == ExpectedRow(logs, FirstSeen(Categories(logs))[i])
  {
    var m := CategoryTotals(logs);
    var fs := FirstSeen(Categories(logs));
    CategoryTotalsKeys(logs);
    forall i | 0 <= i < |fs|
      ensures CategoryRows(m, TotalMinutes(logs))[i] == ExpectedRow(logs, fs[i])
    {
      assert Keys(m)[i] == m[i].key;
      CategoryEntry(logs, i);
    }
  }

  /** The unsorted rows, their categories, and that neither repeats. */
  lemma UnsortedRowsDistinct(logs: seq<TimeLog>, rows: seq<CategoryStats>, fs: seq<Category>)
    requires rows == CategoryRows(CategoryTotals(logs), TotalMinutes(logs)) && fs == FirstSeen(Categories(logs))
    ensures |rows| == |fs| && Distinct(fs) && Distinct(rows)
    ensures forall i :: 0 <= i < |rows| ==> rows[i] == ExpectedRow(logs, fs[i]) && rows[i].category == fs[i]
    ensures forall c :: c in fs <==> CategoryCount(logs, c) > 0
  {
    UnsortedRows(logs);
    FirstSeenOrder(Categories(logs));
    forall c
      ensures c in fs <==> CategoryCount(logs, c) > 0
    {
      CategoryCountPositive(logs, c);
    }
  }

  lemma SortedRowsExpected(logs: seq<TimeLog>, rows: seq<CategoryStats>, fs: seq<Category>, b: seq<CategoryStats>)
    requires rows == CategoryRows(CategoryTotals(logs), TotalMinutes(logs)) && fs == FirstSeen(Categories(logs))
    requires b == Sort(rows, ByMinutes)
    ensures forall r :: r in b ==> r == ExpectedRow(logs, r.category) && r.count > 0
  {
    UnsortedRowsDistinct(logs, rows, fs);
    SortKeeps(rows, ByMinutes, b);
    forall r | r in b
      ensures r == ExpectedRow(logs, r.category) && r.count > 0
    {
      var k :| 0 <= k < |rows| && rows[k] == r;
      assert fs[k] in fs;
    }
  }

  /** Rows with the same elements as rows carry the categories fs names. */
  lemma CategoriesOfReordered(rows: seq<CategoryStats>, fs: seq<Category>, b: seq<CategoryStats>)
    requires |rows| == |fs| && forall i :: 0 <= i < |rows| ==> rows[i].category == fs[i]
    requires forall r :: r in b <==> r in rows
    ensures forall c :: c in CategoryOrder(b) <==> c in fs
  {
    var order := CategoryOrder(b);
    forall c
      ensures c in order <==> c in fs
    {
      if c in order {
        var i :| 0 <= i < |b| && order[i] == c;
        assert b[i] in rows;
      }
      if c in fs {
        var k :| 0 <= k < |fs| && fs[k] == c;
        assert rows[k] in b;
        var i :| 0 <= i < |b| && b[i] == rows[k];
        assert order[i] == c;
      }
    }
  }

  lemma SortedRowsCategories(logs: seq<TimeLog>, rows: seq<CategoryStats>, fs: seq<Category>, b: seq<CategoryStats>)
    requires rows == CategoryRows(CategoryTotals(logs), TotalMinutes(logs)) && fs == FirstSeen(Categories(logs))
    requires b == Sort(rows, ByMinutes)
    ensures forall c :: c in CategoryOrder(b) <==> CategoryCount(logs, c) > 0
  {
    UnsortedRowsDistinct(logs, rows, fs);
    SortKeeps(rows, ByMinutes, b);
    CategoriesOfReordered(rows, fs, b);
  }

  lemma SortedRowsDistinct(logs: seq<TimeLog>, rows: seq<CategoryStats>, fs: seq<Category>, b: seq<CategoryStats>)
    requires rows == CategoryRows(CategoryTotals(logs), TotalMinutes(logs)) && fs == FirstSeen(Categories(logs))
    requires b == Sort(rows, ByMinutes)
    ensures Distinct(CategoryOrder(b))
  {
    UnsortedRowsDistinct(logs, rows, fs);
    SortKeeps(rows, ByMinutes, b);
    SortedRowsExpected(logs, rows, fs, b);
    DistinctPermutation(rows, b);
    var order := CategoryOrder(b);
    forall i, j | 0 <= i < j < |order|
      ensures order[i] != order[j]
    {
      assert b[i] in b && b[j] in b;
    }
  }

  /** The category breakdown has one row per category with logs, holding
      that category's minutes, hours, count and share of the total, and no
      category twice. */
  lemma BreakdownRows(logs: seq<TimeLog>)
    ensures forall r :: r in CategoryBreakdown(logs) ==> r == ExpectedRow(logs, r.category) && r.count > 0
    ensures forall c :: c in CategoryOrder(CategoryBreakdown(logs)) <==> CategoryCount(logs, c) > 0
    ensures Distinct(CategoryOrder(CategoryBreakdown(logs)))
  {
    var rows := CategoryRows(CategoryTotals(logs), TotalMinutes(logs));
    var fs := FirstSeen(Categories(logs));
    SortedRowsExpected(logs, rows, fs, CategoryBreakdown(logs));
    SortedRowsCategories(logs, rows, fs, CategoryBreakdown(logs));
    SortedRowsDistinct(logs, rows, fs, CategoryBreakdown(logs));
  }

  /** Where a row sits among rows without repeats whose categories are fs. */
  lemma RowPosition(rows: seq<CategoryStats>, fs: seq<Category>, x: CategoryStats)
    requires |rows| == |fs| && Distinct(fs) && Distinct(rows)
    requires forall i :: 0 <= i < |rows| ==> rows[i].category == fs[i]
    requires x in rows
    ensures Pos(rows, x) == Pos(fs, x.category) && x.category in fs
  {
    var k :| 0 <= k < |rows| && rows[k] == x;
    PosDistinct(rows, k);
    PosDistinct(fs, k);
  }

  /** Two rows of the breakdown, with the facts about them the sort gives. */
  lemma OrderedPair(cats: seq<Category>, rows: seq<CategoryStats>, fs: seq<Category>, x: CategoryStats, y: CategoryStats)
    requires KeyLe(ByMinutes(x), ByMinutes(y))
    requires ByMinutes(x) == ByMinutes(y) ==> Pos(rows, x) < Pos(rows, y)
    requires Pos(rows, x) == Pos(fs, x.category) && Pos(rows, y) == Pos(fs, y.category)
    requires x.category in cats && y.category in cats
    requires Pos(fs, x.category) < Pos(fs, y.category) <==> Pos(cats, x.category) < Pos(cats, y.category)
    ensures x.totalMinutes >= y.totalMinutes
    ensures x.totalMinutes == y.totalMinutes ==> Pos(cats, x.category) < Pos(cats, y.category)
  {
    if x.totalMinutes == y.totalMinutes {
      assert ByMinutes(x) == ByMinutes(y);
    }
  }

  /** The order facts, for any stable sort by minutes of such rows. */
  lemma ReorderedRowsOrder(cats: seq<Category>, rows: seq<CategoryStats>, fs: seq<Category>, b: seq<CategoryStats>)
    requires |rows| == |fs| && Distinct(fs) && Distinct(rows)
    requires forall i :: 0 <= i < |rows| ==> rows[i].category == fs[i]
    requires SortedBy(b, ByMinutes) && StableIn(b, rows, ByMinutes) && forall r :: r in b <==> r in rows
    requires forall c :: c in fs <==> c in cats
    requires forall u, v :: u in cats && v in cats ==> (Pos(fs, u) < Pos(fs, v) <==> Pos(cats, u) < Pos(cats, v))
    ensures forall i, j :: 0 <= i < j < |b| ==> b[i].totalMinutes >= b[j].totalMinutes
    ensures forall i, j :: 0 <= i < j < |b| && b[i].totalMinutes == b[j].totalMinutes ==>
      Pos(cats, b[i].category) < Pos(cats, b[j].category)
  {
    forall i, j | 0 <= i < j < |b|
      ensures b[i].totalMinutes >= b[j].totalMinutes
      ensures b[i].totalMinutes == b[j].totalMinutes ==> Pos(cats, b[i].category) < Pos(cats, b[j].category)
    {
      var x, y := b[i], b[j];
      assert x in b && y in b;
      RowPosition(rows, fs, x);
      RowPosition(rows, fs, y);
      assert KeyLe(ByMinutes(x), ByMinutes(y));
      OrderedPair(cats, rows, fs, x, y);
    }
  }

  lemma SortedRowsOrder(logs: seq<TimeLog>, rows: seq<CategoryStats>, fs: seq<Category>, b: seq<CategoryStats>)
    requires rows == CategoryRows(CategoryTotals(logs), TotalMinutes(logs)) && fs == FirstSeen(Categories(logs))
    requires b == Sort(rows, ByMinutes)
    ensures forall i, j :: 0 <= i < j < |b| ==> b[i].totalMinutes >= b[j].totalMinutes
    ensures forall i, j :: 0 <= i < j < |b| && b[i].totalMinutes == b[j].totalMinutes ==>
      Pos(Categories(logs), b[i].category) < Pos(Categories(logs), b[j].category)
  {
    UnsortedRowsDistinct(logs, rows, fs);
    SortKeeps(rows, ByMinutes, b);
    SortPermutesAndOrders(rows, ByMinutes);
    SortStable(rows, ByMinutes);
    FirstSeenOrder(Categories(logs));
    ReorderedRowsOrder(Categories(logs), rows, fs, b);
  }

  /** Rows come with more minutes first; rows with the same minutes keep
      the order in which their categories first appear among the logs. */
  lemma BreakdownOrder(logs: seq<TimeLog>)
    ensures forall i, j :: 0 <= i < j < |CategoryBreakdown(logs)| ==>
      CategoryBreakdown(logs)[i].totalMinutes >= CategoryBreakdown(logs)[j].totalMinutes
    ensures forall i, j ::
      (0 <= i < j < |CategoryBreakdown(logs)| && CategoryBreakdown(logs)[i].totalMinutes == CategoryBreakdown(logs)[j].totalMinutes) ==>
      Pos(Categories(logs), CategoryBreakdown(logs)[i].category) < Pos(Categories(logs), CategoryBreakdown(logs)[j].category)
  {
    SortedRowsOrder(logs, CategoryRows(CategoryTotals(logs), TotalMinutes(logs)), FirstSeen(Categories(logs)), CategoryBreakdown(logs));
  }

  function RowCount(r: CategoryStats): int
  {
    r.count
  }

  function RowMinutes(r: CategoryStats): int
  {
    r.totalMinutes
  }

  lemma {:induction false} RowsSum(m: seq<Entry<Category, Tally>>, total: int)
    ensures SumBy(CategoryRows(m, total), RowCount) == SumBy(m, EntryCount)
    ensures SumBy(CategoryRows(m, total), RowMinutes) == SumBy(m, EntryMinutes)
  {
    if m != [] {
      var rows := CategoryRows(m, total);
      assert rows[..|rows| - 1] == CategoryRows(m[..|m| - 1], total);
      RowsSum(m[..|m| - 1], total);
    }
  }

  /** The rows' counts add up to the number of logs, and their minutes to
      the total. */
  lemma BreakdownSums(logs: seq<TimeLog>)
    ensures SumBy(CategoryBreakdown(logs), RowCount) == |logs|
    ensures SumBy(CategoryBreakdown(logs), RowMinutes) == TotalMinutes(logs)
  {
    var rows := CategoryRows(CategoryTotals(logs), TotalMinutes(logs));
    SortPermutesAndOrders(rows, ByMinutes);
    SumByPermutation(CategoryBreakdown(logs), rows, RowCount);
    SumByPermutation(CategoryBreakdown(logs), rows, RowMinutes);
    RowsSum(CategoryTotals(logs), TotalMinutes(logs));
    CategoryTotalsSums(logs);
  }
}
