/** The aggregator's worked examples: a breakdown computed from three
    logs, and the date window with a custom range and with a daysBack
    cutoff. Each is stated about its logs, given as parameters, and proved
    from the model. */
module AnalyticsExamples {
  import opened Wrappers
  import opened Text
  import opened Seqs
  import opened Storage
  import opened InsertionMap
  import opened StableSort
  import opened Analytics
  import opened AnalyticsProps

  /** Work 09:00-10:00 and 10:00-10:30, then self 09:00-09:15. */
  predicate ThreeLogs(a: TimeLog, b: TimeLog, c: TimeLog)
  {
    && a.startTime == "09:00" && a.endTime == "10:00" && a.category == Work
    && b.startTime == "10:00" && b.endTime == "10:30" && b.category == Work
    && c.startTime == "09:00" && c.endTime == "09:15" && c.category == Self
  }

  lemma ThreeDurations(a: TimeLog, b: TimeLog, c: TimeLog)
    requires ThreeLogs(a, b, c)
    ensures LogMinutes(a) == 60 && LogMinutes(b) == 30 && LogMinutes(c) == 15
  {
  }

  lemma ThreeTotals(a: TimeLog, b: TimeLog, c: TimeLog)
    requires ThreeLogs(a, b, c)
    ensures TotalMinutes([a, b, c]) == 105
    ensures CategoryTotals([a, b, c]) == [Entry(Work, Tally(90, 2)), Entry(Self, Tally(15, 1))]
  {
    ThreeDurations(a, b, c);
    assert [a, b, c][..2] == [a, b] && [a, b][..1] == [a] && [a][..0] == [];
    assert SumBy([a], LogMinutes) == SumBy([a][..0], LogMinutes) + LogMinutes(a);
    assert SumBy([a, b], LogMinutes) == SumBy([a], LogMinutes) + LogMinutes(b);
    assert SumBy([a, b, c], LogMinutes) == SumBy([a, b], LogMinutes) + LogMinutes(c);
    var m1 := [Entry(Work, Tally(60, 1))];
    var m2 := [Entry(Work, Tally(90, 2))];
    var m0: seq<Entry<Category, Tally>> := [];
    assert CategoryTotals([a]) == m1 by {
      assert IndexOf(m0, Work) == None;
    }
    assert CategoryTotals([a, b]) == m2 by {
      assert IndexOf(m1, Work) == Some(0);
    }
    assert IndexOf(m2, Self) == None by {
      assert IndexOf(m2[1..], Self) == None;
    }
  }

  /** Work (90 minutes, 2 entries, 1.5 hours, 86%) comes before self (15
      minutes, 1 entry, 0.3 hours, 14%). */
  lemma ThreeLogsBreakdown(a: TimeLog, b: TimeLog, c: TimeLog)
    requires ThreeLogs(a, b, c)
    ensures CategoryBreakdown([a, b, c])
      == [CategoryStats(Work, 90, 15, 2, Finite(86)), CategoryStats(Self, 15, 3, 1, Finite(14))]
  {
    ThreeTotals(a, b, c);
    var w, s := CategoryStats(Work, 90, 15, 2, Finite(86)), CategoryStats(Self, 15, 3, 1, Finite(14));
    var m := [Entry(Work, Tally(90, 2)), Entry(Self, Tally(15, 1))];
    assert Hours(90) == 15 && Hours(15) == 3;
    assert Percent(90, 105) == Finite(86) && Percent(15, 105) == Finite(14);
    assert m[..1] == [m[0]] && m[..0] == [];
    assert CategoryRows(m, 105) == [w, s];
    assert [w, s][..1] == [w] && [w][..0] == [];
    assert Sort([w], ByMinutes) == [w];
    assert KeyLe(ByMinutes(w), ByMinutes(s));
    assert Insert(s, [w], ByMinutes) == [w, s];
  }

  /** The whole snapshot for the three logs with no window: three entries
      and the breakdown above. */
  lemma ThreeLogsAnalytics(a: TimeLog, b: TimeLog, c: TimeLog, cutoff: string)
    requires ThreeLogs(a, b, c)
    ensures Analytics.Analytics([a, b, c], None, None, cutoff).totalEntries == 3
    ensures Analytics.Analytics([a, b, c], None, None, cutoff).categoryBreakdown
      == [CategoryStats(Work, 90, 15, 2, Finite(86)), CategoryStats(Self, 15, 3, 1, Finite(14))]
  {
    WindowAll([a, b, c], None, cutoff);
    ThreeLogsBreakdown(a, b, c);
  }

  // ---------------------------------------------------------------------
  // The date window

  /** Strings that agree before position k and differ at k compare as their
      characters at k do. */
  lemma {:induction false} LexLeAt(a: string, b: string, k: nat)
    requires k < |a| && k < |b| && a[..k] == b[..k] && a[k] != b[k]
    ensures LexLe(a, b) <==> a[k] < b[k]
  {
    if k > 0 {
      assert a[0] == a[..k][0] && b[0] == b[..k][0];
      assert a[1..][..k - 1] == a[..k][1..] && b[1..][..k - 1] == b[..k][1..];
      LexLeAt(a[1..], b[1..], k - 1);
    }
  }

  lemma {:induction false} LexLeSame(a: string)
    ensures LexLe(a, a)
  {
    if a != [] {
      LexLeSame(a[1..]);
    }
  }

  /** A custom range from 2024-05-01 to 2024-06-30 keeps the log of
      2024-06-01 and drops the one of 2024-01-01, whatever daysBack is. */
  lemma RangeExample(x: TimeLog, y: TimeLog, range: DateRange, daysBack: Option<int>, cutoff: string)
    requires x.date == "2024-01-01" && y.date == "2024-06-01"
    requires range == DateRange("2024-05-01", "2024-06-30")
    ensures Window([x, y], daysBack, Some(range), cutoff) == [y]
  {
    assert [x, y][..1] == [x] && [x][..0] == [];
    LexLeAt(range.start, x.date, 6);
    LexLeAt(range.start, y.date, 6);
    LexLeAt(y.date, range.end, 8);
    assert !InWindow(x, daysBack, Some(range), cutoff) && InWindow(y, daysBack, Some(range), cutoff);
    assert Window([x], daysBack, Some(range), cutoff) == [];
  }

  /** Seven days back from 2024-06-05 is the cutoff 2024-05-29: a log of
      that very day is kept, one of the day before is dropped, and one of
      today is kept. */
  lemma CutoffExample(x: TimeLog, y: TimeLog, z: TimeLog, cutoff: string)
    requires x.date == "2024-05-28" && y.date == "2024-05-29" && z.date == "2024-06-05"
    requires cutoff == "2024-05-29"
    ensures Window([x, y, z], Some(7), None, cutoff) == [y, z]
  {
    assert [x, y, z][..2] == [x, y] && [x, y][..1] == [x] && [x][..0] == [];
    assert cutoff[..9] == "2024-05-2" == x.date[..9];
    LexLeAt(cutoff, x.date, 9);
    LexLeSame(cutoff);
    LexLeAt(cutoff, z.date, 6);
    assert !InWindow(x, Some(7), None, cutoff) && InWindow(y, Some(7), None, cutoff) && InWindow(z, Some(7), None, cutoff);
    assert Window([x], Some(7), None, cutoff) == [];
    assert Window([x, y], Some(7), None, cutoff) == [y];
  }
}
