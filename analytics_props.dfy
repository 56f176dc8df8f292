/** Properties of calculateDuration, of the date filter, of the rounding of
    hours and percentages, and of the value getAnalytics resolves to. */
module AnalyticsProps {
  import opened Wrappers
  import opened Text
  import opened Storage
  import opened Seqs
  import opened StableSort
  import opened Analytics
  import opened AnalyticsRows

  // ---------------------------------------------------------------------
  // Durations

  /** A time inside one day: hours below 24, minutes below 60. */
  predicate TimeOfDay(t: HHMM)
  {
    HoursOf(t) < 24 && MinutesOf(t) < 60
  }

  /** Two HH:MM strings compare as strings the way their (hours, minutes)
      pairs compare. */
  lemma LexLeClock(a: HHMM, b: HHMM)
    ensures LexLe(a, b) <==> HoursOf(a) < HoursOf(b) || (HoursOf(a) == HoursOf(b) && MinutesOf(a) <= MinutesOf(b))
  {
    var a1, b1 := a[1..], b[1..];
    var a2, b2 := a1[1..], b1[1..];
    var a3, b3 := a2[1..], b2[1..];
    var a4, b4 := a3[1..], b3[1..];
    assert a4 == [a[4]] && b4 == [b[4]];
    assert LexLe(a4, b4) <==> a[4] <= b[4] by {
      assert a4[1..] == [] && b4[1..] == [];
    }
    assert LexLe(a3, b3) <==> a[3] < b[3] || (a[3] == b[3] && a[4] <= b[4]);
    assert LexLe(a2, b2) <==> LexLe(a3, b3);
    assert LexLe(a1, b1) <==> a[1] < b[1] || (a[1] == b[1] && LexLe(a3, b3));
  }

  /** Within one day, a duration is less than a day either way, it is
      negative exactly when the end is the earlier time (as strings), and
      zero exactly when start and end are the same time. */
  lemma DurationSign(start: HHMM, end: HHMM)
    requires TimeOfDay(start) && TimeOfDay(end)
    ensures -1440 < Duration(start, end) < 1440
    ensures Duration(start, end) < 0 <==> !LexLe(start, end)
    ensures Duration(start, end) == 0 <==> start == end
  {
    LexLeClock(start, end);
    if Duration(start, end) == 0 {
      assert HoursOf(start) == HoursOf(end) && MinutesOf(start) == MinutesOf(end);
      assert start[0] == end[0] && start[1] == end[1] && start[3] == end[3] && start[4] == end[4];
      assert start == end;
    }
  }

  // ---------------------------------------------------------------------
  // The date filter

  /** The filter keeps exactly the logs in the window. */
  lemma {:induction false} WindowMembers(logs: seq<TimeLog>, daysBack: Option<int>, customRange: Option<DateRange>, cutoff: string)
    ensures |Window(logs, daysBack, customRange, cutoff)| <= |logs|
    ensures forall log :: log in Window(logs, daysBack, customRange, cutoff) <==>
      log in logs && InWindow(log, daysBack, customRange, cutoff)
  {
    if logs != [] {
      var p := logs[..|logs| - 1];
      WindowMembers(p, daysBack, customRange, cutoff);
      assert logs == p + [logs[|logs| - 1]];
    }
  }

  /** The filter works log by log, so it splits over concatenation. */
  lemma {:induction false} WindowAppend(a: seq<TimeLog>, b: seq<TimeLog>, daysBack: Option<int>, customRange: Option<DateRange>, cutoff: string)
    ensures Window(a + b, daysBack, customRange, cutoff) == Window(a, daysBack, customRange, cutoff) + Window(b, daysBack, customRange, cutoff)
    decreases |b|
  {
    if b == [] {
      assert a + b == a;
    } else {
      var p := b[..|b| - 1];
      assert (a + b)[..|a + b| - 1] == a + p;
      WindowAppend(a, p, daysBack, customRange, cutoff);
    }
  }

  /** Filtering twice keeps what filtering once keeps. */
  lemma {:induction false} WindowIdempotent(logs: seq<TimeLog>, daysBack: Option<int>, customRange: Option<DateRange>, cutoff: string)
    ensures Window(Window(logs, daysBack, customRange, cutoff), daysBack, customRange, cutoff) == Window(logs, daysBack, customRange, cutoff)
  {
    if logs != [] {
      var p, last := logs[..|logs| - 1], logs[|logs| - 1];
      var w := Window(p, daysBack, customRange, cutoff);
      WindowIdempotent(p, daysBack, customRange, cutoff);
      var tail := if InWindow(last, daysBack, customRange, cutoff) then [last] else [];
      WindowAppend(w, tail, daysBack, customRange, cutoff);
      if tail == [last] {
        assert Window(tail, daysBack, customRange, cutoff) == Window([], daysBack, customRange, cutoff) + tail;
      }
    }
  }

  /** With no range and a missing or zero daysBack every log is kept. */
  lemma {:induction false} WindowAll(logs: seq<TimeLog>, daysBack: Option<int>, cutoff: string)
    requires !Truthy(daysBack)
    ensures Window(logs, daysBack, None, cutoff) == logs
  {
    if logs != [] {
      WindowAll(logs[..|logs| - 1], daysBack, cutoff);
      assert logs == logs[..|logs| - 1] + [logs[|logs| - 1]];
    }
  }

  /** A custom range wins: daysBack and the cutoff make no difference. */
  lemma {:induction false} WindowRangeWins(logs: seq<TimeLog>, range: DateRange, daysBack1: Option<int>, cutoff1: string, daysBack2: Option<int>, cutoff2: string)
    ensures Window(logs, daysBack1, Some(range), cutoff1) == Window(logs, daysBack2, Some(range), cutoff2)
  {
    if logs != [] {
      WindowRangeWins(logs[..|logs| - 1], range, daysBack1, cutoff1, daysBack2, cutoff2);
    }
  }

  // ---------------------------------------------------------------------
  // Rounding

  /** Hours are minutes / 6 (tenths of an hour) rounded to the nearest
      integer, halves up. */
  lemma HoursRounding(minutes: int)
    ensures 6 * Hours(minutes) - 3 <= minutes < 6 * Hours(minutes) + 3
  {
    var q := (minutes + 3) / 6;
    assert minutes + 3 == 6 * q + (minutes + 3) % 6;
  }

  lemma DivBounds(n: int, d: int)
    requires d > 0
    ensures d * (n / d) <= n < d * (n / d) + d
  {
    assert n == d * (n / d) + n % d;
  }

  /** A percentage over a non-zero total is 100 * minutes / total rounded to
      the nearest integer, halves up; over a zero total it is an infinity
      or NaN, never a number. */
  lemma PercentRounding(minutes: int, total: int)
    ensures total != 0 <==> Percent(minutes, total).Finite?
    ensures total > 0 ==>
      total * (2 * Percent(minutes, total).value - 1) <= 200 * minutes < total * (2 * Percent(minutes, total).value + 1)
    ensures total < 0 ==>
      -total * (2 * Percent(minutes, total).value - 1) <= -200 * minutes < -total * (2 * Percent(minutes, total).value + 1)
  {
    if total > 0 {
      var p := Percent(minutes, total).value;
      DivBounds(200 * minutes + total, 2 * total);
      assert 2 * total * p <= 200 * minutes + total < 2 * total * p + 2 * total;
    } else if total < 0 {
      var p := Percent(minutes, total).value;
      DivBounds(-200 * minutes - total, -2 * total);
      assert -2 * total * p <= -200 * minutes - total < -2 * total * p - 2 * total;
    }
  }

  lemma MulMono(t: int, x: int, y: int)
    ensures t > 0 && x <= y ==> t * x <= t * y
  {
    assert t * y - t * x == t * (y - x);
  }

  /** A part of a positive total gets a percentage between 0 and 100. */
  lemma PercentBounds(minutes: int, total: int)
    requires 0 <= minutes <= total && total > 0
    ensures 0 <= Percent(minutes, total).value <= 100
  {
    var p := Percent(minutes, total).value;
    PercentRounding(minutes, total);
    MulMono(total, 2 * p + 1, 0);
    MulMono(total, 201, 2 * p - 1);
  }

  lemma MulMonoNeg(t: int, x: int, y: int)
    ensures t < 0 && x <= y ==> t * x >= t * y
  {
    assert t * x - t * y == t * (x - y);
  }

  /** The integer a row's percentage holds, 0 for an infinity or NaN. */
  function RowPercent(r: CategoryStats): int
  {
    match r.percentage
    case Finite(v) => v
    case _ => 0
  }

  lemma Distrib(t: int, a: int, b: int)
    ensures t * (a + b) == t * a + t * b
  {
  }

  /** PercentRounding's bounds on one row, with the total as the factor. */
  lemma RowBounds(m: int, t: int)
    requires t != 0
    ensures t > 0 ==> t * (2 * Percent(m, t).value - 1) <= 200 * m <= t * (2 * Percent(m, t).value + 1)
    ensures t < 0 ==> t * (2 * Percent(m, t).value - 1) >= 200 * m >= t * (2 * Percent(m, t).value + 1)
  {
    var p := Percent(m, t).value;
    PercentRounding(m, t);
    assert -t * (2 * p - 1) == -(t * (2 * p - 1));
    assert -t * (2 * p + 1) == -(t * (2 * p + 1));
  }

  /** Summing the half-up bounds of each row's percentage over a non-zero
      total t: 200 times the minutes lies between t * (2 * percentages -
      rows) and t * (2 * percentages + rows). */
  lemma {:induction false} PercentSumRows(rows: seq<CategoryStats>, t: int)
    requires t != 0
    requires forall i :: 0 <= i < |rows| ==> rows[i].percentage == Percent(rows[i].totalMinutes, t)
    ensures t > 0 ==> t * (2 * SumBy(rows, RowPercent) - |rows|) <= 200 * SumBy(rows, RowMinutes) <= t * (2 * SumBy(rows, RowPercent) + |rows|)
    ensures t < 0 ==> t * (2 * SumBy(rows, RowPercent) - |rows|) >= 200 * SumBy(rows, RowMinutes) >= t * (2 * SumBy(rows, RowPercent) + |rows|)
  {
    if rows != [] {
      var init, last := rows[..|rows| - 1], rows[|rows| - 1];
      assert forall i :: 0 <= i < |init| ==> init[i] == rows[i];
      PercentSumRows(init, t);
      RowBounds(last.totalMinutes, t);
      var s, n, p := SumBy(init, RowPercent), |init|, RowPercent(last);
      assert SumBy(rows, RowPercent) == s + p && SumBy(rows, RowMinutes) == SumBy(init, RowMinutes) + last.totalMinutes;
      Distrib(t, 2 * s - n, 2 * p - 1);
      Distrib(t, 2 * s + n, 2 * p + 1);
      assert 2 * (s + p) - (n + 1) == (2 * s - n) + (2 * p - 1);
      assert 2 * (s + p) + (n + 1) == (2 * s + n) + (2 * p + 1);
    }
  }

  /** Over a non-zero total, the category percentages add up to 100 up to a
      rounding error of half a point per category. */
  lemma PercentSum(logs: seq<TimeLog>)
    requires TotalMinutes(logs) != 0
    ensures 2 * (SumBy(CategoryBreakdown(logs), RowPercent) - 100) <= |CategoryBreakdown(logs)|
    ensures 2 * (100 - SumBy(CategoryBreakdown(logs), RowPercent)) <= |CategoryBreakdown(logs)|
  {
    var b, t := CategoryBreakdown(logs), TotalMinutes(logs);
    BreakdownRows(logs);
    BreakdownSums(logs);
    forall i | 0 <= i < |b|
      ensures b[i].percentage == Percent(b[i].totalMinutes, t)
    {
      assert b[i] in b;
    }
    PercentSumRows(b, t);
    PercentSumClose(t, 2 * SumBy(b, RowPercent), |b|);
  }

  /** The bounds of PercentSumRows with the minutes equal to the total. */
  lemma PercentSumClose(t: int, d: int, n: int)
    requires t != 0
    requires t > 0 ==> t * (d - n) <= 200 * t <= t * (d + n)
    requires t < 0 ==> t * (d - n) >= 200 * t >= t * (d + n)
    ensures d - n <= 200 <= d + n
  {
    if t > 0 {
      MulMono(t, 201, d - n);
      MulMono(t, d + n, 199);
    } else {
      MulMonoNeg(t, 201, d - n);
      MulMonoNeg(t, d + n, 199);
    }
  }

  // ---------------------------------------------------------------------
  // The resolved value

  /** The early return for an empty window agrees with the general case,
      totalEntries is the number of kept logs, and the breakdown's counts
      and minutes add up to it and to the total. */
  lemma ResolvedValue(logs: seq<TimeLog>, daysBack: Option<int>, customRange: Option<DateRange>, cutoff: string, kept: seq<TimeLog>)
    requires kept == Window(logs, daysBack, customRange, cutoff)
    ensures Analytics.Analytics(logs, daysBack, customRange, cutoff) == AnalyticsData(|kept|, CategoryBreakdown(kept), SubBreakdown(kept))
    ensures SumBy(Analytics.Analytics(logs, daysBack, customRange, cutoff).categoryBreakdown, RowCount) == |kept|
    ensures SumBy(Analytics.Analytics(logs, daysBack, customRange, cutoff).categoryBreakdown, RowMinutes) == TotalMinutes(kept)
  {
    if kept == [] {
      assert CategoryBreakdown(kept) == [] && SubBreakdown(kept) == [];
    }
    BreakdownSums(kept);
  }
}
