/** What the two maps of getAnalytics hold once the forEach loops are done:
    per category, and per (category, sub-category), the number of logs and
    the sum of their durations, with keys in first-appearance order. */
module AnalyticsTotals {
  import opened Wrappers
  import opened Storage
  import opened Seqs
  import opened InsertionMap
  import opened Analytics

  /** The minutes of the logs in category c. */
  function CategoryMinutes(logs: seq<TimeLog>, c: Category): int
  {
    if logs == [] then 0
    else CategoryMinutes(logs[..|logs| - 1], c) + (if logs[|logs| - 1].category == c then LogMinutes(logs[|logs| - 1]) else 0)
  }

  /** How many logs are in category c. */
  function CategoryCount(logs: seq<TimeLog>, c: Category): nat
  {
    if logs == [] then 0
    else CategoryCount(logs[..|logs| - 1], c) + (if logs[|logs| - 1].category == c then 1 else 0)
  }

  function Categories(logs: seq<TimeLog>): (cs: seq<Category>)
    ensures |cs| == |logs| && forall i :: 0 <= i < |logs| ==> cs[i] == logs[i].category
  {
    if logs == [] then [] else Categories(logs[..|logs| - 1]) + [logs[|logs| - 1].category]
  }

  /** A category has logs exactly when it occurs among them. */
  lemma {:induction false} CategoryCountPositive(logs: seq<TimeLog>, c: Category)
    ensures CategoryCount(logs, c) > 0 <==> c in Categories(logs)
  {
    if logs != [] {
      var p := logs[..|logs| - 1];
      CategoryCountPositive(p, c);
      assert Categories(logs) == Categories(p) + [logs[|logs| - 1].category];
    }
  }

  lemma {:induction false} NoLogsNoMinutes(logs: seq<TimeLog>, c: Category)
    ensures CategoryCount(logs, c) == 0 ==> CategoryMinutes(logs, c) == 0
  {
    if logs != [] {
      NoLogsNoMinutes(logs[..|logs| - 1], c);
    }
  }

  lemma CategoryTotalsFold(logs: seq<TimeLog>)
    requires logs != []
    ensures CategoryTotals(logs) == AddToCategory(CategoryTotals(logs[..|logs| - 1]), logs[|logs| - 1])
  {
  }

  lemma SubTotalsFold(logs: seq<TimeLog>)
    requires logs != []
    ensures SubTotals(logs) == AddToSub(SubTotals(logs[..|logs| - 1]), logs[|logs| - 1])
  {
  }

  lemma AddedIs(e: Tally, d: int)
    ensures Added(e, d) == Tally(e.minutes + d, e.count + 1)
  {
  }

  /** The category sums, one log further. */
  lemma CategorySnoc(logs: seq<TimeLog>, c: Category)
    requires logs != []
    ensures CategoryMinutes(logs, c)
      == CategoryMinutes(logs[..|logs| - 1], c) + (if logs[|logs| - 1].category == c then LogMinutes(logs[|logs| - 1]) else 0)
    ensures CategoryCount(logs, c)
      == CategoryCount(logs[..|logs| - 1], c) + (if logs[|logs| - 1].category == c then 1 else 0)
  {
  }

  /** Right after its pass, the last log's category holds the bumped tally. */
  lemma CategoryGetLast(logs: seq<TimeLog>)
    requires logs != []
    ensures Get(CategoryTotals(logs), logs[|logs| - 1].category)
      == Some(Added(Existing(CategoryTotals(logs[..|logs| - 1]), logs[|logs| - 1].category), LogMinutes(logs[|logs| - 1])))
  {
    var p, log := logs[..|logs| - 1], logs[|logs| - 1];
    var m := CategoryTotals(p);
    CategoryTotalsFold(logs);
    GetSet(m, log.category, Added(Existing(m, log.category), LogMinutes(log)), log.category);
  }

  /** What categoryMap holds under c. */
  function CategoryExpected(logs: seq<TimeLog>, c: Category): Option<Tally>
  {
    if CategoryCount(logs, c) == 0 then None else Some(Tally(CategoryMinutes(logs, c), CategoryCount(logs, c)))
  }

  /** The tally a log's pass starts from holds what the logs before it gave. */
  lemma CategoryExistingIs(p: seq<TimeLog>, c: Category)
    requires Get(CategoryTotals(p), c) == CategoryExpected(p, c)
    ensures Existing(CategoryTotals(p), c) == Tally(CategoryMinutes(p, c), CategoryCount(p, c))
  {
    NoLogsNoMinutes(p, c);
  }

  lemma CategoryGetSame(logs: seq<TimeLog>, c: Category)
    requires logs != [] && logs[|logs| - 1].category == c
    requires Existing(CategoryTotals(logs[..|logs| - 1]), c)
      == Tally(CategoryMinutes(logs[..|logs| - 1], c), CategoryCount(logs[..|logs| - 1], c))
    ensures Get(CategoryTotals(logs), c) == Some(Tally(CategoryMinutes(logs, c), CategoryCount(logs, c)))
  {
    var p, log := logs[..|logs| - 1], logs[|logs| - 1];
    CategoryGetLast(logs);
    CategorySnoc(logs, c);
    AddedIs(Existing(CategoryTotals(p), c), LogMinutes(log));
  }

  lemma CategoryGetOther(logs: seq<TimeLog>, c: Category)
    requires logs != [] && logs[|logs| - 1].category != c
    ensures Get(CategoryTotals(logs), c) == Get(CategoryTotals(logs[..|logs| - 1]), c)
    ensures CategoryExpected(logs, c) == CategoryExpected(logs[..|logs| - 1], c)
  {
    var p, log := logs[..|logs| - 1], logs[|logs| - 1];
    var m := CategoryTotals(p);
    CategoryTotalsFold(logs);
    GetSet(m, log.category, Added(Existing(m, log.category), LogMinutes(log)), c);
    CategorySnoc(logs, c);
  }

  /** categoryMap holds, for each category with logs, their minutes and
      count, and nothing for a category without logs. */
  lemma {:induction false} CategoryTotalsGet(logs: seq<TimeLog>, c: Category)
    ensures Get(CategoryTotals(logs), c)
      == if CategoryCount(logs, c) == 0 then None else Some(Tally(CategoryMinutes(logs, c), CategoryCount(logs, c)))
  {
    if logs != [] {
      var p := logs[..|logs| - 1];
      CategoryTotalsGet(p, c);
      if logs[|logs| - 1].category == c {
        CategoryExistingIs(p, c);
        CategoryGetSame(logs, c);
      } else {
        CategoryGetOther(logs, c);
      }
    }
  }

  /** categoryMap's keys are the categories in the order they first appear
      among the logs, each once. */
  lemma {:induction false} CategoryTotalsKeys(logs: seq<TimeLog>)
    ensures Keys(CategoryTotals(logs)) == FirstSeen(Categories(logs))
    ensures UniqueKeys(CategoryTotals(logs))
  {
    if logs != [] {
      var p, log := logs[..|logs| - 1], logs[|logs| - 1];
      var m := CategoryTotals(p);
      CategoryTotalsFold(logs);
      CategoryTotalsKeys(p);
      var existing := Existing(m, log.category);
      var t := Added(existing, LogMinutes(log));
      GetSet(m, log.category, t, log.category);
      GetKeys(m, log.category);
      SetUnique(m, log.category, t);
      var cs := Categories(logs);
      assert cs[..|cs| - 1] == Categories(p);
    }
  }

  function EntryCount(e: Entry<Category, Tally>): int
  {
    e.value.count
  }

  function EntryMinutes(e: Entry<Category, Tally>): int
  {
    e.value.minutes
  }

  /** Across the categories, the counts add up to the number of logs and the
      minutes to the total. */
  lemma {:induction false} CategoryTotalsSums(logs: seq<TimeLog>)
    ensures SumBy(CategoryTotals(logs), EntryCount) == |logs|
    ensures SumBy(CategoryTotals(logs), EntryMinutes) == TotalMinutes(logs)
  {
    if logs != [] {
      var p, log := logs[..|logs| - 1], logs[|logs| - 1];
      var m := CategoryTotals(p);
      CategoryTotalsFold(logs);
      CategoryTotalsSums(p);
      var existing := Existing(m, log.category);
      var t := Added(existing, LogMinutes(log));
      SumBySet(m, log.category, t, EntryCount);
      SumBySet(m, log.category, t, EntryMinutes);
    }
  }

  // ---------------------------------------------------------------------
  // The (category, sub-category) map

  predicate InSub(log: TimeLog, c: Category, sub: string)
  {
    log.category == c && SubOf(log) == sub
  }

  function SubMinutes(logs: seq<TimeLog>, c: Category, sub: string): int
  {
    if logs == [] then 0
    else SubMinutes(logs[..|logs| - 1], c, sub) + (if InSub(logs[|logs| - 1], c, sub) then LogMinutes(logs[|logs| - 1]) else 0)
  }

  function SubCount(logs: seq<TimeLog>, c: Category, sub: string): nat
  {
    if logs == [] then 0
    else SubCount(logs[..|logs| - 1], c, sub) + (if InSub(logs[|logs| - 1], c, sub) then 1 else 0)
  }

  lemma NameHasNoBar(c: Category)
    ensures '|' !in c.Name()
  {
  }

  lemma NameInjective(c1: Category, c2: Category)
    requires c1.Name() == c2.Name()
    ensures c1 == c2
  {
  }

  /** The first `|` of n + "|" + sub sits right after n when n has none. */
  lemma FirstBar(n: string, sub: string)
    requires '|' !in n
    ensures Pos(n + "|" + sub, '|') == |n|
    ensures (n + "|" + sub)[..|n|] == n && (n + "|" + sub)[|n| + 1..] == sub
  {
    var k := n + "|" + sub;
    assert k[|n|] == '|';
    assert forall j :: 0 <= j < |n| ==> k[j] == n[j];
  }

  /** No category name holds a `|`, so the key `${category}|${sub}` tells
      the pair apart. */
  lemma SubKeyInjective(c1: Category, s1: string, c2: Category, s2: string)
    ensures SubKey(c1, s1) == SubKey(c2, s2) <==> c1 == c2 && s1 == s2
  {
    if SubKey(c1, s1) == SubKey(c2, s2) {
      var k := SubKey(c1, s1);
      var n1, n2 := c1.Name(), c2.Name();
      NameHasNoBar(c1);
      NameHasNoBar(c2);
      FirstBar(n1, s1);
      FirstBar(n2, s2);
      assert |n1| == |n2|;
      NameInjective(c1, c2);
    }
  }

  lemma {:induction false} NoSubLogsNoMinutes(logs: seq<TimeLog>, c: Category, sub: string)
    ensures SubCount(logs, c, sub) == 0 ==> SubMinutes(logs, c, sub) == 0
  {
    if logs != [] {
      NoSubLogsNoMinutes(logs[..|logs| - 1], c, sub);
    }
  }

  /** Every catSubMap key is made of the category and sub-category its
      value records, and no key repeats. */
  lemma {:induction false} SubTotalsShape(logs: seq<TimeLog>)
    ensures UniqueKeys(SubTotals(logs))
    ensures forall i :: 0 <= i < |SubTotals(logs)| ==>
      SubTotals(logs)[i].key == SubKey(SubTotals(logs)[i].value.category, SubTotals(logs)[i].value.subCategory)
  {
    if logs != [] {
      var p, log := logs[..|logs| - 1], logs[|logs| - 1];
      var m := SubTotals(p);
      SubTotalsFold(logs);
      SubTotalsShape(p);
      var key := SubKey(log.category, SubOf(log));
      var existing := ExistingSub(m, log);
      var t := SubAdded(existing, LogMinutes(log));
      SetUnique(m, key, t);
      match IndexOf(m, key)
      case None =>
      case Some(j) =>
        assert existing == m[j].value;
    }
  }

  /** What catSubMap holds under the key of (c, sub). */
  function SubExpected(logs: seq<TimeLog>, c: Category, sub: string): Option<SubTally>
  {
    if SubCount(logs, c, sub) == 0 then None
    else Some(SubTally(c, sub, SubMinutes(logs, c, sub), SubCount(logs, c, sub)))
  }

  /** The last log's own key after its pass. */
  lemma SubGetSame(logs: seq<TimeLog>, c: Category, sub: string)
    requires logs != [] && InSub(logs[|logs| - 1], c, sub)
    requires ExistingSub(SubTotals(logs[..|logs| - 1]), logs[|logs| - 1])
      == SubTally(c, sub, SubMinutes(logs[..|logs| - 1], c, sub), SubCount(logs[..|logs| - 1], c, sub))
    ensures Get(SubTotals(logs), SubKey(c, sub)) == Some(SubTally(c, sub, SubMinutes(logs, c, sub), SubCount(logs, c, sub)))
  {
    var p, log := logs[..|logs| - 1], logs[|logs| - 1];
    var e := ExistingSub(SubTotals(p), log);
    SubGetLast(logs);
    SubSnoc(logs, c, sub);
    SubAddedIs(e, LogMinutes(log));
  }

  /** Right after its pass, the last log's key holds the bumped entry. */
  lemma SubGetLast(logs: seq<TimeLog>)
    requires logs != []
    ensures Get(SubTotals(logs), SubKey(logs[|logs| - 1].category, SubOf(logs[|logs| - 1])))
      == Some(SubAdded(ExistingSub(SubTotals(logs[..|logs| - 1]), logs[|logs| - 1]), LogMinutes(logs[|logs| - 1])))
  {
    var p, log := logs[..|logs| - 1], logs[|logs| - 1];
    var m := SubTotals(p);
    var key := SubKey(log.category, SubOf(log));
    SubTotalsFold(logs);
    GetSet(m, key, SubAdded(ExistingSub(m, log), LogMinutes(log)), key);
  }

  /** The entry a log's pass starts from holds what the logs before it gave. */
  lemma SubExistingIs(p: seq<TimeLog>, log: TimeLog, c: Category, sub: string)
    requires InSub(log, c, sub)
    requires Get(SubTotals(p), SubKey(c, sub)) == SubExpected(p, c, sub)
    ensures ExistingSub(SubTotals(p), log) == SubTally(c, sub, SubMinutes(p, c, sub), SubCount(p, c, sub))
  {
    NoSubLogsNoMinutes(p, c, sub);
    ExistingSubOf(SubTotals(p), log, SubExpected(p, c, sub));
  }

  lemma SubAddedIs(e: SubTally, d: int)
    ensures SubAdded(e, d) == SubTally(e.category, e.subCategory, e.minutes + d, e.count + 1)
  {
  }

  /** The sub-category sums, one log further. */
  lemma SubSnoc(logs: seq<TimeLog>, c: Category, sub: string)
    requires logs != []
    ensures SubMinutes(logs, c, sub)
      == SubMinutes(logs[..|logs| - 1], c, sub) + (if InSub(logs[|logs| - 1], c, sub) then LogMinutes(logs[|logs| - 1]) else 0)
    ensures SubCount(logs, c, sub)
      == SubCount(logs[..|logs| - 1], c, sub) + (if InSub(logs[|logs| - 1], c, sub) then 1 else 0)
  {
  }

  lemma ExistingSubOf(m: seq<Entry<string, SubTally>>, log: TimeLog, expected: Option<SubTally>)
    requires Get(m, SubKey(log.category, SubOf(log))) == expected
    ensures ExistingSub(m, log) == if expected.Some? then expected.value else SubTally(log.category, SubOf(log), 0, 0)
  {
  }

  /** Any other key is left alone by the last log's pass. */
  lemma SubGetOther(logs: seq<TimeLog>, c: Category, sub: string)
    requires logs != [] && !InSub(logs[|logs| - 1], c, sub)
    requires Get(SubTotals(logs[..|logs| - 1]), SubKey(c, sub)) == SubExpected(logs[..|logs| - 1], c, sub)
    ensures Get(SubTotals(logs), SubKey(c, sub)) == SubExpected(logs, c, sub)
  {
    var p, log := logs[..|logs| - 1], logs[|logs| - 1];
    var m := SubTotals(p);
    var key := SubKey(log.category, SubOf(log));
    SubTotalsFold(logs);
    SubKeyInjective(log.category, SubOf(log), c, sub);
    GetSet(m, key, SubAdded(ExistingSub(m, log), LogMinutes(log)), SubKey(c, sub));
    SubSnoc(logs, c, sub);
  }

  /** catSubMap holds, for each (category, sub-category) pair with logs,
      the pair itself, their minutes and their count, and nothing under the
      key of a pair without logs. */
  lemma {:induction false} SubTotalsGet(logs: seq<TimeLog>, c: Category, sub: string)
    ensures Get(SubTotals(logs), SubKey(c, sub))
      == if SubCount(logs, c, sub) == 0 then None
         else Some(SubTally(c, sub, SubMinutes(logs, c, sub), SubCount(logs, c, sub)))
  {
    if logs != [] {
      SubTotalsGet(logs[..|logs| - 1], c, sub);
      if InSub(logs[|logs| - 1], c, sub) {
        SubExistingIs(logs[..|logs| - 1], logs[|logs| - 1], c, sub);
        SubGetSame(logs, c, sub);
      } else {
        SubGetOther(logs, c, sub);
      }
    }
  }

  function SubEntryMinutesIn(c: Category): Entry<string, SubTally> -> int
  {
    (e: Entry<string, SubTally>) => if e.value.category == c then e.value.minutes else 0
  }

  function SubEntryCountIn(c: Category): Entry<string, SubTally> -> int
  {
    (e: Entry<string, SubTally>) => if e.value.category == c then e.value.count else 0
  }

  /** The entry a log's pass replaces (or creates) keeps the log's category. */
  lemma ExistingSubCategory(logs: seq<TimeLog>, log: TimeLog)
    ensures ExistingSub(SubTotals(logs), log).category == log.category
    ensures ExistingSub(SubTotals(logs), log).subCategory == SubOf(log)
    ensures Get(SubTotals(logs), SubKey(log.category, SubOf(log))).Some? ==>
      Get(SubTotals(logs), SubKey(log.category, SubOf(log))).value == ExistingSub(SubTotals(logs), log)
    ensures Get(SubTotals(logs), SubKey(log.category, SubOf(log))).None? ==>
      ExistingSub(SubTotals(logs), log).minutes == 0 && ExistingSub(SubTotals(logs), log).count == 0
  {
    SubTotalsGet(logs, log.category, SubOf(log));
  }

  /** Within one category, the sub-category minutes add up to the
      category's own. */
  lemma {:induction false} SubTotalsMinutes(logs: seq<TimeLog>, c: Category)
    ensures SumBy(SubTotals(logs), SubEntryMinutesIn(c)) == CategoryMinutes(logs, c)
  {
    if logs != [] {
      var p, log := logs[..|logs| - 1], logs[|logs| - 1];
      var m := SubTotals(p);
      var f := SubEntryMinutesIn(c);
      var key := SubKey(log.category, SubOf(log));
      var e := ExistingSub(m, log);
      var t := SubAdded(e, LogMinutes(log));
      SubTotalsFold(logs);
      assert SubTotals(logs) == Set(m, key, t);
      SubTotalsMinutes(p, c);
      ExistingSubCategory(p, log);
      SumByReplace(m, key, t, e, f);
      assert f(Entry(key, t)) - f(Entry(key, e)) == (if log.category == c then LogMinutes(log) else 0);
      assert CategoryMinutes(logs, c) == CategoryMinutes(p, c) + (if log.category == c then LogMinutes(log) else 0);
    }
  }

  /** Within one category, the sub-category counts add up to the category's
      own. */
  lemma {:induction false} SubTotalsCounts(logs: seq<TimeLog>, c: Category)
    ensures SumBy(SubTotals(logs), SubEntryCountIn(c)) == CategoryCount(logs, c)
  {
    if logs != [] {
      var p, log := logs[..|logs| - 1], logs[|logs| - 1];
      var m := SubTotals(p);
      var f := SubEntryCountIn(c);
      var key := SubKey(log.category, SubOf(log));
      var e := ExistingSub(m, log);
      var t := SubAdded(e, LogMinutes(log));
      SubTotalsFold(logs);
      assert SubTotals(logs) == Set(m, key, t);
      SubTotalsCounts(p, c);
      ExistingSubCategory(p, log);
      SumByReplace(m, key, t, e, f);
      assert f(Entry(key, t)) - f(Entry(key, e)) == (if log.category == c then 1 else 0);
      assert CategoryCount(logs, c) == CategoryCount(p, c) + (if log.category == c then 1 else 0);
    }
  }
}
