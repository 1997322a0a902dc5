/** Worked examples of the aggregations, as the code computes them. */
module Scenarios {
  import opened Records
  import opened Monthly
  import opened Stats
  import opened LineView
  import opened Categories

  /** The monthly table of data with records in January, March and December
      only, five, three and two of them. */
  const ThreeMonths: seq<MonthCount> := [MonthCount(1, 5), MonthCount(3, 3), MonthCount(12, 2)]

  /** Its summary is (10, 5, 2); the lookup for February fails, because
      `.iloc[0]` finds no row for it, and the one for March gives 3. */
  lemma ThreeMonthsScenario()
    ensures StrictlySorted(ThreeMonths) && Positive(ThreeMonths)
    ensures Summarize(ThreeMonths) == Summary(10, Some(5), Some(2))
    ensures SelectedMonthCrashes(ThreeMonths, 2) == Failure(PositionOutOfBounds)
    ensures SelectedMonthCrashes(ThreeMonths, 3) == Success(3)
  {
    var t := ThreeMonths;
    assert t[1..] == [MonthCount(3, 3), MonthCount(12, 2)];
    assert t[1..][1..] == [MonthCount(12, 2)];
    assert t[1..][1..][1..] == [];
    assert MaxCrashes(t) == 5;
    assert MinCrashes(t) == 2;
    assert CrashesWhere(t, 2) == [];
    assert CrashesWhere(t, 3) == [3];
  }

  function CrashIn(m: int): (c: Crash)
    requires 1 <= m <= 12
    ensures c.month == m
  {
    Crash(Date(2017, m, 1), m, Some(42.3), Some(-71.1), Some("MIDDLESEX"), Some("Rear-end"), None)
  }

  /** Three loaded records, in January, March and December: the monthly
      table has one row for each, and the summary is (3, 1, 1). */
  lemma ThreeRecordsScenario()
    ensures MonthlyCounts([CrashIn(1), CrashIn(3), CrashIn(12)])
      == [MonthCount(1, 1), MonthCount(3, 1), MonthCount(12, 1)]
    ensures CrashStats([CrashIn(1), CrashIn(3), CrashIn(12)]) == Summary(3, Some(1), Some(1))
  {
    var d := [CrashIn(1), CrashIn(3), CrashIn(12)];
    assert d[..1] == [CrashIn(1)];
    assert d[..2] == [CrashIn(1), CrashIn(3)];
    assert d[..2][..1] == d[..1];
    assert d[..1][..0] == [];
    assert MonthlyCounts(d[..1]) == [MonthCount(1, 1)];
    assert [MonthCount(1, 1)][1..] == [];
    assert MonthlyCounts(d[..2]) == [MonthCount(1, 1), MonthCount(3, 1)];
    assert [MonthCount(1, 1), MonthCount(3, 1)][1..] == [MonthCount(3, 1)];
    assert [MonthCount(3, 1)][1..] == [];
    var t := MonthlyCounts(d);
    assert t == [MonthCount(1, 1), MonthCount(3, 1), MonthCount(12, 1)];
    assert t[1..] == [MonthCount(3, 1), MonthCount(12, 1)];
    assert t[1..][1..] == [MonthCount(12, 1)];
    assert MaxCrashes(t) == 1;
    assert MinCrashes(t) == 1;
  }

  const FourCategories: seq<Entry> := [Entry("A", 50), Entry("B", 45), Entry("C", 3), Entry("D", 2)]

  lemma FourCategoriesLabels()
    ensures DistinctLabels(FourCategories) && OtherLabel !in Labels(FourCategories)
  {
    var counts := FourCategories;
    forall i | 0 <= i < |counts| ensures counts[i].category != OtherLabel {
      if i == 0 {} else if i == 1 {} else if i == 2 {} else {}
    }
  }

  lemma FourCategoriesSums()
    ensures Sum(FourCategories) == 100
    ensures SmallSum(FourCategories, 100) == 2
  {
    var counts := FourCategories;
    var c1, c2, c3 := counts[1..], counts[1..][1..], counts[1..][1..][1..];
    assert c1 == [Entry("B", 45), Entry("C", 3), Entry("D", 2)];
    assert c2 == [Entry("C", 3), Entry("D", 2)];
    assert c3 == [Entry("D", 2)];
    assert c3[1..] == [];
  }

  lemma FourCategoriesLarge()
    ensures LargeEntries(FourCategories, 100) == [Entry("A", 50), Entry("B", 45), Entry("C", 3)]
  {
    var counts := FourCategories;
    var c1, c2, c3 := counts[1..], counts[1..][1..], counts[1..][1..][1..];
    assert c1 == [Entry("B", 45), Entry("C", 3), Entry("D", 2)];
    assert c2 == [Entry("C", 3), Entry("D", 2)];
    assert c3 == [Entry("D", 2)];
    assert c3[1..] == [];
    assert LargeEntries(c3, 100) == [];
    assert LargeEntries(c2, 100) == [Entry("C", 3)];
    assert LargeEntries(c1, 100) == [Entry("B", 45), Entry("C", 3)];
  }

  /** Shares 50, 45, 3 and 2 percent: only the 2 percent category is below
      the 2.5 percent threshold, so 'Other' holds 2 and the 3 percent category stays. */
  lemma FourCategoriesScenario()
    ensures DistinctLabels(FourCategories) && OtherLabel !in Labels(FourCategories)
    ensures Collapse(FourCategories) == [Entry("A", 50), Entry("B", 45), Entry("C", 3), Entry(OtherLabel, 2)]
  {
    FourCategoriesLabels();
    FourCategoriesSums();
    FourCategoriesLarge();
    assert Collapse(FourCategories) == LargeEntries(FourCategories, 100) + [Entry(OtherLabel, 2)];
  }
}
