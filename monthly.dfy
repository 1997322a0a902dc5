/** `groupby('Month').size().reset_index(name='Crashes')`, shared by `lineplot`,
    `barplot` and `crashStats`: one row per month that occurs in the data,
    in increasing month order, holding that month's number of records.
    Months without records get no row. */
module Monthly {
  import opened Records

  datatype MonthCount = MonthCount(month: int, crashes: nat)

  /** The rows of a group-by result: strictly increasing months. */
  predicate StrictlySorted(t: seq<MonthCount>) {
    forall i, j :: 0 <= i < j < |t| ==> t[i].month < t[j].month
  }

  predicate Positive(t: seq<MonthCount>) {
    forall i :: 0 <= i < |t| ==> t[i].crashes > 0
  }

  function Months(t: seq<MonthCount>): set<int> {
    set i | 0 <= i < |t| :: t[i].month
  }

  /** The count a table gives month m: that of its first row for m, or 0 when it has none. */
  function CountIn(t: seq<MonthCount>, m: int): nat {
    if |t| == 0 then 0
    else if t[0].month == m then t[0].crashes
    else CountIn(t[1..], m)
  }

  /** The sum of the Crashes column. */
  function Total(t: seq<MonthCount>): nat {
    if |t| == 0 then 0 else t[0].crashes + Total(t[1..])
  }

  lemma {:induction false} CountInRow(t: seq<MonthCount>, i: nat)
    requires StrictlySorted(t) && i < |t|
    ensures CountIn(t, t[i].month) == t[i].crashes
  {
    if i > 0 {
      assert t[0].month < t[i].month;
      assert t[1..][i - 1] == t[i];
      CountInRow(t[1..], i - 1);
    }
  }

  /** In a sorted table of positive counts, a month has a row exactly when its
      count is positive, and that row holds the count. */
  lemma {:induction false} CountInPresent(t: seq<MonthCount>, m: int)
    requires StrictlySorted(t) && Positive(t)
    ensures m in Months(t) <==> CountIn(t, m) > 0
    ensures m !in Months(t) ==> CountIn(t, m) == 0
  {
    if |t| > 0 {
      assert Months(t) == {t[0].month} + Months(t[1..]) by {
        forall k | k in Months(t) ensures k in {t[0].month} + Months(t[1..]) {
          var i :| 0 <= i < |t| && t[i].month == k;
          if i > 0 { assert t[1..][i - 1] == t[i]; }
        }
        forall k | k in Months(t[1..]) ensures k in Months(t) {
          var i :| 0 <= i < |t[1..]| && t[1..][i].month == k;
          assert t[i + 1].month == k;
        }
      }
      CountInPresent(t[1..], m);
    }
  }

  lemma MonthsCons(x: MonthCount, t: seq<MonthCount>)
    ensures Months([x] + t) == {x.month} + Months(t)
  {
    var r := [x] + t;
    assert r[0] == x;
    forall k | k in Months(r) ensures k in {x.month} + Months(t) {
      var i :| 0 <= i < |r| && r[i].month == k;
      if i > 0 { assert r[i] == t[i - 1]; }
    }
    forall k | k in Months(t) ensures k in Months(r) {
      var i :| 0 <= i < |t| && t[i].month == k;
      assert r[i + 1] == t[i];
    }
  }

  lemma SortedCons(x: MonthCount, t: seq<MonthCount>)
    requires StrictlySorted(t)
    requires forall k :: k in Months(t) ==> x.month < k
    ensures StrictlySorted([x] + t)
  {
    var r := [x] + t;
    forall i, j | 0 <= i < j < |r| ensures r[i].month < r[j].month {
      assert r[j] == t[j - 1];
      assert t[j - 1].month in Months(t);
    }
  }

  /** Records one more crash in month m. */
  function Bump(t: seq<MonthCount>, m: int): (r: seq<MonthCount>)
    requires StrictlySorted(t) && Positive(t)
    ensures StrictlySorted(r) && Positive(r)
    ensures Months(r) == Months(t) + {m}
  {
    if |t| == 0 then
      MonthsCons(MonthCount(m, 1), t);
      assert [MonthCount(m, 1)] + t == [MonthCount(m, 1)];
      [MonthCount(m, 1)]
    else if m < t[0].month then
      MonthsCons(MonthCount(m, 1), t);
      SortedCons(MonthCount(m, 1), t);
      [MonthCount(m, 1)] + t
    else
      var x, tail := t[0], t[1..];
      assert t == [x] + tail;
      MonthsCons(x, tail);
      if m == x.month then
        var y := MonthCount(m, x.crashes + 1);
        MonthsCons(y, tail);
        SortedCons(y, tail);
        [y] + tail
      else
        var rest := Bump(tail, m);
        MonthsCons(x, rest);
        SortedCons(x, rest);
        [x] + rest
  }

  /** Bumping month m adds one to m's count and to the total, and leaves every
      other month's count alone. */
  lemma {:induction false} BumpCounts(t: seq<MonthCount>, m: int, k: int)
    requires StrictlySorted(t) && Positive(t)
    ensures CountIn(Bump(t, m), k) == CountIn(t, k) + (if k == m then 1 else 0)
    ensures Total(Bump(t, m)) == Total(t) + 1
  {
    if |t| > 0 {
      if m < t[0].month {
        if k == m {
          CountInPresent(t, m);
          MonthsCons(t[0], t[1..]);
          assert t == [t[0]] + t[1..];
        }
      } else if m != t[0].month {
        BumpCounts(t[1..], m, k);
      }
    }
  }

  /** `groupby('Month').size().reset_index(name='Crashes')`. */
  function MonthlyCounts(data: seq<Crash>): (t: seq<MonthCount>)
    ensures StrictlySorted(t) && Positive(t)
    ensures forall m :: CountIn(t, m) == CountMonth(data, m)
    ensures Total(t) == |data|
  {
    if |data| == 0 then []
    else
      var init := data[..|data| - 1];
      var t := Bump(MonthlyCounts(init), data[|data| - 1].month);
      assert forall m :: CountIn(t, m) == CountMonth(data, m) by {
        forall m ensures CountIn(t, m) == CountMonth(data, m) {
          BumpCounts(MonthlyCounts(init), data[|data| - 1].month, m);
        }
      }
      BumpCounts(MonthlyCounts(init), data[|data| - 1].month, 0);
      t
  }

  /** The table has a row for a month exactly when some record has that month,
      and the row holds the number of records with that month. */
  lemma MonthlyRows(data: seq<Crash>, m: int)
    ensures m in Months(MonthlyCounts(data)) <==> exists i :: 0 <= i < |data| && data[i].month == m
    ensures forall i :: 0 <= i < |MonthlyCounts(data)| ==>
      MonthlyCounts(data)[i].crashes == CountMonth(data, MonthlyCounts(data)[i].month)
  {
    var t := MonthlyCounts(data);
    CountInPresent(t, m);
    CountMonthPositive(data, m);
    forall i | 0 <= i < |t| ensures t[i].crashes == CountMonth(data, t[i].month) {
      CountInRow(t, i);
    }
  }
}
