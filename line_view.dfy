/** The data shaping in `lineplot`: the monthly table, the name of the month
    picked on the slider (1 to 12), and that month's count read with
    `MonthlyCrashes[MonthlyCrashes['Month'] == selectedMonth]['Crashes'].iloc[0]`,
    which raises when the month has no row. */
module LineView {
  import opened Records
  import opened Monthly

  /** The IndexError `.iloc[0]` raises on an empty selection. */
  datatype LookupError = PositionOutOfBounds

  const MonthNames: seq<string> := ["January", "February", "March", "April",
    "May", "June", "July", "August", "September",
    "October", "November", "December"]

  /** The Crashes values of the rows whose Month equals m, in table order. */
  function CrashesWhere(t: seq<MonthCount>, m: int): (sel: seq<nat>)
    ensures |sel| <= |t|
    ensures |sel| == 0 <==> m !in Months(t)
    ensures forall x :: x in sel <==> exists i :: 0 <= i < |t| && t[i].month == m && t[i].crashes == x
  {
    if |t| == 0 then []
    else
      var rest := CrashesWhere(t[1..], m);
      assert forall i :: 1 <= i < |t| ==> t[i] == t[1..][i - 1];
      assert m in Months(t) <==> m == t[0].month || m in Months(t[1..]) by {
        if m in Months(t[1..]) {
          var i :| 0 <= i < |t[1..]| && t[1..][i].month == m;
          assert t[i + 1].month == m;
        }
      }
      if t[0].month == m then [t[0].crashes] + rest else rest
  }

  /** The lookup of line 35 on a table: the count of the selected month when
      it has a row, and PositionOutOfBounds when it has none. */
  function SelectedMonthCrashes(t: seq<MonthCount>, m: int): (r: Result<nat, LookupError>)
    requires StrictlySorted(t) && Positive(t)
    ensures r.Success? <==> m in Months(t)
    ensures r.Success? ==> r.value == CountIn(t, m) && r.value > 0
  {
    var sel := CrashesWhere(t, m);
    if |sel| == 0 then Failure(PositionOutOfBounds)
    else
      assert sel[0] in sel;
      var i :| 0 <= i < |t| && t[i].month == m && t[i].crashes == sel[0];
      CountInRow(t, i);
      Success(sel[0])
  }

  /** What the line graph shows: the points of the monthly table and the
      highlighted month with its name and count. */
  datatype LinePlot = LinePlot(points: seq<MonthCount>, selectedName: string, selectedCrashes: nat)

  /** `lineplot(dfCrashes)` without the drawing: fails exactly when no record
      falls in the selected month, and otherwise reports that month's number
      of records, over points that are the months present, in order, each
      with its number of records. */
  function LinePlotData(data: seq<Crash>, selected: int): (r: Result<LinePlot, LookupError>)
    requires 1 <= selected <= 12
    ensures r.Success? <==> CountMonth(data, selected) > 0
    ensures r.Success? ==> r.value.selectedCrashes == CountMonth(data, selected)
    ensures r.Success? ==> r.value.selectedName == MonthNames[selected - 1]
    ensures r.Success? ==> Total(r.value.points) == |data|
    ensures r.Success? ==> StrictlySorted(r.value.points) && Positive(r.value.points)
    ensures r.Success? ==> forall m :: CountIn(r.value.points, m) == CountMonth(data, m)
  {
    var t := MonthlyCounts(data);
    CountInPresent(t, selected);
    match SelectedMonthCrashes(t, selected)
    case Failure(e) => Failure(e)
    case Success(n) => Success(LinePlot(t, MonthNames[selected - 1], n))
  }
}
