/** `crashStats`: the sum, maximum and minimum of the Crashes column of the
    monthly table. pandas gives NaN for the maximum and minimum of an empty
    column; here that is None. */
module Stats {
  import opened Records
  import opened Monthly

  datatype Summary = Summary(total: nat, max: Option<nat>, min: Option<nat>)

  /** `.max()` of a non-empty Crashes column. */
  function MaxCrashes(t: seq<MonthCount>): (r: nat)
    requires |t| > 0
    ensures forall i :: 0 <= i < |t| ==> t[i].crashes <= r
    ensures exists i :: 0 <= i < |t| && t[i].crashes == r
  {
    if |t| == 1 then t[0].crashes
    else
      var rest := MaxCrashes(t[1..]);
      assert forall i :: 1 <= i < |t| ==> t[i] == t[1..][i - 1];
      if t[0].crashes >= rest then t[0].crashes else rest
  }

  /** `.min()` of a non-empty Crashes column. */
  function MinCrashes(t: seq<MonthCount>): (r: nat)
    requires |t| > 0
    ensures forall i :: 0 <= i < |t| ==> r <= t[i].crashes
    ensures exists i :: 0 <= i < |t| && t[i].crashes == r
  {
    if |t| == 1 then t[0].crashes
    else
      var rest := MinCrashes(t[1..]);
      assert forall i :: 1 <= i < |t| ==> t[i] == t[1..][i - 1];
      if t[0].crashes <= rest then t[0].crashes else rest
  }

  lemma TotalEmpty(t: seq<MonthCount>)
    requires Positive(t)
    ensures Total(t) == 0 <==> |t| == 0
  {
  }

  /** `.sum()`, `.max()` and `.min()` of the Crashes column of a table. */
  function Summarize(t: seq<MonthCount>): (s: Summary)
    ensures s.total == Total(t)
    ensures s.max.Some? <==> |t| > 0
    ensures s.min.Some? <==> |t| > 0
    ensures s.max.Some? ==> forall i :: 0 <= i < |t| ==> t[i].crashes <= s.max.value
    ensures s.max.Some? ==> exists i :: 0 <= i < |t| && t[i].crashes == s.max.value
    ensures s.min.Some? ==> forall i :: 0 <= i < |t| ==> s.min.value <= t[i].crashes
    ensures s.min.Some? ==> exists i :: 0 <= i < |t| && t[i].crashes == s.min.value
  {
    if |t| == 0 then Summary(Total(t), None, None)
    else Summary(Total(t), Some(MaxCrashes(t)), Some(MinCrashes(t)))
  }

  /** `crashStats(dfCrashes)`: over the months that occur, the total is the
      number of records, the maximum bounds every month's count from above and
      the minimum from below, and both are the count of some month that occurs. */
  function CrashStats(data: seq<Crash>): (s: Summary)
    ensures s.total == |data|
    ensures s.max.Some? <==> |data| > 0
    ensures s.min.Some? <==> |data| > 0
    ensures s.max.Some? ==> forall m :: CountMonth(data, m) <= s.max.value
    ensures s.max.Some? ==> exists m :: CountMonth(data, m) == s.max.value && s.max.value > 0
    ensures s.min.Some? ==> forall m :: CountMonth(data, m) > 0 ==> s.min.value <= CountMonth(data, m)
    ensures s.min.Some? ==> exists m :: CountMonth(data, m) == s.min.value && s.min.value > 0
  {
    var t := MonthlyCounts(data);
    TotalEmpty(t);
    var s := Summarize(t);
    if |t| == 0 then s
    else
      var hi, lo := s.max.value, s.min.value;
      assert forall m :: CountMonth(data, m) > 0 ==> lo <= CountMonth(data, m) <= hi by {
        forall m | CountMonth(data, m) > 0 ensures lo <= CountMonth(data, m) <= hi {
          CountInPresent(t, m);
          var i :| 0 <= i < |t| && t[i].month == m;
          CountInRow(t, i);
        }
      }
      var i :| 0 <= i < |t| && t[i].crashes == hi;
      CountInRow(t, i);
      assert CountMonth(data, t[i].month) == hi;
      var j :| 0 <= j < |t| && t[j].crashes == lo;
      CountInRow(t, j);
      assert CountMonth(data, t[j].month) == lo;
      s
  }
}
