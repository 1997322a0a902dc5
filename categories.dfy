/** The data shaping in `piechart`: `value_counts()` of one column, then every
    category whose share of the total is below 2.5 percent is summed into an
    'Other' entry and removed. The float test `count / total * 100 < 2.5` is
    the integer test `count * 40 < total`. */
module Categories {
  import opened Records

  /** One entry of a count series: a category and its number of records. */
  datatype Entry = Entry(category: string, count: nat)

  const OtherLabel: string := "Other"

  predicate DistinctLabels(t: seq<Entry>) {
    forall i, j :: 0 <= i < j < |t| ==> t[i].category != t[j].category
  }

  predicate PositiveCounts(t: seq<Entry>) {
    forall i :: 0 <= i < |t| ==> t[i].count > 0
  }

  function Labels(t: seq<Entry>): set<string> {
    set i | 0 <= i < |t| :: t[i].category
  }

  /** The count of category v: that of its first entry, 0 when it has none. */
  function CountOf(t: seq<Entry>, v: string): nat {
    if |t| == 0 then 0
    else if t[0].category == v then t[0].count
    else CountOf(t[1..], v)
  }

  /** `.sum()` of a count series. */
  function Sum(t: seq<Entry>): nat {
    if |t| == 0 then 0 else t[0].count + Sum(t[1..])
  }

  lemma LabelsCons(x: Entry, t: seq<Entry>)
    ensures Labels([x] + t) == {x.category} + Labels(t)
  {
    var r := [x] + t;
    assert r[0] == x;
    forall k | k in Labels(r) ensures k in {x.category} + Labels(t) {
      var i :| 0 <= i < |r| && r[i].category == k;
      if i > 0 { assert r[i] == t[i - 1]; }
    }
    forall k | k in Labels(t) ensures k in Labels(r) {
      var i :| 0 <= i < |t| && t[i].category == k;
      assert r[i + 1] == t[i];
    }
  }

  lemma {:induction false} CountOfAbsent(t: seq<Entry>, v: string)
    requires v !in Labels(t)
    ensures CountOf(t, v) == 0
  {
    if |t| > 0 {
      assert t == [t[0]] + t[1..];
      LabelsCons(t[0], t[1..]);
      CountOfAbsent(t[1..], v);
    }
  }

  lemma {:induction false} CountOfEntry(t: seq<Entry>, i: nat)
    requires DistinctLabels(t) && i < |t|
    ensures CountOf(t, t[i].category) == t[i].count
  {
    if i > 0 {
      assert t[1..][i - 1] == t[i];
      CountOfEntry(t[1..], i - 1);
    }
  }

  // ---------------------------------------------------------------------
  // value_counts

  /** Counts one more record whose column holds v; a new category is added at the end. */
  function Tally(t: seq<Entry>, v: string): (r: seq<Entry>)
    requires DistinctLabels(t) && PositiveCounts(t)
    ensures DistinctLabels(r) && PositiveCounts(r)
    ensures Labels(r) == Labels(t) + {v}
  {
    if |t| == 0 then
      LabelsCons(Entry(v, 1), t);
      assert [Entry(v, 1)] + t == [Entry(v, 1)];
      [Entry(v, 1)]
    else
      var x, tail := t[0], t[1..];
      assert t == [x] + tail;
      LabelsCons(x, tail);
      if x.category == v then
        var y := Entry(v, x.count + 1);
        LabelsCons(y, tail);
        [y] + tail
      else
        var rest := Tally(tail, v);
        LabelsCons(x, rest);
        var r := [x] + rest;
        assert DistinctLabels(r) by {
          forall i, j | 0 <= i < j < |r| ensures r[i].category != r[j].category {
            if i == 0 {
              assert r[j] == rest[j - 1];
              assert r[j].category in Labels(rest);
              if r[j].category != v {
                var k :| 0 <= k < |tail| && tail[k].category == r[j].category;
                assert t[k + 1] == tail[k];
              }
            } else {
              assert r[i] == rest[i - 1] && r[j] == rest[j - 1];
            }
          }
        }
        r
  }

  /** Tallying v adds one to v's count and to the sum, and leaves every other category alone. */
  lemma {:induction false} TallyCounts(t: seq<Entry>, v: string, w: string)
    requires DistinctLabels(t) && PositiveCounts(t)
    ensures CountOf(Tally(t, v), w) == CountOf(t, w) + (if w == v then 1 else 0)
    ensures Sum(Tally(t, v)) == Sum(t) + 1
  {
    if |t| > 0 && t[0].category != v {
      TallyCounts(t[1..], v, w);
    }
  }

  /** The number of records whose column holds v. */
  function CountValue(data: seq<Crash>, f: Field, v: string): (n: nat)
    ensures n <= |data|
  {
    if |data| == 0 then 0
    else CountValue(data[..|data| - 1], f, v) + (if FieldValue(data[|data| - 1], f) == Some(v) then 1 else 0)
  }

  /** The number of records whose column is not missing. */
  function CountPresent(data: seq<Crash>, f: Field): (n: nat)
    ensures n <= |data|
  {
    if |data| == 0 then 0
    else CountPresent(data[..|data| - 1], f) + (if FieldValue(data[|data| - 1], f).Some? then 1 else 0)
  }

  /** `data[column].value_counts()`: one entry per distinct value of the
      column, holding its number of records; missing values are skipped. */
  function ValueCounts(data: seq<Crash>, f: Field): (t: seq<Entry>)
    ensures DistinctLabels(t) && PositiveCounts(t)
    ensures forall v :: CountOf(t, v) == CountValue(data, f, v)
    ensures Sum(t) == CountPresent(data, f)
  {
    if |data| == 0 then []
    else
      var init := data[..|data| - 1];
      var prev := ValueCounts(init, f);
      match FieldValue(data[|data| - 1], f)
      case None => prev
      case Some(v) =>
        var t := Tally(prev, v);
        assert forall w :: CountOf(t, w) == CountValue(data, f, w) by {
          forall w ensures CountOf(t, w) == CountValue(data, f, w) {
            TallyCounts(prev, v, w);
          }
        }
        TallyCounts(prev, v, v);
        t
  }

  /** A category appears in the counts exactly when some record holds it. */
  lemma {:induction false} ValueCountsLabels(data: seq<Crash>, f: Field, v: string)
    ensures v in Labels(ValueCounts(data, f)) <==> exists i :: 0 <= i < |data| && FieldValue(data[i], f) == Some(v)
  {
    var t := ValueCounts(data, f);
    if v in Labels(t) {
      var i :| 0 <= i < |t| && t[i].category == v;
      CountOfEntry(t, i);
    } else {
      CountOfAbsent(t, v);
    }
    CountValuePositive(data, f, v);
  }

  lemma {:induction false} CountValuePositive(data: seq<Crash>, f: Field, v: string)
    ensures CountValue(data, f, v) > 0 <==> exists i :: 0 <= i < |data| && FieldValue(data[i], f) == Some(v)
  {
    if |data| > 0 {
      var init := data[..|data| - 1];
      CountValuePositive(init, f, v);
      if exists i :: 0 <= i < |init| && FieldValue(init[i], f) == Some(v) {
        var i :| 0 <= i < |init| && FieldValue(init[i], f) == Some(v);
        assert data[i] == init[i];
      }
      if exists i :: 0 <= i < |data| && FieldValue(data[i], f) == Some(v) {
        var i :| 0 <= i < |data| && FieldValue(data[i], f) == Some(v);
        if i < |init| {
          assert init[i] == data[i];
        }
      }
    }
  }

  // ---------------------------------------------------------------------
  // collapsing small categories

  /** `percent < 2.5` for `percent = count / total * 100`, in integers. */
  predicate IsSmall(count: nat, total: nat) {
    count * 40 < total
  }

  /** The entries at or above the threshold, in their original order. */
  function LargeEntries(t: seq<Entry>, total: nat): (r: seq<Entry>)
    ensures forall i :: 0 <= i < |r| ==> !IsSmall(r[i].count, total)
    ensures forall e :: e in r <==> e in t && !IsSmall(e.count, total)
  {
    if |t| == 0 then []
    else (if IsSmall(t[0].count, total) then [] else [t[0]]) + LargeEntries(t[1..], total)
  }

  /** `countData.loc[smallCategories].sum()`. */
  function SmallSum(t: seq<Entry>, total: nat): nat {
    if |t| == 0 then 0
    else (if IsSmall(t[0].count, total) then t[0].count else 0) + SmallSum(t[1..], total)
  }

  /** Every record is counted either in a kept category or in the small ones. */
  lemma {:induction false} SplitSum(t: seq<Entry>, total: nat)
    ensures Sum(LargeEntries(t, total)) + SmallSum(t, total) == Sum(t)
  {
    if |t| > 0 {
      SplitSum(t[1..], total);
      var rest := LargeEntries(t[1..], total);
      if IsSmall(t[0].count, total) {
        assert [] + rest == rest;
      } else {
        assert ([t[0]] + rest)[0] == t[0];
        assert ([t[0]] + rest)[1..] == rest;
      }
    }
  }

  /** SmallSum is zero exactly when no category is below the threshold. */
  lemma {:induction false} SmallSumZero(t: seq<Entry>, total: nat)
    requires PositiveCounts(t)
    ensures SmallSum(t, total) == 0 <==> forall i :: 0 <= i < |t| ==> !IsSmall(t[i].count, total)
  {
    if |t| > 0 {
      SmallSumZero(t[1..], total);
      assert forall i :: 1 <= i < |t| ==> t[i] == t[1..][i - 1];
      if forall i :: 0 <= i < |t[1..]| ==> !IsSmall(t[1..][i].count, total) {
        if !IsSmall(t[0].count, total) {
          forall i | 0 <= i < |t| ensures !IsSmall(t[i].count, total) {
            if i > 0 { assert t[i] == t[1..][i - 1]; }
          }
        }
      }
    }
  }

  lemma HeadNotInTail(t: seq<Entry>)
    requires DistinctLabels(t) && |t| > 0
    ensures t[0].category !in Labels(t[1..])
  {
  }

  /** Filtering keeps exactly the categories at or above the threshold, with their counts. */
  lemma {:induction false} LargeEntriesCounts(t: seq<Entry>, total: nat, v: string)
    requires DistinctLabels(t)
    ensures Labels(LargeEntries(t, total)) <= Labels(t)
    ensures v in Labels(LargeEntries(t, total)) <==> v in Labels(t) && !IsSmall(CountOf(t, v), total)
    ensures v in Labels(LargeEntries(t, total)) ==> CountOf(LargeEntries(t, total), v) == CountOf(t, v)
  {
    if |t| > 0 {
      var x, tail := t[0], t[1..];
      var rest := LargeEntries(tail, total);
      assert DistinctLabels(tail) by {
        forall i, j | 0 <= i < j < |tail| ensures tail[i].category != tail[j].category {
          assert tail[i] == t[i + 1] && tail[j] == t[j + 1];
        }
      }
      LargeEntriesCounts(tail, total, v);
      assert t == [x] + tail;
      LabelsCons(x, tail);
      HeadNotInTail(t);
      if IsSmall(x.count, total) {
        assert LargeEntries(t, total) == rest;
      } else {
        assert LargeEntries(t, total) == [x] + rest;
        LabelsCons(x, rest);
      }
    }
  }

  lemma {:induction false} LargeEntriesDistinct(t: seq<Entry>, total: nat)
    requires DistinctLabels(t)
    ensures DistinctLabels(LargeEntries(t, total))
  {
    if |t| > 0 {
      var x, tail := t[0], t[1..];
      var rest := LargeEntries(tail, total);
      assert DistinctLabels(tail) by {
        forall i, j | 0 <= i < j < |tail| ensures tail[i].category != tail[j].category {
          assert tail[i] == t[i + 1] && tail[j] == t[j + 1];
        }
      }
      LargeEntriesDistinct(tail, total);
      if !IsSmall(x.count, total) {
        HeadNotInTail(t);
        LargeEntriesCounts(tail, total, x.category);
        var r := [x] + rest;
        forall i, j | 0 <= i < j < |r| ensures r[i].category != r[j].category {
          assert r[j] == rest[j - 1];
          if i > 0 { assert r[i] == rest[i - 1]; }
          else { assert r[j].category in Labels(rest); }
        }
      }
    }
  }

  lemma {:induction false} SumAppend(a: seq<Entry>, e: Entry)
    ensures Sum(a + [e]) == Sum(a) + e.count
  {
    if |a| > 0 {
      assert (a + [e])[1..] == a[1..] + [e];
      SumAppend(a[1..], e);
    } else {
      assert a + [e] == [e];
    }
  }

  lemma LabelsAppend(a: seq<Entry>, e: Entry)
    ensures Labels(a + [e]) == Labels(a) + {e.category}
  {
    var r := a + [e];
    assert r[|a|] == e;
    forall k | k in Labels(r) ensures k in Labels(a) + {e.category} {
      var i :| 0 <= i < |r| && r[i].category == k;
      if i < |a| { assert r[i] == a[i]; }
    }
    forall k | k in Labels(a) ensures k in Labels(r) {
      var i :| 0 <= i < |a| && a[i].category == k;
      assert r[i] == a[i];
    }
  }

  lemma {:induction false} CountOfAppend(a: seq<Entry>, e: Entry, v: string)
    ensures CountOf(a + [e], v) == if v in Labels(a) then CountOf(a, v) else if e.category == v then e.count else 0
  {
    if |a| == 0 {
      assert a + [e] == [e];
    } else {
      assert (a + [e])[1..] == a[1..] + [e];
      assert a == [a[0]] + a[1..];
      LabelsCons(a[0], a[1..]);
      CountOfAppend(a[1..], e, v);
    }
  }

  lemma DistinctAppend(a: seq<Entry>, e: Entry)
    requires DistinctLabels(a) && e.category !in Labels(a)
    ensures DistinctLabels(a + [e])
  {
  }

  /** Lines 66-70 of `piechart`: 'Other' is appended with the sum of the small
      categories (0 when there is none), the small categories are removed, and
      every other category keeps its count. */
  function Collapse(counts: seq<Entry>): (r: seq<Entry>)
    requires DistinctLabels(counts) && OtherLabel !in Labels(counts)
    ensures |r| > 0 && r[|r| - 1] == Entry(OtherLabel, SmallSum(counts, Sum(counts)))
    ensures forall i :: 0 <= i < |r| - 1 ==> !IsSmall(r[i].count, Sum(counts))
    ensures forall v :: v != OtherLabel ==>
      (v in Labels(r) <==> v in Labels(counts) && !IsSmall(CountOf(counts, v), Sum(counts)))
    ensures forall v :: v != OtherLabel ==> v in Labels(r) ==> CountOf(r, v) == CountOf(counts, v)
    ensures CountOf(r, OtherLabel) == SmallSum(counts, Sum(counts))
    ensures DistinctLabels(r)
    ensures Sum(r) == Sum(counts)
  {
    var total := Sum(counts);
    var large := LargeEntries(counts, total);
    var other := Entry(OtherLabel, SmallSum(counts, total));
    LargeEntriesDistinct(counts, total);
    LargeEntriesCounts(counts, total, OtherLabel);
    SplitSum(counts, total);
    SumAppend(large, other);
    LabelsAppend(large, other);
    DistinctAppend(large, other);
    CountOfAppend(large, other, OtherLabel);
    assert forall v :: v != OtherLabel ==>
      (v in Labels(large + [other]) <==> v in Labels(counts) && !IsSmall(CountOf(counts, v), total)) &&
      (v in Labels(large + [other]) ==> CountOf(large + [other], v) == CountOf(counts, v)) by {
      forall v | v != OtherLabel
        ensures v in Labels(large + [other]) <==> v in Labels(counts) && !IsSmall(CountOf(counts, v), total)
        ensures v in Labels(large + [other]) ==> CountOf(large + [other], v) == CountOf(counts, v)
      {
        LargeEntriesCounts(counts, total, v);
        CountOfAppend(large, other, v);
      }
    }
    large + [other]
  }

  /** With no category below the threshold, 'Other' is still added, holding 0. */
  lemma OtherAlwaysPresent(counts: seq<Entry>)
    requires DistinctLabels(counts) && PositiveCounts(counts) && OtherLabel !in Labels(counts)
    ensures OtherLabel in Labels(Collapse(counts))
    ensures CountOf(Collapse(counts), OtherLabel) == 0 <==>
      forall i :: 0 <= i < |counts| ==> !IsSmall(counts[i].count, Sum(counts))
  {
    var r := Collapse(counts);
    SmallSumZero(counts, Sum(counts));
    assert r[|r| - 1].category in Labels(r);
  }

  /** `piechart(data, column, title)` without the drawing: the wedges are the
      collapsed value counts of the column. */
  function PieWedges(data: seq<Crash>, f: Field): (r: seq<Entry>)
    requires forall i :: 0 <= i < |data| ==> FieldValue(data[i], f) != Some(OtherLabel)
    ensures Sum(r) == CountPresent(data, f)
    ensures forall i :: 0 <= i < |r| - 1 ==> !IsSmall(r[i].count, CountPresent(data, f))
    ensures forall v :: v != OtherLabel ==>
      (v in Labels(r) <==> !IsSmall(CountValue(data, f, v), CountPresent(data, f)) && CountValue(data, f, v) > 0)
    ensures forall v :: v != OtherLabel && v in Labels(r) ==> CountOf(r, v) == CountValue(data, f, v)
  {
    var counts := ValueCounts(data, f);
    ValueCountsLabels(data, f, OtherLabel);
    forall v | v != OtherLabel ensures v in Labels(counts) <==> CountValue(data, f, v) > 0 {
      ValueCountsLabels(data, f, v);
      CountValuePositive(data, f, v);
    }
    Collapse(counts)
  }
}
