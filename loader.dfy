/** `loading_data`: derive the Month column from the parsed crash date, then
    drop every row whose LAT or LON is missing. */
module Loader {
  import opened Records

  predicate HasCoords(c: Crash) {
    c.lat.Some? && c.lon.Some?
  }

  predicate RowHasCoords(r: CsvRow) {
    r.lat.Some? && r.lon.Some?
  }

  /** The loaded record for one CSV row: the row with its Month column added. */
  function WithMonth(r: CsvRow): (c: Crash)
    ensures 1 <= c.month <= 12
    ensures c.month == r.crashDate.month
    ensures HasCoords(c) == RowHasCoords(r)
    ensures c.crashDate == r.crashDate && c.lat == r.lat && c.lon == r.lon
    ensures c.county == r.county && c.collision == r.collision && c.severity == r.severity
  {
    Crash(r.crashDate, r.crashDate.month, r.lat, r.lon, r.county, r.collision, r.severity)
  }

  /** Adding the Month column to every row. */
  function DeriveMonths(rows: seq<CsvRow>): (data: seq<Crash>)
    ensures |data| == |rows|
    ensures forall i :: 0 <= i < |rows| ==> data[i] == WithMonth(rows[i])
  {
    if |rows| == 0 then [] else [WithMonth(rows[0])] + DeriveMonths(rows[1..])
  }

  /** `dropna(subset=['LAT', 'LON'])`. */
  function DropMissingCoords(data: seq<Crash>): (kept: seq<Crash>)
    ensures |kept| <= |data|
    ensures forall c :: c in kept ==> HasCoords(c)
    ensures forall c :: c in kept <==> c in data && HasCoords(c)
  {
    if |data| == 0 then []
    else (if HasCoords(data[0]) then [data[0]] else []) + DropMissingCoords(data[1..])
  }

  function Load(rows: seq<CsvRow>): (data: seq<Crash>)
    ensures forall c :: c in data ==> HasCoords(c) && 1 <= c.month <= 12 && c.month == c.crashDate.month
  {
    DropMissingCoords(DeriveMonths(rows))
  }

  /** A row is in the loaded data exactly when it was in the CSV and has both coordinates. */
  lemma LoadKeepsExactly(rows: seq<CsvRow>, r: CsvRow)
    ensures WithMonth(r) in Load(rows) <==> r in rows && RowHasCoords(r)
  {
  }

  /** Filtering works row by row, so loading two blocks of rows is loading each
      and concatenating the results: kept rows keep their relative order. */
  lemma {:induction false} LoadDistributes(a: seq<CsvRow>, b: seq<CsvRow>)
    ensures Load(a + b) == Load(a) + Load(b)
  {
    DeriveMonthsDistributes(a, b);
    DropDistributes(DeriveMonths(a), DeriveMonths(b));
  }

  lemma DeriveMonthsDistributes(a: seq<CsvRow>, b: seq<CsvRow>)
    ensures DeriveMonths(a + b) == DeriveMonths(a) + DeriveMonths(b)
  {
  }

  lemma {:induction false} DropDistributes(a: seq<Crash>, b: seq<Crash>)
    ensures DropMissingCoords(a + b) == DropMissingCoords(a) + DropMissingCoords(b)
  {
    if |a| > 0 {
      assert (a + b)[0] == a[0];
      assert (a + b)[1..] == a[1..] + b;
      DropDistributes(a[1..], b);
    } else {
      assert a + b == b;
    }
  }

  /** The number of CSV rows that have both coordinates. */
  function CountWithCoords(rows: seq<CsvRow>): (n: nat)
    ensures n <= |rows|
  {
    if |rows| == 0 then 0
    else (if RowHasCoords(rows[0]) then 1 else 0) + CountWithCoords(rows[1..])
  }

  /** No row with both coordinates is dropped: the loaded size is exactly the
      number of such rows. */
  lemma {:induction false} LoadSize(rows: seq<CsvRow>)
    ensures |Load(rows)| == CountWithCoords(rows)
    ensures |Load(rows)| == |rows| <==> forall i :: 0 <= i < |rows| ==> RowHasCoords(rows[i])
  {
    if |rows| > 0 {
      LoadDistributes([rows[0]], rows[1..]);
      assert [rows[0]] + rows[1..] == rows;
      LoadSize(rows[1..]);
      if forall i :: 0 <= i < |rows[1..]| ==> RowHasCoords(rows[1..][i]) {
        if RowHasCoords(rows[0]) {
          forall i | 0 <= i < |rows| ensures RowHasCoords(rows[i]) {
            if i > 0 { assert rows[i] == rows[1..][i - 1]; }
          }
        }
      } else {
        var j :| 0 <= j < |rows[1..]| && !RowHasCoords(rows[1..][j]);
        assert !RowHasCoords(rows[j + 1]);
      }
    }
  }

  /** Dropping rows with missing coordinates a second time changes nothing. */
  lemma {:induction false} DropIdempotent(data: seq<Crash>)
    requires forall c :: c in data ==> HasCoords(c)
    ensures DropMissingCoords(data) == data
  {
    if |data| > 0 {
      assert data[0] in data;
      assert forall c :: c in data[1..] ==> c in data;
      DropIdempotent(data[1..]);
      assert [data[0]] + data[1..] == data;
    }
  }

  lemma LoadIdempotent(rows: seq<CsvRow>)
    ensures DropMissingCoords(Load(rows)) == Load(rows)
  {
    DropIdempotent(Load(rows));
  }
}
