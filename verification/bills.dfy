/** The bill-row aggregation of the backend's data coordinator: from the
    month rows the utility's billing API returns, it derives the yearly
    totals, the unpaid total, the current month's figures, the latest
    meter facts and the date-sorted monthly history. */
module Bills {
  import opened Base
  import opened Strings
  import opened History
  import opened DateSort

  type Month = m: nat | 1 <= m <= 12 witness 1

  /** The local clock reading the coordinator takes at the start of a fetch. */
  datatype Now = Now(year: nat, month: Month)

  /** One bill row. Numeric fields are already parsed: a missing, null,
      empty or zero field reads as 0. A missing `month` reads as "". */
  datatype Row = Row(
    month: string,
    quantity: real,
    amount: real,
    payableAmount: real,
    paidAmount: real,
    isPaid: Option<Json>,
    meterIndex: real,
    lastMeterIndex: real,
    unitPrice: real,
    meterId: Option<string>,
    costCategoryName: Option<string>)

  /** The coordinator's result, without the fields filled by the clock and
      the account-info request (`querytime`, `house_id`, `balance`,
      `customer_name`, `address`). */
  datatype WaterData = WaterData(
    currentReading: real,
    yearlyVolume: real,
    yearlyAmount: real,
    monthlyVolume: real,
    monthlyAmount: real,
    unpaidAmount: real,
    unitPrice: real,
    meterId: Option<string>,
    costCategory: Option<string>,
    monthlyHistory: seq<HistoryEntry>)

  /** The result when the API returns no rows. */
  const Defaults := WaterData(0.0, 0.0, 0.0, 0.0, 0.0, 0.0, 0.0, None, None, [])

  /** `row.get("isPaid", True)`: a missing flag means paid. */
  function PaidFlag(r: Row): Json {
    r.isPaid.GetOr(JBool(true))
  }

  predicate InYear(r: Row, year: nat) {
    StartsWith(r.month, NatToString(year))
  }

  predicate Unpaid(r: Row) {
    !PyTruthy(PaidFlag(r))
  }

  /** Rows that enter the monthly history: a month string and a positive quantity. */
  predicate Charted(r: Row) {
    r.month != "" && r.quantity > 0.0
  }

  function EntryOf(r: Row): HistoryEntry {
    HistoryEntry(r.month, r.quantity, r.amount, r.meterIndex, r.lastMeterIndex, r.unitPrice, PaidFlag(r))
  }

  // Reference definitions of the totals, one row at a time.

  function YearlyVolume(rows: seq<Row>, year: nat): real {
    if rows == [] then 0.0
    else
      var r := rows[|rows| - 1];
      YearlyVolume(rows[..|rows| - 1], year) + (if InYear(r, year) then r.quantity else 0.0)
  }

  function YearlyAmount(rows: seq<Row>, year: nat): real {
    if rows == [] then 0.0
    else
      var r := rows[|rows| - 1];
      YearlyAmount(rows[..|rows| - 1], year) + (if InYear(r, year) then r.amount else 0.0)
  }

  function UnpaidTotal(rows: seq<Row>): real {
    if rows == [] then 0.0
    else
      var r := rows[|rows| - 1];
      UnpaidTotal(rows[..|rows| - 1]) + (if Unpaid(r) then r.payableAmount - r.paidAmount else 0.0)
  }

  /** The monthly history before sorting: the charted rows, in row order. */
  function HistoryRows(rows: seq<Row>): (h: seq<HistoryEntry>)
    ensures |h| <= |rows|
    ensures forall k :: 0 <= k < |h| ==> h[k].date != "" && h[k].volume > 0.0
  {
    if rows == [] then []
    else
      var r := rows[|rows| - 1];
      HistoryRows(rows[..|rows| - 1]) + (if Charted(r) then [EntryOf(r)] else [])
  }

  /** The rows of `rows` whose month string starts with `year`. */
  function RowsInYear(rows: seq<Row>, year: nat): (s: seq<Row>)
    ensures forall k :: 0 <= k < |s| ==> InYear(s[k], year)
  {
    if rows == [] then []
    else
      var r := rows[|rows| - 1];
      RowsInYear(rows[..|rows| - 1], year) + (if InYear(r, year) then [r] else [])
  }

  lemma {:induction false} YearlyVolumeAppend(a: seq<Row>, b: seq<Row>, year: nat)
    ensures YearlyVolume(a + b, year) == YearlyVolume(a, year) + YearlyVolume(b, year)
    ensures YearlyAmount(a + b, year) == YearlyAmount(a, year) + YearlyAmount(b, year)
    decreases |b|
  {
    if b == [] {
      assert a + b == a;
    } else {
      assert (a + b)[..|a + b| - 1] == a + b[..|b| - 1];
      YearlyVolumeAppend(a, b[..|b| - 1], year);
    }
  }

  /** The yearly totals are the sums over the current year's rows alone:
      rows of other years contribute nothing. */
  lemma {:induction false} YearlyTotalsOverYearRows(rows: seq<Row>, year: nat)
    ensures YearlyVolume(rows, year) == YearlyVolume(RowsInYear(rows, year), year)
    ensures YearlyAmount(rows, year) == YearlyAmount(RowsInYear(rows, year), year)
    decreases |rows|
  {
    if rows != [] {
      var r := rows[|rows| - 1];
      var init := rows[..|rows| - 1];
      YearlyTotalsOverYearRows(init, year);
      var tail := if InYear(r, year) then [r] else [];
      YearlyVolumeAppend(RowsInYear(init, year), tail, year);
      if InYear(r, year) {
        assert [r][..0] == [];
      }
    }
  }

  /** Adding rows of other years leaves the yearly totals unchanged. */
  lemma OtherYearsAddNothing(rows: seq<Row>, others: seq<Row>, year: nat)
    requires forall k :: 0 <= k < |others| ==> !InYear(others[k], year)
    ensures YearlyVolume(rows + others, year) == YearlyVolume(rows, year)
    ensures YearlyAmount(rows + others, year) == YearlyAmount(rows, year)
  {
    YearlyVolumeAppend(rows, others, year);
    YearlyTotalsOverYearRows(others, year);
    assert RowsInYear(others, year) == [] by {
      RowsInYearEmpty(others, year);
    }
  }

  lemma {:induction false} RowsInYearEmpty(rows: seq<Row>, year: nat)
    requires forall k :: 0 <= k < |rows| ==> !InYear(rows[k], year)
    ensures RowsInYear(rows, year) == []
    decreases |rows|
  {
    if rows != [] {
      RowsInYearEmpty(rows[..|rows| - 1], year);
    }
  }

  /** A row without an `isPaid` field never adds to the unpaid total. */
  lemma MissingPaidFlagAddsNothing(rows: seq<Row>, r: Row)
    requires r.isPaid.None?
    ensures UnpaidTotal(rows + [r]) == UnpaidTotal(rows)
  {
    assert (rows + [r])[..|rows|] == rows;
  }

  /** The history holds exactly the charted rows: each entry is the entry
      of some charted row, and each charted row has its entry there. */
  lemma {:induction false} HistoryRowsExact(rows: seq<Row>, e: HistoryEntry)
    ensures e in HistoryRows(rows) <==> exists k :: 0 <= k < |rows| && Charted(rows[k]) && EntryOf(rows[k]) == e
    decreases |rows|
  {
    if rows != [] {
      var init := rows[..|rows| - 1];
      HistoryRowsExact(init, e);
      if e in HistoryRows(init) {
        var k :| 0 <= k < |init| && Charted(init[k]) && EntryOf(init[k]) == e;
        assert rows[k] == init[k];
      }
      if exists k :: 0 <= k < |rows| && Charted(rows[k]) && EntryOf(rows[k]) == e {
        var k :| 0 <= k < |rows| && Charted(rows[k]) && EntryOf(rows[k]) == e;
        if k < |init| {
          assert init[k] == rows[k];
        }
      }
    }
  }

  /** The row `sorted(rows, key=month, reverse=True)[0]` picks: the first
      row holding the greatest month string. */
  function LatestIndex(rows: seq<Row>): (i: nat)
    requires |rows| > 0
    ensures i < |rows|
    ensures forall j :: 0 <= j < |rows| ==> !Less(rows[i].month, rows[j].month)
    ensures forall j :: 0 <= j < i ==> Less(rows[j].month, rows[i].month)
  {
    if |rows| == 1 then
      LessIrreflexive(rows[0].month);
      0
    else
      var n := |rows| - 1;
      var k := LatestIndex(rows[..n]);
      assert forall j :: 0 <= j < n ==> rows[..n][j] == rows[j];
      if Less(rows[k].month, rows[n].month) then
        LatestOverPrefix(rows, k, n);
        n
      else
        k
  }

  lemma LatestOverPrefix(rows: seq<Row>, k: nat, n: nat)
    requires n == |rows| - 1 && k < n
    requires forall j :: 0 <= j < n ==> !Less(rows[k].month, rows[j].month)
    requires Less(rows[k].month, rows[n].month)
    ensures forall j :: 0 <= j <= n ==> !Less(rows[n].month, rows[j].month)
    ensures forall j :: 0 <= j < n ==> Less(rows[j].month, rows[n].month)
  {
    forall j | 0 <= j < n
      ensures Less(rows[j].month, rows[n].month)
    {
      LessTotal(rows[j].month, rows[k].month);
      if Less(rows[j].month, rows[k].month) {
        LessTransitive(rows[j].month, rows[k].month, rows[n].month);
      }
    }
    forall j | 0 <= j <= n
      ensures !Less(rows[n].month, rows[j].month)
    {
      if j < n {
        LessAsymmetric(rows[j].month, rows[n].month);
      } else {
        LessIrreflexive(rows[n].month);
      }
    }
  }

  /** The row the current-month loop stops at: the first whose month string
      equals `key`. */
  function FirstMonthMatch(rows: seq<Row>, key: string): (r: Option<nat>)
    ensures r.Some? ==> r.value < |rows| && rows[r.value].month == key
    ensures r.Some? ==> forall j :: 0 <= j < r.value ==> rows[j].month != key
    ensures r.None? ==> forall j :: 0 <= j < |rows| ==> rows[j].month != key
  {
    if rows == [] then None
    else if rows[0].month == key then Some(0)
    else
      match FirstMonthMatch(rows[1..], key)
      case Some(k) => Some(k + 1)
      case None => None
  }

  /** The coordinator's single pass over the rows: yearly sums, unpaid
      total and unsorted history. */
  method FoldRows(rows: seq<Row>, year: nat)
    returns (yearlyVol: real, yearlyAmt: real, unpaidTotal: real, history: seq<HistoryEntry>)
    ensures yearlyVol == YearlyVolume(rows, year)
    ensures yearlyAmt == YearlyAmount(rows, year)
    ensures unpaidTotal == UnpaidTotal(rows)
    ensures history == HistoryRows(rows)
  {
    yearlyVol, yearlyAmt, unpaidTotal := 0.0, 0.0, 0.0;
    history := [];
    var i := 0;
    while i < |rows|
      invariant 0 <= i <= |rows|
      invariant yearlyVol == YearlyVolume(rows[..i], year)
      invariant yearlyAmt == YearlyAmount(rows[..i], year)
      invariant unpaidTotal == UnpaidTotal(rows[..i])
      invariant history == HistoryRows(rows[..i])
    {
      var row := rows[i];
      if InYear(row, year) {
        yearlyVol := yearlyVol + row.quantity;
        yearlyAmt := yearlyAmt + row.amount;
      }
      if !PyTruthy(PaidFlag(row)) {
        unpaidTotal := unpaidTotal + (row.payableAmount - row.paidAmount);
      }
      if row.month != "" && row.quantity > 0.0 {
        history := history + [EntryOf(row)];
      }
      assert rows[..i + 1][..i] == rows[..i];
      i := i + 1;
    }
    assert rows[..|rows|] == rows;
  }

  /** The current-month loop: quantity and amount of the first row whose
      month is `key`, or the 0.0 defaults when there is none. */
  method CurrentMonthFigures(rows: seq<Row>, key: string) returns (volume: real, amount: real)
    ensures match FirstMonthMatch(rows, key)
      case Some(k) => volume == rows[k].quantity && amount == rows[k].amount
      case None => volume == 0.0 && amount == 0.0
  {
    volume, amount := 0.0, 0.0;
    var i := 0;
    while i < |rows|
      invariant 0 <= i <= |rows|
      invariant forall j :: 0 <= j < i ==> rows[j].month != key
    {
      if rows[i].month == key {
        volume, amount := rows[i].quantity, rows[i].amount;
        return;
      }
      i := i + 1;
    }
  }

  /** The whole aggregation, in the order the coordinator performs it. */
  method Aggregate(rows: seq<Row>, now: Now) returns (d: WaterData)
    ensures rows == [] ==> d == Defaults
    ensures rows != [] ==>
      var latest := rows[LatestIndex(rows)];
      d.currentReading == latest.meterIndex && d.unitPrice == latest.unitPrice &&
      d.meterId == latest.meterId && d.costCategory == latest.costCategoryName
    ensures d.yearlyVolume == YearlyVolume(rows, now.year)
    ensures d.yearlyAmount == YearlyAmount(rows, now.year)
    ensures d.unpaidAmount == UnpaidTotal(rows)
    ensures match FirstMonthMatch(rows, MonthStartDate(now.year, now.month))
      case Some(k) => d.monthlyVolume == rows[k].quantity && d.monthlyAmount == rows[k].amount
      case None => d.monthlyVolume == 0.0 && d.monthlyAmount == 0.0
    ensures SortedByDate(d.monthlyHistory)
    ensures multiset(d.monthlyHistory) == multiset(HistoryRows(rows))
    ensures forall date :: WithDate(d.monthlyHistory, date) == WithDate(HistoryRows(rows), date)
  {
    if rows == [] {
      d := Defaults;
      return;
    }
    var latest := rows[LatestIndex(rows)];
    var yearlyVol, yearlyAmt, unpaidTotal, history := FoldRows(rows, now.year);
    var monthlyVol, monthlyAmt := CurrentMonthFigures(rows, MonthStartDate(now.year, now.month));
    var sorted := SortByDate(history);
    forall date
      ensures WithDate(sorted, date) == WithDate(history, date)
    {
      SortByDateStable(history, date);
    }
    d := WaterData(latest.meterIndex, yearlyVol, yearlyAmt, monthlyVol, monthlyAmt, unpaidTotal,
                   latest.unitPrice, latest.meterId, latest.costCategoryName, sorted);
  }
}
