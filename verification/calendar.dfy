/** The data part of the card's billing calendar: history entries filed by
    month for the displayed year, the latest filed month, and the twelve
    month cells with at most one unpaid badge. */
module Calendar {
  import opened Base
  import opened Strings
  import opened History

  /** What a month cell shows. */
  datatype Usage = Usage(volume: real, amount: real, date: string, unitPrice: Option<real>, isPaid: bool)

  function UsageOf(d: HistoryEntry): Usage {
    Usage(d.volume, d.amount, d.date, DerivedUnitPrice(d.volume, d.amount), CardPaid(d.isPaid))
  }

  /** The year and zero-based month an entry's date is filed under:
      `parseInt` of the first two `-`-separated fields, the month minus one.
      `None` when either field is NaN; the card then files nothing any
      month lookup can see. */
  function Placement(date: string): Option<(int, int)> {
    var parts := Split(date, '-');
    match ParseInt(parts[0])
    case None => None
    case Some(y) =>
      if |parts| < 2 then None
      else
        match ParseInt(parts[1])
        case None => None
        case Some(m) => Some((y, m - 1))
  }

  /** The month (0-11 for a visible one) of `year` the card files entry
      `d` under, if any. */
  function Filing(d: HistoryEntry, year: int): (r: Option<int>)
    ensures r.Some? ==>
      var parts := Split(d.date, '-');
      && d.date != "" && |parts| >= 2
      && ParseInt(parts[0]).Some? && ParseInt(parts[0]).value == year
      && ParseInt(parts[1]).Some? && r.value == ParseInt(parts[1]).value - 1
    ensures var parts := Split(d.date, '-');
      (d.date != "" && |parts| >= 2 && ParseInt(parts[0]).Some? && ParseInt(parts[0]).value == year &&
       ParseInt(parts[1]).Some?) ==> r.Some?
  {
    var p := Placement(d.date);
    if d.date != "" && p.Some? && p.value.0 == year then Some(p.value.1) else None
  }

  predicate FiledUnder(d: HistoryEntry, year: int, m: int) {
    Filing(d, year) == Some(m)
  }

  /** The `usageMap` of `renderCalendar`: later entries overwrite earlier
      ones filed under the same month. */
  function Buckets(h: seq<HistoryEntry>, year: int): (b: map<int, Usage>)
    ensures h != [] && Filing(h[|h| - 1], year).Some? ==>
      var m := Filing(h[|h| - 1], year).value;
      m in b && b[m] == UsageOf(h[|h| - 1])
  {
    if h == [] then map[]
    else
      var d := h[|h| - 1];
      var b := Buckets(h[..|h| - 1], year);
      match Filing(d, year)
      case Some(m) => b[m := UsageOf(d)]
      case None => b
  }

  /** A month has a bucket exactly when some entry is filed under it. */
  lemma BucketKeys(h: seq<HistoryEntry>, year: int, m: int)
    ensures m in Buckets(h, year) <==> exists k :: 0 <= k < |h| && FiledUnder(h[k], year, m)
  {
    if m in Buckets(h, year) {
      BucketHasEntry(h, year, m);
    }
    if exists k :: 0 <= k < |h| && FiledUnder(h[k], year, m) {
      var k :| 0 <= k < |h| && FiledUnder(h[k], year, m);
      EntryHasBucket(h, year, m, k);
    }
  }

  /** Every bucket comes from some entry filed under its month. */
  lemma {:induction false} BucketHasEntry(h: seq<HistoryEntry>, year: int, m: int)
    requires m in Buckets(h, year)
    ensures exists k :: 0 <= k < |h| && FiledUnder(h[k], year, m)
    decreases |h|
  {
    var init := h[..|h| - 1];
    var last := |h| - 1;
    if Filing(h[last], year) == Some(m) {
      assert FiledUnder(h[last], year, m);
    } else {
      assert m in Buckets(init, year);
      BucketHasEntry(init, year, m);
      var k :| 0 <= k < |init| && FiledUnder(init[k], year, m);
      assert h[k] == init[k];
    }
  }

  /** An entry filed under a month gives that month a bucket. */
  lemma {:induction false} EntryHasBucket(h: seq<HistoryEntry>, year: int, m: int, k: nat)
    requires k < |h| && FiledUnder(h[k], year, m)
    ensures m in Buckets(h, year)
    decreases |h|
  {
    var init := h[..|h| - 1];
    if k < |h| - 1 {
      assert init[k] == h[k];
      EntryHasBucket(init, year, m, k);
    }
  }

  /** A month's bucket holds the last entry filed under it. */
  lemma {:induction false} BucketIsLastEntry(h: seq<HistoryEntry>, year: int, m: int, k: nat)
    requires k < |h| && FiledUnder(h[k], year, m)
    requires forall j :: k < j < |h| ==> !FiledUnder(h[j], year, m)
    ensures m in Buckets(h, year) && Buckets(h, year)[m] == UsageOf(h[k])
    decreases |h|
  {
    var init := h[..|h| - 1];
    if k < |h| - 1 {
      assert init[k] == h[k];
      assert forall j :: k < j < |init| ==> init[j] == h[j];
      BucketIsLastEntry(init, year, m, k);
      assert !FiledUnder(h[|h| - 1], year, m);
    }
  }

  /** The latest filed month at or below `m`, or -1. */
  function LatestFrom(b: map<int, Usage>, m: int): (r: int)
    requires -1 <= m <= 11
    ensures -1 <= r <= m
    ensures r >= 0 ==> r in b
    ensures forall j :: r < j <= m && j >= 0 ==> j !in b
    decreases m + 1
  {
    if m < 0 then -1 else if m in b then m else LatestFrom(b, m - 1)
  }

  /** `latestMonthWithData`: the greatest month 0-11 with a bucket, whatever
      its volume, or -1 when none has one. */
  function LatestMonth(b: map<int, Usage>): (r: int)
    ensures -1 <= r <= 11
    ensures r >= 0 ==> r in b && forall j :: r < j <= 11 ==> j !in b
    ensures r == -1 ==> forall j :: 0 <= j <= 11 ==> j !in b
  {
    LatestFrom(b, 11)
  }

  /** One month cell. */
  datatype Cell = Cell(month: nat, isCurrent: bool, usage: Option<Usage>, latest: bool, unpaid: bool)

  datatype CalendarView = CalendarView(year: int, cells: seq<Cell>)

  function MakeCell(b: map<int, Usage>, latest: int, year: int, todayYear: int, todayMonth: nat, m: nat): Cell {
    var hasData := m in b && b[m].volume > 0.0;
    var isLatest := m == latest;
    Cell(m, todayYear == year && todayMonth == m,
         if hasData then Some(b[m]) else None,
         isLatest, isLatest && hasData && !b[m].isPaid)
  }

  /** `renderCalendar` without the markup: the cells of `year`, with
      `todayYear`/`todayMonth` (0-11) the local clock. */
  function CalendarOf(h: seq<HistoryEntry>, year: int, todayYear: int, todayMonth: nat): (v: CalendarView)
    ensures v.year == year && |v.cells| == 12
    ensures var b := Buckets(h, year);
      forall m :: 0 <= m < 12 ==>
        && v.cells[m].month == m
        && (v.cells[m].isCurrent <==> todayYear == year && todayMonth == m)
        && (v.cells[m].usage.Some? <==> m in b && b[m].volume > 0.0)
        && (v.cells[m].usage.Some? ==> v.cells[m].usage.value == b[m])
        && (v.cells[m].latest <==> m == LatestMonth(b))
        && (v.cells[m].unpaid <==> m == LatestMonth(b) && b[m].volume > 0.0 && !b[m].isPaid)
  {
    var b := Buckets(h, year);
    var latest := LatestMonth(b);
    CalendarView(year, seq(12, m requires 0 <= m < 12 => MakeCell(b, latest, year, todayYear, todayMonth, m)))
  }

  /** Exactly the latest filed month may carry the unpaid badge, and it does
      precisely when its volume is positive and it is not paid. */
  lemma UnpaidBadgeAtMostOnce(h: seq<HistoryEntry>, year: int, todayYear: int, todayMonth: nat)
    ensures var v := CalendarOf(h, year, todayYear, todayMonth);
      var b := Buckets(h, year);
      var latest := LatestMonth(b);
      && (forall i, j :: 0 <= i < 12 && 0 <= j < 12 && v.cells[i].unpaid && v.cells[j].unpaid ==> i == j)
      && ((exists m :: 0 <= m < 12 && v.cells[m].unpaid) <==>
            latest >= 0 && b[latest].volume > 0.0 && !b[latest].isPaid)
  {
    var v := CalendarOf(h, year, todayYear, todayMonth);
    var b := Buckets(h, year);
    var latest := LatestMonth(b);
    if latest >= 0 && b[latest].volume > 0.0 && !b[latest].isPaid {
      assert v.cells[latest].unpaid;
    }
  }

  /** Only entries of the displayed year reach the calendar. */
  lemma OtherYearsIgnored(h: seq<HistoryEntry>, year: int, d: HistoryEntry)
    requires d.date == "" || Placement(d.date).None? || Placement(d.date).value.0 != year
    ensures Buckets(h + [d], year) == Buckets(h, year)
  {
    assert Filing(d, year).None?;
    assert (h + [d])[..|h|] == h;
  }

  /** A backend entry dated `YYYY-MM-01` is filed under month MM-1 of YYYY. */
  lemma BackendDateFiling(d: HistoryEntry, year: nat, month: nat)
    requires d.date == MonthStartDate(year, month)
    ensures FiledUnder(d, year, month - 1)
  {
    ParseMonthStartDate(year, month);
  }

  /** An entry dated `YYYY-MM` is filed under month MM-1 of YYYY. */
  lemma MonthKeyFiling(d: HistoryEntry, year: nat, month: nat)
    requires d.date == MonthKey(year, month)
    ensures Filing(d, year) == Some(month - 1)
  {
    ParseMonthKey(year, month);
  }

  /** The buckets of two entries filed under January and February. */
  lemma TwoMonthBuckets(jan: HistoryEntry, feb: HistoryEntry)
    requires Filing(jan, 2024) == Some(0) && Filing(feb, 2024) == Some(1)
    ensures Buckets([jan, feb], 2024) == map[0 := UsageOf(jan), 1 := UsageOf(feb)]
    ensures LatestMonth(Buckets([jan, feb], 2024)) == 1
  {
    assert [jan][..0] == [];
    assert Buckets([jan], 2024) == map[0 := UsageOf(jan)];
    assert [jan, feb][..1] == [jan];
    var b := Buckets([jan, feb], 2024);
    assert b == map[0 := UsageOf(jan), 1 := UsageOf(feb)];
    assert 1 in b;
  }

  /** January 2024 (10 m³, 50, paid) and February 2024
      (12 m³, 60, unpaid) shown for 2024. February is the latest month and
      carries the unpaid badge; January does not. */
  lemma FebruaryUnpaidExample(todayYear: int, todayMonth: nat)
    ensures var jan := HistoryEntry(MonthKey(2024, 1), 10.0, 50.0, 0.0, 0.0, 0.0, JBool(true));
      var feb := HistoryEntry(MonthKey(2024, 2), 12.0, 60.0, 0.0, 0.0, 0.0, JBool(false));
      var v := CalendarOf([jan, feb], 2024, todayYear, todayMonth);
      v.cells[1].unpaid && !v.cells[0].unpaid
  {
    var jan := HistoryEntry(MonthKey(2024, 1), 10.0, 50.0, 0.0, 0.0, 0.0, JBool(true));
    var feb := HistoryEntry(MonthKey(2024, 2), 12.0, 60.0, 0.0, 0.0, 0.0, JBool(false));
    MonthKeyFiling(jan, 2024, 1);
    MonthKeyFiling(feb, 2024, 2);
    TwoMonthBuckets(jan, feb);
  }

  /** The latest month is the latest with a bucket, not the latest with a
      positive volume: a zero-volume February hides January's unpaid bill. */
  lemma ZeroVolumeLatestHidesBadge(todayYear: int, todayMonth: nat)
    ensures var jan := HistoryEntry(MonthKey(2024, 1), 10.0, 50.0, 0.0, 0.0, 0.0, JBool(false));
      var feb := HistoryEntry(MonthKey(2024, 2), 0.0, 0.0, 0.0, 0.0, 0.0, JBool(false));
      var v := CalendarOf([jan, feb], 2024, todayYear, todayMonth);
      forall m :: 0 <= m < 12 ==> !v.cells[m].unpaid
  {
    var jan := HistoryEntry(MonthKey(2024, 1), 10.0, 50.0, 0.0, 0.0, 0.0, JBool(false));
    var feb := HistoryEntry(MonthKey(2024, 2), 0.0, 0.0, 0.0, 0.0, 0.0, JBool(false));
    MonthKeyFiling(jan, 2024, 1);
    MonthKeyFiling(feb, 2024, 2);
    TwoMonthBuckets(jan, feb);
  }
}
