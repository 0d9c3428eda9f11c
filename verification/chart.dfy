/** The data part of the card's twelve-month bar chart: which history
    entries form the window, how tall each bar is, and which single bar
    carries the unpaid style. */
module Chart {
  import opened Base
  import opened Strings
  import opened History

  /** Bars in the window, at most. */
  const WindowSize := 12

  /** Stagger between the grow-in animations of successive bars, in ms. */
  const StaggerMs := 80

  function MinInt(a: int, b: int): int {
    if a <= b then a else b
  }

  /** `findIndex(d => d.date === key)`: the first entry dated `key`, or -1. */
  function FindDate(h: seq<HistoryEntry>, key: string): (i: int)
    ensures -1 <= i < |h|
    ensures i >= 0 ==> h[i].date == key && forall j :: 0 <= j < i ==> h[j].date != key
    ensures i == -1 ==> forall j :: 0 <= j < |h| ==> h[j].date != key
  {
    if h == [] then -1
    else if h[0].date == key then 0
    else
      var i := FindDate(h[1..], key);
      if i == -1 then -1 else i + 1
  }

  /** The index the window ends at: the entry of the current month, else
      the last entry; -1 only for an empty history. */
  function WindowEnd(h: seq<HistoryEntry>, key: string): (e: int)
    ensures -1 <= e < |h|
    ensures e == -1 <==> |h| == 0
    ensures (exists k :: 0 <= k < |h| && h[k].date == key) ==>
      h[e].date == key && forall j :: 0 <= j < e ==> h[j].date != key
    ensures (forall k :: 0 <= k < |h| ==> h[k].date != key) ==> e == |h| - 1
  {
    var i := FindDate(h, key);
    if i == -1 then |h| - 1 else i
  }

  /** `history.slice(max(0, end - 11), end + 1)`. */
  function Window(h: seq<HistoryEntry>, key: string): (w: seq<HistoryEntry>)
    ensures |w| <= WindowSize
    ensures |w| == 0 <==> |h| == 0
    ensures |h| > 0 ==>
      var e := WindowEnd(h, key);
      |w| == MinInt(WindowSize, e + 1) && w[|w| - 1] == h[e] &&
      forall k :: 0 <= k < |w| ==> w[k] == h[e + 1 - |w| + k]
  {
    var e := WindowEnd(h, key);
    var start := if e - (WindowSize - 1) > 0 then e - (WindowSize - 1) else 0;
    h[start..e + 1]
  }

  /** One bar of the chart. */
  datatype Bar = Bar(
    entry: HistoryEntry,
    heightPercent: real,
    unitPrice: Option<real>,
    paid: bool,
    latest: bool,
    unpaid: bool,
    animated: bool,
    delayMs: nat)

  datatype ChartView = NoData | BarChart(maxVolume: real, bars: seq<Bar>)

  /** `Math.max(...volumes, 0.1)`. */
  function MaxVolume(w: seq<HistoryEntry>): (m: real)
    ensures m >= 0.1
    ensures forall k :: 0 <= k < |w| ==> w[k].volume <= m
    ensures m == 0.1 || exists k :: 0 <= k < |w| && w[k].volume == m
  {
    if w == [] then 0.1
    else
      var m := MaxVolume(w[..|w| - 1]);
      var v := w[|w| - 1].volume;
      assert forall k :: 0 <= k < |w| - 1 ==> w[..|w| - 1][k] == w[k];
      if v > m then v else m
  }

  /** Bar height as a percentage of the window's largest volume. */
  function HeightPercent(v: real, m: real): (p: real)
    requires m > 0.0
    ensures v <= m ==> p <= 100.0
    ensures p == 100.0 <==> v == m
    ensures v >= 0.0 ==> p >= 0.0
    ensures p * m == v * 100.0
  {
    RatioFacts(v, m);
    v / m * 100.0
  }

  lemma RatioFacts(v: real, m: real)
    requires m > 0.0
    ensures v <= m ==> v / m <= 1.0
    ensures v / m == 1.0 <==> v == m
    ensures v / m * 100.0 * m == v * 100.0
    ensures v >= 0.0 ==> v / m >= 0.0
  {
    var q := v / m;
    assert q * m == v;
    if q > 1.0 {
      assert q * m > 1.0 * m;
    }
  }

  lemma HeightMonotone(v1: real, v2: real, m: real)
    requires m > 0.0 && v1 <= v2
    ensures HeightPercent(v1, m) <= HeightPercent(v2, m)
  {
    var q1, q2 := v1 / m, v2 / m;
    assert q1 * m == v1 && q2 * m == v2;
    assert q1 <= q2;
    assert HeightPercent(v1, m) == q1 * 100.0 && HeightPercent(v2, m) == q2 * 100.0;
  }

  function MakeBar(item: HistoryEntry, index: nat, latest: bool, maxVolume: real, animate: bool): (b: Bar)
    requires maxVolume > 0.0
  {
    Bar(item, HeightPercent(item.volume, maxVolume), DerivedUnitPrice(item.volume, item.amount),
        CardPaid(item.isPaid), latest, latest && !CardPaid(item.isPaid),
        animate, if animate then StaggerMs * index else 0)
  }

  /** The bars of a non-empty window. */
  function Bars(w: seq<HistoryEntry>, animate: bool): (bars: seq<Bar>)
    requires |w| > 0
    ensures |bars| == |w|
    ensures forall k :: 0 <= k < |w| ==>
      && bars[k].entry == w[k]
      && bars[k].heightPercent <= 100.0
      && (bars[k].heightPercent == 100.0 <==> w[k].volume == MaxVolume(w))
      && (bars[k].latest <==> k == |w| - 1)
      && (bars[k].unpaid <==> k == |w| - 1 && !CardPaid(w[k].isPaid))
      && (bars[k].animated <==> animate)
      && bars[k].delayMs == (if animate then StaggerMs * k else 0)
    ensures forall k :: 0 <= k < |w| ==> bars[k].heightPercent == w[k].volume / MaxVolume(w) * 100.0
  {
    var m := MaxVolume(w);
    var bars := seq(|w|, k requires 0 <= k < |w| => MakeBar(w[k], k, k == |w| - 1, m, animate));
    assert forall k :: 0 <= k < |w| ==> bars[k].heightPercent == HeightPercent(w[k].volume, m);
    bars
  }

  /** A bar with more volume is never shorter. */
  lemma BarsMonotone(w: seq<HistoryEntry>, animate: bool, i: nat, j: nat)
    requires |w| > 0 && i < |w| && j < |w| && w[i].volume <= w[j].volume
    ensures Bars(w, animate)[i].heightPercent <= Bars(w, animate)[j].heightPercent
  {
    HeightMonotone(w[i].volume, w[j].volume, MaxVolume(w));
  }

  /** `renderMonthlyChart` without the markup, for the local clock's `year`
      and `month` (1-12). */
  function ChartOf(h: seq<HistoryEntry>, year: nat, month: nat, animate: bool): (c: ChartView)
    ensures c.NoData? <==> |h| == 0
    ensures c.BarChart? ==>
      var w := Window(h, MonthKey(year, month));
      |w| > 0 && c.maxVolume == MaxVolume(w) && c.bars == Bars(w, animate)
  {
    var w := Window(h, MonthKey(year, month));
    if |w| == 0 then NoData else BarChart(MaxVolume(w), Bars(w, animate))
  }

  /** At most one bar is styled unpaid, and it is the window's last. */
  lemma AtMostOneUnpaidBar(h: seq<HistoryEntry>, year: nat, month: nat, animate: bool, i: nat, j: nat)
    requires ChartOf(h, year, month, animate).BarChart?
    requires var bars := ChartOf(h, year, month, animate).bars;
      i < |bars| && j < |bars| && bars[i].unpaid && bars[j].unpaid
    ensures i == j == |ChartOf(h, year, month, animate).bars| - 1
  {
  }

  /** A date string of the form the backend writes, `YYYY-MM-01`. */
  ghost predicate IsMonthStartDate(s: string) {
    exists y: nat, m: nat :: s == MonthStartDate(y, m)
  }

  /** With backend-built history the current-month match never succeeds,
      so the window is always the last (up to) twelve entries. */
  lemma BackendHistoryEndsAtLast(h: seq<HistoryEntry>, year: nat, month: nat)
    requires forall k :: 0 <= k < |h| ==> IsMonthStartDate(h[k].date)
    ensures WindowEnd(h, MonthKey(year, month)) == |h| - 1
    ensures Window(h, MonthKey(year, month)) == h[|h| - MinInt(WindowSize, |h|)..]
  {
    forall k | 0 <= k < |h|
      ensures h[k].date != MonthKey(year, month)
    {
      var y: nat, m: nat :| h[k].date == MonthStartDate(y, m);
      MonthKeyNeverMonthStartDate(year, month, y, m);
    }
    var w := Window(h, MonthKey(year, month));
    if |h| > 0 {
      assert w == h[|h| - MinInt(WindowSize, |h|)..];
    }
  }
}
