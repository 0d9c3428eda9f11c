/** The backend's `monthly_history.sort(key=lambda x: x["date"])`: a stable
    ascending sort by date string, modelled as insertion sort. */
module DateSort {
  import opened Strings
  import opened History

  /** Ascending by date: no later entry has a smaller date. */
  predicate SortedByDate(s: seq<HistoryEntry>) {
    forall i, j :: 0 <= i < j < |s| ==> !Less(s[j].date, s[i].date)
  }

  /** The entries of `s` dated `d`, in their order in `s`. */
  function WithDate(s: seq<HistoryEntry>, d: string): (r: seq<HistoryEntry>)
    ensures |r| <= |s|
    ensures forall k :: 0 <= k < |r| ==> r[k].date == d
  {
    if s == [] then []
    else WithDate(s[..|s| - 1], d) + (if s[|s| - 1].date == d then [s[|s| - 1]] else [])
  }

  lemma {:induction false} WithDateAppend(a: seq<HistoryEntry>, b: seq<HistoryEntry>, d: string)
    ensures WithDate(a + b, d) == WithDate(a, d) + WithDate(b, d)
    decreases |b|
  {
    if b == [] {
      assert a + b == a;
    } else {
      assert (a + b)[..|a + b| - 1] == a + b[..|b| - 1];
      WithDateAppend(a, b[..|b| - 1], d);
    }
  }

  lemma {:induction false} WithDateNone(s: seq<HistoryEntry>, d: string)
    requires forall k :: 0 <= k < |s| ==> s[k].date != d
    ensures WithDate(s, d) == []
    decreases |s|
  {
    if s != [] {
      WithDateNone(s[..|s| - 1], d);
    }
  }

  /** Places `x` after every entry of the sorted `s` whose date is not
      greater than its own. */
  function Insert(s: seq<HistoryEntry>, x: HistoryEntry): (r: seq<HistoryEntry>)
    requires SortedByDate(s)
    ensures SortedByDate(r)
    ensures multiset(r) == multiset(s) + multiset{x}
  {
    if s == [] then [x]
    else if Less(x.date, s[0].date) then
      InsertFrontSorted(s, x);
      [x] + s
    else
      var t := Insert(s[1..], x);
      assert s == [s[0]] + s[1..];
      InsertAfterSorted(s[0], t, s[1..], x);
      [s[0]] + t
  }

  lemma InsertFrontSorted(s: seq<HistoryEntry>, x: HistoryEntry)
    requires SortedByDate(s) && s != [] && Less(x.date, s[0].date)
    ensures SortedByDate([x] + s)
  {
    var r := [x] + s;
    forall i, j | 0 <= i < j < |r|
      ensures !Less(r[j].date, r[i].date)
    {
      if i == 0 {
        if j > 1 {
          LessTotal(s[0].date, s[j - 1].date);
          if Less(s[0].date, s[j - 1].date) {
            LessTransitive(x.date, s[0].date, s[j - 1].date);
          }
        }
        LessAsymmetric(x.date, r[j].date);
      }
    }
  }

  lemma InsertAfterSorted(h: HistoryEntry, t: seq<HistoryEntry>, s: seq<HistoryEntry>, x: HistoryEntry)
    requires SortedByDate([h] + s) && SortedByDate(t)
    requires multiset(t) == multiset(s) + multiset{x}
    requires !Less(x.date, h.date)
    ensures SortedByDate([h] + t)
  {
    var r := [h] + t;
    forall i, j | 0 <= i < j < |r|
      ensures !Less(r[j].date, r[i].date)
    {
      if i == 0 {
        var y := t[j - 1];
        assert r[j] == y && r[i] == h;
        assert y in multiset(t);
        if y != x {
          assert multiset(t)[y] == multiset(s)[y];
          assert y in multiset(s);
          var k :| 0 <= k < |s| && s[k] == y;
          var hs := [h] + s;
          assert hs[0] == h && hs[k + 1] == y;
          assert !Less(hs[k + 1].date, hs[0].date);
        }
        assert !Less(y.date, h.date);
      } else {
        assert r[i] == t[i - 1] && r[j] == t[j - 1];
      }
    }
  }

  /** Stable sort by date. */
  function SortByDate(s: seq<HistoryEntry>): (r: seq<HistoryEntry>)
    ensures SortedByDate(r)
    ensures multiset(r) == multiset(s)
  {
    if s == [] then []
    else
      assert s == s[..|s| - 1] + [s[|s| - 1]];
      Insert(SortByDate(s[..|s| - 1]), s[|s| - 1])
  }

  lemma {:induction false} InsertStable(s: seq<HistoryEntry>, x: HistoryEntry, d: string)
    requires SortedByDate(s)
    ensures WithDate(Insert(s, x), d) == WithDate(s, d) + (if x.date == d then [x] else [])
    decreases |s|
  {
    if s == [] {
      assert WithDate([x], d) == WithDate([], d) + (if x.date == d then [x] else []);
    } else if Less(x.date, s[0].date) {
      InsertFrontStable(s, x, d);
    } else {
      var t := Insert(s[1..], x);
      assert Insert(s, x) == [s[0]] + t;
      assert s == [s[0]] + s[1..];
      InsertStable(s[1..], x, d);
      WithDateAppend([s[0]], t, d);
      WithDateAppend([s[0]], s[1..], d);
    }
  }

  lemma InsertFrontStable(s: seq<HistoryEntry>, x: HistoryEntry, d: string)
    requires SortedByDate(s) && s != [] && Less(x.date, s[0].date)
    ensures WithDate([x] + s, d) == WithDate(s, d) + (if x.date == d then [x] else [])
  {
    WithDateAppend([x], s, d);
    assert WithDate([x], d) == WithDate([], d) + (if x.date == d then [x] else []);
    if x.date == d {
      forall k | 0 <= k < |s|
        ensures s[k].date != d
      {
        if k > 0 {
          LessTotal(s[0].date, s[k].date);
          if Less(s[0].date, s[k].date) {
            LessTransitive(x.date, s[0].date, s[k].date);
          }
        }
        LessIrreflexive(d);
      }
      WithDateNone(s, d);
    }
  }

  /** Entries sharing a date keep their original relative order. */
  lemma {:induction false} SortByDateStable(s: seq<HistoryEntry>, d: string)
    ensures WithDate(SortByDate(s), d) == WithDate(s, d)
    decreases |s|
  {
    if s != [] {
      SortByDateStable(s[..|s| - 1], d);
      InsertStable(SortByDate(s[..|s| - 1]), s[|s| - 1], d);
    }
  }
}
