/** The performance reports (components/Analytics.tsx): an equity curve
    over a date-sorted copy of the journal, the win/loss split of the pie
    chart, and the P&L of each setup tag. An empty journal produces no
    report at all. */
module Analytics {
  import opened Seqs
  import opened Trades
  import opened Groups
  import Dashboard

  predicate SortedByDate(s: seq<Trade>)
  {
    forall i, j :: 0 <= i < j < |s| ==> s[i].date <= s[j].date
  }

  /** Places `t` in front of the first element dated on or after it, so
      that `t` precedes every trade of its own day. */
  function InsertByDate(t: Trade, s: seq<Trade>): (r: seq<Trade>)
    ensures |r| == |s| + 1
    ensures multiset(r) == multiset(s) + multiset{t}
    decreases |s|
  {
    if |s| == 0 || t.date <= s[0].date then [t] + s
    else
      assert s == [s[0]] + s[1..];
      [s[0]] + InsertByDate(t, s[1..])
  }

  lemma {:induction false} InsertByDateSorted(t: Trade, s: seq<Trade>)
    requires SortedByDate(s)
    ensures SortedByDate(InsertByDate(t, s))
    decreases |s|
  {
    if |s| > 0 && s[0].date < t.date {
      InsertByDateSorted(t, s[1..]);
      InsertByDateBound(t, s[1..], s[0].date);
    }
  }

  /** Inserting into trades dated on or after `lo` a trade dated on or
      after `lo` leaves every trade dated on or after `lo`. */
  lemma {:induction false} InsertByDateBound(t: Trade, s: seq<Trade>, lo: int)
    requires lo <= t.date
    requires forall i :: 0 <= i < |s| ==> lo <= s[i].date
    ensures forall i :: 0 <= i < |InsertByDate(t, s)| ==> lo <= InsertByDate(t, s)[i].date
    decreases |s|
  {
    if |s| > 0 && s[0].date < t.date {
      InsertByDateBound(t, s[1..], lo);
    }
  }

  /** `[...trades].sort(byDate)`: a stable ascending sort of a copy. The
      first trade is inserted into the sorted rest in front of its
      same-day trades, which is what keeps the input order among them. */
  function SortByDate(ts: seq<Trade>): (r: seq<Trade>)
    ensures |r| == |ts|
    ensures multiset(r) == multiset(ts)
    ensures SortedByDate(r)
    decreases |ts|
  {
    if |ts| == 0 then []
    else
      assert ts == [ts[0]] + ts[1..];
      InsertByDateSorted(ts[0], SortByDate(ts[1..]));
      InsertByDate(ts[0], SortByDate(ts[1..]))
  }

  /** Inserting `t` adds it to the front of its own day's trades and leaves
      every other day's trades as they were. */
  lemma {:induction false} InsertByDateStable(t: Trade, s: seq<Trade>, d: int)
    ensures Filter(InsertByDate(t, s), OnDay(d))
         == (if t.date == d then [t] + Filter(s, OnDay(d)) else Filter(s, OnDay(d)))
    decreases |s|
  {
    if |s| == 0 || t.date <= s[0].date {
      assert ([t] + s)[1..] == s;
    } else {
      InsertByDateStable(t, s[1..], d);
      assert ([s[0]] + InsertByDate(t, s[1..]))[1..] == InsertByDate(t, s[1..]);
    }
  }

  /** Stability: for every day, the trades of that day appear in the sorted
      copy in exactly their input order. */
  lemma {:induction false} SortByDateStable(ts: seq<Trade>, d: int)
    ensures Filter(SortByDate(ts), OnDay(d)) == Filter(ts, OnDay(d))
    decreases |ts|
  {
    if |ts| > 0 {
      SortByDateStable(ts[1..], d);
      InsertByDateStable(ts[0], SortByDate(ts[1..]), d);
    }
  }

  lemma {:induction false} InsertByDateTotal(t: Trade, s: seq<Trade>)
    ensures SumPnl(InsertByDate(t, s)) == t.pnl + SumPnl(s)
    decreases |s|
  {
    if |s| > 0 && s[0].date < t.date {
      InsertByDateTotal(t, s[1..]);
      assert ([s[0]] + InsertByDate(t, s[1..]))[1..] == InsertByDate(t, s[1..]);
    } else {
      assert ([t] + s)[1..] == s;
    }
  }

  /** Sorting reorders the journal without changing its net P&L. */
  lemma {:induction false} SortByDateTotal(ts: seq<Trade>)
    ensures SumPnl(SortByDate(ts)) == SumPnl(ts)
    decreases |ts|
  {
    if |ts| > 0 {
      SortByDateTotal(ts[1..]);
      InsertByDateTotal(ts[0], SortByDate(ts[1..]));
    }
  }

  /** One point of the equity curve: the trade's day and the running total after it. */
  datatype EquityPoint = EquityPoint(date: int, equity: real)

  /** The running total over `sorted`, one point per trade. */
  method EquityCurve(sorted: seq<Trade>) returns (curve: seq<EquityPoint>)
    ensures |curve| == |sorted|
    ensures forall k :: 0 <= k < |curve| ==>
      curve[k].date == sorted[k].date && curve[k].equity == SumPnl(sorted[..k + 1])
    ensures |curve| > 0 ==> curve[0].equity == sorted[0].pnl
    ensures forall k :: 0 < k < |curve| ==> curve[k].equity - curve[k - 1].equity == sorted[k].pnl
    ensures |curve| > 0 ==> curve[|curve| - 1].equity == SumPnl(sorted)
  {
    var running := 0.0;
    curve := [];
    var i := 0;
    while i < |sorted|
      invariant 0 <= i <= |sorted|
      invariant |curve| == i
      invariant running == SumPnl(sorted[..i])
      invariant forall k :: 0 <= k < i ==>
        curve[k].date == sorted[k].date && curve[k].equity == SumPnl(sorted[..k + 1])
    {
      SumPnlSnoc(sorted[..i], sorted[i]);
      assert sorted[..i] + [sorted[i]] == sorted[..i + 1];
      running := running + sorted[i].pnl;
      curve := curve + [EquityPoint(sorted[i].date, running)];
      i := i + 1;
    }
    forall k | 0 < k < |curve|
      ensures curve[k].equity - curve[k - 1].equity == sorted[k].pnl
    {
      SumPnlSnoc(sorted[..k], sorted[k]);
      assert sorted[..k] + [sorted[k]] == sorted[..k + 1];
    }
    if |curve| > 0 {
      assert sorted[..|sorted|] == sorted;
      assert SumPnl(sorted[..1]) == sorted[0].pnl + SumPnl([]);
    }
  }

  /** The pie chart's loss slice: every trade that did not gain, breakeven included. */
  predicate IsReportLoss(t: Trade) { t.pnl <= 0.0 }

  /** The "Wins" slice: trades with a positive P&L. */
  function ReportWins(ts: seq<Trade>): (r: nat)
    ensures r <= |ts|
    ensures r == 0 <==> forall i :: 0 <= i < |ts| ==> ts[i].pnl <= 0.0
  {
    FilterDropsAll(ts, Dashboard.IsWin);
    |Filter(ts, Dashboard.IsWin)|
  }

  /** The "Losses" slice: trades with a P&L of zero or less. */
  function ReportLosses(ts: seq<Trade>): (r: nat)
    ensures r <= |ts|
    ensures r == 0 <==> forall i :: 0 <= i < |ts| ==> ts[i].pnl > 0.0
  {
    FilterDropsAll(ts, IsReportLoss);
    |Filter(ts, IsReportLoss)|
  }

  /** The two slices cover the journal; unlike the dashboard, breakeven
      trades count as losses here. */
  lemma WinLossCover(ts: seq<Trade>)
    ensures ReportWins(ts) + ReportLosses(ts) == |ts|
    ensures ReportWins(ts) == |Dashboard.Winners(ts)|
    ensures ReportLosses(ts) == |Dashboard.Losers(ts)| + |Filter(ts, IsBreakeven)|
  {
    var any := (t: Trade) => true;
    FilterKeepsAll(ts, any);
    FilterPartitionSize(ts, any, Dashboard.IsWin, IsReportLoss);
    FilterPartitionSize(ts, IsReportLoss, Dashboard.IsLoss, IsBreakeven);
  }

  predicate IsBreakeven(t: Trade) { t.pnl == 0.0 }

  /** One bar of the setup chart: a setup tag and its summed P&L. */
  type SetupTotal = Total<string>

  /** The bucket a trade is reported under: its setup, or "Other" when blank. */
  function SetupKey(t: Trade): (k: string)
    ensures |k| > 0
    ensures |t.setup| > 0 ==> k == t.setup
  {
    if |t.setup| == 0 then "Other" else t.setup
  }

  /** A trade lands in the "Other" bar exactly when its setup is blank or is
      itself "Other": both share one entry. */
  lemma SetupKeyOther(t: Trade)
    ensures SetupKey(t) == "Other" <==> |t.setup| == 0 || t.setup == "Other"
  {
  }

  /** The `setups` record of the reports page, grouped by setup tag. */
  function SetupTotals(ts: seq<Trade>): (r: seq<SetupTotal>)
    ensures |r| <= |ts|
    ensures |r| == 0 <==> |ts| == 0
    ensures DistinctNames(r)
    ensures SumValues(r) == SumPnl(ts)
  {
    GroupTotalsSize(ts, SetupKey);
    GroupTotalsDistinct(ts, SetupKey);
    GroupTotalsSum(ts, SetupKey);
    GroupTotals(ts, SetupKey)
  }

  /** No bar has an empty name: blank setups are listed as "Other". */
  lemma SetupNamesNonEmpty(ts: seq<Trade>, i: nat)
    requires i < |SetupTotals(ts)|
    ensures |SetupTotals(ts)[i].name| > 0
  {
    var j := GroupTotalsSound(ts, SetupKey, i);
  }

  /** Everything the reports page derives from the journal. */
  datatype Report = Report(equity: seq<EquityPoint>, winCount: nat, lossCount: nat, setups: seq<SetupTotal>)

  /** The reports page: nothing for an empty journal; otherwise the equity
      curve of the date-sorted copy, whose last point is the net P&L, the
      win/loss split that covers every trade, and the setup totals. */
  method BuildReport(ts: seq<Trade>) returns (r: Option<Report>)
    ensures r.None? <==> |ts| == 0
    ensures r.Some? ==> |r.value.equity| == |ts|
    ensures r.Some? ==> forall k :: 0 <= k < |ts| ==>
      r.value.equity[k].equity == SumPnl(SortByDate(ts)[..k + 1])
    ensures r.Some? ==> forall k :: 0 <= k < |ts| ==> r.value.equity[k].date == SortByDate(ts)[k].date
    ensures r.Some? ==> forall j, k :: 0 <= j < k < |ts| ==> r.value.equity[j].date <= r.value.equity[k].date
    ensures r.Some? ==> r.value.equity[|ts| - 1].equity == SumPnl(ts)
    ensures r.Some? ==> r.value.winCount + r.value.lossCount == |ts|
    ensures r.Some? ==> r.value.winCount == |Dashboard.Winners(ts)|
    ensures r.Some? ==> r.value.lossCount == ReportLosses(ts)
    ensures r.Some? ==> r.value.setups == SetupTotals(ts)
    ensures r.Some? ==> SumValues(r.value.setups) == SumPnl(ts)
    ensures r.Some? ==> DistinctNames(r.value.setups)
    ensures r.Some? ==> forall i :: 0 <= i < |r.value.setups| ==>
      r.value.setups[i].value == SumPnl(Filter(ts, KeyIs(SetupKey, r.value.setups[i].name)))
  {
    if |ts| == 0 {
      return None;
    }
    var sorted := SortByDate(ts);
    var curve := EquityCurve(sorted);
    SortByDateTotal(ts);
    WinLossCover(ts);
    GroupTotalsSum(ts, SetupKey);
    GroupTotalsDistinct(ts, SetupKey);
    forall i | 0 <= i < |SetupTotals(ts)|
      ensures SetupTotals(ts)[i].value == SumPnl(Filter(ts, KeyIs(SetupKey, SetupTotals(ts)[i].name)))
    {
      GroupEntryIsSum(ts, SetupKey, i);
    }
    r := Some(Report(curve, ReportWins(ts), ReportLosses(ts), SetupTotals(ts)));
  }
}
