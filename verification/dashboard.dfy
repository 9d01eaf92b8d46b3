/** The summary statistics and the 30-day activity grid of the dashboard
    (components/Dashboard.tsx). Every metric is a pure function of the
    trade list; "today" is a day number supplied by the caller. */
module Dashboard {
  import opened Seqs
  import opened Trades

  /** A winner has a strictly positive result; a loser a strictly negative
      one. A breakeven trade is neither. */
  predicate IsWin(t: Trade) { t.pnl > 0.0 }

  predicate IsLoss(t: Trade) { t.pnl < 0.0 }

  function Winners(ts: seq<Trade>): seq<Trade> { Filter(ts, IsWin) }

  function Losers(ts: seq<Trade>): seq<Trade> { Filter(ts, IsLoss) }

  function Abs(x: real): real { if x < 0.0 then -x else x }

  /** A mean over `n > 0` items times `n` is the sum, and keeps the sum's sign. */
  lemma MeanScales(sum: real, n: real)
    requires n > 0.0
    ensures (sum / n) * n == sum
    ensures sum > 0.0 ==> sum / n > 0.0
    ensures sum < 0.0 ==> sum / n < 0.0
  {
  }

  /** A ratio that may be unbounded: the profit factor with winners but no
      losers is `Infinity` in the application. */
  datatype Ratio = Finite(value: real) | Infinite

  /** Net P&L splits into the gains of the winners and the (negative)
      results of the losers; breakeven trades add nothing. */
  lemma {:induction false} NetPnlSplits(ts: seq<Trade>)
    ensures SumPnl(ts) == SumPnl(Winners(ts)) + SumPnl(Losers(ts))
    decreases |ts|
  {
    if |ts| > 0 {
      NetPnlSplits(ts[1..]);
    }
  }

  /** No trade is both a winner and a loser, and breakeven trades are
      neither, so there are never more winners and losers than trades. */
  lemma WinnersLosersDisjoint(ts: seq<Trade>)
    ensures forall t :: t in Winners(ts) ==> t !in Losers(ts)
    ensures forall t :: t in ts && t.pnl == 0.0 ==> t !in Winners(ts) && t !in Losers(ts)
    ensures |Winners(ts)| + |Losers(ts)| <= |ts|
  {
    var nonZero := (t: Trade) => t.pnl != 0.0;
    FilterPartitionSize(ts, nonZero, IsWin, IsLoss);
  }

  /** The win-rate card: percentage of winners, 0 for an empty journal. */
  function WinRate(ts: seq<Trade>): (r: real)
    ensures 0.0 <= r <= 100.0
    ensures r == 0.0 <==> |Winners(ts)| == 0
    ensures r == 100.0 <==> |ts| > 0 && |Winners(ts)| == |ts|
    ensures |ts| > 0 ==> r * (|ts| as real) == 100.0 * (|Winners(ts)| as real)
  {
    if |ts| > 0 then ((|Winners(ts)| as real) / (|ts| as real)) * 100.0 else 0.0
  }

  /** Mean result of the winners, 0 when there are none. */
  function AvgWin(ts: seq<Trade>): (r: real)
    ensures r >= 0.0
    ensures r == 0.0 <==> |Winners(ts)| == 0
    ensures r * (|Winners(ts)| as real) == SumPnl(Winners(ts))
  {
    var w := Winners(ts);
    SumPnlSign(w);
    if |w| > 0 then
      MeanScales(SumPnl(w), |w| as real);
      SumPnl(w) / (|w| as real)
    else 0.0
  }

  /** Mean size of the losses, as a non-negative amount; 0 when there are none. */
  function AvgLoss(ts: seq<Trade>): (r: real)
    ensures r >= 0.0
    ensures r == 0.0 <==> |Losers(ts)| == 0
    ensures r * (|Losers(ts)| as real) == -SumPnl(Losers(ts))
  {
    var l := Losers(ts);
    SumPnlSign(l);
    if |l| > 0 then
      MeanScales(SumPnl(l), |l| as real);
      Abs(SumPnl(l) / (|l| as real))
    else 0.0
  }

  /** Gross profit over gross loss. Unbounded when there are winners but no
      losers, 0 when there are no winners. */
  function ProfitFactor(ts: seq<Trade>): (r: Ratio)
    ensures r.Infinite? <==> |Losers(ts)| == 0 && |Winners(ts)| > 0
    ensures |Winners(ts)| == 0 ==> r == Finite(0.0)
    ensures |Losers(ts)| > 0 ==> r.Finite? && r.value * -SumPnl(Losers(ts)) == SumPnl(Winners(ts))
    ensures r.Finite? ==> r.value >= 0.0
  {
    var avgWin := AvgWin(ts);
    var avgLoss := AvgLoss(ts);
    var wins := |Winners(ts)| as real;
    var losses := |Losers(ts)| as real;
    if avgLoss > 0.0 then
      var gross := avgWin * wins;
      var lost := avgLoss * losses;
      assert gross == SumPnl(Winners(ts)) && gross >= 0.0;
      assert lost == -SumPnl(Losers(ts)) && lost > 0.0;
      MeanScales(gross, lost);
      Finite(gross / lost)
    else if |Winners(ts)| > 0 then Infinite
    else Finite(0.0)
  }

  /** Average result per trade, 0 for an empty journal. */
  function Expectancy(ts: seq<Trade>): (r: real)
    ensures |ts| == 0 ==> r == 0.0
    ensures r * (|ts| as real) == SumPnl(ts)
  {
    if |ts| > 0 then SumPnl(ts) / (|ts| as real) else 0.0
  }

  /** Expectancy is the win frequency times the average win minus the loss
      frequency times the average loss. */
  lemma ExpectancyDecomposes(ts: seq<Trade>)
    ensures Expectancy(ts) * (|ts| as real)
         == AvgWin(ts) * (|Winners(ts)| as real) - AvgLoss(ts) * (|Losers(ts)| as real)
  {
    NetPnlSplits(ts);
  }

  /** The reward/risk line: average win over average loss, shown as 0 (never
      as infinity) when there are no losses. */
  function RewardRisk(ts: seq<Trade>): (r: real)
    ensures r >= 0.0
    ensures |Losers(ts)| == 0 ==> r == 0.0
    ensures |Losers(ts)| > 0 ==> r * AvgLoss(ts) == AvgWin(ts)
  {
    if AvgLoss(ts) > 0.0 then AvgWin(ts) / AvgLoss(ts) else 0.0
  }

  /** With losers present, the profit factor is the reward/risk ratio
      scaled by the number of winners per loser. */
  lemma ProfitFactorFromRewardRisk(ts: seq<Trade>)
    requires |Losers(ts)| > 0
    ensures ProfitFactor(ts).Finite?
    ensures ProfitFactor(ts).value * (|Losers(ts)| as real) == RewardRisk(ts) * (|Winners(ts)| as real)
  {
    var pf := ProfitFactor(ts).value;
    CancelCommonFactor(pf, RewardRisk(ts), AvgWin(ts), AvgLoss(ts),
      |Winners(ts)| as real, |Losers(ts)| as real, SumPnl(Winners(ts)), -SumPnl(Losers(ts)));
  }

  /** From `pf * gl == gw`, `rr * al == aw`, `aw * w == gw` and `al * l == gl`
      with `al > 0`: `pf * l == rr * w`. */
  lemma CancelCommonFactor(pf: real, rr: real, aw: real, al: real, w: real, l: real, gw: real, gl: real)
    requires al > 0.0
    requires pf * gl == gw && rr * al == aw && aw * w == gw && al * l == gl
    ensures pf * l == rr * w
  {
    assert (pf * l) * al == pf * gl;
    assert (rr * w) * al == aw * w;
  }

  function OfKind(k: TradeType): Trade -> bool { (t: Trade) => t.kind == k }

  /** Number of trades in direction `k` (the "Longs/Shorts Executed" lines). */
  function CountKind(ts: seq<Trade>, k: TradeType): (r: nat)
    ensures r <= |ts|
    ensures r == 0 <==> forall i :: 0 <= i < |ts| ==> ts[i].kind != k
  {
    FilterDropsAll(ts, OfKind(k));
    |Filter(ts, OfKind(k))|
  }

  /** The directions of the trades, in journal order. */
  function Kinds(ts: seq<Trade>): seq<TradeType>
  {
    seq(|ts|, i requires 0 <= i < |ts| => ts[i].kind)
  }

  /** A direction's count is the number of times it occurs among the trades' directions. */
  lemma {:induction false} CountKindIsMultiplicity(ts: seq<Trade>, k: TradeType)
    ensures CountKind(ts, k) == multiset(Kinds(ts))[k]
    decreases |ts|
  {
    if |ts| > 0 {
      CountKindIsMultiplicity(ts[1..], k);
      assert Kinds(ts) == [ts[0].kind] + Kinds(ts[1..]);
    }
  }

  /** Every trade is either long or short, so the two counts cover the journal. */
  lemma LongShortCover(ts: seq<Trade>)
    ensures CountKind(ts, Long) + CountKind(ts, Short) == |ts|
  {
    var any := (t: Trade) => true;
    FilterKeepsAll(ts, any);
    FilterPartitionSize(ts, any, OfKind(Long), OfKind(Short));
  }

  /** One cell of the activity grid: the day, its summed P&L and its number of trades. */
  datatype DayBucket = DayBucket(day: int, pnl: real, count: nat)

  /** Days shown in the activity grid, ending with today. */
  const GridDays: nat := 30

  function Bucket(ts: seq<Trade>, d: int): DayBucket
  {
    var dayTrades := Filter(ts, OnDay(d));
    DayBucket(d, SumPnl(dayTrades), |dayTrades|)
  }

  /** Buckets for the `n` consecutive days starting at `first`. */
  function Buckets(ts: seq<Trade>, first: int, n: nat): (r: seq<DayBucket>)
    ensures |r| == n
    ensures forall i :: 0 <= i < n ==> r[i] == Bucket(ts, first + i)
  {
    seq(n, i requires 0 <= i < n => Bucket(ts, first + i))
  }

  /** The activity grid: 30 consecutive days in ascending order ending at
      `today`, each holding the sum and the number of the trades dated that day. */
  function ActivityGrid(ts: seq<Trade>, today: int): (r: seq<DayBucket>)
    ensures |r| == GridDays
    ensures r[GridDays - 1].day == today
    ensures forall i :: 0 < i < |r| ==> r[i].day == r[i - 1].day + 1
    ensures forall i :: 0 <= i < |r| ==>
      r[i].count == |Filter(ts, OnDay(r[i].day))| && r[i].pnl == SumPnl(Filter(ts, OnDay(r[i].day)))
  {
    Buckets(ts, today - (GridDays - 1), GridDays)
  }

  function TotalCount(b: seq<DayBucket>): nat
  {
    if |b| == 0 then 0 else TotalCount(b[..|b| - 1]) + b[|b| - 1].count
  }

  function TotalBucketPnl(b: seq<DayBucket>): real
  {
    if |b| == 0 then 0.0 else TotalBucketPnl(b[..|b| - 1]) + b[|b| - 1].pnl
  }

  /** Buckets of consecutive days from `first` hold exactly the trades dated in those days. */
  lemma BucketsReconcile(ts: seq<Trade>, first: int, b: seq<DayBucket>)
    requires forall i :: 0 <= i < |b| ==> b[i] == Bucket(ts, first + i)
    ensures TotalCount(b) == |Filter(ts, Between(first, first + |b|))|
    ensures TotalBucketPnl(b) == SumPnl(Filter(ts, Between(first, first + |b|)))
  {
    BucketsCount(ts, first, b);
    BucketsPnl(ts, first, b);
  }

  lemma {:induction false} BucketsCount(ts: seq<Trade>, first: int, b: seq<DayBucket>)
    requires forall i :: 0 <= i < |b| ==> b[i] == Bucket(ts, first + i)
    ensures TotalCount(b) == |Filter(ts, Between(first, first + |b|))|
    decreases |b|
  {
    if |b| == 0 {
      FilterDropsAll(ts, Between(first, first));
    } else {
      var m := |b| - 1;
      BucketsCount(ts, first, b[..m]);
      DayRangeSplits(ts, first, first + m);
    }
  }

  lemma {:induction false} BucketsPnl(ts: seq<Trade>, first: int, b: seq<DayBucket>)
    requires forall i :: 0 <= i < |b| ==> b[i] == Bucket(ts, first + i)
    ensures TotalBucketPnl(b) == SumPnl(Filter(ts, Between(first, first + |b|)))
    decreases |b|
  {
    if |b| == 0 {
      FilterDropsAll(ts, Between(first, first));
    } else {
      var m := |b| - 1;
      BucketsPnl(ts, first, b[..m]);
      DayRangeSplits(ts, first, first + m);
    }
  }

  /** The trades dated from `lo` up to day `hi` are those before `hi` plus those of day `hi`. */
  lemma DayRangeSplits(ts: seq<Trade>, lo: int, hi: int)
    requires lo <= hi
    ensures |Filter(ts, Between(lo, hi + 1))| == |Filter(ts, Between(lo, hi))| + |Filter(ts, OnDay(hi))|
    ensures SumPnl(Filter(ts, Between(lo, hi + 1))) == SumPnl(Filter(ts, Between(lo, hi))) + SumPnl(Filter(ts, OnDay(hi)))
  {
    FilterPartitionSize(ts, Between(lo, hi + 1), Between(lo, hi), OnDay(hi));
    SumPnlPartition(ts, Between(lo, hi + 1), Between(lo, hi), OnDay(hi));
  }

  /** The grid's counts add up to the number of trades of the last 30 days
      (so never more than the journal holds), and its P&L to their net P&L. */
  lemma ActivityGridReconciles(ts: seq<Trade>, today: int)
    ensures TotalCount(ActivityGrid(ts, today)) == |Filter(ts, Between(today - (GridDays - 1), today + 1))|
    ensures TotalCount(ActivityGrid(ts, today)) <= |ts|
    ensures TotalBucketPnl(ActivityGrid(ts, today)) == SumPnl(Filter(ts, Between(today - (GridDays - 1), today + 1)))
  {
    BucketsReconcile(ts, today - (GridDays - 1), ActivityGrid(ts, today));
  }
}
