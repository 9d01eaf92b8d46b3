/** The trade record of the journal (types.ts) and the one sum every report
    reconciles against: the total realised profit and loss of a list of trades. */
module Trades {
  import opened Seqs

  /** An optional field of a record (`riskAmount?: number`). */
  datatype Option<T> = None | Some(value: T) {
    /** The value, or `default` when absent. */
    function GetOr(default: T): T {
      match this
      case Some(v) => v
      case None => default
    }
  }

  /** The direction of a trade: `'LONG' | 'SHORT'`. */
  datatype TradeType = Long | Short

  /** One logged execution. Prices, quantities and P&L are exact reals
      (no IEEE-754 rounding); `date` is a calendar day number, so that
      comparing two dates compares the days they denote. The source field
      `type` is called `kind` here, `type` being a Dafny keyword. */
  datatype Trade = Trade(
    id: string,
    symbol: string,
    kind: TradeType,
    entryPrice: real,
    exitPrice: real,
    quantity: real,
    pnl: real,
    date: int,
    notes: string,
    setup: string,
    timeframe: string,
    riskAmount: Option<real>,
    targetPrice: Option<real>,
    rrRatio: Option<real>)

  /** Trades dated on day `d`. */
  function OnDay(d: int): Trade -> bool { (t: Trade) => t.date == d }

  /** Trades dated in the half-open day range [lo, hi). */
  function Between(lo: int, hi: int): Trade -> bool { (t: Trade) => lo <= t.date < hi }

  /** Sum of `pnl` over `ts`, the `reduce((acc, t) => acc + t.pnl, 0)` of the
      application. Real addition is associative and commutative, so summing
      from the front gives the left fold's value. */
  function SumPnl(ts: seq<Trade>): real
  {
    if |ts| == 0 then 0.0 else ts[0].pnl + SumPnl(ts[1..])
  }

  /** The total of a concatenation is the sum of the totals. */
  lemma {:induction false} SumPnlAppend(a: seq<Trade>, b: seq<Trade>)
    ensures SumPnl(a + b) == SumPnl(a) + SumPnl(b)
    decreases |a|
  {
    if |a| == 0 {
      assert a + b == b;
    } else {
      assert (a + b)[1..] == a[1..] + b;
      SumPnlAppend(a[1..], b);
    }
  }

  /** Adding one more trade at the end adds its `pnl`: the step of a running total. */
  lemma SumPnlSnoc(a: seq<Trade>, t: Trade)
    ensures SumPnl(a + [t]) == SumPnl(a) + t.pnl
  {
    SumPnlAppend(a, [t]);
    assert SumPnl([t]) == t.pnl + SumPnl([]);
  }

  /** The total is the total of all but the last trade plus the last one's `pnl`. */
  lemma SumPnlLast(ts: seq<Trade>)
    requires |ts| > 0
    ensures SumPnl(ts) == SumPnl(ts[..|ts| - 1]) + ts[|ts| - 1].pnl
  {
    var n := |ts| - 1;
    assert ts == ts[..n] + [ts[n]];
    SumPnlSnoc(ts[..n], ts[n]);
  }

  /** The total of a selection grows by the last trade's `pnl` exactly when
      that trade is selected. */
  lemma SumPnlFilterLast(ts: seq<Trade>, p: Trade -> bool)
    requires |ts| > 0
    ensures SumPnl(Filter(ts, p))
         == SumPnl(Filter(ts[..|ts| - 1], p)) + (if p(ts[|ts| - 1]) then ts[|ts| - 1].pnl else 0.0)
  {
    var n := |ts| - 1;
    FilterLast(ts, p);
    if p(ts[n]) {
      SumPnlSnoc(Filter(ts[..n], p), ts[n]);
    } else {
      assert Filter(ts, p) == Filter(ts[..n], p);
    }
  }

  /** Totals of disjoint selections add up to the total of their union. */
  lemma {:induction false} SumPnlPartition(s: seq<Trade>, r: Trade -> bool, p: Trade -> bool, q: Trade -> bool)
    requires forall i :: 0 <= i < |s| ==> r(s[i]) == (p(s[i]) || q(s[i]))
    requires forall i :: 0 <= i < |s| ==> !(p(s[i]) && q(s[i]))
    ensures SumPnl(Filter(s, r)) == SumPnl(Filter(s, p)) + SumPnl(Filter(s, q))
    decreases |s|
  {
    if |s| > 0 {
      SumPnlPartition(s[1..], r, p, q);
    }
  }

  /** A non-empty list of gains has a positive total, and a non-empty list
      of losses a negative one. */
  lemma {:induction false} SumPnlSign(ts: seq<Trade>)
    ensures (forall i :: 0 <= i < |ts| ==> ts[i].pnl > 0.0) && |ts| > 0 ==> SumPnl(ts) > 0.0
    ensures (forall i :: 0 <= i < |ts| ==> ts[i].pnl < 0.0) && |ts| > 0 ==> SumPnl(ts) < 0.0
    decreases |ts|
  {
    if |ts| > 1 {
      SumPnlSign(ts[1..]);
      assert forall i :: 0 < i < |ts| ==> ts[i] == ts[1..][i - 1];
    }
  }
}
