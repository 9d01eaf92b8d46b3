/** The journal view (components/TradeList.tsx): the case-insensitive search
    over symbol and setup, and the colour and sign of a trade's P&L. */
module TradeList {
  import opened Seqs
  import opened Trades
  import opened Text
  import Dashboard
  import Analytics

  /** A trade matches when its symbol or its setup contains the query, ignoring case. */
  predicate Matches(t: Trade, query: string)
  {
    Contains(Lower(t.symbol), Lower(query)) || Contains(Lower(t.setup), Lower(query))
  }

  function MatchesQuery(query: string): Trade -> bool { (t: Trade) => Matches(t, query) }

  /** `filteredTrades`: every copy of each matching trade and nothing else,
      in journal order. */
  function Search(ts: seq<Trade>, query: string): (r: seq<Trade>)
    ensures forall t :: t in r <==> t in ts && Matches(t, query)
    ensures forall t :: multiset(r)[t] == if Matches(t, query) then multiset(ts)[t] else 0
    ensures IsSubsequence(r, ts)
  {
    FilterMembership(ts, MatchesQuery(query));
    FilterCount(ts, MatchesQuery(query));
    FilterIsSubsequence(ts, MatchesQuery(query));
    Filter(ts, MatchesQuery(query))
  }

  /** An empty query shows the whole journal. */
  lemma EmptyQueryKeepsAll(ts: seq<Trade>)
    ensures Search(ts, "") == ts
  {
    forall i | 0 <= i < |ts|
      ensures MatchesQuery("")(ts[i])
    {
      ContainsEmpty(Lower(ts[i].symbol));
    }
    FilterKeepsAll(ts, MatchesQuery(""));
  }

  /** Changing the case of the query changes nothing. */
  lemma SearchIgnoresQueryCase(ts: seq<Trade>, query: string)
    ensures Search(ts, Upper(query)) == Search(ts, query)
    ensures Search(ts, Lower(query)) == Search(ts, query)
  {
    LowerForgetsCase(query);
    FilterCongruent(ts, MatchesQuery(Upper(query)), MatchesQuery(query));
    FilterCongruent(ts, MatchesQuery(Lower(query)), MatchesQuery(query));
  }

  /** Searching the result again with the same query changes nothing. */
  lemma SearchIdempotent(ts: seq<Trade>, query: string)
    ensures Search(Search(ts, query), query) == Search(ts, query)
  {
    FilterIdempotent(ts, MatchesQuery(query));
  }

  /** How a P&L figure is shown: in the gain colour or not, and with a
      leading "+" or nothing (a negative figure brings its own "-"). */
  datatype PnlStyle = PnlStyle(gain: bool, prefix: string)

  function Style(t: Trade): (s: PnlStyle)
    ensures s.gain <==> t.pnl >= 0.0
    ensures s.prefix == "+" <==> s.gain
    ensures !s.gain ==> s.prefix == ""
  {
    if t.pnl >= 0.0 then PnlStyle(true, "+") else PnlStyle(false, "")
  }

  /** The journal's colouring agrees with the dashboard on winners and
      losers and shows breakeven trades as gains, although the reports page
      counts them as losses. */
  lemma StyleAgreesWithMetrics(t: Trade)
    ensures Dashboard.IsWin(t) ==> Style(t).gain
    ensures Dashboard.IsLoss(t) <==> !Style(t).gain
    ensures t.pnl == 0.0 ==> Style(t).gain && Analytics.IsReportLoss(t) && !Dashboard.IsWin(t)
  {
  }
}
