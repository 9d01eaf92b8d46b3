/** The trade list held by the application shell (App.tsx) and its two
    transitions, as pure functions from the old list to the new one.
    Persistence to local storage is not part of this model. */
module Journal {
  import opened Seqs
  import opened Trades

  /** `handleAddTrade`: the new trade goes first, the rest follow unchanged. */
  function AddTrade(ts: seq<Trade>, t: Trade): (r: seq<Trade>)
    ensures |r| == |ts| + 1
    ensures r[0] == t && r[1..] == ts
  {
    [t] + ts
  }

  function KeepsOtherIds(id: string): Trade -> bool { (t: Trade) => t.id != id }

  /** `handleDeleteTrade`: every trade with the given id goes, every copy of
      every other trade stays, in its original order. */
  function DeleteTrade(ts: seq<Trade>, id: string): (r: seq<Trade>)
    ensures forall i :: 0 <= i < |r| ==> r[i].id != id
    ensures forall t :: t in ts && t.id != id ==> t in r
    ensures forall t :: t in r ==> t in ts
    ensures forall t :: multiset(r)[t] == if t.id != id then multiset(ts)[t] else 0
    ensures IsSubsequence(r, ts)
  {
    FilterMembership(ts, KeepsOtherIds(id));
    FilterCount(ts, KeepsOtherIds(id));
    FilterIsSubsequence(ts, KeepsOtherIds(id));
    Filter(ts, KeepsOtherIds(id))
  }

  predicate IdAbsent(ts: seq<Trade>, id: string)
  {
    forall i :: 0 <= i < |ts| ==> ts[i].id != id
  }

  /** Deleting an id that is not there leaves the list as it was. */
  lemma DeleteAbsentId(ts: seq<Trade>, id: string)
    ensures DeleteTrade(ts, id) == ts <==> IdAbsent(ts, id)
  {
    FilterKeepsAll(ts, KeepsOtherIds(id));
  }

  /** Deleting twice is deleting once. */
  lemma DeleteIdempotent(ts: seq<Trade>, id: string)
    ensures DeleteTrade(DeleteTrade(ts, id), id) == DeleteTrade(ts, id)
  {
    FilterIdempotent(ts, KeepsOtherIds(id));
  }

  /** Adding a trade with a fresh id and then deleting that id restores the list. */
  lemma AddThenDelete(ts: seq<Trade>, t: Trade)
    requires IdAbsent(ts, t.id)
    ensures DeleteTrade(AddTrade(ts, t), t.id) == ts
  {
    assert ([t] + ts)[1..] == ts;
    DeleteAbsentId(ts, t.id);
  }

  /** Adding a trade moves the net P&L by that trade's P&L; deleting an id
      moves it by minus the P&L of the trades removed. */
  lemma TransitionsUpdateNetPnl(ts: seq<Trade>, t: Trade, id: string)
    ensures SumPnl(AddTrade(ts, t)) == SumPnl(ts) + t.pnl
    ensures SumPnl(DeleteTrade(ts, id)) == SumPnl(ts) - SumPnl(Filter(ts, (u: Trade) => u.id == id))
  {
    assert ([t] + ts)[1..] == ts;
    var any := (u: Trade) => true;
    FilterKeepsAll(ts, any);
    SumPnlPartition(ts, any, KeepsOtherIds(id), (u: Trade) => u.id == id);
  }
}
