/** Grouping trades by a key and summing their P&L per key: the
    `Record<string, number>` that the reports page fills with
    `acc[key] = (acc[key] || 0) + t.pnl` and then lists with
    `Object.entries`. The key type is left abstract; the reports page
    uses the setup tag. */
module Groups {
  import opened Seqs
  import opened Trades

  /** One entry of the record: a key and the value accumulated under it. */
  datatype Total<K> = Total(name: K, value: real)

  /** Adds `amount` to the entry called `name`, appending a new entry when there is none. */
  function Upsert<K(==)>(acc: seq<Total<K>>, name: K, amount: real): (r: seq<Total<K>>)
    ensures |r| == |acc| || |r| == |acc| + 1
    ensures forall i :: 0 <= i < |acc| ==> r[i].name == acc[i].name
    ensures |r| == |acc| + 1 ==> r[|acc|] == Total(name, amount)
    ensures |r| == |acc| + 1 <==> forall i :: 0 <= i < |acc| ==> acc[i].name != name
    decreases |acc|
  {
    if |acc| == 0 then [Total(name, amount)]
    else if acc[0].name == name then [Total(name, acc[0].value + amount)] + acc[1..]
    else [acc[0]] + Upsert(acc[1..], name, amount)
  }

  /** The trades folded in journal order, so that the entries appear in the
      order their keys first occur. */
  function GroupTotals<K(==)>(ts: seq<Trade>, key: Trade -> K): seq<Total<K>>
    decreases |ts|
  {
    if |ts| == 0 then []
    else
      var n := |ts| - 1;
      Upsert(GroupTotals(ts[..n], key), key(ts[n]), ts[n].pnl)
  }

  /** The trades whose key is `name`. */
  function KeyIs<K(==)>(key: Trade -> K, name: K): Trade -> bool
  {
    (t: Trade) => key(t) == name
  }

  predicate DistinctNames<K(==)>(acc: seq<Total<K>>)
  {
    forall i, j :: 0 <= i < j < |acc| ==> acc[i].name != acc[j].name
  }

  function SumValues<K>(acc: seq<Total<K>>): real
  {
    if |acc| == 0 then 0.0 else acc[0].value + SumValues(acc[1..])
  }

  /** The value recorded under `name` (0 when absent). */
  function ValueOf<K(==)>(acc: seq<Total<K>>, name: K): real
  {
    if |acc| == 0 then 0.0
    else (if acc[0].name == name then acc[0].value else 0.0) + ValueOf(acc[1..], name)
  }

  /** An upsert adds its amount to the sum of all values. */
  lemma {:induction false} UpsertSum<K>(acc: seq<Total<K>>, name: K, amount: real)
    ensures SumValues(Upsert(acc, name, amount)) == SumValues(acc) + amount
    decreases |acc|
  {
    if |acc| > 0 {
      var r := Upsert(acc, name, amount);
      if acc[0].name != name {
        UpsertSum(acc[1..], name, amount);
        assert r[1..] == Upsert(acc[1..], name, amount);
      } else {
        assert r[1..] == acc[1..];
      }
    }
  }

  /** An upsert adds its amount under its own name and nowhere else. */
  lemma {:induction false} UpsertValue<K>(acc: seq<Total<K>>, name: K, amount: real, k: K)
    ensures ValueOf(Upsert(acc, name, amount), k) == ValueOf(acc, k) + (if k == name then amount else 0.0)
    decreases |acc|
  {
    if |acc| > 0 {
      var r := Upsert(acc, name, amount);
      if acc[0].name != name {
        UpsertValue(acc[1..], name, amount, k);
        assert r[1..] == Upsert(acc[1..], name, amount);
      } else {
        assert r[1..] == acc[1..];
      }
    }
  }

  /** An upsert keeps the names distinct. */
  lemma UpsertDistinct<K>(acc: seq<Total<K>>, name: K, amount: real)
    requires DistinctNames(acc)
    ensures DistinctNames(Upsert(acc, name, amount))
  {
    var r := Upsert(acc, name, amount);
    if |r| == |acc| + 1 {
      assert r[|acc|].name == name;
    }
  }

  /** An upsert leaves entry `i` where it was, under the same name. */
  lemma UpsertKeeps<K>(acc: seq<Total<K>>, name: K, amount: real, i: nat)
    requires i < |acc|
    ensures i < |Upsert(acc, name, amount)| && Upsert(acc, name, amount)[i].name == acc[i].name
  {
  }

  /** After an upsert, `name` has an entry: `i` is that entry. */
  lemma UpsertFinds<K>(acc: seq<Total<K>>, name: K, amount: real) returns (i: nat)
    ensures i < |Upsert(acc, name, amount)| && Upsert(acc, name, amount)[i].name == name
  {
    var r := Upsert(acc, name, amount);
    if |r| == |acc| + 1 {
      i := |acc|;
    } else {
      i :| 0 <= i < |acc| && acc[i].name == name;
    }
  }

  /** With distinct names, an entry's value is the value recorded under its name. */
  lemma {:induction false} EntryValue<K>(acc: seq<Total<K>>, i: nat)
    requires DistinctNames(acc)
    requires i < |acc|
    ensures acc[i].value == ValueOf(acc, acc[i].name)
    decreases i
  {
    if i > 0 {
      EntryValue(acc[1..], i - 1);
    } else {
      AbsentValue(acc[1..], acc[0].name);
    }
  }

  /** Nothing is recorded under a name without an entry. */
  lemma {:induction false} AbsentValue<K>(acc: seq<Total<K>>, name: K)
    requires forall i :: 0 <= i < |acc| ==> acc[i].name != name
    ensures ValueOf(acc, name) == 0.0
    decreases |acc|
  {
    if |acc| > 0 {
      AbsentValue(acc[1..], name);
    }
  }

  /** There are never more entries than trades, and there is at least one
      entry as soon as there is a trade. */
  lemma {:induction false} GroupTotalsSize<K>(ts: seq<Trade>, key: Trade -> K)
    ensures |GroupTotals(ts, key)| <= |ts|
    ensures |GroupTotals(ts, key)| == 0 <==> |ts| == 0
    decreases |ts|
  {
    if |ts| > 0 {
      GroupTotalsSize(ts[..|ts| - 1], key);
    }
  }

  /** No two entries share a key. */
  lemma {:induction false} GroupTotalsDistinct<K>(ts: seq<Trade>, key: Trade -> K)
    ensures DistinctNames(GroupTotals(ts, key))
    decreases |ts|
  {
    if |ts| > 0 {
      var n := |ts| - 1;
      GroupTotalsDistinct(ts[..n], key);
      UpsertDistinct(GroupTotals(ts[..n], key), key(ts[n]), ts[n].pnl);
    }
  }

  /** Every entry is named after the key of some trade: `j` is one such trade. */
  lemma {:induction false} GroupTotalsSound<K>(ts: seq<Trade>, key: Trade -> K, i: nat) returns (j: nat)
    requires i < |GroupTotals(ts, key)|
    ensures j < |ts| && key(ts[j]) == GroupTotals(ts, key)[i].name
    decreases |ts|
  {
    var n := |ts| - 1;
    var prev := ts[..n];
    if i < |GroupTotals(prev, key)| {
      j := GroupTotalsSound(prev, key, i);
      assert ts[j] == prev[j];
    } else {
      j := n;
    }
  }

  /** Every trade's key has an entry: `i` is that entry. */
  lemma {:induction false} GroupTotalsComplete<K>(ts: seq<Trade>, key: Trade -> K, j: nat) returns (i: nat)
    requires j < |ts|
    ensures i < |GroupTotals(ts, key)| && GroupTotals(ts, key)[i].name == key(ts[j])
    decreases |ts|
  {
    var n := |ts| - 1;
    if j < n {
      i := GroupTotalsComplete(ts[..n], key, j);
      GroupTotalsKeeps(ts, key, i);
      assert ts[j] == ts[..n][j];
    } else {
      i := GroupTotalsFindsLast(ts, key);
    }
  }

  /** A further trade leaves every earlier entry where it was. */
  lemma GroupTotalsKeeps<K>(ts: seq<Trade>, key: Trade -> K, i: nat)
    requires |ts| > 0 && i < |GroupTotals(ts[..|ts| - 1], key)|
    ensures i < |GroupTotals(ts, key)|
    ensures GroupTotals(ts, key)[i].name == GroupTotals(ts[..|ts| - 1], key)[i].name
  {
    var n := |ts| - 1;
    UpsertKeeps(GroupTotals(ts[..n], key), key(ts[n]), ts[n].pnl, i);
  }

  /** The last trade's key has an entry: `i` is that entry. */
  lemma GroupTotalsFindsLast<K>(ts: seq<Trade>, key: Trade -> K) returns (i: nat)
    requires |ts| > 0
    ensures i < |GroupTotals(ts, key)| && GroupTotals(ts, key)[i].name == key(ts[|ts| - 1])
  {
    var n := |ts| - 1;
    i := UpsertFinds(GroupTotals(ts[..n], key), key(ts[n]), ts[n].pnl);
  }

  /** The value recorded under any key is the summed P&L of that key's trades. */
  lemma {:induction false} GroupTotalsValues<K>(ts: seq<Trade>, key: Trade -> K, k: K)
    ensures ValueOf(GroupTotals(ts, key), k) == SumPnl(Filter(ts, KeyIs(key, k)))
    decreases |ts|
  {
    if |ts| > 0 {
      var n := |ts| - 1;
      GroupTotalsValues(ts[..n], key, k);
      UpsertValue(GroupTotals(ts[..n], key), key(ts[n]), ts[n].pnl, k);
      SumPnlFilterLast(ts, KeyIs(key, k));
    }
  }

  /** Each entry holds exactly the summed P&L of the trades with its key. */
  lemma GroupEntryIsSum<K>(ts: seq<Trade>, key: Trade -> K, i: nat)
    requires i < |GroupTotals(ts, key)|
    ensures GroupTotals(ts, key)[i].value == SumPnl(Filter(ts, KeyIs(key, GroupTotals(ts, key)[i].name)))
  {
    GroupTotalsDistinct(ts, key);
    EntryValue(GroupTotals(ts, key), i);
    GroupTotalsValues(ts, key, GroupTotals(ts, key)[i].name);
  }

  /** The entries add up to the net P&L of the journal. */
  lemma {:induction false} GroupTotalsSum<K>(ts: seq<Trade>, key: Trade -> K)
    ensures SumValues(GroupTotals(ts, key)) == SumPnl(ts)
    decreases |ts|
  {
    if |ts| > 0 {
      var n := |ts| - 1;
      GroupTotalsSum(ts[..n], key);
      UpsertSum(GroupTotals(ts[..n], key), key(ts[n]), ts[n].pnl);
      SumPnlLast(ts);
    }
  }
}
