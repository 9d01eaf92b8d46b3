/** Building a trade record from the submitted form (components/TradeForm.tsx,
    `handleSubmit`). Parsing text into numbers happens before this model:
    prices and quantity arrive as numbers, and the optional risk and target
    arrive as `None` when blank or unparseable. The fresh id is a parameter. */
module TradeForm {
  import opened Trades
  import opened Text

  /** The form's fields after parsing. */
  datatype Draft = Draft(
    symbol: string,
    kind: TradeType,
    entryPrice: real,
    exitPrice: real,
    quantity: real,
    date: int,
    timeframe: string,
    setup: string,
    notes: string,
    riskAmount: Option<real>,
    targetPrice: Option<real>)

  /** Realised P&L: a long gains when the price rises, a short when it falls. */
  function ComputePnl(kind: TradeType, entry: real, exit: real, qty: real): (r: real)
    ensures r == 0.0 <==> qty == 0.0 || exit == entry
  {
    match kind
    case Long => (exit - entry) * qty
    case Short => (entry - exit) * qty
  }

  /** A short's result is the mirror image of a long's at the same prices and size. */
  lemma ShortMirrorsLong(entry: real, exit: real, qty: real)
    ensures ComputePnl(Short, entry, exit, qty) == -ComputePnl(Long, entry, exit, qty)
  {
  }

  /** With a positive size, a long profits exactly when the exit is above the
      entry, a short exactly when it is below, and both break even exactly
      when the prices are equal. */
  lemma PnlSign(entry: real, exit: real, qty: real)
    requires qty > 0.0
    ensures ComputePnl(Long, entry, exit, qty) > 0.0 <==> exit > entry
    ensures ComputePnl(Short, entry, exit, qty) > 0.0 <==> exit < entry
    ensures ComputePnl(Long, entry, exit, qty) == 0.0 <==> exit == entry
    ensures ComputePnl(Short, entry, exit, qty) == 0.0 <==> exit == entry
  {
    var up := exit - entry;
    var down := entry - exit;
    assert ComputePnl(Long, entry, exit, qty) == up * qty;
    assert ComputePnl(Short, entry, exit, qty) == down * qty;
    ScaledSign(up, qty);
    ScaledSign(down, qty);
  }

  /** Scaling by a positive size keeps the sign of a price move. */
  lemma ScaledSign(x: real, qty: real)
    requires qty > 0.0
    ensures x * qty > 0.0 <==> x > 0.0
    ensures x * qty == 0.0 <==> x == 0.0
  {
    if x > 0.0 {
      assert x * qty > 0.0;
    } else if x < 0.0 {
      assert (-x) * qty > 0.0;
    }
  }

  /** A record whose stored P&L agrees with its direction, prices and size. */
  predicate PnlConsistent(t: Trade)
  {
    t.pnl == ComputePnl(t.kind, t.entryPrice, t.exitPrice, t.quantity)
  }

  /** `handleSubmit`: the new record carries the given id, the upper-cased
      symbol, the form's values unchanged, a P&L consistent with them, and
      0 for a missing risk or target; no reward:risk ratio is recorded. */
  function Submit(d: Draft, id: string): (t: Trade)
    ensures t.id == id
    ensures PnlConsistent(t)
    ensures Upper(t.symbol) == t.symbol && Lower(t.symbol) == Lower(d.symbol)
    ensures t.kind == d.kind && t.entryPrice == d.entryPrice && t.exitPrice == d.exitPrice
    ensures t.quantity == d.quantity && t.date == d.date && t.timeframe == d.timeframe
    ensures t.setup == d.setup && t.notes == d.notes
    ensures t.riskAmount.Some? && t.riskAmount.value == (if d.riskAmount.Some? then d.riskAmount.value else 0.0)
    ensures t.targetPrice.Some? && t.targetPrice.value == (if d.targetPrice.Some? then d.targetPrice.value else 0.0)
    ensures t.rrRatio.None?
  {
    UpperIdempotent(d.symbol);
    LowerForgetsCase(d.symbol);
    Trade(
      id := id,
      symbol := Upper(d.symbol),
      kind := d.kind,
      entryPrice := d.entryPrice,
      exitPrice := d.exitPrice,
      quantity := d.quantity,
      pnl := ComputePnl(d.kind, d.entryPrice, d.exitPrice, d.quantity),
      date := d.date,
      notes := d.notes,
      setup := d.setup,
      timeframe := d.timeframe,
      riskAmount := Some(d.riskAmount.GetOr(0.0)),
      targetPrice := Some(d.targetPrice.GetOr(0.0)),
      rrRatio := None)
  }
}
