/** The planner's in-memory list of open positions: it starts empty, a record
    is appended when a sized trade is added, the risk amounts of all records
    are summed for the "total open risk" metric, and the list is emptied on
    request. */
module TradeLedger {
  import opened PositionSizing

  datatype Option<T> = None | Some(value: T)

  /** One position record, with the fields the planner stores. */
  datatype Trade = Trade(ticker: string, entry: real, stopLoss: real, qty: int,
                         totalCost: real, riskAmount: real)

  /** What every record added from a sizing result satisfies: the stop lies
      below the entry and the cost is the share count times the entry. */
  predicate Recorded(t: Trade) {
    t.stopLoss < t.entry && t.totalCost == t.qty as real * t.entry
  }

  /** The sum of the risk amounts of a list of records; with no negative
      risk amount among them the sum is not negative. */
  function TotalRisk(trades: seq<Trade>): (r: real)
    ensures (forall k :: 0 <= k < |trades| ==> trades[k].riskAmount >= 0.0) ==> r >= 0.0
  {
    if trades == [] then 0.0 else trades[0].riskAmount + TotalRisk(trades[1..])
  }

  /** Appending one record adds exactly its risk amount to the total. */
  lemma {:induction false} TotalRiskAppend(trades: seq<Trade>, t: Trade)
    ensures TotalRisk(trades + [t]) == TotalRisk(trades) + t.riskAmount
  {
    if trades != [] {
      assert (trades + [t])[1..] == trades[1..] + [t];
      TotalRiskAppend(trades[1..], t);
    }
  }

  /** The total of two lists placed one after the other is the sum of their totals. */
  lemma {:induction false} TotalRiskConcat(a: seq<Trade>, b: seq<Trade>)
    ensures TotalRisk(a + b) == TotalRisk(a) + TotalRisk(b)
  {
    if a != [] {
      assert (a + b)[1..] == a[1..] + b;
      TotalRiskConcat(a[1..], b);
    } else {
      assert a + b == b;
    }
  }

  /** When no record carries a negative risk amount, every record's risk
      amount is bounded by the total, and the total is not negative. */
  lemma {:induction false} TotalRiskBoundsEach(trades: seq<Trade>, i: int)
    requires forall k :: 0 <= k < |trades| ==> trades[k].riskAmount >= 0.0
    requires 0 <= i < |trades|
    ensures 0.0 <= trades[i].riskAmount <= TotalRisk(trades)
  {
    if i > 0 {
      TotalRiskBoundsEach(trades[1..], i - 1);
    }
  }

  /** Records added under unchanged equity and risk settings all carry the
      same risk amount r, and then the total is their number times r. */
  lemma {:induction false} TotalRiskUniform(trades: seq<Trade>, r: real)
    requires forall k :: 0 <= k < |trades| ==> trades[k].riskAmount == r
    ensures TotalRisk(trades) == |trades| as real * r
  {
    if trades != [] {
      TotalRiskUniform(trades[1..], r);
    }
  }

  /** The record built from the planner inputs and a sizing result: it
      carries the ticker, entry and stop as given and the plan's share count,
      cost and risk amount, and satisfies Recorded whenever the plan's cost
      is its count times the entry and the stop is below the entry. */
  function NewTrade(ticker: string, entry: real, stopLoss: real, plan: Plan): (t: Trade)
    ensures t.ticker == ticker && t.entry == entry && t.stopLoss == stopLoss
    ensures t.qty == plan.qty && t.totalCost == plan.totalCost && t.riskAmount == plan.riskAmount
    ensures stopLoss < entry && plan.totalCost == plan.qty as real * entry ==> Recorded(t)
  {
    Trade(ticker, entry, stopLoss, plan.qty, plan.totalCost, plan.riskAmount)
  }

  /** A record built from a successful sizing satisfies Recorded, its risk
      amount is equity * riskPercent / 100, and that amount is not negative
      when neither the equity nor the risk percentage is. */
  lemma NewTradeRecorded(ticker: string, equity: real, riskPercent: real, entry: real,
                         stopLoss: real, commission: real, slippage: real)
    requires Size(equity, riskPercent, entry, stopLoss, commission, slippage).Sized?
    ensures var t := NewTrade(ticker, entry, stopLoss,
                              Size(equity, riskPercent, entry, stopLoss, commission, slippage).plan);
            Recorded(t) && t.ticker == ticker && t.riskAmount * 100.0 == equity * riskPercent &&
            (equity >= 0.0 && riskPercent >= 0.0 ==> t.riskAmount >= 0.0)
  {
  }

  /** The session's list of positions. */
  class Ledger {
    var trades: seq<Trade>

    /** Every record in the list came from a successful sizing. */
    ghost predicate Valid()
      reads this
    {
      forall i :: 0 <= i < |trades| ==> Recorded(trades[i])
    }

    /** The list is created empty when the session has none yet. */
    constructor ()
      ensures Valid() && trades == []
    {
      trades := [];
    }

    /** Runs the sizing block on the current inputs and, when it yields a
        share count, appends the record of that position; otherwise (the
        stop is not below the entry, or the per-share risk is zero) the
        list is left as it was. */
    method AddPosition(ticker: string, equity: real, riskPercent: real, entry: real,
                       stopLoss: real, commission: real, slippage: real) returns (s: Sizing)
      requires Valid()
      modifies this
      ensures Valid()
      ensures s == Size(equity, riskPercent, entry, stopLoss, commission, slippage)
      ensures s.Sized? ==> trades == old(trades) + [NewTrade(ticker, entry, stopLoss, s.plan)]
      ensures !s.Sized? ==> trades == old(trades)
      ensures s.Sized? ==> |trades| == |old(trades)| + 1 && trades[..|old(trades)|] == old(trades)
      ensures TotalRisk(trades) ==
                old(TotalRisk(trades)) + (if s.Sized? then s.plan.riskAmount else 0.0)
    {
      s := Size(equity, riskPercent, entry, stopLoss, commission, slippage);
      if s.Sized? {
        var t := NewTrade(ticker, entry, stopLoss, s.plan);
        TotalRiskAppend(trades, t);
        trades := trades + [t];
      }
    }

    /** Empties the list, whatever it held. */
    method Clear()
      modifies this
      ensures Valid() && trades == []
      ensures TotalRisk(trades) == 0.0
    {
      trades := [];
    }

    /** The "total open risk" metric: shown only when the list is not empty,
        and then the sum of the risk amounts of all records. */
    function OpenRiskMetric(): (m: Option<real>)
      reads this
      ensures m.Some? <==> |trades| > 0
      ensures m.Some? ==> m.value == TotalRisk(trades)
    {
      if |trades| > 0 then Some(TotalRisk(trades)) else None
    }
  }

  /** One session: a sized addition is recorded, an addition whose stop is
      not below its entry is refused, the metric then shows the one risk
      amount, and a clear empties the list and hides the metric. */
  method SessionExample() returns (shown: Option<real>, afterClear: Option<real>)
    ensures shown == Some(100.0) && afterClear == None
  {
    var ledger := new Ledger();
    var s1 := ledger.AddPosition("AAPL", 10000.0, 1.0, 150.0, 145.0, 5.0, 0.01);
    DefaultInputsExample();
    assert ledger.trades == [Trade("AAPL", 150.0, 145.0, 18, 2700.0, 100.0)];
    var s2 := ledger.AddPosition("MSFT", 10000.0, 1.0, 100.0, 100.0, 5.0, 0.01);
    assert s2 == StopNotBelowEntry;
    shown := ledger.OpenRiskMetric();
    ledger.Clear();
    afterClear := ledger.OpenRiskMetric();
  }
}
