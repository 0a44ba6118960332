/**
  The positions page: the status/side filter over the position list, the
  totals over open positions, and how far the current price has travelled
  from the entry price towards the stop-loss and take-profit levels.
 */
module Positions {
  import opened Seqs
  import opened Numbers

  datatype Side = Long | Short

  datatype Status = Open | Closed

  datatype Position = Position(
    id: string,
    symbol: string,
    side: Side,
    size: real,
    entryPrice: real,
    currentPrice: real,
    pnl: real,
    pnlPercent: real,
    stopLoss: Option<real>,      // None when the field is undefined
    takeProfit: Option<real>,
    leverage: real,
    marginUsed: real,
    openTime: int,               // milliseconds since the epoch
    status: Status)

  /** The `matchesStatus` part of the filter: `"all"`, `"open"` and
      `"closed"` are recognised; any other value matches nothing. */
  predicate StatusMatches(filter: string, p: Position)
  {
    filter == "all" || (filter == "open" && p.status == Open) || (filter == "closed" && p.status == Closed)
  }

  /** The `matchesSide` part: `"all"`, `"long"` and `"short"`. */
  predicate SideMatches(filter: string, p: Position)
  {
    filter == "all" || (filter == "long" && p.side == Long) || (filter == "short" && p.side == Short)
  }

  predicate Selected(statusFilter: string, sideFilter: string, p: Position)
  {
    StatusMatches(statusFilter, p) && SideMatches(sideFilter, p)
  }

  function SelectedFn(statusFilter: string, sideFilter: string): Position -> bool
  {
    (p: Position) => Selected(statusFilter, sideFilter, p)
  }

  /** `filteredPositions`: an order-preserving selection of exactly the
      positions passing both the status and the side filter. */
  function FilterPositions(ps: seq<Position>, statusFilter: string, sideFilter: string): (r: seq<Position>)
    ensures IsSubseq(r, ps)
    ensures forall p :: p in r <==> p in ps && StatusMatches(statusFilter, p) && SideMatches(sideFilter, p)
    ensures forall p :: multiset(r)[p] == (if Selected(statusFilter, sideFilter, p) then multiset(ps)[p] else 0)
  {
    FilterIsSubseq(ps, SelectedFn(statusFilter, sideFilter));
    FilterCount(ps, SelectedFn(statusFilter, sideFilter));
    Filter(ps, SelectedFn(statusFilter, sideFilter))
  }

  /** With both filters at `"all"` every position is listed. */
  lemma FilterPositionsAll(ps: seq<Position>)
    ensures FilterPositions(ps, "all", "all") == ps
  {
    FilterKeepsAll(ps, SelectedFn("all", "all"));
  }

  predicate IsOpen(p: Position) { p.status == Open }

  predicate IsClosed(p: Position) { p.status == Closed }

  /** `openPositions`: exactly the open positions, in order. */
  function OpenPositions(ps: seq<Position>): (r: seq<Position>)
    ensures IsSubseq(r, ps)
    ensures forall p :: p in r <==> p in ps && p.status == Open
    ensures forall p :: multiset(r)[p] == if p.status == Open then multiset(ps)[p] else 0
  {
    FilterIsSubseq(ps, IsOpen);
    FilterCount(ps, IsOpen);
    Filter(ps, IsOpen)
  }

  /** Status `"open"` lists exactly the open positions and `"closed"`
      exactly the closed ones, in list order. */
  lemma FilterByStatusExactly(ps: seq<Position>)
    ensures FilterPositions(ps, "open", "all") == OpenPositions(ps)
    ensures FilterPositions(ps, "closed", "all") == Filter(ps, IsClosed)
  {
    FilterExt(ps, SelectedFn("open", "all"), IsOpen);
    FilterExt(ps, SelectedFn("closed", "all"), IsClosed);
  }

  /** An unrecognised status or side value lists nothing. */
  lemma FilterUnknownValue(ps: seq<Position>, statusFilter: string, sideFilter: string)
    requires (statusFilter != "all" && statusFilter != "open" && statusFilter != "closed")
          || (sideFilter != "all" && sideFilter != "long" && sideFilter != "short")
    ensures FilterPositions(ps, statusFilter, sideFilter) == []
  {
    FilterKeepsNone(ps, SelectedFn(statusFilter, sideFilter));
  }

  /** Filtering by status and side at once is filtering by status, then by
      side. */
  lemma FilterStatusThenSide(ps: seq<Position>, statusFilter: string, sideFilter: string)
    ensures FilterPositions(ps, statusFilter, sideFilter) ==
      Filter(Filter(ps, SelectedFn(statusFilter, "all")), SelectedFn("all", sideFilter))
  {
    FilterFilter(ps, SelectedFn(statusFilter, "all"), SelectedFn("all", sideFilter),
      SelectedFn(statusFilter, sideFilter));
  }

  function PnlOf(p: Position): real { p.pnl }

  function MarginOf(p: Position): real { p.marginUsed }

  /** A position's contribution to the P&L total: its P&L when open, zero
      when closed. */
  function OpenPnl(p: Position): real { if p.status == Open then p.pnl else 0.0 }

  function OpenMargin(p: Position): real { if p.status == Open then p.marginUsed else 0.0 }

  /** `totalPnL`: the P&L summed over the open positions, which is the sum
      over the whole list in which closed positions contribute nothing. */
  function TotalPnL(ps: seq<Position>): (t: real)
    ensures t == Sum(ps, OpenPnl)
  {
    SumFilter(ps, IsOpen, PnlOf, OpenPnl);
    Sum(OpenPositions(ps), PnlOf)
  }

  /** `totalMarginUsed`: the margin summed over the open positions, which is
      the sum over the whole list in which closed positions contribute
      nothing. */
  function TotalMarginUsed(ps: seq<Position>): (t: real)
    ensures t == Sum(ps, OpenMargin)
  {
    SumFilter(ps, IsOpen, MarginOf, OpenMargin);
    Sum(OpenPositions(ps), MarginOf)
  }

  predicate IsProfitable(p: Position) { p.pnl > 0.0 }

  predicate IsOpenAndProfitable(p: Position) { p.status == Open && p.pnl > 0.0 }

  /** `profitablePositions`: the open positions with a strictly positive
      P&L; never more than the open positions, and the same as selecting
      open-and-profitable positions from the whole list. */
  function ProfitableCount(ps: seq<Position>): (n: nat)
    ensures n <= |OpenPositions(ps)|
    ensures n == |Filter(ps, IsOpenAndProfitable)|
    ensures n == Count(ps, IsOpenAndProfitable)
  {
    FilterFilter(ps, IsOpen, IsProfitable, IsOpenAndProfitable);
    FilterLength(ps, IsOpenAndProfitable);
    |Filter(OpenPositions(ps), IsProfitable)|
  }

  /** Adding a closed position anywhere in the list (or, read backwards,
      removing one) changes none of the totals. */
  lemma ClosedPositionIgnored(ps: seq<Position>, i: int, c: Position)
    requires 0 <= i <= |ps| && c.status == Closed
    ensures OpenPositions(ps[..i] + [c] + ps[i..]) == OpenPositions(ps)
    ensures TotalPnL(ps[..i] + [c] + ps[i..]) == TotalPnL(ps)
    ensures TotalMarginUsed(ps[..i] + [c] + ps[i..]) == TotalMarginUsed(ps)
    ensures ProfitableCount(ps[..i] + [c] + ps[i..]) == ProfitableCount(ps)
  {
    FilterInsertRejected(ps, i, c, IsOpen);
  }

  /** When every open position has non-negative margin, so has the total. */
  lemma MarginTotalNonNegative(ps: seq<Position>)
    requires forall p :: p in ps && p.status == Open ==> p.marginUsed >= 0.0
    ensures TotalMarginUsed(ps) >= 0.0
  {
    SumNonNegative(OpenPositions(ps), MarginOf);
  }

  /** `((maxDistance - distance) / maxDistance) * 100`: how much of the way
      from entry to a level has been covered. Reaching the level gives 100,
      standing at the entry distance gives 0, and it is not clamped below:
      farther away than the entry was is negative. A zero `maxDistance`
      divides by zero: NaN at the level, -Infinity elsewhere. */
  function ClosingPercent(distance: real, maxDistance: real): (r: Num)
    requires distance >= 0.0 && maxDistance >= 0.0
    ensures maxDistance > 0.0 ==> r.Finite? && r.value <= 100.0
    ensures maxDistance > 0.0 ==> r.value * maxDistance == (maxDistance - distance) * 100.0
    ensures maxDistance > 0.0 ==> (r.value == 100.0 <==> distance == 0.0)
    ensures maxDistance > 0.0 ==> (r.value == 0.0 <==> distance == maxDistance)
    ensures maxDistance > 0.0 ==> (r.value < 0.0 <==> distance > maxDistance)
    ensures maxDistance == 0.0 ==> (r == NaN <==> distance == 0.0)
    ensures maxDistance == 0.0 ==> (r == NegInfinity <==> distance > 0.0)
  {
    if maxDistance > 0.0 then
      var q := Div(maxDistance - distance, maxDistance);
      QuotientSign(maxDistance - distance, maxDistance);
      assert q.value * 100.0 * maxDistance == (q.value * maxDistance) * 100.0;
      Scale(q, 100.0)
    else
      Scale(Div(maxDistance - distance, maxDistance), 100.0)
  }

  /** The closer the price, the higher the percentage. */
  lemma ClosingPercentAntitone(d1: real, d2: real, maxDistance: real)
    requires 0.0 <= d1 <= d2 && maxDistance > 0.0
    ensures ClosingPercent(d1, maxDistance).value >= ClosingPercent(d2, maxDistance).value
  {
    var q1 := (maxDistance - d1) / maxDistance;
    var q2 := (maxDistance - d2) / maxDistance;
    assert q1 - q2 == (d2 - d1) / maxDistance;
  }

  /** Standing exactly the entry distance away gives 0. */
  lemma ClosingPercentAtSpan(m: real)
    requires m > 0.0
    ensures ClosingPercent(m, m) == Finite(0.0)
  {
  }

  /** A stop-loss or take-profit level counts only when it is truthy:
      present and non-zero. */
  predicate IsSet(level: Option<real>)
  {
    level.Some? && level.value != 0.0
  }

  /** `getProximityToSL`: null without a truthy stop-loss; otherwise the
      closing percentage from entry towards the stop-loss. */
  function ProximityToSL(p: Position): (r: Option<Num>)
    ensures r.None? <==> !IsSet(p.stopLoss)
    ensures r.Some? && p.entryPrice != p.stopLoss.value ==>
      r.value.Finite? && r.value.value <= 100.0
    ensures r.Some? && p.entryPrice != p.stopLoss.value ==>
      r.value.value * Abs(p.entryPrice - p.stopLoss.value) == (Abs(p.entryPrice - p.stopLoss.value) - Abs(p.currentPrice - p.stopLoss.value)) * 100.0
    ensures r.Some? && p.entryPrice != p.stopLoss.value && p.currentPrice == p.stopLoss.value ==>
      r == Some(Finite(100.0))
    ensures r.Some? && p.entryPrice == p.stopLoss.value ==>
      r.value == (if p.currentPrice == p.stopLoss.value then NaN else NegInfinity)
  {
    if !IsSet(p.stopLoss) then None
    else
      var sl := p.stopLoss.value;
      Some(ClosingPercent(Abs(p.currentPrice - sl), Abs(p.entryPrice - sl)))
  }

  /** `getProximityToTP`: null without a truthy take-profit; otherwise the
      closing percentage from entry towards the take-profit. */
  function ProximityToTP(p: Position): (r: Option<Num>)
    ensures r.None? <==> !IsSet(p.takeProfit)
    ensures r.Some? && p.entryPrice != p.takeProfit.value ==>
      r.value.Finite? && r.value.value <= 100.0
    ensures r.Some? && p.entryPrice != p.takeProfit.value ==>
      r.value.value * Abs(p.takeProfit.value - p.entryPrice) == (Abs(p.takeProfit.value - p.entryPrice) - Abs(p.takeProfit.value - p.currentPrice)) * 100.0
    ensures r.Some? && p.entryPrice != p.takeProfit.value && p.currentPrice == p.takeProfit.value ==>
      r == Some(Finite(100.0))
    ensures r.Some? && p.entryPrice == p.takeProfit.value ==>
      r.value == (if p.currentPrice == p.takeProfit.value then NaN else NegInfinity)
  {
    if !IsSet(p.takeProfit) then None
    else
      var tp := p.takeProfit.value;
      Some(ClosingPercent(Abs(tp - p.currentPrice), Abs(tp - p.entryPrice)))
  }

  /** At the entry price the stop-loss proximity is 0. */
  lemma ProximityToSLAtEntry(p: Position)
    requires IsSet(p.stopLoss) && p.entryPrice != p.stopLoss.value
    requires p.currentPrice == p.entryPrice
    ensures ProximityToSL(p) == Some(Finite(0.0))
  {
    var sl := p.stopLoss.value;
    var m := Abs(p.entryPrice - sl);
    assert Abs(p.currentPrice - sl) == m && m > 0.0;
    ClosingPercentAtSpan(m);
  }

  /** The stop-loss proximity is not clamped at 0: it is negative exactly
      when the price is farther from the stop-loss than the entry was. */
  lemma ProximityToSLNegative(p: Position)
    requires IsSet(p.stopLoss) && p.entryPrice != p.stopLoss.value
    ensures ProximityToSL(p).value.value < 0.0 <==>
      Abs(p.currentPrice - p.stopLoss.value) > Abs(p.entryPrice - p.stopLoss.value)
  {
    var sl := p.stopLoss.value;
    var d, m := Abs(p.currentPrice - sl), Abs(p.entryPrice - sl);
    assert m > 0.0;
    assert ClosingPercent(d, m).value < 0.0 <==> d > m;
  }

  /** At the entry price the take-profit proximity is 0. */
  lemma ProximityToTPAtEntry(p: Position)
    requires IsSet(p.takeProfit) && p.entryPrice != p.takeProfit.value
    requires p.currentPrice == p.entryPrice
    ensures ProximityToTP(p) == Some(Finite(0.0))
  {
    var tp := p.takeProfit.value;
    var m := Abs(tp - p.entryPrice);
    assert Abs(tp - p.currentPrice) == m && m > 0.0;
    ClosingPercentAtSpan(m);
  }

  /** The take-profit proximity is negative exactly when the price is
      farther from the take-profit than the entry was. */
  lemma ProximityToTPNegative(p: Position)
    requires IsSet(p.takeProfit) && p.entryPrice != p.takeProfit.value
    ensures ProximityToTP(p).value.value < 0.0 <==>
      Abs(p.takeProfit.value - p.currentPrice) > Abs(p.takeProfit.value - p.entryPrice)
  {
    var tp := p.takeProfit.value;
    var d, m := Abs(tp - p.currentPrice), Abs(tp - p.entryPrice);
    assert m > 0.0;
    assert ClosingPercent(d, m).value < 0.0 <==> d > m;
  }

  /** Moving the current price closer to the stop-loss, all else equal,
      never lowers the stop-loss proximity. */
  lemma ProximityToSLMonotone(p: Position, price: real)
    requires IsSet(p.stopLoss) && p.entryPrice != p.stopLoss.value
    requires Abs(price - p.stopLoss.value) <= Abs(p.currentPrice - p.stopLoss.value)
    ensures ProximityToSL(p.(currentPrice := price)).value.value >= ProximityToSL(p).value.value
  {
    var sl := p.stopLoss.value;
    ClosingPercentAntitone(Abs(price - sl), Abs(p.currentPrice - sl), Abs(p.entryPrice - sl));
  }

  /** Moving the current price closer to the take-profit, all else equal,
      never lowers the take-profit proximity. */
  lemma ProximityToTPMonotone(p: Position, price: real)
    requires IsSet(p.takeProfit) && p.entryPrice != p.takeProfit.value
    requires Abs(p.takeProfit.value - price) <= Abs(p.takeProfit.value - p.currentPrice)
    ensures ProximityToTP(p.(currentPrice := price)).value.value >= ProximityToTP(p).value.value
  {
    var tp := p.takeProfit.value;
    ClosingPercentAntitone(Abs(tp - price), Abs(tp - p.currentPrice), Abs(tp - p.entryPrice));
  }
}
