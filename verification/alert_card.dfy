/**
  The alert card: the colour and glow bands chosen from an alert's
  proximity, and the distance between its target and current price.
 */
module AlertCard {
  import opened Numbers
  import opened Alerts

  const ProfitColor := "bg-trading-profit"
  const WarningColor := "bg-trading-warning"
  const LossColor := "bg-trading-loss"

  const ProfitGlow := "profit-glow"
  const LossGlow := "loss-glow"

  /** `getProximityColor`: 90 and above is the profit band, 70 up to 90 the
      warning band, everything below the loss band. */
  function ProximityColor(proximity: real): (c: string)
    ensures c == ProfitColor <==> proximity >= 90.0
    ensures c == WarningColor <==> 70.0 <= proximity < 90.0
    ensures c == LossColor <==> proximity < 70.0
  {
    if proximity >= 90.0 then ProfitColor
    else if proximity >= 70.0 then WarningColor
    else LossColor
  }

  /** `getProximityGlow`: the glow follows the colour band; the warning
      band has none. */
  function ProximityGlow(proximity: real): (g: string)
    ensures g == ProfitGlow <==> ProximityColor(proximity) == ProfitColor
    ensures g == LossGlow <==> ProximityColor(proximity) == LossColor
    ensures g == "" <==> ProximityColor(proximity) == WarningColor
  {
    if proximity >= 90.0 then ProfitGlow
    else if proximity >= 70.0 then ""
    else LossGlow
  }

  /** How good a colour band is: loss 0, warning 1, profit 2. */
  function BandRank(color: string): int
  {
    if color == ProfitColor then 2 else if color == WarningColor then 1 else 0
  }

  /** Raising the proximity never moves a card to a worse band. */
  lemma BandMonotone(p: real, q: real)
    requires p <= q
    ensures BandRank(ProximityColor(p)) <= BandRank(ProximityColor(q))
  {
  }

  /** `priceDifference`: the distance between target and current price. */
  function PriceDifference(a: Alert): (d: real)
    ensures d >= 0.0
    ensures d == 0.0 <==> a.targetPrice == a.currentPrice
    ensures d == Abs(a.currentPrice - a.targetPrice)
  {
    AbsDistance(a.targetPrice, a.currentPrice);
    Abs(a.targetPrice - a.currentPrice)
  }

  /** `percentageDiff`: the price difference as a percentage of the current
      price. For a positive price it is finite, non-negative, and zero exactly
      at the target; a zero price gives NaN at a zero target and +Infinity
      otherwise. */
  function PercentageDiff(a: Alert): (r: Num)
    ensures a.currentPrice > 0.0 ==>
      r.Finite? && r.value >= 0.0 && (r.value == 0.0 <==> a.targetPrice == a.currentPrice)
    ensures a.currentPrice > 0.0 ==> r.value * a.currentPrice == PriceDifference(a) * 100.0
    ensures a.currentPrice == 0.0 ==> (r == NaN <==> a.targetPrice == 0.0)
    ensures a.currentPrice == 0.0 && a.targetPrice != 0.0 ==> r == PosInfinity
  {
    var d := PriceDifference(a);
    var q := Div(d, a.currentPrice);
    if a.currentPrice > 0.0 then
      QuotientSign(d, a.currentPrice);
      assert q.value * 100.0 * a.currentPrice == (q.value * a.currentPrice) * 100.0;
      Scale(q, 100.0)
    else
      Scale(q, 100.0)
  }
}
