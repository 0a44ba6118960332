# Trading dashboard: alerts and positions pages

This project models the list logic behind two pages of a trading dashboard's
front end, plus one card component:

- **Alerts page.** This page holds a list of price alerts. Each alert has a
  symbol, a target price, a simulated current price, a direction, a
  "proximity" percentage, a creation time, and recurring and active flags.
  The page supports the following:
  - creating an alert from a form;
  - deleting an alert by id;
  - a handler that flips an alert's active flag by id. No control calls it:
    the list hands the card only the delete callback, so the active flag
    never changes once an alert is created;
  - listing the alerts through a search and status filter followed by a
    stable sort chosen by a `sortBy` key;
  - counting active, high-proximity and recurring alerts.
- **Alert card.** The card picks a colour band and a glow from the proximity.
  It also shows how far the current price is from the target, as an absolute
  amount and as a percentage.
- **Positions page.** This page filters trading positions by status and
  side, and sums P&L and margin over the open positions. For each position
  it also reports how much of the way from the entry price towards the
  stop-loss or take-profit level the current price has moved.

Each React handler becomes a pure function from the current list to the next
one. JavaScript numbers become exact reals. A division is made total through
`Numbers.Div`: for a zero divisor it yields an infinity or NaN, as the page
would display. The stable `Array.prototype.sort` is modelled by a stable
insertion sort. With a consistent comparator a stable sort has only one
possible output, so this choice does not change the listing.

The project describes what the code does. The page has no background engine
that fires alerts when the price crosses the target. Direction and recurrence
are stored and displayed only, so the model does the same.

Files:

- `seqs.dfy`: `filter`, sums and the subsequence relation.
- `text.dfy`: case mapping, `includes`, string comparison and decimal ids.
- `numbers.dfy`: `Math.abs`, division and scaling.
- `alerts.dfy`, `alert_sort.dfy`: the alerts page.
- `alert_card.dfy`: the alert card.
- `positions.dfy`: the positions page.

## Model

| member | source | states |
|---|---|---|
| Alerts.NewAlert | fronted/src/pages/Alerts.tsx:112-127 | the new alert has the clock reading as its decimal id, the upper-cased symbol, the form's price, direction and recurrence, and starts active; its simulated proximity is in [0, 100); for a positive target its simulated price is within [80%, 120%) of the target |
| Alerts.CreateAlert | fronted/src/pages/Alerts.tsx:102-129 | an empty symbol or target-price field leaves the list unchanged; otherwise the old list is kept as a prefix and exactly the new alert is appended |
| Alerts.CreatedAlertIsFound | fronted/src/pages/Alerts.tsx:117-129 | a created alert is listed when searching for the symbol as typed, in any letter case, with status "active" |
| Alerts.CreateActiveCount | fronted/src/pages/Alerts.tsx:126-129 | a successful create increases the active count by one, and a rejected one leaves it unchanged |
| Alerts.DeleteAlert | fronted/src/pages/Alerts.tsx:144-145 | keeps, in order, exactly the alerts with another id, every copy of each; the length drops by the number of alerts that carry the id |
| Alerts.DeleteAbsent | fronted/src/pages/Alerts.tsx:144-145 | deleting an id that no alert carries leaves the list unchanged |
| Alerts.DeleteIdempotent | fronted/src/pages/Alerts.tsx:144-145 | deleting the same id twice gives the same result as deleting it once |
| Alerts.ToggleAlert | fronted/src/pages/Alerts.tsx:152-158 | the handler no control calls: same length and order; each alert differs from the original at most in its active flag, and that flag flips exactly on the alerts with the id |
| Alerts.ToggleInvolution | fronted/src/pages/Alerts.tsx:152-157 | toggling the same id twice restores the list |
| Alerts.ToggleAbsent | fronted/src/pages/Alerts.tsx:152-157 | toggling an id that no alert carries changes nothing |
| Alerts.DeleteAfterToggle | fronted/src/pages/Alerts.tsx:144-157 | toggling an alert and then deleting it gives the same list as deleting it directly |
| Alerts.FilterAlerts | fronted/src/pages/Alerts.tsx:161-169 | an order-preserving selection of exactly the alerts whose lower-cased symbol contains the lower-cased term and whose status matches; every copy of a matching alert is kept and every copy of the others dropped |
| Alerts.FilterAllKeepsEverything | fronted/src/pages/Alerts.tsx:161-169 | an empty search with status "all" keeps every alert in place |
| Alerts.FilterUnknownStatus | fronted/src/pages/Alerts.tsx:164-167 | a status other than all/active/inactive hides every alert |
| Alerts.ActiveCount | fronted/src/pages/Alerts.tsx:183 | equals the number of active alerts, counted one by one; at most the number of alerts; equal to it exactly when every alert is active, and zero exactly when none is |
| Alerts.HighProximityCount | fronted/src/pages/Alerts.tsx:184 | equals the number of alerts that are active and above 80% proximity, counted one by one; never more than the active count; zero exactly when no active alert is above 80%, and equal to the active count exactly when every active alert is |
| Alerts.RecurringCount | fronted/src/pages/Alerts.tsx:308 | equals the number of recurring alerts, counted one by one; at most the number of alerts; zero exactly when no alert is recurring, and equal to it exactly when every alert is |
| Alerts.CountsOfOne | fronted/src/pages/Alerts.tsx:183-184 | a single alert counts 1 for the active, high-proximity (active and above 80) and recurring counters exactly when it has that property, and 0 otherwise |
| Alerts.CountsAdditive | fronted/src/pages/Alerts.tsx:183-184 | each counter of a joined list is the sum of the counters of its parts; with the single-alert case this fixes every counter's value |
| AlertSort.Comparator | fronted/src/pages/Alerts.tsx:170-181 | with key "proximity" the first alert sorts no later exactly when its proximity is at least the second's; with "created" exactly when it was created no earlier; with "symbol" exactly when its symbol is no later by code point; any other key ties every pair |
| AlertSort.ComparatorZero | fronted/src/pages/Alerts.tsx:170-181 | the comparator returns 0 exactly when the two alerts tie on the chosen key |
| AlertSort.ComparatorAntisymmetric | fronted/src/pages/Alerts.tsx:170-181 | swapping the two arguments negates the comparator |
| AlertSort.ComparatorTransitive | fronted/src/pages/Alerts.tsx:170-181 | "sorts no later than" is transitive, so the comparator is consistent |
| AlertSort.Sort | fronted/src/pages/Alerts.tsx:170 | the sorted list is a permutation of its input |
| AlertSort.SortSorted | fronted/src/pages/Alerts.tsx:170-181 | every pair in the sorted list is in comparator order |
| AlertSort.SortStable | fronted/src/pages/Alerts.tsx:170-181 | alerts that tie on the key keep their relative order |
| AlertSort.SortUnknownKey | fronted/src/pages/Alerts.tsx:178-179 | a key the comparator does not recognise leaves the order unchanged |
| AlertSort.ListAlerts | fronted/src/pages/Alerts.tsx:161-181 | the listing contains exactly the matching alerts, each as often as before. It is ordered by proximity (non-increasing), creation time (non-increasing) or symbol (ascending) according to the key, and follows list order for any other key |
| AlertSort.ListAllKeepsEverything | fronted/src/pages/Alerts.tsx:161-181 | with no search and status "all" the listing is a permutation of all alerts, and the list itself for an unrecognised key |
| AlertSort.ListStable | fronted/src/pages/Alerts.tsx:170-181 | in the listing, alerts that tie on the key appear in their original order |
| AlertSort.ListUnknownKeyIsSubseq | fronted/src/pages/Alerts.tsx:161-181 | for an unrecognised key the listing is a subsequence of the alert list |
| AlertCard.ProximityColor | fronted/src/components/Alerts/AlertCard.tsx:21-25 | profit band exactly at 90 and above, warning band exactly in [70, 90), loss band exactly below 70 |
| AlertCard.ProximityGlow | fronted/src/components/Alerts/AlertCard.tsx:27-31 | profit glow exactly in the profit colour band, loss glow exactly in the loss band, no glow exactly in the warning band |
| AlertCard.BandMonotone | fronted/src/components/Alerts/AlertCard.tsx:21-25 | a higher proximity never gives a worse colour band |
| AlertCard.PriceDifference | fronted/src/components/Alerts/AlertCard.tsx:40 | non-negative, symmetric in target and current price, and zero exactly when they are equal |
| AlertCard.PercentageDiff | fronted/src/components/Alerts/AlertCard.tsx:41 | for a positive current price: finite and non-negative, zero exactly at the target, and equal to the difference as a percentage of the current price. For a zero current price: NaN exactly when the target is also zero, otherwise +Infinity |
| Positions.FilterPositions | fronted/src/pages/Positions.tsx:113-125 | an order-preserving selection of exactly the positions matching both the status filter and the side filter, every copy of each |
| Positions.FilterPositionsAll | fronted/src/pages/Positions.tsx:113-125 | with both filters at "all", every position is listed in place |
| Positions.OpenPositions | fronted/src/pages/Positions.tsx:128 | an order-preserving selection of exactly the open positions, every copy of each |
| Positions.FilterByStatusExactly | fronted/src/pages/Positions.tsx:114-117 | status "open" lists the open positions in order, and status "closed" lists the closed ones |
| Positions.FilterUnknownValue | fronted/src/pages/Positions.tsx:113-125 | an unrecognised status or side value lists nothing |
| Positions.FilterStatusThenSide | fronted/src/pages/Positions.tsx:113-125 | the combined filter equals filtering by status and then by side |
| Positions.TotalPnL | fronted/src/pages/Positions.tsx:128-129 | the P&L summed over the open positions equals the sum over the whole list in which a closed position contributes zero |
| Positions.TotalMarginUsed | fronted/src/pages/Positions.tsx:128-130 | the margin summed over the open positions equals the sum over the whole list in which a closed position contributes zero |
| Positions.ClosedPositionIgnored | fronted/src/pages/Positions.tsx:128-131 | inserting a closed position anywhere changes neither the open positions, the totals, nor the profitable count |
| Positions.MarginTotalNonNegative | fronted/src/pages/Positions.tsx:130 | when every open position has non-negative margin, the total margin is non-negative |
| Positions.ProfitableCount | fronted/src/pages/Positions.tsx:131 | at most the number of open positions, and equal to the number of positions in the whole list that are both open and in profit, counted one by one |
| Positions.ClosingPercent | fronted/src/pages/Positions.tsx:151-153 | for a positive entry distance: finite, the percentage times the entry distance equals (entry distance - distance) times 100, so the value is ((entry distance - distance) / entry distance) * 100; at most 100; exactly 100 at the level, exactly 0 at the entry distance, negative exactly beyond it. For a zero entry distance: NaN at the level and -Infinity elsewhere |
| Positions.ClosingPercentAtSpan | fronted/src/pages/Positions.tsx:151-153 | a distance equal to a positive entry distance gives exactly 0 |
| Positions.ClosingPercentAntitone | fronted/src/pages/Positions.tsx:151-153 | a smaller distance to the level never gives a lower percentage |
| Positions.ProximityToSL | fronted/src/pages/Positions.tsx:149-154 | null exactly when the stop-loss is missing or zero. Otherwise, when the entry differs from the stop-loss, the value is ((|entry - SL| - |current - SL|) / |entry - SL|) * 100, the figure shown at line 351, and at most 100. The value is exactly 100 at the stop-loss, and NaN or -Infinity when the entry equals the stop-loss |
| Positions.ProximityToSLAtEntry | fronted/src/pages/Positions.tsx:149-154 | a price still at the entry gives 0 |
| Positions.ProximityToSLNegative | fronted/src/pages/Positions.tsx:149-154 | the value is negative exactly when the price is farther from the stop-loss than the entry was |
| Positions.ProximityToSLMonotone | fronted/src/pages/Positions.tsx:149-154 | moving the price closer to the stop-loss never lowers the value |
| Positions.ProximityToTP | fronted/src/pages/Positions.tsx:156-161 | null exactly when the take-profit is missing or zero. Otherwise, when the entry differs from the take-profit, the value is ((|TP - entry| - |TP - current|) / |TP - entry|) * 100, the figure shown at line 366, and at most 100. The value is exactly 100 at the take-profit, and NaN or -Infinity when the entry equals the take-profit |
| Positions.ProximityToTPAtEntry | fronted/src/pages/Positions.tsx:156-161 | a price still at the entry gives 0 |
| Positions.ProximityToTPNegative | fronted/src/pages/Positions.tsx:156-161 | the value is negative exactly when the price is farther from the take-profit than the entry was |
| Positions.ProximityToTPMonotone | fronted/src/pages/Positions.tsx:156-161 | moving the price closer to the take-profit never lowers the value |
| Text.Lower | fronted/src/pages/Alerts.tsx:163 | same length; no upper-case ASCII letter remains; other characters are unchanged |
| Text.Upper | fronted/src/pages/Alerts.tsx:119 | same length; no lower-case ASCII letter remains; other characters are unchanged |
| Text.LowerOfUpper | fronted/src/pages/Alerts.tsx:119-163 | lower-casing an upper-cased symbol gives the same result as lower-casing the original, so the stored symbol is found by the typed one |
| Text.CompareZeroIff | fronted/src/pages/Alerts.tsx:177 | the symbol comparison returns a tie exactly for equal strings |
| Text.CompareTransitive | fronted/src/pages/Alerts.tsx:177 | the symbol ordering is transitive |
| Text.Decimal | fronted/src/pages/Alerts.tsx:118 | the id is a non-empty string of digits whose first character is '0' only for the clock reading 0 |
| Text.DecimalRoundTrip | fronted/src/pages/Alerts.tsx:118 | reading the id back gives the clock reading |
| Text.DecimalInjective | fronted/src/pages/Alerts.tsx:118 | different clock readings give different ids |
| Numbers.Div | fronted/src/pages/Positions.tsx:153 | finite exactly for a non-zero divisor, and then the exact quotient; for a zero divisor, NaN for 0/0 and otherwise the infinity of the dividend's sign |

## Left out

- React state, effects, dialogs, toasts and rendering are left out. Each handler is modelled as the list it passes to the state setter.
- `Math.random()`, `Date.now()` and `new Date()` become inputs: the `Draws` record holds two draws in [0, 1) and two clock readings. The id and `createdAt` are separate readings, as they are in the code.
- `parseFloat` of the target text is left out. The form carries the already parsed price. A text that parses to NaN is not modelled, because reals have no NaN.
- Floating-point rounding is left out. Prices, sums and percentages are exact reals, so `reduce` is an exact sum.
- Text.Compare: `localeCompare` is modelled as a comparison of Unicode code points, character by character, because locale collation tables are outside the model.
- Text.Lower, Text.Upper: only ASCII letters are mapped. Unicode case mapping is not modelled.
- Text.Decimal: only whole, non-negative clock readings are rendered. The exponent form that `toString` uses for huge numbers is not modelled.
- The creation time of an alert is stored as milliseconds since the epoch, the value of `getTime()`, rather than as a `Date` object.
- AlertCard.PercentageDiff: nothing is stated for a negative current price. The code's formula applies unchanged, but the contract covers only positive and zero prices.
- AlertCard.ProximityColor, AlertCard.ProximityGlow: a NaN proximity, which falls into the loss band in the code, has no counterpart among reals.
- `formatPrice`, `formatDateTime` and `toFixed`: locale formatting is presentation only.
- The sample data the pages start with is left out. It is fixed demo content.
- Automatic triggering of alerts when the price crosses the target is left out. The code has no such engine.
- The configuration page, the dashboard, the index page, the connection-status indicator and the stats card are not part of this model.
