/**
  The price-alert list of the alerts page: creating an alert from the form,
  deleting and toggling alerts by id, the search/status filter, and the
  summary counters. The list is an immutable sequence; every handler returns
  the next list instead of calling the state setter.
 */
module Alerts {
  import opened Seqs
  import opened Text

  datatype Direction = Above | Below

  datatype Alert = Alert(
    id: string,
    symbol: string,
    targetPrice: real,
    currentPrice: real,
    direction: Direction,
    proximity: real,
    createdAt: int,       // milliseconds since the epoch
    isRecurring: bool,
    isActive: bool)

  /** A draw of `Math.random()`. */
  type Fraction = r: real | 0.0 <= r < 1.0

  /** The create-alert form: the raw symbol and target-price texts, the
      target price already parsed from its text, and the two choices. */
  datatype Form = Form(
    symbol: string,
    targetText: string,
    targetPrice: real,
    direction: Direction,
    isRecurring: bool)

  /** What the create handler reads from its environment: the clock reading
      that becomes the id, the clock reading stored as the creation time, and
      the two random draws for the simulated price and proximity. */
  datatype Draws = Draws(now: nat, createdAt: int, priceDraw: Fraction, proximityDraw: Fraction)

  /** Both text fields are filled in. */
  predicate FormComplete(f: Form)
  {
    f.symbol != "" && f.targetText != ""
  }

  /** The alert a complete form produces. The simulated current price lies
      within 20% of the target and the simulated proximity in [0, 100). */
  function NewAlert(f: Form, d: Draws): (a: Alert)
    ensures a.id == Decimal(d.now)
    ensures a.symbol == Upper(f.symbol)
    ensures a.targetPrice == f.targetPrice
    ensures a.direction == f.direction && a.isRecurring == f.isRecurring
    ensures a.createdAt == d.createdAt
    ensures a.isActive
    ensures 0.0 <= a.proximity < 100.0
    ensures f.targetPrice > 0.0 ==>
      0.8 * f.targetPrice <= a.currentPrice < 1.2 * f.targetPrice
  {
    var t := f.targetPrice;
    var u := d.priceDraw;
    assert t > 0.0 ==> t * u * 0.4 < t * 0.4 by {
      if t > 0.0 {
        assert t * u < t * 1.0;
      }
    }
    Alert(
      id := Decimal(d.now),
      symbol := Upper(f.symbol),
      targetPrice := t,
      currentPrice := t * (0.8 + u * 0.4),
      direction := f.direction,
      proximity := d.proximityDraw * 100.0,
      createdAt := d.createdAt,
      isRecurring := f.isRecurring,
      isActive := true)
  }

  /** `handleCreateAlert`: an incomplete form leaves the list as it is;
      a complete one appends exactly one new alert after the existing ones. */
  function CreateAlert(alerts: seq<Alert>, f: Form, d: Draws): (r: seq<Alert>)
    ensures !FormComplete(f) ==> r == alerts
    ensures FormComplete(f) ==>
      |r| == |alerts| + 1 && r[..|alerts|] == alerts && r[|alerts|] == NewAlert(f, d)
  {
    if !FormComplete(f) then alerts
    else alerts + [NewAlert(f, d)]
  }

  function HasId(id: string): Alert -> bool
  {
    (a: Alert) => a.id == id
  }

  function OtherId(id: string): Alert -> bool
  {
    (a: Alert) => a.id != id
  }

  /** `handleDeleteAlert`: keeps, in order, exactly the alerts with another
      id; its length drops by the number of alerts carrying `id`. */
  function DeleteAlert(alerts: seq<Alert>, id: string): (r: seq<Alert>)
    ensures IsSubseq(r, alerts)
    ensures forall a :: a in r <==> a in alerts && a.id != id
    ensures |r| + |Filter(alerts, HasId(id))| == |alerts|
    ensures forall a :: multiset(r)[a] == if a.id != id then multiset(alerts)[a] else 0
  {
    FilterIsSubseq(alerts, OtherId(id));
    FilterCount(alerts, OtherId(id));
    FilterPartition(alerts, OtherId(id), HasId(id));
    Filter(alerts, OtherId(id))
  }

  /** Deleting an id no alert carries changes nothing. */
  lemma DeleteAbsent(alerts: seq<Alert>, id: string)
    requires forall a :: a in alerts ==> a.id != id
    ensures DeleteAlert(alerts, id) == alerts
  {
    FilterKeepsAll(alerts, OtherId(id));
  }

  /** Deleting twice is deleting once. */
  lemma DeleteIdempotent(alerts: seq<Alert>, id: string)
    ensures DeleteAlert(DeleteAlert(alerts, id), id) == DeleteAlert(alerts, id)
  {
    FilterKeepsAll(DeleteAlert(alerts, id), OtherId(id));
  }

  /** `handleToggleAlert`: same length and order; each alert differs from the
      original at most in `isActive`, which flips exactly on the alerts
      carrying `id`. The page defines this handler but no control calls it:
      the card receives only the delete callback. */
  function ToggleAlert(alerts: seq<Alert>, id: string): (r: seq<Alert>)
    ensures |r| == |alerts|
    ensures forall i :: 0 <= i < |r| ==> r[i].(isActive := alerts[i].isActive) == alerts[i]
    ensures forall i :: 0 <= i < |r| ==> (r[i].isActive != alerts[i].isActive <==> alerts[i].id == id)
  {
    seq(|alerts|, i requires 0 <= i < |alerts| =>
      if alerts[i].id == id then alerts[i].(isActive := !alerts[i].isActive) else alerts[i])
  }

  /** Toggling the same id twice restores the list. */
  lemma ToggleInvolution(alerts: seq<Alert>, id: string)
    ensures ToggleAlert(ToggleAlert(alerts, id), id) == alerts
  {
    var once := ToggleAlert(alerts, id);
    var twice := ToggleAlert(once, id);
    forall i | 0 <= i < |alerts|
      ensures twice[i] == alerts[i]
    {
      assert once[i].id == alerts[i].id;
    }
  }

  /** Toggling an id no alert carries changes nothing. */
  lemma ToggleAbsent(alerts: seq<Alert>, id: string)
    requires forall a :: a in alerts ==> a.id != id
    ensures ToggleAlert(alerts, id) == alerts
  {
    var r := ToggleAlert(alerts, id);
    forall i | 0 <= i < |alerts|
      ensures r[i] == alerts[i]
    {
      assert alerts[i] in alerts;
    }
  }

  /** Toggling does not change which alerts survive the delete filter. */
  lemma {:induction false} KeepOthersAfterToggle(alerts: seq<Alert>, id: string)
    ensures Filter(ToggleAlert(alerts, id), OtherId(id)) == Filter(alerts, OtherId(id))
    decreases |alerts|
  {
    if |alerts| > 0 {
      var t := ToggleAlert(alerts, id);
      var keep := OtherId(id);
      KeepOthersAfterToggle(alerts[1..], id);
      assert t[1..] == ToggleAlert(alerts[1..], id);
      if alerts[0].id == id {
        assert Filter(t, keep) == Filter(t[1..], keep);
        assert Filter(alerts, keep) == Filter(alerts[1..], keep);
      } else {
        assert t[0] == alerts[0];
        assert Filter(t, keep) == [t[0]] + Filter(t[1..], keep);
        assert Filter(alerts, keep) == [alerts[0]] + Filter(alerts[1..], keep);
      }
    }
  }

  /** Toggling an alert before deleting it makes no difference. */
  lemma DeleteAfterToggle(alerts: seq<Alert>, id: string)
    ensures DeleteAlert(ToggleAlert(alerts, id), id) == DeleteAlert(alerts, id)
  {
    KeepOthersAfterToggle(alerts, id);
  }

  /** The `matchesStatus` part of the filter: `"all"`, `"active"` and
      `"inactive"` are recognised; any other value matches nothing. */
  predicate StatusMatches(status: string, active: bool)
  {
    status == "all" || (status == "active" && active) || (status == "inactive" && !active)
  }

  /** The filter predicate: the lower-cased symbol contains the lower-cased
      search term, and the status matches. */
  predicate Matches(term: string, status: string, a: Alert)
  {
    Includes(Lower(a.symbol), Lower(term)) && StatusMatches(status, a.isActive)
  }

  function MatchesFn(term: string, status: string): Alert -> bool
  {
    (a: Alert) => Matches(term, status, a)
  }

  /** The filter stage of `filteredAlerts`: an order-preserving selection of
      exactly the matching alerts. */
  function FilterAlerts(alerts: seq<Alert>, term: string, status: string): (r: seq<Alert>)
    ensures IsSubseq(r, alerts)
    ensures forall a :: a in r <==> a in alerts && Matches(term, status, a)
    ensures forall a :: multiset(r)[a] == if Matches(term, status, a) then multiset(alerts)[a] else 0
  {
    FilterIsSubseq(alerts, MatchesFn(term, status));
    FilterCount(alerts, MatchesFn(term, status));
    Filter(alerts, MatchesFn(term, status))
  }

  /** An empty search with status `"all"` keeps every alert. */
  lemma FilterAllKeepsEverything(alerts: seq<Alert>)
    ensures FilterAlerts(alerts, "", "all") == alerts
  {
    forall a | a in alerts
      ensures Matches("", "all", a)
    {
      IncludesTrivial(Lower(a.symbol));
    }
    FilterKeepsAll(alerts, MatchesFn("", "all"));
  }

  /** An unrecognised status value hides every alert. */
  lemma FilterUnknownStatus(alerts: seq<Alert>, term: string, status: string)
    requires status != "all" && status != "active" && status != "inactive"
    ensures FilterAlerts(alerts, term, status) == []
  {
    FilterKeepsNone(alerts, MatchesFn(term, status));
  }

  /** A freshly created alert is found by searching for the symbol as it was
      typed, in any letter case, under the `"active"` status. */
  lemma CreatedAlertIsFound(alerts: seq<Alert>, f: Form, d: Draws)
    requires FormComplete(f)
    ensures NewAlert(f, d) in FilterAlerts(CreateAlert(alerts, f, d), f.symbol, "active")
  {
    var r := CreateAlert(alerts, f, d);
    assert r[|alerts|] in r;
    LowerOfUpper(f.symbol);
    IncludesTrivial(Lower(f.symbol));
  }

  predicate IsActive(a: Alert) { a.isActive }

  predicate IsHighProximity(a: Alert) { a.proximity > 80.0 && a.isActive }

  predicate IsRecurringAlert(a: Alert) { a.isRecurring }

  predicate IsAbove80(a: Alert) { a.proximity > 80.0 }

  /** `activeAlertsCount`: the number of active alerts. At most the number
      of alerts, equal to it exactly when every alert is active, and zero
      exactly when none is. */
  function ActiveCount(alerts: seq<Alert>): (n: nat)
    ensures n <= |alerts|
    ensures n == Count(alerts, IsActive)
    ensures n == |alerts| <==> forall a :: a in alerts ==> a.isActive
    ensures n == 0 <==> forall a :: a in alerts ==> !a.isActive
  {
    FilterFullIff(alerts, IsActive);
    FilterLength(alerts, IsActive);
    FilterEmptyIff(alerts, IsActive);
    |Filter(alerts, IsActive)|
  }

  /** `highProximityCount`: the active alerts above 80% proximity. Never
      more than the active ones; zero exactly when no active alert is above
      80%, and all of them exactly when every active alert is. */
  function HighProximityCount(alerts: seq<Alert>): (n: nat)
    ensures n == Count(alerts, IsHighProximity)
    ensures n <= ActiveCount(alerts)
    ensures n == 0 <==> forall a :: a in alerts && a.isActive ==> a.proximity <= 80.0
    ensures n == ActiveCount(alerts) <==> forall a :: a in alerts && a.isActive ==> a.proximity > 80.0
  {
    var active := Filter(alerts, IsActive);
    FilterFilter(alerts, IsActive, IsAbove80, IsHighProximity);
    FilterFullIff(active, IsAbove80);
    FilterEmptyIff(alerts, IsHighProximity);
    FilterLength(alerts, IsHighProximity);
    |Filter(alerts, IsHighProximity)|
  }

  /** The recurring-alerts counter of the page: the number of recurring
      alerts. At most the number of
      alerts, zero exactly when none is recurring, and all of them exactly
      when every one is. */
  function RecurringCount(alerts: seq<Alert>): (n: nat)
    ensures n == Count(alerts, IsRecurringAlert)
    ensures n <= |alerts|
    ensures n == 0 <==> forall a :: a in alerts ==> !a.isRecurring
    ensures n == |alerts| <==> forall a :: a in alerts ==> a.isRecurring
  {
    FilterEmptyIff(alerts, IsRecurringAlert);
    FilterLength(alerts, IsRecurringAlert);
    FilterFullIff(alerts, IsRecurringAlert);
    |Filter(alerts, IsRecurringAlert)|
  }

  /** The three counters count alert by alert: a single alert counts 1 when
      it has the property and 0 otherwise, and the count of a joined list is
      the sum of the counts of its parts. Together these fix every counter's
      value on every list. */
  lemma CountsOfOne(a: Alert)
    ensures ActiveCount([a]) == if a.isActive then 1 else 0
    ensures HighProximityCount([a]) == if a.isActive && a.proximity > 80.0 then 1 else 0
    ensures RecurringCount([a]) == if a.isRecurring then 1 else 0
  {
    assert [a][1..] == [];
  }

  lemma CountsAdditive(s: seq<Alert>, t: seq<Alert>)
    ensures ActiveCount(s + t) == ActiveCount(s) + ActiveCount(t)
    ensures HighProximityCount(s + t) == HighProximityCount(s) + HighProximityCount(t)
    ensures RecurringCount(s + t) == RecurringCount(s) + RecurringCount(t)
  {
    FilterConcat(s, t, IsActive);
    FilterConcat(s, t, IsHighProximity);
    FilterConcat(s, t, IsRecurringAlert);
  }

  /** A successful create adds one to the active count (new alerts start
      active); a rejected one leaves it. */
  lemma CreateActiveCount(alerts: seq<Alert>, f: Form, d: Draws)
    ensures ActiveCount(CreateAlert(alerts, f, d)) ==
      ActiveCount(alerts) + (if FormComplete(f) then 1 else 0)
  {
    if FormComplete(f) {
      FilterConcat(alerts, [NewAlert(f, d)], IsActive);
    }
  }
}
