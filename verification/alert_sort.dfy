/**
  The sort stage of the alerts page's `filteredAlerts` pipeline. The page
  sorts with `Array.prototype.sort`, which is stable, and a comparator chosen
  by the `sortBy` key: proximity descending, creation time descending, symbol
  ascending, and 0 for any other key. The model sorts by stable insertion; a
  stable sort under a consistent comparator has exactly one possible output,
  so the choice of algorithm does not change the result.
 */
module AlertSort {
  import opened Seqs
  import Text
  import opened Alerts

  /** The page's comparator: negative when `a` goes before `b`, positive
      when after, zero for a tie. Higher proximity and later creation go
      first; symbols go in ascending order; an unknown key ties everything. */
  function Comparator(sortBy: string, a: Alert, b: Alert): (c: real)
    ensures sortBy == "proximity" ==> (c <= 0.0 <==> a.proximity >= b.proximity)
    ensures sortBy == "created" ==> (c <= 0.0 <==> a.createdAt >= b.createdAt)
    ensures sortBy == "symbol" ==> (c <= 0.0 <==> Text.LessEq(a.symbol, b.symbol))
    ensures sortBy != "proximity" && sortBy != "created" && sortBy != "symbol" ==> c == 0.0
  {
    if sortBy == "proximity" then b.proximity - a.proximity
    else if sortBy == "created" then (b.createdAt - a.createdAt) as real
    else if sortBy == "symbol" then Text.Compare(a.symbol, b.symbol) as real
    else 0.0
  }

  /** `a` and `b` tie on the sort key. */
  predicate SameRank(sortBy: string, a: Alert, b: Alert)
  {
    if sortBy == "proximity" then a.proximity == b.proximity
    else if sortBy == "created" then a.createdAt == b.createdAt
    else if sortBy == "symbol" then a.symbol == b.symbol
    else true
  }

  function SameRankAs(sortBy: string, a: Alert): Alert -> bool
  {
    (b: Alert) => SameRank(sortBy, a, b)
  }

  /** Every adjacent or distant pair is in comparator order. */
  ghost predicate Sorted(sortBy: string, s: seq<Alert>)
  {
    forall i, j :: 0 <= i < j < |s| ==> Comparator(sortBy, s[i], s[j]) <= 0.0
  }

  /** The comparator reports a tie exactly on equal keys. */
  lemma ComparatorZero(sortBy: string, a: Alert, b: Alert)
    ensures Comparator(sortBy, a, b) == 0.0 <==> SameRank(sortBy, a, b)
  {
    if sortBy == "symbol" {
      Text.CompareZeroIff(a.symbol, b.symbol);
    }
  }

  /** Swapping the arguments negates the comparator. */
  lemma ComparatorAntisymmetric(sortBy: string, a: Alert, b: Alert)
    ensures Comparator(sortBy, b, a) == -Comparator(sortBy, a, b)
  {
    if sortBy == "symbol" {
      Text.CompareAntisymmetric(a.symbol, b.symbol);
    }
  }

  /** "Goes no later than" is transitive. */
  lemma ComparatorTransitive(sortBy: string, a: Alert, b: Alert, c: Alert)
    requires Comparator(sortBy, a, b) <= 0.0 && Comparator(sortBy, b, c) <= 0.0
    ensures Comparator(sortBy, a, c) <= 0.0
  {
    if sortBy == "symbol" {
      Text.CompareTransitive(a.symbol, b.symbol, c.symbol);
    }
  }

  /** Places `x`, which came before everything in `t`, ahead of the first
      element it does not sort strictly after. */
  function Insert(sortBy: string, x: Alert, t: seq<Alert>): (r: seq<Alert>)
    ensures multiset(r) == multiset(t) + multiset{x}
    decreases |t|
  {
    if |t| == 0 then [x]
    else if Comparator(sortBy, x, t[0]) <= 0.0 then [x] + t
    else
      assert t == [t[0]] + t[1..];
      [t[0]] + Insert(sortBy, x, t[1..])
  }

  /** Stable insertion sort: the result is a permutation of `s`. */
  function Sort(sortBy: string, s: seq<Alert>): (r: seq<Alert>)
    ensures multiset(r) == multiset(s)
    decreases |s|
  {
    if |s| == 0 then []
    else
      assert s == [s[0]] + s[1..];
      Insert(sortBy, s[0], Sort(sortBy, s[1..]))
  }

  /** Sorting neither adds nor drops a member. */
  lemma SortSameMembers(sortBy: string, s: seq<Alert>)
    ensures forall a :: a in Sort(sortBy, s) <==> a in s
  {
    var r := Sort(sortBy, s);
    assert forall a :: a in r <==> a in multiset(r);
    assert forall a :: a in s <==> a in multiset(s);
  }

  /** Putting in front of a sorted list an element that goes no later than
      any of its members gives a sorted list. */
  lemma ConsSorted(sortBy: string, y: Alert, rest: seq<Alert>)
    requires Sorted(sortBy, rest)
    requires forall z :: z in rest ==> Comparator(sortBy, y, z) <= 0.0
    ensures Sorted(sortBy, [y] + rest)
  {
    var r := [y] + rest;
    forall i, j | 0 <= i < j < |r|
      ensures Comparator(sortBy, r[i], r[j]) <= 0.0
    {
      assert r[j] == rest[j - 1];
      if i == 0 {
        assert rest[j - 1] in rest;
      } else {
        assert r[i] == rest[i - 1];
      }
    }
  }

  /** The head of a sorted list goes no later than anything after it, and
      the tail is sorted. */
  lemma SortedSplit(sortBy: string, t: seq<Alert>)
    requires Sorted(sortBy, t) && |t| > 0
    ensures Sorted(sortBy, t[1..])
    ensures forall z :: z in t[1..] ==> Comparator(sortBy, t[0], z) <= 0.0
  {
    forall i, j | 0 <= i < j < |t[1..]|
      ensures Comparator(sortBy, t[1..][i], t[1..][j]) <= 0.0
    {
      assert t[1..][i] == t[i + 1] && t[1..][j] == t[j + 1];
    }
    forall z | z in t[1..]
      ensures Comparator(sortBy, t[0], z) <= 0.0
    {
      var k :| 0 <= k < |t[1..]| && t[1..][k] == z;
      assert t[k + 1] == z;
    }
  }

  /** Inserting into a sorted list keeps it sorted. */
  lemma {:induction false} InsertSorted(sortBy: string, x: Alert, t: seq<Alert>)
    requires Sorted(sortBy, t)
    ensures Sorted(sortBy, Insert(sortBy, x, t))
    decreases |t|
  {
    if |t| == 0 {
    } else {
      SortedSplit(sortBy, t);
      if Comparator(sortBy, x, t[0]) <= 0.0 {
        forall z | z in t
          ensures Comparator(sortBy, x, z) <= 0.0
        {
          if z != t[0] {
            assert t == [t[0]] + t[1..];
            ComparatorTransitive(sortBy, x, t[0], z);
          }
        }
        ConsSorted(sortBy, x, t);
      } else {
        var rest := Insert(sortBy, x, t[1..]);
        InsertSorted(sortBy, x, t[1..]);
        forall z | z in rest
          ensures Comparator(sortBy, t[0], z) <= 0.0
        {
          assert z in multiset(rest);
          if z == x {
            ComparatorAntisymmetric(sortBy, x, t[0]);
          } else {
            assert z in multiset(t[1..]);
          }
        }
        ConsSorted(sortBy, t[0], rest);
      }
    }
  }

  /** The sort's output is in comparator order. */
  lemma {:induction false} SortSorted(sortBy: string, s: seq<Alert>)
    ensures Sorted(sortBy, Sort(sortBy, s))
    decreases |s|
  {
    if |s| > 0 {
      SortSorted(sortBy, s[1..]);
      InsertSorted(sortBy, s[0], Sort(sortBy, s[1..]));
    }
  }

  /** `x` lands ahead of every element that ties with it. */
  lemma {:induction false} InsertStable(sortBy: string, x: Alert, t: seq<Alert>, a: Alert)
    ensures Filter(Insert(sortBy, x, t), SameRankAs(sortBy, a)) ==
      (if SameRank(sortBy, a, x) then [x] else []) + Filter(t, SameRankAs(sortBy, a))
    decreases |t|
  {
    var p := SameRankAs(sortBy, a);
    var r := Insert(sortBy, x, t);
    if |t| == 0 {
    } else if Comparator(sortBy, x, t[0]) <= 0.0 {
      assert r[0] == x && r[1..] == t;
    } else {
      InsertStable(sortBy, x, t[1..], a);
      ComparatorZero(sortBy, x, t[0]);
      assert r[0] == t[0] && r[1..] == Insert(sortBy, x, t[1..]);
      assert t == [t[0]] + t[1..];
    }
  }

  /** Stability: the alerts of any one rank keep their original relative
      order. */
  lemma {:induction false} SortStable(sortBy: string, s: seq<Alert>, a: Alert)
    ensures Filter(Sort(sortBy, s), SameRankAs(sortBy, a)) == Filter(s, SameRankAs(sortBy, a))
    decreases |s|
  {
    if |s| > 0 {
      var p := SameRankAs(sortBy, a);
      var t := Sort(sortBy, s[1..]);
      SortStable(sortBy, s[1..], a);
      InsertStable(sortBy, s[0], t, a);
      assert Sort(sortBy, s) == Insert(sortBy, s[0], t);
      assert Filter(s, p) == (if p(s[0]) then [s[0]] else []) + Filter(s[1..], p);
    }
  }

  /** A key the comparator does not recognise leaves the order alone. */
  lemma {:induction false} SortUnknownKey(sortBy: string, s: seq<Alert>)
    requires sortBy != "proximity" && sortBy != "created" && sortBy != "symbol"
    ensures Sort(sortBy, s) == s
    decreases |s|
  {
    if |s| > 0 {
      SortUnknownKey(sortBy, s[1..]);
      assert s == [s[0]] + s[1..];
    }
  }

  /** `filteredAlerts`: the matching alerts, reordered by the chosen key.
      The result holds exactly the matching alerts, as often as they occur,
      in key order, and in list order when the key is not recognised. */
  function ListAlerts(alerts: seq<Alert>, term: string, status: string, sortBy: string): (r: seq<Alert>)
    ensures multiset(r) == multiset(FilterAlerts(alerts, term, status))
    ensures forall a :: a in r <==> a in alerts && Matches(term, status, a)
    ensures Sorted(sortBy, r)
    ensures sortBy == "proximity" ==>
      forall i, j :: 0 <= i < j < |r| ==> r[i].proximity >= r[j].proximity
    ensures sortBy == "created" ==>
      forall i, j :: 0 <= i < j < |r| ==> r[i].createdAt >= r[j].createdAt
    ensures sortBy == "symbol" ==>
      forall i, j :: 0 <= i < j < |r| ==> Text.LessEq(r[i].symbol, r[j].symbol)
    ensures sortBy != "proximity" && sortBy != "created" && sortBy != "symbol" ==>
      r == FilterAlerts(alerts, term, status)
  {
    var kept := FilterAlerts(alerts, term, status);
    SortSorted(sortBy, kept);
    if sortBy != "proximity" && sortBy != "created" && sortBy != "symbol" then
      SortUnknownKey(sortBy, kept);
      Sort(sortBy, kept)
    else
      SortSameMembers(sortBy, kept);
      Sort(sortBy, kept)
  }

  /** With an empty search and status `"all"`, the page lists every alert:
      a permutation of the whole list, and the list itself when the key is
      not recognised. */
  lemma ListAllKeepsEverything(alerts: seq<Alert>, sortBy: string)
    ensures multiset(ListAlerts(alerts, "", "all", sortBy)) == multiset(alerts)
    ensures sortBy != "proximity" && sortBy != "created" && sortBy != "symbol" ==>
      ListAlerts(alerts, "", "all", sortBy) == alerts
  {
    FilterAllKeepsEverything(alerts);
  }

  /** Alerts that tie on the sort key are listed in their original relative
      order (the stability `Array.prototype.sort` guarantees). */
  lemma ListStable(alerts: seq<Alert>, term: string, status: string, sortBy: string, a: Alert)
    ensures Filter(ListAlerts(alerts, term, status, sortBy), SameRankAs(sortBy, a)) ==
      Filter(FilterAlerts(alerts, term, status), SameRankAs(sortBy, a))
  {
    SortStable(sortBy, FilterAlerts(alerts, term, status), a);
  }

  /** For an unrecognised key the listing is a subsequence of the alerts. */
  lemma ListUnknownKeyIsSubseq(alerts: seq<Alert>, term: string, status: string, sortBy: string)
    requires sortBy != "proximity" && sortBy != "created" && sortBy != "symbol"
    ensures IsSubseq(ListAlerts(alerts, term, status, sortBy), alerts)
  {
  }
}
