/** Driver ranking: `get_top5_drivers`, which groups the table by driver, sums
    each driver's race points, sorts the totals in descending order and keeps
    the first five names. */
module Ranking {
  import opened Frame

  function SumPoints(t: Table): real
  {
    if t == [] then 0.0 else t[0].racePoint + SumPoints(t[1..])
  }

  /** A driver's season total: the sum of Race Point over that driver's rows. */
  function Total(t: Table, driver: string): real
  {
    SumPoints(DriverRows(t, driver))
  }

  /** The driver names present in the table. */
  function Names(t: Table): set<string>
  {
    set r | r in t :: r.driverName
  }

  /** The groupby's keys: every driver name of the table exactly once. */
  function Drivers(t: Table): (ds: seq<string>)
    ensures Distinct(ds)
    ensures forall d :: d in ds <==> d in Names(t)
  {
    if t == [] then []
    else
      var ds := Drivers(t[1..]);
      assert t == [t[0]] + t[1..];
      assert Names(t) == {t[0].driverName} + Names(t[1..]);
      if t[0].driverName in ds then ds else [t[0].driverName] + ds
  }

  /** A row of the grouped frame: a driver name and its summed points. */
  datatype Standing = Standing(driver: string, points: real)

  function Standings(t: Table): seq<Standing>
  {
    var ds := Drivers(t);
    seq(|ds|, i requires 0 <= i < |ds| => Standing(ds[i], Total(t, ds[i])))
  }

  /** `sort_values(by='Race Point', ascending=False)` on the grouped frame. */
  function Ranked(t: Table): seq<Standing>
  {
    SortBy(Standings(t), (s: Standing) => -s.points)
  }

  /** `.head(5)['Driver Name']` of the ranked frame. */
  function Top5(t: Table): (top: seq<string>)
    ensures |top| <= 5
  {
    var ranked := Ranked(t);
    var n := if |ranked| < 5 then |ranked| else 5;
    seq(n, i requires 0 <= i < n => ranked[i].driver)
  }

  /** The ranked frame holds each driver of the table once, with that driver's total. */
  lemma RankedContents(t: Table)
    ensures |Ranked(t)| == |Names(t)|
    ensures Distinct(Ranked(t))
    ensures forall s :: s in Ranked(t) <==> s.driver in Names(t) && s.points == Total(t, s.driver)
  {
    var ds, st, rk := Drivers(t), Standings(t), Ranked(t);
    DistinctCardinality(ds);
    assert (set x | x in ds) == Names(t);
    DistinctPermutation(st, rk);
    forall s ensures s in rk <==> s.driver in Names(t) && s.points == Total(t, s.driver) {
      assert s in rk <==> s in multiset(st);
      if s.driver in Names(t) && s.points == Total(t, s.driver) {
        var i :| 0 <= i < |ds| && ds[i] == s.driver;
        assert st[i] == s;
      }
    }
  }

  /** `get_top5_drivers` returns min(5, number of drivers) distinct names, each
      a driver of the table. */
  lemma Top5Selection(t: Table)
    ensures |Top5(t)| == if |Names(t)| < 5 then |Names(t)| else 5
    ensures Distinct(Top5(t))
    ensures forall d :: d in Top5(t) ==> d in Names(t)
  {
    RankedContents(t);
    var rk, top := Ranked(t), Top5(t);
    forall i, j | 0 <= i < j < |top| ensures top[i] != top[j] {
      assert rk[i] in rk && rk[j] in rk;
    }
    forall d | d in top ensures d in Names(t) {
      var i :| 0 <= i < |top| && top[i] == d;
      assert rk[i] in rk;
    }
  }

  /** The names come out by non-increasing total. */
  lemma Top5Ordered(t: Table)
    ensures forall i, j :: 0 <= i < j < |Top5(t)| ==> Total(t, Top5(t)[i]) >= Total(t, Top5(t)[j])
  {
    RankedContents(t);
    var rk, top := Ranked(t), Top5(t);
    forall i, j | 0 <= i < j < |top| ensures Total(t, top[i]) >= Total(t, top[j]) {
      assert rk[i] in rk && rk[j] in rk;
      assert -rk[i].points <= -rk[j].points;
    }
  }

  /** A ranked entry past the first five totals no more than any of the first five. */
  lemma {:induction false} PastTop5(t: Table, k: int, i: int)
    requires 0 <= i < |Top5(t)| && |Top5(t)| <= k < |Ranked(t)|
    ensures Ranked(t)[k].points <= Total(t, Top5(t)[i])
  {
    RankedContents(t);
    var rk := Ranked(t);
    assert Top5(t)[i] == rk[i].driver;
    assert rk[i] in rk;
    assert -rk[i].points <= -rk[k].points;
  }

  /** No driver left out of the top five has a larger total than one kept in it. */
  lemma Top5Dominates(t: Table)
    ensures forall d, i :: d in Names(t) && d !in Top5(t) && 0 <= i < |Top5(t)| ==>
      Total(t, d) <= Total(t, Top5(t)[i])
  {
    RankedContents(t);
    var rk, top := Ranked(t), Top5(t);
    forall d, i | d in Names(t) && d !in top && 0 <= i < |top| ensures Total(t, d) <= Total(t, top[i]) {
      var s := Standing(d, Total(t, d));
      assert s in rk;
      var k :| 0 <= k < |rk| && rk[k] == s;
      assert forall j :: 0 <= j < |top| ==> top[j] == rk[j].driver;
      assert k >= |top|;
      PastTop5(t, k, i);
    }
  }

  /** Two tables whose rows agree, one by one, on driver name and points. */
  predicate SamePointsColumns(t: Table, u: Table)
  {
    |t| == |u| && forall i :: 0 <= i < |t| ==> t[i].driverName == u[i].driverName && t[i].racePoint == u[i].racePoint
  }

  lemma {:induction false} SamePointsDrivers(t: Table, u: Table)
    requires SamePointsColumns(t, u)
    ensures Drivers(t) == Drivers(u)
  {
    if t != [] {
      assert SamePointsColumns(t[1..], u[1..]);
      SamePointsDrivers(t[1..], u[1..]);
    }
  }

  lemma {:induction false} SamePointsSum(t: Table, u: Table)
    requires SamePointsColumns(t, u)
    ensures SumPoints(t) == SumPoints(u)
  {
    if t != [] {
      assert SamePointsColumns(t[1..], u[1..]);
      SamePointsSum(t[1..], u[1..]);
    }
  }

  lemma {:induction false} SamePointsSelection(t: Table, u: Table, d: string)
    requires SamePointsColumns(t, u)
    ensures SamePointsColumns(DriverRows(t, d), DriverRows(u, d))
  {
    if t != [] {
      assert SamePointsColumns(t[1..], u[1..]);
      SamePointsSelection(t[1..], u[1..], d);
    }
  }

  /** The ranking reads only the Driver Name and Race Point columns: tables that
      agree on them have the same top five. */
  lemma Top5ReadsPointsOnly(t: Table, u: Table)
    requires SamePointsColumns(t, u)
    ensures Top5(t) == Top5(u)
  {
    SamePointsDrivers(t, u);
    forall d ensures Total(t, d) == Total(u, d) {
      SamePointsSelection(t, u, d);
      SamePointsSum(DriverRows(t, d), DriverRows(u, d));
    }
    assert Standings(t) == Standings(u);
  }
}
