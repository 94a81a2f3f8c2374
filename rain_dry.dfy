/** Rain/dry segmentation: `categorize_weather` splits the table on the
    Rainfall flag, `calculate_avg_position` averages a driver's positions in
    one part, and `plot_rainy_vs_dry` collects both averages for each listed
    driver. */
module RainDry {
  import opened Frame

  const Rainy: Row -> bool := (r: Row) => r.rainfall
  const Dry: Row -> bool := (r: Row) => !r.rainfall

  /** `categorize_weather`: (rows where Rainfall is True, rows where it is False). */
  function CategorizeWeather(t: Table): (r: (Table, Table))
    ensures |r.0| + |r.1| == |t|
  {
    WherePartition(t, Rainy, Dry);
    assert |multiset(Where(t, Rainy)) + multiset(Where(t, Dry))| == |multiset(t)|;
    (Where(t, Rainy), Where(t, Dry))
  }

  /** The split is a partition: the rainy side holds only rainy rows, the dry side
      only dry rows, every row of the table lands on exactly one side, and each
      side keeps table order. */
  lemma CategorizePartition(t: Table)
    ensures var (rainy, dry) := CategorizeWeather(t);
      && (forall x :: x in rainy ==> x.rainfall)
      && (forall x :: x in dry ==> !x.rainfall)
      && multiset(rainy) + multiset(dry) == multiset(t)
      && |rainy| + |dry| == |t|
      && |rainy| == |Matches(t, Rainy)| && (forall k :: 0 <= k < |rainy| ==> rainy[k] == t[Matches(t, Rainy)[k]])
      && |dry| == |Matches(t, Dry)| && (forall k :: 0 <= k < |dry| ==> dry[k] == t[Matches(t, Dry)[k]])
  {
    assert CategorizeWeather(t) == (Where(t, Rainy), Where(t, Dry));
    WherePartition(t, Rainy, Dry);
    WhereMembers(t, Rainy);
    WhereMembers(t, Dry);
    WhereIsSubsequence(t, Rainy);
    WhereIsSubsequence(t, Dry);
  }

  function SumPositions(t: Table): int
  {
    if t == [] then 0 else t[0].position + SumPositions(t[1..])
  }

  /** `calculate_avg_position`: the mean Position of the driver's rows; `None`
      where the source's mean of no rows is NaN. */
  function AveragePosition(t: Table, driver: string): (r: Option<real>)
    ensures r.None? <==> forall i :: 0 <= i < |t| ==> t[i].driverName != driver
  {
    var rows := DriverRows(t, driver);
    WhereMembers(t, ByDriver(driver));
    if rows == [] then
      assert forall i :: 0 <= i < |t| ==> t[i] !in rows;
      None
    else
      assert rows[0] in rows;
      Some(Mean(rows))
  }

  /** `.mean()` of the Position column of a non-empty table. */
  function Mean(rows: Table): real
    requires rows != []
  {
    SumPositions(rows) as real / |rows| as real
  }

  lemma {:induction false} SumAbove(s: Table, m: real)
    requires forall i :: 0 <= i < |s| ==> s[i].position as real > m
    ensures s != [] ==> SumPositions(s) as real > |s| as real * m
  {
    if |s| > 1 {
      SumAbove(s[1..], m);
    }
  }

  lemma {:induction false} SumBelow(s: Table, m: real)
    requires forall i :: 0 <= i < |s| ==> s[i].position as real < m
    ensures s != [] ==> SumPositions(s) as real < |s| as real * m
  {
    if |s| > 1 {
      SumBelow(s[1..], m);
    }
  }

  /** Some row is at or below the mean, some row at or above it. */
  lemma MeanBetween(rows: Table)
    requires rows != []
    ensures exists k :: 0 <= k < |rows| && rows[k].position as real <= Mean(rows)
    ensures exists k :: 0 <= k < |rows| && rows[k].position as real >= Mean(rows)
  {
    var m := Mean(rows);
    MeanTimesCount(rows);
    if !exists k :: 0 <= k < |rows| && rows[k].position as real <= m {
      SumAbove(rows, m);
    }
    if !exists k :: 0 <= k < |rows| && rows[k].position as real >= m {
      SumBelow(rows, m);
    }
  }

  lemma MeanTimesCount(rows: Table)
    requires rows != []
    ensures |rows| as real * Mean(rows) == SumPositions(rows) as real
  {
  }

  /** The average is missing exactly when the driver has no row, and otherwise
      lies between the driver's lowest and highest position: some row of the
      driver is at or below it and some row at or above it. */
  lemma AveragePositionBounds(t: Table, driver: string)
    ensures AveragePosition(t, driver).None? <==> forall i :: 0 <= i < |t| ==> t[i].driverName != driver
    ensures AveragePosition(t, driver).Some? ==>
      var m := AveragePosition(t, driver).value;
      && (exists i :: 0 <= i < |t| && t[i].driverName == driver && t[i].position as real <= m)
      && (exists i :: 0 <= i < |t| && t[i].driverName == driver && t[i].position as real >= m)
  {
    var keep := ByDriver(driver);
    var rows, idx := DriverRows(t, driver), Matches(t, keep);
    WhereIsSubsequence(t, keep);
    forall i | 0 <= i < |t| && t[i].driverName == driver ensures rows != [] {
      assert i in idx;
    }
    if rows != [] {
      var m := AveragePosition(t, driver).value;
      MeanBetween(rows);
      var lo :| 0 <= lo < |rows| && rows[lo].position as real <= m;
      assert t[idx[lo]] == rows[lo];
      var hi :| 0 <= hi < |rows| && rows[hi].position as real >= m;
      assert t[idx[hi]] == rows[hi];
    }
  }

  /** The loop of `plot_rainy_vs_dry`: for each listed driver, in list order,
      the average position in rainy races and in dry races. */
  method RainyVsDry(t: Table, top5: seq<string>) returns (rainyPositions: seq<Option<real>>, dryPositions: seq<Option<real>>)
    ensures |rainyPositions| == |top5| && |dryPositions| == |top5|
    ensures forall i :: 0 <= i < |top5| ==>
      && rainyPositions[i] == AveragePosition(CategorizeWeather(t).0, top5[i])
      && dryPositions[i] == AveragePosition(CategorizeWeather(t).1, top5[i])
  {
    var (rainy, dry) := CategorizeWeather(t);
    rainyPositions, dryPositions := [], [];
    for k := 0 to |top5|
      invariant |rainyPositions| == k && |dryPositions| == k
      invariant forall i :: 0 <= i < k ==>
        rainyPositions[i] == AveragePosition(rainy, top5[i]) && dryPositions[i] == AveragePosition(dry, top5[i])
    {
      var driver := top5[k];
      var rainyAvg := AveragePosition(rainy, driver);
      var dryAvg := AveragePosition(dry, driver);
      rainyPositions := rainyPositions + [rainyAvg];
      dryPositions := dryPositions + [dryAvg];
    }
  }
}
