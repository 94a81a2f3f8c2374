/** How the steps of the chart scripts compose: the ranking and the per-driver
    series are computed on a table that has already been normalised, the
    weather lookup runs on a normalised table, and the time charts select a
    driver's rows from the date-sorted table. */
module Pipeline {
  import opened Frame
  import opened Normalization
  import opened Ranking
  import opened WeatherSeries
  import opened Timeline

  /** Ranking the normalised table gives the same top five as ranking the raw one. */
  lemma NormalizationKeepsRanking(t: Table)
    ensures Top5(NormalizeWeatherTable(t)) == Top5(t)
  {
    NormalizeWeatherEffect(t);
    Top5ReadsPointsOnly(NormalizeWeatherTable(t), t);
  }

  /** Two tables that agree row by row on driver, position and race name give
      every driver the same series. */
  lemma SeriesAgree(t: Table, u: Table, driver: string)
    requires |t| == |u|
    requires forall i :: 0 <= i < |t| ==>
      t[i].driverName == u[i].driverName && t[i].position == u[i].position && t[i].raceName == u[i].raceName
    ensures RacePositions(driver, t) == RacePositions(driver, u)
  {
    MatchesAgree(t, u, ByDriver(driver), 0);
    RacePositionsSpec(driver, t);
    RacePositionsSpec(driver, u);
    assert RacePositions(driver, t).0 == RacePositions(driver, u).0;
    assert RacePositions(driver, t).1 == RacePositions(driver, u).1;
  }

  /** Normalisation does not change any driver's positions or race names. */
  lemma NormalizationKeepsSeries(t: Table, driver: string)
    ensures RacePositions(driver, NormalizeWeatherTable(t)) == RacePositions(driver, t)
  {
    NormalizeWeatherEffect(t);
    SeriesAgree(NormalizeWeatherTable(t), t, driver);
  }

  lemma NormalizedAt(vs: seq<real>, i: int, j: int)
    requires 0 <= i < |vs| && 0 <= j < |vs| && vs[i] == vs[j]
    ensures Normalized(vs)[i] == Normalized(vs)[j]
  {
    if Rescale(vs).Some? && vs != [] {
      RescaleAt(vs, i);
      RescaleAt(vs, j);
    }
  }

  /** The lookup's five weather values and the five normalised columns are the
      same fields of a row. */
  lemma WeatherOfCells(r: Row, r': Row)
    ensures WeatherOf(r) == WeatherOf(r') <==> forall c :: Cell(r, c) == Cell(r', c)
  {
    if WeatherOf(r) == WeatherOf(r') {
      forall c ensures Cell(r, c) == Cell(r', c) {
        match c
        case AirTemperature =>
        case RelativeHumidity =>
        case AirPressure =>
        case TrackTemperature =>
        case WindSpeed =>
      }
    }
    if forall c :: Cell(r, c) == Cell(r', c) {
      assert Cell(r, AirTemperature) == Cell(r', AirTemperature);
      assert Cell(r, RelativeHumidity) == Cell(r', RelativeHumidity);
      assert Cell(r, AirPressure) == Cell(r', AirPressure);
      assert Cell(r, TrackTemperature) == Cell(r', TrackTemperature);
      assert Cell(r, WindSpeed) == Cell(r', WindSpeed);
    }
  }

  /** Normalisation keeps weather race-invariant, so the lookup on the
      normalised table still returns the weather of any row of the race. */
  lemma NormalizationKeepsRaceInvariance(t: Table)
    requires RaceInvariantWeather(t)
    ensures RaceInvariantWeather(NormalizeWeatherTable(t))
  {
    var u := NormalizeWeatherTable(t);
    NormalizeWeatherEffect(t);
    forall i, j | 0 <= i < |u| && 0 <= j < |u| && u[i].raceName == u[j].raceName
      ensures WeatherOf(u[i]) == WeatherOf(u[j])
    {
      WeatherOfCells(t[i], t[j]);
      forall c ensures Cell(u[i], c) == Cell(u[j], c) {
        var vs := ColumnValues(t, c);
        NormalizedAt(vs, i, j);
        assert ColumnValues(u, c)[i] == Cell(u[i], c) && ColumnValues(u, c)[j] == Cell(u[j], c);
      }
      WeatherOfCells(u[i], u[j]);
    }
  }

  /** Selecting a driver from the date-sorted table gives that driver's rows,
      earliest race first. */
  lemma DriverRowsInDateOrder(t: Table, driver: string)
    ensures var rows := DriverRows(PrepareData(t), driver);
      && multiset(rows) == multiset(DriverRows(t, driver))
      && forall i, j :: 0 <= i < j < |rows| ==> rows[i].raceDate <= rows[j].raceDate
  {
    var u := PrepareData(t);
    WherePermutation(u, t, ByDriver(driver));
    WhereIsSubsequence(u, ByDriver(driver));
  }
}
