/** Per-driver series for the weather overlay charts: a driver's positions and
    race names (`get_race_positions`), the weather of a race
    (`get_weatherConditions`), and the five weather lists aligned to a driver's
    races (`saveWeatherConditions`). */
module WeatherSeries {
  import opened Frame

  /** `get_race_positions`: the Position and Race Name columns of the driver's rows. */
  function RacePositions(driver: string, t: Table): (r: (seq<int>, seq<string>))
    ensures |r.0| == |r.1| <= |t|
  {
    var rows := DriverRows(t, driver);
    (seq(|rows|, i requires 0 <= i < |rows| => rows[i].position),
     seq(|rows|, i requires 0 <= i < |rows| => rows[i].raceName))
  }

  /** Both series have one entry per row of the driver, in table order: entry k
      comes from the driver's k-th row. */
  lemma RacePositionsSpec(driver: string, t: Table)
    ensures var idx := Matches(t, ByDriver(driver));
      && |RacePositions(driver, t).0| == |idx|
      && |RacePositions(driver, t).1| == |idx|
      && forall k :: 0 <= k < |idx| ==>
           RacePositions(driver, t).0[k] == t[idx[k]].position && RacePositions(driver, t).1[k] == t[idx[k]].raceName
  {
    WhereIsSubsequence(t, ByDriver(driver));
  }

  /** Both series are empty exactly when the driver has no row. */
  lemma RacePositionsEmpty(driver: string, t: Table)
    ensures RacePositions(driver, t).0 == [] <==> forall i :: 0 <= i < |t| ==> t[i].driverName != driver
    ensures RacePositions(driver, t).1 == [] <==> forall i :: 0 <= i < |t| ==> t[i].driverName != driver
  {
    var rows := DriverRows(t, driver);
    WhereMembers(t, ByDriver(driver));
    if rows != [] {
      assert rows[0] in rows;
      var i :| 0 <= i < |t| && t[i] == rows[0];
    }
    forall i | 0 <= i < |t| && t[i].driverName == driver ensures rows != [] {
      assert t[i] in rows;
    }
  }

  /** The five numeric weather values of a row. */
  datatype Weather = Weather(
    airTemperature: real,
    relativeHumidity: real,
    airPressure: real,
    trackTemperature: real,
    windSpeed: real)

  function WeatherOf(r: Row): Weather
  {
    Weather(r.airTemperature, r.relativeHumidity, r.airPressure, r.trackTemperature, r.windSpeed)
  }

  /** `get_weatherConditions`: the weather of the first row of the race;
      `None` where `.iloc[0]` finds no row. */
  function WeatherConditions(raceName: string, t: Table): (r: Option<Weather>)
    ensures r.None? <==> forall i :: 0 <= i < |t| ==> t[i].raceName != raceName
  {
    var rows := Where(t, ByRace(raceName));
    WhereMembers(t, ByRace(raceName));
    if rows == [] then
      assert forall i :: 0 <= i < |t| ==> t[i] !in rows;
      None
    else
      assert rows[0] in rows;
      Some(WeatherOf(rows[0]))
  }

  /** The lookup fails exactly when no row has that race name, and otherwise
      returns the weather of the first row that has it. */
  lemma WeatherConditionsFirst(raceName: string, t: Table)
    ensures WeatherConditions(raceName, t).None? <==> forall i :: 0 <= i < |t| ==> t[i].raceName != raceName
    ensures WeatherConditions(raceName, t).Some? ==>
      exists i :: && 0 <= i < |t| && t[i].raceName == raceName
                  && (forall j :: 0 <= j < i ==> t[j].raceName != raceName)
                  && WeatherConditions(raceName, t).value == WeatherOf(t[i])
  {
    var keep := ByRace(raceName);
    var rows, idx := Where(t, keep), Matches(t, keep);
    WhereIsSubsequence(t, keep);
    forall i | 0 <= i < |t| && t[i].raceName == raceName ensures rows != [] {
      assert i in idx;
    }
    if rows != [] {
      var i := idx[0];
      assert forall k :: 0 <= k < |idx| ==> i <= idx[k];
      forall j | 0 <= j < i ensures t[j].raceName != raceName {
        assert j !in idx;
      }
    }
  }

  lemma WeatherConditionsFound(raceName: string, t: Table, i: int)
    requires 0 <= i < |t| && t[i].raceName == raceName
    ensures WeatherConditions(raceName, t).Some?
  {
    WeatherConditionsFirst(raceName, t);
  }

  /** Every row of a race carries the same weather. */
  predicate RaceInvariantWeather(t: Table)
  {
    forall i, j :: 0 <= i < |t| && 0 <= j < |t| && t[i].raceName == t[j].raceName ==> WeatherOf(t[i]) == WeatherOf(t[j])
  }

  /** Where weather is race-invariant, the lookup returns the weather of any row of the race. */
  lemma WeatherConditionsAnyRow(raceName: string, t: Table, i: int)
    requires RaceInvariantWeather(t)
    requires 0 <= i < |t| && t[i].raceName == raceName
    ensures WeatherConditions(raceName, t) == Some(WeatherOf(t[i]))
  {
    WeatherConditionsFirst(raceName, t);
  }

  /** Where weather is race-invariant, reordering the rows does not change the lookup. */
  lemma WeatherConditionsReorder(raceName: string, t: Table, u: Table)
    requires RaceInvariantWeather(t) && multiset(t) == multiset(u)
    ensures WeatherConditions(raceName, t) == WeatherConditions(raceName, u)
  {
    WeatherConditionsFirst(raceName, t);
    WeatherConditionsFirst(raceName, u);
    if WeatherConditions(raceName, t).Some? {
      var i :| 0 <= i < |t| && t[i].raceName == raceName;
      assert t[i] in multiset(u);
      var k :| 0 <= k < |u| && u[k] == t[i];
      assert WeatherConditions(raceName, u).Some?;
      var k' :| 0 <= k' < |u| && u[k'].raceName == raceName && WeatherConditions(raceName, u).value == WeatherOf(u[k']);
      assert u[k'] in multiset(t);
      var i' :| 0 <= i' < |t| && t[i'] == u[k'];
      WeatherConditionsAnyRow(raceName, t, i');
    } else {
      forall k | 0 <= k < |u| ensures u[k].raceName != raceName {
        assert u[k] in multiset(t);
      }
    }
  }

  /** The five lists `saveWeatherConditions` returns. */
  datatype WeatherLists = WeatherLists(
    airTemp: seq<real>,
    humidity: seq<real>,
    airPress: seq<real>,
    trackTemp: seq<real>,
    windSpeed: seq<real>)

  /** All five lists have exactly `n` entries. */
  predicate HasLength(w: WeatherLists, n: nat)
  {
    |w.airTemp| == n && |w.humidity| == n && |w.airPress| == n && |w.trackTemp| == n && |w.windSpeed| == n
  }

  function WeatherAt(w: WeatherLists, i: nat): Weather
    requires HasLength(w, |w.airTemp|) && i < |w.airTemp|
  {
    Weather(w.airTemp[i], w.humidity[i], w.airPress[i], w.trackTemp[i], w.windSpeed[i])
  }

  /** The lists hold, entry by entry, the looked-up weather of `races`. */
  predicate Aligned(w: WeatherLists, races: seq<string>, t: Table)
  {
    && HasLength(w, |races|)
    && forall i :: 0 <= i < |races| ==> WeatherConditions(races[i], t) == Some(WeatherAt(w, i))
  }

  /** Every race name of a driver's series is found by the lookup. */
  lemma DriverRaceFound(driver: string, t: Table, k: int)
    requires 0 <= k < |RacePositions(driver, t).1|
    ensures WeatherConditions(RacePositions(driver, t).1[k], t).Some?
  {
    RacePositionsSpec(driver, t);
    WeatherConditionsFound(RacePositions(driver, t).1[k], t, Matches(t, ByDriver(driver))[k]);
  }

  /** Where weather is race-invariant, lists aligned to a driver's races hold
      the weather of that driver's rows, in table order. */
  lemma AlignedDriverWeather(w: WeatherLists, driver: string, t: Table)
    requires RaceInvariantWeather(t)
    requires Aligned(w, RacePositions(driver, t).1, t)
    ensures var idx := Matches(t, ByDriver(driver));
      && HasLength(w, |idx|)
      && forall i :: 0 <= i < |idx| ==> WeatherAt(w, i) == WeatherOf(t[idx[i]])
  {
    var idx, races := Matches(t, ByDriver(driver)), RacePositions(driver, t).1;
    RacePositionsSpec(driver, t);
    forall i | 0 <= i < |idx| ensures WeatherAt(w, i) == WeatherOf(t[idx[i]]) {
      WeatherConditionsAnyRow(races[i], t, idx[i]);
    }
  }

  /** `saveWeatherConditions`. The source returns from inside its loop over the
      drivers, so only the first driver's races are walked; an empty driver list
      runs no iteration and returns nothing. Entry i of the lists is the looked-up
      weather of that driver's i-th race. */
  method SaveWeatherConditions(top5: seq<string>, t: Table) returns (r: Option<WeatherLists>)
    ensures r.None? <==> top5 == []
    ensures r.Some? ==> Aligned(r.value, RacePositions(top5[0], t).1, t)
  {
    if top5 == [] {
      return None;
    }
    var driver := top5[0];
    var races := RacePositions(driver, t).1;
    var airTemp, humidity, airPress, trackTemp, windSpeed := [], [], [], [], [];
    for k := 0 to |races|
      invariant |airTemp| == k && |humidity| == k && |airPress| == k && |trackTemp| == k && |windSpeed| == k
      invariant forall i :: 0 <= i < k ==>
        WeatherConditions(races[i], t) == Some(Weather(airTemp[i], humidity[i], airPress[i], trackTemp[i], windSpeed[i]))
    {
      var race := races[k];
      // the race name was read from a row of the table, so the lookup finds a row
      DriverRaceFound(driver, t, k);
      var w := WeatherConditions(race, t).value;
      airTemp := airTemp + [w.airTemperature];
      humidity := humidity + [w.relativeHumidity];
      airPress := airPress + [w.airPressure];
      trackTemp := trackTemp + [w.trackTemperature];
      windSpeed := windSpeed + [w.windSpeed];
    }
    r := Some(WeatherLists(airTemp, humidity, airPress, trackTemp, windSpeed));
  }
}
