/** Min-max normalisation: `normalizeWeather` rewrites each of the five weather
    columns of the table, in place, as (v - min) / (max - min) over that
    column; the same formula rescales the Position column before the weather
    overlay charts. Arithmetic is exact (`real`). A non-empty column whose
    minimum equals its maximum divides 0 by 0; the model reports such a column
    as undefined instead of filling it with NaN. */
module Normalization {
  import opened Frame

  datatype Column = AirTemperature | RelativeHumidity | AirPressure | TrackTemperature | WindSpeed

  /** The columns `normalizeWeather` rewrites, in the order it rewrites them. */
  const WeatherColumns: seq<Column> := [AirTemperature, RelativeHumidity, AirPressure, TrackTemperature, WindSpeed]

  function Cell(r: Row, c: Column): real
  {
    match c
    case AirTemperature => r.airTemperature
    case RelativeHumidity => r.relativeHumidity
    case AirPressure => r.airPressure
    case TrackTemperature => r.trackTemperature
    case WindSpeed => r.windSpeed
  }

  /** Every column other than the five weather columns agrees. */
  predicate SameOutsideWeather(r: Row, r': Row)
  {
    && r.driverName == r'.driverName
    && r.racePoint == r'.racePoint
    && r.position == r'.position
    && r.raceName == r'.raceName
    && r.raceDate == r'.raceDate
    && r.rainfall == r'.rainfall
  }

  function WithCell(r: Row, c: Column, v: real): (r': Row)
    ensures Cell(r', c) == v
    ensures forall c' :: c' != c ==> Cell(r', c') == Cell(r, c')
    ensures SameOutsideWeather(r, r')
  {
    match c
    case AirTemperature => r.(airTemperature := v)
    case RelativeHumidity => r.(relativeHumidity := v)
    case AirPressure => r.(airPressure := v)
    case TrackTemperature => r.(trackTemperature := v)
    case WindSpeed => r.(windSpeed := v)
  }

  /** `weatherDf[column]` */
  function ColumnValues(t: Table, c: Column): (vs: seq<real>)
    ensures |vs| == |t|
    ensures forall i :: 0 <= i < |t| ==> vs[i] == Cell(t[i], c)
  {
    seq(|t|, i requires 0 <= i < |t| => Cell(t[i], c))
  }

  /** `.min()` of a non-empty column. */
  function Min(vs: seq<real>): (m: real)
    requires vs != []
    ensures m in vs
    ensures forall i :: 0 <= i < |vs| ==> m <= vs[i]
  {
    if |vs| == 1 then vs[0]
    else
      var m := Min(vs[1..]);
      assert vs == [vs[0]] + vs[1..];
      if vs[0] <= m then vs[0] else m
  }

  /** `.max()` of a non-empty column. */
  function Max(vs: seq<real>): (m: real)
    requires vs != []
    ensures m in vs
    ensures forall i :: 0 <= i < |vs| ==> vs[i] <= m
  {
    if |vs| == 1 then vs[0]
    else
      var m := Max(vs[1..]);
      assert vs == [vs[0]] + vs[1..];
      if m <= vs[0] then vs[0] else m
  }

  function Scale(v: real, lo: real, hi: real): real
    requires lo < hi
  {
    (v - lo) / (hi - lo)
  }

  /** The min-max formula applied to a whole column; `None` for a non-empty
      constant column, where the formula divides 0 by 0. */
  function Rescale(vs: seq<real>): (r: Option<seq<real>>)
    ensures r.Some? ==> |r.value| == |vs|
  {
    if vs == [] then Some([])
    else
      var lo, hi := Min(vs), Max(vs);
      if lo == hi then None
      else Some(seq(|vs|, i requires 0 <= i < |vs| => Scale(vs[i], lo, hi)))
  }

  lemma RescaleAt(vs: seq<real>, i: int)
    requires 0 <= i < |vs| && Rescale(vs).Some?
    ensures Min(vs) < Max(vs) && Rescale(vs).value[i] == Scale(vs[i], Min(vs), Max(vs))
  {
  }

  lemma ScaleUnit(v: real, lo: real, hi: real)
    requires lo < hi && lo <= v <= hi
    ensures 0.0 <= Scale(v, lo, hi) <= 1.0
  {
    var d := hi - lo;
    assert Scale(v, lo, hi) * d == v - lo;
  }

  lemma ScaleOrder(v: real, w: real, lo: real, hi: real)
    requires lo < hi
    ensures v <= w <==> Scale(v, lo, hi) <= Scale(w, lo, hi)
  {
    var d := hi - lo;
    assert Scale(w, lo, hi) - Scale(v, lo, hi) == (w - v) / d;
    QuotientSign(w - v, d);
  }

  /** Dividing by a positive number keeps the sign. */
  lemma QuotientSign(x: real, d: real)
    requires d > 0.0
    ensures 0.0 <= x <==> 0.0 <= x / d
  {
    assert (x / d) * d == x;
  }

  /** The column is undefined exactly when it is non-empty and constant. */
  lemma RescaleUndefined(vs: seq<real>)
    ensures Rescale(vs).None? <==> vs != [] && forall i :: 0 <= i < |vs| ==> vs[i] == vs[0]
  {
    if vs != [] && Min(vs) != Max(vs) {
      var i :| 0 <= i < |vs| && vs[i] == Min(vs);
      var j :| 0 <= j < |vs| && vs[j] == Max(vs);
      assert vs[i] != vs[0] || vs[j] != vs[0];
    }
  }

  /** Every rescaled value lies in [0, 1]. */
  lemma RescaleRange(vs: seq<real>)
    requires Rescale(vs).Some?
    ensures forall i :: 0 <= i < |vs| ==> 0.0 <= Rescale(vs).value[i] <= 1.0
  {
    if vs != [] {
      forall i | 0 <= i < |vs| ensures 0.0 <= Rescale(vs).value[i] <= 1.0 {
        RescaleAt(vs, i);
        ScaleUnit(vs[i], Min(vs), Max(vs));
      }
    }
  }

  lemma DivSelf(d: real)
    requires d > 0.0
    ensures d / d == 1.0
  {
    var q := d / d;
    assert q * d == d;
    assert (q - 1.0) * d == 0.0;
  }

  lemma ScaleEnds(lo: real, hi: real)
    requires lo < hi
    ensures Scale(lo, lo, hi) == 0.0 && Scale(hi, lo, hi) == 1.0
  {
    DivSelf(hi - lo);
  }

  /** A row holding the column minimum becomes 0, one holding the maximum 1;
      so the rescaled column has minimum 0 and maximum 1. */
  lemma RescaleEndpoints(vs: seq<real>)
    requires vs != [] && Rescale(vs).Some?
    ensures forall i :: 0 <= i < |vs| && vs[i] == Min(vs) ==> Rescale(vs).value[i] == 0.0
    ensures forall i :: 0 <= i < |vs| && vs[i] == Max(vs) ==> Rescale(vs).value[i] == 1.0
    ensures Min(Rescale(vs).value) == 0.0 && Max(Rescale(vs).value) == 1.0
  {
    var ns, lo, hi := Rescale(vs).value, Min(vs), Max(vs);
    RescaleAt(vs, 0);
    ScaleEnds(lo, hi);
    forall i | 0 <= i < |vs| && vs[i] == lo ensures ns[i] == 0.0 {
      RescaleAt(vs, i);
    }
    forall i | 0 <= i < |vs| && vs[i] == hi ensures ns[i] == 1.0 {
      RescaleAt(vs, i);
    }
    RescaleRange(vs);
    var i :| 0 <= i < |vs| && vs[i] == lo;
    var j :| 0 <= j < |vs| && vs[j] == hi;
    var m :| 0 <= m < |ns| && ns[m] == Min(ns);
    var n :| 0 <= n < |ns| && ns[n] == Max(ns);
    assert Min(ns) <= ns[i] && ns[j] <= Max(ns);
  }

  /** Rescaling keeps the order of the values, in both directions. */
  lemma RescaleMonotone(vs: seq<real>)
    requires Rescale(vs).Some?
    ensures forall i, j :: 0 <= i < |vs| && 0 <= j < |vs| ==>
      (vs[i] <= vs[j] <==> Rescale(vs).value[i] <= Rescale(vs).value[j])
  {
    if vs != [] {
      forall i, j | 0 <= i < |vs| && 0 <= j < |vs|
        ensures vs[i] <= vs[j] <==> Rescale(vs).value[i] <= Rescale(vs).value[j]
      {
        RescaleAt(vs, i);
        RescaleAt(vs, j);
        ScaleOrder(vs[i], vs[j], Min(vs), Max(vs));
      }
    }
  }

  /** Normalising an already normalised column changes nothing. */
  lemma RescaleIdempotent(vs: seq<real>)
    requires Rescale(vs).Some?
    ensures Rescale(Rescale(vs).value) == Rescale(vs)
  {
    var ns := Rescale(vs).value;
    if vs != [] {
      RescaleEndpoints(vs);
      assert Min(ns) != Max(ns);
      assert Rescale(ns).value == ns;
    }
  }

  /** The new contents of a column: rescaled, or kept when undefined. */
  function Normalized(vs: seq<real>): (r: seq<real>)
    ensures |r| == |vs|
  {
    match Rescale(vs)
    case Some(ns) => ns
    case None => vs
  }

  function WithColumn(t: Table, c: Column, vs: seq<real>): (r: Table)
    requires |vs| == |t|
    ensures |r| == |t|
    ensures forall i :: 0 <= i < |t| ==> r[i] == WithCell(t[i], c, vs[i])
  {
    seq(|t|, i requires 0 <= i < |t| => WithCell(t[i], c, vs[i]))
  }

  /** `weatherDf[column] = (weatherDf[column] - min) / (max - min)` */
  function NormalizeColumn(t: Table, c: Column): (r: Table)
    ensures |r| == |t|
  {
    WithColumn(t, c, Normalized(ColumnValues(t, c)))
  }

  /** The column loop: the columns of `cs` rewritten one after the other. */
  function NormalizeColumns(t: Table, cs: seq<Column>): (r: Table)
    ensures |r| == |t|
    decreases |cs|
  {
    if cs == [] then t
    else NormalizeColumn(NormalizeColumns(t, cs[..|cs| - 1]), cs[|cs| - 1])
  }

  function NormalizeWeatherTable(t: Table): (r: Table)
    ensures |r| == |t|
  {
    NormalizeColumns(t, WeatherColumns)
  }

  lemma WithColumnEffect(t: Table, c: Column, vs: seq<real>, c': Column)
    requires |vs| == |t|
    ensures ColumnValues(WithColumn(t, c, vs), c') == if c' == c then vs else ColumnValues(t, c')
  {
  }

  lemma {:induction false} NormalizeColumnsEffect(t: Table, cs: seq<Column>)
    requires Distinct(cs)
    ensures |NormalizeColumns(t, cs)| == |t|
    ensures forall i :: 0 <= i < |t| ==> SameOutsideWeather(t[i], NormalizeColumns(t, cs)[i])
    ensures forall c :: ColumnValues(NormalizeColumns(t, cs), c) ==
                        (if c in cs then Normalized(ColumnValues(t, c)) else ColumnValues(t, c))
    decreases |cs|
  {
    if cs != [] {
      var init, last := cs[..|cs| - 1], cs[|cs| - 1];
      assert Distinct(init);
      assert last !in init;
      NormalizeColumnsEffect(t, init);
      var before := NormalizeColumns(t, init);
      var vs := Normalized(ColumnValues(before, last));
      forall c ensures ColumnValues(NormalizeColumns(t, cs), c) ==
        if c in cs then Normalized(ColumnValues(t, c)) else ColumnValues(t, c)
      {
        WithColumnEffect(before, last, vs, c);
        assert c in cs <==> c in init || c == last;
      }
    }
  }

  /** What `normalizeWeather` does to the table: the row count and every
      non-weather column stay as they were, and each weather column's new
      values are a function of that column's old values only. */
  lemma NormalizeWeatherEffect(t: Table)
    ensures |NormalizeWeatherTable(t)| == |t|
    ensures forall i :: 0 <= i < |t| ==> SameOutsideWeather(t[i], NormalizeWeatherTable(t)[i])
    ensures forall c :: ColumnValues(NormalizeWeatherTable(t), c) == Normalized(ColumnValues(t, c))
  {
    assert Distinct(WeatherColumns);
    NormalizeColumnsEffect(t, WeatherColumns);
    AllWeatherColumns();
  }

  /** For a column that is not constant, the normalised table holds values in
      [0, 1] there, 0 on the rows that held its minimum, 1 on the rows that held
      its maximum, and keeps the order of the old values. */
  lemma NormalizedWeatherColumn(t: Table, c: Column)
    requires t != [] && Rescale(ColumnValues(t, c)).Some?
    ensures var vs, u := ColumnValues(t, c), NormalizeWeatherTable(t);
      && |u| == |t|
      && (forall i :: 0 <= i < |t| ==> 0.0 <= Cell(u[i], c) <= 1.0)
      && (forall i :: 0 <= i < |t| && vs[i] == Min(vs) ==> Cell(u[i], c) == 0.0)
      && (forall i :: 0 <= i < |t| && vs[i] == Max(vs) ==> Cell(u[i], c) == 1.0)
      && (forall i, j :: 0 <= i < |t| && 0 <= j < |t| ==> (vs[i] <= vs[j] <==> Cell(u[i], c) <= Cell(u[j], c)))
  {
    var vs := ColumnValues(t, c);
    NormalizedCells(t, c);
    RescaleRange(vs);
    RescaleEndpoints(vs);
    RescaleMonotone(vs);
  }

  lemma NormalizedCells(t: Table, c: Column)
    requires Rescale(ColumnValues(t, c)).Some?
    ensures |NormalizeWeatherTable(t)| == |t|
    ensures forall i :: 0 <= i < |t| ==> Cell(NormalizeWeatherTable(t)[i], c) == Rescale(ColumnValues(t, c)).value[i]
  {
    var u := NormalizeWeatherTable(t);
    NormalizeWeatherEffect(t);
    assert ColumnValues(u, c) == Rescale(ColumnValues(t, c)).value;
    forall i | 0 <= i < |t| ensures Cell(u[i], c) == Rescale(ColumnValues(t, c)).value[i] {
      assert ColumnValues(u, c)[i] == Cell(u[i], c);
    }
  }

  /** `weatherData['Position']` rescaled by the same formula (the table keeps
      integer positions; the rescaled column is returned). */
  function NormalizedPositions(t: Table): (r: Option<seq<real>>)
    ensures r.None? <==> t != [] && forall i :: 0 <= i < |t| ==> t[i].position == t[0].position
    ensures r.Some? ==> |r.value| == |t|
    ensures r.Some? ==> forall i :: 0 <= i < |t| ==> 0.0 <= r.value[i] <= 1.0
    ensures r.Some? ==> forall i, j :: 0 <= i < |t| && 0 <= j < |t| ==>
                          (t[i].position <= t[j].position <==> r.value[i] <= r.value[j])
    ensures r.Some? ==> forall i :: 0 <= i < |t| && (forall j :: 0 <= j < |t| ==> t[i].position <= t[j].position) ==>
                          r.value[i] == 0.0
    ensures r.Some? ==> forall i :: 0 <= i < |t| && (forall j :: 0 <= j < |t| ==> t[j].position <= t[i].position) ==>
                          r.value[i] == 1.0
  {
    var ps := PositionValues(t);
    PositionsUndefined(t);
    if Rescale(ps).Some? then
      RescaleRange(ps);
      PositionsOrder(t);
      PositionEndpoints(t);
      Rescale(ps)
    else
      Rescale(ps)
  }

  /** `weatherData['Position']` as reals. */
  function PositionValues(t: Table): (ps: seq<real>)
    ensures |ps| == |t|
    ensures forall i :: 0 <= i < |t| ==> ps[i] == t[i].position as real
  {
    seq(|t|, i requires 0 <= i < |t| => t[i].position as real)
  }

  lemma PositionsUndefined(t: Table)
    ensures Rescale(PositionValues(t)).None? <==> t != [] && forall i :: 0 <= i < |t| ==> t[i].position == t[0].position
  {
    RescaleUndefined(PositionValues(t));
  }

  lemma PositionsOrder(t: Table)
    ensures Rescale(PositionValues(t)).Some? ==> forall i, j :: 0 <= i < |t| && 0 <= j < |t| ==>
              (t[i].position <= t[j].position <==> Rescale(PositionValues(t)).value[i] <= Rescale(PositionValues(t)).value[j])
  {
    if Rescale(PositionValues(t)).Some? {
      RescaleMonotone(PositionValues(t));
    }
  }

  /** A row holding the lowest position is rescaled to 0, one holding the
      highest to 1. */
  lemma PositionEndpoints(t: Table)
    ensures Rescale(PositionValues(t)).Some? ==>
              forall i :: 0 <= i < |t| && (forall j :: 0 <= j < |t| ==> t[i].position <= t[j].position) ==>
                Rescale(PositionValues(t)).value[i] == 0.0
    ensures Rescale(PositionValues(t)).Some? ==>
              forall i :: 0 <= i < |t| && (forall j :: 0 <= j < |t| ==> t[j].position <= t[i].position) ==>
                Rescale(PositionValues(t)).value[i] == 1.0
  {
    var ps := PositionValues(t);
    if t != [] && Rescale(ps).Some? {
      RescaleEndpoints(ps);
      var lo :| 0 <= lo < |ps| && ps[lo] == Min(ps);
      var hi :| 0 <= hi < |ps| && ps[hi] == Max(ps);
      forall i | 0 <= i < |t| && (forall j :: 0 <= j < |t| ==> t[i].position <= t[j].position)
        ensures Rescale(ps).value[i] == 0.0
      {
        assert t[i].position <= t[lo].position;
        assert ps[i] == Min(ps);
      }
      forall i | 0 <= i < |t| && (forall j :: 0 <= j < |t| ==> t[j].position <= t[i].position)
        ensures Rescale(ps).value[i] == 1.0
      {
        assert t[hi].position <= t[i].position;
        assert ps[i] == Max(ps);
      }
    }
  }

  /** Writing a column's own values back leaves the table as it was. */
  lemma KeepColumn(t: Table, c: Column)
    ensures WithColumn(t, c, ColumnValues(t, c)) == t
  {
    forall i | 0 <= i < |t| ensures WithCell(t[i], c, Cell(t[i], c)) == t[i] {
      match c
      case AirTemperature =>
      case RelativeHumidity =>
      case AirPressure =>
      case TrackTemperature =>
      case WindSpeed =>
    }
  }

  /** Row j of a column rewritten by the defined formula. */
  lemma NormalizeColumnAt(t: Table, c: Column, j: int)
    requires 0 <= j < |t|
    requires Min(ColumnValues(t, c)) < Max(ColumnValues(t, c))
    ensures |NormalizeColumn(t, c)| == |t|
    ensures NormalizeColumn(t, c)[j] ==
            WithCell(t[j], c, Scale(Cell(t[j], c), Min(ColumnValues(t, c)), Max(ColumnValues(t, c))))
  {
    var vs := ColumnValues(t, c);
    assert Rescale(vs).Some?;
    RescaleAt(vs, j);
  }

  /** `.min()` and `.max()` of one column of a non-empty table. */
  method ColumnBounds(a: array<Row>, c: Column) returns (lo: real, hi: real)
    requires a.Length > 0
    ensures lo == Min(ColumnValues(a[..], c)) && hi == Max(ColumnValues(a[..], c))
  {
    lo, hi := Cell(a[0], c), Cell(a[0], c);
    for k := 1 to a.Length
      invariant exists j :: 0 <= j < k && lo == Cell(a[j], c)
      invariant exists j :: 0 <= j < k && hi == Cell(a[j], c)
      invariant forall j :: 0 <= j < k ==> lo <= Cell(a[j], c) <= hi
    {
      if Cell(a[k], c) < lo {
        lo := Cell(a[k], c);
      }
      if hi < Cell(a[k], c) {
        hi := Cell(a[k], c);
      }
    }
    var vs := ColumnValues(a[..], c);
    assert Min(vs) <= lo && hi <= Max(vs);
    assert lo <= Min(vs) && Max(vs) <= hi;
  }

  /** The elementwise rewrite `(column - lo) / (hi - lo)`, in place. */
  method RewriteColumn(a: array<Row>, c: Column, lo: real, hi: real)
    requires lo < hi
    modifies a
    ensures forall j :: 0 <= j < a.Length ==> a[j] == WithCell(old(a[j]), c, Scale(Cell(old(a[j]), c), lo, hi))
  {
    for k := 0 to a.Length
      invariant forall j :: 0 <= j < k ==> a[j] == WithCell(old(a[j]), c, Scale(Cell(old(a[j]), c), lo, hi))
      invariant forall j :: k <= j < a.Length ==> a[j] == old(a[j])
    {
      a[k] := WithCell(a[k], c, Scale(Cell(a[k], c), lo, hi));
    }
  }

  /** One pass of the column loop, in place. `defined` is false when the
      column is non-empty and constant; the column is then left as it was. */
  method NormalizeColumnInPlace(a: array<Row>, c: Column) returns (defined: bool)
    modifies a
    ensures a[..] == NormalizeColumn(old(a[..]), c)
    ensures defined == Rescale(ColumnValues(old(a[..]), c)).Some?
  {
    ghost var t := a[..];
    ghost var vs := ColumnValues(t, c);
    if a.Length == 0 {
      return true;
    }
    var lo, hi := ColumnBounds(a, c);
    if lo == hi {
      KeepColumn(t, c);
      return false;
    }
    RewriteColumn(a, c, lo, hi);
    forall j | 0 <= j < a.Length ensures a[j] == NormalizeColumn(t, c)[j] {
      NormalizeColumnAt(t, c, j);
    }
    defined := true;
  }

  /** Every column is one of the five weather columns. */
  lemma AllWeatherColumns()
    ensures forall c :: c in WeatherColumns
  {
    forall c ensures c in WeatherColumns {
      match c
      case AirTemperature => assert WeatherColumns[0] == c;
      case RelativeHumidity => assert WeatherColumns[1] == c;
      case AirPressure => assert WeatherColumns[2] == c;
      case TrackTemperature => assert WeatherColumns[3] == c;
      case WindSpeed => assert WeatherColumns[4] == c;
    }
  }

  /** Before column i is rewritten it still holds its original values. */
  lemma WeatherColumnUntouched(t: Table, i: nat)
    requires i < |WeatherColumns|
    ensures ColumnValues(NormalizeColumns(t, WeatherColumns[..i]), WeatherColumns[i]) == ColumnValues(t, WeatherColumns[i])
  {
    var init, c := WeatherColumns[..i], WeatherColumns[i];
    assert Distinct(WeatherColumns);
    assert Distinct(init);
    assert c !in init;
    NormalizeColumnsEffect(t, init);
  }

  /** Rewriting column i extends the loop by one column. */
  lemma WeatherColumnStep(t: Table, i: nat)
    requires i < |WeatherColumns|
    ensures NormalizeColumns(t, WeatherColumns[..i + 1]) ==
            NormalizeColumn(NormalizeColumns(t, WeatherColumns[..i]), WeatherColumns[i])
    ensures forall c :: c in WeatherColumns[..i + 1] <==> c in WeatherColumns[..i] || c == WeatherColumns[i]
  {
    assert WeatherColumns[..i + 1][..i] == WeatherColumns[..i];
    assert WeatherColumns[..i + 1] == WeatherColumns[..i] + [WeatherColumns[i]];
  }

  /** `normalizeWeather`: the five weather columns rewritten in place, one after
      the other. Returns the columns that were constant (NaN in the source). */
  method NormalizeWeather(a: array<Row>) returns (undefined: set<Column>)
    modifies a
    ensures a[..] == NormalizeWeatherTable(old(a[..]))
    ensures forall c :: c in undefined <==> Rescale(ColumnValues(old(a[..]), c)).None?
  {
    ghost var t := a[..];
    undefined := {};
    for i := 0 to |WeatherColumns|
      invariant a[..] == NormalizeColumns(t, WeatherColumns[..i])
      invariant forall c :: c in undefined <==> c in WeatherColumns[..i] && Rescale(ColumnValues(t, c)).None?
    {
      var c := WeatherColumns[i];
      WeatherColumnUntouched(t, i);
      WeatherColumnStep(t, i);
      var defined := NormalizeColumnInPlace(a, c);
      if !defined {
        undefined := undefined + {c};
      }
    }
    assert WeatherColumns[..|WeatherColumns|] == WeatherColumns;
    AllWeatherColumns();
  }
}
