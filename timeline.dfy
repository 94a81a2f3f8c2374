/** Date ordering: `prepare_data`, which sorts the table by Race Date before the
    performance-over-time and rain/dry charts. The date parsing that precedes
    the sort is represented by the integer `raceDate`. */
module Timeline {
  import opened Frame

  /** `df.sort_values(by='Race Date')`: the same rows, earliest race first.
      Rows of the same date come out in an order the contract does not fix. */
  function PrepareData(t: Table): (r: Table)
    ensures multiset(r) == multiset(t)
    ensures forall i, j :: 0 <= i < j < |r| ==> r[i].raceDate <= r[j].raceDate
  {
    SortBy(t, (x: Row) => x.raceDate as real)
  }
}
