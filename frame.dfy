/** The race-results table as the analysis script holds it once the CSV file is
    loaded, and the two dataframe operations every chart relies on: boolean-mask
    selection (`df[df[col] == v]`) and `sort_values`. */
module Frame {

  datatype Option<+T> = None | Some(value: T)

  /** One row of the table: one driver in one race. `raceDate` is an ordered
      stand-in for the parsed date; the five weather values are race averages. */
  datatype Row = Row(
    driverName: string,
    racePoint: real,
    position: int,
    raceName: string,
    raceDate: int,
    rainfall: bool,
    airTemperature: real,
    relativeHumidity: real,
    airPressure: real,
    trackTemperature: real,
    windSpeed: real)

  type Table = seq<Row>

  /** Row masks used by the script. */
  function ByDriver(name: string): Row -> bool { (r: Row) => r.driverName == name }
  function ByRace(name: string): Row -> bool { (r: Row) => r.raceName == name }

  /** Boolean-mask selection: the rows `keep` accepts, in table order. */
  function Where(t: Table, keep: Row -> bool): (r: Table)
    ensures |r| <= |t|
  {
    if t == [] then []
    else (if keep(t[0]) then [t[0]] else []) + Where(t[1..], keep)
  }

  /** The selection holds only rows of the table that the mask accepts, and
      every row the mask accepts. */
  lemma {:induction false} WhereMembers(t: Table, keep: Row -> bool)
    ensures forall x :: x in Where(t, keep) ==> x in t && keep(x)
    ensures forall x :: x in t && keep(x) ==> x in Where(t, keep)
  {
    if t != [] {
      WhereMembers(t[1..], keep);
      assert t == [t[0]] + t[1..];
    }
  }

  /** `df[df['Driver Name'] == name]` */
  function DriverRows(t: Table, name: string): (r: Table)
    ensures forall k :: 0 <= k < |r| ==> r[k].driverName == name
  {
    var r := Where(t, ByDriver(name));
    WhereMembers(t, ByDriver(name));
    assert forall k :: 0 <= k < |r| ==> r[k] in r;
    r
  }

  /** Reference definition of a selection: the indices at or after `from` of the
      rows `keep` accepts, strictly increasing. */
  function MatchesFrom(t: Table, keep: Row -> bool, from: nat): (idx: seq<nat>)
    requires from <= |t|
    ensures forall k :: 0 <= k < |idx| ==> from <= idx[k] < |t| && keep(t[idx[k]])
    ensures forall k, l :: 0 <= k < l < |idx| ==> idx[k] < idx[l]
    ensures forall i :: from <= i < |t| && keep(t[i]) ==> i in idx
    decreases |t| - from
  {
    if from == |t| then []
    else (if keep(t[from]) then [from] else []) + MatchesFrom(t, keep, from + 1)
  }

  function Matches(t: Table, keep: Row -> bool): seq<nat>
  {
    MatchesFrom(t, keep, 0)
  }

  lemma WhereUnfold(t: Table, keep: Row -> bool, from: nat)
    requires from < |t|
    ensures Where(t[from..], keep) == (if keep(t[from]) then [t[from]] else []) + Where(t[from + 1..], keep)
    ensures MatchesFrom(t, keep, from) == (if keep(t[from]) then [from] else []) + MatchesFrom(t, keep, from + 1)
  {
    assert t[from..][1..] == t[from + 1..];
  }

  lemma {:induction false} WhereFromLength(t: Table, keep: Row -> bool, from: nat)
    requires from <= |t|
    ensures |Where(t[from..], keep)| == |MatchesFrom(t, keep, from)|
    decreases |t| - from
  {
    if from < |t| {
      WhereFromLength(t, keep, from + 1);
      WhereUnfold(t, keep, from);
    }
  }

  /** Past an accepted row, entry k of both lists is entry k - 1 of the lists that start one row later. */
  lemma WhereKeptStep(t: Table, keep: Row -> bool, from: nat, k: nat)
    requires from < |t| && keep(t[from]) && 0 < k < |MatchesFrom(t, keep, from)| && k < |Where(t[from..], keep)|
    ensures k - 1 < |MatchesFrom(t, keep, from + 1)| && MatchesFrom(t, keep, from)[k] == MatchesFrom(t, keep, from + 1)[k - 1]
    ensures k - 1 < |Where(t[from + 1..], keep)| && Where(t[from..], keep)[k] == Where(t[from + 1..], keep)[k - 1]
  {
    WhereUnfold(t, keep, from);
  }

  /** Past a rejected row, both lists are those that start one row later. */
  lemma WhereDroppedStep(t: Table, keep: Row -> bool, from: nat)
    requires from < |t| && !keep(t[from])
    ensures MatchesFrom(t, keep, from) == MatchesFrom(t, keep, from + 1)
    ensures Where(t[from..], keep) == Where(t[from + 1..], keep)
  {
    WhereUnfold(t, keep, from);
  }

  lemma {:induction false} WhereFromAt(t: Table, keep: Row -> bool, from: nat, k: nat)
    requires from <= |t| && k < |MatchesFrom(t, keep, from)|
    ensures k < |Where(t[from..], keep)| && Where(t[from..], keep)[k] == t[MatchesFrom(t, keep, from)[k]]
    decreases |t| - from
  {
    WhereFromLength(t, keep, from);
    if keep(t[from]) {
      if k == 0 {
        WhereUnfold(t, keep, from);
      } else {
        WhereKeptStep(t, keep, from, k);
        WhereFromAt(t, keep, from + 1, k - 1);
      }
    } else {
      WhereDroppedStep(t, keep, from);
      WhereFromAt(t, keep, from + 1, k);
    }
  }

  /** A selection is exactly the subsequence of the rows it accepts: the k-th
      selected row is the row at the k-th accepted index, so order is kept and
      the length is the number of accepted rows. */
  lemma WhereIsSubsequence(t: Table, keep: Row -> bool)
    ensures |Where(t, keep)| == |Matches(t, keep)|
    ensures forall k :: 0 <= k < |Matches(t, keep)| ==> Where(t, keep)[k] == t[Matches(t, keep)[k]]
  {
    assert t[0..] == t;
    WhereFromLength(t, keep, 0);
    forall k | 0 <= k < |Matches(t, keep)| ensures Where(t, keep)[k] == t[Matches(t, keep)[k]] {
      WhereFromAt(t, keep, 0, k);
    }
  }

  /** Two complementary masks split the table: every row lands on exactly one side. */
  lemma WherePartition(t: Table, keep: Row -> bool, drop: Row -> bool)
    requires forall x :: drop(x) == !keep(x)
    ensures multiset(Where(t, keep)) + multiset(Where(t, drop)) == multiset(t)
  {
    forall x ensures (multiset(Where(t, keep)) + multiset(Where(t, drop)))[x] == multiset(t)[x] {
      WhereCounts(t, keep, x);
      WhereCounts(t, drop, x);
    }
  }

  /** Selecting from a permutation of a table gives a permutation of the selection. */
  lemma {:induction false} WhereCounts(t: Table, keep: Row -> bool, x: Row)
    ensures multiset(Where(t, keep))[x] == if keep(x) then multiset(t)[x] else 0
  {
    if t != [] {
      var rest := t[1..];
      WhereCounts(rest, keep, x);
      assert t == [t[0]] + rest;
      assert multiset(t) == multiset{t[0]} + multiset(rest);
      assert Where(t, keep) == (if keep(t[0]) then [t[0]] else []) + Where(rest, keep);
    }
  }

  lemma WherePermutation(t: Table, u: Table, keep: Row -> bool)
    requires multiset(t) == multiset(u)
    ensures multiset(Where(t, keep)) == multiset(Where(u, keep))
  {
    forall x ensures multiset(Where(t, keep))[x] == multiset(Where(u, keep))[x] {
      WhereCounts(t, keep, x);
      WhereCounts(u, keep, x);
    }
  }

  /** Two tables whose rows agree, position by position, on what a mask looks at
      select rows at the same indices. */
  lemma {:induction false} MatchesAgree(t: Table, u: Table, keep: Row -> bool, from: nat)
    requires |t| == |u| && from <= |t|
    requires forall i :: 0 <= i < |t| ==> keep(t[i]) == keep(u[i])
    ensures MatchesFrom(t, keep, from) == MatchesFrom(u, keep, from)
    decreases |t| - from
  {
    if from < |t| {
      MatchesAgree(t, u, keep, from + 1);
    }
  }

  predicate Distinct<T(==)>(s: seq<T>)
  {
    forall i, j :: 0 <= i < j < |s| ==> s[i] != s[j]
  }

  lemma {:induction false} DistinctCardinality<T>(s: seq<T>)
    requires Distinct(s)
    ensures |set x | x in s| == |s|
  {
    if s != [] {
      DistinctCardinality(s[1..]);
      assert (set x | x in s) == {s[0]} + (set x | x in s[1..]);
    }
  }

  /** Non-decreasing by `key`. */
  predicate SortedBy<T>(s: seq<T>, key: T -> real)
  {
    forall i, j :: 0 <= i < j < |s| ==> key(s[i]) <= key(s[j])
  }

  function Insert<T(==)>(x: T, s: seq<T>, key: T -> real): (r: seq<T>)
    requires SortedBy(s, key)
    ensures SortedBy(r, key)
    ensures multiset(r) == multiset(s) + multiset{x}
  {
    if s == [] then [x]
    else if key(x) <= key(s[0]) then [x] + s
    else
      var rest := Insert(x, s[1..], key);
      assert s == [s[0]] + s[1..];
      HeadBelowInsert(s[0], x, s[1..], rest, key);
      [s[0]] + rest
  }

  /** A key no larger than `x` and than every element of `s` is no larger than
      any element of a permutation of `s` extended with `x`. */
  lemma HeadBelowInsert<T>(h: T, x: T, s: seq<T>, rest: seq<T>, key: T -> real)
    requires multiset(rest) == multiset(s) + multiset{x}
    requires key(h) <= key(x) && forall m :: 0 <= m < |s| ==> key(h) <= key(s[m])
    ensures forall k :: 0 <= k < |rest| ==> key(h) <= key(rest[k])
  {
    forall k | 0 <= k < |rest| ensures key(h) <= key(rest[k]) {
      assert rest[k] in multiset(rest);
      if rest[k] != x {
        assert rest[k] in multiset(s);
        var m :| 0 <= m < |s| && s[m] == rest[k];
      }
    }
  }

  /** `sort_values(by=key)`: a permutation of `s`, non-decreasing by `key`. The
      order it puts rows with equal keys in is its own (the library's default
      sort is not stable), and no contract below depends on it. */
  function SortBy<T(==)>(s: seq<T>, key: T -> real): (r: seq<T>)
    ensures SortedBy(r, key)
    ensures multiset(r) == multiset(s)
    ensures |r| == |s|
  {
    if s == [] then []
    else
      assert s == [s[0]] + s[1..];
      Insert(s[0], SortBy(s[1..], key), key)
  }

  lemma {:induction false} DistinctCountsAtMostOne<T>(s: seq<T>, y: T)
    requires Distinct(s)
    ensures multiset(s)[y] <= 1
  {
    if s != [] {
      DistinctCountsAtMostOne(s[1..], y);
      assert s == [s[0]] + s[1..];
    }
  }

  /** A permutation of a sequence without repetitions has none either. */
  lemma DistinctPermutation<T>(a: seq<T>, b: seq<T>)
    requires Distinct(a) && multiset(a) == multiset(b)
    ensures Distinct(b)
  {
    forall i, j | 0 <= i < j < |b| ensures b[i] != b[j] {
      if b[i] == b[j] {
        assert b == b[..j] + b[j..];
        assert b[i] in multiset(b[..j]) && b[j] in multiset(b[j..]);
        assert multiset(b)[b[i]] >= 2;
        DistinctCountsAtMostOne(a, b[i]);
      }
    }
  }
}
