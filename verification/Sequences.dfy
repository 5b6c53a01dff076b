/** Rows as sequences: selecting, finding, counting, and the uniqueness of a strictly sorted arrangement. */
module Sequences {
  import opened Common

  ghost predicate Distinct<T>(s: seq<T>) {
    forall i, j :: 0 <= i < j < |s| ==> s[i] != s[j]
  }

  ghost predicate DistinctBy<R>(id: R -> string, rows: seq<R>) {
    forall i, j :: 0 <= i < j < |rows| ==> id(rows[i]) != id(rows[j])
  }

  ghost function Elements<T>(s: seq<T>): set<T> {
    set x | x in s
  }

  lemma {:induction false} DistinctCardinality<T>(s: seq<T>)
    requires Distinct(s)
    ensures |Elements(s)| == |s|
  {
    if s != [] {
      DistinctCardinality(s[1..]);
      assert Elements(s) == {s[0]} + Elements(s[1..]);
    }
  }

  lemma {:induction false} SubsetCardinality<T>(a: set<T>, b: set<T>)
    requires a <= b
    ensures |a| <= |b|
    ensures |a| == |b| ==> a == b
  {
    if a != {} {
      var x :| x in a;
      SubsetCardinality(a - {x}, b - {x});
      assert a == (a - {x}) + {x} && b == (b - {x}) + {x};
    }
  }

  lemma SameElementsSameLength<T>(s: seq<T>, t: seq<T>)
    requires Distinct(s) && Distinct(t)
    requires forall x :: x in s <==> x in t
    ensures |s| == |t|
  {
    DistinctCardinality(s);
    DistinctCardinality(t);
    assert Elements(s) == Elements(t);
  }

  ghost predicate StrictlySorted<T(!new)>(before: (T, T) -> bool, s: seq<T>) {
    forall i, j :: 0 <= i < j < |s| ==> before(s[i], s[j])
  }

  ghost predicate NeverInverted<T(!new)>(before: (T, T) -> bool, s: seq<T>) {
    forall i, j :: 0 <= i < j < |s| ==> !before(s[j], s[i])
  }

  /** A strictly sorted arrangement is the only one of its elements without an inversion. */
  lemma {:induction false} StrictArrangementIsUnique<T(!new)>(before: (T, T) -> bool, s: seq<T>, t: seq<T>)
    requires Distinct(s) && NeverInverted(before, s)
    requires Distinct(t) && StrictlySorted(before, t)
    requires forall x :: x in s <==> x in t
    ensures s == t
    decreases |t|
  {
    SameElementsSameLength(s, t);
    if t != [] {
      assert s[0] in t && t[0] in s;
      var i :| 0 <= i < |t| && t[i] == s[0];
      var j :| 0 <= j < |s| && s[j] == t[0];
      assert s[0] == t[0];
      forall x
        ensures x in s[1..] <==> x in t[1..]
      {
        assert x in s <==> x == s[0] || x in s[1..];
        assert x in t <==> x == t[0] || x in t[1..];
      }
      StrictArrangementIsUnique(before, s[1..], t[1..]);
      assert s == [s[0]] + s[1..] && t == [t[0]] + t[1..];
    }
  }

  // ----- WHERE -----

  function Filter<R>(rows: seq<R>, keep: R -> bool): seq<R> {
    if rows == [] then [] else (if keep(rows[0]) then [rows[0]] else []) + Filter(rows[1..], keep)
  }

  lemma {:induction false} FilterMembers<R>(rows: seq<R>, keep: R -> bool)
    ensures forall r :: r in Filter(rows, keep) <==> r in rows && keep(r)
    ensures Distinct(rows) ==> Distinct(Filter(rows, keep))
  {
    if rows != [] {
      FilterMembers(rows[1..], keep);
      assert rows == [rows[0]] + rows[1..];
    }
  }

  lemma {:induction false} FilterAppended<R>(rows: seq<R>, row: R, keep: R -> bool)
    ensures Filter(rows + [row], keep) == Filter(rows, keep) + if keep(row) then [row] else []
  {
    if rows == [] {
      assert rows + [row] == [row] && [row][1..] == [];
    } else {
      assert (rows + [row])[1..] == rows[1..] + [row] && (rows + [row])[0] == rows[0];
      FilterAppended(rows[1..], row, keep);
      var here, more := if keep(rows[0]) then [rows[0]] else [], if keep(row) then [row] else [];
      assert here + (Filter(rows[1..], keep) + more) == (here + Filter(rows[1..], keep)) + more;
    }
  }

  function Places<R>(rows: seq<R>, keep: R -> bool): set<int> {
    set k | 0 <= k < |rows| && keep(rows[k])
  }

  /** As many rows are selected as there are places at which one is kept. */
  lemma {:induction false} FilterCounts<R>(rows: seq<R>, keep: R -> bool)
    ensures |Filter(rows, keep)| == |Places(rows, keep)|
    decreases |rows|
  {
    if rows != [] {
      var n := |rows| - 1;
      var front := rows[..n];
      FilterCounts(front, keep);
      assert rows == front + [rows[n]];
      FilterAppended(front, rows[n], keep);
      assert Places(rows, keep) == Places(front, keep) + if keep(rows[n]) then {n} else {};
    }
  }

  /** Changing only rows that are not kept, before or after, changes nothing that is selected. */
  lemma {:induction false} FilterElsewhere<R>(rows: seq<R>, changed: seq<R>, keep: R -> bool)
    requires |rows| == |changed|
    requires forall i :: 0 <= i < |rows| ==> changed[i] == rows[i] || (!keep(rows[i]) && !keep(changed[i]))
    ensures Filter(changed, keep) == Filter(rows, keep)
  {
    if rows != [] {
      FilterElsewhere(rows[1..], changed[1..], keep);
    }
  }

  lemma {:induction false} FilterTwice<R>(rows: seq<R>, keep: R -> bool, also: R -> bool)
    requires forall r :: r in rows && keep(r) ==> also(r)
    ensures Filter(Filter(rows, also), keep) == Filter(rows, keep)
  {
    if rows != [] {
      FilterTwice(rows[1..], keep, also);
      var rest := Filter(rows[1..], also);
      assert ([rows[0]] + rest)[1..] == rest && [] + rest == rest;
    }
  }

  function Find<R>(rows: seq<R>, wanted: R -> bool): (r: Option<R>)
    ensures r.Some? ==> r.value in rows && wanted(r.value)
    ensures r.None? ==> forall row :: row in rows ==> !wanted(row)
  {
    if rows == [] then None
    else if wanted(rows[0]) then Some(rows[0])
    else Find(rows[1..], wanted)
  }
}
