/**
 The reorder transaction: an UPDATE joined with the numbered id list, committed only when as many rows
 changed as ids were given. It is the same for categories and for menu items.
 */
module CatalogOrder {
  import opened Common
  import opened Sequences
  import opened Text

  const MAX_REORDER_ITEMS: nat := 500

  /** What validOrder is for: 1 to 500 ids, none blank, no two equal after trimming. */
  ghost predicate ValidOrder(ids: seq<string>) {
    && 1 <= |ids| <= MAX_REORDER_ITEMS
    && (forall i :: 0 <= i < |ids| ==> TrimSpace(ids[i]) != "")
    && (forall i, j :: 0 <= i < j < |ids| ==> TrimSpace(ids[i]) != TrimSpace(ids[j]))
  }

  method CheckOrder(ids: seq<string>) returns (ok: bool)
    ensures ok <==> ValidOrder(ids)
  {
    if |ids| == 0 || |ids| > MAX_REORDER_ITEMS {
      return false;
    }
    var seen: set<string> := {};
    for i := 0 to |ids|
      invariant seen == set k | 0 <= k < i :: TrimSpace(ids[k])
      invariant forall k :: 0 <= k < i ==> TrimSpace(ids[k]) != ""
      invariant forall k, l :: 0 <= k < l < i ==> TrimSpace(ids[k]) != TrimSpace(ids[l])
    {
      var id := TrimSpace(ids[i]);
      if id == "" || id in seen {
        return false;
      }
      seen := seen + {id};
    }
    ok := true;
  }

  // ----- The UPDATE -----

  function PositionOf(ids: seq<string>, id: string): (p: nat)
    requires id in ids
    ensures p < |ids| && ids[p] == id
  {
    if ids[0] == id then 0 else 1 + PositionOf(ids[1..], id)
  }

  /** A sortable table row: its id, whether the statement's WHERE admits it, and how to renumber it. */
  datatype Shape<!R> = Shape(id: R -> string, inScope: R -> bool, renumber: (R, int) -> R)

  predicate Matches<R>(shape: Shape<R>, ids: seq<string>, row: R) {
    shape.inScope(row) && shape.id(row) in ids
  }

  function Renumbered<R>(shape: Shape<R>, ids: seq<string>, rows: seq<R>): (r: seq<R>)
    ensures |r| == |rows|
    ensures forall i :: 0 <= i < |rows| ==>
      r[i] == if Matches(shape, ids, rows[i]) then shape.renumber(rows[i], PositionOf(ids, shape.id(rows[i]))) else rows[i]
  {
    seq(|rows|, i requires 0 <= i < |rows| =>
      if Matches(shape, ids, rows[i]) then shape.renumber(rows[i], PositionOf(ids, shape.id(rows[i]))) else rows[i])
  }

  function Affected<R>(shape: Shape<R>, ids: seq<string>, rows: seq<R>): nat {
    if rows == [] then 0
    else (if Matches(shape, ids, rows[0]) then 1 else 0) + Affected(shape, ids, rows[1..])
  }

  /** None stands for the rollback. */
  function Reordered<R>(shape: Shape<R>, ids: seq<string>, rows: seq<R>): Option<seq<R>> {
    if Affected(shape, ids, rows) == |ids| then Some(Renumbered(shape, ids, rows)) else None
  }

  // ----- The row count decides exactly -----

  ghost function MatchedIds<R>(shape: Shape<R>, ids: seq<string>, rows: seq<R>): set<string> {
    set i | 0 <= i < |rows| && Matches(shape, ids, rows[i]) :: shape.id(rows[i])
  }

  lemma {:induction false} AffectedCountsMatchedIds<R>(shape: Shape<R>, ids: seq<string>, rows: seq<R>)
    requires DistinctBy(shape.id, rows)
    ensures |MatchedIds(shape, ids, rows)| == Affected(shape, ids, rows)
  {
    if rows != [] {
      var rest := rows[1..];
      AffectedCountsMatchedIds(shape, ids, rest);
      var here := if Matches(shape, ids, rows[0]) then {shape.id(rows[0])} else {};
      forall id
        ensures id in MatchedIds(shape, ids, rows) <==> id in here + MatchedIds(shape, ids, rest)
      {
        if id in MatchedIds(shape, ids, rows) {
          var i :| 0 <= i < |rows| && Matches(shape, ids, rows[i]) && shape.id(rows[i]) == id;
          if i > 0 {
            assert rest[i - 1] == rows[i];
          }
        }
        if id in MatchedIds(shape, ids, rest) {
          var i :| 0 <= i < |rest| && Matches(shape, ids, rest[i]) && shape.id(rest[i]) == id;
          assert rows[i + 1] == rest[i];
        }
      }
      assert MatchedIds(shape, ids, rows) == here + MatchedIds(shape, ids, rest);
      assert here !! MatchedIds(shape, ids, rest);
    }
  }

  ghost predicate Names<R>(shape: Shape<R>, rows: seq<R>, id: string) {
    exists i :: 0 <= i < |rows| && shape.inScope(rows[i]) && shape.id(rows[i]) == id
  }

  /** With distinct ids the counts agree exactly when every id names a row in scope. */
  lemma CommitExactlyWhenAllNamed<R>(shape: Shape<R>, ids: seq<string>, rows: seq<R>)
    requires Distinct(ids) && DistinctBy(shape.id, rows)
    ensures Reordered(shape, ids, rows).Some? <==> forall id :: id in ids ==> Names(shape, rows, id)
  {
    var matched := MatchedIds(shape, ids, rows);
    AffectedCountsMatchedIds(shape, ids, rows);
    DistinctCardinality(ids);
    SubsetCardinality(matched, Elements(ids));
    forall id | id in ids
      ensures id in matched <==> Names(shape, rows, id)
    {
      if Names(shape, rows, id) {
        var i :| 0 <= i < |rows| && shape.inScope(rows[i]) && shape.id(rows[i]) == id;
        assert Matches(shape, ids, rows[i]);
      }
    }
    if forall id :: id in ids ==> Names(shape, rows, id) {
      assert matched == Elements(ids);
    }
  }

  /** A commit numbers each named row by the position of its id and touches no other row. */
  lemma CommitIsExact<R>(shape: Shape<R>, ids: seq<string>, rows: seq<R>)
    requires Distinct(ids) && DistinctBy(shape.id, rows)
    requires Reordered(shape, ids, rows).Some?
    ensures
      var after := Reordered(shape, ids, rows).value;
      && |after| == |rows|
      && (forall p :: 0 <= p < |ids| ==> NumberedAt(shape, rows, after, ids[p], p))
      && (forall i :: 0 <= i < |rows| && !Matches(shape, ids, rows[i]) ==> after[i] == rows[i])
  {
    CommitExactlyWhenAllNamed(shape, ids, rows);
    var after := Reordered(shape, ids, rows).value;
    forall p | 0 <= p < |ids|
      ensures NumberedAt(shape, rows, after, ids[p], p)
    {
      assert Names(shape, rows, ids[p]);
      var i :| 0 <= i < |rows| && shape.inScope(rows[i]) && shape.id(rows[i]) == ids[p];
      assert after[i] == shape.renumber(rows[i], p);
    }
  }

  ghost predicate NumberedAt<R>(shape: Shape<R>, rows: seq<R>, after: seq<R>, id: string, p: int)
    requires |after| == |rows|
  {
    exists i :: 0 <= i < |rows| && shape.inScope(rows[i]) && shape.id(rows[i]) == id
                && after[i] == shape.renumber(rows[i], p)
  }
}
