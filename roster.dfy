/** The editable roster both calculator pages keep: an ordered list of rows,
    each carrying a caller-assigned id, with a row appended, removed or edited
    by id. The page replaces the whole list on each edit. */
module Roster {
  import opened Common

  predicate DistinctIds<T>(rows: seq<T>, id: T -> string)
  {
    forall i, j :: 0 <= i < j < |rows| ==> id(rows[i]) != id(rows[j])
  }

  /** `rows.filter((row) => row.id !== target)`. */
  function WithoutId<T(!new)>(rows: seq<T>, id: T -> string, target: string): seq<T>
  {
    Filter(rows, (row: T) => id(row) != target)
  }

  /** `if (rows.length > 1) setRows(rows.filter(...))`: a single row is never removed;
      otherwise every row with the target id goes and the others stay, in order. */
  function RemoveRow<T(!new)>(rows: seq<T>, id: T -> string, target: string): (r: seq<T>)
    ensures |rows| <= 1 ==> r == rows
    ensures |rows| > 1 ==> forall x :: x in r <==> x in rows && id(x) != target
    ensures r == [] ==> rows == [] || forall x :: x in rows ==> id(x) == target
  {
    if |rows| > 1 then WithoutId(rows, id, target) else rows
  }

  /** Removing a row that is not there changes nothing. */
  lemma RemoveAbsent<T(!new)>(rows: seq<T>, id: T -> string, target: string)
    requires forall i :: 0 <= i < |rows| ==> id(rows[i]) != target
    ensures RemoveRow(rows, id, target) == rows
  {
    FilterKeepsAll(rows, (row: T) => id(row) != target);
  }

  /** With distinct ids, removal never empties a non-empty roster, keeps the ids distinct
      and takes out at most one row. */
  lemma RemoveKeepsRoster<T(!new)>(rows: seq<T>, id: T -> string, target: string)
    requires rows != [] && DistinctIds(rows, id)
    ensures RemoveRow(rows, id, target) != []
    ensures DistinctIds(RemoveRow(rows, id, target), id)
    ensures |rows| > 1 ==> |RemoveRow(rows, id, target)| == |rows| - 1 || RemoveRow(rows, id, target) == rows
  {
    if |rows| > 1 {
      var k := if id(rows[0]) != target then 0 else 1;
      assert rows[k] in WithoutId(rows, id, target);
      RemoveDropsAtMostOne(rows, id, target);
      FilterKeepsDistinct(rows, id, (row: T) => id(row) != target);
    }
  }

  /** The rows after the first have distinct ids, all different from the first row's. */
  lemma DistinctTail<T>(rows: seq<T>, id: T -> string)
    requires rows != [] && DistinctIds(rows, id)
    ensures DistinctIds(rows[1..], id)
    ensures forall x :: x in rows[1..] ==> id(x) != id(rows[0])
  {
    var tail := rows[1..];
    forall i, j | 0 <= i < j < |tail| ensures id(tail[i]) != id(tail[j]) {
      assert tail[i] == rows[i + 1] && tail[j] == rows[j + 1];
    }
    forall x | x in tail ensures id(x) != id(rows[0]) {
      var k :| 0 <= k < |tail| && tail[k] == x;
      assert x == rows[k + 1];
    }
  }

  /** Any filter of a roster with distinct ids has distinct ids. */
  lemma {:induction false} FilterKeepsDistinct<T(!new)>(rows: seq<T>, id: T -> string, keep: T -> bool)
    requires DistinctIds(rows, id)
    ensures DistinctIds(Filter(rows, keep), id)
  {
    if rows != [] {
      var tail := rows[1..];
      DistinctTail(rows, id);
      FilterKeepsDistinct(tail, id, keep);
      var rt := Filter(tail, keep);
      var r := Filter(rows, keep);
      if keep(rows[0]) {
        assert r == [rows[0]] + rt;
        forall i, j | 0 <= i < j < |r| ensures id(r[i]) != id(r[j]) {
          assert r[j] == rt[j - 1] && r[j] in tail;
          if i > 0 {
            assert r[i] == rt[i - 1];
          }
        }
      } else {
        assert r == rt;
      }
    }
  }

  /** With distinct ids at most one row carries the target: the filter drops that row alone. */
  lemma {:induction false} RemoveDropsAtMostOne<T(!new)>(rows: seq<T>, id: T -> string, target: string)
    requires DistinctIds(rows, id)
    ensures |WithoutId(rows, id, target)| == |rows| - 1 || WithoutId(rows, id, target) == rows
  {
    var keep := (row: T) => id(row) != target;
    if rows != [] {
      var tail := rows[1..];
      DistinctTail(rows, id);
      assert Filter(rows, keep) == (if keep(rows[0]) then [rows[0]] else []) + Filter(tail, keep);
      if keep(rows[0]) {
        RemoveDropsAtMostOne(tail, id, target);
        assert rows == [rows[0]] + tail;
      } else {
        forall i | 0 <= i < |tail| ensures keep(tail[i]) {
          assert tail[i] in tail;
        }
        FilterKeepsAll(tail, keep);
      }
    }
  }

  /** `rows.map((row) => row.id === target ? edit(row) : row)`. */
  function UpdateRows<T>(rows: seq<T>, id: T -> string, target: string, edit: T -> T): (r: seq<T>)
    ensures |r| == |rows|
    ensures forall i :: 0 <= i < |rows| && id(rows[i]) != target ==> r[i] == rows[i]
    ensures forall i :: 0 <= i < |rows| && id(rows[i]) == target ==> r[i] == edit(rows[i])
  {
    MapWhere(rows, (row: T) => id(row) == target, edit)
  }

  /** Appending a row whose id is new keeps the ids distinct. */
  lemma AddKeepsDistinct<T>(rows: seq<T>, id: T -> string, row: T)
    requires DistinctIds(rows, id)
    requires forall i :: 0 <= i < |rows| ==> id(rows[i]) != id(row)
    ensures DistinctIds(rows + [row], id)
  {
    var r := rows + [row];
    forall i, j | 0 <= i < j < |r| ensures id(r[i]) != id(r[j]) {
      assert r[i] == rows[i];
    }
  }

  /** An edit that leaves the id alone keeps the ids distinct. */
  lemma UpdateKeepsDistinct<T>(rows: seq<T>, id: T -> string, target: string, edit: T -> T)
    requires DistinctIds(rows, id)
    requires forall x :: id(edit(x)) == id(x)
    ensures DistinctIds(UpdateRows(rows, id, target, edit), id)
  {
    var r := UpdateRows(rows, id, target, edit);
    forall i, j | 0 <= i < j < |r| ensures id(r[i]) != id(r[j]) {
      assert id(r[i]) == id(rows[i]) && id(r[j]) == id(rows[j]);
    }
  }
}
