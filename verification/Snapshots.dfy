/** The snapshot table and its retention. */
module Snapshots {
  datatype SnapshotRow = SnapshotRow(id: nat, node: string)

  /** Ids grow, so the newest row has the largest. */
  ghost predicate Ordered(rows: seq<SnapshotRow>) {
    forall i, j :: 0 <= i < j < |rows| ==> rows[i].id < rows[j].id
  }

  function Saved(rows: seq<SnapshotRow>, node: string): (r: seq<SnapshotRow>)
    ensures Ordered(rows) ==> Ordered(r)
  {
    rows + [SnapshotRow(if rows == [] then 1 else rows[|rows| - 1].id + 1, node)]
  }

  /** The rows of one node, oldest first. */
  function Of(rows: seq<SnapshotRow>, node: string): seq<SnapshotRow> {
    if rows == [] then [] else (if rows[0].node == node then [rows[0]] else []) + Of(rows[1..], node)
  }

  /** Deletes the rows of the node that have at least `keep` newer rows of that node. */
  function Pruned(rows: seq<SnapshotRow>, node: string, keep: nat): seq<SnapshotRow> {
    if rows == [] then []
    else if rows[0].node == node && |Of(rows[1..], node)| >= keep then Pruned(rows[1..], node, keep)
    else [rows[0]] + Pruned(rows[1..], node, keep)
  }

  function Newest<T>(s: seq<T>, keep: nat): seq<T> {
    if |s| <= keep then s else s[|s| - keep..]
  }

  lemma OfCons(row: SnapshotRow, rest: seq<SnapshotRow>, node: string)
    ensures Of([row] + rest, node) == (if row.node == node then [row] else []) + Of(rest, node)
  {
    assert ([row] + rest)[1..] == rest;
  }

  lemma NewestForgets<T>(x: T, s: seq<T>, keep: nat)
    ensures |s| >= keep ==> Newest([x] + s, keep) == Newest(s, keep)
    ensures |s| < keep ==> Newest([x] + s, keep) == [x] + s && Newest(s, keep) == s
  {
  }

  /** Exactly the newest `keep` rows of the node survive a pruning. */
  lemma {:induction false} PruningKeepsTheNewest(rows: seq<SnapshotRow>, node: string, keep: nat)
    ensures Of(Pruned(rows, node, keep), node) == Newest(Of(rows, node), keep)
  {
    if rows != [] {
      var rest := Of(rows[1..], node);
      PruningKeepsTheNewest(rows[1..], node, keep);
      OfCons(rows[0], Pruned(rows[1..], node, keep), node);
      if rows[0].node == node {
        NewestForgets(rows[0], rest, keep);
        assert Of(rows, node) == [rows[0]] + rest;
      } else {
        assert Of(rows, node) == rest;
      }
    }
  }

  /** Pruning one node leaves every row of the others. */
  lemma {:induction false} PruningKeepsOtherNodes(rows: seq<SnapshotRow>, node: string, keep: nat, other: string)
    requires other != node
    ensures Of(Pruned(rows, node, keep), other) == Of(rows, other)
  {
    if rows != [] {
      PruningKeepsOtherNodes(rows[1..], node, keep, other);
      OfCons(rows[0], Pruned(rows[1..], node, keep), other);
    }
  }

  lemma {:induction false} PruningShrinks(rows: seq<SnapshotRow>, node: string, keep: nat)
    ensures |Pruned(rows, node, keep)| <= |rows|
  {
    if rows != [] { PruningShrinks(rows[1..], node, keep); }
  }

  lemma {:induction false} SavingAddsOne(rows: seq<SnapshotRow>, row: SnapshotRow, node: string)
    ensures Of(rows + [row], node) == Of(rows, node) + (if row.node == node then [row] else [])
  {
    if rows == [] {
      assert rows + [row] == [row];
    } else {
      SavingAddsOne(rows[1..], row, node);
      assert (rows + [row])[1..] == rows[1..] + [row];
    }
  }

  lemma {:induction false} PrunedRowsAreRows(rows: seq<SnapshotRow>, node: string, keep: nat)
    ensures forall row :: row in Pruned(rows, node, keep) ==> row in rows
  {
    if rows != [] { PrunedRowsAreRows(rows[1..], node, keep); }
  }

  lemma {:induction false} PruningKeepsTheOrder(rows: seq<SnapshotRow>, node: string, keep: nat)
    requires Ordered(rows)
    ensures Ordered(Pruned(rows, node, keep))
  {
    if rows != [] {
      PruningKeepsTheOrder(rows[1..], node, keep);
      PrunedRowsAreRows(rows[1..], node, keep);
      var rest := Pruned(rows[1..], node, keep);
      forall row | row in rest ensures rows[0].id < row.id {
        var i :| 0 <= i < |rows[1..]| && rows[1..][i] == row;
      }
    }
  }
}
