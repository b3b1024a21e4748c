/** Recovery records: how a node was configured before anything was changed. */
module State {
  import opened Wrappers
  import opened Model

  datatype OriginalState = OriginalState(
    node: string,
    capturedAt: int,
    governor: string,
    scalingMin: int,
    scalingMax: int,
    hardwareMin: int,
    hardwareMax: int)

  /** A row of the `original_states` table; `retiredAt` is empty while the record is active. */
  datatype Row = Row(data: OriginalState, retiredAt: Option<int>)

  datatype StateError = Unavailable | UnknownValues | Inconsistent | AlreadyExists

  function OriginalFrom(snapshot: Snapshot): (r: Result<OriginalState, StateError>)
    ensures r.Ok? ==>
      && snapshot.cpufreqAvailable
      && r.value.node == snapshot.node && r.value.capturedAt == snapshot.capturedAt
      && r.value.hardwareMin <= r.value.scalingMin <= r.value.scalingMax <= r.value.hardwareMax
      && snapshot.cpu.governor == Some(r.value.governor)
      && snapshot.cpu.scalingMin == Some(r.value.scalingMin) && snapshot.cpu.scalingMax == Some(r.value.scalingMax)
      && snapshot.cpu.hardwareMin == Some(r.value.hardwareMin) && snapshot.cpu.hardwareMax == Some(r.value.hardwareMax)
    ensures r.Err? <==>
      || !snapshot.cpufreqAvailable || snapshot.cpu.governor.None?
      || snapshot.cpu.scalingMin.None? || snapshot.cpu.scalingMax.None?
      || snapshot.cpu.hardwareMin.None? || snapshot.cpu.hardwareMax.None?
      || snapshot.cpu.scalingMin.value < snapshot.cpu.hardwareMin.value
      || snapshot.cpu.scalingMax.value < snapshot.cpu.scalingMin.value
      || snapshot.cpu.hardwareMax.value < snapshot.cpu.scalingMax.value
    ensures r.Err? && r.error.Unavailable? <==> !snapshot.cpufreqAvailable
    ensures r.Err? && r.error.UnknownValues? <==>
      && snapshot.cpufreqAvailable
      && (|| snapshot.cpu.governor.None? || snapshot.cpu.scalingMin.None? || snapshot.cpu.scalingMax.None?
          || snapshot.cpu.hardwareMin.None? || snapshot.cpu.hardwareMax.None?)
    ensures r.Err? ==> !r.error.AlreadyExists?
  {
    var cpu := snapshot.cpu;
    if !snapshot.cpufreqAvailable then Err(Unavailable)
    else if cpu.governor.None? || cpu.scalingMin.None? || cpu.scalingMax.None?
            || cpu.hardwareMin.None? || cpu.hardwareMax.None? then Err(UnknownValues)
    else if !(cpu.hardwareMin.value <= cpu.scalingMin.value <= cpu.scalingMax.value <= cpu.hardwareMax.value)
    then Err(Inconsistent)
    else Ok(OriginalState(snapshot.node, snapshot.capturedAt, cpu.governor.value, cpu.scalingMin.value,
                          cpu.scalingMax.value, cpu.hardwareMin.value, cpu.hardwareMax.value))
  }

  predicate IsActive(row: Row, node: string) {
    row.data.node == node && row.retiredAt.None?
  }

  /** The partial unique index: at most one active record for each node. */
  ghost predicate OneActive(rows: seq<Row>) {
    forall i, j :: 0 <= i < j < |rows| && rows[i].retiredAt.None? && rows[j].retiredAt.None?
                   ==> rows[i].data.node != rows[j].data.node
  }

  /** The active record of a node, as the query finds it. */
  function Load(rows: seq<Row>, node: string): (r: Option<OriginalState>)
    ensures r.Some? <==> exists i :: 0 <= i < |rows| && IsActive(rows[i], node)
    ensures r.Some? ==> exists i :: 0 <= i < |rows| && IsActive(rows[i], node) && rows[i].data == r.value
  {
    if rows == [] then None
    else if IsActive(rows[0], node) then Some(rows[0].data)
    else
      var rest := Load(rows[1..], node);
      assert rest.Some? ==> forall i :: 0 <= i < |rows[1..]| ==> rows[1..][i] == rows[i + 1];
      assert forall i :: 0 < i < |rows| ==> rows[i] == rows[1..][i - 1];
      rest
  }

  /** Insertion under the unique index: refused when the node has an active record. */
  function Inserted(rows: seq<Row>, state: OriginalState): Result<seq<Row>, StateError> {
    if Load(rows, state.node).Some? then Err(AlreadyExists) else Ok(rows + [Row(state, None)])
  }

  /** The update that marks the node's active record as used. */
  function Retired(rows: seq<Row>, node: string, now: int): (r: seq<Row>)
    ensures |r| == |rows|
    ensures forall i :: 0 <= i < |rows| ==>
      r[i] == if IsActive(rows[i], node) then rows[i].(retiredAt := Some(now)) else rows[i]
  {
    seq(|rows|, i requires 0 <= i < |rows| =>
      if IsActive(rows[i], node) then rows[i].(retiredAt := Some(now)) else rows[i])
  }

  lemma LoadIsTheActiveRecord(rows: seq<Row>, i: nat)
    requires OneActive(rows) && i < |rows| && rows[i].retiredAt.None?
    ensures Load(rows, rows[i].data.node) == Some(rows[i].data)
  {
    assert IsActive(rows[i], rows[i].data.node);
  }

  /** Saving adds one active record, loadable from then on, and leaves every other node's alone. */
  lemma InsertedRecordIsActive(rows: seq<Row>, state: OriginalState)
    requires OneActive(rows)
    ensures Inserted(rows, state).Ok? <==> Load(rows, state.node).None?
    ensures Inserted(rows, state).Ok? ==>
      var rows' := Inserted(rows, state).value;
      && OneActive(rows') && rows' == rows + [Row(state, None)]
      && Load(rows', state.node) == Some(state)
      && forall other :: other != state.node ==> Load(rows', other) == Load(rows, other)
  {
    if Inserted(rows, state).Ok? {
      var rows' := Inserted(rows, state).value;
      forall i | 0 <= i < |rows| && rows[i].retiredAt.None? ensures rows[i].data.node != state.node {
        assert IsActive(rows[i], rows[i].data.node);
      }
      LoadIsTheActiveRecord(rows', |rows|);
      forall other | other != state.node ensures Load(rows', other) == Load(rows, other) {
        SameActive(rows, rows', other);
      }
    }
  }

  /** Retiring frees the node, keeps every row's data and touches no other node. */
  lemma RetiringFreesTheNode(rows: seq<Row>, node: string, now: int)
    requires OneActive(rows)
    ensures OneActive(Retired(rows, node, now))
    ensures Load(Retired(rows, node, now), node).None?
    ensures forall other :: other != node ==> Load(Retired(rows, node, now), other) == Load(rows, other)
    ensures forall i :: 0 <= i < |rows| ==> Retired(rows, node, now)[i].data == rows[i].data
  {
    var rows' := Retired(rows, node, now);
    forall other | other != node ensures Load(rows', other) == Load(rows, other) {
      SameActive(rows, rows', other);
    }
  }

  /** Two tables with the same active records of a node load the same state. */
  lemma SameActive(rows: seq<Row>, rows': seq<Row>, node: string)
    requires |rows| <= |rows'| && OneActive(rows) && OneActive(rows')
    requires forall i :: 0 <= i < |rows'| && IsActive(rows'[i], node) ==> i < |rows| && rows[i] == rows'[i]
    requires forall i :: 0 <= i < |rows| && IsActive(rows[i], node) ==> rows'[i] == rows[i]
    ensures Load(rows', node) == Load(rows, node)
  {
    if Load(rows, node).Some? {
      var i :| 0 <= i < |rows| && IsActive(rows[i], node) && rows[i].data == Load(rows, node).value;
      LoadIsTheActiveRecord(rows', i);
    }
  }

  /** The table that the engine inserts into and updates. */
  class Store {
    var rows: seq<Row>

    constructor ()
      ensures rows == [] && OneActive(rows)
    {
      rows := [];
    }

    method Save(snapshot: Snapshot) returns (r: Result<OriginalState, StateError>)
      modifies this
      ensures r == (match OriginalFrom(snapshot)
                    case Err(e) => Err(e)
                    case Ok(state) => if Inserted(old(rows), state).Ok? then Ok(state) else Err(AlreadyExists))
      ensures if r.Ok? then Ok(rows) == Inserted(old(rows), r.value) else rows == old(rows)
      ensures old(OneActive(rows)) ==> OneActive(rows)
    {
      r := OriginalFrom(snapshot);
      if r.Ok? {
        if OneActiveOf(snapshot.node) {
          r := Err(AlreadyExists);
        } else {
          if OneActive(rows) { InsertedRecordIsActive(rows, r.value); }
          rows := rows + [Row(r.value, None)];
        }
      }
    }

    predicate OneActiveOf(node: string)
      reads this
    {
      Load(rows, node).Some?
    }

    method Retire(node: string, now: int) returns (any: bool)
      modifies this
      ensures rows == Retired(old(rows), node, now)
      ensures any == old(Load(rows, node)).Some?
      ensures old(OneActive(rows)) ==> OneActive(rows)
    {
      any := Load(rows, node).Some?;
      rows := Retired(rows, node, now);
    }
  }
}
