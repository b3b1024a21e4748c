/**
 What the Linux driver guarantees for every plan, every list of CPUs and every
 sequence of read and write outcomes.
 */
module DriverProperties {
  import opened Wrappers
  import opened Host
  import opened Plan
  import opened Driver

  // ----- What holds of a host's files

  ghost predicate AtTarget(files: Files, cells: seq<Cell>, lo: nat, hi: nat)
    requires hi <= |cells|
  {
    forall i :: lo <= i < hi ==> cells[i].path in files && files[cells[i].path] == cells[i].target
  }

  ghost predicate AtExpected(files: Files, cells: seq<Cell>, lo: nat, hi: nat)
    requires hi <= |cells|
  {
    forall i :: lo <= i < hi ==> cells[i].path in files && files[cells[i].path] == cells[i].expected
  }

  /** No file is created or removed, and none but those of the cells `lo..hi` changes. */
  ghost predicate OnlyCells(before: Files, after: Files, cells: seq<Cell>, lo: nat, hi: nat)
    requires hi <= |cells|
  {
    && before.Keys == after.Keys
    && forall p :: p in before && (forall i :: lo <= i < hi ==> cells[i].path != p) ==> after[p] == before[p]
  }

  // ----- One cell

  lemma PutValueEffect(env: Env, w: World, path: Path, value: Value)
    ensures
      var (w', report) := PutValue(env, w, path, value);
      && w'.files.Keys == w.files.Keys
      && (forall p :: p in w.files && p != path ==> w'.files[p] == w.files[p])
      && (report.Verified? ==> path in w.files && w'.files[path] == value)
      && w'.history == w.history + [w'.files]
  {
  }

  /** The write made at `tick` raised and left something other than the old value behind. */
  predicate Torn(env: Env, tick: nat, old': Value) {
    Next(env, tick).write.Raises? && Next(env, tick).write.left.Some? && Next(env, tick).write.left != Some(old')
  }

  lemma RaisingWriteEffect(env: Env, w: World, path: Path, value: Value)
    requires path in w.files && PutValue(env, w, path, value).1.Threw?
    ensures
      var w' := PutValue(env, w, path, value).0;
      && w'.tick == w.tick + 1 && path in w'.files
      && (w'.files[path] == w.files[path] <==> !Torn(env, w.tick, w.files[path]))
  {
  }

  // ----- The three loops

  lemma {:induction false} DriftCheckEffect(env: Env, w: World, cells: seq<Cell>, i: nat)
    requires i <= |cells|
    ensures
      var (w', drift) := CheckDrift(env, w, cells, i);
      && w'.files == w.files && w'.history == w.history
      && (drift.None? ==> AtExpected(w.files, cells, i, |cells|))
      && (drift.Some? ==> drift.value.Drift?)
    decreases |cells| - i
  {
    if i < |cells| && ReadAt(env, w, cells[i].path).1 == Some(cells[i].expected) {
      DriftCheckEffect(env, ReadAt(env, w, cells[i].path).0, cells, i + 1);
    }
  }

  /** The number of cells that were written, taking in the one whose write raised. */
  function Attempted(r: Forward): nat {
    if r.failure.Some? && r.failure.value.WriteRaised? then r.done + 1 else r.done
  }

  lemma {:induction false} WriteCellsEffect(env: Env, w: World, cells: seq<Cell>, i: nat)
    requires i <= |cells| && Distinct(cells)
    ensures
      var r := WriteCells(env, w, cells, i);
      var attempted := Attempted(r);
      && attempted <= |cells|
      && OnlyCells(w.files, r.w.files, cells, i, attempted)
      && (r.failure.None? ==> r.done == |cells| && AtTarget(r.w.files, cells, i, |cells|))
      && (r.failure.Some? ==> i < attempted && AtTarget(r.w.files, cells, i, attempted - 1))
      && (r.failure.Some? && r.failure.value.WriteRaised? && cells[r.done].path in w.files ==>
            && r.w.tick > 0 && cells[r.done].path in r.w.files
            && (r.w.files[cells[r.done].path] == w.files[cells[r.done].path]
                <==> !Torn(env, r.w.tick - 1, w.files[cells[r.done].path])))
    decreases |cells| - i
  {
    if i < |cells| {
      var cell := cells[i];
      PutValueEffect(env, w, cell.path, cell.target);
      var (w1, report) := PutValue(env, w, cell.path, cell.target);
      if report.Verified? {
        WriteCellsEffect(env, w1, cells, i + 1);
      } else if report.Threw? && cell.path in w.files {
        RaisingWriteEffect(env, w, cell.path, cell.target);
      }
    }
  }

  /** The rollback changes only the files it is given, and lists none but them as stuck. */
  lemma {:induction false} UndoCellsTouches(env: Env, w: World, cells: seq<Cell>, k: nat)
    requires k <= |cells| && Distinct(cells)
    ensures OnlyCells(w.files, UndoCells(env, w, cells, k).0.files, cells, 0, k)
    ensures forall p :: p in UndoCells(env, w, cells, k).1 ==> exists i :: 0 <= i < k && cells[i].path == p
    decreases k
  {
    if k > 0 {
      PutValueEffect(env, w, cells[k - 1].path, cells[k - 1].expected);
      var w1 := PutValue(env, w, cells[k - 1].path, cells[k - 1].expected).0;
      UndoCellsTouches(env, w1, cells, k - 1);
      LastCellThenOthers(w.files, w1.files, UndoCells(env, w1, cells, k - 1).0.files, cells, k);
    }
  }

  /** One cell's file changes, then only those of earlier cells. */
  lemma LastCellThenOthers(before: Files, middle: Files, after: Files, cells: seq<Cell>, k: nat)
    requires 0 < k <= |cells| && Distinct(cells) && middle.Keys == before.Keys
    requires forall p :: p in before && p != cells[k - 1].path ==> middle[p] == before[p]
    requires OnlyCells(middle, after, cells, 0, k - 1)
    ensures OnlyCells(before, after, cells, 0, k)
    ensures var p := cells[k - 1].path; p in middle ==> p in after && after[p] == middle[p]
  {
  }

  /** Every file that the rollback does not list as stuck is back at its expected value. */
  lemma {:induction false} UndoCellsRestores(env: Env, w: World, cells: seq<Cell>, k: nat, i: nat)
    requires i < k <= |cells| && Distinct(cells) && cells[i].path !in UndoCells(env, w, cells, k).1
    ensures AtExpected(UndoCells(env, w, cells, k).0.files, cells, i, i + 1)
    decreases k
  {
    var cell := cells[k - 1];
    PutValueEffect(env, w, cell.path, cell.expected);
    var w1 := PutValue(env, w, cell.path, cell.expected).0;
    if i == k - 1 {
      UndoCellsTouches(env, w1, cells, k - 1);
      LastCellThenOthers(w.files, w1.files, UndoCells(env, w1, cells, k - 1).0.files, cells, k);
    } else {
      UndoCellsRestores(env, w1, cells, k - 1, i);
    }
  }

  /** Every file that the rollback does not list as stuck is back at its expected value, and no other changes. */
  lemma UndoCellsEffect(env: Env, w: World, cells: seq<Cell>, k: nat)
    requires k <= |cells| && Distinct(cells)
    ensures
      var (w', stuck) := UndoCells(env, w, cells, k);
      && OnlyCells(w.files, w'.files, cells, 0, k)
      && (forall i :: 0 <= i < k && cells[i].path !in stuck ==> AtExpected(w'.files, cells, i, i + 1))
      && (forall p :: p in stuck ==> exists i :: 0 <= i < k && cells[i].path == p)
  {
    UndoCellsTouches(env, w, cells, k);
    forall i | 0 <= i < k && cells[i].path !in UndoCells(env, w, cells, k).1
      ensures AtExpected(UndoCells(env, w, cells, k).0.files, cells, i, i + 1)
    {
      UndoCellsRestores(env, w, cells, k, i);
    }
  }

  // ----- The plan in terms of files and CPUs

  /** A file that the plan may write. */
  ghost predicate Planned(actions: seq<Action>, policies: seq<string>, p: Path)
    requires Supported(actions)
  {
    p.cpu in policies && exists i :: 0 <= i < |actions| && StepOf(actions[i]).file == p.file
  }

  ghost predicate TargetsHold(actions: seq<Action>, policies: seq<string>, files: Files)
    requires Supported(actions)
  {
    forall i, cpu :: 0 <= i < |actions| && cpu in policies ==>
      var step := StepOf(actions[i]);
      Path(cpu, step.file) in files && files[Path(cpu, step.file)] == step.target
  }

  ghost predicate ExpectedHold(actions: seq<Action>, policies: seq<string>, files: Files)
    requires Supported(actions)
  {
    forall i, cpu :: 0 <= i < |actions| && cpu in policies ==>
      var step := StepOf(actions[i]);
      Path(cpu, step.file) in files && files[Path(cpu, step.file)] == step.expected
  }

  ghost predicate Applicable(plan: ChangePlan, policies: seq<string>) {
    && IsPolicyList(policies)
    && (Supported(plan.actions) ==> OneActionPerFile(plan.actions))
  }

  lemma CellsArePlanned(actions: seq<Action>, policies: seq<string>)
    requires IsPolicyList(policies) && Supported(actions) && OneActionPerFile(actions)
    ensures
      var cells := PlanCells(actions, policies);
      && Distinct(cells)
      && forall p :: Planned(actions, policies, p) <==> exists i :: 0 <= i < |cells| && cells[i].path == p
  {
    var cells := PlanCells(actions, policies);
    Cpu0ComesFirst(policies);
    CellsAreDistinct(StepsOf(actions), policies);
    forall p ensures Planned(actions, policies, p) <==> exists i :: 0 <= i < |cells| && cells[i].path == p {
      if Planned(actions, policies, p) {
        var i :| 0 <= i < |actions| && StepOf(actions[i]).file == p.file;
        var k := CellIndex(actions, policies, i, p.cpu);
      } else if i :| 0 <= i < |cells| && cells[i].path == p {
        var j := ActionIndex(actions, policies, i);
      }
    }
  }

  lemma CellsHoldWhatThePlanSays(actions: seq<Action>, policies: seq<string>, files: Files)
    requires Supported(actions)
    ensures
      var cells := PlanCells(actions, policies);
      && (AtTarget(files, cells, 0, |cells|) <==> TargetsHold(actions, policies, files))
      && (AtExpected(files, cells, 0, |cells|) <==> ExpectedHold(actions, policies, files))
  {
    var cells := PlanCells(actions, policies);
    forall i, cpu | 0 <= i < |actions| && cpu in policies
      ensures HasCell(cells, cpu, StepOf(actions[i]))
    {
      var k := CellIndex(actions, policies, i, cpu);
    }
    if TargetsHold(actions, policies, files) {
      forall k | 0 <= k < |cells| ensures cells[k].path in files && files[cells[k].path] == cells[k].target {
        var i := ActionIndex(actions, policies, k);
      }
    }
    if ExpectedHold(actions, policies, files) {
      forall k | 0 <= k < |cells| ensures cells[k].path in files && files[cells[k].path] == cells[k].expected {
        var i := ActionIndex(actions, policies, k);
      }
    }
  }

  ghost predicate HasCell(cells: seq<Cell>, cpu: string, step: Step) {
    exists k :: 0 <= k < |cells| && cells[k] == Cell(Path(cpu, step.file), step.expected, step.target)
  }

  lemma CellIndex(actions: seq<Action>, policies: seq<string>, i: nat, cpu: string) returns (k: nat)
    requires Supported(actions) && i < |actions| && cpu in policies
    ensures
      var cells, step := PlanCells(actions, policies), StepOf(actions[i]);
      k < |cells| && cells[k] == Cell(Path(cpu, step.file), step.expected, step.target)
  {
    var steps := StepsOf(actions);
    CellsAreThePlannedFiles(steps, policies);
    var j :| 0 <= j < |policies| && policies[j] == cpu;
    assert steps[i] == StepOf(actions[i]);
    k :| 0 <= k < |Cells(steps, policies)|
        && Cells(steps, policies)[k] == Cell(Path(policies[j], steps[i].file), steps[i].expected, steps[i].target);
  }

  lemma ActionIndex(actions: seq<Action>, policies: seq<string>, k: nat) returns (i: nat)
    requires Supported(actions) && k < |PlanCells(actions, policies)|
    ensures i < |actions|
    ensures
      var cell, step := PlanCells(actions, policies)[k], StepOf(actions[i]);
      cell.path.cpu in policies && cell == Cell(Path(cell.path.cpu, step.file), step.expected, step.target)
  {
    var steps := StepsOf(actions);
    CellsAreThePlannedFiles(steps, policies);
    var c := Cells(steps, policies)[k];
    i :| 0 <= i < |steps| && c.path.cpu in policies
        && c == Cell(Path(c.path.cpu, steps[i].file), steps[i].expected, steps[i].target);
  }

  // ----- The guarantee

  /** The failure was a write that raised and yet changed its file. */
  ghost predicate TornFailure(env: Env, before: Files, forward: Forward) {
    && forward.failure.Some? && forward.failure.value.WriteRaised?
    && forward.failure.value.path in before && forward.w.tick > 0
    && Torn(env, forward.w.tick - 1, before[forward.failure.value.path])
  }

  ghost predicate LeftTorn(env: Env, policies: seq<string>, w: World, actions: seq<Action>)
    requires Supported(actions)
  {
    var cells := PlanCells(actions, policies);
    TornFailure(env, w.files, WriteCells(env, CheckDrift(env, w, cells, 0).0, cells, 0))
  }

  lemma CleanRaisesLeaveNothingTorn(env: Env, policies: seq<string>, w: World, actions: seq<Action>)
    requires Supported(actions) && CleanRaises(env)
    ensures !LeftTorn(env, policies, w, actions)
  {
  }

  /**
   Files outside the plan keep their values; a result without an error means that every
   planned file on every CPU holds its target; and `applied == false` means that every
   file holds its previous value, exactly when the failing write was not a torn one.
   */
  lemma ApplyIsTransactional(env: Env, policies: seq<string>, w: World, plan: ChangePlan)
    requires Applicable(plan, policies)
    ensures
      var (w', r) := ApplyPlan(env, policies, w, plan);
      && (r.Err? <==> plan.Blocked() || (plan.actions != [] && !Supported(plan.actions)))
      && (r.Err? ==> w' == w)
      && w'.files.Keys == w.files.Keys
      && (Supported(plan.actions) ==>
            forall p :: p in w.files && !Planned(plan.actions, policies, p) ==> w'.files[p] == w.files[p])
    ensures
      var (w', r) := ApplyPlan(env, policies, w, plan);
      r.Ok? && plan.actions != [] ==>
        && (r.value.error.None? ==>
              && r.value.applied && !r.value.rolledBack && policies != []
              && ExpectedHold(plan.actions, policies, w.files) && TargetsHold(plan.actions, policies, w'.files))
        && (r.value.error.Some? && !r.value.error.value.Failed?
            ==> !r.value.applied && !r.value.rolledBack && w'.files == w.files)
        && (r.value.error.Some? && r.value.error.value.Failed? ==>
              && r.value.rolledBack == (r.value.error.value.stuck == []) == !r.value.applied
              && forall p ::
                   p in w.files && p !in r.value.error.value.stuck && r.value.error.value.cause != WriteRaised(p)
                   ==> w'.files[p] == w.files[p])
        && (r.value.rolledBack ==> (w'.files == w.files <==> !LeftTorn(env, policies, w, plan.actions)))
    ensures
      var (w', r) := ApplyPlan(env, policies, w, plan);
      r.Ok? && plan.actions == [] ==> w' == w && !r.value.applied && r.value.error.None?
  {
    if !plan.Blocked() && plan.actions != [] && Supported(plan.actions) && policies != [] {
      var cells := PlanCells(plan.actions, policies);
      CellsArePlanned(plan.actions, policies);
      CellsHoldWhatThePlanSays(plan.actions, policies, w.files);
      CellsHoldWhatThePlanSays(plan.actions, policies, ApplyPlan(env, policies, w, plan).0.files);
      DriftCheckEffect(env, w, cells, 0);
      var (w1, drift) := CheckDrift(env, w, cells, 0);
      if drift.None? {
        WriteCellsEffect(env, w1, cells, 0);
        var forward := WriteCells(env, w1, cells, 0);
        if forward.failure.Some? {
          RollbackEffect(env, w1, cells, forward);
        }
      }
    }
  }

  /** After the rollback every planned file not listed as stuck, nor torn, holds its previous value. */
  lemma RollbackEffect(env: Env, w: World, cells: seq<Cell>, forward: Forward)
    requires Distinct(cells) && AtExpected(w.files, cells, 0, |cells|)
    requires forward == WriteCells(env, w, cells, 0) && forward.failure.Some?
    ensures
      var (w', stuck) := UndoCells(env, forward.w, cells, forward.done);
      && OnlyCells(w.files, w'.files, cells, 0, |cells|)
      && (forall p :: p in w.files && p !in stuck && forward.failure != Some(WriteRaised(p)) ==>
            w'.files[p] == w.files[p])
      && (stuck == [] ==> (w'.files == w.files <==> !TornFailure(env, w.files, forward)))
  {
    var (w', stuck) := UndoCells(env, forward.w, cells, forward.done);
    RollbackKeepsTheFileSet(env, w, cells);
    forall p | p in w.files && (forall i :: 0 <= i < |cells| ==> cells[i].path != p) ensures w'.files[p] == w.files[p] {
      UntouchedPath(env, w, cells, p);
    }
    forall p | p in w.files && p !in stuck && forward.failure != Some(WriteRaised(p))
      ensures w'.files[p] == w.files[p]
    {
      if i :| 0 <= i < |cells| && cells[i].path == p { RestoredPath(env, w, cells, i); }
    }
    if forward.failure.value.WriteRaised? { RaisedPath(env, w, cells); }
  }

  /** A file that neither loop visits keeps its value through both. */
  lemma UntouchedPath(env: Env, w: World, cells: seq<Cell>, p: Path)
    requires Distinct(cells) && p in w.files
    requires forall i :: 0 <= i < |cells| ==> cells[i].path != p
    ensures
      var forward := WriteCells(env, w, cells, 0);
      var w' := UndoCells(env, forward.w, cells, forward.done).0;
      p in w'.files && w'.files[p] == w.files[p]
  {
    var forward := WriteCells(env, w, cells, 0);
    WriteCellsEffect(env, w, cells, 0);
    assert forward.w.files[p] == w.files[p];
    UndoCellsEffect(env, forward.w, cells, forward.done);
  }

  /** The file whose write raised is not among those written back. */
  lemma RaisedPath(env: Env, w: World, cells: seq<Cell>)
    requires Distinct(cells) && AtExpected(w.files, cells, 0, |cells|)
    requires var f := WriteCells(env, w, cells, 0).failure; f.Some? && f.value.WriteRaised?
    ensures
      var forward := WriteCells(env, w, cells, 0);
      var w' := UndoCells(env, forward.w, cells, forward.done).0;
      var p := forward.failure.value.path;
      p in w.files && p in w'.files && (w'.files[p] == w.files[p] <==> !TornFailure(env, w.files, forward))
  {
    var forward := WriteCells(env, w, cells, 0);
    WriteCellsEffect(env, w, cells, 0);
    FailureNamesItsCell(env, w, cells, 0);
    var p := cells[forward.done].path;
    assert p in w.files && forward.failure.value.path == p;
    UndoKeeps(env, forward.w, cells, forward.done, p);
  }

  lemma UndoKeeps(env: Env, w: World, cells: seq<Cell>, k: nat, p: Path)
    requires Distinct(cells) && k <= |cells| && p in w.files
    requires forall i :: 0 <= i < k ==> cells[i].path != p
    ensures p in UndoCells(env, w, cells, k).0.files
    ensures UndoCells(env, w, cells, k).0.files[p] == w.files[p]
  {
    UndoCellsEffect(env, w, cells, k);
  }

  lemma WritesKeep(env: Env, w: World, cells: seq<Cell>, p: Path)
    requires Distinct(cells) && p in w.files
    requires forall i :: 0 <= i < Attempted(WriteCells(env, w, cells, 0)) && i < |cells| ==> cells[i].path != p
    ensures p in WriteCells(env, w, cells, 0).w.files
    ensures WriteCells(env, w, cells, 0).w.files[p] == w.files[p]
  {
    WriteCellsEffect(env, w, cells, 0);
  }

  lemma RestoredPath(env: Env, w: World, cells: seq<Cell>, j: nat)
    requires Distinct(cells) && AtExpected(w.files, cells, 0, |cells|) && j < |cells|
    requires
      var forward := WriteCells(env, w, cells, 0);
      && forward.failure.Some? && forward.failure != Some(WriteRaised(cells[j].path))
      && cells[j].path !in UndoCells(env, forward.w, cells, forward.done).1
    ensures
      var forward := WriteCells(env, w, cells, 0);
      var w' := UndoCells(env, forward.w, cells, forward.done).0;
      cells[j].path in w'.files && w'.files[cells[j].path] == w.files[cells[j].path]
  {
    var forward := WriteCells(env, w, cells, 0);
    FailureNamesItsCell(env, w, cells, 0);
    if j < forward.done {
      UndoCellsEffect(env, forward.w, cells, forward.done);
      assert AtExpected(UndoCells(env, forward.w, cells, forward.done).0.files, cells, j, j + 1);
    } else {
      WritesKeep(env, w, cells, cells[j].path);
      UndoKeeps(env, forward.w, cells, forward.done, cells[j].path);
    }
  }

  lemma RollbackKeepsTheFileSet(env: Env, w: World, cells: seq<Cell>)
    requires Distinct(cells)
    ensures
      var forward := WriteCells(env, w, cells, 0);
      UndoCells(env, forward.w, cells, forward.done).0.files.Keys == w.files.Keys
  {
    WriteCellsEffect(env, w, cells, 0);
    var forward := WriteCells(env, w, cells, 0);
    UndoCellsEffect(env, forward.w, cells, forward.done);
  }

  lemma {:induction false} FailureNamesItsCell(env: Env, w: World, cells: seq<Cell>, i: nat)
    requires i <= |cells|
    ensures
      var r := WriteCells(env, w, cells, i);
      && (r.failure.Some? && r.failure.value.WriteRaised?
          ==> r.done < |cells| && r.failure.value.path == cells[r.done].path)
      && (r.failure.Some? && r.failure.value.NotTaken? ==> i < r.done && r.failure.value.path == cells[r.done - 1].path)
    decreases |cells| - i
  {
    if i < |cells| {
      var (w1, report) := PutValue(env, w, cells[i].path, cells[i].target);
      if report.Verified? { FailureNamesItsCell(env, w1, cells, i + 1); }
    }
  }

  // ----- Files outside the plan

  /** The file has held the value since the history had `from` entries. */
  ghost predicate Kept(w: World, from: nat, p: Path, v: Value) {
    && p in w.files && w.files[p] == v
    && forall i :: from <= i < |w.history| ==> p in w.history[i] && w.history[i][p] == v
  }

  /** Writing another file keeps it so. */
  lemma OtherFileIsKept(env: Env, w: World, path: Path, value: Value, from: nat, p: Path, v: Value)
    requires Kept(w, from, p, v) && path != p
    ensures Kept(PutValue(env, w, path, value).0, from, p, v)
  {
    PutValueEffect(env, w, path, value);
  }

  lemma {:induction false} WritesKeepOthers(env: Env, w: World, cells: seq<Cell>, i: nat, from: nat, p: Path, v: Value)
    requires i <= |cells| && Kept(w, from, p, v) && forall c :: 0 <= c < |cells| ==> cells[c].path != p
    ensures Kept(WriteCells(env, w, cells, i).w, from, p, v)
    decreases |cells| - i
  {
    if i < |cells| {
      OtherFileIsKept(env, w, cells[i].path, cells[i].target, from, p, v);
      var (w1, report) := PutValue(env, w, cells[i].path, cells[i].target);
      if report.Verified? { WritesKeepOthers(env, w1, cells, i + 1, from, p, v); }
    }
  }

  lemma {:induction false} RollbackKeepsOthers(env: Env, w: World, cells: seq<Cell>, k: nat, from: nat, p: Path,
                                               v: Value)
    requires k <= |cells| && Kept(w, from, p, v) && forall c :: 0 <= c < |cells| ==> cells[c].path != p
    ensures Kept(UndoCells(env, w, cells, k).0, from, p, v)
    decreases k
  {
    if k > 0 {
      OtherFileIsKept(env, w, cells[k - 1].path, cells[k - 1].expected, from, p, v);
      RollbackKeepsOthers(env, PutValue(env, w, cells[k - 1].path, cells[k - 1].expected).0, cells, k - 1, from, p, v);
    }
  }

  /** Whatever the host does, a file outside the plan has its value after every write and every rollback write. */
  lemma OtherFilesAreNeverWritten(env: Env, policies: seq<string>, w: World, plan: ChangePlan, from: nat, p: Path)
    requires Applicable(plan, policies) && p in w.files && Kept(w, from, p, w.files[p])
    requires Supported(plan.actions) ==> !Planned(plan.actions, policies, p)
    ensures Kept(ApplyPlan(env, policies, w, plan).0, from, p, w.files[p])
  {
    if !plan.Blocked() && plan.actions != [] && Supported(plan.actions) && policies != [] {
      var cells, v := PlanCells(plan.actions, policies), w.files[p];
      CellsArePlanned(plan.actions, policies);
      DriftCheckEffect(env, w, cells, 0);
      var w1 := CheckDrift(env, w, cells, 0).0;
      WritesKeepOthers(env, w1, cells, 0, from, p, v);
      var forward := WriteCells(env, w1, cells, 0);
      RollbackKeepsOthers(env, forward.w, cells, forward.done, from, p, v);
    }
  }

  // ----- A host without faults

  /** Without faults the driver succeeds exactly when no file has drifted, and otherwise writes nothing. */
  lemma FaultlessApplySucceeds(env: Env, policies: seq<string>, w: World, plan: ChangePlan)
    requires Applicable(plan, policies) && Faultless(env)
    requires !plan.Blocked() && plan.actions != [] && Supported(plan.actions) && policies != []
    ensures
      var (w', r) := ApplyPlan(env, policies, w, plan);
      && r.Ok?
      && (r.value.error.None? <==> ExpectedHold(plan.actions, policies, w.files))
      && (r.value.error.Some? ==> r.value.error.value.Drift? && w'.files == w.files)
  {
    var cells := PlanCells(plan.actions, policies);
    CellsArePlanned(plan.actions, policies);
    CellsHoldWhatThePlanSays(plan.actions, policies, w.files);
    DriftCheckEffect(env, w, cells, 0);
    FaultlessDriftCheck(env, w, cells, 0);
    var (w1, drift) := CheckDrift(env, w, cells, 0);
    if drift.None? { FaultlessWrites(env, w1, cells, 0); }
  }

  lemma {:induction false} FaultlessDriftCheck(env: Env, w: World, cells: seq<Cell>, i: nat)
    requires i <= |cells| && Faultless(env)
    ensures CheckDrift(env, w, cells, i).1.None? <==> AtExpected(w.files, cells, i, |cells|)
    decreases |cells| - i
  {
    if i < |cells| {
      FaultlessIo(env, w.tick);
      FaultlessDriftCheck(env, ReadAt(env, w, cells[i].path).0, cells, i + 1);
    }
  }

  lemma {:induction false} FaultlessWrites(env: Env, w: World, cells: seq<Cell>, i: nat)
    requires i <= |cells| && Faultless(env)
    requires forall j :: i <= j < |cells| ==> cells[j].path in w.files
    ensures WriteCells(env, w, cells, i).failure.None?
    decreases |cells| - i
  {
    if i < |cells| {
      FaultlessIo(env, w.tick);
      FaultlessIo(env, w.tick + 1);
      FaultlessWrites(env, PutValue(env, w, cells[i].path, cells[i].target).0, cells, i + 1);
    }
  }
}
