/**
 What the Linux driver answers, from the outcomes of its reads and writes alone: when it
 refuses, when it fails and why, and which files it reports as stuck.
 */
module DriverReports {
  import opened Wrappers
  import opened Host
  import opened Plan
  import opened Driver
  import opened DriverProperties

  // ----- One cell

  /** The write at `tick` went through, and the read after it gave the value; `old` is what the file held. */
  predicate WentThrough(env: Env, tick: nat, old': Value, value: Value) {
    && !Next(env, tick + 1).readFails
    && match Next(env, tick).write
       case Takes => true
       case Keeps => old' == value
       case Stores(other) => other == value
       case Raises(_) => false
  }

  lemma PutValueReports(env: Env, w: World, path: Path, value: Value)
    requires path in w.files
    ensures
      var (w', report) := PutValue(env, w, path, value);
      && (report.Verified? <==> WentThrough(env, w.tick, w.files[path], value))
      && (report.Threw? <==> Next(env, w.tick).write.Raises?)
      && w'.tick == w.tick + (if Next(env, w.tick).write.Raises? then 1 else 2)
  {
  }

  // ----- The drift check

  /** The read at `tick` gave the value. */
  predicate ReadsAs(env: Env, tick: nat, files: Files, path: Path, value: Value) {
    !Next(env, tick).readFails && path in files && files[path] == value
  }

  /**
   Cell `c` is the first that does not read as expected, when the check starts at `start`; the
   fault says what was found.
   */
  ghost predicate IsFirstDrift(env: Env, start: nat, files: Files, cells: seq<Cell>, i: nat, drift: Fault, c: nat) {
    && i <= c < |cells| && !ReadsAs(env, start + c, files, cells[c].path, cells[c].expected)
    && (forall b :: i <= b < c ==> ReadsAs(env, start + b, files, cells[b].path, cells[b].expected))
    && drift.Drift? && drift.path == cells[c].path && drift.expected == cells[c].expected
    && drift.found == (if Next(env, start + c).readFails || cells[c].path !in files then None
                       else Some(files[cells[c].path]))
  }

  /** The check passes exactly when every file reads as expected, and otherwise names the first that does not. */
  lemma {:induction false} DriftExactly(env: Env, w: World, cells: seq<Cell>, i: nat, start: nat)
    requires i <= |cells| && w.tick == start + i
    ensures
      var (w', drift) := CheckDrift(env, w, cells, i);
      && (drift.None? <==>
            forall c :: i <= c < |cells| ==> ReadsAs(env, start + c, w.files, cells[c].path, cells[c].expected))
      && (drift.None? ==> w'.tick == start + |cells|)
      && (drift.Some? ==> exists c: nat :: IsFirstDrift(env, start, w.files, cells, i, drift.value, c))
    decreases |cells| - i
  {
    if i < |cells| {
      var (w1, found) := ReadAt(env, w, cells[i].path);
      if found == Some(cells[i].expected) {
        DriftExactly(env, w1, cells, i + 1, start);
        var drift := CheckDrift(env, w1, cells, i + 1).1;
        if drift.Some? {
          var c: nat :| IsFirstDrift(env, start, w.files, cells, i + 1, drift.value, c);
          assert IsFirstDrift(env, start, w.files, cells, i, drift.value, c);
        }
      } else {
        assert IsFirstDrift(env, start, w.files, cells, i, Drift(cells[i].path, found, cells[i].expected), i);
      }
    }
  }

  // ----- The write loop

  /** The first cell at which the loop fails, or their number. */
  function FailsAt(r: Forward): nat {
    if r.failure.Some? && r.failure.value.NotTaken? && r.done > 0 then r.done - 1 else r.done
  }

  ghost predicate PathsExist(files: Files, cells: seq<Cell>) {
    forall c :: 0 <= c < |cells| ==> cells[c].path in files
  }

  /** The write of cell `c`, when all before it went through. */
  predicate CellGoesThrough(env: Env, start: nat, files: Files, cell: Cell, c: nat)
    requires cell.path in files
  {
    WentThrough(env, start + 2 * c, files[cell.path], cell.target)
  }

  /** The write at cell `n` is the first that does not go through: it raised, or was not taken. */
  ghost predicate IsFirstFailure(env: Env, start: nat, files: Files, cells: seq<Cell>, i: nat, cause: Cause, n: nat) {
    && i <= n < |cells| && PathsExist(files, cells) && !CellGoesThrough(env, start, files, cells[n], n)
    && (forall c :: i <= c < n ==> CellGoesThrough(env, start, files, cells[c], c))
    && cause == (if Next(env, start + 2 * n).write.Raises? then WriteRaised(cells[n].path)
                 else NotTaken(cells[n].path, cells[n].target))
  }

  /** How far the write loop got: `n` is the failing cell, and it is written back unless its write raised. */
  ghost predicate StopsAt(env: Env, forward: Forward, cells: seq<Cell>, n: nat, start: nat) {
    && forward.done == (if Next(env, start + 2 * n).write.Raises? then n else n + 1) <= |cells|
    && forward.w.tick == start + 2 * n + (if Next(env, start + 2 * n).write.Raises? then 1 else 2)
    && PathsExist(forward.w.files, cells)
  }

  /** The loop fails at the first write that does not go through, if there is one. */
  lemma {:induction false} WritesFailExactly(env: Env, w: World, files: Files, cells: seq<Cell>, i: nat, start: nat)
    requires i <= |cells| && Distinct(cells) && PathsExist(files, cells)
    requires w.tick == start + 2 * i && w.files.Keys == files.Keys
    requires forall c :: i <= c < |cells| ==> w.files[cells[c].path] == files[cells[c].path]
    ensures
      var r := WriteCells(env, w, cells, i);
      if r.failure.None? then forall c :: i <= c < |cells| ==> CellGoesThrough(env, start, files, cells[c], c)
      else
        && IsFirstFailure(env, start, files, cells, i, r.failure.value, FailsAt(r))
        && StopsAt(env, r, cells, FailsAt(r), start)
    decreases |cells| - i
  {
    if i < |cells| {
      PutValueReports(env, w, cells[i].path, cells[i].target);
      PutValueEffect(env, w, cells[i].path, cells[i].target);
      var (w1, report) := PutValue(env, w, cells[i].path, cells[i].target);
      if report.Verified? { WritesFailExactly(env, w1, files, cells, i + 1, start); }
    }
  }

  // ----- The rollback

  /** When the rollback write of cell `c` is made, as `k` cells are written back from `tick` on. */
  function RollbackTick(env: Env, tick: nat, k: nat, c: nat): nat
    requires c < k
    decreases k
  {
    if k == c + 1 then tick else RollbackTick(env, tick + (if Next(env, tick).write.Raises? then 1 else 2), k - 1, c)
  }

  /** The rollback of cell `c` went through. */
  predicate GoesBack(env: Env, tick: nat, files: Files, cells: seq<Cell>, k: nat, c: nat)
    requires c < k <= |cells| && cells[c].path in files
  {
    WentThrough(env, RollbackTick(env, tick, k, c), files[cells[c].path], cells[c].expected)
  }

  /** The report of the last cell, and then that of the others. */
  lemma LastCellReport(env: Env, w: World, cells: seq<Cell>, k: nat)
    requires 0 < k <= |cells| && Distinct(cells) && PathsExist(w.files, cells)
    ensures
      var cell := cells[k - 1];
      var (w1, report) := PutValue(env, w, cell.path, cell.expected);
      var rest := UndoCells(env, w1, cells, k - 1).1;
      && UndoCells(env, w, cells, k).1 == (if report.Verified? then [] else [cell.path]) + rest
      && (report.Verified? <==> GoesBack(env, w.tick, w.files, cells, k, k - 1))
      && cell.path !in rest
      && w1.tick == w.tick + (if Next(env, w.tick).write.Raises? then 1 else 2)
      && PathsExist(w1.files, cells) && forall c :: 0 <= c < k - 1 ==> w1.files[cells[c].path] == w.files[cells[c].path]
  {
    var cell := cells[k - 1];
    PutValueReports(env, w, cell.path, cell.expected);
    PutValueEffect(env, w, cell.path, cell.expected);
    UndoCellsTouches(env, PutValue(env, w, cell.path, cell.expected).0, cells, k - 1);
  }

  /** A file is reported as stuck exactly when its rollback did not go through. */
  lemma {:induction false} StuckExactly(env: Env, w: World, cells: seq<Cell>, k: nat, c: nat)
    requires c < k <= |cells| && Distinct(cells) && PathsExist(w.files, cells)
    ensures cells[c].path in UndoCells(env, w, cells, k).1 <==> !GoesBack(env, w.tick, w.files, cells, k, c)
    decreases k
  {
    LastCellReport(env, w, cells, k);
    if c < k - 1 {
      var w1 := PutValue(env, w, cells[k - 1].path, cells[k - 1].expected).0;
      StuckExactly(env, w1, cells, k - 1, c);
      assert GoesBack(env, w.tick, w.files, cells, k, c) == GoesBack(env, w1.tick, w1.files, cells, k - 1, c);
    }
  }

  /** The stuck list is of cells, the later cell first, and each once. */
  ghost predicate Descends(stuck: seq<Path>, cells: seq<Cell>, k: nat)
    requires k <= |cells|
  {
    stuck == [] ||
    exists i :: 0 <= i < k && cells[i].path == stuck[0] && Descends(stuck[1..], cells, i)
  }

  lemma {:induction false} DescendsFurther(stuck: seq<Path>, cells: seq<Cell>, j: nat, k: nat)
    requires j <= k <= |cells| && Descends(stuck, cells, j)
    ensures Descends(stuck, cells, k)
  {
  }

  /** Stuck files are reported once, in the order in which they were met. */
  lemma {:induction false} StuckInOrder(env: Env, w: World, cells: seq<Cell>, k: nat)
    requires k <= |cells|
    ensures Descends(UndoCells(env, w, cells, k).1, cells, k)
    decreases k
  {
    if k > 0 {
      var cell := cells[k - 1];
      var (w1, report) := PutValue(env, w, cell.path, cell.expected);
      var rest := UndoCells(env, w1, cells, k - 1).1;
      StuckInOrder(env, w1, cells, k - 1);
      DescendsFurther(rest, cells, k - 1, k);
      assert ([cell.path] + rest)[1..] == rest;
      assert [] + rest == rest;
    }
  }

  // ----- The answer of a whole apply

  /** What is answered before any file is read, in this order. */
  lemma EarlyAnswers(env: Env, policies: seq<string>, w: World, plan: ChangePlan)
    ensures plan.blockers != [] || plan.deferrals != [] ==> ApplyPlan(env, policies, w, plan) == (w, Err(BlockedPlan))
    ensures
      plan.blockers == [] && plan.deferrals == [] ==>
        && (plan.actions == [] ==>
              ApplyPlan(env, policies, w, plan) == (w, Ok(ApplyResult("linux-cpufreq", false, [], None, false))))
        && ((exists a :: a in plan.actions && a.Unsupported?) ==>
              ApplyPlan(env, policies, w, plan) == (w, Err(UnsupportedAction)))
        && (plan.actions != [] && (forall a :: a in plan.actions ==> !a.Unsupported?) && policies == [] ==>
              ApplyPlan(env, policies, w, plan)
              == (w, Ok(ApplyResult("linux-cpufreq", false, [], Some(NoPolicies), false))))
  {
  }

  /** Every planned file of every CPU reads as expected. */
  ghost predicate AllRead(env: Env, policies: seq<string>, w: World, actions: seq<Action>)
    requires Supported(actions)
  {
    var cells := PlanCells(actions, policies);
    forall c :: 0 <= c < |cells| ==> ReadsAs(env, w.tick + c, w.files, cells[c].path, cells[c].expected)
  }

  /** A plan is refused for drift exactly when some file does not read as expected, and the first one is named. */
  lemma RefusedForDriftExactly(env: Env, policies: seq<string>, w: World, plan: ChangePlan)
    requires !plan.Blocked() && plan.actions != [] && Supported(plan.actions) && policies != []
    ensures
      var r := ApplyPlan(env, policies, w, plan).1;
      && r.Ok? && (r.value.error.Some? && r.value.error.value.Drift? <==> !AllRead(env, policies, w, plan.actions))
      && (!AllRead(env, policies, w, plan.actions) ==>
            && r.value == ApplyResult("linux-cpufreq", false, [], r.value.error, false)
            && exists c: nat ::
                 IsFirstDrift(env, w.tick, w.files, PlanCells(plan.actions, policies), 0, r.value.error.value, c))
  {
    var cells := PlanCells(plan.actions, policies);
    DriftExactly(env, w, cells, 0, w.tick);
    var drift := CheckDrift(env, w, cells, 0).1;
    if drift.Some? {
      var c: nat :| IsFirstDrift(env, w.tick, w.files, cells, 0, drift.value, c);
      assert !ReadsAs(env, w.tick + c, w.files, cells[c].path, cells[c].expected);
    } else {
      assert AllRead(env, policies, w, plan.actions);
    }
  }

  /** Every write of the planned files, one after the other, goes through. */
  ghost predicate AllGoThrough(env: Env, policies: seq<string>, w: World, actions: seq<Action>)
    requires Supported(actions)
  {
    var cells := PlanCells(actions, policies);
    forall c :: 0 <= c < |cells| ==>
      cells[c].path in w.files && CellGoesThrough(env, w.tick + |cells|, w.files, cells[c], c)
  }

  /** The world in which the writes start. */
  function Checked(env: Env, policies: seq<string>, w: World, actions: seq<Action>): World
    requires Supported(actions)
  {
    CheckDrift(env, w, PlanCells(actions, policies), 0).0
  }

  lemma CheckedWorld(env: Env, policies: seq<string>, w: World, plan: ChangePlan)
    requires Applicable(plan, policies) && Supported(plan.actions) && AllRead(env, policies, w, plan.actions)
    ensures
      var w1, cells := Checked(env, policies, w, plan.actions), PlanCells(plan.actions, policies);
      && CheckDrift(env, w, cells, 0).1.None? && w1.files == w.files && w1.tick == w.tick + |cells|
      && PathsExist(w.files, cells) && Distinct(cells)
  {
    var cells := PlanCells(plan.actions, policies);
    DriftExactly(env, w, cells, 0, w.tick);
    DriftCheckEffect(env, w, cells, 0);
    CellsArePlanned(plan.actions, policies);
    forall c | 0 <= c < |cells| ensures cells[c].path in w.files {
      assert ReadsAs(env, w.tick + c, w.files, cells[c].path, cells[c].expected);
    }
  }

  /** A plan is applied exactly when every file reads as expected and every write goes through. */
  lemma AppliedExactly(env: Env, policies: seq<string>, w: World, plan: ChangePlan)
    requires Applicable(plan, policies)
    requires !plan.Blocked() && plan.actions != [] && Supported(plan.actions) && policies != []
    ensures
      var r := ApplyPlan(env, policies, w, plan).1;
      && r.Ok?
      && (r.value.error.None? <==>
            AllRead(env, policies, w, plan.actions) && AllGoThrough(env, policies, w, plan.actions))
      && (r.value.error.None? ==> r.value == ApplyResult("linux-cpufreq", true, plan.actions, None, false))
  {
    RefusedForDriftExactly(env, policies, w, plan);
    if AllRead(env, policies, w, plan.actions) {
      CheckedWorld(env, policies, w, plan);
      var w1, cells := Checked(env, policies, w, plan.actions), PlanCells(plan.actions, policies);
      WritesFailExactly(env, w1, w.files, cells, 0, w1.tick);
    }
  }

  /**
   What a failed apply answers: the first failing write as its cause; the files that are
   written back, that is those before it, and itself unless it raised, are reported as stuck
   exactly if their rollback did not go through; and it is applied exactly if some are stuck.
   */
  lemma FailureIsReportedExactly(env: Env, policies: seq<string>, w: World, plan: ChangePlan) returns (n: nat)
    requires Applicable(plan, policies)
    requires !plan.Blocked() && plan.actions != [] && Supported(plan.actions) && policies != []
    requires AllRead(env, policies, w, plan.actions) && !AllGoThrough(env, policies, w, plan.actions)
    ensures
      var r := ApplyPlan(env, policies, w, plan).1;
      var w1, cells := Checked(env, policies, w, plan.actions), PlanCells(plan.actions, policies);
      && w1.files == w.files && w1.tick == w.tick + |cells|
      && r.Ok? && r.value.error.Some? && r.value.error.value.Failed?
      && var cause, stuck := r.value.error.value.cause, r.value.error.value.stuck;
         && r.value == ApplyResult("linux-cpufreq", stuck != [], plan.actions, Some(Failed(cause, stuck)), stuck == [])
         && IsFirstFailure(env, w1.tick, w1.files, cells, 0, cause, n)
         && var forward := WriteCells(env, w1, cells, 0);
            StopsAt(env, forward, cells, n, w1.tick) && StuckIsExact(env, forward.w, cells, forward.done, stuck)
  {
    CheckedWorld(env, policies, w, plan);
    var w1, cells := Checked(env, policies, w, plan.actions), PlanCells(plan.actions, policies);
    WritesFailExactly(env, w1, w1.files, cells, 0, w1.tick);
    var forward := WriteCells(env, w1, cells, 0);
    n := FailsAt(forward);
    StuckListIsExact(env, forward.w, cells, forward.done);
    FailedAnswer(env, policies, w, plan);
  }

  /** The fields of the answer, given the failure and the stuck list. */
  lemma FailedAnswer(env: Env, policies: seq<string>, w: World, plan: ChangePlan)
    requires !plan.Blocked() && plan.actions != [] && Supported(plan.actions) && policies != []
    requires CheckDrift(env, w, PlanCells(plan.actions, policies), 0).1.None?
    requires
      var cells := PlanCells(plan.actions, policies);
      WriteCells(env, Checked(env, policies, w, plan.actions), cells, 0).failure.Some?
    ensures
      var cells := PlanCells(plan.actions, policies);
      var forward := WriteCells(env, Checked(env, policies, w, plan.actions), cells, 0);
      var stuck := UndoCells(env, forward.w, cells, forward.done).1;
      ApplyPlan(env, policies, w, plan).1
      == Ok(ApplyResult("linux-cpufreq", stuck != [], plan.actions, Some(Failed(forward.failure.value, stuck)),
                        stuck == []))
  {
  }

  /** The stuck list says, in order, which of the `k` files written back did not go back. */
  ghost predicate StuckIsExact(env: Env, w: World, cells: seq<Cell>, k: nat, stuck: seq<Path>) {
    && k <= |cells| && PathsExist(w.files, cells) && Descends(stuck, cells, k)
    && forall c :: 0 <= c < k ==> (cells[c].path in stuck <==> !GoesBack(env, w.tick, w.files, cells, k, c))
  }

  lemma StuckListIsExact(env: Env, w: World, cells: seq<Cell>, k: nat)
    requires k <= |cells| && Distinct(cells) && PathsExist(w.files, cells)
    ensures StuckIsExact(env, w, cells, k, UndoCells(env, w, cells, k).1)
  {
    StuckInOrder(env, w, cells, k);
    forall c | 0 <= c < k
      ensures cells[c].path in UndoCells(env, w, cells, k).1 <==> !GoesBack(env, w.tick, w.files, cells, k, c)
    {
      StuckExactly(env, w, cells, k, c);
    }
  }

  /** From `tick` on, every write takes and every read works. */
  ghost predicate FineFrom(env: Env, tick: nat) {
    forall t: nat :: t >= tick ==> Next(env, t) == Io(Takes, false)
  }

  lemma {:induction false} LaterTick(env: Env, tick: nat, k: nat, c: nat)
    requires c < k
    ensures RollbackTick(env, tick, k, c) >= tick
    decreases k
  {
    if k > c + 1 { LaterTick(env, tick + (if Next(env, tick).write.Raises? then 1 else 2), k - 1, c); }
  }

  /** A rollback in which every write takes and every read works is reported as complete, with nothing applied. */
  lemma CompleteRollbackIsReported(env: Env, policies: seq<string>, w: World, plan: ChangePlan)
    requires Applicable(plan, policies)
    requires !plan.Blocked() && plan.actions != [] && Supported(plan.actions) && policies != []
    requires AllRead(env, policies, w, plan.actions) && !AllGoThrough(env, policies, w, plan.actions)
    requires
      var cells := PlanCells(plan.actions, policies);
      FineFrom(env, WriteCells(env, Checked(env, policies, w, plan.actions), cells, 0).w.tick)
    ensures
      var r := ApplyPlan(env, policies, w, plan).1;
      r.Ok? && r.value.rolledBack && !r.value.applied && r.value.error.Some?
      && r.value.error.value.Failed? && r.value.error.value.stuck == []
  {
    var n := FailureIsReportedExactly(env, policies, w, plan);
    var cells := PlanCells(plan.actions, policies);
    var forward := WriteCells(env, Checked(env, policies, w, plan.actions), cells, 0);
    var stuck := ApplyPlan(env, policies, w, plan).1.value.error.value.stuck;
    forall i | 0 <= i < forward.done ensures cells[i].path !in stuck {
      LaterTick(env, forward.w.tick, forward.done, i);
      assert GoesBack(env, forward.w.tick, forward.w.files, cells, forward.done, i);
    }
  }
}
