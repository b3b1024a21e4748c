/**
 What is known of a host while a recovery record exists: the configurations that applies and
 restores make of the initial one, finished or stopped.  The planner sees cpu0 only, the
 driver touches every CPU.
 */
module Lifecycle {
  import opened Wrappers
  import opened Host
  import opened Model
  import opened State
  import opened Plan
  import opened Decide
  import opened Driver
  import opened DriverProperties
  import opened StoppedDriver
  import opened Engine

  // ----- What cpu0 shows

  function Cpu0(file: File): Path { Path(CPU0, file) }

  /** Each value a snapshot holds is the one in cpu0's file; any read may have failed. */
  ghost predicate Shows(snapshot: Snapshot, policies: seq<string>, files: Files) {
    var cpu := snapshot.cpu;
    && snapshot.cpufreqAvailable == (CPU0 in policies)
    && (cpu.governor.Some? ==> Holds(files, Cpu0(Governor), Name(cpu.governor.value)))
    && (cpu.scalingMax.Some? ==> Holds(files, Cpu0(ScalingMax), Khz(cpu.scalingMax.value)))
    && (cpu.scalingMin.Some? ==> Holds(files, Cpu0(ScalingMin), Khz(cpu.scalingMin.value)))
    && (cpu.hardwareMin.Some? ==> Holds(files, Cpu0(HardwareMin), Khz(cpu.hardwareMin.value)))
    && (cpu.hardwareMax.Some? ==> Holds(files, Cpu0(HardwareMax), Khz(cpu.hardwareMax.value)))
  }

  predicate Holds(files: Files, p: Path, v: Value) {
    p in files && files[p] == v
  }

  // ----- Configurations of the host relative to the initial one

  predicate Settable(file: File) { file.Governor? || file.ScalingMax? }

  /** The REST target of a file, from cpu0's initial values. */
  function RestTarget(initial: Files, file: File): Option<Value> {
    if file.Governor? then Some(Name(REST_GOVERNOR))
    else if file.ScalingMax? && Known(initial, HardwareMin) && Known(initial, HardwareMax) && Known(initial, ScalingMax)
    then Some(Khz(RestCeiling(initial[Cpu0(HardwareMin)].amount, initial[Cpu0(HardwareMax)].amount,
                              initial[Cpu0(ScalingMax)].amount)))
    else None
  }

  predicate Known(files: Files, file: File) {
    Cpu0(file) in files && files[Cpu0(file)].Khz?
  }

  /** No CPU's copy of the file differs from the initial one. */
  ghost predicate Unchanged(initial: Files, files: Files, policies: seq<string>, file: File) {
    forall cpu :: cpu in policies && Path(cpu, file) in initial
        ==> Holds(files, Path(cpu, file), initial[Path(cpu, file)])
  }

  /** All CPUs started alike, cpu0 is at the REST target, the others at the target or still as they were. */
  ghost predicate Lowered(initial: Files, files: Files, policies: seq<string>, file: File) {
    && CPU0 in policies && Cpu0(file) in initial
    && RestTarget(initial, file).Some? && RestTarget(initial, file).value != initial[Cpu0(file)]
    && Holds(files, Cpu0(file), RestTarget(initial, file).value)
    && forall cpu :: cpu in policies ==>
         && Holds(initial, Path(cpu, file), initial[Cpu0(file)])
         && (Holds(files, Path(cpu, file), initial[Cpu0(file)])
             || Holds(files, Path(cpu, file), RestTarget(initial, file).value))
  }

  ghost predicate SameOutside(initial: Files, files: Files, policies: seq<string>) {
    && initial.Keys == files.Keys
    && forall p :: p in initial && !(p.cpu in policies && Settable(p.file)) ==> files[p] == initial[p]
  }

  /** The initial configuration, or one that a stopped or completed apply makes of it. */
  ghost predicate Near(initial: Files, files: Files, policies: seq<string>) {
    && SameOutside(initial, files, policies)
    && forall file :: Settable(file) ==>
         Unchanged(initial, files, policies, file) || Lowered(initial, files, policies, file)
  }

  /**
   The initial configuration with the REST targets on all CPUs, of each file that cpu0 does not
   start at its REST target; a file that cpu0 starts there is never planned.
   */
  ghost predicate AtRest(initial: Files, files: Files, policies: seq<string>) {
    && SameOutside(initial, files, policies)
    && forall file :: Settable(file) ==>
         && RestTarget(initial, file).Some? && CPU0 in policies && Cpu0(file) in initial
         && if initial[Cpu0(file)] == RestTarget(initial, file).value
            then Unchanged(initial, files, policies, file)
            else forall cpu :: cpu in policies ==>
                   && Holds(initial, Path(cpu, file), initial[Cpu0(file)])
                   && Holds(files, Path(cpu, file), RestTarget(initial, file).value)
  }

  /** Every settable file of every CPU holds its REST target. */
  ghost predicate RestEverywhere(initial: Files, files: Files, policies: seq<string>) {
    forall file, cpu :: Settable(file) && cpu in policies ==>
      RestTarget(initial, file).Some? && Holds(files, Path(cpu, file), RestTarget(initial, file).value)
  }

  /** Where cpu0 starts at a REST target, all CPUs do. */
  ghost predicate OthersStartAtRest(initial: Files, policies: seq<string>) {
    forall file, cpu ::
      && Settable(file) && cpu in policies
      && Cpu0(file) in initial && RestTarget(initial, file) == Some(initial[Cpu0(file)])
      ==> Holds(initial, Path(cpu, file), initial[Cpu0(file)])
  }

  /** The REST targets are on all CPUs exactly when no other CPU differs from a cpu0 that starts there. */
  lemma RestIsEverywhereExactly(initial: Files, files: Files, policies: seq<string>)
    requires AtRest(initial, files, policies)
    ensures RestEverywhere(initial, files, policies) <==> OthersStartAtRest(initial, policies)
  {
    if RestEverywhere(initial, files, policies) {
      forall file, cpu | Settable(file) && cpu in policies && RestTarget(initial, file) == Some(initial[Cpu0(file)])
        ensures Holds(initial, Path(cpu, file), initial[Cpu0(file)])
      {
        assert Holds(files, Path(cpu, file), RestTarget(initial, file).value);
        assert Unchanged(initial, files, policies, file);
      }
    }
    if OthersStartAtRest(initial, policies) {
      forall file, cpu | Settable(file) && cpu in policies
        ensures Holds(files, Path(cpu, file), RestTarget(initial, file).value)
      {
        if initial[Cpu0(file)] == RestTarget(initial, file).value {
          assert Unchanged(initial, files, policies, file);
        }
      }
    }
  }

  lemma UnchangedEverywhere(initial: Files, files: Files, policies: seq<string>)
    requires SameOutside(initial, files, policies)
    requires forall file :: Settable(file) ==> Unchanged(initial, files, policies, file)
    ensures files == initial
  {
    forall p | p in initial ensures files[p] == initial[p] {
      if p.cpu in policies && Settable(p.file) {
        assert Unchanged(initial, files, policies, p.file);
        assert p == Path(p.cpu, p.file);
      }
    }
  }

  lemma RestIsNear(initial: Files, files: Files, policies: seq<string>)
    requires AtRest(initial, files, policies)
    ensures Near(initial, files, policies)
  {
  }

  // ----- The recovery record

  /** The record holds cpu0's initial values, as saving took them. */
  ghost predicate Records(o: OriginalState, initial: Files, policies: seq<string>, node: string) {
    && o.node == node && Saved(o) && CPU0 in policies
    && Holds(initial, Cpu0(Governor), Name(o.governor))
    && Holds(initial, Cpu0(ScalingMin), Khz(o.scalingMin))
    && Holds(initial, Cpu0(ScalingMax), Khz(o.scalingMax))
    && Holds(initial, Cpu0(HardwareMin), Khz(o.hardwareMin))
    && Holds(initial, Cpu0(HardwareMax), Khz(o.hardwareMax))
  }

  /** Without an active record the host is in its initial configuration on every CPU. */
  ghost predicate Recoverable(initial: Files, policies: seq<string>, node: string, s: Sys) {
    && OneActive(s.rows)
    && match Load(s.rows, node)
       case None => s.w.files == initial
       case Some(o) => Records(o, initial, policies, node) && Near(initial, s.w.files, policies)
  }

  /** The same where every step runs to its end: initial, or at REST. */
  ghost predicate InitialOrRest(initial: Files, policies: seq<string>, node: string, s: Sys) {
    && OneActive(s.rows)
    && match Load(s.rows, node)
       case None => s.w.files == initial
       case Some(o) =>
         Records(o, initial, policies, node) && (s.w.files == initial || AtRest(initial, s.w.files, policies))
  }

  // ----- The plans that are made near the initial configuration

  lemma CeilingIsSettled(hardwareMin: int, hardwareMax: int, ceiling: int)
    ensures RestCeiling(hardwareMin, hardwareMax, RestCeiling(hardwareMin, hardwareMax, ceiling))
             == RestCeiling(hardwareMin, hardwareMax, ceiling)
  {
  }

  /** The plan has an action for a file exactly when cpu0 is not yet where the plan would put it. */
  lemma MovesCoverTheDifferences(cpu: CpuFreq, governor: string, ceiling: int)
    requires cpu.governor.Some? && cpu.scalingMax.Some?
    ensures
      var actions := Moves(cpu, governor, ceiling);
      && Supported(actions) && OneActionPerFile(actions)
      && (forall i :: 0 <= i < |actions| ==>
            || (actions[i] == SetGovernor(cpu.governor.value, governor) && cpu.governor.value != governor)
            || (actions[i] == SetScalingMax(cpu.scalingMax.value, ceiling) && cpu.scalingMax.value != ceiling))
      && ((forall i :: 0 <= i < |actions| ==> StepOf(actions[i]).file != Governor) ==> cpu.governor.value == governor)
      && ((forall i :: 0 <= i < |actions| ==> StepOf(actions[i]).file != ScalingMax)
          ==> cpu.scalingMax.value == ceiling)
  {
    var actions := Moves(cpu, governor, ceiling);
    if cpu.governor.value != governor { assert StepOf(actions[0]).file == Governor; }
    if cpu.scalingMax.value != ceiling { assert StepOf(actions[|actions| - 1]).file == ScalingMax; }
  }

  /** What each action of an apply plan does: it takes a file from its initial value to the REST target. */
  ghost predicate Lowers(actions: seq<Action>, initial: Files, files: Files)
    requires Supported(actions)
  {
    forall i :: 0 <= i < |actions| ==>
      var step := StepOf(actions[i]);
      && Settable(step.file) && Holds(files, Cpu0(step.file), step.expected)
      && Holds(initial, Cpu0(step.file), step.expected)
      && RestTarget(initial, step.file) == Some(step.target) && step.target != step.expected
  }

  /** ... and what each action of a restore plan does: it takes a file from the REST target back. */
  ghost predicate PutsBack(actions: seq<Action>, initial: Files, files: Files)
    requires Supported(actions)
  {
    forall i :: 0 <= i < |actions| ==>
      var step := StepOf(actions[i]);
      && Settable(step.file) && Holds(files, Cpu0(step.file), step.expected)
      && Holds(initial, Cpu0(step.file), step.target) && step.target != step.expected
  }

  /** ... and the files it leaves alone are, on cpu0, at the REST target already. */
  ghost predicate Settles(actions: seq<Action>, initial: Files, files: Files)
    requires Supported(actions)
  {
    forall file :: Settable(file) && (forall i :: 0 <= i < |actions| ==> StepOf(actions[i]).file != file)
      ==> RestTarget(initial, file).Some? && Holds(files, Cpu0(file), RestTarget(initial, file).value)
  }

  /** The files that a plan leaves alone are, on cpu0, where it would put them. */
  ghost predicate CoversCpu0(actions: seq<Action>, goal: Files, files: Files)
    requires Supported(actions)
  {
    forall file :: Settable(file) && Cpu0(file) in files
        && (forall i :: 0 <= i < |actions| ==> StepOf(actions[i]).file != file)
      ==> Cpu0(file) in goal && files[Cpu0(file)] == goal[Cpu0(file)]
  }

  lemma ApplyPlanLowers(initial: Files, policies: seq<string>, node: string, s: Sys, snapshot: Snapshot, intent: Intent,
                        reasons: seq<Blocker>, deferrals: seq<string>)
    requires Recoverable(initial, policies, node, s) && snapshot.node == node
    requires Shows(snapshot, policies, s.w.files)
    ensures
      var plan := ApplyCommandPlan(s, snapshot, intent, reasons, deferrals);
      && Supported(plan.actions) && OneActionPerFile(plan.actions)
      && (plan.actions != [] ==>
            && Load(s.rows, node).Some? && !plan.Blocked() && intent.Economize?
            && Lowers(plan.actions, initial, s.w.files)
            && (forall file :: Settable(file) ==> RestTarget(initial, file).Some? && Cpu0(file) in initial)
            && Settles(plan.actions, initial, s.w.files))
  {
    var plan := ApplyCommandPlan(s, snapshot, intent, reasons, deferrals);
    if plan.actions != [] {
      var o := Load(s.rows, node).value;
      var desired := DesiredState(snapshot, intent);
      TargetIsTheInitialOne(initial, policies, s.w.files, snapshot, o);
      assert snapshot.cpu.hardwareMin.value == o.hardwareMin && snapshot.cpu.hardwareMax.value == o.hardwareMax;
      MovesLower(initial, policies, s.w.files, snapshot, desired.scalingMax.value);
    }
  }

  /** Planning again from a lowered ceiling gives the ceiling of the initial configuration. */
  lemma TargetIsTheInitialOne(initial: Files, policies: seq<string>, files: Files, snapshot: Snapshot, o: OriginalState)
    requires Records(o, initial, policies, o.node) && Near(initial, files, policies)
    requires Shows(snapshot, policies, files) && snapshot.cpu.scalingMax.Some?
    ensures RestTarget(initial, ScalingMax)
             == Some(Khz(RestCeiling(o.hardwareMin, o.hardwareMax, snapshot.cpu.scalingMax.value)))
  {
    assert Unchanged(initial, files, policies, ScalingMax) || Lowered(initial, files, policies, ScalingMax);
    CeilingIsSettled(o.hardwareMin, o.hardwareMax, o.scalingMax);
  }

  lemma MovesLower(initial: Files, policies: seq<string>, files: Files, snapshot: Snapshot, ceiling: int)
    requires Near(initial, files, policies) && CPU0 in policies && Cpu0(Governor) in initial
             && Cpu0(ScalingMax) in initial
    requires Shows(snapshot, policies, files) && snapshot.cpu.scalingMax.Some? && snapshot.cpu.governor.Some?
    requires RestTarget(initial, ScalingMax) == Some(Khz(ceiling))
    ensures
      var actions := Moves(snapshot.cpu, REST_GOVERNOR, ceiling);
      && Supported(actions) && OneActionPerFile(actions)
      && Lowers(actions, initial, files) && Settles(actions, initial, files)
  {
    MovesCoverTheDifferences(snapshot.cpu, REST_GOVERNOR, ceiling);
    assert Unchanged(initial, files, policies, ScalingMax) || Lowered(initial, files, policies, ScalingMax);
    assert Unchanged(initial, files, policies, Governor) || Lowered(initial, files, policies, Governor);
  }

  lemma RestorePlanRaises(initial: Files, policies: seq<string>, node: string, s: Sys, snapshot: Snapshot)
    requires Recoverable(initial, policies, node, s) && snapshot.node == node
    requires Shows(snapshot, policies, s.w.files)
    ensures
      var plan := PlanRestore(snapshot, Load(s.rows, node));
      && Supported(plan.actions) && OneActionPerFile(plan.actions)
      && (!plan.Blocked() ==>
            && Load(s.rows, node).Some?
            && PutsBack(plan.actions, initial, s.w.files) && CoversCpu0(plan.actions, initial, s.w.files))
  {
    var plan := PlanRestore(snapshot, Load(s.rows, node));
    if !plan.Blocked() {
      MovesCoverTheDifferences(snapshot.cpu, Load(s.rows, node).value.governor, Load(s.rows, node).value.scalingMax);
    }
  }

  // ----- What stopping inside a plan leaves behind

  /** Among the cells of one file, cpu0's comes first. */
  lemma {:induction false} Cpu0CellComesFirst(steps: seq<Step>, policies: seq<string>, k: nat) returns (k0: nat)
    requires policies != [] && k < |Cells(steps, policies)|
    ensures k0 <= k
    ensures
      var cell := Cells(steps, policies)[k];
      Cells(steps, policies)[k0] == cell.(path := Path(policies[0], cell.path.file))
  {
    var row := StepCells(steps[0], policies);
    if k < |row| {
      assert Cells(steps, policies)[k] == row[k] && Cells(steps, policies)[0] == row[0];
      k0 := 0;
    } else {
      assert Cells(steps, policies)[k] == Cells(steps[1..], policies)[k - |row|];
      var j := Cpu0CellComesFirst(steps[1..], policies, k - |row|);
      k0 := j + |row|;
    }
  }

  /** Every planned file is at its expected or target value, and cpu0 leads the other CPUs. */
  ghost predicate Cpu0Leads(actions: seq<Action>, policies: seq<string>, files: Files)
    requires Supported(actions)
  {
    forall i, cpu :: 0 <= i < |actions| && cpu in policies ==>
      var step := StepOf(actions[i]);
      && (Holds(files, Path(cpu, step.file), step.expected) || Holds(files, Path(cpu, step.file), step.target))
      && (Holds(files, Path(cpu, step.file), step.target) && step.target != step.expected
          ==> Holds(files, Cpu0(step.file), step.target))
  }

  ghost predicate OnlyPlanned(actions: seq<Action>, policies: seq<string>, before: Files, files: Files)
    requires Supported(actions)
  {
    before.Keys == files.Keys && forall p :: p in before && !Planned(actions, policies, p) ==> files[p] == before[p]
  }

  /** Every planned file is at its expected or target value. */
  ghost predicate EachEither(actions: seq<Action>, policies: seq<string>, files: Files)
    requires Supported(actions)
  {
    forall i, cpu :: 0 <= i < |actions| && cpu in policies ==>
      var step := StepOf(actions[i]);
      Holds(files, Path(cpu, step.file), step.expected) || Holds(files, Path(cpu, step.file), step.target)
  }

  /** cpu0's copy of a file is written back only after all other copies that were changed. */
  ghost predicate Cpu0UndoneLast(cells: seq<Cell>, course: Course, at: nat)
    requires |course.took| == course.done
  {
    forall i, j ::
      && 0 <= i < |cells| && 0 <= j < |cells| && j < course.taken
      && cells[i].path == Cpu0(cells[j].path.file) && Changes(cells[j]) && UndoneBy(course, at, i)
      ==> UndoneBy(course, at, j)
  }

  /** While cpu0's copy of a file is moved, so are all its copies. */
  ghost predicate Cpu0MovedWithAll(cells: seq<Cell>, course: Course, at: nat)
    requires |course.took| == course.done
  {
    forall i, j ::
      0 <= i < |cells| && 0 <= j < |cells| && cells[i].path == Cpu0(cells[j].path.file) && MovedBy(course, at, i)
      ==> MovedBy(course, at, j)
  }

  lemma StateIsEither(actions: seq<Action>, policies: seq<string>, before: Files, files: Files, course: Course, at: nat)
    requires IsPolicyList(policies) && Supported(actions) && OneActionPerFile(actions) && |course.took| == course.done
    requires IsStateAt(before, files, PlanCells(actions, policies), course, at)
    ensures EachEither(actions, policies, files) && OnlyPlanned(actions, policies, before, files)
  {
    var cells := PlanCells(actions, policies);
    CellsArePlanned(actions, policies);
    forall i, cpu | 0 <= i < |actions| && cpu in policies
      ensures
        var step := StepOf(actions[i]);
        Holds(files, Path(cpu, step.file), step.expected) || Holds(files, Path(cpu, step.file), step.target)
    {
      var j := CellIndex(actions, policies, i, cpu);
      assert cells[j].path in files;
    }
  }

  /** Copies of one file have the same expected and target values, and cpu0's comes first. */
  lemma CopiesAgree(actions: seq<Action>, policies: seq<string>, i: nat, j: nat)
    requires IsPolicyList(policies) && CPU0 in policies && Supported(actions) && OneActionPerFile(actions)
    requires i < |PlanCells(actions, policies)| && j < |PlanCells(actions, policies)|
    requires PlanCells(actions, policies)[i].path == Cpu0(PlanCells(actions, policies)[j].path.file)
    ensures i <= j
    ensures
      var a, b := PlanCells(actions, policies)[i], PlanCells(actions, policies)[j];
      a.expected == b.expected && a.target == b.target
  {
    var cells := PlanCells(actions, policies);
    Cpu0ComesFirst(policies);
    CellsArePlanned(actions, policies);
    var k := Cpu0CellComesFirst(StepsOf(actions), policies, j);
    assert cells[k].path == cells[i].path && Distinct(cells);
    assert k == i;
  }

  /** cpu0 leads exactly when it has been written back last. */
  lemma LeadExactly(actions: seq<Action>, policies: seq<string>, before: Files, files: Files, course: Course, at: nat)
    requires IsPolicyList(policies) && CPU0 in policies && Supported(actions) && OneActionPerFile(actions)
    requires |course.took| == course.done && course.taken <= course.attempted
    requires IsStateAt(before, files, PlanCells(actions, policies), course, at)
    ensures Cpu0Leads(actions, policies, files) <==> Cpu0UndoneLast(PlanCells(actions, policies), course, at)
  {
    var cells := PlanCells(actions, policies);
    StateIsEither(actions, policies, before, files, course, at);
    if Cpu0Leads(actions, policies, files) {
      forall i, j | 0 <= i < |cells| && 0 <= j < |cells| && j < course.taken
          && cells[i].path == Cpu0(cells[j].path.file)
          && Changes(cells[j]) && UndoneBy(course, at, i)
        ensures UndoneBy(course, at, j)
      {
        CopiesAgree(actions, policies, i, j);
        var a := ActionIndex(actions, policies, j);
        assert !MovedBy(course, at, i);
        if !UndoneBy(course, at, j) {
          assert MovedBy(course, at, j);
          assert Holds(files, cells[j].path, cells[j].target);
        }
      }
    }
    if Cpu0UndoneLast(cells, course, at) {
      forall a, cpu | 0 <= a < |actions| && cpu in policies
        ensures
          var step := StepOf(actions[a]);
          Holds(files, Path(cpu, step.file), step.target) && step.target != step.expected ==>
            Holds(files, Cpu0(step.file), step.target)
      {
        var j := CellIndex(actions, policies, a, cpu);
        var i := CellIndex(actions, policies, a, CPU0);
        CopiesAgree(actions, policies, i, j);
        if Changes(cells[j]) && MovedBy(course, at, j) { assert MovedBy(course, at, i); }
      }
    }
  }

  /** For each planned file, cpu0 is at its expected value or all CPUs are at the target. */
  ghost predicate BackTogether(actions: seq<Action>, policies: seq<string>, files: Files)
    requires Supported(actions)
  {
    forall i, cpu :: 0 <= i < |actions| && cpu in policies ==>
      var step := StepOf(actions[i]);
      Holds(files, Cpu0(step.file), step.expected) || Holds(files, Path(cpu, step.file), step.target)
  }

  lemma TogetherExactly(actions: seq<Action>, policies: seq<string>, before: Files, files: Files, course: Course,
                        at: nat)
    requires IsPolicyList(policies) && CPU0 in policies && Supported(actions) && OneActionPerFile(actions)
    requires forall i :: 0 <= i < |actions| ==> StepOf(actions[i]).target != StepOf(actions[i]).expected
    requires |course.took| == course.done && IsStateAt(before, files, PlanCells(actions, policies), course, at)
    ensures BackTogether(actions, policies, files) <==> Cpu0MovedWithAll(PlanCells(actions, policies), course, at)
  {
    var cells := PlanCells(actions, policies);
    if BackTogether(actions, policies, files) {
      forall i, j | 0 <= i < |cells| && 0 <= j < |cells| && cells[i].path == Cpu0(cells[j].path.file)
          && MovedBy(course, at, i)
        ensures MovedBy(course, at, j)
      {
        CopiesAgree(actions, policies, i, j);
        var a := ActionIndex(actions, policies, j);
        assert Holds(files, Cpu0(StepOf(actions[a]).file), cells[i].target);
      }
    }
    if Cpu0MovedWithAll(cells, course, at) {
      forall a, cpu | 0 <= a < |actions| && cpu in policies
        ensures
          var step := StepOf(actions[a]);
          Holds(files, Cpu0(step.file), step.expected) || Holds(files, Path(cpu, step.file), step.target)
      {
        var j := CellIndex(actions, policies, a, cpu);
        var i := CellIndex(actions, policies, a, CPU0);
        if MovedBy(course, at, i) { assert MovedBy(course, at, j); }
      }
    }
  }

  /** Where cpu0 is written back last, on an apply; where all CPUs are moved together, on a restore. */
  ghost predicate ApplyMayStop(env: Env, policies: seq<string>, w: World, plan: ChangePlan, at: nat) {
    !plan.Blocked() && Supported(plan.actions) && Begins(env, policies, w, plan.actions) ==>
      Cpu0UndoneLast(PlanCells(plan.actions, policies), PlanCourse(env, policies, w, plan.actions), at)
  }

  ghost predicate RestoreMayStop(env: Env, policies: seq<string>, w: World, plan: ChangePlan, at: nat) {
    !plan.Blocked() && Supported(plan.actions) && Begins(env, policies, w, plan.actions) ==>
      Cpu0MovedWithAll(PlanCells(plan.actions, policies), PlanCourse(env, policies, w, plan.actions), at)
  }

  /**
   Crash safety of the driver: stopped after any write, every planned file is at its expected
   or target value and no other file has changed.  cpu0 holds a file's target whenever any
   CPU does, exactly when each rollback write of cpu0 that took effect had been preceded by
   ones that took effect on the other CPUs that had been changed.
   */
  lemma StoppedDriverLeavesCpu0Leading(env: Env, policies: seq<string>, w: World, plan: ChangePlan, at: nat)
    requires Applicable(plan, policies) && CPU0 in policies && AllOrNothing(env) && w.history == [w.files]
    requires !plan.Blocked() && Supported(plan.actions)
    ensures
      var files := StoppedFiles(env, policies, w, plan, at);
      if Begins(env, policies, w, plan.actions) then
        && ExpectedHold(plan.actions, policies, w.files)
        && EachEither(plan.actions, policies, files) && OnlyPlanned(plan.actions, policies, w.files, files)
        && (Cpu0Leads(plan.actions, policies, files) <==> ApplyMayStop(env, policies, w, plan, at))
      else files == w.files
  {
    StoppedFilesFollowTheCourse(env, policies, w, plan, at);
    if Begins(env, policies, w, plan.actions) {
      var files, course := StoppedFiles(env, policies, w, plan, at), PlanCourse(env, policies, w, plan.actions);
      StateIsEither(plan.actions, policies, w.files, files, course, at);
      LeadExactly(plan.actions, policies, w.files, files, course, at);
    }
  }

  /** A stop among the forward writes: all copies are moved together exactly after whole rows of writes. */
  lemma ForwardStopIsWhole(env: Env, policies: seq<string>, w: World, plan: ChangePlan, at: nat)
    requires Applicable(plan, policies) && CPU0 in policies && AllOrNothing(env) && w.history == [w.files]
    requires !plan.Blocked() && Supported(plan.actions) && Begins(env, policies, w, plan.actions)
    requires at <= PlanCourse(env, policies, w, plan.actions).taken
    ensures RestoreMayStop(env, policies, w, plan, at) <==> at % |policies| == 0
  {
    StoppedFilesFollowTheCourse(env, policies, w, plan, at);
    var cells, course := PlanCells(plan.actions, policies), PlanCourse(env, policies, w, plan.actions);
    Cpu0ComesFirst(policies);
    WholeRows(StepsOf(plan.actions), policies, at);
    forall c: nat ensures MovedBy(course, at, c) <==> c < at {}
    if RowsAreWhole(cells, CPU0, at) {
      forall i, j | 0 <= i < |cells| && 0 <= j < |cells| && cells[i].path == Cpu0(cells[j].path.file)
          && MovedBy(course, at, i)
        ensures MovedBy(course, at, j)
      {
        assert !Splits(cells, CPU0, at, i, j);
      }
    }
    if Cpu0MovedWithAll(cells, course, at) {
      forall i: nat, j: nat | i < |cells| && j < |cells| && cells[i].path == Cpu0(cells[j].path.file) && i < at
        ensures j < at
      {
        assert MovedBy(course, at, i);
      }
      forall i: nat, j: nat ensures !Splits(cells, CPU0, at, i, j) {
        assert i < |cells| && j < |cells| && cells[i].path.cpu == CPU0 && cells[i].path.file == cells[j].path.file ==>
          cells[i].path == Cpu0(cells[j].path.file);
      }
    }
  }

  // ----- Each kind of step keeps the invariant

  /** An apply stays near the initial configuration exactly as long as cpu0 leads. */
  lemma LoweringStaysNear(initial: Files, policies: seq<string>, actions: seq<Action>, before: Files, files: Files)
    requires Near(initial, before, policies) && CPU0 in policies
    requires Supported(actions) && Lowers(actions, initial, before) && ExpectedHold(actions, policies, before)
    requires EachEither(actions, policies, files) && OnlyPlanned(actions, policies, before, files)
    ensures Near(initial, files, policies) <==> Cpu0Leads(actions, policies, files)
  {
    if Cpu0Leads(actions, policies, files) {
      forall file | Settable(file)
        ensures Unchanged(initial, files, policies, file) || Lowered(initial, files, policies, file)
      {
        assert Unchanged(initial, before, policies, file) || Lowered(initial, before, policies, file);
        if i :| 0 <= i < |actions| && StepOf(actions[i]).file == file {
          FileLowered(initial, policies, actions, before, files, i);
        } else {
          FileUntouched(initial, policies, actions, before, files, file);
        }
      }
      SettableOnly(initial, policies, actions, before, files);
    }
    if Near(initial, files, policies) {
      forall i, cpu | 0 <= i < |actions| && cpu in policies
        ensures
          var step := StepOf(actions[i]);
          Holds(files, Path(cpu, step.file), step.target) && step.target != step.expected ==>
            Holds(files, Cpu0(step.file), step.target)
      {
        FileLeads(initial, policies, actions, before, files, i, cpu);
      }
    }
  }

  lemma FileLeads(initial: Files, policies: seq<string>, actions: seq<Action>, before: Files, files: Files, i: nat,
                  cpu: string)
    requires Near(initial, before, policies) && Near(initial, files, policies) && CPU0 in policies && cpu in policies
    requires Supported(actions) && Lowers(actions, initial, before) && ExpectedHold(actions, policies, before)
             && i < |actions|
    ensures
      var step := StepOf(actions[i]);
      Holds(files, Path(cpu, step.file), step.target) && step.target != step.expected ==>
        Holds(files, Cpu0(step.file), step.target)
  {
    var step := StepOf(actions[i]);
    assert Unchanged(initial, before, policies, step.file);
    assert Holds(before, Path(cpu, step.file), step.expected);
    assert Unchanged(initial, files, policies, step.file) || Lowered(initial, files, policies, step.file);
  }

  lemma FileLowered(initial: Files, policies: seq<string>, actions: seq<Action>, before: Files, files: Files, i: nat)
    requires Near(initial, before, policies) && CPU0 in policies
    requires Supported(actions) && Lowers(actions, initial, before) && ExpectedHold(actions, policies, before)
    requires Cpu0Leads(actions, policies, files) && i < |actions|
    ensures
      var file := StepOf(actions[i]).file;
      Unchanged(initial, files, policies, file) || Lowered(initial, files, policies, file)
  {
    var step := StepOf(actions[i]);
    assert Unchanged(initial, before, policies, step.file);
    forall cpu | cpu in policies ensures Holds(initial, Path(cpu, step.file), step.expected) {
      assert Holds(before, Path(cpu, step.file), step.expected);
    }
  }

  lemma SettableOnly(initial: Files, policies: seq<string>, actions: seq<Action>, before: Files, files: Files)
    requires SameOutside(initial, before, policies) && Supported(actions)
    requires forall i :: 0 <= i < |actions| ==> Settable(StepOf(actions[i]).file)
    requires OnlyPlanned(actions, policies, before, files)
    ensures SameOutside(initial, files, policies)
  {
  }

  lemma FileUntouched(initial: Files, policies: seq<string>, actions: seq<Action>, before: Files, files: Files,
                      file: File)
    requires Supported(actions) && OnlyPlanned(actions, policies, before, files)
    requires forall i :: 0 <= i < |actions| ==> StepOf(actions[i]).file != file
    ensures forall cpu :: Path(cpu, file) in before ==> Holds(files, Path(cpu, file), before[Path(cpu, file)])
    ensures Unchanged(initial, before, policies, file) ==> Unchanged(initial, files, policies, file)
    ensures Lowered(initial, before, policies, file) ==> Lowered(initial, files, policies, file)
  {
    forall cpu | Path(cpu, file) in before ensures Holds(files, Path(cpu, file), before[Path(cpu, file)]) {
      assert !Planned(actions, policies, Path(cpu, file));
    }
  }

  /** A restore that succeeds brings back the initial configuration on every CPU. */
  lemma RaisingRestoresEverything(initial: Files, policies: seq<string>, actions: seq<Action>, before: Files,
                                  files: Files)
    requires Near(initial, before, policies)
    requires Supported(actions) && PutsBack(actions, initial, before) && CoversCpu0(actions, initial, before)
    requires TargetsHold(actions, policies, files) && OnlyPlanned(actions, policies, before, files)
    ensures files == initial
  {
    forall file | Settable(file) ensures Unchanged(initial, files, policies, file) {
      assert Unchanged(initial, before, policies, file) || Lowered(initial, before, policies, file);
      if i :| 0 <= i < |actions| && StepOf(actions[i]).file == file {
        forall cpu | cpu in policies && Path(cpu, file) in initial
          ensures Holds(files, Path(cpu, file), initial[Path(cpu, file)])
        {
        }
      } else {
        FileUntouched(initial, policies, actions, before, files, file);
      }
    }
    SettableOnly(initial, policies, actions, before, files);
    UnchangedEverywhere(initial, files, policies);
  }

  /** A restore stays near it exactly as long as, for each file, cpu0 is not back or all CPUs are. */
  lemma RaisingStaysNear(initial: Files, policies: seq<string>, actions: seq<Action>, before: Files, files: Files)
    requires Near(initial, before, policies) && CPU0 in policies
    requires Supported(actions) && PutsBack(actions, initial, before) && ExpectedHold(actions, policies, before)
    requires EachEither(actions, policies, files) && OnlyPlanned(actions, policies, before, files)
    ensures Near(initial, files, policies) <==> BackTogether(actions, policies, files)
  {
    if BackTogether(actions, policies, files) {
      forall file | Settable(file)
        ensures Unchanged(initial, files, policies, file) || Lowered(initial, files, policies, file)
      {
        assert Unchanged(initial, before, policies, file) || Lowered(initial, before, policies, file);
        if i :| 0 <= i < |actions| && StepOf(actions[i]).file == file {
          FileRaised(initial, policies, actions, before, files, i);
        } else {
          FileUntouched(initial, policies, actions, before, files, file);
        }
      }
      SettableOnly(initial, policies, actions, before, files);
    }
    if Near(initial, files, policies) {
      forall i, cpu | 0 <= i < |actions| && cpu in policies
        ensures
          var step := StepOf(actions[i]);
          Holds(files, Cpu0(step.file), step.expected) || Holds(files, Path(cpu, step.file), step.target)
      {
        FileRaised(initial, policies, actions, before, files, i);
      }
    }
  }

  lemma FileRaised(initial: Files, policies: seq<string>, actions: seq<Action>, before: Files, files: Files, i: nat)
    requires Near(initial, before, policies) && CPU0 in policies
    requires Supported(actions) && PutsBack(actions, initial, before) && ExpectedHold(actions, policies, before)
    requires EachEither(actions, policies, files) && i < |actions|
    ensures
      var step := StepOf(actions[i]);
      Unchanged(initial, files, policies, step.file) || Lowered(initial, files, policies, step.file)
      <==>
      (|| Holds(files, Cpu0(step.file), step.expected)
       || forall cpu :: cpu in policies ==> Holds(files, Path(cpu, step.file), step.target))
  {
    var step := StepOf(actions[i]);
    assert Unchanged(initial, before, policies, step.file) || Lowered(initial, before, policies, step.file);
    assert Lowered(initial, before, policies, step.file);
    forall cpu | cpu in policies
      ensures Holds(initial, Path(cpu, step.file), step.target)
      ensures Holds(files, Path(cpu, step.file), step.expected) || Holds(files, Path(cpu, step.file), step.target)
    {
    }
  }
}
