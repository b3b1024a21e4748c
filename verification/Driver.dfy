/**
 The drivers: the only components that act on a host.

 The Linux driver checks every planned file on every CPU for drift, then writes and
 reads back one file at a time, and on the first failure writes the expected values
 back in reverse order.
 */
module Driver {
  import opened Wrappers
  import opened Host
  import opened Plan

  // ----- CPUs and files

  const CPU0 := "cpu0"

  /** The directory names that the pattern `cpu[0-9]*` matches. */
  predicate IsCpuName(name: string) {
    |name| >= 4 && name[..3] == "cpu" && '0' <= name[3] <= '9'
  }

  /** Lexicographic order on strings. */
  predicate Before(a: string, b: string) {
    if b == [] then false
    else if a == [] then true
    else if a[0] != b[0] then a[0] < b[0]
    else Before(a[1..], b[1..])
  }

  /** The sorted list of CPU directories that hold a cpufreq directory. */
  ghost predicate IsPolicyList(policies: seq<string>) {
    && (forall i :: 0 <= i < |policies| ==> IsCpuName(policies[i]))
    && (forall i, j :: 0 <= i < j < |policies| ==> Before(policies[i], policies[j]))
  }

  lemma {:induction false} NotBeforeItself(a: string)
    ensures !Before(a, a)
  {
    if a != [] { NotBeforeItself(a[1..]); }
  }

  /** The sort puts cpu0, the only CPU the planner looks at, first; and no CPU is listed twice. */
  lemma Cpu0ComesFirst(policies: seq<string>)
    requires IsPolicyList(policies)
    ensures CPU0 in policies ==> policies[0] == CPU0
    ensures forall i, j :: 0 <= i < j < |policies| ==> policies[i] != policies[j]
  {
    if CPU0 in policies && policies[0] != CPU0 {
      var name := policies[0];
      assert Before(name, CPU0);
      assert name[0] == 'c' && name[1..][0] == 'p' && name[1..][1..][0] == 'u' by {
        assert name[..3][0] == 'c' && name[..3][1] == 'p' && name[..3][2] == 'u';
      }
      assert !Before(name[1..][1..][1..], CPU0[1..][1..][1..]);
      assert !Before(name[1..][1..], CPU0[1..][1..]);
      assert !Before(name[1..], CPU0[1..]);
    }
    forall i, j | 0 <= i < j < |policies| ensures policies[i] != policies[j] {
      NotBeforeItself(policies[i]);
    }
  }

  // ----- The plan, flattened into the cells the loops visit

  /** One planned file of one CPU, in the order in which the loops visit them. */
  datatype Cell = Cell(path: Path, expected: Value, target: Value)

  datatype Step = Step(file: File, expected: Value, target: Value)

  function StepOf(action: Action): Step
    requires !action.Unsupported?
  {
    match action
    case SetGovernor(expected, target) => Step(Governor, Name(expected), Name(target))
    case SetScalingMax(expected, target) => Step(ScalingMax, Khz(expected), Khz(target))
  }

  predicate Supported(actions: seq<Action>) {
    forall i :: 0 <= i < |actions| ==> !actions[i].Unsupported?
  }

  function StepsOf(actions: seq<Action>): (steps: seq<Step>)
    requires Supported(actions)
    ensures |steps| == |actions|
    ensures forall i :: 0 <= i < |actions| ==> steps[i] == StepOf(actions[i])
  {
    seq(|actions|, i requires 0 <= i < |actions| => StepOf(actions[i]))
  }

  function StepCells(step: Step, policies: seq<string>): (cells: seq<Cell>)
    ensures |cells| == |policies|
    ensures forall i :: 0 <= i < |policies| ==>
      cells[i] == Cell(Path(policies[i], step.file), step.expected, step.target)
  {
    seq(|policies|, i requires 0 <= i < |policies| =>
      Cell(Path(policies[i], step.file), step.expected, step.target))
  }

  function Cells(steps: seq<Step>, policies: seq<string>): seq<Cell> {
    if steps == [] then [] else StepCells(steps[0], policies) + Cells(steps[1..], policies)
  }

  function PlanCells(actions: seq<Action>, policies: seq<string>): seq<Cell>
    requires Supported(actions)
  {
    Cells(StepsOf(actions), policies)
  }

  ghost predicate Distinct(cells: seq<Cell>) {
    forall i, j :: 0 <= i < j < |cells| ==> cells[i].path != cells[j].path
  }

  ghost predicate OneActionPerFile(actions: seq<Action>)
    requires Supported(actions)
  {
    forall i, j :: 0 <= i < j < |actions| ==> StepOf(actions[i]).file != StepOf(actions[j]).file
  }

  /** The cells are exactly the planned files of the listed CPUs. */
  lemma {:induction false} CellsAreThePlannedFiles(steps: seq<Step>, policies: seq<string>)
    ensures forall i, j :: 0 <= i < |steps| && 0 <= j < |policies| ==>
      Cell(Path(policies[j], steps[i].file), steps[i].expected, steps[i].target) in Cells(steps, policies)
    ensures forall c :: c in Cells(steps, policies) ==>
      exists i :: 0 <= i < |steps| && c.path.cpu in policies
          && c == Cell(Path(c.path.cpu, steps[i].file), steps[i].expected, steps[i].target)
  {
    if steps != [] {
      var row, rest := StepCells(steps[0], policies), Cells(steps[1..], policies);
      CellsAreThePlannedFiles(steps[1..], policies);
      forall i, j | 0 <= i < |steps| && 0 <= j < |policies|
        ensures Cell(Path(policies[j], steps[i].file), steps[i].expected, steps[i].target) in Cells(steps, policies)
      {
        if i == 0 { assert row[j] in row; } else { assert steps[i] == steps[1..][i - 1]; }
      }
      forall c | c in Cells(steps, policies)
        ensures exists i :: 0 <= i < |steps| && c.path.cpu in policies
                 && c == Cell(Path(c.path.cpu, steps[i].file), steps[i].expected, steps[i].target)
      {
        if c !in row {
          var i :| 0 <= i < |steps[1..]| && c.path.cpu in policies
              && c == Cell(Path(c.path.cpu, steps[1..][i].file), steps[1..][i].expected, steps[1..][i].target);
          assert steps[1..][i] == steps[i + 1];
        } else {
          var j :| 0 <= j < |row| && row[j] == c;
          assert c == Cell(Path(c.path.cpu, steps[0].file), steps[0].expected, steps[0].target);
        }
      }
    }
  }

  lemma {:induction false} CellsAreDistinct(steps: seq<Step>, policies: seq<string>)
    requires forall i, j :: 0 <= i < j < |steps| ==> steps[i].file != steps[j].file
    requires forall i, j :: 0 <= i < j < |policies| ==> policies[i] != policies[j]
    ensures Distinct(Cells(steps, policies))
  {
    if steps != [] {
      var row, rest := StepCells(steps[0], policies), Cells(steps[1..], policies);
      CellsAreDistinct(steps[1..], policies);
      CellsAreThePlannedFiles(steps[1..], policies);
      forall i, j | 0 <= i < |row| && 0 <= j < |rest| ensures row[i].path != rest[j].path {
        assert rest[j] in rest;
      }
    }
  }

  // ----- What the driver computes

  datatype Cause = WriteRaised(path: Path) | NotTaken(path: Path, target: Value)

  datatype Fault =
    | NoPolicies
    | Drift(path: Path, found: Option<Value>, expected: Value)
    | Failed(cause: Cause, stuck: seq<Path>)  // `stuck` lists the files whose rollback failed

  datatype ApplyResult = ApplyResult(
    driver: string,
    applied: bool,
    actions: seq<Action>,
    error: Option<Fault>,
    rolledBack: bool)

  datatype Refusal = BlockedPlan | UnsupportedAction

  const LINUX := "linux-cpufreq"
  const DRY_RUN := "dry-run"

  /** The first cell at or after `i` that does not read as expected. */
  function CheckDrift(env: Env, w: World, cells: seq<Cell>, i: nat): (World, Option<Fault>)
    requires i <= |cells|
    decreases |cells| - i
  {
    if i == |cells| then (w, None)
    else
      var (w1, found) := ReadAt(env, w, cells[i].path);
      if found != Some(cells[i].expected)
      then (w1, Some(Drift(cells[i].path, found, cells[i].expected)))
      else CheckDrift(env, w1, cells, i + 1)
  }

  /** `done` counts the cells whose write returned. */
  datatype Forward = Forward(w: World, done: nat, failure: Option<Cause>)

  datatype CellReport = Verified | Untaken | Threw

  /** One write followed by its read-back. */
  function PutValue(env: Env, w: World, path: Path, value: Value): (World, CellReport) {
    var (w1, report) := WriteAt(env, w, path, value);
    if report.Raised? then (w1, Threw)
    else
      var (w2, found) := ReadAt(env, w1, path);
      (w2, if found == Some(value) then Verified else Untaken)
  }

  function WriteCells(env: Env, w: World, cells: seq<Cell>, i: nat): (r: Forward)
    requires i <= |cells|
    ensures i <= r.done <= |cells|
    decreases |cells| - i
  {
    if i == |cells| then Forward(w, i, None)
    else
      var (w1, report) := PutValue(env, w, cells[i].path, cells[i].target);
      if report.Verified? then WriteCells(env, w1, cells, i + 1)
      else if report.Threw? then Forward(w1, i, Some(WriteRaised(cells[i].path)))
      else Forward(w1, i + 1, Some(NotTaken(cells[i].path, cells[i].target)))
  }

  /** The `done` list after `n` writes: each file with its previous value. */
  function Done(cells: seq<Cell>, n: nat): (done: seq<(Path, Value)>)
    requires n <= |cells|
    ensures |done| == n
  {
    if n == 0 then [] else Done(cells, n - 1) + [(cells[n - 1].path, cells[n - 1].expected)]
  }

  lemma {:induction false} DoneAt(cells: seq<Cell>, n: nat, k: nat)
    requires k < n <= |cells|
    ensures Done(cells, n)[k] == (cells[k].path, cells[k].expected)
  {
    if k < n - 1 { DoneAt(cells, n - 1, k); }
  }

  /** Writes back the expected values of the first `k` cells, last one first. */
  function UndoCells(env: Env, w: World, cells: seq<Cell>, k: nat): (World, seq<Path>)
    requires k <= |cells|
    decreases k
  {
    if k == 0 then (w, [])
    else
      var (w1, report) := PutValue(env, w, cells[k - 1].path, cells[k - 1].expected);
      var (w2, rest) := UndoCells(env, w1, cells, k - 1);
      (w2, (if report.Verified? then [] else [cells[k - 1].path]) + rest)
  }

  function ApplyPlan(env: Env, policies: seq<string>, w: World, plan: ChangePlan)
    : (World, Result<ApplyResult, Refusal>)
  {
    if plan.Blocked() then (w, Err(BlockedPlan))
    else if plan.actions == [] then (w, Ok(ApplyResult(LINUX, false, [], None, false)))
    else if !Supported(plan.actions) then (w, Err(UnsupportedAction))
    else if policies == [] then (w, Ok(ApplyResult(LINUX, false, [], Some(NoPolicies), false)))
    else
      var cells := PlanCells(plan.actions, policies);
      var (w1, drift) := CheckDrift(env, w, cells, 0);
      if drift.Some? then (w1, Ok(ApplyResult(LINUX, false, [], drift, false)))
      else
        var forward := WriteCells(env, w1, cells, 0);
        if forward.failure.None? then (forward.w, Ok(ApplyResult(LINUX, true, plan.actions, None, false)))
        else
          var (w2, stuck) := UndoCells(env, forward.w, cells, forward.done);
          (w2, Ok(RollbackResult(plan, forward.failure.value, stuck)))
  }

  function RollbackResult(plan: ChangePlan, cause: Cause, stuck: seq<Path>): ApplyResult {
    ApplyResult(LINUX, stuck != [], plan.actions, Some(Failed(cause, stuck)), stuck == [])
  }

  function DryRun(plan: ChangePlan): Result<ApplyResult, Refusal> {
    if plan.Blocked() then Err(BlockedPlan) else Ok(ApplyResult(DRY_RUN, false, plan.actions, None, false))
  }

  /** The inner loops visit the cells in order. */
  lemma StepCell(cells: seq<Cell>, k: nat, step: Step, policies: seq<string>, j: nat, later: seq<Cell>)
    requires k <= |cells| && j < |policies|
    requires cells[k..] == StepCells(step, policies) + later
    ensures k + j < |cells| && cells[k + j] == Cell(Path(policies[j], step.file), step.expected, step.target)
  {
    assert cells[k + j] == cells[k..][j];
  }

  // ----- The drivers as objects

  class DryRunDriver {
    constructor () {}

    /** Reports what it would do and leaves the host untouched. */
    method Apply(plan: ChangePlan) returns (r: Result<ApplyResult, Refusal>)
      ensures r == DryRun(plan)
      ensures r.Err? <==> plan.blockers != [] || plan.deferrals != []
      ensures r.Ok? ==> r.value == ApplyResult("dry-run", false, plan.actions, None, false)
    {
      if plan.Blocked() { return Err(BlockedPlan); }
      r := Ok(ApplyResult(DRY_RUN, false, plan.actions, None, false));
    }
  }

  class LinuxCpufreqDriver {
    const host: CpuHost
    const policies: seq<string>

    constructor (host: CpuHost, policies: seq<string>)
      ensures this.host == host && this.policies == policies
    {
      this.host, this.policies := host, policies;
    }

    method Apply(plan: ChangePlan) returns (r: Result<ApplyResult, Refusal>)
      modifies host
      ensures (host.View(), r) == ApplyPlan(host.env, policies, old(host.View()), plan)
    {
      if plan.Blocked() { return Err(BlockedPlan); }
      if plan.actions == [] { return Ok(ApplyResult(LINUX, false, [], None, false)); }
      if !Supported(plan.actions) { return Err(UnsupportedAction); }
      var steps := StepsOf(plan.actions);
      if policies == [] { return Ok(ApplyResult(LINUX, false, [], Some(NoPolicies), false)); }
      var drift := FindDrift(steps);
      if drift.Some? { return Ok(ApplyResult(LINUX, false, [], drift, false)); }
      var done, failure := WriteSteps(steps);
      if failure.None? { return Ok(ApplyResult(LINUX, true, plan.actions, None, false)); }
      var result := RollBack(plan, done, failure.value, Cells(steps, policies));
      r := Ok(result);
    }

    /** The first loops: every planned file of every CPU must read as expected. */
    method FindDrift(steps: seq<Step>) returns (drift: Option<Fault>)
      modifies host
      ensures (host.View(), drift) == CheckDrift(host.env, old(host.View()), Cells(steps, policies), 0)
    {
      ghost var cells, k: nat := Cells(steps, policies), 0;
      ghost var goal := CheckDrift(host.env, host.View(), cells, 0);
      for i := 0 to |steps|
        invariant k <= |cells| && cells[k..] == Cells(steps[i..], policies)
        invariant goal == CheckDrift(host.env, host.View(), cells, k)
      {
        drift := FindDriftOf(steps[i], cells, k, Cells(steps[i + 1..], policies));
        if drift.Some? { return; }
        assert cells[k + |policies|..] == cells[k..][|policies|..];
        k := k + |policies|;
      }
      drift := None;
    }

    /** The inner loop: one file on every CPU. */
    method FindDriftOf(step: Step, ghost cells: seq<Cell>, ghost start: nat, ghost later: seq<Cell>)
      returns (drift: Option<Fault>)
      requires start <= |cells| && cells[start..] == StepCells(step, policies) + later
      modifies host
      ensures CheckDrift(host.env, old(host.View()), cells, start) ==
        if drift.Some? then (host.View(), drift) else CheckDrift(host.env, host.View(), cells, start + |policies|)
    {
      for j := 0 to |policies|
        invariant CheckDrift(host.env, old(host.View()), cells, start)
            == CheckDrift(host.env, host.View(), cells, start + j)
      {
        StepCell(cells, start, step, policies, j, later);
        var path := Path(policies[j], step.file);
        var found := host.Read(path);
        if found != Some(step.expected) { return Some(Drift(path, found, step.expected)); }
      }
      drift := None;
    }

    method Put(path: Path, value: Value) returns (report: CellReport)
      modifies host
      ensures (host.View(), report) == PutValue(host.env, old(host.View()), path, value)
    {
      var written := host.Write(path, value);
      if written.Raised? { return Threw; }
      var found := host.Read(path);
      report := if found == Some(value) then Verified else Untaken;
    }

    /** The second loops: write and read back, recording each write that returned. */
    method WriteSteps(steps: seq<Step>) returns (done: seq<(Path, Value)>, failure: Option<Cause>)
      modifies host
      ensures
        var cells := Cells(steps, policies);
        && WriteCells(host.env, old(host.View()), cells, 0) == Forward(host.View(), |done|, failure)
        && done == Done(cells, |done|)
    {
      ghost var cells := Cells(steps, policies);
      ghost var goal := WriteCells(host.env, host.View(), cells, 0);
      done, failure := [], None;
      for i := 0 to |steps|
        invariant failure.None? && |done| <= |cells| && cells[|done|..] == Cells(steps[i..], policies)
        invariant done == Done(cells, |done|) && goal == WriteCells(host.env, host.View(), cells, |done|)
      {
        done, failure := WriteStep(steps[i], done, cells, Cells(steps[i + 1..], policies));
        if failure.Some? { return; }
      }
    }

    /** The inner loop: one file on every CPU. */
    method WriteStep(step: Step, before: seq<(Path, Value)>, ghost cells: seq<Cell>, ghost later: seq<Cell>)
      returns (done: seq<(Path, Value)>, failure: Option<Cause>)
      requires |before| <= |cells| && cells[|before|..] == StepCells(step, policies) + later
      requires before == Done(cells, |before|)
      modifies host
      ensures |done| <= |cells|
      ensures done == Done(cells, |done|)
      ensures WriteCells(host.env, old(host.View()), cells, |before|) ==
        if failure.Some? then Forward(host.View(), |done|, failure)
            else WriteCells(host.env, host.View(), cells, |done|)
      ensures failure.None? ==> cells[|done|..] == later
    {
      ghost var goal := WriteCells(host.env, host.View(), cells, |before|);
      done := before;
      for j := 0 to |policies|
        invariant |done| == |before| + j <= |cells| && done == Done(cells, |done|)
        invariant goal == WriteCells(host.env, host.View(), cells, |done|)
      {
        StepCell(cells, |before|, step, policies, j, later);
        done, failure := WriteCell(Path(policies[j], step.file), step.expected, step.target, done, cells);
        if failure.Some? { return; }
      }
      failure := None;
    }

    /** The body of the loops: one file of one CPU. */
    method WriteCell(path: Path, expected: Value, target: Value, before: seq<(Path, Value)>, ghost cells: seq<Cell>)
      returns (done: seq<(Path, Value)>, failure: Option<Cause>)
      requires |before| < |cells| && cells[|before|] == Cell(path, expected, target) && before == Done(cells, |before|)
      modifies host
      ensures |done| <= |cells| && done == Done(cells, |done|)
      ensures WriteCells(host.env, old(host.View()), cells, |before|) ==
        if failure.Some? then Forward(host.View(), |done|, failure)
            else WriteCells(host.env, host.View(), cells, |done|)
      ensures failure.None? ==> |done| == |before| + 1
    {
      var report := Put(path, target);
      if report.Threw? { return before, Some(WriteRaised(path)); }
      done := before + [(path, expected)];
      if report.Untaken? { return done, Some(NotTaken(path, target)); }
      failure := None;
    }

    /** Writes the recorded values back in reverse order, as far as they go. */
    method RollBack(plan: ChangePlan, done: seq<(Path, Value)>, cause: Cause, ghost cells: seq<Cell>)
      returns (r: ApplyResult)
      requires |done| <= |cells| && done == Done(cells, |done|)
      modifies host
      ensures
        var (w, stuck) := UndoCells(host.env, old(host.View()), cells, |done|);
        host.View() == w && r == RollbackResult(plan, cause, stuck)
    {
      ghost var goal := UndoCells(host.env, host.View(), cells, |done|);
      var failed := [];
      var k: nat := |done|;
      while k > 0
        invariant k <= |done|
        invariant goal.0 == UndoCells(host.env, host.View(), cells, k).0
        invariant goal.1 == failed + UndoCells(host.env, host.View(), cells, k).1
      {
        k := k - 1;
        DoneAt(cells, |done|, k);
        var (path, previous) := done[k];
        ghost var before := host.View();
        var report := Put(path, previous);
        ghost var rest := UndoCells(host.env, host.View(), cells, k).1;
        assert UndoCells(host.env, before, cells, k + 1).1 == (if report.Verified? then [] else [path]) + rest;
        if !report.Verified? {
          assert failed + ([path] + rest) == failed + [path] + rest;
          failed := failed + [path];
        }
      }
      assert failed + [] == failed;
      r := ApplyResult(LINUX, failed != [], plan.actions, Some(Failed(cause, failed)), failed == []);
    }
  }
}
