/**
 The archived Rust driver: ordered changes of cpu0's governor and frequency limits, each
 verified within a tolerance, with a rollback that includes the failing change.
 */
module RestDriver {
  import opened Wrappers
  import opened Host

  function Cpu0(file: File): Path { Path("cpu0", file) }

  /** What a file is asked to hold: a word, or a frequency in MHz. */
  datatype Goal = Text(word: string) | Mhz(mhz: real)

  datatype OriginalPower = OriginalPower(governor: string, scalingMin: real, scalingMax: real)

  datatype Change = CpuGovernor(current: string, target: string) | CpuMaxFrequency(currentMhz: real, targetMhz: real)

  datatype PlanStatus = Ready | NoChanges | Blocked

  datatype RestPlan = RestPlan(status: PlanStatus, changes: seq<Change>, blockers: seq<string>)

  datatype Capabilities = Capabilities(
    cpufreqAvailable: bool,
    governors: seq<string>,
    hardwareMin: Option<real>,
    hardwareMax: Option<real>)

  /** `Refused` means that nothing was written. */
  datatype DriverError = Refused | RolledBack | RollbackFailed

  // ----- Reading, writing and comparing

  predicate Close(left: real, right: real) {
    -0.5 < left - right < 0.5
  }

  /** The file's contents satisfy the goal, frequencies within half a megahertz. */
  predicate Meets(value: Value, goal: Goal) {
    match goal
    case Text(word) => value == Name(word)
    case Mhz(mhz) => value.Khz? && Close(value.amount as real / 1000.0, mhz)
  }

  /** A positive frequency is written in whole kilohertz, rounded half up. */
  function Encoded(goal: Goal): Value {
    match goal
    case Text(word) => Name(word)
    case Mhz(mhz) => Khz(ToKhz(mhz))
  }

  function ToKhz(mhz: real): int { (mhz * 1000.0 + 0.5).Floor }

  predicate Writable(goal: Goal) { goal.Mhz? ==> goal.mhz > 0.0 }

  function Verify(env: Env, w: World, file: File, goal: Goal): (World, bool) {
    var (w', found) := ReadAt(env, w, Cpu0(file));
    (w', found.Some? && Meets(found.value, goal))
  }

  function Put(env: Env, w: World, file: File, goal: Goal): (World, bool) {
    if !Writable(goal) then (w, false)
    else
      var (w1, report) := WriteAt(env, w, Cpu0(file), Encoded(goal));
      if report.Raised? then (w1, false) else Verify(env, w1, file, goal)
  }

  // ----- Ordered tasks with rollback

  /** One setting to change: what it must be before (if checked), the goal, and what a rollback restores. */
  datatype Task = Task(file: File, before: Option<Goal>, goal: Goal, undo: Goal)

  function Perform(env: Env, w: World, task: Task): (World, bool) {
    if task.before.None? then Put(env, w, task.file, task.goal)
    else
      var (w1, same) := Verify(env, w, task.file, task.before.value);
      if same then Put(env, w1, task.file, task.goal) else (w1, false)
  }

  /** The index of the first task that fails, if any. */
  function PerformAll(env: Env, w: World, tasks: seq<Task>, i: nat): (r: (World, Option<nat>))
    requires i <= |tasks|
    ensures r.1.Some? ==> i <= r.1.value < |tasks|
    decreases |tasks| - i
  {
    if i == |tasks| then (w, None)
    else
      var (w1, ok) := Perform(env, w, tasks[i]);
      if ok then PerformAll(env, w1, tasks, i + 1) else (w1, Some(i))
  }

  /** Undoes the first `k` tasks, last one first, going on after failures. */
  function UndoAll(env: Env, w: World, tasks: seq<Task>, k: nat): (World, bool)
    requires k <= |tasks|
    decreases k
  {
    if k == 0 then (w, true)
    else
      var (w1, ok) := Put(env, w, tasks[k - 1].file, tasks[k - 1].undo);
      var (w2, rest) := UndoAll(env, w1, tasks, k - 1);
      (w2, ok && rest)
  }

  /** The failing task is part of what is rolled back. */
  function Transact(env: Env, w: World, tasks: seq<Task>): (World, Option<DriverError>) {
    var (w1, failed) := PerformAll(env, w, tasks, 0);
    if failed.None? then (w1, None)
    else
      var (w2, ok) := UndoAll(env, w1, tasks, failed.value + 1);
      (w2, Some(if ok then RolledBack else RollbackFailed))
  }

  // ----- Apply

  function TaskOf(change: Change, original: OriginalPower): Task {
    match change
    case CpuGovernor(current, target) => Task(Governor, Some(Text(current)), Text(target), Text(original.governor))
    case CpuMaxFrequency(current, target) => Task(ScalingMax, Some(Mhz(current)), Mhz(target), Mhz(original.scalingMax))
  }

  function TasksOf(changes: seq<Change>, original: OriginalPower): (tasks: seq<Task>)
    ensures |tasks| == |changes| && forall i :: 0 <= i < |changes| ==> tasks[i] == TaskOf(changes[i], original)
  {
    seq(|changes|, i requires 0 <= i < |changes| => TaskOf(changes[i], original))
  }

  /** A change that a plan may hold. */
  predicate ValidChange(change: Change, original: OriginalPower) {
    match change
    case CpuGovernor(_, target) => target == "powersave"
    case CpuMaxFrequency(current, target) => original.scalingMin <= target <= current
  }

  /** The plan starts from the saved original state. */
  predicate StartsFrom(change: Change, original: OriginalPower) {
    match change
    case CpuGovernor(current, _) => current == original.governor
    case CpuMaxFrequency(current, _) => Close(current, original.scalingMax)
  }

  function FileOf(change: Change): File {
    if change.CpuGovernor? then Governor else ScalingMax
  }

  /** Valid changes, at most one of the governor and one of the ceiling. */
  predicate ValidPlan(plan: RestPlan, original: OriginalPower) {
    && plan.blockers == [] && plan.changes != []
    && (forall i :: 0 <= i < |plan.changes| ==> ValidChange(plan.changes[i], original))
    && forall i, j :: 0 <= i < j < |plan.changes| ==> FileOf(plan.changes[i]) != FileOf(plan.changes[j])
  }

  /** Checks that the host is as the plan found it, stopping at the first difference. */
  function CheckLive(env: Env, w: World, tasks: seq<Task>, i: nat): (World, bool)
    requires i <= |tasks| && forall j :: 0 <= j < |tasks| ==> tasks[j].before.Some?
    decreases |tasks| - i
  {
    if i == |tasks| then (w, true)
    else
      var (w1, same) := Verify(env, w, tasks[i].file, tasks[i].before.value);
      if same then CheckLive(env, w1, tasks, i + 1) else (w1, false)
  }

  function Apply(env: Env, w: World, plan: RestPlan, original: OriginalPower)
    : (World, Result<seq<Change>, DriverError>)
  {
    match plan.status
    case Blocked => (w, Err(Refused))
    case NoChanges => (w, Ok([]))
    case Ready =>
      if !ValidPlan(plan, original) || !(forall i :: 0 <= i < |plan.changes| ==> StartsFrom(plan.changes[i], original))
      then (w, Err(Refused))
      else
        var tasks := TasksOf(plan.changes, original);
        var (w1, same) := CheckLive(env, w, tasks, 0);
        if !same then (w1, Err(Refused))
        else
          var (w2, error) := Transact(env, w1, tasks);
          (w2, if error.None? then Ok(plan.changes) else Err(error.value))
  }

  // ----- Restore

  datatype Live = Live(governor: string, minMhz: real, maxMhz: real)

  predicate ValidTarget(original: OriginalPower, capabilities: Capabilities) {
    && capabilities.cpufreqAvailable && original.governor in capabilities.governors
    && capabilities.hardwareMin.Some? && capabilities.hardwareMax.Some?
    && capabilities.hardwareMin.value <= original.scalingMin <= original.scalingMax <= capabilities.hardwareMax.value
  }

  function ReadText(env: Env, w: World, file: File): (World, Option<string>) {
    var (w', found) := ReadAt(env, w, Cpu0(file));
    (w', if found.Some? && found.value.Name? then Some(found.value.text) else None)
  }

  function ReadMhz(env: Env, w: World, file: File): (World, Option<real>) {
    var (w', found) := ReadAt(env, w, Cpu0(file));
    (w', if found.Some? && found.value.Khz? then Some(found.value.amount as real / 1000.0) else None)
  }

  function ReadLive(env: Env, w: World): (World, Option<Live>) {
    var (w1, governor) := ReadText(env, w, Governor);
    if governor.None? then (w1, None)
    else
      var (w2, min) := ReadMhz(env, w1, ScalingMin);
      if min.None? then (w2, None)
      else
        var (w3, max) := ReadMhz(env, w2, ScalingMax);
        (w3, if max.None? then None else Some(Live(governor.value, min.value, max.value)))
  }

  /** Maximum, minimum, governor: the settings that differ from the live state, in this order. */
  function RestoreTasks(original: OriginalPower, live: Live): seq<Task> {
    (if Close(live.maxMhz, original.scalingMax) then []
     else [Task(ScalingMax, None, Mhz(original.scalingMax), Mhz(live.maxMhz))])
    + (if Close(live.minMhz, original.scalingMin) then []
       else [Task(ScalingMin, None, Mhz(original.scalingMin), Mhz(live.minMhz))])
    + (if live.governor == original.governor then []
       else [Task(Governor, None, Text(original.governor), Text(live.governor))])
  }

  function RestoreActive(env: Env, w: World, original: OriginalPower, capabilities: Capabilities)
    : (World, Option<DriverError>)
  {
    if !ValidTarget(original, capabilities) then (w, Some(Refused))
    else
      var (w1, live) := ReadLive(env, w);
      if live.None? then (w1, Some(Refused))
      else Transact(env, w1, RestoreTasks(original, live.value))
  }

  // ----- The driver as an object

  class LinuxRestDriver {
    const host: CpuHost

    constructor (host: CpuHost)
      ensures this.host == host
    {
      this.host := host;
    }

    method VerifyFile(file: File, goal: Goal) returns (ok: bool)
      modifies host
      ensures (host.View(), ok) == Verify(host.env, old(host.View()), file, goal)
    {
      var found := host.Read(Cpu0(file));
      ok := found.Some? && Meets(found.value, goal);
    }

    method PutFile(file: File, goal: Goal) returns (ok: bool)
      modifies host
      ensures (host.View(), ok) == Put(host.env, old(host.View()), file, goal)
    {
      if !Writable(goal) { return false; }
      var report := host.Write(Cpu0(file), Encoded(goal));
      if report.Raised? { return false; }
      ok := VerifyFile(file, goal);
    }

    method PerformTask(task: Task) returns (ok: bool)
      modifies host
      ensures (host.View(), ok) == Perform(host.env, old(host.View()), task)
    {
      if task.before.Some? {
        var same := VerifyFile(task.file, task.before.value);
        if !same { return false; }
      }
      ok := PutFile(task.file, task.goal);
    }

    /** The loop over the changes, with the rollback of those possibly made. */
    method TransactTasks(tasks: seq<Task>) returns (error: Option<DriverError>)
      modifies host
      ensures (host.View(), error) == Transact(host.env, old(host.View()), tasks)
    {
      ghost var goal := PerformAll(host.env, host.View(), tasks, 0);
      for i := 0 to |tasks|
        invariant goal == PerformAll(host.env, host.View(), tasks, i)
      {
        var ok := PerformTask(tasks[i]);
        if !ok {
          var undone := RollbackTasks(tasks, i + 1);
          return Some(if undone then RolledBack else RollbackFailed);
        }
      }
      error := None;
    }

    method RollbackTasks(tasks: seq<Task>, n: nat) returns (ok: bool)
      requires n <= |tasks|
      modifies host
      ensures (host.View(), ok) == UndoAll(host.env, old(host.View()), tasks, n)
    {
      ghost var goal := UndoAll(host.env, host.View(), tasks, n);
      ok := true;
      var k := n;
      while k > 0
        invariant 0 <= k <= n
        invariant goal.0 == UndoAll(host.env, host.View(), tasks, k).0
        invariant goal.1 == (ok && UndoAll(host.env, host.View(), tasks, k).1)
      {
        k := k - 1;
        var undone := PutFile(tasks[k].file, tasks[k].undo);
        ok := ok && undone;
      }
    }

    /** One pass with a flag for each kind of change that was seen. */
    method ValidatePlan(plan: RestPlan, original: OriginalPower) returns (valid: bool)
      ensures valid <==> ValidPlan(plan, original)
    {
      if plan.blockers != [] || plan.changes == [] { return false; }
      var governorSeen, frequencySeen := false, false;
      for i := 0 to |plan.changes|
        invariant forall j :: 0 <= j < i ==> ValidChange(plan.changes[j], original)
        invariant forall j, k :: 0 <= j < k < i ==> FileOf(plan.changes[j]) != FileOf(plan.changes[k])
        invariant governorSeen <==> exists j :: 0 <= j < i && FileOf(plan.changes[j]) == Governor
        invariant frequencySeen <==> exists j :: 0 <= j < i && FileOf(plan.changes[j]) == ScalingMax
      {
        match plan.changes[i] {
          case CpuGovernor(_, target) =>
            if governorSeen || target != "powersave" { return false; }
            governorSeen := true;
          case CpuMaxFrequency(current, target) =>
            if frequencySeen || target < original.scalingMin || target > current { return false; }
            frequencySeen := true;
        }
      }
      valid := true;
    }

    method ApplyPlan(plan: RestPlan, original: OriginalPower) returns (r: Result<seq<Change>, DriverError>)
      modifies host
      ensures (host.View(), r) == Apply(host.env, old(host.View()), plan, original)
    {
      match plan.status {
        case Blocked => return Err(Refused);
        case NoChanges => return Ok([]);
        case Ready =>
      }
      var valid := ValidatePlan(plan, original);
      if !valid { return Err(Refused); }
      for i := 0 to |plan.changes|
        invariant forall j :: 0 <= j < i ==> StartsFrom(plan.changes[j], original)
      {
        if !StartsFrom(plan.changes[i], original) { return Err(Refused); }
      }
      var tasks := TasksOf(plan.changes, original);
      ghost var goal := CheckLive(host.env, host.View(), tasks, 0);
      for i := 0 to |tasks|
        invariant goal == CheckLive(host.env, host.View(), tasks, i)
      {
        var same := VerifyFile(tasks[i].file, tasks[i].before.value);
        if !same { return Err(Refused); }
      }
      var error := TransactTasks(tasks);
      r := if error.None? then Ok(plan.changes) else Err(error.value);
    }

    method Restore(original: OriginalPower, capabilities: Capabilities) returns (error: Option<DriverError>)
      modifies host
      ensures (host.View(), error) == RestoreActive(host.env, old(host.View()), original, capabilities)
    {
      if !ValidTarget(original, capabilities) { return Some(Refused); }
      var governor := host.Read(Cpu0(Governor));
      if governor.None? || !governor.value.Name? { return Some(Refused); }
      var min := host.Read(Cpu0(ScalingMin));
      if min.None? || !min.value.Khz? { return Some(Refused); }
      var max := host.Read(Cpu0(ScalingMax));
      if max.None? || !max.value.Khz? { return Some(Refused); }
      var live := Live(governor.value.text, min.value.amount as real / 1000.0, max.value.amount as real / 1000.0);
      error := TransactTasks(RestoreTasks(original, live));
    }
  }
}
