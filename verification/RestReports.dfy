/**
 What the archived driver answers, with its conditions written out: when it refuses, when it
 succeeds, and when it reports a complete rollback.
 */
module RestReports {
  import opened Wrappers
  import opened Host
  import opened RestDriver
  import opened RestDriverProperties

  /** Two frequencies in MHz that differ by less than half a megahertz. */
  predicate WithinHalf(left: real, right: real) { left - 0.5 < right < left + 0.5 }

  /** The file's contents are the word, or whole kilohertz within half a megahertz of the frequency. */
  predicate Fulfils(value: Value, goal: Goal) {
    match goal
    case Text(word) => value == Name(word)
    case Mhz(mhz) => value.Khz? && WithinHalf(value.amount as real / 1000.0, mhz)
  }

  lemma FulfilsIsMeets(value: Value, goal: Goal)
    ensures Fulfils(value, goal) <==> Meets(value, goal)
  {
  }

  /** Frequencies are written in whole kilohertz, rounded half up. */
  lemma RoundsHalfUp(mhz: real)
    ensures ToKhz(mhz) as real <= mhz * 1000.0 + 0.5 < ToKhz(mhz) as real + 1.0
    ensures Encoded(Mhz(mhz)) == Khz(ToKhz(mhz))
  {
  }

  // ----- Apply: validation

  /** A change to REST that starts from the saved state. */
  predicate IsSoundChange(change: Change, original: OriginalPower) {
    match change
    case CpuGovernor(current, target) => target == "powersave" && current == original.governor
    case CpuMaxFrequency(current, target) =>
      original.scalingMin <= target && target <= current && WithinHalf(current, original.scalingMax)
  }

  /** No blockers, and one or two sound changes, of different kinds. */
  predicate IsSoundPlan(plan: RestPlan, original: OriginalPower) {
    && plan.blockers == [] && plan.changes != []
    && (forall i :: 0 <= i < |plan.changes| ==> IsSoundChange(plan.changes[i], original))
    && (forall i, j :: 0 <= i < j < |plan.changes| ==> plan.changes[i].CpuGovernor? != plan.changes[j].CpuGovernor?)
  }

  /** The host holds what the change expects. */
  predicate HasCurrent(files: Files, change: Change) {
    match change
    case CpuGovernor(current, _) => Path("cpu0", Governor) in files && files[Path("cpu0", Governor)] == Name(current)
    case CpuMaxFrequency(current, _) =>
      && Path("cpu0", ScalingMax) in files && files[Path("cpu0", ScalingMax)].Khz?
      && WithinHalf(files[Path("cpu0", ScalingMax)].amount as real / 1000.0, current)
  }

  /** The read at `tick` finds what the change expects. */
  predicate ReadsCurrent(env: Env, tick: nat, files: Files, change: Change) {
    !Next(env, tick).readFails && HasCurrent(files, change)
  }

  predicate HasPositiveTarget(change: Change) { change.CpuMaxFrequency? ==> change.targetMhz > 0.0 }

  lemma SoundPlanIsValid(plan: RestPlan, original: OriginalPower)
    ensures IsSoundPlan(plan, original) <==>
      ValidPlan(plan, original) && forall i :: 0 <= i < |plan.changes| ==> StartsFrom(plan.changes[i], original)
  {
    forall i | 0 <= i < |plan.changes|
      ensures IsSoundChange(plan.changes[i], original)
         <==> ValidChange(plan.changes[i], original) && StartsFrom(plan.changes[i], original)
    {
    }
  }

  lemma {:induction false} LiveChecksExactly(env: Env, w: World, changes: seq<Change>, original: OriginalPower, i: nat,
                                             start: nat)
    requires i <= |changes| && w.tick == start + i
    ensures
      CheckLive(env, w, TasksOf(changes, original), i).1 <==>
        forall j :: i <= j < |changes| ==> ReadsCurrent(env, start + j, w.files, changes[j])
    decreases |changes| - i
  {
    if i < |changes| {
      var task := TasksOf(changes, original)[i];
      var (w1, same) := Verify(env, w, task.file, task.before.value);
      assert same <==> ReadsCurrent(env, start + i, w.files, changes[i]);
      if same { LiveChecksExactly(env, w1, changes, original, i + 1, start); }
    }
  }

  /**
   On every host, an apply is refused without a write exactly when its plan is blocked, or
   ready but not sound, or the host does not read as the plan found it.
   */
  lemma ApplyRefusedExactly(env: Env, w: World, plan: RestPlan, original: OriginalPower)
    ensures
      var (w', r) := Apply(env, w, plan, original);
      && (r == Err(Refused) <==>
            || plan.status.Blocked?
            || (&& plan.status.Ready?
                && !(&& IsSoundPlan(plan, original)
                     && forall j :: 0 <= j < |plan.changes| ==>
                          ReadsCurrent(env, w.tick + j, w.files, plan.changes[j]))))
      && (r == Err(Refused) ==> w'.files == w.files && w'.history == w.history)
      && (plan.status.NoChanges? ==> (w', r) == (w, Ok([])))
  {
    SoundPlanIsValid(plan, original);
    if plan.status.Ready? && IsSoundPlan(plan, original) {
      LiveChecksExactly(env, w, plan.changes, original, 0, w.tick);
    }
    var tasks := TasksOf(plan.changes, original);
    ChecksKeepHistory(env, w, tasks, 0);
  }

  lemma {:induction false} ChecksKeepHistory(env: Env, w: World, tasks: seq<Task>, i: nat)
    requires i <= |tasks| && forall j :: 0 <= j < |tasks| ==> tasks[j].before.Some?
    ensures
      var w' := CheckLive(env, w, tasks, i).0;
      w'.files == w.files && w'.history == w.history
    decreases |tasks| - i
  {
    if i < |tasks| && Verify(env, w, tasks[i].file, tasks[i].before.value).1 {
      ChecksKeepHistory(env, Verify(env, w, tasks[i].file, tasks[i].before.value).0, tasks, i + 1);
    }
  }

  /**
   Without faults, a ready plan is applied exactly when it is sound and the host is as it found it;
   all changes are reported.
   */
  lemma AppliedExactly(env: Env, w: World, plan: RestPlan, original: OriginalPower)
    requires Faultless(env) && plan.status.Ready?
    ensures
      var r := Apply(env, w, plan, original).1;
      && (r.Ok? <==>
            && IsSoundPlan(plan, original)
            && forall i :: 0 <= i < |plan.changes| ==>
                 HasCurrent(w.files, plan.changes[i]) && HasPositiveTarget(plan.changes[i]))
      && (r.Ok? ==> r.value == plan.changes)
  {
    SoundPlanIsValid(plan, original);
    FaultlessApplySucceeds(env, w, plan, original);
    forall i | 0 <= i < |plan.changes|
      ensures Possible(w.files, plan.changes[i], original)
         <==> HasCurrent(w.files, plan.changes[i]) && HasPositiveTarget(plan.changes[i])
    {
    }
  }

  // ----- Restore: validation

  /** The hardware still has the governor, and its limits take in the saved ones. */
  predicate StillAllowed(original: OriginalPower, capabilities: Capabilities) {
    && capabilities.cpufreqAvailable
    && (exists i :: 0 <= i < |capabilities.governors| && capabilities.governors[i] == original.governor)
    && capabilities.hardwareMin.Some? && capabilities.hardwareMax.Some?
    && capabilities.hardwareMin.value <= original.scalingMin
    && original.scalingMin <= original.scalingMax
    && original.scalingMax <= capabilities.hardwareMax.value
  }

  /** The three settings can be read, in this order. */
  predicate LiveReads(env: Env, w: World) {
    && !Next(env, w.tick).readFails && !Next(env, w.tick + 1).readFails && !Next(env, w.tick + 2).readFails
    && Path("cpu0", Governor) in w.files && w.files[Path("cpu0", Governor)].Name?
    && Path("cpu0", ScalingMin) in w.files && w.files[Path("cpu0", ScalingMin)].Khz?
    && Path("cpu0", ScalingMax) in w.files && w.files[Path("cpu0", ScalingMax)].Khz?
  }

  /**
   On every host, a restore is refused without a write exactly when it is no longer allowed or the
   host cannot be read.
   */
  lemma RestoreRefusedExactly(env: Env, w: World, original: OriginalPower, capabilities: Capabilities)
    ensures
      var (w', error) := RestoreActive(env, w, original, capabilities);
      && (error == Some(Refused) <==> !StillAllowed(original, capabilities) || !LiveReads(env, w))
      && (error == Some(Refused) ==> w'.files == w.files && w'.history == w.history)
  {
    LiveIsWhatTheFilesHold(env, w);
    assert original.governor in capabilities.governors <==>
      exists i :: 0 <= i < |capabilities.governors| && capabilities.governors[i] == original.governor;
  }

  /** Without faults, a saved state with positive limits is restored exactly when it is still allowed. */
  lemma RestoredExactly(env: Env, w: World, original: OriginalPower, capabilities: Capabilities)
    requires Faultless(env) && LiveReads(env, w) && original.scalingMin > 0.0 && original.scalingMax > 0.0
    ensures RestoreActive(env, w, original, capabilities).1.None? <==> StillAllowed(original, capabilities)
  {
    FaultlessRestoreSucceeds(env, w, original, capabilities);
    RestoreRefusedExactly(env, w, original, capabilities);
  }

  /** What a successful restore leaves, in numbers. */
  lemma RestoredValues(env: Env, w: World, original: OriginalPower, capabilities: Capabilities)
    requires RestoreActive(env, w, original, capabilities).1.None?
    ensures
      var files := RestoreActive(env, w, original, capabilities).0.files;
      && Path("cpu0", Governor) in files && files[Path("cpu0", Governor)] == Name(original.governor)
      && Path("cpu0", ScalingMin) in files && files[Path("cpu0", ScalingMin)].Khz?
      && WithinHalf(files[Path("cpu0", ScalingMin)].amount as real / 1000.0, original.scalingMin)
      && Path("cpu0", ScalingMax) in files && files[Path("cpu0", ScalingMax)].Khz?
      && WithinHalf(files[Path("cpu0", ScalingMax)].amount as real / 1000.0, original.scalingMax)
  {
    RestoreReachesTheOriginal(env, w, original, capabilities);
    var files := RestoreActive(env, w, original, capabilities).0.files;
    assert Satisfies(files, Governor, OriginalGoal(original, Governor));
    assert Satisfies(files, ScalingMin, OriginalGoal(original, ScalingMin));
    assert Satisfies(files, ScalingMax, OriginalGoal(original, ScalingMax));
  }

  function Rank(file: File): nat {
    match file case ScalingMax => 0 case ScalingMin => 1 case _ => 2
  }

  /** A restore writes the settings that differ, the maximum first, then the minimum, then the governor. */
  lemma RestoreSequence(original: OriginalPower, live: Live)
    ensures
      var tasks := RestoreTasks(original, live);
      && (forall i, j :: 0 <= i < j < |tasks| ==> Rank(tasks[i].file) < Rank(tasks[j].file))
      && (forall i :: 0 <= i < |tasks| ==>
            tasks[i] in {Task(ScalingMax, None, Mhz(original.scalingMax), Mhz(live.maxMhz)),
                         Task(ScalingMin, None, Mhz(original.scalingMin), Mhz(live.minMhz)),
                         Task(Governor, None, Text(original.governor), Text(live.governor))})
      && ((exists i :: 0 <= i < |tasks| && tasks[i].file == ScalingMax) <==>
            !WithinHalf(live.maxMhz, original.scalingMax))
      && ((exists i :: 0 <= i < |tasks| && tasks[i].file == ScalingMin) <==>
            !WithinHalf(live.minMhz, original.scalingMin))
      && ((exists i :: 0 <= i < |tasks| && tasks[i].file == Governor) <==> live.governor != original.governor)
  {
    SettingsNotInTasksMatch(original, live);
  }

  // ----- Reports

  /**
   The write at `tick` is made and goes through, and the read after it gives the goal; `old` is
   what the file held.
   */
  predicate PutsThrough(env: Env, tick: nat, old': Value, goal: Goal) {
    && (goal.Mhz? ==> goal.mhz > 0.0)
    && !Next(env, tick + 1).readFails
    && match Next(env, tick).write
       case Takes => true
       case Keeps => Fulfils(old', goal)
       case Stores(other) => Fulfils(other, goal)
       case Raises(_) => false
  }

  function TicksOfPut(env: Env, tick: nat, goal: Goal): nat {
    if goal.Mhz? && goal.mhz <= 0.0 then 0 else if Next(env, tick).write.Raises? then 1 else 2
  }

  lemma PutReports(env: Env, w: World, file: File, goal: Goal)
    requires Cpu0(file) in w.files
    ensures
      var (w', ok) := Put(env, w, file, goal);
      && (ok <==> PutsThrough(env, w.tick, w.files[Cpu0(file)], goal))
      && w'.tick == w.tick + TicksOfPut(env, w.tick, goal)
  {
    WrittenMeetsItsGoal(goal);
  }

  ghost predicate FilesExist(files: Files, tasks: seq<Task>) {
    forall j :: 0 <= j < |tasks| ==> Cpu0(tasks[j].file) in files
  }

  /** When the rollback write of task `j` is made, as `k` tasks are undone from `tick` on. */
  function UndoTick(env: Env, tick: nat, tasks: seq<Task>, k: nat, j: nat): nat
    requires j < k <= |tasks|
    decreases k
  {
    if k == j + 1 then tick
    else UndoTick(env, tick + TicksOfPut(env, tick, tasks[k - 1].undo), tasks, k - 1, j)
  }

  predicate IsUndone(env: Env, tick: nat, files: Files, tasks: seq<Task>, k: nat, j: nat)
    requires j < k <= |tasks| && Cpu0(tasks[j].file) in files
  {
    PutsThrough(env, UndoTick(env, tick, tasks, k, j), files[Cpu0(tasks[j].file)], tasks[j].undo)
  }

  ghost predicate AllUndone(env: Env, tick: nat, files: Files, tasks: seq<Task>, k: nat)
    requires k <= |tasks| && FilesExist(files, tasks)
  {
    forall j :: 0 <= j < k ==> IsUndone(env, tick, files, tasks, k, j)
  }

  /** The rollback reports success exactly when every one of its writes goes through. */
  lemma {:induction false} UndoReports(env: Env, w: World, tasks: seq<Task>, k: nat)
    requires k <= |tasks| && Distinct(tasks) && FilesExist(w.files, tasks)
    ensures UndoAll(env, w, tasks, k).1 <==> AllUndone(env, w.tick, w.files, tasks, k)
    decreases k
  {
    if k > 0 {
      var n := k - 1;
      var task := tasks[n];
      PutReports(env, w, task.file, task.undo);
      PutEffect(env, w, task.file, task.undo);
      var (w1, ok) := Put(env, w, task.file, task.undo);
      UndoReports(env, w1, tasks, n);
      assert ok <==> IsUndone(env, w.tick, w.files, tasks, k, k - 1);
      if AllUndone(env, w.tick, w.files, tasks, k) {
        forall j | 0 <= j < n ensures IsUndone(env, w1.tick, w1.files, tasks, n, j) {
          assert IsUndone(env, w.tick, w.files, tasks, k, j);
        }
      }
      if AllUndone(env, w1.tick, w1.files, tasks, n) {
        forall j | 0 <= j < n ensures IsUndone(env, w.tick, w.files, tasks, k, j) {
          assert IsUndone(env, w1.tick, w1.files, tasks, n, j);
        }
      }
    }
  }

  /** The reads and writes of a task. */
  function TicksOf(task: Task): nat { if task.before.Some? then 3 else 2 }

  /** When task `j` is started, as all before it succeed from task `i` at `tick` on. */
  function TaskTick(tick: nat, tasks: seq<Task>, i: nat, j: nat): nat
    requires i <= j <= |tasks|
    decreases j - i
  {
    if i == j then tick else TaskTick(tick + TicksOf(tasks[i]), tasks, i + 1, j)
  }

  /** The task is found as expected, if that is checked, and its write goes through. */
  predicate Performs(env: Env, tick: nat, files: Files, task: Task)
    requires Cpu0(task.file) in files
  {
    var old' := files[Cpu0(task.file)];
    if task.before.None? then PutsThrough(env, tick, old', task.goal)
    else
      !Next(env, tick).readFails && Fulfils(old', task.before.value) && PutsThrough(env, tick + 1, old', task.goal)
  }

  lemma PerformReports(env: Env, w: World, task: Task)
    requires Cpu0(task.file) in w.files
    ensures
      var (w', ok) := Perform(env, w, task);
      && (ok <==> Performs(env, w.tick, w.files, task))
      && (ok ==> w'.tick == w.tick + TicksOf(task))
  {
    if task.before.None? {
      PutReports(env, w, task.file, task.goal);
    } else {
      FulfilsIsMeets(w.files[Cpu0(task.file)], task.before.value);
      PutReports(env, Verify(env, w, task.file, task.before.value).0, task.file, task.goal);
    }
  }

  /** The loop stops at the first task that does not succeed, if there is one. */
  lemma {:induction false} PerformAllReports(env: Env, w: World, files: Files, tasks: seq<Task>, i: nat)
    requires i <= |tasks| && Distinct(tasks) && FilesExist(files, tasks) && w.files.Keys == files.Keys
    requires forall j :: i <= j < |tasks| ==> w.files[Cpu0(tasks[j].file)] == files[Cpu0(tasks[j].file)]
    ensures
      var failed := PerformAll(env, w, tasks, i).1;
      var n := if failed.Some? then failed.value else |tasks|;
      && (forall j :: i <= j < n ==> Performs(env, TaskTick(w.tick, tasks, i, j), files, tasks[j]))
      && (failed.Some? ==> !Performs(env, TaskTick(w.tick, tasks, i, n), files, tasks[n]))
    decreases |tasks| - i
  {
    if i < |tasks| {
      PerformReports(env, w, tasks[i]);
      PerformEffect(env, w, tasks[i]);
      var (w1, ok) := Perform(env, w, tasks[i]);
      if ok { PerformAllReports(env, w1, files, tasks, i + 1); }
    }
  }

  /**
   What a run of writes with rollback reports: no error exactly when every task succeeds;
   otherwise it stops at the first that does not, and is reported as rolled back exactly when
   the rollback writes of that one and all before it go through.
   */
  lemma TransactReports(env: Env, w: World, tasks: seq<Task>)
    requires Distinct(tasks) && FilesExist(w.files, tasks)
    ensures
      var error := Transact(env, w, tasks).1;
      && (error.None? <==>
            forall j :: 0 <= j < |tasks| ==> Performs(env, TaskTick(w.tick, tasks, 0, j), w.files, tasks[j]))
      && (error.Some? ==>
            var (w1, failed) := PerformAll(env, w, tasks, 0);
            && failed.Some? && FilesExist(w1.files, tasks)
            && !Performs(env, TaskTick(w.tick, tasks, 0, failed.value), w.files, tasks[failed.value])
            && (forall j :: 0 <= j < failed.value ==> Performs(env, TaskTick(w.tick, tasks, 0, j), w.files, tasks[j]))
            && error == Some(if AllUndone(env, w1.tick, w1.files, tasks, failed.value + 1) then RolledBack
                             else RollbackFailed))
  {
    PerformAllReports(env, w, w.files, tasks, 0);
    PerformAllEffect(env, w, tasks, 0);
    var (w1, failed) := PerformAll(env, w, tasks, 0);
    if failed.Some? { UndoReports(env, w1, tasks, failed.value + 1); }
  }
}
