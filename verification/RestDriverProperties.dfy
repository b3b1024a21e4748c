/** What the archived driver guarantees, and why its order of writes is never rejected. */
module RestDriverProperties {
  import opened Wrappers
  import opened Host
  import opened RestDriver

  ghost predicate Distinct(tasks: seq<Task>) {
    forall i, j :: 0 <= i < j < |tasks| ==> tasks[i].file != tasks[j].file
  }

  ghost predicate Satisfies(files: Files, file: File, goal: Goal) {
    Cpu0(file) in files && Meets(files[Cpu0(file)], goal)
  }

  /** None but the files of tasks `lo..hi` changes. */
  ghost predicate OnlyTasks(before: Files, after: Files, tasks: seq<Task>, lo: nat, hi: nat)
    requires hi <= |tasks|
  {
    && before.Keys == after.Keys
    && forall p :: p in before && (forall i :: lo <= i < hi ==> Cpu0(tasks[i].file) != p) ==> after[p] == before[p]
  }

  lemma PutEffect(env: Env, w: World, file: File, goal: Goal)
    ensures
      var (w', ok) := Put(env, w, file, goal);
      && w'.files.Keys == w.files.Keys
      && (forall p :: p in w.files && p != Cpu0(file) ==> w'.files[p] == w.files[p])
      && (ok ==> Satisfies(w'.files, file, goal))
  {
  }

  lemma PerformEffect(env: Env, w: World, task: Task)
    ensures
      var (w', ok) := Perform(env, w, task);
      && w'.files.Keys == w.files.Keys
      && (forall p :: p in w.files && p != Cpu0(task.file) ==> w'.files[p] == w.files[p])
      && (ok ==> Satisfies(w'.files, task.file, task.goal))
  {
    var w1 := if task.before.None? then w else Verify(env, w, task.file, task.before.value).0;
    PutEffect(env, w1, task.file, task.goal);
  }

  lemma {:induction false} PerformAllEffect(env: Env, w: World, tasks: seq<Task>, i: nat)
    requires i <= |tasks| && Distinct(tasks)
    ensures
      var (w', failed) := PerformAll(env, w, tasks, i);
      && OnlyTasks(w.files, w'.files, tasks, i, if failed.Some? then failed.value + 1 else |tasks|)
      && (failed.None? ==> forall j :: i <= j < |tasks| ==> Satisfies(w'.files, tasks[j].file, tasks[j].goal))
    decreases |tasks| - i
  {
    if i < |tasks| {
      PerformEffect(env, w, tasks[i]);
      var (w1, ok) := Perform(env, w, tasks[i]);
      if ok { PerformAllEffect(env, w1, tasks, i + 1); }
    }
  }

  lemma {:induction false} UndoAllTouches(env: Env, w: World, tasks: seq<Task>, k: nat)
    requires k <= |tasks| && Distinct(tasks)
    ensures OnlyTasks(w.files, UndoAll(env, w, tasks, k).0.files, tasks, 0, k)
    decreases k
  {
    if k > 0 {
      PutEffect(env, w, tasks[k - 1].file, tasks[k - 1].undo);
      var w1 := Put(env, w, tasks[k - 1].file, tasks[k - 1].undo).0;
      UndoAllTouches(env, w1, tasks, k - 1);
      LastFileThenOthers(w.files, w1.files, UndoAll(env, w1, tasks, k - 1).0.files, tasks, k);
    }
  }

  lemma {:induction false} UndoAllRestores(env: Env, w: World, tasks: seq<Task>, k: nat)
    requires k <= |tasks| && Distinct(tasks) && UndoAll(env, w, tasks, k).1
    ensures forall j :: 0 <= j < k ==> Satisfies(UndoAll(env, w, tasks, k).0.files, tasks[j].file, tasks[j].undo)
    decreases k
  {
    if k > 0 {
      PutEffect(env, w, tasks[k - 1].file, tasks[k - 1].undo);
      var w1 := Put(env, w, tasks[k - 1].file, tasks[k - 1].undo).0;
      UndoAllRestores(env, w1, tasks, k - 1);
      UndoAllTouches(env, w1, tasks, k - 1);
      LastFileThenOthers(w.files, w1.files, UndoAll(env, w1, tasks, k - 1).0.files, tasks, k);
    }
  }

  /** One task's file changes, then only those of earlier tasks. */
  lemma LastFileThenOthers(before: Files, middle: Files, after: Files, tasks: seq<Task>, k: nat)
    requires 0 < k <= |tasks| && Distinct(tasks) && middle.Keys == before.Keys
    requires forall p :: p in before && p != Cpu0(tasks[k - 1].file) ==> middle[p] == before[p]
    requires OnlyTasks(middle, after, tasks, 0, k - 1)
    ensures OnlyTasks(before, after, tasks, 0, k)
    ensures var p := Cpu0(tasks[k - 1].file); p in middle ==> p in after && after[p] == middle[p]
  {
  }

  /**
   Whatever the host does, torn writes included: success means that every task's file meets
   its goal; `RolledBack` means that every file attempted, the failing one too, meets what
   the rollback restores; and no other file changes.
   */
  lemma TransactIsTransactional(env: Env, w: World, tasks: seq<Task>)
    requires Distinct(tasks)
    ensures
      var (w', error) := Transact(env, w, tasks);
      var failed := PerformAll(env, w, tasks, 0).1;
      && (error.None? <==> failed.None?)
      && (error.None? ==> forall j :: 0 <= j < |tasks| ==> Satisfies(w'.files, tasks[j].file, tasks[j].goal))
      && (error == Some(RolledBack) ==>
            forall j :: 0 <= j <= failed.value ==> Satisfies(w'.files, tasks[j].file, tasks[j].undo))
      && OnlyTasks(w.files, w'.files, tasks, 0, if failed.Some? then failed.value + 1 else |tasks|)
  {
    PerformAllEffect(env, w, tasks, 0);
    var (w1, failed) := PerformAll(env, w, tasks, 0);
    if failed.Some? {
      UndoAllTouches(env, w1, tasks, failed.value + 1);
      if UndoAll(env, w1, tasks, failed.value + 1).1 { UndoAllRestores(env, w1, tasks, failed.value + 1); }
    }
  }

  lemma {:induction false} ChecksWriteNothing(env: Env, w: World, tasks: seq<Task>, i: nat)
    requires i <= |tasks| && forall j :: 0 <= j < |tasks| ==> tasks[j].before.Some?
    ensures
      var (w', same) := CheckLive(env, w, tasks, i);
      && w'.files == w.files
      && (same ==> forall j :: i <= j < |tasks| ==> Satisfies(w.files, tasks[j].file, tasks[j].before.value))
    decreases |tasks| - i
  {
    if i < |tasks| && Verify(env, w, tasks[i].file, tasks[i].before.value).1 {
      ChecksWriteNothing(env, Verify(env, w, tasks[i].file, tasks[i].before.value).0, tasks, i + 1);
    }
  }

  predicate Restorable(file: File) { file.Governor? || file.ScalingMax? || file.ScalingMin? }

  /** The value that the saved original state gives to a file. */
  function OriginalGoal(original: OriginalPower, file: File): Goal
    requires Restorable(file)
  {
    match file
    case Governor => Text(original.governor)
    case ScalingMax => Mhz(original.scalingMax)
    case ScalingMin => Mhz(original.scalingMin)
  }

  /** The change at which a run of the loop fails, after the checks. */
  function FailedChange(env: Env, w: World, plan: RestPlan, original: OriginalPower): Option<nat> {
    var tasks := TasksOf(plan.changes, original);
    PerformAll(env, CheckLive(env, w, tasks, 0).0, tasks, 0).1
  }

  /**
   Apply: success means that every planned setting holds its target; an error reported as
   rolled back means that every setting attempted reads back as the saved original, even
   when the failing write itself took effect; a refusal writes nothing.
   */
  lemma ApplyIsTransactional(env: Env, w: World, plan: RestPlan, original: OriginalPower)
    ensures
      var (w', r) := Apply(env, w, plan, original);
      && w'.files.Keys == w.files.Keys
      && (r == Err(Refused) ==> w'.files == w.files)
      && (r.Ok? ==> forall i :: 0 <= i < |r.value| ==>
            Satisfies(w'.files, FileOf(r.value[i]), TaskOf(r.value[i], original).goal))
      && (r == Err(RolledBack) ==>
            var failed := FailedChange(env, w, plan, original);
            && failed.Some? && failed.value < |plan.changes|
            && forall i :: 0 <= i <= failed.value ==>
                 Satisfies(w'.files, FileOf(plan.changes[i]), OriginalGoal(original, FileOf(plan.changes[i]))))
      && (forall p :: p in w.files && (forall i :: 0 <= i < |plan.changes| ==> Cpu0(FileOf(plan.changes[i])) != p)
            ==> w'.files[p] == w.files[p])
  {
    if plan.status.Ready? && ValidPlan(plan, original)
        && (forall i :: 0 <= i < |plan.changes| ==> StartsFrom(plan.changes[i], original)) {
      var tasks := TasksOf(plan.changes, original);
      forall i | 0 <= i < |tasks| ensures tasks[i].file == FileOf(plan.changes[i]) {}
      ChecksWriteNothing(env, w, tasks, 0);
      var (w1, same) := CheckLive(env, w, tasks, 0);
      if same { TransactIsTransactional(env, w1, tasks); }
    }
  }

  /** The value that the live state gives to a file. */
  function LiveGoal(live: Live, file: File): Goal
    requires Restorable(file)
  {
    match file
    case Governor => Text(live.governor)
    case ScalingMax => Mhz(live.maxMhz)
    case ScalingMin => Mhz(live.minMhz)
  }

  /**
   Restore: success means that governor and both limits are the original ones, within the
   tolerance; an error reported as rolled back means that all three are the live ones that
   were read first, whatever the host does.
   */
  lemma RestoreReachesTheOriginal(env: Env, w: World, original: OriginalPower, capabilities: Capabilities)
    ensures
      var (w', error) := RestoreActive(env, w, original, capabilities);
      && w'.files.Keys == w.files.Keys
      && (error == Some(Refused) ==> w'.files == w.files)
      && (error.None? ==> forall file :: Restorable(file) ==>
            Satisfies(w'.files, file, OriginalGoal(original, file)))
      && (error == Some(RolledBack) ==>
            && ReadLive(env, w).1.Some?
            && forall file :: Restorable(file) ==> Satisfies(w'.files, file, LiveGoal(ReadLive(env, w).1.value, file)))
      && (forall p :: p in w.files && p !in {Cpu0(Governor), Cpu0(ScalingMax), Cpu0(ScalingMin)} ==>
            w'.files[p] == w.files[p])
  {
    if ValidTarget(original, capabilities) {
      var (w1, live) := ReadLive(env, w);
      LiveIsWhatTheFilesHold(env, w);
      if live.Some? {
        var tasks := RestoreTasks(original, live.value);
        SettingsNotInTasksMatch(original, live.value);
        TransactIsTransactional(env, w1, tasks);
        var (w', error) := Transact(env, w1, tasks);
        if error.None? { DoneOrAlreadyThere(original, live.value, w.files, w'.files); }
        if error == Some(RolledBack) {
          UndoneOrStillThere(original, live.value, w.files, w'.files, PerformAll(env, w1, tasks, 0).1.value + 1);
        }
      }
    }
  }

  lemma DoneOrAlreadyThere(original: OriginalPower, live: Live, before: Files, files: Files)
    requires Cpu0(Governor) in before && before[Cpu0(Governor)] == Name(live.governor)
    requires Cpu0(ScalingMin) in before && before[Cpu0(ScalingMin)].Khz?
             && live.minMhz == before[Cpu0(ScalingMin)].amount as real / 1000.0
    requires Cpu0(ScalingMax) in before && before[Cpu0(ScalingMax)].Khz?
             && live.maxMhz == before[Cpu0(ScalingMax)].amount as real / 1000.0
    requires OnlyTasks(before, files, RestoreTasks(original, live), 0, |RestoreTasks(original, live)|)
    requires
      var tasks := RestoreTasks(original, live);
      forall j :: 0 <= j < |tasks| ==> Satisfies(files, tasks[j].file, tasks[j].goal)
    ensures forall file :: Restorable(file) ==> Satisfies(files, file, OriginalGoal(original, file))
  {
    var tasks := RestoreTasks(original, live);
    SettingsNotInTasksMatch(original, live);
    forall file: File | Restorable(file) ensures Satisfies(files, file, OriginalGoal(original, file)) {
      if i :| 0 <= i < |tasks| && tasks[i].file == file {
        assert Satisfies(files, tasks[i].file, tasks[i].goal);
      } else {
        assert files[Cpu0(file)] == before[Cpu0(file)];
      }
    }
  }

  lemma UndoneOrStillThere(original: OriginalPower, live: Live, before: Files, files: Files, k: nat)
    requires Cpu0(Governor) in before && before[Cpu0(Governor)] == Name(live.governor)
    requires Cpu0(ScalingMin) in before && before[Cpu0(ScalingMin)].Khz?
             && live.minMhz == before[Cpu0(ScalingMin)].amount as real / 1000.0
    requires Cpu0(ScalingMax) in before && before[Cpu0(ScalingMax)].Khz?
             && live.maxMhz == before[Cpu0(ScalingMax)].amount as real / 1000.0
    requires k <= |RestoreTasks(original, live)| && OnlyTasks(before, files, RestoreTasks(original, live), 0, k)
    requires
      var tasks := RestoreTasks(original, live);
      forall j :: 0 <= j < k ==> Satisfies(files, tasks[j].file, tasks[j].undo)
    ensures forall file :: Restorable(file) ==> Satisfies(files, file, LiveGoal(live, file))
  {
    var tasks := RestoreTasks(original, live);
    forall file: File | Restorable(file) ensures Satisfies(files, file, LiveGoal(live, file)) {
      if i :| 0 <= i < k && tasks[i].file == file {
        assert Satisfies(files, tasks[i].file, tasks[i].undo);
      } else {
        assert files[Cpu0(file)] == before[Cpu0(file)];
      }
    }
  }

  lemma LiveIsWhatTheFilesHold(env: Env, w: World)
    ensures
      var (w', live) := ReadLive(env, w);
      && w'.files == w.files && w'.history == w.history
      && (live.Some? ==>
            && Cpu0(Governor) in w.files && w.files[Cpu0(Governor)] == Name(live.value.governor)
            && Cpu0(ScalingMin) in w.files && w.files[Cpu0(ScalingMin)].Khz?
            && live.value.minMhz == w.files[Cpu0(ScalingMin)].amount as real / 1000.0
            && Cpu0(ScalingMax) in w.files && w.files[Cpu0(ScalingMax)].Khz?
            && live.value.maxMhz == w.files[Cpu0(ScalingMax)].amount as real / 1000.0)
  {
  }

  lemma SettingsNotInTasksMatch(original: OriginalPower, live: Live)
    ensures
      var tasks := RestoreTasks(original, live);
      && Distinct(tasks)
      && (forall i :: 0 <= i < |tasks| ==>
            && tasks[i].before.None? && Restorable(tasks[i].file)
            && tasks[i].goal == OriginalGoal(original, tasks[i].file))
      && (!Close(live.maxMhz, original.scalingMax) <==> exists i :: 0 <= i < |tasks| && tasks[i].file == ScalingMax)
      && (!Close(live.minMhz, original.scalingMin) <==> exists i :: 0 <= i < |tasks| && tasks[i].file == ScalingMin)
      && (live.governor != original.governor <==> exists i :: 0 <= i < |tasks| && tasks[i].file == Governor)
  {
    var tasks := RestoreTasks(original, live);
    if !Close(live.maxMhz, original.scalingMax) { assert tasks[0].file == ScalingMax; }
    if !Close(live.minMhz, original.scalingMin) {
      assert tasks[if Close(live.maxMhz, original.scalingMax) then 0 else 1].file == ScalingMin;
    }
    if live.governor != original.governor { assert tasks[|tasks| - 1].file == Governor; }
  }

  // ----- A host without faults

  /** What is written is within tolerance of what was asked for. */
  lemma WrittenMeetsItsGoal(goal: Goal)
    ensures Meets(Encoded(goal), goal)
  {
    if goal.Mhz? {
      var khz, x := ToKhz(goal.mhz), goal.mhz * 1000.0 + 0.5;
      assert khz as real <= x < khz as real + 1.0;
      assert -0.5 < khz as real / 1000.0 - goal.mhz < 0.5;
    }
  }

  lemma FaultlessVerify(env: Env, w: World, file: File, goal: Goal)
    requires Faultless(env)
    ensures
      var (w', ok) := Verify(env, w, file, goal);
      w'.files == w.files && (ok <==> Satisfies(w.files, file, goal))
  {
    FaultlessIo(env, w.tick);
  }

  lemma FaultlessPut(env: Env, w: World, file: File, goal: Goal)
    requires Faultless(env) && Cpu0(file) in w.files
    ensures
      var (w', ok) := Put(env, w, file, goal);
      && (ok <==> Writable(goal))
      && (forall p :: p in w.files && p != Cpu0(file) ==> p in w'.files && w'.files[p] == w.files[p])
  {
    FaultlessIo(env, w.tick);
    FaultlessIo(env, w.tick + 1);
    WrittenMeetsItsGoal(goal);
  }

  /** The task can be carried out on these files. */
  ghost predicate Feasible(files: Files, task: Task) {
    && Cpu0(task.file) in files && Writable(task.goal)
    && (task.before.Some? ==> Meets(files[Cpu0(task.file)], task.before.value))
  }

  lemma FaultlessPerform(env: Env, w: World, task: Task)
    requires Faultless(env) && Cpu0(task.file) in w.files
    ensures
      var (w', ok) := Perform(env, w, task);
      && (ok <==> Feasible(w.files, task))
      && (forall p :: p in w.files && p != Cpu0(task.file) ==> p in w'.files && w'.files[p] == w.files[p])
  {
    if task.before.None? {
      FaultlessPut(env, w, task.file, task.goal);
    } else {
      FaultlessVerify(env, w, task.file, task.before.value);
      FaultlessPut(env, Verify(env, w, task.file, task.before.value).0, task.file, task.goal);
    }
  }

  lemma {:induction false} FaultlessPerformAll(env: Env, w: World, tasks: seq<Task>, i: nat)
    requires Faultless(env) && Distinct(tasks) && i <= |tasks|
    requires forall j :: i <= j < |tasks| ==> Cpu0(tasks[j].file) in w.files
    ensures PerformAll(env, w, tasks, i).1.None? <==> forall j :: i <= j < |tasks| ==> Feasible(w.files, tasks[j])
    decreases |tasks| - i
  {
    if i < |tasks| {
      FaultlessPerform(env, w, tasks[i]);
      var (w1, ok) := Perform(env, w, tasks[i]);
      if ok {
        FaultlessPerformAll(env, w1, tasks, i + 1);
        assert forall j :: i < j < |tasks| ==> (Feasible(w1.files, tasks[j]) <==> Feasible(w.files, tasks[j]));
      }
    }
  }

  lemma {:induction false} FaultlessChecks(env: Env, w: World, tasks: seq<Task>, i: nat)
    requires Faultless(env) && i <= |tasks| && forall j :: 0 <= j < |tasks| ==> tasks[j].before.Some?
    ensures
      var (w', same) := CheckLive(env, w, tasks, i);
      w'.files == w.files
          && (same <==> forall j :: i <= j < |tasks| ==> Satisfies(w.files, tasks[j].file, tasks[j].before.value))
    decreases |tasks| - i
  {
    if i < |tasks| {
      FaultlessVerify(env, w, tasks[i].file, tasks[i].before.value);
      var (w1, same) := Verify(env, w, tasks[i].file, tasks[i].before.value);
      if same { FaultlessChecks(env, w1, tasks, i + 1); }
    }
  }

  /** The host is where the change expects it, and its target can be written. */
  ghost predicate Possible(files: Files, change: Change, original: OriginalPower) {
    var task := TaskOf(change, original);
    Satisfies(files, task.file, task.before.value) && Writable(task.goal)
  }

  /** Without faults, a ready plan is applied exactly when it is valid, starts from the saved state, and is possible. */
  lemma FaultlessApplySucceeds(env: Env, w: World, plan: RestPlan, original: OriginalPower)
    requires Faultless(env) && plan.status.Ready?
    ensures
      Apply(env, w, plan, original).1.Ok? <==>
        && ValidPlan(plan, original)
        && (forall i :: 0 <= i < |plan.changes| ==> StartsFrom(plan.changes[i], original))
        && (forall i :: 0 <= i < |plan.changes| ==> Possible(w.files, plan.changes[i], original))
  {
    if ValidPlan(plan, original) {
      var tasks := TasksOf(plan.changes, original);
      FaultlessChecks(env, w, tasks, 0);
      var (w1, same) := CheckLive(env, w, tasks, 0);
      if same {
        assert forall j :: 0 <= j < |tasks| ==> tasks[j].file == FileOf(plan.changes[j]);
        assert Distinct(tasks);
        FaultlessPerformAll(env, w1, tasks, 0);
        assert forall j :: 0 <= j < |tasks| ==>
          (Feasible(w1.files, tasks[j]) <==> Possible(w.files, plan.changes[j], original));
      } else {
        var j :| 0 <= j < |tasks| && !Satisfies(w.files, tasks[j].file, tasks[j].before.value);
        assert !Possible(w.files, plan.changes[j], original);
      }
    }
  }

  /** The three settings are there and readable. */
  ghost predicate Readable(files: Files) {
    && Cpu0(Governor) in files && files[Cpu0(Governor)].Name?
    && Cpu0(ScalingMin) in files && files[Cpu0(ScalingMin)].Khz?
    && Cpu0(ScalingMax) in files && files[Cpu0(ScalingMax)].Khz?
  }

  lemma ReadableIsRead(env: Env, w: World)
    requires Faultless(env) && Readable(w.files)
    ensures ReadLive(env, w).1.Some?
  {
    FaultlessIo(env, w.tick);
    FaultlessIo(env, w.tick + 1);
    FaultlessIo(env, w.tick + 2);
  }

  lemma RestoreIsFeasible(files: Files, original: OriginalPower, live: Live)
    requires Readable(files) && original.scalingMin > 0.0 && original.scalingMax > 0.0
    ensures Distinct(RestoreTasks(original, live))
    ensures forall j :: 0 <= j < |RestoreTasks(original, live)| ==> Feasible(files, RestoreTasks(original, live)[j])
  {
    SettingsNotInTasksMatch(original, live);
  }

  /** Without faults, a saved state with positive limits is restored exactly when the hardware still allows it. */
  lemma FaultlessRestoreSucceeds(env: Env, w: World, original: OriginalPower, capabilities: Capabilities)
    requires Faultless(env) && Readable(w.files) && original.scalingMin > 0.0 && original.scalingMax > 0.0
    ensures RestoreActive(env, w, original, capabilities).1.None? <==> ValidTarget(original, capabilities)
  {
    ReadableIsRead(env, w);
    LiveIsWhatTheFilesHold(env, w);
    var (w1, live) := ReadLive(env, w);
    RestoreIsFeasible(w.files, original, live.value);
    FaultlessPerformAll(env, w1, RestoreTasks(original, live.value), 0);
  }
}
