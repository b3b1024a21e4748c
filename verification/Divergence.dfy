/**
 A file on which cpu0 and another CPU differ, as a crash inside the file leaves it: no command
 ever writes it again, and the record that would put it back stays active for good.
 */
module Divergence {
  import opened Wrappers
  import opened Host
  import opened Model
  import opened State
  import opened Plan
  import opened Driver
  import opened DriverProperties
  import opened StoppedDriver
  import opened Engine
  import opened Lifecycle
  import opened Runs
  import opened Recovery

  /** The CPU's copy of the file is not what cpu0's is. */
  ghost predicate Differs(files: Files, policies: seq<string>, file: File, cpu: string) {
    && CPU0 in policies && cpu in policies && Cpu0(file) in files && Path(cpu, file) in files
    && files[Path(cpu, file)] != files[Cpu0(file)]
  }

  /** Every copy of the file holds what it held. */
  ghost predicate SameCopies(before: Files, after: Files, file: File) {
    forall cpu :: Path(cpu, file) in before ==> Holds(after, Path(cpu, file), before[Path(cpu, file)])
  }

  /**
   Whatever the host does, a plan made from cpu0 does not write such a file at any point: the
   drift check refuses it, if it plans the file at all.
   */
  lemma DifferentFileIsNotWritten(env: Env, policies: seq<string>, w: World, snapshot: Snapshot, plan: ChangePlan,
                                  file: File, cpu: string, other: string)
    requires IsPolicyList(policies) && Shows(snapshot, policies, w.files) && PlansMoves(snapshot, plan)
    requires Differs(w.files, policies, file, cpu) && Path(other, file) in w.files && w.history == [w.files]
    ensures Kept(ApplyPlan(env, policies, w, plan).0, 0, Path(other, file), w.files[Path(other, file)])
  {
    MovesExpectCpu0(policies, w.files, snapshot, plan);
    if i :| 0 <= i < |plan.actions| && StepOf(plan.actions[i]).file == file {
      if !plan.Blocked() {
        var cells := PlanCells(plan.actions, policies);
        DriftCheckEffect(env, w, cells, 0);
        var j := CellIndex(plan.actions, policies, i, cpu);
        assert CheckDrift(env, w, cells, 0).1.Some?;
      }
    } else {
      OtherFilesAreNeverWritten(env, policies, w, plan, 0, Path(other, file));
    }
  }

  /** Neither the end of the driver nor a crash of it changes the file. */
  lemma DifferentFileIsKept(env: Env, policies: seq<string>, w: World, snapshot: Snapshot, plan: ChangePlan,
                            file: File, cpu: string, at: nat)
    requires IsPolicyList(policies) && Shows(snapshot, policies, w.files) && PlansMoves(snapshot, plan)
    requires Differs(w.files, policies, file, cpu) && w.history == [w.files]
    ensures SameCopies(w.files, ApplyPlan(env, policies, w, plan).0.files, file)
    ensures SameCopies(w.files, StoppedFiles(env, policies, w, plan, at), file)
  {
    forall other | Path(other, file) in w.files
      ensures Holds(ApplyPlan(env, policies, w, plan).0.files, Path(other, file), w.files[Path(other, file)])
      ensures Holds(StoppedFiles(env, policies, w, plan, at), Path(other, file), w.files[Path(other, file)])
    {
      DifferentFileIsNotWritten(env, policies, w, snapshot, plan, file, cpu, other);
    }
  }

  /** No command changes the file, finished or stopped, on any host. */
  lemma CommandKeepsTheFile(policies: seq<string>, node: string, s: Sys, c: Command, file: File, cpu: string)
    requires IsPolicyList(policies) && Shown(policies, node, s, c) && Differs(s.w.files, policies, file, cpu)
    ensures SameCopies(s.w.files, Do(policies, s, c).w.files, file)
  {
    var s0 := At(s, s.w.files);
    if c.ApplyIntent? || c.ApplyStopped? {
      var plan := ApplyCommandPlan(s0, c.snapshot, c.intent, c.reasons, c.deferrals);
      CommandsPlanMoves(s0, c.snapshot, c.intent, c.reasons, c.deferrals);
      DifferentFileIsKept(c.env, policies, s0.w, c.snapshot, plan, file, cpu, if c.ApplyStopped? then c.at else 0);
      if c.ApplyIntent? { ExecuteMovesTheFiles(c.kind, c.env, policies, s0, plan, ApplyOp); }
    } else if c.RestoreOriginal? || c.RestoreStopped? {
      var plan := PlanRestore(c.snapshot, Load(s.rows, node));
      CommandsPlanMoves(s0, c.snapshot, Available, [], []);
      DifferentFileIsKept(c.env, policies, s0.w, c.snapshot, plan, file, cpu, if c.RestoreStopped? then c.at else 0);
      if c.RestoreOriginal? { RestoreMovesTheFiles(c.kind, c.env, policies, s0, c.snapshot, c.now); }
    }
  }

  lemma StillDiffers(before: Files, after: Files, policies: seq<string>, file: File, cpu: string)
    requires Differs(before, policies, file, cpu) && SameCopies(before, after, file)
    ensures Differs(after, policies, file, cpu)
  {
    assert Holds(after, Cpu0(file), before[Cpu0(file)]) && Holds(after, Path(cpu, file), before[Path(cpu, file)]);
  }

  /** Over every run, with any faults and crashes, no copy of such a file changes. */
  lemma {:induction false} DifferenceIsForever(policies: seq<string>, node: string, s: Sys, commands: seq<Command>,
                                               file: File, cpu: string)
    requires IsPolicyList(policies) && ShownRun(policies, node, s, commands) && Differs(s.w.files, policies, file, cpu)
    ensures SameCopies(s.w.files, Run(policies, s, commands).w.files, file)
    ensures Differs(Run(policies, s, commands).w.files, policies, file, cpu)
    decreases |commands|
  {
    if commands != [] {
      var next := Do(policies, s, commands[0]);
      CommandKeepsTheFile(policies, node, s, commands[0], file, cpu);
      StillDiffers(s.w.files, next.w.files, policies, file, cpu);
      DifferenceIsForever(policies, node, next, commands[1..], file, cpu);
      CopiesStaySame(s.w.files, next.w.files, Run(policies, s, commands).w.files, file);
    }
  }

  lemma CopiesStaySame(a: Files, b: Files, c: Files, file: File)
    requires SameCopies(a, b, file) && SameCopies(b, c, file)
    ensures SameCopies(a, c, file)
  {
    forall cpu | Path(cpu, file) in a ensures Holds(c, Path(cpu, file), a[Path(cpu, file)]) {
      assert Holds(b, Path(cpu, file), a[Path(cpu, file)]);
    }
  }

  /** The node's record is active, and gives the file another value than cpu0 and some other CPU hold. */
  ghost predicate Lost(policies: seq<string>, node: string, s: Sys, o: OriginalState, file: File, cpu: string) {
    && OneActive(s.rows) && Load(s.rows, node) == Some(o)
    && Settable(file) && Differs(s.w.files, policies, file, cpu)
    && s.w.files[Cpu0(file)] != OriginalValue(o, file)
  }

  /** No command retires the record. */
  lemma CommandKeepsTheRecord(policies: seq<string>, node: string, s: Sys, c: Command, o: OriginalState, file: File,
                              cpu: string)
    requires IsPolicyList(policies) && Shown(policies, node, s, c) && Lost(policies, node, s, o, file, cpu)
    ensures Lost(policies, node, Do(policies, s, c), o, file, cpu)
  {
    var s0 := At(s, s.w.files);
    CommandKeepsTheFile(policies, node, s, c, file, cpu);
    StillDiffers(s.w.files, Do(policies, s, c).w.files, policies, file, cpu);
    assert Holds(Do(policies, s, c).w.files, Cpu0(file), s.w.files[Cpu0(file)]);
    if c.RestoreOriginal? {
      RetiringMeansRestored(c.kind, c.env, policies, s0, c.snapshot, c.now);
      assert Do(policies, s, c) == Restore(c.kind, c.env, policies, s0, c.snapshot, c.now).0;
    }
  }

  /**
   Where cpu0 is neither at its recorded value nor alike on all CPUs, recovery has become
   impossible: over every run, with any faults and crashes or none, the file stays as it is on
   all CPUs and the record stays active.
   */
  lemma {:induction false} RecoveryIsLostForGood(policies: seq<string>, node: string, s: Sys, commands: seq<Command>,
                                                 o: OriginalState, file: File, cpu: string)
    requires IsPolicyList(policies) && ShownRun(policies, node, s, commands)
    requires Lost(policies, node, s, o, file, cpu)
    ensures
      var end := Run(policies, s, commands);
      Lost(policies, node, end, o, file, cpu) && SameCopies(s.w.files, end.w.files, file)
    decreases |commands|
  {
    DifferenceIsForever(policies, node, s, commands, file, cpu);
    if commands != [] {
      CommandKeepsTheRecord(policies, node, s, commands[0], o, file, cpu);
      RecoveryIsLostForGood(policies, node, Do(policies, s, commands[0]), commands[1..], o, file, cpu);
    }
  }

  /** In a recoverable state with a record, a restore can still succeed exactly when no file is lost. */
  lemma LostExactly(initial: Files, policies: seq<string>, node: string, s: Sys, o: OriginalState)
    requires Recoverable(initial, policies, node, s) && Load(s.rows, node) == Some(o)
    ensures (exists file, cpu :: Lost(policies, node, s, o, file, cpu))
             <==> !ChangedFilesAlike(initial, policies, s.w.files)
  {
    forall file | Settable(file) ensures Cpu0(file) in initial && initial[Cpu0(file)] == OriginalValue(o, file) {}
    if !ChangedFilesAlike(initial, policies, s.w.files) {
      var file, cpu :|
        Moved(initial, s.w.files, file) && cpu in policies && !Holds(s.w.files, Path(cpu, file), s.w.files[Cpu0(file)]);
      assert Lowered(initial, s.w.files, policies, file);
      assert Lost(policies, node, s, o, file, cpu);
    }
    if file, cpu :| Lost(policies, node, s, o, file, cpu) {
      assert Moved(initial, s.w.files, file);
    }
  }
}
