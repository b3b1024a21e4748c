/** What a restore achieves, and exactly when it reaches every CPU. */
module Recovery {
  import opened Wrappers
  import opened Host
  import opened Model
  import opened State
  import opened Plan
  import opened Decide
  import opened Driver
  import opened DriverProperties
  import opened Engine
  import opened Lifecycle
  import opened Runs

  /** The value that the record gives to a file. */
  function OriginalValue(o: OriginalState, file: File): Value
    requires Settable(file)
  {
    if file.Governor? then Name(o.governor) else Khz(o.scalingMax)
  }

  ghost predicate AllCpusOriginal(o: OriginalState, policies: seq<string>, files: Files) {
    forall file, cpu :: Settable(file) && cpu in policies ==> Holds(files, Path(cpu, file), OriginalValue(o, file))
  }

  predicate HasActionFor(actions: seq<Action>, file: File)
    requires Supported(actions)
  {
    exists i :: 0 <= i < |actions| && StepOf(actions[i]).file == file
  }

  /** The files that the plan leaves alone have the same value on every CPU as on cpu0. */
  ghost predicate RestAlike(actions: seq<Action>, policies: seq<string>, files: Files)
    requires Supported(actions)
  {
    forall file, cpu :: Settable(file) && !HasActionFor(actions, file) && cpu in policies ==>
      Cpu0(file) in files && Holds(files, Path(cpu, file), files[Cpu0(file)])
  }

  /**
   A restore retires the record only when cpu0 is back at the recorded governor and ceiling
   and every file it wrote is back on every CPU; every file of every CPU is back exactly
   when those the plan left alone were the same on all CPUs.
   */
  lemma RetiringMeansRestored(kind: DriverKind, env: Env, policies: seq<string>, s: Sys, snapshot: Snapshot, now: int)
    requires IsPolicyList(policies) && OneActive(s.rows) && Shows(snapshot, policies, s.w.files)
    ensures
      var original := Load(s.rows, snapshot.node);
      var plan := PlanRestore(snapshot, original);
      var x := Execute(kind, env, policies, s, plan, RestoreOp).1;
      var s' := Restore(kind, env, policies, s, snapshot, now).0;
      if Restored(kind, plan, x) then
        && Load(s'.rows, snapshot.node).None? && original.Some? && Supported(plan.actions)
        && (forall file :: Settable(file) ==> Holds(s'.w.files, Cpu0(file), OriginalValue(original.value, file)))
        && TargetsHold(plan.actions, policies, s'.w.files)
        && (AllCpusOriginal(original.value, policies, s'.w.files) <==> RestAlike(plan.actions, policies, s.w.files))
      else s'.rows == s.rows
  {
    var original := Load(s.rows, snapshot.node);
    var plan := PlanRestore(snapshot, original);
    var x := Execute(kind, env, policies, s, plan, RestoreOp).1;
    if Restored(kind, plan, x) {
      var o := original.value;
      RetiringFreesTheNode(s.rows, snapshot.node, now);
      MovesCoverTheDifferences(snapshot.cpu, o.governor, o.scalingMax);
      ApplyIsTransactional(env, policies, s.w, plan);
      var files := ApplyPlan(env, policies, s.w, plan).0.files;
      WrittenOrKept(o, plan.actions, snapshot, policies, s.w.files, files);
    }
  }

  lemma WrittenOrKept(o: OriginalState, actions: seq<Action>, snapshot: Snapshot, policies: seq<string>,
                      before: Files, files: Files)
    requires CPU0 in policies && snapshot.cpu.governor.Some? && snapshot.cpu.scalingMax.Some?
    requires Shows(snapshot, policies, before) && actions == Moves(snapshot.cpu, o.governor, o.scalingMax)
    requires Supported(actions) && TargetsHold(actions, policies, files)
             && OnlyPlanned(actions, policies, before, files)
    ensures forall file :: Settable(file) ==> Holds(files, Cpu0(file), OriginalValue(o, file))
    ensures AllCpusOriginal(o, policies, files) <==> RestAlike(actions, policies, before)
  {
    MovesCoverTheDifferences(snapshot.cpu, o.governor, o.scalingMax);
    forall file, cpu | Settable(file) && cpu in policies
      ensures HasActionFor(actions, file) ==> Holds(files, Path(cpu, file), OriginalValue(o, file))
      ensures !HasActionFor(actions, file) ==>
        && Holds(before, Cpu0(file), OriginalValue(o, file))
        && (Path(cpu, file) in before <==> Path(cpu, file) in files)
        && (Path(cpu, file) in before ==> files[Path(cpu, file)] == before[Path(cpu, file)])
    {
      if !HasActionFor(actions, file) {
        assert !Planned(actions, policies, Path(cpu, file));
      }
    }
  }

  // ----- Restoring after a crash

  /** Where cpu0 is not at its initial value, all CPUs agree with cpu0. */
  ghost predicate ChangedFilesAlike(initial: Files, policies: seq<string>, files: Files) {
    forall file, cpu :: Moved(initial, files, file) && cpu in policies
        ==> Holds(files, Path(cpu, file), files[Cpu0(file)])
  }

  /** cpu0's copy of the file is not at its initial value. */
  predicate Moved(initial: Files, files: Files, file: File) {
    Settable(file) && Cpu0(file) in files && !(Cpu0(file) in initial && initial[Cpu0(file)] == files[Cpu0(file)])
  }

  /** The snapshot holds every value that a restore asks for. */
  predicate Complete(snapshot: Snapshot) {
    snapshot.cpu.governor.Some? && snapshot.cpu.scalingMax.Some? && snapshot.cpu.hardwareMin.Some?
        && snapshot.cpu.hardwareMax.Some?
  }

  /**
   In every recoverable state a restore is blocked exactly when there is no record, or a value it
   asks for is unknown.
   */
  lemma RestoreIsBlockedExactly(initial: Files, policies: seq<string>, node: string, s: Sys, snapshot: Snapshot)
    requires Recoverable(initial, policies, node, s) && snapshot.node == node && Shows(snapshot, policies, s.w.files)
    ensures PlanRestore(snapshot, Load(s.rows, node)).Blocked() <==> Load(s.rows, node).None? || !Complete(snapshot)
  {
    if Load(s.rows, node).Some? {
      var o := Load(s.rows, node).value;
      forall file | file in {ScalingMin, HardwareMin, HardwareMax} && Cpu0(file) in initial
        ensures Holds(s.w.files, Cpu0(file), initial[Cpu0(file)])
      {
        assert !Settable(file);
      }
      RestorePlansExactly(snapshot, Some(o));
    }
  }

  /**
   In every recoverable state, a restore on a host without faults does not run without a
   record or a complete snapshot; otherwise it brings back the initial configuration on every
   CPU, or refuses for drift and writes nothing.  It succeeds exactly when the changed files
   are alike on all CPUs, so always on a single one.
   */
  lemma RestoreAfterACrash(initial: Files, policies: seq<string>, node: string, s: Sys, snapshot: Snapshot, env: Env,
                           now: int)
    requires IsPolicyList(policies) && Recoverable(initial, policies, node, s)
    requires snapshot.node == node && Shows(snapshot, policies, s.w.files) && Faultless(env)
    ensures
      var (s', x) := Restore(LinuxKind, env, policies, s, snapshot, now);
      if Load(s.rows, node).None? || !Complete(snapshot) then x.NotRun? && s'.w.files == s.w.files && s'.rows == s.rows
      else
        && x.Ran?
        && (x.result.error.None? <==> ChangedFilesAlike(initial, policies, s.w.files))
        && (x.result.error.None? ==> s'.w.files == initial && Load(s'.rows, node).None?)
        && (x.result.error.Some? ==> x.result.error.value.Drift? && s'.w.files == s.w.files && s'.rows == s.rows)
    ensures policies == [CPU0] ==> ChangedFilesAlike(initial, policies, s.w.files)
  {
    RestoreIsBlockedExactly(initial, policies, node, s, snapshot);
    RetiringFreesTheNode(s.rows, node, now);
    if !PlanRestore(snapshot, Load(s.rows, node)).Blocked() {
      FaultlessRestore(initial, policies, node, s, snapshot, env);
    }
  }

  lemma FaultlessRestore(initial: Files, policies: seq<string>, node: string, s: Sys, snapshot: Snapshot, env: Env)
    requires IsPolicyList(policies) && Recoverable(initial, policies, node, s)
    requires snapshot.node == node && Shows(snapshot, policies, s.w.files) && Faultless(env)
    requires !PlanRestore(snapshot, Load(s.rows, node)).Blocked()
    ensures
      var plan := PlanRestore(snapshot, Load(s.rows, node));
      var (w', r) := ApplyPlan(env, policies, s.w, plan);
      && r.Ok?
      && (r.value.error.None? <==> ChangedFilesAlike(initial, policies, s.w.files))
      && (r.value.error.None? ==> w'.files == initial && (r.value.applied || plan.actions == []))
      && (r.value.error.Some? ==> r.value.error.value.Drift? && w'.files == s.w.files)
  {
    var plan := PlanRestore(snapshot, Load(s.rows, node));
    RestorePlanRaises(initial, policies, node, s, snapshot);
    AlikeIsExpected(initial, policies, plan.actions, s.w.files);
    if plan.actions == [] {
      assert TargetsHold([], policies, s.w.files);
      RaisingRestoresEverything(initial, policies, [], s.w.files, s.w.files);
    } else {
      ApplyIsTransactional(env, policies, s.w, plan);
      FaultlessApplySucceeds(env, policies, s.w, plan);
      var (w', r) := ApplyPlan(env, policies, s.w, plan);
      if r.value.error.None? {
        RaisingRestoresEverything(initial, policies, plan.actions, s.w.files, w'.files);
      }
    }
  }

  /** The same after any run: the end of the story that starts with saving the original state. */
  lemma RestoreAfterAnyRun(initial: Files, policies: seq<string>, node: string, s: Sys, commands: seq<Command>,
                           snapshot: Snapshot, env: Env, now: int)
    requires IsPolicyList(policies) && Recoverable(initial, policies, node, s)
    requires AllowedRun(policies, node, s, commands)
    requires snapshot.node == node && Shows(snapshot, policies, Run(policies, s, commands).w.files)
             && Complete(snapshot)
    requires Faultless(env)
    ensures
      var end := Run(policies, s, commands);
      var s' := Do(policies, end, RestoreOriginal(LinuxKind, snapshot, now, env));
      if Load(end.rows, node).None? || ChangedFilesAlike(initial, policies, end.w.files)
      then s'.w.files == initial && Load(s'.rows, node).None?
      else s'.w.files == end.w.files && s'.rows == end.rows
    ensures policies == [CPU0] ==> ChangedFilesAlike(initial, policies, Run(policies, s, commands).w.files)
  {
    var end := Run(policies, s, commands);
    RunsStayRecoverable(initial, policies, node, s, commands);
    RestoreAfterACrash(initial, policies, node, At(end, end.w.files), snapshot, env, now);
  }

  lemma AlikeIsExpected(initial: Files, policies: seq<string>, actions: seq<Action>, files: Files)
    requires Supported(actions) && PutsBack(actions, initial, files) && CoversCpu0(actions, initial, files)
    ensures ExpectedHold(actions, policies, files) <==> ChangedFilesAlike(initial, policies, files)
  {
    if ExpectedHold(actions, policies, files) {
      forall file, cpu | Moved(initial, files, file) && cpu in policies
        ensures Holds(files, Path(cpu, file), files[Cpu0(file)])
      {
        var i :| 0 <= i < |actions| && StepOf(actions[i]).file == file;
      }
    }
  }

  // ----- Planning again

  /** After an apply that succeeded, any complete snapshot plans nothing more, whatever record is stored. */
  lemma ReplanningAfterApplyIsEmpty(env: Env, policies: seq<string>, s: Sys, snapshot: Snapshot, later: Snapshot,
                                    original: Option<OriginalState>)
    requires IsPolicyList(policies) && Shows(snapshot, policies, s.w.files)
    requires
      var plan := ApplyCommandPlan(s, snapshot, Economize, [], []);
      var (w', r) := ApplyPlan(env, policies, s.w, plan);
      && plan.actions != [] && r.Ok? && r.value.error.None?
      && Shows(later, policies, w'.files) && DesiredState(later, Economize).blockers == []
    ensures PlanChanges(later, DesiredState(later, Economize), original) == ChangePlan(later.node, [], [], [])
  {
    var desired := DesiredState(snapshot, Economize);
    var cpu := snapshot.cpu;
    var plan := ApplyCommandPlan(s, snapshot, Economize, [], []);
    ApplyIsTransactional(env, policies, s.w, plan);
    SettledOnCpu0(policies, snapshot, plan.actions, s.w.files, ApplyPlan(env, policies, s.w, plan).0.files);
    CeilingIsSettled(cpu.hardwareMin.value, cpu.hardwareMax.value, cpu.scalingMax.value);
  }

  lemma SettledOnCpu0(policies: seq<string>, snapshot: Snapshot, actions: seq<Action>, before: Files, files: Files)
    requires Shows(snapshot, policies, before) && CPU0 in policies && RestBlockers(snapshot) == []
    requires
      var desired := DesiredState(snapshot, Economize);
      actions == Moves(snapshot.cpu, desired.governor.value, desired.scalingMax.value)
    requires Supported(actions) && TargetsHold(actions, policies, files)
             && OnlyPlanned(actions, policies, before, files)
    ensures
      var desired := DesiredState(snapshot, Economize);
      && Holds(files, Cpu0(Governor), Name(desired.governor.value))
      && Holds(files, Cpu0(ScalingMax), Khz(desired.scalingMax.value))
      && Holds(files, Cpu0(HardwareMin), Khz(snapshot.cpu.hardwareMin.value))
      && Holds(files, Cpu0(HardwareMax), Khz(snapshot.cpu.hardwareMax.value))
  {
    var desired := DesiredState(snapshot, Economize);
    MovesCoverTheDifferences(snapshot.cpu, desired.governor.value, desired.scalingMax.value);
    forall file | !HasActionFor(actions, file) && Cpu0(file) in before
      ensures Holds(files, Cpu0(file), before[Cpu0(file)])
    {
      assert !Planned(actions, policies, Cpu0(file));
    }
  }

  // ----- A single CPU

  /** The actions of a command's plan: none, or the moves of cpu0 from what its snapshot shows. */
  ghost predicate PlansMoves(snapshot: Snapshot, plan: ChangePlan) {
    plan.actions == [] ||
    (&& snapshot.cpu.governor.Some? && snapshot.cpu.scalingMax.Some?
     && exists governor, ceiling :: plan.actions == Moves(snapshot.cpu, governor, ceiling))
  }

  lemma CommandsPlanMoves(s: Sys, snapshot: Snapshot, intent: Intent, reasons: seq<Blocker>, deferrals: seq<string>)
    ensures PlansMoves(snapshot, ApplyCommandPlan(s, snapshot, intent, reasons, deferrals))
    ensures PlansMoves(snapshot, PlanRestore(snapshot, Load(s.rows, snapshot.node)))
  {
    var plan := ApplyCommandPlan(s, snapshot, intent, reasons, deferrals);
    if plan.actions != [] {
      var desired := DesiredState(snapshot, intent);
      assert plan.actions == Moves(snapshot.cpu, desired.governor.value, desired.scalingMax.value);
    }
    var restore := PlanRestore(snapshot, Load(s.rows, snapshot.node));
    if restore.actions != [] {
      var o := Load(s.rows, snapshot.node).value;
      assert restore.actions == Moves(snapshot.cpu, o.governor, o.scalingMax);
    }
  }

  /** Such a plan is typed, has one action for a file, and expects what cpu0 holds. */
  lemma MovesExpectCpu0(policies: seq<string>, files: Files, snapshot: Snapshot, plan: ChangePlan)
    requires Shows(snapshot, policies, files) && PlansMoves(snapshot, plan)
    ensures Supported(plan.actions) && OneActionPerFile(plan.actions)
    ensures forall i :: 0 <= i < |plan.actions| ==>
      Holds(files, Cpu0(StepOf(plan.actions[i]).file), StepOf(plan.actions[i]).expected)
  {
    if plan.actions != [] {
      var governor, ceiling :| plan.actions == Moves(snapshot.cpu, governor, ceiling);
      MovesCoverTheDifferences(snapshot.cpu, governor, ceiling);
    }
  }

  /** With a single CPU the driver may be stopped anywhere, and end in any rollback. */
  lemma OneCpuMayAlwaysStop(env: Env, policies: seq<string>, w: World, plan: ChangePlan, at: nat)
    requires policies == [CPU0] && Applicable(plan, policies)
    ensures ApplyMayStop(env, policies, w, plan, at) && RestoreMayStop(env, policies, w, plan, at)
  {
    if Supported(plan.actions) {
      var cells := PlanCells(plan.actions, policies);
      CellsArePlanned(plan.actions, policies);
      forall i, j | 0 <= i < |cells| && 0 <= j < |cells| && cells[i].path == Cpu0(cells[j].path.file) ensures i == j {
        var a := ActionIndex(plan.actions, policies, j);
        assert cells[j].path.cpu == CPU0;
        assert cells[i].path == cells[j].path;
      }
    }
  }

  function EnvOf(c: Command): Env {
    if c.SaveOriginal? then [] else c.env
  }

  ghost predicate AllOrNothingRun(commands: seq<Command>) {
    forall i :: 0 <= i < |commands| ==> AllOrNothing(EnvOf(commands[i]))
  }

  lemma OneCpuAllows(policies: seq<string>, node: string, s: Sys, c: Command)
    requires policies == [CPU0] && IsPolicyList(policies) && Shown(policies, node, s, c) && AllOrNothing(EnvOf(c))
    ensures Allowed(policies, node, s, c)
  {
    var s0 := At(s, s.w.files);
    if c.ApplyIntent? || c.ApplyStopped? {
      var plan := ApplyCommandPlan(s0, c.snapshot, c.intent, c.reasons, c.deferrals);
      CommandsPlanMoves(s0, c.snapshot, c.intent, c.reasons, c.deferrals);
      MovesExpectCpu0(policies, s.w.files, c.snapshot, plan);
      var at := if c.ApplyStopped? then c.at else Writes(c.env, policies, s, plan);
      OneCpuMayAlwaysStop(c.env, policies, s0.w, plan, at);
    } else if c.RestoreOriginal? || c.RestoreStopped? {
      var plan := PlanRestore(c.snapshot, Load(s.rows, node));
      CommandsPlanMoves(s0, c.snapshot, Available, [], []);
      MovesExpectCpu0(policies, s.w.files, c.snapshot, plan);
      var at := if c.RestoreStopped? then c.at else Writes(c.env, policies, s, plan);
      OneCpuMayAlwaysStop(c.env, policies, s0.w, plan, at);
    }
  }

  lemma {:induction false} OneCpuAllowsEveryRun(policies: seq<string>, node: string, s: Sys, commands: seq<Command>)
    requires policies == [CPU0] && IsPolicyList(policies)
    requires ShownRun(policies, node, s, commands) && AllOrNothingRun(commands)
    ensures AllowedRun(policies, node, s, commands)
    decreases |commands|
  {
    if commands != [] {
      assert AllOrNothing(EnvOf(commands[0]));
      OneCpuAllows(policies, node, s, commands[0]);
      forall i | 0 <= i < |commands[1..]| ensures AllOrNothing(EnvOf(commands[1..][i])) {
        assert commands[1..][i] == commands[i + 1];
      }
      OneCpuAllowsEveryRun(policies, node, Do(policies, s, commands[0]), commands[1..]);
    }
  }

  /**
   On a single CPU whose writes are all or nothing, a restore without faults brings back the
   initial configuration after any run, wherever the commands were stopped.
   */
  lemma OneCpuIsAlwaysRestored(initial: Files, policies: seq<string>, node: string, s: Sys, commands: seq<Command>,
                               snapshot: Snapshot, env: Env, now: int)
    requires policies == [CPU0] && IsPolicyList(policies) && Recoverable(initial, policies, node, s)
    requires ShownRun(policies, node, s, commands) && AllOrNothingRun(commands)
    requires snapshot.node == node && Shows(snapshot, policies, Run(policies, s, commands).w.files)
    requires Complete(snapshot) && Faultless(env)
    ensures
      var end := Run(policies, s, commands);
      var s' := Do(policies, end, RestoreOriginal(LinuxKind, snapshot, now, env));
      s'.w.files == initial && Load(s'.rows, node).None?
  {
    OneCpuAllowsEveryRun(policies, node, s, commands);
    RestoreAfterAnyRun(initial, policies, node, s, commands, snapshot, env, now);
  }
}
