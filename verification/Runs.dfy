/**
 Whole runs: any sequence of save-original, apply, dry-run and restore, with crashes in
 the middle of the driver.
 */
module Runs {
  import opened Wrappers
  import opened Host
  import opened Model
  import opened State
  import opened Plan
  import opened Driver
  import opened DriverProperties
  import opened StoppedDriver
  import opened Engine
  import opened Lifecycle

  // ----- Runs

  /** A step of a run: a whole command, or one stopped after the `at`-th write of its driver. */
  datatype Command =
    | SaveOriginal(snapshot: Snapshot)
    | ApplyIntent(kind: DriverKind, snapshot: Snapshot, intent: Intent, reasons: seq<Blocker>, deferrals: seq<string>,
                  env: Env)
    | RestoreOriginal(kind: DriverKind, snapshot: Snapshot, now: int, env: Env)
    | ApplyStopped(snapshot: Snapshot, intent: Intent, reasons: seq<Blocker>, deferrals: seq<string>, env: Env, at: nat)
    | RestoreStopped(snapshot: Snapshot, env: Env, at: nat)

  function At(s: Sys, files: Files): Sys {
    s.(w := World(files, 0, [files]))
  }

  /** A crash leaves the announcement, the recovery table and the files as they were after that write. */
  function Stopped(policies: seq<string>, s: Sys, plan: ChangePlan, op: Operation, env: Env, at: nat): Sys {
    if plan.Blocked() then Execute(LinuxKind, env, policies, s, plan, op).0
    else At(s.(log := s.log + [Started(op, plan.actions)]), StoppedFiles(env, policies, s.w, plan, at))
  }

  function Do(policies: seq<string>, state: Sys, c: Command): Sys {
    var s := At(state, state.w.files);
    match c
    case SaveOriginal(snapshot) =>
      (match OriginalFrom(snapshot)
       case Err(_) => s
       case Ok(o) => match Inserted(s.rows, o) case Err(_) => s case Ok(rows) => s.(rows := rows))
    case ApplyIntent(kind, snapshot, intent, reasons, deferrals, env) =>
      Execute(kind, env, policies, s, ApplyCommandPlan(s, snapshot, intent, reasons, deferrals), ApplyOp).0
    case RestoreOriginal(kind, snapshot, now, env) => Restore(kind, env, policies, s, snapshot, now).0
    case ApplyStopped(snapshot, intent, reasons, deferrals, env, at) =>
      Stopped(policies, s, ApplyCommandPlan(s, snapshot, intent, reasons, deferrals), ApplyOp, env, at)
    case RestoreStopped(snapshot, env, at) =>
      Stopped(policies, s, PlanRestore(snapshot, Load(s.rows, snapshot.node)), RestoreOp, env, at)
  }

  /** The driver did not end in an incomplete rollback. */
  predicate Clean(env: Env, policies: seq<string>, s: Sys, plan: ChangePlan) {
    var r := ApplyPlan(env, policies, At(s, s.w.files).w, plan).1;
    r.Ok? && r.value.applied ==> r.value.error.None?
  }

  function Writes(env: Env, policies: seq<string>, s: Sys, plan: ChangePlan): nat {
    |ApplyPlan(env, policies, At(s, s.w.files).w, plan).0.history|
  }

  /** Raising writes change nothing and the rollback is complete, or the driver may as well have been stopped there. */
  ghost predicate ApplyMayEnd(env: Env, policies: seq<string>, s: Sys, plan: ChangePlan) {
    || (CleanRaises(env) && Clean(env, policies, s, plan))
    || (AllOrNothing(env) && ApplyMayStop(env, policies, At(s, s.w.files).w, plan, Writes(env, policies, s, plan)))
  }

  ghost predicate RestoreMayEnd(env: Env, policies: seq<string>, s: Sys, plan: ChangePlan) {
    || (CleanRaises(env) && Clean(env, policies, s, plan))
    || (AllOrNothing(env) && RestoreMayStop(env, policies, At(s, s.w.files).w, plan, Writes(env, policies, s, plan)))
  }

  /** The command is for the node, and its snapshot shows what cpu0's files hold. */
  ghost predicate Shown(policies: seq<string>, node: string, s: Sys, c: Command) {
    c.snapshot.node == node && Shows(c.snapshot, policies, s.w.files)
  }

  /**
   The assumptions on a step: no outside writer, and a driver that ends, or is stopped, where
   cpu0 still tells the planner what to put back.
   */
  ghost predicate Allowed(policies: seq<string>, node: string, s: Sys, c: Command) {
    && Shown(policies, node, s, c)
    && match c
       case SaveOriginal(_) => true
       case ApplyIntent(kind, snapshot, intent, reasons, deferrals, env) =>
         kind.DryRunKind? || ApplyMayEnd(env, policies, s, ApplyCommandPlan(s, snapshot, intent, reasons, deferrals))
       case RestoreOriginal(kind, snapshot, _, env) =>
         kind.DryRunKind? || RestoreMayEnd(env, policies, s, PlanRestore(snapshot, Load(s.rows, node)))
       case ApplyStopped(snapshot, intent, reasons, deferrals, env, at) =>
         && AllOrNothing(env)
         && ApplyMayStop(env, policies, At(s, s.w.files).w, ApplyCommandPlan(s, snapshot, intent, reasons, deferrals),
                         at)
       case RestoreStopped(snapshot, env, at) =>
         && AllOrNothing(env)
         && RestoreMayStop(env, policies, At(s, s.w.files).w, PlanRestore(snapshot, Load(s.rows, node)), at)
  }

  /** The same without a crash, and with complete rollbacks. */
  ghost predicate Undisturbed(policies: seq<string>, node: string, s: Sys, c: Command) {
    && Shown(policies, node, s, c)
    && match c
       case SaveOriginal(_) => true
       case ApplyIntent(_, snapshot, intent, reasons, deferrals, env) =>
         CleanRaises(env) && Clean(env, policies, s, ApplyCommandPlan(s, snapshot, intent, reasons, deferrals))
       case RestoreOriginal(_, snapshot, _, env) =>
         CleanRaises(env) && Clean(env, policies, s, PlanRestore(snapshot, Load(s.rows, node)))
       case ApplyStopped(_, _, _, _, _, _) => false
       case RestoreStopped(_, _, _) => false
  }

  function Run(policies: seq<string>, s: Sys, commands: seq<Command>): Sys
    decreases |commands|
  {
    if commands == [] then s else Run(policies, Do(policies, s, commands[0]), commands[1..])
  }

  /** The only assumption: no outside writer. */
  ghost predicate ShownRun(policies: seq<string>, node: string, s: Sys, commands: seq<Command>)
    decreases |commands|
  {
    commands == [] ||
    (Shown(policies, node, s, commands[0]) && ShownRun(policies, node, Do(policies, s, commands[0]), commands[1..]))
  }

  ghost predicate AllowedRun(policies: seq<string>, node: string, s: Sys, commands: seq<Command>)
    decreases |commands|
  {
    commands == [] ||
    (Allowed(policies, node, s, commands[0]) && AllowedRun(policies, node, Do(policies, s, commands[0]), commands[1..]))
  }

  ghost predicate UndisturbedRun(policies: seq<string>, node: string, s: Sys, commands: seq<Command>)
    decreases |commands|
  {
    commands == [] ||
    (Undisturbed(policies, node, s, commands[0])
     && UndisturbedRun(policies, node, Do(policies, s, commands[0]), commands[1..]))
  }

  // ----- Saving

  lemma SavingKeeps(initial: Files, policies: seq<string>, node: string, s: Sys, c: Command)
    requires Recoverable(initial, policies, node, s) && c.SaveOriginal?
    requires c.snapshot.node == node && Shows(c.snapshot, policies, s.w.files)
    ensures Recoverable(initial, policies, node, Do(policies, s, c))
    ensures InitialOrRest(initial, policies, node, s) ==> InitialOrRest(initial, policies, node, Do(policies, s, c))
  {
    if OriginalFrom(c.snapshot).Ok? {
      var o := OriginalFrom(c.snapshot).value;
      InsertedRecordIsActive(s.rows, o);
      if Load(s.rows, node).None? {
        assert Records(o, initial, policies, node);
        forall file | Settable(file) ensures Unchanged(initial, s.w.files, policies, file) {
        }
      }
    }
  }

  // ----- Apply

  /** A whole apply leaves the host alone, or near the initial configuration and, from there, at REST. */
  lemma ApplyOutcome(initial: Files, policies: seq<string>, node: string, s: Sys, env: Env, snapshot: Snapshot,
                     intent: Intent,
                     reasons: seq<Blocker>, deferrals: seq<string>)
    requires IsPolicyList(policies) && Recoverable(initial, policies, node, s)
    requires snapshot.node == node && Shows(snapshot, policies, s.w.files) && CleanRaises(env)
    requires
      var plan := ApplyCommandPlan(s, snapshot, intent, reasons, deferrals);
      var r := ApplyPlan(env, policies, s.w, plan).1;
      r.Ok? && r.value.applied ==> r.value.error.None?
    ensures
      var plan := ApplyCommandPlan(s, snapshot, intent, reasons, deferrals);
      var files := ApplyPlan(env, policies, s.w, plan).0.files;
      files == s.w.files ||
      (&& Load(s.rows, node).Some? && Near(initial, files, policies)
       && (s.w.files == initial ==> AtRest(initial, files, policies)) && !AtRest(initial, s.w.files, policies))
  {
    var plan := ApplyCommandPlan(s, snapshot, intent, reasons, deferrals);
    ApplyPlanLowers(initial, policies, node, s, snapshot, intent, reasons, deferrals);
    if !plan.Blocked() && plan.actions != [] {
      ApplyIsTransactional(env, policies, s.w, plan);
      CleanRaisesLeaveNothingTorn(env, policies, s.w, plan.actions);
      var (w', r) := ApplyPlan(env, policies, s.w, plan);
      if r.value.error.None? {
        LoweringSucceeds(initial, policies, plan.actions, s.w.files, w'.files);
      }
    }
  }

  lemma ApplyingCleanly(initial: Files, policies: seq<string>, node: string, s: Sys, c: Command)
    requires IsPolicyList(policies)
    requires Recoverable(initial, policies, node, s) && c.ApplyIntent? && Undisturbed(policies, node, s, c)
    ensures Recoverable(initial, policies, node, Do(policies, s, c))
    ensures InitialOrRest(initial, policies, node, s) ==> InitialOrRest(initial, policies, node, Do(policies, s, c))
  {
    var s0 := At(s, s.w.files);
    var plan := ApplyCommandPlan(s0, c.snapshot, c.intent, c.reasons, c.deferrals);
    ApplyOutcome(initial, policies, node, s0, c.env, c.snapshot, c.intent, c.reasons, c.deferrals);
    ExecuteMovesTheFiles(c.kind, c.env, policies, s0, plan, ApplyOp);
    MovedFilesKeep(initial, policies, node, s, Do(policies, s, c));
  }

  lemma ApplyingKeeps(initial: Files, policies: seq<string>, node: string, s: Sys, c: Command)
    requires IsPolicyList(policies)
    requires Recoverable(initial, policies, node, s) && c.ApplyIntent? && Allowed(policies, node, s, c)
    ensures Recoverable(initial, policies, node, Do(policies, s, c))
  {
    var s0 := At(s, s.w.files);
    var plan := ApplyCommandPlan(s0, c.snapshot, c.intent, c.reasons, c.deferrals);
    if c.kind.LinuxKind? {
      if Undisturbed(policies, node, s, c) {
        ApplyingCleanly(initial, policies, node, s, c);
      } else {
        ExecuteMovesTheFiles(c.kind, c.env, policies, s0, plan, ApplyOp);
        if !plan.Blocked() {
          StoppedApplyIsNear(initial, policies, node, s0, c.env, c.snapshot, c.intent, c.reasons, c.deferrals,
                             Writes(c.env, policies, s, plan));
        }
      }
    }
  }

  lemma ExecuteMovesTheFiles(kind: DriverKind, env: Env, policies: seq<string>, s: Sys, plan: ChangePlan, op: Operation)
    ensures
      var s' := Execute(kind, env, policies, s, plan, op).0;
      && s'.rows == s.rows
      && (s'.w.files == s.w.files || s'.w.files == ApplyPlan(env, policies, s.w, plan).0.files)
  {
  }

  lemma MovedFilesKeep(initial: Files, policies: seq<string>, node: string, s: Sys, s': Sys)
    requires Recoverable(initial, policies, node, s) && s'.rows == s.rows
    requires
      s'.w.files == s.w.files ||
      (&& Load(s.rows, node).Some? && Near(initial, s'.w.files, policies)
       && (s.w.files == initial ==> AtRest(initial, s'.w.files, policies)) && !AtRest(initial, s.w.files, policies))
    ensures Recoverable(initial, policies, node, s')
    ensures InitialOrRest(initial, policies, node, s) ==> InitialOrRest(initial, policies, node, s')
  {
  }

  lemma TargetsMeanCpu0Leads(actions: seq<Action>, policies: seq<string>, files: Files)
    requires CPU0 in policies && Supported(actions) && TargetsHold(actions, policies, files)
    ensures Cpu0Leads(actions, policies, files)
  {
  }

  lemma LoweringSucceeds(initial: Files, policies: seq<string>, actions: seq<Action>, before: Files, files: Files)
    requires Near(initial, before, policies) && CPU0 in policies && actions != []
    requires Supported(actions) && Lowers(actions, initial, before) && Settles(actions, initial, before)
    requires forall file :: Settable(file) ==> RestTarget(initial, file).Some? && Cpu0(file) in initial
    requires ExpectedHold(actions, policies, before) && TargetsHold(actions, policies, files)
    requires OnlyPlanned(actions, policies, before, files)
    ensures Near(initial, files, policies)
    ensures before == initial ==> AtRest(initial, files, policies)
    ensures !AtRest(initial, before, policies)
  {
    TargetsMeanCpu0Leads(actions, policies, files);
    LoweringStaysNear(initial, policies, actions, before, files);
    if before == initial { LoweringReachesRest(initial, policies, actions, files); }
    var step := StepOf(actions[0]);
    assert Settable(step.file) && Holds(before, Cpu0(step.file), step.expected)
        && RestTarget(initial, step.file) == Some(step.target);
  }

  lemma LoweringReachesRest(initial: Files, policies: seq<string>, actions: seq<Action>, files: Files)
    requires CPU0 in policies
    requires Supported(actions) && Lowers(actions, initial, initial) && Settles(actions, initial, initial)
    requires forall file :: Settable(file) ==> RestTarget(initial, file).Some? && Cpu0(file) in initial
    requires ExpectedHold(actions, policies, initial) && TargetsHold(actions, policies, files)
    requires OnlyPlanned(actions, policies, initial, files)
    ensures AtRest(initial, files, policies)
  {
    SettableOnly(initial, policies, actions, initial, files);
    forall file | Settable(file)
      ensures if initial[Cpu0(file)] == RestTarget(initial, file).value
              then Unchanged(initial, files, policies, file)
              else forall cpu :: cpu in policies ==>
                && Holds(initial, Path(cpu, file), initial[Cpu0(file)])
                && Holds(files, Path(cpu, file), RestTarget(initial, file).value)
    {
      if i :| 0 <= i < |actions| && StepOf(actions[i]).file == file {
        assert CPU0 in policies;
      } else {
        FileUntouched(initial, policies, actions, initial, files, file);
      }
    }
  }

  /** A crash of an apply keeps the host recoverable exactly where cpu0 is written back last. */
  lemma StoppingApplyKeeps(initial: Files, policies: seq<string>, node: string, s: Sys, c: Command)
    requires IsPolicyList(policies) && Recoverable(initial, policies, node, s) && c.ApplyStopped?
    requires c.snapshot.node == node && Shows(c.snapshot, policies, s.w.files) && AllOrNothing(c.env)
    ensures Recoverable(initial, policies, node, Do(policies, s, c)) <==> Allowed(policies, node, s, c)
  {
    var s0 := At(s, s.w.files);
    var plan := ApplyCommandPlan(s0, c.snapshot, c.intent, c.reasons, c.deferrals);
    if !plan.Blocked() {
      StoppedApplyIsNear(initial, policies, node, s0, c.env, c.snapshot, c.intent, c.reasons, c.deferrals, c.at);
    }
  }

  lemma StoppedApplyIsNear(initial: Files, policies: seq<string>, node: string, s: Sys, env: Env, snapshot: Snapshot,
                           intent: Intent,
                           reasons: seq<Blocker>, deferrals: seq<string>, at: nat)
    requires IsPolicyList(policies) && Recoverable(initial, policies, node, s) && s.w.history == [s.w.files]
    requires snapshot.node == node && Shows(snapshot, policies, s.w.files) && AllOrNothing(env)
    requires !ApplyCommandPlan(s, snapshot, intent, reasons, deferrals).Blocked()
    ensures
      var plan := ApplyCommandPlan(s, snapshot, intent, reasons, deferrals);
      var files := StoppedFiles(env, policies, s.w, plan, at);
      if Supported(plan.actions) && Begins(env, policies, s.w, plan.actions) then
        && Load(s.rows, node).Some?
        && (Near(initial, files, policies) <==> ApplyMayStop(env, policies, s.w, plan, at))
      else files == s.w.files
  {
    var plan := ApplyCommandPlan(s, snapshot, intent, reasons, deferrals);
    ApplyPlanLowers(initial, policies, node, s, snapshot, intent, reasons, deferrals);
    StoppedFilesFollowTheCourse(env, policies, s.w, plan, at);
    if Begins(env, policies, s.w, plan.actions) {
      StoppedDriverLeavesCpu0Leading(env, policies, s.w, plan, at);
      LoweringStaysNear(initial, policies, plan.actions, s.w.files, StoppedFiles(env, policies, s.w, plan, at));
    }
  }

  // ----- Restore

  /** A whole restore either brings back the initial configuration or leaves the host alone. */
  lemma RestoreOutcome(initial: Files, policies: seq<string>, node: string, s: Sys, env: Env, snapshot: Snapshot)
    requires IsPolicyList(policies) && Recoverable(initial, policies, node, s)
    requires snapshot.node == node && Shows(snapshot, policies, s.w.files) && CleanRaises(env)
    requires
      var r := ApplyPlan(env, policies, s.w, PlanRestore(snapshot, Load(s.rows, node))).1;
      r.Ok? && r.value.applied ==> r.value.error.None?
    ensures
      var plan := PlanRestore(snapshot, Load(s.rows, node));
      var (w', r) := ApplyPlan(env, policies, s.w, plan);
      if r.Ok? && r.value.error.None? then w'.files == initial && Load(s.rows, node).Some? else w'.files == s.w.files
  {
    var plan := PlanRestore(snapshot, Load(s.rows, node));
    RestorePlanRaises(initial, policies, node, s, snapshot);
    if !plan.Blocked() {
      ApplyIsTransactional(env, policies, s.w, plan);
      CleanRaisesLeaveNothingTorn(env, policies, s.w, plan.actions);
      var (w', r) := ApplyPlan(env, policies, s.w, plan);
      if r.value.error.None? {
        RaisingRestoresEverything(initial, policies, plan.actions, s.w.files, w'.files);
      }
    }
  }

  lemma InitialIsNear(initial: Files, policies: seq<string>)
    ensures Near(initial, initial, policies)
  {
    forall file | Settable(file) ensures Unchanged(initial, initial, policies, file) {
    }
  }

  /** A restore that brings back the initial configuration may keep the record or retire it. */
  lemma RestoredFilesKeep(initial: Files, policies: seq<string>, node: string, s: Sys, s': Sys, now: int)
    requires Recoverable(initial, policies, node, s)
    requires
      || (s'.rows == s.rows && s'.w.files == s.w.files)
      || (s'.w.files == initial && (s'.rows == s.rows || s'.rows == Retired(s.rows, node, now)))
    ensures Recoverable(initial, policies, node, s')
    ensures InitialOrRest(initial, policies, node, s) ==> InitialOrRest(initial, policies, node, s')
  {
    RetiringFreesTheNode(s.rows, node, now);
    InitialIsNear(initial, policies);
  }

  lemma RestoringCleanly(initial: Files, policies: seq<string>, node: string, s: Sys, c: Command)
    requires IsPolicyList(policies)
    requires Recoverable(initial, policies, node, s) && c.RestoreOriginal? && Undisturbed(policies, node, s, c)
    ensures Recoverable(initial, policies, node, Do(policies, s, c))
    ensures InitialOrRest(initial, policies, node, s) ==> InitialOrRest(initial, policies, node, Do(policies, s, c))
  {
    var s0 := At(s, s.w.files);
    RestoreOutcome(initial, policies, node, s0, c.env, c.snapshot);
    RestoreMovesTheFiles(c.kind, c.env, policies, s0, c.snapshot, c.now);
    RestoredFilesKeep(initial, policies, node, s, Do(policies, s, c), c.now);
  }

  lemma RestoringKeeps(initial: Files, policies: seq<string>, node: string, s: Sys, c: Command)
    requires IsPolicyList(policies)
    requires Recoverable(initial, policies, node, s) && c.RestoreOriginal? && Allowed(policies, node, s, c)
    ensures Recoverable(initial, policies, node, Do(policies, s, c))
  {
    var s0 := At(s, s.w.files);
    var plan := PlanRestore(c.snapshot, Load(s.rows, node));
    if c.kind.LinuxKind? {
      if Undisturbed(policies, node, s, c) {
        RestoringCleanly(initial, policies, node, s, c);
      } else if !plan.Blocked() {
        StoppedRestoreIsNear(initial, policies, node, s0, c.env, c.snapshot, Writes(c.env, policies, s, plan));
      }
    }
  }

  lemma RestoreMovesTheFiles(kind: DriverKind, env: Env, policies: seq<string>, s: Sys, snapshot: Snapshot, now: int)
    ensures
      var s' := Restore(kind, env, policies, s, snapshot, now).0;
      var (w', r) := ApplyPlan(env, policies, s.w, PlanRestore(snapshot, Load(s.rows, snapshot.node)));
      || (s'.rows == s.rows && s'.w.files == s.w.files)
      || (s'.w.files == w'.files && r.Ok?
          && (s'.rows == s.rows || (r.value.error.None? && s'.rows == Retired(s.rows, snapshot.node, now))))
  {
  }

  /**
   A crash of a restore keeps the host recoverable exactly where, for each file it writes,
   cpu0 is not back or all CPUs are.
   */
  lemma StoppingRestoreKeeps(initial: Files, policies: seq<string>, node: string, s: Sys, c: Command)
    requires IsPolicyList(policies) && Recoverable(initial, policies, node, s) && c.RestoreStopped?
    requires c.snapshot.node == node && Shows(c.snapshot, policies, s.w.files) && AllOrNothing(c.env)
    ensures Recoverable(initial, policies, node, Do(policies, s, c)) <==> Allowed(policies, node, s, c)
  {
    var s0 := At(s, s.w.files);
    if !PlanRestore(c.snapshot, Load(s.rows, node)).Blocked() {
      StoppedRestoreIsNear(initial, policies, node, s0, c.env, c.snapshot, c.at);
    }
  }

  lemma StoppedRestoreIsNear(initial: Files, policies: seq<string>, node: string, s: Sys, env: Env,
                             snapshot: Snapshot, at: nat)
    requires IsPolicyList(policies) && Recoverable(initial, policies, node, s) && s.w.history == [s.w.files]
    requires snapshot.node == node && Shows(snapshot, policies, s.w.files) && AllOrNothing(env)
    requires !PlanRestore(snapshot, Load(s.rows, node)).Blocked()
    ensures
      var plan := PlanRestore(snapshot, Load(s.rows, node));
      var files := StoppedFiles(env, policies, s.w, plan, at);
      && Load(s.rows, node).Some? && Supported(plan.actions)
      && if Begins(env, policies, s.w, plan.actions)
         then Near(initial, files, policies) <==> RestoreMayStop(env, policies, s.w, plan, at)
         else files == s.w.files
  {
    var plan := PlanRestore(snapshot, Load(s.rows, node));
    RestorePlanRaises(initial, policies, node, s, snapshot);
    StoppedFilesFollowTheCourse(env, policies, s.w, plan, at);
    if Begins(env, policies, s.w, plan.actions) {
      var files := StoppedFiles(env, policies, s.w, plan, at);
      StoppedDriverLeavesCpu0Leading(env, policies, s.w, plan, at);
      TogetherExactly(plan.actions, policies, s.w.files, files, PlanCourse(env, policies, s.w, plan.actions), at);
      RaisingStaysNear(initial, policies, plan.actions, s.w.files, files);
    }
  }

  /** Among the forward writes of a restore: exactly after as many writes as make whole files on all CPUs. */
  lemma RestoreStopsBetweenFiles(initial: Files, policies: seq<string>, node: string, s: Sys, c: Command)
    requires IsPolicyList(policies) && Recoverable(initial, policies, node, s) && c.RestoreStopped?
    requires c.snapshot.node == node && Shows(c.snapshot, policies, s.w.files) && AllOrNothing(c.env)
    requires
      var plan := PlanRestore(c.snapshot, Load(s.rows, node));
      && !plan.Blocked() && Supported(plan.actions) && Begins(c.env, policies, At(s, s.w.files).w, plan.actions)
      && c.at <= PlanCourse(c.env, policies, At(s, s.w.files).w, plan.actions).taken
    ensures policies != [] && (Recoverable(initial, policies, node, Do(policies, s, c)) <==> c.at % |policies| == 0)
  {
    StoppingRestoreKeeps(initial, policies, node, s, c);
    RestorePlanRaises(initial, policies, node, s, c.snapshot);
    ForwardStopIsWhole(c.env, policies, At(s, s.w.files).w, PlanRestore(c.snapshot, Load(s.rows, node)), c.at);
  }

  // ----- The theorems

  /**
   Over every run, with crashes: with no active record the host is in its initial
   configuration on every CPU; otherwise the record holds cpu0's initial values and each file
   is initial everywhere or partly lowered with cpu0 at its REST target.
   */
  lemma {:induction false} RunsStayRecoverable(initial: Files, policies: seq<string>, node: string, s: Sys,
                                               commands: seq<Command>)
    requires IsPolicyList(policies) && Recoverable(initial, policies, node, s)
    requires AllowedRun(policies, node, s, commands)
    ensures Recoverable(initial, policies, node, Run(policies, s, commands))
    decreases |commands|
  {
    if commands != [] {
      var c := commands[0];
      match c {
        case SaveOriginal(_) => SavingKeeps(initial, policies, node, s, c);
        case ApplyIntent(_, _, _, _, _, _) => ApplyingKeeps(initial, policies, node, s, c);
        case RestoreOriginal(_, _, _, _) => RestoringKeeps(initial, policies, node, s, c);
        case ApplyStopped(_, _, _, _, _, _) => StoppingApplyKeeps(initial, policies, node, s, c);
        case RestoreStopped(_, _, _) => StoppingRestoreKeeps(initial, policies, node, s, c);
      }
      RunsStayRecoverable(initial, policies, node, Do(policies, s, c), commands[1..]);
    }
  }

  lemma RestIsRecoverable(initial: Files, policies: seq<string>, node: string, s: Sys)
    requires InitialOrRest(initial, policies, node, s)
    ensures Recoverable(initial, policies, node, s)
  {
    if AtRest(initial, s.w.files, policies) { RestIsNear(initial, s.w.files, policies); }
  }

  /**
   Over every run without a crash, and with complete rollbacks, the host is either in its
   initial configuration or at REST, and in the second case an active record of the initial
   values exists.  At REST all CPUs hold the REST targets exactly when no other CPU started
   elsewhere where cpu0 started at one.
   */
  lemma {:induction false} RunsWithoutCrash(initial: Files, policies: seq<string>, node: string, s: Sys,
                                            commands: seq<Command>)
    requires IsPolicyList(policies) && InitialOrRest(initial, policies, node, s)
    requires UndisturbedRun(policies, node, s, commands)
    ensures InitialOrRest(initial, policies, node, Run(policies, s, commands))
    ensures
      var end := Run(policies, s, commands);
      end.w.files != initial ==>
        && Load(end.rows, node).Some?
        && (RestEverywhere(initial, end.w.files, policies) <==> OthersStartAtRest(initial, policies))
    decreases |commands|
  {
    if commands == [] {
      if s.w.files != initial { RestIsEverywhereExactly(initial, s.w.files, policies); }
    } else {
      var c := commands[0];
      RestIsRecoverable(initial, policies, node, s);
      match c {
        case SaveOriginal(_) => SavingKeeps(initial, policies, node, s, c);
        case ApplyIntent(_, _, _, _, _, _) => ApplyingCleanly(initial, policies, node, s, c);
        case RestoreOriginal(_, _, _, _) => RestoringCleanly(initial, policies, node, s, c);
      }
      RunsWithoutCrash(initial, policies, node, Do(policies, s, c), commands[1..]);
    }
  }
}
