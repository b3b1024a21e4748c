/**
 Carrying out a plan and restoring the original state: the driver, the recovery
 records and the audit events in sequence.
 */
module Engine {
  import opened Wrappers
  import opened Host
  import opened Model
  import opened State
  import opened Plan
  import opened Decide
  import opened Driver

  datatype Operation = ApplyOp | RestoreOp

  datatype DriverKind = DryRunKind | LinuxKind

  datatype Event =
    | Refused(op: Operation, blockers: seq<Blocker>, deferrals: seq<string>)
    | Started(op: Operation, actions: seq<Action>)
    | Finished(op: Operation, result: ApplyResult)
    | OriginalRetired(node: string)

  /** The host, the recovery table and the names and details of the audit events. */
  datatype Sys = Sys(w: World, rows: seq<Row>, log: seq<Event>)

  /** A blocked plan never reaches the driver; a driver may also refuse by raising. */
  datatype Execution = NotRun | DriverRaised(refusal: Refusal) | Ran(result: ApplyResult)

  function RunDriver(kind: DriverKind, env: Env, policies: seq<string>, w: World, plan: ChangePlan)
    : (World, Result<ApplyResult, Refusal>)
  {
    match kind
    case DryRunKind => (w, DryRun(plan))
    case LinuxKind => ApplyPlan(env, policies, w, plan)
  }

  function Execute(kind: DriverKind, env: Env, policies: seq<string>, s: Sys, plan: ChangePlan, op: Operation)
    : (Sys, Execution)
  {
    if plan.Blocked() then (s.(log := s.log + [Refused(op, plan.blockers, plan.deferrals)]), NotRun)
    else
      var announced := s.log + [Started(op, plan.actions)];
      var (w, r) := RunDriver(kind, env, policies, s.w, plan);
      match r
      case Err(refusal) => (Sys(w, s.rows, announced), DriverRaised(refusal))
      case Ok(result) => (Sys(w, s.rows, announced + [Finished(op, result)]), Ran(result))
  }

  /** The host is verifiably back: written and verified without error, or already there. */
  predicate Restored(kind: DriverKind, plan: ChangePlan, x: Execution) {
    x.Ran? && kind.LinuxKind? && x.result.error.None? && (x.result.applied || plan.actions == [])
  }

  function Restore(kind: DriverKind, env: Env, policies: seq<string>, s: Sys, snapshot: Snapshot, now: int)
    : (Sys, Execution)
  {
    var plan := PlanRestore(snapshot, Load(s.rows, snapshot.node));
    var (s1, x) := Execute(kind, env, policies, s, plan, RestoreOp);
    if Restored(kind, plan, x)
    then (Sys(s1.w, Retired(s1.rows, snapshot.node, now), s1.log + [OriginalRetired(snapshot.node)]), x)
    else (s1, x)
  }

  /** The plan of the apply command, after the guard. */
  function ApplyCommandPlan(s: Sys, snapshot: Snapshot, intent: Intent, reasons: seq<Blocker>, deferrals: seq<string>)
    : ChangePlan
  {
    GuardPlan(PlanChanges(snapshot, DesiredState(snapshot, intent), Load(s.rows, snapshot.node)), reasons, deferrals)
  }

  /**
   The safety guard: given reasons or deferrals, an apply that would act is refused with them,
   and nothing else happens; otherwise it is carried out as if there were no guard.
   */
  lemma GuardedApply(kind: DriverKind, env: Env, policies: seq<string>, s: Sys, snapshot: Snapshot, intent: Intent,
                     reasons: seq<Blocker>, deferrals: seq<string>)
    ensures
      var plan := PlanChanges(snapshot, DesiredState(snapshot, intent), Load(s.rows, snapshot.node));
      Execute(kind, env, policies, s, ApplyCommandPlan(s, snapshot, intent, reasons, deferrals), ApplyOp)
      == if plan.blockers == [] && plan.deferrals == [] && plan.actions != [] && (reasons != [] || deferrals != [])
         then (s.(log := s.log + [Refused(ApplyOp, reasons, deferrals)]), NotRun)
         else Execute(kind, env, policies, s, plan, ApplyOp)
  {
  }

  /** A plan with blockers or deferrals is refused with them, and nothing else happens. */
  lemma RefusedExactly(kind: DriverKind, env: Env, policies: seq<string>, s: Sys, plan: ChangePlan, op: Operation)
    ensures
      var (s', x) := Execute(kind, env, policies, s, plan, op);
      && (x.NotRun? <==> plan.blockers != [] || plan.deferrals != [])
      && (x.NotRun? ==> s' == s.(log := s.log + [Refused(op, plan.blockers, plan.deferrals)]))
  {
  }

  /** A dry run changes neither the host nor the records, and reports the actions as not applied. */
  lemma DryRunChangesNothing(env: Env, policies: seq<string>, s: Sys, plan: ChangePlan, op: Operation,
                             snapshot: Snapshot, now: int)
    ensures
      var (s', x) := Execute(DryRunKind, env, policies, s, plan, op);
      && s'.w == s.w && s'.rows == s.rows
      && (plan.blockers == [] && plan.deferrals == [] ==>
            x == Ran(ApplyResult("dry-run", false, plan.actions, None, false)))
    ensures
      var s' := Restore(DryRunKind, env, policies, s, snapshot, now).0;
      s'.w == s.w && s'.rows == s.rows
  {
  }

  /** A restore retires the record, and logs it, exactly when the writing driver ran without an error. */
  lemma RestoreRetiresExactly(kind: DriverKind, env: Env, policies: seq<string>, s: Sys, snapshot: Snapshot, now: int)
    ensures
      var plan := PlanRestore(snapshot, Load(s.rows, snapshot.node));
      var (executed, x) := Execute(kind, env, policies, s, plan, RestoreOp);
      Restore(kind, env, policies, s, snapshot, now)
      == if kind.LinuxKind? && x.Ran? && x.result.error.None?
         then (Sys(executed.w, Retired(s.rows, snapshot.node, now), executed.log + [OriginalRetired(snapshot.node)]), x)
         else (executed, x)
  {
  }

  /**
   Whatever the driver does, an operation that changes the host leaves its announcement in the log,
   before its outcome.
   */
  lemma ChangeIsAnnounced(kind: DriverKind, env: Env, policies: seq<string>, s: Sys, plan: ChangePlan, op: Operation)
    ensures
      var (s', x) := Execute(kind, env, policies, s, plan, op);
      && s'.rows == s.rows && s.log < s'.log
      && (s'.w != s.w ==> x.Ran? && kind.LinuxKind?)
      && (x.Ran? ==> s'.log == s.log + [Started(op, plan.actions), Finished(op, x.result)])
      && (plan.Blocked() <==> x.NotRun?)
  {
  }

  class Engine {
    const host: CpuHost
    const policies: seq<string>
    const store: Store
    var log: seq<Event>

    constructor (host: CpuHost, policies: seq<string>, store: Store)
      ensures this.host == host && this.policies == policies && this.store == store && log == []
    {
      this.host, this.policies, this.store, this.log := host, policies, store, [];
    }

    ghost function View(): Sys
      reads this, host, store
    {
      Sys(host.View(), store.rows, log)
    }

    /** `started` is the system when the driver is called: the announcement is in the log and nothing written yet. */
    method ExecutePlan(kind: DriverKind, plan: ChangePlan, op: Operation) returns (x: Execution, ghost started: Sys)
      modifies this, host
      ensures (View(), x) == Execute(kind, host.env, policies, old(View()), plan, op)
      ensures !plan.Blocked() ==>
        && started == old(View()).(log := old(log) + [Started(op, plan.actions)])
        && View().w == RunDriver(kind, host.env, policies, started.w, plan).0
    {
      if plan.Blocked() {
        started := View();
        log := log + [Refused(op, plan.blockers, plan.deferrals)];
        return NotRun, started;
      }
      log := log + [Started(op, plan.actions)];
      started := View();
      var r;
      match kind {
        case DryRunKind =>
          var driver := new DryRunDriver();
          r := driver.Apply(plan);
        case LinuxKind =>
          var driver := new LinuxCpufreqDriver(host, policies);
          r := driver.Apply(plan);
      }
      if r.Err? { return DriverRaised(r.error), started; }
      log := log + [Finished(op, r.value)];
      x := Ran(r.value);
    }

    method RestoreOriginal(kind: DriverKind, snapshot: Snapshot, now: int) returns (plan: ChangePlan, x: Execution)
      modifies this, host, store
      ensures plan == PlanRestore(snapshot, old(Load(store.rows, snapshot.node)))
      ensures (View(), x) == Restore(kind, host.env, policies, old(View()), snapshot, now)
      ensures old(OneActive(store.rows)) ==> OneActive(store.rows)
    {
      plan := PlanRestore(snapshot, Load(store.rows, snapshot.node));
      ghost var started;
      x, started := ExecutePlan(kind, plan, RestoreOp);
      if Restored(kind, plan, x) {
        var _ := store.Retire(snapshot.node, now);
        log := log + [OriginalRetired(snapshot.node)];
      }
    }

    /** The apply command: plan from the stored record, guard, execute. */
    method ApplyIntent(kind: DriverKind, snapshot: Snapshot, intent: Intent, reasons: seq<Blocker>,
                       deferrals: seq<string>)
      returns (x: Execution)
      modifies this, host
      ensures
        (View(), x) == Execute(kind, host.env, policies, old(View()),
                               ApplyCommandPlan(old(View()), snapshot, intent, reasons, deferrals), ApplyOp)
    {
      var plan := PlanChanges(snapshot, DesiredState(snapshot, intent), Load(store.rows, snapshot.node));
      ghost var started;
      x, started := ExecutePlan(kind, GuardPlan(plan, reasons, deferrals), ApplyOp);
    }
  }
}
