/**
 Typed change planning.  A plan is a value: building one writes nothing, and every
 action carries the value it expects to find.
 */
module Plan {
  import opened Wrappers
  import opened Model
  import opened State

  datatype Action =
    | SetGovernor(expected: string, target: string)
    | SetScalingMax(expectedKhz: int, targetKhz: int)
    | Unsupported(tag: string)  // anything else a caller puts in a plan

  datatype ChangePlan = ChangePlan(node: string, actions: seq<Action>, blockers: seq<Blocker>, deferrals: seq<string>)
  {
    predicate Blocked() {
      blockers != [] || deferrals != []
    }
  }

  function Blocking(node: string, blockers: seq<Blocker>): ChangePlan {
    ChangePlan(node, [], blockers, [])
  }

  function When(condition: bool, blocker: Blocker): seq<Blocker> {
    if condition then [blocker] else []
  }

  /** Governor first, then ceiling; an action that would change nothing is left out. */
  function Moves(cpu: CpuFreq, governor: string, ceiling: int): seq<Action>
    requires cpu.governor.Some? && cpu.scalingMax.Some?
  {
    (if cpu.governor.value != governor then [SetGovernor(cpu.governor.value, governor)] else [])
    + (if cpu.scalingMax.value != ceiling then [SetScalingMax(cpu.scalingMax.value, ceiling)] else [])
  }

  /** What a decision must hold before it can be planned: an unblocked REST comes from known values. */
  ghost predicate Planable(snapshot: Snapshot, desired: Desired) {
    desired.blockers == [] && desired.mode == Some(Rest) ==>
      && desired.governor.Some? && desired.scalingMax.Some?
      && snapshot.cpu.governor.Some? && snapshot.cpu.scalingMax.Some?
  }

  function PlanChanges(snapshot: Snapshot, desired: Desired, original: Option<OriginalState>): ChangePlan
    requires Planable(snapshot, desired)
  {
    if desired.blockers != [] then Blocking(snapshot.node, desired.blockers)
    else if desired.mode != Some(Rest) then ChangePlan(snapshot.node, [], [], [])
    else
      var actions := Moves(snapshot.cpu, desired.governor.value, desired.scalingMax.value);
      if actions == [] then ChangePlan(snapshot.node, [], [], [])
      else
        var blockers := ChangeBlockers(snapshot, desired.scalingMax.value, original);
        ChangePlan(snapshot.node, if blockers != [] then [] else actions, blockers, [])
  }

  function ChangeBlockers(snapshot: Snapshot, ceiling: int, original: Option<OriginalState>): seq<Blocker> {
    var cpu := snapshot.cpu;
    (match original
     case None => [NoOriginalState]
     case Some(o) =>
       if o.node != snapshot.node then [OriginalOfOtherNode]
       else When((Some(o.hardwareMin), Some(o.hardwareMax)) != (cpu.hardwareMin, cpu.hardwareMax),
                 HardwareRangeDiffers))
    + (if cpu.scalingMin.None? then [MinimumUnknown]
       else When(ceiling < cpu.scalingMin.value, CeilingBelowMinimum))
  }

  function PlanRestore(snapshot: Snapshot, original: Option<OriginalState>): ChangePlan {
    match original
    case None => Blocking(snapshot.node, [NoOriginalState])
    case Some(o) =>
      var blockers := RestoreBlockers(snapshot, o);
      if blockers != [] then Blocking(snapshot.node, blockers)
      else ChangePlan(snapshot.node, Moves(snapshot.cpu, o.governor, o.scalingMax), [], [])
  }

  function RestoreBlockers(snapshot: Snapshot, o: OriginalState): (blockers: seq<Blocker>)
    ensures blockers == [] <==>
      && o.node == snapshot.node && snapshot.cpufreqAvailable
      && snapshot.cpu.governor.Some? && snapshot.cpu.scalingMax.Some?
      && snapshot.cpu.hardwareMin == Some(o.hardwareMin) && snapshot.cpu.hardwareMax == Some(o.hardwareMax)
      && (snapshot.cpu.scalingMin.Some? ==> snapshot.cpu.scalingMin.value <= o.scalingMax)
  {
    var cpu := snapshot.cpu;
    When(o.node != snapshot.node, OriginalOfOtherNode)
    + When(!snapshot.cpufreqAvailable, CpufreqUnavailable)
    + When(cpu.governor.None?, GovernorUnknown)
    + When(cpu.scalingMax.None?, CeilingUnknown)
    + When((Some(o.hardwareMin), Some(o.hardwareMax)) != (cpu.hardwareMin, cpu.hardwareMax), HardwareRangeDiffers)
    + When(cpu.scalingMin.Some? && o.scalingMax < cpu.scalingMin.value, CeilingBelowMinimum)
  }

  /** The safety guard lets a plan through unchanged, or replaces it by its reasons not to act. */
  function GuardPlan(plan: ChangePlan, reasons: seq<Blocker>, deferrals: seq<string>): ChangePlan {
    if plan.Blocked() || plan.actions == [] || (reasons == [] && deferrals == []) then plan
    else ChangePlan(plan.node, [], reasons, deferrals)
  }
}
