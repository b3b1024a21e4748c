/** The decision: which power state an intent asks for, failing closed on unknowns. */
module Decide {
  import opened Wrappers
  import opened Model
  import opened State
  import opened Plan

  const REST_GOVERNOR := "powersave"
  const REST_CPU_MAX_PERCENT := 40

  function DesiredState(snapshot: Snapshot, intent: Intent): (d: Desired)
    ensures Planable(snapshot, d)
  {
    match intent
    case Available => Desired(intent, Some(Active), None, None, [])
    case Maintenance => Desired(intent, None, None, None, [])
    case Release => Desired(intent, None, None, None, [ReleaseUnsupported])
    case Economize => RestState(snapshot, intent)
  }

  function RestState(snapshot: Snapshot, intent: Intent): (d: Desired)
    ensures Planable(snapshot, d)
  {
    var blockers := RestBlockers(snapshot);
    if blockers != [] then Desired(intent, Some(Rest), None, None, blockers)
    else
      var cpu := snapshot.cpu;
      Desired(intent, Some(Rest), Some(REST_GOVERNOR),
              Some(RestCeiling(cpu.hardwareMin.value, cpu.hardwareMax.value, cpu.scalingMax.value)), [])
  }

  function RestBlockers(snapshot: Snapshot): (blockers: seq<Blocker>)
    ensures blockers == [] <==> Decidable(snapshot)
  {
    var cpu := snapshot.cpu;
    When(!snapshot.cpufreqAvailable, CpufreqUnavailable)
    + When(cpu.governor.None?, GovernorUnknown)
    + When(REST_GOVERNOR !in cpu.availableGovernors, GovernorUnavailable)
    + When(cpu.hardwareMin.None? || cpu.hardwareMax.None?, HardwareRangeUnknown)
    + When(cpu.scalingMax.None?, CeilingUnknown)
  }

  function Min(a: int, b: int): int { if a < b then a else b }

  function Max(a: int, b: int): int { if a < b then b else a }

  /** 40 percent of the hardware maximum, rounded down and clamped, and never above the current ceiling. */
  function RestCeiling(hardwareMin: int, hardwareMax: int, scalingMax: int): int {
    var ceiling := hardwareMax * REST_CPU_MAX_PERCENT / 100;  // the divisor is positive: floor division
    var clamped := Max(hardwareMin, Min(ceiling, hardwareMax));
    Min(clamped, scalingMax)
  }

  /**
   The ceiling, without computing it: lowered only to the hardware minimum or to the largest
   whole number that is at most 40 percent of the hardware maximum, and left only where it
   is not above that already.
   */
  lemma CeilingIsLowestNeeded(hardwareMin: int, hardwareMax: int, scalingMax: int)
    requires 0 <= hardwareMin <= hardwareMax
    ensures
      var ceiling := RestCeiling(hardwareMin, hardwareMax, scalingMax);
      && ceiling <= scalingMax
      && (ceiling < scalingMax ==>
            && hardwareMin <= ceiling <= hardwareMax
            && (ceiling == hardwareMin || 100 * ceiling <= 40 * hardwareMax)
            && 40 * hardwareMax < 100 * (ceiling + 1))
      && (ceiling == scalingMax ==> ceiling <= hardwareMin || 100 * ceiling <= 40 * hardwareMax)
  {
    var ceiling := hardwareMax * REST_CPU_MAX_PERCENT / 100;
    assert 100 * ceiling <= 40 * hardwareMax < 100 * (ceiling + 1);
  }

  // ----- When a plan is made, and when it is blocked

  /** Everything that the REST decision asks for. */
  predicate Decidable(snapshot: Snapshot) {
    var cpu := snapshot.cpu;
    && snapshot.cpufreqAvailable && cpu.governor.Some? && cpu.scalingMax.Some?
       && REST_GOVERNOR in cpu.availableGovernors
    && cpu.hardwareMin.Some? && cpu.hardwareMax.Some?
  }

  predicate AlreadyAt(cpu: CpuFreq, governor: string, ceiling: int) {
    cpu.governor == Some(governor) && cpu.scalingMax == Some(ceiling)
  }

  /** The record is of this node and this hardware. */
  predicate Matches(o: OriginalState, snapshot: Snapshot) {
    o.node == snapshot.node && snapshot.cpu.hardwareMin == Some(o.hardwareMin)
        && snapshot.cpu.hardwareMax == Some(o.hardwareMax)
  }

  /** Apply plans nothing, is blocked, or moves cpu0 to the decided state: exactly when each. */
  lemma ApplyPlansExactly(snapshot: Snapshot, intent: Intent, original: Option<OriginalState>)
    ensures
      var desired := DesiredState(snapshot, intent);
      var plan := PlanChanges(snapshot, desired, original);
      && (desired.blockers == [] <==> !intent.Release? && (intent.Economize? ==> Decidable(snapshot)))
      && (plan.Blocked() <==>
            || desired.blockers != []
            || (&& intent.Economize? && !AlreadyAt(snapshot.cpu, REST_GOVERNOR, desired.scalingMax.value)
                && !(&& original.Some? && Matches(original.value, snapshot)
                     && snapshot.cpu.scalingMin.Some? && snapshot.cpu.scalingMin.value <= desired.scalingMax.value)))
      && (plan.actions != [] <==>
            && intent.Economize? && !plan.Blocked()
               && !AlreadyAt(snapshot.cpu, REST_GOVERNOR, desired.scalingMax.value))
      && plan.node == snapshot.node && plan.deferrals == []
  {
  }

  /** Restore is blocked, or moves cpu0 to the recorded state: exactly when. */
  lemma RestorePlansExactly(snapshot: Snapshot, original: Option<OriginalState>)
    ensures
      var plan := PlanRestore(snapshot, original);
      && (plan.Blocked() <==>
            !(&& original.Some? && Matches(original.value, snapshot)
              && snapshot.cpufreqAvailable && snapshot.cpu.governor.Some? && snapshot.cpu.scalingMax.Some?
              && (snapshot.cpu.scalingMin.Some? ==> snapshot.cpu.scalingMin.value <= original.value.scalingMax)))
      && (plan.actions != [] <==>
            !plan.Blocked() && !AlreadyAt(snapshot.cpu, original.value.governor, original.value.scalingMax))
      && plan.node == snapshot.node && plan.deferrals == []
  {
  }

  /** A record as saving produces it. */
  predicate Saved(o: OriginalState) {
    o.hardwareMin <= o.scalingMin <= o.scalingMax <= o.hardwareMax
  }

  /**
   Every ceiling that apply plans lies in the hardware range, is not below the current
   minimum, and is strictly below the current ceiling.
   */
  lemma PlannedCeilingIsInRange(snapshot: Snapshot, intent: Intent, original: Option<OriginalState>, i: nat)
    requires original.Some? ==> Saved(original.value)
    requires i < |PlanChanges(snapshot, DesiredState(snapshot, intent), original).actions|
    requires PlanChanges(snapshot, DesiredState(snapshot, intent), original).actions[i].SetScalingMax?
    ensures
      var action := PlanChanges(snapshot, DesiredState(snapshot, intent), original).actions[i];
      var cpu := snapshot.cpu;
      && intent.Economize? && original.Some?
      && cpu.hardwareMin.Some? && cpu.hardwareMax.Some? && cpu.scalingMin.Some?
      && cpu.scalingMax == Some(action.expectedKhz)
      && cpu.hardwareMin.value <= action.targetKhz <= cpu.hardwareMax.value
      && cpu.scalingMin.value <= action.targetKhz < action.expectedKhz
  {
  }

  /** What cpu0 shows once a plan's targets hold. */
  function Settled(snapshot: Snapshot, desired: Desired): Snapshot {
    snapshot.(cpu := snapshot.cpu.(governor := desired.governor, scalingMax := desired.scalingMax))
  }

  /**
   Lowering the ceiling is idempotent: once the targets hold, the same decision gives the
   same targets, and the plan is empty and unblocked whatever record is stored by then.
   */
  lemma ReplanningIsEmpty(snapshot: Snapshot, intent: Intent, later: Option<OriginalState>)
    requires DesiredState(snapshot, intent).blockers == []
    requires DesiredState(snapshot, intent).mode == Some(Rest)
    ensures
      var desired := DesiredState(snapshot, intent);
      var again := Settled(snapshot, desired);
      && DesiredState(again, intent) == desired
      && PlanChanges(again, desired, later) == ChangePlan(snapshot.node, [], [], [])
  {
  }

  // ----- Which reasons and which actions

  /** What speaks against a REST decision. */
  predicate SpeaksAgainstRest(b: Blocker, snapshot: Snapshot) {
    match b
    case CpufreqUnavailable => !snapshot.cpufreqAvailable
    case GovernorUnknown => snapshot.cpu.governor.None?
    case GovernorUnavailable => "powersave" !in snapshot.cpu.availableGovernors
    case HardwareRangeUnknown => snapshot.cpu.hardwareMin.None? || snapshot.cpu.hardwareMax.None?
    case CeilingUnknown => snapshot.cpu.scalingMax.None?
    case _ => false
  }

  /** What speaks against lowering to a ceiling. */
  predicate SpeaksAgainstApply(b: Blocker, snapshot: Snapshot, ceiling: int, original: Option<OriginalState>) {
    var cpu := snapshot.cpu;
    match b
    case NoOriginalState => original.None?
    case OriginalOfOtherNode => original.Some? && original.value.node != snapshot.node
    case HardwareRangeDiffers =>
      && original.Some? && original.value.node == snapshot.node
      && (cpu.hardwareMin != Some(original.value.hardwareMin) || cpu.hardwareMax != Some(original.value.hardwareMax))
    case MinimumUnknown => cpu.scalingMin.None?
    case CeilingBelowMinimum => cpu.scalingMin.Some? && ceiling < cpu.scalingMin.value
    case _ => false
  }

  /** What speaks against a restore. */
  predicate SpeaksAgainstRestore(b: Blocker, snapshot: Snapshot, original: Option<OriginalState>) {
    var cpu := snapshot.cpu;
    if original.None? then b == NoOriginalState
    else
      match b
      case OriginalOfOtherNode => original.value.node != snapshot.node
      case CpufreqUnavailable => !snapshot.cpufreqAvailable
      case GovernorUnknown => cpu.governor.None?
      case CeilingUnknown => cpu.scalingMax.None?
      case HardwareRangeDiffers =>
        cpu.hardwareMin != Some(original.value.hardwareMin) || cpu.hardwareMax != Some(original.value.hardwareMax)
      case CeilingBelowMinimum => cpu.scalingMin.Some? && original.value.scalingMax < cpu.scalingMin.value
      case _ => false
  }

  lemma InFive(b: Blocker, s1: seq<Blocker>, s2: seq<Blocker>, s3: seq<Blocker>, s4: seq<Blocker>, s5: seq<Blocker>)
    ensures b in s1 + s2 + s3 + s4 + s5 <==> b in s1 || b in s2 || b in s3 || b in s4 || b in s5
  {
  }

  lemma InWhen(b: Blocker, condition: bool, blocker: Blocker)
    ensures b in When(condition, blocker) <==> condition && b == blocker
  {
  }

  /** Each reason is given exactly when it speaks against the decision. */
  lemma RestReasonsExactly(snapshot: Snapshot, b: Blocker)
    ensures b in DesiredState(snapshot, Economize).blockers <==> SpeaksAgainstRest(b, snapshot)
  {
    var cpu := snapshot.cpu;
    InFive(b, When(!snapshot.cpufreqAvailable, CpufreqUnavailable), When(cpu.governor.None?, GovernorUnknown),
           When(REST_GOVERNOR !in cpu.availableGovernors, GovernorUnavailable),
           When(cpu.hardwareMin.None? || cpu.hardwareMax.None?, HardwareRangeUnknown),
           When(cpu.scalingMax.None?, CeilingUnknown));
    InWhen(b, !snapshot.cpufreqAvailable, CpufreqUnavailable);
    InWhen(b, cpu.governor.None?, GovernorUnknown);
    InWhen(b, REST_GOVERNOR !in cpu.availableGovernors, GovernorUnavailable);
    InWhen(b, cpu.hardwareMin.None? || cpu.hardwareMax.None?, HardwareRangeUnknown);
    InWhen(b, cpu.scalingMax.None?, CeilingUnknown);
  }

  /** The other intents: none is a REST decision, and only RELEASE is refused. */
  lemma OtherIntentsExactly(snapshot: Snapshot)
    ensures DesiredState(snapshot, Available) == Desired(Available, Some(Active), None, None, [])
    ensures DesiredState(snapshot, Maintenance) == Desired(Maintenance, None, None, None, [])
    ensures DesiredState(snapshot, Release) == Desired(Release, None, None, None, [ReleaseUnsupported])
  {
  }

  lemma ChangeReasonsExactly(snapshot: Snapshot, ceiling: int, original: Option<OriginalState>, b: Blocker)
    ensures b in ChangeBlockers(snapshot, ceiling, original) <==> SpeaksAgainstApply(b, snapshot, ceiling, original)
  {
  }

  /**
   A plan that has something to do gives each reason exactly when it speaks against it, and one
   that has not gives none.
   */
  lemma ApplyReasonsExactly(snapshot: Snapshot, original: Option<OriginalState>, b: Blocker)
    requires Decidable(snapshot)
    ensures
      var cpu, desired := snapshot.cpu, DesiredState(snapshot, Economize);
      b in PlanChanges(snapshot, desired, original).blockers <==>
        && (cpu.governor != Some("powersave") || cpu.scalingMax != desired.scalingMax)
        && SpeaksAgainstApply(b, snapshot, desired.scalingMax.value, original)
  {
    ChangeReasonsExactly(snapshot, DesiredState(snapshot, Economize).scalingMax.value, original, b);
  }

  lemma RecordReasonsExactly(snapshot: Snapshot, o: OriginalState, b: Blocker)
    ensures b in RestoreBlockers(snapshot, o) <==> SpeaksAgainstRestore(b, snapshot, Some(o))
  {
    var cpu := snapshot.cpu;
    var range := (Some(o.hardwareMin), Some(o.hardwareMax)) != (cpu.hardwareMin, cpu.hardwareMax);
    var below := cpu.scalingMin.Some? && o.scalingMax < cpu.scalingMin.value;
    InFive(b, When(o.node != snapshot.node, OriginalOfOtherNode), When(!snapshot.cpufreqAvailable, CpufreqUnavailable),
           When(cpu.governor.None?, GovernorUnknown), When(cpu.scalingMax.None?, CeilingUnknown),
           When(range, HardwareRangeDiffers));
    InWhen(b, o.node != snapshot.node, OriginalOfOtherNode);
    InWhen(b, !snapshot.cpufreqAvailable, CpufreqUnavailable);
    InWhen(b, cpu.governor.None?, GovernorUnknown);
    InWhen(b, cpu.scalingMax.None?, CeilingUnknown);
    InWhen(b, range, HardwareRangeDiffers);
    InWhen(b, below, CeilingBelowMinimum);
  }

  /** Each reason against a restore is given exactly when it speaks against it. */
  lemma RestoreReasonsExactly(snapshot: Snapshot, original: Option<OriginalState>, b: Blocker)
    ensures b in PlanRestore(snapshot, original).blockers <==> SpeaksAgainstRestore(b, snapshot, original)
  {
    if original.Some? { RecordReasonsExactly(snapshot, original.value, b); }
  }

  /** At most the governor, then the ceiling, each only when it would change. */
  predicate MovesTo(actions: seq<Action>, cpu: CpuFreq, governor: string, ceiling: int) {
    && cpu.governor.Some? && cpu.scalingMax.Some?
    && (SetGovernor(cpu.governor.value, governor) in actions <==> cpu.governor.value != governor)
    && (SetScalingMax(cpu.scalingMax.value, ceiling) in actions <==> cpu.scalingMax.value != ceiling)
    && (forall a :: a in actions ==>
          a == SetGovernor(cpu.governor.value, governor) || a == SetScalingMax(cpu.scalingMax.value, ceiling))
    && |actions| <= 2 && (|actions| == 2 ==> actions[0].SetGovernor? && actions[1].SetScalingMax?)
  }

  lemma MovesExactly(cpu: CpuFreq, governor: string, ceiling: int)
    requires cpu.governor.Some? && cpu.scalingMax.Some?
    ensures MovesTo(Moves(cpu, governor, ceiling), cpu, governor, ceiling)
  {
  }

  /** The actions of unblocked plans: to "powersave" and the decided ceiling, or back to what was recorded. */
  lemma PlannedActionsExactly(snapshot: Snapshot, original: Option<OriginalState>)
    ensures
      var desired := DesiredState(snapshot, Economize);
      var plan := PlanChanges(snapshot, desired, original);
      plan.blockers == [] && plan.deferrals == [] ==>
        desired.scalingMax.Some? && MovesTo(plan.actions, snapshot.cpu, "powersave", desired.scalingMax.value)
    ensures
      var plan := PlanRestore(snapshot, original);
      plan.blockers == [] && plan.deferrals == [] ==>
        original.Some? && MovesTo(plan.actions, snapshot.cpu, original.value.governor, original.value.scalingMax)
  {
    var desired := DesiredState(snapshot, Economize);
    var plan := PlanChanges(snapshot, desired, original);
    if plan.blockers == [] {
      assert plan.actions == Moves(snapshot.cpu, "powersave", desired.scalingMax.value);
      MovesExactly(snapshot.cpu, "powersave", desired.scalingMax.value);
    }
    if PlanRestore(snapshot, original).blockers == [] {
      MovesExactly(snapshot.cpu, original.value.governor, original.value.scalingMax);
    }
  }
}
