/** Shared domain types.  An unknown value is always `None`; frequencies are in kHz. */
module Model {
  import opened Wrappers

  datatype PowerMode = Active | Rest | Off

  datatype Intent = Available | Economize | Release | Maintenance

  datatype CpuFreq = CpuFreq(
    governor: Option<string>,
    availableGovernors: seq<string>,
    hardwareMin: Option<int>,
    hardwareMax: Option<int>,
    scalingMin: Option<int>,
    scalingMax: Option<int>)

  datatype Snapshot = Snapshot(capturedAt: int, node: string, cpufreqAvailable: bool, cpu: CpuFreq)

  /** Why a plan cannot be carried out. */
  datatype Blocker =
    | ReleaseUnsupported
    | CpufreqUnavailable
    | GovernorUnknown
    | GovernorUnavailable
    | HardwareRangeUnknown
    | CeilingUnknown
    | NoOriginalState
    | OriginalOfOtherNode
    | HardwareRangeDiffers
    | MinimumUnknown
    | CeilingBelowMinimum
    | Guard(reason: string)

  /** The target power state, or the reasons it cannot be decided. */
  datatype Desired = Desired(
    intent: Intent,
    mode: Option<PowerMode>,
    governor: Option<string>,
    scalingMax: Option<int>,
    blockers: seq<Blocker>)
}
