# Nordfir: a verified model

Nordfir lowers the CPU frequency and governor of a machine that is not needed, and puts
them back. This project models the parts of it that must not go wrong and proves what
they promise, for all inputs and for all runs.

- **The reversible change protocol** (`Host`, `Model`, `State`, `Plan`, `Decide`, `Driver`,
  `DriverProperties`, `DriverReports`, `StoppedDriver`, `Engine`, `Lifecycle`, `Runs`,
  `Recovery`, `Divergence`, `Limits`). The host is a map from CPU and file to value. Every
  write may take, be ignored, store something else or raise, and every read may fail;
  `Host.Env` lists these outcomes and all theorems quantify over it. The host's `history`
  holds its files after each write: the states a crash can leave.
- **The hash-chained audit log** (`Audit`, `AuditWriters`), with a hash that is injective
  and never GENESIS (`Audit.Ideal`), and writers whose transactions interleave.
- **Calibration and energy counters** (`Calibration`, `Rapl`, `Arithmetic`), over exact
  reals and integers.
- **The observer** and its retention (`Observer`, `Snapshots`).
- **The archived Rust design** (`RestDriver`, `RestDriverProperties`, `RestReports`, `RestoreOrder`,
  `Decimal`, `Text`, `AuditText`, `StateFile`, `StateFileProperties`, `TornSave`, `Archive`,
  `ArchiveProperties`, `ArchiveReports`): a driver whose rollback includes the failing
  change, the audit text, the file of the original settings, and the store that archives it.

Where the source loops or updates fields, the model is a class or a method with the same
loops, proved equal to a function; the theorems are about these functions. The lemmas named
`...Exactly` say what an operation answers from the outcomes of its reads and writes and from
its inputs, with the numbers and words of the source written out. `dafny verify
dfyconfig.toml` checks the whole project.

## What the proofs found

Some natural claims hold only under a condition. Each has its exact condition in a
theorem, and an input where it fails.

- `src/nordfir/driver.py:20` says that a result which is not applied leaves the host as it
  was. A write that raises after it has changed its file is never written back, because a
  file joins the list of finished writes only after its write returned. The claim holds if
  and only if no such write happened (`ApplyIsTransactional`, `TornWriteIsMissed`). The Rust
  driver does not have this condition.
- cpu0, the only CPU that the planner looks at, holds a file's target whenever any CPU does,
  at every stopping point, if and only if no rollback write of cpu0 takes effect before one
  of another changed CPU that does not (`StoppedDriverLeavesCpu0Leading`,
  `IncompleteRollbackLosesTheLead`).
- `src/nordfir/engine.py:115-117` says that the record is retired only when the host is
  verifiably back. On several CPUs this holds for the files that the restore wrote and for
  cpu0; for the others if and only if they were alike on all CPUs
  (`RetiringMeansRestored`). A restore stopped where cpu0 has a file back and another CPU has
  not is followed by one that retires the record with that CPU still lowered; the harmless
  stops are given exactly (`StoppingRestoreKeeps`, `StoppedRestoreRetiresEarly`).
- The Rust restore writes maximum, minimum and governor in this order. It never asks for a
  minimum above the maximum if and only if the new maximum is not below the live minimum and
  the new minimum not above the maximum then in force, which the validation does not ask for
  (`StaysInOrderExactly`, `RestoreIsNeverRejected`, `RejectedWithoutTheConditions`). Its
  rollback asks for one when it lowers the maximum below a new minimum that it failed to put
  back (`RollbackIsAcceptedExactly`, `RollbackCanBeRejected`).
- An apply lowers a file on all CPUs only if cpu0 is not at its REST target already. The REST
  targets are on all CPUs if and only if, where cpu0 started at one, all CPUs did
  (`RunsWithoutCrash`, `ApplyMissesAGovernor`).
- `src/nordfir/guards.py:10-11` says that recovery must always be possible. Once cpu0 and
  another CPU differ in a file and cpu0 is not at its recorded value, which a crash inside the
  file brings about, no later command writes that file or retires the record
  (`RecoveryIsLostForGood`, `LostExactly`, `CrashLosesTheGovernor`). On a single CPU recovery
  is always possible (`OneCpuIsAlwaysRestored`).
- A retirement that ends between link and removal, and a save that stops while writing,
  lose nothing that was saved but leave a node that no later save or retirement can free
  (`RetireLeavesStuck`, `SaveLeavesStuck`, `StuckForever`); and a save stopped while writing
  can leave a readable state with a smaller maximum (`TornMaximumIsAccepted`).
- Inspecting the archive of a node "a" fails as soon as a node "a.b" has an archived
  snapshot, and inspecting "a.12" as soon as "a" has one taken at second 12
  (`InspectionIsExact`, `DottedNodesAreMisread`, `InspectionCanFail`).

## Model

| member | source | states |
|---|---|---|
| `DriverProperties.ApplyIsTransactional` | src/nordfir/driver.py:67-117 | for any number of CPUs, at most one action per file and any outcome of each read and write: files outside the plan keep their values, a result without an error means every planned file on every CPU holds its target, a drift or missing-policy error writes nothing, every file not reported as stuck is back at its old value unless its own write raised, and a complete rollback has restored every file if and only if the failing write did not raise after changing its file |
| `DriverProperties.OtherFilesAreNeverWritten` | src/nordfir/driver.py:88-117 | whatever the host does, a file outside the plan has its value after every write and every rollback write |
| `DriverProperties.CleanRaisesLeaveNothingTorn` | src/nordfir/driver.py:93-94 | when a raising write leaves its file alone, the exception in the rollback guarantee never arises |
| `DriverProperties.WriteCellsEffect` | src/nordfir/driver.py:88-98 | the write loop changes only the files it reached, all but the last of them verified; a write that raised is not among those to be written back |
| `DriverProperties.UndoCellsEffect` | src/nordfir/driver.py:101-117 | the rollback goes on past failures, and every file it does not list as stuck is back at its expected value |
| `DriverProperties.DriftCheckEffect` | src/nordfir/driver.py:79-86 | the check of every expected value on every CPU writes nothing, and passes only if all of them hold |
| `DriverProperties.RollbackEffect` | src/nordfir/driver.py:97-117 | writes and rollback together: only planned files differ, and none but a stuck or torn one |
| `DriverProperties.FaultlessApplySucceeds` | src/nordfir/driver.py:67-99 | on a host without faults an apply succeeds if and only if no planned file has drifted, and otherwise writes nothing |
| `DriverReports.AppliedExactly` | src/nordfir/driver.py:67-99 | on every host a plan is applied if and only if every planned file reads as expected and every write goes through: it does not raise, the read after it works, and what is read is the target; the answer is then applied with all actions |
| `DriverReports.FailureIsReportedExactly` | src/nordfir/driver.py:97-117 | the answer of a failed apply, from the outcomes alone: the first failing write is its cause, a file that is written back is listed as stuck if and only if its own rollback write did not go through, the later file first and each once, and it is applied if and only if some are stuck and rolled back if and only if none are |
| `DriverReports.CompleteRollbackIsReported` | src/nordfir/driver.py:104-117 | if every rollback write takes and every read after it works, the failed apply is reported as rolled back and not applied, with nothing stuck |
| `DriverReports.StuckExactly` | src/nordfir/driver.py:104-111 | a written-back file is on the stuck list if and only if its rollback write raised, or was followed by a read that failed or gave another value |
| `DriverReports.WritesFailExactly` | src/nordfir/driver.py:88-98 | the write loop fails at the first write that does not go through; that file is written back unless its write raised |
| `DriverReports.RefusedForDriftExactly` | src/nordfir/driver.py:79-86 | a plan is refused for drift if and only if some planned file does not read as expected, nothing is then applied or rolled back, and the first such file is named with what was found |
| `DriverReports.EarlyAnswers` | src/nordfir/driver.py:68-77 | what is answered before any file is read: blocked, nothing to do, unsupported action, no CPU directory, in this order and without a change |
| `StoppedDriver.StoppedApplyFollowsTheCourse` | src/nordfir/driver.py:88-117 | with all-or-nothing writes the host after each write and each rollback write is known exactly, whatever the rollback does: which planned files hold their targets follows from the outcomes of the writes |
| `StoppedDriver.StoppedApplyIsAPrefix` | src/nordfir/driver.py:88-117 | stopped between any two writes or rollback writes, every planned file is at its expected or target value and every other file as before; it is the first planned files in order that hold their targets if and only if no file has been written back before a later changed one |
| `StoppedDriver.UndoFollowsTheCourse` | src/nordfir/driver.py:104-111 | the same for the rollback alone, from any point of it |
| `StoppedDriver.WholeRows` | src/nordfir/driver.py:90-92 | the first files visited are whole files on all CPUs if and only if their number is a multiple of the number of CPUs |
| `Driver.LinuxCpufreqDriver.Apply` | src/nordfir/driver.py:67-99 | the nested loops over actions and CPUs produce exactly the host, and the result, of the cell-by-cell specification that the properties are about |
| `Driver.LinuxCpufreqDriver.RollBack` | src/nordfir/driver.py:101-117 | the backward walk over the list of finished writes is the specified rollback, with the stuck files in the order met; DriverReports.StuckExactly says which files these are |
| `Driver.LinuxCpufreqDriver.WriteSteps` | src/nordfir/driver.py:88-98 | the write loops build the list of finished writes with their previous values, up to the first failure |
| `Driver.LinuxCpufreqDriver.FindDrift` | src/nordfir/driver.py:79-86 | the nested check reports the first difference in the order of actions and CPUs |
| `Driver.LinuxCpufreqDriver.Put` | src/nordfir/driver.py:93-96 | a write followed by reading back, on a host where both may fail |
| `Driver.DryRunDriver.Apply` | src/nordfir/driver.py:39-42 | refuses a plan with blockers or deferrals, and otherwise answers "dry-run", not applied, with the plan's actions and no error; it has no host to change |
| `Driver.CellsAreThePlannedFiles` | src/nordfir/driver.py:90-92 | the files that the loops visit are exactly the planned ones on every CPU |
| `Driver.CellsAreDistinct` | src/nordfir/driver.py:90-92 | with one action per file and distinct CPUs, no file is visited twice |
| `Driver.Cpu0ComesFirst` | src/nordfir/driver.py:73-75 | cpu0 sorts before every other CPU directory that the pattern matches |
| `Runs.RunsWithoutCrash` | src/nordfir/engine.py:79-128 | over every run of save-original, apply of any intent, dry-run and restore without an outside writer or a crash and with clean driver failures, the host is in its initial configuration, or in that configuration lowered to the REST targets in the files that cpu0 did not start there; in the second case an active record of the initial values exists, and the REST targets are on all CPUs if and only if, where cpu0 started at one, all CPUs did |
| `Lifecycle.RestIsEverywhereExactly` | src/nordfir/plan.py:65-72 | the condition for the REST targets on all CPUs, from the planner looking at cpu0 only |
| `Limits.ApplyMissesAGovernor` | src/nordfir/plan.py:65-72 | a run of save and apply without faults that lowers the ceilings of both CPUs and leaves the governor of cpu1 as it was, because that of cpu0 was at its target |
| `Runs.RunsStayRecoverable` | src/nordfir/engine.py:79-128 | the same runs with crashes inside any apply or restore, and with incomplete rollbacks, wherever cpu0 still tells what to put back: without an active record the host is in its initial configuration on every CPU, and with one, which holds the initial governor and limits of cpu0, each file is initial everywhere or partly lowered with cpu0 at its REST target |
| `Lifecycle.StoppedDriverLeavesCpu0Leading` | src/nordfir/driver.py:73-117 | stopped after any write or rollback write, each planned file is at its expected or target value and no other has changed; cpu0 holds the target whenever any CPU does if and only if every rollback write of cpu0 that took effect had been preceded by ones that took effect on all other changed CPUs |
| `Lifecycle.ApplyPlanLowers` | src/nordfir/cli.py:225-238 | in every recoverable state the plan of the apply command takes files from their initial values to the REST targets, and exists only with a stored record |
| `Lifecycle.RestorePlanRaises` | src/nordfir/plan.py:99-134 | in every recoverable state an unblocked restore plan takes the lowered files back to their initial values and leaves alone only files that are initial on cpu0 |
| `Lifecycle.LoweringStaysNear` | src/nordfir/engine.py:36-58 | what an apply leaves, stopped or finished, is the initial configuration lowered file by file if and only if cpu0 leads |
| `Lifecycle.RaisingStaysNear` | src/nordfir/engine.py:110-128 | the same of a restore, if and only if for each file it writes cpu0 is not back or all CPUs are |
| `Lifecycle.ForwardStopIsWhole` | src/nordfir/driver.py:90-96 | among forward writes that took effect, all copies of each file are moved together if and only if the number of writes is a multiple of the number of CPUs |
| `Lifecycle.MovesCoverTheDifferences` | src/nordfir/plan.py:129-134 | planned actions are of known types, at most one for each file, and exactly for the values in which cpu0 differs |
| `Lifecycle.RaisingRestoresEverything` | src/nordfir/engine.py:110-128 | a restore that succeeds leaves the initial configuration on every CPU |
| `Runs.SavingKeeps` | src/nordfir/state.py:53-68 | saving keeps both run invariants: the record it stores holds the initial governor, limits and hardware range of cpu0 |
| `Runs.ApplyingKeeps` | src/nordfir/engine.py:79-107 | an apply that runs to its end keeps the run invariant, with a clean failure or one that leaves cpu0 leading |
| `Runs.StoppingApplyKeeps` | src/nordfir/engine.py:96-101 | a crash after any write of an apply keeps the host recoverable if and only if cpu0 has been written back last |
| `Runs.RestoringKeeps` | src/nordfir/engine.py:110-128 | a restore that runs to its end keeps the run invariant, retired record included |
| `Runs.StoppingRestoreKeeps` | src/nordfir/engine.py:110-128 | a crash after any write of a restore keeps the host recoverable if and only if, for each file it writes, cpu0 is not back or all CPUs are |
| `Runs.RestoreStopsBetweenFiles` | src/nordfir/driver.py:90-96 | among the forward writes of a restore, a crash keeps the host recoverable if and only if the number of writes is a multiple of the number of CPUs |
| `Recovery.RetiringMeansRestored` | src/nordfir/engine.py:119-127 | a restore retires the record only when cpu0 is back at the recorded governor and ceiling and every file it wrote is back on all CPUs; all files of all CPUs are back if and only if those left alone were alike on all CPUs |
| `Recovery.RestoreIsBlockedExactly` | src/nordfir/plan.py:107-127 | in every recoverable state a restore is blocked if and only if there is no record or a value it asks for is unknown |
| `Recovery.RestoreAfterACrash` | src/nordfir/engine.py:110-128 | in every recoverable state a restore on a fault-free host with a record and a complete snapshot runs, and either brings back the initial configuration everywhere and retires the record, or refuses for drift without writing; it succeeds if and only if the changed files are alike on all CPUs, so always on a single one |
| `Recovery.RestoreAfterAnyRun` | src/nordfir/engine.py:110-128 | the same after any run with crashes |
| `Recovery.OneCpuMayAlwaysStop` | src/nordfir/driver.py:88-117 | on a single CPU every stopping point, and every incomplete rollback, is harmless |
| `Recovery.OneCpuIsAlwaysRestored` | src/nordfir/engine.py:110-128 | on a single CPU with all-or-nothing writes, a fault-free restore brings back the initial configuration and retires the record after any run, wherever its commands were stopped |
| `Divergence.DifferentFileIsNotWritten` | src/nordfir/driver.py:79-86 | a file on which cpu0 and another CPU differ is not written at any point by any plan made from cpu0, whatever the host does: the drift check refuses the plan |
| `Divergence.DifferenceIsForever` | src/nordfir/engine.py:79-128 | over every run, with any faults and crashes, no copy of such a file changes |
| `Divergence.RecoveryIsLostForGood` | src/nordfir/engine.py:110-128 | if cpu0 is not at its recorded value there, the record also stays active over every run: recovery has become impossible |
| `Divergence.LostExactly` | src/nordfir/engine.py:110-128 | in a recoverable state this is so of some file if and only if a fault-free restore would refuse |
| `Limits.CrashLosesTheGovernor` | src/nordfir/driver.py:90-96 | an apply on two CPUs that is stopped after its first write leaves the governor in this state through every later run |
| `Recovery.ReplanningAfterApplyIsEmpty` | src/nordfir/plan.py:59-75 | after a successful apply any complete snapshot gives an empty, unblocked plan |
| `Limits.TornWriteIsMissed` | src/nordfir/driver.py:93-98 | a write that raises after taking effect: nothing applied and a complete rollback are reported, and yet cpu0 has changed |
| `Limits.IncompleteRollbackLosesTheLead` | src/nordfir/driver.py:105-117 | a rollback write that is ignored leaves cpu1 at the target and cpu0 not, so cpu0 need not lead after an incomplete rollback |
| `Limits.StoppedRestoreRetiresEarly` | src/nordfir/engine.py:119-127 | a run of save, apply, a restore stopped after its first write, and a restore, all without faults on two CPUs and each from a snapshot of cpu0, ends with the record retired and cpu1 still lowered |
| `Limits.RestoreStopsAfterCpu0` | src/nordfir/driver.py:90-96 | the first three of these commands leave cpu0 back, cpu1 lowered and the record active |
| `Engine.Engine.ExecutePlan` | src/nordfir/engine.py:79-107 | refusal of a blocked plan without calling the driver; otherwise announcement, driver and outcome in this order: when the driver is called the announcement is in the log and nothing has been written |
| `Engine.Engine.RestoreOriginal` | src/nordfir/engine.py:110-128 | plans from the stored record, executes, and retires the record exactly when the host is verifiably back; at most one active record per node remains |
| `Engine.Engine.ApplyIntent` | src/nordfir/cli.py:225-238 | plans from the stored record, guards and executes; Engine.GuardedApply says what the guard does with its reasons |
| `Engine.GuardedApply` | src/nordfir/cli.py:225-238 | if the unguarded plan is unblocked and has actions, and the guard gives reasons or deferrals, the apply is not run, host and records stay as they are, and the log gains exactly the refusal with these reasons and deferrals; otherwise it is the execution of the unguarded plan |
| `Engine.RefusedExactly` | src/nordfir/engine.py:79-94 | a plan is not run if and only if it has blockers or deferrals, and then only the refusal with them is logged |
| `Engine.DryRunChangesNothing` | src/nordfir/engine.py:79-128 | with the dry-run driver an apply or a restore leaves the host and the records as they are, and reports the actions as not applied |
| `Engine.RestoreRetiresExactly` | src/nordfir/engine.py:110-128 | a restore retires the record, and logs it, if and only if the writing driver ran and reported no error |
| `Engine.ChangeIsAnnounced` | src/nordfir/engine.py:96-107 | an operation changes the host only by running the writing driver, and the log of one that ran holds its announcement and then its outcome |
| `Decide.PlannedCeilingIsInRange` | src/nordfir/engine.py:52-55 | every planned ceiling lies in the hardware range, is not below the current minimum and is strictly below the current ceiling |
| `Decide.ReplanningIsEmpty` | src/nordfir/engine.py:36-58 | once the targets hold, the same decision gives the same targets and an empty, unblocked plan |
| `Decide.CeilingIsLowestNeeded` | src/nordfir/engine.py:52-55 | a lowered ceiling is the hardware minimum or the largest whole number within 40 percent of the hardware maximum, and a ceiling left alone is not above that |
| `Decide.ApplyPlansExactly` | src/nordfir/plan.py:49-96 | exactly when an intent is refused, when an apply plan is blocked, and when it has actions |
| `Decide.RestorePlansExactly` | src/nordfir/plan.py:99-134 | exactly when a restore plan is blocked, and when it has actions |
| `Decide.ApplyReasonsExactly` | src/nordfir/plan.py:51-96 | every possible reason against an apply, with the condition on the snapshot and the record under which it is given |
| `Decide.RestoreReasonsExactly` | src/nordfir/plan.py:99-134 | every possible reason against a restore, with its condition |
| `Decide.PlannedActionsExactly` | src/nordfir/plan.py:65-134 | the actions of an unblocked plan: at most the governor and then the ceiling, each only if it would change, to "powersave" and the decided ceiling, or back to the recorded values, and expecting what the snapshot shows |
| `Decide.RestReasonsExactly` | src/nordfir/engine.py:36-47 | every reason against the REST decision, with its condition |
| `Decide.OtherIntentsExactly` | src/nordfir/engine.py:23-33 | the decisions of the other three intents |
| `Decide.RestBlockers` | src/nordfir/engine.py:38-50 | no blocker is left if and only if every value that the decision needs is known and the REST governor is available |
| `Plan.RestoreBlockers` | src/nordfir/plan.py:110-125 | no blocker is left if and only if the record is of this node and hardware range, the current values are known, and the recorded ceiling is not below the current minimum |
| `State.OriginalFrom` | src/nordfir/state.py:30-50 | a record is taken if and only if all values are known and the limits in order, and holds every value of the snapshot |
| `State.InsertedRecordIsActive` | src/nordfir/state.py:53-68 | saving succeeds if and only if the node has no active record; the new record is then the one loaded, and no other node is affected |
| `State.RetiringFreesTheNode` | src/nordfir/state.py:78-89 | retiring leaves the node without an active record, keeps the data of every row and the records of other nodes |
| `State.LoadIsTheActiveRecord` | src/nordfir/state.py:71-75 | under the unique index the record loaded is the active one |
| `State.Store.Save` | src/nordfir/state.py:53-68 | refusals leave the table alone; the unique index keeps one active record per node |
| `State.Store.Retire` | src/nordfir/state.py:78-89 | sets the time of the active record and says whether there was one |
| `Audit.AuditLog.Verify` | src/nordfir/audit.py:67-86 | accepts exactly a legacy prefix followed by a well-linked chain, then reporting the head; on failure legacy + checked is the length of the longest valid prefix, and the error names what is wrong with the next row |
| `Audit.AuditLog.Record` | src/nordfir/audit.py:38-57 | appends one event chained to the head, or nothing when the insertion fails; a sound log stays sound |
| `Audit.AppendingStaysSound` | src/nordfir/audit.py:38-57 | a log built by recording is always sound, with the new event as its head |
| `Audit.HeadFixesHistory` | src/nordfir/audit.py:67-86 | two sound logs with the same head have identical chained rows, for an injective hash that is never GENESIS |
| `Audit.RearrangementIsTailRemoval` | src/nordfir/audit.py:67-86 | a sound log made only of rows of another sound log is a beginning of its chain: every other removal, reordering or repetition is rejected |
| `Audit.TailRemovalChangesTheHead` | src/nordfir/audit.py:60-64 | removing events from the end passes verification but changes the head |
| `Audit.PredecessorsAreDistinct` | src/nordfir/audit.py:42-52 | no two chained rows of a sound log name the same predecessor |
| `Audit.NothingSoundBeyond` | src/nordfir/audit.py:74-84 | a row that does not continue the chain ends every valid prefix |
| `Audit.IdealHashExists` | src/nordfir/audit.py:33-35 | the assumption on the hash can be met |
| `AuditWriters.EveryInterleavingIsSound` | src/nordfir/audit.py:38-57 | for any number of writers and any interleaving of taking the lock, reading the head, inserting, committing, rolling back and crashing, the committed log stays sound, only grows, and no two chained rows share a predecessor |
| `AuditWriters.StepStaysConsistent` | src/nordfir/audit.py:44-57 | each such step keeps the lock discipline and the committed chain |
| `Calibration.FitIsTheLeastSquaresLine` | src/nordfir/energy.py:170-194 | no other intercept and slope give a sum of squared residuals as small as the returned pair, on every accepted input |
| `Calibration.FitIdentities` | src/nordfir/energy.py:177-194 | residuals sum to zero, the squared error is syy - slope^2 * sxx, and r squared is the explained proportion, within [0, 1] |
| `Calibration.FitIgnoresOrder` | src/nordfir/energy.py:170-194 | the same samples in any order are accepted or refused alike and give the same model |
| `Calibration.ExactSamplesRecoverTheLine` | src/nordfir/energy.py:177-194 | varying samples on a line that does not fall are accepted, and give that line with no residual and r squared 1 |
| `Calibration.FitCalibration` | src/nordfir/energy.py:170-194 | validation loop and formulas compute the model, or the first refusal that applies; Calibration.AcceptedExactly says which samples are accepted |
| `Calibration.AcceptedExactly` | src/nordfir/energy.py:170-184 | samples are accepted if and only if there are at least five, each with a utilisation from 0 to 1 and positive watts, the squared deviations of the utilisations add up to at least 0.000001, and the deviations of the two do not have a negative product sum; otherwise the first of these that fails is the refusal; an accepted model counts its samples |
| `Calibration.FirstInvalidIsNamed` | src/nordfir/energy.py:174-176 | the sample named as invalid is the first whose utilisation is not from 0 to 1 or whose watts are not positive |
| `Calibration.EstimateExactly` | src/nordfir/energy.py:160-162 | an estimate is the line at the utilisation, or zero where the line is below zero |
| `Calibration.EstimateFollowsTheSamples` | src/nordfir/energy.py:160-162 | a fitted model estimates the mean watts at the mean utilisation, and never less at a higher one |
| `Rapl.RaplPower` | src/nordfir/energy.py:68-97 | watts are given if and only if time passed and some domain was read twice without a wrap of unknown range; watts times seconds is then the summed deltas in joules, and the true energy of these domains wherever the counters measure it |
| `Rapl.DeltaIsTheTrueEnergy` | src/nordfir/energy.py:84-88 | with less than one turn consumed, the delta is the true energy if and only if the counter did not wrap or its reported range is the modulus |
| `Rapl.TotalIsTheTrueEnergy` | src/nordfir/energy.py:80-90 | the summed deltas are the true energy of the usable shared domains |
| `Observer.ObserverEndsAsCounted` | src/nordfir/observer.py:49-69 | the reason is too many errors if and only if the last attempts are the first run of that many straight failures; errors counts the failed attempts, and a bounded run ends within its bound |
| `Observer.LoopEndsAtTheFirstRun` | src/nordfir/observer.py:51-61 | the same from any point of the loop |
| `Observer.LoopCountsItsAttempts` | src/nordfir/observer.py:56-65 | the counters against the list of attempts, from any point of the loop |
| `Observer.ObserverDb.Watch` | src/nordfir/observer.py:49-66 | the loop ends as specified, and the log and the table are those of the attempts it made, which are cycles + 1 after too many errors and cycles otherwise; the stored snapshots of the node never exceed max(initial count, keep) plus the error limit |
| `Observer.ObserverDb.Observe` | src/nordfir/observer.py:35-69 | start and stop are logged around the loop; a refused interval changes nothing |
| `Observer.ObserverDb.Cycle` | src/nordfir/observer.py:72-88 | a cycle leaves at most one snapshot more, and at most keep when it succeeds |
| `Observer.CycleBound` | src/nordfir/observer.py:72-88 | the same of the rows alone |
| `Observer.CycleExactly` | src/nordfir/observer.py:72-88 | a cycle fails at every stage but pruning, and there if and only if it is told to prune and cannot or to keep fewer than one; an observation is logged if and only if every stage before pruning went well, and an error after it if and only if the cycle failed |
| `Observer.RowsExactly` | src/nordfir/observer.py:72-88 | the rows of the node after a cycle: as before if collecting or saving failed, and otherwise with one newer row, cut to the newest that are to be kept if the cycle succeeded; other nodes keep theirs |
| `Observer.RunKeepsOtherNodes` | src/nordfir/observer.py:49-69 | over any run of the loop the rows of other nodes stay as they are, and ids stay in order |
| `Snapshots.PruningKeepsTheNewest` | src/nordfir/db.py:115-128 | exactly the newest rows of the node survive, as many as are to be kept |
| `Snapshots.PruningKeepsOtherNodes` | src/nordfir/db.py:115-128 | rows of other nodes all survive |
| `Snapshots.PruningKeepsTheOrder` | src/nordfir/db.py:115-128 | ids stay in order |
| `Snapshots.SavingAddsOne` | src/nordfir/db.py:104-111 | a saved snapshot is the newest row of its node |
| `RestDriverProperties.ApplyIsTransactional` | archive/rust/src/drivers/linux_rest.rs:57-95 | success means every planned setting meets its target; rolled back means that every setting attempted, the failing one included, meets the saved original within 0.5 MHz even when the failing write took effect; a refusal writes nothing |
| `RestDriverProperties.TransactIsTransactional` | archive/rust/src/drivers/linux_rest.rs:79-95 | the same of any list of writes with the rollback of those possibly made, under any host behaviour |
| `RestDriverProperties.RestoreReachesTheOriginal` | archive/rust/src/drivers/linux_rest.rs:97-132 | success leaves the governor equal and both frequencies within 0.5 MHz of the original, settings that were skipped included; rolled back means the same of the live values that were read first, whatever the host does |
| `RestoreOrder.StaysInOrderExactly` | archive/rust/src/drivers/linux_rest.rs:106-132 | through the writes maximum, minimum, governor the minimum stays under the maximum if and only if the new maximum is not below the live minimum and the new minimum not above the maximum then in force, of the settings that are written |
| `RestoreOrder.RestoreIsNeverRejected` | archive/rust/src/drivers/linux_rest.rs:106-132 | under this condition no request going forward asks for a minimum above the maximum, whatever the host does, and a completed rollback is accepted throughout and restores the files exactly |
| `RestoreOrder.RestoreIsAcceptedExactly` | archive/rust/src/drivers/linux_rest.rs:106-132 | on a host without faults every request going forward is accepted if and only if this condition holds |
| `RestoreOrder.RollbackIsAcceptedExactly` | archive/rust/src/drivers/linux_rest.rs:206-235 | a rollback, complete or not, asks for a maximum under the minimum if and only if it has to lower the maximum below a new minimum that its own write did not put back; otherwise the files stay in order |
| `RestoreOrder.RollbackCanBeRejected` | archive/rust/src/drivers/linux_rest.rs:206-235 | such a rollback: from 400 to 500 MHz towards 600 to 1000, with the governor write and the rollback of the minimum ignored |
| `RestoreOrder.RejectedWithoutTheConditions` | archive/rust/src/drivers/linux_rest.rs:106-132 | a host for each half of the condition on which a request is rejected |
| `RestDriverProperties.FaultlessApplySucceeds` | archive/rust/src/drivers/linux_rest.rs:57-95 | without faults a ready plan is applied if and only if it passes the checks, which RestReports.AppliedExactly writes out, finds the host as planned and has writable targets |
| `RestDriverProperties.FaultlessRestoreSucceeds` | archive/rust/src/drivers/linux_rest.rs:97-160 | without faults a saved state with positive limits is restored if and only if it passes the validation, whose conditions RestReports.RestoredExactly writes out |
| `RestReports.RestoredExactly` | archive/rust/src/drivers/linux_rest.rs:97-160 | without faults a saved state with positive limits is restored if and only if cpufreq is available, the governor is in the list, both hardware limits are known, and hardware minimum <= saved minimum <= saved maximum <= hardware maximum |
| `RestReports.RestoreRefusedExactly` | archive/rust/src/drivers/linux_rest.rs:97-160 | on every host, without any one of these conditions, or if one of the three live settings cannot be read, the restore is refused and nothing is written; and it is refused for nothing else |
| `RestReports.RestoredValues` | archive/rust/src/drivers/linux_rest.rs:97-132 | a successful restore leaves the saved governor, and both limits within half a megahertz, written out |
| `RestReports.RestoreSequence` | archive/rust/src/drivers/linux_rest.rs:106-132 | a restore writes exactly the settings that differ, the maximum before the minimum before the governor, each with the live value for its rollback |
| `RestReports.AppliedExactly` | archive/rust/src/drivers/linux_rest.rs:57-95 | without faults a ready plan is applied if and only if it has no blockers and one or two changes of different kinds, each to "powersave" from the saved governor, or to a positive maximum that is not below the saved minimum and not above the current one, which is within half a megahertz of the saved one, and the host holds what each expects |
| `RestReports.ApplyRefusedExactly` | archive/rust/src/drivers/linux_rest.rs:57-78 | on every host an apply is refused, with nothing written, if and only if its plan is blocked, or ready but not such a plan, or a file does not read as it expects |
| `RestReports.TransactReports` | archive/rust/src/drivers/linux_rest.rs:79-94 | what a run of writes answers, from the outcomes alone: no error if and only if every write goes through; otherwise it stops at the first that does not, and is reported as rolled back if and only if the rollback writes of that one and of all before it go through |
| `RestReports.RoundsHalfUp` | archive/rust/src/drivers/linux_rest.rs:393-405 | frequencies are written in whole kilohertz, rounded half up |
| `RestoreOrder.RoundingKeepsApart` | archive/rust/src/drivers/linux_rest.rs:393-405 | rounding to whole kilohertz does not bring frequencies half a megahertz apart within tolerance |
| `RestDriver.LinuxRestDriver.ApplyPlan` | archive/rust/src/drivers/linux_rest.rs:57-95 | the three validations in order, then the loop with its rollback, on the host |
| `RestDriver.LinuxRestDriver.Restore` | archive/rust/src/drivers/linux_rest.rs:97-132 | validation, reading the live state, and the ordered writes with rollback to the live values; RestReports.RestoreRefusedExactly says what is refused |
| `RestDriver.LinuxRestDriver.TransactTasks` | archive/rust/src/drivers/linux_rest.rs:79-94 | the write loop, and the rollback of what was possibly changed |
| `RestDriver.LinuxRestDriver.RollbackTasks` | archive/rust/src/drivers/linux_rest.rs:320-346 | the backward loop that goes on after failures and reports whether there was any |
| `RestDriver.LinuxRestDriver.ValidatePlan` | archive/rust/src/drivers/linux_rest.rs:237-266 | the pass with two flags accepts exactly plans of valid changes with at most one of each kind |
| `AuditText.LogParsesBack` | archive/rust/src/audit/mod.rs:318-330 | the concatenated log of any events parses back to exactly those events, times in whole seconds |
| `AuditText.LogIsUnambiguous` | archive/rust/src/audit/mod.rs:318-330 | two sequences of events have the same log if and only if they agree to the second |
| `AuditText.LineInverts` | archive/rust/src/audit/mod.rs:324-329 | a line holds no line break and parses back to its event |
| `AuditText.EncodedExactly` | archive/rust/src/audit/mod.rs:318-330 | an event is refused if and only if it is before the epoch; otherwise its line is its whole seconds, with one second as 1000000000 nanoseconds, its actor, kind and message under their labels in this order, and a line break |
| `AuditText.EscapeIsOnePass` | archive/rust/src/audit/mod.rs:401-407 | the four successive replacements are one pass over the characters |
| `AuditText.UnescapeInverts` | archive/rust/src/audit/mod.rs:401-407 | the escape has a left inverse |
| `AuditText.EscapedIsPlain` | archive/rust/src/audit/mod.rs:401-407 | escaped text holds no tab, carriage return or line feed |
| `AuditText.ParseKindInverts` | archive/rust/src/audit/mod.rs:386-399 | the ten kinds have ten different names |
| `AuditText.FileAuditSink.Record` | archive/rust/src/audit/mod.rs:288-316 | appends the encoded line, or refuses an event before the epoch and appends nothing |
| `StateFileProperties.AcceptedExactly` | archive/rust/src/state/original_power.rs:74-121 | a text is decoded to a state if and only if it is the header and six lines, one for each of the six fields, that give the values of that state, and the state is valid |
| `StateFileProperties.ValidExactly` | archive/rust/src/state/original_power.rs:105-121 | version 1, token node and governor, finite positive limits in order: validation refuses exactly everything else |
| `StateFileProperties.InvalidExactly` | archive/rust/src/state/original_power.rs:105-121 | the first rule that a state breaks is the one it is refused for |
| `StateFileProperties.TokenExactly` | archive/rust/src/state/original_power.rs:469-480 | a token is made of ASCII letters and digits, "-", "_" and ".", given by their code points, and is neither empty nor one or two dots |
| `StateFileProperties.EncodedExactly` | archive/rust/src/state/original_power.rs:61-72 | the text of a valid state is the header and the six named values, line by line |
| `StateFileProperties.RefusedBeforeTheFields` | archive/rust/src/state/original_power.rs:74-91 | a text without the header is refused for it, then for its first bad line, then for their number |
| `StateFileProperties.GivenIsValidated` | archive/rust/src/state/original_power.rs:93-121 | six fields that give a state are refused for the first rule that the state breaks, and otherwise give it |
| `Decimal.ParseDigit` | archive/rust/src/state/original_power.rs:489-497 | numbers are parsed by their decimal digits, given by code points |
| `StateFileProperties.UnusableIsNamed` | archive/rust/src/state/original_power.rs:93-102 | of six fields the first, in the order of the file, that is missing or not a number of its type is the one named |
| `StateFileProperties.UnsignedExactly` | archive/rust/src/state/original_power.rs:489-497 | numbers are digits up to the largest value of their type, after an optional plus sign |
| `StateFileProperties.RoundTrip` | archive/rust/src/state/original_power.rs:61-72 | exactly the valid states are encoded, and each decodes to itself |
| `StateFileProperties.AnyOrderDecodes` | archive/rust/src/state/original_power.rs:80-102 | the six field lines decode to the state in any order |
| `StateFileProperties.OrderDoesNotMatter` | archive/rust/src/state/original_power.rs:80-91 | two texts whose field lines are permutations of each other decode to the same state, or both to none |
| `StateFileProperties.InversePairExists` | archive/rust/src/state/original_power.rs:489-497 | the assumption on printing and reading of floats can be met |
| `StateFileProperties.DecodedIsEncodable` | archive/rust/src/state/original_power.rs:61-103 | whatever is decoded can be encoded again, to a text that decodes to the same state |
| `StateFileProperties.DescribedOnce` | archive/rust/src/state/original_power.rs:80-91 | in an accepted text every field line is the line of a field of its own |
| `Text.LinesExactly` | archive/rust/src/state/original_power.rs:74-81 | lines end in a line feed, or in a return and a line feed, and the last line may end in neither |
| `StateFile.FillSucceeds` | archive/rust/src/state/original_power.rs:80-88 | the map is filled if and only if every line has a key of its own |
| `StateFile.FillStopsExactly` | archive/rust/src/state/original_power.rs:80-88 | filling stops at the first line without a separator or with the key of an earlier line, and names it |
| `StateFile.FillHolds` | archive/rust/src/state/original_power.rs:80-88 | the filled map gives a key exactly the value of its line |
| `StateFile.DecodeState` | archive/rust/src/state/original_power.rs:74-103 | the line-by-line loop decodes as specified, first error included |
| `TornSave.TornTextDecodes` | archive/rust/src/state/original_power.rs:152-159 | the first characters of a saved text are accepted if and only if they reach a readable maximum that keeps the state valid, and the result differs in nothing else |
| `TornSave.TornMaximumIsAccepted` | archive/rust/src/state/original_power.rs:152-159 | a saved text whose maximum is printed 4700, stopped after 470, decodes to the same state with that smaller maximum |
| `ArchiveProperties.SavedIsNeverLost` | archive/rust/src/state/original_power.rs:142-163 | once saved, the bytes of a snapshot are at its active or its archive path after any later run of saves and retirements, stopped or failing at any system call |
| `ArchiveProperties.ArchiveOnlyGrows` | archive/rust/src/state/original_power.rs:255-294 | over any such run archive entries keep their names and bytes |
| `ArchiveProperties.SaveThenRetire` | archive/rust/src/state/original_power.rs:142-294 | without faults a valid snapshot is saved, loaded as it was and moved into the archive, which leaves the directory as before for that node |
| `ArchiveProperties.RetireKeeps` | archive/rust/src/state/original_power.rs:255-294 | after every system call of a retirement the bytes are at the active or the archive path |
| `ArchiveProperties.SaveKeeps` | archive/rust/src/state/original_power.rs:142-163 | after every system call of a save, earlier snapshots are where they were |
| `ArchiveProperties.ArchiveNamesDiffer` | archive/rust/src/state/original_power.rs:279-282 | archive names are equal if and only if node and capture second are, whatever dots the nodes hold |
| `ArchiveProperties.RootNamesDiffer` | archive/rust/src/state/original_power.rs:420-423 | active names are equal if and only if the nodes are |
| `ArchiveProperties.StuckForever` | archive/rust/src/state/original_power.rs:142-163 | a node whose active file can be neither replaced nor retired stays so over any later run |
| `ArchiveProperties.StuckRefuses` | archive/rust/src/state/original_power.rs:255-294 | every later save and retirement of such a node is refused |
| `ArchiveProperties.RetireLeavesStuck` | archive/rust/src/state/original_power.rs:283-294 | a retirement leaves the node stuck if and only if it ends between link and removal |
| `ArchiveProperties.SaveLeavesStuck` | archive/rust/src/state/original_power.rs:147-163 | a save that leaves its file behind leaves the node stuck if and only if what it wrote is unreadable or its archive name is taken |
| `ArchiveProperties.SaveStoppedBeforeWriting` | archive/rust/src/state/original_power.rs:147-152 | a save stopped before writing leaves an empty file and the node stuck |
| `ArchiveProperties.InspectionIsExact` | archive/rust/src/state/original_power.rs:369-418 | after any run from an empty directory, inspecting the archive fails if and only if an entry of another node has a name that starts like the node's, and otherwise counts the node's entries |
| `ArchiveProperties.DottedNodesAreMisread` | archive/rust/src/state/original_power.rs:381-405 | an archived snapshot of another node makes the inspection fail if and only if that node is this one, a dot and something more, or this one is that node, a dot and the capture second |
| `ArchiveProperties.InspectionCanFail` | archive/rust/src/state/original_power.rs:369-405 | saving and retiring a snapshot of a node "a.b" on an empty disk makes inspecting the archive of "a" fail |
| `ArchiveProperties.ArchiveStaysSound` | archive/rust/src/state/original_power.rs:255-294 | over any run archive entries stay readable and named after what they hold |
| `ArchiveReports.SavedExactly` | archive/rust/src/state/original_power.rs:142-163 | a save succeeds if and only if the state is valid, its name is free and all is written; otherwise the first of these that fails is the error |
| `ArchiveReports.SavedDisk` | archive/rust/src/state/original_power.rs:142-163 | what a save leaves: nothing new after a refusal, the whole text in a new file after a success, and after a failed write its beginning unless the file was removed |
| `ArchiveReports.LoadedExactly` | archive/rust/src/state/original_power.rs:210-222 | a load gives what the file of the node holds if that decodes and names the node, and otherwise says why not |
| `ArchiveReports.RetiredExactly` | archive/rust/src/state/original_power.rs:255-294 | a retirement succeeds if and only if the snapshot loads, its archive name is free and no call fails; otherwise the first of these is the error |
| `ArchiveReports.RetiredDisk` | archive/rust/src/state/original_power.rs:255-294 | what a retirement leaves: the archive gains the name if and only if it was free and the link was made, the active name is gone if and only if the archive was synchronised and the removal worked, and no bytes change |
| `ArchiveReports.VerdictExactly` | archive/rust/src/state/original_power.rs:381-405 | an archive entry counts if and only if its name starts with the node and a dot and ends in ".original-power-state", and it decodes, names the node and is named after its capture second; other names are passed over, and other contents are errors |
| `Archive.OriginalPowerStateStore.Save` | archive/rust/src/state/original_power.rs:142-163 | result, and the disk after each system call: exclusive creation, writing, removal after a failed write |
| `Archive.OriginalPowerStateStore.Retire` | archive/rust/src/state/original_power.rs:255-294 | result, and the disk after each system call: link into the archive unless the name is taken, then removal |
| `Archive.OriginalPowerStateStore.InspectArchive` | archive/rust/src/state/original_power.rs:369-418 | the loop counts the entries that belong to the node and stops at the first inconsistent one |

## Left out

- DriverProperties.ApplyIsTransactional: asks for at most one action per file and for CPU directories in sorted order without repetition, as the planner and the directory listing give them.
- Runs.RunsStayRecoverable: crashes, and rollbacks that do not complete, are admitted with all-or-nothing writes and exactly where they keep the host recoverable; elsewhere the property is false (`Limits.StoppedRestoreRetiresEarly`, `Limits.IncompleteRollbackLosesTheLead`). A run that ends with complete rollbacks needs only that a raising write changes nothing.
- Runs.RunsWithoutCrash: assumes clean driver failures, that is, raising writes that change nothing and complete rollbacks; `Limits.TornWriteIsMissed` and `Limits.IncompleteRollbackLosesTheLead` show what happens otherwise.
- Recovery.OneCpuIsAlwaysRestored: asks for all-or-nothing writes during the run, since a write that stores another value leaves a file that no plan expects.
- Recovery.RestoreAfterAnyRun: the last restore meets no fault and a snapshot without unknown values; with an unknown value it is blocked, as `Recovery.RestoreIsBlockedExactly` says.
- Calibration.Fit: the residual deviation is represented by its square, which is the squared error over the samples less two; the square root is not taken, and `estimate` is modelled without its confidence and uncertainty fields.
- Calibration.FitCalibration: samples are real numbers, so the refusal of values that are not finite does not arise, and floating-point rounding is not modelled.
- Rapl.RaplPower: a domain's readings come as a list in the order of the dictionary; the labels of a power reading (source, confidence, time) are not modelled.
- Observer.ObserverDb.Watch: the stop signal is the end of the list of attempts that can be made before it is seen; waiting is not modelled, and neither is a failure of recording an observer error, which ends the source's loop with an exception.
- Observer.ObserverDb.Observe: the interval is a real number, so the refusal of an infinite interval does not arise.
- Audit.HeadFixesHistory: the hash is any injective function that is never GENESIS; SHA-256 and the JSON text of the payload are not modelled, and recording times are integers.
- Driver.LinuxCpufreqDriver.Apply: contents of a file are a name or a number of kilohertz rather than text, so two texts of one number are the same contents; the `confirmed` flag of the constructor is not modelled.
- RestDriver.LinuxRestDriver.ApplyPlan: frequencies are real numbers, so rounding of 32-bit floats, and the refusal of those that are not finite, are not modelled; writing never creates a missing file.
- StateFileProperties.RoundTrip: printing and reading of 32-bit floats is any pair of functions that read each finite float back from its text and print it on one line; the shortest decimal text that the source prints is not computed, and the two zeros, neither of them valid, are one value.
- AuditText.FileAuditSink.Record: a write that fails part-way, and the checks of the log file before it, are not modelled.
- Archive.OriginalPowerStateStore.Save: file modes, ownership and the creation of the two directories are not modelled, and a crash loses no system call that has returned.
- The safety guard (`src/nordfir/guards.py`) is an arbitrary set of reasons that may replace a plan; the Rust guards, authority and engine are left out as case analysis without state.
- Reading the hardware, `/proc` and sensors is left out: a snapshot is any one that agrees with cpu0's files where a value is known.
- The command line, printing, signal handling, preflight, deployment checks, sockets and receipts are left out: argument handling and flat checks.
- `power_report`, the Rust estimate and the Rust plan of a REST transition are left out: short branches, or arithmetic already covered by `Decide`.
- SQLite is a list of rows with a lock, a unique index and transactions; schema upgrades are left out.
- Wall-clock times are parameters.
