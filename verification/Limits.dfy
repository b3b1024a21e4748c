/** Runs that show the limits: inputs on which a claim fails outside its condition. */
module Limits {
  import opened Wrappers
  import opened Host
  import opened Model
  import opened State
  import opened Plan
  import opened Decide
  import opened Driver
  import opened DriverProperties
  import opened StoppedDriver
  import opened Engine
  import opened Lifecycle
  import opened Runs
  import opened Recovery
  import opened Divergence

  // ----- A single plan

  const SLOW := Name("powersave")
  const FAST := Name("performance")
  const TWO := ["cpu0", "cpu1"]
  const FINE := Io(Takes, false)

  function Governors(first: Value, second: Value): Files {
    map[Path("cpu0", Governor) := first, Path("cpu1", Governor) := second]
  }

  function GovernorCells(expected: Value, target: Value): seq<Cell> {
    [Cell(Path("cpu0", Governor), expected, target), Cell(Path("cpu1", Governor), expected, target)]
  }

  function GovernorPlan(from: string, to: string): ChangePlan {
    ChangePlan("node", [SetGovernor(from, to)], [], [])
  }

  lemma GovernorPlanCells(from: string, to: string)
    ensures PlanCells(GovernorPlan(from, to).actions, TWO) == GovernorCells(Name(from), Name(to))
  {
    var steps := StepsOf(GovernorPlan(from, to).actions);
    assert steps == [Step(Governor, Name(from), Name(to))];
    assert Cells(steps[1..], TWO) == [];
    assert StepCells(steps[0], TWO) == GovernorCells(Name(from), Name(to));
  }

  /** Both reads of the drift check are fine. */
  lemma NoDrift(env: Env, from: string, to: string)
    requires Next(env, 0) == FINE && Next(env, 1) == FINE
    ensures
      var w := World(Governors(Name(from), Name(from)), 0, [Governors(Name(from), Name(from))]);
      CheckDrift(env, w, GovernorCells(Name(from), Name(to)), 0) == (w.(tick := 2), None)
  {
    var cells := GovernorCells(Name(from), Name(to));
    var w := World(Governors(Name(from), Name(from)), 0, [Governors(Name(from), Name(from))]);
    assert CheckDrift(env, w, cells, 0) == CheckDrift(env, w.(tick := 1), cells, 1);
    assert CheckDrift(env, w.(tick := 1), cells, 1) == CheckDrift(env, w.(tick := 2), cells, 2);
  }

  /**
   A write that raises after it took effect is not rolled back: the result says that
   nothing was applied and the rollback complete, and yet cpu0 has changed.
   */
  lemma TornWriteIsMissed()
    ensures
      var env := [FINE, FINE, Io(Raises(Some(SLOW)), false)];
      var w := World(Governors(FAST, FAST), 0, [Governors(FAST, FAST)]);
      var (w', r) := ApplyPlan(env, TWO, w, GovernorPlan("performance", "powersave"));
      && r.Ok? && !r.value.applied && r.value.rolledBack && w'.files == Governors(SLOW, FAST)
      && LeftTorn(env, TWO, w, GovernorPlan("performance", "powersave").actions)
  {
    var env := [FINE, FINE, Io(Raises(Some(SLOW)), false)];
    var w := World(Governors(FAST, FAST), 0, [Governors(FAST, FAST)]);
    var cells := GovernorCells(FAST, SLOW);
    GovernorPlanCells("performance", "powersave");
    NoDrift(env, "performance", "powersave");
    var forward := WriteCells(env, w.(tick := 2), cells, 0);
    assert forward.done == 0 && forward.failure == Some(WriteRaised(cells[0].path));
    assert forward.w.files == Governors(SLOW, FAST);
  }

  /**
   A rollback write that is ignored leaves cpu1 lowered and cpu0 not; the result reports
   the stuck file.
   */
  lemma IncompleteRollbackLosesTheLead()
    ensures
      var env := [FINE, FINE, FINE, FINE, FINE, Io(Takes, true), Io(Keeps, false)];
      var w := World(Governors(FAST, FAST), 0, [Governors(FAST, FAST)]);
      var (w', r) := ApplyPlan(env, TWO, w, GovernorPlan("performance", "powersave"));
      && r.Ok? && r.value.applied && !r.value.rolledBack
      && r.value.error == Some(Failed(NotTaken(Path("cpu1", Governor), SLOW), [Path("cpu1", Governor)]))
      && w'.files == Governors(FAST, SLOW)
  {
    var env := [FINE, FINE, FINE, FINE, FINE, Io(Takes, true), Io(Keeps, false)];
    var w := World(Governors(FAST, FAST), 0, [Governors(FAST, FAST)]);
    var cells := GovernorCells(FAST, SLOW);
    GovernorPlanCells("performance", "powersave");
    NoDrift(env, "performance", "powersave");
    var (w1, report1) := PutValue(env, w.(tick := 2), cells[0].path, SLOW);
    assert w1.files == Governors(SLOW, FAST) && report1.Verified? && w1.tick == 4;
    var (w2, report2) := PutValue(env, w1, cells[1].path, SLOW);
    assert w2.files == Governors(SLOW, SLOW) && report2.Untaken? && w2.tick == 6;
    assert WriteCells(env, w1, cells, 1) == Forward(w2, 2, Some(NotTaken(cells[1].path, SLOW)));
    var (w3, report3) := PutValue(env, w2, cells[1].path, FAST);
    assert w3.files == Governors(SLOW, SLOW) && report3.Untaken? && w3.tick == 8;
    var (w4, report4) := PutValue(env, w3, cells[0].path, FAST);
    assert w4.files == Governors(FAST, SLOW) && report4.Verified?;
    var none: seq<Path> := [];
    assert none + none == none && [cells[1].path] + none == [cells[1].path];
    assert UndoCells(env, w4, cells, 0) == (w4, none);
    assert UndoCells(env, w3, cells, 1) == (w4, []);
    assert UndoCells(env, w2, cells, 2) == (w4, [cells[1].path]);
  }

  // ----- A run that loses the record

  /** Two CPUs whose ceiling is at its REST target already, with the given governors. */
  function TwoCpus(first: Value, second: Value): Files {
    map[Path("cpu0", Governor) := first, Path("cpu1", Governor) := second,
        Path("cpu0", ScalingMax) := Khz(400), Path("cpu1", ScalingMax) := Khz(400),
        Path("cpu0", ScalingMin) := Khz(100), Path("cpu1", ScalingMin) := Khz(100),
        Path("cpu0", HardwareMin) := Khz(100), Path("cpu1", HardwareMin) := Khz(100),
        Path("cpu0", HardwareMax) := Khz(1000), Path("cpu1", HardwareMax) := Khz(1000)]
  }

  function Seen(governor: string): Snapshot {
    Snapshot(0, "node", true,
             CpuFreq(Some(governor), ["performance", "powersave"], Some(100), Some(1000), Some(100), Some(400)))
  }

  lemma SeenShows(governor: string, second: Value)
    ensures Shows(Seen(governor), TWO, TwoCpus(Name(governor), second))
  {
    assert TWO[0] == CPU0;
  }

  const SAVED := OriginalState("node", 0, "performance", 100, 400, 100, 1000)

  /** What the planners make of these snapshots. */
  lemma SeenPlans()
    ensures OriginalFrom(Seen("performance")) == Ok(SAVED)
    ensures PlanChanges(Seen("performance"), DesiredState(Seen("performance"), Economize), Some(SAVED))
             == GovernorPlan("performance", "powersave")
    ensures PlanRestore(Seen("powersave"), Some(SAVED)) == GovernorPlan("powersave", "performance")
    ensures PlanRestore(Seen("performance"), Some(SAVED)) == ChangePlan("node", [], [], [])
  {
    assert REST_GOVERNOR in Seen("performance").cpu.availableGovernors by {
      assert Seen("performance").cpu.availableGovernors[1] == REST_GOVERNOR;
    }
  }

  lemma LoadSaved()
    ensures OneActive([Row(SAVED, None)]) && Load([Row(SAVED, None)], "node") == Some(SAVED)
  {
    LoadIsTheActiveRecord([Row(SAVED, None)], 0);
  }

  lemma OneGovernorWritten(first: Value, second: Value, value: Value)
    ensures TwoCpus(first, second)[Path("cpu0", Governor) := value] == TwoCpus(value, second)
    ensures TwoCpus(first, second)[Path("cpu1", Governor) := value] == TwoCpus(first, value)
  {
  }

  /** A write of a governor without faults. */
  lemma GovernorIsPut(w: World, cpu: string, value: Value)
    requires Path(cpu, Governor) in w.files
    ensures
      var (w', report) := PutValue([], w, Path(cpu, Governor), value);
      && report.Verified? && w'.files == w.files[Path(cpu, Governor) := value]
      && w'.history == w.history + [w'.files]
  {
  }

  lemma GovernorsAreUnchanged(from: string, to: string, w: World)
    requires w.files == TwoCpus(Name(from), Name(from))
    ensures CheckDrift([], w, GovernorCells(Name(from), Name(to)), 0) == (w.(tick := w.tick + 2), None)
  {
    var cells := GovernorCells(Name(from), Name(to));
    assert CheckDrift([], w, cells, 0) == CheckDrift([], w.(tick := w.tick + 1), cells, 1);
    assert CheckDrift([], w.(tick := w.tick + 1), cells, 1) == CheckDrift([], w.(tick := w.tick + 2), cells, 2);
  }

  lemma GovernorCellsAreWritten(from: string, to: string, w: World)
    requires w.files == TwoCpus(Name(from), Name(from))
    ensures
      var forward := WriteCells([], w, GovernorCells(Name(from), Name(to)), 0);
      && forward.failure.None? && forward.w.files == TwoCpus(Name(to), Name(to))
      && forward.w.history == w.history + [TwoCpus(Name(to), Name(from))] + [TwoCpus(Name(to), Name(to))]
  {
    var cells := GovernorCells(Name(from), Name(to));
    OneGovernorWritten(Name(from), Name(from), Name(to));
    OneGovernorWritten(Name(to), Name(from), Name(to));
    GovernorIsPut(w, "cpu0", Name(to));
    var w1 := PutValue([], w, cells[0].path, Name(to)).0;
    GovernorIsPut(w1, "cpu1", Name(to));
    var w2 := PutValue([], w1, cells[1].path, Name(to)).0;
    assert WriteCells([], w, cells, 0) == WriteCells([], w1, cells, 1);
    assert WriteCells([], w1, cells, 1) == WriteCells([], w2, cells, 2);
  }

  /** Writing the governors of two CPUs without faults: the states passed through. */
  lemma GovernorsAreWritten(from: string, to: string, w: World)
    requires w.files == TwoCpus(Name(from), Name(from)) && w.history == [w.files]
    ensures
      var (w', r) := ApplyPlan([], TWO, w, GovernorPlan(from, to));
      && r.Ok? && r.value.error.None? && r.value.applied
      && w'.files == TwoCpus(Name(to), Name(to))
      && |w'.history| == 3 && w'.history[1] == TwoCpus(Name(to), Name(from))
  {
    GovernorPlanCells(from, to);
    GovernorsAreUnchanged(from, to, w);
    GovernorCellsAreWritten(from, to, w.(tick := w.tick + 2));
  }

  /** The driver is stopped after the first of these writes. */
  lemma GovernorsAreHalfWritten(from: string, to: string, w: World)
    requires w.files == TwoCpus(Name(from), Name(from)) && w.history == [w.files]
    ensures StoppedFiles([], TWO, w, GovernorPlan(from, to), 1) == TwoCpus(Name(to), Name(from))
  {
    GovernorsAreWritten(from, to, w);
  }

  lemma StoppedRestore(policies: seq<string>, s: Sys, snapshot: Snapshot, plan: ChangePlan, env: Env, at: nat)
    requires plan == PlanRestore(snapshot, Load(s.rows, snapshot.node)) && !plan.Blocked()
    ensures
      Is(Do(policies, s, RestoreStopped(snapshot, env, at)),
         StoppedFiles(env, policies, At(s, s.w.files).w, plan, at), s.rows)
  {
  }

  lemma StoppedApply(policies: seq<string>, s: Sys, snapshot: Snapshot, plan: ChangePlan, env: Env, at: nat)
    requires plan == ApplyCommandPlan(s, snapshot, Economize, [], []) && !plan.Blocked()
    ensures
      Is(Do(policies, s, ApplyStopped(snapshot, Economize, [], [], env, at)),
         StoppedFiles(env, policies, At(s, s.w.files).w, plan, at), s.rows)
  {
  }

  const SAVING := SaveOriginal(Seen("performance"))
  const APPLYING := Command.ApplyIntent(LinuxKind, Seen("performance"), Economize, [], [], [])
  const STOPPING := RestoreStopped(Seen("powersave"), [], 1)
  const RESTORING := Command.RestoreOriginal(LinuxKind, Seen("performance"), 0, [])

  predicate Is(s: Sys, files: Files, rows: seq<Row>) { s.w.files == files && s.rows == rows }

  lemma SavingStep(s: Sys)
    requires Is(s, TwoCpus(FAST, FAST), [])
    ensures Is(Do(TWO, s, SAVING), TwoCpus(FAST, FAST), [Row(SAVED, None)])
  {
    SeenPlans();
  }

  lemma ApplyingStep(s: Sys)
    requires Is(s, TwoCpus(FAST, FAST), [Row(SAVED, None)])
    ensures Is(Do(TWO, s, APPLYING), TwoCpus(SLOW, SLOW), [Row(SAVED, None)])
  {
    SeenPlans();
    LoadSaved();
    GovernorsAreWritten("performance", "powersave", At(s, s.w.files).w);
  }

  /** The restore is stopped after its first write, which was cpu0's. */
  lemma StoppingStep(s: Sys)
    requires Is(s, TwoCpus(SLOW, SLOW), [Row(SAVED, None)])
    ensures Is(Do(TWO, s, STOPPING), TwoCpus(FAST, SLOW), [Row(SAVED, None)])
  {
    SeenPlans();
    LoadSaved();
    GovernorsAreHalfWritten("powersave", "performance", At(s, s.w.files).w);
    StoppedRestore(TWO, s, Seen("powersave"), GovernorPlan("powersave", "performance"), [], 1);
  }

  /** Seeing only cpu0, the next restore plans nothing and retires the record. */
  lemma RestoringStep(s: Sys)
    requires Is(s, TwoCpus(FAST, SLOW), [Row(SAVED, None)])
    ensures Is(Do(TWO, s, RESTORING), TwoCpus(FAST, SLOW), Retired([Row(SAVED, None)], "node", 0))
  {
    SeenPlans();
    LoadSaved();
  }

  /** One more command at the end of a run. */
  lemma {:induction false} RunOneMore(policies: seq<string>, s: Sys, commands: seq<Command>, c: Command)
    ensures Run(policies, s, commands + [c]) == Do(policies, Run(policies, s, commands), c)
    decreases |commands|
  {
    var all := commands + [c];
    if commands == [] {
      assert all[0] == c && all[1..] == [];
    } else {
      assert all[0] == commands[0] && all[1..] == commands[1..] + [c];
      RunOneMore(policies, Do(policies, s, commands[0]), commands[1..], c);
    }
  }

  const UNTIL_THE_STOP := [SAVING] + [APPLYING] + [STOPPING]

  /** Save, apply, and the stopped restore. */
  lemma RestoreStopsAfterCpu0(s: Sys)
    requires Is(s, TwoCpus(FAST, FAST), [])
    ensures Is(Run(TWO, s, UNTIL_THE_STOP), TwoCpus(FAST, SLOW), [Row(SAVED, None)])
  {
    var none: seq<Command> := [];
    assert none + [SAVING] == [SAVING];
    RunOneMore(TWO, s, none, SAVING);
    RunOneMore(TWO, s, [SAVING], APPLYING);
    RunOneMore(TWO, s, [SAVING] + [APPLYING], STOPPING);
    SavingStep(s);
    ApplyingStep(Do(TWO, s, SAVING));
    StoppingStep(Do(TWO, Do(TWO, s, SAVING), APPLYING));
  }

  lemma {:induction false} ShownOneMore(policies: seq<string>, node: string, s: Sys, commands: seq<Command>, c: Command)
    requires ShownRun(policies, node, s, commands) && Shown(policies, node, Run(policies, s, commands), c)
    ensures ShownRun(policies, node, s, commands + [c])
    decreases |commands|
  {
    var all := commands + [c];
    if commands == [] {
      assert all[0] == c && all[1..] == [];
    } else {
      assert all[0] == commands[0] && all[1..] == commands[1..] + [c];
      ShownOneMore(policies, node, Do(policies, s, commands[0]), commands[1..], c);
    }
  }

  /** Each snapshot of the run shows what cpu0's files hold by then. */
  lemma SnapshotsAreShown(s: Sys)
    requires Is(s, TwoCpus(FAST, FAST), [])
    ensures ShownRun(TWO, "node", s, UNTIL_THE_STOP + [RESTORING])
  {
    var none: seq<Command> := [];
    assert none + [SAVING] == [SAVING];
    SeenShows("performance", FAST);
    SeenShows("powersave", SLOW);
    SeenShows("performance", SLOW);
    SavingStep(s);
    ApplyingStep(Do(TWO, s, SAVING));
    RunOneMore(TWO, s, none, SAVING);
    RunOneMore(TWO, s, [SAVING], APPLYING);
    RestoreStopsAfterCpu0(s);
    ShownOneMore(TWO, "node", s, none, SAVING);
    ShownOneMore(TWO, "node", s, [SAVING], APPLYING);
    ShownOneMore(TWO, "node", s, [SAVING] + [APPLYING], STOPPING);
    ShownOneMore(TWO, "node", s, UNTIL_THE_STOP, RESTORING);
  }

  /**
   On a host without a fault, a restore stopped after it wrote cpu0 is followed by one that
   plans nothing and retires the record, with cpu1 still at REST.  Every snapshot of the run
   shows what cpu0's files hold.
   */
  lemma StoppedRestoreRetiresEarly(s: Sys)
    requires Is(s, TwoCpus(FAST, FAST), [])
    ensures ShownRun(TWO, "node", s, UNTIL_THE_STOP + [RESTORING])
    ensures
      var end := Run(TWO, s, UNTIL_THE_STOP + [RESTORING]);
      && Load(end.rows, "node").None? && end.w.files == TwoCpus(FAST, SLOW)
      && !AllCpusOriginal(SAVED, TWO, end.w.files)
  {
    SnapshotsAreShown(s);
    RestoreStopsAfterCpu0(s);
    RunOneMore(TWO, s, UNTIL_THE_STOP, RESTORING);
    RestoringStep(Run(TWO, s, UNTIL_THE_STOP));
    LoadSaved();
    RetiringFreesTheNode([Row(SAVED, None)], "node", 0);
    OneCpuIsLeft();
  }

  lemma OneCpuIsLeft()
    ensures !AllCpusOriginal(SAVED, TWO, TwoCpus(FAST, SLOW))
  {
    assert "cpu1" in TWO by { assert TWO[1] == "cpu1"; }
    assert OriginalValue(SAVED, Governor) == FAST;
    assert TwoCpus(FAST, SLOW)[Path("cpu1", Governor)] == SLOW;
  }

  // ----- A crash that makes recovery impossible

  const CRASHING := ApplyStopped(Seen("performance"), Economize, [], [], [], 1)

  /** The apply is stopped after its first write, which was cpu0's. */
  lemma CrashingStep(s: Sys)
    requires Is(s, TwoCpus(FAST, FAST), [Row(SAVED, None)])
    ensures Is(Do(TWO, s, CRASHING), TwoCpus(SLOW, FAST), [Row(SAVED, None)])
  {
    SeenPlans();
    LoadSaved();
    GovernorsAreHalfWritten("performance", "powersave", At(s, s.w.files).w);
    StoppedApply(TWO, s, Seen("performance"), GovernorPlan("performance", "powersave"), [], 1);
  }

  /** The governor is lost once an apply stops after cpu0: no later run puts it back, or retires the record. */
  lemma CrashLosesTheGovernor(s: Sys, commands: seq<Command>)
    requires Is(s, TwoCpus(FAST, FAST), [])
    requires ShownRun(TWO, "node", Do(TWO, Do(TWO, s, SAVING), CRASHING), commands)
    ensures
      var end := Run(TWO, Do(TWO, Do(TWO, s, SAVING), CRASHING), commands);
      && Load(end.rows, "node") == Some(SAVED)
      && Holds(end.w.files, Path("cpu0", Governor), SLOW) && Holds(end.w.files, Path("cpu1", Governor), FAST)
  {
    SavingStep(s);
    CrashingStep(Do(TWO, s, SAVING));
    var crashed := Do(TWO, Do(TWO, s, SAVING), CRASHING);
    LoadSaved();
    TwoIsAPolicyList();
    GovernorDiffers(SLOW, FAST);
    assert OriginalValue(SAVED, Governor) == FAST;
    RecoveryIsLostForGood(TWO, "node", crashed, commands, SAVED, Governor, "cpu1");
  }

  lemma GovernorDiffers(first: Value, second: Value)
    requires first != second
    ensures Differs(TwoCpus(first, second), TWO, Governor, "cpu1")
    ensures TwoCpus(first, second)[Path("cpu0", Governor)] == first
             && TwoCpus(first, second)[Path("cpu1", Governor)] == second
  {
    assert TWO[0] == CPU0 && TWO[1] == "cpu1";
  }

  lemma TwoIsAPolicyList()
    ensures IsPolicyList(TWO)
  {
    assert Before("cpu0"[1..][1..][1..], "cpu1"[1..][1..][1..]);
    assert Before("cpu0"[1..][1..], "cpu1"[1..][1..]);
    assert Before("cpu0"[1..], "cpu1"[1..]);
    assert Before("cpu0", "cpu1");
  }

  // ----- An apply that does not reach REST on all CPUs

  /** cpu0's governor is at its REST target already, cpu1's is not. */
  function Mixed(ceiling: int): Files {
    TwoCpus(SLOW, FAST)[Path("cpu0", ScalingMax) := Khz(ceiling)][Path("cpu1", ScalingMax) := Khz(ceiling)]
  }

  const HIGH := Snapshot(
    0, "node", true,
    CpuFreq(Some("powersave"), ["performance", "powersave"], Some(100), Some(1000), Some(100), Some(1000)))
  const HIGH_SAVED := OriginalState("node", 0, "powersave", 100, 1000, 100, 1000)
  const CEILING_PLAN := ChangePlan("node", [SetScalingMax(1000, 400)], [], [])
  const SAVING_HIGH := SaveOriginal(HIGH)
  const APPLYING_HIGH := Command.ApplyIntent(LinuxKind, HIGH, Economize, [], [], [])

  lemma HighPlans()
    ensures OriginalFrom(HIGH) == Ok(HIGH_SAVED)
    ensures PlanChanges(HIGH, DesiredState(HIGH, Economize), Some(HIGH_SAVED)) == CEILING_PLAN
    ensures Shows(HIGH, TWO, Mixed(1000))
  {
    assert TWO[0] == CPU0;
    assert REST_GOVERNOR in HIGH.cpu.availableGovernors by { assert HIGH.cpu.availableGovernors[1] == REST_GOVERNOR; }
  }

  lemma LoadHighSaved()
    ensures OneActive([Row(HIGH_SAVED, None)]) && Load([Row(HIGH_SAVED, None)], "node") == Some(HIGH_SAVED)
  {
    LoadIsTheActiveRecord([Row(HIGH_SAVED, None)], 0);
  }

  lemma MixedHolds(ceiling: int)
    ensures
      var files := Mixed(ceiling);
      && Holds(files, Path("cpu0", ScalingMax), Khz(ceiling)) && Holds(files, Path("cpu1", ScalingMax), Khz(ceiling))
      && Holds(files, Path("cpu0", Governor), SLOW) && Holds(files, Path("cpu1", Governor), FAST)
  {
  }

  lemma CeilingsAreWritten(w: World)
    requires Holds(w.files, Path("cpu0", ScalingMax), Khz(1000)) && Holds(w.files, Path("cpu1", ScalingMax), Khz(1000))
    requires Holds(w.files, Path("cpu0", Governor), SLOW) && Holds(w.files, Path("cpu1", Governor), FAST)
    ensures
      var (w', r) := ApplyPlan([], TWO, w, CEILING_PLAN);
      && r.Ok? && r.value.error.None?
      && Holds(w'.files, Path("cpu0", ScalingMax), Khz(400)) && Holds(w'.files, Path("cpu1", ScalingMax), Khz(400))
      && Holds(w'.files, Path("cpu0", Governor), SLOW) && Holds(w'.files, Path("cpu1", Governor), FAST)
  {
    TwoIsAPolicyList();
    var actions := CEILING_PLAN.actions;
    assert TWO[0] == "cpu0" && TWO[1] == "cpu1" && StepOf(actions[0]) == Step(ScalingMax, Khz(1000), Khz(400));
    assert ExpectedHold(actions, TWO, w.files);
    FaultlessApplySucceeds([], TWO, w, CEILING_PLAN);
    ApplyIsTransactional([], TWO, w, CEILING_PLAN);
    assert "cpu0" in TWO && "cpu1" in TWO;
    assert !Planned(actions, TWO, Path("cpu0", Governor)) && !Planned(actions, TWO, Path("cpu1", Governor));
  }

  lemma SavingHighStep(s: Sys)
    requires Is(s, Mixed(1000), [])
    ensures Is(Do(TWO, s, SAVING_HIGH), Mixed(1000), [Row(HIGH_SAVED, None)])
  {
    HighPlans();
  }

  lemma ApplyingHighStep(s: Sys)
    requires Is(s, Mixed(1000), [Row(HIGH_SAVED, None)])
    ensures Undisturbed(TWO, "node", s, APPLYING_HIGH)
    ensures
      var files := Do(TWO, s, APPLYING_HIGH).w.files;
      && Holds(files, Path("cpu0", ScalingMax), Khz(400)) && Holds(files, Path("cpu1", ScalingMax), Khz(400))
      && Holds(files, Path("cpu0", Governor), SLOW) && Holds(files, Path("cpu1", Governor), FAST)
  {
    HighPlans();
    LoadHighSaved();
    MixedHolds(1000);
    CeilingsAreWritten(At(s, s.w.files).w);
  }

  lemma GovernorStartsElsewhere()
    ensures !OthersStartAtRest(Mixed(1000), TWO)
  {
    assert "cpu1" in TWO by { assert TWO[1] == "cpu1"; }
    assert RestTarget(Mixed(1000), Governor) == Some(SLOW) == Some(Mixed(1000)[Cpu0(Governor)]);
    assert !Holds(Mixed(1000), Path("cpu1", Governor), SLOW);
  }

  lemma RunOfTwo(policies: seq<string>, node: string, s: Sys, first: Command, second: Command)
    requires Undisturbed(policies, node, s, first) && Undisturbed(policies, node, Do(policies, s, first), second)
    ensures UndisturbedRun(policies, node, s, [first] + [second])
    ensures Run(policies, s, [first] + [second]) == Do(policies, Do(policies, s, first), second)
  {
    var both, last := [first] + [second], [second];
    assert both[0] == first && both[1..] == last && last[1..] == [];
    assert UndisturbedRun(policies, node, Do(policies, s, first), last);
    assert Run(policies, Do(policies, s, first), last) == Do(policies, Do(policies, s, first), second);
  }

  /**
   Saved and applied without a fault, the ceilings are lowered on both CPUs, and cpu1 keeps
   its governor: REST is not reached on all CPUs.
   */
  lemma ApplyMissesAGovernor(s: Sys)
    requires Is(s, Mixed(1000), [])
    ensures UndisturbedRun(TWO, "node", s, [SAVING_HIGH] + [APPLYING_HIGH])
    ensures
      var files := Run(TWO, s, [SAVING_HIGH] + [APPLYING_HIGH]).w.files;
      && Holds(files, Path("cpu0", ScalingMax), Khz(400)) && Holds(files, Path("cpu1", ScalingMax), Khz(400))
      && Holds(files, Path("cpu1", Governor), FAST) && !RestEverywhere(Mixed(1000), files, TWO)
  {
    HighPlans();
    SavingHighStep(s);
    ApplyingHighStep(Do(TWO, s, SAVING_HIGH));
    RunOfTwo(TWO, "node", s, SAVING_HIGH, APPLYING_HIGH);
    MixedHolds(1000);
    TwoIsAPolicyList();
    RunsWithoutCrash(Mixed(1000), TWO, "node", s, [SAVING_HIGH] + [APPLYING_HIGH]);
    GovernorStartsElsewhere();
  }
}
