/**
 The states in which a crash can leave the host: which planned files hold their targets
 after each write of the driver, and after each write of its rollback.
 */
module StoppedDriver {
  import opened Arithmetic
  import opened Host
  import opened Plan
  import opened Driver
  import opened DriverProperties

  // ----- The course of a run

  /** Every cell is at its expected or its target value, and no other file differs. */
  ghost predicate AtEither(before: Files, files: Files, cells: seq<Cell>) {
    && OnlyCells(before, files, cells, 0, |cells|)
    && forall c :: 0 <= c < |cells| ==>
         cells[c].path in files
             && (files[cells[c].path] == cells[c].expected || files[cells[c].path] == cells[c].target)
  }

  /**
   What the environment let a run of the write loops do: the writes attempted, how many of
   them took effect, how many are written back, and which of those rollback writes took.
   */
  datatype Course = Course(attempted: nat, taken: nat, done: nat, took: seq<bool>)

  /** The first cells whose writes took effect. */
  function Taken(env: Env, w: World, cells: seq<Cell>, i: nat): (n: nat)
    requires i <= |cells|
    ensures i <= n <= |cells|
    decreases |cells| - i
  {
    if i == |cells| then i
    else
      var (w1, report) := PutValue(env, w, cells[i].path, cells[i].target);
      if report.Verified? then Taken(env, w1, cells, i + 1)
      else if Next(env, w.tick).write.Takes? then i + 1
      else i
  }

  /** Which writes of a rollback of `k` cells take effect; the last cell is the first to be written. */
  function UndoTakes(env: Env, tick: nat, k: nat): (took: seq<bool>)
    ensures |took| == k
    decreases k
  {
    if k == 0 then []
    else
      var write := Next(env, tick).write;
      UndoTakes(env, if write.Raises? then tick + 1 else tick + 2, k - 1) + [write.Takes?]
  }

  function CourseOf(env: Env, w: World, cells: seq<Cell>): (course: Course)
    ensures |course.took| == course.done
  {
    var forward := WriteCells(env, w, cells, 0);
    var done := if forward.failure.Some? then forward.done else 0;
    Course(Attempted(forward), Taken(env, w, cells, 0), done, UndoTakes(env, forward.w.tick, done))
  }

  /** The writes that a run makes in all. */
  function WritesOf(course: Course): nat { course.attempted + course.done }

  /** After `at` writes of the run, cell `c` has been written back. */
  predicate UndoneBy(course: Course, at: nat, c: nat)
    requires |course.took| == course.done
  {
    c < course.done && WritesOf(course) <= at + c && course.took[c]
  }

  /** After `at` writes of the run, cell `c` has been written and not been written back. */
  predicate MovedBy(course: Course, at: nat, c: nat)
    requires |course.took| == course.done
  {
    c < at && c < course.taken && !UndoneBy(course, at, c)
  }

  /** The files after `at` writes of the run. */
  ghost predicate IsStateAt(before: Files, files: Files, cells: seq<Cell>, course: Course, at: nat)
    requires |course.took| == course.done
  {
    && OnlyCells(before, files, cells, 0, |cells|)
    && forall c :: 0 <= c < |cells| ==>
         && cells[c].path in files
         && files[cells[c].path] == if MovedBy(course, at, c) then cells[c].target else cells[c].expected
  }

  ghost predicate AreStates(before: Files, history: seq<Files>, cells: seq<Cell>, course: Course)
    requires |course.took| == course.done
  {
    history != [] ==>
      var last := |history| - 1;
      AreStates(before, history[..last], cells, course) && IsStateAt(before, history[last], cells, course, last)
  }

  lemma {:induction false} StateAt(before: Files, history: seq<Files>, cells: seq<Cell>, course: Course, at: nat)
    requires |course.took| == course.done && at < |history| && AreStates(before, history, cells, course)
    ensures IsStateAt(before, history[at], cells, course, at)
    decreases |history|
  {
    if at < |history| - 1 { StateAt(before, history[..|history| - 1], cells, course, at); }
  }

  /** The run has made `at` writes, and passed only through the states of its course. */
  ghost predicate Reached(before: Files, w: World, cells: seq<Cell>, course: Course, at: nat)
    requires |course.took| == course.done
  {
    |w.history| == at + 1 && w.files == w.history[at] && AreStates(before, w.history, cells, course)
  }

  /** One all-or-nothing write takes effect exactly when the environment lets it. */
  lemma AtomicPut(env: Env, w: World, path: Path, value: Value)
    requires AllOrNothing(env) && path in w.files
    ensures
      var (w', report) := PutValue(env, w, path, value);
      && w'.files == (if Next(env, w.tick).write.Takes? then w.files[path := value] else w.files)
      && w'.history == w.history + [w'.files]
      && w'.tick == (if Next(env, w.tick).write.Raises? then w.tick + 1 else w.tick + 2)
      && (report.Threw? <==> Next(env, w.tick).write.Raises?)
      && (report.Verified? ==> w'.files[path] == value)
  {
    if w.tick < |env| { assert env[w.tick] in env; }
  }

  /** The state after the write of cell `i`. */
  lemma WriteIsAState(w: World, files: Files, before: Files, cells: seq<Cell>, course: Course, i: nat)
    requires Distinct(cells) && i < |cells| && |course.took| == course.done
    requires i < course.attempted && course.taken >= i
    requires IsStateAt(before, w.files, cells, course, i) && AtExpected(w.files, cells, i, |cells|)
    requires files == w.files || files == w.files[cells[i].path := cells[i].target]
    requires if course.taken > i then files[cells[i].path] == cells[i].target else files == w.files
    ensures IsStateAt(before, files, cells, course, i + 1)
    ensures AtExpected(files, cells, i + 1, |cells|)
  {
  }

  lemma StatesGrow(before: Files, history: seq<Files>, files: Files, cells: seq<Cell>, course: Course)
    requires |course.took| == course.done && AreStates(before, history, cells, course)
    requires IsStateAt(before, files, cells, course, |history|)
    ensures AreStates(before, history + [files], cells, course)
  {
    assert (history + [files])[..|history|] == history;
  }

  /** A write of the forward loop: what it leaves, and whether it counts as taken. */
  lemma OneWrite(env: Env, w: World, before: Files, cells: seq<Cell>, course: Course, i: nat)
    requires AllOrNothing(env) && Distinct(cells) && i < |cells| && |course.took| == course.done
    requires course.taken == Taken(env, w, cells, i) && i < course.attempted
    requires Reached(before, w, cells, course, i)
    requires AtExpected(w.files, cells, i, |cells|)
    ensures
      var w1 := PutValue(env, w, cells[i].path, cells[i].target).0;
      && Reached(before, w1, cells, course, i + 1)
      && AtExpected(w1.files, cells, i + 1, |cells|)
  {
    AtomicPut(env, w, cells[i].path, cells[i].target);
    var w1 := PutValue(env, w, cells[i].path, cells[i].target).0;
    StateAt(before, w.history, cells, course, i);
    WriteIsAState(w, w1.files, before, cells, course, i);
    StatesGrow(before, w.history, w1.files, cells, course);
  }

  lemma {:induction false} AttemptedAndTaken(env: Env, w: World, cells: seq<Cell>, i: nat)
    requires AllOrNothing(env) && i <= |cells| && forall c :: i <= c < |cells| ==> cells[c].path in w.files
    ensures
      var r := WriteCells(env, w, cells, i);
      var taken := Taken(env, w, cells, i);
      && (i < |cells| ==> i < Attempted(r)) && Attempted(r) - 1 <= taken <= Attempted(r)
         && taken <= r.done <= Attempted(r)
    decreases |cells| - i
  {
    if i < |cells| {
      AtomicPut(env, w, cells[i].path, cells[i].target);
      var (w1, report) := PutValue(env, w, cells[i].path, cells[i].target);
      if report.Verified? { AttemptedAndTaken(env, w1, cells, i + 1); }
    }
  }

  /** The forward loop, from cell `i`. */
  lemma {:induction false} WritesFollowTheCourse(env: Env, w: World, before: Files, cells: seq<Cell>, course: Course,
                                                 i: nat)
    requires AllOrNothing(env) && Distinct(cells) && i <= |cells| && |course.took| == course.done
    requires course.taken == Taken(env, w, cells, i) && course.attempted == Attempted(WriteCells(env, w, cells, i))
    requires Reached(before, w, cells, course, i)
    requires AtExpected(w.files, cells, i, |cells|)
    ensures Reached(before, WriteCells(env, w, cells, i).w, cells, course, course.attempted)
    decreases |cells| - i
  {
    if i < |cells| {
      AttemptedAndTaken(env, w, cells, i);
      OneWrite(env, w, before, cells, course, i);
      var (w1, report) := PutValue(env, w, cells[i].path, cells[i].target);
      if report.Verified? { WritesFollowTheCourse(env, w1, before, cells, course, i + 1); }
    }
  }

  /** The state after writing cell `c` back. */
  lemma UndoIsAState(w: World, files: Files, before: Files, cells: seq<Cell>, course: Course, c: nat)
    requires Distinct(cells) && c < course.done <= |cells| && |course.took| == course.done
             && course.taken <= course.attempted
    requires IsStateAt(before, w.files, cells, course, course.attempted + course.done - c - 1)
    requires files == if course.took[c] then w.files[cells[c].path := cells[c].expected] else w.files
    ensures IsStateAt(before, files, cells, course, course.attempted + course.done - c)
  {
    var at := course.attempted + course.done - c - 1;
    forall x | 0 <= x < |cells|
      ensures cells[x].path in files
      ensures files[cells[x].path] == if MovedBy(course, at + 1, x) then cells[x].target else cells[x].expected
    {
      if x != c { assert UndoneBy(course, at, x) == UndoneBy(course, at + 1, x); }
    }
  }

  /** In the rollback, `m` cells are still to be written back after `at` writes of the run. */
  ghost predicate Undoing(env: Env, w: World, before: Files, cells: seq<Cell>, course: Course, m: nat, at: nat) {
    && |course.took| == course.done && m <= course.done <= |cells| && course.taken <= course.attempted
    && course.took[..m] == UndoTakes(env, w.tick, m)
    && at + m == WritesOf(course) && Reached(before, w, cells, course, at)
  }

  /** Whether a write of the rollback takes effect is what the course says. */
  lemma UndoTakesAsTheCourseSays(env: Env, w: World, cells: seq<Cell>, took: seq<bool>, m: nat)
    requires AllOrNothing(env) && 0 < m <= |took| && m <= |cells| && cells[m - 1].path in w.files
    requires took[..m] == UndoTakes(env, w.tick, m)
    ensures
      var w1 := PutValue(env, w, cells[m - 1].path, cells[m - 1].expected).0;
      && w1.files == (if took[m - 1] then w.files[cells[m - 1].path := cells[m - 1].expected] else w.files)
      && w1.history == w.history + [w1.files] && took[..m - 1] == UndoTakes(env, w1.tick, m - 1)
  {
    AtomicPut(env, w, cells[m - 1].path, cells[m - 1].expected);
    assert took[m - 1] == took[..m][m - 1] == Next(env, w.tick).write.Takes?;
    assert took[..m - 1] == took[..m][..m - 1];
  }

  /** A write of the rollback. */
  lemma OneUndo(env: Env, w: World, before: Files, cells: seq<Cell>, course: Course, m: nat, at: nat)
    requires AllOrNothing(env) && Distinct(cells) && m > 0 && Undoing(env, w, before, cells, course, m, at)
    ensures
      var w1 := PutValue(env, w, cells[m - 1].path, cells[m - 1].expected).0;
      Undoing(env, w1, before, cells, course, m - 1, at + 1)
  {
    StateAt(before, w.history, cells, course, at);
    var w1 := PutValue(env, w, cells[m - 1].path, cells[m - 1].expected).0;
    UndoTakesAsTheCourseSays(env, w, cells, course.took, m);
    UndoIsAState(w, w1.files, before, cells, course, m - 1);
    StatesGrow(before, w.history, w1.files, cells, course);
  }

  /** The host after the rollback of the first `m` cells, without the report. */
  function Undone(env: Env, w: World, cells: seq<Cell>, m: nat): World
    requires m <= |cells|
    decreases m
  {
    if m == 0 then w else Undone(env, PutValue(env, w, cells[m - 1].path, cells[m - 1].expected).0, cells, m - 1)
  }

  lemma {:induction false} UndoneIsTheRollback(env: Env, w: World, cells: seq<Cell>, m: nat)
    requires m <= |cells|
    ensures Undone(env, w, cells, m) == UndoCells(env, w, cells, m).0
    decreases m
  {
    if m > 0 { UndoneIsTheRollback(env, PutValue(env, w, cells[m - 1].path, cells[m - 1].expected).0, cells, m - 1); }
  }

  /** The rollback, from the last of the first `m` cells. */
  lemma {:induction false} UndoFollowsTheCourse(env: Env, w: World, before: Files, cells: seq<Cell>, course: Course,
                                                m: nat, at: nat)
    requires AllOrNothing(env) && Distinct(cells) && Undoing(env, w, before, cells, course, m, at)
    ensures Reached(before, Undone(env, w, cells, m), cells, course, WritesOf(course))
    decreases m
  {
    if m > 0 {
      OneUndo(env, w, before, cells, course, m, at);
      var w1 := PutValue(env, w, cells[m - 1].path, cells[m - 1].expected).0;
      UndoFollowsTheCourse(env, w1, before, cells, course, m - 1, at + 1);
    }
  }

  /** The host when writes and rollback have ended. */
  function EndOf(env: Env, w: World, cells: seq<Cell>): World {
    var forward := WriteCells(env, w, cells, 0);
    if forward.failure.None? then forward.w else UndoCells(env, forward.w, cells, forward.done).0
  }

  lemma CourseIsPossible(env: Env, w: World, cells: seq<Cell>)
    requires AllOrNothing(env) && Distinct(cells) && AtExpected(w.files, cells, 0, |cells|)
    ensures
      var course := CourseOf(env, w, cells);
      && course.attempted - 1 <= course.taken <= course.attempted <= |cells|
      && (course.done > 0 ==> course.taken <= course.done <= course.attempted)
  {
    WriteCellsEffect(env, w, cells, 0);
    AttemptedAndTaken(env, w, cells, 0);
  }

  lemma ForwardFollowsTheCourse(env: Env, w: World, cells: seq<Cell>)
    requires AllOrNothing(env) && Distinct(cells) && w.history == [w.files] && AtExpected(w.files, cells, 0, |cells|)
    ensures
      var course := CourseOf(env, w, cells);
      Reached(w.files, WriteCells(env, w, cells, 0).w, cells, course, course.attempted)
  {
    var course := CourseOf(env, w, cells);
    assert IsStateAt(w.files, w.files, cells, course, 0);
    WritesFollowTheCourse(env, w, w.files, cells, course, 0);
  }

  /** Writes and rollback of one run that starts at the expected values. */
  lemma RunFollowsTheCourse(env: Env, w: World, cells: seq<Cell>)
    requires AllOrNothing(env) && Distinct(cells) && w.history == [w.files] && AtExpected(w.files, cells, 0, |cells|)
    ensures
      var course := CourseOf(env, w, cells);
      Reached(w.files, EndOf(env, w, cells), cells, course, WritesOf(course))
  {
    var course := CourseOf(env, w, cells);
    CourseIsPossible(env, w, cells);
    ForwardFollowsTheCourse(env, w, cells);
    var forward := WriteCells(env, w, cells, 0);
    if forward.failure.Some? {
      assert course.took[..course.done] == course.took;
      UndoFollowsTheCourse(env, forward.w, w.files, cells, course, forward.done, course.attempted);
      UndoneIsTheRollback(env, forward.w, cells, forward.done);
    } else {
      assert WritesOf(course) == course.attempted;
    }
  }

  // ----- The same for a plan

  /** The driver gets as far as writing. */
  predicate Begins(env: Env, policies: seq<string>, w: World, actions: seq<Action>)
    requires Supported(actions)
  {
    actions != [] && policies != [] && CheckDrift(env, w, PlanCells(actions, policies), 0).1.None?
  }

  function PlanCourse(env: Env, policies: seq<string>, w: World, actions: seq<Action>): (course: Course)
    requires Supported(actions)
    ensures |course.took| == course.done
  {
    var cells := PlanCells(actions, policies);
    CourseOf(env, CheckDrift(env, w, cells, 0).0, cells)
  }

  /**
   With all-or-nothing writes the host after each write, and after each rollback write, is
   known exactly, however the rollback goes.
   */
  lemma StoppedApplyFollowsTheCourse(env: Env, policies: seq<string>, w: World, plan: ChangePlan)
    requires Applicable(plan, policies) && AllOrNothing(env) && w.history == [w.files]
    requires !plan.Blocked() && Supported(plan.actions)
    ensures
      var w' := ApplyPlan(env, policies, w, plan).0;
      var course := PlanCourse(env, policies, w, plan.actions);
      if Begins(env, policies, w, plan.actions) then
        && ExpectedHold(plan.actions, policies, w.files)
        && Reached(w.files, w', PlanCells(plan.actions, policies), course, WritesOf(course))
      else w'.history == [w.files] && w'.files == w.files
    ensures
      var course := PlanCourse(env, policies, w, plan.actions);
      Begins(env, policies, w, plan.actions) ==>
        && course.attempted - 1 <= course.taken <= course.attempted <= |PlanCells(plan.actions, policies)|
        && (course.done > 0 ==> course.taken <= course.done <= course.attempted)
  {
    if plan.actions != [] && policies != [] {
      var cells := PlanCells(plan.actions, policies);
      CellsArePlanned(plan.actions, policies);
      CellsHoldWhatThePlanSays(plan.actions, policies, w.files);
      DriftCheckEffect(env, w, cells, 0);
      var (w1, drift) := CheckDrift(env, w, cells, 0);
      if drift.None? {
        CourseIsPossible(env, w1, cells);
        RunFollowsTheCourse(env, w1, cells);
        assert ApplyPlan(env, policies, w, plan).0 == EndOf(env, w1, cells);
      }
    }
  }

  // ----- Prefixes

  /** The first `k` cells hold their targets, the rest their expected values, and no other file differs. */
  ghost predicate AtPrefix(before: Files, files: Files, cells: seq<Cell>, k: nat)
    requires k <= |cells|
  {
    OnlyCells(before, files, cells, 0, |cells|) && AtTarget(files, cells, 0, k) && AtExpected(files, cells, k, |cells|)
  }

  ghost predicate AtSomePrefix(before: Files, files: Files, cells: seq<Cell>) {
    exists k :: 0 <= k <= |cells| && AtPrefix(before, files, cells, k)
  }

  predicate Changes(cell: Cell) { cell.target != cell.expected }

  /** No file has been written back before a later one that had been changed. */
  ghost predicate UndoneInOrder(cells: seq<Cell>, course: Course, at: nat)
    requires |course.took| == course.done
  {
    forall a, b ::
      0 <= a < b < |cells| && b < course.taken && Changes(cells[a]) && Changes(cells[b]) && UndoneBy(course, at, a)
      ==> UndoneBy(course, at, b)
  }

  /** How far the changed files reach without a gap. */
  function Reach(cells: seq<Cell>, course: Course, at: nat, i: nat): (k: nat)
    requires |course.took| == course.done && i <= |cells|
    ensures i <= k <= |cells|
    ensures forall c :: i <= c < k ==> MovedBy(course, at, c) || !Changes(cells[c])
    ensures k < |cells| ==> !MovedBy(course, at, k) && Changes(cells[k])
    decreases |cells| - i
  {
    if i == |cells| || (!MovedBy(course, at, i) && Changes(cells[i])) then i else Reach(cells, course, at, i + 1)
  }

  lemma PrefixExactly(before: Files, files: Files, cells: seq<Cell>, course: Course, at: nat)
    requires |course.took| == course.done && course.taken <= course.attempted
    requires IsStateAt(before, files, cells, course, at)
    ensures AtSomePrefix(before, files, cells) <==> UndoneInOrder(cells, course, at)
  {
    if AtSomePrefix(before, files, cells) {
      var k :| 0 <= k <= |cells| && AtPrefix(before, files, cells, k);
      forall a, b | 0 <= a < b < |cells| && b < course.taken && Changes(cells[a]) && Changes(cells[b])
          && UndoneBy(course, at, a)
        ensures UndoneBy(course, at, b)
      {
        assert !MovedBy(course, at, a) && a >= k;
        assert !MovedBy(course, at, b);
      }
    }
    if UndoneInOrder(cells, course, at) {
      var k := Reach(cells, course, at, 0);
      forall c | k < c < |cells| && Changes(cells[c]) ensures !MovedBy(course, at, c) {
        assert !MovedBy(course, at, k);
      }
      assert AtPrefix(before, files, cells, k);
    }
  }

  // ----- The files that a crash leaves

  /** The files after `at` writes of the driver, or at its end. */
  function StoppedFiles(env: Env, policies: seq<string>, w: World, plan: ChangePlan, at: nat): Files {
    var w' := ApplyPlan(env, policies, w, plan).0;
    if at < |w'.history| then w'.history[at] else w'.files
  }

  /** After the last write nothing changes any more. */
  lemma CourseEnds(before: Files, files: Files, cells: seq<Cell>, course: Course, at: nat)
    requires |course.took| == course.done && course.taken <= course.attempted && at >= WritesOf(course)
    requires IsStateAt(before, files, cells, course, WritesOf(course))
    ensures IsStateAt(before, files, cells, course, at)
  {
    forall c: nat ensures MovedBy(course, at, c) == MovedBy(course, WritesOf(course), c) {}
  }

  /** Wherever the driver is stopped, the course says which planned files hold their targets. */
  lemma StoppedFilesFollowTheCourse(env: Env, policies: seq<string>, w: World, plan: ChangePlan, at: nat)
    requires Applicable(plan, policies) && AllOrNothing(env) && w.history == [w.files]
    requires !plan.Blocked() && Supported(plan.actions)
    ensures
      var files := StoppedFiles(env, policies, w, plan, at);
      var course := PlanCourse(env, policies, w, plan.actions);
      if Begins(env, policies, w, plan.actions) then
        && ExpectedHold(plan.actions, policies, w.files)
        && IsStateAt(w.files, files, PlanCells(plan.actions, policies), course, at)
        && course.attempted - 1 <= course.taken <= course.attempted <= |PlanCells(plan.actions, policies)|
        && (course.done > 0 ==> course.taken <= course.done <= course.attempted)
      else files == w.files
  {
    StoppedApplyFollowsTheCourse(env, policies, w, plan);
    if Begins(env, policies, w, plan.actions) {
      var cells, course := PlanCells(plan.actions, policies), PlanCourse(env, policies, w, plan.actions);
      var w' := ApplyPlan(env, policies, w, plan).0;
      if at < |w'.history| {
        StateAt(w.files, w'.history, cells, course, at);
      } else {
        StateAt(w.files, w'.history, cells, course, WritesOf(course));
        CourseEnds(w.files, w'.files, cells, course, at);
      }
    }
  }

  /**
   Stopped between any two writes or rollback writes, the driver leaves every planned file
   at its expected or target value and every other file as it was.  Exactly when no file has
   been written back before a later changed one, it is the first planned files that hold
   their targets.
   */
  lemma StoppedApplyIsAPrefix(env: Env, policies: seq<string>, w: World, plan: ChangePlan, at: nat)
    requires Applicable(plan, policies) && AllOrNothing(env) && w.history == [w.files]
    requires !plan.Blocked() && Supported(plan.actions)
    ensures
      var files := StoppedFiles(env, policies, w, plan, at);
      var cells := PlanCells(plan.actions, policies);
      if Begins(env, policies, w, plan.actions) then
        && AtEither(w.files, files, cells)
        && (AtSomePrefix(w.files, files, cells)
            <==> UndoneInOrder(cells, PlanCourse(env, policies, w, plan.actions), at))
      else files == w.files
  {
    StoppedFilesFollowTheCourse(env, policies, w, plan, at);
    if Begins(env, policies, w, plan.actions) {
      PrefixExactly(w.files, StoppedFiles(env, policies, w, plan, at), PlanCells(plan.actions, policies),
                    PlanCourse(env, policies, w, plan.actions), at);
    }
  }

  // ----- Stops among the forward writes

  /** The first `p` files visited are whole rows, one file on all CPUs, exactly when `p` is a multiple of the CPUs. */
  lemma {:induction false} WholeRows(steps: seq<Step>, policies: seq<string>, p: nat)
    requires policies != [] && p <= |Cells(steps, policies)|
    requires forall i, j :: 0 <= i < j < |policies| ==> policies[i] != policies[j]
    requires forall i, j :: 0 <= i < j < |steps| ==> steps[i].file != steps[j].file
    ensures RowsAreWhole(Cells(steps, policies), policies[0], p) <==> p % |policies| == 0
  {
    if steps != [] && p > 0 {
      var row, rest := StepCells(steps[0], policies), Cells(steps[1..], policies);
      if p < |policies| {
        assert p % |policies| == p;
        FirstRowIsSplit(row, rest, policies[0], p);
      } else {
        WholeRows(steps[1..], policies, p - |policies|);
        OtherFiles(steps, policies);
        RowsAfterTheFirst(row, rest, policies[0], p);
        LessOneDivisor(p, |policies|);
      }
    }
  }

  lemma FirstRowIsSplit(row: seq<Cell>, rest: seq<Cell>, first: string, p: nat)
    requires 0 < p < |row| && row[0].path.cpu == first && row[0].path.file == row[|row| - 1].path.file
    ensures !RowsAreWhole(row + rest, first, p)
  {
    assert Splits(row + rest, first, p, 0, |row| - 1);
  }

  lemma OtherFiles(steps: seq<Step>, policies: seq<string>)
    requires steps != [] && forall i, j :: 0 <= i < j < |steps| ==> steps[i].file != steps[j].file
    ensures
      var row, rest := StepCells(steps[0], policies), Cells(steps[1..], policies);
      forall k, l :: 0 <= k < |row| && 0 <= l < |rest| ==> row[k].path.file != rest[l].path.file
  {
    var rest := Cells(steps[1..], policies);
    CellsAreThePlannedFiles(steps[1..], policies);
    forall l | 0 <= l < |rest| ensures rest[l].path.file != steps[0].file { assert rest[l] in rest; }
  }

  /** With a file's copy on the first CPU, all its copies are among the first `p`. */
  ghost predicate RowsAreWhole(cells: seq<Cell>, first: string, p: nat) {
    forall i: nat, j: nat :: !Splits(cells, first, p, i, j)
  }

  /** A pair of places that says the rows are not whole. */
  predicate Splits(cells: seq<Cell>, first: string, p: nat, i: nat, j: nat) {
    && i < |cells| && j < |cells| && i < p <= j
    && cells[i].path.cpu == first && cells[i].path.file == cells[j].path.file
  }

  lemma RowsAfterTheFirst(row: seq<Cell>, rest: seq<Cell>, first: string, p: nat)
    requires |row| <= p
    requires forall k, l :: 0 <= k < |row| && 0 <= l < |rest| ==> row[k].path.file != rest[l].path.file
    ensures RowsAreWhole(row + rest, first, p) <==> RowsAreWhole(rest, first, p - |row|)
  {
    var cells, n, after := row + rest, |row|, p - |row|;
    assert forall k :: 0 <= k < n ==> cells[k] == row[k];
    if i: nat, j: nat :| Splits(cells, first, p, i, j) {
      assert cells[j] == rest[j - n];
      assert i >= n && cells[i] == rest[i - n];
      assert Splits(rest, first, p - n, i - n, j - n);
    }
    if i: nat, j: nat :| Splits(rest, first, after, i, j) {
      assert cells[i + n] == rest[i] && cells[j + n] == rest[j];
      assert Splits(cells, first, p, i + n, j + n);
    }
  }
}
