/**
 The order maximum, minimum, governor on a host that rejects a minimum above the maximum:
 exactly when a restore, and its rollback, never ask for one.
 */
module RestoreOrder {
  import opened Wrappers
  import opened Host
  import opened RestDriver
  import opened RestDriverProperties

  // ----- A host that rejects a minimum above the maximum

  ghost predicate InOrder(files: Files) {
    && Cpu0(ScalingMin) in files && files[Cpu0(ScalingMin)].Khz?
    && Cpu0(ScalingMax) in files && files[Cpu0(ScalingMax)].Khz?
    && files[Cpu0(ScalingMin)].amount <= files[Cpu0(ScalingMax)].amount
  }

  /** Such a host takes this write. */
  ghost predicate Accepts(files: Files, file: File, goal: Goal) {
    InOrder(files[Cpu0(file) := Encoded(goal)])
  }

  ghost predicate ForwardAccepted(env: Env, w: World, tasks: seq<Task>, i: nat)
    requires i <= |tasks|
    decreases |tasks| - i
  {
    i == |tasks| ||
    (&& Accepts(w.files, tasks[i].file, tasks[i].goal)
     && (Perform(env, w, tasks[i]).1 ==> ForwardAccepted(env, Perform(env, w, tasks[i]).0, tasks, i + 1)))
  }

  ghost predicate UndoAccepted(env: Env, w: World, tasks: seq<Task>, k: nat)
    requires k <= |tasks|
    decreases k
  {
    k == 0 ||
    (&& Accepts(w.files, tasks[k - 1].file, tasks[k - 1].undo)
     && UndoAccepted(env, Put(env, w, tasks[k - 1].file, tasks[k - 1].undo).0, tasks, k - 1))
  }

  /** The files after the first `k` tasks have taken effect. */
  function After(files: Files, tasks: seq<Task>, k: nat): Files
    requires k <= |tasks|
  {
    if k == 0 then files else After(files, tasks, k - 1)[Cpu0(tasks[k - 1].file) := Encoded(tasks[k - 1].goal)]
  }

  /** Each task starts at the value its rollback restores, far enough from its goal to tell them apart. */
  ghost predicate Separated(files: Files, tasks: seq<Task>) {
    forall i :: 0 <= i < |tasks| ==>
      && tasks[i].before.None? && Cpu0(tasks[i].file) in files
      && files[Cpu0(tasks[i].file)] == Encoded(tasks[i].undo)
      && !Meets(Encoded(tasks[i].undo), tasks[i].goal) && !Meets(Encoded(tasks[i].goal), tasks[i].undo)
  }

  ghost predicate StaysInOrder(files: Files, tasks: seq<Task>) {
    forall k :: 0 <= k <= |tasks| ==> InOrder(After(files, tasks, k))
  }

  ghost predicate HistoryInOrder(w: World) {
    forall i :: 0 <= i < |w.history| ==> InOrder(w.history[i])
  }

  lemma {:induction false} AfterLeavesTheRest(files: Files, tasks: seq<Task>, k: nat, j: nat)
    requires Distinct(tasks) && k <= j < |tasks| && Cpu0(tasks[j].file) in files
    ensures Cpu0(tasks[j].file) in After(files, tasks, k)
    ensures After(files, tasks, k)[Cpu0(tasks[j].file)] == files[Cpu0(tasks[j].file)]
  {
    if k > 0 { AfterLeavesTheRest(files, tasks, k - 1, j); }
  }

  lemma AtomicPut(env: Env, w: World, file: File, goal: Goal)
    requires AllOrNothing(env) && Cpu0(file) in w.files
    ensures
      var (w', ok) := Put(env, w, file, goal);
      && (w'.files == w.files || w'.files == w.files[Cpu0(file) := Encoded(goal)])
      && (ok && !Meets(w.files[Cpu0(file)], goal) ==> w'.files == w.files[Cpu0(file) := Encoded(goal)])
      && (w'.history == w.history || w'.history == w.history + [w'.files])
  {
  }

  /** Going forward, every request is accepted; the first failure leaves its task done or not begun. */
  lemma {:induction false} ForwardStaysInOrder(env: Env, w: World, files: Files, tasks: seq<Task>, i: nat)
    requires AllOrNothing(env) && Distinct(tasks) && Separated(files, tasks) && StaysInOrder(files, tasks)
    requires i <= |tasks| && w.files == After(files, tasks, i) && HistoryInOrder(w)
    ensures ForwardAccepted(env, w, tasks, i)
    ensures
      var (w', failed) := PerformAll(env, w, tasks, i);
      && HistoryInOrder(w')
      && (failed.Some?
          ==> w'.files == After(files, tasks, failed.value) || w'.files == After(files, tasks, failed.value + 1))
    decreases |tasks| - i
  {
    if i < |tasks| {
      AfterLeavesTheRest(files, tasks, i, i);
      AtomicPut(env, w, tasks[i].file, tasks[i].goal);
      assert w.files[Cpu0(tasks[i].file) := Encoded(tasks[i].goal)] == After(files, tasks, i + 1);
      var (w1, ok) := Perform(env, w, tasks[i]);
      if ok { ForwardStaysInOrder(env, w1, files, tasks, i + 1); }
    }
  }

  lemma UndoneFiles(files: Files, tasks: seq<Task>, k: nat)
    requires Distinct(tasks) && Separated(files, tasks) && 0 < k <= |tasks|
    ensures var p := Cpu0(tasks[k - 1].file);
      && p in After(files, tasks, k - 1) && After(files, tasks, k - 1)[p] == Encoded(tasks[k - 1].undo)
      && After(files, tasks, k)[p := Encoded(tasks[k - 1].undo)] == After(files, tasks, k - 1)
  {
    AfterLeavesTheRest(files, tasks, k - 1, k - 1);
  }

  /** A rollback that succeeds has every request accepted, and restores the files exactly. */
  lemma {:induction false} UndoStaysInOrder(env: Env, w: World, files: Files, tasks: seq<Task>, k: nat)
    requires AllOrNothing(env) && Distinct(tasks) && Separated(files, tasks) && StaysInOrder(files, tasks)
    requires k <= |tasks| && HistoryInOrder(w) && UndoAll(env, w, tasks, k).1
    requires w.files == After(files, tasks, k) || (k > 0 && w.files == After(files, tasks, k - 1))
    ensures UndoAccepted(env, w, tasks, k)
    ensures UndoAll(env, w, tasks, k).0.files == files && HistoryInOrder(UndoAll(env, w, tasks, k).0)
    decreases k
  {
    if k > 0 {
      UndoneFiles(files, tasks, k);
      AtomicPut(env, w, tasks[k - 1].file, tasks[k - 1].undo);
      var w1 := Put(env, w, tasks[k - 1].file, tasks[k - 1].undo).0;
      assert w1.files == After(files, tasks, k - 1);
      UndoStaysInOrder(env, w1, files, tasks, k - 1);
    }
  }

  // ----- Kilohertz and megahertz

  /** A kilohertz reading is written back as itself. */
  lemma ReadingsAreExact(khz: int)
    ensures ToKhz(khz as real / 1000.0) == khz
  {
  }

  /** A frequency at least half a megahertz away from a reading stays so when it is rounded. */
  lemma RoundingKeepsApart(khz: int, mhz: real)
    requires !Close(khz as real / 1000.0, mhz)
    ensures !Close(ToKhz(mhz) as real / 1000.0, khz as real / 1000.0)
  {
    var x := mhz * 1000.0 + 0.5;
    if mhz * 1000.0 >= khz as real + 500.0 {
      assert x.Floor >= khz + 500;
    } else {
      assert mhz * 1000.0 <= khz as real - 500.0;
      assert x.Floor <= khz - 500;
    }
  }

  // ----- The order maximum, minimum, governor

  /** The live state is what cpu0's files hold. */
  ghost predicate Shows(files: Files, live: Live, minKhz: int, maxKhz: int) {
    && Cpu0(Governor) in files && files[Cpu0(Governor)] == Name(live.governor)
    && Cpu0(ScalingMin) in files && files[Cpu0(ScalingMin)] == Khz(minKhz) && live.minMhz == minKhz as real / 1000.0
    && Cpu0(ScalingMax) in files && files[Cpu0(ScalingMax)] == Khz(maxKhz) && live.maxMhz == maxKhz as real / 1000.0
  }

  lemma RestoreTasksAreSeparated(original: OriginalPower, live: Live, files: Files, minKhz: int, maxKhz: int)
    requires Shows(files, live, minKhz, maxKhz)
    ensures Separated(files, RestoreTasks(original, live)) && Distinct(RestoreTasks(original, live))
  {
    ReadingsAreExact(minKhz);
    ReadingsAreExact(maxKhz);
    if !Close(live.maxMhz, original.scalingMax) { RoundingKeepsApart(maxKhz, original.scalingMax); }
    if !Close(live.minMhz, original.scalingMin) { RoundingKeepsApart(minKhz, original.scalingMin); }
  }

  /** The new maximum is not below the live minimum, and the new minimum not above the maximum then in force. */
  predicate OrderFits(original: OriginalPower, live: Live, minKhz: int, maxKhz: int) {
    && (Close(live.maxMhz, original.scalingMax) || minKhz <= ToKhz(original.scalingMax))
    && (Close(live.minMhz, original.scalingMin)
        || ToKhz(original.scalingMin) <= if Close(live.maxMhz, original.scalingMax) then maxKhz
           else ToKhz(original.scalingMax))
  }

  lemma AfterOne(files: Files, tasks: seq<Task>, k: nat)
    requires 0 < k <= |tasks|
    ensures After(files, tasks, k) == After(files, tasks, k - 1)[Cpu0(tasks[k - 1].file) := Encoded(tasks[k - 1].goal)]
  {
  }

  /** The files stay in order through all requests exactly when the order fits. */
  lemma StaysInOrderExactly(original: OriginalPower, live: Live, files: Files, minKhz: int, maxKhz: int)
    requires Shows(files, live, minKhz, maxKhz) && minKhz <= maxKhz
    ensures StaysInOrder(files, RestoreTasks(original, live)) <==> OrderFits(original, live, minKhz, maxKhz)
  {
    var tasks := RestoreTasks(original, live);
    if |tasks| > 0 { AfterOne(files, tasks, 1); }
    if |tasks| > 1 { AfterOne(files, tasks, 2); }
    if |tasks| > 2 { AfterOne(files, tasks, 3); }
    assert After(files, tasks, 0) == files;
    if StaysInOrder(files, tasks) {
      if |tasks| > 0 { assert InOrder(After(files, tasks, 1)); }
      if |tasks| > 1 { assert InOrder(After(files, tasks, 2)); }
    }
  }

  /** Without faults every request is made, so they are accepted exactly when the files stay in order. */
  lemma {:induction false} FaultlessForward(env: Env, w: World, files: Files, tasks: seq<Task>, i: nat)
    requires Faultless(env) && Distinct(tasks) && Separated(files, tasks) && i <= |tasks|
    requires forall j :: 0 <= j < |tasks| ==> Writable(tasks[j].goal)
    requires w.files == After(files, tasks, i) && forall k :: 0 <= k <= i ==> InOrder(After(files, tasks, k))
    ensures ForwardAccepted(env, w, tasks, i) <==> StaysInOrder(files, tasks)
    decreases |tasks| - i
  {
    if i < |tasks| {
      AfterLeavesTheRest(files, tasks, i, i);
      AtomicPut(env, w, tasks[i].file, tasks[i].goal);
      FaultlessPut(env, w, tasks[i].file, tasks[i].goal);
      AfterOne(files, tasks, i + 1);
      if InOrder(After(files, tasks, i + 1)) {
        FaultlessForward(env, Perform(env, w, tasks[i]).0, files, tasks, i + 1);
      }
    }
  }

  /** The live state, read from the files. */
  lemma LiveShows(env: Env, w: World)
    requires InOrder(w.files) && ReadLive(env, w).1.Some?
    ensures
      var (w1, live) := ReadLive(env, w);
      && w1.files == w.files && w1.history == w.history
      && Shows(w.files, live.value, w.files[Cpu0(ScalingMin)].amount, w.files[Cpu0(ScalingMax)].amount)
  {
    LiveIsWhatTheFilesHold(env, w);
  }

  /** The order fits the limits that the host holds. */
  predicate Fits(files: Files, original: OriginalPower, live: Live)
    requires Cpu0(ScalingMin) in files && files[Cpu0(ScalingMin)].Khz? && Cpu0(ScalingMax) in files
             && files[Cpu0(ScalingMax)].Khz?
  {
    OrderFits(original, live, files[Cpu0(ScalingMin)].amount, files[Cpu0(ScalingMax)].amount)
  }

  /** The writes of a restore, given what the files show. */
  lemma TasksOfARestore(files: Files, original: OriginalPower, live: Live)
    requires InOrder(files) && Shows(files, live, files[Cpu0(ScalingMin)].amount, files[Cpu0(ScalingMax)].amount)
    ensures Separated(files, RestoreTasks(original, live)) && Distinct(RestoreTasks(original, live))
    ensures StaysInOrder(files, RestoreTasks(original, live)) <==> Fits(files, original, live)
  {
    var minKhz, maxKhz := files[Cpu0(ScalingMin)].amount, files[Cpu0(ScalingMax)].amount;
    RestoreTasksAreSeparated(original, live, files, minKhz, maxKhz);
    StaysInOrderExactly(original, live, files, minKhz, maxKhz);
  }

  /**
   On a host whose writes are all or nothing and whose minimum starts under its maximum: when
   the order fits, no request of a restore going forward asks for a minimum above the maximum,
   the files are in order after every write, and a completed rollback has restored them
   exactly, with every request of it accepted too.
   */
  lemma RestoreIsNeverRejected(env: Env, w: World, original: OriginalPower)
    requires AllOrNothing(env) && InOrder(w.files) && HistoryInOrder(w) && ReadLive(env, w).1.Some?
    requires Fits(w.files, original, ReadLive(env, w).1.value)
    ensures
      var (w1, live) := ReadLive(env, w);
      var tasks := RestoreTasks(original, live.value);
      var (w2, failed) := PerformAll(env, w1, tasks, 0);
      && ForwardAccepted(env, w1, tasks, 0)
      && HistoryInOrder(w2)
      && (Transact(env, w1, tasks).1 == Some(RolledBack) ==>
            && UndoAccepted(env, w2, tasks, failed.value + 1)
            && HistoryInOrder(Transact(env, w1, tasks).0) && Transact(env, w1, tasks).0.files == w.files)
  {
    var (w1, found) := ReadLive(env, w);
    LiveShows(env, w);
    var tasks := RestoreTasks(original, found.value);
    TasksOfARestore(w.files, original, found.value);
    ForwardStaysInOrder(env, w1, w.files, tasks, 0);
    var (w2, failed) := PerformAll(env, w1, tasks, 0);
    if Transact(env, w1, tasks).1 == Some(RolledBack) {
      UndoStaysInOrder(env, w2, w.files, tasks, failed.value + 1);
    }
  }

  /** A host without faults accepts every request of a restore exactly when the order fits. */
  lemma RestoreIsAcceptedExactly(env: Env, w: World, original: OriginalPower)
    requires Faultless(env) && InOrder(w.files) && ReadLive(env, w).1.Some?
    requires original.scalingMin > 0.0 && original.scalingMax > 0.0
    ensures
      var (w1, live) := ReadLive(env, w);
      ForwardAccepted(env, w1, RestoreTasks(original, live.value), 0) <==> Fits(w.files, original, live.value)
  {
    var (w1, found) := ReadLive(env, w);
    LiveShows(env, w);
    var tasks := RestoreTasks(original, found.value);
    TasksOfARestore(w.files, original, found.value);
    assert forall j :: 0 <= j < |tasks| ==> Writable(tasks[j].goal);
    FaultlessForward(env, w1, w.files, tasks, 0);
  }

  // ----- Rollbacks that do not complete

  function TickAfterPut(env: Env, tick: nat, goal: Goal): nat {
    if !Writable(goal) then tick else if Next(env, tick).write.Raises? then tick + 1 else tick + 2
  }

  /** Whether the rollback write of task `m` takes effect, when `k` tasks are undone. */
  function UndoTakes(env: Env, tick: nat, tasks: seq<Task>, k: nat, m: nat): bool
    requires m < k <= |tasks|
    decreases k
  {
    if k == m + 1 then Writable(tasks[m].undo) && Next(env, tick).write.Takes?
    else UndoTakes(env, TickAfterPut(env, tick, tasks[k - 1].undo), tasks, k - 1, m)
  }

  /** The minimum holds its new value and is not written back before the maximum is. */
  predicate MinimumIsStuck(env: Env, w: World, tasks: seq<Task>, k: nat)
    requires k <= |tasks|
  {
    && k >= 2 && tasks[1].file.ScalingMin? && Cpu0(ScalingMin) in w.files
       && w.files[Cpu0(ScalingMin)] == Encoded(tasks[1].goal)
    && !UndoTakes(env, w.tick, tasks, k, 1)
  }

  /** What a rollback write does to the files. */
  lemma UndoOne(env: Env, w: World, file: File, goal: Goal)
    requires AllOrNothing(env) && Cpu0(file) in w.files
    ensures
      var w' := Put(env, w, file, goal).0;
      && w'.tick == TickAfterPut(env, w.tick, goal)
      && w'.files == if Writable(goal) && Next(env, w.tick).write.Takes? then w.files[Cpu0(file) := Encoded(goal)]
         else w.files
  {
    if w.tick < |env| { assert env[w.tick] in env; }
  }

  /** What the rollback may find: limits of which the live minimum fits under the maximum. */
  ghost predicate Undoable(files: Files, tasks: seq<Task>, minKhz: int) {
    && InOrder(files) && minKhz <= files[Cpu0(ScalingMax)].amount
    && forall j :: 0 <= j < |tasks| ==>
         && Cpu0(tasks[j].file) in files && tasks[j].file in {Governor, ScalingMin, ScalingMax}
         && (tasks[j].file.ScalingMin? ==> Encoded(tasks[j].undo) == Khz(minKhz))
  }

  /** Undoing tasks other than that of the maximum is always accepted. */
  lemma {:induction false} UndoWithoutMaximum(env: Env, w: World, tasks: seq<Task>, k: nat, minKhz: int)
    requires AllOrNothing(env) && k <= |tasks| && Undoable(w.files, tasks, minKhz)
    requires forall j :: 0 <= j < k ==> !tasks[j].file.ScalingMax?
    ensures UndoAccepted(env, w, tasks, k)
    decreases k
  {
    if k > 0 {
      UndoOne(env, w, tasks[k - 1].file, tasks[k - 1].undo);
      UndoWithoutMaximum(env, Put(env, w, tasks[k - 1].file, tasks[k - 1].undo).0, tasks, k - 1, minKhz);
    }
  }

  /** Undoing the maximum as well is accepted exactly when the minimum by then is not above it. */
  lemma {:induction false} UndoDownToMaximum(env: Env, w: World, tasks: seq<Task>, k: nat, minKhz: int, maxKhz: int)
    requires AllOrNothing(env) && 0 < k <= |tasks| && Undoable(w.files, tasks, minKhz) && minKhz <= maxKhz
    requires tasks[0].file.ScalingMax? && Encoded(tasks[0].undo) == Khz(maxKhz)
    requires forall j :: 0 < j < k ==> !tasks[j].file.ScalingMax? && (j > 1 ==> !tasks[j].file.ScalingMin?)
    ensures
      UndoAccepted(env, w, tasks, k) <==>
        (w.files[Cpu0(ScalingMin)].amount <= maxKhz
         || (k > 1 && tasks[1].file.ScalingMin? && UndoTakes(env, w.tick, tasks, k, 1)))
    decreases k
  {
    UndoOne(env, w, tasks[k - 1].file, tasks[k - 1].undo);
    if k > 1 {
      UndoDownToMaximum(env, Put(env, w, tasks[k - 1].file, tasks[k - 1].undo).0, tasks, k - 1, minKhz, maxKhz);
    } else {
      assert UndoAccepted(env, Put(env, w, tasks[0].file, tasks[0].undo).0, tasks, 0);
    }
  }

  /** Accepted requests keep the files in order, whichever of them take effect. */
  lemma {:induction false} AcceptedUndoStaysInOrder(env: Env, w: World, tasks: seq<Task>, k: nat)
    requires AllOrNothing(env) && k <= |tasks| && UndoAccepted(env, w, tasks, k)
    requires InOrder(w.files) && HistoryInOrder(w) && forall j :: 0 <= j < k ==> Cpu0(tasks[j].file) in w.files
    ensures HistoryInOrder(UndoAll(env, w, tasks, k).0)
    decreases k
  {
    if k > 0 {
      AtomicPut(env, w, tasks[k - 1].file, tasks[k - 1].undo);
      AcceptedUndoStaysInOrder(env, Put(env, w, tasks[k - 1].file, tasks[k - 1].undo).0, tasks, k - 1);
    }
  }

  /** The limits after the first tasks have taken effect. */
  lemma LimitsAfter(original: OriginalPower, live: Live, files: Files, minKhz: int, maxKhz: int, k: nat)
    requires Shows(files, live, minKhz, maxKhz) && k <= |RestoreTasks(original, live)|
    ensures
      var tasks := RestoreTasks(original, live);
      var after := After(files, tasks, k);
      && (forall p :: p in files ==> p in after)
      && after[Cpu0(ScalingMax)]
         == (if k > 0 && tasks[0].file.ScalingMax? then Khz(ToKhz(original.scalingMax)) else Khz(maxKhz))
      && after[Cpu0(ScalingMin)] in {Khz(minKhz), Khz(ToKhz(original.scalingMin))}
      && (k == 0 || (k == 1 && tasks[0].file.ScalingMax?) ==> after[Cpu0(ScalingMin)] == Khz(minKhz))
      && (k > 1 && tasks[0].file.ScalingMax? && !tasks[1].file.ScalingMin? ==> after[Cpu0(ScalingMin)] == Khz(minKhz))
  {
    var tasks := RestoreTasks(original, live);
    if k > 0 { AfterOne(files, tasks, k); }
    if k > 1 { AfterOne(files, tasks, k - 1); }
    if k > 2 { AfterOne(files, tasks, k - 2); }
  }

  /** Every state of a forward run that fits can be undone. */
  lemma AfterIsUndoable(original: OriginalPower, live: Live, files: Files, minKhz: int, maxKhz: int, k: nat)
    requires Shows(files, live, minKhz, maxKhz) && minKhz <= maxKhz && k <= |RestoreTasks(original, live)|
    requires OrderFits(original, live, minKhz, maxKhz)
    ensures Undoable(After(files, RestoreTasks(original, live), k), RestoreTasks(original, live), minKhz)
  {
    LimitsAfter(original, live, files, minKhz, maxKhz, k);
    StaysInOrderExactly(original, live, files, minKhz, maxKhz);
    ReadingsAreExact(minKhz);
  }

  /** The rollback from a state of the forward run: rejected exactly with a new minimum stuck above the live maximum. */
  lemma UndoAcceptedExactly(env: Env, w: World, original: OriginalPower, live: Live, files: Files, minKhz: int,
                            maxKhz: int,
                            done: nat, k: nat)
    requires AllOrNothing(env) && Shows(files, live, minKhz, maxKhz) && minKhz <= maxKhz
    requires OrderFits(original, live, minKhz, maxKhz)
    requires done <= k <= |RestoreTasks(original, live)| && k > 0 && done >= k - 1
    requires w.files == After(files, RestoreTasks(original, live), done)
    ensures
      var tasks := RestoreTasks(original, live);
      UndoAccepted(env, w, tasks, k) <==>
        !(MinimumIsStuck(env, w, tasks, k) && tasks[0].file.ScalingMax? && maxKhz < ToKhz(original.scalingMin))
  {
    var tasks := RestoreTasks(original, live);
    LimitsAfter(original, live, files, minKhz, maxKhz, done);
    AfterIsUndoable(original, live, files, minKhz, maxKhz, done);
    ReadingsAreExact(maxKhz);
    if tasks[0].file.ScalingMax? {
      UndoDownToMaximum(env, w, tasks, k, minKhz, maxKhz);
    } else {
      UndoWithoutMaximum(env, w, tasks, k, minKhz);
    }
  }

  /**
   The rollback of a restore whose order fits asks for a maximum below the minimum exactly
   when it has to lower the maximum under the new minimum, which it failed to write back.
   Otherwise the files stay in order throughout.
   */
  lemma RollbackIsAcceptedExactly(env: Env, w: World, original: OriginalPower)
    requires AllOrNothing(env) && InOrder(w.files) && HistoryInOrder(w) && ReadLive(env, w).1.Some?
    requires Fits(w.files, original, ReadLive(env, w).1.value)
    requires
      var (w1, live) := ReadLive(env, w);
      PerformAll(env, w1, RestoreTasks(original, live.value), 0).1.Some?
    ensures
      var (w1, live) := ReadLive(env, w);
      var tasks := RestoreTasks(original, live.value);
      var (w2, failed) := PerformAll(env, w1, tasks, 0);
      && (UndoAccepted(env, w2, tasks, failed.value + 1) <==>
            !(&& MinimumIsStuck(env, w2, tasks, failed.value + 1) && tasks[0].file.ScalingMax?
              && w.files[Cpu0(ScalingMax)].amount < ToKhz(original.scalingMin)))
      && (UndoAccepted(env, w2, tasks, failed.value + 1)
          ==> HistoryInOrder(UndoAll(env, w2, tasks, failed.value + 1).0))
  {
    var (w1, found) := ReadLive(env, w);
    LiveShows(env, w);
    var live, minKhz, maxKhz := found.value, w.files[Cpu0(ScalingMin)].amount, w.files[Cpu0(ScalingMax)].amount;
    var tasks := RestoreTasks(original, live);
    TasksOfARestore(w.files, original, live);
    ForwardStaysInOrder(env, w1, w.files, tasks, 0);
    var (w2, failed) := PerformAll(env, w1, tasks, 0);
    var k := failed.value + 1;
    var done := if w2.files == After(w.files, tasks, k) then k else k - 1;
    AfterIsUndoable(original, live, w.files, minKhz, maxKhz, done);
    UndoAcceptedExactly(env, w2, original, live, w.files, minKhz, maxKhz, done, k);
    if UndoAccepted(env, w2, tasks, k) { AcceptedUndoStaysInOrder(env, w2, tasks, k); }
  }

  // ----- Requests that are rejected

  /** A host for each half of the fit: the new minimum above the maximum, and the new maximum below the minimum. */
  lemma RejectedWithoutTheConditions(governor: string)
    ensures
      var files := map[Cpu0(Governor) := Name(governor), Cpu0(ScalingMin) := Khz(400000),
                       Cpu0(ScalingMax) := Khz(999600)];
      var original := OriginalPower(governor, 1000.0, 1000.0);
      var tasks := RestoreTasks(original, Live(governor, 400.0, 999.6));
      InOrder(files) && |tasks| == 1 && !Accepts(files, tasks[0].file, tasks[0].goal)
    ensures
      var files := map[Cpu0(Governor) := Name(governor), Cpu0(ScalingMin) := Khz(2000000),
                       Cpu0(ScalingMax) := Khz(3000000)];
      var original := OriginalPower(governor, 400.0, 1000.0);
      var tasks := RestoreTasks(original, Live(governor, 2000.0, 3000.0));
      InOrder(files) && |tasks| == 2 && !Accepts(files, tasks[0].file, tasks[0].goal)
  {
    assert ToKhz(1000.0) == 1000000;
  }

  function Limits(governor: string, minKhz: int, maxKhz: int): Files {
    map[Cpu0(Governor) := Name(governor), Cpu0(ScalingMin) := Khz(minKhz), Cpu0(ScalingMax) := Khz(maxKhz)]
  }

  const FINE := Io(Takes, false)
  const IGNORED := Io(Keeps, false)

  /**
   Three reads, two writes that take, the governor's that does not, and the minimum's rollback
   write that does not.
   */
  const UNLUCKY: Env := [FINE, FINE, FINE, FINE, FINE, FINE, FINE, IGNORED, FINE, FINE, FINE, IGNORED]

  const ORIGINAL := OriginalPower("performance", 600.0, 1000.0)

  const LIVE := Live("powersave", 400.0, 500.0)

  lemma TasksOfTheUnlucky()
    ensures
      var tasks := RestoreTasks(ORIGINAL, LIVE);
      && |tasks| == 3 && tasks[0].file == ScalingMax && tasks[1].file == ScalingMin && tasks[2].file == Governor
      && Encoded(tasks[0].goal) == Khz(1000000) && Encoded(tasks[1].goal) == Khz(600000)
      && Encoded(tasks[2].goal) == Name("performance")
  {
    assert ToKhz(1000.0) == 1000000 && ToKhz(600.0) == 600000;
  }

  lemma LimitWritten(minKhz: int, maxKhz: int, khz: int)
    ensures Limits("powersave", minKhz, maxKhz)[Cpu0(ScalingMax) := Khz(khz)] == Limits("powersave", minKhz, khz)
    ensures Limits("powersave", minKhz, maxKhz)[Cpu0(ScalingMin) := Khz(khz)] == Limits("powersave", khz, maxKhz)
  {
  }

  /** A write that takes, and one that is ignored. */
  lemma LuckyAndUnlucky(w: World, file: File, goal: Goal)
    requires Cpu0(file) in w.files && Writable(goal) && w.tick + 1 < |UNLUCKY| && !UNLUCKY[w.tick + 1].readFails
    ensures
      var (w', ok) := Put(UNLUCKY, w, file, goal);
      && w'.tick == w.tick + 2
      && (UNLUCKY[w.tick] == FINE ==> ok && w'.files == w.files[Cpu0(file) := Encoded(goal)])
      && (UNLUCKY[w.tick] == IGNORED ==> w'.files == w.files && (ok <==> Meets(w.files[Cpu0(file)], goal)))
  {
    WrittenMeetsItsGoal(goal);
  }

  lemma ReadOfTheUnlucky(w: World)
    requires w.files == Limits("powersave", 400000, 500000) && w.tick == 0
    ensures ReadLive(UNLUCKY, w) == (w.(tick := 3), Some(LIVE))
  {
  }

  lemma ForwardOfTheUnlucky(w: World)
    requires w.files == Limits("powersave", 400000, 500000) && w.tick == 3
    ensures
      var (w', failed) := PerformAll(UNLUCKY, w, RestoreTasks(ORIGINAL, LIVE), 0);
      failed == Some(2) && w'.tick == 9 && w'.files == Limits("powersave", 600000, 1000000)
  {
    var tasks := RestoreTasks(ORIGINAL, LIVE);
    TasksOfTheUnlucky();
    LimitWritten(400000, 500000, 1000000);
    LimitWritten(400000, 1000000, 600000);
    LuckyAndUnlucky(w, tasks[0].file, tasks[0].goal);
    var w1 := Perform(UNLUCKY, w, tasks[0]).0;
    LuckyAndUnlucky(w1, tasks[1].file, tasks[1].goal);
    var w2 := Perform(UNLUCKY, w1, tasks[1]).0;
    LuckyAndUnlucky(w2, tasks[2].file, tasks[2].goal);
    var w3 := Perform(UNLUCKY, w2, tasks[2]).0;
    assert PerformAll(UNLUCKY, w2, tasks, 2) == (w3, Some(2));
    assert PerformAll(UNLUCKY, w1, tasks, 1) == (w3, Some(2));
  }

  lemma UnluckyMinimumIsStuck(w: World)
    requires w.tick == 9 && w.files == Limits("powersave", 600000, 1000000)
    ensures MinimumIsStuck(UNLUCKY, w, RestoreTasks(ORIGINAL, LIVE), 3)
  {
    var tasks := RestoreTasks(ORIGINAL, LIVE);
    TasksOfTheUnlucky();
    assert UNLUCKY[9] == FINE && UNLUCKY[11] == IGNORED;
    assert UndoTakes(UNLUCKY, 9, tasks, 3, 1) == UndoTakes(UNLUCKY, 11, tasks, 2, 1);
  }

  lemma UnluckyOrderFits()
    ensures OrderFits(ORIGINAL, LIVE, 400000, 500000) && ToKhz(ORIGINAL.scalingMin) == 600000
  {
  }

  lemma UnluckyIsAllOrNothing()
    ensures AllOrNothing(UNLUCKY)
  {
  }

  /** From 400 to 500 MHz towards 600 to 1000: the rollback asks for a maximum of 500 under a minimum of 600. */
  lemma RollbackCanBeRejected(w: World)
    requires w == World(Limits("powersave", 400000, 500000), 0, [])
    ensures
      var (w1, live) := ReadLive(UNLUCKY, w);
      && live.Some? && Fits(w.files, ORIGINAL, live.value)
      && var (w2, failed) := PerformAll(UNLUCKY, w1, RestoreTasks(ORIGINAL, live.value), 0);
         failed == Some(2) && !UndoAccepted(UNLUCKY, w2, RestoreTasks(ORIGINAL, live.value), 3)
  {
    ReadOfTheUnlucky(w);
    ForwardOfTheUnlucky(w.(tick := 3));
    TasksOfTheUnlucky();
    UnluckyOrderFits();
    UnluckyIsAllOrNothing();
    RollbackIsAcceptedExactly(UNLUCKY, w, ORIGINAL);
    UnluckyMinimumIsStuck(PerformAll(UNLUCKY, w.(tick := 3), RestoreTasks(ORIGINAL, LIVE), 0).0);
  }
}
