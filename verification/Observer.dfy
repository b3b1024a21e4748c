/** The observer loop: bounded, stoppable, and giving up after a run of failures. */
module Observer {
  import opened Wrappers
  import opened Snapshots

  datatype Stage = Collecting | Saving | Watching | Recording | Pruning

  /** The stage of a cycle at which the environment makes it fail, if any. */
  type Fault = Option<Stage>

  datatype Reason = Iterations | Stopped | TooManyErrors

  datatype Summary = Summary(cycles: nat, errors: nat, reason: Reason)

  datatype Event = ObserverStarted | Observation | ObserverError | ObserverStopped(summary: Summary)

  datatype ObserveError = BadInterval

  // ----- One cycle

  /** A cycle fails at a fault, and in pruning when it is told to keep fewer than one snapshot. */
  predicate Fails(keep: Option<int>, fault: Fault) {
    (fault.Some? && !(fault.value.Pruning? && keep.None?)) || (keep.Some? && keep.value < 1)
  }

  lemma NoOtherStage(fault: Fault)
    ensures fault in {None, Some(Collecting), Some(Saving), Some(Watching), Some(Recording), Some(Pruning)}
  {
    match fault
    case None =>
    case Some(Collecting) =>
    case Some(Saving) =>
    case Some(Watching) =>
    case Some(Recording) =>
    case Some(Pruning) =>
  }

  function CycleRows(rows: seq<SnapshotRow>, node: string, keep: Option<int>, fault: Fault): seq<SnapshotRow> {
    if fault == Some(Collecting) || fault == Some(Saving) then rows
    else if Fails(keep, fault) || keep.None? then Saved(rows, node)
    else Pruned(Saved(rows, node), node, keep.value)
  }

  function CycleEvents(keep: Option<int>, fault: Fault): seq<Event> {
    (if fault.None? || fault.value.Pruning? then [Observation] else [])
    + (if Fails(keep, fault) then [ObserverError] else [])
  }

  /** The log after the given attempts. */
  function LogAfter(log: seq<Event>, keep: Option<int>, faults: seq<Fault>): seq<Event> {
    if faults == [] then log
    else LogAfter(log, keep, faults[..|faults| - 1]) + CycleEvents(keep, faults[|faults| - 1])
  }

  /** The table after the given attempts. */
  function RowsAfter(rows: seq<SnapshotRow>, node: string, keep: Option<int>, faults: seq<Fault>): seq<SnapshotRow> {
    if faults == [] then rows
    else CycleRows(RowsAfter(rows, node, keep, faults[..|faults| - 1]), node, keep, faults[|faults| - 1])
  }

  /** The log and the table after the first `n` attempts. */
  ghost predicate Recorded(log: seq<Event>, rows: seq<SnapshotRow>, node: string, keep: Option<int>, faults: seq<Fault>,
                           n: nat, log': seq<Event>, rows': seq<SnapshotRow>)
    requires n <= |faults|
  {
    log' == LogAfter(log, keep, faults[..n]) && rows' == RowsAfter(rows, node, keep, faults[..n])
  }

  lemma OneMoreRecorded(log: seq<Event>, rows: seq<SnapshotRow>, node: string, keep: Option<int>, faults: seq<Fault>,
                        n: nat, log': seq<Event>, rows': seq<SnapshotRow>)
    requires n < |faults| && Recorded(log, rows, node, keep, faults, n, log', rows')
    ensures Recorded(log, rows, node, keep, faults, n + 1, log' + CycleEvents(keep, faults[n]),
                     CycleRows(rows', node, keep, faults[n]))
  {
    assert faults[..n + 1][..n] == faults[..n];
  }

  /** Which of the attempts fail. */
  function Outcomes(keep: Option<int>, faults: seq<Fault>): (failed: seq<bool>)
    ensures |failed| == |faults| && forall i :: 0 <= i < |faults| ==> failed[i] == Fails(keep, faults[i])
  {
    seq(|faults|, i requires 0 <= i < |faults| => Fails(keep, faults[i]))
  }

  function Failures(failed: seq<bool>): nat {
    if failed == [] then 0 else Failures(failed[..|failed| - 1]) + (if failed[|failed| - 1] then 1 else 0)
  }

  // ----- The loop

  function Limit(maxErrors: int): nat { if maxErrors < 1 then 1 else maxErrors }

  function Max(a: int, b: int): int { if a < b then b else a }

  /** The last `limit` of the first `n` attempts all failed. */
  ghost predicate RunEndsAt(failed: seq<bool>, limit: nat, n: nat) {
    limit <= n <= |failed| && forall i :: n - limit <= i < n ==> failed[i]
  }

  function Attempts(s: Summary): nat {
    if s.reason.TooManyErrors? then s.cycles + 1 else s.cycles
  }

  /** Where the loop ends, from given counts. */
  function Loop(failed: seq<bool>, iterations: Option<int>, maxErrors: int,
                cycles: nat, errors: nat, consecutive: nat): (s: Summary)
    requires cycles <= |failed|
    ensures Attempts(s) <= |failed|
    decreases |failed| - cycles
  {
    if cycles == |failed| then Summary(cycles, errors, Stopped)
    else
      var errors' := if failed[cycles] then errors + 1 else errors;
      var consecutive' := if failed[cycles] then consecutive + 1 else 0;
      if failed[cycles] && consecutive' >= maxErrors then Summary(cycles, errors', TooManyErrors)
      else if iterations.Some? && cycles + 1 >= iterations.value then Summary(cycles + 1, errors', Iterations)
      else Loop(failed, iterations, maxErrors, cycles + 1, errors', consecutive')
  }

  /** One attempt that the loop goes on after. */
  lemma LoopGoesOn(failed: seq<bool>, iterations: Option<int>, maxErrors: int, cycles: nat, errors: nat,
                   consecutive: nat)
    requires cycles < |failed|
    requires !(failed[cycles] && consecutive + 1 >= maxErrors) && !(iterations.Some? && cycles + 1 >= iterations.value)
    ensures
      Loop(failed, iterations, maxErrors, cycles, errors, consecutive)
      == Loop(failed, iterations, maxErrors, cycles + 1, if failed[cycles] then errors + 1 else errors,
              if failed[cycles] then consecutive + 1 else 0)
  {
  }

  /** One attempt that ends the loop. */
  lemma LoopEnds(failed: seq<bool>, iterations: Option<int>, maxErrors: int, cycles: nat, errors: nat, consecutive: nat)
    requires cycles < |failed|
    requires (failed[cycles] && consecutive + 1 >= maxErrors) || (iterations.Some? && cycles + 1 >= iterations.value)
    ensures
      Loop(failed, iterations, maxErrors, cycles, errors, consecutive)
      == if failed[cycles] && consecutive + 1 >= maxErrors then Summary(cycles, errors + 1, TooManyErrors)
         else Summary(cycles + 1, if failed[cycles] then errors + 1 else errors, Iterations)
  {
  }

  /** `c` counts the failures since the last success among the first `n` attempts. */
  ghost predicate Trailing(failed: seq<bool>, n: nat, c: nat) {
    && c <= n <= |failed|
    && (forall i :: n - c <= i < n ==> failed[i])
    && (c < n ==> !failed[n - c - 1])
  }

  lemma RunEndsWithTheCount(failed: seq<bool>, limit: nat, n: nat, c: nat)
    requires Trailing(failed, n, c) && limit >= 1
    ensures RunEndsAt(failed, limit, n) <==> c >= limit
  {
  }

  /**
   The loop gives up exactly when its last attempts are the first run of that many
   failures; attempts then exceed cycles by one, and otherwise equal them.
   */
  lemma {:induction false} LoopEndsAtTheFirstRun(failed: seq<bool>, iterations: Option<int>, maxErrors: int,
                                                 cycles: nat, errors: nat, consecutive: nat)
    requires Trailing(failed, cycles, consecutive) && consecutive < Limit(maxErrors)
    ensures
      var s := Loop(failed, iterations, maxErrors, cycles, errors, consecutive);
      && cycles <= Attempts(s) <= |failed|
      && (s.reason.TooManyErrors? <==> RunEndsAt(failed, Limit(maxErrors), Attempts(s)))
      && (forall n :: cycles <= n < Attempts(s) ==> !RunEndsAt(failed, Limit(maxErrors), n))
    decreases |failed| - cycles
  {
    RunEndsWithTheCount(failed, Limit(maxErrors), cycles, consecutive);
    if cycles < |failed| {
      var errors' := if failed[cycles] then errors + 1 else errors;
      var consecutive' := if failed[cycles] then consecutive + 1 else 0;
      RunEndsWithTheCount(failed, Limit(maxErrors), cycles + 1, consecutive');
      if !(failed[cycles] && consecutive' >= maxErrors) && !(iterations.Some? && cycles + 1 >= iterations.value) {
        LoopEndsAtTheFirstRun(failed, iterations, maxErrors, cycles + 1, errors', consecutive');
      }
    }
  }

  /** The loop counts the failures among its attempts, and a bounded run ends within its bound whatever happens. */
  lemma {:induction false} LoopCountsItsAttempts(failed: seq<bool>, iterations: Option<int>, maxErrors: int,
                                                 cycles: nat, errors: nat, consecutive: nat)
    requires cycles <= |failed| && errors == Failures(failed[..cycles])
    requires iterations.Some? ==> cycles < Max(iterations.value, 1)
    ensures
      var s := Loop(failed, iterations, maxErrors, cycles, errors, consecutive);
      && s.errors == Failures(failed[..Attempts(s)])
      && (iterations.Some? ==> Attempts(s) <= Max(iterations.value, 1))
      && (s.reason.Iterations? <==> iterations.Some? && s.cycles >= Max(iterations.value, 1))
      && (s.reason.Stopped? ==> Attempts(s) == |failed|)
    decreases |failed| - cycles
  {
    if cycles < |failed| {
      assert failed[..cycles + 1] == failed[..cycles] + [failed[cycles]];
      var errors' := if failed[cycles] then errors + 1 else errors;
      var consecutive' := if failed[cycles] then consecutive + 1 else 0;
      if !(failed[cycles] && consecutive' >= maxErrors) && !(iterations.Some? && cycles + 1 >= iterations.value) {
        LoopCountsItsAttempts(failed, iterations, maxErrors, cycles + 1, errors', consecutive');
      }
    }
  }

  /** The same for a whole run. */
  lemma ObserverEndsAsCounted(failed: seq<bool>, iterations: Option<int>, maxErrors: int)
    ensures
      var s := Loop(failed, iterations, maxErrors, 0, 0, 0);
      && (s.reason.TooManyErrors? <==> RunEndsAt(failed, Limit(maxErrors), Attempts(s)))
      && (forall n :: 0 <= n < Attempts(s) ==> !RunEndsAt(failed, Limit(maxErrors), n))
      && s.errors == Failures(failed[..Attempts(s)])
      && (s.reason.Iterations? <==> iterations.Some? && s.cycles >= Max(iterations.value, 1))
      && (s.reason.Stopped? ==> Attempts(s) == |failed|)
      && (iterations.Some? ==> Attempts(s) <= Max(iterations.value, 1))
  {
    assert failed[..0] == [];
    LoopEndsAtTheFirstRun(failed, iterations, maxErrors, 0, 0, 0);
    LoopCountsItsAttempts(failed, iterations, maxErrors, 0, 0, 0);
  }

  /** The most snapshots of the node that retention allows while failures are in progress. */
  function Bound(initial: nat, keep: Option<int>, failures: nat): int
    requires keep.Some?
  {
    Max(initial, keep.value) + failures
  }

  /** The rows of the node, and the most there have been, after so many failures in a row. */
  predicate WithinBound(count: nat, peak: nat, peakBefore: nat, initial: nat, keep: Option<int>, failures: nat,
                        limit: nat)
  {
    keep.Some? ==> count <= Bound(initial, keep, failures) && peak <= Max(peakBefore, Bound(initial, keep, limit))
  }

  lemma OneMoreWithinBound(count: nat, peak: nat, peakBefore: nat, initial: nat, keep: Option<int>, failures: nat,
                           limit: nat, ok: bool, count': nat, peak': nat)
    requires WithinBound(count, peak, peakBefore, initial, keep, failures, limit) && failures < limit
    requires peak' <= Max(peak, count + 1) && (keep.Some? ==> count' <= if ok then keep.value else count + 1)
    ensures WithinBound(count', peak', peakBefore, initial, keep, if ok then 0 else failures + 1, limit)
  {
  }

  class ObserverDb {
    const node: string
    var rows: seq<SnapshotRow>
    var log: seq<Event>
    ghost var peak: nat  // the most rows of the node that the table has held

    constructor (node: string, rows: seq<SnapshotRow>)
      ensures this.node == node && this.rows == rows && log == [] && peak == |Of(rows, node)|
    {
      this.node, this.rows, this.log, this.peak := node, rows, [], |Of(rows, node)|;
    }

    method Save()
      modifies this`rows, this`peak
      ensures rows == Saved(old(rows), node) && peak == Max(old(peak), |Of(rows, node)|)
    {
      rows := Saved(rows, node);
      peak := Max(peak, |Of(rows, node)|);
    }

    /** One deletion in a transaction; refused when told to keep fewer than one. */
    method Prune(keep: int, fails: bool) returns (removed: Option<nat>)
      modifies this`rows, this`peak
      ensures removed.Some? <==> keep >= 1 && !fails
      ensures rows == if removed.Some? then Pruned(old(rows), node, keep) else old(rows)
      ensures removed.Some? ==> removed.value == |old(rows)| - |rows|
      ensures peak == Max(old(peak), |Of(rows, node)|) || (rows == old(rows) && peak == old(peak))
    {
      if keep < 1 || fails { return None; }
      PruningShrinks(rows, node, keep);
      var before := |rows|;
      rows := Pruned(rows, node, keep);
      peak := Max(peak, |Of(rows, node)|);
      removed := Some(before - |rows|);
    }

    method Cycle(keep: Option<int>, fault: Fault) returns (ok: bool)
      modifies this
      ensures ok <==> !Fails(keep, fault)
      ensures rows == CycleRows(old(rows), node, keep, fault)
      ensures log == old(log) + (if fault.None? || fault.value.Pruning? then [Observation] else [])
      ensures old(peak) <= peak <= Max(old(peak), |Of(old(rows), node)| + 1)
      ensures keep.Some? ==> |Of(rows, node)| <= if ok then keep.value else |Of(old(rows), node)| + 1
    {
      ghost var before := rows;
      CycleBound(rows, node, keep, fault);
      if fault == Some(Collecting) { return false; }
      if fault == Some(Saving) { return false; }
      Save();
      if fault == Some(Watching) { return false; }
      if fault == Some(Recording) { return false; }
      log := log + [Observation];
      if keep.Some? {
        var removed := Prune(keep.value, fault == Some(Pruning));
        NoOtherStage(fault);
        assert rows == CycleRows(before, node, keep, fault);
        return removed.Some?;
      }
      ok := true;
    }

    /** A cycle whose failure is recorded: a bad cycle must not end the observer. */
    method Attempt(keep: Option<int>, faults: seq<Fault>, n: nat, ghost from: seq<Event>, ghost start: seq<SnapshotRow>)
      returns (ok: bool)
      requires n < |faults| && Recorded(from, start, node, keep, faults, n, log, rows)
      modifies this
      ensures ok <==> !Fails(keep, faults[n])
      ensures Recorded(from, start, node, keep, faults, n + 1, log, rows)
      ensures old(peak) <= peak <= Max(old(peak), |Of(old(rows), node)| + 1)
      ensures keep.Some? ==> |Of(rows, node)| <= if ok then keep.value else |Of(old(rows), node)| + 1
    {
      OneMoreRecorded(from, start, node, keep, faults, n, log, rows);
      ok := Cycle(keep, faults[n]);
      if !ok { log := log + [ObserverError]; }
    }

    /** The loop.  `faults` lists the attempts that can be made before the stop signal is seen. */
    method Watch(faults: seq<Fault>, iterations: Option<int>, keep: Option<int>, maxErrors: int) returns (s: Summary)
      modifies this
      ensures s == Loop(Outcomes(keep, faults), iterations, maxErrors, 0, 0, 0)
      ensures Recorded(old(log), old(rows), node, keep, faults, Attempts(s), log, rows)
      ensures keep.Some? ==> peak <= Max(old(peak), Bound(|Of(old(rows), node)|, keep, Limit(maxErrors)))
    {
      var cycles: nat, errors: nat, consecutive: nat := 0, 0, 0;
      ghost var limit, initial := Limit(maxErrors), |Of(rows, node)|;
      ghost var failed := Outcomes(keep, faults);
      ghost var goal := Loop(failed, iterations, maxErrors, 0, 0, 0);
      assert faults[..0] == [];
      while cycles < |faults|
        invariant cycles <= |faults| && consecutive < limit
        invariant goal == Loop(failed, iterations, maxErrors, cycles, errors, consecutive)
        invariant Recorded(old(log), old(rows), node, keep, faults, cycles, log, rows)
        invariant WithinBound(|Of(rows, node)|, peak, old(peak), initial, keep, consecutive, limit)
        decreases |faults| - cycles
      {
        ghost var count, most := |Of(rows, node)|, peak;
        var ok := Attempt(keep, faults, cycles, old(log), old(rows));
        OneMoreWithinBound(count, most, old(peak), initial, keep, consecutive, limit, ok, |Of(rows, node)|, peak);
        assert ok == !failed[cycles];
        if !ok && consecutive + 1 >= maxErrors {
          LoopEnds(failed, iterations, maxErrors, cycles, errors, consecutive);
          return Summary(cycles, errors + 1, TooManyErrors);
        }
        if iterations.Some? && cycles + 1 >= iterations.value {
          LoopEnds(failed, iterations, maxErrors, cycles, errors, consecutive);
          return Summary(cycles + 1, if ok then errors else errors + 1, Iterations);
        }
        LoopGoesOn(failed, iterations, maxErrors, cycles, errors, consecutive);
        if ok {
          consecutive := 0;
        } else {
          errors, consecutive := errors + 1, consecutive + 1;
        }
        cycles := cycles + 1;
      }
      s := Summary(cycles, errors, Stopped);
    }

    method Observe(interval: real, faults: seq<Fault>, iterations: Option<int>, keep: Option<int>, maxErrors: int)
      returns (r: Result<Summary, ObserveError>)
      modifies this
      ensures r == if interval <= 0.0 then Err(BadInterval)
               else Ok(Loop(Outcomes(keep, faults), iterations, maxErrors, 0, 0, 0))
      ensures r.Err? ==> rows == old(rows) && log == old(log) && peak == old(peak)
      ensures r.Ok? ==> rows == RowsAfter(old(rows), node, keep, faults[..Attempts(r.value)])
      ensures r.Ok? ==>
        log == LogAfter(old(log) + [ObserverStarted], keep, faults[..Attempts(r.value)]) + [ObserverStopped(r.value)]
      ensures keep.Some? ==> peak <= Max(old(peak), Bound(|Of(old(rows), node)|, keep, Limit(maxErrors)))
    {
      if interval <= 0.0 { return Err(BadInterval); }
      log := log + [ObserverStarted];
      var s := Watch(faults, iterations, keep, maxErrors);
      log := log + [ObserverStopped(s)];
      r := Ok(s);
    }
  }

  /** A cycle leaves at most one snapshot more, and at most `keep` when it succeeds. */
  lemma CycleBound(rows: seq<SnapshotRow>, node: string, keep: Option<int>, fault: Fault)
    ensures |Of(Saved(rows, node), node)| == |Of(rows, node)| + 1
    ensures |Of(CycleRows(rows, node, keep, fault), node)| <= |Of(rows, node)| + 1
    ensures keep.Some? && !Fails(keep, fault) ==> |Of(CycleRows(rows, node, keep, fault), node)| <= keep.value
  {
    var saved := Saved(rows, node);
    SavingAddsOne(rows, saved[|rows|], node);
    if !Fails(keep, fault) && keep.Some? { PruningKeepsTheNewest(saved, node, keep.value); }
  }

  // ----- What one cycle and a whole run do

  /**
   A cycle fails at every stage but pruning, and there when it is told to prune and cannot, or
   to keep fewer than one.  It is observed once everything before pruning has gone well, and a
   failure is recorded whether or not it was.
   */
  lemma CycleExactly(keep: Option<int>, fault: Fault)
    ensures Fails(keep, fault) <==>
      || fault in {Some(Collecting), Some(Saving), Some(Watching), Some(Recording)}
      || (keep.Some? && (keep.value < 1 || fault == Some(Pruning)))
    ensures Observation in CycleEvents(keep, fault) <==> fault.None? || fault == Some(Pruning)
    ensures ObserverError in CycleEvents(keep, fault) <==>
      || fault in {Some(Collecting), Some(Saving), Some(Watching), Some(Recording)}
      || (keep.Some? && (keep.value < 1 || fault == Some(Pruning)))
    ensures Observation in CycleEvents(keep, fault) && ObserverError in CycleEvents(keep, fault) ==>
      CycleEvents(keep, fault) == [Observation, ObserverError]
    ensures |CycleEvents(keep, fault)| <= 2
  {
    NoOtherStage(fault);
  }

  /** The rows of the node after a cycle, oldest first, and those of any other node. */
  lemma RowsExactly(rows: seq<SnapshotRow>, node: string, keep: Option<int>, fault: Fault, other: string)
    requires other != node
    ensures
      var (before, after) := (Of(rows, node), Of(CycleRows(rows, node, keep, fault), node));
      var next := SnapshotRow(if rows == [] then 1 else rows[|rows| - 1].id + 1, node);
      after == if fault == Some(Collecting) || fault == Some(Saving) then before
               else if fault.None? && keep.Some? && 1 <= keep.value && keep.value <= |before|
               then before[|before| + 1 - keep.value..] + [next]
               else before + [next]
    ensures Of(CycleRows(rows, node, keep, fault), other) == Of(rows, other)
  {
    var saved := Saved(rows, node);
    NoOtherStage(fault);
    SavingAddsOne(rows, saved[|rows|], node);
    SavingAddsOne(rows, saved[|rows|], other);
    if !Fails(keep, fault) && keep.Some? {
      PruningKeepsTheNewest(saved, node, keep.value);
      PruningKeepsOtherNodes(saved, node, keep.value, other);
    }
  }

  /** Over any run the ids stay in order and the rows of other nodes stay as they are. */
  lemma {:induction false} RunKeepsOtherNodes(rows: seq<SnapshotRow>, node: string, keep: Option<int>,
                                              faults: seq<Fault>, other: string)
    requires other != node && Ordered(rows)
    ensures Ordered(RowsAfter(rows, node, keep, faults))
    ensures Of(RowsAfter(rows, node, keep, faults), other) == Of(rows, other)
  {
    if faults != [] {
      var n := |faults| - 1;
      RunKeepsOtherNodes(rows, node, keep, faults[..n], other);
      var before := RowsAfter(rows, node, keep, faults[..n]);
      RowsExactly(before, node, keep, faults[n], other);
      if !Fails(keep, faults[n]) && keep.Some? { PruningKeepsTheOrder(Saved(before, node), node, keep.value); }
    }
  }
}
