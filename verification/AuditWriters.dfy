/**
 Any number of writers of the audit log.  Each takes the write lock, reads the head,
 inserts its row and commits; it may roll back or crash at any point.
 */
module AuditWriters {
  import opened Wrappers
  import opened Audit

  /** Where a writer's transaction stands. */
  datatype Phase = Idle | Locked | HeadRead(prev: string) | Inserted(row: AuditRow)

  /** Committed rows, the holder of the write lock, and the writers with an open transaction. */
  datatype Db = Db(committed: seq<AuditRow>, lock: Option<nat>, phases: map<nat, Phase>)

  datatype Action =
    | Begin(writer: nat)
    | ReadHead(writer: nat)
    | Insert(writer: nat, at: int, event: string, detail: string)
    | Commit(writer: nat)
    | Abort(writer: nat)  // rollback, or a crash of the writer

  function PhaseOf(db: Db, writer: nat): Phase {
    if writer in db.phases then db.phases[writer] else Idle
  }

  predicate Enabled(db: Db, a: Action) {
    match a
    case Begin(w) => PhaseOf(db, w).Idle? && db.lock.None?
    case ReadHead(w) => PhaseOf(db, w).Locked?
    case Insert(w, _, _, _) => PhaseOf(db, w).HeadRead?
    case Commit(w) => PhaseOf(db, w).Inserted?
    case Abort(w) => !PhaseOf(db, w).Idle?
  }

  function Step(hash: Hash, db: Db, a: Action): Db
    requires Enabled(db, a)
  {
    match a
    case Begin(w) => db.(lock := Some(w), phases := db.phases[w := Locked])
    case ReadHead(w) => db.(phases := db.phases[w := HeadRead(Head(db.committed))])
    case Insert(w, at, event, detail) =>
      db.(phases := db.phases[w := Inserted(Chained(hash, PhaseOf(db, w).prev, at, event, detail))])
    case Commit(w) => Db(db.committed + [PhaseOf(db, w).row], None, db.phases[w := Idle])
    case Abort(w) => db.(lock := None, phases := db.phases[w := Idle])
  }

  predicate EnabledAll(hash: Hash, db: Db, actions: seq<Action>)
    decreases |actions|
  {
    actions == [] || (Enabled(db, actions[0]) && EnabledAll(hash, Step(hash, db, actions[0]), actions[1..]))
  }

  function RunAll(hash: Hash, db: Db, actions: seq<Action>): Db
    requires EnabledAll(hash, db, actions)
    decreases |actions|
  {
    if actions == [] then db else RunAll(hash, Step(hash, db, actions[0]), actions[1..])
  }

  /** Only the lock holder has an open transaction, and what it has read or inserted continues the committed log. */
  ghost predicate Consistent(hash: Hash, db: Db, start: nat) {
    && SoundFrom(hash, db.committed, start)
    && (forall w: nat :: PhaseOf(db, w).Idle? <==> db.lock != Some(w))
    && (forall w: nat :: PhaseOf(db, w).HeadRead? ==> PhaseOf(db, w).prev == Head(db.committed))
    && (forall w: nat :: PhaseOf(db, w).Inserted? ==>
          var row := PhaseOf(db, w).row;
          row == Chained(hash, Head(db.committed), row.at, row.event, row.detail))
  }

  lemma StepStaysConsistent(hash: Hash, db: Db, start: nat, a: Action)
    requires Consistent(hash, db, start) && Enabled(db, a)
    ensures Consistent(hash, Step(hash, db, a), start) && db.committed <= Step(hash, db, a).committed
  {
    assert PhaseOf(db, a.writer).Idle? <==> db.lock != Some(a.writer);
    if a.Commit? {
      var row := PhaseOf(db, a.writer).row;
      AppendingStaysSound(hash, db.committed, start, row.at, row.event, row.detail);
    }
  }

  /**
   In every interleaving the committed log stays sound, only grows, and no two chained
   rows share a predecessor.
   */
  lemma {:induction false} EveryInterleavingIsSound(hash: Hash, db: Db, start: nat, actions: seq<Action>)
    requires Ideal(hash) && Consistent(hash, db, start) && EnabledAll(hash, db, actions)
    ensures
      var rows := RunAll(hash, db, actions).committed;
      && db.committed <= rows && SoundFrom(hash, rows, start)
      && forall i, j :: start <= i < j < |rows| ==> rows[i].prevHash != rows[j].prevHash
    decreases |actions|
  {
    if actions == [] {
      forall i, j | start <= i < j < |db.committed| ensures db.committed[i].prevHash != db.committed[j].prevHash {
        PredecessorsAreDistinct(hash, db.committed, start, i, j);
      }
    } else {
      StepStaysConsistent(hash, db, start, actions[0]);
      EveryInterleavingIsSound(hash, Step(hash, db, actions[0]), start, actions[1..]);
    }
  }
}
