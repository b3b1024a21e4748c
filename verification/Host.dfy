/**
 An unreliable host: a set of existing cpufreq files, and reads and writes whose
 outcome the environment chooses.

 The environment is an arbitrary sequence of outcomes, one for each operation, so a
 statement about every environment is a statement about every finite run.
 */
module Host {
  import opened Wrappers

  datatype File = Governor | ScalingMax | ScalingMin | HardwareMin | HardwareMax

  /** A file in the cpufreq directory of a CPU. */
  datatype Path = Path(cpu: string, file: File)

  type Files = map<Path, Value>

  /** The stripped contents of a sysfs file: a word or a canonically printed number. */
  datatype Value = Name(text: string) | Khz(amount: int)

  /** What a write of an existing file does. */
  datatype WriteOutcome =
    | Takes
    | Keeps                        // returns normally, file unchanged
    | Stores(other: Value)         // returns normally, file holds something else
    | Raises(left: Option<Value>)  // raises; the file keeps its value or is left with another

  datatype Io = Io(write: WriteOutcome, readFails: bool)

  /** The outcomes in the order of the operations; past its end nothing fails. */
  type Env = seq<Io>

  function Next(env: Env, tick: nat): Io {
    if tick < |env| then env[tick] else Io(Takes, false)
  }

  /** `history` holds the files after each write: the points where a crash can stop a run. */
  datatype World = World(files: Files, tick: nat, history: seq<Files>)

  datatype WriteReport = Returned | Raised

  function WriteAt(env: Env, w: World, path: Path, value: Value): (World, WriteReport)
  {
    var outcome := if path in w.files then Next(env, w.tick).write else Raises(None);
    var files := AfterWrite(w.files, path, value, outcome);
    (World(files, w.tick + 1, w.history + [files]), if outcome.Raises? then Raised else Returned)
  }

  function AfterWrite(files: Files, path: Path, value: Value, outcome: WriteOutcome): Files {
    match outcome
    case Takes => files[path := value]
    case Keeps => files
    case Stores(other) => files[path := other]
    case Raises(None) => files
    case Raises(Some(left)) => files[path := left]
  }

  /** A read gives the file's contents, or nothing when the file is missing or unreadable. */
  function ReadAt(env: Env, w: World, path: Path): (World, Option<Value>)
  {
    (w.(tick := w.tick + 1),
     if path in w.files && !Next(env, w.tick).readFails then Some(w.files[path]) else None)
  }

  /** Raising writes change nothing: the one assumption the Python rollback needs. */
  ghost predicate CleanRaises(env: Env) {
    forall io :: io in env && io.write.Raises? ==> io.write.left.None?
  }

  /** Every write either stores its value or changes nothing. */
  ghost predicate AllOrNothing(env: Env) {
    CleanRaises(env) && forall io :: io in env ==> !io.write.Stores?
  }

  /** Nothing fails. */
  ghost predicate Faultless(env: Env) {
    forall io :: io in env ==> io == Io(Takes, false)
  }

  lemma FaultlessIo(env: Env, tick: nat)
    requires Faultless(env)
    ensures Next(env, tick) == Io(Takes, false)
  {
    if tick < |env| { assert env[tick] in env; }
  }

  /** The host as an object whose files the drivers change in place. */
  class CpuHost {
    var files: Files
    var tick: nat
    ghost var history: seq<Files>
    const env: Env

    constructor (files: Files, env: Env)
      ensures this.env == env && View() == World(files, 0, [files])
    {
      this.files, this.tick, this.history, this.env := files, 0, [files], env;
    }

    ghost function View(): World
      reads this
    {
      World(files, tick, history)
    }

    method Write(path: Path, value: Value) returns (report: WriteReport)
      modifies this
      ensures (View(), report) == WriteAt(env, old(View()), path, value)
    {
      var outcome := if path in files then Next(env, tick).write else Raises(None);
      match outcome {
        case Takes => files := files[path := value];
        case Keeps =>
        case Stores(other) => files := files[path := other];
        case Raises(None) =>
        case Raises(Some(left)) => files := files[path := left];
      }
      report := if outcome.Raises? then Raised else Returned;
      tick, history := tick + 1, history + [files];
    }

    method Read(path: Path) returns (found: Option<Value>)
      modifies this`tick
      ensures (View(), found) == ReadAt(env, old(View()), path)
    {
      found := if path in files && !Next(env, tick).readFails then Some(files[path]) else None;
      tick := tick + 1;
    }
  }
}
