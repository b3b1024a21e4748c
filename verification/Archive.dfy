/** The archived store of original power settings: exclusive creation, and link-then-remove. */
module Archive {
  import opened Wrappers
  import opened Decimal
  import opened StateFile

  /**
   The state directory, its archive directory, and the files behind their names: a name
   leads to a file number, and two names may lead to the same file.
   */
  datatype Disk = Disk(root: map<string, nat>, archive: map<string, nat>, files: seq<string>)

  predicate WellFormed(d: Disk) {
    (forall name :: name in d.root ==> d.root[name] < |d.files|)
    && forall name :: name in d.archive ==> d.archive[name] < |d.files|
  }

  datatype StoreError =
    | NotEncodable(error: Error)
    | BadNode
    | NoSnapshot
    | AlreadyExists
    | NotDecodable(error: Error)
    | OtherNode(node: string)
    | WriteFailed
    | AlreadyArchived
    | LinkFailed
    | SyncFailed
    | RemoveFailed
    | InconsistentName(name: string)

  /** How writing the new file goes; the file may stay behind when removing it fails too. */
  datatype Writing = AllWritten | WriteFails(written: nat, removed: bool)

  datatype Fault = NoFault | LinkFails | SyncArchiveFails | RemoveFails | SyncRootFails

  const SUFFIX := ".original-power-state"

  function RootName(node: string): string { node + SUFFIX }

  function ArchiveName(node: string, seconds: nat): string { node + ['.'] + Print(seconds) + SUFFIX }

  // ----- System calls

  function Created(d: Disk, name: string): Disk {
    Disk(d.root[name := |d.files|], d.archive, d.files + [""])
  }

  function Written(d: Disk, name: string, text: string): Disk
    requires WellFormed(d) && name in d.root
  {
    d.(files := d.files[d.root[name] := text])
  }

  function Linked(d: Disk, name: string, dest: string): Disk
    requires name in d.root
  {
    d.(archive := d.archive[dest := d.root[name]])
  }

  function Removed(d: Disk, name: string): Disk { d.(root := d.root - {name}) }

  // ----- Operations: the result, and the disk after each system call

  function SaveResult(d: Disk, s: State, w: Writing, num: Numbers): Result<string, StoreError> {
    match Encode(s, num)
    case Err(e) => Err(NotEncodable(e))
    case Ok(_) =>
      if RootName(s.node) in d.root then Err(AlreadyExists)
      else if w.WriteFails? then Err(WriteFailed)
      else Ok(RootName(s.node))
  }

  function WrittenText(s: State, w: Writing, num: Numbers): string
    requires Encode(s, num).Ok?
  {
    var text := Encode(s, num).value;
    if w.WriteFails? && w.written < |text| then text[..w.written] else text
  }

  function SaveStates(d: Disk, s: State, w: Writing, num: Numbers): (states: seq<Disk>)
    requires WellFormed(d)
    ensures |states| >= 1
  {
    if Encode(s, num).Err? || RootName(s.node) in d.root then [d]
    else
      var name := RootName(s.node);
      var created := Created(d, name);
      var written := Written(created, name, WrittenText(s, w, num));
      if w.WriteFails? && w.removed then [d, created, written, Removed(written, name)] else [d, created, written]
  }

  function Load(d: Disk, node: string, num: Numbers): Result<State, StoreError>
    requires WellFormed(d)
  {
    if !IsToken(node) then Err(BadNode)
    else if RootName(node) !in d.root then Err(NoSnapshot)
    else
      match Decode(d.files[d.root[RootName(node)]], num)
      case Err(e) => Err(NotDecodable(e))
      case Ok(s) => if s.node != node then Err(OtherNode(s.node)) else Ok(s)
  }

  function RetireResult(d: Disk, node: string, f: Fault, num: Numbers): Result<string, StoreError>
    requires WellFormed(d)
  {
    match Load(d, node, num)
    case Err(e) => Err(e)
    case Ok(s) =>
      var dest := ArchiveName(node, s.seconds);
      if dest in d.archive then Err(AlreadyArchived)
      else
        match f
        case NoFault => Ok(dest)
        case LinkFails => Err(LinkFailed)
        case SyncArchiveFails | SyncRootFails => Err(SyncFailed)
        case RemoveFails => Err(RemoveFailed)
  }

  function RetireStates(d: Disk, node: string, f: Fault, num: Numbers): (states: seq<Disk>)
    requires WellFormed(d)
    ensures |states| >= 1
  {
    match Load(d, node, num)
    case Err(e) => [d]
    case Ok(s) =>
      var dest := ArchiveName(node, s.seconds);
      if dest in d.archive || f.LinkFails? then [d]
      else
        var linked := Linked(d, RootName(node), dest);
        if f.SyncArchiveFails? || f.RemoveFails? then [d, linked] else [d, linked, Removed(linked, RootName(node))]
  }

  // ----- Looking through the archive

  predicate StartsWith(s: string, prefix: string) { |prefix| <= |s| && s[..|prefix|] == prefix }

  predicate EndsWith(s: string, suffix: string) { |suffix| <= |s| && s[|s| - |suffix|..] == suffix }

  predicate Considered(name: string, node: string) { StartsWith(name, node + ".") && EndsWith(name, SUFFIX) }

  /** What the archive entry of the given name holds for the node. */
  function EntryOf(d: Disk, name: string, node: string, num: Numbers): Result<State, StoreError>
    requires WellFormed(d)
  {
    if name !in d.archive then Err(NoSnapshot)
    else
      match Decode(d.files[d.archive[name]], num)
      case Err(e) => Err(NotDecodable(e))
      case Ok(s) =>
        if s.node != node then Err(OtherNode(s.node))
        else if name != ArchiveName(node, s.seconds) then Err(InconsistentName(name))
        else Ok(s)
  }

  /** How much the archive name adds to the node's count. */
  function Verdict(d: Disk, name: string, node: string, num: Numbers): Result<nat, StoreError>
    requires WellFormed(d)
  {
    if !Considered(name, node) then Ok(0)
    else match EntryOf(d, name, node, num) case Err(e) => Err(e) case Ok(_) => Ok(1)
  }

  /** Counts on over the names, in the order the directory lists them, up to the first error. */
  function Inspected(d: Disk, names: seq<string>, count: nat, node: string, num: Numbers): Result<nat, StoreError>
    requires WellFormed(d)
  {
    if names == [] then Ok(count)
    else
      match Verdict(d, names[0], node, num)
      case Err(e) => Err(e)
      case Ok(k) => Inspected(d, names[1..], count + k, node, num)
  }

  lemma InspectedStep(d: Disk, names: seq<string>, i: nat, count: nat, node: string, num: Numbers)
    requires WellFormed(d) && i < |names|
    ensures Inspected(d, names[i..], count, node, num)
         == (match Verdict(d, names[i], node, num) case Err(e) => Err(e) case Ok(k) => Inspected(d, names[i + 1..],
                                                                                                 count + k, node, num))
  {
    assert names[i..][1..] == names[i + 1..];
  }

  class OriginalPowerStateStore {
    var root: map<string, nat>
    var archive: map<string, nat>
    var files: seq<string>
    /** The disk before the latest operation, and after each of its system calls. */
    ghost var trace: seq<Disk>
    const num: Numbers

    function View(): Disk reads this { Disk(root, archive, files) }

    constructor (num: Numbers)
      ensures View() == Disk(map[], map[], []) && trace == [] && this.num == num
    {
      root, archive, files, trace := map[], map[], [], [];
      this.num := num;
    }

    /** Creates the node's snapshot, never over an existing one. */
    method Save(s: State, w: Writing) returns (r: Result<string, StoreError>)
      requires WellFormed(View())
      modifies this
      ensures r == SaveResult(old(View()), s, w, num)
      ensures trace == SaveStates(old(View()), s, w, num)
      ensures View() == trace[|trace| - 1]
    {
      trace := [View()];
      var encoded := Encode(s, num);
      if encoded.Err? { return Err(NotEncodable(encoded.error)); }
      var path := RootName(s.node);
      if path in root { return Err(AlreadyExists); }
      root, files := root[path := |files|], files + [""];
      trace := trace + [View()];
      var text := encoded.value;
      if w.WriteFails? && w.written < |text| { text := text[..w.written]; }
      files := files[root[path] := text];
      trace := trace + [View()];
      if w.AllWritten? { return Ok(path); }
      if w.removed {
        root := root - {path};
        trace := trace + [View()];
      }
      r := Err(WriteFailed);
    }

    /** Moves the node's snapshot into the archive, never over an existing entry. */
    method Retire(node: string, f: Fault) returns (r: Result<string, StoreError>)
      requires WellFormed(View())
      modifies this
      ensures r == RetireResult(old(View()), node, f, num)
      ensures trace == RetireStates(old(View()), node, f, num)
      ensures View() == trace[|trace| - 1]
    {
      trace := [View()];
      var loaded := Load(View(), node, num);
      if loaded.Err? { return Err(loaded.error); }
      var source, dest := RootName(node), ArchiveName(node, loaded.value.seconds);
      if dest in archive { return Err(AlreadyArchived); }
      if f.LinkFails? { return Err(LinkFailed); }
      archive := archive[dest := root[source]];
      trace := trace + [View()];
      if f.SyncArchiveFails? { return Err(SyncFailed); }
      if f.RemoveFails? { return Err(RemoveFailed); }
      root := root - {source};
      trace := trace + [View()];
      if f.SyncRootFails? { return Err(SyncFailed); }
      r := Ok(dest);
    }

    method InspectArchive(names: seq<string>, node: string) returns (r: Result<nat, StoreError>)
      requires WellFormed(View())
      ensures r == Inspected(View(), names, 0, node, num)
    {
      var d := View();
      var count := 0;
      var i := 0;
      while i < |names|
        invariant 0 <= i <= |names|
        invariant Inspected(d, names, 0, node, num) == Inspected(d, names[i..], count, node, num)
      {
        InspectedStep(d, names, i, count, node, num);
        var verdict := Verdict(d, names[i], node, num);
        if verdict.Err? { return Err(verdict.error); }
        count := count + verdict.value;
        i := i + 1;
      }
      r := Ok(count);
    }
  }
}
