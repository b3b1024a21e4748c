/** What each operation of the archived store reports, and the disk it leaves, said outright. */
module ArchiveReports {
  import opened Wrappers
  import opened Decimal
  import opened StateFile
  import opened Archive

  function Last(states: seq<Disk>): Disk
    requires states != []
  {
    states[|states| - 1]
  }

  lemma NamesExactly(node: string, seconds: nat)
    ensures RootName(node) == node + ".original-power-state"
    ensures ArchiveName(node, seconds) == node + "." + Print(seconds) + ".original-power-state"
  {
  }

  /** A save succeeds exactly for a valid state under a free name when all is written. */
  lemma SavedExactly(d: Disk, s: State, w: Writing, num: Numbers)
    requires WellFormed(d)
    ensures
      var name := s.node + ".original-power-state";
      var r := SaveResult(d, s, w, num);
      && (r.Ok? <==> Validate(s).None? && name !in d.root && w.AllWritten?)
      && (r.Ok? ==> r.value == name)
      && (Validate(s).Some? ==> r == Err(NotEncodable(Validate(s).value)))
      && (Validate(s).None? && name in d.root ==> r == Err(AlreadyExists))
      && (Validate(s).None? && name !in d.root && !w.AllWritten? ==> r == Err(WriteFailed))
  {
    NamesExactly(s.node, 0);
  }

  /**
   What a save leaves: nothing new after a refusal, the whole text in a new file after a
   success, and after a failed write the beginning of the text unless the file could be removed.
   */
  lemma SavedDisk(d: Disk, s: State, w: Writing, num: Numbers)
    requires WellFormed(d)
    ensures
      var name := s.node + ".original-power-state";
      var last := Last(SaveStates(d, s, w, num));
      && (Validate(s).Some? || name in d.root ==> last == d)
      && (Validate(s).None? && name !in d.root ==>
            var text := Encode(s, num).value;
            var written := if w.WriteFails? && w.written < |text| then w.written else |text|;
            && last.archive == d.archive
            && last.files == d.files + [text[..written]]
            && last.root == if w.WriteFails? && w.removed then d.root else d.root[name := |d.files|])
  {
    NamesExactly(s.node, 0);
    var name := RootName(s.node);
    if Validate(s).None? && name !in d.root {
      var text := Encode(s, num).value;
      assert d.root[name := |d.files|] - {name} == d.root;
      assert text[..|text|] == text;
      forall t: string ensures (d.files + [""])[|d.files| := t] == d.files + [t] { }
    }
  }

  /** A load gives what the node's file holds, if that decodes and is of the node. */
  lemma LoadedExactly(d: Disk, node: string, num: Numbers)
    requires WellFormed(d)
    ensures
      var name := node + ".original-power-state";
      if !IsToken(node) then Load(d, node, num) == Err(BadNode)
      else if name !in d.root then Load(d, node, num) == Err(NoSnapshot)
      else
        match Decode(d.files[d.root[name]], num)
        case Err(e) => Load(d, node, num) == Err(NotDecodable(e))
        case Ok(s) => Load(d, node, num) == if s.node == node then Ok(s) else Err(OtherNode(s.node))
  {
    NamesExactly(node, 0);
  }

  /** A retirement succeeds exactly when the snapshot loads, its archive name is free, and nothing fails. */
  lemma RetiredExactly(d: Disk, node: string, f: Fault, num: Numbers)
    requires WellFormed(d)
    ensures
      var r := RetireResult(d, node, f, num);
      match Load(d, node, num)
      case Err(e) => r == Err(e)
      case Ok(s) =>
        var dest := node + "." + Print(s.seconds) + ".original-power-state";
        && (r.Ok? <==> dest !in d.archive && f.NoFault?)
        && (r.Ok? ==> r.value == dest)
        && (r == Err(AlreadyArchived) <==> dest in d.archive)
        && (r == Err(LinkFailed) <==> dest !in d.archive && f.LinkFails?)
        && (r == Err(SyncFailed) <==> dest !in d.archive && (f.SyncArchiveFails? || f.SyncRootFails?))
        && (r == Err(RemoveFailed) <==> dest !in d.archive && f.RemoveFails?)
  {
    match Load(d, node, num)
    case Err(_) =>
    case Ok(s) => NamesExactly(node, s.seconds);
  }

  /**
   What a retirement leaves: bytes never change, the archive gains the name once the link is
   made, and the active name goes only after that and after the archive is synchronised.
   */
  lemma RetiredDisk(d: Disk, node: string, f: Fault, num: Numbers)
    requires WellFormed(d)
    ensures
      var last := Last(RetireStates(d, node, f, num));
      var name := node + ".original-power-state";
      match Load(d, node, num)
      case Err(_) => last == d
      case Ok(s) =>
        var dest := node + "." + Print(s.seconds) + ".original-power-state";
        && name in d.root && last.files == d.files
        && last.archive == (if dest in d.archive || f.LinkFails? then d.archive else d.archive[dest := d.root[name]])
        && last.root == if dest !in d.archive && (f.NoFault? || f.SyncRootFails?) then d.root - {name} else d.root
  {
    NamesExactly(node, 0);
    match Load(d, node, num)
    case Err(_) =>
    case Ok(s) => NamesExactly(node, s.seconds);
  }

  /**
   An archive entry is passed over unless its name starts with the node and a dot and ends in
   the suffix; then it must decode, be of the node, and be named after its capture second.
   */
  lemma VerdictExactly(d: Disk, name: string, node: string, num: Numbers)
    requires WellFormed(d) && name in d.archive
    ensures
      var v := Verdict(d, name, node, num);
      var (prefix, suffix) := (node + ".", ".original-power-state");
      if |name| < |prefix| || |name| < |suffix| || name[..|prefix|] != prefix || name[|name| - |suffix|..] != suffix
      then v == Ok(0)
      else
        match Decode(d.files[d.archive[name]], num)
        case Err(e) => v == Err(NotDecodable(e))
        case Ok(s) =>
          v == if s.node != node then Err(OtherNode(s.node))
               else if name != node + "." + Print(s.seconds) + ".original-power-state" then Err(InconsistentName(name))
               else Ok(1)
  {
    match Decode(d.files[d.archive[name]], num)
    case Err(_) =>
    case Ok(s) => NamesExactly(node, s.seconds);
  }
}
