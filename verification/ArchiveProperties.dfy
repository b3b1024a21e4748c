/** Runs of the archived store: nothing saved is lost, and nothing archived changes. */
module ArchiveProperties {
  import opened Wrappers
  import opened Decimal
  import opened StateFile
  import opened StateFileProperties
  import opened TornSave
  import opened Archive

  /** An operation, stopped after so many system calls unless it has ended by then. */
  datatype Command =
    | Saving(state: State, writing: Writing, stop: nat)
    | Retiring(node: string, fault: Fault, stop: nat)

  function StatesOf(d: Disk, c: Command, num: Numbers): (states: seq<Disk>)
    requires WellFormed(d)
    ensures |states| >= 1
  {
    match c
    case Saving(s, w, _) => SaveStates(d, s, w, num)
    case Retiring(node, f, _) => RetireStates(d, node, f, num)
  }

  function After(d: Disk, c: Command, num: Numbers): Disk
    requires WellFormed(d)
  {
    StatesOf(d, c, num)[EndOf(d, c, num)]
  }

  /** The system call after which the operation ends. */
  function EndOf(d: Disk, c: Command, num: Numbers): (k: nat)
    requires WellFormed(d)
    ensures k < |StatesOf(d, c, num)|
  {
    var states := StatesOf(d, c, num);
    if c.stop < |states| then c.stop else |states| - 1
  }

  function Run(d: Disk, cs: seq<Command>, num: Numbers): Disk
    requires WellFormed(d)
    decreases |cs|
  {
    if cs == [] then d
    else
      var next := After(d, cs[0], num);
      CallsKeepFilesInPlace(d, cs[0], num);
      Run(next, cs[1..], num)
  }

  const EMPTY := Disk(map[], map[], [])

  // ----- What no system call changes

  /** Archive entries stay, with their bytes, and so do files. */
  ghost predicate Extends(d: Disk, next: Disk) {
    |d.files| <= |next.files|
    && (forall i :: 0 <= i < |d.files| ==> next.files[i] == d.files[i])
    && forall name :: name in d.archive ==> name in next.archive && next.archive[name] == d.archive[name]
  }

  lemma ExtendsFurther(a: Disk, b: Disk, c: Disk)
    requires Extends(a, b) && Extends(b, c)
    ensures Extends(a, c)
  {
  }

  lemma SaveKeepsFilesInPlace(d: Disk, s: State, w: Writing, k: nat, num: Numbers)
    requires WellFormed(d) && k < |SaveStates(d, s, w, num)|
    ensures var next := SaveStates(d, s, w, num)[k];
            WellFormed(next) && Extends(d, next) && next.archive == d.archive
            && (forall name :: name in d.root ==> name in next.root && next.root[name] == d.root[name])
            && forall name :: name in next.root && name !in d.root ==> name == RootName(s.node)
  {
  }

  lemma RetireKeepsFilesInPlace(d: Disk, node: string, f: Fault, k: nat, num: Numbers)
    requires WellFormed(d) && k < |RetireStates(d, node, f, num)|
    ensures var next := RetireStates(d, node, f, num)[k];
            WellFormed(next) && Extends(d, next) && next.files == d.files
            && forall name :: name in d.root && name != RootName(node) ==>
                 name in next.root && next.root[name] == d.root[name]
  {
  }

  /** No system call changes an archive entry, or the bytes behind a name. */
  lemma CallsKeepFilesInPlace(d: Disk, c: Command, num: Numbers)
    requires WellFormed(d)
    ensures WellFormed(After(d, c, num)) && Extends(d, After(d, c, num))
  {
    var k := EndOf(d, c, num);
    match c
    case Saving(s, w, _) => SaveKeepsFilesInPlace(d, s, w, k, num);
    case Retiring(node, f, _) => RetireKeepsFilesInPlace(d, node, f, k, num);
  }

  /** Over any run of operations, stopped anywhere, archive entries never change. */
  lemma {:induction false} ArchiveOnlyGrows(d: Disk, cs: seq<Command>, num: Numbers)
    requires WellFormed(d)
    ensures WellFormed(Run(d, cs, num)) && Extends(d, Run(d, cs, num))
    decreases |cs|
  {
    if cs != [] {
      CallsKeepFilesInPlace(d, cs[0], num);
      ArchiveOnlyGrows(After(d, cs[0], num), cs[1..], num);
      ExtendsFurther(d, After(d, cs[0], num), Run(d, cs, num));
    }
  }

  // ----- Names

  lemma RootNamesDiffer(a: string, b: string)
    ensures RootName(a) == RootName(b) <==> a == b
  {
    assert RootName(a)[..|a|] == a && RootName(b)[..|b|] == b;
  }

  /** The last dot splits a name into its parts. */
  lemma LastDotSplits(a: string, m: string, b: string, n: string)
    requires '.' !in m && '.' !in n && a + ['.'] + m == b + ['.'] + n
    ensures a == b && m == n
  {
    var s, t := a + ['.'] + m, b + ['.'] + n;
    NoLaterDot(a, m, |b|);
    NoLaterDot(b, n, |a|);
    assert s[|a|] == '.' && t[|b|] == '.';
    assert |a| == |b|;
    assert s[..|a|] == a && t[..|b|] == b && s[|a| + 1..] == m && t[|b| + 1..] == n;
  }

  lemma NoLaterDot(a: string, m: string, k: nat)
    requires '.' !in m
    ensures |a| < k < |a + ['.'] + m| ==> (a + ['.'] + m)[k] != '.'
  {
    if |a| < k < |a + ['.'] + m| {
      assert (a + ['.'] + m)[k] == m[k - |a| - 1];
      assert m[k - |a| - 1] in m;
    }
  }

  lemma DigitsHaveNoDot(n: nat)
    ensures '.' !in Print(n)
  {
  }

  /** Archive names tell nodes and capture times apart, whatever dots the nodes hold. */
  lemma ArchiveNamesDiffer(a: string, m: nat, b: string, n: nat)
    ensures ArchiveName(a, m) == ArchiveName(b, n) <==> a == b && m == n
  {
    if ArchiveName(a, m) == ArchiveName(b, n) {
      var x, y := a + ['.'] + Print(m), b + ['.'] + Print(n);
      SuffixCancels(x, y);
      DigitsHaveNoDot(m);
      DigitsHaveNoDot(n);
      LastDotSplits(a, Print(m), b, Print(n));
      PrintIsInjective(m, n);
    }
  }

  lemma SuffixCancels(x: string, y: string)
    requires x + SUFFIX == y + SUFFIX
    ensures x == y
  {
    assert (x + SUFFIX)[..|x|] == x && (y + SUFFIX)[..|y|] == y;
  }

  // ----- A saved snapshot is never lost

  predicate RootHolds(d: Disk, name: string, text: string)
    requires WellFormed(d)
  {
    name in d.root && d.files[d.root[name]] == text
  }

  predicate ArchiveHolds(d: Disk, name: string, text: string)
    requires WellFormed(d)
  {
    name in d.archive && d.files[d.archive[name]] == text
  }

  /** The snapshot's bytes are at the active or at the archive path. */
  predicate Kept(d: Disk, s: State, num: Numbers)
    requires WellFormed(d) && IsValid(s)
  {
    var text := Encode(s, num).value;
    RootHolds(d, RootName(s.node), text) || ArchiveHolds(d, ArchiveName(s.node, s.seconds), text)
  }

  lemma LoadingAKeptSnapshot(d: Disk, s: State, num: Numbers)
    requires WellFormed(d) && IsValid(s) && InversePair(num)
    requires RootHolds(d, RootName(s.node), Encode(s, num).value)
    ensures Load(d, s.node, num) == Ok(s)
  {
    RoundTrip(s, num);
  }

  lemma RetireKeeps(d: Disk, node: string, f: Fault, k: nat, s: State, num: Numbers)
    requires WellFormed(d) && k < |RetireStates(d, node, f, num)|
    requires IsValid(s) && InversePair(num) && Kept(d, s, num)
    ensures WellFormed(RetireStates(d, node, f, num)[k]) && Kept(RetireStates(d, node, f, num)[k], s, num)
  {
    RetireKeepsFilesInPlace(d, node, f, k, num);
    RootNamesDiffer(node, s.node);
    if RootHolds(d, RootName(s.node), Encode(s, num).value) && node == s.node {
      LoadingAKeptSnapshot(d, s, num);
    }
  }

  lemma SaveKeeps(d: Disk, t: State, w: Writing, k: nat, s: State, num: Numbers)
    requires WellFormed(d) && k < |SaveStates(d, t, w, num)|
    requires IsValid(s) && Kept(d, s, num)
    ensures WellFormed(SaveStates(d, t, w, num)[k]) && Kept(SaveStates(d, t, w, num)[k], s, num)
  {
    SaveKeepsFilesInPlace(d, t, w, k, num);
  }

  lemma CommandKeeps(d: Disk, c: Command, s: State, num: Numbers)
    requires WellFormed(d) && IsValid(s) && InversePair(num) && Kept(d, s, num)
    ensures WellFormed(After(d, c, num)) && Kept(After(d, c, num), s, num)
  {
    var k := EndOf(d, c, num);
    match c
    case Saving(t, w, _) => SaveKeeps(d, t, w, k, s, num);
    case Retiring(node, f, _) => RetireKeeps(d, node, f, k, s, num);
  }

  lemma {:induction false} RunKeeps(d: Disk, cs: seq<Command>, s: State, num: Numbers)
    requires WellFormed(d) && IsValid(s) && InversePair(num) && Kept(d, s, num)
    ensures WellFormed(Run(d, cs, num)) && Kept(Run(d, cs, num), s, num)
    decreases |cs|
  {
    if cs != [] {
      CommandKeeps(d, cs[0], s, num);
      RunKeeps(After(d, cs[0], num), cs[1..], s, num);
    }
  }

  lemma SavedIsKept(d: Disk, s: State, w: Writing, num: Numbers)
    requires WellFormed(d) && Fits(s) && SaveResult(d, s, w, num).Ok?
    ensures var states := SaveStates(d, s, w, num);
            var next := states[|states| - 1];
            WellFormed(next) && IsValid(s) && RootHolds(next, RootName(s.node), Encode(s, num).value)
  {
    SaveKeepsFilesInPlace(d, s, w, 2, num);
  }

  /** Once saved, a snapshot's bytes stay at its active or archive path through any later run. */
  lemma SavedIsNeverLost(d: Disk, s: State, w: Writing, cs: seq<Command>, num: Numbers)
    requires WellFormed(d) && Fits(s) && InversePair(num) && SaveResult(d, s, w, num).Ok?
    ensures var states := SaveStates(d, s, w, num);
            var next := states[|states| - 1];
            WellFormed(next) && IsValid(s) && WellFormed(Run(next, cs, num)) && Kept(Run(next, cs, num), s, num)
  {
    var states := SaveStates(d, s, w, num);
    SavedIsKept(d, s, w, num);
    RunKeeps(states[|states| - 1], cs, s, num);
  }

  /**
   Without faults a valid snapshot is saved, loaded as it was, and moved into the archive, which
   frees the node again.
   */
  lemma SaveThenRetire(d: Disk, s: State, num: Numbers)
    requires WellFormed(d) && IsValid(s) && InversePair(num)
    requires RootName(s.node) !in d.root && ArchiveName(s.node, s.seconds) !in d.archive
    ensures SaveResult(d, s, AllWritten, num) == Ok(RootName(s.node))
    ensures
      var saved := SaveStates(d, s, AllWritten, num)[2];
      && WellFormed(saved) && Load(saved, s.node, num) == Ok(s)
      && RetireResult(saved, s.node, NoFault, num) == Ok(ArchiveName(s.node, s.seconds))
    ensures
      var saved := SaveStates(d, s, AllWritten, num)[2];
      var retired := RetireStates(saved, s.node, NoFault, num)[2];
      && WellFormed(retired) && retired.root == d.root
      && ArchiveHolds(retired, ArchiveName(s.node, s.seconds), Encode(s, num).value)
  {
    var saved := SaveStates(d, s, AllWritten, num)[2];
    SavedIsKept(d, s, AllWritten, num);
    LoadingAKeptSnapshot(saved, s, num);
    RetireKeepsFilesInPlace(saved, s.node, NoFault, 2, num);
    var retired := RetireStates(saved, s.node, NoFault, num)[2];
    assert retired.root == saved.root - {RootName(s.node)} == d.root;
  }

  // ----- Stopped operations that leave a node stuck

  /** The node's active file can neither be replaced nor retired. */
  predicate Stuck(d: Disk, node: string, num: Numbers)
    requires WellFormed(d)
  {
    RootName(node) in d.root
    && match Load(d, node, num)
       case Err(_) => true
       case Ok(s) => ArchiveName(node, s.seconds) in d.archive
  }

  lemma StuckRefuses(d: Disk, node: string, s: State, w: Writing, f: Fault, num: Numbers)
    requires WellFormed(d) && Stuck(d, node, num)
    ensures RetireResult(d, node, f, num).Err?
    ensures s.node == node ==> SaveResult(d, s, w, num).Err?
  {
  }

  lemma StuckAfterRetire(d: Disk, other: string, f: Fault, k: nat, node: string, num: Numbers)
    requires WellFormed(d) && Stuck(d, node, num) && k < |RetireStates(d, other, f, num)|
    ensures WellFormed(RetireStates(d, other, f, num)[k]) && Stuck(RetireStates(d, other, f, num)[k], node, num)
  {
    RetireKeepsFilesInPlace(d, other, f, k, num);
    RootNamesDiffer(other, node);
    if other == node {
      assert RetireStates(d, other, f, num)[k] == d;
    } else {
      assert Load(RetireStates(d, other, f, num)[k], node, num) == Load(d, node, num);
    }
  }

  lemma StuckAfterSave(d: Disk, s: State, w: Writing, k: nat, node: string, num: Numbers)
    requires WellFormed(d) && Stuck(d, node, num) && k < |SaveStates(d, s, w, num)|
    ensures WellFormed(SaveStates(d, s, w, num)[k]) && Stuck(SaveStates(d, s, w, num)[k], node, num)
  {
    SaveKeepsFilesInPlace(d, s, w, k, num);
    assert Load(SaveStates(d, s, w, num)[k], node, num) == Load(d, node, num);
  }

  lemma StuckAfter(d: Disk, c: Command, node: string, num: Numbers)
    requires WellFormed(d) && Stuck(d, node, num)
    ensures WellFormed(After(d, c, num)) && Stuck(After(d, c, num), node, num)
  {
    var k := EndOf(d, c, num);
    match c
    case Saving(s, w, _) => StuckAfterSave(d, s, w, k, node, num);
    case Retiring(other, f, _) => StuckAfterRetire(d, other, f, k, node, num);
  }

  /** No later run of saves and retirements frees a stuck node. */
  lemma {:induction false} StuckForever(d: Disk, cs: seq<Command>, node: string, num: Numbers)
    requires WellFormed(d) && Stuck(d, node, num)
    ensures WellFormed(Run(d, cs, num)) && Stuck(Run(d, cs, num), node, num)
    decreases |cs|
  {
    if cs != [] {
      StuckAfter(d, cs[0], node, num);
      StuckForever(After(d, cs[0], num), cs[1..], node, num);
    }
  }

  /** A retirement of a node that is not stuck leaves it stuck exactly when it ends between link and removal. */
  lemma RetireLeavesStuck(d: Disk, node: string, f: Fault, k: nat, num: Numbers)
    requires WellFormed(d) && !Stuck(d, node, num) && k < |RetireStates(d, node, f, num)|
    ensures WellFormed(RetireStates(d, node, f, num)[k])
    ensures Stuck(RetireStates(d, node, f, num)[k], node, num) <==> k == 1
  {
    RetireKeepsFilesInPlace(d, node, f, k, num);
    if k == 1 {
      assert Load(RetireStates(d, node, f, num)[1], node, num) == Load(d, node, num);
    }
  }

  /** The text a save wrote, up to where it got, can be read back. */
  predicate Readable(s: State, w: Writing, num: Numbers) {
    w.WriteFails? ==> var torn := TornState(s, w.written, num); torn.Some? && IsValid(torn.value)
  }

  lemma WrittenDecodes(s: State, w: Writing, num: Numbers)
    requires IsValid(s) && InversePair(num)
    ensures Decode(WrittenText(s, w, num), num).Ok? <==> Readable(s, w, num)
    ensures Readable(s, w, num) ==> var t := Decode(WrittenText(s, w, num), num).value; t == s.(maxMhz := t.maxMhz)
  {
    RoundTrip(s, num);
    var text := Encode(s, num).value;
    if w.WriteFails? {
      if w.written < |text| {
        TornTextDecodes(s, w.written, num);
      } else {
        TextEndsInTheMaximum(s, num);
        assert TornState(s, w.written, num) == Some(s);
      }
    }
  }

  /** The empty file a save leaves behind when it stops before writing. */
  lemma SaveStoppedBeforeWriting(d: Disk, s: State, w: Writing, num: Numbers)
    requires WellFormed(d) && |SaveStates(d, s, w, num)| > 1
    ensures var next := SaveStates(d, s, w, num)[1];
            WellFormed(next) && Stuck(next, s.node, num)
  {
  }

  /**
   A save that stops or ends with its file in place leaves the node stuck exactly when the text is
   unreadable or its archive name taken.
   */
  lemma SaveLeavesStuck(d: Disk, s: State, w: Writing, num: Numbers)
    requires WellFormed(d) && Fits(s) && InversePair(num) && |SaveStates(d, s, w, num)| > 1
    ensures var next := SaveStates(d, s, w, num)[2];
            WellFormed(next)
            && (Stuck(next, s.node, num) <==> !Readable(s, w, num) || ArchiveName(s.node, s.seconds) in d.archive)
  {
    var next := SaveStates(d, s, w, num)[2];
    SaveKeepsFilesInPlace(d, s, w, 2, num);
    WrittenDecodes(s, w, num);
    assert next.files[next.root[RootName(s.node)]] == WrittenText(s, w, num);
  }

  // ----- Counting a node's archived snapshots

  predicate SoundEntry(d: Disk, name: string, num: Numbers)
    requires WellFormed(d) && name in d.archive
  {
    match Decode(d.files[d.archive[name]], num)
    case Err(_) => false
    case Ok(s) => name == ArchiveName(s.node, s.seconds)
  }

  /** Every archive entry is readable and named after what it holds. */
  predicate SoundArchive(d: Disk, num: Numbers)
    requires WellFormed(d)
  {
    forall name :: name in d.archive ==> SoundEntry(d, name, num)
  }

  lemma SoundEntryStays(d: Disk, next: Disk, name: string, num: Numbers)
    requires WellFormed(d) && WellFormed(next) && Extends(d, next)
    requires name in d.archive && SoundEntry(d, name, num)
    ensures SoundEntry(next, name, num)
  {
  }

  lemma SaveKeepsTheArchiveSound(d: Disk, s: State, w: Writing, k: nat, num: Numbers)
    requires WellFormed(d) && SoundArchive(d, num) && k < |SaveStates(d, s, w, num)|
    ensures WellFormed(SaveStates(d, s, w, num)[k]) && SoundArchive(SaveStates(d, s, w, num)[k], num)
  {
    SaveKeepsFilesInPlace(d, s, w, k, num);
    var next := SaveStates(d, s, w, num)[k];
    forall name | name in next.archive ensures SoundEntry(next, name, num) { SoundEntryStays(d, next, name, num); }
  }

  /** What a retirement adds to the archive is named after what it holds. */
  lemma LinkedEntryIsSound(d: Disk, node: string, f: Fault, k: nat, name: string, num: Numbers)
    requires WellFormed(d) && k < |RetireStates(d, node, f, num)|
    requires name in RetireStates(d, node, f, num)[k].archive && name !in d.archive
    ensures WellFormed(RetireStates(d, node, f, num)[k]) && SoundEntry(RetireStates(d, node, f, num)[k], name, num)
  {
    RetireKeepsFilesInPlace(d, node, f, k, num);
    var s := Load(d, node, num).value;
    assert name == ArchiveName(s.node, s.seconds);
    assert RetireStates(d, node, f, num)[k].archive[name] == d.root[RootName(node)];
  }

  lemma RetireKeepsTheArchiveSound(d: Disk, node: string, f: Fault, k: nat, num: Numbers)
    requires WellFormed(d) && SoundArchive(d, num) && k < |RetireStates(d, node, f, num)|
    ensures WellFormed(RetireStates(d, node, f, num)[k]) && SoundArchive(RetireStates(d, node, f, num)[k], num)
  {
    RetireKeepsFilesInPlace(d, node, f, k, num);
    var next := RetireStates(d, node, f, num)[k];
    forall name | name in next.archive ensures SoundEntry(next, name, num) {
      if name in d.archive {
        SoundEntryStays(d, next, name, num);
      } else {
        LinkedEntryIsSound(d, node, f, k, name, num);
      }
    }
  }

  /** Over any run, stopped anywhere, archive entries stay readable and rightly named. */
  lemma {:induction false} ArchiveStaysSound(d: Disk, cs: seq<Command>, num: Numbers)
    requires WellFormed(d) && SoundArchive(d, num)
    ensures WellFormed(Run(d, cs, num)) && SoundArchive(Run(d, cs, num), num)
    decreases |cs|
  {
    if cs != [] {
      var k := EndOf(d, cs[0], num);
      match cs[0] {
        case Saving(s, w, _) => SaveKeepsTheArchiveSound(d, s, w, k, num);
        case Retiring(node, f, _) => RetireKeepsTheArchiveSound(d, node, f, k, num);
      }
      ArchiveStaysSound(After(d, cs[0], num), cs[1..], num);
    }
  }

  /** The node an archive entry belongs to, if it is readable. */
  function OwnerOf(d: Disk, name: string, num: Numbers): Option<string>
    requires WellFormed(d)
  {
    if name !in d.archive then None
    else match Decode(d.files[d.archive[name]], num) case Err(_) => None case Ok(s) => Some(s.node)
  }

  lemma OwnedIsConsidered(node: string, seconds: nat)
    ensures Considered(ArchiveName(node, seconds), node)
  {
    var name := ArchiveName(node, seconds);
    assert name == (node + ".") + (Print(seconds) + SUFFIX);
    assert name == (node + ['.'] + Print(seconds)) + SUFFIX;
  }

  /** An entry of another node whose name starts like the node's. */
  predicate Misread(d: Disk, name: string, node: string, num: Numbers)
    requires WellFormed(d)
  {
    Considered(name, node) && OwnerOf(d, name, num) != Some(node)
  }

  function OwnedOne(d: Disk, name: string, node: string, num: Numbers): nat
    requires WellFormed(d)
  {
    if OwnerOf(d, name, num) == Some(node) then 1 else 0
  }

  /** What looking at one sound entry gives. */
  lemma VerdictOnASoundEntry(d: Disk, name: string, node: string, num: Numbers)
    requires WellFormed(d) && name in d.archive && SoundEntry(d, name, num)
    ensures if Misread(d, name, node, num) then Verdict(d, name, node, num).Err?
             else Verdict(d, name, node, num) == Ok(OwnedOne(d, name, node, num))
  {
    var s := Decode(d.files[d.archive[name]], num).value;
    OwnedIsConsidered(s.node, s.seconds);
  }

  /** How many of the names belong to the node. */
  function Owned(d: Disk, names: seq<string>, node: string, num: Numbers): nat
    requires WellFormed(d)
  {
    if names == [] then 0 else OwnedOne(d, names[0], node, num) + Owned(d, names[1..], node, num)
  }

  predicate AnyMisread(d: Disk, names: seq<string>, node: string, num: Numbers)
    requires WellFormed(d)
  {
    names != [] && (Misread(d, names[0], node, num) || AnyMisread(d, names[1..], node, num))
  }

  /** The names are those of readable, rightly named entries. */
  predicate AllSound(d: Disk, names: seq<string>, num: Numbers)
    requires WellFormed(d)
  {
    names != [] ==> names[0] in d.archive && SoundEntry(d, names[0], num) && AllSound(d, names[1..], num)
  }

  lemma {:induction false} ListedAreSound(d: Disk, names: seq<string>, num: Numbers)
    requires WellFormed(d) && SoundArchive(d, num) && forall i :: 0 <= i < |names| ==> names[i] in d.archive
    ensures AllSound(d, names, num)
  {
    if names != [] {
      assert SoundEntry(d, names[0], num);
      ListedAreSound(d, names[1..], num);
    }
  }

  lemma {:induction false} AnyMisreadIsOne(d: Disk, names: seq<string>, node: string, num: Numbers)
    requires WellFormed(d)
    ensures AnyMisread(d, names, node, num) <==> exists i :: 0 <= i < |names| && Misread(d, names[i], node, num)
  {
    if names != [] {
      var rest := names[1..];
      AnyMisreadIsOne(d, rest, node, num);
      assert forall i :: 0 <= i < |rest| ==> rest[i] == names[i + 1];
      assert forall i :: 1 <= i < |names| ==> names[i] == rest[i - 1];
    }
  }

  predicate Failed(r: Result<nat, StoreError>) { r.Err? }

  predicate Counted(r: Result<nat, StoreError>, n: nat) { r.Ok? && r.value == n }

  /** Looking at the first name: an error ends it, a count carries over. */
  lemma InspectingTheFirst(d: Disk, names: seq<string>, count: nat, node: string, num: Numbers)
    requires WellFormed(d) && names != [] && names[0] in d.archive && SoundEntry(d, names[0], num)
    ensures Misread(d, names[0], node, num) ==> Failed(Inspected(d, names, count, node, num))
    ensures !Misread(d, names[0], node, num)
            ==> Inspected(d, names, count, node, num)
                == Inspected(d, names[1..], count + OwnedOne(d, names[0], node, num), node, num)
  {
    VerdictOnASoundEntry(d, names[0], node, num);
  }

  /** Inspection fails exactly when an entry of another node has a name that starts like the node's. */
  lemma {:induction false} InspectionFails(d: Disk, names: seq<string>, count: nat, node: string, num: Numbers)
    requires WellFormed(d) && AllSound(d, names, num)
    ensures Failed(Inspected(d, names, count, node, num)) <==> AnyMisread(d, names, node, num)
    decreases |names|
  {
    if names != [] {
      InspectingTheFirst(d, names, count, node, num);
      InspectionFails(d, names[1..], count + OwnedOne(d, names[0], node, num), node, num);
    }
  }

  /** An inspection that does not fail counts exactly the node's own entries. */
  lemma {:induction false} InspectionCounts(d: Disk, names: seq<string>, count: nat, node: string, num: Numbers)
    requires WellFormed(d) && AllSound(d, names, num)
    requires !AnyMisread(d, names, node, num)
    ensures Counted(Inspected(d, names, count, node, num), count + Owned(d, names, node, num))
    decreases |names|
  {
    if names != [] {
      InspectingTheFirst(d, names, count, node, num);
      InspectionCounts(d, names[1..], count + OwnedOne(d, names[0], node, num), node, num);
    }
  }

  /**
   After any run on an empty disk, listing the archive fails exactly when it holds an entry
   misread as the node's, and otherwise counts the node's entries.
   */
  lemma InspectionIsExact(cs: seq<Command>, names: seq<string>, node: string, num: Numbers)
    requires forall i :: 0 <= i < |names| ==> names[i] in Run(EMPTY, cs, num).archive
    ensures var d := Run(EMPTY, cs, num);
            WellFormed(d)
            && (Failed(Inspected(d, names, 0, node, num))
                <==> exists i :: 0 <= i < |names| && Misread(d, names[i], node, num))
            && (!Failed(Inspected(d, names, 0, node, num))
                ==> Counted(Inspected(d, names, 0, node, num), Owned(d, names, node, num)))
  {
    var d := Run(EMPTY, cs, num);
    ArchiveStaysSound(EMPTY, cs, num);
    ListedAreSound(d, names, num);
    InspectionFails(d, names, 0, node, num);
    AnyMisreadIsOne(d, names, node, num);
    if !AnyMisread(d, names, node, num) { InspectionCounts(d, names, 0, node, num); }
  }

  lemma DottedIsConsidered(node: string, rest: string, seconds: nat)
    ensures Considered(ArchiveName(node + ['.'] + rest, seconds), node)
  {
    var name := ArchiveName(node + ['.'] + rest, seconds);
    assert name == (node + ".") + (rest + ['.'] + Print(seconds) + SUFFIX);
    assert name == (node + ['.'] + rest + ['.'] + Print(seconds)) + SUFFIX;
  }

  /**
   A name that starts like the node's: its own, one of a node "node.rest", or one whose capture
   second ends the node's name.
   */
  lemma ConsideredExactly(owner: string, seconds: nat, node: string)
    requires owner != node
    ensures Considered(ArchiveName(owner, seconds), node)
       <==> IsDottedUnder(owner, node) || node == owner + ['.'] + Print(seconds)
  {
    var name, digits := ArchiveName(owner, seconds), Print(seconds);
    if Considered(name, node) { ConsideredOnlyThen(owner, seconds, node); }
    if IsDottedUnder(owner, node) {
      var rest := owner[|node| + 1..];
      assert owner == node + ['.'] + rest;
      DottedIsConsidered(node, rest, seconds);
    }
    if node == owner + ['.'] + digits {
      assert name == node + SUFFIX;
      assert SUFFIX[0] == '.';
      assert name[..|node + "."|] == node + ".";
    }
  }

  /** The owner is the node, a dot and something more. */
  predicate IsDottedUnder(owner: string, node: string) { StartsWith(owner, node + ['.']) }

  lemma ConsideredOnlyThen(owner: string, seconds: nat, node: string)
    requires StartsWith(ArchiveName(owner, seconds), node + ".")
    ensures owner == node || IsDottedUnder(owner, node) || node == owner + ['.'] + Print(seconds)
  {
    var name, digits := ArchiveName(owner, seconds), Print(seconds);
    var n, b, d := |node|, |owner|, |digits|;
    assert name[..n + 1][..n] == name[..n] == node && name[n] == name[..n + 1][n] == '.';
    assert name[..b] == owner && name[b] == '.' && name[b + 1..b + 1 + d] == digits && name[b + 1 + d..] == SUFFIX;
    if n < b {
      assert owner[..n] == name[..b][..n] == node && owner[n] == '.';
      assert owner[..n + 1] == node + ['.'];
    } else if n == b {
      assert node == owner;
    } else {
      DotsOf(owner, seconds, n);
      assert name[..b + 1 + d] == owner + ['.'] + digits;
    }
  }

  lemma SuffixHasOneDot(i: nat)
    requires 0 < i < |SUFFIX|
    ensures SUFFIX[i] != '.'
  {
  }

  /** Outside the owner, a name has its dots before and after the digits only. */
  lemma DotsOf(owner: string, seconds: nat, i: nat)
    requires |owner| < i < |ArchiveName(owner, seconds)| && ArchiveName(owner, seconds)[i] == '.'
    ensures i == |owner| + 1 + |Print(seconds)|
  {
    var name, digits := ArchiveName(owner, seconds), Print(seconds);
    var start := |owner| + 1;
    assert forall k :: start <= k < start + |digits| ==> name[k] == digits[k - start] && IsDigit(name[k]);
    forall k | start + |digits| < k < |name| ensures name[k] != '.' {
      assert name[k] == SUFFIX[k - start - |digits|];
      SuffixHasOneDot(k - start - |digits|);
    }
  }

  /**
   An archived snapshot makes inspecting another node fail exactly when its owner is that
   node, a dot and something more, or that node is the owner, a dot and the capture second.
   */
  lemma DottedNodesAreMisread(d: Disk, owner: string, seconds: nat, node: string, num: Numbers)
    requires WellFormed(d) && SoundArchive(d, num) && ArchiveName(owner, seconds) in d.archive
    ensures Misread(d, ArchiveName(owner, seconds), node, num)
       <==> IsDottedUnder(owner, node) || node == owner + ['.'] + Print(seconds)
  {
    OwnerFromTheName(d, owner, seconds, num);
    if owner != node { ConsideredExactly(owner, seconds, node); }
  }

  lemma OwnerFromTheName(d: Disk, node: string, seconds: nat, num: Numbers)
    requires WellFormed(d) && SoundArchive(d, num) && ArchiveName(node, seconds) in d.archive
    ensures OwnerOf(d, ArchiveName(node, seconds), num) == Some(node)
  {
    var name := ArchiveName(node, seconds);
    assert SoundEntry(d, name, num);
    var s := Decode(d.files[d.archive[name]], num).value;
    ArchiveNamesDiffer(node, seconds, s.node, s.seconds);
  }

  lemma RunOfTwo(d: Disk, first: Command, second: Command, num: Numbers)
    requires WellFormed(d)
    ensures WellFormed(After(d, first, num))
    ensures Run(d, [first] + [second], num) == After(After(d, first, num), second, num)
  {
    var both, last := [first] + [second], [second];
    CallsKeepFilesInPlace(d, first, num);
    assert both[0] == first && both[1..] == last && last[1..] == [];
    assert Run(After(d, first, num), last, num) == After(After(d, first, num), second, num);
  }

  /** A node "a.b" that is saved and retired makes inspecting the archive of "a" fail. */
  lemma InspectionCanFail(s: State, node: string, rest: string, num: Numbers)
    requires IsValid(s) && s.node == node + ['.'] + rest && InversePair(num)
    ensures
      var d := Run(EMPTY, [Saving(s, AllWritten, 2)] + [Retiring(s.node, NoFault, 2)], num);
      && WellFormed(d) && ArchiveName(s.node, s.seconds) in d.archive
      && Failed(Inspected(d, [ArchiveName(s.node, s.seconds)], 0, node, num))
  {
    var commands, name := [Saving(s, AllWritten, 2)] + [Retiring(s.node, NoFault, 2)], ArchiveName(s.node, s.seconds);
    SaveThenRetire(EMPTY, s, num);
    RunOfTwo(EMPTY, Saving(s, AllWritten, 2), Retiring(s.node, NoFault, 2), num);
    ArchiveStaysSound(EMPTY, commands, num);
    var d := Run(EMPTY, commands, num);
    assert s.node[..|node| + 1] == node + ['.'];
    DottedNodesAreMisread(d, s.node, s.seconds, node, num);
    assert Misread(d, [name][0], node, num);
    InspectionIsExact(commands, [name], node, num);
  }
}
