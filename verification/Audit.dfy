/**
 The hash-chained audit log.  The hash is any injective function that never gives
 GENESIS; SHA-256 and the JSON encoding of its argument are not modelled.
 */
module Audit {
  import opened Wrappers

  /** Sixty-four zeros. */
  const GENESIS := "0" + "000000000000000000000000000000000000000000000000000000000000000"

  datatype Payload = Payload(prev: string, at: int, event: string, detail: string)

  type Hash = Payload -> string

  ghost predicate Ideal(hash: Hash) {
    && (forall p, q :: hash(p) == hash(q) ==> p == q)
    && forall p :: hash(p) != GENESIS
  }

  /** Rows are ordered by id; those recorded before chaining existed have no hashes. */
  datatype AuditRow = AuditRow(at: int, event: string, detail: string, prevHash: Option<string>, hash: Option<string>)

  /** The hash of the newest chained event, or GENESIS when there is none. */
  function Head(rows: seq<AuditRow>): string {
    if rows == [] then GENESIS
    else if rows[|rows| - 1].hash.Some? then rows[|rows| - 1].hash.value
    else Head(rows[..|rows| - 1])
  }

  function Chained(hash: Hash, prev: string, at: int, event: string, detail: string): AuditRow {
    AuditRow(at, event, detail, Some(prev), Some(hash(Payload(prev, at, event, detail))))
  }

  // ----- What a sound log is

  /** The row is chained to the one before it, or to GENESIS if it is the first chained row. */
  ghost predicate LinkedAt(hash: Hash, rows: seq<AuditRow>, start: nat, i: nat)
    requires start <= i < |rows|
  {
    var prev := if i == start then Some(GENESIS) else rows[i - 1].hash;
    prev.Some? && rows[i] == Chained(hash, prev.value, rows[i].at, rows[i].event, rows[i].detail)
  }

  /** A legacy prefix without hashes, then a chain in which every row is linked. */
  ghost predicate SoundFrom(hash: Hash, rows: seq<AuditRow>, start: nat) {
    && start <= |rows|
    && (forall i :: 0 <= i < start ==> rows[i].hash.None?)
    && (forall i :: start <= i < |rows| ==> LinkedAt(hash, rows, start, i))
  }

  ghost predicate Sound(hash: Hash, rows: seq<AuditRow>) {
    exists start: nat :: SoundFrom(hash, rows, start)
  }

  lemma {:induction false} HeadOfSound(hash: Hash, rows: seq<AuditRow>, start: nat)
    requires SoundFrom(hash, rows, start)
    ensures if start == |rows| then Head(rows) == GENESIS else rows[|rows| - 1].hash == Some(Head(rows))
  {
    if start < |rows| {
      assert LinkedAt(hash, rows, start, |rows| - 1);
    } else if rows != [] {
      HeadOfSound(hash, rows[..|rows| - 1], start - 1);
    }
  }

  lemma SoundPrefix(hash: Hash, rows: seq<AuditRow>, start: nat, n: nat)
    requires SoundFrom(hash, rows, start) && n <= |rows|
    ensures SoundFrom(hash, rows[..n], if start < n then start else n)
  {
    forall i | start <= i < n ensures LinkedAt(hash, rows[..n], start, i) {
      assert LinkedAt(hash, rows, start, i);
    }
  }

  /** Appending to a sound log gives a sound log whose head is the new event. */
  lemma AppendingStaysSound(hash: Hash, rows: seq<AuditRow>, start: nat, at: int, event: string, detail: string)
    requires SoundFrom(hash, rows, start)
    ensures
      var row := Chained(hash, Head(rows), at, event, detail);
      SoundFrom(hash, rows + [row], start) && Some(Head(rows + [row])) == row.hash
  {
    HeadOfSound(hash, rows, start);
    var more := rows + [Chained(hash, Head(rows), at, event, detail)];
    forall i | start <= i < |more| ensures LinkedAt(hash, more, start, i) {
      if i < |rows| { assert LinkedAt(hash, rows, start, i); }
    }
  }

  // ----- The log as an object

  datatype AuditError = LostHash(index: nat) | ChainBroken(index: nat) | Modified(index: nat)

  datatype Verification = Verification(ok: bool, checked: nat, legacy: nat, head: string, error: Option<AuditError>)

  class AuditLog {
    var rows: seq<AuditRow>
    const hash: Hash

    constructor (hash: Hash)
      ensures this.hash == hash && rows == []
    {
      this.hash, this.rows := hash, [];
    }

    /** One transaction: an insertion that fails is rolled back. */
    method Record(at: int, event: string, detail: string, fails: bool) returns (recorded: bool)
      modifies this
      ensures recorded == !fails
      ensures rows == if fails then old(rows) else old(rows) + [Chained(hash, Head(old(rows)), at, event, detail)]
      ensures old(Sound(hash, rows)) ==> Sound(hash, rows)
    {
      var before := rows;
      var prev := Head(rows);
      rows := rows + [AuditRow(at, event, detail, Some(prev), Some(hash(Payload(prev, at, event, detail))))];
      if fails {
        rows := before;
        return false;
      }
      if start: nat :| SoundFrom(hash, before, start) {
        AppendingStaysSound(hash, before, start, at, event, detail);
      }
      recorded := true;
    }

    /** Recomputes the chain from the start and reports the first inconsistency. */
    method Verify() returns (v: Verification)
      ensures v.legacy + v.checked <= |rows|
      ensures SoundFrom(hash, rows[..v.legacy + v.checked], v.legacy)
      ensures v.head == Head(rows[..v.legacy + v.checked])
      ensures v.ok <==> Sound(hash, rows)
      ensures v.ok <==> v.error.None?
      ensures v.ok ==> v.legacy + v.checked == |rows| && v.head == Head(rows)
      ensures !v.ok ==>
        && v.legacy + v.checked < |rows|
        && (forall n :: v.legacy + v.checked < n <= |rows| ==> !Sound(hash, rows[..n]))
        && var row := rows[v.legacy + v.checked];
           v.error.value == if row.hash.None? then LostHash(v.legacy + v.checked)
                            else if row.prevHash != Some(v.head) then ChainBroken(v.legacy + v.checked)
                            else Modified(v.legacy + v.checked)
    {
      var prev := GENESIS;
      var checked: nat, legacy: nat := 0, 0;
      for i := 0 to |rows|
        invariant legacy + checked == i && SoundFrom(hash, rows[..i], legacy) && prev == Head(rows[..i])
      {
        var row := rows[i];
        assert rows[..i + 1] == rows[..i] + [row];
        HeadOfSound(hash, rows[..i], legacy);
        if row.hash.None? {
          if checked > 0 {
            NothingSoundBeyond(hash, rows, legacy, i);
            return Verification(false, checked, legacy, prev, Some(LostHash(i)));
          }
          legacy := legacy + 1;
          continue;
        }
        if row.prevHash != Some(prev) {
          NothingSoundBeyond(hash, rows, legacy, i);
          return Verification(false, checked, legacy, prev, Some(ChainBroken(i)));
        }
        if row.hash != Some(hash(Payload(prev, row.at, row.event, row.detail))) {
          NothingSoundBeyond(hash, rows, legacy, i);
          return Verification(false, checked, legacy, prev, Some(Modified(i)));
        }
        AppendingStaysSound(hash, rows[..i], legacy, row.at, row.event, row.detail);
        prev, checked := row.hash.value, checked + 1;
      }
      assert rows[..|rows|] == rows;
      v := Verification(true, checked, legacy, prev, None);
    }
  }

  /** A row that does not continue the sound prefix before it ends every sound prefix. */
  lemma NothingSoundBeyond(hash: Hash, rows: seq<AuditRow>, legacy: nat, i: nat)
    requires i < |rows| && legacy <= i && SoundFrom(hash, rows[..i], legacy)
    requires if rows[i].hash.None? then legacy < i
             else rows[i] != Chained(hash, Head(rows[..i]), rows[i].at, rows[i].event, rows[i].detail)
    ensures forall n :: i < n <= |rows| ==> !Sound(hash, rows[..n])
    ensures !Sound(hash, rows)
  {
    if rows[i].hash.None? {
      assert LinkedAt(hash, rows[..i], legacy, i - 1) && rows[i - 1].hash.Some?;
    }
    forall n, start: nat | i < n <= |rows| ensures !SoundFrom(hash, rows[..n], start) {
      assert rows[..n][..i] == rows[..i];
      if SoundFrom(hash, rows[..n], start) { SoundRowContinues(hash, rows[..n], start, i); }
    }
    assert rows[..|rows|] == rows;
  }

  /** In a sound log every row is either of the legacy prefix or chained to the head before it. */
  lemma SoundRowContinues(hash: Hash, rows: seq<AuditRow>, start: nat, i: nat)
    requires SoundFrom(hash, rows, start) && i < |rows|
    ensures if rows[i].hash.None? then forall j :: 0 <= j < i ==> rows[j].hash.None?
            else rows[i] == Chained(hash, Head(rows[..i]), rows[i].at, rows[i].event, rows[i].detail)
  {
    if start <= i {
      assert LinkedAt(hash, rows, start, i);
      SoundPrefix(hash, rows, start, i);
      HeadOfSound(hash, rows[..i], start);
    }
  }

  // ----- What the head protects

  /** Two sound logs with the same head have the same chained rows: times, events, details and links. */
  lemma {:induction false} HeadFixesHistory(hash: Hash, a: seq<AuditRow>, b: seq<AuditRow>, s: nat, t: nat)
    requires Ideal(hash) && SoundFrom(hash, a, s) && SoundFrom(hash, b, t)
    requires Head(a) == Head(b)
    ensures a[s..] == b[t..]
    decreases |a|
  {
    HeadOfSound(hash, a, s);
    HeadOfSound(hash, b, t);
    if s < |a| { assert LinkedAt(hash, a, s, |a| - 1); }
    if t < |b| { assert LinkedAt(hash, b, t, |b| - 1); }
    if s < |a| && t < |b| {
      var a', b' := a[..|a| - 1], b[..|b| - 1];
      assert a[|a| - 1] == b[|b| - 1];
      SoundPrefix(hash, a, s, |a| - 1);
      SoundPrefix(hash, b, t, |b| - 1);
      HeadOfSound(hash, a', s);
      HeadOfSound(hash, b', t);
      HeadFixesHistory(hash, a', b', s, t);
      assert a[s..] == a'[s..] + [a[|a| - 1]];
      assert b[t..] == b'[t..] + [b[|b| - 1]];
    }
  }

  /** No two chained rows name the same predecessor. */
  lemma PredecessorsAreDistinct(hash: Hash, rows: seq<AuditRow>, start: nat, i: nat, j: nat)
    requires Ideal(hash) && SoundFrom(hash, rows, start) && start <= i < j < |rows|
    ensures rows[i].prevHash != rows[j].prevHash
  {
    if rows[i].prevHash == rows[j].prevHash {
      assert LinkedAt(hash, rows, start, i) && LinkedAt(hash, rows, start, j);
      assert LinkedAt(hash, rows, start, j - 1);
      var a, b := rows[..i], rows[..j];
      SoundPrefix(hash, rows, start, i);
      SoundPrefix(hash, rows, start, j);
      HeadOfSound(hash, a, start);
      HeadOfSound(hash, b, start);
      assert |a[start..]| != |b[start..]|;
      HeadFixesHistory(hash, a, b, start, start);
    }
  }

  /**
   Removing, reordering or repeating genuine rows is caught unless it only removes events
   from the end: a sound log whose chained rows all come from another sound log is a
   beginning of that log's chain.
   */
  lemma {:induction false} RearrangementIsTailRemoval(hash: Hash, a: seq<AuditRow>, b: seq<AuditRow>, s: nat, t: nat)
    requires Ideal(hash) && SoundFrom(hash, a, s) && SoundFrom(hash, b, t)
    requires forall i :: t <= i < |b| ==> Genuine(a, s, b[i])
    ensures |b| - t <= |a| - s && forall i :: t <= i < |b| ==> b[i] == a[s + i - t]
    decreases |b|
  {
    if t < |b| {
      var n := |b| - 1;
      var b' := b[..n];
      SoundPrefix(hash, b, t, n);
      RearrangementIsTailRemoval(hash, a, b', s, t);
      assert LinkedAt(hash, b, t, n) && Genuine(a, s, b[n]);
      HeadOfSound(hash, b', t);
      var k :| s <= k < |a| && a[k] == b[n];
      RowsBefore(hash, a, b', s, t, k);
    }
  }

  /** The row is one of the log's chained rows. */
  predicate Genuine(rows: seq<AuditRow>, start: nat, row: AuditRow) {
    exists k :: start <= k < |rows| && rows[k] == row
  }

  /** The link of a genuine row fixes the chain before it. */
  lemma RowsBefore(hash: Hash, a: seq<AuditRow>, b: seq<AuditRow>, s: nat, t: nat, i: nat)
    requires Ideal(hash) && SoundFrom(hash, a, s) && SoundFrom(hash, b, t)
    requires s <= i < |a| && a[i].prevHash == Some(Head(b))
    ensures a[..i][s..] == b[t..]
  {
    assert LinkedAt(hash, a, s, i);
    SoundPrefix(hash, a, s, i);
    HeadOfSound(hash, a[..i], s);
    HeadFixesHistory(hash, a[..i], b, s, t);
  }

  /** Removing events from the end passes verification, but changes the head. */
  lemma TailRemovalChangesTheHead(hash: Hash, rows: seq<AuditRow>, start: nat, n: nat)
    requires Ideal(hash) && SoundFrom(hash, rows, start) && start <= n < |rows|
    ensures SoundFrom(hash, rows[..n], start) && Head(rows[..n]) != Head(rows)
  {
    SoundPrefix(hash, rows, start, n);
    if Head(rows[..n]) == Head(rows) {
      assert |rows[..n][start..]| != |rows[start..]|;
      HeadFixesHistory(hash, rows[..n], rows, start, start);
    }
  }

  // ----- Ideal hashes exist

  /** A prefix-free encoding of a string. */
  function Marked(s: string): (m: string)
    ensures m != [] && m[0] != '0'
  {
    if s == [] then "." else "-" + [s[0]] + Marked(s[1..])
  }

  function Unary(n: nat): string { seq(n, _ => 'i') }

  function Tally(at: int): string { if at < 0 then "-" + Unary(-at) else Unary(at) }

  function Transcript(p: Payload): string {
    Marked(p.prev) + (Marked(p.event) + (Marked(p.detail) + Tally(p.at)))
  }

  lemma {:induction false} MarkedSplits(a: string, b: string, x: string, y: string)
    requires Marked(a) + x == Marked(b) + y
    ensures a == b && x == y
  {
    assert (Marked(a) + x)[0] == (Marked(b) + y)[0];
    if a == [] {
      assert b == [];
      assert x == (Marked(a) + x)[1..] && y == (Marked(b) + y)[1..];
    } else {
      assert b != [];
      assert (Marked(a) + x)[1] == (Marked(b) + y)[1];
      assert Marked(a[1..]) + x == (Marked(a) + x)[2..];
      assert Marked(b[1..]) + y == (Marked(b) + y)[2..];
      MarkedSplits(a[1..], b[1..], x, y);
    }
  }

  /** The assumption on the hash can be met: the payload's own transcript meets it. */
  lemma IdealHashExists()
    ensures Ideal(Transcript)
  {
    forall p, q | Transcript(p) == Transcript(q) ensures p == q {
      MarkedSplits(p.prev, q.prev, Marked(p.event) + (Marked(p.detail) + Tally(p.at)),
                   Marked(q.event) + (Marked(q.detail) + Tally(q.at)));
      MarkedSplits(p.event, q.event, Marked(p.detail) + Tally(p.at), Marked(q.detail) + Tally(q.at));
      MarkedSplits(p.detail, q.detail, Tally(p.at), Tally(q.at));
      assert |Tally(p.at)| == |Tally(q.at)|;
      assert p.at < 0 ==> Tally(p.at)[0] == '-';
      assert q.at < 0 ==> Tally(q.at)[0] == '-';
    }
    forall p ensures Transcript(p) != GENESIS {
      assert Transcript(p)[0] == Marked(p.prev)[0] != GENESIS[0];
    }
  }
}
