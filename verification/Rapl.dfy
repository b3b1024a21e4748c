/** Package power from two readings of wrapping RAPL energy counters. */
module Rapl {
  import opened Wrappers
  import opened Arithmetic

  /** A counter value in microjoules and the range at which the counter is said to wrap. */
  datatype Reading = Reading(energy: int, range: Option<int>)

  datatype DomainReading = DomainReading(domain: string, reading: Reading)

  /** The energy between two readings of a domain; unknown when it wrapped without a known range. */
  function Delta(start: int, end: Reading): Option<int> {
    var delta := end.energy - start;
    if delta >= 0 then Some(delta)
    else if end.range.None? then None
    else Some(delta + end.range.value)
  }

  function UsableDelta(d: DomainReading, after: map<string, Reading>): Option<int> {
    if d.domain in after then Delta(d.reading.energy, after[d.domain]) else None
  }

  function Total(before: seq<DomainReading>, after: map<string, Reading>): int {
    if before == [] then 0
    else
      var n := |before| - 1;
      Total(before[..n], after) + (match UsableDelta(before[n], after) case None => 0 case Some(d) => d)
  }

  /** The domain was read twice, and its counter did not wrap or its range is known. */
  predicate IsUsable(d: DomainReading, after: map<string, Reading>) {
    d.domain in after && (after[d.domain].energy >= d.reading.energy || after[d.domain].range.Some?)
  }

  predicate AnyUsable(before: seq<DomainReading>, after: map<string, Reading>) {
    exists d :: d in before && IsUsable(d, after)
  }

  function Watts(microjoules: int, seconds: real): real
    requires seconds > 0.0
  {
    microjoules as real / 1000000.0 / seconds
  }

  lemma WattsTimesSeconds(microjoules: int, seconds: real)
    requires seconds > 0.0
    ensures Watts(microjoules, seconds) * seconds * 1000000.0 == microjoules as real
  {
    DividedBack(microjoules as real / 1000000.0, seconds);
  }

  lemma DividedBack(p: real, q: real)
    requires q > 0.0
    ensures p / q * q == p
  {
  }

  /** One domain more. */
  lemma NextDomain(before: seq<DomainReading>, after: map<string, Reading>, i: nat)
    requires i < |before|
    ensures
      var delta := UsableDelta(before[i], after);
      && Total(before[..i + 1], after) == Total(before[..i], after) + (if delta.Some? then delta.value else 0)
      && (AnyUsable(before[..i + 1], after) <==> AnyUsable(before[..i], after) || delta.Some?)
  {
    var d := before[i];
    assert before[..i + 1] == before[..i] + [d];
    assert before[..i + 1][..i] == before[..i];
    assert IsUsable(d, after) <==> UsableDelta(d, after).Some?;
    assert forall c :: c in before[..i + 1] <==> c in before[..i] || c == d;
  }

  /** Watts from the summed microjoules; a domain that cannot be used is skipped, not guessed. */
  method RaplPower(before: seq<DomainReading>, after: map<string, Reading>, seconds: real) returns (watts: Option<real>)
    ensures watts.Some? <==> seconds > 0.0 && exists d :: d in before && IsUsable(d, after)
    ensures watts.Some? ==> watts.value * seconds * 1000000.0 == Total(before, after) as real
    ensures watts.Some? ==>
      forall meters: map<string, Meter> :: Measures(before, after, meters) ==>
        watts.value * seconds * 1000000.0 == TrueEnergy(before, after, meters) as real
  {
    if seconds <= 0.0 { return None; }
    var total, used := 0, 0;
    for i := 0 to |before|
      invariant total == Total(before[..i], after)
      invariant 0 <= used && (used > 0 <==> AnyUsable(before[..i], after))
    {
      NextDomain(before, after, i);
      var d := before[i];
      if d.domain !in after { continue; }
      var end := after[d.domain];
      var delta := end.energy - d.reading.energy;
      if delta < 0 {
        if end.range.None? { continue; }
        delta := delta + end.range.value;
      }
      total, used := total + delta, used + 1;
    }
    assert before[..|before|] == before;
    if used == 0 { return None; }
    watts := Some(Watts(total, seconds));
    WattsTimesSeconds(total, seconds);
    forall meters: map<string, Meter> | Measures(before, after, meters)
      ensures Total(before, after) == TrueEnergy(before, after, meters)
    {
      TotalIsTheTrueEnergy(before, after, meters);
    }
  }

  // ----- What the counters measure

  /** A counter that shows the true energy modulo `modulus`. */
  datatype Meter = Meter(first: nat, last: nat, modulus: nat)

  predicate WithinOneTurn(m: Meter) { m.modulus > 0 && m.first <= m.last < m.first + m.modulus }

  predicate Wrapped(m: Meter)
    requires m.modulus > 0
  {
    m.last % m.modulus < m.first % m.modulus
  }

  /** The delta is the true energy exactly when there was no wrap or the reported range is the modulus. */
  lemma DeltaIsTheTrueEnergy(m: Meter, range: Option<int>)
    requires WithinOneTurn(m)
    ensures
      var delta := Delta(m.first % m.modulus, Reading(m.last % m.modulus, range));
      && (delta.None? <==> Wrapped(m) && range.None?)
      && (delta.Some? ==> (delta.value == m.last - m.first <==> !Wrapped(m) || range == Some(m.modulus)))
  {
    var q, r := m.first / m.modulus, m.first % m.modulus;
    var used := m.last - m.first;
    if r + used < m.modulus {
      Remainder(m.last, m.modulus, q, r + used);
    } else {
      assert (q + 1) * m.modulus == q * m.modulus + m.modulus;
      Remainder(m.last, m.modulus, q + 1, r + used - m.modulus);
    }
  }

  /** The readings that the meters give, and the ranges reported for them. */
  ghost predicate Measures(before: seq<DomainReading>, after: map<string, Reading>, meters: map<string, Meter>) {
    forall d :: d in before && d.domain in after ==>
      && d.domain in meters && WithinOneTurn(meters[d.domain])
      && var m := meters[d.domain];
         && d.reading.energy == m.first % m.modulus && after[d.domain].energy == m.last % m.modulus
         && (after[d.domain].range.Some? ==> after[d.domain].range.value == m.modulus)
  }

  /** The energy in microjoules that the usable domains consumed. */
  function TrueEnergy(before: seq<DomainReading>, after: map<string, Reading>, meters: map<string, Meter>): int {
    if before == [] then 0
    else
      var n := |before| - 1;
      TrueEnergy(before[..n], after, meters)
      + (if IsUsable(before[n], after) && before[n].domain in meters
         then meters[before[n].domain].last - meters[before[n].domain].first else 0)
  }

  /** The summed deltas are the energy that the usable shared domains consumed. */
  lemma {:induction false} TotalIsTheTrueEnergy(before: seq<DomainReading>, after: map<string, Reading>,
                                                meters: map<string, Meter>)
    requires Measures(before, after, meters)
    ensures Total(before, after) == TrueEnergy(before, after, meters)
  {
    if before != [] {
      var d := before[|before| - 1];
      assert d in before;
      TotalIsTheTrueEnergy(before[..|before| - 1], after, meters);
      if d.domain in after { DeltaIsTheTrueEnergy(meters[d.domain], after[d.domain].range); }
    }
  }
}
