/** What a save that stopped part-way leaves behind: the first characters of the text. */
module TornSave {
  import opened Wrappers
  import opened Text
  import opened StateFile
  import opened StateFileProperties

  lemma {:induction false} JoinSplits(a: seq<string>, last: string)
    ensures Join(a + [last]) == Join(a) + last + ['\n']
  {
    if a == [] {
      assert [last][1..] == [];
    } else {
      JoinSplits(a[1..], last);
      assert (a + [last])[1..] == a[1..] + [last];
    }
  }

  /** Too few characters leave the last line out. */
  lemma {:induction false} LastLineLeftOut(front: seq<string>, last: string, n: nat)
    requires n <= |Join(front)|
    ensures |LinesUpTo(front + [last], n)| <= |front|
  {
    var lines := front + [last];
    if front != [] {
      assert lines[0] == front[0] && lines[1..] == front[1..] + [last];
      if n > |front[0]| { LastLineLeftOut(front[1..], last, n - |front[0]| - 1); }
    }
  }

  function CutTo(s: string, n: nat): string { if n < |s| then s[..n] else s }

  /** More characters reach into the last line. */
  lemma {:induction false} LastLineReached(front: seq<string>, last: string, n: nat)
    requires |Join(front)| < n
    ensures LinesUpTo(front + [last], n) == front + [CutTo(last, n - |Join(front)|)]
  {
    var lines := front + [last];
    if front == [] {
      assert lines[0] == last && lines[1..] == [];
      assert last[..|last|] == last;
      assert LinesUpTo(lines[1..], 0) == [];
    } else {
      assert lines[0] == front[0] && lines[1..] == front[1..] + [last];
      LastLineReached(front[1..], last, n - |front[0]| - 1);
      var cut := [CutTo(last, n - |Join(front)|)];
      assert [front[0]] + (front[1..] + cut) == front + cut;
    }
  }

  const FRONT := [Version, Node, Seconds, Governor, Minimum]

  function FrontLines(s: State, num: Numbers): seq<string> { FieldLines(s, FRONT, num) }

  function LastLine(s: State, num: Numbers): string { FieldLine(s, Maximum, num) }

  lemma LastLineIsTheMaximum(s: State, num: Numbers)
    ensures FieldLines(s, ORDER, num) == FrontLines(s, num) + [LastLine(s, num)]
  {
  }

  /** Where the digits of the maximum start in the text. */
  function MaximumAt(s: State, num: Numbers): nat { FrontSize(s, num) + |Name(Maximum)| + 1 }

  function MaximumLine(digits: string): string { Name(Maximum) + ['='] + digits }

  function WithMaximum(s: State, digits: string, num: Numbers): Option<State> {
    match num.read(digits) case None => None case Some(y) => Some(s.(maxMhz := y))
  }

  /** The state the first `n` characters describe, if they reach a readable number. */
  function TornState(s: State, n: nat, num: Numbers): Option<State> {
    if n < MaximumAt(s, num) then None else WithMaximum(s, CutTo(num.show(s.maxMhz), n - MaximumAt(s, num)), num)
  }

  predicate IsTorn(r: Result<State, Error>, torn: Option<State>) {
    if torn.Some? && IsValid(torn.value) then r == Ok(torn.value) else r.Err?
  }

  lemma DescribesOne(body: seq<string>, a: State, b: State, num: Numbers)
    requires Describes(body, a, num) && Describes(body, b, num)
    ensures a == b
  {
    DescribedIsFilled(body, a, num);
    var fields := Fill(body, map[]).value;
    forall f: Field ensures FieldGives(fields, f, a, num) && FieldGives(fields, f, b, num) {
      FilledFieldIsALine(body, f, a, num);
      FilledFieldIsALine(body, f, b, num);
    }
    SameGiven(fields, a, b, num);
  }

  lemma SameGiven(fields: map<string, string>, a: State, b: State, num: Numbers)
    requires AllGiven(fields, a, num) && AllGiven(fields, b, num)
    ensures a == b
  {
    assert FieldGives(fields, Version, a, num) && FieldGives(fields, Version, b, num);
    assert FieldGives(fields, Node, a, num) && FieldGives(fields, Node, b, num);
    assert FieldGives(fields, Seconds, a, num) && FieldGives(fields, Seconds, b, num);
    assert FieldGives(fields, Governor, a, num) && FieldGives(fields, Governor, b, num);
    assert FieldGives(fields, Minimum, a, num) && FieldGives(fields, Minimum, b, num);
    assert FieldGives(fields, Maximum, a, num) && FieldGives(fields, Maximum, b, num);
  }

  lemma FrontGives(s: State, t: State, f: Field, num: Numbers)
    requires IsValid(s) && InversePair(num) && f != Maximum && t == s.(maxMhz := t.maxMhz)
    ensures IsLineOf(FieldLine(s, f, num), f, t, num)
  {
    FieldLineIsALine(s, f, num);
  }

  /** The front lines with a last line for a maximum describe the state with that maximum. */
  lemma FrontAndMaximum(s: State, digits: string, y: Mhz, num: Numbers)
    requires IsValid(s) && InversePair(num) && num.read(digits) == Some(y)
    ensures Describes(FrontLines(s, num) + [MaximumLine(digits)], s.(maxMhz := y), num)
  {
    var t := s.(maxMhz := y);
    var last := MaximumLine(digits);
    var body := FrontLines(s, num) + [last];
    NameIsPlain(Maximum);
    CutAtTheFirst(Name(Maximum), '=', digits);
    assert IsLineOf(last, Maximum, t, num);
    forall f: Field ensures HasLineOf(body, f, t, num) {
      if f == Maximum {
        assert body[5] == last;
      } else {
        FrontGives(s, t, f, num);
        var i := PlaceInFront(f);
        assert body[i] == FieldLine(s, f, num);
      }
    }
  }

  function PlaceInFront(f: Field): (i: nat)
    requires f != Maximum
    ensures i < 5 && FRONT[i] == f
  {
    match f case Version => 0 case Node => 1 case Seconds => 2 case Governor => 3 case Minimum => 4
  }

  lemma FrontIsNotTheMaximum(s: State, i: nat, t: State, num: Numbers)
    requires IsValid(s) && InversePair(num) && i < 5
    ensures !IsLineOf(FrontLines(s, num)[i], Maximum, t, num)
  {
    var f := FRONT[i];
    FieldLineIsALine(s, f, num);
    NamesDiffer(f, Maximum);
  }

  /** A last line without a readable maximum is not accepted. */
  lemma NoMaximum(s: State, last: string, num: Numbers)
    requires IsValid(s) && InversePair(num)
    requires forall t :: !IsLineOf(last, Maximum, t, num)
    ensures DecodeBody(FrontLines(s, num) + [last], num).Err?
  {
    var body := FrontLines(s, num) + [last];
    if DecodeBody(body, num).Ok? {
      var t := DecodeBody(body, num).value;
      BodyAcceptedExactly(body, t, num);
      assert HasLineOf(body, Maximum, t, num);
      var i :| 0 <= i < 6 && IsLineOf(body[i], Maximum, t, num);
      if i < 5 { FrontIsNotTheMaximum(s, i, t, num); }
    }
  }

  /** Decoding the front lines and what is left of the last. */
  lemma LastLineCutShort(s: State, digits: string, num: Numbers)
    requires IsValid(s) && InversePair(num)
    ensures IsTorn(DecodeBody(FrontLines(s, num) + [MaximumLine(digits)], num), WithMaximum(s, digits, num))
  {
    var last := MaximumLine(digits);
    var body := FrontLines(s, num) + [last];
    match num.read(digits)
    case None =>
      NameIsPlain(Maximum);
      CutAtTheFirst(Name(Maximum), '=', digits);
      NoMaximum(s, last, num);
    case Some(y) =>
      FrontAndMaximum(s, digits, y, num);
      BodyAcceptedExactly(body, s.(maxMhz := y), num);
      if DecodeBody(body, num).Ok? {
        var t := DecodeBody(body, num).value;
        BodyAcceptedExactly(body, t, num);
        DescribesOne(body, t, s.(maxMhz := y), num);
      }
  }

  lemma LinesOfTheFirst(s: State, n: nat, num: Numbers)
    requires IsValid(s) && InversePair(num)
    requires n <= |Encode(s, num).value|
    ensures var front := [HEADER] + FrontLines(s, num);
            Lines(Encode(s, num).value[..n]) == LinesUpTo(front + [LastLine(s, num)], n)
  {
    var front := [HEADER] + FrontLines(s, num);
    var all := [HEADER] + FieldLines(s, ORDER, num);
    OrderIsComplete();
    AnyOrderDescribes(s, ORDER, num);
    LastLineIsTheMaximum(s, num);
    assert all == front + [LastLine(s, num)];
    LinesOfAPrefix(all, n);
  }

  lemma CutsOfTheLastLine(s: State, m: nat, num: Numbers)
    ensures m <= |Name(Maximum)| ==> CutTo(LastLine(s, num), m) == Name(Maximum)[..m]
    ensures m > |Name(Maximum)| ==>
      CutTo(LastLine(s, num), m) == MaximumLine(CutTo(num.show(s.maxMhz), m - |Name(Maximum)| - 1))
  {
  }

  lemma NoSeparatorNoMaximum(s: State, m: nat, num: Numbers)
    requires IsValid(s) && InversePair(num) && m <= |Name(Maximum)|
    ensures DecodeBody(FrontLines(s, num) + [Name(Maximum)[..m]], num).Err?
  {
    var last := Name(Maximum)[..m];
    NameIsPlain(Maximum);
    NothingToCut(last, '=');
    NoMaximum(s, last, num);
  }

  function FrontSize(s: State, num: Numbers): nat { |Join([HEADER] + FrontLines(s, num))| }

  lemma WithoutTheLastLine(s: State, n: nat, num: Numbers)
    requires IsValid(s) && InversePair(num) && n <= |Encode(s, num).value| && n <= FrontSize(s, num)
    ensures Decode(Encode(s, num).value[..n], num).Err?
  {
    var content := Encode(s, num).value[..n];
    LinesOfTheFirst(s, n, num);
    LastLineLeftOut([HEADER] + FrontLines(s, num), LastLine(s, num), n);
    if Decode(content, num).Ok? { AcceptedExactly(content, Decode(content, num).value, num); }
  }

  lemma WithTheLastLine(s: State, n: nat, num: Numbers)
    requires IsValid(s) && InversePair(num) && FrontSize(s, num) < n <= |Encode(s, num).value|
    ensures Decode(Encode(s, num).value[..n], num)
             == DecodeBody(FrontLines(s, num) + [CutTo(LastLine(s, num), n - FrontSize(s, num))], num)
  {
    var front := [HEADER] + FrontLines(s, num);
    LinesOfTheFirst(s, n, num);
    LastLineReached(front, LastLine(s, num), n);
    var lines := front + [CutTo(LastLine(s, num), n - FrontSize(s, num))];
    assert lines[0] == HEADER && lines[1..] == FrontLines(s, num) + [CutTo(LastLine(s, num), n - FrontSize(s, num))];
  }

  lemma TooShortIsTorn(s: State, n: nat, num: Numbers)
    requires IsValid(s) && InversePair(num) && n <= |Encode(s, num).value| && n < MaximumAt(s, num)
    ensures Decode(Encode(s, num).value[..n], num).Err?
  {
    if n <= FrontSize(s, num) {
      WithoutTheLastLine(s, n, num);
    } else {
      var m := n - FrontSize(s, num);
      WithTheLastLine(s, n, num);
      CutsOfTheLastLine(s, m, num);
      NoSeparatorNoMaximum(s, m, num);
    }
  }

  lemma MaximumIsCutAt(s: State, n: nat, num: Numbers)
    requires MaximumAt(s, num) <= n
    ensures CutTo(LastLine(s, num), n - FrontSize(s, num))
             == MaximumLine(CutTo(num.show(s.maxMhz), n - MaximumAt(s, num)))
  {
    CutsOfTheLastLine(s, n - FrontSize(s, num), num);
  }

  lemma LongEnoughIsTorn(s: State, n: nat, num: Numbers)
    requires IsValid(s) && InversePair(num) && MaximumAt(s, num) <= n <= |Encode(s, num).value|
    ensures IsTorn(Decode(Encode(s, num).value[..n], num), TornState(s, n, num))
  {
    WithTheLastLine(s, n, num);
    var digits := CutTo(num.show(s.maxMhz), n - MaximumAt(s, num));
    MaximumIsCutAt(s, n, num);
    LastLineCutShort(s, digits, num);
    assert TornState(s, n, num) == WithMaximum(s, digits, num);
  }

  /**
   The first `n` characters of a saved text are accepted exactly when they reach a maximum
   that is readable and keeps the state valid; the result then differs in nothing else.
   */
  lemma TornTextDecodes(s: State, n: nat, num: Numbers)
    requires IsValid(s) && InversePair(num) && n <= |Encode(s, num).value|
    ensures IsTorn(Decode(Encode(s, num).value[..n], num), TornState(s, n, num))
  {
    if n < MaximumAt(s, num) { TooShortIsTorn(s, n, num); } else { LongEnoughIsTorn(s, n, num); }
  }

  /** A torn text can pass for another state: a maximum printed "4700" that is cut to "470". */
  lemma TornMaximumIsAccepted(s: State, shorter: Mhz, num: Numbers) returns (n: nat)
    requires IsValid(s) && InversePair(num)
    requires num.show(s.maxMhz) == "4700" && num.read("470") == Some(shorter)
    requires shorter.Finite? && s.minMhz.units <= shorter.units
    ensures n < |Encode(s, num).value|
    ensures Decode(Encode(s, num).value[..n], num) == Ok(s.(maxMhz := shorter))
  {
    n := MaximumAt(s, num) + 3;
    TextEndsInTheMaximum(s, num);
    assert CutTo("4700", 3) == "470";
    TornTextDecodes(s, n, num);
  }

  lemma TextEndsInTheMaximum(s: State, num: Numbers)
    requires IsValid(s)
    ensures |Encode(s, num).value| == MaximumAt(s, num) + |num.show(s.maxMhz)| + 1
  {
    var front := [HEADER] + FrontLines(s, num);
    LastLineIsTheMaximum(s, num);
    assert [HEADER] + FieldLines(s, ORDER, num) == front + [LastLine(s, num)];
    JoinSplits(front, LastLine(s, num));
  }
}
