/** Round trip, order independence and torn writes of the original-power-state text. */
module StateFileProperties {
  import opened Wrappers
  import opened Decimal
  import opened Text
  import opened StateFile

  /** What a valid state is, said at once. */
  lemma ValidExactly(s: State)
    ensures Validate(s).None? <==>
      && s.version == 1 && IsToken(s.node) && IsToken(s.governor)
      && s.minMhz.Finite? && s.maxMhz.Finite? && 0 < s.minMhz.units <= s.maxMhz.units
  {
  }

  /** ASCII letters and digits, '-', '_' and '.', and not one or two dots alone. */
  lemma TokenExactly(s: string)
    ensures IsToken(s) <==>
      && s != "" && s != "." && s != ".."
      && forall i :: 0 <= i < |s| ==>
           var c := s[i] as int;
           48 <= c <= 57 || 65 <= c <= 90 || 97 <= c <= 122 || c == 45 || c == 46 || c == 95
  {
    TokenCharExactly();
  }

  lemma TokenCharExactly()
    ensures
      forall c: char :: IsTokenChar(c) <==>
        || 48 <= c as int <= 57 || 65 <= c as int <= 90 || 97 <= c as int <= 122
        || c as int == 45 || c as int == 46 || c as int == 95
  {
  }

  /** The first rule that a state breaks is the one it is refused for. */
  lemma InvalidExactly(s: State)
    ensures s.version != 1 ==> Validate(s) == Some(UnsupportedVersion(s.version))
    ensures s.version == 1 && !IsToken(s.node) ==> Validate(s) == Some(InvalidToken(Node))
    ensures s.version == 1 && IsToken(s.node) ==>
      && (!IsToken(s.governor) ==> Validate(s) == Some(InvalidToken(Governor)))
      && (IsToken(s.governor) ==>
            && (Validate(s) == Some(NotFinite) <==> !s.minMhz.Finite? || !s.maxMhz.Finite?)
            && (s.minMhz.Finite? && s.maxMhz.Finite? ==>
                  && (Validate(s) == Some(NotPositive) <==> s.minMhz.units <= 0 || s.maxMhz.units <= 0)
                  && (Validate(s) == Some(MinimumAboveMaximum) <==> 0 < s.maxMhz.units < s.minMhz.units)))
  {
  }

  /** The text of a valid state, line by line. */
  lemma EncodedExactly(s: State, num: Numbers)
    requires IsValid(s)
    ensures
      Encode(s, num)
      == Ok(Join(["NORDFIR_ORIGINAL_POWER_STATE_V1",
                  "version=1",
                  "node=" + s.node,
                  "captured_at_unix_seconds=" + Print(s.seconds),
                  "governor=" + s.governor,
                  "scaling_min_mhz=" + num.show(s.minMhz),
                  "scaling_max_mhz=" + num.show(s.maxMhz)]))
  {
    FieldLinesInFull(s, num);
  }

  lemma FieldLinesInFull(s: State, num: Numbers)
    requires IsValid(s)
    ensures
      FieldLines(s, ORDER, num)
      == ["version=1",
          "node=" + s.node,
          "captured_at_unix_seconds=" + Print(s.seconds),
          "governor=" + s.governor,
          "scaling_min_mhz=" + num.show(s.minMhz),
          "scaling_max_mhz=" + num.show(s.maxMhz)]
  {
    assert FieldLine(s, Version, num) == "version=1" by { assert Print(1) == "1"; }
    assert FieldLine(s, Node, num) == "node=" + s.node;
    assert FieldLine(s, Governor, num) == "governor=" + s.governor;
    NumberLinesInFull(s, num);
  }

  lemma NumberLinesInFull(s: State, num: Numbers)
    ensures FieldLine(s, Seconds, num) == "captured_at_unix_seconds=" + Print(s.seconds)
    ensures FieldLine(s, Minimum, num) == "scaling_min_mhz=" + num.show(s.minMhz)
    ensures FieldLine(s, Maximum, num) == "scaling_max_mhz=" + num.show(s.maxMhz)
  {
  }

  // ----- A described body holds each field on exactly one line

  ghost function PlaceOf(body: seq<string>, f: Field, s: State, num: Numbers): (i: nat)
    requires HasLineOf(body, f, s, num)
    ensures i < |body| && IsLineOf(body[i], f, s, num)
  {
    var i :| 0 <= i < |body| && IsLineOf(body[i], f, s, num); i
  }

  lemma {:induction false} SameSize(a: set<nat>, n: nat)
    requires forall i :: i in a ==> i < n
    ensures |a| <= n
    ensures |a| == n ==> forall i: nat :: i < n ==> i in a
  {
    if n > 0 { SameSize(a - {n - 1}, n - 1); }
  }

  lemma PlacesDiffer(body: seq<string>, f: Field, g: Field, s: State, num: Numbers)
    requires HasLineOf(body, f, s, num) && HasLineOf(body, g, s, num) && f != g
    ensures PlaceOf(body, f, s, num) != PlaceOf(body, g, s, num)
  {
    assert IsLineOf(body[PlaceOf(body, f, s, num)], f, s, num) && IsLineOf(body[PlaceOf(body, g, s, num)], g, s, num);
    NamesDiffer(f, g);
  }

  ghost function Places(body: seq<string>, order: seq<Field>, s: State, num: Numbers): set<nat>
    requires forall f: Field :: HasLineOf(body, f, s, num)
  {
    if order == [] then {} else Places(body, order[1..], s, num) + {PlaceOf(body, order[0], s, num)}
  }

  predicate NoRepeats(order: seq<Field>) { forall i, j :: 0 <= i < j < |order| ==> order[i] != order[j] }

  ghost predicate IsPlace(body: seq<string>, i: nat, f: Field, s: State, num: Numbers) {
    HasLineOf(body, f, s, num) && i == PlaceOf(body, f, s, num)
  }

  lemma {:induction false} FieldOfPlace(body: seq<string>, order: seq<Field>, i: nat, s: State, num: Numbers)
    returns (f: Field)
    requires forall g: Field :: HasLineOf(body, g, s, num)
    requires i in Places(body, order, s, num)
    ensures f in order && IsPlace(body, i, f, s, num)
  {
    f := order[0];
    if i != PlaceOf(body, f, s, num) { f := FieldOfPlace(body, order[1..], i, s, num); }
  }

  lemma {:induction false} PlacesAreDistinct(body: seq<string>, order: seq<Field>, s: State, num: Numbers)
    requires forall f: Field :: HasLineOf(body, f, s, num)
    requires NoRepeats(order)
    ensures |Places(body, order, s, num)| == |order|
  {
    if order != [] {
      PlacesAreDistinct(body, order[1..], s, num);
      var p := PlaceOf(body, order[0], s, num);
      if p in Places(body, order[1..], s, num) {
        var f := FieldOfPlace(body, order[1..], p, s, num);
        PlacesDiffer(body, order[0], f, s, num);
      }
    }
  }

  lemma EveryLineIsAPlace(body: seq<string>, order: seq<Field>, i: nat, s: State, num: Numbers) returns (f: Field)
    requires |body| == |order| && NoRepeats(order) && i < |order|
    requires forall g: Field :: HasLineOf(body, g, s, num)
    ensures IsPlace(body, i, f, s, num)
  {
    PlacesAreDistinct(body, order, s, num);
    forall p | p in Places(body, order, s, num) ensures p < |body| {
      var g := FieldOfPlace(body, order, p, s, num);
    }
    SameSize(Places(body, order, s, num), |body|);
    f := FieldOfPlace(body, order, i, s, num);
  }

  lemma KeyOfLine(line: string, f: Field, s: State, num: Numbers)
    requires IsLineOf(line, f, s, num)
    ensures Cut(line, '=').Some? && KeyOf(line) == Name(f)
  {
  }

  /** Every line of a described body is the line of a field, and no field has two. */
  lemma DescribedOnce(body: seq<string>, i: nat, j: nat, s: State, num: Numbers)
    requires Describes(body, s, num) && i < j < 6
    ensures exists f, g :: f != g && IsLineOf(body[i], f, s, num) && IsLineOf(body[j], g, s, num)
    ensures Cut(body[i], '=').Some? && Cut(body[j], '=').Some? && KeyOf(body[i]) != KeyOf(body[j])
  {
    var f := EveryLineIsAPlace(body, ORDER, i, s, num);
    var g := EveryLineIsAPlace(body, ORDER, j, s, num);
    NamesDiffer(f, g);
    KeyOfLine(body[i], f, s, num);
    KeyOfLine(body[j], g, s, num);
  }

  // ----- Decoding accepts exactly the described bodies

  lemma DescribedIsFilled(body: seq<string>, s: State, num: Numbers)
    requires Describes(body, s, num)
    ensures Fill(body, map[]).Ok? && |Fill(body, map[]).value| == 6
  {
    var none: map<string, string> := map[];
    forall i, j | 0 <= i < j < 6
      ensures Cut(body[i], '=').Some? && Cut(body[j], '=').Some? && KeyOf(body[i]) != KeyOf(body[j])
    {
      DescribedOnce(body, i, j, s, num);
    }
    assert Cut(body[0], '=').Some? && Cut(body[5], '=').Some?;
    assert OneLineEach(body, none.Keys);
    FillSucceeds(body, none);
  }

  predicate FieldGives(fields: map<string, string>, f: Field, s: State, num: Numbers) {
    Name(f) in fields && Gives(fields[Name(f)], f, s, num)
  }

  /** The filled map gives a field its value exactly when a line does. */
  lemma FilledFieldIsALine(body: seq<string>, f: Field, s: State, num: Numbers)
    requires Fill(body, map[]).Ok?
    ensures FieldGives(Fill(body, map[]).value, f, s, num) <==> HasLineOf(body, f, s, num)
  {
    var fields := Fill(body, map[]).value;
    if FieldGives(fields, f, s, num) {
      FillHolds(body, map[], Name(f), fields[Name(f)]);
      var i :| 0 <= i < |body| && HasKey(body[i], Name(f), fields[Name(f)]);
      assert IsLineOf(body[i], f, s, num);
    }
    if HasLineOf(body, f, s, num) {
      var i :| 0 <= i < |body| && IsLineOf(body[i], f, s, num);
      var (key, value) := Cut(body[i], '=').value;
      assert HasKey(body[i], key, value);
      FillHolds(body, map[], key, value);
    }
  }

  ghost predicate AllGiven(fields: map<string, string>, s: State, num: Numbers) {
    forall f: Field :: FieldGives(fields, f, s, num)
  }

  lemma AssembledExactly(fields: map<string, string>, s: State, num: Numbers)
    ensures Assemble(fields, num) == Ok(s) <==> |fields| == 6 && AllGiven(fields, s, num) && IsValid(s)
  {
    var a := Assemble(fields, num);
    if a == Ok(s) {
      forall f: Field ensures FieldGives(fields, f, s, num) { AssembledGives(fields, f, s, num); }
    }
    if |fields| == 6 && AllGiven(fields, s, num) && IsValid(s) {
      assert FieldGives(fields, Version, s, num) && FieldGives(fields, Node, s, num)
          && FieldGives(fields, Seconds, s, num);
      assert FieldGives(fields, Governor, s, num) && FieldGives(fields, Minimum, s, num)
          && FieldGives(fields, Maximum, s, num);
      assert a == Checked(s);
    }
  }

  lemma AssembledGives(fields: map<string, string>, f: Field, s: State, num: Numbers)
    requires Assemble(fields, num) == Ok(s)
    ensures FieldGives(fields, f, s, num) && IsValid(s) && |fields| == 6
  {
  }

  /** A body is accepted as a state exactly when it describes that state and the state is valid. */
  lemma BodyAcceptedExactly(body: seq<string>, s: State, num: Numbers)
    ensures DecodeBody(body, num) == Ok(s) <==> Describes(body, s, num) && IsValid(s)
  {
    if DecodeBody(body, num) == Ok(s) {
      var fields := Fill(body, map[]).value;
      AssembledExactly(fields, s, num);
      FillSucceeds(body, map[]);
      forall f: Field ensures HasLineOf(body, f, s, num) { FilledFieldIsALine(body, f, s, num); }
    }
    if Describes(body, s, num) && IsValid(s) {
      DescribedIsFilled(body, s, num);
      var fields := Fill(body, map[]).value;
      forall f: Field ensures FieldGives(fields, f, s, num) { FilledFieldIsALine(body, f, s, num); }
      AssembledExactly(fields, s, num);
    }
  }

  // ----- What a text is refused for

  /** The field is missing, or its text is not a number of its type. */
  predicate Unusable(fields: map<string, string>, f: Field, num: Numbers) {
    || Name(f) !in fields
    || (match f
        case Version => ParseUnsigned(fields[Name(f)], 255).None?
        case Seconds => ParseUnsigned(fields[Name(f)], 18446744073709551615).None?
        case Minimum | Maximum => num.read(fields[Name(f)]).None?
        case Node | Governor => false)
  }

  /** Digits are read up to the largest value, and one plus sign before them is passed over. */
  lemma UnsignedExactly(s: string, largest: nat, n: nat)
    ensures ParseUnsigned(s, largest) == Some(n) <==>
      n <= largest && (Parse(s) == Some(n) || (s != [] && s[0] == '+' && Parse(s[1..]) == Some(n)))
  {
    PlusIsNoDigit(s);
  }

  lemma {:induction false} PlusIsNoDigit(s: string)
    ensures s != [] && s[0] == '+' ==> Parse(s).None?
  {
    if |s| > 1 { PlusIsNoDigit(s[..|s| - 1]); }
  }

  /** Of six fields, the first in order that cannot be used is the one that is named. */
  lemma UnusableIsNamed(fields: map<string, string>, k: nat, num: Numbers)
    requires |fields| == 6 && k < 6 && Unusable(fields, ORDER[k], num)
    requires forall j :: 0 <= j < k ==> !Unusable(fields, ORDER[j], num)
    ensures
      var f := ORDER[k];
      Assemble(fields, num) == Err(if Name(f) in fields then InvalidField(f) else MissingField(f))
  {
    assert k > 0 ==> !Unusable(fields, ORDER[0], num);
    assert k > 1 ==> !Unusable(fields, ORDER[1], num);
    assert k > 2 ==> !Unusable(fields, ORDER[2], num);
    assert k > 3 ==> !Unusable(fields, ORDER[3], num);
    assert k > 4 ==> !Unusable(fields, ORDER[4], num);
  }

  /** Fields that give a state are refused for what is invalid about it. */
  lemma GivenIsValidated(fields: map<string, string>, s: State, num: Numbers)
    requires |fields| == 6 && AllGiven(fields, s, num)
    ensures Assemble(fields, num) == match Validate(s) case Some(e) => Err(e) case None => Ok(s)
  {
    assert FieldGives(fields, Version, s, num) && FieldGives(fields, Node, s, num)
        && FieldGives(fields, Seconds, s, num);
    assert FieldGives(fields, Governor, s, num) && FieldGives(fields, Minimum, s, num)
        && FieldGives(fields, Maximum, s, num);
  }

  /** What is checked before the fields: the header, then the lines, then their number. */
  lemma RefusedBeforeTheFields(content: string, num: Numbers)
    ensures
      var lines := Lines(content);
      if lines == [] || lines[0] != "NORDFIR_ORIGINAL_POWER_STATE_V1" then Decode(content, num) == Err(BadHeader)
      else
        match Fill(lines[1..], map[])
        case Err(e) => Decode(content, num) == Err(e)
        case Ok(fields) =>
          if |lines| != 7 then Decode(content, num) == Err(FieldCount)
          else |fields| == 6 && Decode(content, num) == Assemble(fields, num)
  {
    var lines := Lines(content);
    if lines != [] { FillSucceeds(lines[1..], map[]); }
  }

  /** What a text must hold to be accepted as the state. */
  ghost predicate Accepts(content: string, s: State, num: Numbers) {
    var lines := Lines(content);
    lines != [] && lines[0] == HEADER && Describes(lines[1..], s, num) && IsValid(s)
  }

  /**
   Whatever is decoded is valid and comes from a header and six lines, one for each field; and all
   such is decoded.
   */
  lemma AcceptedExactly(content: string, s: State, num: Numbers)
    ensures Decode(content, num) == Ok(s) <==> Accepts(content, s, num)
  {
    var lines := Lines(content);
    if lines != [] { BodyAcceptedExactly(lines[1..], s, num); }
  }

  // ----- The order of the lines

  lemma SameLinesSameState(a: seq<string>, b: seq<string>, s: State, num: Numbers)
    requires multiset(a) == multiset(b) && Describes(a, s, num)
    ensures Describes(b, s, num)
  {
    assert |b| == |multiset(a)| == 6;
    forall f: Field ensures HasLineOf(b, f, s, num) {
      assert HasLineOf(a, f, s, num);
      var i :| 0 <= i < |a| && IsLineOf(a[i], f, s, num);
      assert a[i] in multiset(b);
    }
  }

  /** Two texts whose field lines are permutations of each other decode to the same state, or both to none. */
  lemma OrderDoesNotMatter(c1: string, c2: string, num: Numbers)
    requires Lines(c1) != [] && Lines(c2) != [] && Lines(c1)[0] == Lines(c2)[0]
    requires multiset(Lines(c1)[1..]) == multiset(Lines(c2)[1..])
    ensures Decode(c1, num).Ok? <==> Decode(c2, num).Ok?
    ensures Decode(c1, num).Ok? ==> Decode(c1, num) == Decode(c2, num)
  {
    if Decode(c1, num).Ok? { SameDecoded(c1, c2, Decode(c1, num).value, num); }
    if Decode(c2, num).Ok? { SameDecoded(c2, c1, Decode(c2, num).value, num); }
  }

  lemma SameDecoded(c1: string, c2: string, s: State, num: Numbers)
    requires Lines(c1) != [] && Lines(c2) != [] && Lines(c1)[0] == Lines(c2)[0]
    requires multiset(Lines(c1)[1..]) == multiset(Lines(c2)[1..])
    requires Decode(c1, num) == Ok(s)
    ensures Decode(c2, num) == Ok(s)
  {
    AcceptedExactly(c1, s, num);
    SameLinesSameState(Lines(c1)[1..], Lines(c2)[1..], s, num);
    AcceptedExactly(c2, s, num);
  }

  // ----- The round trip

  /** One way to print floats and read them back: as their multiples of 2^-149. */
  function CountedUnits(): Numbers { Numbers(ShowUnits, ReadUnits) }

  function ShowUnits(x: Mhz): string {
    match x
    case Finite(u) => if u < 0 then ['-'] + Print(-u) else Print(u)
    case _ => "inf"
  }

  function ReadUnits(s: string): Option<Mhz> {
    var negative := s != [] && s[0] == '-';
    match Parse(if negative then s[1..] else s)
    case None => None
    case Some(n) =>
      if !IsSingle(n, 253) then None
      else
        var m: int := n;
        var u: Units := if negative then -m else m;
        Some(Finite(u))
  }

  lemma InversePairExists()
    ensures InversePair(CountedUnits())
  {
    var num := CountedUnits();
    forall x: Mhz | x.Finite? ensures num.read(num.show(x)) == Some(x) && OneLine(num.show(x)) {
      if x.units < 0 {
        ParsePrint(-x.units);
        assert ShowUnits(x)[1..] == Print(-x.units);
      } else {
        ParsePrint(x.units);
        assert IsDigit(Print(x.units)[0]);
      }
    }
  }

  lemma HeaderIsOneLine()
    ensures OneLine(HEADER)
  {
  }

  lemma NameIsPlain(f: Field)
    ensures OneLine(Name(f)) && '=' !in Name(f)
  {
    match f
    case Version | Node | Governor =>
    case Seconds => SecondsIsPlain();
    case Minimum => MinimumIsPlain();
    case Maximum => MaximumIsPlain();
  }

  lemma SecondsIsPlain()
    ensures OneLine(Name(Seconds)) && '=' !in Name(Seconds)
  {
  }

  lemma MinimumIsPlain()
    ensures OneLine(Name(Minimum)) && '=' !in Name(Minimum)
  {
  }

  lemma MaximumIsPlain()
    ensures OneLine(Name(Maximum)) && '=' !in Name(Maximum)
  {
  }

  lemma TokenIsOneLine(t: string)
    requires IsToken(t)
    ensures OneLine(t)
  {
  }

  lemma ValueIsOneLine(s: State, f: Field, num: Numbers)
    requires IsValid(s) && InversePair(num)
    ensures OneLine(ValueText(s, f, num))
  {
    TokenIsOneLine(s.node);
    TokenIsOneLine(s.governor);
  }

  lemma ParseUnsignedPrint(n: nat, largest: nat)
    requires n <= largest
    ensures ParseUnsigned(Print(n), largest) == Some(n)
  {
    ParsePrint(n);
    assert IsDigit(Print(n)[0]);
  }

  lemma ValueGives(s: State, f: Field, num: Numbers)
    requires IsValid(s) && InversePair(num)
    ensures Gives(ValueText(s, f, num), f, s, num)
  {
    match f
    case Version => ParseUnsignedPrint(s.version, U8_MAX);
    case Seconds => ParseUnsignedPrint(s.seconds, U64_MAX);
    case Node | Governor | Minimum | Maximum =>
  }

  lemma FieldLineIsALine(s: State, f: Field, num: Numbers)
    requires IsValid(s) && InversePair(num)
    ensures OneLine(FieldLine(s, f, num)) && IsLineOf(FieldLine(s, f, num), f, s, num)
  {
    NameIsPlain(f);
    ValueIsOneLine(s, f, num);
    ValueGives(s, f, num);
    CutAtTheFirst(Name(f), '=', ValueText(s, f, num));
  }

  predicate IsOrder(order: seq<Field>) { |order| == 6 && forall f: Field :: f in order }

  lemma AnyOrderDescribes(s: State, order: seq<Field>, num: Numbers)
    requires IsValid(s) && InversePair(num) && IsOrder(order)
    ensures Describes(FieldLines(s, order, num), s, num) && AllOneLine([HEADER] + FieldLines(s, order, num))
  {
    var body := FieldLines(s, order, num);
    HeaderIsOneLine();
    forall i | 0 <= i < 6 ensures OneLine(body[i]) { FieldLineIsALine(s, order[i], num); }
    forall f: Field ensures HasLineOf(body, f, s, num) {
      assert f in order;
      var i :| 0 <= i < 6 && order[i] == f;
      FieldLineIsALine(s, f, num);
      assert IsLineOf(body[i], f, s, num);
    }
  }

  /** The six field lines of a valid state decode to that state in any order. */
  lemma AnyOrderDecodes(s: State, order: seq<Field>, num: Numbers)
    requires IsValid(s) && InversePair(num) && IsOrder(order)
    ensures Decode(TextOf(FieldLines(s, order, num)), num) == Ok(s)
  {
    var body := FieldLines(s, order, num);
    AnyOrderDescribes(s, order, num);
    LinesOfJoined([HEADER] + body);
    assert ([HEADER] + body)[1..] == body;
    BodyAcceptedExactly(body, s, num);
  }

  lemma OrderIsComplete()
    ensures IsOrder(ORDER)
  {
    forall f: Field ensures f in ORDER {
      match f
      case Version => assert ORDER[0] == f;
      case Node => assert ORDER[1] == f;
      case Seconds => assert ORDER[2] == f;
      case Governor => assert ORDER[3] == f;
      case Minimum => assert ORDER[4] == f;
      case Maximum => assert ORDER[5] == f;
    }
  }

  /** Exactly the valid states are encoded, and each decodes to itself. */
  lemma RoundTrip(s: State, num: Numbers)
    requires Fits(s) && InversePair(num)
    ensures Encode(s, num).Ok? <==> IsValid(s)
    ensures Encode(s, num).Ok? ==> Decode(Encode(s, num).value, num) == Ok(s)
  {
    if IsValid(s) {
      OrderIsComplete();
      AnyOrderDecodes(s, ORDER, num);
    }
  }

  /** Whatever is decoded can be encoded again, to a text that decodes to the same state. */
  lemma DecodedIsEncodable(content: string, num: Numbers)
    requires Decode(content, num).Ok? && InversePair(num)
    ensures var s := Decode(content, num).value;
            Encode(s, num).Ok? && Decode(Encode(s, num).value, num) == Ok(s)
  {
    var s := Decode(content, num).value;
    AcceptedExactly(content, s, num);
    RoundTrip(s, num);
  }
}
