/** The archived text form of a node's original power settings. */
module StateFile {
  import opened Wrappers
  import opened Decimal
  import opened Text

  /** A multiple of 2^-149 with a mantissa of 24 bits, doubled at most `e` times. */
  predicate IsSingle(n: nat, e: nat) {
    n < 0x100_0000 || (e > 0 && n % 2 == 0 && IsSingle(n / 2, e - 1))
  }

  /** The finite 32-bit floats, counted in multiples of 2^-149; the two zeros are one. */
  type Units = u: int | IsSingle(if u < 0 then -u else u, 253)

  /** A 32-bit float: finite, or one of the values that are not. */
  datatype Mhz = Finite(units: Units) | Infinite(negative: bool) | NotANumber

  /** How floats are printed and read; the text itself is not modelled. */
  datatype Numbers = Numbers(show: Mhz -> string, read: string -> Option<Mhz>)

  /** Every finite float is read back from its text, which is on one line. */
  ghost predicate InversePair(num: Numbers) {
    forall x: Mhz :: x.Finite? ==> num.read(num.show(x)) == Some(x) && OneLine(num.show(x))
  }

  const VERSION: nat := 1
  const U8_MAX: nat := 0xFF
  const U64_MAX: nat := 0xFFFF_FFFF_FFFF_FFFF

  datatype State = State(version: nat, node: string, seconds: nat, governor: string, minMhz: Mhz, maxMhz: Mhz)

  /** The fields as their types hold them. */
  predicate Fits(s: State) { s.version <= U8_MAX && s.seconds <= U64_MAX }

  datatype Field = Version | Node | Seconds | Governor | Minimum | Maximum

  datatype Error =
    | BadHeader
    | NoSeparator(line: string)
    | DuplicateField(key: string)
    | FieldCount
    | MissingField(field: Field)
    | InvalidField(field: Field)
    | UnsupportedVersion(version: nat)
    | InvalidToken(field: Field)
    | NotFinite
    | NotPositive
    | MinimumAboveMaximum

  // ----- Validation

  predicate IsTokenChar(c: char) {
    'a' <= c <= 'z' || 'A' <= c <= 'Z' || '0' <= c <= '9' || c == '-' || c == '_' || c == '.'
  }

  predicate IsToken(s: string) {
    s != "" && s != "." && s != ".." && forall i :: 0 <= i < |s| ==> IsTokenChar(s[i])
  }

  function Validate(s: State): Option<Error> {
    if s.version != VERSION then Some(UnsupportedVersion(s.version))
    else if !IsToken(s.node) then Some(InvalidToken(Node))
    else if !IsToken(s.governor) then Some(InvalidToken(Governor))
    else if !s.minMhz.Finite? || !s.maxMhz.Finite? then Some(NotFinite)
    else if s.minMhz.units <= 0 || s.maxMhz.units <= 0 then Some(NotPositive)
    else if s.minMhz.units > s.maxMhz.units then Some(MinimumAboveMaximum)
    else None
  }

  predicate IsValid(s: State) { Fits(s) && Validate(s).None? }

  // ----- Encoding

  const HEADER := "NORDFIR_ORIGINAL_POWER_STATE_V1"

  function Name(f: Field): string {
    match f
    case Version => "version"
    case Node => "node"
    case Seconds => "captured_at_unix_seconds"
    case Governor => "governor"
    case Minimum => "scaling_min_mhz"
    case Maximum => "scaling_max_mhz"
  }

  function ValueText(s: State, f: Field, num: Numbers): string {
    match f
    case Version => Print(s.version)
    case Node => s.node
    case Seconds => Print(s.seconds)
    case Governor => s.governor
    case Minimum => num.show(s.minMhz)
    case Maximum => num.show(s.maxMhz)
  }

  function FieldLine(s: State, f: Field, num: Numbers): string { Name(f) + ['='] + ValueText(s, f, num) }

  const ORDER := [Version, Node, Seconds, Governor, Minimum, Maximum]

  function FieldLines(s: State, order: seq<Field>, num: Numbers): (lines: seq<string>)
    ensures |lines| == |order|
    ensures forall i :: 0 <= i < |order| ==> lines[i] == FieldLine(s, order[i], num)
  {
    if order == [] then [] else [FieldLine(s, order[0], num)] + FieldLines(s, order[1..], num)
  }

  function TextOf(body: seq<string>): string { Join([HEADER] + body) }

  function Encode(s: State, num: Numbers): Result<string, Error> {
    match Validate(s)
    case Some(e) => Err(e)
    case None => Ok(TextOf(FieldLines(s, ORDER, num)))
  }

  // ----- Decoding

  /** Digits with an optional plus sign, up to a largest value. */
  function ParseUnsigned(s: string, largest: nat): Option<nat> {
    match Parse(if s != [] && s[0] == '+' then s[1..] else s)
    case None => None
    case Some(n) => if n <= largest then Some(n) else None
  }

  function Fill(lines: seq<string>, fields: map<string, string>): Result<map<string, string>, Error> {
    if lines == [] then Ok(fields)
    else
      match Cut(lines[0], '=')
      case None => Err(NoSeparator(lines[0]))
      case Some((key, value)) =>
        if key in fields then Err(DuplicateField(key)) else Fill(lines[1..], fields[key := value])
  }

  function Required(fields: map<string, string>, f: Field): Result<string, Error> {
    if Name(f) in fields then Ok(fields[Name(f)]) else Err(MissingField(f))
  }

  function Parsed<T>(text: Result<string, Error>, f: Field, parse: string -> Option<T>): Result<T, Error> {
    match text
    case Err(e) => Err(e)
    case Ok(t) => (match parse(t) case None => Err(InvalidField(f)) case Some(v) => Ok(v))
  }

  function Assemble(fields: map<string, string>, num: Numbers): Result<State, Error> {
    if |fields| != 6 then Err(FieldCount)
    else
      match Parsed(Required(fields, Version), Version, t => ParseUnsigned(t, U8_MAX))
      case Err(e) => Err(e)
      case Ok(version) =>
        match Required(fields, Node)
        case Err(e) => Err(e)
        case Ok(node) =>
          match Parsed(Required(fields, Seconds), Seconds, t => ParseUnsigned(t, U64_MAX))
          case Err(e) => Err(e)
          case Ok(seconds) =>
            match Required(fields, Governor)
            case Err(e) => Err(e)
            case Ok(governor) =>
              match Parsed(Required(fields, Minimum), Minimum, num.read)
              case Err(e) => Err(e)
              case Ok(minMhz) =>
                match Parsed(Required(fields, Maximum), Maximum, num.read)
                case Err(e) => Err(e)
                case Ok(maxMhz) => Checked(State(version, node, seconds, governor, minMhz, maxMhz))
  }

  function Checked(s: State): Result<State, Error> {
    match Validate(s) case Some(e) => Err(e) case None => Ok(s)
  }

  function DecodeBody(body: seq<string>, num: Numbers): Result<State, Error> {
    match Fill(body, map[]) case Err(e) => Err(e) case Ok(fields) => Assemble(fields, num)
  }

  function Decode(content: string, num: Numbers): Result<State, Error> {
    var lines := Lines(content);
    if lines == [] || lines[0] != HEADER then Err(BadHeader) else DecodeBody(lines[1..], num)
  }

  /** Fills the map line by line. */
  method DecodeState(content: string, num: Numbers) returns (r: Result<State, Error>)
    ensures r == Decode(content, num)
  {
    var lines := Lines(content);
    if lines == [] || lines[0] != HEADER { return Err(BadHeader); }
    ghost var body := lines[1..];
    var fields: map<string, string> := map[];
    var i := 1;
    while i < |lines|
      invariant 1 <= i <= |lines|
      invariant Fill(body, map[]) == Fill(lines[i..], fields)
    {
      assert lines[i..][0] == lines[i] && lines[i..][1..] == lines[i + 1..];
      match Cut(lines[i], '=') {
        case None => return Err(NoSeparator(lines[i]));
        case Some((key, value)) =>
          if key in fields { return Err(DuplicateField(key)); }
          fields := fields[key := value];
      }
      i := i + 1;
    }
    r := Assemble(fields, num);
  }

  // ----- What a file must hold

  /** The text gives the state's value of the field. */
  predicate Gives(text: string, f: Field, s: State, num: Numbers) {
    match f
    case Version => ParseUnsigned(text, 255) == Some(s.version)
    case Node => text == s.node
    case Seconds => ParseUnsigned(text, 18446744073709551615) == Some(s.seconds)
    case Governor => text == s.governor
    case Minimum => num.read(text) == Some(s.minMhz)
    case Maximum => num.read(text) == Some(s.maxMhz)
  }

  predicate IsLineOf(line: string, f: Field, s: State, num: Numbers) {
    match Cut(line, '=') case None => false case Some((key, value)) => key == Name(f) && Gives(value, f, s, num)
  }

  predicate HasLineOf(body: seq<string>, f: Field, s: State, num: Numbers) {
    exists i :: 0 <= i < |body| && IsLineOf(body[i], f, s, num)
  }

  /** Six lines, among them one for each field. */
  ghost predicate Describes(body: seq<string>, s: State, num: Numbers) {
    |body| == 6 && forall f: Field :: HasLineOf(body, f, s, num)
  }

  lemma NamesDiffer(f: Field, g: Field)
    ensures Name(f) == Name(g) <==> f == g
  {
    var a, b := Name(f), Name(g);
    assert |a| == |b| && f != g ==> a[9] != b[9];
  }

  predicate HasKey(line: string, key: string, value: string) { Cut(line, '=') == Some((key, value)) }

  predicate OneLineEach(lines: seq<string>, before: set<string>) {
    (forall i :: 0 <= i < |lines| ==> Cut(lines[i], '=').Some? && Cut(lines[i], '=').value.0 !in before)
    && forall i, j :: 0 <= i < j < |lines| ==> KeyOf(lines[i]) != KeyOf(lines[j])
  }

  function KeyOf(line: string): string {
    match Cut(line, '=') case None => line case Some((key, _)) => key
  }

  /** Filling succeeds exactly when every line has a key of its own. */
  lemma {:induction false} FillSucceeds(lines: seq<string>, fields: map<string, string>)
    ensures Fill(lines, fields).Ok? <==> OneLineEach(lines, fields.Keys)
    ensures Fill(lines, fields).Ok? ==> |Fill(lines, fields).value| == |fields| + |lines|
  {
    if lines != [] && Cut(lines[0], '=').Some? && Cut(lines[0], '=').value.0 !in fields {
      var (key, value) := Cut(lines[0], '=').value;
      FillSucceeds(lines[1..], fields[key := value]);
      assert |fields[key := value]| == |fields| + 1 by { CountedKeys(fields, key, value); }
      assert lines == [lines[0]] + lines[1..];
      OneLineEachSplits(lines, fields.Keys);
    }
  }

  lemma CountedKeys(fields: map<string, string>, key: string, value: string)
    requires key !in fields
    ensures |fields[key := value]| == |fields| + 1
  {
    assert fields[key := value].Keys == fields.Keys + {key};
  }

  lemma OneLineEachSplits(lines: seq<string>, before: set<string>)
    requires lines != [] && Cut(lines[0], '=').Some? && Cut(lines[0], '=').value.0 !in before
    ensures OneLineEach(lines, before) <==> OneLineEach(lines[1..], before + {KeyOf(lines[0])})
  {
    var rest := lines[1..];
    assert forall i :: 1 <= i < |lines| ==> lines[i] == rest[i - 1];
  }

  predicate IsKeyed(line: string, key: string) { Cut(line, '=').Some? && Cut(line, '=').value.0 == key }

  /** The line has no separator, or the key of an earlier line. */
  predicate Stops(lines: seq<string>, i: nat)
    requires i < |lines|
  {
    Cut(lines[i], '=').None? || exists j :: 0 <= j < i && IsKeyed(lines[j], Cut(lines[i], '=').value.0)
  }

  predicate NoneStops(lines: seq<string>, n: nat)
    requires n <= |lines|
  {
    forall j :: 0 <= j < n ==> !Stops(lines, j)
  }

  /** The line is the first that stops the filling, for the given reason. */
  predicate StopsFirst(lines: seq<string>, i: nat, error: Error) {
    && i < |lines| && NoneStops(lines, i) && Stops(lines, i)
    && error == match Cut(lines[i], '=') case None => NoSeparator(lines[i]) case Some((key, _)) => DuplicateField(key)
  }

  /** Filling stops at the first line without a separator or with an earlier line's key, and says which it is. */
  lemma FillStopsExactly(lines: seq<string>)
    ensures Fill(lines, map[]).Ok? <==> NoneStops(lines, |lines|)
    ensures Fill(lines, map[]).Err? ==> exists i: nat :: StopsFirst(lines, i, Fill(lines, map[]).error)
  {
    FillStopsFrom(lines, 0, map[]);
    assert lines[0..] == lines;
  }

  predicate Covers(fields: map<string, string>, lines: seq<string>, n: nat)
    requires n <= |lines|
  {
    && (forall j :: 0 <= j < n && Cut(lines[j], '=').Some? ==> Cut(lines[j], '=').value.0 in fields)
    && forall key :: key in fields ==> exists j :: 0 <= j < n && IsKeyed(lines[j], key)
  }

  lemma {:induction false} FillStopsFrom(lines: seq<string>, n: nat, fields: map<string, string>)
    requires n <= |lines| && NoneStops(lines, n) && Covers(fields, lines, n)
    ensures Fill(lines[n..], fields).Ok? <==> NoneStops(lines, |lines|)
    ensures Fill(lines[n..], fields).Err? ==> exists i: nat :: StopsFirst(lines, i, Fill(lines[n..], fields).error)
    decreases |lines| - n
  {
    if n < |lines| {
      StopsWhenCovered(lines, n, fields);
      if Stops(lines, n) {
        assert StopsFirst(lines, n, Fill(lines[n..], fields).error);
      } else {
        var (key, value) := Cut(lines[n], '=').value;
        CoversOneMore(lines, n, fields, key, value);
        FillStopsFrom(lines, n + 1, fields[key := value]);
        assert lines[n..][1..] == lines[n + 1..];
      }
    }
  }

  lemma StopsWhenCovered(lines: seq<string>, n: nat, fields: map<string, string>)
    requires n < |lines| && Covers(fields, lines, n)
    ensures Stops(lines, n) <==> Cut(lines[n], '=').None? || Cut(lines[n], '=').value.0 in fields
  {
  }

  lemma CoversOneMore(lines: seq<string>, n: nat, fields: map<string, string>, key: string, value: string)
    requires n < |lines| && Covers(fields, lines, n) && IsKeyed(lines[n], key)
    ensures Covers(fields[key := value], lines, n + 1)
  {
  }

  /** A filled field is an earlier one or one of the lines. */
  lemma {:induction false} FillHolds(lines: seq<string>, fields: map<string, string>, key: string, value: string)
    requires Fill(lines, fields).Ok?
    ensures var all := Fill(lines, fields).value;
            (key in all && all[key] == value)
                <==> ((key in fields && fields[key] == value)
                      || exists i :: 0 <= i < |lines| && HasKey(lines[i], key, value))
    ensures key in fields ==> key in Fill(lines, fields).value && Fill(lines, fields).value[key] == fields[key]
  {
    if lines != [] {
      var (k, v) := Cut(lines[0], '=').value;
      var next := fields[k := v];
      FillHolds(lines[1..], next, key, value);
      if i :| 0 <= i < |lines| && HasKey(lines[i], key, value) {
        assert i > 0 ==> lines[1..][i - 1] == lines[i];
      }
    }
  }
}
