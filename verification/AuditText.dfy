/**
 The archived text form of audit events: one line each, tab-separated, with escaped
 fields.  The parser below is the reference that shows the text to be unambiguous.
 */
module AuditText {
  import opened Wrappers
  import opened Decimal
  import opened Text

  datatype Kind =
    | IntentReceived
    | GuardEvaluated
    | AuthorizationRequested
    | AuthorizationGranted
    | AuthorizationDenied
    | PreflightCompleted
    | ActionExecuted
    | ActionFailed
    | RecoveryStateRetired
    | PolicyChanged

  /** `at` is in nanoseconds since the Unix epoch, and negative before it. */
  datatype AuditEvent = AuditEvent(at: int, actor: string, kind: Kind, message: string)

  datatype EncodeError = BeforeEpoch

  // ----- Escaping

  function Replace(s: string, c: char, text: string): string {
    if s == [] then [] else (if s[0] == c then text else [s[0]]) + Replace(s[1..], c, text)
  }

  function EscapeField(value: string): string {
    Replace(Replace(Replace(Replace(value, '\\', "\\\\"), '\t', "\\t"), '\r', "\\r"), '\n', "\\n")
  }

  /** What each character becomes. */
  function Code(c: char): string {
    match c
    case '\\' => "\\\\"
    case '\t' => "\\t"
    case '\r' => "\\r"
    case '\n' => "\\n"
    case _ => [c]
  }

  function Escaped(s: string): string {
    if s == [] then [] else Code(s[0]) + Escaped(s[1..])
  }

  function Unescaped(s: string): Option<string> {
    if s == [] then Some([])
    else if s[0] != '\\' then Prepend(s[0], Unescaped(s[1..]))
    else if |s| < 2 then None
    else if s[1] == '\\' then Prepend('\\', Unescaped(s[2..]))
    else if s[1] == 't' then Prepend('\t', Unescaped(s[2..]))
    else if s[1] == 'r' then Prepend('\r', Unescaped(s[2..]))
    else if s[1] == 'n' then Prepend('\n', Unescaped(s[2..]))
    else None
  }

  function Prepend(c: char, s: Option<string>): Option<string> {
    match s case None => None case Some(t) => Some([c] + t)
  }

  lemma Regrouped(a: string, b: string, c: string)
    ensures a + (b + c) == (a + b) + c
  {
  }

  lemma {:induction false} ReplaceSplits(a: string, b: string, c: char, text: string)
    ensures Replace(a + b, c, text) == Replace(a, c, text) + Replace(b, c, text)
  {
    if a == [] {
      assert a + b == b;
    } else {
      ReplaceSplits(a[1..], b, c, text);
      var here := if a[0] == c then text else [a[0]];
      assert (a + b)[1..] == a[1..] + b;
      assert Replace(a + b, c, text) == here + Replace(a[1..] + b, c, text);
      Regrouped(here, Replace(a[1..], c, text), Replace(b, c, text));
    }
  }

  lemma ReplaceOne(x: char, c: char, text: string)
    ensures Replace([x], c, text) == if x == c then text else [x]
  {
    assert [x][1..] == [];
  }

  lemma ReplaceTwo(x: char, y: char, c: char, text: string)
    requires x != c && y != c
    ensures Replace([x, y], c, text) == [x, y]
  {
    assert [x, y] == [x] + [y];
    ReplaceSplits([x], [y], c, text);
    ReplaceOne(x, c, text);
    ReplaceOne(y, c, text);
  }

  lemma CodeOfOne(c: char)
    ensures EscapeField([c]) == Code(c)
  {
    ReplaceOne(c, '\\', "\\\\");
    ReplaceOne(c, '\t', "\\t");
    ReplaceOne(c, '\r', "\\r");
    ReplaceOne(c, '\n', "\\n");
    ReplaceTwo('\\', '\\', '\t', "\\t");
    ReplaceTwo('\\', '\\', '\r', "\\r");
    ReplaceTwo('\\', '\\', '\n', "\\n");
    ReplaceTwo('\\', 't', '\r', "\\r");
    ReplaceTwo('\\', 't', '\n', "\\n");
    ReplaceTwo('\\', 'r', '\n', "\\n");
  }

  /** The four successive replacements are one pass over the characters. */
  lemma {:induction false} EscapeIsOnePass(s: string)
    ensures EscapeField(s) == Escaped(s)
  {
    if s != [] {
      var x, rest := [s[0]], s[1..];
      assert s == x + rest;
      var a1, a2 := Replace(x, '\\', "\\\\"), Replace(rest, '\\', "\\\\");
      ReplaceSplits(x, rest, '\\', "\\\\");
      ReplaceSplits(a1, a2, '\t', "\\t");
      ReplaceSplits(Replace(a1, '\t', "\\t"), Replace(a2, '\t', "\\t"), '\r', "\\r");
      ReplaceSplits(Replace(Replace(a1, '\t', "\\t"), '\r', "\\r"), Replace(Replace(a2, '\t', "\\t"), '\r', "\\r"),
                    '\n', "\\n");
      CodeOfOne(s[0]);
      EscapeIsOnePass(rest);
    }
  }

  predicate IsPlain(s: string) { '\t' !in s && '\r' !in s && '\n' !in s }

  lemma {:induction false} EscapedIsPlain(s: string)
    ensures IsPlain(Escaped(s))
  {
    if s != [] { EscapedIsPlain(s[1..]); }
  }

  lemma {:induction false} UnescapeInverts(s: string)
    ensures Unescaped(Escaped(s)) == Some(s)
  {
    if s != [] {
      UnescapeInverts(s[1..]);
      var e, rest := Escaped(s), Escaped(s[1..]);
      assert e[|Code(s[0])|..] == rest;
      assert [s[0]] + s[1..] == s;
    }
  }

  // ----- Lines

  function KindText(kind: Kind): string {
    match kind
    case IntentReceived => "intent_received"
    case GuardEvaluated => "guard_evaluated"
    case AuthorizationRequested => "authorization_requested"
    case AuthorizationGranted => "authorization_granted"
    case AuthorizationDenied => "authorization_denied"
    case PreflightCompleted => "preflight_completed"
    case ActionExecuted => "action_executed"
    case ActionFailed => "action_failed"
    case RecoveryStateRetired => "recovery_state_retired"
    case PolicyChanged => "policy_changed"
  }

  function ParseKind(s: string): Option<Kind> {
    if s == "intent_received" then Some(IntentReceived)
    else if s == "guard_evaluated" then Some(GuardEvaluated)
    else if s == "authorization_requested" then Some(AuthorizationRequested)
    else if s == "authorization_granted" then Some(AuthorizationGranted)
    else if s == "authorization_denied" then Some(AuthorizationDenied)
    else if s == "preflight_completed" then Some(PreflightCompleted)
    else if s == "action_executed" then Some(ActionExecuted)
    else if s == "action_failed" then Some(ActionFailed)
    else if s == "recovery_state_retired" then Some(RecoveryStateRetired)
    else if s == "policy_changed" then Some(PolicyChanged)
    else None
  }

  const NANOS := 1000000000

  /** What a line records of an event: its time in whole seconds. */
  datatype Stamped = Stamped(seconds: nat, actor: string, kind: Kind, message: string)

  function Stamp(e: AuditEvent): Stamped
    requires e.at >= 0
  {
    Stamped(e.at / NANOS, e.actor, e.kind, e.message)
  }

  function Line(e: Stamped): string {
    "at=" + Print(e.seconds) + "\tactor=" + EscapeField(e.actor)
    + "\tkind=" + KindText(e.kind) + "\tmessage=" + EscapeField(e.message)
  }

  function EncodeEvent(e: AuditEvent): Result<string, EncodeError> {
    if e.at < 0 then Err(BeforeEpoch) else Ok(Line(Stamp(e)) + "\n")
  }

  class FileAuditSink {
    var content: string

    constructor ()
      ensures content == ""
    {
      content := "";
    }

    /** Appends the event's line; an event before the epoch is refused. */
    method Record(e: AuditEvent) returns (r: Result<string, EncodeError>)
      modifies this
      ensures r == EncodeEvent(e)
      ensures content == if r.Ok? then old(content) + r.value else old(content)
    {
      r := EncodeEvent(e);
      if r.Ok? { content := content + r.value; }
    }
  }

  /** The content of the sink after the given events. */
  function LogText(events: seq<AuditEvent>): string
    requires forall i :: 0 <= i < |events| ==> events[i].at >= 0
  {
    if events == [] then "" else EncodeEvent(events[0]).value + LogText(events[1..])
  }

  // ----- The reference parser

  function Field(s: string, name: string): Option<string> {
    if |name| <= |s| && s[..|name|] == name then Some(s[|name|..]) else None
  }

  function ParseLine(line: string): Option<Stamped> {
    match Cut(line, '\t')
    case None => None
    case Some((at, rest)) =>
      match Cut(rest, '\t')
      case None => None
      case Some((actor, rest)) =>
        match Cut(rest, '\t')
        case None => None
        case Some((kind, message)) => ParseFields(at, actor, kind, message)
  }

  function ParseFields(at: string, actor: string, kind: string, message: string): Option<Stamped> {
    match (Field(at, "at="), Field(actor, "actor="), Field(kind, "kind="), Field(message, "message="))
    case (Some(a), Some(b), Some(c), Some(d)) =>
      (match (Parse(a), Unescaped(b), ParseKind(c), Unescaped(d))
       case (Some(seconds), Some(actor), Some(kind), Some(message)) => Some(Stamped(seconds, actor, kind, message))
       case _ => None)
    case _ => None
  }

  function ParseLog(content: string): Option<seq<Stamped>>
    decreases |content|
  {
    if content == "" then Some([])
    else
      match Cut(content, '\n')
      case None => None
      case Some((line, rest)) =>
        CutShortens(content, '\n');
        match (ParseLine(line), ParseLog(rest))
        case (Some(e), Some(es)) => Some([e] + es)
        case _ => None
  }

  lemma ParseKindInverts(kind: Kind)
    ensures ParseKind(KindText(kind)) == Some(kind)
  {
  }

  predicate IsWord(s: string) { forall i :: 0 <= i < |s| ==> 'a' <= s[i] <= 'z' || s[i] == '_' || s[i] == '=' }

  lemma WordsArePlain(s: string)
    requires IsWord(s)
    ensures IsPlain(s)
  {
  }

  lemma KindIsWord(kind: Kind)
    ensures IsWord(KindText(kind))
  {
    match kind
    case IntentReceived | GuardEvaluated => ReceivedIsWord(kind);
    case AuthorizationRequested | AuthorizationGranted | AuthorizationDenied => AuthorizationIsWord(kind);
    case PreflightCompleted | PolicyChanged => CompletedIsWord(kind);
    case ActionExecuted | ActionFailed | RecoveryStateRetired => ExecutedIsWord(kind);
  }

  lemma ReceivedIsWord(kind: Kind)
    requires kind.IntentReceived? || kind.GuardEvaluated?
    ensures IsWord(KindText(kind))
  {
  }

  lemma AuthorizationIsWord(kind: Kind)
    requires kind.AuthorizationRequested? || kind.AuthorizationGranted? || kind.AuthorizationDenied?
    ensures IsWord(KindText(kind))
  {
  }

  lemma CompletedIsWord(kind: Kind)
    requires kind.PreflightCompleted? || kind.PolicyChanged?
    ensures IsWord(KindText(kind))
  {
  }

  lemma ExecutedIsWord(kind: Kind)
    requires kind.ActionExecuted? || kind.ActionFailed? || kind.RecoveryStateRetired?
    ensures IsWord(KindText(kind))
  {
  }

  lemma FieldInverts(name: string, value: string)
    ensures Field(name + value, name) == Some(value)
  {
    assert (name + value)[..|name|] == name && (name + value)[|name|..] == value;
  }

  lemma FieldsInvert(e: Stamped)
    ensures ParseFields("at=" + Print(e.seconds), "actor=" + Escaped(e.actor), "kind=" + KindText(e.kind),
                        "message=" + Escaped(e.message)) == Some(e)
  {
    FieldInverts("at=", Print(e.seconds));
    FieldInverts("actor=", Escaped(e.actor));
    FieldInverts("kind=", KindText(e.kind));
    FieldInverts("message=", Escaped(e.message));
    ParsePrint(e.seconds);
    UnescapeInverts(e.actor);
    UnescapeInverts(e.message);
    ParseKindInverts(e.kind);
  }

  /** The four parts of a line, when none of the first three holds a tab. */
  lemma PartsAreCut(at: string, actor: string, kind: string, message: string)
    requires '\t' !in at && '\t' !in actor && '\t' !in kind
    ensures ParseLine(at + ['\t'] + (actor + ['\t'] + (kind + ['\t'] + message)))
             == ParseFields(at, actor, kind, message)
  {
    var tail2 := kind + ['\t'] + message;
    var tail1 := actor + ['\t'] + tail2;
    CutAtTheFirst(at, '\t', tail1);
    CutAtTheFirst(actor, '\t', tail2);
    CutAtTheFirst(kind, '\t', message);
  }

  function Labelled(name: string, value: string): string { name + value }

  lemma LabelledIsPlain(name: string, value: string)
    requires IsWord(name) && IsPlain(value)
    ensures IsPlain(Labelled(name, value))
  {
    WordsArePlain(name);
  }

  lemma PrintIsPlain(n: nat)
    ensures IsPlain(Print(n))
  {
  }

  lemma LineInParts(at: string, actor: string, kind: string, message: string)
    ensures at + "\tactor=" + actor + "\tkind=" + kind + "\tmessage=" + message
         == at + ['\t'] + (("actor=" + actor) + ['\t'] + (("kind=" + kind) + ['\t'] + ("message=" + message)))
  {
  }

  /** The line of an event from the texts of its parts. */
  lemma LineOfParts(at: string, actor: string, kind: string, message: string)
    requires IsPlain(at) && IsPlain(actor) && IsPlain(kind) && IsPlain(message)
    ensures var line := "at=" + at + "\tactor=" + actor + "\tkind=" + kind + "\tmessage=" + message;
            '\n' !in line
                && ParseLine(line) == ParseFields("at=" + at, "actor=" + actor, "kind=" + kind, "message=" + message)
  {
    LabelledIsPlain("at=", at);
    LabelledIsPlain("actor=", actor);
    LabelledIsPlain("kind=", kind);
    LabelledIsPlain("message=", message);
    LineInParts("at=" + at, actor, kind, message);
    PartsAreCut("at=" + at, "actor=" + actor, "kind=" + kind, "message=" + message);
  }

  /** A line holds no line break, and parses back to its event. */
  lemma LineInverts(e: Stamped)
    ensures ParseLine(Line(e)) == Some(e) && '\n' !in Line(e)
  {
    EscapeIsOnePass(e.actor);
    EscapeIsOnePass(e.message);
    EscapedIsPlain(e.actor);
    EscapedIsPlain(e.message);
    KindIsWord(e.kind);
    WordsArePlain(KindText(e.kind));
    PrintIsPlain(e.seconds);
    LineOfParts(Print(e.seconds), Escaped(e.actor), KindText(e.kind), Escaped(e.message));
    FieldsInvert(e);
  }

  /**
   An event is refused exactly when it is before the epoch; any other becomes one line that
   holds its whole seconds, however many nanoseconds are left over.
   */
  lemma EncodedExactly(e: AuditEvent, seconds: nat)
    ensures EncodeEvent(e).Err? <==> e.at < 0
    ensures seconds * 1_000_000_000 <= e.at < (seconds + 1) * 1_000_000_000 ==>
      EncodeEvent(e) == Ok("at=" + Print(seconds) + "\tactor=" + Escaped(e.actor)
                           + "\tkind=" + KindText(e.kind) + "\tmessage=" + Escaped(e.message) + "\n")
  {
    EscapeIsOnePass(e.actor);
    EscapeIsOnePass(e.message);
  }

  function Stamps(events: seq<AuditEvent>): (stamps: seq<Stamped>)
    requires forall i :: 0 <= i < |events| ==> events[i].at >= 0
    ensures |stamps| == |events|
  {
    if events == [] then [] else [Stamp(events[0])] + Stamps(events[1..])
  }

  /** The concatenated log of any events parses back to exactly those events, to the second. */
  lemma {:induction false} LogParsesBack(events: seq<AuditEvent>)
    requires forall i :: 0 <= i < |events| ==> events[i].at >= 0
    ensures ParseLog(LogText(events)) == Some(Stamps(events))
  {
    if events != [] {
      var e := Stamp(events[0]);
      LogParsesBack(events[1..]);
      LineInverts(e);
      CutAtTheFirst(Line(e), '\n', LogText(events[1..]));
      assert LogText(events) == Line(e) + ['\n'] + LogText(events[1..]);
    }
  }

  /** Two sequences of events have the same text exactly when they agree to the second. */
  lemma LogIsUnambiguous(a: seq<AuditEvent>, b: seq<AuditEvent>)
    requires forall i :: 0 <= i < |a| ==> a[i].at >= 0
    requires forall i :: 0 <= i < |b| ==> b[i].at >= 0
    ensures LogText(a) == LogText(b) <==> Stamps(a) == Stamps(b)
  {
    LogParsesBack(a);
    LogParsesBack(b);
    if Stamps(a) == Stamps(b) { SameStampsSameText(a, b); }
  }

  lemma {:induction false} SameStampsSameText(a: seq<AuditEvent>, b: seq<AuditEvent>)
    requires forall i :: 0 <= i < |a| ==> a[i].at >= 0
    requires forall i :: 0 <= i < |b| ==> b[i].at >= 0
    requires Stamps(a) == Stamps(b)
    ensures LogText(a) == LogText(b)
    decreases |a|
  {
    if a != [] {
      assert Stamps(a)[1..] == Stamps(a[1..]) && Stamps(b)[1..] == Stamps(b[1..]);
      assert Stamps(a)[0] == Stamps(b)[0];
      SameStampsSameText(a[1..], b[1..]);
    }
  }
}
