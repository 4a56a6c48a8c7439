/**
 Failure annotations of the CI test runner. Text travels inside a one-line workflow command
   ::error title=<property>::<data>
 so the characters that frame a command are escaped, by one replace pass per character.
 */
module Annotations {
  import opened Options
  import opened Selections

  // A character and the text that stands for it inside a command.
  datatype Escape = Escape(symbol: char, text: string)

  const PERCENT := Escape('%', "%25")
  const RETURN := Escape('\r', "%0D")
  const NEWLINE := Escape('\n', "%0A")
  const COLON := Escape(':', "%3A")
  const COMMA := Escape(',', "%2C")

  const DATA_ESCAPES := [PERCENT, RETURN, NEWLINE]
  const PROPERTY_ESCAPES := [PERCENT, RETURN, NEWLINE, COLON, COMMA]

  // str.replace with a one-character pattern.
  function Replace(s: string, escape: Escape): string {
    if s == "" then ""
    else (if s[0] == escape.symbol then escape.text else [s[0]]) + Replace(s[1..], escape)
  }

  function EscapeData(s: string): string {
    Replace(Replace(Replace(s, PERCENT), RETURN), NEWLINE)
  }

  function EscapeProperty(s: string): string {
    Replace(Replace(EscapeData(s), COLON), COMMA)
  }

  // One pass: every character has its code, whatever stands around it.
  function Code(c: char, escapes: seq<Escape>): string {
    if escapes == [] then [c]
    else if c == escapes[0].symbol then escapes[0].text
    else Code(c, escapes[1..])
  }

  function Encode(s: string, escapes: seq<Escape>): string {
    if s == "" then "" else Code(s[0], escapes) + Encode(s[1..], escapes)
  }

  // The reader's side: an escape becomes its character again, anything else is taken as it stands.
  function Decode(s: string): string {
    if s == "" then ""
    else if |s| >= 3 && IsEscape(s[..3]) then [Meaning(s[..3])] + Decode(s[3..])
    else [s[0]] + Decode(s[1..])
  }

  predicate IsEscape(text: string) {
    text in {"%25", "%0D", "%0A", "%3A", "%2C"}
  }

  function Meaning(text: string): char
    requires IsEscape(text)
  {
    match text
    case "%25" => '%'
    case "%0D" => '\r'
    case "%0A" => '\n'
    case "%3A" => ':'
    case "%2C" => ','
  }

  // Later passes must leave the output of earlier ones alone.
  predicate Fresh(escape: Escape, earlier: seq<Escape>) {
    forall e :: e in earlier ==> e.symbol != escape.symbol && escape.symbol !in e.text
  }

  lemma {:induction false} ReplaceConcat(s: string, t: string, escape: Escape)
    ensures Replace(s + t, escape) == Replace(s, escape) + Replace(t, escape)
  {
    if s == "" {
      assert s + t == t;
    } else {
      assert (s + t)[1..] == s[1..] + t;
      ReplaceConcat(s[1..], t, escape);
    }
  }

  lemma {:induction false} ReplaceAbsent(s: string, escape: Escape)
    requires escape.symbol !in s
    ensures Replace(s, escape) == s
  {
    if s != "" {
      ReplaceAbsent(s[1..], escape);
      assert s == [s[0]] + s[1..];
    }
  }

  // A pass over one character's code.
  lemma {:induction false} CodeThenReplace(c: char, escapes: seq<Escape>, escape: Escape)
    requires Fresh(escape, escapes)
    ensures Replace(Code(c, escapes), escape) == Code(c, escapes + [escape])
  {
    if escapes == [] {
      assert Replace([c][1..], escape) == "";
    } else if c == escapes[0].symbol {
      assert escapes[0] in escapes;
      ReplaceAbsent(escapes[0].text, escape);
    } else {
      assert (escapes + [escape])[1..] == escapes[1..] + [escape];
      CodeThenReplace(c, escapes[1..], escape);
    }
  }

  /** Replacing after encoding is encoding with one more escape, when the new escape's character is nowhere in it. */
  lemma {:induction false} EncodeThenReplace(s: string, escapes: seq<Escape>, escape: Escape)
    requires Fresh(escape, escapes)
    ensures Replace(Encode(s, escapes), escape) == Encode(s, escapes + [escape])
  {
    if s != "" {
      ReplaceConcat(Code(s[0], escapes), Encode(s[1..], escapes), escape);
      CodeThenReplace(s[0], escapes, escape);
      EncodeThenReplace(s[1..], escapes, escape);
    }
  }

  lemma {:induction false} EncodeNothing(s: string)
    ensures Encode(s, []) == s
  {
    if s != "" {
      EncodeNothing(s[1..]);
    }
  }

  lemma EscapesAreFresh()
    ensures Fresh(PERCENT, []) && Fresh(RETURN, [PERCENT]) && Fresh(NEWLINE, [PERCENT, RETURN])
    ensures Fresh(COLON, DATA_ESCAPES) && Fresh(COMMA, DATA_ESCAPES + [COLON])
  {
  }

  /** The chain of replace passes is the single pass over characters. */
  lemma ChainIsOnePass(s: string)
    ensures EscapeData(s) == Encode(s, DATA_ESCAPES)
    ensures EscapeProperty(s) == Encode(s, PROPERTY_ESCAPES)
  {
    hide Replace, Encode, Code, Fresh;
    EscapesAreFresh();
    EncodeNothing(s);
    EncodeThenReplace(s, [], PERCENT);
    EncodeThenReplace(s, [PERCENT], RETURN);
    EncodeThenReplace(s, [PERCENT, RETURN], NEWLINE);
    EncodeThenReplace(s, DATA_ESCAPES, COLON);
    EncodeThenReplace(s, DATA_ESCAPES + [COLON], COMMA);
    assert [] + [PERCENT] == [PERCENT];
    assert [PERCENT] + [RETURN] == [PERCENT, RETURN];
    assert [PERCENT, RETURN] + [NEWLINE] == DATA_ESCAPES;
    assert DATA_ESCAPES + [COLON] + [COMMA] == PROPERTY_ESCAPES;
  }

  /** One decoder undoes both encodings. */
  lemma {:induction false} DecodeEncode(s: string, escapes: seq<Escape>)
    requires escapes in {DATA_ESCAPES, PROPERTY_ESCAPES}
    ensures Decode(Encode(s, escapes)) == s
  {
    if s != "" {
      var code, rest := Code(s[0], escapes), Encode(s[1..], escapes);
      CodeShape(s[0], escapes);
      DecodeEncode(s[1..], escapes);
      if |code| == 3 {
        assert (code + rest)[..3] == code && (code + rest)[3..] == rest;
      } else {
        assert (code + rest)[0] == s[0] && (code + rest)[1..] == rest;
        assert |code + rest| >= 3 ==> (code + rest)[..3][0] == s[0];
      }
      assert s == [s[0]] + s[1..];
    }
  }

  lemma {:induction false} CodeCases(c: char, escapes: seq<Escape>)
    ensures
      || (Code(c, escapes) == [c] && forall e :: e in escapes ==> e.symbol != c)
      || exists e :: e in escapes && e.symbol == c && Code(c, escapes) == e.text
  {
    if escapes == [] {
    } else if c == escapes[0].symbol {
      assert escapes[0] in escapes;
    } else {
      CodeCases(c, escapes[1..]);
    }
  }

  lemma EscapesMean(e: Escape)
    requires e in PROPERTY_ESCAPES
    ensures IsEscape(e.text) && Meaning(e.text) == e.symbol
  {
  }

  // A character stands for itself, and then it is no escape's, or three characters stand for it.
  lemma CodeShape(c: char, escapes: seq<Escape>)
    requires escapes in {DATA_ESCAPES, PROPERTY_ESCAPES}
    ensures
      var code := Code(c, escapes);
      || (code == [c] && c != '%' && forall e :: e in escapes ==> e.symbol != c)
      || (IsEscape(code) && Meaning(code) == c)
  {
    assert PERCENT in escapes;
    assert DATA_ESCAPES <= PROPERTY_ESCAPES;
    CodeCases(c, escapes);
    if e :| e in escapes && e.symbol == c && Code(c, escapes) == e.text {
      EscapesMean(e);
    }
  }

  // Characters that the escapes promise to remove are gone.
  lemma {:induction false} EncodedHasNone(s: string, escapes: seq<Escape>, escape: Escape)
    requires escapes in {DATA_ESCAPES, PROPERTY_ESCAPES} && escape in escapes && escape != PERCENT
    ensures escape.symbol !in Encode(s, escapes)
  {
    if s != "" {
      CodeShape(s[0], escapes);
      EncodedHasNone(s[1..], escapes, escape);
      assert escape.symbol !in Code(s[0], escapes);
    }
  }

  const PREFIX := "::error title="
  const MESSAGE_LIMIT := 3500

  // What a failing report becomes.
  datatype Annotation = Annotation(title: string, message: string)

  function CommandLine(a: Annotation): string {
    PREFIX + EscapeProperty(a.title) + "::" + EscapeData(a.message)
  }

  // A property value runs to the character that would end it.
  function ValueLength(s: string): (n: nat)
    ensures n <= |s|
    ensures forall i :: 0 <= i < n ==> s[i] != ':' && s[i] != ','
    ensures n < |s| ==> s[n] == ':' || s[n] == ','
  {
    if s == "" || s[0] == ':' || s[0] == ',' then 0 else 1 + ValueLength(s[1..])
  }

  // Reading a command: one line, one property, then the data.
  function Read(line: string): Option<Annotation> {
    if '\r' in line || '\n' in line || !(PREFIX <= line) then None
    else
      var body := line[|PREFIX|..];
      var n := ValueLength(body);
      if "::" <= body[n..] then Some(Annotation(Decode(body[..n]), Decode(body[n + 2..])))
      else None
  }

  lemma {:induction false} ValueLengthIs(value: string, rest: string)
    requires ':' !in value && ',' !in value && "::" <= rest
    ensures ValueLength(value + rest) == |value|
  {
    if value == "" {
      assert rest[0] == "::"[0];
      assert value + rest == rest;
    } else {
      assert (value + rest)[1..] == value[1..] + rest;
      ValueLengthIs(value[1..], rest);
    }
  }

  // What escaping leaves of the characters that frame a command.
  lemma EscapedText(s: string)
    ensures ':' !in EscapeProperty(s) && ',' !in EscapeProperty(s)
    ensures '\r' !in EscapeProperty(s) && '\n' !in EscapeProperty(s)
    ensures '\r' !in EscapeData(s) && '\n' !in EscapeData(s)
    ensures Decode(EscapeProperty(s)) == s == Decode(EscapeData(s))
  {
    hide Replace, Encode, Code, Decode, EscapeData, EscapeProperty;
    ChainIsOnePass(s);
    EncodedHasNone(s, PROPERTY_ESCAPES, RETURN);
    EncodedHasNone(s, PROPERTY_ESCAPES, NEWLINE);
    EncodedHasNone(s, PROPERTY_ESCAPES, COLON);
    EncodedHasNone(s, PROPERTY_ESCAPES, COMMA);
    EncodedHasNone(s, DATA_ESCAPES, RETURN);
    EncodedHasNone(s, DATA_ESCAPES, NEWLINE);
    DecodeEncode(s, PROPERTY_ESCAPES);
    DecodeEncode(s, DATA_ESCAPES);
  }

  /** A command is one line and reads back as exactly the title and message it was made from. */
  lemma CommandReadsBack(a: Annotation)
    ensures Read(CommandLine(a)) == Some(a)
  {
    hide EscapeData, EscapeProperty, Decode, ValueLength;
    var title, data, line := EscapeProperty(a.title), EscapeData(a.message), CommandLine(a);
    EscapedText(a.title);
    EscapedText(a.message);
    var rest := "::" + data;
    ValueLengthIs(title, rest);
    assert line == PREFIX + (title + rest);
    assert line[|PREFIX|..] == title + rest;
    assert (title + rest)[..|title|] == title && (title + rest)[|title|..] == rest;
    assert (title + rest)[|title| + 2..] == data;
  }

  // The attributes of a pytest report that the plugin looks at; each may be missing.
  datatype Report = Report(
    failed: bool, when: Option<string>, nodeid: Option<string>,
    longreprtext: Option<string>, longrepr: Option<string>)

  datatype Hook = Collected | Logged

  function GetOr(attribute: Option<string>, default_: string): string {
    if attribute.Some? then attribute.value else default_
  }

  // An empty long text counts as missing.
  function Detail(report: Report): string {
    if report.longreprtext.Some? && report.longreprtext.value != "" then report.longreprtext.value
    else GetOr(report.longrepr, "pytest failure")
  }

  function Last(s: string, limit: nat): (last: string)
    ensures |last| == if |s| < limit then |s| else limit
    ensures s[|s| - |last|..] == last
  {
    if |s| <= limit then s else s[|s| - limit..]
  }

  function Annotate(phase: string, report: Report): Annotation {
    Annotation("pytest " + phase + ": " + GetOr(report.nodeid, "pytest"), Last(Detail(report), MESSAGE_LIMIT))
  }

  function Phase(hook: Hook, report: Report): string {
    if hook.Collected? then "collection" else GetOr(report.when, "test")
  }

  // The annotations a session owes: one per failing report, in the order pytest reported them.
  function Owed(events: seq<(Hook, Report)>): seq<Annotation> {
    if events == [] then []
    else
      var (hook, report) := events[|events| - 1];
      Owed(events[..|events| - 1]) + if report.failed then [Annotate(Phase(hook, report), report)] else []
  }

  // The end of the text, 3500 characters of it if there are as many.
  predicate Tail(text: string, whole: string) {
    && |text| <= |whole| && whole[|whole| - |text|..] == text
    && (|whole| <= 3500 ==> text == whole) && (|whole| > 3500 ==> |text| == 3500)
  }

  // A published line tells of the report: where it failed and what pytest had to say at the end.
  predicate Tells(command: string, hook: Hook, report: Report) {
    && Read(command).Some?
    && var Annotation(title, message) := Read(command).value;
       var id := if report.nodeid.Some? then report.nodeid.value else "pytest";
       && (hook.Collected? ==> title == "pytest collection: " + id)
       && (hook.Logged? && report.when.Some? ==> title == "pytest " + report.when.value + ": " + id)
       && (hook.Logged? && report.when.None? ==> title == "pytest test: " + id)
       && if report.longreprtext.Some? && report.longreprtext.value != "" then
            Tail(message, report.longreprtext.value)
          else if report.longrepr.Some? then Tail(message, report.longrepr.value)
          else message == "pytest failure"
  }

  lemma AnnotationTells(command: string, hook: Hook, report: Report)
    requires Read(command) == Some(Annotate(Phase(hook, report), report))
    ensures Tells(command, hook, report)
  {
    hide Read;
    var id := GetOr(report.nodeid, "pytest");
    assert "pytest " + "collection" + ": " + id == "pytest collection: " + id;
    assert "pytest " + "test" + ": " + id == "pytest test: " + id;
  }

  // The published lines stand for these annotations.
  ghost predicate Publishes(commands: seq<string>, annotations: seq<Annotation>) {
    && |commands| == |annotations|
    && forall i :: 0 <= i < |commands| ==> Read(commands[i]) == Some(annotations[i])
  }

  // The positions of the failing reports.
  ghost predicate FailedAt(events: seq<(Hook, Report)>, at: seq<nat>) {
    && Ascending(at, |events|)
    && forall i: nat :: i < |events| ==> (i in at <==> events[i].1.failed)
  }

  // One line for each failing report, in the order in which pytest reported them.
  ghost predicate TellsAll(events: seq<(Hook, Report)>, commands: seq<string>, at: seq<nat>) {
    && FailedAt(events, at) && |commands| == |at|
    && forall k :: 0 <= k < |at| ==> Tells(commands[k], events[at[k]].0, events[at[k]].1)
  }

  lemma FailedAtSnoc(events: seq<(Hook, Report)>, at: seq<nat>)
    requires events != [] && FailedAt(events[..|events| - 1], at)
    ensures Ascending(at, |events| - 1)
    ensures FailedAt(events, if events[|events| - 1].1.failed then at + [|events| - 1] else at)
  {
    var n := |events| - 1;
    AscendingSnoc(at, n);
    assert forall i: nat :: i < n ==> events[..n][i] == events[i];
    assert forall i :: i in at + [n] <==> i in at || i == n;
  }

  lemma TellsNext(events: seq<(Hook, Report)>, commands: seq<string>, at: seq<nat>)
    requires events != [] && events[|events| - 1].1.failed && TellsAll(events[..|events| - 1], commands, at)
    ensures forall command :: Tells(command, events[|events| - 1].0, events[|events| - 1].1) ==>
              TellsAll(events, commands + [command], at + [|events| - 1])
  {
    hide Tells, FailedAt;
    FailedAtSnoc(events, at);
    assert forall k :: 0 <= k < |at| ==> events[..|events| - 1][at[k]] == events[at[k]];
  }

  lemma TellsSame(events: seq<(Hook, Report)>, commands: seq<string>, at: seq<nat>)
    requires events != [] && !events[|events| - 1].1.failed && TellsAll(events[..|events| - 1], commands, at)
    ensures TellsAll(events, commands, at)
  {
    hide Tells, FailedAt;
    FailedAtSnoc(events, at);
    assert forall k :: 0 <= k < |at| ==> events[..|events| - 1][at[k]] == events[at[k]];
  }

  lemma {:induction false} OwedTells(events: seq<(Hook, Report)>, commands: seq<string>) returns (at: seq<nat>)
    requires Publishes(commands, Owed(events))
    ensures TellsAll(events, commands, at)
    decreases |events|
  {
    if events == [] {
      at := [];
    } else {
      hide Read, Tells, Annotate, TellsAll;
      var n := |events| - 1;
      var (hook, report) := events[n];
      if report.failed {
        var m := |commands| - 1;
        assert commands == commands[..m] + [commands[m]];
        AnnotationTells(commands[m], hook, report);
        at := OwedTells(events[..n], commands[..m]);
        TellsNext(events, commands[..m], at);
        at := at + [n];
      } else {
        at := OwedTells(events[..n], commands);
        TellsSame(events, commands, at);
      }
    }
  }

  class GitHubFailureAnnotations {
    var commands: seq<string>

    constructor ()
      ensures commands == []
    {
      commands := [];
    }

    method Record(phase: string, report: Report)
      modifies this
      ensures commands == old(commands) + [CommandLine(Annotate(phase, report))]
    {
      var detail :=
        if report.longreprtext.Some? && report.longreprtext.value != "" then report.longreprtext.value
        else GetOr(report.longrepr, "pytest failure");
      var message := if |detail| > MESSAGE_LIMIT then detail[|detail| - MESSAGE_LIMIT..] else detail;
      var title := EscapeProperty("pytest " + phase + ": " + GetOr(report.nodeid, "pytest"));
      commands := commands + ["::error title=" + title + "::" + EscapeData(message)];
    }

    method CollectReport(report: Report)
      modifies this
      ensures commands == old(commands) + if report.failed then [CommandLine(Annotate("collection", report))] else []
    {
      if report.failed {
        Record("collection", report);
      }
    }

    method RuntestLogReport(report: Report)
      modifies this
      ensures commands == old(commands)
                          + if report.failed then [CommandLine(Annotate(Phase(Logged, report), report))] else []
    {
      if report.failed {
        Record(GetOr(report.when, "test"), report);
      }
    }
  }

  /** After any session, the commands are one readable line per failing report, in order, and nothing else. */
  method Session(events: seq<(Hook, Report)>) returns (commands: seq<string>)
    ensures Publishes(commands, Owed(events))
    ensures exists at :: TellsAll(events, commands, at)
  {
    hide Read, CommandLine, Annotate, TellsAll;
    var annotations := new GitHubFailureAnnotations();
    for n := 0 to |events|
      invariant Publishes(annotations.commands, Owed(events[..n]))
    {
      var (hook, report) := events[n];
      assert events[..n + 1][..n] == events[..n];
      CommandReadsBack(Annotate(Phase(hook, report), report));
      if hook.Collected? {
        annotations.CollectReport(report);
      } else {
        annotations.RuntestLogReport(report);
      }
    }
    assert events[..|events|] == events;
    commands := annotations.commands;
    ghost var at := OwedTells(events, commands);
  }
}
