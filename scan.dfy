/**
 * `Scan.run`: every message dated after the cutoff whose text, subject,
 * sender or recipients match the configured terms is exported as a raw
 * copy, a formatted text file and its document attachments.
 */
module Scanner {
  import opened Wrappers
  import opened Strings
  import opened Mime
  import opened DateText
  import opened Timestamps
  import opened Strptime
  import opened WordSearch
  import opened Filenames

  /** The JSON configuration: each list of search terms may be absent from the file. */
  datatype Config = Config(
    general: Option<seq<string>>,
    subject: Option<seq<string>>,
    from: Option<seq<string>>,
    to: Option<seq<string>>)

  /** One message of the mailbox: the headers `run` reads (`None` when absent), its body and its serialised form. */
  datatype Message = Message(
    date: Option<string>,
    subject: Option<string>,
    from: Option<string>,
    to: Option<string>,
    cc: Option<string>,
    body: Body,
    wire: string)

  /** The exceptions that end `run`. */
  datatype Error =
    | MissingDate              // `msg['Date']` is None: AttributeError on `.find`
    | BadDate(text: string)    // `strptime` raises ValueError on the normalised date
    | MissingKey(key: string)  // a search-term list is absent from the configuration: KeyError

  /** What a run is given: the configuration, the foreign decoders and the cutoff in seconds since the epoch. */
  datatype Settings = Settings(config: Config, codecs: Codecs, cutoff: int)

  /** The output directories: `raw/` and `text/` as file name to contents, and the attachments written into `text/`. */
  datatype Outputs = Outputs(raw: map<string, string>, text: map<string, string>, attachments: map<string, seq<byte>>)

  // ---------------------------------------------------------------------------
  // The date of a message
  // ---------------------------------------------------------------------------

  /** The parsed date and its normalised text, or the error that parsing raises. */
  function DateOf(msg: Message): (r: Result<(DateTime, string), Error>)
    ensures r.Ok? ==> Valid(r.value.0)
    ensures r.Ok? <==> msg.date.Some? && Parse(NormaliseDate(msg.date.value)).Some?
    ensures r.Ok? ==> r.value == (Parse(NormaliseDate(msg.date.value)).value, NormaliseDate(msg.date.value))
    ensures msg.date.None? ==> r == Err(MissingDate)
    ensures msg.date.Some? && r.Err? ==> r == Err(BadDate(NormaliseDate(msg.date.value)))
  {
    if msg.date.None? then Err(MissingDate)
    else
      var text := NormaliseDate(msg.date.value);
      match Parse(text)
      case None => Err(BadDate(text))
      case Some(dt) => Ok((dt, text))
  }

  /** `date.timestamp() > msg_epoch`, in microseconds. */
  predicate IsAfter(dt: DateTime, cutoff: int)
    requires Valid(dt)
  {
    EpochMicros(dt) > cutoff * 1_000_000
  }

  // ---------------------------------------------------------------------------
  // The text of a message
  // ---------------------------------------------------------------------------

  /** The contribution of one part: its text and a line break, when the text is truthy. */
  function Piece(e: Extracted): string {
    if e.text.Some? && e.text.value != "" then e.text.value + "\n" else ""
  }

  /** The concatenated text of the parts, in order. */
  function Contents(payload: seq<Extracted>): string {
    if payload == [] then "" else Piece(payload[0]) + Contents(payload[1..])
  }

  lemma {:induction false} ContentsAppend(a: seq<Extracted>, b: seq<Extracted>)
    ensures Contents(a + b) == Contents(a) + Contents(b)
  {
    if a == [] {
      assert a + b == b;
    } else {
      assert (a + b)[0] == a[0] && (a + b)[1..] == a[1..] + b;
      ContentsAppend(a[1..], b);
    }
  }

  /** The loop that builds `contents` from `payload`. */
  method Aggregate(payload: seq<Extracted>) returns (contents: string)
    ensures contents == Contents(payload)
  {
    contents := "";
    for i := 0 to |payload|
      invariant contents == Contents(payload[..i])
    {
      assert payload[..i + 1] == payload[..i] + [payload[i]];
      ContentsAppend(payload[..i], [payload[i]]);
      assert Contents([payload[i]]) == Piece(payload[i]);
      if payload[i].text.Some? && payload[i].text.value != "" {
        contents := contents + payload[i].text.value + "\n";
      }
    }
    assert payload[..|payload|] == payload;
  }

  /** The contents are empty exactly when no part has a non-empty text, and otherwise end with a line break. */
  lemma {:induction false} ContentsEmpty(payload: seq<Extracted>)
    ensures Contents(payload) == "" <==> forall i :: 0 <= i < |payload| ==> Piece(payload[i]) == ""
    ensures Contents(payload) != "" ==> Contents(payload)[|Contents(payload)| - 1] == '\n'
  {
    if payload != [] {
      var tail := payload[1..];
      ContentsEmpty(tail);
      assert forall i :: 0 <= i < |tail| ==> tail[i] == payload[i + 1];
    }
  }

  /** Each non-empty text is found in the contents, followed by a line break. */
  lemma {:induction false} ContentsHasText(payload: seq<Extracted>, i: nat)
    requires i < |payload| && payload[i].text.Some? && payload[i].text.value != ""
    ensures Contains(Contents(payload), payload[i].text.value + "\n")
  {
    var t := payload[i].text.value + "\n";
    var head := Piece(payload[0]);
    var rest := Contents(payload[1..]);
    assert Contents(payload) == head + rest;
    if i == 0 {
      ContainsPrefix(t, rest);
    } else {
      assert payload[1..][i - 1] == payload[i];
      ContentsHasText(payload[1..], i - 1);
      ContainsPastPrefix(head, rest, t);
    }
  }

  // ---------------------------------------------------------------------------
  // The match predicate
  // ---------------------------------------------------------------------------

  function Lookup(terms: Option<seq<string>>, key: string): (r: Result<seq<string>, Error>)
    ensures terms.Some? <==> r.Ok?
    ensures r.Ok? ==> r.value == terms.value
    ensures r.Err? ==> r.error == MissingKey(key)
  {
    if terms.None? then Err(MissingKey(key)) else Ok(terms.value)
  }

  /**
   * The disjunction of `run` after the date test, evaluated left to right:
   * a key is looked up only when every earlier search has failed.
   */
  function Matches(config: Config, contents: string, msg: Message): Result<bool, Error> {
    var general :- Lookup(config.general, "generalSearchTerms");
    if MatchesAny(general, Some(contents)) then Ok(true) else
    var subject :- Lookup(config.subject, "subjectSearchTerms");
    if MatchesAny(subject, msg.subject) then Ok(true) else
    var from :- Lookup(config.from, "fromSearchTerms");
    if MatchesAny(from, msg.from) then Ok(true) else
    var to :- Lookup(config.to, "toSearchTerms");
    Ok(MatchesAny(to, msg.to) || MatchesAny(to, msg.cc))
  }

  /** The searches of `run`, in the order it makes them. */
  method Select(config: Config, contents: string, msg: Message) returns (r: Result<bool, Error>)
    ensures r == Matches(config, contents, msg)
  {
    if config.general.None? {
      return Err(MissingKey("generalSearchTerms"));
    }
    var found := Search(config.general.value, Some(contents));
    if found {
      return Ok(true);
    }
    if config.subject.None? {
      return Err(MissingKey("subjectSearchTerms"));
    }
    found := Search(config.subject.value, msg.subject);
    if found {
      return Ok(true);
    }
    if config.from.None? {
      return Err(MissingKey("fromSearchTerms"));
    }
    found := Search(config.from.value, msg.from);
    if found {
      return Ok(true);
    }
    if config.to.None? {
      return Err(MissingKey("toSearchTerms"));
    }
    found := Search(config.to.value, msg.to);
    if !found {
      found := Search(config.to.value, msg.cc);
    }
    return Ok(found);
  }

  predicate Complete(config: Config) {
    config.general.Some? && config.subject.Some? && config.from.Some? && config.to.Some?
  }

  /** With every key configured, a message matches when any of the five searches does. */
  lemma MatchesComplete(config: Config, contents: string, msg: Message)
    requires Complete(config)
    ensures Matches(config, contents, msg) == Ok(
      MatchesAny(config.general.value, Some(contents)) ||
      MatchesAny(config.subject.value, msg.subject) ||
      MatchesAny(config.from.value, msg.from) ||
      MatchesAny(config.to.value, msg.to) ||
      MatchesAny(config.to.value, msg.cc))
  {
  }

  /** The list is configured and none of its terms matches the text. */
  predicate Missed(terms: Option<seq<string>>, text: Option<string>) {
    terms.Some? && !MatchesAny(terms.value, text)
  }

  /** A missing key is an error exactly when the searches before it have all failed. */
  lemma MatchesMissingKey(config: Config, contents: string, msg: Message)
    ensures config.general.None? ==> Matches(config, contents, msg) == Err(MissingKey("generalSearchTerms"))
    ensures config.general.Some? && MatchesAny(config.general.value, Some(contents)) ==>
      Matches(config, contents, msg) == Ok(true)
    ensures Missed(config.general, Some(contents)) && config.subject.None? ==>
      Matches(config, contents, msg) == Err(MissingKey("subjectSearchTerms"))
    ensures Missed(config.general, Some(contents)) && Missed(config.subject, msg.subject) && config.from.None? ==>
      Matches(config, contents, msg) == Err(MissingKey("fromSearchTerms"))
    ensures (Missed(config.general, Some(contents)) && Missed(config.subject, msg.subject) &&
      Missed(config.from, msg.from) && config.to.None?) ==>
      Matches(config, contents, msg) == Err(MissingKey("toSearchTerms"))
    ensures Matches(config, contents, msg).Err? ==> !Complete(config)
  {
  }

  // ---------------------------------------------------------------------------
  // The exported files
  // ---------------------------------------------------------------------------

  /** `f"{value}"` of a header: the text, or `None` when it is absent. */
  function Show(header: Option<string>): (r: string)
    ensures header.Some? ==> r == header.value
    ensures header.None? ==> r == "None"
  {
    match header
    case None => "None"
    case Some(v) => v
  }

  const DateLabel: string := "DATE    : "
  const SubjectLabel: string := "SUBJECT : "
  const FromLabel: string := "FROM    : "
  const ToLabel: string := "TO      : "
  const CcLabel: string := "CC      : "

  function Line(title: string, value: string): string {
    title + value + "\n"
  }

  /** The file written to `text/`: five labelled header lines, an empty line, then the contents. */
  function TextFile(dateText: string, msg: Message, contents: string): string {
    Line(DateLabel, dateText) + (Line(SubjectLabel, Show(msg.subject)) + (Line(FromLabel, Show(msg.from)) +
      (Line(ToLabel, Show(msg.to)) + (Line(CcLabel, Show(msg.cc)) + ("\n" + contents)))))
  }

  /** One labelled line: the value after the title, and what follows the line break. */
  function ReadField(title: string, s: string): (r: Option<(string, string)>)
    ensures r.Some? ==> |r.value.1| < |s|
  {
    var i := Find(s, '\n');
    if i < |title| || s[..|title|] != title then None
    else Some((s[|title|..i], s[i + 1..]))
  }

  /** Reads a text file back into its five header values and its contents. */
  function ReadBack(file: string): Option<(seq<string>, string)> {
    var date :- ReadField(DateLabel, file);
    var subject :- ReadField(SubjectLabel, date.1);
    var from :- ReadField(FromLabel, subject.1);
    var to :- ReadField(ToLabel, from.1);
    var cc :- ReadField(CcLabel, to.1);
    if cc.1 == [] || cc.1[0] != '\n' then None
    else Some(([date.0, subject.0, from.0, to.0, cc.0], cc.1[1..]))
  }

  lemma {:induction false} FindFirst(s: string, c: char, n: nat)
    requires n < |s| && s[n] == c && c !in s[..n]
    ensures Find(s, c) == n
  {
    var r := Find(s, c);
    assert c in s by { assert s[n] == c; }
    assert forall j :: 0 <= j < n ==> s[..n][j] == s[j];
    assert forall j :: 0 <= j < r ==> s[..r][j] == s[j];
  }

  lemma ReadFieldOfLine(title: string, value: string, rest: string)
    requires '\n' !in title && '\n' !in value
    ensures ReadField(title, Line(title, value) + rest) == Some((value, rest))
  {
    var s := Line(title, value) + rest;
    var n := |title| + |value|;
    assert s[..n] == title + value;
    FindFirst(s, '\n', n);
    assert s[..|title|] == title;
    assert s[|title|..n] == value;
    assert s[n + 1..] == rest;
  }

  /** When no header value holds a line break, the text file reads back as what was written. */
  lemma TextFileRoundTrip(dateText: string, msg: Message, contents: string)
    requires '\n' !in dateText && '\n' !in Show(msg.subject) && '\n' !in Show(msg.from)
    requires '\n' !in Show(msg.to) && '\n' !in Show(msg.cc)
    ensures ReadBack(TextFile(dateText, msg, contents)) ==
      Some(([dateText, Show(msg.subject), Show(msg.from), Show(msg.to), Show(msg.cc)], contents))
  {
    var r4 := "\n" + contents;
    var r3 := Line(CcLabel, Show(msg.cc)) + r4;
    var r2 := Line(ToLabel, Show(msg.to)) + r3;
    var r1 := Line(FromLabel, Show(msg.from)) + r2;
    var r0 := Line(SubjectLabel, Show(msg.subject)) + r1;
    ReadFieldOfLine(DateLabel, dateText, r0);
    ReadFieldOfLine(SubjectLabel, Show(msg.subject), r1);
    ReadFieldOfLine(FromLabel, Show(msg.from), r2);
    ReadFieldOfLine(ToLabel, Show(msg.to), r3);
    ReadFieldOfLine(CcLabel, Show(msg.cc), r4);
    assert r4[1..] == contents;
  }

  /** Adds the attachments that were read, in order: a later file of the same name replaces an earlier one. */
  function SaveAll(m: map<string, seq<byte>>, found: seq<Option<Attachment>>): map<string, seq<byte>> {
    if found == [] then m
    else
      var before := SaveAll(m, found[..|found| - 1]);
      match found[|found| - 1]
      case None => before
      case Some(a) => before[a.fileName := a.data]
  }

  function TextName(root: string): string {
    root + ".txt"
  }

  /** The new outputs for an exported message. */
  function Export(out: Outputs, dt: DateTime, dateText: string, contents: string, msg: Message): Outputs {
    var root := FilenameRoot(dt);
    Outputs(
      out.raw[TextName(root) := msg.wire],
      out.text[TextName(root) := TextFile(dateText, msg, contents)],
      SaveAll(out.attachments, ReadEmailAttachments(root, msg.body)))
  }

  // ---------------------------------------------------------------------------
  // One message and a whole mailbox
  // ---------------------------------------------------------------------------

  /** Whether `run` exports the message, or the error it raises on it. */
  function Selected(s: Settings, msg: Message): Result<bool, Error> {
    var date :- DateOf(msg);
    var contents := Contents(ReadEmailPayload(s.codecs, msg.body));
    if IsAfter(date.0, s.cutoff) then Matches(s.config, contents, msg) else Ok(false)
  }

  /** The body of the loop of `run` for one message. */
  function Step(s: Settings, out: Outputs, msg: Message): Result<Outputs, Error> {
    var selected :- Selected(s, msg);
    if !selected then Ok(out)
    else
      var date := DateOf(msg).value;
      Ok(Export(out, date.0, date.1, Contents(ReadEmailPayload(s.codecs, msg.body)), msg))
  }

  lemma SelectedDated(s: Settings, msg: Message, date: DateTime, dateText: string)
    requires DateOf(msg) == Ok((date, dateText))
    ensures Selected(s, msg) ==
      if IsAfter(date, s.cutoff) then Matches(s.config, Contents(ReadEmailPayload(s.codecs, msg.body)), msg) else Ok(false)
  {
  }

  lemma StepError(s: Settings, out: Outputs, msg: Message)
    requires Selected(s, msg).Err?
    ensures Step(s, out, msg) == Err(Selected(s, msg).error)
  {
  }

  lemma StepSkip(s: Settings, out: Outputs, msg: Message)
    requires Selected(s, msg) == Ok(false)
    ensures Step(s, out, msg) == Ok(out)
  {
  }

  lemma StepExport(s: Settings, out: Outputs, msg: Message)
    requires Selected(s, msg) == Ok(true)
    ensures DateOf(msg).Ok?
    ensures Step(s, out, msg) ==
      Ok(Export(out, DateOf(msg).value.0, DateOf(msg).value.1, Contents(ReadEmailPayload(s.codecs, msg.body)), msg))
  {
  }

  /** The messages in mailbox order, up to the first that raises. */
  function Process(s: Settings, out: Outputs, msgs: seq<Message>): (Outputs, Option<Error>)
    decreases |msgs|
  {
    if msgs == [] then (out, None)
    else
      match Step(s, out, msgs[0])
      case Err(e) => (out, Some(e))
      case Ok(next) => Process(s, next, msgs[1..])
  }

  // ---------------------------------------------------------------------------
  // The scanner
  // ---------------------------------------------------------------------------

  class Scan {
    const settings: Settings
    var raw: map<string, string>
    var text: map<string, string>
    var attachments: map<string, seq<byte>>

    function State(): Outputs
      reads this
    {
      Outputs(raw, text, attachments)
    }

    /** `__init__`: the output directories start out empty. */
    constructor(settings: Settings)
      ensures this.settings == settings
      ensures State() == Outputs(map[], map[], map[])
    {
      this.settings := settings;
      raw := map[];
      text := map[];
      attachments := map[];
    }

    /** `read_email_attachments`: writes each document attachment of the message under `prefix`. */
    method WriteAttachments(prefix: string, body: Body)
      modifies this
      ensures attachments == SaveAll(old(attachments), ReadEmailAttachments(prefix, body))
      ensures raw == old(raw) && text == old(text)
    {
      var found := ReadEmailAttachments(prefix, body);
      for i := 0 to |found|
        invariant attachments == SaveAll(old(attachments), found[..i])
        invariant raw == old(raw) && text == old(text)
      {
        assert found[..i + 1][..i] == found[..i];
        if found[i].Some? {
          attachments := attachments[found[i].value.fileName := found[i].value.data];
        }
      }
      assert found[..|found|] == found;
    }

    /** One pass of the loop of `run`. */
    method ScanMessage(msg: Message) returns (err: Option<Error>)
      modifies this
      ensures err.None? ==> Step(settings, old(State()), msg) == Ok(State())
      ensures err.Some? ==> Step(settings, old(State()), msg) == Err(err.value) && State() == old(State())
    {
      if msg.date.None? {
        StepError(settings, State(), msg);
        return Some(MissingDate);
      }
      var dateText := NormaliseDate(msg.date.value);
      var parsed := Parse(dateText);
      if parsed.None? {
        StepError(settings, State(), msg);
        return Some(BadDate(dateText));
      }
      var date := parsed.value;
      SelectedDated(settings, msg, date, dateText);
      var payload := ReadEmailPayload(settings.codecs, msg.body);
      var contents := Aggregate(payload);
      var selected := false;
      if EpochMicros(date) > settings.cutoff * 1_000_000 {
        var r := Select(settings.config, contents, msg);
        if r.Err? {
          StepError(settings, State(), msg);
          return Some(r.error);
        }
        selected := r.value;
      }
      if !selected {
        StepSkip(settings, State(), msg);
        return None;
      }
      StepExport(settings, State(), msg);
      WriteOutputs(date, dateText, contents, msg);
      return None;
    }

    /** The three writes for a selected message: its raw copy, its text file and its attachments. */
    method WriteOutputs(date: DateTime, dateText: string, contents: string, msg: Message)
      modifies this
      ensures State() == Export(old(State()), date, dateText, contents, msg)
    {
      var root := FilenameRoot(date);
      raw := raw[TextName(root) := msg.wire];
      text := text[TextName(root) := TextFile(dateText, msg, contents)];
      WriteAttachments(root, msg.body);
    }

    /** `run`: scans the messages in order and stops at the first error, keeping what was written before it. */
    method Run(msgs: seq<Message>) returns (err: Option<Error>)
      modifies this
      ensures (State(), err) == Process(settings, old(State()), msgs)
    {
      for i := 0 to |msgs|
        invariant Process(settings, old(State()), msgs) == Process(settings, State(), msgs[i..])
      {
        assert msgs[i..][0] == msgs[i] && msgs[i..][1..] == msgs[i + 1..];
        err := ScanMessage(msgs[i]);
        if err.Some? {
          return;
        }
      }
      return None;
    }
  }

  // ---------------------------------------------------------------------------
  // Properties of a run
  // ---------------------------------------------------------------------------

  /** Running two mailboxes one after the other is running their concatenation. */
  lemma {:induction false} ProcessAppend(s: Settings, out: Outputs, a: seq<Message>, b: seq<Message>)
    ensures Process(s, out, a + b) ==
      (var first := Process(s, out, a); if first.1.Some? then first else Process(s, first.0, b))
    decreases |a|
  {
    if a == [] {
      assert a + b == b;
    } else {
      assert (a + b)[0] == a[0] && (a + b)[1..] == a[1..] + b;
      match Step(s, out, a[0])
      case Err(e) =>
      case Ok(next) => ProcessAppend(s, next, a[1..], b);
    }
  }

  /** A message dated at or before the cutoff leaves every output as it was, whatever the configuration holds. */
  lemma EarlyMessageIgnored(s: Settings, out: Outputs, msg: Message)
    requires DateOf(msg).Ok? && !IsAfter(DateOf(msg).value.0, s.cutoff)
    ensures Step(s, out, msg) == Ok(out)
  {
  }

  /** A mailbox of messages dated at or before the cutoff exports nothing. */
  lemma {:induction false} EarlyMailboxIgnored(s: Settings, out: Outputs, msgs: seq<Message>)
    requires forall i :: 0 <= i < |msgs| ==> DateOf(msgs[i]).Ok? && !IsAfter(DateOf(msgs[i]).value.0, s.cutoff)
    ensures Process(s, out, msgs) == (out, None)
    decreases |msgs|
  {
    if msgs != [] {
      EarlyMessageIgnored(s, out, msgs[0]);
      assert forall i :: 0 <= i < |msgs[1..]| ==> msgs[1..][i] == msgs[i + 1];
      EarlyMailboxIgnored(s, out, msgs[1..]);
    }
  }

  /** An exported message is found under its file name in both directories. */
  lemma ExportWrites(s: Settings, out: Outputs, msg: Message)
    requires Selected(s, msg) == Ok(true)
    ensures DateOf(msg).Ok?
    ensures var date := DateOf(msg).value;
      var name := TextName(FilenameRoot(date.0));
      var next := Step(s, out, msg);
      next.Ok? && name in next.value.raw && next.value.raw[name] == msg.wire &&
      name in next.value.text && next.value.text[name] == TextFile(date.1, msg, Contents(ReadEmailPayload(s.codecs, msg.body))) &&
      (forall k :: k in out.raw && k != name ==> k in next.value.raw && next.value.raw[k] == out.raw[k])
  {
  }

  lemma ExportRaw(out: Outputs, dt: DateTime, dateText: string, contents: string, msg: Message)
    ensures TextName(FilenameRoot(dt)) in Export(out, dt, dateText, contents, msg).raw
    ensures Export(out, dt, dateText, contents, msg).raw[TextName(FilenameRoot(dt))] == msg.wire
  {
  }

  lemma {:induction false} ProcessTwo(s: Settings, out: Outputs, m1: Message, m2: Message)
    requires Step(s, out, m1).Ok? && Step(s, Step(s, out, m1).value, m2).Ok?
    ensures Process(s, out, [m1, m2]) == (Step(s, Step(s, out, m1).value, m2).value, None)
  {
    var o1 := Step(s, out, m1).value;
    assert [m1, m2][0] == m1 && [m1, m2][1..] == [m2] && [m2][1..] == [];
    assert Process(s, o1, [m2]) == Process(s, Step(s, o1, m2).value, []);
  }

  /**
   * Two exported messages with the same local date and time share a file name:
   * the later one's raw copy and text file remain.
   */
  lemma {:induction false} LaterMessageOverwrites(s: Settings, out: Outputs, m1: Message, m2: Message)
    requires Selected(s, m1) == Ok(true) && Selected(s, m2) == Ok(true)
    requires LocalFields(DateOf(m1).value.0) == LocalFields(DateOf(m2).value.0)
    ensures var r := Process(s, out, [m1, m2]); var name := TextName(FilenameRoot(DateOf(m1).value.0));
      r.1.None? && name in r.0.raw && r.0.raw[name] == m2.wire && name in r.0.text &&
      r.0.text[name] == TextFile(DateOf(m2).value.1, m2, Contents(ReadEmailPayload(s.codecs, m2.body)))
  {
    var d1 := DateOf(m1).value.0;
    var date2 := DateOf(m2).value;
    FilenameRootInjective(d1, date2.0);
    assert FilenameRoot(d1) == FilenameRoot(date2.0);
    StepExport(s, out, m1);
    var o1 := Step(s, out, m1).value;
    StepExport(s, o1, m2);
    var o2 := Export(o1, date2.0, date2.1, Contents(ReadEmailPayload(s.codecs, m2.body)), m2);
    assert Step(s, o1, m2) == Ok(o2);
    ExportRaw(o1, date2.0, date2.1, Contents(ReadEmailPayload(s.codecs, m2.body)), m2);
    assert o2.raw[TextName(FilenameRoot(d1))] == m2.wire;
    assert o2.text[TextName(FilenameRoot(d1))] == TextFile(date2.1, m2, Contents(ReadEmailPayload(s.codecs, m2.body)));
    ProcessTwo(s, out, m1, m2);
    assert Process(s, out, [m1, m2]) == (o2, None);
  }

  // ---------------------------------------------------------------------------
  // File names
  // ---------------------------------------------------------------------------

  /** A formatted text file's name: the 19-character root and `.txt`. */
  predicate IsTextName(k: string) {
    |k| == 23 && k[19] == '.'
  }

  /** An attachment's name: the 19-character root, a dash and the cleaned name. */
  predicate IsAttachmentName(k: string) {
    |k| >= 20 && k[19] == '-'
  }

  /** The file names a run keeps consistent. */
  predicate WellNamed(out: Outputs) {
    out.raw.Keys == out.text.Keys &&
    (forall k :: k in out.text ==> IsTextName(k)) &&
    (forall k :: k in out.attachments ==> IsAttachmentName(k))
  }

  /** No attachment can overwrite a formatted text file, since their names differ at position 19. */
  lemma NamesDisjoint(out: Outputs)
    requires WellNamed(out)
    ensures out.text.Keys !! out.attachments.Keys
  {
  }

  lemma {:induction false} SaveAllNames(m: map<string, seq<byte>>, found: seq<Option<Attachment>>, root: string)
    requires |root| == 19
    requires forall k :: k in m ==> IsAttachmentName(k)
    requires forall i :: 0 <= i < |found| && found[i].Some? ==>
      |found[i].value.fileName| >= |root| + 1 && found[i].value.fileName[..|root| + 1] == root + "-"
    ensures forall k :: k in SaveAll(m, found) ==> IsAttachmentName(k)
    decreases |found|
  {
    if found != [] {
      var init := found[..|found| - 1];
      assert forall i :: 0 <= i < |init| ==> init[i] == found[i];
      SaveAllNames(m, init, root);
      var last := found[|found| - 1];
      if last.Some? {
        assert last.value.fileName[..|root| + 1][19] == '-';
      }
    }
  }

  lemma AttachmentNamed(root: string, body: Body, i: nat)
    requires i < |ReadEmailAttachments(root, body)| && ReadEmailAttachments(root, body)[i].Some?
    ensures var name := ReadEmailAttachments(root, body)[i].value.fileName;
      |name| >= |root| + 1 && name[..|root| + 1] == root + "-"
  {
    var item := MessageItems(body)[i];
    var a := ReadAttachment(root, item).value;
    assert a.fileName == root + "-" + CleanFilename(item.leaf.name);
  }

  lemma ExportWellNamed(out: Outputs, dt: DateTime, dateText: string, contents: string, msg: Message)
    requires WellNamed(out) && Valid(dt)
    ensures WellNamed(Export(out, dt, dateText, contents, msg))
  {
    var root := FilenameRoot(dt);
    FilenameRootRoundTrip(dt);
    var found := ReadEmailAttachments(root, msg.body);
    forall i | 0 <= i < |found| && found[i].Some?
      ensures |found[i].value.fileName| >= |root| + 1 && found[i].value.fileName[..|root| + 1] == root + "-"
    {
      AttachmentNamed(root, msg.body, i);
    }
    SaveAllNames(out.attachments, found, root);
    var next := Export(out, dt, dateText, contents, msg);
    assert next.attachments == SaveAll(out.attachments, found);
    assert next.text.Keys == out.text.Keys + {TextName(root)};
    assert next.raw.Keys == out.raw.Keys + {TextName(root)};
    assert IsTextName(TextName(root));
  }

  lemma StepWellNamed(s: Settings, out: Outputs, msg: Message)
    requires WellNamed(out) && Step(s, out, msg).Ok?
    ensures WellNamed(Step(s, out, msg).value)
  {
    if Selected(s, msg) == Ok(true) {
      StepExport(s, out, msg);
      var date := DateOf(msg).value;
      ExportWellNamed(out, date.0, date.1, Contents(ReadEmailPayload(s.codecs, msg.body)), msg);
    } else {
      StepSkip(s, out, msg);
    }
  }

  /** Every run keeps raw and text copies side by side and attachment names apart from text file names. */
  lemma {:induction false} ProcessWellNamed(s: Settings, out: Outputs, msgs: seq<Message>)
    requires WellNamed(out)
    ensures WellNamed(Process(s, out, msgs).0)
    ensures Process(s, out, msgs).0.text.Keys !! Process(s, out, msgs).0.attachments.Keys
    decreases |msgs|
  {
    if msgs != [] && Step(s, out, msgs[0]).Ok? {
      StepWellNamed(s, out, msgs[0]);
      ProcessWellNamed(s, Step(s, out, msgs[0]).value, msgs[1..]);
    }
    NamesDisjoint(Process(s, out, msgs).0);
  }
}
