/** What a server may write on an event stream, and what the client reads of it (crates/harness/src/mcp.rs,
    `SseParser::push` and the event-stream arm of `Session::request`). */
module SseServer {
  import opened Bytes
  import opened Json
  import opened JsonRpc
  import opened McpError
  import opened Outcomes
  import opened Sequences
  import opened SseRequest
  import opened SseStream

  // ----- Lines -----

  // The bytes of "data".
  const NAME: Line := [100, 97, 116, 97]

  // A line as a server may write it.
  datatype Written =
    | Data(text: Line, blank: bool)      // data:text, with or without a blank in front of the text
    | BareData                           // data
    | Comment(text: Line)                // :text
    | Field(name: Line, value: Line)     // name:value, such as event:message
    | BareField(name: Line)              // name

  function LineOf(w: Written): Line {
    match w
    case Data(text, blank) => NAME + ([58] + (if blank then [32] + text else text))
    case BareData => NAME
    case Comment(text) => [58] + text
    case Field(name, value) => name + ([58] + value)
    case BareField(name) => name
  }

  /** A field other than data has a name of its own; a text without a blank in front does not start with one. */
  predicate WellWritten(w: Written) {
    match w
    case Data(text, blank) => blank || text == [] || text[0] != 32
    case Field(name, _) => name != [] && 58 !in name && name != NAME
    case BareField(name) => name != [] && 58 !in name && name != NAME
    case _ => true
  }

  /** The data the line carries. */
  function TextOf(w: Written): seq<Line> {
    match w
    case Data(text, _) => [text]
    case BareData => [[]]
    case _ => []
  }

  lemma FirstColon(name: Line, value: Line)
    requires 58 !in name
    ensures IndexOf(name + ([58] + value), COLON) == |name|
    ensures DataOf(name + ([58] + value)) == if name == NAME then [StripSpace(value)] else []
  {
    var line := name + ([58] + value);
    assert line[..|name|] == name && line[|name| + 1..] == value;
    IndexOfIs(line, COLON, |name|);
  }

  lemma NoColon(name: Line)
    requires 58 !in name
    ensures DataOf(name) == if name == NAME then [[]] else []
  {
    assert name[..|name|] == name;
    IndexOfIs(name, COLON, |name|);
  }

  /** A line counts for exactly the data it carries: comments and other fields for none, `data` for its
      value without one leading blank, a bare `data` for an empty line. */
  lemma LineCarries(w: Written)
    requires WellWritten(w)
    ensures DataOf(LineOf(w)) == TextOf(w) && LineOf(w) != []
  {
    match w
    case Data(text, blank) =>
      FirstColon(NAME, if blank then [32] + text else text);
      assert ([32] + text)[1..] == text;
    case BareData => NoColon(NAME);
    case Comment(text) =>
      assert [] + ([58] + text) == [58] + text;
      FirstColon([], text);
    case Field(name, value) => FirstColon(name, value);
    case BareField(name) => NoColon(name);
  }

  /** Every line that is not blank is written in one of these ways. */
  lemma EveryLineIsWritten(line: Line) returns (w: Written)
    requires line != []
    ensures WellWritten(w) && LineOf(w) == line
  {
    var i := IndexOf(line, COLON);
    if i == |line| {
      assert line[..i] == line;
      w := if line == NAME then BareData else BareField(line);
    } else {
      var (name, value) := (line[..i], line[i + 1..]);
      assert line == name + ([58] + value);
      if name == [] {
        w := Comment(value);
      } else if name != NAME {
        w := Field(name, value);
      } else if value != [] && value[0] == 32 {
        assert value == [32] + value[1..];
        w := Data(value[1..], true);
      } else {
        w := Data(value, false);
      }
    }
  }

  /** A comment or a field other than data may stand anywhere without changing what is read. */
  lemma {:induction false} OtherLinesDoNotMatter(a: seq<Line>, w: Written, b: seq<Line>)
    requires WellWritten(w) && TextOf(w) == []
    ensures Events(a + ([LineOf(w)] + b)) == Events(a + b) && Pending(a + ([LineOf(w)] + b)) == Pending(a + b)
    decreases |b|
  {
    LineCarries(w);
    if b == [] {
      assert a + ([LineOf(w)] + b) == a + [LineOf(w)] && a + b == a;
      OneMoreLine(a, LineOf(w));
    } else {
      var (front, last) := (b[..|b| - 1], b[|b| - 1]);
      assert b == front + [last];
      Associate(a, front, [last]);
      Associate([LineOf(w)], front, [last]);
      Associate(a, [LineOf(w)] + front, [last]);
      OtherLinesDoNotMatter(a, w, front);
      OneMoreLine(a + ([LineOf(w)] + front), last);
      OneMoreLine(a + front, last);
    }
  }

  // ----- Events -----

  // A line and how it ends: with a carriage return and a line feed, or with a line feed alone.
  datatype Ended = Ended(line: Written, crlf: bool)

  // The lines of an event and how the blank line behind them ends.
  datatype Event = Event(lines: seq<Ended>, crlf: bool)

  function EndOf(crlf: bool): seq<Byte> {
    if crlf then [13, 10] else [10]
  }

  /** A line that survives its ending: UTF-8, unbroken, and not ending in what belongs to the ending. */
  predicate Sendable(e: Ended) {
    var line := LineOf(e.line);
    && WellWritten(e.line) && ValidUtf8(line) && 10 !in line
    && (!e.crlf ==> line[|line| - 1] != 13)
  }

  predicate SendableEvent(ev: Event) {
    forall i | 0 <= i < |ev.lines| :: LineOf(ev.lines[i].line) != [] && Sendable(ev.lines[i])
  }

  function LinesText(lines: seq<Ended>): seq<Byte> {
    if lines == [] then [] else LineOf(lines[0].line) + (EndOf(lines[0].crlf) + LinesText(lines[1..]))
  }

  function EventText(ev: Event): seq<Byte> {
    LinesText(ev.lines) + EndOf(ev.crlf)
  }

  function ServerText(events: seq<Event>): seq<Byte> {
    if events == [] then [] else EventText(events[0]) + ServerText(events[1..])
  }

  /** The data lines of an event. */
  function Message(lines: seq<Ended>): seq<Line> {
    if lines == [] then [] else TextOf(lines[0].line) + Message(lines[1..])
  }

  /** What an event delivers: its data lines with line feeds between; nothing when that is empty. */
  function Delivered(ev: Event): seq<seq<Byte>> {
    var joined := Join(Message(ev.lines), [10]);
    if joined == [] then [] else [joined]
  }

  function Wire(lines: seq<Ended>): seq<Line> {
    seq(|lines|, i requires 0 <= i < |lines| => LineOf(lines[i].line))
  }

  lemma OneEndedLine(line: Line, crlf: bool, more: seq<Byte>)
    requires 10 !in line && (!crlf ==> line == [] || line[|line| - 1] != 13)
    ensures Lines(line + (EndOf(crlf) + more)) == [line] + Lines(more)
    ensures Tail(line + (EndOf(crlf) + more)) == Tail(more)
  {
    if crlf {
      CrLfSplits(line, more);
      LineInFront(line + [13], more);
      CrStripped(line);
    } else {
      LineInFront(line, more);
    }
  }

  lemma CrLfSplits(line: Line, more: seq<Byte>)
    ensures line + ([13, 10] + more) == (line + [13]) + ([10] + more)
  {
  }

  lemma CrStripped(line: Line)
    ensures StripCr(line + [13]) == line
  {
    assert (line + [13])[..|line|] == line;
  }

  lemma FourJoined(a: seq<Byte>, b: seq<Byte>, c: seq<Byte>, d: seq<Byte>)
    ensures (a + (b + c)) + d == a + (b + (c + d))
  {
  }

  lemma WireFirst(lines: seq<Ended>)
    requires lines != []
    ensures Wire(lines) == [LineOf(lines[0].line)] + Wire(lines[1..])
  {
  }

  lemma {:induction false} LinesTextLines(lines: seq<Ended>, more: seq<Byte>)
    requires forall i | 0 <= i < |lines| :: LineOf(lines[i].line) != [] && Sendable(lines[i])
    ensures Lines(LinesText(lines) + more) == Wire(lines) + Lines(more)
    decreases |lines|
  {
    if lines == [] {
      assert LinesText(lines) + more == more;
    } else {
      var (line, rest) := (LineOf(lines[0].line), LinesText(lines[1..]));
      OneEndedLine(line, lines[0].crlf, rest + more);
      LinesTextLines(lines[1..], more);
      FourJoined(line, EndOf(lines[0].crlf), rest, more);
      WireFirst(lines);
      Associate([line], Wire(lines[1..]), Lines(more));
    }
  }

  lemma FirstDataLine(line: Line, rest: seq<Line>)
    ensures DataLines([line] + rest) == DataOf(line) + DataLines(rest)
  {
    assert ([line] + rest)[1..] == rest;
  }

  lemma {:induction false} WireCarries(lines: seq<Ended>)
    requires forall i | 0 <= i < |lines| :: LineOf(lines[i].line) != [] && Sendable(lines[i])
    ensures [] !in Wire(lines) && LinesValid(Wire(lines)) && DataLines(Wire(lines)) == Message(lines)
    decreases |lines|
  {
    if lines != [] {
      LineCarries(lines[0].line);
      WireCarries(lines[1..]);
      WireFirst(lines);
      FirstDataLine(LineOf(lines[0].line), Wire(lines[1..]));
      ValidAppend([LineOf(lines[0].line)], Wire(lines[1..]));
    }
  }

  /** Reading a written event gives what it delivers, whatever follows; comments and other fields between
      its lines, and either line ending, make no difference. */
  lemma EventReadsBack(ev: Event, more: seq<Byte>)
    requires SendableEvent(ev)
    ensures Events(Lines(EventText(ev) + more)) == Delivered(ev) + Events(Lines(more))
    ensures Readable(EventText(ev) + more) <==> Readable(more)
  {
    EventLines(ev, more);
    WireCarries(ev.lines);
    ClosedBlock(Wire(ev.lines), Lines(more));
    ValidAppend([[]], Lines(more));
    ValidAppend(Wire(ev.lines), [[]] + Lines(more));
  }

  lemma EventLines(ev: Event, more: seq<Byte>)
    requires SendableEvent(ev)
    ensures Lines(EventText(ev) + more) == Wire(ev.lines) + ([[]] + Lines(more))
  {
    LinesTextLines(ev.lines, EndOf(ev.crlf) + more);
    assert EventText(ev) + more == LinesText(ev.lines) + (EndOf(ev.crlf) + more);
    OneEndedLine([], ev.crlf, more);
    assert [] + (EndOf(ev.crlf) + more) == EndOf(ev.crlf) + more;
  }

  // ----- Answers -----

  /** An event that is no answer: it delivers nothing, or a message for nobody or somebody else. */
  ghost predicate Skipped(ev: Event, want: nat, decode: Decoder) {
    && SendableEvent(ev)
    && forall i | 0 <= i < |Delivered(ev)| ::
         decode(Delivered(ev)[i]).Some? && !Answers(decode(Delivered(ev)[i]).value, want)
  }

  lemma SkippedEvent(ev: Event, more: seq<Byte>, want: nat, decode: Decoder)
    requires Skipped(ev, want, decode)
    ensures FirstAnswer(Events(Lines(EventText(ev) + more)), want, decode)
         == FirstAnswer(Events(Lines(more)), want, decode)
    ensures Readable(EventText(ev) + more) <==> Readable(more)
  {
    EventReadsBack(ev, more);
    FirstAnswerAppend(Delivered(ev), Events(Lines(more)), want, decode);
    if Delivered(ev) != [] {
      StreamSkipsExactlyNonAnswers(decode(Delivered(ev)[0]).value, want);
      assert Delivered(ev)[1..] == [];
    }
  }

  lemma {:induction false} SkippedEvents(events: seq<Event>, more: seq<Byte>, want: nat, decode: Decoder)
    requires forall i | 0 <= i < |events| :: Skipped(events[i], want, decode)
    ensures FirstAnswer(Events(Lines(ServerText(events) + more)), want, decode)
         == FirstAnswer(Events(Lines(more)), want, decode)
    ensures Readable(ServerText(events) + more) <==> Readable(more)
    decreases |events|
  {
    if events == [] {
      assert ServerText(events) + more == more;
    } else {
      Associate(EventText(events[0]), ServerText(events[1..]), more);
      SkippedEvent(events[0], ServerText(events[1..]) + more, want, decode);
      SkippedEvents(events[1..], more, want, decode);
    }
  }

  /** Any number of events for nobody or somebody else, then an answer, then any readable text, all with
      whatever comments, other fields and line endings: however the bytes are chunked, the request returns
      that answer. */
  lemma AnswerSurvivesNoiseAndChunking(noise: seq<Event>, answer: Event, payload: seq<Byte>, more: seq<Byte>,
                                       chunks: seq<seq<Byte>>, ending: Ending, want: nat, decode: Decoder)
    requires forall i | 0 <= i < |noise| :: Skipped(noise[i], want, decode)
    requires SendableEvent(answer) && Delivered(answer) == [payload] && Classify(decode(payload), want, Sse).Some?
    requires Readable(more) && Concat(chunks) == ServerText(noise) + (EventText(answer) + more)
    ensures SseRequest.Answer(chunks, ending, want, decode) == Classify(decode(payload), want, Sse).value
  {
    EventReadsBack(answer, more);
    FirstAnswerAppend([payload], Events(Lines(more)), want, decode);
    SkippedEvents(noise, EventText(answer) + more, want, decode);
    ReadableStreamAnswer(chunks, ending, want, decode);
  }
}
