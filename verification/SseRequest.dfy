/** Reading the answer to one request off an event stream that arrives in chunks
    (crates/harness/src/mcp.rs, the event-stream arm of `Session::request`). */
module SseRequest {
  import opened Bytes
  import opened Json
  import opened JsonRpc
  import opened McpError
  import opened Outcomes
  import opened Sequences
  import opened SseParser
  import opened SseStream

  type Decoder = seq<Byte> -> Option<Json>

  // How the body ends once its chunks are used up.
  datatype Ending = Closed | Broken

  function EndVerdict(ending: Ending, want: nat): Verdict {
    match ending
    case Closed => Err(Protocol(StreamEnded(want)))
    case Broken => Err(Transport)
  }

  /** The verdict of the first payload that is not to be skipped. */
  function FirstAnswer(payloads: seq<seq<Byte>>, want: nat, decode: Decoder): Option<Verdict> {
    if payloads == [] then None
    else
      match Classify(decode(payloads[0]), want, Sse)
      case Some(r) => Some(r)
      case None => FirstAnswer(payloads[1..], want, decode)
  }

  ghost predicate Readable(stream: seq<Byte>) {
    LinesValid(Lines(stream))
  }

  /** How many leading chunks are pushed before one completes a line that is not UTF-8. */
  ghost function ReadableChunks(chunks: seq<seq<Byte>>): (k: nat)
    ensures k <= |chunks|
  {
    if chunks == [] || Readable(Concat(chunks)) then |chunks| else ReadableChunks(chunks[..|chunks| - 1])
  }

  /** What the request returns: the first answer in the chunks read whole, or why reading stopped. */
  ghost function Answer(chunks: seq<seq<Byte>>, ending: Ending, want: nat, decode: Decoder): Verdict {
    var k := ReadableChunks(chunks);
    match FirstAnswer(Events(Lines(Concat(chunks[..k]))), want, decode)
    case Some(r) => r
    case None => if k < |chunks| then Err(Protocol(SseLineNotUtf8)) else EndVerdict(ending, want)
  }

  // ----- Prefixes -----

  lemma {:induction false} FirstAnswerAppend(a: seq<seq<Byte>>, b: seq<seq<Byte>>, want: nat, decode: Decoder)
    ensures FirstAnswer(a + b, want, decode)
         == if FirstAnswer(a, want, decode).Some? then FirstAnswer(a, want, decode) else FirstAnswer(b, want, decode)
  {
    if a == [] {
      assert a + b == b;
    } else {
      assert (a + b)[1..] == a[1..] + b;
      FirstAnswerAppend(a[1..], b, want, decode);
    }
  }

  lemma {:induction false} EventsGrow(a: seq<Line>, b: seq<Line>)
    ensures Events(a) <= Events(a + b)
    decreases |b|
  {
    if b == [] {
      assert a + b == a;
    } else {
      var (front, last) := (b[..|b| - 1], b[|b| - 1]);
      assert a + b == (a + front) + [last];
      EventsGrow(a, front);
      OneMoreLine(a + front, last);
    }
  }

  lemma LongerEvents(e: seq<seq<Byte>>, f: seq<seq<Byte>>, want: nat, decode: Decoder)
    requires e <= f && FirstAnswer(e, want, decode).Some?
    ensures FirstAnswer(f, want, decode) == FirstAnswer(e, want, decode)
  {
    assert f == e + f[|e|..];
    FirstAnswerAppend(e, f[|e|..], want, decode);
  }

  /** A longer stream keeps the lines of its prefix, and is readable only if the prefix is. */
  lemma LongerStream(a: seq<Byte>, b: seq<Byte>)
    ensures Lines(a) <= Lines(a + b) && Events(Lines(a)) <= Events(Lines(a + b))
    ensures Readable(a + b) ==> Readable(a)
  {
    LinesAppend(a, b);
    EventsGrow(Lines(a), Lines(Tail(a) + b));
    ValidAppend(Lines(a), Lines(Tail(a) + b));
  }

  lemma ChunksSplit(chunks: seq<seq<Byte>>, k: nat)
    requires k <= |chunks|
    ensures Concat(chunks) == Concat(chunks[..k]) + Concat(chunks[k..])
  {
    assert chunks[..k] + chunks[k..] == chunks;
    ConcatAppend(chunks[..k], chunks[k..]);
  }

  lemma OneMoreChunk(chunks: seq<seq<Byte>>, i: nat)
    requires i < |chunks|
    ensures Concat(chunks[..i + 1]) == Concat(chunks[..i]) + chunks[i]
  {
    assert chunks[..i + 1] == chunks[..i] + [chunks[i]];
    ConcatAppend(chunks[..i], [chunks[i]]);
    assert Concat([chunks[i]]) == chunks[i];
  }

  lemma UnreadableStays(chunks: seq<seq<Byte>>, k: nat)
    requires k <= |chunks| && !Readable(Concat(chunks[..k]))
    ensures !Readable(Concat(chunks))
  {
    ChunksSplit(chunks, k);
    LongerStream(Concat(chunks[..k]), Concat(chunks[k..]));
  }

  lemma {:induction false} ReadableChunksAre(chunks: seq<seq<Byte>>, k: nat)
    requires k <= |chunks| && Readable(Concat(chunks[..k]))
    requires k < |chunks| ==> !Readable(Concat(chunks[..k + 1]))
    ensures ReadableChunks(chunks) == k
    decreases |chunks|
  {
    if k == |chunks| {
      assert chunks[..k] == chunks;
    } else {
      UnreadableStays(chunks, k + 1);
      var front := chunks[..|chunks| - 1];
      assert front[..k] == chunks[..k];
      if k < |front| {
        assert front[..k + 1] == chunks[..k + 1];
      }
      ReadableChunksAre(front, k);
    }
  }

  lemma {:induction false} ReadableChunksAreReadable(chunks: seq<seq<Byte>>)
    ensures Readable(Concat(chunks[..ReadableChunks(chunks)]))
    decreases |chunks|
  {
    if chunks != [] && !Readable(Concat(chunks)) {
      var front := chunks[..|chunks| - 1];
      ReadableChunksAreReadable(front);
      assert front[..ReadableChunks(front)] == chunks[..ReadableChunks(front)];
    } else {
      assert chunks[..|chunks|] == chunks;
    }
  }

  /** An answer found while chunk `i` is read is the request's answer. */
  lemma AnsweredAt(chunks: seq<seq<Byte>>, i: nat, ending: Ending, want: nat, decode: Decoder)
    requires i <= |chunks| && Readable(Concat(chunks[..i]))
    requires FirstAnswer(Events(Lines(Concat(chunks[..i]))), want, decode).Some?
    ensures Answer(chunks, ending, want, decode)
         == FirstAnswer(Events(Lines(Concat(chunks[..i]))), want, decode).value
  {
    var k := ReadableChunks(chunks);
    ReadableChunksShort(chunks, i);
    ChunksSplit(chunks[..k], i);
    assert chunks[..k][..i] == chunks[..i];
    LongerStream(Concat(chunks[..i]), Concat(chunks[..k][i..]));
    LongerEvents(Events(Lines(Concat(chunks[..i]))), Events(Lines(Concat(chunks[..k]))), want, decode);
  }

  lemma {:induction false} ReadableChunksShort(chunks: seq<seq<Byte>>, i: nat)
    requires i <= |chunks| && Readable(Concat(chunks[..i]))
    ensures ReadableChunks(chunks) >= i
    decreases |chunks|
  {
    if i < |chunks| {
      assert chunks[..|chunks| - 1][..i] == chunks[..i];
      ReadableChunksShort(chunks[..|chunks| - 1], i);
    } else {
      assert chunks[..i] == chunks;
    }
  }

  // ----- The request's reading loop -----

  method FindAnswer(payloads: seq<seq<Byte>>, want: nat, decode: Decoder) returns (r: Option<Verdict>)
    ensures r == FirstAnswer(payloads, want, decode)
  {
    for j := 0 to |payloads|
      invariant FirstAnswer(payloads, want, decode) == FirstAnswer(payloads[j..], want, decode)
    {
      var verdict := Classify(decode(payloads[j]), want, Sse);
      if verdict.Some? {
        return verdict;
      }
      assert payloads[j..][1..] == payloads[j + 1..];
    }
    r := None;
  }

  method ReadAnswer(chunks: seq<seq<Byte>>, ending: Ending, want: nat, decode: Decoder) returns (r: Verdict)
    ensures r == Answer(chunks, ending, want, decode)
  {
    var parser := new Parser();
    var i := 0;
    while i < |chunks|
      invariant 0 <= i <= |chunks| && fresh(parser)
      invariant parser.Valid() && parser.seen == Concat(chunks[..i])
      invariant FirstAnswer(Events(Lines(parser.seen)), want, decode).None?
    {
      OneMoreChunk(chunks, i);
      ghost var events := Events(Lines(parser.seen));
      var pushed := parser.Push(chunks[i]);
      if pushed.Err? {
        ReadableChunksAre(chunks, i);
        return Err(pushed.error);
      }
      FirstAnswerAppend(events, pushed.value, want, decode);
      var verdict := FindAnswer(pushed.value, want, decode);
      if verdict.Some? {
        AnsweredAt(chunks, i + 1, ending, want, decode);
        return verdict.value;
      }
      i := i + 1;
    }
    ReadableChunksAre(chunks, i);
    r := EndVerdict(ending, want);
  }

  // ----- When the cutting into chunks matters -----

  /** The stream's lines before its first line that is not UTF-8. */
  function ReadableLines(lines: seq<Line>): (front: seq<Line>)
    ensures front <= lines && LinesValid(front)
  {
    if lines != [] && ValidUtf8(lines[0]) then [lines[0]] + ReadableLines(lines[1..]) else []
  }

  lemma {:induction false} ReadableLinesMaximal(lines: seq<Line>, front: seq<Line>)
    requires front <= lines && LinesValid(front)
    ensures front <= ReadableLines(lines)
    decreases |front|
  {
    if front != [] {
      assert front[1..] <= lines[1..];
      assert forall i | 0 <= i < |front| - 1 :: front[1..][i] == front[i + 1];
      assert ValidUtf8(front[0]);
      ReadableLinesMaximal(lines[1..], front[1..]);
      assert front == [front[0]] + front[1..];
    }
  }

  /** A stream can be cut right after any number of its lines. */
  lemma {:induction false} CutAfterLines(stream: seq<Byte>, n: nat) returns (a: seq<Byte>, b: seq<Byte>)
    requires n <= |Lines(stream)|
    ensures stream == a + b && Lines(a) == Lines(stream)[..n]
    decreases |stream|
  {
    a, b := [], stream;
    NoLine(a);
    if n > 0 {
      var first, rest := CutFirstLine(stream);
      a, b := CutAfterLines(rest, n - 1);
      LinesAfterFirst(first, a);
      FrontOfLines(Lines(first), Lines(rest), n - 1);
      Associate(first, a, b);
      a := first + a;
    }
  }

  lemma LinesAfterFirst(first: seq<Byte>, more: seq<Byte>)
    requires Tail(first) == []
    ensures Lines(first + more) == Lines(first) + Lines(more)
  {
    LinesAppend(first, more);
    assert [] + more == more;
  }

  lemma FrontOfLines(first: seq<Line>, rest: seq<Line>, n: nat)
    requires |first| == 1 && n <= |rest|
    ensures (first + rest)[..n + 1] == first + rest[..n]
  {
  }

  lemma OneLineFeed(line: seq<Byte>)
    requires LF !in line
    ensures |Lines(line + [LF])| == 1 && Tail(line + [LF]) == []
  {
    assert [LF] + [] == [LF];
    LineInFront(line, []);
    NoLine([]);
  }

  lemma CutFirstLine(stream: seq<Byte>) returns (first: seq<Byte>, rest: seq<Byte>)
    requires Lines(stream) != []
    ensures stream == first + rest && |rest| < |stream|
    ensures Lines(stream) == Lines(first) + Lines(rest) && |Lines(first)| == 1 && Tail(first) == []
  {
    var k := IndexOf(stream, LF);
    first, rest := stream[..k] + [LF], stream[k + 1..];
    SplitAt(stream, k);
    Associate(stream[..k], [LF], rest);
    OneLineFeed(stream[..k]);
    LinesAfterFirst(first, rest);
  }

  /** No message that is read counts as the complaint about an unreadable line. */
  lemma {:induction false} AnswersAreNotUtf8Errors(payloads: seq<seq<Byte>>, want: nat, decode: Decoder)
    ensures FirstAnswer(payloads, want, decode) != Some(Err(Protocol(SseLineNotUtf8)))
  {
    if payloads != [] {
      AnswersAreNotUtf8Errors(payloads[1..], want, decode);
    }
  }

  /** Every way of cutting `stream` into chunks gives the same answer. */
  ghost predicate ChunkingIrrelevant(stream: seq<Byte>, ending: Ending, want: nat, decode: Decoder) {
    forall chunks: seq<seq<Byte>> | Concat(chunks) == stream ::
      Answer(chunks, ending, want, decode) == Answer([stream], ending, want, decode)
  }

  lemma WholeStream(stream: seq<Byte>, ending: Ending, want: nat, decode: Decoder)
    ensures Answer([stream], ending, want, decode)
         == if !Readable(stream) then Err(Protocol(SseLineNotUtf8))
            else match FirstAnswer(Events(Lines(stream)), want, decode)
                 case Some(r) => r
                 case None => EndVerdict(ending, want)
  {
    assert Concat([stream]) == stream;
    assert [stream][..1] == [stream] && [stream][..0] == [];
    ReadableChunksAre([stream], if Readable(stream) then 1 else 0);
  }

  /** On a stream of readable lines, however it is chunked, the first answer decides. */
  lemma ReadableStreamAnswer(chunks: seq<seq<Byte>>, ending: Ending, want: nat, decode: Decoder)
    requires Readable(Concat(chunks))
    ensures Answer(chunks, ending, want, decode)
         == match FirstAnswer(Events(Lines(Concat(chunks))), want, decode)
            case Some(r) => r
            case None => EndVerdict(ending, want)
  {
    assert chunks[..|chunks|] == chunks;
    ReadableChunksAre(chunks, |chunks|);
  }

  lemma FewerLinesUnanswered(front: seq<Line>, all: seq<Line>, want: nat, decode: Decoder)
    requires front <= all && FirstAnswer(Events(all), want, decode).None?
    ensures FirstAnswer(Events(front), want, decode).None?
  {
    assert all == front + all[|front|..];
    EventsGrow(front, all[|front|..]);
    if FirstAnswer(Events(front), want, decode).Some? {
      LongerEvents(Events(front), Events(all), want, decode);
    }
  }

  /** With no answer ahead of the unreadable line, every chunking reports the unreadable line. */
  lemma UnreadableStreamAnswer(chunks: seq<seq<Byte>>, ending: Ending, want: nat, decode: Decoder)
    requires !Readable(Concat(chunks))
    requires FirstAnswer(Events(ReadableLines(Lines(Concat(chunks)))), want, decode).None?
    ensures Answer(chunks, ending, want, decode) == Err(Protocol(SseLineNotUtf8))
  {
    var k := ReadableChunks(chunks);
    var read := Concat(chunks[..k]);
    ReadableChunksAreReadable(chunks);
    ChunksSplit(chunks, k);
    assert chunks[..|chunks|] == chunks;
    LongerStream(read, Concat(chunks[k..]));
    ReadableLinesMaximal(Lines(Concat(chunks)), Lines(read));
    FewerLinesUnanswered(Lines(read), ReadableLines(Lines(Concat(chunks))), want, decode);
  }

  /** With an answer ahead of it, cutting just before the unreadable line delivers that answer. */
  lemma CutDeliversAnswer(stream: seq<Byte>, ending: Ending, want: nat, decode: Decoder)
    returns (chunks: seq<seq<Byte>>)
    requires FirstAnswer(Events(ReadableLines(Lines(stream))), want, decode).Some?
    ensures Concat(chunks) == stream
    ensures Some(Answer(chunks, ending, want, decode))
         == FirstAnswer(Events(ReadableLines(Lines(stream))), want, decode)
  {
    var a, b := CutAfterLines(stream, |ReadableLines(Lines(stream))|);
    assert Lines(a) == ReadableLines(Lines(stream));
    chunks := [a, b];
    TwoChunks(a, b);
    FirstChunkAnswers(a, b, ending, want, decode);
  }

  lemma FirstChunkAnswers(a: seq<Byte>, b: seq<Byte>, ending: Ending, want: nat, decode: Decoder)
    requires Readable(a) && FirstAnswer(Events(Lines(a)), want, decode).Some?
    ensures Some(Answer([a, b], ending, want, decode)) == FirstAnswer(Events(Lines(a)), want, decode)
  {
    TwoChunks(a, b);
    AnsweredAt([a, b], 1, ending, want, decode);
  }

  lemma TwoChunks(a: seq<Byte>, b: seq<Byte>)
    ensures Concat([a, b]) == a + b && Concat([a, b][..1]) == a
  {
    assert [a, b][1..] == [b] && [a, b][..1] == [a];
    assert Concat([b]) == b && Concat([a]) == a;
  }

  /** The chunking shows exactly when an answer precedes the first unreadable line: then one big
      chunk reports the bad line while a cut just before it delivers the answer. */
  lemma ChunkingIrrelevantExactly(stream: seq<Byte>, ending: Ending, want: nat, decode: Decoder)
    ensures ChunkingIrrelevant(stream, ending, want, decode)
        <==> Readable(stream) || FirstAnswer(Events(ReadableLines(Lines(stream))), want, decode).None?
  {
    WholeStream(stream, ending, want, decode);
    if Readable(stream) {
      forall chunks: seq<seq<Byte>> | Concat(chunks) == stream
        ensures Answer(chunks, ending, want, decode) == Answer([stream], ending, want, decode)
      {
        ReadableStreamAnswer(chunks, ending, want, decode);
      }
    } else if FirstAnswer(Events(ReadableLines(Lines(stream))), want, decode).None? {
      forall chunks: seq<seq<Byte>> | Concat(chunks) == stream
        ensures Answer(chunks, ending, want, decode) == Answer([stream], ending, want, decode)
      {
        UnreadableStreamAnswer(chunks, ending, want, decode);
      }
    } else {
      var chunks := CutDeliversAnswer(stream, ending, want, decode);
      AnswersAreNotUtf8Errors(Events(ReadableLines(Lines(stream))), want, decode);
    }
  }

  // ----- Which answer -----

  /** Payload `i` is a proper result `x` for this request, and every payload before it was to be skipped. */
  predicate ResultAt(payloads: seq<seq<Byte>>, i: nat, want: nat, decode: Decoder, x: Json) {
    && i < |payloads| && decode(payloads[i]).Some? && IsResult(decode(payloads[i]).value, want, x)
    && forall j | 0 <= j < i :: decode(payloads[j]).Some? && !Answers(decode(payloads[j]).value, want)
  }

  lemma {:induction false} FirstResult(payloads: seq<seq<Byte>>, want: nat, decode: Decoder, x: Json) returns (i: nat)
    requires FirstAnswer(payloads, want, decode) == Some(Ok(x))
    ensures ResultAt(payloads, i, want, decode, x)
    decreases |payloads|
  {
    i := 0;
    if Classify(decode(payloads[0]), want, Sse).None? {
      i := FirstResult(payloads[1..], want, decode, x);
      assert payloads[i + 1] == payloads[1..][i];
      assert forall j | 1 <= j < i + 1 :: payloads[j] == payloads[1..][j - 1];
      i := i + 1;
    }
  }

  lemma {:induction false} ResultIsFirst(payloads: seq<seq<Byte>>, i: nat, want: nat, decode: Decoder, x: Json)
    requires ResultAt(payloads, i, want, decode, x)
    ensures FirstAnswer(payloads, want, decode) == Some(Ok(x))
    decreases i
  {
    if i > 0 {
      StreamSkipsExactlyNonAnswers(decode(payloads[0]).value, want);
      assert forall j | 0 <= j < |payloads| - 1 :: payloads[1..][j] == payloads[j + 1];
      ResultIsFirst(payloads[1..], i - 1, want, decode, x);
    }
  }

  /** However a stream is cut, the request succeeds with `x` exactly when one of the events read is a proper
      result `x` for this request and every event before it was to be skipped. */
  lemma SuccessNeedsResult(chunks: seq<seq<Byte>>, ending: Ending, want: nat, decode: Decoder, x: Json)
    ensures Answer(chunks, ending, want, decode) == Ok(x) <==>
            exists i: nat :: ResultAt(Events(Lines(Concat(chunks[..ReadableChunks(chunks)]))), i, want, decode, x)
  {
    var payloads := Events(Lines(Concat(chunks[..ReadableChunks(chunks)])));
    if Answer(chunks, ending, want, decode) == Ok(x) {
      var i := FirstResult(payloads, want, decode, x);
    }
    if i: nat :| ResultAt(payloads, i, want, decode, x) {
      ResultIsFirst(payloads, i, want, decode, x);
      AnswersFirst(chunks, ending, want, decode, Ok(x));
    }
  }

  lemma AnswersFirst(chunks: seq<seq<Byte>>, ending: Ending, want: nat, decode: Decoder, r: Verdict)
    requires FirstAnswer(Events(Lines(Concat(chunks[..ReadableChunks(chunks)]))), want, decode) == Some(r)
    ensures Answer(chunks, ending, want, decode) == r
  {
  }

  /** Payload `i` settles the request with `r`, and every payload before it was to be skipped. */
  predicate DecidedAt(payloads: seq<seq<Byte>>, i: nat, want: nat, decode: Decoder, r: Verdict) {
    && i < |payloads| && Classify(decode(payloads[i]), want, Sse) == Some(r)
    && forall j | 0 <= j < i :: Classify(decode(payloads[j]), want, Sse) == None
  }

  lemma {:induction false} FirstDecides(payloads: seq<seq<Byte>>, want: nat, decode: Decoder) returns (i: nat)
    ensures match FirstAnswer(payloads, want, decode)
            case Some(r) => DecidedAt(payloads, i, want, decode, r)
            case None => forall j | 0 <= j < |payloads| :: Classify(decode(payloads[j]), want, Sse) == None
    decreases |payloads|
  {
    i := 0;
    if payloads != [] && Classify(decode(payloads[0]), want, Sse).None? {
      i := FirstDecides(payloads[1..], want, decode);
      assert forall j | 1 <= j < |payloads| :: payloads[j] == payloads[1..][j - 1];
      i := i + 1;
    }
  }

  /** On readable lines, however cut, the first event that is not to be skipped decides; when there is none,
      a closed body ends in "no response" and a broken one in a transport error. */
  lemma ReadableStreamDecided(chunks: seq<seq<Byte>>, ending: Ending, want: nat, decode: Decoder) returns (i: nat)
    requires Readable(Concat(chunks))
    ensures var payloads := Events(Lines(Concat(chunks)));
            DecidedAt(payloads, i, want, decode, Answer(chunks, ending, want, decode))
            || ((forall j | 0 <= j < |payloads| :: Classify(decode(payloads[j]), want, Sse) == None)
                && Answer(chunks, ending, want, decode)
                == if ending.Closed? then Err(Protocol(StreamEnded(want))) else Err(Transport))
  {
    ReadableStreamAnswer(chunks, ending, want, decode);
    i := FirstDecides(Events(Lines(Concat(chunks))), want, decode);
  }
}
