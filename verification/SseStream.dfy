/** What a `text/event-stream` body says, taken as a whole: the reference the incremental
    parser is proved against (after sections 9.2.5 and 9.2.6 of the HTML Standard, with the
    client's own rules: lines end in LF or CRLF, and an event whose data is empty is dropped). */
module SseStream {
  import opened Bytes
  import opened Sequences

  type Line = seq<Byte>

  // "data"
  const DATA: Line := [100, 97, 116, 97]

  // ----- Lines -----

  function StripCr(raw: Line): Line {
    if raw != [] && raw[|raw| - 1] == CR then raw[..|raw| - 1] else raw
  }

  /** The terminated lines of a stream, without their line endings. */
  function Lines(s: seq<Byte>): seq<Line>
    decreases |s|
  {
    var i := IndexOf(s, LF);
    if i == |s| then [] else [StripCr(s[..i])] + Lines(s[i + 1..])
  }

  /** What follows the last line feed. */
  function Tail(s: seq<Byte>): seq<Byte>
    decreases |s|
  {
    var i := IndexOf(s, LF);
    if i == |s| then s else Tail(s[i + 1..])
  }

  predicate LinesValid(lines: seq<Line>) {
    forall i | 0 <= i < |lines| :: ValidUtf8(lines[i])
  }

  // ----- Events -----

  function StripSpace(value: Line): Line {
    if value != [] && value[0] == SPACE then value[1..] else value
  }

  /** The data lines a line contributes: one for a `data` field, none for anything else. */
  function DataOf(line: Line): seq<Line> {
    var i := IndexOf(line, COLON);
    if line[..i] != DATA then []
    else if i < |line| then [StripSpace(line[i + 1..])]
    else [[]]
  }

  function DataLines(block: seq<Line>): seq<Line> {
    if block == [] then [] else DataOf(block[0]) + DataLines(block[1..])
  }

  function Payload(data: seq<Line>): seq<seq<Byte>> {
    var joined := Join(data, [LF]);
    if joined == [] then [] else [joined]
  }

  /** The payloads of the blocks that a blank line ends, in order. */
  function Events(lines: seq<Line>): seq<seq<Byte>>
    decreases |lines|
  {
    var k := IndexOf(lines, []);
    if k == |lines| then [] else Payload(DataLines(lines[..k])) + Events(lines[k + 1..])
  }

  /** The data lines since the last blank line. */
  function Pending(lines: seq<Line>): seq<Line>
    decreases |lines|
  {
    var k := IndexOf(lines, []);
    if k == |lines| then DataLines(lines) else Pending(lines[k + 1..])
  }

  // ----- Streams grow at the end -----

  lemma ValidAppend(a: seq<Line>, b: seq<Line>)
    ensures LinesValid(a + b) <==> LinesValid(a) && LinesValid(b)
  {
    assert forall i | 0 <= i < |a| :: (a + b)[i] == a[i];
    assert forall i | 0 <= i < |b| :: (a + b)[|a| + i] == b[i];
  }

  lemma {:induction false} TailHasNoLf(s: seq<Byte>)
    ensures LF !in Tail(s)
    decreases |s|
  {
    var i := IndexOf(s, LF);
    if i < |s| {
      TailHasNoLf(s[i + 1..]);
    } else {
      assert s[..i] == s;
    }
  }

  lemma FirstLine(s: seq<Byte>)
    requires LF in s
    ensures IndexOf(s, LF) < |s|
    ensures Lines(s) == [StripCr(s[..IndexOf(s, LF)])] + Lines(s[IndexOf(s, LF) + 1..])
    ensures Tail(s) == Tail(s[IndexOf(s, LF) + 1..])
  {
    IndexOfMember(s, LF);
  }

  /** A line feed ends the line in front of it. */
  lemma LineInFront(raw: Line, more: seq<Byte>)
    requires LF !in raw
    ensures Lines(raw + ([LF] + more)) == [StripCr(raw)] + Lines(more) && Tail(raw + ([LF] + more)) == Tail(more)
  {
    var s := raw + ([LF] + more);
    assert s[..|raw|] == raw && s[|raw| + 1..] == more;
    IndexOfIs(s, LF, |raw|);
  }

  /** A stream's lines are those before any cut plus those of its open line continued. */
  lemma {:induction false} LinesAppend(a: seq<Byte>, b: seq<Byte>)
    ensures Lines(a + b) == Lines(a) + Lines(Tail(a) + b)
    ensures Tail(a + b) == Tail(Tail(a) + b)
    decreases |a|
  {
    var i := IndexOf(a, LF);
    if i < |a| {
      var (raw, more) := (a[..i], a[i + 1..]);
      SplitAt(a, i);
      LinesAppend(more, b);
      LineInFront(raw, more);
      LineInFront(raw, more + b);
      Associate([LF], more, b);
      Associate(raw, [LF] + more, b);
      Associate([StripCr(raw)], Lines(more), Lines(Tail(more) + b));
    }
  }

  lemma NoLine(s: seq<Byte>)
    requires LF !in s
    ensures Lines(s) == [] && Tail(s) == s
  {
    IndexOfMember(s, LF);
  }

  lemma {:induction false} DataLinesAppend(a: seq<Line>, b: seq<Line>)
    ensures DataLines(a + b) == DataLines(a) + DataLines(b)
  {
    if a == [] {
      assert a + b == b;
    } else {
      assert (a + b)[1..] == a[1..] + b;
      DataLinesAppend(a[1..], b);
    }
  }

  lemma OpenBlock(block: seq<Line>)
    requires [] !in block
    ensures Events(block) == [] && Pending(block) == DataLines(block)
  {
    assert block[..|block|] == block;
    IndexOfIs(block, [], |block|);
  }

  lemma ClosedBlock(block: seq<Line>, rest: seq<Line>)
    requires [] !in block
    ensures Events(block + ([[]] + rest)) == Payload(DataLines(block)) + Events(rest)
    ensures Pending(block + ([[]] + rest)) == Pending(rest)
  {
    var lines := block + ([[]] + rest);
    assert lines[..|block|] == block;
    IndexOfIs(lines, [], |block|);
    assert lines[|block| + 1..] == rest;
  }

  lemma SplitAtBlank(lines: seq<Line>)
    requires IndexOf(lines, []) < |lines|
    ensures lines == lines[..IndexOf(lines, [])] + ([[]] + lines[IndexOf(lines, []) + 1..])
  {
    SplitAt(lines, IndexOf(lines, []));
  }

  /** One more line either dispatches the pending data or adds to it. */
  lemma {:induction false} OneMoreLine(lines: seq<Line>, line: Line)
    ensures Events(lines + [line]) == Events(lines) + if line == [] then Payload(Pending(lines)) else []
    ensures Pending(lines + [line]) == if line == [] then [] else Pending(lines) + DataOf(line)
    decreases |lines|
  {
    var k := IndexOf(lines, []);
    if k < |lines| {
      var (block, rest) := (lines[..k], lines[k + 1..]);
      SplitAtBlank(lines);
      OneMoreLine(rest, line);
      OneMoreBehindBlock(lines, block, rest, line);
    } else {
      IndexOfMember(lines, []);
      OneMoreOpenLine(lines, line);
    }
  }

  lemma OneMoreBehindBlock(lines: seq<Line>, block: seq<Line>, rest: seq<Line>, line: Line)
    requires [] !in block && lines == block + ([[]] + rest)
    requires Events(rest + [line]) == Events(rest) + if line == [] then Payload(Pending(rest)) else []
    ensures Events(lines + [line]) == Events(lines) + if line == [] then Payload(Pending(lines)) else []
    ensures Pending(lines + [line]) == Pending(rest + [line]) && Pending(lines) == Pending(rest)
  {
    BehindBlock(block, rest, line);
    Associate(Payload(DataLines(block)), Events(rest), if line == [] then Payload(Pending(rest)) else []);
  }

  lemma BehindBlock(block: seq<Line>, rest: seq<Line>, line: Line)
    requires [] !in block
    ensures var lines := block + ([[]] + rest);
            && Events(lines) == Payload(DataLines(block)) + Events(rest) && Pending(lines) == Pending(rest)
            && Events(lines + [line]) == Payload(DataLines(block)) + Events(rest + [line])
            && Pending(lines + [line]) == Pending(rest + [line])
  {
    Associate([[]], rest, [line]);
    Associate(block, [[]] + rest, [line]);
    ClosedBlock(block, rest + [line]);
    ClosedBlock(block, rest);
  }

  lemma OneMoreOpenLine(block: seq<Line>, line: Line)
    requires [] !in block
    ensures Events(block) == [] && Events(block + [line]) == if line == [] then Payload(Pending(block)) else []
    ensures Pending(block + [line]) == if line == [] then [] else Pending(block) + DataOf(line)
  {
    OpenBlock(block);
    if line == [] {
      ClosedBlock(block, []);
      assert [[]] + [] == [line];
    } else {
      OpenBlock(block + [line]);
      DataLinesAppend(block, [line]);
      assert DataLines([line]) == DataOf(line);
    }
  }
}
