/** Event dispatch as section 9.2.6 of the HTML Standard has it, against the client's
    (crates/harness/src/mcp.rs, `SseParser::push`). */
module SseStandard {
  import opened Bytes
  import opened Sequences
  import opened SseStream

  /** The data buffer: every data line with a line feed behind it. */
  function DataBuffer(data: seq<Line>): seq<Byte> {
    if data == [] then [] else data[0] + ([LF] + DataBuffer(data[1..]))
  }

  /** An event for every buffer that is not empty, without the buffer's last line feed. */
  function StandardPayload(data: seq<Line>): seq<seq<Byte>> {
    var buffer := DataBuffer(data);
    if buffer == [] then [] else [buffer[..|buffer| - 1]]
  }

  /** The blocks of lines that a blank line ends. */
  function Blocks(lines: seq<Line>): seq<seq<Line>>
    decreases |lines|
  {
    var k := IndexOf(lines, []);
    if k == |lines| then [] else [lines[..k]] + Blocks(lines[k + 1..])
  }

  function StandardEvents(lines: seq<Line>): seq<seq<Byte>>
    decreases |lines|
  {
    var k := IndexOf(lines, []);
    if k == |lines| then [] else StandardPayload(DataLines(lines[..k])) + StandardEvents(lines[k + 1..])
  }

  lemma {:induction false} BufferIsJoin(data: seq<Line>)
    requires data != []
    ensures DataBuffer(data) == Join(data, [LF]) + [LF]
    decreases |data|
  {
    if |data| > 1 {
      BufferIsJoin(data[1..]);
      assert data[0] + ([LF] + (Join(data[1..], [LF]) + [LF])) == data[0] + ([LF] + Join(data[1..], [LF])) + [LF];
    } else {
      assert data[1..] == [];
    }
  }

  lemma JoinIsEmptyExactly(data: seq<Line>)
    ensures Join(data, [LF]) == [] <==> data == [] || data == [[]]
  {
    if |data| > 1 {
      assert Join(data, [LF])[|data[0]|] == LF;
    }
  }

  /** One block: the standard has an event wherever there is a data line, the client wherever there is data. */
  lemma OneBlock(data: seq<Line>)
    ensures StandardPayload(data) == if data == [] then [] else [Join(data, [LF])]
    ensures if data == [[]] then Payload(data) == [] && StandardPayload(data) == [[]]
            else Payload(data) == StandardPayload(data)
  {
    if data != [] {
      BufferIsJoin(data);
      assert (Join(data, [LF]) + [LF])[..|Join(data, [LF])|] == Join(data, [LF]);
    }
    JoinIsEmptyExactly(data);
  }

  /** The block has an empty data line and no other. */
  predicate IsEmptyEvent(block: seq<Line>) {
    DataLines(block) == [[]]
  }

  predicate AnyEmptyEvent(blocks: seq<seq<Line>>) {
    exists i :: 0 <= i < |blocks| && IsEmptyEvent(blocks[i])
  }

  /** Some block that a blank line ends is an empty event. */
  predicate HasEmptyEvent(lines: seq<Line>) {
    AnyEmptyEvent(Blocks(lines))
  }

  lemma FirstEmptyEvent(block: seq<Line>, rest: seq<seq<Line>>)
    ensures AnyEmptyEvent([block] + rest) <==> IsEmptyEvent(block) || AnyEmptyEvent(rest)
  {
    var blocks := [block] + rest;
    assert blocks[0] == block && forall i | 0 <= i < |rest| :: blocks[i + 1] == rest[i];
  }

  lemma FirstBlock(lines: seq<Line>, block: seq<Line>, rest: seq<Line>)
    requires IndexOf(lines, []) < |lines|
    requires block == lines[..IndexOf(lines, [])] && rest == lines[IndexOf(lines, []) + 1..]
    ensures Blocks(lines) == [block] + Blocks(rest)
    ensures Events(lines) == Payload(DataLines(block)) + Events(rest)
    ensures StandardEvents(lines) == StandardPayload(DataLines(block)) + StandardEvents(rest)
  {
  }

  lemma {:induction false} ClientNeverHasMore(lines: seq<Line>)
    ensures |Events(lines)| <= |StandardEvents(lines)|
    ensures Events(lines) == StandardEvents(lines) <==> !HasEmptyEvent(lines)
    decreases |lines|
  {
    var k := IndexOf(lines, []);
    if k < |lines| {
      var (block, rest) := (lines[..k], lines[k + 1..]);
      ClientNeverHasMore(rest);
      FirstBlock(lines, block, rest);
      FirstEmptyEvent(block, Blocks(rest));
      OneBlock(DataLines(block));
      SameFront(Payload(DataLines(block)), Events(rest), StandardEvents(rest));
    }
  }

  lemma SameFront(front: seq<seq<Byte>>, a: seq<seq<Byte>>, b: seq<seq<Byte>>)
    ensures front + a == front + b <==> a == b
  {
    assert a == (front + a)[|front|..] && b == (front + b)[|front|..];
  }

  /** The client dispatches what the standard does exactly when no dispatched block's data is one empty line. */
  lemma DispatchMatchesStandardExactly(lines: seq<Line>)
    ensures Events(lines) == StandardEvents(lines) <==> !HasEmptyEvent(lines)
  {
    ClientNeverHasMore(lines);
  }

  /** The line `data:` between blank lines is such a block. */
  lemma EmptyDataIsDropped()
    ensures Events([DATA + [COLON], []]) == [] && StandardEvents([DATA + [COLON], []]) == [[]]
  {
    var field: Line := DATA + [COLON];
    var block: seq<Line> := [field];
    IndexOfIs(field, COLON, 4);
    assert field[..4] == DATA && field[5..] == [];
    assert DataOf(field) == [[]] && block[1..] == [];
    assert DataLines(block) == [[]] + DataLines(block[1..]);
    assert block + ([[]] + []) == [field, []];
    ClosedBlock(block, []);
    OneBlock(DataLines(block));
    DataOfClosedBlock(block);
  }

  lemma DataOfClosedBlock(block: seq<Line>)
    requires [] !in block
    ensures StandardEvents(block + [[]]) == StandardPayload(DataLines(block))
  {
    var lines := block + [[]];
    assert lines[..|block|] == block && lines[|block| + 1..] == [];
    IndexOfIs(lines, [], |block|);
  }
}
