/** The incremental event-stream parser (crates/harness/src/mcp.rs, `SseParser`). */
module SseParser {
  import opened Bytes
  import opened McpError
  import opened Outcomes
  import opened Sequences
  import opened SseStream

  /** Bookkeeping of one more line behind those `done`. */
  lemma LineTaken(all: seq<Line>, done: seq<Line>, line: Line, rest: seq<Line>,
                  before: seq<seq<Byte>>, out: seq<seq<Byte>>)
    requires all == done + ([line] + rest) && LinesValid(done) && Events(done) == before + out
    ensures all == (done + [line]) + rest
    ensures if ValidUtf8(line) then LinesValid(done + [line]) else !LinesValid(all)
    ensures Events(done + [line]) == before + (out + if line == [] then Payload(Pending(done)) else [])
    ensures Pending(done + [line]) == if line == [] then [] else Pending(done) + DataOf(line)
  {
    Associate(done, [line], rest);
    OneMoreLine(done, line);
    Associate(before, out, if line == [] then Payload(Pending(done)) else []);
    assert all[|done|] == line;
  }

  class Parser {
    var buf: seq<Byte>
    var data: seq<Line>
    ghost var seen: seq<Byte>  // every byte fed so far

    /** The fields hold exactly what `seen` leaves open: no line feed, and the undispatched data. */
    ghost predicate Valid()
      reads this
      ensures Valid() ==> LF !in buf
    {
      TailHasNoLf(seen);
      && LinesValid(Lines(seen))
      && buf == Tail(seen)
      && data == Pending(Lines(seen))
    }

    constructor ()
      ensures Valid() && seen == [] && buf == [] && data == []
    {
      buf, data, seen := [], [], [];
    }

    /** One decoded line: a blank one dispatches the pending data, any other may add to it. */
    method TakeLine(line: Line) returns (payload: seq<seq<Byte>>)
      modifies this`data
      ensures payload == if line == [] then Payload(old(data)) else []
      ensures data == if line == [] then [] else old(data) + DataOf(line)
    {
      payload := [];
      if line == [] {
        var joined := Join(data, [LF]);
        data := [];
        if joined != [] {
          payload := [joined];
        }
        return;
      }
      if line[0] == COLON {
        return;
      }
      var colon := IndexOf(line, COLON);
      var (field, value) := if colon < |line| then (line[..colon], StripSpace(line[colon + 1..])) else (line, []);
      if field == DATA {
        data := data + [value];
      }
    }

    /** Cut the first line off the buffer, without its line ending. */
    method DrainLine() returns (line: Line)
      requires LF in buf
      modifies this`buf
      ensures Lines(old(buf)) == [line] + Lines(buf) && Tail(old(buf)) == Tail(buf)
      ensures |buf| < |old(buf)|
    {
      FirstLine(buf);
      var pos := IndexOf(buf, LF);
      line := StripCr(buf[..pos]);
      buf := buf[pos + 1..];
    }

    /** However a stream is cut into pushes, the payloads are the events it completes. */
    method Push(bytes: seq<Byte>) returns (r: Result<seq<seq<Byte>>, McpError>)
      requires Valid()
      modifies this
      ensures seen == old(seen) + bytes
      ensures LinesValid(Lines(seen)) ==>
                Valid() && r.Ok? && Events(Lines(seen)) == Events(Lines(old(seen))) + r.value
      ensures !LinesValid(Lines(seen)) ==> r == Err(Protocol(SseLineNotUtf8))
    {
      ghost var (done, before) := (Lines(seen), Events(Lines(seen)));
      LinesAppend(seen, bytes);
      seen := seen + bytes;
      buf := buf + bytes;
      ghost var (all, tail) := (Lines(seen), Tail(seen));
      var out: seq<seq<Byte>> := [];
      while LF in buf
        invariant seen == old(seen) + bytes
        invariant all == done + Lines(buf) && tail == Tail(buf)
        invariant LinesValid(done) && data == Pending(done) && Events(done) == before + out
        decreases |buf|
      {
        var line := DrainLine();
        LineTaken(all, done, line, Lines(buf), before, out);
        if !ValidUtf8(line) {
          return Err(Protocol(SseLineNotUtf8));
        }
        done := done + [line];
        var payload := TakeLine(line);
        out := out + payload;
      }
      NoLine(buf);
      assert all == done;
      r := Ok(out);
    }
  }
}
