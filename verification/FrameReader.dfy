/** The bounded newline framer of the MCP transport (`stdout_reader` with `emit_frame`). */
module FrameReader {
  import opened Common

  const NEWLINE: byte := 10

  datatype End = Finished | TooLarge | Invalid | Incomplete | ReceiverGone

  /** The surroundings of the reader: the frame limit, which frames are valid messages, and whether
      the receiver still takes the frame with a given number. */
  datatype Peer = Peer(maxFrame: nat, valid: Bytes -> bool, takes: nat -> bool)

  datatype Outcome = Outcome(frames: seq<Bytes>, end: End)

  function Concat(chunks: seq<Bytes>): Bytes {
    if chunks == [] then [] else chunks[0] + Concat(chunks[1..])
  }

  /** `chunk.find(b"\n", from)`, with the length for "not found". */
  function Find(s: Bytes, from: nat): (at: nat)
    requires from <= |s|
    ensures from <= at <= |s|
    ensures at < |s| ==> s[at] == NEWLINE
    ensures forall k :: from <= k < at ==> s[k] != NEWLINE
    decreases |s| - from
  {
    if from == |s| || s[from] == NEWLINE then from else Find(s, from + 1)
  }

  // ---- Reference: the stream split at its newlines ----

  /** The lines that end in a newline, and what is left after the last one. */
  function Lines(s: Bytes): (r: (seq<Bytes>, Bytes))
    decreases |s|
  {
    var at := Find(s, 0);
    if at == |s| then ([], s)
    else
      var more := Lines(s[at + 1..]);
      ([s[..at]] + more.0, more.1)
  }

  predicate NoNewline(s: Bytes) {
    forall k :: 0 <= k < |s| ==> s[k] != NEWLINE
  }

  /** The lines, each with its newline, then the remainder. */
  function Joined(lines: seq<Bytes>, tail: Bytes): Bytes {
    if lines == [] then tail else lines[0] + ([NEWLINE] + Joined(lines[1..], tail))
  }

  predicate Splits(lines: seq<Bytes>, tail: Bytes, s: Bytes) {
    Joined(lines, tail) == s && (forall i :: 0 <= i < |lines| ==> NoNewline(lines[i])) && NoNewline(tail)
  }

  lemma FindAfter(line: Bytes, rest: Bytes)
    requires NoNewline(line)
    ensures rest == [] || rest[0] == NEWLINE ==> Find(line + rest, 0) == |line|
    ensures Find(line + rest, 0) >= |line|
  {
    var at := Find(line + rest, 0);
    assert rest != [] ==> (line + rest)[|line|] == rest[0];
  }

  lemma FirstLine(line: Bytes, rest: Bytes)
    requires NoNewline(line)
    ensures Lines(line + ([NEWLINE] + rest)).0 == [line] + Lines(rest).0
    ensures Lines(line + ([NEWLINE] + rest)).1 == Lines(rest).1
  {
    var s := line + ([NEWLINE] + rest);
    FindAfter(line, [NEWLINE] + rest);
    assert s[..|line|] == line && s[|line| + 1..] == rest;
  }

  lemma CutLine(s: Bytes, at: nat)
    requires at < |s| && s[at] == NEWLINE
    ensures s == s[..at] + ([NEWLINE] + s[at + 1..])
  {
  }

  lemma MoreLines(line: Bytes, lines: seq<Bytes>, tail: Bytes, rest: Bytes)
    requires NoNewline(line) && Splits(lines, tail, rest)
    ensures Splits([line] + lines, tail, line + ([NEWLINE] + rest))
  {
    assert ([line] + lines)[1..] == lines;
  }

  lemma {:induction false} LinesSplit(s: Bytes)
    ensures Splits(Lines(s).0, Lines(s).1, s)
    decreases |s|
  {
    var at := Find(s, 0);
    if at < |s| {
      LinesSplit(s[at + 1..]);
      CutLine(s, at);
      MoreLines(s[..at], Lines(s[at + 1..]).0, Lines(s[at + 1..]).1, s[at + 1..]);
    }
  }

  lemma {:induction false} SplitIsLines(lines: seq<Bytes>, tail: Bytes, s: Bytes)
    requires Splits(lines, tail, s)
    ensures Lines(s).0 == lines && Lines(s).1 == tail
    decreases |lines|
  {
    if lines != [] {
      var rest := Joined(lines[1..], tail);
      FirstLine(lines[0], rest);
      SplitIsLines(lines[1..], tail, rest);
      assert lines == [lines[0]] + lines[1..];
    }
  }

  /** There is one way to cut a stream into lines that end in a newline and a remainder, none of which holds
      a newline itself. */
  lemma LinesExactly(s: Bytes, lines: seq<Bytes>, tail: Bytes)
    ensures Splits(lines, tail, s) <==> lines == Lines(s).0 && tail == Lines(s).1
  {
    LinesSplit(s);
    if Splits(lines, tail, s) {
      SplitIsLines(lines, tail, s);
    }
  }

  /** What stops the run at line `n`, if anything does. */
  function Fault(p: Peer, line: Bytes, n: nat): End {
    if |line| > p.maxFrame then TooLarge
    else if !p.valid(line) then Invalid
    else if !p.takes(n) then ReceiverGone
    else Finished
  }

  /** The run over complete lines and a remainder, the first line having number `n`. */
  function Deliver(p: Peer, lines: seq<Bytes>, tail: Bytes, n: nat): Outcome {
    if lines == [] then
      Outcome([], if |tail| > p.maxFrame then TooLarge else if tail != [] then Incomplete else Finished)
    else if Fault(p, lines[0], n) != Finished then Outcome([], Fault(p, lines[0], n))
    else
      var rest := Deliver(p, lines[1..], tail, n + 1);
      Outcome([lines[0]] + rest.frames, rest.end)
  }

  /** The run over a whole stream. */
  function Run(p: Peer, s: Bytes, n: nat): Outcome {
    Deliver(p, Lines(s).0, Lines(s).1, n)
  }

  /** The frames are the leading lines up to the first fault, and the end says what that fault was. */
  lemma {:induction false} DeliverMeaning(p: Peer, lines: seq<Bytes>, tail: Bytes, n: nat)
    ensures var o := Deliver(p, lines, tail, n);
            && |o.frames| <= |lines| && o.frames == lines[..|o.frames|]
            && (forall i :: 0 <= i < |o.frames| ==> Fault(p, lines[i], n + i) == Finished)
            && (|o.frames| < |lines| ==> o.end == Fault(p, lines[|o.frames|], n + |o.frames|) != Finished)
            && (|o.frames| == |lines| ==>
                  o.end == if |tail| > p.maxFrame then TooLarge else if tail != [] then Incomplete else Finished)
  {
    if lines != [] && Fault(p, lines[0], n) == Finished {
      DeliverMeaning(p, lines[1..], tail, n + 1);
      var o, rest := Deliver(p, lines, tail, n), Deliver(p, lines[1..], tail, n + 1);
      assert lines[..|o.frames|] == [lines[0]] + lines[1..][..|rest.frames|];
      forall i | 0 <= i < |o.frames| ensures Fault(p, lines[i], n + i) == Finished {
        assert i > 0 ==> lines[i] == lines[1..][i - 1];
      }
    }
  }

  // ---- How a partial line combines with what follows ----

  /** A complete line in front is delivered or ends the run. */
  lemma LineInFront(p: Peer, line: Bytes, rest: Bytes, n: nat)
    requires NoNewline(line)
    ensures Run(p, line + ([NEWLINE] + rest), n) ==
              if Fault(p, line, n) != Finished then Outcome([], Fault(p, line, n))
              else Outcome([line] + Run(p, rest, n + 1).frames, Run(p, rest, n + 1).end)
  {
    FirstLine(line, rest);
    assert ([line] + Lines(rest).0)[1..] == Lines(rest).0;
  }

  /** A partial line longer than the limit ends the run whatever follows. */
  lemma OverlongPrefix(p: Peer, line: Bytes, rest: Bytes, n: nat)
    requires NoNewline(line) && |line| > p.maxFrame
    ensures Run(p, line + rest, n) == Outcome([], TooLarge)
  {
    FindAfter(line, rest);
  }

  lemma PartialLine(p: Peer, line: Bytes, n: nat)
    requires NoNewline(line)
    ensures Run(p, line, n) ==
              Outcome([], if |line| > p.maxFrame then TooLarge else if line != [] then Incomplete else Finished)
  {
    FindAfter(line, []);
    assert line + [] == line;
  }

  // ---- The reader ----

  /** What has been read so far, and what is still to come, add up to the run over the stream. */
  ghost predicate Accounts(p: Peer, stream: Bytes, frames: seq<Bytes>, buffer: Bytes, rest: Bytes) {
    && NoNewline(buffer) && |buffer| <= p.maxFrame
    && Run(p, stream, 0) ==
         Outcome(frames + Run(p, buffer + rest, |frames|).frames, Run(p, buffer + rest, |frames|).end)
  }

  lemma Overlong(p: Peer, stream: Bytes, frames: seq<Bytes>, buffer: Bytes, segment: Bytes, after: Bytes)
    requires Accounts(p, stream, frames, buffer, segment + after)
    requires NoNewline(segment) && |buffer| + |segment| > p.maxFrame
    ensures Run(p, stream, 0) == Outcome(frames, TooLarge)
  {
    assert buffer + (segment + after) == (buffer + segment) + after;
    OverlongPrefix(p, buffer + segment, after, |frames|);
  }

  lemma Extended(p: Peer, stream: Bytes, frames: seq<Bytes>, buffer: Bytes, segment: Bytes, after: Bytes)
    requires Accounts(p, stream, frames, buffer, segment + after)
    requires NoNewline(segment) && |buffer| + |segment| <= p.maxFrame
    ensures Accounts(p, stream, frames, buffer + segment, after)
  {
    assert buffer + (segment + after) == (buffer + segment) + after;
  }

  lemma LineComplete(p: Peer, stream: Bytes, frames: seq<Bytes>, line: Bytes, after: Bytes)
    requires Accounts(p, stream, frames, line, [NEWLINE] + after)
    ensures Fault(p, line, |frames|) == Finished ==> Accounts(p, stream, frames + [line], [], after)
    ensures Fault(p, line, |frames|) != Finished ==> Run(p, stream, 0) == Outcome(frames, Fault(p, line, |frames|))
  {
    LineInFront(p, line, after, |frames|);
    var more := Run(p, after, |frames| + 1).frames;
    assert frames + ([line] + more) == frames + [line] + more;
    assert [] + after == after;
  }

  lemma CutChunk(chunk: Bytes, cursor: nat, at: nat, rest: Bytes)
    requires cursor <= at <= |chunk|
    ensures chunk[cursor..] + rest == chunk[cursor..at] + (chunk[at..] + rest)
    ensures at == |chunk| ==> chunk[at..] + rest == rest
    ensures at < |chunk| ==> chunk[at..] + rest == [chunk[at]] + (chunk[at + 1..] + rest)
  {
  }

  /** What a segment without a newline does to the account. */
  lemma SegmentRead(p: Peer, stream: Bytes, frames: seq<Bytes>, buffer: Bytes, segment: Bytes, after: Bytes)
    requires Accounts(p, stream, frames, buffer, segment + after) && NoNewline(segment)
    ensures |buffer + segment| > p.maxFrame ==> Run(p, stream, 0) == Outcome(frames, TooLarge)
    ensures |buffer + segment| <= p.maxFrame ==> Accounts(p, stream, frames, buffer + segment, after)
  {
    if |buffer + segment| > p.maxFrame {
      Overlong(p, stream, frames, buffer, segment, after);
    } else {
      Extended(p, stream, frames, buffer, segment, after);
    }
  }

  /** One turn of the inner loop: the bytes up to the next newline of the chunk, or to its end. */
  method ReadSegment(p: Peer, ghost stream: Bytes, chunk: Bytes, cursor: nat, ghost rest: Bytes,
                     frames0: seq<Bytes>, buffer0: Bytes)
    returns (frames: seq<Bytes>, buffer: Bytes, next: nat, end: End)
    requires cursor < |chunk| && Accounts(p, stream, frames0, buffer0, chunk[cursor..] + rest)
    ensures end == Finished ==> cursor < next <= |chunk| && Accounts(p, stream, frames, buffer, chunk[next..] + rest)
    ensures end != Finished ==> Run(p, stream, 0) == Outcome(frames, end)
    ensures |buffer| <= p.maxFrame
  {
    frames, buffer := frames0, buffer0;
    next := Find(chunk, cursor);
    var segment := chunk[cursor..next];
    CutChunk(chunk, cursor, next, rest);
    SegmentRead(p, stream, frames, buffer, segment, chunk[next..] + rest);
    if |buffer + segment| > p.maxFrame {
      return frames, buffer, next, TooLarge;
    }
    buffer := buffer + segment;
    if next == |chunk| {
      return frames, buffer, next, Finished;
    }
    LineComplete(p, stream, frames, buffer, chunk[next + 1..] + rest);
    next := next + 1;
    if !p.valid(buffer) {
      return frames, buffer, next, Invalid;
    }
    if !p.takes(|frames|) {
      return frames, buffer, next, ReceiverGone;
    }
    return frames + [buffer], [], next, Finished;
  }

  /** The inner loop over one chunk; `rest` is what later chunks will bring.  The buffer is never
      longer than the limit. */
  method ReadChunk(p: Peer, ghost stream: Bytes, chunk: Bytes, ghost rest: Bytes, frames0: seq<Bytes>, buffer0: Bytes)
    returns (frames: seq<Bytes>, buffer: Bytes, end: End)
    requires Accounts(p, stream, frames0, buffer0, chunk + rest)
    ensures end == Finished ==> Accounts(p, stream, frames, buffer, rest)
    ensures end != Finished ==> Run(p, stream, 0) == Outcome(frames, end)
    ensures |buffer| <= p.maxFrame
  {
    frames, buffer, end := frames0, buffer0, Finished;
    var cursor := 0;
    assert chunk[0..] == chunk;
    while cursor < |chunk|
      invariant 0 <= cursor <= |chunk| && end == Finished
      invariant Accounts(p, stream, frames, buffer, chunk[cursor..] + rest)
    {
      var next;
      frames, buffer, next, end := ReadSegment(p, stream, chunk, cursor, rest, frames, buffer);
      if end != Finished {
        return;
      }
      cursor := next;
    }
    CutChunk(chunk, cursor, cursor, rest);
  }

  /** The frames and the end of the run depend only on the bytes received, not on the chunks. */
  method Read(p: Peer, chunks: seq<Bytes>) returns (o: Outcome)
    ensures o == Run(p, Concat(chunks), 0)
  {
    ghost var stream := Concat(chunks);
    var frames: seq<Bytes> := [];
    var buffer: Bytes := [];
    var i := 0;
    assert [] + Concat(chunks[0..]) == stream;
    while i < |chunks|
      invariant 0 <= i <= |chunks|
      invariant Accounts(p, stream, frames, buffer, Concat(chunks[i..]))
    {
      assert chunks[i..][1..] == chunks[i + 1..];
      var end;
      frames, buffer, end := ReadChunk(p, stream, chunks[i], Concat(chunks[i + 1..]), frames, buffer);
      if end != Finished {
        return Outcome(frames, end);
      }
      i := i + 1;
    }
    assert buffer + Concat(chunks[i..]) == buffer;
    PartialLine(p, buffer, |frames|);
    assert frames + [] == frames;
    return Outcome(frames, if buffer != [] then Incomplete else Finished);
  }
}
