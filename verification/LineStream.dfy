/**
 Reading a streamed response one line at a time, as `LineStream::next_line` in
 `src/client.rs` does it, however the response is split into frames.
 */
module LineStreams {
  import opened Basics
  import opened ByteLines

  /** One frame of a response body; trailers carry no data, and a broken body yields an error. */
  datatype Frame = Data(bytes: Bytes) | Trailers | Broken

  datatype Read = Line(line: Bytes) | End | Failed

  /** The bytes the body still carries, up to the frame that breaks it. */
  ghost function DataOf(body: seq<Frame>): Bytes {
    if body == [] || body[0].Broken? then []
    else (if body[0].Data? then body[0].bytes else []) + DataOf(body[1..])
  }

  /** Lines that end in a newline, in order, without it. */
  function TerminatedLines(b: Bytes): seq<Bytes> {
    if '\n' !in b then []
    else
      var n := FirstNewline(b);
      [b[..n]] + TerminatedLines(b[n+1..])
  }

  /** What follows the last newline. */
  function Leftover(b: Bytes): Bytes {
    if '\n' !in b then b else Leftover(b[FirstNewline(b)+1..])
  }

  function Rejoin(lines: seq<Bytes>): Bytes {
    if lines == [] then [] else lines[0] + ['\n'] + Rejoin(lines[1..])
  }

  lemma Unfinished(b: Bytes)
    requires '\n' !in b
    ensures TerminatedLines(b) == [] && Leftover(b) == b
  {
  }

  lemma LineFirst(line: Bytes, rest: Bytes)
    requires '\n' !in line
    ensures TerminatedLines(line + ['\n'] + rest) == [line] + TerminatedLines(rest)
    ensures Leftover(line + ['\n'] + rest) == Leftover(rest)
  {
    var b := line + ['\n'] + rest;
    assert b[..|line|] == line && b[|line|+1..] == rest;
    FirstNewlineIs(b, |line|);
  }

  /** The lines and what is left over are all the bytes, in order. */
  lemma {:induction false} NoByteIsLost(b: Bytes)
    ensures Rejoin(TerminatedLines(b)) + Leftover(b) == b
    decreases |b|
  {
    if '\n' in b {
      var n := FirstNewline(b);
      hide *;
      var line, rest := b[..n], b[n+1..];
      assert b == line + ['\n'] + rest;
      LineFirst(line, rest);
      NoByteIsLost(rest);
      var lines, left := TerminatedLines(rest), Leftover(rest);
      RejoinFirst(line, lines);
      assert line + ['\n'] + Rejoin(lines) + left == line + ['\n'] + (Rejoin(lines) + left);
    } else {
      Unfinished(b);
    }
  }

  lemma {:induction false} LinesAreWhole(b: Bytes)
    ensures '\n' !in Leftover(b)
    ensures forall k | 0 <= k < |TerminatedLines(b)| :: '\n' !in TerminatedLines(b)[k]
    decreases |b|
  {
    if '\n' in b {
      LinesAreWhole(b[FirstNewline(b)+1..]);
    }
  }

  lemma RejoinFirst(line: Bytes, lines: seq<Bytes>)
    ensures Rejoin([line] + lines) == line + ['\n'] + Rejoin(lines)
  {
    assert ([line] + lines)[1..] == lines;
  }

  /** No other split into newline-free lines and a newline-free rest gives the same bytes. */
  lemma {:induction false} SplitIsUnique(lines: seq<Bytes>, rest: Bytes)
    requires forall k | 0 <= k < |lines| :: '\n' !in lines[k]
    requires '\n' !in rest
    ensures TerminatedLines(Rejoin(lines) + rest) == lines && Leftover(Rejoin(lines) + rest) == rest
  {
    if lines == [] {
      assert Rejoin(lines) + rest == rest;
    } else {
      SplitIsUnique(lines[1..], rest);
      LineFirst(lines[0], Rejoin(lines[1..]) + rest);
      assert Rejoin(lines) + rest == lines[0] + ['\n'] + (Rejoin(lines[1..]) + rest);
    }
  }

  /** `n` frames were read, and what was there before the last of them held no complete line. */
  ghost predicate ReadsNoFurther(buffer: Bytes, body: seq<Frame>, body': seq<Frame>, n: nat) {
    && n <= |body| && body' == body[n..]
    && (n > 0 ==> '\n' !in buffer + DataOf(body[..n-1]))
  }

  lemma CutsOff(buffer: Bytes, end: nat, data: Bytes)
    requires end < |buffer| && buffer[end] == '\n'
    ensures buffer + data == buffer[..end] + ['\n'] + (buffer[end+1..] + data)
  {
  }

  lemma Regroups(a: Bytes, b: Bytes, c: Bytes)
    ensures (a + b) + c == a + (b + c)
    ensures b == [] ==> a + (b + c) == a + c
    ensures c == [] ==> a + (b + c) == a + b
  {
  }

  lemma NoData()
    ensures DataOf([]) == []
  {
  }

  lemma DataFirst(body: seq<Frame>)
    requires body != []
    ensures DataOf(body) == if body[0].Broken? then [] else (if body[0].Data? then body[0].bytes else []) + DataOf(body[1..])
  {
  }

  lemma {:induction false} DataGrows(frames: seq<Frame>, frame: Frame)
    requires Broken !in frames
    ensures DataOf(frames + [frame]) == DataOf(frames) + if frame.Data? then frame.bytes else []
  {
    if frames == [] {
      assert [frame][1..] == [];
    } else {
      DataGrows(frames[1..], frame);
      assert (frames + [frame])[1..] == frames[1..] + [frame];
    }
  }

  class LineStream {
    var body: seq<Frame>
    var buffer: Bytes

    constructor (body: seq<Frame>)
      ensures this.body == body && buffer == []
    {
      this.body, buffer := body, [];
    }

    ghost function Unread(): Bytes
      reads this
    {
      buffer + DataOf(body)
    }

    /** The next complete line, the end of the stream, or the error of the body. */
    method NextLine() returns (read: Read)
      modifies this
      ensures read.Line? ==>
                && '\n' !in read.line && old(Unread()) == read.line + ['\n'] + Unread()
                && (Broken in body <==> Broken in old(body)) && |body| + |Unread()| < old(|body| + |Unread()|)
      ensures !read.Line? ==> '\n' !in buffer && buffer == old(Unread())
      ensures read.Failed? <==> '\n' !in old(Unread()) && Broken in old(body)
      ensures read.End? <==> '\n' !in old(Unread()) && Broken !in old(body)
      ensures exists n :: ReadsNoFurther(old(buffer), old(body), body, n)
    {
      hide DataOf;
      ghost var frames, start := body, buffer;
      ghost var n := 0;
      NoData();
      assert frames[..0] == [] && start + [] == start;
      while true
        invariant Unread() == old(Unread()) && |body| <= |frames|
        invariant n <= |frames| && body == frames[n..] && Broken !in frames[..n]
        invariant buffer == start + DataOf(frames[..n])
        invariant n > 0 ==> '\n' !in start + DataOf(frames[..n-1])
        decreases |body|
      {
        assert frames == frames[..n] + body;
        if '\n' in buffer {
          var end := FirstNewline(buffer);
          var line := buffer[..end];
          CutsOff(buffer, end, DataOf(body));
          buffer := buffer[end + 1..];
          assert ReadsNoFurther(start, frames, body, n);
          return Line(line);
        }
        if body == [] {
          NoData();
          assert buffer == Unread();
          assert ReadsNoFurther(start, frames, body, n);
          return End;
        }
        var frame := body[0];
        DataFirst(body);
        DataGrows(frames[..n], frame);
        assert frames[..n + 1] == frames[..n] + [frame];
        body := body[1..];
        if frame.Broken? {
          assert ReadsNoFurther(start, frames, body, n + 1);
          return Failed;
        }
        n := n + 1;
        if frame.Data? {
          Regroups(buffer, frame.bytes, DataOf(body));
          Regroups(start, DataOf(frames[..n-1]), frame.bytes);
          buffer := buffer + frame.bytes;
        } else {
          Regroups(buffer, [], DataOf(body));
          Regroups(start, DataOf(frames[..n-1]), []);
        }
      }
    }

    /** Ask for lines until there is none: they are the terminated lines of all the data, whatever the frames. */
    method Drain() returns (lines: seq<Bytes>, failed: bool)
      modifies this
      ensures lines == TerminatedLines(old(Unread()))
      ensures buffer == Leftover(old(Unread()))
      ensures failed <==> Broken in old(body)
    {
      hide TerminatedLines, Leftover;
      lines := [];
      while true
        invariant TerminatedLines(old(Unread())) == lines + TerminatedLines(Unread())
        invariant Leftover(old(Unread())) == Leftover(Unread())
        invariant Broken in body <==> Broken in old(body)
        decreases |body| + |Unread()|
      {
        var read := NextLine();
        if !read.Line? {
          Unfinished(buffer);
          return lines, read.Failed?;
        }
        LineFirst(read.line, Unread());
        assert lines + ([read.line] + TerminatedLines(Unread())) == lines + [read.line] + TerminatedLines(Unread());
        lines := lines + [read.line];
      }
    }
  }
}
