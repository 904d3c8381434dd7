/**
 Reading the last lines of a task's output log, as `src/home.rs` does it: backwards
 in chunks, under a cap on the bytes read.
 */
module LogTail {
  import opened Basics
  import opened ByteLines

  const MAX_TAIL_BYTES: nat := 1024 * 1024
  const MAX_TAIL_LINES: nat := 5000
  const CHUNK: nat := 8192

  datatype OutputTail = OutputTail(text: Bytes, truncated: bool)

  /** The plain reader: read the whole file and keep its last `tail` lines. */
  function Whole(file: Bytes, tail: nat): OutputTail {
    OutputTail(Join(LastN(Lines(file), tail)), |Lines(file)| > tail)
  }

  /** The bytes the cap allows a tail to read. */
  function Window(file: Bytes): Bytes {
    if |file| <= MAX_TAIL_BYTES then file else file[|file| - MAX_TAIL_BYTES..]
  }

  /** What a tail returns: the last lines of the window, truncated when bytes or lines were dropped. */
  function Capped(file: Bytes, tail: nat): OutputTail {
    if tail == 0 then OutputTail([], file != [])
    else
      var lines := Lines(Window(file));
      OutputTail(Join(LastN(lines, tail)), |file| > MAX_TAIL_BYTES || |lines| > tail)
  }

  /** Chunks were read back to front. */
  ghost function Flatten(chunks: seq<Bytes>): Bytes {
    if chunks == [] then [] else chunks[|chunks|-1] + Flatten(chunks[..|chunks|-1])
  }

  lemma LastOfConcat<T>(a: seq<T>, b: seq<T>, n: nat)
    requires |b| >= n
    ensures LastN(a + b, n) == LastN(b, n)
  {
  }

  /** Bytes before a suffix that holds more than `tail` lines never show in its last `tail` lines. */
  lemma LastLinesAgree(p: Bytes, s: Bytes, tail: nat)
    requires |Lines(s)| > tail && (tail > 0 || Newlines(s) > tail)
    ensures |Lines(p + s)| > tail && LastN(Lines(p + s), tail) == LastN(Lines(s), tail)
  {
    hide Lines, LastN, Newlines;
    var n := NewlineOf(s);
    var head, rest := s[..n+1], s[n+1..];
    assert s == head + rest && p + s == (p + head) + rest;
    LinesConcat(head, rest);
    LinesConcat(p + head, rest);
    OneLine(head);
    AnyLine(p + head);
    LastOfConcat(Lines(head), Lines(rest), tail);
    LastOfConcat(Lines(p + head), Lines(rest), tail);
  }

  lemma OneLine(line: Bytes)
    requires Terminated(line) && '\n' !in line[..|line|-1]
    ensures Lines(line) == [StripCr(line[..|line|-1])]
  {
    LinesStep(line, |line| - 1);
  }

  lemma AnyLine(b: Bytes)
    requires b != []
    ensures Lines(b) != []
  {
  }

  lemma NewlineOf(s: Bytes) returns (n: nat)
    requires |Lines(s)| > 1 || Newlines(s) > 0
    ensures n < |s| && s[n] == '\n' && '\n' !in s[..n]
  {
    LinesCount(s);
    NoNewlines(s);
    n := FirstNewline(s);
  }

  /** Stopping early loses nothing the window would have shown. */
  lemma EarlyStop(file: Bytes, position: nat, tail: nat)
    requires tail > 0 && position <= |file| && |file| - position <= MAX_TAIL_BYTES
    requires position == 0 || |file| - position == MAX_TAIL_BYTES || Newlines(file[position..]) > tail
    ensures var lines := Lines(file[position..]);
            Capped(file, tail) == OutputTail(Join(LastN(lines, tail)), position > 0 || |lines| > tail)
  {
    hide Lines, LastN, Newlines, Join;
    var bytes, window := file[position..], Window(file);
    if |bytes| < |window| {
      var p := window[..|window| - |bytes|];
      assert window == p + bytes;
      LinesCount(bytes);
      LastLinesAgree(p, bytes, tail);
    } else {
      assert bytes == window;
    }
  }

  /** Read backwards in chunks until enough newlines are seen, the start is reached or the cap is. */
  method ReadTail(file: Bytes, tail: nat) returns (output: OutputTail, bytesRead: nat)
    ensures bytesRead <= 1_048_576
    ensures output == Capped(file, tail)
  {
    hide Lines, LastN, Join, Newlines, Capped;
    var position := |file|;
    if tail == 0 {
      ZeroTail(file);
      return OutputTail([], position > 0), 0;
    }
    var chunks: seq<Bytes>, newlines := [], 0;
    bytesRead := 0;
    NoBytes(file);
    while position > 0 && bytesRead < MAX_TAIL_BYTES && newlines <= tail
      invariant 0 <= position <= |file| && bytesRead == |file| - position <= MAX_TAIL_BYTES
      invariant Flatten(chunks) == file[position..]
      invariant newlines == Newlines(file[position..])
      decreases position
    {
      var cap := MAX_TAIL_BYTES - bytesRead;
      var length := if position < CHUNK then position else CHUNK;
      length := if length < cap then length else cap;
      var chunk := file[position - length..position];
      assert file[position - length..] == chunk + file[position..];
      NewlinesConcat(chunk, file[position..]);
      position := position - length;
      var counted := Count(chunk);
      newlines := newlines + counted;
      bytesRead := bytesRead + length;
      assert (chunks + [chunk])[..|chunks|] == chunks;
      chunks := chunks + [chunk];
    }
    var bytes := Concat(chunks);
    var lines := Lines(bytes);
    EarlyStop(file, position, tail);
    output := OutputTail(Join(LastN(lines, tail)), position > 0 || |lines| > tail);
  }

  lemma ZeroTail(file: Bytes)
    ensures Capped(file, 0) == OutputTail([], |file| > 0)
  {
  }

  lemma NoBytes(file: Bytes)
    ensures file[|file|..] == [] && Flatten([]) == [] && Newlines([]) == 0
  {
  }

  method Count(chunk: Bytes) returns (newlines: nat)
    ensures newlines == Newlines(chunk)
  {
    newlines := 0;
    for k := 0 to |chunk|
      invariant newlines == Newlines(chunk[..k])
    {
      assert chunk[..k + 1] == chunk[..k] + [chunk[k]];
      NewlinesConcat(chunk[..k], [chunk[k]]);
      newlines := newlines + if chunk[k] == '\n' then 1 else 0;
    }
    assert chunk[..|chunk|] == chunk;
  }

  method Concat(chunks: seq<Bytes>) returns (bytes: Bytes)
    ensures bytes == Flatten(chunks)
  {
    bytes := [];
    for k := 0 to |chunks|
      invariant bytes == Flatten(chunks[..k])
    {
      assert chunks[..k + 1][..k] == chunks[..k];
      bytes := chunks[k] + bytes;
    }
    assert chunks[..|chunks|] == chunks;
  }

  /** The log as a caller asks for it; no file is no output. */
  method ReadOutput(file: Option<Bytes>, tail: Option<nat>) returns (output: Option<OutputTail>)
    ensures output == match (file, tail)
                      case (None, _) => None
                      case (Some(bytes), None) => Some(OutputTail(bytes, false))
                      case (Some(bytes), Some(n)) => Some(Capped(bytes, if n < 5000 then n else 5000))
  {
    if file.None? {
      return None;
    }
    if tail.None? {
      return Some(OutputTail(file.value, false));
    }
    var read, bytesRead := ReadTail(file.value, if tail.value < MAX_TAIL_LINES then tail.value else MAX_TAIL_LINES);
    output := Some(read);
  }

  // ----- when the cap shows -----

  /** The window starts at a line start, or inside the CR LF that ends an otherwise empty line. */
  predicate CutCleanly(p: Bytes, s: Bytes) {
    && |p| > 0 && |s| > 0
    && (|| p[|p|-1] == '\n'
        || (|p| > 1 && p[|p|-2] == '\n' && p[|p|-1] == '\r' && s[0] == '\n'))
  }

  /** What a caller can check about a file to know that its capped tail is the plain one. */
  predicate CapIsInvisible(file: Bytes, tail: nat) {
    || tail == 0
    || |file| <= MAX_TAIL_BYTES
    || |Lines(Window(file))| > tail
    || (|Lines(Window(file))| == tail && CutCleanly(file[..|file| - MAX_TAIL_BYTES], Window(file)))
  }

  /** The part of `p` after its last newline. */
  lemma {:induction false} LastLineOf(p: Bytes) returns (full: Bytes, cut: Bytes)
    ensures p == full + cut && '\n' !in cut && (full == [] || Terminated(full))
  {
    if p == [] {
      full, cut := [], [];
    } else if p[|p|-1] == '\n' {
      full, cut := p, [];
    } else {
      var cut';
      full, cut' := LastLineOf(p[..|p|-1]);
      cut := cut' + [p[|p|-1]];
    }
  }

  /** How an unfinished line `cut` before `s` changes the lines of `s`: only the first one. */
  lemma FirstLineChanges(cut: Bytes, s: Bytes) returns (own: Bytes, joined: Bytes, rest: seq<Bytes>)
    requires s != [] && '\n' !in cut
    ensures Lines(s) == [own] + rest && Lines(cut + s) == [joined] + rest
    ensures own == joined <==> cut == [] || (cut == ['\r'] && s[0] == '\n')
  {
    hide Lines, StripCr;
    if '\n' in s {
      var n := FirstNewline(s);
      var all := cut + s;
      assert all[..|cut|+n] == cut + s[..n];
      assert all[|cut|+n+1..] == s[n+1..];
      LinesStep(s, n);
      LinesStep(all, |cut| + n);
      own, joined, rest := StripCr(s[..n]), StripCr(cut + s[..n]), Lines(s[n+1..]);
      StripCrPrefix(cut, s[..n]);
      assert n == 0 <==> s[0] == '\n' by {
        assert n > 0 ==> s[..n][0] == s[0];
      }
    } else {
      Unterminated(s);
      Unterminated(cut + s);
      own, joined, rest := s, cut + s, [];
    }
  }

  lemma StripCrPrefix(cut: Bytes, line: Bytes)
    ensures StripCr(line) == StripCr(cut + line) <==> cut == [] || (cut == ['\r'] && line == [])
  {
    if line == [] {
      assert cut + line == cut;
    } else {
      assert (cut + line)[|cut| + |line| - 1] == line[|line|-1];
      assert cut == [] ==> cut + line == line;
    }
  }

  lemma JoinCancels(a: Bytes, b: Bytes, rest: seq<Bytes>)
    requires Join([a] + rest) == Join([b] + rest)
    ensures a == b
  {
    hide Join;
    JoinFirst(a, rest);
    JoinFirst(b, rest);
    if rest != [] {
      var x, y := a + ['\n'] + Join(rest), b + ['\n'] + Join(rest);
      assert |x| == |y| && |a| == |b|;
      assert a == x[..|a|] && b == y[..|b|];
    }
  }

  /** The last lines of a longer file, as plain reading would give them, when the window holds no more than `tail`. */
  lemma CutTails(file: Bytes, tail: nat)
    requires tail > 0 && |file| > MAX_TAIL_BYTES && |Lines(Window(file))| <= tail
    ensures Capped(file, tail) == Whole(file, tail) <==> CapIsInvisible(file, tail)
  {
    hide Lines, Join, Newlines;
    var s := Window(file);
    var p := file[..|file| - MAX_TAIL_BYTES];
    assert file == p + s;
    var full, cut := LastLineOf(p);
    var own, joined, rest := FirstLineChanges(cut, s);
    var before := LinesBefore(full, cut + s);
    assert file == full + (cut + s);
    assert Lines(file) == before + ([joined] + rest);
    assert CutCleanly(p, s) <==> full != [] && own == joined by {
      CutShape(p, s, full, cut);
    }
    var kept := LastN(Lines(file), tail);
    if |Lines(s)| == tail {
      assert kept == [joined] + rest;
      if Join([own] + rest) == Join([joined] + rest) {
        JoinCancels(own, joined, rest);
      }
    } else if |Lines(file)| > tail {
      LinesHaveNoNewline(file);
      LinesHaveNoNewline(s);
      JoinNewlines(kept);
      JoinNewlines(Lines(s));
    }
  }

  lemma LinesBefore(full: Bytes, tail: Bytes) returns (before: seq<Bytes>)
    requires full == [] || Terminated(full)
    ensures Lines(full + tail) == before + Lines(tail)
    ensures before == [] <==> full == []
  {
    before := Lines(full);
    if full == [] {
      NoLines();
      assert full + tail == tail;
    } else {
      LinesConcat(full, tail);
      AnyLine(full);
    }
  }

  lemma CutShape(p: Bytes, s: Bytes, full: Bytes, cut: Bytes)
    requires p == full + cut && '\n' !in cut && (full == [] || Terminated(full)) && p != [] && s != []
    ensures CutCleanly(p, s) <==> full != [] && (cut == [] || (cut == ['\r'] && s[0] == '\n'))
  {
    if cut != [] {
      assert p[|p|-1] == cut[|cut|-1];
      if |cut| > 1 {
        assert p[|p|-2] == cut[|cut|-2];
      }
    }
  }

  /** The capped tail is the plain tail exactly when the cap does not show, for every file and every length. */
  lemma CappedIsWhole(file: Bytes, tail: nat)
    ensures Capped(file, tail) == Whole(file, tail) <==> CapIsInvisible(file, tail)
  {
    hide Lines, Join, Newlines, CutCleanly;
    if tail == 0 {
      LinesCount(file);
      NoneKept(file);
    } else if |file| > MAX_TAIL_BYTES {
      var s := Window(file);
      if |Lines(s)| > tail {
        assert file == file[..|file| - MAX_TAIL_BYTES] + s;
        LastLinesAgree(file[..|file| - MAX_TAIL_BYTES], s, tail);
      } else {
        CutTails(file, tail);
      }
    }
  }

  lemma NoneKept(file: Bytes)
    ensures Join(LastN(Lines(file), 0)) == [] && (|Lines(file)| > 0 <==> file != [])
  {
    LinesCount(file);
  }

  /** Enough newlines in the window always hide the cap. */
  lemma EnoughNewlines(file: Bytes, tail: nat)
    requires Newlines(Window(file)) > tail
    ensures CapIsInvisible(file, tail)
  {
    LinesCount(Window(file));
  }

  /** One line longer than the cap is cut although no line was dropped, so the cap can show. */
  lemma LongLineIsCut(file: Bytes, tail: nat)
    requires tail > 0 && |file| > MAX_TAIL_BYTES && '\n' !in file
    ensures Whole(file, tail) == OutputTail(file, false)
    ensures Capped(file, tail) == OutputTail(Window(file), true)
  {
    hide Lines;
    assert forall c :: c in Window(file) ==> c in file;
    Unterminated(file);
    Unterminated(Window(file));
  }

  /**
   The tail of a log that was written line by line: its last lines, written with LF
   between each two, truncated exactly when lines were left out.
   */
  lemma TailReadsBack(lines: seq<Bytes>, crlf: seq<bool>, last: Bytes, tail: nat)
    requires Writable(lines, crlf) && '\n' !in last
    requires CapIsInvisible(Written(lines, crlf) + last, tail)
    ensures var all := lines + if last == [] then [] else [last];
            var kept := if |all| <= tail then all else all[|all| - tail..];
            var output := Capped(Written(lines, crlf) + last, tail);
            && (output.truncated <==> |all| > tail)
            && if kept == [] then output.text == [] else output.text + "\n" == Written(kept, AllLf(kept))
  {
    hide Lines, Join, Written, CapIsInvisible;
    var file := Written(lines, crlf) + last;
    CappedIsWhole(file, tail);
    LinesReadBack(lines, crlf, last);
    var kept := LastN(Lines(file), tail);
    if kept == [] {
      JoinNothing();
    } else {
      JoinIsWritten(kept);
    }
  }

  lemma JoinNothing()
    ensures Join([]) == []
  {
  }

  /** A log that fits the cap is read through an invisible cap, and so is one whose last 1 MiB holds more than `tail` newlines. */
  lemma SmallLogsFit(file: Bytes, tail: nat)
    requires |file| <= 1_048_576 || Newlines(file[|file| - 1_048_576..]) > tail
    ensures CapIsInvisible(file, tail)
  {
    if |file| > 1_048_576 {
      EnoughNewlines(file, tail);
    }
  }
}
