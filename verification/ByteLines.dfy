/** Lines of a byte string, with the rules of Rust's `str::lines`. */
module ByteLines {
  import opened Basics

  function FirstNewline(b: Bytes): (n: nat)
    requires '\n' in b
    ensures n < |b| && b[n] == '\n' && '\n' !in b[..n]
  {
    if b[0] == '\n' then 0
    else
      assert forall c :: c in b ==> c == b[0] || c in b[1..];
      var n := 1 + FirstNewline(b[1..]);
      assert b[..n] == [b[0]] + b[1..][..n-1];
      n
  }

  lemma FirstNewlineIs(b: Bytes, n: nat)
    requires n < |b| && b[n] == '\n' && '\n' !in b[..n]
    ensures '\n' in b && FirstNewline(b) == n
  {
    var m := FirstNewline(b);
    assert forall k | 0 <= k < n :: b[..n][k] == b[k] && b[k] != '\n';
    assert forall k | 0 <= k < m :: b[..m][k] == b[k] && b[k] != '\n';
  }

  function StripCr(line: Bytes): Bytes {
    if line != [] && line[|line|-1] == '\r' then line[..|line|-1] else line
  }

  /** Split at LF, drop one CR before each LF; a last line without LF is kept as it is. */
  function Lines(b: Bytes): seq<Bytes> {
    if b == [] then []
    else if '\n' !in b then [b]
    else
      var n := FirstNewline(b);
      [StripCr(b[..n])] + Lines(b[n+1..])
  }

  function Newlines(b: Bytes): nat {
    if b == [] then 0 else (if b[0] == '\n' then 1 else 0) + Newlines(b[1..])
  }

  ghost predicate Terminated(b: Bytes) {
    b != [] && b[|b|-1] == '\n'
  }

  lemma {:induction false} NewlinesConcat(a: Bytes, b: Bytes)
    ensures Newlines(a + b) == Newlines(a) + Newlines(b)
  {
    if a == [] {
      assert a + b == b;
    } else {
      assert (a + b)[1..] == a[1..] + b;
      NewlinesConcat(a[1..], b);
    }
  }

  lemma {:induction false} NoNewlines(b: Bytes)
    ensures Newlines(b) == 0 <==> '\n' !in b
  {
    if b != [] {
      NoNewlines(b[1..]);
      assert forall c :: c in b <==> c == b[0] || c in b[1..];
    }
  }

  lemma LinesStep(b: Bytes, n: nat)
    requires n < |b| && b[n] == '\n' && '\n' !in b[..n]
    ensures Lines(b) == [StripCr(b[..n])] + Lines(b[n+1..])
  {
    FirstNewlineIs(b, n);
  }

  lemma NoLines()
    ensures Lines([]) == []
  {
  }

  /** Bytes up to a newline never affect the lines after it. */
  lemma {:induction false} LinesConcat(a: Bytes, b: Bytes)
    requires Terminated(a)
    ensures Lines(a + b) == Lines(a) + Lines(b)
    decreases |a|
  {
    hide Lines;
    var n := FirstNewline(a);
    assert (a + b)[..n] == a[..n];
    LinesStep(a, n);
    LinesStep(a + b, n);
    assert (a + b)[n+1..] == a[n+1..] + b;
    if n + 1 == |a| {
      NoLines();
      assert a[n+1..] == [] && a[n+1..] + b == b;
    } else {
      LinesConcat(a[n+1..], b);
    }
  }

  lemma Unterminated(s: Bytes)
    requires s != [] && '\n' !in s
    ensures Lines(s) == [s]
  {
  }

  lemma NewlinesStep(b: Bytes, n: nat)
    requires n < |b| && b[n] == '\n' && '\n' !in b[..n]
    ensures Newlines(b) == 1 + Newlines(b[n+1..])
  {
    hide Newlines;
    assert b == b[..n] + ['\n'] + b[n+1..];
    NewlinesConcat(b[..n] + ['\n'], b[n+1..]);
    NewlinesConcat(b[..n], ['\n']);
    NoNewlines(b[..n]);
    OneNewline();
  }

  lemma OneNewline()
    ensures Newlines(['\n']) == 1 && Newlines([]) == 0
  {
  }

  lemma {:induction false} LinesCount(b: Bytes)
    ensures |Lines(b)| == Newlines(b) + if b == [] || Terminated(b) then 0 else 1
    decreases |b|
  {
    hide Lines, Newlines;
    OneNewline();
    NoLines();
    if b != [] {
      NoNewlines(b);
      if '\n' in b {
        var n := FirstNewline(b);
        LinesStep(b, n);
        NewlinesStep(b, n);
        LinesCount(b[n+1..]);
      } else {
        Unterminated(b);
      }
    }
  }

  /** No line holds a newline. */
  lemma {:induction false} LinesHaveNoNewline(b: Bytes)
    ensures forall k | 0 <= k < |Lines(b)| :: '\n' !in Lines(b)[k]
    decreases |b|
  {
    if b != [] && '\n' in b {
      LinesHaveNoNewline(b[FirstNewline(b)+1..]);
    }
  }

  function LastN<T>(s: seq<T>, n: nat): seq<T> {
    if |s| <= n then s else s[|s|-n..]
  }

  /** Lines with a newline between each two. */
  function Join(lines: seq<Bytes>): Bytes {
    if lines == [] then []
    else if |lines| == 1 then lines[0]
    else lines[0] + ['\n'] + Join(lines[1..])
  }

  lemma JoinFirst(line: Bytes, rest: seq<Bytes>)
    ensures Join([line] + rest) == if rest == [] then line else line + ['\n'] + Join(rest)
  {
    assert ([line] + rest)[1..] == rest;
  }

  lemma {:induction false} JoinConcat(a: seq<Bytes>, b: seq<Bytes>)
    requires a != [] && b != []
    ensures Join(a + b) == Join(a) + ['\n'] + Join(b)
  {
    hide Join;
    var line, rest := a[0], a[1..];
    assert a == [line] + rest && a + b == [line] + (rest + b);
    JoinFirst(line, rest);
    JoinFirst(line, rest + b);
    if rest == [] {
      assert rest + b == b;
    } else {
      JoinConcat(rest, b);
      var j, k := Join(rest), Join(b);
      assert line + ['\n'] + (j + ['\n'] + k) == (line + ['\n'] + j) + ['\n'] + k;
    }
  }

  lemma {:induction false} JoinNewlines(lines: seq<Bytes>)
    requires lines != []
    requires forall k | 0 <= k < |lines| :: '\n' !in lines[k]
    ensures Newlines(Join(lines)) == |lines| - 1
  {
    NoNewlines(lines[0]);
    if |lines| > 1 {
      JoinNewlines(lines[1..]);
      NewlinesConcat(lines[0] + ['\n'], Join(lines[1..]));
      NewlinesConcat(lines[0], ['\n']);
    }
  }

  // ----- lines as they are written -----

  /** Each line with the ending it is written with: CR LF where `crlf` says so, else LF. */
  ghost function Written(lines: seq<Bytes>, crlf: seq<bool>): Bytes
    requires |lines| == |crlf|
  {
    if lines == [] then []
    else lines[0] + (if crlf[0] then "\r\n" else "\n") + Written(lines[1..], crlf[1..])
  }

  /** Lines that can be told from their endings: none holds LF, and one that ends in LF alone does not end in CR. */
  ghost predicate Writable(lines: seq<Bytes>, crlf: seq<bool>) {
    && |lines| == |crlf|
    && forall k | 0 <= k < |lines| ::
         '\n' !in lines[k] && (!crlf[k] && lines[k] != [] ==> lines[k][|lines[k]|-1] != '\r')
  }

  /** A line that was written with CR LF is read without either. */
  lemma CrLfLine(line: Bytes, rest: Bytes)
    requires '\n' !in line
    ensures Lines(line + "\r\n" + rest) == [line] + Lines(rest)
  {
    var b, n := line + "\r\n" + rest, |line| + 1;
    assert b[..n] == line + "\r" && b[n+1..] == rest;
    LinesStep(b, n);
  }

  /** A line that was written with LF alone is read without it. */
  lemma LfLine(line: Bytes, rest: Bytes)
    requires '\n' !in line && (line != [] ==> line[|line|-1] != '\r')
    ensures Lines(line + "\n" + rest) == [line] + Lines(rest)
  {
    var b, n := line + "\n" + rest, |line|;
    assert b[..n] == line && b[n+1..] == rest;
    LinesStep(b, n);
  }

  lemma Grouped(line: Bytes, ending: Bytes, rest: Bytes, last: Bytes)
    ensures (line + ending + rest) + last == line + ending + (rest + last)
  {
  }

  lemma WrittenFirst(lines: seq<Bytes>, crlf: seq<bool>)
    requires |lines| == |crlf| && lines != []
    ensures Written(lines, crlf) == lines[0] + (if crlf[0] then "\r\n" else "\n") + Written(lines[1..], crlf[1..])
  {
  }

  /** Written lines are read back as they were, whatever their endings, and a last one without LF keeps its CR. */
  lemma {:induction false} LinesReadBack(lines: seq<Bytes>, crlf: seq<bool>, last: Bytes)
    requires Writable(lines, crlf) && '\n' !in last
    ensures Lines(Written(lines, crlf) + last) == lines + if last == [] then [] else [last]
  {
    if lines == [] {
      assert Written(lines, crlf) + last == last;
      NoLines();
      if last != [] {
        Unterminated(last);
      }
    } else {
      hide Lines, Written;
      var line, rest := lines[0], Written(lines[1..], crlf[1..]);
      LinesReadBack(lines[1..], crlf[1..], last);
      WrittenFirst(lines, crlf);
      Grouped(line, if crlf[0] then "\r\n" else "\n", rest, last);
      if crlf[0] {
        CrLfLine(line, rest + last);
      } else {
        LfLine(line, rest + last);
      }
      assert lines == [line] + lines[1..];
    }
  }

  ghost function AllLf(lines: seq<Bytes>): (crlf: seq<bool>)
    ensures |crlf| == |lines| && forall k | 0 <= k < |crlf| :: !crlf[k]
  {
    if lines == [] then [] else [false] + AllLf(lines[1..])
  }

  /** Joined lines are the lines written with LF, without the last LF. */
  lemma {:induction false} JoinIsWritten(lines: seq<Bytes>)
    requires lines != []
    ensures Join(lines) + "\n" == Written(lines, AllLf(lines))
  {
    assert AllLf(lines)[1..] == AllLf(lines[1..]);
    if |lines| > 1 {
      JoinIsWritten(lines[1..]);
    } else {
      assert Written(lines[1..], AllLf(lines[1..])) == [];
    }
  }
}
