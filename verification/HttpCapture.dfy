/**
 Reading an HTTP response through a `curl` process, as `src/curl.rs` does it: a
 bounded prefix for the body, a bounded tail for the status that curl appends.
 */
module HttpCapture {
  import opened Basics

  const STATUS_MARKER: Bytes := "\nHOMEBASED_HTTP_STATUS:"
  const STATUS_TAIL_LIMIT: nat := 64
  const BUFFER: nat := 8192

  datatype Failure = ReadFailed | NoStatus | InvalidStatus

  datatype Capture = Capture(bytes: Bytes, tail: Bytes, total: nat)

  datatype Response = Response(status: nat, body: Bytes)

  function Prefix(b: Bytes, n: nat): Bytes {
    if |b| <= n then b else b[..n]
  }

  function Suffix(b: Bytes, n: nat): Bytes {
    if |b| <= n then b else b[|b|-n..]
  }

  /** What a capture of the whole output keeps. */
  function Captured(output: Bytes, limit: nat, tailLimit: nat): Capture {
    Capture(Prefix(output, limit), if tailLimit == 0 then [] else Suffix(output, tailLimit), |output|)
  }

  ghost function Flatten(chunks: seq<Bytes>): Bytes {
    if chunks == [] then [] else Flatten(chunks[..|chunks|-1]) + chunks[|chunks|-1]
  }

  lemma PrefixGrows(before: Bytes, chunk: Bytes, n: nat)
    ensures |Prefix(before, n)| <= n
    ensures var room := n - |Prefix(before, n)|;
            Prefix(before + chunk, n) == Prefix(before, n) + chunk[..if room < |chunk| then room else |chunk|]
  {
  }

  lemma SuffixSlides(before: Bytes, chunk: Bytes, n: nat)
    ensures Suffix(before + chunk, n) == Suffix(Suffix(before, n) + chunk, n)
  {
  }

  /** How one more read changes what is kept. */
  lemma CaptureGrows(before: Bytes, chunk: Bytes, limit: nat, tailLimit: nat)
    ensures |Captured(before, limit, tailLimit).bytes| <= limit
    ensures var was, room := Captured(before, limit, tailLimit), limit - |Captured(before, limit, tailLimit).bytes|;
            Captured(before + chunk, limit, tailLimit) ==
            Capture(was.bytes + chunk[..if room < |chunk| then room else |chunk|],
                    if tailLimit == 0 then was.tail else Suffix(was.tail + chunk, tailLimit),
                    was.total + |chunk|)
  {
    hide Prefix, Suffix;
    PrefixGrows(before, chunk, limit);
    SuffixSlides(before, chunk, tailLimit);
  }

  lemma FlattenGrows(chunks: seq<Bytes>, k: nat)
    requires k < |chunks|
    ensures Flatten(chunks[..k+1]) == Flatten(chunks[..k]) + chunks[k]
  {
    assert chunks[..k + 1][..k] == chunks[..k];
  }

  /** Read to the end, or to the read that fails; each read fills part of the buffer. */
  method ReadCapture(reader: seq<Bytes>, fails: bool, limit: nat, tailLimit: nat)
    returns (result: Result<Capture, Failure>)
    requires forall k | 0 <= k < |reader| :: 0 < |reader[k]| <= BUFFER
    ensures result == if fails then Err(ReadFailed) else Ok(Captured(Flatten(reader), limit, tailLimit))
  {
    hide Captured, Flatten;
    var bytes: Bytes, tail: Bytes, total: nat := [], [], 0;
    NothingRead(reader, limit, tailLimit);
    for k := 0 to |reader|
      invariant Capture(bytes, tail, total) == Captured(Flatten(reader[..k]), limit, tailLimit)
    {
      var buffer := reader[k];
      FlattenGrows(reader, k);
      CaptureGrows(Flatten(reader[..k]), buffer, limit, tailLimit);
      total := total + |buffer|;
      var room := limit - |bytes|;
      bytes := bytes + buffer[..if room < |buffer| then room else |buffer|];
      if tailLimit > 0 {
        tail := tail + buffer;
        if |tail| > tailLimit {
          tail := tail[|tail| - tailLimit..];
        }
      }
    }
    assert reader[..|reader|] == reader;
    result := if fails then Err(ReadFailed) else Ok(Capture(bytes, tail, total));
  }

  lemma NothingRead(chunks: seq<Bytes>, limit: nat, tailLimit: nat)
    ensures Captured(Flatten(chunks[..0]), limit, tailLimit) == Capture([], [], 0)
  {
    assert chunks[..0] == [];
  }

  // ----- the status -----

  predicate MarkerAt(b: Bytes, i: nat) {
    i + |STATUS_MARKER| <= |b| && b[i..i + |STATUS_MARKER|] == STATUS_MARKER
  }

  ghost predicate LastMarker(b: Bytes, i: nat) {
    MarkerAt(b, i) && forall j: nat :: j > i ==> !MarkerAt(b, j)
  }

  predicate IsSpace(c: char) {
    c == ' ' || '\t' <= c <= '\r'
  }

  function Trim(s: Bytes): Bytes {
    if s != [] && IsSpace(s[0]) then Trim(s[1..])
    else if s != [] && IsSpace(s[|s|-1]) then Trim(s[..|s|-1])
    else s
  }

  predicate IsDigit(c: char) {
    '0' <= c <= '9'
  }

  function Digit(c: char): nat
    requires IsDigit(c)
  {
    (c - '0') as nat
  }

  predicate AllDigits(s: Bytes) {
    forall k | 0 <= k < |s| :: IsDigit(s[k])
  }

  function Decimal(s: Bytes): nat
    requires AllDigits(s)
  {
    if s == [] then 0 else 10 * Decimal(s[..|s|-1]) + Digit(s[|s|-1])
  }

  /** A decimal that fits 16 bits, with an optional plus sign. */
  function ParseU16(s: Bytes): Option<nat> {
    var digits := if s != [] && s[0] == '+' then s[1..] else s;
    if digits != [] && AllDigits(digits) && Decimal(digits) < 0x1_0000 then Some(Decimal(digits)) else None
  }

  /** Where the last marker starts. */
  method FindLastMarker(tail: Bytes) returns (index: Option<nat>)
    ensures index.None? ==> forall i: nat :: !MarkerAt(tail, i)
    ensures index.Some? ==> LastMarker(tail, index.value)
  {
    var i: nat := |tail| + 1;
    while i > 0
      invariant forall j: nat :: j >= i ==> !MarkerAt(tail, j)
    {
      i := i - 1;
      if MarkerAt(tail, i) {
        return Some(i);
      }
    }
    index := None;
  }

  /** The text after the last marker decides the status, and the marker's place the length of the body. */
  ghost predicate ParsedAs(output: Capture, result: Result<(nat, nat), Failure>)
    requires |output.tail| <= output.total
  {
    && ((forall i: nat :: !MarkerAt(output.tail, i)) ==> result == Err(NoStatus))
    && forall i: nat :: LastMarker(output.tail, i) ==>
         result == match ParseU16(Trim(output.tail[i + |STATUS_MARKER|..]))
                   case Some(status) => Ok((status, output.total - |output.tail| + i))
                   case None => Err(InvalidStatus)
  }

  /** The status after the last marker, and the length of the body before it. */
  method ParseStatus(output: Capture) returns (result: Result<(nat, nat), Failure>)
    requires |output.tail| <= output.total
    ensures ParsedAs(output, result)
    ensures result.Ok? ==> result.value.1 <= output.total
  {
    hide Trim, ParseU16;
    var index := FindLastMarker(output.tail);
    if index.None? {
      return Err(NoStatus);
    }
    MarkerIsUnique(output.tail, index.value);
    hide MarkerAt, LastMarker;
    var status := ParseU16(Trim(output.tail[index.value + |STATUS_MARKER|..]));
    if status.None? {
      return Err(InvalidStatus);
    }
    result := Ok((status.value, output.total - |output.tail| + index.value));
  }

  lemma MarkerIsUnique(tail: Bytes, index: nat)
    requires LastMarker(tail, index)
    ensures MarkerAt(tail, index) && index + |STATUS_MARKER| <= |tail|
    ensures forall i: nat :: LastMarker(tail, i) ==> i == index
  {
  }

  ghost predicate IsPadding(pad: Bytes) {
    forall k | 0 <= k < |pad| ::
      pad[k] == ' ' || pad[k] == '\t' || pad[k] == '\n' || pad[k] == '\U{0B}' || pad[k] == '\U{0C}' || pad[k] == '\r'
  }

  ghost predicate IsNumber(digits: Bytes) {
    digits != [] && forall k | 0 <= k < |digits| :: '0' <= digits[k] <= '9'
  }

  /** Padding on either side of a text that neither begins nor ends with it is taken off, and nothing else. */
  lemma {:induction false} TrimTakesPadding(pad: Bytes, core: Bytes, pad': Bytes)
    requires IsPadding(pad) && IsPadding(pad')
    requires core != [] && !IsPadding([core[0]]) && !IsPadding([core[|core|-1]])
    ensures Trim(pad + core + pad') == core
    decreases |pad| + |pad'|
  {
    var s := pad + core + pad';
    if pad != [] {
      assert s[0] == pad[0] && s[1..] == pad[1..] + core + pad';
      TrimTakesPadding(pad[1..], core, pad');
    } else if pad' != [] {
      assert s[0] == core[0] && s[|s|-1] == pad'[|pad'|-1] && s[..|s|-1] == pad + core + pad'[..|pad'|-1];
      NotPadding(core[0]);
      TrimTakesPadding(pad, core, pad'[..|pad'|-1]);
    } else {
      assert s == core;
      NotPadding(core[0]);
      NotPadding(core[|core|-1]);
    }
  }

  lemma NotPadding(c: char)
    ensures IsPadding([c]) <==> IsSpace(c)
  {
    assert [c][0] == c;
  }

  /** A status is a number below 65536, with a plus sign or without, and nothing else is one. */
  lemma StatusTexts(s: Bytes)
    ensures ParseU16(s).Some? <==>
            exists digits :: IsNumber(digits) && (s == digits || s == "+" + digits) && AllDigits(digits) && Decimal(digits) <= 65535
    ensures forall digits :: IsNumber(digits) && (s == digits || s == "+" + digits) ==>
              AllDigits(digits) && ParseU16(s) == if Decimal(digits) <= 65535 then Some(Decimal(digits)) else None
  {
    forall digits | IsNumber(digits) && (s == digits || s == "+" + digits)
      ensures AllDigits(digits) && ParseU16(s) == if Decimal(digits) <= 65535 then Some(Decimal(digits)) else None
    {
      assert s == "+" + digits ==> s[1..] == digits;
    }
    if ParseU16(s).Some? {
      var digits := if s != [] && s[0] == '+' then s[1..] else s;
      assert IsNumber(digits) && (s == digits || s == "+" + digits);
    }
  }

  /** Numbers are read in base ten, most significant digit first. */
  lemma PlaceValue(digits: Bytes, d: char)
    requires IsNumber(digits) && '0' <= d <= '9'
    ensures AllDigits([d]) && Decimal([d]) == d as int - 48
    ensures AllDigits(digits + [d]) && AllDigits(digits) && Decimal(digits + [d]) == 10 * Decimal(digits) + (d as int - 48)
  {
    assert (digits + [d])[..|digits|] == digits;
    assert [d][..0] == [];
  }

  // ----- the whole exchange -----

  /** Three digits. */
  ghost predicate IsStatus(code: Bytes) {
    |code| == 3 && forall k | 0 <= k < |code| :: '0' <= code[k] <= '9'
  }

  /** The number that three digits stand for. */
  ghost function StatusOf(code: Bytes): nat
    requires IsStatus(code)
  {
    100 * (code[0] as int - '0' as int) + 10 * (code[1] as int - '0' as int) + (code[2] as int - '0' as int)
  }

  /** What curl writes for a response: the body, the marker, the status and a newline. */
  ghost function Written(body: Bytes, code: Bytes): Bytes {
    body + "\nHOMEBASED_HTTP_STATUS:" + code + "\n"
  }

  /** The part of `body` that a limit leaves. */
  ghost function UpTo(body: Bytes, limit: nat): Bytes {
    body[..if limit < |body| then limit else |body|]
  }

  lemma TrimCode(code: Bytes)
    requires IsStatus(code)
    ensures Trim(code + "\n") == code
    ensures ParseU16(code) == Some(StatusOf(code))
  {
    var line := code + "\n";
    assert line[..|line|-1] == code;
    assert Decimal(code) == StatusOf(code) by {
      var two, one := code[..2], code[..1];
      assert two[..1] == one && one[..0] == [];
      assert Decimal(one) == 10 * Decimal(one[..0]) + Digit(one[0]) && one[..0] == [];
      assert Decimal(two) == 10 * Decimal(one) + Digit(two[1]);
    }
  }

  /** The appended marker is the last one in any tail that holds it, whatever the body contains. */
  lemma AppendedMarkerIsLast(body: Bytes, code: Bytes, tailLimit: nat)
    requires IsStatus(code) && tailLimit >= |STATUS_MARKER| + 4
    ensures var tail := Suffix(Written(body, code), tailLimit);
            var i := |tail| - |STATUS_MARKER| - 4;
            i >= 0 && LastMarker(tail, i) && tail[i + |STATUS_MARKER|..] == code + "\n"
  {
    var written := Written(body, code);
    var tail := Suffix(written, tailLimit);
    var i := |tail| - |STATUS_MARKER| - 4;
    var from := |written| - |tail|;
    assert tail == written[from..] && i + from == |body| && 0 <= i;
    assert written == body + (STATUS_MARKER + (code + "\n"));
    assert tail[i..] == written[|body|..] == STATUS_MARKER + (code + "\n");
    NoLaterMarker(tail, i, code);
  }

  lemma NoLaterMarker(tail: Bytes, i: nat, code: Bytes)
    requires |code| == 3 && i <= |tail| && tail[i..] == STATUS_MARKER + (code + "\n")
    ensures LastMarker(tail, i) && tail[i + |STATUS_MARKER|..] == code + "\n"
  {
    var rest := tail[i..];
    assert tail[i..i + |STATUS_MARKER|] == rest[..|STATUS_MARKER|];
    assert tail[i + |STATUS_MARKER|..] == rest[|STATUS_MARKER|..];
    forall j: nat | j > i ensures !MarkerAt(tail, j) {
      if j + |STATUS_MARKER| <= |tail| {
        assert rest[j - i] == STATUS_MARKER[j - i];
        assert tail[j..j + |STATUS_MARKER|][0] == rest[j - i];
      }
    }
  }

  /** A captured response parses to its status and its body, whatever the body contains and however long it is. */
  lemma CaptureRoundTrip(body: Bytes, code: Bytes, limit: nat, parsed: Result<(nat, nat), Failure>)
    requires IsStatus(code)
    requires var capture := Captured(Written(body, code), limit, STATUS_TAIL_LIMIT);
             |capture.tail| <= capture.total && ParsedAs(capture, parsed)
    ensures parsed == Ok((StatusOf(code), |body|))
    ensures Prefix(Prefix(Written(body, code), limit), |body|) == UpTo(body, limit)
  {
    hide MarkerAt, LastMarker, Trim, ParseU16;
    AppendedMarkerIsLast(body, code, STATUS_TAIL_LIMIT);
    TrimCode(code);
  }

  lemma PrefixesCommute(output: Bytes, limit: nat, n: nat)
    requires n <= |output|
    ensures Prefix(Prefix(output, limit), n) == UpTo(output[..n], limit)
  {
  }

  lemma TailFits(output: Bytes, n: nat)
    ensures |Suffix(output, n)| <= |output|
  {
  }

  /** Read a finished response: the status, and the body up to the limit. */
  method Receive(reader: seq<Bytes>, fails: bool, limit: nat) returns (result: Result<Response, Failure>)
    requires forall k | 0 <= k < |reader| :: 0 < |reader[k]| <= BUFFER
    ensures fails ==> result == Err(ReadFailed)
    ensures !fails ==> forall body, code :: IsStatus(code) && Flatten(reader) == Written(body, code) ==>
              result == Ok(Response(StatusOf(code), UpTo(body, limit)))
    ensures var output := Flatten(reader);
            var tail := Suffix(output, STATUS_TAIL_LIMIT);
            !fails ==>
              && ((forall i: nat :: !MarkerAt(tail, i)) ==> result == Err(NoStatus))
              && (forall i: nat :: LastMarker(tail, i) ==>
                    match ParseU16(Trim(tail[i + |STATUS_MARKER|..]))
                    case None => result == Err(InvalidStatus)
                    case Some(status) =>
                      |tail| <= |output| && result == Ok(Response(status, UpTo(output[..|output| - |tail| + i], limit))))
  {
    hide Prefix, UpTo, Flatten, Written, StatusOf, MarkerAt, LastMarker, Trim, ParseU16;
    var captured := ReadCapture(reader, fails, limit, STATUS_TAIL_LIMIT);
    if captured.Err? {
      return Err(captured.error);
    }
    var capture := captured.value;
    var parsed := ParseStatus(capture);
    forall body, code | IsStatus(code) && Flatten(reader) == Written(body, code)
      ensures parsed == Ok((StatusOf(code), |body|)) && Prefix(capture.bytes, |body|) == UpTo(body, limit)
    {
      CaptureRoundTrip(body, code, limit, parsed);
    }
    if parsed.Err? {
      return Err(parsed.error);
    }
    var (status, bodyLength) := parsed.value;
    TailFits(Flatten(reader), STATUS_TAIL_LIMIT);
    PrefixesCommute(Flatten(reader), limit, bodyLength);
    result := Ok(Response(status, Prefix(capture.bytes, bodyLength)));
  }
}
