/**
 Newline-delimited JSON frames read through a buffer. A line is read in chunks of at most the
 buffer's size, and one longer than the limit is drained and reported without being kept.
 */
module Frames {
  import opened Utf8
  import opened Wrappers

  type Bytes = seq<Byte>

  const NEWLINE: Byte := 10
  const EXCERPT_HEAD: nat := 256
  const MAX_FRAME_BYTES: nat := 0x400_0000
  const READ_BUFFER: nat := 0x1_0000

  // What comes after the last byte: the end of the stream, or another error.
  datatype End = Eof | Broken

  // The buffer's size, the limit of a line, bytes.TrimSpace, and json.Unmarshal.
  datatype Format<!M> = Format(buffer: nat, limit: nat, trim: Bytes -> Bytes, parse: Bytes -> Option<M>)

  // ---- Lines ----

  /** Where the first line ends, including its newline; the length if there is none. */
  function LineEnd(data: Bytes): (n: nat)
    ensures n <= |data| && (data != [] ==> n > 0) && forall i :: 0 <= i < n - 1 ==> data[i] != NEWLINE
    ensures n < |data| ==> data[n - 1] == NEWLINE
  {
    if data == [] then 0 else if data[0] == NEWLINE then 1 else 1 + LineEnd(data[1..])
  }

  predicate Terminated(line: Bytes) {
    line != [] && line[|line| - 1] == NEWLINE
  }

  /** The largest multiple of the buffer's size within the limit. */
  function Fits(buffer: nat, limit: nat): (n: nat)
    requires buffer > 0
    ensures n <= limit < n + buffer
  {
    if limit < buffer then 0 else buffer + Fits(buffer, limit - buffer)
  }

  predicate FullChunks(n: nat, buffer: nat)
    requires buffer > 0
  {
    n == 0 || (n >= buffer && FullChunks(n - buffer, buffer))
  }

  lemma {:induction false} FullChunksFit(n: nat, buffer: nat, limit: nat)
    requires buffer > 0 && FullChunks(n, buffer) && n <= limit < n + buffer
    ensures Fits(buffer, limit) == n
  {
    if n > 0 {
      FullChunksFit(n - buffer, buffer, limit - buffer);
    }
  }

  lemma {:induction false} FullChunksPast(n: nat, buffer: nat, limit: nat)
    requires buffer > 0 && FullChunks(n, buffer) && n > limit
    ensures n >= Fits(buffer, limit) + buffer
  {
    if limit >= buffer {
      FullChunksPast(n - buffer, buffer, limit - buffer);
    }
  }

  /** How much of an oversize line is kept: the chunks that fit, or the head for an excerpt. */
  function HeadLength(buffer: nat, limit: nat, size: nat): (n: nat)
    requires buffer > 0 && size > limit
    ensures 0 < n <= size
  {
    var fits := Fits(buffer, limit);
    if fits >= EXCERPT_HEAD then fits
    else
      var to := if fits + buffer < EXCERPT_HEAD then fits + buffer else EXCERPT_HEAD;
      if size < to then size else to
  }

  function Kept(buffer: nat, limit: nat, line: Bytes): (head: Bytes)
    requires buffer > 0
  {
    if |line| <= limit then line else line[..HeadLength(buffer, limit, |line|)]
  }

  // ReadSlice's result.
  datatype Status = Found | BufferFull | Stopped

  datatype Line = Line(kept: Bytes, size: nat, tooLarge: bool)

  lemma {:induction false} LineEndAfter(head: Bytes, rest: Bytes)
    requires NEWLINE !in head
    ensures LineEnd(head + rest) == |head| + LineEnd(rest)
  {
    if head == [] {
      assert head + rest == rest;
    } else {
      assert head[0] in head && (head + rest)[1..] == head[1..] + rest;
      LineEndAfter(head[1..], rest);
    }
  }

  /** A text falls into its first line and the rest. */
  predicate FirstIs(start: Bytes, line: Bytes, rest: Bytes) {
    LineEnd(start) == |line| && line + rest == start && start[..|line|] == line && start[|line|..] == rest
  }

  lemma LineFound(start: Bytes, sofar: Bytes, chunk: Bytes, rest: Bytes)
    requires start == sofar + (chunk + rest) && NEWLINE !in sofar && Terminated(chunk)
    requires |chunk| == LineEnd(chunk + rest)
    ensures FirstIs(start, sofar + chunk, rest) && Terminated(sofar + chunk)
  {
    LineEndAfter(sofar, chunk + rest);
  }

  lemma LineStopped(start: Bytes, sofar: Bytes, chunk: Bytes)
    requires start == sofar + chunk && NEWLINE !in sofar && NEWLINE !in chunk
    ensures FirstIs(start, sofar + chunk, []) && !Terminated(start)
  {
    LineEndAfter(start, []);
    assert start + [] == start;
    assert start != [] ==> start[|start| - 1] in start;
  }

  // ---- What is made of a stream ----

  datatype Outcome<M> = Frame(msg: M) | Malformed(size: nat)

  /** What a line yields: nothing if what was kept of it is blank. */
  function OutcomeOf<M>(f: Format<M>, line: Bytes): Option<Outcome<M>>
    requires f.buffer > 0
  {
    var text := f.trim(Kept(f.buffer, f.limit, line));
    if text == [] then None
    else if |line| > f.limit || f.parse(text).None? then Some(Malformed(|line|))
    else Some(Frame(f.parse(text).value))
  }

  function OptionSeq<T>(o: Option<T>): seq<T> {
    if o.Some? then [o.value] else []
  }

  /** The outcomes of a stream, line by line; an unfinished line counts only at a clean end. */
  function Outcomes<M>(f: Format<M>, data: Bytes, end: End): seq<Outcome<M>>
    requires f.buffer > 0
    decreases |data|
  {
    var n := LineEnd(data);
    if data == [] || (!Terminated(data[..n]) && end == Broken) then []
    else OptionSeq(OutcomeOf(f, data[..n])) + Outcomes(f, data[n..], end)
  }

  class Decoder<!M> {
    const format: Format<M>
    const end: End
    var data: Bytes

    constructor (format: Format<M>, data: Bytes, end: End)
      ensures this.format == format && this.data == data && this.end == end
    {
      this.format, this.data, this.end := format, data, end;
    }

    // bufio.Reader.ReadSlice: up to the newline, a full buffer, or what is left. With exactly
    // a full buffer left either of the latter, for the source may report its end early.
    method ReadSlice() returns (chunk: Bytes, status: Status)
      requires format.buffer > 0
      modifies this
      ensures old(data) == chunk + data && |chunk| <= format.buffer
      ensures status == Found ==> |chunk| == LineEnd(old(data)) && Terminated(chunk)
      ensures status == BufferFull ==> |chunk| == format.buffer && NEWLINE !in chunk
      ensures status == Stopped ==> data == [] && NEWLINE !in chunk
    {
      var n := LineEnd(data);
      if 0 < n <= format.buffer && data[n - 1] == NEWLINE {
        chunk, status := data[..n], Found;
      } else if |data| < format.buffer {
        chunk, status := data, Stopped;
      } else {
        chunk, status := data[..format.buffer], BufferFull;
        var early: bool := *;
        if |data| == format.buffer && early {
          status := Stopped;
        }
      }
      data := data[|chunk|..];
    }

    ghost predicate Reading(start: Bytes, sofar: Bytes, buf: Bytes, size: nat, tooLarge: bool)
      reads this
    {
      && format.buffer > 0 && start == sofar + data && NEWLINE !in sofar && size == |sofar|
      && FullChunks(size, format.buffer)
      && tooLarge == (size > format.limit) && buf == Kept(format.buffer, format.limit, sofar)
    }

    // Takes one more chunk of a line.
    method Collect(chunk: Bytes, buf: Bytes, tooLarge: bool, ghost sofar: Bytes)
      returns (buf': Bytes, tooLarge': bool)
      requires format.buffer > 0 && 0 <= |chunk| <= format.buffer && FullChunks(|sofar|, format.buffer)
      requires tooLarge == (|sofar| > format.limit) && buf == Kept(format.buffer, format.limit, sofar)
      ensures tooLarge' == (|sofar + chunk| > format.limit)
      ensures buf' == Kept(format.buffer, format.limit, sofar + chunk)
    {
      buf', tooLarge' := buf, tooLarge;
      if tooLarge {
        FullChunksPast(|sofar|, format.buffer, format.limit);
      } else {
        if |buf| + |chunk| > format.limit {
          tooLarge' := true;
          FullChunksFit(|sofar|, format.buffer, format.limit);
          if |buf| < EXCERPT_HEAD {
            buf' := buf + chunk[..if |chunk| < EXCERPT_HEAD - |buf| then |chunk| else EXCERPT_HEAD - |buf|];
          }
        } else {
          buf' := buf + chunk;
        }
      }
    }

    // ReadSlice, seen from the start of the line.
    method ReadPart(ghost start: Bytes, ghost sofar: Bytes) returns (chunk: Bytes, status: Status)
      requires format.buffer > 0 && start == sofar + data && NEWLINE !in sofar
      modifies this
      ensures start == (sofar + chunk) + data && |chunk| <= format.buffer && |data| <= |old(data)| - |chunk|
      ensures status == Found ==> FirstIs(start, sofar + chunk, data) && Terminated(sofar + chunk)
      ensures status == BufferFull ==> |chunk| == format.buffer && NEWLINE !in sofar + chunk
      ensures status == Stopped ==> FirstIs(start, sofar + chunk, data) && !Terminated(sofar + chunk)
    {
      chunk, status := ReadSlice();
      assert start == sofar + (chunk + data);
      if status == Found {
        LineFound(start, sofar, chunk, data);
      } else if status == Stopped {
        assert chunk + data == chunk;
        LineStopped(start, sofar, chunk);
      }
    }

    // Reads to the end of the line or of the stream.
    method ReadChunks() returns (buf: Bytes, size: nat, tooLarge: bool, found: bool)
      requires format.buffer > 0
      modifies this
      ensures var n := LineEnd(old(data));
        var whole := old(data)[..n];
        && data == old(data)[n..] && buf == Kept(format.buffer, format.limit, whole)
        && size == n && tooLarge == (n > format.limit) && found == Terminated(whole)
    {
      buf, size, tooLarge := [], 0, false;
      ghost var sofar: Bytes := [];
      while true
        invariant Reading(old(data), sofar, buf, size, tooLarge)
        decreases |data|
      {
        var chunk, status := ReadPart(old(data), sofar);
        buf, tooLarge := Collect(chunk, buf, tooLarge, sofar);
        sofar, size := sofar + chunk, size + |chunk|;
        if status != BufferFull {
          return buf, size, tooLarge, status == Found;
        }
      }
    }

    /** What readLine returns from a stream; None is its error. */
    ghost function FirstLine(stream: Bytes): Option<Line>
      requires format.buffer > 0
    {
      var n := LineEnd(stream);
      if n > 0 && (Terminated(stream[..n]) || end == Eof)
      then Some(Line(Kept(format.buffer, format.limit, stream[..n]), n, n > format.limit)) else None
    }

    method ReadLine() returns (line: Option<Line>)
      requires format.buffer > 0
      modifies this
      ensures line == FirstLine(old(data)) && data == old(data)[LineEnd(old(data))..]
    {
      var buf, size, tooLarge, found := ReadChunks();
      if found {
        return Some(Line(buf, size, tooLarge));
      }
      // The end of the stream: what was collected comes first.
      if |buf| > 0 && end == Eof {
        return Some(Line(buf, size, tooLarge));
      }
      return None;
    }

    /** Decode: the next outcome of the stream, or its end. */
    method Decode() returns (r: Option<Outcome<M>>)
      requires format.buffer > 0
      modifies this
      ensures var before, after := Outcomes(format, old(data), end), Outcomes(format, data, end);
        if r.None? then before == [] else before == [r.value] + after
      ensures if r.None? then data == [] else |data| < |old(data)|
    {
      while true
        invariant Outcomes(format, data, end) == Outcomes(format, old(data), end) && |data| <= |old(data)|
        decreases |data|
      {
        ghost var stream := data;
        var line := ReadLine();
        if line.None? {
          return None;
        }
        var text := format.trim(line.value.kept);
        if |text| == 0 {
          continue;
        }
        if line.value.tooLarge {
          return Some(Malformed(line.value.size));
        }
        var msg := format.parse(text);
        return if msg.None? then Some(Malformed(line.value.size)) else Some(Frame(msg.value));
      }
    }
  }

  // ---- What holds of every stream ----

  /** A finished line yields at most one outcome, and has no effect on those after it. */
  lemma LinesAreIndependent<M>(f: Format<M>, line: Bytes, rest: Bytes, end: End)
    requires f.buffer > 0 && Terminated(line) && NEWLINE !in line[..|line| - 1]
    ensures Outcomes(f, line + rest, end) == OptionSeq(OutcomeOf(f, line)) + Outcomes(f, rest, end)
  {
    var head := line[..|line| - 1];
    assert line + rest == head + ([NEWLINE] + rest);
    LineEndAfter(head, [NEWLINE] + rest);
    assert (line + rest)[..|line|] == line && (line + rest)[|line|..] == rest;
  }

  /** What a line should yield: nothing if it is blank; else a frame, or malformed if too long. */
  function Expected<M>(f: Format<M>, line: Bytes): Option<Outcome<M>> {
    if f.trim(line) == [] then None
    else if |line| > f.limit || f.parse(f.trim(line)).None? then Some(Malformed(|line|))
    else Some(Frame(f.parse(f.trim(line)).value))
  }

  // An oversize line whose kept head looks blank and the line is not, or the other way round.
  predicate HeadMisleads<M>(f: Format<M>, line: Bytes)
    requires f.buffer > 0
  {
    |line| > f.limit && (f.trim(line) == [] <==> f.trim(Kept(f.buffer, f.limit, line)) != [])
  }

  /**
   A line yields what it should, whatever the buffer's size and white space, except exactly when
   it is oversize and its kept head misleads: then it is passed over silently, or a blank line
   is reported.
   */
  lemma LineYieldsExpectedExactly<M>(f: Format<M>, line: Bytes)
    requires f.buffer > 0
    ensures OutcomeOf(f, line) == Expected(f, line) <==> !HeadMisleads(f, line)
    ensures HeadMisleads(f, line) && f.trim(line) != [] ==>
      OutcomeOf(f, line) == None && Expected(f, line) == Some(Malformed(|line|))
    ensures HeadMisleads(f, line) && f.trim(line) == [] ==>
      OutcomeOf(f, line) == Some(Malformed(|line|)) && Expected(f, line) == None
  {
  }

  lemma {:induction false} FitsMultiple(buffer: nat, k: nat)
    requires buffer > 0
    ensures Fits(buffer, k * buffer) == k * buffer
  {
    if k > 0 {
      assert k * buffer - buffer == (k - 1) * buffer;
      FitsMultiple(buffer, k - 1);
    }
  }

  /** With the program's sizes, the kept head of an oversize line is as long as the limit. */
  lemma ProgramKeepsTheLimit(line: Bytes)
    requires |line| > MAX_FRAME_BYTES
    ensures Kept(READ_BUFFER, MAX_FRAME_BYTES, line) == line[..MAX_FRAME_BYTES]
  {
    FitsMultiple(READ_BUFFER, 1024);
  }

  // Whether every line of a stream yields what it should.
  predicate NoHeadMisleads<M>(f: Format<M>, data: Bytes)
    requires f.buffer > 0
    decreases |data|
  {
    data == [] || (!HeadMisleads(f, data[..LineEnd(data)]) && NoHeadMisleads(f, data[LineEnd(data)..]))
  }

  function AllExpected<M>(f: Format<M>, data: Bytes, end: End): seq<Outcome<M>>
    decreases |data|
  {
    var n := LineEnd(data);
    if data == [] || (!Terminated(data[..n]) && end == Broken) then []
    else OptionSeq(Expected(f, data[..n])) + AllExpected(f, data[n..], end)
  }

  /** One outcome per non-blank line, in order, for any buffer size, if no head misleads. */
  lemma {:induction false} StreamYieldsExpected<M>(f: Format<M>, data: Bytes, end: End)
    requires f.buffer > 0 && NoHeadMisleads(f, data)
    ensures Outcomes(f, data, end) == AllExpected(f, data, end)
    decreases |data|
  {
    if data != [] {
      LineYieldsExpectedExactly(f, data[..LineEnd(data)]);
      StreamYieldsExpected(f, data[LineEnd(data)..], end);
    }
  }

  // ---- With the program's sizes and white space ----

  // The n bytes at index i encode one of unicode.IsSpace's characters.
  predicate SpaceAt(s: Bytes, i: nat, n: nat) {
    && i + n <= |s|
    && match n {
      case 1 => 9 <= s[i] <= 13 || s[i] == 0x20
      case 2 => s[i] == 0xC2 && (s[i + 1] == 0x85 || s[i + 1] == 0xA0)
      case 3 =>
        || (s[i] == 0xE1 && s[i + 1] == 0x9A && s[i + 2] == 0x80)
        || (s[i] == 0xE2 && s[i + 1] == 0x80
            && (0x80 <= s[i + 2] <= 0x8A || s[i + 2] == 0xA8 || s[i + 2] == 0xA9 || s[i + 2] == 0xAF))
        || (s[i] == 0xE2 && s[i + 1] == 0x81 && s[i + 2] == 0x9F)
        || (s[i] == 0xE3 && s[i + 1] == 0x80 && s[i + 2] == 0x80)
      case _ => false
    }
  }

  lemma SpaceDecodes(s: Bytes, n: nat) returns (c: nat)
    requires SpaceAt(s, 0, n)
    ensures IsScalar(c) && IsSpace(c) && s[..n] == Encode(c)
  {
    if n == 1 {
      c := s[0];
    } else if n == 2 {
      c := DecodeTwo(s[0], s[1]);
    } else {
      c := DecodeThree(s[0], s[1], s[2]);
    }
  }

  lemma SpaceEncodes(s: Bytes, n: nat, c: nat)
    requires IsScalar(c) && IsSpace(c) && n <= |s| && s[..n] == Encode(c)
    ensures SpaceAt(s, 0, n)
  {
    var bytes := Encode(c);
    assert n == |bytes| && forall i :: 0 <= i < n ==> s[i] == s[..n][i] == bytes[i];
    if 0x2000 <= c <= 0x200A {
      assert bytes[0] == 0xE2 && bytes[1] == 0x80 && 0x80 <= bytes[2] <= 0x8A;
    }
  }

  /** The program's white space is that of Unicode, encoded. */
  lemma SpaceAtExactly(s: Bytes, n: nat)
    requires n <= |s|
    ensures SpaceAt(s, 0, n) <==> exists c: nat :: IsScalar(c) && IsSpace(c) && s[..n] == Encode(c)
  {
    if SpaceAt(s, 0, n) {
      var c := SpaceDecodes(s, n);
    }
    if c: nat :| IsScalar(c) && IsSpace(c) && s[..n] == Encode(c) {
      SpaceEncodes(s, n, c);
    }
  }

  /** The size of the white space character a text starts with; 0 if there is none. */
  function LeadingSpace(s: Bytes): (n: nat)
    ensures n <= |s| && (n > 0 ==> SpaceAt(s, 0, n))
  {
    if SpaceAt(s, 0, 1) then 1 else if SpaceAt(s, 0, 2) then 2 else if SpaceAt(s, 0, 3) then 3 else 0
  }

  function TrailingSpace(s: Bytes): (n: nat)
    ensures n <= |s| && (n > 0 ==> SpaceAt(s, |s| - n, n))
  {
    if |s| >= 1 && SpaceAt(s, |s| - 1, 1) then 1
    else if |s| >= 2 && SpaceAt(s, |s| - 2, 2) then 2
    else if |s| >= 3 && SpaceAt(s, |s| - 3, 3) then 3
    else 0
  }

  function TrimLeft(s: Bytes): Bytes
    decreases |s|
  {
    if LeadingSpace(s) == 0 then s else TrimLeft(s[LeadingSpace(s)..])
  }

  function TrimRight(s: Bytes): Bytes
    decreases |s|
  {
    if TrailingSpace(s) == 0 then s else TrimRight(s[..|s| - TrailingSpace(s)])
  }

  /** bytes.TrimSpace. */
  function TrimSpace(s: Bytes): Bytes {
    TrimRight(TrimLeft(s))
  }

  function ProgramFormat<M>(parse: Bytes -> Option<M>): Format<M> {
    Format(READ_BUFFER, MAX_FRAME_BYTES, TrimSpace, parse)
  }

  // What is trimmed away from the right altogether starts with white space.
  lemma {:induction false} TrimmedStartsBlank(s: Bytes)
    requires s != [] && TrimRight(s) == []
    ensures LeadingSpace(s) > 0
    decreases |s|
  {
    var rest := s[..|s| - TrailingSpace(s)];
    if rest != [] {
      TrimmedStartsBlank(rest);
      assert SpaceAt(s, 0, LeadingSpace(rest));
    }
  }

  lemma {:induction false} TrimLeftEnds(s: Bytes)
    ensures LeadingSpace(TrimLeft(s)) == 0
    decreases |s|
  {
    if LeadingSpace(s) > 0 {
      TrimLeftEnds(s[LeadingSpace(s)..]);
    }
  }

  lemma {:induction false} TrimRightSplits(s: Bytes)
    ensures var t := TrimRight(s);
      && t <= s && TrailingSpace(t) == 0
      && (LeadingSpace(s) == 0 ==> LeadingSpace(t) == 0)
    decreases |s|
  {
    var n := TrailingSpace(s);
    if n > 0 {
      var rest := s[..|s| - n];
      TrimRightSplits(rest);
      if LeadingSpace(rest) > 0 {
        assert SpaceAt(s, 0, LeadingSpace(rest));
      }
    }
  }

  lemma {:induction false} TrimLeftSplits(s: Bytes)
    ensures |TrimLeft(s)| <= |s| && TrimLeft(s) == s[|s| - |TrimLeft(s)|..]
    ensures Between(s, |s| - |TrimLeft(s)|)
    decreases |s|
  {
    var n := LeadingSpace(s);
    if n > 0 {
      TrimLeftSplits(s[n..]);
    }
  }

  /** What ends in white space characters only. */
  predicate BlankEnd(s: Bytes, n: nat)
    requires n <= |s|
    decreases n
  {
    n == 0 || (0 < TrailingSpace(s) <= n && BlankEnd(s[..|s| - TrailingSpace(s)], n - TrailingSpace(s)))
  }

  lemma {:induction false} TrimRightEnds(s: Bytes)
    ensures |TrimRight(s)| <= |s| && BlankEnd(s, |s| - |TrimRight(s)|)
    decreases |s|
  {
    var n := TrailingSpace(s);
    if n > 0 {
      TrimRightEnds(s[..|s| - n]);
    }
  }

  /** `t` is `s` without white space characters at its end, as many as there are. */
  predicate RightTrimmed(s: Bytes, t: Bytes) {
    t <= s && BlankEnd(s, |s| - |t|) && TrailingSpace(t) == 0
  }

  /** `t` is `s` without white space characters at its start, as many as there are. */
  predicate LeftTrimmed(s: Bytes, t: Bytes) {
    |t| <= |s| && t == s[|s| - |t|..] && Between(s, |s| - |t|) && LeadingSpace(t) == 0
  }

  lemma TrimmedLeft(s: Bytes)
    ensures LeftTrimmed(s, TrimLeft(s))
  {
    TrimLeftSplits(s);
    TrimLeftEnds(s);
  }

  lemma TrimmedRight(s: Bytes)
    ensures RightTrimmed(s, TrimRight(s)) && (LeadingSpace(s) == 0 ==> LeadingSpace(TrimRight(s)) == 0)
  {
    TrimRightSplits(s);
    TrimRightEnds(s);
  }

  /**
   Trimming takes white space characters off the left and then off the right end, as many as there
   are, and leaves what is between them as it is.
   */
  lemma TrimSplits(s: Bytes) returns (left: Bytes)
    ensures LeftTrimmed(s, left) && RightTrimmed(left, TrimSpace(s)) && LeadingSpace(TrimSpace(s)) == 0
  {
    left := TrimLeft(s);
    TrimmedLeft(s);
    TrimmedRight(left);
  }

  /** Nothing but white space. */
  predicate Blank(s: Bytes)
    decreases |s|
  {
    s == [] || (LeadingSpace(s) > 0 && Blank(s[LeadingSpace(s)..]))
  }

  lemma {:induction false} BlankTrimsLeft(s: Bytes)
    ensures Blank(s) <==> TrimLeft(s) == []
    decreases |s|
  {
    if LeadingSpace(s) > 0 {
      BlankTrimsLeft(s[LeadingSpace(s)..]);
    }
  }

  /** Blank texts are those of which trimming leaves nothing. */
  lemma BlankIsTrimmed(s: Bytes)
    ensures TrimSpace(s) == [] <==> Blank(s)
  {
    BlankTrimsLeft(s);
    TrimLeftEnds(s);
    if TrimSpace(s) == [] && TrimLeft(s) != [] {
      TrimmedStartsBlank(TrimLeft(s));
    }
  }

  /** Whether a blank text can be cut at n without cutting through a character. */
  predicate Between(s: Bytes, n: nat)
    requires n <= |s|
    decreases |s|
  {
    n == 0 || (0 < LeadingSpace(s) <= n && Between(s[LeadingSpace(s)..], n - LeadingSpace(s)))
  }

  lemma StartOfRest(s: Bytes, k: nat, n: nat)
    requires k <= n <= |s|
    ensures s[..n][k..] == s[k..][..n - k]
  {
  }

  lemma {:induction false} BlankStart(s: Bytes, n: nat)
    requires Blank(s) && n <= |s|
    ensures Blank(s[..n]) <==> Between(s, n)
    decreases |s|
  {
    if n > 0 {
      var k := LeadingSpace(s);
      if k <= n {
        StartOfRest(s, k, n);
        assert LeadingSpace(s[..n]) == k;
        BlankStart(s[k..], n - k);
      } else {
        assert LeadingSpace(s[..n]) == 0;
      }
    }
  }

  // Blank up to the limit and not beyond it, or blank and cut within a character.
  predicate MisleadingLine(line: Bytes) {
    && |line| > MAX_FRAME_BYTES
    && if Blank(line) then !Between(line, MAX_FRAME_BYTES) else Blank(line[..MAX_FRAME_BYTES])
  }

  /** In the program every line yields what it should, but for those misleading ones. */
  lemma ProgramYieldsExpectedExactly<M>(parse: Bytes -> Option<M>, line: Bytes)
    ensures OutcomeOf(ProgramFormat(parse), line) == Expected(ProgramFormat(parse), line) <==> !MisleadingLine(line)
  {
    LineYieldsExpectedExactly(ProgramFormat(parse), line);
    if |line| > MAX_FRAME_BYTES {
      ProgramKeepsTheLimit(line);
      BlankIsTrimmed(line);
      BlankIsTrimmed(line[..MAX_FRAME_BYTES]);
      if Blank(line) {
        BlankStart(line, MAX_FRAME_BYTES);
      }
    }
  }

  function Spaces(n: nat): Bytes {
    seq(n, i => 0x20)
  }

  lemma {:induction false} BlankAfterSpaces(n: nat, rest: Bytes)
    ensures Blank(Spaces(n) + rest) <==> Blank(rest)
  {
    var s := Spaces(n) + rest;
    if n == 0 {
      assert s == rest;
    } else {
      assert s[1..] == Spaces(n - 1) + rest && LeadingSpace(s) == 1;
      BlankAfterSpaces(n - 1, rest);
    }
  }

  /** Spaces up to the limit and then a character: the line is dropped without a word. */
  lemma LongBlankHeadIsDropped<M>(parse: Bytes -> Option<M>)
    ensures var line := Spaces(MAX_FRAME_BYTES) + [0x7B];
      && OutcomeOf(ProgramFormat(parse), line) == None
      && Expected(ProgramFormat(parse), line) == Some(Malformed(MAX_FRAME_BYTES + 1))
  {
    var line := Spaces(MAX_FRAME_BYTES) + [0x7B];
    assert line[..MAX_FRAME_BYTES] == Spaces(MAX_FRAME_BYTES) + [];
    BlankAfterSpaces(MAX_FRAME_BYTES, []);
    assert !Blank([0x7B]);
    BlankAfterSpaces(MAX_FRAME_BYTES, [0x7B]);
    MisleadingOutcome(parse, line);
  }

  /** A blank line whose limit falls within a no-break space is reported. */
  lemma CutBlankLineIsReported<M>(parse: Bytes -> Option<M>)
    ensures var line := Spaces(MAX_FRAME_BYTES - 1) + [0xC2, 0xA0];
      && Expected(ProgramFormat(parse), line) == None
      && OutcomeOf(ProgramFormat(parse), line) == Some(Malformed(MAX_FRAME_BYTES + 1))
  {
    var rest: Bytes := [0xC2, 0xA0];
    var line := Spaces(MAX_FRAME_BYTES - 1) + rest;
    assert line[..MAX_FRAME_BYTES] == Spaces(MAX_FRAME_BYTES - 1) + [0xC2];
    assert rest[2..] == [] && Blank(rest);
    BlankAfterSpaces(MAX_FRAME_BYTES - 1, rest);
    assert !Blank([0xC2]);
    BlankAfterSpaces(MAX_FRAME_BYTES - 1, [0xC2]);
    MisleadingOutcome(parse, line);
  }

  lemma MisleadingOutcome<M>(parse: Bytes -> Option<M>, line: Bytes)
    requires |line| > MAX_FRAME_BYTES && Blank(line) != Blank(line[..MAX_FRAME_BYTES])
    ensures OutcomeOf(ProgramFormat(parse), line) == if Blank(line) then Some(Malformed(|line|)) else None
    ensures Expected(ProgramFormat(parse), line) == if Blank(line) then None else Some(Malformed(|line|))
  {
    ProgramKeepsTheLimit(line);
    BlankIsTrimmed(line);
    BlankIsTrimmed(line[..MAX_FRAME_BYTES]);
  }
}
