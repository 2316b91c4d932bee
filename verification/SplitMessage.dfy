/**
 Splitting a message into chunks of at most maxLen bytes, at word boundaries where there are
 any, and never within a UTF-8 sequence (section 4 of RFC 3629). None stands for the panic of
 an index out of range.
 */
module SplitMessage {
  import opened Utf8
  import opened Wrappers

  const SPACE: Byte := 0x20

  // ---- UTF-8 ----

  predicate IsTail(b: Byte) {
    0x80 <= b < 0xC0
  }

  /** utf8.RuneStart. */
  predicate RuneStart(b: Byte) {
    !IsTail(b)
  }

  predicate Tails(s: seq<Byte>, from: nat, n: nat) {
    n <= |s| && forall i :: from <= i < n ==> IsTail(s[i])
  }

  /** The size of the well-formed sequence that a string starts with; 0 if there is none. */
  function WellFormedSize(s: seq<Byte>): (n: nat)
    ensures n <= |s| && n <= 4 && Tails(s, 1, n) && (n > 0 ==> RuneStart(s[0]))
  {
    if s == [] then 0
    else if s[0] <= 0x7F then 1
    else if 0xC2 <= s[0] <= 0xDF && Tails(s, 1, 2) then 2
    else if 0xE0 <= s[0] <= 0xEF && Tails(s, 1, 3)
      && (s[0] == 0xE0 ==> s[1] >= 0xA0) && (s[0] == 0xED ==> s[1] <= 0x9F) then 3
    else if 0xF0 <= s[0] <= 0xF4 && Tails(s, 1, 4)
      && (s[0] == 0xF0 ==> s[1] >= 0x90) && (s[0] == 0xF4 ==> s[1] <= 0x8F) then 4
    else 0
  }

  /** A text starts with a well-formed sequence of n bytes exactly if those encode a character. */
  lemma WellFormedExactly(s: seq<Byte>, n: nat)
    requires 0 < n <= |s|
    ensures WellFormedSize(s) == n <==> exists c: nat :: IsScalar(c) && s[..n] == Encode(c)
  {
    if WellFormedSize(s) == n {
      var c := Decoded(s, n);
    }
    if c: nat :| IsScalar(c) && s[..n] == Encode(c) {
      EncodedBytes(c);
      assert forall i :: 0 <= i < n ==> s[i] == s[..n][i] == Encode(c)[i];
    }
  }

  lemma Decoded(s: seq<Byte>, n: nat) returns (c: nat)
    requires 0 < n <= |s| && WellFormedSize(s) == n
    ensures IsScalar(c) && s[..n] == Encode(c)
  {
    if n == 1 {
      c := s[0];
    } else if n == 2 {
      c := DecodeTwo(s[0], s[1]);
    } else if n == 3 {
      c := DecodeThree(s[0], s[1], s[2]);
    } else {
      c := DecodeFour(s[0], s[1], s[2], s[3]);
    }
  }

  /** The size utf8.DecodeRuneInString reports: 1 for an invalid sequence. */
  function RuneSize(s: seq<Byte>): (n: nat)
    requires s != []
    ensures 1 <= n <= 4 && n <= |s|
  {
    if WellFormedSize(s) > 0 then WellFormedSize(s) else 1
  }

  predicate IsUtf8(s: seq<Byte>)
    decreases |s|
  {
    s == [] || (WellFormedSize(s) > 0 && IsUtf8(s[WellFormedSize(s)..]))
  }

  /** No character takes more than n bytes. */
  predicate CharsFit(s: seq<Byte>, n: nat)
    requires IsUtf8(s)
    decreases |s|
  {
    s == [] || (WellFormedSize(s) <= n && CharsFit(s[WellFormedSize(s)..], n))
  }

  // ---- Where to cut ----

  /** The last character boundary at or before `i`; 0 if there is none but the start. */
  function Boundary(s: seq<Byte>, i: nat): (c: nat)
    requires i < |s|
    ensures c <= i && (c > 0 ==> RuneStart(s[c])) && forall j :: c < j <= i ==> IsTail(s[j])
  {
    if i == 0 || RuneStart(s[i]) then i else Boundary(s, i - 1)
  }

  /** The last space at or before `i`, but not at the start. */
  function LastSpace(s: seq<Byte>, i: nat): (c: Option<nat>)
    requires i < |s|
    ensures c.Some? ==> 0 < c.value <= i && s[c.value] == SPACE && forall j :: c.value < j <= i ==> s[j] != SPACE
    ensures c.None? ==> forall j :: 0 < j <= i ==> s[j] != SPACE
  {
    if i == 0 then None else if s[i] == SPACE then Some(i) else LastSpace(s, i - 1)
  }

  /** Where a long text is cut; a word is broken only if it has no space before it. */
  function Cut(s: seq<Byte>, maxLen: nat): (c: Option<nat>)
    requires |s| > maxLen
    ensures c.Some? ==> 0 < c.value < |s|
    ensures c.Some? ==> s[c.value] == SPACE || forall j :: 0 < j <= c.value ==> s[j] != SPACE
  {
    var boundary := Boundary(s, maxLen);
    var at := if boundary == 0 then RuneSize(s) else boundary;
    if at == |s| then None else if LastSpace(s, at).Some? then LastSpace(s, at) else Some(at)
  }

  /**
   The cut is as late as it can be: there is no space between it and the limit; and if it is not at
   a space, then no character starts between it and the limit either, and it is where one starts or,
   if none starts within the limit, behind the first.
   */
  lemma CutIsLatest(s: seq<Byte>, maxLen: nat)
    requires |s| > maxLen && Cut(s, maxLen).Some?
    ensures var c := Cut(s, maxLen).value;
      && (forall j :: c < j <= maxLen ==> s[j] != SPACE)
      && (s[c] != SPACE ==> forall j :: c < j <= maxLen ==> 0x80 <= s[j] < 0xC0)
      && (s[c] != SPACE ==>
            (c <= maxLen && !(0x80 <= s[c] < 0xC0))
            || (c == RuneSize(s) && forall j :: 0 < j <= maxLen ==> 0x80 <= s[j] < 0xC0))
  {
    var boundary := Boundary(s, maxLen);
    assert forall j :: boundary < j <= maxLen ==> IsTail(s[j]);
  }

  // A chunk, and whether a space was dropped after it.
  datatype Chunk = Chunk(text: seq<Byte>, spaceDropped: bool)

  function Rest(s: seq<Byte>, c: nat): seq<Byte>
    requires c < |s|
  {
    if s[c] == SPACE then s[c + 1..] else s[c..]
  }

  /** The chunks of a text longer than maxLen. */
  function Chunks(s: seq<Byte>, maxLen: nat): Option<seq<Chunk>>
    decreases |s|
  {
    if s == [] then Some([])
    else if |s| <= maxLen then Some([Chunk(s, false)])
    else
      var c := Cut(s, maxLen);
      if c.None? then None
      else
        var more := Chunks(Rest(s, c.value), maxLen);
        if more.None? then None else Some([Chunk(s[..c.value], s[c.value] == SPACE)] + more.value)
  }

  function Split(s: seq<Byte>, maxLen: int): Option<seq<Chunk>> {
    if maxLen <= 0 || |s| <= maxLen then Some([Chunk(s, false)]) else Chunks(s, maxLen)
  }

  function Texts(chunks: seq<Chunk>): (t: seq<seq<Byte>>)
    ensures |t| == |chunks| && forall i :: 0 <= i < |t| ==> t[i] == chunks[i].text
  {
    seq(|chunks|, i requires 0 <= i < |chunks| => chunks[i].text)
  }

  method FindCut(s: seq<Byte>, maxLen: nat) returns (c: Option<nat>)
    requires |s| > maxLen
    ensures c == Cut(s, maxLen)
  {
    var cutAt := maxLen;
    while cutAt > 0 && !RuneStart(s[cutAt])
      invariant 0 <= cutAt <= maxLen && Boundary(s, cutAt) == Boundary(s, maxLen)
    {
      cutAt := cutAt - 1;
    }
    if cutAt == 0 {
      cutAt := RuneSize(s);
    }
    if cutAt >= |s| {
      return None;
    }
    var i := cutAt;
    while i > 0
      invariant 0 <= i <= cutAt && LastSpace(s, i) == LastSpace(s, cutAt)
    {
      if s[i] == SPACE {
        return Some(i);
      }
      i := i - 1;
    }
    return Some(cutAt);
  }

  function Onto(chunks: seq<Chunk>, more: Option<seq<Chunk>>): Option<seq<Chunk>> {
    if more.None? then None else Some(chunks + more.value)
  }

  lemma OntoNothing(more: Option<seq<Chunk>>)
    ensures Onto([], more) == more
  {
    if more.Some? {
      assert [] + more.value == more.value;
    }
  }

  // Cutting one chunk off leaves the same chunks in all.
  lemma OntoNext(chunks: seq<Chunk>, s: seq<Byte>, maxLen: nat)
    requires |s| > maxLen && Cut(s, maxLen).Some?
    ensures var c := Cut(s, maxLen).value;
      Onto(chunks, Chunks(s, maxLen)) == Onto(chunks + [Chunk(s[..c], s[c] == SPACE)], Chunks(Rest(s, c), maxLen))
  {
    var c := Cut(s, maxLen).value;
    var more := Chunks(Rest(s, c), maxLen);
    if more.Some? {
      assert chunks + ([Chunk(s[..c], s[c] == SPACE)] + more.value) ==
        chunks + [Chunk(s[..c], s[c] == SPACE)] + more.value;
    }
  }

  lemma TextsMore(chunks: seq<Chunk>, c: Chunk)
    ensures Texts(chunks + [c]) == Texts(chunks) + [c.text]
  {
  }

  method SplitLong(message: seq<Byte>, maxLen: nat) returns (parts: Option<seq<seq<Byte>>>, ghost chunks: seq<Chunk>)
    requires maxLen > 0
    ensures parts.None? ==> Chunks(message, maxLen) == None
    ensures parts.Some? ==> Chunks(message, maxLen) == Some(chunks) && parts.value == Texts(chunks)
  {
    var out: seq<seq<Byte>> := [];
    var content := message;
    chunks := [];
    OntoNothing(Chunks(message, maxLen));
    while |content| > 0
      invariant out == Texts(chunks)
      invariant Chunks(message, maxLen) == Onto(chunks, Chunks(content, maxLen))
      decreases |content|
    {
      if |content| <= maxLen {
        TextsMore(chunks, Chunk(content, false));
        out, chunks := out + [content], chunks + [Chunk(content, false)];
        return Some(out), chunks;
      }
      var cutAt := FindCut(content, maxLen);
      if cutAt.None? {
        return None, [];
      }
      var c := cutAt.value;
      OntoNext(chunks, content, maxLen);
      TextsMore(chunks, Chunk(content[..c], content[c] == SPACE));
      out, chunks := out + [content[..c]], chunks + [Chunk(content[..c], content[c] == SPACE)];
      content := content[c..];
      if |content| > 0 && content[0] == SPACE {
        content := content[1..];
      }
    }
    assert content == [] && chunks + [] == chunks;
    return Some(out), chunks;
  }

  method SplitMessage(message: seq<Byte>, maxLen: int) returns (parts: Option<seq<seq<Byte>>>)
    ensures var chunks := Split(message, maxLen);
      parts == if chunks.None? then None else Some(Texts(chunks.value))
  {
    if maxLen <= 0 || |message| <= maxLen {
      assert Texts([Chunk(message, false)]) == [message];
      return Some([message]);
    }
    ghost var chunks;
    parts, chunks := SplitLong(message, maxLen);
  }

  // ---- What the chunks are ----

  /** The chunks with the dropped spaces put back. */
  function Joined(chunks: seq<Chunk>): seq<Byte> {
    if chunks == [] then []
    else chunks[0].text + (if chunks[0].spaceDropped then [SPACE] else []) + Joined(chunks[1..])
  }

  lemma JoinedOne(s: seq<Byte>)
    ensures Joined([Chunk(s, false)]) == s
  {
    assert Joined([Chunk(s, false)]) == s + [] + Joined([]);
  }

  lemma JoinedFirst(first: Chunk, more: seq<Chunk>)
    ensures Joined([first] + more) == first.text + (if first.spaceDropped then [SPACE] else []) + Joined(more)
  {
    assert ([first] + more)[0] == first && ([first] + more)[1..] == more;
  }

  lemma CutAndRest(s: seq<Byte>, c: nat)
    requires c < |s|
    ensures s == s[..c] + (if s[c] == SPACE then [SPACE] else []) + Rest(s, c)
  {
  }

  lemma {:induction false} ChunksRebuild(s: seq<Byte>, maxLen: nat)
    requires Chunks(s, maxLen).Some?
    ensures Joined(Chunks(s, maxLen).value) == s
    decreases |s|
  {
    if |s| > maxLen {
      var c := Cut(s, maxLen).value;
      ChunksRebuild(Rest(s, c), maxLen);
      JoinedFirst(Chunk(s[..c], s[c] == SPACE), Chunks(Rest(s, c), maxLen).value);
      CutAndRest(s, c);
    } else if s != [] {
      JoinedOne(s);
    }
  }

  /** Putting the dropped spaces back rebuilds the message, whatever its bytes. */
  lemma SplitRebuilds(s: seq<Byte>, maxLen: int)
    requires Split(s, maxLen).Some?
    ensures Joined(Split(s, maxLen).value) == s
  {
    if maxLen <= 0 || |s| <= maxLen {
      JoinedOne(s);
    } else {
      ChunksRebuild(s, maxLen);
    }
  }

  /** A space at a cut is always dropped: no chunk follows another directly with a space. */
  predicate SpacesDropped(chunks: seq<Chunk>) {
    forall k :: 0 <= k < |chunks| - 1 && !chunks[k].spaceDropped ==>
      chunks[k + 1].text != [] && chunks[k + 1].text[0] != SPACE
  }

  lemma {:induction false} ChunksDropSpaces(s: seq<Byte>, maxLen: nat)
    requires Chunks(s, maxLen).Some?
    ensures SpacesDropped(Chunks(s, maxLen).value)
    ensures s != [] ==> var chunks := Chunks(s, maxLen).value;
      chunks != [] && chunks[0].text != [] && chunks[0].text[0] == s[0]
    decreases |s|
  {
    if |s| > maxLen {
      var c := Cut(s, maxLen).value;
      ChunksDropSpaces(Rest(s, c), maxLen);
      var more := Chunks(Rest(s, c), maxLen).value;
      var all := [Chunk(s[..c], s[c] == SPACE)] + more;
      assert forall k :: 1 <= k < |all| ==> all[k] == more[k - 1];
    }
  }

  lemma SplitDropsSpaces(s: seq<Byte>, maxLen: int)
    requires Split(s, maxLen).Some?
    ensures SpacesDropped(Split(s, maxLen).value)
  {
    if maxLen > 0 {
      ChunksDropSpaces(s, maxLen);
    }
  }

  /** Every chunk is a non-empty text of at most maxLen bytes. */
  predicate WithinLimit(chunks: seq<Chunk>, maxLen: nat) {
    forall i :: 0 <= i < |chunks| ==> 0 < |chunks[i].text| <= maxLen
  }

  lemma {:induction false} ChunksWithinLimit(s: seq<Byte>, maxLen: nat)
    requires maxLen >= 4
    ensures Chunks(s, maxLen).Some? && WithinLimit(Chunks(s, maxLen).value, maxLen)
    decreases |s|
  {
    if |s| > maxLen {
      ChunksWithinLimit(Rest(s, Cut(s, maxLen).value), maxLen);
    }
  }

  /** From 4 bytes up, every message is split without a panic into chunks within the limit. */
  lemma SplitWithinLimit(s: seq<Byte>, maxLen: int)
    requires maxLen >= 4 && s != []
    ensures Split(s, maxLen).Some? && WithinLimit(Split(s, maxLen).value, maxLen)
  {
    ChunksWithinLimit(s, maxLen);
  }

  // ---- Characters stay whole ----

  // The size depends only on the bytes of the sequence.
  lemma SameStart(s: seq<Byte>, t: seq<Byte>)
    requires t <= s && 0 < WellFormedSize(s) <= |t|
    ensures WellFormedSize(t) == WellFormedSize(s)
  {
    assert forall i :: 0 <= i < |t| ==> t[i] == s[i];
  }

  lemma CutSlices(s: seq<Byte>, n: nat, c: nat)
    requires n <= c <= |s|
    ensures s[n..][c - n..] == s[c..] && s[n..][..c - n] == s[..c][n..]
  {
  }

  /** Cut at the start of a character, valid UTF-8 falls into two valid halves. */
  lemma {:induction false} CutAtStart(s: seq<Byte>, c: nat)
    requires IsUtf8(s) && c < |s| && RuneStart(s[c])
    ensures IsUtf8(s[..c]) && IsUtf8(s[c..])
    decreases |s|
  {
    if c == 0 {
      assert s[0..] == s;
    } else {
      var n := WellFormedSize(s);
      assert n <= c;
      CutAtStart(s[n..], c - n);
      CutSlices(s, n, c);
      SameStart(s, s[..c]);
    }
  }

  lemma CutsAtStart(s: seq<Byte>, maxLen: nat)
    requires IsUtf8(s) && |s| > maxLen >= 1 && Cut(s, maxLen).Some?
    ensures RuneStart(s[Cut(s, maxLen).value])
  {
    if Boundary(s, maxLen) == 0 && LastSpace(s, RuneSize(s)).None? {
      NextStarts(s);
    }
  }

  lemma NextStarts(s: seq<Byte>)
    requires IsUtf8(s) && s != [] && WellFormedSize(s) < |s|
    ensures RuneStart(s[WellFormedSize(s)])
  {
    assert s[WellFormedSize(s)] == s[WellFormedSize(s)..][0];
  }

  lemma RestIsUtf8(s: seq<Byte>, c: nat)
    requires IsUtf8(s) && c < |s| && RuneStart(s[c])
    ensures IsUtf8(s[..c]) && IsUtf8(Rest(s, c))
  {
    CutAtStart(s, c);
    if s[c] == SPACE {
      assert s[c..][1..] == s[c + 1..] && WellFormedSize(s[c..]) == 1;
    }
  }

  predicate AllUtf8(chunks: seq<Chunk>) {
    forall i :: 0 <= i < |chunks| ==> IsUtf8(chunks[i].text)
  }

  lemma {:induction false} ChunksAreUtf8(s: seq<Byte>, maxLen: nat)
    requires IsUtf8(s) && maxLen >= 1 && Chunks(s, maxLen).Some?
    ensures AllUtf8(Chunks(s, maxLen).value)
    decreases |s|
  {
    if |s| > maxLen {
      var c := Cut(s, maxLen).value;
      CutsAtStart(s, maxLen);
      RestIsUtf8(s, c);
      ChunksAreUtf8(Rest(s, c), maxLen);
    }
  }

  /** The chunks of valid UTF-8 are valid UTF-8. */
  lemma SplitKeepsCharactersWhole(s: seq<Byte>, maxLen: int)
    requires IsUtf8(s) && Split(s, maxLen).Some?
    ensures AllUtf8(Split(s, maxLen).value)
  {
    if maxLen >= 1 {
      ChunksAreUtf8(s, maxLen);
    }
  }

  // ---- Limits smaller than a character ----

  /** No character takes more than n bytes, wherever in the text it begins. */
  predicate NoneTooWide(s: seq<Byte>, n: nat) {
    forall p :: 0 <= p < |s| ==> WellFormedSize(s[p..]) <= n
  }

  lemma TooWideAt(s: seq<Byte>, p: nat, n: nat)
    requires p < |s| && WellFormedSize(s[p..]) > n
    ensures !NoneTooWide(s, n)
  {
  }

  // Of two ends of a text the longer one holds the shorter one's characters.
  lemma NoneTooWideInEnd(s: seq<Byte>, from: nat, n: nat)
    requires from <= |s| && NoneTooWide(s, n)
    ensures NoneTooWide(s[from..], n)
  {
    forall q | 0 <= q < |s| - from
      ensures WellFormedSize(s[from..][q..]) <= n
    {
      assert s[from..][q..] == s[from + q..];
    }
  }

  // No character begins within another.
  lemma NothingWithin(s: seq<Byte>, p: nat)
    requires 0 < p < WellFormedSize(s)
    ensures WellFormedSize(s[p..]) == 0
  {
    assert IsTail(s[p]) && s[p..][0] == s[p];
  }

  lemma NoneTooWideFirst(s: seq<Byte>, n: nat)
    requires s != [] && 0 < WellFormedSize(s) <= n && NoneTooWide(s[WellFormedSize(s)..], n)
    ensures NoneTooWide(s, n)
  {
    var w := WellFormedSize(s);
    forall p | 0 <= p < |s|
      ensures WellFormedSize(s[p..]) <= n
    {
      if p == 0 {
        assert s[p..] == s;
      } else if p < w {
        NothingWithin(s, p);
      } else {
        assert s[w..][p - w..] == s[p..];
      }
    }
  }

  /** For valid UTF-8 that means that its characters fit. */
  lemma {:induction false} FitsExactly(s: seq<Byte>, n: nat)
    requires IsUtf8(s) && n >= 1
    ensures CharsFit(s, n) <==> NoneTooWide(s, n)
    decreases |s|
  {
    if s != [] {
      var w := WellFormedSize(s);
      FitsExactly(s[w..], n);
      if NoneTooWide(s, n) {
        assert s[0..] == s;
        NoneTooWideInEnd(s, w, n);
      } else if w <= n && NoneTooWide(s[w..], n) {
        NoneTooWideFirst(s, n);
      }
    }
  }

  // Where a character that is too wide begins, no cut goes into it and none goes past it.
  lemma CutSparesWide(s: seq<Byte>, maxLen: nat, p: nat)
    requires |s| > maxLen >= 1 && Cut(s, maxLen).Some? && p < |s| && WellFormedSize(s[p..]) > maxLen
    ensures p == 0 ==> Cut(s, maxLen).value > maxLen
    ensures p > 0 ==> p >= |s| - |Rest(s, Cut(s, maxLen).value)|
  {
    var w, c := WellFormedSize(s[p..]), Cut(s, maxLen).value;
    var wide := s[p..];
    assert s[p] == wide[0] && s[p] >= 0xC2;
    assert forall i :: p < i < p + w ==> s[i] == wide[i - p] && IsTail(s[i]);
    if p == 0 {
      assert s == wide;
      assert Boundary(s, maxLen) == 0;
    } else {
      assert c <= p;
    }
  }

  // A cut past the limit is behind a character that is too wide.
  lemma LongCutIsWide(s: seq<Byte>, maxLen: nat)
    requires |s| > maxLen >= 1 && Cut(s, maxLen).Some? && Cut(s, maxLen).value > maxLen
    ensures WellFormedSize(s) > maxLen
  {
  }

  lemma WideIsBehindCut(s: seq<Byte>, maxLen: nat, p: nat)
    requires |s| > maxLen >= 1 && Cut(s, maxLen).Some? && Cut(s, maxLen).value <= maxLen
    requires p < |s| && WellFormedSize(s[p..]) > maxLen
    ensures !NoneTooWide(Rest(s, Cut(s, maxLen).value), maxLen)
  {
    var rest := Rest(s, Cut(s, maxLen).value);
    CutSparesWide(s, maxLen, p);
    var q := p - (|s| - |rest|);
    assert rest[q..] == s[p..];
    TooWideAt(rest, q, maxLen);
  }

  lemma CutKeepsWide(s: seq<Byte>, maxLen: nat)
    requires |s| > maxLen >= 1 && Cut(s, maxLen).Some?
    ensures NoneTooWide(s, maxLen) <==>
      Cut(s, maxLen).value <= maxLen && NoneTooWide(Rest(s, Cut(s, maxLen).value), maxLen)
  {
    var c := Cut(s, maxLen).value;
    if NoneTooWide(s, maxLen) {
      assert s[0..] == s;
      if c > maxLen {
        LongCutIsWide(s, maxLen);
      }
      NoneTooWideInEnd(s, |s| - |Rest(s, c)|, maxLen);
    } else if c <= maxLen {
      var p :| 0 <= p < |s| && WellFormedSize(s[p..]) > maxLen;
      WideIsBehindCut(s, maxLen, p);
    }
  }

  lemma {:induction false} ChunksWithinLimitExactly(s: seq<Byte>, maxLen: nat)
    requires maxLen >= 1
    ensures Chunks(s, maxLen).Some? && WithinLimit(Chunks(s, maxLen).value, maxLen) <==> NoneTooWide(s, maxLen)
    decreases |s|
  {
    if |s| > maxLen {
      if Cut(s, maxLen).None? {
        assert s[0..] == s;
        TooWideAt(s, 0, maxLen);
      } else {
        var c := Cut(s, maxLen).value;
        CutKeepsWide(s, maxLen);
        ChunksWithinLimitExactly(Rest(s, c), maxLen);
        var more := Chunks(Rest(s, c), maxLen);
        if more.Some? {
          FirstAndMore(Chunk(s[..c], s[c] == SPACE), more.value, maxLen);
        }
      }
    }
  }

  lemma FirstAndMore(first: Chunk, more: seq<Chunk>, maxLen: nat)
    ensures WithinLimit([first] + more, maxLen) <==> 0 < |first.text| <= maxLen && WithinLimit(more, maxLen)
  {
    var all := [first] + more;
    assert all[0] == first && forall i :: 0 <= i < |more| ==> all[i + 1] == more[i];
  }

  /**
   For any bytes and any positive limit: there is no panic and every chunk is within the limit
   exactly if no character takes more bytes than that.
   */
  lemma SplitWithinLimitExactly(s: seq<Byte>, maxLen: int)
    requires s != [] && maxLen >= 1
    ensures Split(s, maxLen).Some? && WithinLimit(Split(s, maxLen).value, maxLen) <==> NoneTooWide(s, maxLen)
  {
    ChunksWithinLimitExactly(s, maxLen);
  }

  // ---- When it panics ----

  predicate LastIs(s: seq<Byte>, w: nat) {
    w <= |s| && WellFormedSize(s[|s| - w..]) == w
  }

  /** The text ends in a character of more than n bytes. */
  ghost predicate EndsTooWide(s: seq<Byte>, n: nat) {
    exists w: nat :: n < w && LastIs(s, w)
  }

  // The last character is that of every end of the text that holds it whole.
  lemma LastOfEnd(s: seq<Byte>, from: nat, w: nat)
    requires from <= |s| && w <= |s| - from
    ensures LastIs(s, w) <==> LastIs(s[from..], w)
  {
    assert s[from..][|s| - from - w..] == s[|s| - w..];
  }

  lemma LastIsKept(s: seq<Byte>, maxLen: nat)
    requires |s| > maxLen >= 1 && Cut(s, maxLen).Some?
    ensures EndsTooWide(s, maxLen) <==> EndsTooWide(Rest(s, Cut(s, maxLen).value), maxLen)
  {
    var rest := Rest(s, Cut(s, maxLen).value);
    var from := |s| - |rest|;
    assert rest == s[from..];
    if EndsTooWide(s, maxLen) {
      var w: nat :| maxLen < w && LastIs(s, w);
      CutSparesWide(s, maxLen, |s| - w);
      LastOfEnd(s, from, w);
    }
    if EndsTooWide(rest, maxLen) {
      var w: nat :| maxLen < w && LastIs(rest, w);
      LastOfEnd(s, from, w);
    }
  }

  lemma {:induction false} ChunksPanicExactly(s: seq<Byte>, maxLen: nat)
    requires maxLen >= 1
    ensures Chunks(s, maxLen).None? <==> EndsTooWide(s, maxLen)
    decreases |s|
  {
    if |s| > maxLen {
      var c := Cut(s, maxLen);
      if c.None? {
        assert s[|s| - |s|..] == s;
        assert LastIs(s, |s|);
      } else {
        LastIsKept(s, maxLen);
        ChunksPanicExactly(Rest(s, c.value), maxLen);
      }
    }
  }

  /** It panics exactly if the message ends in a character that takes more bytes than the limit. */
  lemma SplitPanicsExactly(s: seq<Byte>, maxLen: int)
    ensures Split(s, maxLen).None? <==> maxLen >= 1 && EndsTooWide(s, maxLen)
  {
    if maxLen >= 1 {
      ChunksPanicExactly(s, maxLen);
    }
  }

  /** So it does on one two-byte character and a limit of one byte. */
  lemma SplitPanics()
    ensures Split([0xC3, 0xA9], 1) == None
  {
    var s: seq<Byte> := [0xC3, 0xA9];
    assert IsTail(s[1]);
    assert WellFormedSize(s) == 2;
  }
}
