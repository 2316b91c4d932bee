/**
 The buffer that feeds memory consolidation. Messages of a channel are buffered as they arrive
 and handed out in batches, oldest first; a mark remembers the newest message handed out.
 */
module Consolidation {
  import opened Wrappers
  import opened Snowflake

  // Nil is a missing message (a nil pointer).
  datatype Message = Nil | Message(id: string, content: string)

  datatype Channel = Channel(buffer: seq<Message>, mark: string)

  // ---- Chronological order ----

  predicate HasNumber(m: Message) {
    m != Nil && ParseUint(m.id).Some?
  }

  function Num(m: Message): nat {
    if HasNumber(m) then ParseUint(m.id).value else 0
  }

  predicate HaveNumbers(ms: seq<Message>) {
    forall i :: 0 <= i < |ms| ==> HasNumber(ms[i])
  }

  predicate Ordered(ms: seq<Message>) {
    forall i, j :: 0 <= i < j < |ms| ==> Num(ms[i]) <= Num(ms[j])
  }

  function IdOf(m: Message): string {
    if m == Nil then "" else m.id
  }

  function Ids(ms: seq<Message>): seq<string> {
    seq(|ms|, i requires 0 <= i < |ms| => IdOf(ms[i]))
  }

  /** How often an ID occurs. */
  function Times(id: string, ms: seq<Message>): nat {
    Wrappers.Times(Ids(ms), id)
  }

  lemma TimesConcat(id: string, a: seq<Message>, b: seq<Message>)
    ensures Times(id, a + b) == Times(id, a) + Times(id, b)
  {
    assert Ids(a + b) == Ids(a) + Ids(b);
    Wrappers.TimesConcat(Ids(a), Ids(b), id);
  }

  lemma TimesLast(id: string, ms: seq<Message>)
    requires ms != []
    ensures Times(id, ms) == Times(id, ms[..|ms| - 1]) + if IdOf(ms[|ms| - 1]) == id then 1 else 0
  {
    assert Ids(ms)[..|ms| - 1] == Ids(ms[..|ms| - 1]);
  }

  /** Adds a message to an ordered list, behind those of the same number. */
  function Insert(ms: seq<Message>, m: Message): (r: seq<Message>)
    ensures |r| == |ms| + 1
  {
    if ms == [] || Num(ms[|ms| - 1]) <= Num(m) then ms + [m] else Insert(ms[..|ms| - 1], m) + [ms[|ms| - 1]]
  }

  /** slices.SortStableFunc by snowflake number. */
  function Sorted(ms: seq<Message>): (r: seq<Message>)
    ensures |r| == |ms|
  {
    if ms == [] then [] else Insert(Sorted(ms[..|ms| - 1]), ms[|ms| - 1])
  }

  /** One missing message, or one whose ID is not a number, and the order is kept. */
  function Chronological(ms: seq<Message>): (r: seq<Message>)
    ensures |r| == |ms|
  {
    if HaveNumbers(ms) then Sorted(ms) else ms
  }

  method SortChronological(ms: seq<Message>) returns (r: seq<Message>)
    ensures r == Chronological(ms)
    ensures (exists i :: 0 <= i < |ms| && (ms[i] == Nil || ParseUint(ms[i].id) == None)) ==> r == ms
  {
    for i := 0 to |ms|
      invariant forall k :: 0 <= k < i ==> HasNumber(ms[k])
    {
      if ms[i] == Nil {
        return ms;
      }
      if ParseUint(ms[i].id) == None {
        return ms;
      }
    }
    r := Sorted(ms);
  }

  // ---- What the operations do to one channel ----

  predicate Fresh(m: Message, mark: string) {
    m != Nil && (mark == "" || SnowflakeAfter(m.id, mark))
  }

  /** The messages newer than the mark. */
  function NewerThan(ms: seq<Message>, mark: string): (r: seq<Message>)
    ensures forall m :: m in r <==> m in ms && Fresh(m, mark)
  {
    if ms == [] then []
    else
      var rest, last := NewerThan(ms[..|ms| - 1], mark), ms[|ms| - 1];
      assert ms == ms[..|ms| - 1] + [last];
      if Fresh(last, mark) then rest + [last] else rest
  }

  function Marked(mark: string, ms: seq<Message>): string {
    if ms == [] then mark
    else
      var cur, last := Marked(mark, ms[..|ms| - 1]), ms[|ms| - 1];
      if last != Nil && (cur == "" || SnowflakeAfter(last.id, cur)) then last.id else cur
  }

  function First(ms: seq<Message>, max: int): (r: seq<Message>)
    ensures r <= ms
  {
    if max > 0 && |ms| > max then ms[..max] else ms
  }

  predicate Accepts(c: Channel, m: Message) {
    && m != Nil
    && (c.mark == "" || SnowflakeAfter(m.id, c.mark))
    && forall b :: b in c.buffer ==> b == Nil || b.id != m.id
  }

  function Overflow(length: nat, interval: nat): nat {
    if length > interval * 2 then length - interval * 2 else 0
  }

  function AfterAdd(c: Channel, m: Message, interval: nat): Channel {
    if Accepts(c, m) then
      var all := c.buffer + [m];
      c.(buffer := all[Overflow(|all|, interval)..])
    else c
  }

  function Oldest(c: Channel, max: int): seq<Message> {
    First(Chronological(c.buffer), max)
  }

  function AfterTake(c: Channel, max: int): Channel {
    var batch := Oldest(c, max);
    Channel(Chronological(c.buffer)[|batch|..], Marked(c.mark, batch))
  }

  function SelectBatch(c: Channel, fetched: seq<Message>, max: int): seq<Message> {
    First(NewerThan(Chronological(fetched), c.mark), max)
  }

  function AfterSelect(c: Channel, fetched: seq<Message>, max: int): Channel {
    c.(mark := Marked(c.mark, SelectBatch(c, fetched, max)))
  }

  function IndexOf(ms: seq<Message>, id: string): (i: nat)
    ensures i <= |ms| && forall k :: 0 <= k < i ==> ms[k] == Nil || ms[k].id != id
    ensures i < |ms| ==> ms[i] != Nil && ms[i].id == id
  {
    if ms == [] || (ms[0] != Nil && ms[0].id == id) then 0 else 1 + IndexOf(ms[1..], id)
  }

  /** Where messages with the ID are. */
  ghost function BufferedAt(ms: seq<Message>, id: string): set<nat> {
    set k: nat | k < |ms| && ms[k] != Nil && ms[k].id == id
  }

  /** The k-th message is the first with the ID. */
  ghost predicate IsFirst(ms: seq<Message>, id: string, k: nat) {
    k in BufferedAt(ms, id) && forall j :: j in BufferedAt(ms, id) ==> k <= j
  }

  /** An edit changes the text of a buffered message, and nothing else. */
  function Edited(ms: seq<Message>, id: string, content: string): seq<Message> {
    var i := IndexOf(ms, id);
    if i < |ms| then ms[i := Message(id, content)] else ms
  }

  /** A new message that is above the mark and not buffered comes last; of all, the newest 2 * interval stay. */
  ghost predicate AddsToBuffer(c: Channel, m: Message, interval: nat, now: Channel) {
    && now.mark == c.mark
    && if m != Nil && (c.mark == "" || SnowflakeAfter(m.id, c.mark)) && BufferedAt(c.buffer, m.id) == {} then
         var n := if |c.buffer| + 1 > 2 * interval then 2 * interval else |c.buffer| + 1;
         now.buffer == (c.buffer + [m])[|c.buffer| + 1 - n..]
       else now.buffer == c.buffer
  }

  lemma AddedExactly(c: Channel, m: Message, interval: nat)
    ensures AddsToBuffer(c, m, interval, AfterAdd(c, m, interval))
  {
    if m != Nil {
      assert forall k :: k in BufferedAt(c.buffer, m.id) ==> c.buffer[k] in c.buffer;
      assert forall b :: b in c.buffer && b != Nil && b.id == m.id ==>
        exists k :: 0 <= k < |c.buffer| && c.buffer[k] == b && k in BufferedAt(c.buffer, m.id);
    }
  }

  lemma TakenSplits(c: Channel, max: int)
    ensures Oldest(c, max) + AfterTake(c, max).buffer == Chronological(c.buffer)
    ensures |Oldest(c, max)| == if 0 < max < |c.buffer| then max else |c.buffer|
  {
  }

  class Buffers {
    var messages: map<string, seq<Message>>
    var consolidatedUpTo: map<string, string>

    constructor ()
      ensures messages == map[] && consolidatedUpTo == map[]
    {
      messages, consolidatedUpTo := map[], map[];
    }

    function Get(channel: string): Channel
      reads this
    {
      Channel(if channel in messages then messages[channel] else [],
              if channel in consolidatedUpTo then consolidatedUpTo[channel] else "")
    }

    twostate predicate OnlyChanged(channel: string)
      reads this
    {
      messages - {channel} == old(messages) - {channel}
      && consolidatedUpTo - {channel} == old(consolidatedUpTo) - {channel}
    }

    // Buffers a message and drops the oldest over the cap.
    method Append(channel: string, m: Message, interval: nat)
      modifies this`messages
      ensures var all := old(Get(channel)).buffer + [m];
        Get(channel) == old(Get(channel)).(buffer := all[Overflow(|all|, interval)..]) && OnlyChanged(channel)
    {
      messages := messages[channel := Get(channel).buffer + [m]];
      var maxBuffer := interval * 2;
      if |messages[channel]| > maxBuffer {
        messages := messages[channel := messages[channel][|messages[channel]| - maxBuffer..]];
      }
    }

    method Add(channel: string, m: Message, interval: nat)
      modifies this
      ensures Get(channel) == AfterAdd(old(Get(channel)), m, interval) && OnlyChanged(channel)
      ensures AddsToBuffer(old(Get(channel)), m, interval, Get(channel))
    {
      AddedExactly(Get(channel), m, interval);
      if m == Nil {
        return;
      }
      var c := Get(channel);
      if c.mark != "" && !SnowflakeAfter(m.id, c.mark) {
        return;
      }
      var i := |c.buffer|;
      while i > 0
        invariant 0 <= i <= |c.buffer|
        invariant forall k :: i <= k < |c.buffer| ==> c.buffer[k] == Nil || c.buffer[k].id != m.id
      {
        i := i - 1;
        if c.buffer[i] != Nil && c.buffer[i].id == m.id {
          assert c.buffer[i] in c.buffer;
          return;
        }
      }
      Append(channel, m, interval);
    }

    method UpdateContent(channel: string, id: string, content: string)
      modifies this
      ensures Get(channel) == old(Get(channel)).(buffer := Edited(old(Get(channel)).buffer, id, content))
      ensures var c, now := old(Get(channel)), Get(channel);
        && now.mark == c.mark && |now.buffer| == |c.buffer|
        && forall k :: 0 <= k < |c.buffer| ==>
             now.buffer[k] == if IsFirst(c.buffer, id, k) then Message(id, content) else c.buffer[k]
      ensures OnlyChanged(channel)
    {
      var buffer := Get(channel).buffer;
      for i := 0 to |buffer|
        invariant messages == old(messages) && consolidatedUpTo == old(consolidatedUpTo)
        invariant forall k :: 0 <= k < i ==> buffer[k] == Nil || buffer[k].id != id
      {
        if buffer[i] != Nil && buffer[i].id == id {
          messages := messages[channel := buffer[i := Message(id, content)]];
          return;
        }
      }
    }

    method MarkConsolidated(channel: string, ms: seq<Message>)
      modifies this`consolidatedUpTo
      ensures Get(channel) == old(Get(channel)).(mark := Marked(old(Get(channel)).mark, ms)) && OnlyChanged(channel)
    {
      for i := 0 to |ms|
        invariant Get(channel) == old(Get(channel)).(mark := Marked(old(Get(channel)).mark, ms[..i]))
        invariant OnlyChanged(channel)
      {
        assert ms[..i + 1][..i] == ms[..i];
        if ms[i] == Nil {
          continue;
        }
        var cur := Get(channel).mark;
        if cur == "" || SnowflakeAfter(ms[i].id, cur) {
          consolidatedUpTo := consolidatedUpTo[channel := ms[i].id];
        }
      }
      assert ms[..|ms|] == ms;
    }

    method TakeBatch(channel: string, max: int) returns (batch: seq<Message>)
      modifies this
      ensures batch == Oldest(old(Get(channel)), max)
      ensures Get(channel) == AfterTake(old(Get(channel)), max) && OnlyChanged(channel)
      ensures batch + Get(channel).buffer == Chronological(old(Get(channel)).buffer)
      ensures var n := |old(Get(channel)).buffer|; |batch| == if 0 < max < n then max else n
    {
      TakenSplits(Get(channel), max);
      batch := SortChronological(Get(channel).buffer);
      if max > 0 && |batch| > max {
        messages := messages[channel := batch[max..]];
        batch := batch[..max];
      } else {
        messages := messages - {channel};
      }
      MarkConsolidated(channel, batch);
    }

    method SelectUnconsolidated(channel: string, fetched: seq<Message>, max: int) returns (out: seq<Message>)
      modifies this
      ensures out == SelectBatch(old(Get(channel)), fetched, max)
      ensures Get(channel) == AfterSelect(old(Get(channel)), fetched, max) && OnlyChanged(channel)
      ensures Get(channel).buffer == old(Get(channel)).buffer
      ensures var newer := NewerThan(Chronological(fetched), old(Get(channel)).mark);
        out <= newer && |out| == if 0 < max < |newer| then max else |newer|
    {
      var mark := Get(channel).mark;
      var sorted := SortChronological(fetched);
      out := [];
      for i := 0 to |sorted|
        invariant out == NewerThan(sorted[..i], mark)
      {
        var m := sorted[i];
        assert sorted[..i + 1][..i] == sorted[..i];
        if m != Nil && (mark == "" || SnowflakeAfter(m.id, mark)) {
          out := out + [m];
        }
      }
      assert sorted[..|sorted|] == sorted;
      if max > 0 && |out| > max {
        out := out[..max];
      }
      MarkConsolidated(channel, out);
    }
  }

  // ---- What sorting and filtering keep ----

  lemma {:induction false} InsertMembers(ms: seq<Message>, m: Message, x: Message)
    ensures x in Insert(ms, m) <==> x in ms || x == m
  {
    if ms != [] && Num(ms[|ms| - 1]) > Num(m) {
      InsertMembers(ms[..|ms| - 1], m, x);
      assert ms == ms[..|ms| - 1] + [ms[|ms| - 1]];
    }
  }

  lemma {:induction false} InsertIsOrdered(ms: seq<Message>, m: Message)
    requires Ordered(ms)
    ensures Ordered(Insert(ms, m))
  {
    if ms != [] && Num(ms[|ms| - 1]) > Num(m) {
      var rest, last := ms[..|ms| - 1], ms[|ms| - 1];
      var r := Insert(rest, m);
      InsertIsOrdered(rest, m);
      forall i | 0 <= i < |r|
        ensures Num(r[i]) <= Num(last)
      {
        InsertMembers(rest, m, r[i]);
      }
    }
  }

  lemma {:induction false} InsertTimes(id: string, ms: seq<Message>, m: Message)
    ensures Times(id, Insert(ms, m)) == Times(id, ms) + Times(id, [m])
  {
    var r := Insert(ms, m);
    if ms != [] && Num(ms[|ms| - 1]) > Num(m) {
      InsertTimes(id, ms[..|ms| - 1], m);
      assert r[..|r| - 1] == Insert(ms[..|ms| - 1], m);
      TimesLast(id, ms);
      TimesLast(id, r);
    } else {
      TimesConcat(id, ms, [m]);
    }
  }

  lemma {:induction false} SortedIsOrdered(ms: seq<Message>)
    ensures Ordered(Sorted(ms))
  {
    if ms != [] {
      SortedIsOrdered(ms[..|ms| - 1]);
      InsertIsOrdered(Sorted(ms[..|ms| - 1]), ms[|ms| - 1]);
    }
  }

  lemma {:induction false} SortedMembers(ms: seq<Message>, x: Message)
    ensures x in Sorted(ms) <==> x in ms
  {
    if ms != [] {
      var rest, last := ms[..|ms| - 1], ms[|ms| - 1];
      SortedMembers(rest, x);
      InsertMembers(Sorted(rest), last, x);
      assert ms == rest + [last];
    }
  }

  lemma {:induction false} SortedTimes(ms: seq<Message>, id: string)
    ensures Times(id, Sorted(ms)) == Times(id, ms)
  {
    if ms != [] {
      var rest, last := ms[..|ms| - 1], ms[|ms| - 1];
      assert Times(id, ms) == Times(id, rest) + Times(id, [last]) by {
        assert ms == rest + [last];
        TimesConcat(id, rest, [last]);
      }
      assert Times(id, Sorted(ms)) == Times(id, Sorted(rest)) + Times(id, [last]) by {
        InsertTimes(id, Sorted(rest), last);
      }
      SortedTimes(rest, id);
    }
  }

  /** Sorting is by number and only rearranges. */
  lemma SortedRearranges(ms: seq<Message>, x: Message, id: string)
    ensures Ordered(Sorted(ms)) && (x in Sorted(ms) <==> x in ms) && Times(id, Sorted(ms)) == Times(id, ms)
  {
    SortedIsOrdered(ms);
    SortedMembers(ms, x);
    SortedTimes(ms, id);
  }

  predicate IsId(m: Message) {
    m != Nil && IsSnowflake(m.id)
  }

  predicate Older(a: Message, b: Message) {
    Num(a) < Num(b)
  }

  predicate Differ(a: Message, b: Message) {
    IdOf(a) != IdOf(b)
  }

  predicate Distinct(ms: seq<Message>) {
    forall i, j :: 0 <= i < j < |ms| ==> Differ(ms[i], ms[j])
  }

  predicate AreIds(ms: seq<Message>) {
    forall m :: m in ms ==> IsId(m)
  }

  /** IDs in strictly increasing order: none occurs twice. */
  predicate Increasing(ms: seq<Message>) {
    forall i, j :: 0 <= i < j < |ms| ==> Older(ms[i], ms[j])
  }

  predicate AboveMark(ms: seq<Message>, mark: string) {
    mark != "" ==> forall m :: m in ms ==> Older(Message(mark, ""), m)
  }

  lemma NumbersDiffer(a: Message, b: Message)
    requires IsId(a) && IsId(b)
    ensures Num(a) == Num(b) <==> a.id == b.id
    ensures SnowflakeAfter(a.id, b.id) <==> Older(b, a)
  {
    LessIsNumericOrder(a.id, b.id);
  }

  lemma {:induction false} TimesPositive(id: string, ms: seq<Message>)
    ensures Times(id, ms) > 0 <==> exists i :: 0 <= i < |ms| && IdOf(ms[i]) == id
  {
    if ms != [] {
      TimesPositive(id, ms[..|ms| - 1]);
      TimesLast(id, ms);
    }
  }

  lemma {:induction false} DistinctIsOnce(id: string, ms: seq<Message>)
    requires Distinct(ms)
    ensures Times(id, ms) <= 1
  {
    if ms != [] {
      var rest := ms[..|ms| - 1];
      assert forall i, j :: 0 <= i < j < |rest| ==> Differ(ms[i], ms[j]) && rest[i] == ms[i] && rest[j] == ms[j];
      assert forall i :: 0 <= i < |rest| ==> Differ(ms[i], ms[|rest|]);
      DistinctIsOnce(id, rest);
      TimesPositive(id, rest);
      TimesLast(id, ms);
    }
  }

  lemma RepeatedIsTwice(ms: seq<Message>, i: nat, j: nat)
    requires i < j < |ms| && !Differ(ms[i], ms[j])
    ensures Times(IdOf(ms[i]), ms) >= 2
  {
    var id := IdOf(ms[i]);
    assert ms == ms[..j] + ms[j..];
    TimesConcat(id, ms[..j], ms[j..]);
    TimesPositive(id, ms[..j]);
    TimesPositive(id, ms[j..]);
    assert IdOf(ms[..j][i]) == id && IdOf(ms[j..][0]) == id;
  }

  lemma SameTimesDistinct(a: seq<Message>, b: seq<Message>)
    requires Distinct(a) && forall id :: Times(id, a) == Times(id, b)
    ensures Distinct(b)
  {
    forall i, j | 0 <= i < j < |b|
      ensures Differ(b[i], b[j])
    {
      if !Differ(b[i], b[j]) {
        RepeatedIsTwice(b, i, j);
        DistinctIsOnce(IdOf(b[i]), a);
      }
    }
  }

  // Ordered messages with distinct snowflake IDs are ordered strictly.
  lemma OrderedIsIncreasing(ms: seq<Message>)
    requires AreIds(ms) && Distinct(ms) && Ordered(ms)
    ensures Increasing(ms)
  {
    forall i, j | 0 <= i < j < |ms|
      ensures Older(ms[i], ms[j])
    {
      assert ms[i] in ms && ms[j] in ms && Differ(ms[i], ms[j]);
      NumbersDiffer(ms[i], ms[j]);
    }
  }

  lemma OlderDiffers(a: Message, b: Message)
    requires Older(a, b)
    ensures Differ(a, b)
  {
  }

  lemma IdsHaveNumbers(ms: seq<Message>)
    requires AreIds(ms)
    ensures HaveNumbers(ms)
  {
    forall i | 0 <= i < |ms|
      ensures HasNumber(ms[i])
    {
      assert ms[i] in ms && IsId(ms[i]);
    }
  }

  /** Sorting messages with distinct snowflake IDs orders them strictly. */
  lemma SortedIsIncreasing(ms: seq<Message>)
    requires AreIds(ms) && Distinct(ms)
    ensures var r := Chronological(ms);
      AreIds(r) && Increasing(r) && (forall m :: m in r <==> m in ms)
  {
    var r := Sorted(ms);
    IdsHaveNumbers(ms);
    SortedRearranges(ms, Nil, "");
    forall m
      ensures m in r <==> m in ms
    {
      SortedRearranges(ms, m, "");
    }
    forall id
      ensures Times(id, r) == Times(id, ms)
    {
      SortedRearranges(ms, Nil, id);
    }
    SameTimesDistinct(ms, r);
    OrderedIsIncreasing(r);
  }

  // What is newer than the mark keeps its order.
  lemma {:induction false} NewerIsIncreasing(ms: seq<Message>, mark: string)
    requires Increasing(ms)
    ensures Increasing(NewerThan(ms, mark))
  {
    if ms != [] {
      var rest, last := ms[..|ms| - 1], ms[|ms| - 1];
      NewerIsIncreasing(rest, mark) by {
        assert forall i, j :: 0 <= i < j < |rest| ==> Older(ms[i], ms[j]) && rest[i] == ms[i] && rest[j] == ms[j];
      }
      var r := NewerThan(rest, mark);
      forall i | 0 <= i < |r|
        ensures Older(r[i], last)
      {
        assert r[i] in r && r[i] in rest;
        var k :| 0 <= k < |rest| && rest[k] == r[i];
        assert Older(ms[k], ms[|rest|]);
      }
    }
  }

  lemma NewerIsAboveMark(ms: seq<Message>, mark: string)
    requires AreIds(ms) && (mark == "" || IsSnowflake(mark))
    ensures AreIds(NewerThan(ms, mark)) && AboveMark(NewerThan(ms, mark), mark)
  {
    forall m | m in NewerThan(ms, mark)
      ensures IsId(m) && (mark != "" ==> Older(Message(mark, ""), m))
    {
      assert m in ms;
      if mark != "" {
        NumbersDiffer(m, Message(mark, ""));
      }
    }
  }

  lemma IncreasingStart(ms: seq<Message>, n: nat)
    requires Increasing(ms) && n < |ms|
    ensures Increasing(ms[..n])
  {
    forall i, j | 0 <= i < j < n
      ensures Older(ms[..n][i], ms[..n][j])
    {
      assert Older(ms[i], ms[j]);
    }
  }

  // A message newer than the one before it, or than the old mark if it is the first, is the mark.
  lemma MarkStep(mark: string, ms: seq<Message>, n: nat)
    requires AreIds(ms) && Increasing(ms) && AboveMark(ms, mark) && (mark == "" || IsSnowflake(mark)) && n < |ms|
    requires Marked(mark, ms[..n]) == if n == 0 then mark else IdOf(ms[n - 1])
    ensures Marked(mark, ms[..n + 1]) == IdOf(ms[n])
  {
    assert ms[..n + 1][..n] == ms[..n] && ms[n] in ms;
    if n > 0 {
      assert ms[n - 1] in ms && Older(ms[n - 1], ms[n]);
      NumbersDiffer(ms[n], ms[n - 1]);
    } else if mark != "" {
      NumbersDiffer(ms[n], Message(mark, ""));
    }
  }

  lemma {:induction false} MarkAt(mark: string, ms: seq<Message>, n: nat)
    requires AreIds(ms) && Increasing(ms) && AboveMark(ms, mark) && (mark == "" || IsSnowflake(mark)) && n <= |ms|
    ensures Marked(mark, ms[..n]) == if n == 0 then mark else IdOf(ms[n - 1])
  {
    if n > 0 {
      MarkAt(mark, ms, n - 1);
      MarkStep(mark, ms, n - 1);
    }
  }

  /** An ordered batch of new messages moves the mark to its last one. */
  lemma MarkIsLast(mark: string, ms: seq<Message>)
    requires AreIds(ms) && Increasing(ms) && AboveMark(ms, mark) && (mark == "" || IsSnowflake(mark))
    ensures Marked(mark, ms) == if ms == [] then mark else IdOf(ms[|ms| - 1])
  {
    MarkAt(mark, ms, |ms|);
    assert ms[..|ms|] == ms;
  }

  /** In whatever order a batch is, the mark never goes back, and becomes the newest ID if that is above it. */
  lemma {:induction false} MarkIsGreatest(mark: string, ms: seq<Message>)
    requires AreIds(ms) && (mark == "" || IsSnowflake(mark))
    ensures var now := Marked(mark, ms);
      && (now == mark || exists m :: m in ms && now == m.id)
      && (mark != "" ==> now != "" && !Older(Message(now, ""), Message(mark, "")))
      && forall m :: m in ms ==> now != "" && !Older(Message(now, ""), m)
  {
    if ms != [] {
      var rest, last := ms[..|ms| - 1], ms[|ms| - 1];
      assert ms == rest + [last] && last in ms && forall m :: m in rest ==> m in ms;
      MarkIsGreatest(mark, rest);
      var cur := Marked(mark, rest);
      if cur != "" {
        NumbersDiffer(last, Message(cur, ""));
      }
    }
  }

  // ---- Whole runs on one channel ----

  datatype Step =
    | Add(m: Message, interval: nat)
    | Edit(id: string, content: string)
    | Take(max: int)
    | Select(fetched: seq<Message>, max: int)

  // The channel with its history: the messages accepted, handed out, and dropped by the cap.
  datatype State = State(channel: Channel, accepted: seq<Message>, handed: seq<Message>, dropped: seq<Message>)

  const START := State(Channel([], ""), [], [], [])

  /** What a step hands to the consolidator. */
  function Batch(c: Channel, a: Step): seq<Message> {
    match a {
      case Take(max) => Oldest(c, max)
      case Select(fetched, max) => SelectBatch(c, fetched, max)
      case _ => []
    }
  }

  function Next(s: State, a: Step): State {
    var c, batch := s.channel, Batch(s.channel, a);
    match a {
      case Add(m, interval) =>
        if Accepts(c, m) then
          var all := c.buffer + [m];
          State(AfterAdd(c, m, interval), s.accepted + [m], s.handed, s.dropped + all[..Overflow(|all|, interval)])
        else s
      case Edit(id, content) => s.(channel := c.(buffer := Edited(c.buffer, id, content)))
      case Take(max) => s.(channel := AfterTake(c, max), handed := s.handed + batch)
      case Select(fetched, max) =>
        s.(channel := AfterSelect(c, fetched, max), accepted := s.accepted + batch, handed := s.handed + batch)
    }
  }

  function Run(steps: seq<Step>): State {
    if steps == [] then START else Next(Run(steps[..|steps| - 1]), steps[|steps| - 1])
  }

  /** Discord's messages have snowflake IDs, and a fetch has each once. */
  predicate FromDiscord(a: Step) {
    match a {
      case Add(m, _) => m == Nil || IsId(m)
      case Select(fetched, _) => AreIds(fetched) && Distinct(fetched)
      case _ => true
    }
  }

  // Of messages ordered by age, the one with n older ones is among the first `max`.
  predicate Reached(n: nat, max: int) {
    max <= 0 || n < max
  }

  predicate AboveTheMark(m: Message, mark: string) {
    mark == "" || Older(Message(mark, ""), m)
  }

  ghost function FreshBelow(fetched: seq<Message>, mark: string, m: Message): set<Message> {
    set x | x in fetched && AboveTheMark(x, mark) && Older(x, m)
  }

  ghost function Below(ms: seq<Message>, m: Message): set<Message> {
    set x | x in ms && Older(x, m)
  }

  ghost predicate Selected(c: Channel, a: Step, m: Message)
    requires a.Select?
  {
    m in a.fetched && AboveTheMark(m, c.mark) && Reached(|FreshBelow(a.fetched, c.mark, m)|, a.max)
  }

  ghost predicate Taken(c: Channel, max: int, b: Message) {
    b in c.buffer && Reached(|Below(c.buffer, b)|, max)
  }

  /** Every buffered message is newer than those a fetch hands out; so it is if none is buffered. */
  ghost predicate SelectSafe(c: Channel, a: Step) {
    a.Select? ==> forall b, m :: b in c.buffer && Selected(c, a, m) ==> Older(m, b)
  }

  ghost predicate Permitted(s: State, a: Step) {
    FromDiscord(a) && SelectSafe(s.channel, a)
  }

  ghost predicate AllPermitted(steps: seq<Step>) {
    steps == [] || (AllPermitted(steps[..|steps| - 1]) && Permitted(Run(steps[..|steps| - 1]), steps[|steps| - 1]))
  }

  /** An ID is buffered, handed out, or dropped, as often as it was accepted. */
  predicate Balanced(s: State, id: string) {
    Times(id, s.accepted) == Times(id, s.channel.buffer) + Times(id, s.handed) + Times(id, s.dropped)
  }

  ghost predicate HandedInv(handed: seq<Message>, mark: string) {
    && AreIds(handed) && Increasing(handed)
    && (if handed == [] then mark == "" else handed[|handed| - 1] in handed && mark == IdOf(handed[|handed| - 1]))
  }

  ghost predicate BufferInv(c: Channel) {
    AreIds(c.buffer) && Distinct(c.buffer) && AboveMark(c.buffer, c.mark)
  }

  ghost predicate Inv(s: State) {
    HandedInv(s.handed, s.channel.mark) && BufferInv(s.channel)
  }

  lemma OlderIsTransitive(a: Message, b: Message, c: Message)
    requires (Older(a, b) || a == b) && Older(b, c)
    ensures Older(a, c)
  {
  }

  lemma IncreasingConcat(a: seq<Message>, b: seq<Message>)
    requires Increasing(a) && Increasing(b) && (a != [] ==> forall m :: m in b ==> Older(a[|a| - 1], m))
    ensures Increasing(a + b)
  {
    var all := a + b;
    forall i, j | 0 <= i < j < |all|
      ensures Older(all[i], all[j])
    {
      if i < |a| <= j {
        assert all[j] in b;
        assert i < |a| - 1 ==> Older(a[i], a[|a| - 1]);
        OlderIsTransitive(a[i], a[|a| - 1], all[j]);
      } else if i >= |a| {
        assert Older(b[i - |a|], b[j - |a|]);
      } else {
        assert Older(a[i], a[j]);
      }
    }
  }

  // Handing out an ordered batch of new messages keeps the order over all batches.
  lemma HandOut(handed: seq<Message>, batch: seq<Message>, mark: string)
    requires HandedInv(handed, mark) && AreIds(batch) && Increasing(batch) && AboveMark(batch, mark)
    ensures HandedInv(handed + batch, Marked(mark, batch))
  {
    MarkIsLast(mark, batch);
    if handed != [] {
      forall m | m in batch
        ensures Older(handed[|handed| - 1], m)
      {
        assert Older(Message(mark, ""), m) && IdOf(handed[|handed| - 1]) == mark;
      }
    }
    IncreasingConcat(handed, batch);
  }

  // The cap drops the oldest messages of the buffer.
  lemma AddedIsBuffered(c: Channel, m: Message, n: nat)
    requires BufferInv(c) && Accepts(c, m) && IsId(m) && (c.mark == "" || IsSnowflake(c.mark)) && n <= |c.buffer| + 1
    ensures BufferInv(c.(buffer := (c.buffer + [m])[n..]))
  {
    var all := c.buffer + [m];
    var rest := all[n..];
    if c.mark != "" {
      NumbersDiffer(m, Message(c.mark, ""));
    }
    forall i, j | 0 <= i < j < |rest|
      ensures Differ(rest[i], rest[j])
    {
      assert all[n + i] in c.buffer;
      assert n + j < |c.buffer| ==> Differ(c.buffer[n + i], c.buffer[n + j]);
    }
    assert forall x :: x in rest ==> x in c.buffer || x == m;
  }

  lemma AddKeepsInv(s: State, a: Step)
    requires Inv(s) && FromDiscord(a) && a.Add?
    ensures Inv(Next(s, a))
  {
    var c, m := s.channel, a.m;
    if Accepts(c, m) {
      var all := c.buffer + [m];
      AddedIsBuffered(c, m, Overflow(|all|, a.interval));
    }
  }

  lemma EditKeepsInv(s: State, a: Step)
    requires Inv(s) && a.Edit?
    ensures Inv(Next(s, a))
  {
    var was, now := s.channel.buffer, Edited(s.channel.buffer, a.id, a.content);
    forall m | m in now
      ensures IsId(m) && (s.channel.mark != "" ==> Older(Message(s.channel.mark, ""), m))
    {
      var i :| 0 <= i < |now| && now[i] == m;
      assert was[i] in was;
    }
    forall i, j | 0 <= i < j < |now|
      ensures Differ(now[i], now[j])
    {
      assert Differ(was[i], was[j]);
    }
  }

  // What a batch leaves behind is newer than the mark it sets.
  lemma RestIsBuffered(c: Channel, all: seq<Message>, n: nat, mark: string)
    requires n <= |all| && AreIds(all) && Increasing(all) && AboveMark(all, c.mark)
    requires mark == if n == 0 then c.mark else IdOf(all[n - 1])
    ensures BufferInv(Channel(all[n..], mark))
  {
    var rest := all[n..];
    forall i, j | 0 <= i < j < |rest|
      ensures Differ(rest[i], rest[j])
    {
      assert Older(all[n + i], all[n + j]);
    }
    forall m | m in rest && n > 0
      ensures Older(Message(mark, ""), m)
    {
      var i :| 0 <= i < |rest| && rest[i] == m;
      assert all[n - 1] in all && Older(all[n - 1], all[n + i]);
    }
  }

  lemma OldestIsNext(c: Channel, max: int)
    requires BufferInv(c)
    ensures var all, batch := Chronological(c.buffer), Oldest(c, max);
      && AreIds(all) && Increasing(all) && AboveMark(all, c.mark)
      && AreIds(batch) && Increasing(batch) && AboveMark(batch, c.mark) && all == batch + all[|batch|..]
  {
    var all, batch := Chronological(c.buffer), Oldest(c, max);
    SortedIsIncreasing(c.buffer);
    assert forall i, j :: 0 <= i < j < |batch| ==> Older(all[i], all[j]) && batch[i] == all[i] && batch[j] == all[j];
  }

  lemma HandOutOldest(c: Channel, handed: seq<Message>, max: int)
    requires HandedInv(handed, c.mark) && BufferInv(c)
    ensures HandedInv(handed + Oldest(c, max), AfterTake(c, max).mark) && BufferInv(AfterTake(c, max))
  {
    var batch := Oldest(c, max);
    OldestIsNext(c, max);
    HandOut(handed, batch, c.mark);
    MarkIsLast(c.mark, batch);
    RestIsBuffered(c, Chronological(c.buffer), |batch|, AfterTake(c, max).mark);
  }

  lemma TakeKeepsInv(s: State, a: Step)
    requires Inv(s) && a.Take?
    ensures Inv(Next(s, a))
  {
    HandOutOldest(s.channel, s.handed, a.max);
  }

  lemma SelectedIsNew(s: State, a: Step)
    requires Inv(s) && FromDiscord(a) && a.Select?
    ensures var batch := SelectBatch(s.channel, a.fetched, a.max);
      AreIds(batch) && Increasing(batch) && AboveMark(batch, s.channel.mark)
  {
    var newer := NewerThan(Chronological(a.fetched), s.channel.mark);
    var batch := SelectBatch(s.channel, a.fetched, a.max);
    SortedIsIncreasing(a.fetched);
    NewerIsIncreasing(Chronological(a.fetched), s.channel.mark);
    NewerIsAboveMark(Chronological(a.fetched), s.channel.mark);
    assert forall i, j :: 0 <= i < j < |batch| ==>
      Older(newer[i], newer[j]) && batch[i] == newer[i] && batch[j] == newer[j];
  }

  lemma IncreasingSize(ms: seq<Message>, n: nat)
    requires Increasing(ms) && n <= |ms|
    ensures |Front(ms, n)| == n
  {
    forall i, j | 0 <= i < j < |ms|
      ensures ms[i] != ms[j]
    {
      assert Older(ms[i], ms[j]);
    }
    FrontSize(ms, n);
  }

  lemma FrontIsOlder(ms: seq<Message>, k: nat, m: Message)
    requires Increasing(ms) && k < |ms|
    ensures m in Below(ms, ms[k]) <==> m in Front(ms, k)
  {
    if m in Below(ms, ms[k]) {
      var i :| 0 <= i < |ms| && ms[i] == m;
      assert i < k;
    }
    if m in Front(ms, k) {
      var i :| 0 <= i < k && ms[i] == m;
      assert Older(ms[i], ms[k]);
    }
  }

  // In an increasing list, k messages are older than the k-th.
  lemma OlderOnesBefore(ms: seq<Message>, k: nat)
    requires Increasing(ms) && k < |ms|
    ensures |Below(ms, ms[k])| == k
  {
    IncreasingSize(ms, k);
    forall m
      ensures m in Below(ms, ms[k]) <==> m in Front(ms, k)
    {
      FrontIsOlder(ms, k, m);
    }
    assert Below(ms, ms[k]) == Front(ms, k);
  }

  // The first n of an increasing list are those with fewer than n older ones.
  lemma StartIsReached(ms: seq<Message>, n: nat, m: Message)
    requires Increasing(ms) && n <= |ms|
    ensures m in ms[..n] <==> m in ms && |Below(ms, m)| < n
    ensures m in ms ==> |Below(ms, m)| < |ms|
  {
    if m in ms {
      var k :| 0 <= k < |ms| && ms[k] == m;
      OlderOnesBefore(ms, k);
      assert k < n ==> ms[..n][k] == m;
      if m in ms[..n] {
        var i :| 0 <= i < n && ms[..n][i] == m;
        OlderOnesBefore(ms, i);
      }
    }
  }

  lemma FirstIsReached(ms: seq<Message>, max: int, m: Message)
    requires Increasing(ms)
    ensures m in First(ms, max) <==> m in ms && Reached(|Below(ms, m)|, max)
  {
    StartIsReached(ms, |First(ms, max)|, m);
    assert First(ms, max) == ms[..|First(ms, max)|];
  }

  lemma NewerAreAbove(ms: seq<Message>, mark: string)
    requires AreIds(ms) && (mark == "" || IsSnowflake(mark))
    ensures forall m :: m in ms ==> (Fresh(m, mark) <==> AboveTheMark(m, mark))
  {
    forall m | m in ms
      ensures Fresh(m, mark) <==> AboveTheMark(m, mark)
    {
      if mark != "" {
        NumbersDiffer(m, Message(mark, ""));
      }
    }
  }

  /** What is selected and what is taken, without sorting. */
  lemma SelectedExactly(s: State, a: Step, m: Message)
    requires Inv(s) && FromDiscord(a) && a.Select?
    ensures m in SelectBatch(s.channel, a.fetched, a.max) <==> Selected(s.channel, a, m)
  {
    var newer := NewerThan(Chronological(a.fetched), s.channel.mark);
    SortedIsIncreasing(a.fetched);
    NewerIsIncreasing(Chronological(a.fetched), s.channel.mark);
    FirstIsReached(newer, a.max, m);
    NewerAreAbove(a.fetched, s.channel.mark);
    assert Below(newer, m) == FreshBelow(a.fetched, s.channel.mark, m);
  }

  lemma TakenExactly(c: Channel, max: int, b: Message)
    requires BufferInv(c)
    ensures b in Oldest(c, max) <==> Taken(c, max, b)
  {
    var all := Chronological(c.buffer);
    SortedIsIncreasing(c.buffer);
    FirstIsReached(all, max, b);
    assert Below(all, b) == Below(c.buffer, b);
  }

  lemma SelectKeepsHanded(s: State, a: Step)
    requires Inv(s) && FromDiscord(a) && a.Select?
    ensures HandedInv(Next(s, a).handed, Next(s, a).channel.mark)
  {
    SelectedIsNew(s, a);
    HandOut(s.handed, SelectBatch(s.channel, a.fetched, a.max), s.channel.mark);
  }

  lemma SelectKeepsBuffer(s: State, a: Step)
    requires Inv(s) && FromDiscord(a) && a.Select? && SelectSafe(s.channel, a)
    ensures BufferInv(Next(s, a).channel)
  {
    var c, batch := s.channel, SelectBatch(s.channel, a.fetched, a.max);
    SelectedIsNew(s, a);
    MarkIsLast(c.mark, batch);
    if batch != [] {
      var last := batch[|batch| - 1];
      SelectedExactly(s, a, last);
      assert forall b :: b in c.buffer ==> Older(last, b);
    }
  }

  lemma SelectKeepsInv(s: State, a: Step)
    requires Inv(s) && FromDiscord(a) && a.Select? && SelectSafe(s.channel, a)
    ensures Inv(Next(s, a))
  {
    SelectKeepsHanded(s, a);
    SelectKeepsBuffer(s, a);
  }

  lemma StepKeepsInv(s: State, a: Step)
    requires Inv(s) && FromDiscord(a) && SelectSafe(s.channel, a)
    ensures Inv(Next(s, a))
  {
    match a {
      case Add(_, _) => AddKeepsInv(s, a);
      case Edit(_, _) => EditKeepsInv(s, a);
      case Take(_) => TakeKeepsInv(s, a);
      case Select(_, _) => SelectKeepsInv(s, a);
    }
  }

  /**
   Over any run of adds, edits, takes, and selects of messages older than the buffered ones (the
   program selects after a take that found nothing buffered): IDs are handed out in
   increasing order within and across batches, so none twice, and every buffered ID is above
   the mark.
   */
  lemma {:induction false} RunKeepsInv(steps: seq<Step>)
    requires AllPermitted(steps)
    ensures Inv(Run(steps))
  {
    if steps != [] {
      var before := steps[..|steps| - 1];
      RunKeepsInv(before);
      StepKeepsInv(Run(before), steps[|steps| - 1]);
    }
  }

  lemma AddBalances(s: State, a: Step, id: string)
    requires Balanced(s, id) && a.Add?
    ensures Balanced(Next(s, a), id)
  {
    if Accepts(s.channel, a.m) {
      var all := s.channel.buffer + [a.m];
      var n := Overflow(|all|, a.interval);
      assert all == all[..n] + all[n..];
      TimesConcat(id, s.accepted, [a.m]);
      TimesConcat(id, s.channel.buffer, [a.m]);
      TimesConcat(id, all[..n], all[n..]);
      TimesConcat(id, s.dropped, all[..n]);
    }
  }

  lemma ChronologicalTimes(ms: seq<Message>, id: string)
    ensures Times(id, Chronological(ms)) == Times(id, ms)
  {
    SortedTimes(ms, id);
  }

  lemma TakeSplits(c: Channel, max: int, id: string)
    ensures Times(id, c.buffer) == Times(id, Oldest(c, max)) + Times(id, AfterTake(c, max).buffer)
  {
    var all, batch := Chronological(c.buffer), Oldest(c, max);
    ChronologicalTimes(c.buffer, id);
    assert Times(id, all) == Times(id, batch) + Times(id, all[|batch|..]) by {
      assert all == batch + all[|batch|..];
      TimesConcat(id, batch, all[|batch|..]);
    }
  }

  // What a take leaves and hands out, and nothing else changes.
  lemma TakeIs(s: State, a: Step)
    requires a.Take?
    ensures var t := Next(s, a);
      && t.accepted == s.accepted && t.dropped == s.dropped
      && t.handed == s.handed + Oldest(s.channel, a.max) && t.channel == AfterTake(s.channel, a.max)
  {
  }

  lemma TakeBalances(s: State, a: Step, id: string)
    requires Balanced(s, id) && a.Take?
    ensures Balanced(Next(s, a), id)
  {
    TakeIs(s, a);
    TakeSplits(s.channel, a.max, id);
    TimesConcat(id, s.handed, Oldest(s.channel, a.max));
  }

  lemma SelectBalances(s: State, a: Step, id: string)
    requires Balanced(s, id) && a.Select?
    ensures Balanced(Next(s, a), id)
  {
    var batch := SelectBatch(s.channel, a.fetched, a.max);
    TimesConcat(id, s.handed, batch);
    TimesConcat(id, s.accepted, batch);
  }

  /** Whatever happens, no accepted message is lost but by the cap, and none is made up. */
  lemma {:induction false} RunBalances(steps: seq<Step>, id: string)
    ensures Balanced(Run(steps), id)
  {
    if steps != [] {
      var before, a := steps[..|steps| - 1], steps[|steps| - 1];
      var s := Run(before);
      RunBalances(before, id);
      match a {
        case Add(_, _) => AddBalances(s, a, id);
        case Edit(editId, content) => assert Ids(Edited(s.channel.buffer, editId, content)) == Ids(s.channel.buffer);
        case Take(_) => TakeBalances(s, a, id);
        case Select(_, _) => SelectBalances(s, a, id);
      }
    }
  }

  // One step of a channel, done by the program.
  method TakeStep(b: Buffers, channel: string, a: Step, ghost s: State) returns (batch: seq<Message>)
    requires b.Get(channel) == s.channel
    modifies b
    ensures b.Get(channel) == Next(s, a).channel && Next(s, a).handed == s.handed + batch
  {
    batch := [];
    match a {
      case Add(m, interval) => b.Add(channel, m, interval);
      case Edit(id, content) => b.UpdateContent(channel, id, content);
      case Take(max) => batch := b.TakeBatch(channel, max);
      case Select(fetched, max) => batch := b.SelectUnconsolidated(channel, fetched, max);
    }
  }

  /** So what the program hands out in a run is in order, and nothing twice. */
  method Consolidate(b: Buffers, channel: string, steps: seq<Step>) returns (handed: seq<Message>)
    requires b.Get(channel) == START.channel
    modifies b
    ensures b.Get(channel) == Run(steps).channel && handed == Run(steps).handed
    ensures AllPermitted(steps) ==> Increasing(handed)
  {
    handed := [];
    for i := 0 to |steps|
      invariant b.Get(channel) == Run(steps[..i]).channel && handed == Run(steps[..i]).handed
    {
      var batch := TakeStep(b, channel, steps[i], Run(steps[..i]));
      handed := handed + batch;
      assert steps[..i + 1][..i] == steps[..i];
    }
    assert steps[..|steps|] == steps;
    if AllPermitted(steps) {
      RunKeepsInv(steps);
    }
  }

  lemma NothingHandedOutTwice(steps: seq<Step>, i: nat, j: nat)
    requires AllPermitted(steps) && i < j < |Run(steps).handed|
    ensures Differ(Run(steps).handed[i], Run(steps).handed[j])
  {
    RunKeepsInv(steps);
    OlderDiffers(Run(steps).handed[i], Run(steps).handed[j]);
  }

  lemma NotIncreasing(handed: seq<Message>, batch: seq<Message>, rest: seq<Message>, m: Message, b: Message)
    requires m in batch && b in rest && !Older(m, b)
    ensures !Increasing(handed + batch + rest)
  {
    var i :| 0 <= i < |batch| && batch[i] == m;
    var j :| 0 <= j < |rest| && rest[j] == b;
    var joined := handed + batch + rest;
    assert joined[|handed| + i] == m && joined[|handed| + |batch| + j] == b;
    assert !Older(joined[|handed| + i], joined[|handed| + |batch| + j]);
  }

  lemma SelectThenTake(s: State, a: Step, max: int)
    requires a.Select?
    ensures Next(Next(s, a), Take(max)).handed
         == s.handed + SelectBatch(s.channel, a.fetched, a.max) + Oldest(s.channel, max)
  {
  }

  // The oldest buffered message is always taken.
  lemma OldestIsTaken(c: Channel, max: int, b: Message) returns (oldest: Message)
    requires BufferInv(c) && b in c.buffer
    ensures oldest in Oldest(c, max) && (oldest == b || Older(oldest, b))
  {
    var all := Chronological(c.buffer);
    SortedIsIncreasing(c.buffer);
    var j :| 0 <= j < |all| && all[j] == b;
    oldest := all[0];
    assert oldest == Oldest(c, max)[0] && (j > 0 ==> Older(all[0], all[j]));
  }

  /**
   When messages were buffered between the take that found the buffer empty and the select,
   the order survives the next take exactly if all of them are newer than the selected ones.
   */
  lemma SelectIsSafeExactly(s: State, a: Step, max: int)
    requires Inv(s) && FromDiscord(a) && a.Select?
    ensures Increasing(Next(Next(s, a), Take(max)).handed) <==> SelectSafe(s.channel, a)
  {
    if SelectSafe(s.channel, a) {
      SelectKeepsInv(s, a);
      TakeKeepsInv(Next(s, a), Take(max));
    } else {
      var b, m :| b in s.channel.buffer && Selected(s.channel, a, m) && !Older(m, b);
      var oldest := OldestIsTaken(s.channel, max, b);
      SelectedExactly(s, a, m);
      SelectThenTake(s, a, max);
      NotIncreasing(s.handed, SelectBatch(s.channel, a.fetched, a.max), Oldest(s.channel, max), m, oldest);
    }
  }

  // ---- Any number of takes after the select ----

  function TakeRun(s: State, takes: seq<int>): State {
    if takes == [] then s else Next(TakeRun(s, takes[..|takes| - 1]), Take(takes[|takes| - 1]))
  }

  /** Where a take ends that begins at the k-th of n messages. */
  function TakeEnd(k: nat, n: nat, max: int): (end: nat)
    requires k <= n
    ensures k <= end <= n
  {
    if max <= 0 || n - k <= max then n else k + max
  }

  /** How many of n buffered messages some takes hand out in all. */
  function TakenInAll(takes: seq<int>, n: nat): (k: nat)
    ensures k <= n
  {
    if takes == [] then 0 else TakeEnd(TakenInAll(takes[..|takes| - 1], n), n, takes[|takes| - 1])
  }

  ghost predicate TakenBy(c: Channel, takes: seq<int>, b: Message) {
    b in c.buffer && |Below(c.buffer, b)| < TakenInAll(takes, |c.buffer|)
  }

  /** Each message's number is at least that of the one before it. */
  predicate StepwiseUp(ms: seq<Message>) {
    |ms| < 2 || (StepwiseUp(ms[..|ms| - 1]) && Num(ms[|ms| - 2]) <= Num(ms[|ms| - 1]))
  }

  lemma {:induction false} IncreasingIsStepwise(ms: seq<Message>, n: nat)
    requires Increasing(ms) && n <= |ms|
    ensures StepwiseUp(ms[..n])
  {
    if n >= 2 {
      IncreasingIsStepwise(ms, n - 1);
      assert ms[..n][..n - 1] == ms[..n - 1] && Older(ms[n - 2], ms[n - 1]);
    }
  }

  lemma {:induction false} SortedIsSame(ms: seq<Message>)
    requires StepwiseUp(ms)
    ensures Sorted(ms) == ms
  {
    if ms != [] {
      var rest := ms[..|ms| - 1];
      SortedIsSame(rest);
      assert ms == rest + [ms[|ms| - 1]];
    }
  }

  lemma IncreasingEnd(ms: seq<Message>, n: nat)
    requires AreIds(ms) && Increasing(ms) && n <= |ms|
    ensures Chronological(ms[n..]) == ms[n..]
  {
    forall i, j | 0 <= i < j < |ms| - n
      ensures Older(ms[n..][i], ms[n..][j])
    {
      assert Older(ms[n + i], ms[n + j]);
    }
    assert forall m :: m in ms[n..] ==> m in ms;
    IdsHaveNumbers(ms[n..]);
    IncreasingIsStepwise(ms[n..], |ms| - n);
    assert ms[n..][..|ms| - n] == ms[n..];
    SortedIsSame(ms[n..]);
  }

  lemma FirstOfEnd(all: seq<Message>, k: nat, max: int)
    requires k <= |all|
    ensures First(all[k..], max) == all[k..TakeEnd(k, |all|, max)]
  {
  }

  lemma NextBatch(all: seq<Message>, takes: seq<int>)
    requires takes != []
    ensures var k, n := TakenInAll(takes[..|takes| - 1], |all|), TakenInAll(takes, |all|);
      k <= n && First(all[k..], takes[|takes| - 1]) == all[k..n]
  {
    FirstOfEnd(all, TakenInAll(takes[..|takes| - 1], |all|), takes[|takes| - 1]);
  }

  // Since `s`, the first n of `all` have been handed out, and the others are buffered.
  predicate TookOldest(s: State, t: State, all: seq<Message>, n: nat) {
    n <= |all| && t.handed == s.handed + all[..n] && Chronological(t.channel.buffer) == all[n..]
  }

  lemma TakeHandsOut(t: State, rest: seq<Message>, batch: seq<Message>, max: int)
    requires Chronological(t.channel.buffer) == rest && First(rest, max) == batch
    ensures var u := Next(t, Take(max)); u.handed == t.handed + batch && u.channel.buffer == rest[|batch|..]
  {
  }

  lemma Slices(all: seq<Message>, k: nat, n: nat)
    requires k <= n <= |all|
    ensures all[..k] + all[k..n] == all[..n] && all[k..][n - k..] == all[n..]
  {
  }

  lemma TookMore(s: State, t: State, u: State, all: seq<Message>, k: nat, n: nat)
    requires TookOldest(s, t, all, k) && k <= n <= |all| && Chronological(all[n..]) == all[n..]
    requires u.handed == t.handed + all[k..n] && u.channel.buffer == all[n..]
    ensures TookOldest(s, u, all, n)
  {
    Slices(all, k, n);
  }

  lemma OneTake(s: State, t: State, all: seq<Message>, k: nat, n: nat, max: int)
    requires TookOldest(s, t, all, k) && k <= n <= |all|
    requires First(all[k..], max) == all[k..n] && Chronological(all[n..]) == all[n..]
    ensures TookOldest(s, Next(t, Take(max)), all, n)
  {
    TakeHandsOut(t, all[k..], all[k..n], max);
    Slices(all, k, n);
    TookMore(s, t, Next(t, Take(max)), all, k, n);
  }

  // The takes hand out the oldest messages, batch after batch.
  lemma {:induction false} TakesTakeOldest(s: State, takes: seq<int>)
    requires AreIds(s.channel.buffer) && Distinct(s.channel.buffer)
    ensures var all := Chronological(s.channel.buffer);
      TookOldest(s, TakeRun(s, takes), all, TakenInAll(takes, |all|))
  {
    var all := Chronological(s.channel.buffer);
    if takes == [] {
      assert all[..0] == [] && all[0..] == all;
    } else {
      var before := takes[..|takes| - 1];
      TakesTakeOldest(s, before);
      NextBatch(all, takes);
      SortedIsIncreasing(s.channel.buffer);
      var k, n := TakenInAll(before, |all|), TakenInAll(takes, |all|);
      IncreasingEnd(all, n);
      OneTake(s, TakeRun(s, before), all, k, n, takes[|takes| - 1]);
    }
  }

  lemma TakenByExactly(c: Channel, takes: seq<int>, b: Message)
    requires BufferInv(c)
    ensures var all := Chronological(c.buffer);
      b in all[..TakenInAll(takes, |all|)] <==> TakenBy(c, takes, b)
  {
    var all := Chronological(c.buffer);
    SortedIsIncreasing(c.buffer);
    StartIsReached(all, TakenInAll(takes, |all|), b);
    assert Below(all, b) == Below(c.buffer, b);
  }

  /** A buffered message that is fetched too, selected, and taken. */
  ghost predicate FetchedAndBuffered(c: Channel, a: Step, takes: seq<int>)
    requires a.Select?
  {
    exists b, m :: TakenBy(c, takes, b) && Selected(c, a, m) && !Differ(b, m)
  }

  lemma DistinctConcat(a: seq<Message>, b: seq<Message>)
    requires Distinct(a) && Distinct(b)
    ensures Distinct(a + b) <==> forall x, y :: x in a && y in b ==> Differ(x, y)
  {
    var all := a + b;
    if Distinct(all) {
      forall x, y | x in a && y in b
        ensures Differ(x, y)
      {
        var i :| 0 <= i < |a| && a[i] == x;
        var j :| 0 <= j < |b| && b[j] == y;
        assert Differ(all[i], all[|a| + j]);
      }
    } else {
      var i, j :| 0 <= i < j < |all| && !Differ(all[i], all[j]);
      assert i < |a| <= j;
      assert all[i] in a && all[j] in b;
    }
  }

  lemma IncreasingIsDistinct(ms: seq<Message>)
    requires Increasing(ms)
    ensures Distinct(ms)
  {
    forall i, j | 0 <= i < j < |ms|
      ensures Differ(ms[i], ms[j])
    {
      OlderDiffers(ms[i], ms[j]);
    }
  }

  ghost predicate Share(x: seq<Message>, y: seq<Message>) {
    exists m, b :: m in x && b in y && !Differ(m, b)
  }

  // Two batches, each of them new, repeat an ID exactly if they share one.
  lemma RepeatsExactly(handed: seq<Message>, x: seq<Message>, y: seq<Message>)
    requires Increasing(handed) && Increasing(x) && Increasing(y)
    requires Increasing(handed + x) && Increasing(handed + y)
    ensures !Distinct(handed + x + y) <==> Share(x, y)
  {
    IncreasingIsDistinct(handed);
    IncreasingIsDistinct(x);
    IncreasingIsDistinct(y);
    IncreasingIsDistinct(handed + x);
    IncreasingIsDistinct(handed + y);
    DistinctConcat(handed, x);
    DistinctConcat(handed, y);
    DistinctConcat(handed + x, y);
  }

  lemma SharedExactly(s: State, a: Step, takes: seq<int>)
    requires Inv(s) && FromDiscord(a) && a.Select?
    ensures var all := Chronological(s.channel.buffer);
      Share(SelectBatch(s.channel, a.fetched, a.max), all[..TakenInAll(takes, |all|)]) <==>
        FetchedAndBuffered(s.channel, a, takes)
  {
    var c, batch, all := s.channel, SelectBatch(s.channel, a.fetched, a.max), Chronological(s.channel.buffer);
    var taken := all[..TakenInAll(takes, |all|)];
    if Share(batch, taken) {
      var m, b :| m in batch && b in taken && !Differ(m, b);
      SelectedExactly(s, a, m);
      TakenByExactly(c, takes, b);
      assert TakenBy(c, takes, b) && Selected(c, a, m) && !Differ(b, m);
    }
    if FetchedAndBuffered(c, a, takes) {
      var b, m :| TakenBy(c, takes, b) && Selected(c, a, m) && !Differ(b, m);
      SelectedExactly(s, a, m);
      TakenByExactly(c, takes, b);
      assert m in batch && b in taken && !Differ(m, b);
    }
  }

  lemma OldestAreNext(c: Channel, n: nat)
    requires BufferInv(c) && n <= |c.buffer|
    ensures var taken := Chronological(c.buffer)[..n];
      AreIds(taken) && Increasing(taken) && AboveMark(taken, c.mark)
  {
    var all := Chronological(c.buffer);
    SortedIsIncreasing(c.buffer);
    if n < |all| {
      IncreasingStart(all, n);
    } else {
      assert all[..n] == all;
    }
    assert forall m :: m in all[..n] ==> m in all;
  }

  /**
   An ID is handed out twice by the select and any number of takes after it exactly if a
   buffered message was fetched too, and both copies are within their caps.
   */
  lemma HandedOutTwiceExactly(s: State, a: Step, takes: seq<int>)
    requires Inv(s) && FromDiscord(a) && a.Select?
    ensures !Distinct(TakeRun(Next(s, a), takes).handed) <==> FetchedAndBuffered(s.channel, a, takes)
  {
    var c, batch, all := s.channel, SelectBatch(s.channel, a.fetched, a.max), Chronological(s.channel.buffer);
    var n := TakenInAll(takes, |all|);
    TakesTakeOldest(Next(s, a), takes);
    SelectedIsNew(s, a);
    HandOut(s.handed, batch, c.mark);
    OldestAreNext(c, n);
    HandOut(s.handed, all[..n], c.mark);
    RepeatsExactly(s.handed, batch, all[..n]);
    SharedExactly(s, a, takes);
  }

  lemma TakesAll(c: Channel, b: Message)
    requires BufferInv(c) && b in c.buffer
    ensures TakenBy(c, [0], b)
  {
    var all := Chronological(c.buffer);
    SortedIsIncreasing(c.buffer);
    StartIsReached(all, |all|, b);
    assert Below(all, b) == Below(c.buffer, b);
  }

  /** With no caps, the next take makes it so exactly if a buffered message was fetched too. */
  lemma HandedOutTwiceWithoutCaps(s: State, a: Step)
    requires Inv(s) && FromDiscord(a) && a.Select? && a.max <= 0
    ensures !Distinct(TakeRun(Next(s, a), [0]).handed) <==> Share(s.channel.buffer, a.fetched)
  {
    var c := s.channel;
    HandedOutTwiceExactly(s, a, [0]);
    forall b, m | b in c.buffer && m in a.fetched && !Differ(b, m)
      ensures TakenBy(c, [0], b) && Selected(c, a, m)
    {
      TakesAll(c, b);
      if c.mark != "" {
        NumbersDiffer(b, Message(c.mark, ""));
      }
    }
  }

  lemma Alone(m: Message)
    requires IsId(m)
    ensures Chronological([m]) == [m] && First(NewerThan([m], ""), 0) == [m]
  {
    assert [m][..0] == [];
    IdsHaveNumbers([m]);
  }

  lemma EmptyTake()
    ensures Next(START, Take(0)) == START
  {
    assert Oldest(START.channel, 0) == [];
  }

  lemma AddToEmpty(m: Message, interval: nat)
    requires IsId(m) && interval > 0
    ensures var s := Next(START, Add(m, interval)); s.channel == Channel([m], "") && s.handed == []
  {
    assert [] + [m] == [m] && [m][0..] == [m];
  }

  /** A message buffered after the take of an empty buffer, and also fetched, is handed out twice. */
  lemma BufferedInBetweenIsHandedOutTwice(m: Message, interval: nat)
    requires IsId(m) && interval > 0
    ensures Next(Next(Next(Next(START, Take(0)), Add(m, interval)), Select([m], 0)), Take(0)).handed == [m, m]
  {
    EmptyTake();
    AddToEmpty(m, interval);
    Alone(m);
    SelectThenTake(Next(START, Add(m, interval)), Select([m], 0), 0);
  }
}
