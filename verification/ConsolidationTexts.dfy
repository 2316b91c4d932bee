/**
 The texts that reach the consolidator, over whole runs on one channel: a buffered message carries
 the text of its last edit, or the text it was added with if it was not edited.
 */
module ConsolidationTexts {
  import opened Consolidation

  /** The text after the edits of the message among the steps. */
  function TextAfter(steps: seq<Step>, id: string, text: string): string {
    if steps == [] then text
    else
      var last := steps[|steps| - 1];
      if last.Edit? && last.id == id then last.content else TextAfter(steps[..|steps| - 1], id, text)
  }

  /** A message with the ID is buffered after the steps. */
  predicate BufferedAfter(steps: seq<Step>, id: string) {
    exists m :: m in Run(steps).channel.buffer && m != Nil && m.id == id
  }

  // ---- Every buffered message has an ID of its own, in any run ----

  predicate OwnIds(ms: seq<Message>) {
    Distinct(ms) && Nil !in ms
  }

  lemma DistinctEnd(ms: seq<Message>, n: nat)
    requires n <= |ms| && forall i, j :: n <= i < j < |ms| ==> Differ(ms[i], ms[j])
    ensures Distinct(ms[n..])
  {
    forall i, j | 0 <= i < j < |ms[n..]|
      ensures Differ(ms[n..][i], ms[n..][j])
    {
      assert Differ(ms[n + i], ms[n + j]);
    }
  }

  lemma SamePlace(ms: seq<Message>, i: nat, k: nat)
    requires Distinct(ms) && i <= k < |ms| && !Differ(ms[i], ms[k])
    ensures i == k
  {
  }

  lemma AddKeepsOwnIds(c: Channel, m: Message, interval: nat)
    requires OwnIds(c.buffer)
    ensures OwnIds(AfterAdd(c, m, interval).buffer)
  {
    if Accepts(c, m) {
      var all := c.buffer + [m];
      var n := Overflow(|all|, interval);
      forall i, j | n <= i < j < |all|
        ensures Differ(all[i], all[j])
      {
        assert all[i] in c.buffer;
        assert j < |c.buffer| ==> Differ(c.buffer[i], c.buffer[j]);
      }
      DistinctEnd(all, n);
    }
  }

  lemma EditKeepsOwnIds(ms: seq<Message>, id: string, content: string)
    requires OwnIds(ms)
    ensures OwnIds(Edited(ms, id, content))
  {
    var now := Edited(ms, id, content);
    forall i, j | 0 <= i < j < |now|
      ensures Differ(now[i], now[j])
    {
      assert Differ(ms[i], ms[j]);
    }
  }

  lemma ChronologicalMembers(ms: seq<Message>, m: Message)
    ensures m in Chronological(ms) <==> m in ms
  {
    SortedMembers(ms, m);
  }

  lemma TakeKeepsOwnIds(c: Channel, max: int)
    requires OwnIds(c.buffer)
    ensures OwnIds(AfterTake(c, max).buffer)
  {
    var all := Chronological(c.buffer);
    var n := |Oldest(c, max)|;
    forall id
      ensures Times(id, all) == Times(id, c.buffer)
    {
      ChronologicalTimes(c.buffer, id);
    }
    SameTimesDistinct(c.buffer, all);
    ChronologicalMembers(c.buffer, Nil);
    DistinctEnd(all, n);
  }

  lemma StepKeepsOwnIds(s: State, a: Step)
    requires OwnIds(s.channel.buffer)
    ensures OwnIds(Next(s, a).channel.buffer)
  {
    match a {
      case Add(m, interval) => AddKeepsOwnIds(s.channel, m, interval);
      case Edit(id, content) => EditKeepsOwnIds(s.channel.buffer, id, content);
      case Take(max) => TakeKeepsOwnIds(s.channel, max);
      case Select(_, _) =>
    }
  }

  lemma {:induction false} RunKeepsOwnIds(steps: seq<Step>)
    ensures OwnIds(Run(steps).channel.buffer)
  {
    if steps != [] {
      RunKeepsOwnIds(steps[..|steps| - 1]);
      StepKeepsOwnIds(Run(steps[..|steps| - 1]), steps[|steps| - 1]);
    }
  }

  // ---- Where a buffered message was the step before ----

  lemma EditIs(ms: seq<Message>, id: string, content: string, m: Message)
    requires OwnIds(ms) && m in Edited(ms, id, content)
    ensures m != Nil && exists text :: Message(m.id, text) in ms && m.content == if m.id == id then content else text
  {
    var now := Edited(ms, id, content);
    var k :| 0 <= k < |now| && now[k] == m;
    assert ms[k] in ms && IdOf(ms[k]) == m.id;
    assert Message(m.id, ms[k].content) == ms[k];
    var i := IndexOf(ms, id);
    if m.id == id {
      SamePlace(ms, i, k);
    }
  }

  lemma TakeLeaves(c: Channel, max: int, m: Message)
    requires m in AfterTake(c, max).buffer || m in Oldest(c, max)
    ensures m in c.buffer
  {
    ChronologicalMembers(c.buffer, m);
  }

  /** A buffered message was just added, or it was buffered with the text that an edit now may have replaced. */
  lemma BufferedBefore(s: State, a: Step, m: Message)
    requires OwnIds(s.channel.buffer) && m in Next(s, a).channel.buffer
    ensures m != Nil
    ensures a == Add(m, if a.Add? then a.interval else 0)
         || exists text :: Message(m.id, text) in s.channel.buffer && m.content == TextAfter([a], m.id, text)
  {
    match a {
      case Add(x, interval) =>
        if m in s.channel.buffer {
          assert Message(m.id, m.content) in s.channel.buffer && TextAfter([a], m.id, m.content) == m.content;
        }
      case Edit(id, content) =>
        EditIs(s.channel.buffer, id, content, m);
        var text :| Message(m.id, text) in s.channel.buffer && m.content == if m.id == id then content else text;
        assert TextAfter([a], m.id, text) == m.content;
      case Take(max) =>
        TakeLeaves(s.channel, max, m);
        assert Message(m.id, m.content) in s.channel.buffer && TextAfter([a], m.id, m.content) == m.content;
      case Select(_, _) =>
        assert Message(m.id, m.content) in s.channel.buffer && TextAfter([a], m.id, m.content) == m.content;
    }
  }

  /** The message was added with the text at step i and has been buffered ever since. */
  ghost predicate AddedAt(steps: seq<Step>, i: nat, id: string, text: string) {
    && i < |steps| && steps[i].Add? && steps[i].m == Message(id, text)
    && forall n :: i < n <= |steps| ==> BufferedAfter(steps[..n], id)
  }

  predicate Carries(steps: seq<Step>, i: nat, m: Message, text: string) {
    m != Nil && i < |steps| && m.content == TextAfter(steps[i + 1..], m.id, text)
  }

  lemma AddedNow(steps: seq<Step>, a: Step, m: Message)
    requires a.Add? && a.m == m && m != Nil && BufferedAfter(steps + [a], m.id)
    ensures AddedAt(steps + [a], |steps|, m.id, m.content)
  {
    var all := steps + [a];
    forall n | |steps| < n <= |all|
      ensures BufferedAfter(all[..n], m.id)
    {
      assert all[..n] == all;
    }
  }

  lemma CarriesItsText(steps: seq<Step>, m: Message)
    requires m != Nil && steps != []
    ensures Carries(steps, |steps| - 1, m, m.content)
  {
    assert steps[|steps|..] == [];
  }

  lemma AddedStays(steps: seq<Step>, a: Step, i: nat, id: string, text: string)
    requires AddedAt(steps, i, id, text) && BufferedAfter(steps + [a], id)
    ensures AddedAt(steps + [a], i, id, text)
  {
    var all := steps + [a];
    forall n | i < n <= |all|
      ensures BufferedAfter(all[..n], id)
    {
      assert n <= |steps| ==> all[..n] == steps[..n];
      assert n == |all| ==> all[..n] == all;
    }
  }

  lemma CarriesOn(steps: seq<Step>, a: Step, i: nat, m: Message, was: string, text: string)
    requires m != Nil && Carries(steps, i, Message(m.id, was), text) && m.content == TextAfter([a], m.id, was)
    ensures Carries(steps + [a], i, m, text)
  {
    var rest := (steps + [a])[i + 1..];
    assert rest[..|rest| - 1] == steps[i + 1..];
  }

  lemma RunMore(steps: seq<Step>, a: Step)
    ensures Run(steps + [a]) == Next(Run(steps), a)
  {
    assert (steps + [a])[..|steps|] == steps;
  }

  /** A buffered message carries the text of its last edit since it was added, or the text it was added with. */
  lemma {:induction false} BufferedText(steps: seq<Step>, m: Message) returns (i: nat, text: string)
    requires m in Run(steps).channel.buffer
    ensures m != Nil && AddedAt(steps, i, m.id, text) && m.content == TextAfter(steps[i + 1..], m.id, text)
    decreases |steps|
  {
    var before, a := steps[..|steps| - 1], steps[|steps| - 1];
    assert steps == before + [a];
    RunMore(before, a);
    RunKeepsOwnIds(before);
    BufferedBefore(Run(before), a, m);
    if a.Add? && a.m == m {
      i, text := |before|, m.content;
      AddedNow(before, a, m);
      CarriesItsText(steps, m);
    } else {
      var was :| Message(m.id, was) in Run(before).channel.buffer && m.content == TextAfter([a], m.id, was);
      i, text := BufferedText(before, Message(m.id, was));
      AddedStays(before, a, i, m.id, text);
      CarriesOn(before, a, i, m, was, text);
    }
  }

  /** What a take hands out carries that text too. */
  lemma TakenText(steps: seq<Step>, max: int, m: Message) returns (i: nat, text: string)
    requires m in Batch(Run(steps).channel, Take(max))
    ensures m != Nil && AddedAt(steps, i, m.id, text) && m.content == TextAfter(steps[i + 1..], m.id, text)
  {
    TakeLeaves(Run(steps).channel, max, m);
    i, text := BufferedText(steps, m);
  }

  /**
   So everything handed out in a run was handed out by some step k: a take, with the text of the
   last edit made while it was buffered or else the text it was added with, or a selection from
   fetched messages, as it was fetched.
   */
  ghost predicate HandedBy(steps: seq<Step>, k: nat, m: Message) {
    k < |steps| && match steps[k] {
      case Take(_) =>
        m != Nil && exists i: nat, text ::
          AddedAt(steps[..k], i, m.id, text) && m.content == TextAfter(steps[..k][i + 1..], m.id, text)
      case Select(fetched, _) => m in fetched
      case _ => false
    }
  }

  lemma SelectedAreFetched(c: Channel, fetched: seq<Message>, max: int, m: Message)
    requires m in SelectBatch(c, fetched, max)
    ensures m in fetched
  {
    ChronologicalMembers(fetched, m);
  }

  lemma {:induction false} HandedText(steps: seq<Step>, m: Message) returns (k: nat)
    requires m in Run(steps).handed
    ensures HandedBy(steps, k, m)
    decreases |steps|
  {
    var before, a := steps[..|steps| - 1], steps[|steps| - 1];
    if m in Run(before).handed {
      k := HandedText(before, m);
      assert steps[..k] == before[..k];
    } else {
      k := |before|;
      match a {
        case Take(max) =>
          var i, text := TakenText(before, max, m);
        case Select(fetched, max) => SelectedAreFetched(Run(before).channel, fetched, max, m);
        case _ =>
      }
    }
  }
}
