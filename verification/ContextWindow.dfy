/**
 The anchored history window: its oldest message stays fixed and the window only grows, until
 it would hold more than limit + flush messages; then it restarts at the newest `limit`.
 */
module ContextWindow {
  import opened Wrappers
  import opened Snowflake

  // A message without a time has the zero time.
  datatype Message = Message(id: string, content: string, sent: Option<int>)

  /** How many messages are fetched so that an overflow of the window can be seen. */
  function FetchSize(limit: int, flush: int): int {
    if flush <= 0 then limit else limit + flush + 1
  }

  /** How many of the newest-first messages are not older than the anchor. */
  function Visible(msgs: seq<Message>, anchor: string): (n: nat)
    ensures n <= |msgs|
  {
    if msgs == [] || SnowflakeLess(msgs[0].id, anchor) then 0 else 1 + Visible(msgs[1..], anchor)
  }

  function MinInt(a: int, b: int): int {
    if a <= b then a else b
  }

  /** The size of the window over `msgs`, and whether it is anchored anew. */
  function WindowSize(anchor: Option<string>, msgs: seq<Message>, limit: nat, flush: nat): (r: (nat, bool))
    ensures r.0 <= |msgs|
  {
    var newest := MinInt(limit, |msgs|);
    if anchor.None? then (newest, true)
    else
      var visible := Visible(msgs, anchor.value);
      if visible > limit + flush || visible == 0 then (newest, true) else (visible, false)
  }

  class Window {
    // Channel ID to the ID of the oldest message in its window.
    var anchors: map<string, string>

    constructor ()
      ensures anchors == map[]
    {
      anchors := map[];
    }

    function Anchor(channel: string): Option<string>
      reads this
    {
      if channel in anchors then Some(anchors[channel]) else None
    }

    /** The window of a channel from its newest-first messages. */
    method Apply(channel: string, msgs: seq<Message>, limit: int, flush: int) returns (window: seq<Message>)
      modifies this
      ensures limit <= 0 ==> window == [] && anchors == old(anchors)
      ensures limit > 0 && flush <= 0 ==> window == msgs[..MinInt(limit, |msgs|)] && anchors == old(anchors)
      ensures limit > 0 && flush > 0 && msgs == [] ==> window == [] && anchors == old(anchors)
      ensures limit > 0 && flush > 0 && msgs != [] ==>
        var r := WindowSize(old(Anchor(channel)), msgs, limit, flush);
        && r.0 > 0 && window == msgs[..r.0]
        && anchors == if r.1 then old(anchors)[channel := msgs[r.0 - 1].id] else old(anchors)
    {
      if limit <= 0 {
        return [];
      }
      if flush <= 0 {
        if |msgs| > limit {
          return msgs[..limit];
        }
        return msgs;
      }
      if |msgs| == 0 {
        return msgs;
      }
      if channel !in anchors {
        window := Reanchor(channel, msgs, limit);
        return;
      }
      var anchor, visible := anchors[channel], 0;
      while visible < |msgs| && !SnowflakeLess(msgs[visible].id, anchor)
        invariant 0 <= visible <= |msgs| && Visible(msgs, anchor) == visible + Visible(msgs[visible..], anchor)
      {
        visible := visible + 1;
      }
      if visible > limit + flush || visible == 0 {
        window := Reanchor(channel, msgs, limit);
        return;
      }
      return msgs[..visible];
    }

    method Reanchor(channel: string, msgs: seq<Message>, limit: nat) returns (window: seq<Message>)
      requires limit > 0 && msgs != []
      modifies this
      ensures var n := MinInt(limit, |msgs|);
        window == msgs[..n] && anchors == old(anchors)[channel := msgs[n - 1].id]
    {
      var n := if limit <= |msgs| then limit else |msgs|;
      anchors := anchors[channel := msgs[n - 1].id];
      return msgs[..n];
    }

    method Reset(channel: string)
      modifies this
      ensures anchors == old(anchors) - {channel}
    {
      anchors := anchors - {channel};
    }
  }

  // ---- The cutoff of the clear-context command ----

  predicate Shows(cutoff: Option<int>, m: Message) {
    cutoff.None? || m.sent.None? || m.sent.value > cutoff.value
  }

  function Shown(msgs: seq<Message>, cutoff: Option<int>): seq<Message> {
    if msgs == [] then []
    else Shown(msgs[..|msgs| - 1], cutoff) + if Shows(cutoff, msgs[|msgs| - 1]) then [msgs[|msgs| - 1]] else []
  }

  class Cutoffs {
    var at: map<string, int>

    constructor ()
      ensures at == map[]
    {
      at := map[];
    }

    function Get(channel: string): Option<int>
      reads this
    {
      if channel in at then Some(at[channel]) else None
    }

    /** applyContextCutoff: drops messages sent at or before the channel's cutoff. */
    method Apply(channel: string, msgs: seq<Message>) returns (out: seq<Message>)
      ensures out == Shown(msgs, Get(channel))
      ensures forall m :: m in out <==>
        m in msgs && (channel !in at || m.sent.None? || m.sent.value > at[channel])
    {
      ShownExactly(msgs, Get(channel));
      var cutoff := Get(channel);
      if cutoff.None? {
        AllShown(msgs, None);
        return msgs;
      }
      out := [];
      for i := 0 to |msgs|
        invariant out == Shown(msgs[..i], cutoff)
      {
        assert msgs[..i + 1][..i] == msgs[..i];
        if Shows(cutoff, msgs[i]) {
          out := out + [msgs[i]];
        }
      }
      assert msgs[..|msgs|] == msgs;
    }
  }

  lemma {:induction false} ShownExactly(msgs: seq<Message>, cutoff: Option<int>)
    ensures forall m :: m in Shown(msgs, cutoff) <==>
      m in msgs && (cutoff.None? || m.sent.None? || m.sent.value > cutoff.value)
  {
    if msgs != [] {
      var rest, last := msgs[..|msgs| - 1], msgs[|msgs| - 1];
      ShownExactly(rest, cutoff);
      assert msgs == rest + [last];
    }
  }

  lemma {:induction false} AllShown(msgs: seq<Message>, cutoff: Option<int>)
    requires forall m :: m in msgs ==> Shows(cutoff, m)
    ensures Shown(msgs, cutoff) == msgs
  {
    if msgs != [] {
      AllShown(msgs[..|msgs| - 1], cutoff);
    }
  }

  // What is newest first is shown up to the cutoff.
  lemma {:induction false} ShownUpTo(msgs: seq<Message>, cutoff: Option<int>, n: nat)
    requires n <= |msgs|
    requires forall i :: 0 <= i < |msgs| ==> (Shows(cutoff, msgs[i]) <==> i < n)
    ensures Shown(msgs, cutoff) == msgs[..n]
  {
    if n == |msgs| {
      AllShown(msgs, cutoff);
      assert msgs[..n] == msgs;
    } else {
      ShownUpTo(msgs[..|msgs| - 1], cutoff, n);
      assert msgs[..|msgs| - 1][..n] == msgs[..n];
    }
  }

  /** In a channel cut in two by the cutoff, only the messages after it are there to be fetched. */
  lemma CutoffHidesTheOlder(hidden: seq<Message>, history: seq<Message>, cutoff: Option<int>, n: nat)
    requires CutInTwo(hidden, history, cutoff)
    ensures Shown(Newest(hidden + history, n), cutoff) == Newest(history, n)
  {
    var all, msgs := hidden + history, Newest(hidden + history, n);
    forall i | 0 <= i < |msgs|
      ensures Shows(cutoff, msgs[i]) <==> i < |Newest(history, n)|
    {
      assert msgs[i] == all[|all| - 1 - i];
      assert i < |history| ==> all[|all| - 1 - i] == history[|history| - 1 - i];
      assert i >= |history| ==> all[|all| - 1 - i] == hidden[|all| - 1 - i];
    }
    ShownUpTo(msgs, cutoff, |Newest(history, n)|);
  }

  predicate CutInTwo(hidden: seq<Message>, history: seq<Message>, cutoff: Option<int>) {
    (forall m :: m in hidden ==> !Shows(cutoff, m)) && (forall m :: m in history ==> Shows(cutoff, m))
  }

  /** A channel in order of time is always cut in two. */
  lemma CutoffCuts(channel: seq<Message>, cutoff: Option<int>) returns (n: nat)
    requires forall m :: m in channel ==> m.sent.Some?
    requires forall i, j :: 0 <= i < j < |channel| ==> channel[i].sent.value <= channel[j].sent.value
    ensures n <= |channel| && CutInTwo(channel[..n], channel[n..], cutoff)
  {
    n := |channel|;
    while n > 0 && Shows(cutoff, channel[n - 1])
      invariant n <= |channel| && forall m :: m in channel[n..] ==> Shows(cutoff, m)
    {
      n := n - 1;
      assert channel[n..] == [channel[n]] + channel[n + 1..];
    }
  }

  // ---- An append-only channel ----

  predicate Older(history: seq<Message>, i: nat, j: nat)
    requires i < |history| && j < |history|
  {
    SnowflakeLess(history[i].id, history[j].id)
  }

  /** A channel's messages, oldest first. */
  predicate IsHistory(history: seq<Message>) {
    forall i, j :: 0 <= i < j < |history| ==> Older(history, i, j)
  }

  /** The newest `n` messages, newest first: what the program fetches. */
  function Newest(history: seq<Message>, n: nat): (msgs: seq<Message>)
    ensures |msgs| == MinInt(n, |history|)
    ensures forall i :: 0 <= i < |msgs| ==> msgs[i] == history[|history| - 1 - i]
  {
    seq(MinInt(n, |history|), i requires 0 <= i < |history| => history[|history| - 1 - i])
  }

  lemma {:induction false} VisibleCount(history: seq<Message>, msgs: seq<Message>, from: nat, a: nat)
    requires IsHistory(history) && a < |history| && from + |msgs| <= |history|
    requires forall i :: 0 <= i < |msgs| ==> msgs[i] == history[|history| - 1 - from - i]
    ensures Visible(msgs, history[a].id) == if |history| - from <= a then 0 else MinInt(|msgs|, |history| - from - a)
    decreases |msgs|
  {
    if msgs != [] {
      var top := |history| - 1 - from;
      LessIsRankOrder(history[top].id, history[a].id);
      LessIsRankOrder(history[a].id, history[top].id);
      assert top < a ==> Older(history, top, a);
      assert a < top ==> Older(history, a, top);
      VisibleCount(history, msgs[1..], from + 1, a);
    }
  }

  /**
   One request on a channel whose window is anchored at message `a` (None: not anchored yet).
   The anchor is given by its index in the history.
   */
  function NextAnchor(length: nat, a: Option<nat>, limit: nat, flush: nat): Option<nat> {
    if length == 0 then a
    else if a.None? || length - a.value > limit + flush then Some(length - MinInt(limit, length))
    else a
  }

  function IdOf(history: seq<Message>, a: Option<nat>): Option<string>
    requires a.Some? ==> a.value < |history|
  {
    if a.None? then None else Some(history[a.value].id)
  }

  /**
   What Apply does with a fetch of FetchSize messages is what its index form says: the window
   reaches from the new anchor to the newest message.
   */
  lemma WindowFollowsIndex(history: seq<Message>, a: Option<nat>, limit: nat, flush: nat)
    requires IsHistory(history) && history != [] && limit > 0 && flush > 0 && (a.Some? ==> a.value < |history|)
    ensures var msgs := Newest(history, FetchSize(limit, flush));
      var r, b := WindowSize(IdOf(history, a), msgs, limit, flush), NextAnchor(|history|, a, limit, flush);
      && b.Some? && b.value < |history| && r.0 == |history| - b.value && msgs[r.0 - 1] == history[b.value]
      && r.1 == (a.None? || |history| - a.value > limit + flush)
  {
    var msgs := Newest(history, FetchSize(limit, flush));
    if a.Some? {
      VisibleCount(history, msgs, 0, a.value);
    }
  }

  // The history at the time of each request is a prefix of the whole.
  predicate Requests(history: seq<Message>, lengths: seq<nat>) {
    && (forall k :: 0 <= k < |lengths| ==> lengths[k] <= |history|)
    && (forall j, k :: 0 <= j <= k < |lengths| ==> lengths[j] <= lengths[k])
  }

  /** The anchor after the first `k` requests. */
  function AnchorAfter(lengths: seq<nat>, k: nat, limit: nat, flush: nat): Option<nat>
    requires k <= |lengths|
  {
    if k == 0 then None else NextAnchor(lengths[k - 1], AnchorAfter(lengths, k - 1, limit, flush), limit, flush)
  }

  /** The window of the k-th request, oldest message first. */
  function WindowAt(history: seq<Message>, lengths: seq<nat>, k: nat, limit: nat, flush: nat): seq<Message>
    requires Requests(history, lengths) && k < |lengths|
  {
    var a := AnchorAfter(lengths, k + 1, limit, flush);
    if a.None? || a.value > lengths[k] then [] else history[a.value..lengths[k]]
  }

  predicate Reanchors(lengths: seq<nat>, k: nat, limit: nat, flush: nat)
    requires k < |lengths|
  {
    AnchorAfter(lengths, k + 1, limit, flush) != AnchorAfter(lengths, k, limit, flush)
  }

  lemma {:induction false} AnchorInvariant(lengths: seq<nat>, k: nat, limit: nat, flush: nat)
    requires k < |lengths| && limit > 0 && flush > 0
    requires forall j, m :: 0 <= j <= m < |lengths| ==> lengths[j] <= lengths[m]
    ensures var a, n := AnchorAfter(lengths, k + 1, limit, flush), lengths[k];
      if n == 0 then a.None? else a.Some? && a.value <= n && MinInt(limit, n) <= n - a.value <= limit + flush
  {
    if k > 0 {
      AnchorInvariant(lengths, k - 1, limit, flush);
    }
  }

  /**
   Every window is a newest suffix of the channel with between min(limit, |history|) and
   limit + flush messages.
   */
  lemma WindowIsBoundedSuffix(history: seq<Message>, lengths: seq<nat>, k: nat, limit: nat, flush: nat)
    requires Requests(history, lengths) && k < |lengths| && limit > 0 && flush > 0
    ensures var w, n := WindowAt(history, lengths, k, limit, flush), lengths[k];
      MinInt(limit, n) <= |w| <= limit + flush && |w| <= n && w == history[n - |w|..n]
  {
    AnchorInvariant(lengths, k, limit, flush);
  }

  /** Unless it is anchored anew, a request's window extends the previous one at the end. */
  lemma WindowOnlyGrows(history: seq<Message>, lengths: seq<nat>, k: nat, limit: nat, flush: nat)
    requires Requests(history, lengths) && 0 < k < |lengths| && limit > 0 && flush > 0
    requires !Reanchors(lengths, k, limit, flush)
    ensures WindowAt(history, lengths, k - 1, limit, flush) <= WindowAt(history, lengths, k, limit, flush)
  {
    AnchorInvariant(lengths, k - 1, limit, flush);
    AnchorInvariant(lengths, k, limit, flush);
  }

  lemma {:induction false} AnchorsAdvance(lengths: seq<nat>, j: nat, k: nat, limit: nat, flush: nat)
    requires j <= k < |lengths| && limit > 0 && flush > 0 && lengths[j] > 0
    requires forall i, m :: 0 <= i <= m < |lengths| ==> lengths[i] <= lengths[m]
    ensures var a, b := AnchorAfter(lengths, j + 1, limit, flush), AnchorAfter(lengths, k + 1, limit, flush);
      a.Some? && b.Some? && a.value <= b.value
  {
    AnchorInvariant(lengths, k, limit, flush);
    AnchorInvariant(lengths, j, limit, flush);
    if j < k {
      AnchorsAdvance(lengths, j, k - 1, limit, flush);
      AnchorInvariant(lengths, k - 1, limit, flush);
    }
  }

  /** At least flush + 1 new messages lie between two anchorings, so most requests extend. */
  lemma ReanchoringsAreFarApart(history: seq<Message>, lengths: seq<nat>, j: nat, k: nat, limit: nat, flush: nat)
    requires Requests(history, lengths) && j < k < |lengths| && limit > 0 && flush > 0
    requires Reanchors(lengths, j, limit, flush) && Reanchors(lengths, k, limit, flush)
    ensures lengths[k] - lengths[j] >= flush + 1
  {
    AnchorInvariant(lengths, j, limit, flush);
    AnchorsAdvance(lengths, j, k - 1, limit, flush);
  }

  function Reversed(s: seq<Message>): (r: seq<Message>)
    ensures |r| == |s| && forall i :: 0 <= i < |s| ==> r[i] == s[|s| - 1 - i]
  {
    seq(|s|, i requires 0 <= i < |s| => s[|s| - 1 - i])
  }

  /**
   fetchContextMessages on a channel that holds `hidden` up to its cutoff and `sofar` after it:
   the window over the latter.
   */
  method FetchContext(w: Window, c: Cutoffs, channel: string, hidden: seq<Message>, sofar: seq<Message>,
                      limit: nat, flush: nat, ghost a: Option<nat>)
    returns (window: seq<Message>)
    requires IsHistory(sofar) && limit > 0 && flush > 0 && CutInTwo(hidden, sofar, c.Get(channel))
    requires (a.Some? ==> a.value < |sofar|) && w.Anchor(channel) == IdOf(sofar, a)
    modifies w
    ensures var b := NextAnchor(|sofar|, a, limit, flush);
      && (b.Some? ==> b.value < |sofar|) && w.Anchor(channel) == IdOf(sofar, b)
      && window == Reversed(if b.Some? then sofar[b.value..] else [])
  {
    if sofar != [] {
      WindowFollowsIndex(sofar, a, limit, flush);
    }
    var msgs := FetchShown(c, channel, hidden, sofar, FetchSize(limit, flush));
    window := w.Apply(channel, msgs, limit, flush);
  }

  method FetchShown(c: Cutoffs, channel: string, hidden: seq<Message>, sofar: seq<Message>, n: nat)
    returns (msgs: seq<Message>)
    requires CutInTwo(hidden, sofar, c.Get(channel))
    ensures msgs == Newest(sofar, n)
  {
    CutoffHidesTheOlder(hidden, sofar, c.Get(channel), n);
    msgs := c.Apply(channel, Newest(hidden + sofar, n));
  }

  /** Without a limit there is no window; without a flush it is the newest messages after the cutoff. */
  method FetchUnanchored(w: Window, c: Cutoffs, channel: string, hidden: seq<Message>, sofar: seq<Message>,
                         limit: int, flush: int)
    returns (window: seq<Message>)
    requires (limit <= 0 || flush <= 0) && CutInTwo(hidden, sofar, c.Get(channel))
    modifies w
    ensures w.anchors == old(w.anchors) && window == Newest(sofar, if limit < 0 then 0 else limit)
  {
    var n := FetchSize(limit, flush);
    var msgs := FetchShown(c, channel, hidden, sofar, if n < 0 then 0 else n);
    window := w.Apply(channel, msgs, limit, flush);
  }

  /** clearChannelContext: hides what was sent up to now and forgets the channel's anchor. */
  method ClearContext(w: Window, c: Cutoffs, channel: string, now: int)
    modifies w, c
    ensures c.at == old(c.at)[channel := now] && w.anchors == old(w.anchors) - {channel}
  {
    c.at := c.at[channel := now];
    w.Reset(channel);
  }

  lemma HistoryStart(history: seq<Message>, n: nat)
    requires IsHistory(history) && n <= |history|
    ensures IsHistory(history[..n])
  {
    assert forall i, j :: 0 <= i < j < n ==> Older(history[..n], i, j) == Older(history, i, j);
  }

  /**
   A run of requests on one channel since it was cleared (or never was): the windows the program
   builds are those of WindowAt on what was sent since, newest message first.
   */
  method ServeRequests(w: Window, c: Cutoffs, channel: string, hidden: seq<Message>, history: seq<Message>,
                       lengths: seq<nat>, limit: nat, flush: nat)
    returns (windows: seq<seq<Message>>)
    requires IsHistory(history) && Requests(history, lengths) && limit > 0 && flush > 0 && channel !in w.anchors
    requires CutInTwo(hidden, history, c.Get(channel))
    modifies w
    ensures |windows| == |lengths|
    ensures forall k :: 0 <= k < |lengths| ==> windows[k] == Reversed(WindowAt(history, lengths, k, limit, flush))
  {
    windows := [];
    for k := 0 to |lengths|
      invariant |windows| == k
      invariant forall i :: 0 <= i < k ==> windows[i] == Reversed(WindowAt(history, lengths, i, limit, flush))
      invariant var a := AnchorAfter(lengths, k, limit, flush);
        (a.Some? ==> k > 0 && a.value < lengths[k - 1]) && w.Anchor(channel) == IdOf(history, a)
    {
      var sofar := history[..lengths[k]];
      HistoryStart(history, lengths[k]);
      var window := FetchContext(w, c, channel, hidden, sofar, limit, flush, AnchorAfter(lengths, k, limit, flush));
      windows := windows + [window];
      AnchorInvariant(lengths, k, limit, flush);
      ghost var b := AnchorAfter(lengths, k + 1, limit, flush);
      assert b.Some? ==> sofar[b.value..] == history[b.value..lengths[k]];
    }
  }

  /**
   Requests after the context was cleared at `now`, whatever was sent before: their windows are those
   on what was sent later, and no message sent at or before `now` is in one.
   */
  method ServeAfterClear(w: Window, c: Cutoffs, channel: string, now: int, earlier: seq<Message>,
                         later: seq<Message>, lengths: seq<nat>, limit: nat, flush: nat)
    returns (windows: seq<seq<Message>>)
    requires IsHistory(later) && Requests(later, lengths) && limit > 0 && flush > 0
    requires forall m :: m in earlier ==> m.sent.Some? && m.sent.value <= now
    requires forall m :: m in later ==> m.sent.Some? ==> m.sent.value > now
    modifies w, c
    ensures |windows| == |lengths|
    ensures forall k :: 0 <= k < |lengths| ==> windows[k] == Reversed(WindowAt(later, lengths, k, limit, flush))
    ensures forall k, m :: 0 <= k < |lengths| && m in windows[k] && m.sent.Some? ==> m.sent.value > now
  {
    ClearContext(w, c, channel, now);
    windows := ServeRequests(w, c, channel, earlier, later, lengths, limit, flush);
  }
}
