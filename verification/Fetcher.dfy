/**
 Channel history is fetched backwards in pages. The server is any function of the number of
 the request and its arguments, so it may reply anything; what it takes to be honest is
 spelled out below.
 */
module Fetcher {
  import opened Wrappers
  import opened Snowflake

  const API_MAX_LIMIT: nat := 100
  const MAX_RATE_LIMIT_RETRIES: nat := 3

  datatype Message = Message(id: string, content: string)

  // A page may contain missing messages (nil pointers).
  datatype Reply = Page(batch: seq<Option<Message>>) | RateLimited | Failed

  // The reply to the n-th request, asking for `limit` messages before an ID ("" for the newest).
  type Server = (nat, nat, string) -> Reply

  predicate Usable(m: Option<Message>) {
    m.Some? && m.value.id != ""
  }

  function IdSet(ms: seq<Message>): set<string> {
    set m | m in ms :: m.id
  }

  predicate DistinctIds(ms: seq<Message>) {
    forall i, j :: 0 <= i < j < |ms| ==> ms[i].id != ms[j].id
  }

  // ---- The honest server ----

  predicate Newer(channel: seq<Message>, i: nat, j: nat)
    requires i < |channel| && j < |channel|
  {
    SnowflakeLess(channel[j].id, channel[i].id)
  }

  /** A channel's messages, newest first. */
  predicate IsChannel(channel: seq<Message>) {
    && (forall i :: 0 <= i < |channel| ==> channel[i].id != "")
    && (forall i, j :: 0 <= i < j < |channel| ==> Newer(channel, i, j))
  }

  function AsPage(ms: seq<Message>): seq<Option<Message>> {
    seq(|ms|, i requires 0 <= i < |ms| => Some(ms[i]))
  }

  /** The messages older than `before`: those after it in the channel, or all for "". */
  function OlderFrom(channel: seq<Message>, before: string): (i: nat)
    ensures i <= |channel|
    decreases |channel|
  {
    if before == "" || channel == [] || SnowflakeLess(channel[0].id, before) then 0
    else 1 + OlderFrom(channel[1..], before)
  }

  lemma {:induction false} OlderFromSplits(channel: seq<Message>, before: string)
    requires before != ""
    ensures var i := OlderFrom(channel, before);
      && (forall j :: 0 <= j < i ==> !SnowflakeLess(channel[j].id, before))
      && (i < |channel| ==> SnowflakeLess(channel[i].id, before))
    decreases |channel|
  {
    if channel != [] && !SnowflakeLess(channel[0].id, before) {
      OlderFromSplits(channel[1..], before);
    }
  }

  function Newest(ms: seq<Message>, n: nat): seq<Message> {
    if |ms| <= n then ms else ms[..n]
  }

  /** At most `n` messages from index `i` on. */
  function Slice(ms: seq<Message>, i: nat, n: nat): seq<Message>
    requires i <= |ms|
  {
    ms[i..if |ms| - i <= n then |ms| else i + n]
  }

  predicate HonestReply(server: Server, channel: seq<Message>, n: nat, limit: nat, before: string) {
    server(n, limit, before).Page? ==>
      server(n, limit, before) == Page(AsPage(Slice(channel, OlderFrom(channel, before), limit)))
  }

  /** Every page it sends holds the newest `limit` messages before the cursor. */
  ghost predicate Honest(server: Server, channel: seq<Message>) {
    forall n, limit, before :: HonestReply(server, channel, n, limit, before)
  }

  // ---- The program ----

  /** oldestID: the smallest usable ID of a batch in snowflake order, "" if it has none. */
  method OldestId(batch: seq<Option<Message>>) returns (oldest: string)
    ensures oldest == "" <==> forall m :: m in batch ==> !Usable(m)
    ensures oldest != "" ==> exists m :: m in batch && Usable(m) && m.value.id == oldest
    ensures forall m :: m in batch && Usable(m) ==> !SnowflakeLess(m.value.id, oldest)
  {
    oldest := "";
    for i := 0 to |batch|
      invariant oldest == "" <==> forall m :: m in batch[..i] ==> !Usable(m)
      invariant oldest != "" ==> exists m :: m in batch[..i] && Usable(m) && m.value.id == oldest
      invariant forall m :: m in batch[..i] && Usable(m) ==> !SnowflakeLess(m.value.id, oldest)
    {
      var m := batch[i];
      assert batch[..i + 1] == batch[..i] + [m];
      if Usable(m) {
        var less := oldest == "" || SnowflakeLess(m.value.id, oldest);
        LessIsRankOrder(m.value.id, oldest);
        forall x | x in batch[..i] && Usable(x)
          ensures !SnowflakeLess(x.value.id, if less then m.value.id else oldest)
        {
          LessIsRankOrder(x.value.id, oldest);
          LessIsRankOrder(x.value.id, m.value.id);
        }
        if less {
          LessIsRankOrder(m.value.id, m.value.id);
          oldest := m.value.id;
        }
      }
    }
    assert batch[..|batch|] == batch;
  }

  /** fetchPage: one page, waiting out rate limits a bounded number of times. */
  method FetchPage(server: Server, n: nat, limit: nat, before: string)
    returns (reply: Option<seq<Option<Message>>>, next: nat)
    ensures n < next <= n + MAX_RATE_LIMIT_RETRIES + 1
    ensures reply.Some? ==> server(next - 1, limit, before) == Page(reply.value)
    ensures forall k :: n <= k < next - 1 ==> server(k, limit, before).RateLimited?
    ensures reply.None? && !server(next - 1, limit, before).Failed? ==> server(next - 1, limit, before).RateLimited?
  {
    next := n;
    var attempt := 0;
    while true
      invariant next == n + attempt && attempt <= MAX_RATE_LIMIT_RETRIES
      invariant forall k :: n <= k < next ==> server(k, limit, before).RateLimited?
      decreases MAX_RATE_LIMIT_RETRIES - attempt
    {
      var r := server(next, limit, before);
      next := next + 1;
      match r
      case Page(batch) => return Some(batch), next;
      case Failed => return None, next;
      case RateLimited =>
        var sleepFails: bool := *;
        if attempt >= MAX_RATE_LIMIT_RETRIES || sleepFails {
          return None, next;
        }
        attempt := attempt + 1;
    }
  }

  // ---- Deduplication ----

  /** The usable messages of a batch whose ID is not in `seen` and not earlier in the batch. */
  function Fresh(batch: seq<Option<Message>>, seen: set<string>): seq<Message> {
    if batch == [] then []
    else
      var last, news := batch[|batch| - 1], Fresh(batch[..|batch| - 1], seen);
      if Usable(last) && last.value.id !in seen + IdSet(news) then news + [last.value] else news
  }

  lemma {:induction false} FreshIsNew(batch: seq<Option<Message>>, seen: set<string>)
    ensures DistinctIds(Fresh(batch, seen))
    ensures forall m :: m in Fresh(batch, seen) ==> m.id != "" && m.id !in seen && Some(m) in batch
    ensures forall m :: m in batch && Usable(m) ==> m.value.id in seen + IdSet(Fresh(batch, seen))
  {
    if batch != [] {
      var last, rest := batch[|batch| - 1], batch[..|batch| - 1];
      FreshIsNew(rest, seen);
      var news := Fresh(rest, seen);
      assert batch == rest + [last];
      assert forall i :: 0 <= i < |news| ==> news[i] in news;
      if Usable(last) && last.value.id !in seen + IdSet(news) {
        assert IdSet(news + [last.value]) == IdSet(news) + {last.value.id};
      }
    }
  }

  // Of messages that are all new and distinct, none is dropped.
  lemma {:induction false} FreshOfNew(ms: seq<Message>, n: nat, seen: set<string>)
    requires DistinctIds(ms) && n <= |ms| && forall i :: 0 <= i < |ms| ==> ms[i].id != "" && ms[i].id !in seen
    ensures Fresh(AsPage(ms)[..n], seen) == ms[..n]
  {
    if n > 0 {
      var page, m := AsPage(ms)[..n], ms[n - 1];
      FreshOfNew(ms, n - 1, seen);
      assert page[..n - 1] == AsPage(ms)[..n - 1] && page[n - 1] == Some(m);
      assert m.id !in IdSet(ms[..n - 1]) by {
        assert forall i :: 0 <= i < n - 1 ==> ms[i].id != ms[n - 1].id;
      }
      assert ms[..n] == ms[..n - 1] + [m];
    }
  }

  method AddNew(all: seq<Message>, seen: set<string>, batch: seq<Option<Message>>)
    returns (more: seq<Message>, seen': set<string>)
    ensures more == all + Fresh(batch, seen) && seen' == seen + IdSet(Fresh(batch, seen))
  {
    more, seen' := all, seen;
    for i := 0 to |batch|
      invariant more == all + Fresh(batch[..i], seen) && seen' == seen + IdSet(Fresh(batch[..i], seen))
    {
      var m := batch[i];
      assert batch[..i + 1][..i] == batch[..i];
      if Usable(m) && m.value.id !in seen' {
        ghost var news := Fresh(batch[..i], seen);
        assert IdSet(news + [m.value]) == IdSet(news) + {m.value.id};
        more, seen' := more + [m.value], seen' + {m.value.id};
      }
    }
    assert batch[..|batch|] == batch;
  }

  /** As AddNew; what was distinct stays distinct. */
  method AddPage(all: seq<Message>, seen: set<string>, batch: seq<Option<Message>>)
    returns (more: seq<Message>, seen': set<string>)
    requires DistinctIds(all) && seen == IdSet(all) && forall m :: m in all ==> m.id != ""
    ensures more == all + Fresh(batch, seen) && seen' == IdSet(more)
    ensures DistinctIds(more) && forall m :: m in more ==> m.id != ""
  {
    more, seen' := AddNew(all, seen, batch);
    FreshIsNew(batch, seen);
    ghost var news := Fresh(batch, seen);
    assert forall i :: 0 <= i < |news| ==> news[i] in news;
    assert forall i :: 0 <= i < |all| ==> all[i].id in seen;
  }

  // ---- Against an honest server ----

  lemma OlderThanLast(channel: seq<Message>, n: nat)
    requires IsChannel(channel) && 0 < n <= |channel|
    ensures OlderFrom(channel, channel[n - 1].id) == n
  {
    var i := OlderFrom(channel, channel[n - 1].id);
    OlderFromSplits(channel, channel[n - 1].id);
    forall j | 0 <= j < |channel|
      ensures SnowflakeLess(channel[j].id, channel[n - 1].id) <==> n <= j
    {
      LessIsRankOrder(channel[j].id, channel[n - 1].id);
      LessIsRankOrder(channel[n - 1].id, channel[j].id);
      assert j < n - 1 ==> Newer(channel, j, n - 1);
      assert n - 1 < j ==> Newer(channel, n - 1, j);
    }
    assert i < |channel| ==> SnowflakeLess(channel[i].id, channel[n - 1].id);
    assert n < |channel| ==> SnowflakeLess(channel[n].id, channel[n - 1].id);
    assert n <= i <= n;
  }

  lemma ChannelIdsDiffer(channel: seq<Message>)
    requires IsChannel(channel)
    ensures DistinctIds(channel)
  {
    forall i, j | 0 <= i < j < |channel|
      ensures channel[i].id != channel[j].id
    {
      LessIsRankOrder(channel[j].id, channel[i].id);
      assert Newer(channel, i, j);
    }
  }

  lemma SliceIsNew(channel: seq<Message>, n: nat, to: nat)
    requires IsChannel(channel) && n <= to <= |channel|
    ensures var more := channel[n..to]; Fresh(AsPage(more), IdSet(channel[..n])) == more
  {
    var more := channel[n..to];
    ChannelIdsDiffer(channel);
    forall i | 0 <= i < |more|
      ensures more[i].id != "" && more[i].id !in IdSet(channel[..n])
    {
      assert forall j :: 0 <= j < n ==> channel[j].id != channel[n + i].id;
    }
    assert forall i :: 0 <= i < |more| ==> more[i] == channel[n + i];
    FreshOfNew(more, |more|, IdSet(channel[..n]));
    assert AsPage(more)[..|more|] == AsPage(more) && more[..|more|] == more;
  }

  /** It never refuses a request. */
  ghost predicate AlwaysReplies(server: Server) {
    forall n, limit, before :: server(n, limit, before).Page?
  }

  /** The next page of an honest server continues where the messages fetched so far end. */
  lemma NextHonestPage(server: Server, channel: seq<Message>, n: nat, k: nat, limit: nat, before: string)
    requires Honest(server, channel) && IsChannel(channel) && n <= |channel|
    requires if n == 0 then before == "" else before == channel[n - 1].id
    ensures var more := Slice(channel, n, limit);
      && (server(k, limit, before).Page? ==> server(k, limit, before) == Page(AsPage(more)))
      && Fresh(AsPage(more), IdSet(channel[..n])) == more
  {
    if n > 0 {
      OlderThanLast(channel, n);
    }
    assert HonestReply(server, channel, k, limit, before);
    SliceIsNew(channel, n, if |channel| - n <= limit then |channel| else n + limit);
  }

  lemma OldestIsLast(channel: seq<Message>, n: nat, more: seq<Message>, oldest: string)
    requires IsChannel(channel) && n + |more| <= |channel| && more == channel[n..n + |more|] && more != []
    requires oldest != "" && exists m :: m in AsPage(more) && Usable(m) && m.value.id == oldest
    requires forall m :: m in AsPage(more) && Usable(m) ==> !SnowflakeLess(m.value.id, oldest)
    ensures oldest == channel[n + |more| - 1].id
  {
    var m :| m in AsPage(more) && Usable(m) && m.value.id == oldest;
    var i :| 0 <= i < |more| && AsPage(more)[i] == m;
    var last := |more| - 1;
    assert AsPage(more)[last] in AsPage(more) && Usable(AsPage(more)[last]);
    assert !Newer(channel, n + i, n + last);
  }

  /** Against an honest server the cursor never stalls. */
  lemma CursorMoves(channel: seq<Message>, limit: nat, all: seq<Message>, before: string, requests: nat,
                    more: seq<Message>, next: string)
    requires IsChannel(channel) && InStep(channel, limit, all, before, requests)
    requires more != [] && |all| + |more| <= |channel| && more == channel[|all|..|all| + |more|]
    requires next == channel[|all| + |more| - 1].id
    ensures next != "" && (before != "" ==> SnowflakeLess(next, before))
  {
    if all != [] {
      assert Newer(channel, |all| - 1, |all| + |more| - 1);
    }
  }

  // Why fetching ended.
  datatype Stop = Completed | Cancelled | FetchError

  function Pages(limit: nat): nat {
    (limit + API_MAX_LIMIT - 1) / API_MAX_LIMIT
  }

  function PagesNeeded(length: nat, limit: nat): nat {
    if length >= limit then Pages(limit) else length / API_MAX_LIMIT + 1
  }

  // Where fetching from an honest server stands after `requests` full pages.
  ghost predicate InStep(channel: seq<Message>, limit: nat, all: seq<Message>, before: string, requests: nat) {
    && |all| <= |channel| && all == channel[..|all|]
    && (if all == [] then before == "" else before == channel[|all| - 1].id)
    && |all| == (if requests * API_MAX_LIMIT <= limit then requests * API_MAX_LIMIT else limit)
    && requests == Pages(|all|)
  }

  function PageSize(limit: nat, all: seq<Message>): nat {
    if limit - |all| < 0 then 0 else if limit - |all| < API_MAX_LIMIT then limit - |all| else API_MAX_LIMIT
  }

  // `more` is what an honest server has to add to `all` next.
  ghost predicate Continues(channel: seq<Message>, all: seq<Message>, more: seq<Message>, size: nat) {
    && Fresh(AsPage(more), IdSet(all)) == more && |more| <= size
    && |all| + |more| <= |channel| && more == channel[|all|..|all| + |more|]
    && (|more| < size ==> |all| + |more| == |channel|)
  }

  lemma NextRound(server: Server, channel: seq<Message>, limit: nat, all: seq<Message>, before: string, requests: nat)
    returns (more: seq<Message>)
    requires Honest(server, channel) && IsChannel(channel) && InStep(channel, limit, all, before, requests)
    requires |all| < limit
    ensures Continues(channel, all, more, PageSize(limit, all))
    ensures forall k, reply :: server(k, PageSize(limit, all), before) == Page(reply) ==> reply == AsPage(more)
  {
    var size := PageSize(limit, all);
    more := Slice(channel, |all|, size);
    NextHonestPage(server, channel, |all|, 0, size, before);
    forall k, reply | server(k, size, before) == Page(reply)
      ensures reply == AsPage(more)
    {
      NextHonestPage(server, channel, |all|, k, size, before);
    }
  }

  // A short page ends the channel.
  lemma AfterShortPage(channel: seq<Message>, limit: nat, all: seq<Message>, before: string, requests: nat,
                       more: seq<Message>)
    requires InStep(channel, limit, all, before, requests) && |all| < limit && |more| < PageSize(limit, all)
    requires Continues(channel, all, more, PageSize(limit, all))
    ensures all + more == channel && |channel| < limit && requests + 1 == PagesNeeded(|channel|, limit)
  {
    assert |all| == requests * API_MAX_LIMIT;
  }

  lemma FullPageInStep(channel: seq<Message>, limit: nat, all: seq<Message>, before: string, requests: nat,
                       more: seq<Message>)
    requires InStep(channel, limit, all, before, requests) && |all| < limit && |more| == PageSize(limit, all)
    requires |all| + |more| <= |channel| && more == channel[|all|..|all| + |more|]
    ensures InStep(channel, limit, all + more, channel[|all| + |more| - 1].id, requests + 1)
  {
    assert |all| == requests * API_MAX_LIMIT;
    assert all + more == channel[..|all| + |more|];
  }

  // After a full page the cursor is the last message fetched, and it has moved.
  lemma AfterFullPage(channel: seq<Message>, limit: nat, all: seq<Message>, before: string, requests: nat,
                      more: seq<Message>, next: string)
    requires IsChannel(channel) && InStep(channel, limit, all, before, requests) && |all| < limit
    requires |more| == PageSize(limit, all)
    requires Continues(channel, all, more, PageSize(limit, all))
    requires next == "" <==> forall m :: m in AsPage(more) ==> !Usable(m)
    requires next != "" ==> exists m :: m in AsPage(more) && Usable(m) && m.value.id == next
    requires forall m :: m in AsPage(more) && Usable(m) ==> !SnowflakeLess(m.value.id, next)
    ensures next != "" && (before != "" ==> SnowflakeLess(next, before))
    ensures InStep(channel, limit, all + more, next, requests + 1)
  {
    assert AsPage(more)[0] in AsPage(more) && Usable(AsPage(more)[0]);
    OldestIsLast(channel, |all|, more, next);
    CursorMoves(channel, limit, all, before, requests, more, next);
    FullPageInStep(channel, limit, all, before, requests, more);
  }

  ghost predicate OnCourse(server: Server, channel: seq<Message>, limit: nat, all: seq<Message>, before: string,
                           requests: nat) {
    Honest(server, channel) && IsChannel(channel) && InStep(channel, limit, all, before, requests) && |all| < limit
  }

  // A request that was answered with a page.
  datatype Request = Request(before: string, size: nat, page: seq<Option<Message>>)

  ghost predicate WasSent(server: Server, r: Request) {
    exists k :: server(k, r.size, r.before) == Page(r.page)
  }

  /** The cursor cannot move back from this page: it has no usable message, or none is older than the cursor. */
  predicate Stalls(r: Request) {
    || (forall m :: m in r.page ==> !Usable(m))
    || (r.before != "" && forall m :: m in r.page && Usable(m) ==> !SnowflakeLess(m.value.id, r.before))
  }

  /** The cursor is the oldest usable ID of the page. */
  predicate ContinuesAt(r: Request, cursor: string) {
    && (exists m :: m in r.page && Usable(m) && m.value.id == cursor)
    && (forall m :: m in r.page && Usable(m) ==> !SnowflakeLess(m.value.id, cursor))
    && (r.before != "" ==> SnowflakeLess(cursor, r.before))
  }

  /** Every usable message of the pages is there, and nothing else. */
  ghost predicate Collected(log: seq<Request>, all: seq<Message>) {
    && (forall i, m :: 0 <= i < |log| && m in log[i].page && Usable(m) ==> m.value.id in IdSet(all))
    && (forall m :: m in all ==> exists i :: 0 <= i < |log| && Some(m) in log[i].page)
  }

  /** The requests follow each other, each from the oldest ID of the page before. */
  ghost predicate Follows(server: Server, log: seq<Request>, cursor: string) {
    && (forall i :: 0 <= i < |log| ==> WasSent(server, log[i]) && 0 < log[i].size <= API_MAX_LIMIT)
    && (if log == [] then cursor == "" else log[0].before == "")
    && (forall i :: 0 <= i < |log| - 1 ==>
          |log[i].page| >= log[i].size && ContinuesAt(log[i], log[i + 1].before))
  }

  lemma CollectedMore(log: seq<Request>, all: seq<Message>, r: Request, more: seq<Message>)
    requires Collected(log, all) && more == all + Fresh(r.page, IdSet(all))
    ensures Collected(log + [r], more)
  {
    var longer := log + [r];
    FreshIsNew(r.page, IdSet(all));
    assert IdSet(more) == IdSet(all) + IdSet(Fresh(r.page, IdSet(all)));
    forall m | m in more
      ensures exists i :: 0 <= i < |longer| && Some(m) in longer[i].page
    {
      if m in all {
        var i :| 0 <= i < |log| && Some(m) in log[i].page;
        assert longer[i] == log[i];
      } else {
        assert longer[|log|] == r && Some(m) in r.page;
      }
    }
  }

  lemma FollowsMore(server: Server, log: seq<Request>, r: Request, cursor: string)
    requires Follows(server, log, r.before) && WasSent(server, r) && 0 < r.size <= API_MAX_LIMIT
    requires Ready(log, r.before)
    ensures Follows(server, log + [r], cursor)
  {
  }

  // The last page is full, and the cursor is its oldest ID.
  ghost predicate Ready(log: seq<Request>, cursor: string) {
    log != [] ==> |log[|log| - 1].page| >= log[|log| - 1].size && ContinuesAt(log[|log| - 1], cursor)
  }

  // What was requested and collected when the loop goes on at the cursor.
  ghost predicate Logged(server: Server, log: seq<Request>, all: seq<Message>, cursor: string) {
    Collected(log, all) && Follows(server, log, cursor) && Ready(log, cursor)
  }

  // The same when it has ended.
  ghost predicate LogEnds(server: Server, log: seq<Request>, all: seq<Message>) {
    && Collected(log, all) && Follows(server, log, if log == [] then "" else log[|log| - 1].before)
  }

  lemma NextLogged(server: Server, log: seq<Request>, sofar: seq<Message>, r: Request, all: seq<Message>,
                   cursor: string)
    requires Logged(server, log, sofar, r.before) && WasSent(server, r) && 0 < r.size <= API_MAX_LIMIT
    requires all == sofar + Fresh(r.page, IdSet(sofar))
    ensures LogEnds(server, log + [r], all)
    ensures |r.page| >= r.size && ContinuesAt(r, cursor) ==> Logged(server, log + [r], all, cursor)
  {
    CollectedMore(log, sofar, r, all);
    FollowsMore(server, log, r, cursor);
    FollowsMore(server, log, r, r.before);
  }

  // The server has no more before the cursor, as far as the last page tells.
  predicate Exhausted(log: seq<Request>) {
    log != [] && var last := log[|log| - 1]; |last.page| < last.size || Stalls(last)
  }

  lemma LoggedEnds(server: Server, log: seq<Request>, all: seq<Message>, cursor: string)
    requires Logged(server, log, all, cursor)
    ensures LogEnds(server, log, all)
  {
  }

  predicate SeenAll(all: seq<Message>, seen: set<string>) {
    DistinctIds(all) && seen == IdSet(all) && forall m :: m in all ==> m.id != ""
  }

  // How one turn of the loop ended: the server failed, the channel is exhausted or stalled,
  // or there is more before the cursor.
  datatype Turn = Broken | Ended | More(cursor: string)

  // One turn of fetchPaginated's loop.
  method FetchTurn(server: Server, n: nat, all: seq<Message>, seen: set<string>, before: string, batchSize: nat,
                   ghost channel: seq<Message>, ghost limit: nat, ghost requests: nat)
    returns (turn: Turn, all': seq<Message>, seen': set<string>, n': nat, ghost page: seq<Option<Message>>)
    requires SeenAll(all, seen)
    ensures SeenAll(all', seen')
    ensures turn.Broken? ==> all' == all && !AlwaysReplies(server)
    ensures turn.More? ==> turn.cursor != "" && (before != "" ==> SnowflakeLess(turn.cursor, before))
    ensures !turn.Broken? ==> WasSent(server, Request(before, batchSize, page)) && all' == all + Fresh(page, IdSet(all))
    ensures turn.Ended? ==> |page| < batchSize || Stalls(Request(before, batchSize, page))
    ensures turn.More? ==> |page| >= batchSize && ContinuesAt(Request(before, batchSize, page), turn.cursor)
    ensures OnCourse(server, channel, limit, all, before, requests) && batchSize == PageSize(limit, all) ==>
      match turn {
        case Broken => all' == all
        case Ended => all' == channel && |channel| < limit && requests + 1 == PagesNeeded(|channel|, limit)
        case More(cursor) => InStep(channel, limit, all', cursor, requests + 1)
      }
  {
    ghost var honest := OnCourse(server, channel, limit, all, before, requests) && batchSize == PageSize(limit, all);
    ghost var more: seq<Message> := [];
    if honest {
      more := NextRound(server, channel, limit, all, before, requests);
    }
    var reply;
    reply, n' := FetchPage(server, n, batchSize, before);
    if reply.None? {
      return Broken, all, seen, n', [];
    }
    var batch := reply.value;
    page := batch;
    assert honest ==> batch == AsPage(more);
    all', seen' := AddPage(all, seen, batch);
    if |batch| < batchSize {
      if honest {
        AfterShortPage(channel, limit, all, before, requests, more);
      }
      return Ended, all', seen', n', page;
    }
    var next := OldestId(batch);
    if honest {
      AfterFullPage(channel, limit, all, before, requests, more, next);
    }
    if next == "" {
      return Ended, all', seen', n', page;
    }
    if before != "" && !SnowflakeLess(next, before) {
      NothingOlder(batch, next, before);
      return Ended, all', seen', n', page;
    }
    turn := More(next);
  }

  lemma NothingOlder(batch: seq<Option<Message>>, next: string, before: string)
    requires !SnowflakeLess(next, before) && forall m :: m in batch && Usable(m) ==> !SnowflakeLess(m.value.id, next)
    ensures forall m :: m in batch && Usable(m) ==> !SnowflakeLess(m.value.id, before)
  {
    LessIsRankOrder(next, before);
    forall m | m in batch && Usable(m)
      ensures !SnowflakeLess(m.value.id, before)
    {
      LessIsRankOrder(m.value.id, next);
      LessIsRankOrder(m.value.id, before);
    }
  }

  /** The newest messages of the channel; when complete as many as asked for or there are, in so many requests. */
  predicate FetchedNewest(channel: seq<Message>, limit: nat, all: seq<Message>, stop: Stop, requests: nat) {
    && all == Newest(channel, |all|) && |all| <= limit
    && (stop == Completed ==> all == Newest(channel, limit) && requests == PagesNeeded(|channel|, limit))
  }

  lemma InStepIsNewest(channel: seq<Message>, limit: nat, all: seq<Message>, before: string, requests: nat, stop: Stop)
    requires InStep(channel, limit, all, before, requests) && (stop == Completed ==> |all| == limit)
    ensures FetchedNewest(channel, limit, all, stop, requests)
  {
  }

  lemma EndIsNewest(channel: seq<Message>, limit: nat)
    requires |channel| < limit
    ensures FetchedNewest(channel, limit, channel, Completed, PagesNeeded(|channel|, limit))
  {
  }

  // Where fetching stands when the loop goes on at the cursor.
  ghost predicate AtCursor(server: Server, channel: seq<Message>, limit: nat, all: seq<Message>, seen: set<string>,
                           cursor: string, log: seq<Request>) {
    && SeenAll(all, seen) && Logged(server, log, all, cursor)
    && (Honest(server, channel) && IsChannel(channel) ==> InStep(channel, limit, all, cursor, |log|))
  }

  // And when it has ended.
  ghost predicate AtEnd(server: Server, channel: seq<Message>, limit: nat, all: seq<Message>, seen: set<string>,
                        stop: Stop, log: seq<Request>) {
    && SeenAll(all, seen) && LogEnds(server, log, all) && (stop == FetchError ==> !AlwaysReplies(server))
    && (Honest(server, channel) && IsChannel(channel) ==> FetchedNewest(channel, limit, all, stop, |log|))
  }

  lemma EndsAtCursor(server: Server, channel: seq<Message>, limit: nat, all: seq<Message>, seen: set<string>,
                     cursor: string, log: seq<Request>, stop: Stop)
    requires AtCursor(server, channel, limit, all, seen, cursor, log) && (stop == FetchError ==> !AlwaysReplies(server))
    requires stop == Completed ==> |all| >= limit
    ensures AtEnd(server, channel, limit, all, seen, stop, log)
  {
    LoggedEnds(server, log, all, cursor);
    if Honest(server, channel) && IsChannel(channel) {
      InStepIsNewest(channel, limit, all, cursor, |log|, stop);
    }
  }

  // A turn with its request logged.
  method LoggedTurn(server: Server, n: nat, all: seq<Message>, seen: set<string>, before: string, batchSize: nat,
                    ghost channel: seq<Message>, ghost limit: nat, ghost log: seq<Request>)
    returns (turn: Turn, all': seq<Message>, seen': set<string>, n': nat, ghost log': seq<Request>)
    requires AtCursor(server, channel, limit, all, seen, before, log)
    requires |all| < limit && 0 < batchSize == PageSize(limit, all)
    ensures |log'| == |log| + if turn.Broken? then 0 else 1
    ensures match turn {
        case Broken => AtEnd(server, channel, limit, all', seen', FetchError, log')
        case Ended => AtEnd(server, channel, limit, all', seen', Completed, log') && Exhausted(log')
        case More(cursor) =>
          && AtCursor(server, channel, limit, all', seen', cursor, log')
          && cursor != "" && (before != "" ==> SnowflakeLess(cursor, before))
      }
  {
    ghost var page;
    turn, all', seen', n', page := FetchTurn(server, n, all, seen, before, batchSize, channel, limit, |log|);
    if turn.Broken? {
      log' := log;
      EndsAtCursor(server, channel, limit, all, seen, before, log, FetchError);
    } else {
      var request := Request(before, batchSize, page);
      NextLogged(server, log, all, request, all', if turn.More? then turn.cursor else "");
      log' := log + [request];
      if turn.Ended? && Honest(server, channel) && IsChannel(channel) {
        EndIsNewest(channel, limit);
      }
    }
  }

  /**
   fetchPaginated. It ends whatever the server replies, because the cursor falls in snowflake
   order, and never returns a message twice. Each request continues at the oldest ID of the page
   before; every usable message of the pages is returned, and nothing else; and it is complete only
   when as many as asked for are there, a page was short, or the cursor could not move back.
   From an honest server it gets the newest messages of the channel, exactly as many as asked for
   or there are, newest first, in as few requests as the page size allows, rate limits waited out
   apart; cut short, it has a prefix of them.
   */
  method FetchPaginated(server: Server, totalLimit: int, ghost channel: seq<Message>)
    returns (all: seq<Message>, stop: Stop, requests: nat, ghost log: seq<Request>)
    ensures DistinctIds(all) && forall m :: m in all ==> m.id != ""
    ensures stop == FetchError ==> !AlwaysReplies(server)
    ensures |log| == requests && LogEnds(server, log, all)
    ensures stop == Completed && |all| < totalLimit ==> Exhausted(log)
    ensures Honest(server, channel) && IsChannel(channel) ==>
      FetchedNewest(channel, if totalLimit < 0 then 0 else totalLimit, all, stop, requests)
  {
    all, requests, log := [], 0, [];
    var seen: set<string> := {};
    var before := "";
    var remaining := totalLimit;
    var n := 0;
    ghost var limit := if totalLimit < 0 then 0 else totalLimit;
    while remaining > 0
      invariant remaining == totalLimit - |all| && |log| == requests
      invariant AtCursor(server, channel, limit, all, seen, before, log)
      decreases before == "", Rank(before)
    {
      var cancelled: bool := *;
      if cancelled {
        EndsAtCursor(server, channel, limit, all, seen, before, log, Cancelled);
        return all, Cancelled, requests, log;
      }
      var batchSize := if remaining < API_MAX_LIMIT then remaining else API_MAX_LIMIT;
      var turn;
      var count := |all|;
      turn, all, seen, n, log := LoggedTurn(server, n, all, seen, before, batchSize, channel, limit, log);
      if turn.Broken? {
        return all, FetchError, requests, log;
      }
      requests, remaining := requests + 1, remaining - (|all| - count);
      if turn.Ended? {
        return all, Completed, requests, log;
      }
      LessIsRankOrder(turn.cursor, before);
      before := turn.cursor;
    }
    EndsAtCursor(server, channel, limit, all, seen, before, log, Completed);
    stop := Completed;
  }
}
