/**
 The fixed-window rate limiter. A window opens with the first message after the previous one
 ended and lasts `period`; each lets `max` messages through. Times are those of the clock.
 */
module RateLimiter {
  datatype Info = Info(count: int, resetTime: int)

  datatype State = State(limits: map<string, Info>, cooldowns: map<string, int>)

  const START := State(map[], map[])

  datatype Op =
    | Check(channel: string, user: string)
    | SetCooldown(user: string, duration: int)
    | Cleanup

  // An operation and when it happens.
  datatype Event = Event(op: Op, now: int)

  function Key(channel: string, user: string): string {
    channel + ":" + user
  }

  predicate Cooling(s: State, user: string, now: int) {
    user in s.cooldowns && now < s.cooldowns[user]
  }

  /** The window a message at `now` falls into: the running one, or one that opens with it. */
  function WindowAt(s: State, key: string, now: int, period: int): Info {
    if key in s.limits && now <= s.limits[key].resetTime then s.limits[key] else Info(0, now + period)
  }

  /** A first message of a key is let through whatever the maximum. */
  predicate Allowed(s: State, channel: string, user: string, now: int, max: int, period: int) {
    var key := Key(channel, user);
    !Cooling(s, user, now) && (key !in s.limits || WindowAt(s, key, now, period).count < max)
  }

  function AfterCheck(s: State, channel: string, user: string, now: int, max: int, period: int): State {
    var key := Key(channel, user);
    if Cooling(s, user, now) then s
    else
      var w := WindowAt(s, key, now, period);
      s.(limits := s.limits[key := if Allowed(s, channel, user, now, max, period) then w.(count := w.count + 1) else w])
  }

  function AfterCleanup(s: State, now: int): State {
    State(map k | k in s.limits && now <= s.limits[k].resetTime :: s.limits[k],
          map u | u in s.cooldowns && now <= s.cooldowns[u] :: s.cooldowns[u])
  }

  function Next(s: State, e: Event, max: int, period: int): State {
    match e.op {
      case Check(channel, user) => AfterCheck(s, channel, user, e.now, max, period)
      case SetCooldown(user, duration) => s.(cooldowns := s.cooldowns[user := e.now + duration])
      case Cleanup => AfterCleanup(s, e.now)
    }
  }

  /** The state after some events, and what the Checks among them returned. */
  function Run(events: seq<Event>, max: int, period: int): (State, seq<bool>) {
    if events == [] then (START, [])
    else
      var (s, results) := Run(events[..|events| - 1], max, period);
      var e := events[|events| - 1];
      (Next(s, e, max, period),
       if e.op.Check? then results + [Allowed(s, e.op.channel, e.op.user, e.now, max, period)] else results)
  }

  predicate Chronological(events: seq<Event>) {
    forall i, j :: 0 <= i < j < |events| ==> events[i].now <= events[j].now
  }

  class Limiter {
    var limits: map<string, Info>
    var cooldowns: map<string, int>
    var maxPerMinute: int
    var cooldownPeriod: int
    var resetPeriod: int

    constructor (max: int, cooldown: int, period: int)
      ensures Contents() == START && maxPerMinute == max && resetPeriod == period && cooldownPeriod == cooldown
    {
      limits, cooldowns := map[], map[];
      maxPerMinute, cooldownPeriod, resetPeriod := max, cooldown, period;
    }

    function Contents(): State
      reads `limits, `cooldowns
    {
      State(limits, cooldowns)
    }

    method Check(channel: string, user: string, now: int) returns (allowed: bool)
      modifies `limits
      ensures allowed == Allowed(old(Contents()), channel, user, now, maxPerMinute, resetPeriod)
      ensures Contents() == AfterCheck(old(Contents()), channel, user, now, maxPerMinute, resetPeriod)
      ensures var key := channel + ":" + user;
        && limits - {key} == old(limits) - {key}
        && (allowed <==>
              !(user in cooldowns && now < cooldowns[user])
              && (key !in old(limits)
                  || (if now > old(limits)[key].resetTime then 0 else old(limits)[key].count) < maxPerMinute))
    {
      var key := channel + ":" + user;
      if user in cooldowns && now < cooldowns[user] {
        return false;
      }
      if key in limits {
        var info := limits[key];
        if now > info.resetTime {
          info := Info(0, now + resetPeriod);
          limits := limits[key := info];
        }
        if info.count >= maxPerMinute {
          assert limits == old(limits)[key := info];
          return false;
        }
        limits := limits[key := info.(count := info.count + 1)];
      } else {
        limits := limits[key := Info(1, now + resetPeriod)];
      }
      return true;
    }

    method SetCooldown(user: string, duration: int, now: int)
      modifies `cooldowns
      ensures Contents() == Next(old(Contents()), Event(Op.SetCooldown(user, duration), now), maxPerMinute, resetPeriod)
    {
      cooldowns := cooldowns[user := now + duration];
    }

    method Cleanup(now: int)
      modifies `limits, `cooldowns
      ensures Contents() == AfterCleanup(old(Contents()), now)
      ensures forall k :: k in limits <==> k in old(limits) && now <= old(limits)[k].resetTime
      ensures forall u :: u in cooldowns <==> u in old(cooldowns) && now <= old(cooldowns)[u]
    {
      CleanLimits(now);
      CleanCooldowns(now);
    }

    method CleanLimits(now: int)
      modifies `limits
      ensures limits == map k | k in old(limits) && now <= old(limits)[k].resetTime :: old(limits)[k]
    {
      var keys := limits.Keys;
      while keys != {}
        invariant keys <= limits.Keys <= old(limits).Keys
        invariant forall k :: k in limits ==> limits[k] == old(limits)[k]
        invariant forall k :: k in old(limits) && k !in keys ==> (k in limits <==> now <= old(limits)[k].resetTime)
        decreases |keys|
      {
        var k :| k in keys;
        keys := keys - {k};
        if now > limits[k].resetTime {
          limits := limits - {k};
        }
      }
    }

    method CleanCooldowns(now: int)
      modifies `cooldowns
      ensures cooldowns == map u | u in old(cooldowns) && now <= old(cooldowns)[u] :: old(cooldowns)[u]
    {
      var users := cooldowns.Keys;
      while users != {}
        invariant users <= cooldowns.Keys <= old(cooldowns).Keys
        invariant forall u :: u in cooldowns ==> cooldowns[u] == old(cooldowns)[u]
        invariant forall u :: u in old(cooldowns) && u !in users ==> (u in cooldowns <==> now <= old(cooldowns)[u])
        decreases |users|
      {
        var u :| u in users;
        users := users - {u};
        if now > cooldowns[u] {
          cooldowns := cooldowns - {u};
        }
      }
    }

    method UpdateConfig(max: int, cooldown: int, period: int)
      modifies `maxPerMinute, `cooldownPeriod, `resetPeriod
      ensures maxPerMinute == max && cooldownPeriod == cooldown && resetPeriod == period
    {
      maxPerMinute, cooldownPeriod, resetPeriod := max, cooldown, period;
    }
  }

  /** The results of the Checks in a run of the program's limiter. */
  method Serve(max: int, cooldown: int, period: int, events: seq<Event>) returns (results: seq<bool>)
    ensures results == Run(events, max, period).1
  {
    var l := new Limiter(max, cooldown, period);
    results := [];
    for i := 0 to |events|
      invariant l.maxPerMinute == max && l.resetPeriod == period && fresh(l)
      invariant Run(events[..i], max, period) == (l.Contents(), results)
    {
      assert events[..i + 1][..i] == events[..i];
      match events[i].op {
        case Check(channel, user) =>
          var allowed := l.Check(channel, user, events[i].now);
          results := results + [allowed];
        case SetCooldown(user, duration) => l.SetCooldown(user, duration, events[i].now);
        case Cleanup => l.Cleanup(events[i].now);
      }
    }
    assert events[..|events|] == events;
  }

  // ---- How many messages get through ----

  function NewHits(s: State, e: Event, key: string, max: int, period: int): seq<int> {
    if e.op.Check? && Key(e.op.channel, e.op.user) == key && Allowed(s, e.op.channel, e.op.user, e.now, max, period)
    then [e.now] else []
  }

  /** When messages of a key were let through. */
  function Hits(events: seq<Event>, key: string, max: int, period: int): seq<int> {
    if events == [] then []
    else
      var before, e := events[..|events| - 1], events[|events| - 1];
      Hits(before, key, max, period) + NewHits(Run(before, max, period).0, e, key, max, period)
  }

  // `hits` are the times let through, the last `w.count` of them in window `w`.
  ghost predicate InWindow(hits: seq<int>, w: Info, max: nat, period: int, now: int) {
    && 0 <= w.count <= max && w.count <= |hits| && w.resetTime - period <= now
    && (forall j :: 0 <= j < |hits| ==> hits[j] <= w.resetTime)
    && (forall j :: 0 <= j < |hits| - w.count ==> hits[j] < w.resetTime - period)
    && (forall j :: 0 <= j < |hits| - w.count - max ==> hits[j] + period < w.resetTime - period)
  }

  // All windows have ended before `now`.
  ghost predicate WindowsOver(hits: seq<int>, max: nat, period: int, now: int) {
    && (forall j :: 0 <= j < |hits| ==> hits[j] < now)
    && (forall j :: 0 <= j < |hits| - max ==> hits[j] + period < now)
  }

  // Of any 2 * max + 1 hits, the last is more than a period after the first.
  ghost predicate Spaced(hits: seq<int>, max: nat, period: int) {
    forall j :: 0 <= j < |hits| - 2 * max ==> hits[j] + period < hits[j + 2 * max]
  }

  ghost predicate KeyInv(s: State, key: string, hits: seq<int>, max: nat, period: int, now: int) {
    && Spaced(hits, max, period)
    && if key in s.limits then InWindow(hits, s.limits[key], max, period, now)
       else WindowsOver(hits, max, period, now)
  }

  lemma WindowEnds(hits: seq<int>, w: Info, max: nat, period: int, before: int, now: int)
    requires InWindow(hits, w, max, period, before) && now > w.resetTime
    ensures WindowsOver(hits, max, period, now)
  {
  }

  lemma WindowOpens(hits: seq<int>, max: nat, period: int, now: int)
    requires WindowsOver(hits, max, period, now) && max >= 1 && period >= 0
    ensures InWindow(hits, Info(0, now + period), max, period, now)
  {
  }

  lemma HitInWindow(hits: seq<int>, w: Info, max: nat, period: int, now: int)
    requires InWindow(hits, w, max, period, now) && Spaced(hits, max, period)
    requires w.count < max && now <= w.resetTime
    ensures InWindow(hits + [now], w.(count := w.count + 1), max, period, now) && Spaced(hits + [now], max, period)
  {
  }

  lemma CheckKeepsInv(s: State, channel: string, user: string, hits: seq<int>, max: int, period: int, before: int,
                      now: int)
    requires max >= 1 && period >= 0 && before <= now
    requires KeyInv(s, Key(channel, user), hits, max, period, before)
    ensures KeyInv(AfterCheck(s, channel, user, now, max, period), Key(channel, user),
                   if Allowed(s, channel, user, now, max, period) then hits + [now] else hits, max, period, now)
  {
    var key := Key(channel, user);
    var w := WindowAt(s, key, now, period);
    if !Cooling(s, user, now) {
      if key in s.limits && now > s.limits[key].resetTime {
        WindowEnds(hits, s.limits[key], max, period, before, now);
      }
      if key !in s.limits || now > s.limits[key].resetTime {
        assert WindowsOver(hits, max, period, now);
        WindowOpens(hits, max, period, now);
      }
      if w.count < max {
        HitInWindow(hits, w, max, period, now);
      }
    }
  }

  lemma LaterKeepsInv(s: State, key: string, hits: seq<int>, max: nat, period: int, before: int, now: int)
    requires KeyInv(s, key, hits, max, period, before) && before <= now
    ensures KeyInv(s, key, hits, max, period, now)
  {
  }

  lemma CleanupKeepsInv(s: State, key: string, hits: seq<int>, max: nat, period: int, now: int)
    requires KeyInv(s, key, hits, max, period, now)
    ensures KeyInv(AfterCleanup(s, now), key, hits, max, period, now)
  {
    if key in s.limits && now > s.limits[key].resetTime {
      WindowEnds(hits, s.limits[key], max, period, now, now);
    }
  }

  lemma StepKeepsInv(s: State, e: Event, key: string, hits: seq<int>, max: int, period: int)
    requires max >= 1 && period >= 0 && KeyInv(s, key, hits, max, period, e.now)
    ensures KeyInv(Next(s, e, max, period), key, hits + NewHits(s, e, key, max, period), max, period, e.now)
  {
    assert hits + [] == hits;
    match e.op {
      case Check(channel, user) =>
        if Key(channel, user) == key {
          CheckKeepsInv(s, channel, user, hits, max, period, e.now, e.now);
        }
      case SetCooldown(_, _) =>
      case Cleanup => CleanupKeepsInv(s, key, hits, max, period, e.now);
    }
  }

  lemma {:induction false} RunKeepsInv(events: seq<Event>, key: string, max: int, period: int)
    requires max >= 1 && period >= 0 && Chronological(events) && events != []
    ensures KeyInv(Run(events, max, period).0, key, Hits(events, key, max, period), max, period,
                   events[|events| - 1].now)
  {
    var before, e := events[..|events| - 1], events[|events| - 1];
    var s, hits := Run(before, max, period).0, Hits(before, key, max, period);
    if before != [] {
      RunKeepsInv(before, key, max, period);
      LaterKeepsInv(s, key, hits, max, period, before[|before| - 1].now, e.now);
    }
    StepKeepsInv(s, e, key, hits, max, period);
  }

  lemma {:induction false} HitsAscend(events: seq<Event>, key: string, max: int, period: int, i: nat, j: nat)
    requires Chronological(events) && i <= j < |Hits(events, key, max, period)|
    ensures var hits := Hits(events, key, max, period); hits[i] <= hits[j] <= events[|events| - 1].now
  {
    var before := events[..|events| - 1];
    var hits := Hits(before, key, max, period);
    if i < |hits| {
      HitsAscend(before, key, max, period, i, if j < |hits| then j else i);
      assert before[|before| - 1].now <= events[|before|].now;
    }
  }

  /**
   However operations are mixed, no interval as long as the period contains more than 2 * max
   messages of one user in one channel: 2 * max + 1 of them span more than the period.
   */
  lemma AtMostTwiceMaxPerPeriod(events: seq<Event>, key: string, max: int, period: int, i: nat, j: nat, from: int)
    requires max >= 1 && period >= 0 && Chronological(events)
    requires var hits := Hits(events, key, max, period);
      i <= j < |hits| && from <= hits[i] && hits[j] <= from + period
    ensures j - i + 1 <= 2 * max
  {
    RunKeepsInv(events, key, max, period);
    if j - i + 1 > 2 * max {
      HitsAscend(events, key, max, period, i + 2 * max, j);
    }
  }

  // No interval as long as the period contains more than 2 * max of these messages.
  ghost predicate WithinTwiceMax(hits: seq<int>, max: int, period: int) {
    forall i, j :: 0 <= i <= j < |hits| && hits[j] <= hits[i] + period ==> j - i + 1 <= 2 * max
  }

  lemma FirstMessagePasses(channel: string, user: string, max: int, period: int)
    ensures Hits([Event(Check(channel, user), 0)], Key(channel, user), max, period) == [0]
  {
    var check := Event(Check(channel, user), 0);
    assert [check][..0] == [] && Run([], max, period) == (START, []);
    assert Hits([check], Key(channel, user), max, period) == [] + [0];
  }

  /** The bound holds in all runs exactly if the maximum is at least 1. */
  lemma AtMostTwiceMaxExactly(max: int, period: nat)
    ensures max >= 1 <==>
      forall events, key :: Chronological(events) ==> WithinTwiceMax(Hits(events, key, max, period), max, period)
  {
    if max >= 1 {
      forall events, key | Chronological(events)
        ensures WithinTwiceMax(Hits(events, key, max, period), max, period)
      {
        var hits := Hits(events, key, max, period);
        forall i, j | 0 <= i <= j < |hits| && hits[j] <= hits[i] + period
          ensures j - i + 1 <= 2 * max
        {
          AtMostTwiceMaxPerPeriod(events, key, max, period, i, j, hits[i]);
        }
      }
    } else {
      FirstMessagePasses("c", "u", max, period);
      var events := [Event(Check("c", "u"), 0)];
      var hits := Hits(events, Key("c", "u"), max, period);
      var i :| 0 <= i < |hits| && hits[i] == 0;
      assert i - i + 1 > 2 * max;
      assert Chronological(events) && !WithinTwiceMax(hits, max, period);
    }
  }

  // ---- Who is refused ----

  /** The i-th event sets the user's cooldown, and no later one sets it again. */
  predicate LastCooldown(events: seq<Event>, i: nat, user: string) {
    && i < |events| && events[i].op.SetCooldown? && events[i].op.user == user
    && forall m :: i < m < |events| ==> !(events[m].op.SetCooldown? && events[m].op.user == user)
  }

  function CooldownEnd(e: Event): int
    requires e.op.SetCooldown?
  {
    e.now + e.op.duration
  }

  lemma LastCooldownBefore(events: seq<Event>, i: nat, user: string)
    requires LastCooldown(events, i, user) && i < |events| - 1
    ensures LastCooldown(events[..|events| - 1], i, user)
  {
  }

  // A cooldown is kept until it is over; only a cleanup takes it away.
  lemma {:induction false} CooldownIsKept(events: seq<Event>, i: nat, user: string, max: int, period: int)
    requires LastCooldown(events, i, user)
    requires forall m :: i < m < |events| ==> events[m].now <= CooldownEnd(events[i])
    ensures var s := Run(events, max, period).0;
      user in s.cooldowns && s.cooldowns[user] == CooldownEnd(events[i])
  {
    if i < |events| - 1 {
      LastCooldownBefore(events, i, user);
      CooldownIsKept(events[..|events| - 1], i, user, max, period);
    }
  }

  lemma {:induction false} CooldownWasSet(events: seq<Event>, user: string, max: int, period: int) returns (i: nat)
    requires user in Run(events, max, period).0.cooldowns
    ensures LastCooldown(events, i, user)
    ensures Run(events, max, period).0.cooldowns[user] == CooldownEnd(events[i])
  {
    var n := |events| - 1;
    if events[n].op.SetCooldown? && events[n].op.user == user {
      i := n;
    } else {
      i := CooldownWasSet(events[..n], user, max, period);
    }
  }

  /** The user's latest cooldown has not ended. */
  ghost predicate InCooldown(events: seq<Event>, user: string, now: int) {
    exists i: nat :: LastCooldown(events, i, user) && now < CooldownEnd(events[i])
  }

  lemma CoolingExactly(events: seq<Event>, user: string, now: int, max: int, period: int)
    requires Chronological(events) && (events != [] ==> events[|events| - 1].now <= now)
    ensures Cooling(Run(events, max, period).0, user, now) <==> InCooldown(events, user, now)
  {
    if Cooling(Run(events, max, period).0, user, now) {
      var i := CooldownWasSet(events, user, max, period);
    }
    if i: nat :| LastCooldown(events, i, user) && now < CooldownEnd(events[i]) {
      CooldownIsKept(events, i, user, max, period);
    }
  }

  // What a Check at the end of some events returns.
  lemma CheckReturns(events: seq<Event>, e: Event, max: int, period: int)
    requires e.op.Check?
    ensures var s := Run(events, max, period).0;
      Run(events + [e], max, period).1 ==
        Run(events, max, period).1 + [Allowed(s, e.op.channel, e.op.user, e.now, max, period)]
  {
    assert (events + [e])[..|events|] == events;
  }

  /** From its setting to its end, or until it is set anew, no Check of a user in cooldown is allowed. */
  lemma RefusedInCooldown(events: seq<Event>, e: Event, max: int, period: int)
    requires Chronological(events + [e]) && e.op.Check? && InCooldown(events, e.op.user, e.now)
    ensures Run(events + [e], max, period).1 == Run(events, max, period).1 + [false]
  {
    ChronologicalBefore(events, e);
    CoolingExactly(events, e.op.user, e.now, max, period);
    CheckReturns(events, e, max, period);
  }

  lemma ChronologicalBefore(events: seq<Event>, e: Event)
    requires Chronological(events + [e])
    ensures Chronological(events) && (events != [] ==> events[|events| - 1].now <= e.now)
  {
    var all := events + [e];
    assert forall i :: 0 <= i < |events| ==> all[i] == events[i];
    assert all[|events|] == e;
  }

  // The hits counted in a key's window were in it.
  ghost predicate Counted(s: State, key: string, hits: seq<int>, period: int) {
    key in s.limits ==>
      var w := s.limits[key];
      0 <= w.count <= |hits| && forall j :: |hits| - w.count <= j < |hits| ==> w.resetTime - period <= hits[j]
  }

  lemma StepKeepsCounted(s: State, e: Event, key: string, hits: seq<int>, max: int, period: int)
    requires Counted(s, key, hits, period) && (key in s.limits ==> s.limits[key].resetTime - period <= e.now)
    ensures Counted(Next(s, e, max, period), key, hits + NewHits(s, e, key, max, period), period)
  {
    assert hits + [] == hits;
  }

  lemma {:induction false} RunKeepsCounted(events: seq<Event>, key: string, max: int, period: int)
    requires max >= 1 && period >= 0 && Chronological(events)
    ensures Counted(Run(events, max, period).0, key, Hits(events, key, max, period), period)
  {
    if events != [] {
      var before, e := events[..|events| - 1], events[|events| - 1];
      RunKeepsCounted(before, key, max, period);
      if before != [] {
        RunKeepsInv(before, key, max, period);
        assert before[|before| - 1].now <= e.now;
      }
      StepKeepsCounted(Run(before, max, period).0, e, key, Hits(before, key, max, period), max, period);
    }
  }

  /** A user not in cooldown with fewer than max messages let through in the last period is let through. */
  lemma AllowedWhenQuiet(events: seq<Event>, e: Event, max: int, period: int)
    requires max >= 1 && period >= 0 && Chronological(events + [e]) && e.op.Check?
    requires !InCooldown(events, e.op.user, e.now)
    requires var hits := Hits(events, Key(e.op.channel, e.op.user), max, period);
      |hits| < max || hits[|hits| - max] < e.now - period
    ensures Run(events + [e], max, period).1 == Run(events, max, period).1 + [true]
  {
    var key := Key(e.op.channel, e.op.user);
    ChronologicalBefore(events, e);
    CoolingExactly(events, e.op.user, e.now, max, period);
    CheckReturns(events, e, max, period);
    RunKeepsCounted(events, key, max, period);
    var s, hits := Run(events, max, period).0, Hits(events, key, max, period);
    if key in s.limits && e.now <= s.limits[key].resetTime {
      assert s.limits[key].count >= max ==> |hits| - s.limits[key].count <= |hits| - max;
    }
  }

  // ---- Cleaning up ----

  function WithoutCleanup(events: seq<Event>): seq<Event> {
    if events == [] then []
    else
      var rest, e := WithoutCleanup(events[..|events| - 1]), events[|events| - 1];
      if e.op.Cleanup? then rest else rest + [e]
  }

  // The same limits and cooldowns, but for some that are over.
  ghost predicate SameButExpired(s: State, t: State, now: int) {
    && (forall k :: k in s.limits ==> k in t.limits && s.limits[k] == t.limits[k])
    && (forall k :: k in t.limits && k !in s.limits ==> t.limits[k].resetTime < now)
    && (forall u :: u in s.cooldowns ==> u in t.cooldowns && s.cooldowns[u] == t.cooldowns[u])
    && (forall u :: u in t.cooldowns && u !in s.cooldowns ==> t.cooldowns[u] < now)
  }

  lemma CheckSeesNoCleanup(s: State, t: State, channel: string, user: string, now: int, max: int, period: int)
    requires max >= 1 && SameButExpired(s, t, now)
    ensures Allowed(s, channel, user, now, max, period) == Allowed(t, channel, user, now, max, period)
    ensures SameButExpired(AfterCheck(s, channel, user, now, max, period),
                           AfterCheck(t, channel, user, now, max, period), now)
  {
    var key := Key(channel, user);
    assert Cooling(s, user, now) == Cooling(t, user, now);
    assert WindowAt(s, key, now, period) == WindowAt(t, key, now, period);
  }

  /** With a maximum of at least 1, Cleanup calls change no Check's result, wherever they are made. */
  lemma {:induction false} CleanupIsInvisible(events: seq<Event>, max: int, period: int)
    requires max >= 1 && Chronological(events)
    ensures Run(events, max, period).1 == Run(WithoutCleanup(events), max, period).1
    ensures events != [] ==>
      SameButExpired(Run(events, max, period).0, Run(WithoutCleanup(events), max, period).0, events[|events| - 1].now)
  {
    if events != [] {
      var before, e := events[..|events| - 1], events[|events| - 1];
      CleanupIsInvisible(before, max, period);
      var s, t := Run(before, max, period).0, Run(WithoutCleanup(before), max, period).0;
      assert before != [] ==> before[|before| - 1].now <= e.now;
      assert SameButExpired(s, t, e.now);
      if !e.op.Cleanup? {
        var rest := WithoutCleanup(before);
        assert (rest + [e])[..|rest|] == rest;
      }
      if e.op.Check? {
        CheckSeesNoCleanup(s, t, e.op.channel, e.op.user, e.now, max, period);
      }
    }
  }

  // With a smaller one, a key's next message after a cleanup is a first one and gets through.
  lemma CleanupIsVisible(channel: string, user: string, max: int, period: int, t0: int, t1: int)
    requires max <= 0 && period >= 0 && t0 + period < t1
    ensures var check0, check1 := Event(Check(channel, user), t0), Event(Check(channel, user), t1);
      var events := [check0, Event(Cleanup, t1), check1];
      Chronological(events) && Run(events, max, period).1 == [true, true]
      && WithoutCleanup(events) == [check0, check1] && Run([check0, check1], max, period).1 == [true, false]
  {
    var check0, cleanup, check1 := Event(Check(channel, user), t0), Event(Cleanup, t1), Event(Check(channel, user), t1);
    var events := [check0, cleanup, check1];
    var limits: map<string, Info> := map[Key(channel, user) := Info(1, t0 + period)];
    var s := State(limits, map[]);
    assert [check0][..0] == [] && Run([], max, period) == (START, []);
    assert Next(START, check0, max, period).limits == limits && Next(START, check0, max, period).cooldowns == map[];
    assert Run([check0], max, period).0 == s && Run([check0], max, period).1 == [] + [true];
    assert events[..2] == [check0, cleanup] && [check0, cleanup][..1] == [check0] && [check0, check1][..1] == [check0];
    var cleaned := AfterCleanup(s, t1);
    assert cleaned.limits == map[] && cleaned.cooldowns == map[];
    assert Run([check0, cleanup], max, period).0 == cleaned == START && Run([check0, cleanup], max, period).1 == [true];
    assert WithoutCleanup([check0]) == [check0];
    assert WithoutCleanup([check0, cleanup]) == [check0];
  }

  /** Cleanup calls are invisible in all runs exactly if the maximum is at least 1. */
  lemma CleanupIsInvisibleExactly(max: int, period: nat)
    ensures max >= 1 <==>
      forall events :: Chronological(events) ==>
        Run(events, max, period).1 == Run(WithoutCleanup(events), max, period).1
  {
    if max >= 1 {
      forall events | Chronological(events)
        ensures Run(events, max, period).1 == Run(WithoutCleanup(events), max, period).1
      {
        CleanupIsInvisible(events, max, period);
      }
    } else {
      CleanupIsVisible("c", "u", max, period, 0, period + 1);
    }
  }
}
