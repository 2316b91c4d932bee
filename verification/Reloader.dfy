/**
 A reload in two phases. Every component prepares what a new configuration needs; if all
 succeed the configuration is published and each prepared change committed, else each is
 aborted. Opened resources (a Discord session, MCP connections, a listener, a login store, a
 log file) are handles with an owner, so that none can get lost unseen.
 */
module Reloader {
  import opened Wrappers
  import opened ReloadPlan
  import opened ReloadServing
  import ConfigDiff

  // Who closes an open handle: the running program, a prepared change, or whoever closes it
  // already (a goroutine or timer). A leaked one is closed by nobody.
  datatype Owner = Serves(role: Role) | Held(id: nat) | Retiring | Leaked

  // A panic leaves `open` behind, which the program cannot reach any more.
  datatype Prepared = Nothing | Ready(p: Pending) | Failed | Panicked(open: Pending)

  datatype Config = Config(path: string, values: seq<ConfigDiff.Value>)

  datatype Event = Prepare(id: nat) | Store(config: Config) | Commit(id: nat) | Abort(id: nat)

  datatype Outcome = NilConfig | Invalid | NoChange | Rejected(panicked: bool) | Applied

  // ---- The events of one reload: changes `id`, ..., `id + n - 1` are prepared ----

  function Prepares(id: nat, n: nat): seq<Event> {
    seq(n, i requires 0 <= i < n => Event.Prepare(id + i))
  }

  function Commits(id: nat, n: nat): seq<Event> {
    seq(n, i requires 0 <= i < n => Commit(id + i))
  }

  // In reverse, down to change `id + k`.
  function Aborts(id: nat, n: nat, k: nat): seq<Event>
    requires k <= n
  {
    seq(n - k, i requires 0 <= i < n - k => Abort(id + n - 1 - i))
  }

  datatype Round = Round(n: nat, stored: Option<Config>)

  function RoundEvents(id: nat, r: Round): seq<Event> {
    Prepares(id, r.n) + if r.stored.Some? then [Store(r.stored.value)] + Commits(id, r.n) else Aborts(id, r.n, 0)
  }

  function Total(rounds: seq<Round>): nat {
    if rounds == [] then 0 else Total(rounds[..|rounds| - 1]) + rounds[|rounds| - 1].n
  }

  /** The events of all reloads so far. */
  function Events(rounds: seq<Round>): seq<Event> {
    if rounds == [] then []
    else
      var before := rounds[..|rounds| - 1];
      Events(before) + RoundEvents(Total(before), rounds[|rounds| - 1])
  }

  /** The configuration stored last. */
  function LastStored(start: Option<Config>, rounds: seq<Round>): Option<Config> {
    if rounds == [] then start
    else if rounds[|rounds| - 1].stored.Some? then rounds[|rounds| - 1].stored
    else LastStored(start, rounds[..|rounds| - 1])
  }

  // ---- Every prepared change is settled once ----

  function Within(k: nat, id: nat, n: nat): nat {
    if id <= k < id + n then 1 else 0
  }

  lemma {:induction false} PreparesOnce(id: nat, n: nat, k: nat)
    ensures Times(Prepares(id, n), Event.Prepare(k)) == Within(k, id, n)
    ensures Times(Prepares(id, n), Commit(k)) == Times(Prepares(id, n), Abort(k)) == 0
  {
    if n > 0 {
      PreparesOnce(id, n - 1, k);
      assert Prepares(id, n)[..n - 1] == Prepares(id, n - 1);
    }
  }

  lemma {:induction false} CommitsOnce(id: nat, n: nat, k: nat)
    ensures Times(Commits(id, n), Commit(k)) == Within(k, id, n)
    ensures Times(Commits(id, n), Event.Prepare(k)) == Times(Commits(id, n), Abort(k)) == 0
  {
    if n > 0 {
      CommitsOnce(id, n - 1, k);
      assert Commits(id, n)[..n - 1] == Commits(id, n - 1);
    }
  }

  lemma {:induction false} AbortsOnce(id: nat, n: nat, m: nat, k: nat)
    requires m <= n
    ensures Times(Aborts(id, n, m), Abort(k)) == Within(k, id + m, n - m)
    ensures Times(Aborts(id, n, m), Event.Prepare(k)) == Times(Aborts(id, n, m), Commit(k)) == 0
    decreases n - m
  {
    if m < n {
      AbortsOnce(id, n, m + 1, k);
      assert Aborts(id, n, m)[..n - m - 1] == Aborts(id, n, m + 1);
    }
  }

  lemma RoundTimes(id: nat, r: Round, e: Event)
    requires !e.Store?
    ensures Times(RoundEvents(id, r), e) == Times(Prepares(id, r.n), e)
      + if r.stored.Some? then Times(Commits(id, r.n), e) else Times(Aborts(id, r.n, 0), e)
  {
    if r.stored.Some? {
      var store := [Store(r.stored.value)];
      assert store[..0] == [];
      TimesConcat(store, Commits(id, r.n), e);
      TimesConcat(Prepares(id, r.n), store + Commits(id, r.n), e);
    } else {
      TimesConcat(Prepares(id, r.n), Aborts(id, r.n, 0), e);
    }
  }

  lemma RoundSettles(id: nat, r: Round, k: nat)
    ensures Times(RoundEvents(id, r), Event.Prepare(k)) == Within(k, id, r.n)
    ensures Times(RoundEvents(id, r), Commit(k)) == if r.stored.Some? then Within(k, id, r.n) else 0
    ensures Times(RoundEvents(id, r), Abort(k)) == if r.stored.Some? then 0 else Within(k, id, r.n)
  {
    RoundTimes(id, r, Event.Prepare(k));
    RoundTimes(id, r, Commit(k));
    RoundTimes(id, r, Abort(k));
    PreparesOnce(id, r.n, k);
    CommitsOnce(id, r.n, k);
    AbortsOnce(id, r.n, 0, k);
  }

  /** Over all reloads, a prepared change is committed or aborted, just once, and not both. */
  lemma {:induction false} SettledOnce(rounds: seq<Round>, k: nat)
    ensures Times(Events(rounds), Event.Prepare(k)) == Within(k, 0, Total(rounds))
    ensures Times(Events(rounds), Commit(k)) + Times(Events(rounds), Abort(k)) == Within(k, 0, Total(rounds))
  {
    if rounds != [] {
      var before, r := rounds[..|rounds| - 1], rounds[|rounds| - 1];
      var now := RoundEvents(Total(before), r);
      SettledOnce(before, k);
      RoundSettles(Total(before), r, k);
      TimesConcat(Events(before), now, Event.Prepare(k));
      TimesConcat(Events(before), now, Commit(k));
      TimesConcat(Events(before), now, Abort(k));
    }
  }

  /** A commit follows the store of its reload's configuration, with only commits in between. */
  lemma {:induction false} StoredBeforeCommitted(rounds: seq<Round>, i: nat)
    requires i < |Events(rounds)| && Events(rounds)[i].Commit?
    ensures exists j :: 0 <= j < i && Events(rounds)[j].Store? && forall m :: j < m < i ==> Events(rounds)[m].Commit?
  {
    var before, r := rounds[..|rounds| - 1], rounds[|rounds| - 1];
    var all, past := Events(rounds), Events(before);
    if i < |past| {
      StoredBeforeCommitted(before, i);
      var j :| 0 <= j < i && past[j].Store? && forall m :: j < m < i ==> past[m].Commit?;
      assert all[j].Store? && forall m :: j < m < i ==> all[m] == past[m];
    } else {
      var j := |past| + r.n;
      assert r.stored.Some? && all[j] == Store(r.stored.value) && j < i;
      assert forall m :: j < m < i ==> all[m] == Commits(Total(before), r.n)[m - j - 1];
    }
  }

  predicate EndsAs(r: Prepared, end: Ending) {
    match r {
      case Ready(p) => end == Succeeds(Roles(p))
      case Panicked(p) => end == Panics(Roles(p))
      case Nothing => end.Skips?
      case Failed => end.Fails?
    }
  }

  // What is open for the change at the end of its Prepare, a panic included.
  function HeldBy(r: Prepared): set<Handle> {
    match r {
      case Ready(p) => Handles(p)
      case Panicked(p) => Handles(p)
      case _ => {}
    }
  }

  predicate Ended(r: Prepared, end: Ending) {
    EndsAs(r, end) && (r.Ready? ==> WellFormed(r.p)) && (r.Panicked? ==> WellFormed(r.open))
  }

  /** What each prepared change holds a resource for. */
  function RolesOfAll(done: seq<Pending>): seq<set<Role>> {
    seq(|done|, i requires 0 <= i < |done| => Roles(done[i]))
  }

  // The session of a change that holds nothing else.
  ghost function HeldSession(r: Prepared): (session: Handle)
    requires EndsAs(r, Panics({Session}))
    ensures Handles(r.open) == {session}
  {
    assert Session in Roles(r.open) && Mcp !in Roles(r.open);
    r.open.session.value
  }

  // The first i components have been prepared, `done` being what they need and `who` prepared it.
  ghost predicate Through(comps: seq<Component>, i: nat, x: Scene, w: World, done: seq<Pending>,
                          who: seq<Component>) {
    && i <= |comps| && PhaseEnds(comps, x, w) == PhaseEnds(comps[i..], x, w)
    && Planned(comps, x, w) == RolesOfAll(done) + Planned(comps[i..], x, w)
    && Changing(comps, x, w) == who + Changing(comps[i..], x, w) && FitAll(who, x, done)
  }

  // What is known of the prepared changes when a component has failed or the last is done with.
  ghost predicate PhaseDone(comps: seq<Component>, x: Scene, w: World, done: seq<Pending>, stop: Prepared) {
    && !stop.Ready? && EndsAs(stop, PhaseEnds(comps, x, w))
    && RolesOfAll(done) == Planned(comps, x, w) && FitAll(Changing(comps, x, w), x, done)
  }

  lemma ThroughReady(comps: seq<Component>, i: nat, x: Scene, w: World, done: seq<Pending>, who: seq<Component>,
                     p: Pending)
    requires i < |comps| && Through(comps, i, x, w, done, who)
    requires Ends(comps[i], x, w) == Succeeds(Roles(p)) && Fits(comps[i], x, p)
    ensures Through(comps, i + 1, x, w, done + [p], who + [comps[i]])
  {
    PhaseAt(comps, i, x, w);
    RolesMore(done, p);
    AppendMoves(RolesOfAll(done), Roles(p), Planned(comps[i + 1..], x, w));
    AppendMoves(who, comps[i], Changing(comps[i + 1..], x, w));
    FitMore(who, x, done, comps[i], p);
  }

  lemma ThroughOther(comps: seq<Component>, i: nat, x: Scene, w: World, done: seq<Pending>, who: seq<Component>,
                     r: Prepared)
    requires i < |comps| && Through(comps, i, x, w, done, who) && EndsAs(r, Ends(comps[i], x, w)) && !r.Ready?
    ensures if r.Nothing? then Through(comps, i + 1, x, w, done, who) else PhaseDone(comps, x, w, done, r)
  {
    PhaseAt(comps, i, x, w);
    assert RolesOfAll(done) + [] == RolesOfAll(done) && who + [] == who;
  }

  lemma FitMore(who: seq<Component>, x: Scene, done: seq<Pending>, c: Component, p: Pending)
    requires FitAll(who, x, done) && Fits(c, x, p)
    ensures FitAll(who + [c], x, done + [p])
  {
  }

  lemma RolesMore(done: seq<Pending>, p: Pending)
    ensures RolesOfAll(done + [p]) == RolesOfAll(done) + [Roles(p)]
  {
  }

  lemma AppendMoves<T>(a: seq<T>, e: T, b: seq<T>)
    ensures a + ([e] + b) == a + [e] + b
  {
  }

  ghost predicate HeldFor(owner: map<Handle, Owner>, held: set<Handle>, id: nat) {
    forall h :: h in held <==> h in owner && owner[h] == Held(id)
  }

  ghost predicate AllHeld(owner: map<Handle, Owner>, done: seq<Pending>, id: nat) {
    && (forall h :: h in owner && owner[h].Held? ==> id <= owner[h].id < id + |done|)
    && forall i :: 0 <= i < |done| ==> WellFormed(done[i]) && HeldFor(owner, Handles(done[i]), id + i)
  }

  lemma MoreHeld(was: map<Handle, Owner>, now: map<Handle, Owner>, lost: set<Handle>, done: seq<Pending>, p: Pending,
                 id: nat)
    requires AllHeld(was, done, id) && OnlyAdded(was, now, lost)
    requires WellFormed(p) && HeldFor(now, Handles(p), id + |done|)
    requires forall h :: h in now && h !in was && now[h].Held? ==> now[h].id == id + |done|
    ensures AllHeld(now, done + [p], id)
  {
    var more := done + [p];
    forall i | 0 <= i < |more|
      ensures WellFormed(more[i]) && HeldFor(now, Handles(more[i]), id + i)
    {
      assert i < |done| ==> more[i] == done[i] && HeldFor(was, Handles(done[i]), id + i);
    }
  }

  lemma SameHeld(was: map<Handle, Owner>, now: map<Handle, Owner>, lost: set<Handle>, done: seq<Pending>, id: nat)
    requires AllHeld(was, done, id) && OnlyAdded(was, now, lost)
    requires forall h :: h in now && h !in was ==> !now[h].Held?
    ensures AllHeld(now, done, id)
  {
    assert forall i :: 0 <= i < |done| ==> HeldFor(was, Handles(done[i]), id + i);
  }

  // What was open still is; what is new is held, on its way out, or among the lost.
  ghost predicate OnlyAdded(before: map<Handle, Owner>, now: map<Handle, Owner>, lost: set<Handle>) {
    && (forall h :: h in before ==> h in now && now[h] == before[h])
    && (forall h :: h in now && h !in before && !now[h].Held? ==> now[h] == Retiring || h in lost)
    && (forall h :: h in lost <==> h in now && h !in before && now[h] == Leaked)
  }

  // Giving up a change after a panic loses what was held for it.
  lemma HeldIsLost(before: map<Handle, Owner>, mid: map<Handle, Owner>, now: map<Handle, Owner>, held: set<Handle>,
                   id: nat)
    requires forall h :: h in before ==> h in mid && mid[h] == before[h] && before[h] != Held(id)
    requires forall h :: h in mid && h !in before ==> mid[h] == Retiring || mid[h] == Held(id)
    requires HeldFor(mid, held, id) && now.Keys == mid.Keys
    requires forall h :: h in now ==> now[h] == if mid[h] == Held(id) then Leaked else mid[h]
    ensures OnlyAdded(before, now, held)
  {
  }

  lemma AddedMore(a: map<Handle, Owner>, b: map<Handle, Owner>, c: map<Handle, Owner>, lost: set<Handle>)
    requires OnlyAdded(a, b, {}) && OnlyAdded(b, c, lost)
    ensures OnlyAdded(a, c, lost)
  {
  }

  // Committing changes `lo` to `hi - 1` puts what they hold into service or retires it, and only
  // retires what served.
  predicate Settled(was: Owner, now: Owner, lo: nat, hi: nat) {
    if was.Held? && lo <= was.id < hi then now.Serves? || now == Retiring
    else now == was || (was.Serves? && now == Retiring)
  }

  lemma BindsMore(done: seq<Pending>, i: nat)
    requires i < |done|
    ensures Binds(done[..i + 1]) <==> Binds(done[..i]) || Binds(done[i..i + 1])
  {
    var more, one := done[..i + 1], done[i..i + 1];
    assert one == [more[i]];
    assert forall j :: 0 <= j < i ==> more[j] == done[..i][j];
    if Binds(one) {
      assert more[i].WebChange? && more[i].listener.Some?;
    }
  }

  // What is held now was not open when nothing was held.
  lemma PreparedIsNew(done: seq<Pending>, id: nat, now: map<Handle, Owner>, before: map<Handle, Owner>)
    requires AllHeld(now, done, id) && (forall h :: h in before ==> !before[h].Held?)
    requires forall h :: h in before ==> h in now && now[h] == before[h]
    ensures AllNew(done, before.Keys)
  {
    forall i | 0 <= i < |done|
      ensures Handles(done[i]) !! before.Keys
    {
      assert HeldFor(now, Handles(done[i]), id + i);
    }
  }

  lemma PublishedRound(past: seq<Event>, id: nat, n: nat, next: Config)
    ensures past + Prepares(id, n) + [Store(next)] + Commits(id, n) == past + RoundEvents(id, Round(n, Some(next)))
  {
  }

  lemma AbortedRound(past: seq<Event>, id: nat, n: nat)
    ensures past + Prepares(id, n) + Aborts(id, n, 0) == past + RoundEvents(id, Round(n, None))
  {
  }

  lemma PreparesNext(id: nat, n: nat)
    ensures Prepares(id, n + 1) == Prepares(id, n) + [Event.Prepare(id + n)]
  {
  }

  ghost predicate SoundWith(owner: map<Handle, Owner>, serving: map<Role, Handle>, nextHandle: Handle, nextId: nat) {
    && (forall h :: h in owner ==> h < nextHandle)
    && (forall r :: r in serving ==> serving[r] in owner && owner[serving[r]] == Serves(r))
    && (forall h :: h in owner && owner[h].Serves? ==> owner[h].role in serving && serving[owner[h].role] == h)
    && (forall h :: h in owner && owner[h].Held? ==> owner[h].id < nextId)
  }

  class Program {
    const sections: seq<ConfigDiff.Section>
    const validate: Config -> bool
    const settings: Config -> Settings
    const comps: seq<Component>

    var live: Option<Config>
    var serving: map<Role, Handle>
    var listenPort: nat
    var nextHandle: Handle
    ghost var owner: map<Handle, Owner>
    ghost var nextId: nat
    ghost var trace: seq<Event>
    ghost var rounds: seq<Round>
    ghost const start: Option<Config>

    predicate ReadableConfig(c: Config) {
      ConfigDiff.IsConfig(sections, c.values)
    }

    // Every open handle has been handed out, and what serves is what is owned so.
    ghost predicate Sound()
      reads `serving, `nextHandle, `owner, `nextId
    {
      SoundWith(owner, serving, nextHandle, nextId)
    }

    ghost predicate NothingHeld()
      reads `owner
    {
      forall h :: h in owner ==> !owner[h].Held?
    }

    /** Between reloads: no change is pending. */
    ghost predicate Valid()
      reads this
    {
      && Sound() && NothingHeld() && (live.Some? ==> ReadableConfig(live.value))
      && nextId == Total(rounds) && trace == Events(rounds) && live == LastStored(start, rounds)
    }

    // What was open still is, with the same owner; what is new is held for the change being
    // prepared, or on its way out.
    ghost predicate Grown(before: map<Handle, Owner>, from: Handle)
      reads `owner, `nextHandle, `nextId
    {
      && from <= nextHandle
      && (forall h :: h in before ==> h < from && h in owner && owner[h] == before[h])
      && (forall h :: h in owner && h !in before ==>
            from <= h < nextHandle && (owner[h] == Retiring || owner[h] == Held(nextId)))
    }

    // Exactly these handles are held for it.
    ghost predicate Holding(held: set<Handle>, id: nat)
      reads `owner
    {
      HeldFor(owner, held, id)
    }

    // And exactly these handles are held for the change being prepared.
    ghost predicate Has(held: set<Handle>, before: map<Handle, Owner>, from: Handle)
      reads `owner, `nextHandle, `nextId
    {
      Grown(before, from) && Holding(held, nextId) && held !! before.Keys
    }

    method Open() returns (h: Handle)
      modifies `owner, `nextHandle
      ensures h == old(nextHandle) && nextHandle == h + 1 && owner == old(owner)[h := Held(nextId)]
    {
      h := nextHandle;
      nextHandle := h + 1;
      owner := owner[h := Held(nextId)];
    }

    method Close(h: Option<Handle>)
      modifies `owner
      ensures owner == old(owner) - OptionSet(h)
    {
      if h.Some? {
        owner := owner - {h.value};
      }
    }

    // Opens a resource; one that fails on the way is closed by the function that opens it.
    method TryOpen(works: bool, ghost held: set<Handle>, ghost before: map<Handle, Owner>, ghost from: Handle)
      returns (h: Option<Handle>)
      requires Has(held, before, from)
      modifies `owner, `nextHandle
      ensures Has(held + OptionSet(h), before, from) && OptionSet(h) !! held && (h.Some? <==> works)
    {
      var handle := Open();
      if !works {
        Close(Some(handle));
        return None;
      }
      return Some(handle);
    }

    method Drop(h: Option<Handle>, ghost held: set<Handle>, ghost before: map<Handle, Owner>, ghost from: Handle)
      requires Has(held, before, from) && OptionSet(h) <= held
      modifies `owner
      ensures Has(held - OptionSet(h), before, from)
    {
      Close(h);
    }

    /** PrepareMCP: off, connected, or failed; after a timeout the manager is closed later. */
    method PrepareMcp(next: Config, w: World, ghost held: set<Handle>, ghost before: map<Handle, Owner>,
                      ghost from: Handle)
      returns (ok: bool, m: Option<Handle>)
      requires Has(held, before, from)
      modifies `owner, `nextHandle
      ensures Has(held + OptionSet(m), before, from) && OptionSet(m) !! held
      ensures ok <==> !settings(next).mcpServers || (w.mcpInTime && Mcp in w.opens)
      ensures m.Some? <==> ok && settings(next).mcpServers
    {
      if !settings(next).mcpServers {
        return true, None;
      }
      if !w.mcpInTime {
        var h := Open();
        owner := owner[h := Retiring];
        return false, None;
      }
      m := TryOpen(Mcp in w.opens, held, before, from);
      ok := m.Some?;
    }

    /** botReload.Abort and the others' abort functions close what their change holds. */
    method AbortChange(p: Pending)
      modifies `owner
      ensures owner == old(owner) - Handles(p)
    {
      match p {
        case BotChange(session, _, mcp) =>
          Close(session);
          Close(mcp);
        case WebChange(_, listener, logins) =>
          Close(listener);
          Close(logins);
        case LogChange(file) => Close(file);
        case EmbedderChange(client) => Close(Some(client));
        case MemoryChange(embedder, connection, workers) =>
          Close(workers);
          Close(embedder);
          Close(connection);
        case HostChange =>
      }
    }

    // What a Prepare looks at.
    ghost function Look(changes: seq<string>, was: Option<Config>, next: Config): Scene
      reads `serving, `listenPort
    {
      Scene(changes, if was.None? then None else Some(settings(was.value)), settings(next),
            Listener in serving, listenPort)
    }

    method Undo(p: Pending, ghost before: map<Handle, Owner>, ghost from: Handle)
      requires Has(Handles(p), before, from)
      modifies `owner
      ensures Has({}, before, from)
    {
      AbortChange(p);
    }

    method Changed(changes: seq<string>, path: string) returns (found: bool)
      ensures found <==> ConfigDiff.Hits(changes, path)
    {
      found := ConfigDiff.AnyChanged(changes, [path]);
      assert path in [path];
    }

    method BotPrepare(changes: seq<string>, was: Option<Config>, next: Config, w: World) returns (r: Prepared)
      requires Sound()
      modifies `owner, `nextHandle
      ensures Has(HeldBy(r), old(owner), old(nextHandle)) && Ended(r, BotEnding(Look(changes, was, next), w))
      ensures r.Ready? ==> Fits(Bot, Look(changes, was, next), r.p)
    {
      ghost var x := Look(changes, was, next);
      var concerned :=
        ConfigDiff.AnyChanged(changes, ["core", "operations.mcp", "memory_pipeline.memory.max_paginated_limit"]);
      assert concerned <==> BotConcerned(x);
      if !concerned {
        return Nothing;
      }
      var modalities := Changed(changes, "core.ai.modalities");
      if modalities && !w.ffmpeg {
        return Failed;
      }
      r := BotPrepareSession(changes, next, w, x, old(owner), old(nextHandle));
    }

    // The session for a new token.
    method BotPrepareSession(changes: seq<string>, next: Config, w: World,
                             ghost x: Scene, ghost before: map<Handle, Owner>, ghost from: Handle)
      returns (r: Prepared)
      requires Has({}, before, from) && x.changes == changes && x.next == settings(next)
      modifies `owner, `nextHandle
      ensures Has(HeldBy(r), before, from)
      ensures Ended(r, if Needs(x, Session) && Session !in w.opens then Fails
                       else BotEndingWith(If(Needs(x, Session), Session), x, w))
      ensures r.Ready? ==> Fits(Bot, x, r.p)
    {
      var session: Option<Handle> := None;
      var token := Changed(changes, "core.discord.token");
      if token {
        session := TryOpen(Session in w.opens, {}, before, from);
        if session.None? {
          return Failed;
        }
      }
      r := BotPrepareRest(changes, next, session, w, x, before, from);
    }

    // PrepareMCP, with the session open already.
    method BotPrepareRest(changes: seq<string>, next: Config, session: Option<Handle>, w: World,
                          ghost x: Scene, ghost before: map<Handle, Owner>, ghost from: Handle)
      returns (r: Prepared)
      requires Has(OptionSet(session), before, from)
      requires x.changes == changes && x.next == settings(next)
      requires session.Some? <==> Hit(x, "core.discord.token")
      modifies `owner, `nextHandle
      ensures Has(HeldBy(r), before, from) && Ended(r, BotEndingWith(RoleOf(Session, session), x, w))
      ensures r.Ready? ==> Fits(Bot, x, r.p)
    {
      if Past(Session) in w.panics {
        return Panicked(BotChange(session, false, None));
      }
      var change := BotPrepareMcp(changes, next, session, w, x, before, from);
      if change.None? {
        return Failed;
      }
      r := BotPrepareDecision(changes, next, change.value, w, x, before, from);
    }

    // The MCP connections, if they changed; a failure closes the session.
    method BotPrepareMcp(changes: seq<string>, next: Config, session: Option<Handle>, w: World,
                         ghost x: Scene, ghost before: map<Handle, Owner>, ghost from: Handle)
      returns (change: Option<Pending>)
      requires Has(OptionSet(session), before, from)
      requires x.changes == changes && x.next == settings(next)
      requires session.Some? <==> Hit(x, "core.discord.token")
      modifies `owner, `nextHandle
      ensures change.Some? <==> (Needs(x, Mcp) ==> w.mcpInTime && Mcp in w.opens)
      ensures Has(if change.Some? then Handles(change.value) else {}, before, from)
      ensures change.Some? ==> WellFormed(change.value) && Fits(Bot, x, change.value)
      ensures change.Some? ==> Roles(change.value) == RoleOf(Session, session) + If(Needs(x, Mcp), Mcp)
    {
      var mcp := Changed(changes, "operations.mcp");
      if !mcp {
        return Some(BotChange(session, false, None));
      }
      var ok, m := PrepareMcp(next, w, OptionSet(session), before, from);
      if !ok {
        Drop(session, OptionSet(session), before, from);
        return None;
      }
      return Some(BotChange(session, true, m));
    }

    // The decision provider, with everything else prepared.
    method BotPrepareDecision(changes: seq<string>, next: Config, change: Pending, w: World,
                              ghost x: Scene, ghost before: map<Handle, Owner>, ghost from: Handle)
      returns (r: Prepared)
      requires Has(Handles(change), before, from) && WellFormed(change)
      requires x.changes == changes && x.next == settings(next)
      requires Fits(Bot, x, change)
      modifies `owner
      ensures Has(HeldBy(r), before, from)
      ensures Ended(r, if Past(Mcp) in w.panics then Panics(Roles(change))
                       else if Hit(x, "core.decision") && x.next.decision && !w.decision then Fails
                       else Succeeds(Roles(change)))
      ensures r.Ready? ==> r.p == change
    {
      if Past(Mcp) in w.panics {
        return Panicked(change);
      }
      var decision := Changed(changes, "core.decision");
      if decision && settings(next).decision && !w.decision {
        Undo(change, before, from);
        return Failed;
      }
      return Ready(change);
    }

    method WebPrepare(changes: seq<string>, was: Option<Config>, next: Config, w: World) returns (r: Prepared)
      requires Sound()
      modifies `owner, `nextHandle
      ensures Has(HeldBy(r), old(owner), old(nextHandle)) && Ended(r, WebEnding(Look(changes, was, next), w))
      ensures r.Ready? ==> Fits(Web, Look(changes, was, next), r.p)
    {
      ghost var x := Look(changes, was, next);
      var concerned := Changed(changes, "operations.web");
      if !concerned {
        return Nothing;
      }
      if was.None? {
        return Panicked(HostChange);
      }
      var o, n := settings(was.value).web, settings(next).web;
      assert Needs(x, Logins) <==> o.login != n.login;
      var logins: Option<Handle> := None;
      if o.login != n.login {
        logins := TryOpen(true, {}, old(owner), old(nextHandle));
      }
      if Past(Logins) in w.panics {
        return Panicked(WebChange(n.enabled, None, logins));
      }
      r := WebListen(n, logins, w, x, old(owner), old(nextHandle));
    }

    // The listener, with the login store open already.
    method WebListen(n: WebSettings, logins: Option<Handle>, w: World,
                     ghost x: Scene, ghost before: map<Handle, Owner>, ghost from: Handle)
      returns (r: Prepared)
      requires Has(OptionSet(logins), before, from)
      requires x.next.web == n && x.listening == (Listener in serving) && x.port == listenPort
      requires Hit(x, "operations.web") && x.was.Some? && (logins.Some? <==> Needs(x, Logins))
      requires Past(Logins) !in w.panics
      modifies `owner, `nextHandle
      ensures Has(HeldBy(r), before, from) && Ended(r, WebEnding(x, w))
      ensures r.Ready? ==> Fits(Web, x, r.p)
    {
      var running := Listener in serving;
      var listener: Option<Handle> := None;
      if n.enabled && (!running || listenPort != n.port) {
        listener := TryOpen(Listener in w.opens, OptionSet(logins), before, from);
        if listener.None? {
          Drop(logins, OptionSet(logins), before, from);
          return Failed;
        }
      }
      var change := WebChange(n.enabled, listener, logins);
      return if Past(Listener) in w.panics then Panicked(change) else Ready(change);
    }

    method LogPrepare(changes: seq<string>, was: Option<Config>, next: Config, w: World) returns (r: Prepared)
      requires Sound()
      modifies `owner, `nextHandle
      ensures Has(HeldBy(r), old(owner), old(nextHandle)) && Ended(r, LogEnding(Look(changes, was, next), w))
      ensures r.Ready? ==> Fits(Logging, Look(changes, was, next), r.p)
    {
      ghost var x := Look(changes, was, next);
      var concerned := Changed(changes, "operations.logging");
      if !concerned {
        return Nothing;
      }
      if was.None? {
        return Panicked(HostChange);
      }
      if settings(was.value).logFile == settings(next).logFile {
        return if w.logLevel then Ready(LogChange(None)) else Failed;
      }
      var file := TryOpen(LogFile in w.opens, {}, old(owner), old(nextHandle));
      if file.None? {
        return Failed;
      }
      return if Past(LogFile) in w.panics then Panicked(LogChange(file)) else Ready(LogChange(file));
    }

    /** A new embedding client is enough if nothing else changed, else a whole service is built. */
    method MemoryPrepare(changes: seq<string>, was: Option<Config>, next: Config, w: World) returns (r: Prepared)
      requires Sound()
      modifies `owner, `nextHandle
      ensures Has(HeldBy(r), old(owner), old(nextHandle)) && Ended(r, MemoryEnding(Look(changes, was, next), w))
      ensures r.Ready? ==> Fits(Memory, Look(changes, was, next), r.p)
    {
      if was.None? {
        return Panicked(HostChange);
      }
      var o, n := settings(was.value).memory, settings(next).memory;
      if o == n {
        return Nothing;
      }
      if n.Off? {
        return Ready(MemoryChange(None, None, None));
      }
      var embedder := TryOpen(Embedder in w.opens, {}, old(owner), old(nextHandle));
      if embedder.None? {
        return Failed;
      }
      if Past(Embedder) in w.panics {
        return Panicked(EmbedderChange(embedder.value));
      }
      if o.On? && o.rest == n.rest {
        return Ready(EmbedderChange(embedder.value));
      }
      r := BuildService(embedder, w, old(owner), old(nextHandle));
    }

    // The rest of BuildMemoryService: the database connection, then the service and its workers.
    method BuildService(embedder: Option<Handle>, w: World, ghost before: map<Handle, Owner>, ghost from: Handle)
      returns (r: Prepared)
      requires Has(OptionSet(embedder), before, from)
      requires embedder.Some?
      modifies `owner, `nextHandle
      ensures Has(HeldBy(r), before, from) && Ended(r, ServiceEnding(w))
      ensures r.Ready? ==> r.p.MemoryChange? && r.p.embedder.Some? && r.p.connection.Some? && r.p.workers.Some?
    {
      var connection := TryOpen(Connection in w.opens, OptionSet(embedder), before, from);
      if connection.None? {
        Drop(embedder, OptionSet(embedder), before, from);
        return Failed;
      }
      if Past(Connection) in w.panics {
        return Panicked(MemoryChange(embedder, connection, None));
      }
      var workers := TryOpen(Workers in w.opens, OptionSet(embedder) + OptionSet(connection), before, from);
      if workers.None? {
        Undo(MemoryChange(embedder, connection, None), before, from);
        return Failed;
      }
      var change := MemoryChange(embedder, connection, workers);
      return if Past(Workers) in w.panics then Panicked(change) else Ready(change);
    }

    /**
     Prepare of a component; a panic on the way leaves open what was opened so far. A missing old
     configuration panics where it is read.
     */
    method Prepare(c: Component, changes: seq<string>, was: Option<Config>, next: Config, w: World)
      returns (r: Prepared)
      requires Sound()
      modifies `owner, `nextHandle
      ensures Has(HeldBy(r), old(owner), old(nextHandle)) && Ended(r, Ends(c, Look(changes, was, next), w))
      ensures r.Ready? ==> Fits(c, Look(changes, was, next), r.p)
    {
      ghost var x := Look(changes, was, next);
      if Starting(c) in w.panics {
        return Panicked(HostChange);
      }
      match c {
        case Bot => r := BotPrepare(changes, was, next, w);
        case Web => r := WebPrepare(changes, was, next, w);
        case Logging => r := LogPrepare(changes, was, next, w);
        case Memory => r := MemoryPrepare(changes, was, next, w);
        case Plugins =>
          var concerned := Changed(changes, "operations.plugins");
          if !concerned {
            return Nothing;
          }
          return if settings(next).pluginsDir && !w.pluginsDir then Failed else Ready(HostChange);
        case ConfigWatcher =>
          var concerned := Changed(changes, "operations.runtime.hot_reload");
          return if concerned then Ready(HostChange) else Nothing;
      }
    }

    // Gives up what is held for the change being prepared for lost after a panic.
    ghost method Lose(held: set<Handle>, before: map<Handle, Owner>, from: Handle)
      requires Has(held, before, from) && forall h :: h in before ==> before[h] != Held(nextId)
      modifies `owner
      ensures owner.Keys == old(owner).Keys && OnlyAdded(before, owner, held)
      ensures forall h :: h in owner && h !in before ==> h < nextHandle && (owner[h] == Retiring || owner[h] == Leaked)
    {
      owner := map h | h in owner :: if owner[h] == Held(nextId) then Leaked else owner[h];
      HeldIsLost(before, old(owner), owner, held, nextId);
    }

    function LostHandles(r: Prepared): set<Handle> {
      if r.Panicked? then Handles(r.open) else {}
    }

    // Gives a prepared change its number, or gives up what a panic left open.
    ghost method Book(r: Prepared, before: map<Handle, Owner>, from: Handle)
      requires Has(HeldBy(r), before, from) && SoundWith(before, serving, from, nextId)
      modifies `owner, `nextId, `trace
      ensures Sound() && OnlyAdded(before, owner, LostHandles(r))
      ensures nextId == old(nextId) + (if r.Ready? then 1 else 0)
      ensures trace == old(trace) + if r.Ready? then [Event.Prepare(old(nextId))] else []
      ensures r.Ready? ==> Holding(Handles(r.p), old(nextId))
      ensures forall h :: h in owner && h !in before && owner[h].Held? ==> r.Ready? && owner[h].id == old(nextId)
    {
      if r.Panicked? {
        Lose(Handles(r.open), before, from);
      } else if r.Ready? {
        trace := trace + [Event.Prepare(nextId)];
        nextId := nextId + 1;
      }
    }

    /** safePrepare: a panic is an error, and what is lost is what was open when it came. */
    method SafePrepare(c: Component, changes: seq<string>, was: Option<Config>, next: Config, w: World)
      returns (r: Prepared)
      requires Sound()
      modifies `owner, `nextHandle, `nextId, `trace
      ensures Sound() && EndsAs(r, Ends(c, Look(changes, was, next), w))
      ensures nextId == old(nextId) + (if r.Ready? then 1 else 0)
      ensures trace == old(trace) + if r.Ready? then [Event.Prepare(old(nextId))] else []
      ensures r.Ready? ==> WellFormed(r.p) && Holding(Handles(r.p), old(nextId))
      ensures r.Ready? ==> Fits(c, Look(changes, was, next), r.p)
      ensures OnlyAdded(old(owner), owner, LostHandles(r))
      ensures forall h :: h in owner && h !in old(owner) && owner[h].Held? ==> r.Ready? && owner[h].id == old(nextId)
    {
      r := Prepare(c, changes, was, next, w);
      Book(r, old(owner), old(nextHandle));
    }

    // The changes `id`, ..., `id + |done| - 1` are held, each with its own resources.
    ghost predicate HoldingAll(done: seq<Pending>, id: nat)
      reads `owner
    {
      AllHeld(owner, done, id)
    }

    ghost predicate OnlyHeld(lo: nat, hi: nat)
      reads `owner
    {
      forall h :: h in owner && owner[h].Held? ==> lo <= owner[h].id < hi
    }

    // Aborts the last of the changes held.
    method AbortLast(done: seq<Pending>, ghost id: nat)
      requires Sound() && done != [] && HoldingAll(done, id)
      modifies `owner, `trace
      ensures Sound() && HoldingAll(done[..|done| - 1], id)
      ensures trace == old(trace) + [Abort(id + |done| - 1)]
      ensures forall h :: h in owner <==> h in old(owner) && old(owner)[h] != Held(id + |done| - 1)
      ensures forall h :: h in owner ==> owner[h] == old(owner)[h]
    {
      AbortChange(done[|done| - 1]);
      trace := trace + [Abort(id + |done| - 1)];
    }

    method AbortAll(done: seq<Pending>, ghost id: nat)
      requires Sound() && HoldingAll(done, id)
      modifies `owner, `trace
      ensures Sound() && NothingHeld()
      ensures trace == old(trace) + Aborts(id, |done|, 0)
      ensures forall h :: h in owner <==> h in old(owner) && !old(owner)[h].Held?
      ensures forall h :: h in owner ==> owner[h] == old(owner)[h]
    {
      var i := |done|;
      assert done[..i] == done;
      while i > 0
        invariant 0 <= i <= |done|
        invariant Sound() && HoldingAll(done[..i], id)
        invariant trace == old(trace) + Aborts(id, |done|, i)
        invariant forall h :: h in owner <==> h in old(owner) && (old(owner)[h].Held? ==> old(owner)[h].id < id + i)
        invariant forall h :: h in owner ==> owner[h] == old(owner)[h]
      {
        AbortLast(done[..i], id);
        assert done[..i][..i - 1] == done[..i - 1];
        i := i - 1;
      }
    }

    method Uninstall(role: Role)
      requires Sound()
      modifies `serving, `owner
      ensures Sound() && serving == old(serving) - {role} && owner.Keys == old(owner).Keys
      ensures forall h :: h in owner ==> owner[h] == if old(owner)[h] == Serves(role) then Retiring else old(owner)[h]
    {
      owner := map h | h in owner :: if owner[h] == Serves(role) then Retiring else owner[h];
      serving := serving - {role};
    }

    method Serve(role: Role, h: Handle, ghost id: nat)
      requires Sound() && h in owner && owner[h] == Held(id) && role !in serving
      modifies `serving, `owner
      ensures Sound() && serving == old(serving)[role := h] && owner == old(owner)[h := Serves(role)]
    {
      owner := owner[h := Serves(role)];
      serving := serving[role := h];
    }

    // Committing a change puts what it holds into service (an embedding client without a service
    // to take it is stopped), and only retires what served.
    twostate predicate Handover(p: Pending, id: nat)
      reads `owner, `serving
    {
      && owner.Keys == old(owner).Keys
      && (forall h :: h in owner && old(owner)[h] == Held(id) ==>
            owner[h].Serves? || (p.EmbedderChange? && Connection !in old(serving) && owner[h] == Retiring))
      && (forall h :: h in owner && old(owner)[h] != Held(id) ==>
            owner[h] == old(owner)[h] || (old(owner)[h].Serves? && owner[h] == Retiring))
    }

    predicate Handed(was: Owner, now: Owner, id: nat, held: bool, roles: set<Role>) {
      if was == Held(id) then (if held then now == was else now.Serves? && now.role in roles)
      else now == was || (was.Serves? && now == Retiring)
    }

    // Of the change's handles those in `left` are still held, the others serve in these roles.
    ghost predicate HandingOver(before: map<Handle, Owner>, id: nat, left: set<Handle>, roles: set<Role>)
      reads `owner
    {
      owner.Keys == before.Keys && forall h :: h in owner ==> Handed(before[h], owner[h], id, h in left, roles)
    }

    method Replace(role: Role, h: Option<Handle>, ghost id: nat, ghost before: map<Handle, Owner>,
                   ghost left: set<Handle>, ghost roles: set<Role>)
      requires Sound() && HandingOver(before, id, left, roles) && role !in roles
      requires h.Some? ==> h.value in left && h.value in owner && before[h.value] == Held(id)
      modifies `serving, `owner
      ensures Sound() && serving == Replaced(old(serving), role, h)
      ensures HandingOver(before, id, left - OptionSet(h), roles + {role})
    {
      Uninstall(role);
      if h.Some? {
        Serve(role, h.value, id);
      }
    }

    method Install(role: Role, h: Option<Handle>, ghost id: nat, ghost before: map<Handle, Owner>,
                   ghost left: set<Handle>, ghost roles: set<Role>)
      requires Sound() && HandingOver(before, id, left, roles) && role !in roles
      requires h.Some? ==> h.value in left && h.value in owner && before[h.value] == Held(id)
      modifies `serving, `owner
      ensures Sound() && serving == if h.Some? then old(serving)[role := h.value] else old(serving)
      ensures HandingOver(before, id, left - OptionSet(h), roles + {role})
    {
      if h.Some? {
        Replace(role, h, id, before, left, roles);
      }
    }

    method ReplaceService(p: Pending, ghost id: nat)
      requires Sound() && p.MemoryChange? && WellFormed(p) && Holding(Handles(p), id)
      modifies `serving, `owner
      ensures Sound() && serving == ServingAfter(old(serving), p) && Handover(p, id)
    {
      ghost var before, left := owner, Handles(p);
      Replace(Embedder, p.embedder, id, before, left, {});
      left := left - OptionSet(p.embedder);
      Replace(Connection, p.connection, id, before, left, {Embedder});
      left := left - OptionSet(p.connection);
      Replace(Workers, p.workers, id, before, left, {Embedder, Connection});
    }

    method CommitBot(p: Pending, ghost id: nat)
      requires Sound() && p.BotChange? && WellFormed(p) && Holding(Handles(p), id)
      modifies `serving, `owner
      ensures Sound() && serving == ServingAfter(old(serving), p) && Handover(p, id)
    {
      ghost var before := owner;
      Install(Session, p.session, id, before, Handles(p), {});
      if p.mcpChanged {
        Replace(Mcp, p.mcp, id, before, OptionSet(p.mcp), {Session});
      }
    }

    /** Swappable.Replace, and its SwapEmbedder. */
    method CommitMemory(p: Pending, ghost id: nat)
      requires Sound() && (p.EmbedderChange? || p.MemoryChange?) && WellFormed(p) && Holding(Handles(p), id)
      modifies `serving, `owner
      ensures Sound() && serving == ServingAfter(old(serving), p) && Handover(p, id)
    {
      if p.MemoryChange? {
        ReplaceService(p, id);
      } else if Connection in serving {
        Install(Embedder, Some(p.client), id, owner, Handles(p), {});
      } else {
        owner := owner[p.client := Retiring];
      }
    }

    method CommitWeb(p: Pending, next: Config, ghost id: nat)
      requires Sound() && p.WebChange? && WellFormed(p) && Holding(Handles(p), id)
      modifies `serving, `owner, `listenPort
      ensures Sound() && serving == ServingAfter(old(serving), p) && Handover(p, id)
      ensures listenPort == if p.listener.Some? then settings(next).web.port else old(listenPort)
    {
      ghost var before := owner;
      Install(Logins, p.logins, id, before, Handles(p), {});
      if !p.enabled {
        Uninstall(Listener);
      } else if p.listener.Some? {
        Install(Listener, p.listener, id, before, OptionSet(p.listener), {Logins});
        listenPort := settings(next).web.port;
      }
    }

    method CommitChange(p: Pending, next: Config, ghost id: nat)
      requires Sound() && WellFormed(p) && Holding(Handles(p), id)
      modifies `serving, `owner, `listenPort
      ensures Sound() && serving == ServingAfter(old(serving), p) && Handover(p, id)
      ensures listenPort == if p.WebChange? && p.listener.Some? then settings(next).web.port else old(listenPort)
    {
      match p {
        case BotChange(_, _, _) => CommitBot(p, id);
        case WebChange(_, _, _) => CommitWeb(p, next, id);
        case LogChange(file) => Install(LogFile, file, id, owner, Handles(p), {});
        case EmbedderChange(_) => CommitMemory(p, id);
        case MemoryChange(_, _, _) => CommitMemory(p, id);
        case HostChange =>
      }
    }

    // The changes from the i-th on are still held.
    ghost predicate HoldingFrom(done: seq<Pending>, i: nat, id: nat)
      reads `owner
    {
      && OnlyHeld(id + i, id + |done|)
      && forall j :: i <= j < |done| ==> WellFormed(done[j]) && Holding(Handles(done[j]), id + j)
    }

    method CommitNext(done: seq<Pending>, i: nat, next: Config, ghost id: nat)
      requires Sound() && i < |done| && HoldingFrom(done, i, id)
      modifies `serving, `owner, `listenPort, `trace
      ensures Sound() && HoldingFrom(done, i + 1, id) && serving == ServingAfter(old(serving), done[i])
      ensures trace == old(trace) + [Commit(id + i)] && owner.Keys == old(owner).Keys
      ensures listenPort == if Binds(done[i..i + 1]) then settings(next).web.port else old(listenPort)
      ensures forall h :: h in owner ==> Settled(old(owner)[h], owner[h], id + i, id + i + 1)
    {
      assert done[i..i + 1] == [done[i]];
      CommitChange(done[i], next, id + i);
      trace := trace + [Commit(id + i)];
    }

    method CommitAll(done: seq<Pending>, next: Config, ghost id: nat)
      requires Sound() && HoldingAll(done, id)
      modifies `serving, `owner, `listenPort, `trace
      ensures Sound() && NothingHeld() && serving == ServingAfterAll(old(serving), done)
      ensures trace == old(trace) + Commits(id, |done|) && owner.Keys == old(owner).Keys
      ensures listenPort == if Binds(done) then settings(next).web.port else old(listenPort)
      ensures forall h :: h in owner ==> Settled(old(owner)[h], owner[h], id, id + |done|)
    {
      for i := 0 to |done|
        invariant Sound() && HoldingFrom(done, i, id)
        invariant serving == ServingAfterAll(old(serving), done[..i])
        invariant trace == old(trace) + Commits(id, i) && owner.Keys == old(owner).Keys
        invariant listenPort == if Binds(done[..i]) then settings(next).web.port else old(listenPort)
        invariant forall h :: h in owner ==> Settled(old(owner)[h], owner[h], id, id + i)
      {
        BindsMore(done, i);
        CommitNext(done, i, next, id);
        assert done[..i + 1][..i] == done[..i];
      }
      assert done[..|done|] == done;
    }

    // `done` is prepared for changes `id` and up, since `before` and `past`.
    ghost predicate Gathered(done: seq<Pending>, id: nat, before: map<Handle, Owner>, past: seq<Event>,
                             lost: set<Handle>)
      reads `owner, `nextHandle, `nextId, `trace, `serving
    {
      && Sound() && HoldingAll(done, id) && nextId == id + |done|
      && trace == past + Prepares(id, |done|) && OnlyAdded(before, owner, lost)
    }

    method PrepareNext(c: Component, changes: seq<string>, was: Option<Config>, next: Config, w: World,
                       done: seq<Pending>, ghost id: nat, ghost before: map<Handle, Owner>, ghost past: seq<Event>)
      returns (r: Prepared, more: seq<Pending>)
      requires Gathered(done, id, before, past, {})
      modifies `owner, `nextHandle, `nextId, `trace
      ensures Gathered(more, id, before, past, LostHandles(r))
      ensures EndsAs(r, Ends(c, Look(changes, was, next), w)) && more == if r.Ready? then done + [r.p] else done
      ensures r.Ready? ==> Fits(c, Look(changes, was, next), r.p)
    {
      PreparesNext(id, |done|);
      r := SafePrepare(c, changes, was, next, w);
      AddedMore(before, old(owner), owner, LostHandles(r));
      if r.Ready? {
        MoreHeld(old(owner), owner, {}, done, r.p, id);
        more := done + [r.p];
      } else {
        SameHeld(old(owner), owner, LostHandles(r), done, id);
        more := done;
      }
    }

    // One turn of the loop of Apply.
    method PrepareTurn(i: nat, changes: seq<string>, was: Option<Config>, next: Config, w: World, done: seq<Pending>,
                       ghost who: seq<Component>, ghost id: nat, ghost before: map<Handle, Owner>,
                       ghost past: seq<Event>)
      returns (r: Prepared, more: seq<Pending>, ghost whoMore: seq<Component>)
      requires i < |comps| && Gathered(done, id, before, past, {})
      requires Through(comps, i, Look(changes, was, next), w, done, who)
      modifies `owner, `nextHandle, `nextId, `trace
      ensures Gathered(more, id, before, past, LostHandles(r))
      ensures var x := Look(changes, was, next);
        if r.Failed? || r.Panicked? then PhaseDone(comps, x, w, more, r)
        else Through(comps, i + 1, x, w, more, whoMore)
    {
      ghost var x := Look(changes, was, next);
      r, more := PrepareNext(comps[i], changes, was, next, w, done, id, before, past);
      if r.Ready? {
        ThroughReady(comps, i, x, w, done, who, r.p);
        whoMore := who + [comps[i]];
      } else {
        ThroughOther(comps, i, x, w, done, who, r);
        whoMore := who;
      }
    }

    /** The loop of Apply: prepares every component until one fails. */
    method PrepareAll(changes: seq<string>, was: Option<Config>, next: Config, w: World)
      returns (done: seq<Pending>, stop: Prepared)
      requires Sound() && NothingHeld()
      modifies `owner, `nextHandle, `nextId, `trace
      ensures Gathered(done, old(nextId), old(owner), old(trace), LostHandles(stop))
      ensures PhaseDone(comps, Look(changes, was, next), w, done, stop)
    {
      done := [];
      ghost var id, x, before, past := nextId, Look(changes, was, next), owner, trace;
      ghost var who: seq<Component> := [];
      assert comps[0..] == comps;
      for i := 0 to |comps|
        invariant Gathered(done, id, before, past, {})
        invariant Through(comps, i, x, w, done, who)
      {
        var r;
        r, done, who := PrepareTurn(i, changes, was, next, w, done, who, id, before, past);
        if r.Failed? || r.Panicked? {
          return done, r;
        }
      }
      return done, Nothing;
    }

    constructor (sections: seq<ConfigDiff.Section>, validate: Config -> bool, settings: Config -> Settings,
                 comps: seq<Component>, live: Option<Config>, serving: map<Role, Handle>, listenPort: nat,
                 nextHandle: Handle, ghost owner: map<Handle, Owner>)
      requires live.Some? ==> ConfigDiff.IsConfig(sections, live.value.values)
      requires forall h :: h in owner ==> h < nextHandle && owner[h].Serves?
      requires forall r :: r in serving ==> serving[r] in owner && owner[serving[r]] == Serves(r)
      requires forall h :: h in owner ==> owner[h].role in serving && serving[owner[h].role] == h
      ensures Valid() && this.live == start == live && this.serving == serving && rounds == []
    {
      this.sections, this.validate, this.settings, this.comps := sections, validate, settings, comps;
      this.live, this.start, this.serving, this.listenPort := live, live, serving, listenPort;
      this.nextHandle, this.owner := nextHandle, owner;
      nextId, trace, rounds := 0, [], [];
    }

    // next, with the live file's path if it has none.
    function Effective(next: Config): Config
      reads `live
    {
      if next.path == "" && live.Some? then next.(path := live.value.path) else next
    }

    ghost predicate SameAsLive(next: Config)
      requires ReadableConfig(next) && (live.Some? ==> ReadableConfig(live.value))
      reads `live
    {
      live.Some? && forall i :: 0 <= i < |sections| ==>
        ConfigDiff.EqualSection(sections, live.value.values, next.values, i)
    }

    ghost method Record(round: Round)
      requires trace == Events(rounds) + RoundEvents(Total(rounds), round)
      modifies `rounds
      ensures rounds == old(rounds) + [round]
      ensures trace == Events(rounds) && Total(rounds) == old(Total(rounds)) + round.n
      ensures LastStored(start, rounds) == if round.stored.Some? then round.stored else old(LastStored(start, rounds))
    {
      assert (rounds + [round])[..|rounds|] == rounds;
      rounds := rounds + [round];
    }

    // The prepare phase has ended with `done` held for changes `id` and up.
    ghost predicate Preparing(done: seq<Pending>, id: nat)
      reads this
    {
      && Sound() && HoldingAll(done, id) && nextId == id + |done| && id == Total(rounds)
      && trace == Events(rounds) + Prepares(id, |done|)
      && live == LastStored(start, rounds) && (live.Some? ==> ReadableConfig(live.value))
    }

    method GiveUp(done: seq<Pending>, ghost id: nat)
      requires Preparing(done, id)
      modifies `owner, `trace, `rounds
      ensures Valid() && rounds == old(rounds) + [Round(|done|, None)]
      ensures forall h :: h in owner <==> h in old(owner) && !old(owner)[h].Held?
      ensures forall h :: h in owner ==> owner[h] == old(owner)[h]
    {
      AbortAll(done, id);
      AbortedRound(Events(rounds), id, |done|);
      Record(Round(|done|, None));
    }

    method Publish(done: seq<Pending>, next: Config, ghost id: nat)
      requires Preparing(done, id) && ReadableConfig(next)
      modifies `live, `serving, `listenPort, `owner, `trace, `rounds
      ensures Valid() && live == Some(next) && rounds == old(rounds) + [Round(|done|, live)]
      ensures serving == ServingAfterAll(old(serving), done) && owner.Keys == old(owner).Keys
      ensures listenPort == if Binds(done) then settings(next).web.port else old(listenPort)
      ensures forall h :: h in owner ==> Settled(old(owner)[h], owner[h], id, id + |done|)
    {
      live := Some(next);
      trace := trace + [Store(next)];
      CommitAll(done, next, id);
      PublishedRound(Events(rounds), id, |done|, next);
      Record(Round(|done|, Some(next)));
    }

    /** The memory service runs as a whole if the live configuration turns it on, and no part of it if not. */
    ghost predicate MemoryServesAsSet()
      reads `live, `serving
    {
      live.Some? && MemoryFits(settings(live.value).memory, serving)
    }

    // A failed reload changes nothing in service; what it leaves open for good is what was open
    // in the Prepare that panicked.
    twostate predicate KeptRunning(lost: set<Handle>)
      reads this
    {
      && live == old(live) && serving == old(serving) && listenPort == old(listenPort)
      && (forall h :: h in old(owner) ==> h in owner && owner[h] == old(owner)[h])
      && (forall h :: h in owner && h !in old(owner) ==> owner[h] == Retiring || h in lost)
      && (forall h :: h in lost <==> h in owner && h !in old(owner) && owner[h] == Leaked)
    }

    // A successful one puts all prepared changes into service, loses nothing, and retires what
    // served before and serves no more.
    twostate predicate SwitchedOver(next: Config, done: seq<Pending>)
      reads this
    {
      && live == Some(next) && serving == ServingAfterAll(old(serving), done)
      && (forall h :: h in old(owner) ==>
            h in owner && if old(owner)[h].Serves? && !owner[h].Serves? then owner[h] == Retiring
                          else owner[h] == old(owner)[h])
      && (forall h :: h in owner && h !in old(owner) ==> owner[h].Serves? || owner[h] == Retiring)
    }

    /** What serves, and on which port, follows from the changed paths and the old and new settings. */
    twostate predicate FollowsSettings(x: Scene)
      requires x.was.Some?
      reads this
    {
      && Switched(comps, x, old(serving), serving, old(owner).Keys)
      && PortFollows(comps, x, old(listenPort), listenPort)
    }

    method Reload(was: Option<Config>, next: Config, changes: seq<string>, w: World)
      returns (outcome: Outcome, ghost done: seq<Pending>, ghost stop: Prepared)
      requires Valid() && ReadableConfig(next)
      modifies this
      ensures Valid() && !stop.Ready? && EndsAs(stop, PhaseEnds(comps, old(Look(changes, was, next)), w))
      ensures RolesOfAll(done) == Planned(comps, old(Look(changes, was, next)), w)
      ensures outcome == if stop.Nothing? then Applied else Rejected(stop.Panicked?)
      ensures outcome.Applied? ==> SwitchedOver(next, done) && rounds == old(rounds) + [Round(|done|, Some(next))]
      ensures outcome.Applied? && was.Some? && NoRepeats(comps) ==> FollowsSettings(old(Look(changes, was, next)))
      ensures outcome.Rejected? ==> KeptRunning(LostHandles(stop)) && rounds == old(rounds) + [Round(|done|, None)]
    {
      var prepared, ended := PrepareAll(changes, was, next, w);
      done, stop := prepared, ended;
      if !ended.Nothing? {
        GiveUp(prepared, old(nextId));
        outcome := Rejected(ended.Panicked?);
      } else {
        PreparedIsNew(prepared, nextId - |prepared|, owner, old(owner));
        Publish(prepared, next, old(nextId));
        outcome := Applied;
        if was.Some? && NoRepeats(comps) {
          ghost var x := old(Look(changes, was, next));
          ReloadServes(comps, x, w, old(serving), prepared, old(owner).Keys);
          BoundPort(comps, x, w, prepared, listenPort);
        }
      }
    }

    ghost function Differences(next: Config): seq<string>
      requires ReadableConfig(next) && (live.Some? ==> ReadableConfig(live.value))
      reads `live
    {
      if live.None? then ["*"] else ConfigDiff.Changes(sections, live.value.values, next.values)
    }

    /** What a reload to `next` looks at. */
    ghost function LookAt(next: Config): Scene
      requires ReadableConfig(next) && (live.Some? ==> ReadableConfig(live.value))
      reads `live, `serving, `listenPort
    {
      Look(Differences(next), live, next)
    }

    /**
     Apply is all or nothing. A failed one changes neither the live configuration nor anything
     in service; what was prepared is aborted once, in reverse order, and what stays open for
     good is what was open in a Prepare that panicked. A successful one stores the configuration,
     then commits each prepared change once, in order.
     */
    method Apply(request: Option<Config>, w: World)
      returns (outcome: Outcome, ghost done: seq<Pending>, ghost stop: Prepared)
      requires Valid() && (request.Some? ==> ReadableConfig(request.value))
      modifies this
      ensures Valid()
      ensures outcome.NilConfig? <==> request.None?
      ensures outcome.Invalid? <==> request.Some? && !validate(old(Effective(request.value)))
      ensures outcome.NoChange? <==>
        request.Some? && validate(old(Effective(request.value))) && old(SameAsLive(request.value))
      ensures outcome.Applied? || outcome.Rejected? ==>
        && var x := old(LookAt(Effective(request.value)));
        && EndsAs(stop, PhaseEnds(comps, x, w)) && RolesOfAll(done) == Planned(comps, x, w)
        && outcome == if stop.Nothing? then Applied else Rejected(stop.Panicked?)
      ensures outcome.Applied? ==>
        SwitchedOver(old(Effective(request.value)), done) && rounds == old(rounds) + [Round(|done|, live)]
      ensures outcome.Applied? && old(live).Some? && NoRepeats(comps) ==>
        FollowsSettings(old(LookAt(Effective(request.value))))
      ensures outcome.Rejected? ==> KeptRunning(LostHandles(stop)) && rounds == old(rounds) + [Round(|done|, None)]
      ensures !outcome.Applied? && !outcome.Rejected? ==> KeptRunning({}) && rounds == old(rounds)
      ensures NoRepeats(comps) && Memory in comps && old(MemoryServesAsSet()) ==> MemoryServesAsSet()
    {
      done, stop := [], Nothing;
      if request.None? {
        return NilConfig, done, stop;
      }
      var next := Effective(request.value);
      if !validate(next) {
        return Invalid, done, stop;
      }
      var changes := ConfigDiff.DiffConfig(sections, if live.None? then None else Some(live.value.values),
                                           Some(next.values));
      if live.Some? {
        ConfigDiff.NoSectionNamedIffEqual(sections, live.value.values, next.values);
      }
      if changes == [] {
        return NoChange, done, stop;
      }
      outcome, done, stop := Reload(live, next, changes, w);
      if outcome.Applied? && NoRepeats(comps) && Memory in comps && old(MemoryServesAsSet()) {
        MemoryFollows(comps, old(LookAt(next)), old(serving), serving, old(owner).Keys);
      }
    }

    /** A reload to a new token that panics once the new session is open loses that session. */
    method LoseSession(next: Config) returns (outcome: Outcome, ghost session: Handle)
      requires Valid() && comps == Registered && live.Some? && ReadableConfig(next)
      requires validate(Effective(next)) && Needs(LookAt(Effective(next)), Session)
      modifies this
      ensures Valid() && outcome == Rejected(true) && KeptRunning({session})
    {
      ConfigDiff.NoSectionNamedIffEqual(sections, live.value.values, next.values);
      SessionLost(LookAt(Effective(next)));
      ghost var done, stop;
      outcome, done, stop := Apply(Some(next), PanicsPast(Session));
      session := HeldSession(stop);
    }
  }
}
