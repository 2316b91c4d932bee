/**
 What serves after a reload: for every component the resources of its roles, said in terms of
 the changed paths and of the old and new settings.
 */
module ReloadServing {
  import opened Wrappers
  import opened ReloadPlan
  import ConfigDiff

  type Serving = map<Role, Handle>

  function Replaced(serving: Serving, role: Role, h: Option<Handle>): Serving {
    var rest := serving - {role};
    if h.Some? then rest[role := h.value] else rest
  }

  /** What serves after a change is committed. */
  function ServingAfter(serving: Serving, p: Pending): Serving {
    match p {
      case BotChange(session, mcpChanged, mcp) =>
        var s := if session.Some? then serving[Session := session.value] else serving;
        if mcpChanged then Replaced(s, Mcp, mcp) else s
      case WebChange(enabled, listener, logins) =>
        var s := if logins.Some? then serving[Logins := logins.value] else serving;
        if !enabled then s - {Listener} else if listener.Some? then s[Listener := listener.value] else s
      case LogChange(file) => if file.Some? then serving[LogFile := file.value] else serving
      case EmbedderChange(client) => if Connection in serving then serving[Embedder := client] else serving
      case MemoryChange(embedder, connection, workers) =>
        Replaced(Replaced(Replaced(serving, Embedder, embedder), Connection, connection), Workers, workers)
      case HostChange => serving
    }
  }

  function ServingAfterAll(serving: Serving, ps: seq<Pending>): Serving {
    if ps == [] then serving else ServingAfter(ServingAfterAll(serving, ps[..|ps| - 1]), ps[|ps| - 1])
  }

  // ---- What serves, role by role ----

  /** The role is served by a resource that is none of those in use before. */
  predicate Renewed(role: Role, now: Serving, used: set<Handle>) {
    role in now && now[role] !in used
  }

  /** The role is served by what served it before, if anything did. */
  predicate Kept(role: Role, was: Serving, now: Serving) {
    if role in was then role in now && now[role] == was[role] else role !in now
  }

  /** A new session for a new token, and new MCP connections if that section changed, if there are servers. */
  ghost predicate BotServes(x: Scene, was: Serving, now: Serving, used: set<Handle>) {
    && (if Hit(x, "core.discord.token") then Renewed(Session, now, used)
        else Kept(Session, was, now))
    && (if !Hit(x, "operations.mcp") then Kept(Mcp, was, now)
        else if x.next.mcpServers then Renewed(Mcp, now, used)
        else Mcp !in now)
  }

  /** No listener with the dashboard off, a new one on a new port or if none was listening. */
  ghost predicate WebServes(x: Scene, was: Serving, now: Serving, used: set<Handle>)
    requires x.was.Some?
  {
    if !Hit(x, "operations.web") then Kept(Listener, was, now) && Kept(Logins, was, now)
    else
      && (if x.was.value.web.login != x.next.web.login then Renewed(Logins, now, used) else Kept(Logins, was, now))
      && (if !x.next.web.enabled then Listener !in now
          else if Listener in was && x.port == x.next.web.port then Kept(Listener, was, now)
          else Renewed(Listener, now, used))
  }

  ghost predicate LogServes(x: Scene, was: Serving, now: Serving, used: set<Handle>)
    requires x.was.Some?
  {
    if Hit(x, "operations.logging") && x.was.value.logFile != x.next.logFile
    then Renewed(LogFile, now, used)
    else Kept(LogFile, was, now)
  }

  predicate MemoryKept(was: Serving, now: Serving) {
    Kept(Embedder, was, now) && Kept(Connection, was, now) && Kept(Workers, was, now)
  }

  /** Nothing with memory off; a new embedding client alone where the rest is unchanged; else a new service. */
  predicate MemoryServes(x: Scene, was: Serving, now: Serving, used: set<Handle>)
    requires x.was.Some?
  {
    var o, n := x.was.value.memory, x.next.memory;
    if o == n then MemoryKept(was, now)
    else if n.Off? then Embedder !in now && Connection !in now && Workers !in now
    else if o.On? && o.rest == n.rest then
      && Kept(Connection, was, now) && Kept(Workers, was, now)
      && (if Connection in was then Renewed(Embedder, now, used) else Kept(Embedder, was, now))
    else Renewed(Embedder, now, used) && Renewed(Connection, now, used) && Renewed(Workers, now, used)
  }

  ghost predicate ComponentServes(c: Component, x: Scene, was: Serving, now: Serving, used: set<Handle>)
    requires x.was.Some?
  {
    match c {
      case Bot => BotServes(x, was, now, used)
      case Web => WebServes(x, was, now, used)
      case Logging => LogServes(x, was, now, used)
      case Memory => MemoryServes(x, was, now, used)
      case _ => true
    }
  }

  // All roles of a component are served as before.
  ghost predicate ComponentKept(c: Component, was: Serving, now: Serving) {
    forall role :: ComponentOf(role) == c ==> Kept(role, was, now)
  }

  /** What every component of the program serves with after the reload. */
  ghost predicate Switched(comps: seq<Component>, x: Scene, was: Serving, now: Serving, used: set<Handle>)
    requires x.was.Some?
  {
    forall c :: if c in comps then ComponentServes(c, x, was, now, used) else ComponentKept(c, was, now)
  }

  // ---- Committing the prepared changes serves so ----

  lemma RolesOf(c: Component)
    ensures forall role :: ComponentOf(role) == c <==> match c {
        case Bot => role == Session || role == Mcp
        case Web => role == Listener || role == Logins
        case Logging => role == LogFile
        case Memory => role == Embedder || role == Connection || role == Workers
        case _ => false
      }
  {
  }

  // A component whose roles are served as before serves as before.
  lemma SameServes(c: Component, x: Scene, was: Serving, was2: Serving, now: Serving, now2: Serving, used: set<Handle>)
    requires x.was.Some? && ComponentServes(c, x, was, now, used)
    requires ComponentKept(c, was, was2) && ComponentKept(c, now, now2)
    ensures ComponentServes(c, x, was2, now2, used)
  {
    match c {
      case Bot =>
        assert ComponentOf(Session) == ComponentOf(Mcp) == Bot;
      case Web =>
        assert ComponentOf(Listener) == ComponentOf(Logins) == Web;
      case Logging =>
        assert ComponentOf(LogFile) == Logging;
      case Memory =>
        assert ComponentOf(Embedder) == ComponentOf(Connection) == ComponentOf(Workers) == Memory;
      case _ =>
    }
  }

  lemma CommittedServes(c: Component, x: Scene, was: Serving, p: Pending, used: set<Handle>)
    requires x.was.Some? && Fits(c, x, p) && Handles(p) !! used && (c == Web ==> x.listening == (Listener in was))
    ensures ComponentServes(c, x, was, ServingAfter(was, p), used)
  {
  }

  lemma OthersKept(c: Component, x: Scene, was: Serving, p: Pending, d: Component)
    requires Fits(c, x, p) && c != d
    ensures ComponentKept(d, was, ServingAfter(was, p))
  {
    RolesOf(c);
  }

  // A component that prepares nothing has nothing to change.
  lemma SkippingKeeps(c: Component, x: Scene, w: World, was: Serving, now: Serving, used: set<Handle>)
    requires x.was.Some? && Ends(c, x, w).Skips? && ComponentKept(c, was, now)
    ensures ComponentServes(c, x, was, now, used)
  {
    RolesOf(c);
    BelowCore(x);
    assert "operations.mcp" in ["core", "operations.mcp", "memory_pipeline.memory.max_paginated_limit"];
  }

  ghost predicate FitAll(who: seq<Component>, x: Scene, done: seq<Pending>) {
    |who| == |done| && forall i :: 0 <= i < |done| ==> Fits(who[i], x, done[i])
  }

  predicate AllNew(done: seq<Pending>, used: set<Handle>) {
    forall i :: 0 <= i < |done| ==> Handles(done[i]) !! used
  }

  predicate NoRepeats(comps: seq<Component>) {
    forall i, j :: 0 <= i < j < |comps| ==> comps[i] != comps[j]
  }

  lemma {:induction false} UnpreparedKept(x: Scene, was: Serving, who: seq<Component>, done: seq<Pending>, c: Component)
    requires FitAll(who, x, done) && c !in who
    ensures ComponentKept(c, was, ServingAfterAll(was, done))
  {
    if done != [] {
      var n := |done| - 1;
      UnpreparedKept(x, was, who[..n], done[..n], c);
      OthersKept(who[n], x, ServingAfterAll(was, done[..n]), done[n], c);
    }
  }

  lemma {:induction false} PreparedServes(x: Scene, was: Serving, who: seq<Component>, done: seq<Pending>,
                                          used: set<Handle>, c: Component)
    requires x.was.Some? && x.listening == (Listener in was)
    requires FitAll(who, x, done) && AllNew(done, used) && NoRepeats(who) && c in who
    ensures ComponentServes(c, x, was, ServingAfterAll(was, done), used)
  {
    var n := |done| - 1;
    var before := ServingAfterAll(was, done[..n]);
    if who[n] == c {
      UnpreparedKept(x, was, who[..n], done[..n], c);
      assert ComponentOf(Listener) == Web;
      CommittedServes(c, x, before, done[n], used);
      SameServes(c, x, before, was, ServingAfter(before, done[n]), ServingAfter(before, done[n]), used);
    } else {
      PreparedServes(x, was, who[..n], done[..n], used, c);
      OthersKept(who[n], x, before, done[n], c);
      SameServes(c, x, was, was, before, ServingAfter(before, done[n]), used);
    }
  }

  lemma {:induction false} ChangingAre(comps: seq<Component>, x: Scene, w: World)
    requires PhaseEnds(comps, x, w).Skips?
    ensures forall c :: c in Changing(comps, x, w) <==> c in comps && !Ends(c, x, w).Skips?
    ensures NoRepeats(comps) ==> NoRepeats(Changing(comps, x, w))
  {
    if comps != [] {
      ChangingAre(comps[1..], x, w);
    }
  }

  /** Committing what the components prepared makes every one of them serve as it should. */
  lemma ReloadServes(comps: seq<Component>, x: Scene, w: World, was: Serving, done: seq<Pending>, used: set<Handle>)
    requires x.was.Some? && x.listening == (Listener in was) && NoRepeats(comps)
    requires PhaseEnds(comps, x, w).Skips? && FitAll(Changing(comps, x, w), x, done) && AllNew(done, used)
    ensures Switched(comps, x, was, ServingAfterAll(was, done), used)
  {
    var who, now := Changing(comps, x, w), ServingAfterAll(was, done);
    ChangingAre(comps, x, w);
    forall c
      ensures if c in comps then ComponentServes(c, x, was, now, used) else ComponentKept(c, was, now)
    {
      if c in who {
        PreparedServes(x, was, who, done, used, c);
      } else {
        UnpreparedKept(x, was, who, done, c);
        if c in comps {
          SkippingKeeps(c, x, w, was, now, used);
        }
      }
    }
  }

  predicate Binds(done: seq<Pending>) {
    exists i :: 0 <= i < |done| && done[i].WebChange? && done[i].listener.Some?
  }

  lemma BindsExactly(who: seq<Component>, x: Scene, done: seq<Pending>)
    requires FitAll(who, x, done)
    ensures Binds(done) <==> Web in who && x.next.web.enabled && (!x.listening || x.port != x.next.web.port)
  {
    if Web in who {
      var i :| 0 <= i < |who| && who[i] == Web;
      assert Fits(who[i], x, done[i]);
    }
    if Binds(done) {
      var i :| 0 <= i < |done| && done[i].WebChange? && done[i].listener.Some?;
      assert Fits(who[i], x, done[i]);
    }
  }

  /** The port listened on after a reload. */
  ghost predicate PortFollows(comps: seq<Component>, x: Scene, was: nat, now: nat) {
    now == if Web in comps && Hit(x, "operations.web") && x.next.web.enabled
           then x.next.web.port else was
  }

  // A listener that was there stays on its port if the new settings name the same.
  lemma BoundPort(comps: seq<Component>, x: Scene, w: World, done: seq<Pending>, now: nat)
    requires x.was.Some? && PhaseEnds(comps, x, w).Skips? && FitAll(Changing(comps, x, w), x, done)
    requires now == if Binds(done) then x.next.web.port else x.port
    ensures PortFollows(comps, x, x.port, now)
  {
    BindsExactly(Changing(comps, x, w), x, done);
    ChangingAre(comps, x, w);
    WebSkips(x, w);
    if Web in comps {
      NoStop(comps, x, w, Web);
    }
  }

  lemma WebSkips(x: Scene, w: World)
    ensures Ends(Web, x, w).Skips? ==> !Hit(x, "operations.web")
    ensures Ends(Web, x, w).Succeeds? ==> Hit(x, "operations.web")
  {
  }

  lemma {:induction false} NoStop(comps: seq<Component>, x: Scene, w: World, c: Component)
    requires PhaseEnds(comps, x, w).Skips? && c in comps
    ensures Ends(c, x, w).Skips? || Ends(c, x, w).Succeeds?
  {
    if comps[0] != c {
      NoStop(comps[1..], x, w, c);
    }
  }

  /** The memory service is there as a whole exactly if memory is on. */
  predicate MemoryFits(m: MemorySettings, serving: Serving) {
    if m.On? then Embedder in serving && Connection in serving && Workers in serving
    else Embedder !in serving && Connection !in serving && Workers !in serving
  }

  lemma MemoryFollows(comps: seq<Component>, x: Scene, was: Serving, now: Serving, used: set<Handle>)
    requires x.was.Some? && Memory in comps && Switched(comps, x, was, now, used)
    requires MemoryFits(x.was.value.memory, was)
    ensures MemoryFits(x.next.memory, now)
  {
    assert ComponentServes(Memory, x, was, now, used);
  }
}
