/**
 What the components of a reload prepare. A component's Prepare looks at the scene, and its
 outcome hangs on how the outside answers: what can be opened, which checks pass, and where a
 Prepare panics.
 */
module ReloadPlan {
  import opened Wrappers
  import ConfigDiff

  type Handle = nat

  datatype Role = Session | Mcp | Listener | Logins | LogFile | Embedder | Connection | Workers

  datatype Component = Logging | Memory | Bot | Plugins | Web | ConfigWatcher

  /** The components of the program, in the order in which they are prepared. */
  const Registered: seq<Component> := [Logging, Memory, Bot, Plugins, Web, ConfigWatcher]

  datatype Pending =
    | BotChange(session: Option<Handle>, mcpChanged: bool, mcp: Option<Handle>)
    | WebChange(enabled: bool, listener: Option<Handle>, logins: Option<Handle>)
    | LogChange(file: Option<Handle>)
    | EmbedderChange(client: Handle)
    | MemoryChange(embedder: Option<Handle>, connection: Option<Handle>, workers: Option<Handle>)
    | HostChange

  function OptionSet<T>(h: Option<T>): set<T> {
    if h.Some? then {h.value} else {}
  }

  function Handles(p: Pending): set<Handle> {
    match p {
      case BotChange(s, _, m) => OptionSet(s) + OptionSet(m)
      case WebChange(_, l, s) => OptionSet(l) + OptionSet(s)
      case LogChange(f) => OptionSet(f)
      case EmbedderChange(e) => {e}
      case MemoryChange(e, c, w) => OptionSet(e) + OptionSet(c) + OptionSet(w)
      case HostChange => {}
    }
  }

  function RoleOf(role: Role, h: Option<Handle>): set<Role> {
    if h.Some? then {role} else {}
  }

  /** What a change holds a resource for. */
  function Roles(p: Pending): set<Role> {
    match p {
      case BotChange(s, _, m) => RoleOf(Session, s) + RoleOf(Mcp, m)
      case WebChange(_, l, s) => RoleOf(Listener, l) + RoleOf(Logins, s)
      case LogChange(f) => RoleOf(LogFile, f)
      case EmbedderChange(_) => {Embedder}
      case MemoryChange(e, c, w) => RoleOf(Embedder, e) + RoleOf(Connection, c) + RoleOf(Workers, w)
      case HostChange => {}
    }
  }

  predicate Apart(a: Option<Handle>, b: Option<Handle>) {
    a.Some? && b.Some? ==> a != b
  }

  predicate WellFormed(p: Pending) {
    match p {
      case BotChange(s, changed, m) => (m.Some? ==> changed) && Apart(s, m)
      case WebChange(enabled, l, s) => (l.Some? ==> enabled) && Apart(l, s)
      case MemoryChange(e, c, w) => Apart(e, c) && Apart(e, w) && Apart(c, w)
      case _ => true
    }
  }

  datatype WebSettings = WebSettings(enabled: bool, port: nat, login: string)

  // What the memory service is built from, the embedding endpoint apart.
  datatype MemorySettings = Off | On(endpoint: string, rest: string)

  datatype Settings = Settings(mcpServers: bool, decision: bool, web: WebSettings, logFile: string,
                               pluginsDir: bool, memory: MemorySettings)

  // Without a live configuration there are no old settings, and the change list is "*".
  datatype Scene = Scene(changes: seq<string>, was: Option<Settings>, next: Settings, listening: bool, port: nat)

  predicate SceneOfReload(x: Scene) {
    x.was.None? ==> x.changes == ["*"]
  }

  // Where a panic may hit: at the start of a Prepare, or past the opening of a resource.
  datatype Point = Starting(c: Component) | Past(role: Role)

  datatype World = World(opens: set<Role>, ffmpeg: bool, mcpInTime: bool, decision: bool, logLevel: bool,
                         pluginsDir: bool, panics: set<Point>)

  // How a Prepare ends, and what is open for its change then.
  datatype Ending = Skips | Fails | Panics(open: set<Role>) | Succeeds(open: set<Role>)

  /** A changed path is this one or lies below it. */
  ghost predicate Hit(x: Scene, path: string) {
    ConfigDiff.Hits(x.changes, path)
  }

  ghost predicate Concerned(x: Scene, prefixes: seq<string>) {
    exists pre :: pre in prefixes && Hit(x, pre)
  }

  function If(needed: bool, role: Role): set<Role> {
    if needed then {role} else {}
  }

  ghost predicate BotConcerned(x: Scene) {
    Concerned(x, ["core", "operations.mcp", "memory_pipeline.memory.max_paginated_limit"])
  }

  ghost function BotEnding(x: Scene, w: World): Ending {
    if !BotConcerned(x) then Skips
    else if Hit(x, "core.ai.modalities") && !w.ffmpeg then Fails
    else if Needs(x, Session) && Session !in w.opens then Fails
    else BotEndingWith(If(Needs(x, Session), Session), x, w)
  }

  // What is left of it once the session is open.
  ghost function BotEndingWith(open: set<Role>, x: Scene, w: World): Ending {
    if Past(Session) in w.panics then Panics(open)
    else if Needs(x, Mcp) && !(w.mcpInTime && Mcp in w.opens) then Fails
    else
      var all := open + If(Needs(x, Mcp), Mcp);
      if Past(Mcp) in w.panics then Panics(all)
      else if Hit(x, "core.decision") && x.next.decision && !w.decision then Fails
      else Succeeds(all)
  }

  ghost function WebEnding(x: Scene, w: World): Ending {
    var open := If(Needs(x, Listener), Listener) + If(Needs(x, Logins), Logins);
    if !Hit(x, "operations.web") then Skips
    else if x.was.None? then Panics({})
    else if Past(Logins) in w.panics then Panics(If(Needs(x, Logins), Logins))
    else if Needs(x, Listener) && Listener !in w.opens then Fails
    else if Past(Listener) in w.panics then Panics(open)
    else Succeeds(open)
  }

  ghost function LogEnding(x: Scene, w: World): Ending {
    if !Hit(x, "operations.logging") then Skips
    else if x.was.None? then Panics({})
    else if !Needs(x, LogFile) then (if w.logLevel then Succeeds({}) else Fails)
    else if LogFile !in w.opens then Fails
    else if Past(LogFile) in w.panics then Panics({LogFile})
    else Succeeds({LogFile})
  }

  ghost function MemoryEnding(x: Scene, w: World): Ending {
    if x.was.None? then Panics({})
    else if x.was.value.memory == x.next.memory then Skips
    else if x.next.memory.Off? then Succeeds({})
    else if Embedder !in w.opens then Fails
    else if Past(Embedder) in w.panics then Panics({Embedder})
    else if !Needs(x, Connection) then Succeeds({Embedder})
    else ServiceEnding(w)
  }

  // The rest of a whole service, once there is an embedder.
  ghost function ServiceEnding(w: World): Ending {
    if Connection !in w.opens then Fails
    else if Past(Connection) in w.panics then Panics({Embedder, Connection})
    else if Workers !in w.opens then Fails
    else if Past(Workers) in w.panics then Panics({Embedder, Connection, Workers})
    else Succeeds({Embedder, Connection, Workers})
  }

  /** How the Prepare of a component ends. */
  ghost function Ends(c: Component, x: Scene, w: World): Ending {
    if Starting(c) in w.panics then Panics({})
    else match c {
      case Logging => LogEnding(x, w)
      case Memory => MemoryEnding(x, w)
      case Bot => BotEnding(x, w)
      case Plugins =>
        if !Hit(x, "operations.plugins") then Skips
        else if x.next.pluginsDir && !w.pluginsDir then Fails
        else Succeeds({})
      case Web => WebEnding(x, w)
      case ConfigWatcher => if Hit(x, "operations.runtime.hot_reload") then Succeeds({}) else Skips
    }
  }

  /** The change a component prepares: which resources it is for, and which it turns off. */
  ghost predicate Fits(c: Component, x: Scene, p: Pending) {
    match c {
      case Bot =>
        && p.BotChange? && (p.session.Some? <==> Hit(x, "core.discord.token"))
        && (p.mcpChanged <==> Hit(x, "operations.mcp"))
        && (p.mcp.Some? <==> p.mcpChanged && x.next.mcpServers)
      case Web =>
        && p.WebChange? && Hit(x, "operations.web") && x.was.Some?
        && p.enabled == x.next.web.enabled
        && (p.listener.Some? <==> p.enabled && (!x.listening || x.port != x.next.web.port))
        && (p.logins.Some? <==> x.was.value.web.login != x.next.web.login)
      case Logging =>
        && p.LogChange? && Hit(x, "operations.logging") && x.was.Some?
        && (p.file.Some? <==> x.was.value.logFile != x.next.logFile)
      case Memory =>
        && x.was.Some? && x.was.value.memory != x.next.memory
        && if x.next.memory.Off? then p == MemoryChange(None, None, None)
           else if x.was.value.memory.On? && x.was.value.memory.rest == x.next.memory.rest then p.EmbedderChange?
           else p.MemoryChange? && p.embedder.Some? && p.connection.Some? && p.workers.Some?
      case _ => p.HostChange?
    }
  }

  /** The components that prepare a change, up to there. */
  ghost function Changing(comps: seq<Component>, x: Scene, w: World): seq<Component> {
    if comps == [] then []
    else match Ends(comps[0], x, w) {
      case Succeeds(_) => [comps[0]] + Changing(comps[1..], x, w)
      case Skips => Changing(comps[1..], x, w)
      case _ => []
    }
  }

  /** How the prepare phase ends: Skips if every component is done with. */
  ghost function PhaseEnds(comps: seq<Component>, x: Scene, w: World): Ending {
    if comps == [] then Skips
    else
      var first := Ends(comps[0], x, w);
      if first.Fails? || first.Panics? then first else PhaseEnds(comps[1..], x, w)
  }

  /** What each of the changes prepared up to there holds. */
  ghost function Planned(comps: seq<Component>, x: Scene, w: World): seq<set<Role>> {
    if comps == [] then []
    else match Ends(comps[0], x, w) {
      case Succeeds(open) => [open] + Planned(comps[1..], x, w)
      case Skips => Planned(comps[1..], x, w)
      case _ => []
    }
  }

  // One component of the phase.
  lemma PhaseAt(comps: seq<Component>, i: nat, x: Scene, w: World)
    requires i < |comps|
    ensures var first, now, rest := Ends(comps[i], x, w), comps[i..], comps[i + 1..];
      && PhaseEnds(now, x, w) == (if first.Fails? || first.Panics? then first else PhaseEnds(rest, x, w))
      && Planned(now, x, w) == match first {
          case Succeeds(open) => [open] + Planned(rest, x, w)
          case Skips => Planned(rest, x, w)
          case _ => []
        }
      && Changing(now, x, w) == match first {
          case Succeeds(_) => [comps[i]] + Changing(rest, x, w)
          case Skips => Changing(rest, x, w)
          case _ => []
        }
  {
    assert comps[i..][1..] == comps[i + 1..];
  }

  /** What the phase leaves open for good. */
  ghost function Lost(comps: seq<Component>, x: Scene, w: World): set<Role> {
    var end := PhaseEnds(comps, x, w);
    if end.Panics? then end.open else {}
  }

  function ComponentOf(role: Role): Component {
    match role {
      case Session => Bot
      case Mcp => Bot
      case Listener => Web
      case Logins => Web
      case LogFile => Logging
      case _ => Memory
    }
  }

  // Whether the reload opens a resource of this kind.
  ghost predicate Needs(x: Scene, role: Role) {
    match role {
      case Session => Hit(x, "core.discord.token")
      case Mcp => Hit(x, "operations.mcp") && x.next.mcpServers
      case Listener =>
        && Hit(x, "operations.web") && x.was.Some?
        && x.next.web.enabled && (!x.listening || x.port != x.next.web.port)
      case Logins => Hit(x, "operations.web") && x.was.Some? && x.was.value.web.login != x.next.web.login
      case LogFile => Hit(x, "operations.logging") && x.was.Some? && x.was.value.logFile != x.next.logFile
      case Embedder => NewMemory(x)
      case _ => NewMemory(x) && !(x.was.value.memory.On? && x.was.value.memory.rest == x.next.memory.rest)
    }
  }

  predicate NewMemory(x: Scene) {
    x.was.Some? && x.next.memory.On? && x.was.value.memory != x.next.memory
  }

  /** Everything a component opens can be opened, and its checks pass. */
  ghost predicate Passes(c: Component, x: Scene, w: World)
    requires x.was.Some?
  {
    && (forall role :: ComponentOf(role) == c && Needs(x, role) && role != Logins ==> role in w.opens)
    && match c {
      case Bot =>
        && (Hit(x, "core.ai.modalities") ==> w.ffmpeg)
        && (Hit(x, "operations.mcp") && x.next.mcpServers ==> w.mcpInTime)
        && (Hit(x, "core.decision") && x.next.decision ==> w.decision)
      case Logging =>
        Hit(x, "operations.logging") && x.was.value.logFile == x.next.logFile ==> w.logLevel
      case Plugins => Hit(x, "operations.plugins") && x.next.pluginsDir ==> w.pluginsDir
      case _ => true
    }
  }

  /** Without a panic, a reload succeeds exactly if every component passes. */
  lemma {:induction false} AppliesExactly(comps: seq<Component>, x: Scene, w: World)
    requires x.was.Some? && w.panics == {}
    ensures PhaseEnds(comps, x, w).Skips? <==> forall c :: c in comps ==> Passes(c, x, w)
  {
    if comps != [] {
      AppliesExactly(comps[1..], x, w);
      ComponentPasses(comps[0], x, w);
      assert forall c :: c in comps <==> c == comps[0] || c in comps[1..];
    }
  }

  predicate GoesOn(e: Ending) {
    e.Skips? || e.Succeeds?
  }

  lemma ComponentPasses(c: Component, x: Scene, w: World)
    requires x.was.Some? && w.panics == {}
    ensures GoesOn(Ends(c, x, w)) <==> Passes(c, x, w)
  {
    if c == Bot {
      BotPasses(x, w);
    } else {
          }
  }

  lemma BotPasses(x: Scene, w: World)
    requires x.was.Some? && w.panics == {}
    ensures GoesOn(Ends(Bot, x, w)) <==> Passes(Bot, x, w)
  {
    BelowCore(x);
    HitBelowCore(x, "core.ai.modalities");
    HitBelowCore(x, "core.decision");
    BotRoles();
    if BotConcerned(x) {
      BotRestPasses(If(Needs(x, Session), Session), x, w);
    }
  }

  lemma BotRoles()
    ensures forall role :: ComponentOf(role) == Bot <==> role == Session || role == Mcp
  {
  }

  lemma BotRestPasses(open: set<Role>, x: Scene, w: World)
    requires w.panics == {}
    ensures GoesOn(BotEndingWith(open, x, w)) <==>
      && (Needs(x, Mcp) ==> w.mcpInTime && Mcp in w.opens)
      && (Hit(x, "core.decision") && x.next.decision ==> w.decision)
  {
  }

  lemma HitBelowCore(x: Scene, path: string)
    requires ConfigDiff.Under(path, "core")
    ensures Hit(x, path) ==> BotConcerned(x)
  {
    if Hit(x, path) {
      var p :| p in x.changes && ConfigDiff.Under(p, path);
      assert ConfigDiff.Under(p, "core");
      assert Hit(x, "core");
      assert "core" in ["core", "operations.mcp", "memory_pipeline.memory.max_paginated_limit"];
    }
  }

  // Everything works until a Prepare panics with `role` open.
  function PanicsPast(role: Role): World {
    World({Session, Mcp, Listener, Logins, LogFile, Embedder, Connection, Workers}, true, true, true, true, true,
          {Past(role)})
  }

  lemma OnlyItsComponentPanics(c: Component, x: Scene, role: Role)
    requires Needs(x, role) && x.was.Some?
    ensures Ends(c, x, PanicsPast(role)).Panics? <==> c == ComponentOf(role)
    ensures !Ends(c, x, PanicsPast(role)).Fails?
    ensures c == ComponentOf(role) ==> role in Ends(c, x, PanicsPast(role)).open
  {
    if role == Session || role == Mcp {
      BelowCore(x);
    }
  }

  // A path below core.discord.token is below core.
  lemma BelowCore(x: Scene)
    ensures Needs(x, Session) || Needs(x, Mcp) ==> BotConcerned(x)
  {
    HitBelowCore(x, "core.discord.token");
    if Needs(x, Mcp) {
      assert "operations.mcp" in ["core", "operations.mcp", "memory_pipeline.memory.max_paginated_limit"];
    }
  }

  lemma {:induction false} LostWhenItPanics(comps: seq<Component>, x: Scene, role: Role)
    requires Needs(x, role) && x.was.Some? && ComponentOf(role) in comps
    ensures role in Lost(comps, x, PanicsPast(role))
  {
    OnlyItsComponentPanics(comps[0], x, role);
    if comps[0] != ComponentOf(role) {
      LostWhenItPanics(comps[1..], x, role);
    }
  }

  lemma OpenWasNeeded(c: Component, x: Scene, w: World, role: Role)
    requires Ends(c, x, w).Panics? && role in Ends(c, x, w).open
    ensures Needs(x, role) && ComponentOf(role) == c
  {
  }

  lemma {:induction false} LostWasNeeded(comps: seq<Component>, x: Scene, w: World, role: Role)
    requires role in Lost(comps, x, w)
    ensures Needs(x, role) && ComponentOf(role) in comps
  {
    var first := Ends(comps[0], x, w);
    if first.Panics? {
      OpenWasNeeded(comps[0], x, w, role);
    } else {
      LostWasNeeded(comps[1..], x, w, role);
    }
  }

  // Without a live configuration nothing is opened.
  lemma NothingToOpen(x: Scene, role: Role)
    requires SceneOfReload(x) && x.was.None?
    ensures !Needs(x, role)
  {
    assert !ConfigDiff.Under("*", "core.discord.token") && !ConfigDiff.Under("*", "operations.mcp");
  }

  /** Whatever a reload would open, and nothing else, is left open for good by some panic. */
  lemma LeaksExactly(comps: seq<Component>, x: Scene, role: Role)
    requires SceneOfReload(x)
    ensures (exists w :: role in Lost(comps, x, w)) <==> ComponentOf(role) in comps && Needs(x, role)
  {
    if x.was.None? {
      NothingToOpen(x, role);
    } else if ComponentOf(role) in comps && Needs(x, role) {
      LostWhenItPanics(comps, x, role);
    }
    if w :| role in Lost(comps, x, w) {
      LostWasNeeded(comps, x, w, role);
    }
  }

  /** A reload without a live configuration never succeeds: the memory component needs the old one. */
  lemma {:induction false} NoLiveConfigNoReload(comps: seq<Component>, x: Scene, w: World)
    requires x.was.None? && Memory in comps
    ensures !PhaseEnds(comps, x, w).Skips?
  {
    if comps[0] != Memory {
      NoLiveConfigNoReload(comps[1..], x, w);
    }
  }

  /** A new token is enough to lose a session: the panic comes when the new one is open. */
  lemma SessionLost(x: Scene)
    requires Needs(x, Session) && x.was.Some?
    ensures PhaseEnds(Registered, x, PanicsPast(Session)) == Panics({Session})
  {
    var w := PanicsPast(Session);
    BelowCore(x);
    OnlyItsComponentPanics(Logging, x, Session);
    OnlyItsComponentPanics(Memory, x, Session);
    assert Ends(Bot, x, w) == Panics({Session});
    assert PhaseEnds(Registered[2..], x, w) == Panics({Session});
    assert Registered[1..][1..] == Registered[2..] && Registered[1..][0] == Memory;
    assert PhaseEnds(Registered[1..], x, w) == Panics({Session});
  }
}
