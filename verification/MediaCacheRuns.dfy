/**
 Runs of the media cache with any number of concurrent callers of Do, next to readers, pins,
 limit changes, prunes and prefix deletions. The steps are the critical sections of MediaCache;
 computations run between them. Only Do stores.
 */
module MediaCacheRuns {
  import opened MediaCache

  datatype Answer = Got(value: string) | FailedBefore(msg: string) | Ran(computed: Computed)

  // Where a call of Do with a non-empty key stands. The first three are owners.
  datatype Caller =
    | Running(key: string)
    | Storing(key: string, computed: Computed)
    | Closing(key: string, computed: Computed)
    | Waiting(key: string, call: nat)
    | Returned(key: string, answer: Answer)

  datatype State = State(sh: Shared, callers: map<nat, Caller>)

  datatype Action =
    | EnterDo(caller: nat, key: string, now: int)
    | FnReturns(caller: nat, computed: Computed)
    | StoreResult(caller: nat, now: int, after: Entries)
    | Close(caller: nat)
    | Wake(caller: nat)
    | GetKey(key: string, now: int)
    | PinKeys(channel: string, keys: seq<string>, now: int, after: Entries)
    | ChangeLimits(ttl: int, max: int, now: int, after: Entries)
    | PruneNow(now: int, after: Entries)
    | DropPrefixes(prefixes: seq<string>)

  predicate Owner(c: Caller) {
    c.Running? || c.Storing? || c.Closing?
  }

  predicate Finished(c: Caller) {
    c.Returned? && c.answer.Ran?
  }

  ghost predicate Enabled(s: State, a: Action) {
    match a
    case EnterDo(c, key, now) => c !in s.callers && key != ""
    case FnReturns(c, r) => c in s.callers && s.callers[c].Running?
    case StoreResult(c, now, after) =>
      c in s.callers && s.callers[c].Storing?
      && Stored(s.sh.entries, s.sh.pins, s.sh.ttl, s.sh.max, s.callers[c].key, s.callers[c].computed, now, after)
    case Close(c) => c in s.callers && s.callers[c].Closing?
    case Wake(c) =>
      c in s.callers && s.callers[c].Waiting? && s.callers[c].call in s.callers &&
        Finished(s.callers[s.callers[c].call])
    case GetKey(key, now) => true
    case PinKeys(channel, keys, now, after) =>
      Pruned(Touched(s.sh.entries, PinsOf(s.sh.pins, channel), now), Repinned(s.sh.pins, channel, keys),
             s.sh.ttl, s.sh.max, now, after)
    case ChangeLimits(ttl, max, now, after) => Pruned(s.sh.entries, s.sh.pins, ttl, max, now, after)
    case PruneNow(now, after) => Pruned(s.sh.entries, s.sh.pins, s.sh.ttl, s.sh.max, now, after)
    case DropPrefixes(prefixes) => true
  }

  function AfterEnter(caller: nat, key: string, r: Entered): Caller {
    match r
    case Hit(v) => Returned(key, Got(v))
    case CachedFailure(msg) => Returned(key, FailedBefore(msg))
    case Join(call) => Waiting(key, call)
    case Own => Running(key)
  }

  function GetShared(sh: Shared, key: string, now: int): Shared {
    var live := Lookup(sh.entries, sh.pins, sh.ttl, key, now);
    sh.(entries := if IsResult(live, key) then live[key := live[key].(used := now)] else live)
  }

  ghost function Apply(s: State, a: Action): State
    requires Enabled(s, a)
  {
    match a
    case EnterDo(c, key, now) =>
      State(EnterShared(s.sh, c, key, now), s.callers[c := AfterEnter(c, key, EnterResult(s.sh, key, now))])
    case FnReturns(c, r) => s.(callers := s.callers[c := Storing(s.callers[c].key, r)])
    case StoreResult(c, now, after) =>
      State(s.sh.(entries := after), s.callers[c := Closing(s.callers[c].key, s.callers[c].computed)])
    case Close(c) =>
      State(s.sh.(inflight := s.sh.inflight - {s.callers[c].key}),
            s.callers[c := Returned(s.callers[c].key, Ran(s.callers[c].computed))])
    case Wake(c) => s.(callers := s.callers[c := Returned(s.callers[c].key, s.callers[s.callers[c].call].answer)])
    case GetKey(key, now) => s.(sh := GetShared(s.sh, key, now))
    case PinKeys(channel, keys, now, after) =>
      s.(sh := s.sh.(entries := after, pins := Repinned(s.sh.pins, channel, keys)))
    case ChangeLimits(ttl, max, now, after) => s.(sh := s.sh.(entries := after, ttl := ttl, max := max))
    case PruneNow(now, after) => s.(sh := s.sh.(entries := after))
    case DropPrefixes(prefixes) =>
      s.(sh := s.sh.(entries := map k | k in s.sh.entries && !HasPrefix(k, prefixes) :: s.sh.entries[k]))
  }

  predicate Init(s: State) {
    s.sh.entries == map[] && s.sh.inflight == map[] && s.sh.pins == map[] && s.callers == map[]
  }

  ghost predicate IsStep(run: seq<State>, acts: seq<Action>, i: nat)
    requires i < |acts| < |run|
  {
    Enabled(run[i], acts[i]) && run[i + 1] == Apply(run[i], acts[i])
  }

  ghost predicate IsRun(run: seq<State>, acts: seq<Action>) {
    && |run| == |acts| + 1 && Init(run[0])
    && forall i :: 0 <= i < |acts| ==> IsStep(run, acts, i)
  }

  // ---- The invariant ----

  ghost predicate OwnersOk(s: State) {
    && (forall k :: k in s.sh.inflight ==>
          s.sh.inflight[k] in s.callers && Owner(s.callers[s.sh.inflight[k]]) && s.callers[s.sh.inflight[k]].key == k)
    && (forall c :: c in s.callers && Owner(s.callers[c]) ==>
          s.callers[c].key in s.sh.inflight && s.sh.inflight[s.callers[c].key] == c)
  }

  ghost predicate NothingStoredYet(s: State) {
    forall c :: c in s.callers && (s.callers[c].Running? || s.callers[c].Storing?) ==> s.callers[c].key !in s.sh.entries
  }

  ghost predicate WaitersOk(s: State) {
    forall c :: c in s.callers && s.callers[c].Waiting? ==>
      var o := s.callers[c].call;
      o in s.callers && s.callers[o].key == s.callers[c].key && (Owner(s.callers[o]) || Finished(s.callers[o]))
  }

  /**
   Owners are exactly the callers in flight, one per key; until an owner has stored, its key
   has no entry; and everyone waits for an owner of the same key or for one that is done.
   */
  ghost predicate Inv(s: State) {
    OwnersOk(s) && NothingStoredYet(s) && WaitersOk(s)
  }

  // A prune adds nothing, and what it keeps it keeps as it was.
  lemma PruneOnlyRemoves(entries: Entries, pins: Pins, ttl: int, max: int, now: int, after: Entries)
    requires Pruned(entries, pins, ttl, max, now, after)
    ensures after.Keys <= entries.Keys && forall k :: k in after ==> after[k] == entries[k]
  {
  }

  // No step but an owner's own store brings a key into the cache.
  lemma EntriesGrowByStoringOnly(s: State, a: Action, k: string)
    requires Inv(s) && Enabled(s, a) && k !in s.sh.entries
    ensures k in Apply(s, a).sh.entries ==> a.StoreResult? && s.callers[a.caller].key == k
  {
    var sh := s.sh;
    match a
    case StoreResult(c, now, after) =>
      var r := s.callers[c].computed;
      if IsCached(r) {
        PruneOnlyRemoves(sh.entries[s.callers[c].key := EntryFor(r, now)], sh.pins, sh.ttl, sh.max, now, after);
      }
    case PinKeys(channel, keys, now, after) =>
      PruneOnlyRemoves(Touched(sh.entries, PinsOf(sh.pins, channel), now), Repinned(sh.pins, channel, keys),
                       sh.ttl, sh.max, now, after);
    case ChangeLimits(ttl, max, now, after) => PruneOnlyRemoves(sh.entries, sh.pins, ttl, max, now, after);
    case PruneNow(now, after) => PruneOnlyRemoves(sh.entries, sh.pins, sh.ttl, sh.max, now, after);
    case _ =>
  }

  lemma InFlightAreOwners(s: State, a: Action, k: string)
    requires OwnersOk(s) && Enabled(s, a) && k in Apply(s, a).sh.inflight
    ensures var t := Apply(s, a);
      t.sh.inflight[k] in t.callers && Owner(t.callers[t.sh.inflight[k]]) && t.callers[t.sh.inflight[k]].key == k
  {
  }

  lemma OwnersAreInFlight(s: State, a: Action, c: nat)
    requires OwnersOk(s) && Enabled(s, a) && c in Apply(s, a).callers && Owner(Apply(s, a).callers[c])
    ensures var t := Apply(s, a); t.callers[c].key in t.sh.inflight && t.sh.inflight[t.callers[c].key] == c
  {
    if a.EnterDo? && a.caller == c {
      assert EnterResult(s.sh, a.key, a.now) == Own;
    } else {
      assert c in s.callers && Owner(s.callers[c]) && Apply(s, a).callers[c].key == s.callers[c].key;
    }
  }

  lemma StepKeepsOwners(s: State, a: Action)
    requires Inv(s) && Enabled(s, a)
    ensures OwnersOk(Apply(s, a))
  {
    var t := Apply(s, a);
    forall k | k in t.sh.inflight
      ensures t.sh.inflight[k] in t.callers && Owner(t.callers[t.sh.inflight[k]])
      ensures t.callers[t.sh.inflight[k]].key == k
    {
      InFlightAreOwners(s, a, k);
    }
    forall c | c in t.callers && Owner(t.callers[c])
      ensures t.callers[c].key in t.sh.inflight && t.sh.inflight[t.callers[c].key] == c
    {
      OwnersAreInFlight(s, a, c);
    }
  }

  predicate NotStored(sh: Shared, c: Caller) {
    (c.Running? || c.Storing?) ==> c.key !in sh.entries
  }

  lemma CallerKeepsStores(s: State, a: Action, c: nat)
    requires Inv(s) && Enabled(s, a) && c in Apply(s, a).callers
    ensures NotStored(Apply(s, a).sh, Apply(s, a).callers[c])
  {
    if c in s.callers && (s.callers[c].Running? || s.callers[c].Storing?) {
      EntriesGrowByStoringOnly(s, a, s.callers[c].key);
    }
  }

  lemma StepKeepsStores(s: State, a: Action)
    requires Inv(s) && Enabled(s, a)
    ensures NothingStoredYet(Apply(s, a))
  {
    var t := Apply(s, a);
    forall c | c in t.callers
      ensures NotStored(t.sh, t.callers[c])
    {
      CallerKeepsStores(s, a, c);
    }
  }

  // A caller keeps its key and what it waits for; an owner stays one until it is finished.
  lemma CallerMovesOn(s: State, a: Action, c: nat)
    requires Inv(s) && Enabled(s, a) && c in s.callers
    ensures var t := Apply(s, a); c in t.callers && t.callers[c].key == s.callers[c].key
    ensures var t := Apply(s, a); t.callers[c].Waiting? ==> s.callers[c] == t.callers[c]
    ensures var t := Apply(s, a);
      Owner(s.callers[c]) || Finished(s.callers[c]) ==> Owner(t.callers[c]) || Finished(t.callers[c])
  {
  }

  lemma StepKeepsWaiters(s: State, a: Action)
    requires Inv(s) && Enabled(s, a)
    ensures WaitersOk(Apply(s, a))
  {
    var t := Apply(s, a);
    forall c | c in t.callers && t.callers[c].Waiting?
      ensures var o := t.callers[c].call;
        o in t.callers && t.callers[o].key == t.callers[c].key && (Owner(t.callers[o]) || Finished(t.callers[o]))
    {
      if c in s.callers {
        CallerMovesOn(s, a, c);
        CallerMovesOn(s, a, s.callers[c].call);
      } else {
        CallerMovesOn(s, a, t.callers[c].call);
      }
    }
  }

  lemma StepKeepsInv(s: State, a: Action)
    requires Inv(s) && Enabled(s, a)
    ensures Inv(Apply(s, a))
  {
    StepKeepsOwners(s, a);
    StepKeepsStores(s, a);
    StepKeepsWaiters(s, a);
  }

  lemma {:induction false} RunKeepsInv(run: seq<State>, acts: seq<Action>, i: nat)
    requires IsRun(run, acts) && i < |run|
    ensures Inv(run[i])
  {
    if i > 0 {
      RunKeepsInv(run, acts, i - 1);
      assert IsStep(run, acts, i - 1);
      StepKeepsInv(run[i - 1], acts[i - 1]);
    }
  }

  // ---- Theorems about whole runs ----

  /** At most one computation per key is in progress at any time. */
  lemma SingleFlight(run: seq<State>, acts: seq<Action>, i: nat, c: nat, d: nat)
    requires IsRun(run, acts) && i < |run| && c in run[i].callers && d in run[i].callers
    requires Owner(run[i].callers[c]) && Owner(run[i].callers[d]) && run[i].callers[c].key == run[i].callers[d].key
    ensures c == d
  {
    RunKeepsInv(run, acts, i);
  }

  // What an owner carries is what its own computation returned.
  lemma {:induction false} OwnerCarriesItsResult(run: seq<State>, acts: seq<Action>, i: nat, c: nat)
    requires IsRun(run, acts) && i < |run| && c in run[i].callers
    requires (run[i].callers[c].Storing? || run[i].callers[c].Closing?)
    ensures FnReturns(c, run[i].callers[c].computed) in acts[..i]
  {
    assert IsStep(run, acts, i - 1);
    if acts[i - 1] == FnReturns(c, run[i].callers[c].computed) {
      assert acts[..i][i - 1] == acts[i - 1];
    } else {
      OwnerCarriesItsResult(run, acts, i - 1, c);
      assert acts[..i] == acts[..i - 1] + [acts[i - 1]];
    }
  }

  // Everyone who ran or waited got the result of a computation some owner of the key ran.
  lemma {:induction false} WaitersGetTheOwnersResult(run: seq<State>, acts: seq<Action>, i: nat, c: nat)
    requires IsRun(run, acts) && i < |run| && c in run[i].callers && Finished(run[i].callers[c])
    ensures exists o :: o in run[i].callers && run[i].callers[o] == run[i].callers[c]
                          && FnReturns(o, run[i].callers[c].answer.computed) in acts[..i]
  {
    var j := i - 1;
    assert IsStep(run, acts, j);
    RunKeepsInv(run, acts, j);
    var s, t := run[j], run[i];
    assert acts[..i] == acts[..j] + [acts[j]];
    if c in s.callers && Finished(s.callers[c]) {
      WaitersGetTheOwnersResult(run, acts, j, c);
      var o :| o in s.callers && s.callers[o] == s.callers[c] &&
        FnReturns(o, s.callers[c].answer.computed) in acts[..j];
      assert t.callers[o] == t.callers[c];
    } else if acts[j] == Close(c) {
      OwnerCarriesItsResult(run, acts, j, c);
    } else {
      var call := s.callers[c].call;
      WaitersGetTheOwnersResult(run, acts, j, call);
      var o :| o in s.callers && s.callers[o] == s.callers[call] &&
        FnReturns(o, s.callers[call].answer.computed) in acts[..j];
      assert t.callers[o] == t.callers[c];
    }
  }

  // The owner a caller waits for is still at it, or done with what its own computation returned.
  lemma {:induction false} AwaitedOwnerRan(run: seq<State>, acts: seq<Action>, i: nat, c: nat)
    requires IsRun(run, acts) && i < |run| && c in run[i].callers && run[i].callers[c].Waiting?
    ensures var s, o := run[i], run[i].callers[c].call;
      o in s.callers && (Owner(s.callers[o])
                         || (Finished(s.callers[o]) && FnReturns(o, s.callers[o].answer.computed) in acts[..i]))
  {
    var j, o := i - 1, run[i].callers[c].call;
    assert IsStep(run, acts, j);
    RunKeepsInv(run, acts, j);
    var s := run[j];
    assert acts[..i] == acts[..j] + [acts[j]];
    if c in s.callers {
      CallerMovesOn(s, acts[j], c);
      AwaitedOwnerRan(run, acts, j, c);
      if acts[j] == Close(o) {
        OwnerCarriesItsResult(run, acts, j, o);
      }
    }
  }

  // `c` has got what the computation of `o` returned.
  ghost predicate AnsweredBy(s: State, acts: seq<Action>, c: nat, o: nat) {
    && c in s.callers && o in s.callers && s.callers[c] == s.callers[o]
    && Finished(s.callers[o]) && FnReturns(o, s.callers[o].answer.computed) in acts
  }

  /** Who joins a computation gets the result of that computation, and of no other. */
  lemma {:induction false} WaiterGetsTheJoinedResult(run: seq<State>, acts: seq<Action>, j: nat, i: nat, c: nat)
    requires IsRun(run, acts) && j <= i < |run| && c in run[j].callers && run[j].callers[c].Waiting?
    ensures c in run[i].callers
    ensures run[i].callers[c] == run[j].callers[c] || AnsweredBy(run[i], acts[..i], c, run[j].callers[c].call)
  {
    if i > j {
      WaiterGetsTheJoinedResult(run, acts, j, i - 1, c);
      assert IsStep(run, acts, i - 1);
      RunKeepsInv(run, acts, i - 1);
      assert acts[..i] == acts[..i - 1] + [acts[i - 1]];
      if acts[i - 1] == Wake(c) {
        AwaitedOwnerRan(run, acts, i - 1, c);
      }
    }
  }

  // ---- Computations that are functions of their key ----

  ghost predicate Computes(run: seq<State>, acts: seq<Action>, fn: string -> Computed)
    requires |run| == |acts| + 1
  {
    forall i :: 0 <= i < |acts| && acts[i].FnReturns? && acts[i].caller in run[i].callers ==>
      acts[i].computed == fn(run[i].callers[acts[i].caller].key)
  }

  predicate AnswerOk(fn: string -> Computed, key: string, a: Answer) {
    match a
    case Got(v) => fn(key) == Value(v)
    case FailedBefore(msg) => fn(key) == Permanent(msg)
    case Ran(r) => fn(key) == r
  }

  predicate EntryOk(fn: string -> Computed, key: string, e: Entry) {
    if e.failure == "" then fn(key) == Value(e.value) else fn(key) == Permanent(e.failure)
  }

  ghost predicate Agrees(fn: string -> Computed, s: State) {
    && (forall k :: k in s.sh.entries ==> EntryOk(fn, k, s.sh.entries[k]))
    && (forall c :: c in s.callers ==>
          match s.callers[c] {
            case Storing(k, r) => fn(k) == r
            case Closing(k, r) => fn(k) == r
            case Returned(k, a) => AnswerOk(fn, k, a)
            case _ => true
          })
  }

  ghost predicate NoEmptyFailure(fn: string -> Computed) {
    forall k :: k != "" ==> fn(k) != Permanent("")
  }

  lemma StoreAgrees(fn: string -> Computed, s: State, a: Action)
    requires NoEmptyFailure(fn) && Agrees(fn, s) && Inv(s) && Enabled(s, a) && a.StoreResult?
    requires s.callers[a.caller].key != ""
    ensures Agrees(fn, Apply(s, a))
  {
    var sh, k, r := s.sh, s.callers[a.caller].key, s.callers[a.caller].computed;
    if IsCached(r) {
      var entries := sh.entries[k := EntryFor(r, a.now)];
      assert forall x :: x in entries ==> EntryOk(fn, x, entries[x]);
      PruneOnlyRemoves(entries, sh.pins, sh.ttl, sh.max, a.now, a.after);
    }
  }

  lemma StepAgrees(fn: string -> Computed, s: State, a: Action)
    requires NoEmptyFailure(fn) && Agrees(fn, s) && Inv(s) && Enabled(s, a)
    requires a.StoreResult? ==> s.callers[a.caller].key != ""
    requires a.FnReturns? ==> a.computed == fn(s.callers[a.caller].key)
    ensures Agrees(fn, Apply(s, a))
  {
    if a.StoreResult? {
      StoreAgrees(fn, s, a);
    } else if a.PinKeys? || a.ChangeLimits? || a.PruneNow? {
      PruneAgrees(fn, s, a);
    } else if a.Wake? {
      var c := a.caller;
      assert AnswerOk(fn, s.callers[c].key, s.callers[s.callers[c].call].answer);
    }
  }

  lemma PruneAgrees(fn: string -> Computed, s: State, a: Action)
    requires Agrees(fn, s) && Enabled(s, a) && (a.PinKeys? || a.ChangeLimits? || a.PruneNow?)
    ensures Agrees(fn, Apply(s, a))
  {
    var sh := s.sh;
    match a
    case PinKeys(channel, keys, now, after) =>
      PruneOnlyRemoves(Touched(sh.entries, PinsOf(sh.pins, channel), now), Repinned(sh.pins, channel, keys),
                       sh.ttl, sh.max, now, after);
    case ChangeLimits(ttl, max, now, after) => PruneOnlyRemoves(sh.entries, sh.pins, ttl, max, now, after);
    case PruneNow(now, after) => PruneOnlyRemoves(sh.entries, sh.pins, sh.ttl, sh.max, now, after);
  }

  lemma {:induction false} KeysAreNotEmpty(run: seq<State>, acts: seq<Action>, i: nat, c: nat)
    requires IsRun(run, acts) && i < |run| && c in run[i].callers
    ensures run[i].callers[c].key != ""
  {
    assert IsStep(run, acts, i - 1);
    if c in run[i - 1].callers {
      KeysAreNotEmpty(run, acts, i - 1, c);
    }
  }

  lemma RunStepAgrees(run: seq<State>, acts: seq<Action>, fn: string -> Computed, i: nat)
    requires IsRun(run, acts) && Computes(run, acts, fn) && NoEmptyFailure(fn) && i < |acts| && Agrees(fn, run[i])
    ensures Agrees(fn, run[i + 1])
  {
    RunKeepsInv(run, acts, i);
    assert IsStep(run, acts, i);
    if acts[i].StoreResult? {
      KeysAreNotEmpty(run, acts, i, acts[i].caller);
    }
    StepAgrees(fn, run[i], acts[i]);
  }

  /**
   When a computation's result depends on its key only and no permanent failure has an empty
   message, every answer of Do, and every entry Get could read, is the key's own result.
   */
  lemma {:induction false} AnswersAreTheKeysResult(run: seq<State>, acts: seq<Action>, fn: string -> Computed, i: nat)
    requires IsRun(run, acts) && Computes(run, acts, fn) && NoEmptyFailure(fn) && i < |run|
    ensures Agrees(fn, run[i])
  {
    if i > 0 {
      AnswersAreTheKeysResult(run, acts, fn, i - 1);
      RunStepAgrees(run, acts, fn, i - 1);
    }
  }

  // A permanent failure with an empty message is stored as an entry that looks like a result,
  // and the next call gets "" and no error.
  lemma EmptyFailureReadsAsResult(fn: string -> Computed, key: string) returns (run: seq<State>, acts: seq<Action>)
    requires key != "" && fn(key) == Permanent("")
    ensures IsRun(run, acts) && Computes(run, acts, fn)
    ensures |acts| == 4 && 1 in run[4].callers && run[4].callers[1] == Returned(key, Got(""))
  {
    var s0 := State(Shared(map[], map[], map[], 0, 0), map[]);
    var s1 := Apply(s0, EnterDo(0, key, 0));
    var s2 := Apply(s1, FnReturns(0, Permanent("")));
    var after: Entries := map[key := Entry("", "", 0, 0)];
    assert Unexpired(after, map[], 0, 0) == after;
    assert after.Keys - after.Keys == {};
    assert s2.sh.entries[key := EntryFor(Permanent(""), 0)] == after;
    var s3 := Apply(s2, StoreResult(0, 0, after));
    var s4 := Apply(s3, EnterDo(1, key, 0));
    run := [s0, s1, s2, s3, s4];
    acts := [EnterDo(0, key, 0), FnReturns(0, Permanent("")), StoreResult(0, 0, after), EnterDo(1, key, 0)];
    assert s4.callers[1] == Returned(key, Got(""));
  }

  /** So the answers agree with the computation in all runs exactly if no failure is that empty. */
  lemma AnswersAgreeExactly(fn: string -> Computed)
    ensures NoEmptyFailure(fn)
       <==> forall run, acts, i: nat :: IsRun(run, acts) && Computes(run, acts, fn) && i < |run| ==> Agrees(fn, run[i])
  {
    if NoEmptyFailure(fn) {
      forall run, acts, i: nat | IsRun(run, acts) && Computes(run, acts, fn) && i < |run|
        ensures Agrees(fn, run[i])
      {
        AnswersAreTheKeysResult(run, acts, fn, i);
      }
    } else {
      var key :| key != "" && fn(key) == Permanent("");
      var run, acts := EmptyFailureReadsAsResult(fn, key);
      assert !AnswerOk(fn, key, Got(""));
      assert !Agrees(fn, run[4]);
    }
  }

  // ---- Pinned results ----

  /** What keeps `k` out of the way of a deletion by prefix. */
  predicate Spares(a: Action, k: string) {
    a.DropPrefixes? ==> !HasPrefix(k, a.prefixes)
  }

  lemma PruneKeepsPinned(entries: Entries, pins: Pins, ttl: int, max: int, now: int, after: Entries, k: string)
    requires Pruned(entries, pins, ttl, max, now, after) && IsResult(entries, k) && IsPinned(pins, k)
    ensures IsResult(after, k) && after[k] == entries[k]
  {
    PruneGuarantees(entries, pins, ttl, max, now, after);
  }

  lemma StoreKeepsPinned(s: State, a: Action, k: string)
    requires NothingStoredYet(s) && Enabled(s, a) && a.StoreResult? && IsResult(s.sh.entries, k)
    requires IsPinned(s.sh.pins, k)
    ensures IsResult(a.after, k) && a.after[k] == s.sh.entries[k]
  {
    var sh, key, r := s.sh, s.callers[a.caller].key, s.callers[a.caller].computed;
    if IsCached(r) {
      PruneKeepsPinned(sh.entries[key := EntryFor(r, a.now)], sh.pins, sh.ttl, sh.max, a.now, a.after, k);
    }
  }

  lemma PinKeepsPinned(s: State, a: Action, k: string)
    requires Enabled(s, a) && a.PinKeys? && IsResult(s.sh.entries, k)
    requires IsPinned(Repinned(s.sh.pins, a.channel, a.keys), k)
    ensures IsResult(a.after, k) && a.after[k].value == s.sh.entries[k].value
  {
    var sh, touched := s.sh, Touched(s.sh.entries, PinsOf(s.sh.pins, a.channel), a.now);
    PruneKeepsPinned(touched, Repinned(sh.pins, a.channel, a.keys), sh.ttl, sh.max, a.now, a.after, k);
  }

  lemma StepKeepsPinnedResult(s: State, a: Action, k: string)
    requires NothingStoredYet(s) && Enabled(s, a) && IsResult(s.sh.entries, k) && Spares(a, k)
    requires IsPinned(s.sh.pins, k) && IsPinned(Apply(s, a).sh.pins, k)
    ensures var t := Apply(s, a); IsResult(t.sh.entries, k) && t.sh.entries[k].value == s.sh.entries[k].value
  {
    var sh := s.sh;
    match a
    case StoreResult(_, _, _) => StoreKeepsPinned(s, a, k);
    case PinKeys(_, _, _, _) => PinKeepsPinned(s, a, k);
    case ChangeLimits(ttl, max, now, after) => PruneKeepsPinned(sh.entries, sh.pins, ttl, max, now, after, k);
    case PruneNow(now, after) => PruneKeepsPinned(sh.entries, sh.pins, sh.ttl, sh.max, now, after, k);
    case _ =>
  }

  lemma PinnedResultIsHit(s: State, a: Action, k: string)
    requires Enabled(s, a) && IsResult(s.sh.entries, k) && IsPinned(s.sh.pins, k) && a.EnterDo? && a.key == k
    ensures a.caller in Apply(s, a).callers && Apply(s, a).callers[a.caller] == Returned(k, Got(s.sh.entries[k].value))
  {
  }

  // From `from` to `to` the key stays pinned and no deletion by prefix hits it.
  ghost predicate KeptPinned(run: seq<State>, acts: seq<Action>, from: nat, to: nat, k: string)
    requires |run| == |acts| + 1 && from <= to < |run|
  {
    && (forall m :: from <= m <= to ==> IsPinned(run[m].sh.pins, k))
    && (forall m :: from <= m < to ==> Spares(acts[m], k))
  }

  lemma {:induction false} PinnedResultStays(run: seq<State>, acts: seq<Action>, from: nat, to: nat, k: string)
    requires IsRun(run, acts) && from <= to < |run| && IsResult(run[from].sh.entries, k)
    requires KeptPinned(run, acts, from, to, k)
    ensures IsResult(run[to].sh.entries, k) && run[to].sh.entries[k].value == run[from].sh.entries[k].value
  {
    if from < to {
      PinnedResultStays(run, acts, from, to - 1, k);
      RunKeepsInv(run, acts, to - 1);
      assert IsStep(run, acts, to - 1);
      StepKeepsPinnedResult(run[to - 1], acts[to - 1], k);
    }
  }

  /**
   While a key stays pinned by some channel and no deletion by prefix hits it, a result it
   holds never changes and is never computed again: every call of Do for it is answered with
   that result, whatever else happens.
   */
  lemma PinnedResultIsFinal(run: seq<State>, acts: seq<Action>, from: nat, to: nat, k: string)
    requires IsRun(run, acts) && from <= to < |run| && IsResult(run[from].sh.entries, k)
    requires KeptPinned(run, acts, from, to, k)
    ensures IsResult(run[to].sh.entries, k) && run[to].sh.entries[k].value == run[from].sh.entries[k].value
    ensures forall m :: from <= m < to && acts[m].EnterDo? && acts[m].key == k ==>
      acts[m].caller in run[m + 1].callers &&
        run[m + 1].callers[acts[m].caller] == Returned(k, Got(run[from].sh.entries[k].value))
  {
    PinnedResultStays(run, acts, from, to, k);
    forall m | from <= m < to && acts[m].EnterDo? && acts[m].key == k
      ensures acts[m].caller in run[m + 1].callers
      ensures run[m + 1].callers[acts[m].caller] == Returned(k, Got(run[from].sh.entries[k].value))
    {
      PinnedResultStays(run, acts, from, m, k);
      assert IsStep(run, acts, m);
      PinnedResultIsHit(run[m], acts[m], k);
    }
  }
}
