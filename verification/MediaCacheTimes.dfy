/**
 How long entries of the media cache last, over runs: a permanent failure answers for five
 minutes from its store, a result for the idle TTL from its last use. Times are the clock
 readings of the steps, in nanoseconds; nothing is said about the order of the readings.
 */
module MediaCacheTimes {
  import opened MediaCache
  import opened MediaCacheRuns
  import opened Wrappers

  /** The clock reading of a step, if it takes one. */
  function Clock(a: Action): Option<int> {
    match a
    case EnterDo(_, _, now) => Some(now)
    case StoreResult(_, now, _) => Some(now)
    case GetKey(_, now) => Some(now)
    case PinKeys(_, _, now, _) => Some(now)
    case ChangeLimits(_, _, now, _) => Some(now)
    case PruneNow(now, _) => Some(now)
    case _ => None
  }

  /** No later than `t`, if the step reads the clock at all. */
  predicate By(a: Action, t: int) {
    Clock(a).Some? ==> Clock(a).value <= t
  }

  /** The step may refresh the entry of `k`: a Do, Get or store for it, or its channel's pins change. */
  predicate Uses(s: State, a: Action, k: string) {
    match a
    case EnterDo(_, key, _) => key == k
    case GetKey(key, _) => key == k
    case StoreResult(c, _, _) => c in s.callers && s.callers[c].Storing? && s.callers[c].key == k
    case PinKeys(channel, _, _, _) => channel in s.sh.pins && k in s.sh.pins[channel]
    case _ => false
  }

  predicate Stores(s: State, a: Action, k: string, r: Computed) {
    a.StoreResult? && a.caller in s.callers && s.callers[a.caller] == Storing(k, r)
  }

  /** The entries a pruning step prunes. */
  ghost function ToPrune(s: State, a: Action): Entries
    requires Enabled(s, a)
  {
    match a
    case StoreResult(c, now, _) => s.sh.entries[s.callers[c].key := EntryFor(s.callers[c].computed, now)]
    case PinKeys(channel, _, now, _) => Touched(s.sh.entries, PinsOf(s.sh.pins, channel), now)
    case _ => s.sh.entries
  }

  predicate Prunes(s: State, a: Action) {
    match a
    case StoreResult(c, _, _) => c in s.callers && s.callers[c].Storing? && IsCached(s.callers[c].computed)
    case PinKeys(_, _, _, _) => true
    case ChangeLimits(_, _, _, _) => true
    case PruneNow(_, _) => true
    case _ => false
  }

  /** The step neither deletes the entry of `k` nor evicts it: room is left, or an older entry stays. */
  ghost predicate Keeps(s: State, a: Action, k: string)
    requires Enabled(s, a)
  {
    && (a.DropPrefixes? ==> forall p :: p in a.prefixes ==> p == "" || !(p <= k))
    && var t := Apply(s, a).sh;
       Prunes(s, a) && k in ToPrune(s, a) ==> NotEvicted(ToPrune(s, a), t.pins, t.max, t.entries, k)
  }

  // A pruning step leaves what its prune may leave, under the pins and limits it leaves.
  lemma PruningStep(s: State, a: Action)
    requires Enabled(s, a) && Prunes(s, a)
    ensures var t := Apply(s, a).sh; Pruned(ToPrune(s, a), t.pins, t.ttl, t.max, Clock(a).value, t.entries)
  {
  }

  lemma PruningStepKeeps(s: State, a: Action, k: string)
    requires Enabled(s, a) && Prunes(s, a) && k in ToPrune(s, a) && Keeps(s, a, k)
    requires var e, t := ToPrune(s, a)[k], Apply(s, a).sh;
      if e.failure != "" then Clock(a).value - e.failedAt <= 300_000_000_000
      else IsPinned(t.pins, k) || t.ttl <= 0 || Clock(a).value - e.used <= t.ttl
    ensures k in Apply(s, a).sh.entries && Apply(s, a).sh.entries[k] == ToPrune(s, a)[k]
  {
    PruningStep(s, a);
    var t := Apply(s, a).sh;
    PruneKeeps(ToPrune(s, a), t.pins, t.ttl, t.max, Clock(a).value, t.entries, k);
  }

  // A step prunes an entry that was there as it was, but for the time of its last use.
  lemma ToPruneHas(s: State, a: Action, k: string)
    requires Inv(s) && Enabled(s, a) && k in s.sh.entries && Prunes(s, a)
    ensures k in ToPrune(s, a)
    ensures ToPrune(s, a)[k] == s.sh.entries[k].(used := ToPrune(s, a)[k].used)
    ensures !Uses(s, a, k) ==> ToPrune(s, a)[k] == s.sh.entries[k]
  {
  }

  // ---- Failures ----

  predicate FailedAt(s: State, k: string, msg: string, t: int) {
    k in s.sh.entries && s.sh.entries[k].failure == msg && s.sh.entries[k].failedAt == t
  }

  lemma UnprunedFailureStays(s: State, a: Action, k: string)
    requires Inv(s) && Enabled(s, a) && k in s.sh.entries && s.sh.entries[k].failure != "" && !Prunes(s, a)
    requires By(a, s.sh.entries[k].failedAt + 300_000_000_000) && Keeps(s, a, k)
    ensures k in Apply(s, a).sh.entries && Apply(s, a).sh.entries[k] == s.sh.entries[k]
  {
  }

  lemma StepKeepsFailure(s: State, a: Action, k: string, msg: string, t: int)
    requires Inv(s) && Enabled(s, a) && FailedAt(s, k, msg, t) && msg != ""
    requires By(a, t + 300_000_000_000) && Keeps(s, a, k)
    ensures FailedAt(Apply(s, a), k, msg, t)
  {
    if Prunes(s, a) {
      ToPruneHas(s, a, k);
      PruningStepKeeps(s, a, k);
    } else {
      UnprunedFailureStays(s, a, k);
    }
  }

  lemma StoreFails(s: State, a: Action, k: string, msg: string)
    requires Enabled(s, a) && Stores(s, a, k, Permanent(msg)) && Keeps(s, a, k)
    ensures FailedAt(Apply(s, a), k, msg, a.now)
  {
    var t := Apply(s, a).sh;
    StoredLands(s.sh.entries, s.sh.pins, s.sh.ttl, s.sh.max, k, Permanent(msg), a.now, t.entries);
  }

  ghost predicate KeptThrough(run: seq<State>, acts: seq<Action>, from: nat, to: nat, k: string)
    requires IsRun(run, acts) && from <= to <= |acts|
  {
    forall m :: from <= m < to ==> StepKeeps(run, acts, m, k)
  }

  ghost predicate StepKeeps(run: seq<State>, acts: seq<Action>, m: nat, k: string)
    requires IsRun(run, acts) && m < |acts|
  {
    assert IsStep(run, acts, m);
    Keeps(run[m], acts[m], k)
  }

  lemma {:induction false} FailureStays(run: seq<State>, acts: seq<Action>, i: nat, j: nat, k: string, msg: string)
    requires IsRun(run, acts) && i < j <= |acts| && Stores(run[i], acts[i], k, Permanent(msg)) && msg != ""
    requires KeptThrough(run, acts, i, j, k)
    requires forall m :: i < m < j ==> By(acts[m], acts[i].now + 300_000_000_000)
    ensures FailedAt(run[j], k, msg, acts[i].now)
  {
    assert IsStep(run, acts, j - 1) && StepKeeps(run, acts, j - 1, k);
    if j == i + 1 {
      StoreFails(run[i], acts[i], k, msg);
    } else {
      FailureStays(run, acts, i, j - 1, k, msg);
      RunKeepsInv(run, acts, j - 1);
      StepKeepsFailure(run[j - 1], acts[j - 1], k, msg, acts[i].now);
    }
  }

  /**
   A permanent failure that is neither deleted nor evicted is the answer of every Do for its key,
   pinned or not, while no clock reading is more than five minutes past its store.
   */
  lemma FailureLasts(run: seq<State>, acts: seq<Action>, i: nat, j: nat, k: string, msg: string)
    requires IsRun(run, acts) && i < j < |acts| && Stores(run[i], acts[i], k, Permanent(msg)) && msg != ""
    requires KeptThrough(run, acts, i, j, k)
    requires forall m :: i < m <= j ==> By(acts[m], acts[i].now + 300_000_000_000)
    requires acts[j].EnterDo? && acts[j].key == k
    ensures acts[j].caller in run[j + 1].callers
    ensures run[j + 1].callers[acts[j].caller] == Returned(k, FailedBefore(msg))
  {
    FailureStays(run, acts, i, j, k, msg);
    assert IsStep(run, acts, j);
    EnterExactly(run[j].sh, k, acts[j].now);
  }

  // An entry that a step leaves was there before, unless the step is the store of its key.
  lemma EntryBefore(s: State, a: Action, k: string)
    requires Inv(s) && Enabled(s, a) && k in Apply(s, a).sh.entries
    ensures k in s.sh.entries
         || (a.StoreResult? && s.callers[a.caller].key == k && IsCached(s.callers[a.caller].computed))
    ensures k in s.sh.entries ==>
      var e, f := s.sh.entries[k], Apply(s, a).sh.entries[k];
      e.value == f.value && e.failure == f.failure && e.failedAt == f.failedAt
  {
    if k !in s.sh.entries {
      EntriesGrowByStoringOnly(s, a, k);
    } else if Prunes(s, a) {
      ToPruneHas(s, a, k);
      PruneOnlyKeeps(s, a);
    } else {
      UnprunedStays(s, a, k);
    }
  }

  lemma PruneOnlyKeeps(s: State, a: Action)
    requires Enabled(s, a) && Prunes(s, a)
    ensures var t := Apply(s, a).sh.entries;
      t.Keys <= ToPrune(s, a).Keys && forall k :: k in t ==> t[k] == ToPrune(s, a)[k]
  {
    PruningStep(s, a);
    var t := Apply(s, a).sh;
    PruneOnlyRemoves(ToPrune(s, a), t.pins, t.ttl, t.max, Clock(a).value, t.entries);
  }

  lemma UnprunedStays(s: State, a: Action, k: string)
    requires Enabled(s, a) && !Prunes(s, a) && k in s.sh.entries && k in Apply(s, a).sh.entries
    ensures Apply(s, a).sh.entries[k] == s.sh.entries[k].(used := Apply(s, a).sh.entries[k].used)
  {
  }

  // What a store leaves under its key.
  lemma StoreLeaves(s: State, a: Action, k: string)
    requires Inv(s) && Enabled(s, a) && a.StoreResult? && s.callers[a.caller].key == k && k in Apply(s, a).sh.entries
    ensures var r, e := s.callers[a.caller].computed, Apply(s, a).sh.entries[k];
      e.used == a.now && match r {
        case Value(v) => e.value == v && e.failure == ""
        case Permanent(msg) => e.value == "" && e.failure == msg && e.failedAt == a.now
        case Transient(_) => false
      }
  {
    assert k !in s.sh.entries;
    PruneOnlyKeeps(s, a);
  }

  /** Every failure in the cache was stored under its key by a computation that failed with it at that time. */
  lemma {:induction false} FailureWasStored(run: seq<State>, acts: seq<Action>, j: nat, k: string) returns (i: nat)
    requires IsRun(run, acts) && j < |run| && k in run[j].sh.entries && run[j].sh.entries[k].failure != ""
    ensures i < j && Stores(run[i], acts[i], k, Permanent(run[j].sh.entries[k].failure))
    ensures acts[i].now == run[j].sh.entries[k].failedAt
  {
    i := j - 1;
    assert IsStep(run, acts, i);
    RunKeepsInv(run, acts, i);
    EntryBefore(run[i], acts[i], k);
    if k in run[i].sh.entries {
      i := FailureWasStored(run, acts, i, k);
    } else {
      StoreLeaves(run[i], acts[i], k);
    }
  }

  /** So a Do is answered with a failure only for five minutes after a computation of its key ended with it. */
  lemma FailureEnds(run: seq<State>, acts: seq<Action>, j: nat, msg: string) returns (i: nat)
    requires IsRun(run, acts) && j < |acts| && acts[j].EnterDo? && acts[j].caller in run[j + 1].callers
    requires run[j + 1].callers[acts[j].caller] == Returned(acts[j].key, FailedBefore(msg))
    ensures i < j && Stores(run[i], acts[i], acts[j].key, Permanent(msg))
    ensures acts[j].now <= acts[i].now + 300_000_000_000
  {
    assert IsStep(run, acts, j);
    EnterExactly(run[j].sh, acts[j].key, acts[j].now);
    i := FailureWasStored(run, acts, j, acts[j].key);
  }

  // ---- Results ----

  predicate UsedAt(s: State, k: string, v: string, u: int) {
    IsResult(s.sh.entries, k) && s.sh.entries[k].value == v && s.sh.entries[k].used == u
  }

  /** If the step prunes, a result used at `u` is pinned then, or within the TTL then, or there is none. */
  ghost predicate InTime(s: State, a: Action, k: string, u: int)
    requires Enabled(s, a)
  {
    var t := Apply(s, a).sh;
    Prunes(s, a) ==> IsPinned(t.pins, k) || t.ttl <= 0 || Clock(a).value <= u + t.ttl
  }

  lemma UnprunedUnusedStays(s: State, a: Action, k: string)
    requires Enabled(s, a) && k in s.sh.entries && !Prunes(s, a) && !Uses(s, a, k) && Keeps(s, a, k)
    ensures k in Apply(s, a).sh.entries && Apply(s, a).sh.entries[k] == s.sh.entries[k]
  {
  }

  lemma StepKeepsResult(s: State, a: Action, k: string, v: string, u: int)
    requires Inv(s) && Enabled(s, a) && UsedAt(s, k, v, u) && !Uses(s, a, k) && InTime(s, a, k, u) && Keeps(s, a, k)
    ensures UsedAt(Apply(s, a), k, v, u)
  {
    if Prunes(s, a) {
      ToPruneHas(s, a, k);
      PruningStepKeeps(s, a, k);
    } else {
      UnprunedUnusedStays(s, a, k);
    }
  }

  // From `from` to `to` nothing reads, stores, unpins, deletes or evicts `k`, and every prune is in time.
  ghost predicate LeftAlone(run: seq<State>, acts: seq<Action>, from: nat, to: nat, k: string, u: int)
    requires IsRun(run, acts) && from <= to <= |acts|
  {
    forall m :: from <= m < to ==> LeavesAlone(run, acts, m, k, u)
  }

  ghost predicate LeavesAlone(run: seq<State>, acts: seq<Action>, m: nat, k: string, u: int)
    requires IsRun(run, acts) && m < |acts|
  {
    assert IsStep(run, acts, m);
    !Uses(run[m], acts[m], k) && Keeps(run[m], acts[m], k) && InTime(run[m], acts[m], k, u)
  }

  lemma {:induction false} ResultStays(run: seq<State>, acts: seq<Action>, i: nat, j: nat, k: string, v: string, u: int)
    requires IsRun(run, acts) && i <= j <= |acts| && UsedAt(run[i], k, v, u) && LeftAlone(run, acts, i, j, k, u)
    ensures UsedAt(run[j], k, v, u)
  {
    if i < j {
      ResultStays(run, acts, i, j - 1, k, v, u);
      RunKeepsInv(run, acts, j - 1);
      assert IsStep(run, acts, j - 1) && LeavesAlone(run, acts, j - 1, k, u);
      StepKeepsResult(run[j - 1], acts[j - 1], k, v, u);
    }
  }

  // A step that uses a result it leaves there has refreshed it.
  lemma UseRefreshes(s: State, a: Action, k: string)
    requires Inv(s) && Enabled(s, a) && Uses(s, a, k) && IsResult(Apply(s, a).sh.entries, k)
    ensures Clock(a).Some? && Apply(s, a).sh.entries[k].used == Clock(a).value
  {
    if a.StoreResult? {
      StoreLeaves(s, a, k);
    } else if a.PinKeys? {
      PruneOnlyKeeps(s, a);
      assert k in s.sh.entries;
    }
  }

  lemma HitExactly(s: State, a: Action, k: string, v: string, u: int)
    requires Enabled(s, a) && UsedAt(s, k, v, u) && a.EnterDo? && a.key == k
    ensures a.caller in Apply(s, a).callers
    ensures Apply(s, a).callers[a.caller] == Returned(k, Got(v))
       <==> IsPinned(s.sh.pins, k) || s.sh.ttl <= 0 || a.now <= u + s.sh.ttl
  {
    EnterExactly(s.sh, k, a.now);
  }

  lemma UsedAfterUse(run: seq<State>, acts: seq<Action>, i: nat, k: string)
    requires IsRun(run, acts) && i < |acts| && Uses(run[i], acts[i], k) && IsResult(run[i + 1].sh.entries, k)
    ensures Clock(acts[i]) == Some(run[i + 1].sh.entries[k].used)
  {
    assert IsStep(run, acts, i);
    RunKeepsInv(run, acts, i);
    UseRefreshes(run[i], acts[i], k);
  }

  /**
   A result that was stored or read at time u, or whose channel's pins changed then, and that is
   not used again, deleted or evicted, is what a Do for its key gets while it is pinned, for ever
   without a TTL, and else up to the TTL after u and not later.
   */
  lemma ResultLastsExactly(run: seq<State>, acts: seq<Action>, i: nat, j: nat, k: string, u: int)
    requires IsRun(run, acts) && i < j < |acts| && Uses(run[i], acts[i], k) && Clock(acts[i]) == Some(u)
    requires IsResult(run[i + 1].sh.entries, k) && LeftAlone(run, acts, i + 1, j, k, u)
    requires acts[j].EnterDo? && acts[j].key == k
    ensures acts[j].caller in run[j + 1].callers
    ensures run[j + 1].callers[acts[j].caller] == Returned(k, Got(run[i + 1].sh.entries[k].value))
      <==> IsPinned(run[j].sh.pins, k) || run[j].sh.ttl <= 0 || acts[j].now <= u + run[j].sh.ttl
  {
    UsedAfterUse(run, acts, i, k);
    ResultStays(run, acts, i + 1, j, k, run[i + 1].sh.entries[k].value, u);
    assert IsStep(run, acts, j);
    HitExactly(run[j], acts[j], k, run[i + 1].sh.entries[k].value, u);
  }

  // A step that does not use the key leaves its entry as it is, if it leaves it.
  lemma UnusedIsUnchanged(s: State, a: Action, k: string)
    requires Inv(s) && Enabled(s, a) && !Uses(s, a, k) && k in Apply(s, a).sh.entries
    ensures k in s.sh.entries && s.sh.entries[k] == Apply(s, a).sh.entries[k]
  {
    EntryBefore(s, a, k);
    if Prunes(s, a) {
      ToPruneHas(s, a, k);
      PruneOnlyKeeps(s, a);
    }
  }

  /** Step `i` is the last before `j` that uses `k`. */
  ghost predicate LastUse(run: seq<State>, acts: seq<Action>, i: nat, j: nat, k: string)
    requires IsRun(run, acts) && j <= |acts|
  {
    i < j && Uses(run[i], acts[i], k) && forall m :: i < m < j ==> !Uses(run[m], acts[m], k)
  }

  lemma LastUseStays(run: seq<State>, acts: seq<Action>, i: nat, j: nat, k: string)
    requires IsRun(run, acts) && j < |acts| && LastUse(run, acts, i, j, k) && !Uses(run[j], acts[j], k)
    ensures LastUse(run, acts, i, j + 1, k)
  {
  }

  // Between two uses `used` stays the time of the first.
  lemma UsedBefore(s: State, a: Action, k: string)
    requires Inv(s) && Enabled(s, a) && IsResult(Apply(s, a).sh.entries, k)
    ensures if Uses(s, a, k) then Clock(a) == Some(Apply(s, a).sh.entries[k].used)
            else IsResult(s.sh.entries, k) && s.sh.entries[k].used == Apply(s, a).sh.entries[k].used
  {
    if Uses(s, a, k) {
      UseRefreshes(s, a, k);
    } else {
      UnusedIsUnchanged(s, a, k);
    }
  }

  lemma {:induction false} UsedIsLastUse(run: seq<State>, acts: seq<Action>, j: nat, k: string) returns (i: nat)
    requires IsRun(run, acts) && j < |run| && IsResult(run[j].sh.entries, k)
    ensures LastUse(run, acts, i, j, k) && Clock(acts[i]) == Some(run[j].sh.entries[k].used)
  {
    i := j - 1;
    assert IsStep(run, acts, i);
    RunKeepsInv(run, acts, i);
    UsedBefore(run[i], acts[i], k);
    if !Uses(run[i], acts[i], k) {
      i := UsedIsLastUse(run, acts, i, k);
      LastUseStays(run, acts, i, j - 1, k);
    }
  }

  /** The value of every result in the cache was computed for its key and stored. */
  lemma {:induction false} ResultWasStored(run: seq<State>, acts: seq<Action>, j: nat, k: string) returns (i: nat)
    requires IsRun(run, acts) && j < |run| && IsResult(run[j].sh.entries, k)
    ensures var v := run[j].sh.entries[k].value;
      i < j && (Stores(run[i], acts[i], k, Value(v)) || (v == "" && Stores(run[i], acts[i], k, Permanent(""))))
  {
    i := j - 1;
    assert IsStep(run, acts, i);
    RunKeepsInv(run, acts, i);
    EntryBefore(run[i], acts[i], k);
    if k in run[i].sh.entries {
      i := ResultWasStored(run, acts, i, k);
    } else {
      StoreLeaves(run[i], acts[i], k);
    }
  }

  /**
   Every Do that is answered from the cache gets a value some computation of its key stored, and
   its key is pinned, or there is no TTL, or the last use was within the TTL.
   */
  lemma HitsAreInTime(run: seq<State>, acts: seq<Action>, j: nat, v: string) returns (stored: nat, used: nat)
    requires IsRun(run, acts) && j < |acts| && acts[j].EnterDo? && acts[j].caller in run[j + 1].callers
    requires run[j + 1].callers[acts[j].caller] == Returned(acts[j].key, Got(v))
    ensures stored < j && (Stores(run[stored], acts[stored], acts[j].key, Value(v))
                           || (v == "" && Stores(run[stored], acts[stored], acts[j].key, Permanent(""))))
    ensures LastUse(run, acts, used, j, acts[j].key) && Clock(acts[used]).Some?
    ensures IsPinned(run[j].sh.pins, acts[j].key) || run[j].sh.ttl <= 0
      || acts[j].now <= Clock(acts[used]).value + run[j].sh.ttl
  {
    assert IsStep(run, acts, j);
    EnterExactly(run[j].sh, acts[j].key, acts[j].now);
    stored := ResultWasStored(run, acts, j, acts[j].key);
    used := UsedIsLastUse(run, acts, j, acts[j].key);
  }
}
