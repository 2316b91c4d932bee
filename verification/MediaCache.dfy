/**
 The media cache: entries with an idle TTL and a failure TTL, pins per channel, LRU eviction
 over the unpinned entries, and single-flight computation. Each method of the class is one
 critical section of the program's cache; `now` is the clock reading it takes inside.
 */
module MediaCache {
  import opened Utf8
  import opened Wrappers

  // Durations and times in nanoseconds.
  const FAILURE_TTL: int := 5 * 60 * 1_000_000_000

  // `failure` is "" for a result.
  datatype Entry = Entry(value: string, failure: string, failedAt: int, used: int)

  type Entries = map<string, Entry>
  type Pins = map<string, set<string>>

  // What a computation of a key gave; only permanent failures are cached.
  datatype Computed = Value(value: string) | Permanent(msg: string) | Transient(msg: string)

  // What entering Do found: a cached result or failure, a computation to wait for, or
  // nothing, which makes the caller the owner of a new computation.
  datatype Entered = Hit(value: string) | CachedFailure(msg: string) | Join(call: nat) | Own

  // Everything the cache's mutex guards.
  datatype Shared = Shared(entries: Entries, inflight: map<string, nat>, pins: Pins, ttl: int, max: int)

  predicate IsPinned(pins: Pins, key: string) {
    exists c :: c in pins && key in pins[c]
  }

  function PinCount(pins: Pins, key: string): nat {
    |set c | c in pins && key in pins[c]|
  }

  lemma PinCountPositive(pins: Pins, key: string)
    ensures PinCount(pins, key) > 0 <==> IsPinned(pins, key)
  {
    var cs := set c | c in pins && key in pins[c];
    if cs != {} {
      var c :| c in cs;
      assert c in pins && key in pins[c];
    }
    if IsPinned(pins, key) {
      var c :| c in pins && key in pins[c];
      assert c in cs;
    }
  }

  /** `pinned` counts, for each key, the channels of `pins` and one more for those in `extra`. */
  ghost predicate Tally(pinned: map<string, nat>, pins: Pins, extra: set<string>) {
    forall k ::
      var n := PinCount(pins, k) + if k in extra then 1 else 0;
      if k in pinned then pinned[k] == n > 0 else n == 0
  }

  // A channel's own pins, counted apart.
  lemma PinCountApart(pins: Pins, channel: string, k: string)
    ensures PinCount(pins, k) == PinCount(pins - {channel}, k) + if k in PinsOf(pins, channel) then 1 else 0
  {
    var all := set c | c in pins && k in pins[c];
    var others := set c | c in pins - {channel} && k in (pins - {channel})[c];
    if k in PinsOf(pins, channel) {
      assert all == others + {channel};
    } else {
      assert all == others;
    }
  }

  lemma TallyApart(pinned: map<string, nat>, pins: Pins, channel: string)
    ensures Tally(pinned, pins, {}) <==> Tally(pinned, pins - {channel}, PinsOf(pins, channel))
  {
    forall k
      ensures PinCount(pins, k) == PinCount(pins - {channel}, k) + if k in PinsOf(pins, channel) then 1 else 0
    {
      PinCountApart(pins, channel, k);
    }
  }

  lemma TallyDrop(pinned: map<string, nat>, base: Pins, extra: set<string>, k: string)
    requires Tally(pinned, base, extra) && k in extra
    ensures k in pinned && pinned[k] > 0
    ensures Tally(if pinned[k] - 1 <= 0 then pinned - {k} else pinned[k := pinned[k] - 1], base, extra - {k})
  {
    assert k in pinned by {
      assert PinCount(base, k) + 1 > 0;
    }
  }

  lemma TallyAdd(pinned: map<string, nat>, base: Pins, extra: set<string>, k: string)
    requires Tally(pinned, base, extra) && k !in extra
    ensures Tally(pinned[k := (if k in pinned then pinned[k] else 0) + 1], base, extra + {k})
  {
    assert PinCount(base, k) == if k in pinned then pinned[k] else 0;
  }

  lemma TouchMore(entries: Entries, keys: set<string>, k: string, now: int)
    ensures var t := Touched(entries, keys, now);
      Touched(entries, keys + {k}, now) == if k in t then t[k := t[k].(used := now)] else t
  {
  }

  predicate IsResult(entries: Entries, key: string) {
    key in entries && entries[key].failure == ""
  }

  predicate Expired(pins: Pins, ttl: int, key: string, e: Entry, now: int) {
    if e.failure != "" then now - e.failedAt > FAILURE_TTL
    else !IsPinned(pins, key) && ttl > 0 && now - e.used > ttl
  }

  function Unexpired(entries: Entries, pins: Pins, ttl: int, now: int): Entries {
    map k | k in entries && !Expired(pins, ttl, k, entries[k], now) :: entries[k]
  }

  function Evictable(entries: Entries, pins: Pins): set<string> {
    set k | k in entries && !(IsPinned(pins, k) && entries[k].failure == "")
  }

  function Excess(entries: Entries, max: int): nat {
    if max <= 0 || |entries| <= max then 0 else |entries| - max
  }

  function Min(a: nat, b: nat): nat {
    if a <= b then a else b
  }

  /** What eviction promises of the entries it leaves of `kept`. */
  ghost predicate Evicted(kept: Entries, pins: Pins, max: int, after: Entries) {
    EvictedFrom(kept, Evictable(kept, pins), max, after)
  }

  ghost predicate EvictedFrom(kept: Entries, able: set<string>, max: int, after: Entries) {
    && after.Keys <= kept.Keys && (forall k :: k in after ==> after[k] == kept[k])
    && kept.Keys - after.Keys <= able
    && |kept.Keys - after.Keys| == Min(Excess(kept, max), |able|)
    && forall e, k :: e in kept && e !in after && k in after && k in able ==> kept[e].used <= kept[k].used
  }

  /** What a prune of `entries` at `now` may leave; ties between equally old entries are open. */
  ghost predicate Pruned(entries: Entries, pins: Pins, ttl: int, max: int, now: int, after: Entries) {
    Evicted(Unexpired(entries, pins, ttl, now), pins, max, after)
  }

  lemma {:induction false} SubsetSize(a: set<string>, b: set<string>)
    requires a <= b
    ensures |a| <= |b| && (|a| == |b| ==> a == b)
  {
    if a != {} {
      var x :| x in a;
      SubsetSize(a - {x}, b - {x});
    }
  }

  /**
   After a prune every failure is at most five minutes old, and every result is pinned or was used
   within the TTL, if there is one; every pinned result that was there is still there unchanged,
   and the cache is within its bound unless pinned results alone exceed it.
   */
  lemma PruneGuarantees(entries: Entries, pins: Pins, ttl: int, max: int, now: int, after: Entries)
    requires Pruned(entries, pins, ttl, max, now, after)
    ensures forall k :: k in after ==>
      if after[k].failure != "" then now - after[k].failedAt <= 300_000_000_000
      else IsPinned(pins, k) || ttl <= 0 || now - after[k].used <= ttl
    ensures forall k :: IsResult(entries, k) && IsPinned(pins, k) ==> k in after && after[k] == entries[k]
    ensures max <= 0 || |after| <= max || forall k :: k in after ==> IsResult(after, k) && IsPinned(pins, k)
  {
    var kept := Unexpired(entries, pins, ttl, now);
    var gone, able := kept.Keys - after.Keys, Evictable(kept, pins);
    assert |after.Keys| == |kept.Keys| - |gone| by {
      assert after.Keys + gone == kept.Keys && after.Keys !! gone;
    }
    if |gone| == |able| {
      SubsetSize(gone, able);
    }
    assert forall k :: IsResult(entries, k) && IsPinned(pins, k) ==> k in kept && k !in able;
  }

  /** There is room for everything, or left, or something that may be evicted stays and is older. */
  ghost predicate NotEvicted(entries: Entries, pins: Pins, max: int, after: Entries, k: string)
    requires k in entries
  {
    max <= 0 || |entries| <= max || |after| < max
    || exists e :: e in after && e in entries && !(IsPinned(pins, e) && entries[e].failure == "")
                   && entries[e].used < entries[k].used
  }

  lemma RoomEvictsNothing(kept: Entries, able: set<string>, max: int, after: Entries)
    requires EvictedFrom(kept, able, max, after) && (max <= 0 || |kept| <= max || |after| < max)
    ensures after.Keys == kept.Keys
  {
    var gone := kept.Keys - after.Keys;
    assert after.Keys + gone == kept.Keys;
    assert |after.Keys| == |kept.Keys| - |gone|;
    assert gone == {};
  }

  /**
   A prune keeps a failure for five minutes, and a result while it is pinned or its last use is
   no longer ago than the TTL (for ever without one), unless the bound makes it evict the entry.
   */
  lemma PruneKeeps(entries: Entries, pins: Pins, ttl: int, max: int, now: int, after: Entries, k: string)
    requires Pruned(entries, pins, ttl, max, now, after) && k in entries && NotEvicted(entries, pins, max, after, k)
    requires if entries[k].failure != "" then now - entries[k].failedAt <= 300_000_000_000
             else IsPinned(pins, k) || ttl <= 0 || now - entries[k].used <= ttl
    ensures k in after && after[k] == entries[k]
  {
    var kept := Unexpired(entries, pins, ttl, now);
    assert k in kept;
    SubsetSize(kept.Keys, entries.Keys);
    if max <= 0 || |entries| <= max || |after| < max {
      RoomEvictsNothing(kept, Evictable(kept, pins), max, after);
    } else {
      var e :| e in after && e in entries && !(IsPinned(pins, e) && entries[e].failure == "")
               && entries[e].used < entries[k].used;
      assert e in Evictable(kept, pins);
    }
  }

  // ---- Lookups, Do's critical sections, deletion by prefix ----

  function Lookup(entries: Entries, pins: Pins, ttl: int, key: string, now: int): Entries {
    if key in entries && Expired(pins, ttl, key, entries[key], now) then entries - {key} else entries
  }

  /** The lock section in which Do decides what to do, for the caller numbered `caller`. */
  function EnterResult(sh: Shared, key: string, now: int): Entered {
    var entries := Lookup(sh.entries, sh.pins, sh.ttl, key, now);
    if key in entries then
      if entries[key].failure != "" then CachedFailure(entries[key].failure) else Hit(entries[key].value)
    else if key in sh.inflight then Join(sh.inflight[key])
    else Own
  }

  /**
   What Do finds: a failure stored at most five minutes ago; a result that is pinned, or used no
   longer ago than the TTL, or any if there is no TTL; else a computation in flight, or nothing.
   */
  lemma EnterExactly(sh: Shared, key: string, now: int)
    ensures var there := key in sh.entries;
      var failed := there && sh.entries[key].failure != "" && now - sh.entries[key].failedAt <= 300_000_000_000;
      var hit := there && sh.entries[key].failure == ""
        && (IsPinned(sh.pins, key) || sh.ttl <= 0 || now - sh.entries[key].used <= sh.ttl);
      EnterResult(sh, key, now) ==
        if failed then CachedFailure(sh.entries[key].failure)
        else if hit then Hit(sh.entries[key].value)
        else if key in sh.inflight then Join(sh.inflight[key])
        else Own
  {
  }

  function EnterShared(sh: Shared, caller: nat, key: string, now: int): Shared {
    var entries := Lookup(sh.entries, sh.pins, sh.ttl, key, now);
    match EnterResult(sh, key, now)
    case Hit(_) => sh.(entries := entries[key := entries[key].(used := now)])
    case CachedFailure(_) => sh.(entries := entries)
    case Join(_) => sh.(entries := entries)
    case Own => sh.(entries := entries, inflight := sh.inflight[key := caller])
  }

  /** Nothing but what strings.TrimSpace trims. */
  predicate IsBlank(s: string) {
    forall c :: c in s ==> IsSpace(c as nat)
  }

  predicate IsCached(r: Computed) {
    match r
    case Value(v) => !IsBlank(v)
    case Permanent(_) => true
    case Transient(_) => false
  }

  function EntryFor(r: Computed, now: int): Entry {
    match r
    case Value(v) => Entry(v, "", 0, now)
    case Permanent(msg) => Entry("", msg, now, now)
    case Transient(msg) => Entry("", msg, now, now)
  }

  /** The lock section in which the owner stores what it computed and prunes. */
  ghost predicate Stored(entries: Entries, pins: Pins, ttl: int, max: int, key: string, r: Computed, now: int,
                         after: Entries) {
    if IsCached(r) then Pruned(entries[key := EntryFor(r, now)], pins, ttl, max, now, after) else after == entries
  }

  /** A result that is no white space is stored as used now, a permanent failure as failed now. */
  lemma StoredLands(entries: Entries, pins: Pins, ttl: int, max: int, key: string, r: Computed, now: int,
                    after: Entries)
    requires Stored(entries, pins, ttl, max, key, r, now, after)
    ensures
      (r.Value? && (exists c :: c in r.value && !IsSpace(c as nat))
       && NotEvicted(entries[key := Entry(r.value, "", 0, now)], pins, max, after, key)) ==>
        key in after && after[key].value == r.value && after[key].failure == "" && after[key].used == now
    ensures r.Permanent? && NotEvicted(entries[key := Entry("", r.msg, now, now)], pins, max, after, key) ==>
      key in after && after[key].failure == r.msg && after[key].failedAt == now
    ensures r.Transient? || (r.Value? && forall c :: c in r.value ==> IsSpace(c as nat)) ==> after == entries
  {
    if r.Value? && (exists c :: c in r.value && !IsSpace(c as nat)) {
      var e := Entry(r.value, "", 0, now);
      if NotEvicted(entries[key := e], pins, max, after, key) {
        PruneKeeps(entries[key := e], pins, ttl, max, now, after, key);
      }
    }
    if r.Permanent? {
      var e := Entry("", r.msg, now, now);
      if NotEvicted(entries[key := e], pins, max, after, key) {
        PruneKeeps(entries[key := e], pins, ttl, max, now, after, key);
      }
    }
  }

  function Touched(entries: Entries, keys: set<string>, now: int): Entries {
    map k | k in entries :: if k in keys then entries[k].(used := now) else entries[k]
  }

  function KeySet(keys: seq<string>): set<string> {
    set k | k in keys && k != ""
  }

  function PinsOf(pins: Pins, channel: string): set<string> {
    if channel in pins then pins[channel] else {}
  }

  function Repinned(pins: Pins, channel: string, keys: seq<string>): Pins {
    if keys == [] then pins - {channel} else pins[channel := KeySet(keys)]
  }

  /** The channel pins its new keys, but for the empty one, and every other channel what it did. */
  lemma RepinnedPins(pins: Pins, channel: string, keys: seq<string>)
    ensures forall k :: IsPinned(Repinned(pins, channel, keys), k) <==>
      (k in keys && k != "") || exists c :: c in pins && c != channel && k in pins[c]
  {
    var after := Repinned(pins, channel, keys);
    forall k
      ensures IsPinned(after, k) <==> (k in keys && k != "") || exists c :: c in pins && c != channel && k in pins[c]
    {
      if k in keys && k != "" {
        assert channel in after && k in after[channel];
      }
      if c :| c in pins && c != channel && k in pins[c] {
        assert c in after && k in after[c];
      }
    }
  }

  predicate HasPrefix(key: string, prefixes: seq<string>) {
    exists p :: p in prefixes && p != "" && p <= key
  }

  // ---- Sorting by last use ----

  predicate Distinct(keys: seq<string>) {
    forall i, j :: 0 <= i < j < |keys| ==> keys[i] != keys[j]
  }

  predicate SortedByUse(entries: Entries, keys: seq<string>) {
    && (forall k :: k in keys ==> k in entries)
    && forall i, j :: 0 <= i < j < |keys| ==> entries[keys[i]].used <= entries[keys[j]].used
  }

  /** The library sort that eviction calls: the same keys in some order of last use. */
  method SortByUse(entries: Entries, keys: seq<string>) returns (r: seq<string>)
    requires Distinct(keys) && forall k :: k in keys ==> k in entries
    ensures SortedByUse(entries, r) && Distinct(r) && |r| == |keys| && forall k :: k in r <==> k in keys
  {
    r := [];
    for n := 0 to |keys|
      invariant SortedByUse(entries, r) && Distinct(r) && |r| == n && forall k :: k in r <==> k in keys[..n]
    {
      var i := |r|;
      while i > 0 && entries[r[i - 1]].used > entries[keys[n]].used
        invariant 0 <= i <= |r| && forall j :: i <= j < |r| ==> entries[keys[n]].used < entries[r[j]].used
      {
        i := i - 1;
      }
      assert keys[n] !in r;
      InsertSorted(entries, r, i, keys[n]);
      assert keys[..n + 1] == keys[..n] + [keys[n]];
      r := r[..i] + [keys[n]] + r[i..];
    }
    assert keys[..|keys|] == keys;
  }

  lemma InsertSorted(entries: Entries, r: seq<string>, i: nat, k: string)
    requires SortedByUse(entries, r) && Distinct(r) && i <= |r| && k in entries && k !in r
    requires i > 0 ==> entries[r[i - 1]].used <= entries[k].used
    requires forall j :: i <= j < |r| ==> entries[k].used < entries[r[j]].used
    ensures var s := r[..i] + [k] + r[i..];
      SortedByUse(entries, s) && Distinct(s) && forall x :: x in s <==> x in r || x == k
  {
    var s := r[..i] + [k] + r[i..];
    assert r == r[..i] + r[i..];
    InsertKeepsDistinct(r, i, k);
    InsertKeepsOrder(entries, r, i, k);
  }

  // What is at x once k is inserted at i.
  function Inserted(r: seq<string>, i: nat, k: string, x: nat): string
    requires i <= |r| && x <= |r|
  {
    if x < i then r[x] else if x == i then k else r[x - 1]
  }

  lemma InsertedAt(r: seq<string>, i: nat, k: string)
    requires i <= |r|
    ensures var s := r[..i] + [k] + r[i..];
      |s| == |r| + 1 && forall x :: 0 <= x < |s| ==> s[x] == Inserted(r, i, k, x)
  {
  }

  lemma InsertedInOrder(entries: Entries, r: seq<string>, i: nat, k: string, x: nat, y: nat)
    requires SortedByUse(entries, r) && i <= |r| && k in entries && x < y <= |r|
    requires i > 0 ==> entries[r[i - 1]].used <= entries[k].used
    requires forall j :: i <= j < |r| ==> entries[k].used < entries[r[j]].used
    ensures Inserted(r, i, k, x) in entries && Inserted(r, i, k, y) in entries
    ensures entries[Inserted(r, i, k, x)].used <= entries[Inserted(r, i, k, y)].used
  {
    assert x < i <= y ==> entries[r[x]].used <= entries[r[i - 1]].used;
  }

  lemma InsertKeepsOrder(entries: Entries, r: seq<string>, i: nat, k: string)
    requires SortedByUse(entries, r) && i <= |r| && k in entries
    requires i > 0 ==> entries[r[i - 1]].used <= entries[k].used
    requires forall j :: i <= j < |r| ==> entries[k].used < entries[r[j]].used
    ensures SortedByUse(entries, r[..i] + [k] + r[i..])
  {
    var s := r[..i] + [k] + r[i..];
    InsertedAt(r, i, k);
    forall x, y | 0 <= x < y < |s|
      ensures entries[Inserted(r, i, k, x)].used <= entries[Inserted(r, i, k, y)].used
    {
      InsertedInOrder(entries, r, i, k, x, y);
    }
  }

  lemma InsertKeepsDistinct(r: seq<string>, i: nat, k: string)
    requires Distinct(r) && i <= |r| && k !in r
    ensures Distinct(r[..i] + [k] + r[i..])
  {
    InsertedAt(r, i, k);
  }

  // ---- The cache itself ----

  class Cache {
    var entries: Entries
    var inflight: map<string, nat>
    // The pinned key set of each channel, and how many channels pin a key.
    var pins: Pins
    var pinned: map<string, nat>
    var ttl: int
    var max: int

    ghost predicate Valid()
      reads this`pins, this`pinned
    {
      Tally(pinned, pins, {})
    }

    ghost function Contents(): Shared
      reads this
    {
      Shared(entries, inflight, pins, ttl, max)
    }

    constructor (ttl: int, max: int)
      ensures Valid() && Contents() == Shared(map[], map[], map[], ttl, max)
    {
      entries, inflight, pins, pinned := map[], map[], map[], map[];
      this.ttl, this.max := ttl, max;
    }

    method PinnedKey(key: string) returns (r: bool)
      requires Valid()
      ensures r <==> IsPinned(pins, key)
    {
      PinCountPositive(pins, key);
      assert PinCount(pins, key) + 0 == PinCount(pins, key);
      r := key in pinned && pinned[key] > 0;
    }

    method ExpiredEntry(key: string, e: Entry, now: int) returns (r: bool)
      requires Valid()
      ensures r <==> Expired(pins, ttl, key, e, now)
    {
      if e.failure != "" {
        return now - e.failedAt > FAILURE_TTL;
      }
      r := PinnedKey(key);
      r := !r && ttl > 0 && now - e.used > ttl;
    }

    method DropExpired(now: int)
      requires Valid()
      modifies this`entries
      ensures entries == Unexpired(old(entries), pins, ttl, now)
    {
      var todo := entries.Keys;
      while todo != {}
        invariant todo <= entries.Keys <= old(entries).Keys
        invariant forall k :: k in old(entries) ==>
          (k in entries <==> k in todo || !Expired(pins, ttl, k, old(entries)[k], now))
        invariant forall k :: k in entries ==> entries[k] == old(entries)[k]
        decreases todo
      {
        var k :| k in todo;
        var expired := ExpiredEntry(k, entries[k], now);
        if expired {
          entries := entries - {k};
        }
        todo := todo - {k};
      }
    }

    /** pruneLocked. */
    method Prune(now: int)
      requires Valid()
      modifies this`entries
      ensures Pruned(old(entries), pins, ttl, max, now, entries)
    {
      DropExpired(now);
      if max > 0 && |entries| > max {
        EvictExcess();
      } else {
        NothingEvicted(entries, pins, max);
      }
    }

    method CollectEvictable() returns (evictable: seq<string>)
      requires Valid()
      ensures Distinct(evictable) && forall k :: k in evictable <==> k in Evictable(entries, pins)
    {
      evictable := [];
      var todo := entries.Keys;
      while todo != {}
        invariant todo <= entries.Keys && Distinct(evictable)
        invariant forall k :: k in evictable ==> k !in todo
        invariant forall k :: k in entries && k !in todo ==> (k in evictable <==> k in Evictable(entries, pins))
        invariant forall k :: k in evictable ==> k in entries
        decreases todo
      {
        var k :| k in todo;
        var isPinned := PinnedKey(k);
        if !(isPinned && entries[k].failure == "") {
          evictable := evictable + [k];
        }
        todo := todo - {k};
      }
    }

    method RemoveFirst(keys: seq<string>, n: nat)
      requires n <= |keys|
      modifies this`entries
      ensures entries == old(entries) - Front(keys, n)
    {
      for i := 0 to n
        invariant entries == old(entries) - Front(keys, i)
      {
        FrontMore(keys, i);
        RemoveMore(old(entries), Front(keys, i), keys[i]);
        entries := entries - {keys[i]};
      }
    }

    // Over the bound, the least recently used evictable entries go.
    method EvictExcess()
      requires Valid() && 0 < max < |entries|
      modifies this`entries
      ensures Evicted(old(entries), pins, max, entries)
    {
      var evictable := CollectEvictable();
      var sorted := SortByUse(entries, evictable);
      var n := Min(|entries| - max, |sorted|);
      RemoveFirst(sorted, n);
      EvictedFirst(old(entries), Evictable(old(entries), pins), max, sorted, n, entries);
    }

    /** Updates the limits and prunes. */
    method SetLimits(ttl: int, max: int, now: int)
      requires Valid()
      modifies this`entries, this`ttl, this`max
      ensures this.ttl == ttl && this.max == max && Pruned(old(entries), pins, ttl, max, now, entries)
    {
      this.ttl, this.max := ttl, max;
      Prune(now);
    }

    method Uncount(k: string, ghost base: Pins, ghost extra: set<string>)
      requires Tally(pinned, base, extra) && k in extra
      modifies this`pinned
      ensures Tally(pinned, base, extra - {k})
    {
      TallyDrop(pinned, base, extra, k);
      pinned := if pinned[k] - 1 <= 0 then pinned - {k} else pinned[k := pinned[k] - 1];
    }

    method Touch(k: string, now: int, ghost all: Entries, ghost done: set<string>)
      requires entries == Touched(all, done, now)
      modifies this`entries
      ensures entries == Touched(all, done + {k}, now)
    {
      TouchMore(all, done, k, now);
      if k in entries {
        entries := entries[k := entries[k].(used := now)];
      }
    }

    method UnpinKeys(mine: set<string>, now: int, ghost base: Pins)
      requires Tally(pinned, base, mine)
      modifies this`entries, this`pinned
      ensures Tally(pinned, base, {}) && entries == Touched(old(entries), mine, now)
    {
      var todo := mine;
      ghost var done: set<string> := {};
      while todo != {}
        invariant todo + done == mine
        invariant Tally(pinned, base, todo)
        invariant entries == Touched(old(entries), done, now)
        decreases todo
      {
        var k :| k in todo;
        Uncount(k, base, todo);
        Touch(k, now, old(entries), done);
        todo, done := todo - {k}, done + {k};
      }
    }

    // Takes away the channel's pins; their entries count as used now.
    method Unpin(channel: string, now: int)
      requires Valid()
      modifies this`entries, this`pins, this`pinned
      ensures Valid() && pins == old(pins) - {channel}
      ensures entries == Touched(old(entries), PinsOf(old(pins), channel), now)
    {
      TallyApart(pinned, pins, channel);
      UnpinKeys(PinsOf(pins, channel), now, pins - {channel});
      pins := pins - {channel};
    }

    method Repin(channel: string, keys: seq<string>, now: int)
      requires Valid()
      modifies this`entries, this`pins, this`pinned
      ensures Valid() && pins == Repinned(old(pins), channel, keys)
      ensures entries == Touched(old(entries), PinsOf(old(pins), channel), now)
    {
      Unpin(channel, now);
      if |keys| > 0 {
        PinKeys(channel, keys);
        assert pins == old(pins)[channel := KeySet(keys)];
      }
    }

    /**
     Replaces the keys a channel pins. The count of every key stays the number of channels
     pinning it, and keys that leave go back to the idle TTL from now on.
     */
    method Pin(channel: string, keys: seq<string>, now: int)
      requires Valid()
      modifies this`entries, this`pins, this`pinned
      ensures Valid() && pins == Repinned(old(pins), channel, keys)
      ensures forall k :: IsPinned(pins, k) <==>
        (k in keys && k != "") || exists c :: c in old(pins) && c != channel && k in old(pins)[c]
      ensures Pruned(Touched(old(entries), PinsOf(old(pins), channel), now), pins, ttl, max, now, entries)
    {
      Repin(channel, keys, now);
      RepinnedPins(old(pins), channel, keys);
      Prune(now);
    }

    // Gives the channel, which pins nothing, its new keys.
    method PinKeys(channel: string, keys: seq<string>)
      requires Valid() && channel !in pins
      modifies this`pins, this`pinned
      ensures Valid() && pins == old(pins)[channel := KeySet(keys)]
    {
      ghost var base := pins;
      var keySet: set<string> := {};
      for i := 0 to |keys|
        invariant keySet == KeySet(keys[..i]) && Tally(pinned, base, keySet) && pins == base
      {
        var k := keys[i];
        assert KeySet(keys[..i + 1]) == KeySet(keys[..i]) + if k != "" then {k} else {} by {
          assert keys[..i + 1] == keys[..i] + [k];
        }
        if k != "" && k !in keySet {
          TallyAdd(pinned, base, keySet, k);
          pinned := pinned[k := (if k in pinned then pinned[k] else 0) + 1];
          keySet := keySet + {k};
        }
      }
      assert keys[..|keys|] == keys;
      pins := pins[channel := keySet];
      assert pins - {channel} == base;
      TallyApart(pinned, pins, channel);
    }

    // The live entry of a key, dropped when it expired.
    method LookupLive(key: string, now: int) returns (e: Option<Entry>)
      requires Valid()
      modifies this`entries
      ensures entries == Lookup(old(entries), pins, ttl, key, now)
      ensures e == if key in entries then Some(entries[key]) else None
    {
      if key !in entries {
        return None;
      }
      var expired := ExpiredEntry(key, entries[key], now);
      if expired {
        entries := entries - {key};
        return None;
      }
      return Some(entries[key]);
    }

    /** A cached result, never a cached failure; reading refreshes it. */
    method Get(key: string, now: int) returns (r: Option<string>)
      requires Valid()
      modifies this`entries
      ensures var live := Lookup(old(entries), pins, ttl, key, now);
        if IsResult(live, key) then r == Some(live[key].value) && entries == live[key := live[key].(used := now)]
        else r == None && entries == live
      ensures r.Some? <==>
        (key in old(entries) && old(entries)[key].failure == ""
         && (IsPinned(pins, key) || ttl <= 0 || now - old(entries)[key].used <= ttl))
      ensures r.Some? ==> r.value == old(entries)[key].value
    {
      var e := LookupLive(key, now);
      if e.None? || e.value.failure != "" {
        return None;
      }
      entries := entries[key := e.value.(used := now)];
      return Some(e.value.value);
    }

    /** Do's first lock section, for the caller numbered `caller`. */
    method DoEnter(caller: nat, key: string, now: int) returns (r: Entered)
      requires Valid()
      modifies this`entries, this`inflight
      ensures r == EnterResult(old(Contents()), key, now)
      ensures Contents() == EnterShared(old(Contents()), caller, key, now)
    {
      var e := LookupLive(key, now);
      if e.Some? {
        if e.value.failure != "" {
          return CachedFailure(e.value.failure);
        }
        entries := entries[key := e.value.(used := now)];
        return Hit(e.value.value);
      }
      if key in inflight {
        return Join(inflight[key]);
      }
      inflight := inflight[key := caller];
      return Own;
    }

    /** Set and setFailure, called by the owner with what its computation gave. */
    method DoStore(key: string, computed: Computed, now: int)
      requires Valid()
      modifies this`entries
      ensures Stored(old(entries), pins, ttl, max, key, computed, now, entries)
    {
      match computed
      case Value(v) =>
        if !IsBlank(v) {
          entries := entries[key := Entry(v, "", 0, now)];
          Prune(now);
        }
      case Permanent(msg) =>
        entries := entries[key := Entry("", msg, now, now)];
        Prune(now);
      case Transient(_) =>
    }

    /** Do's last lock section: the computation is no longer in flight. */
    method DoClose(key: string)
      modifies this`inflight
      ensures inflight == old(inflight) - {key}
    {
      inflight := inflight - {key};
    }

    method HasAnyPrefix(key: string, prefixes: seq<string>) returns (r: bool)
      ensures r <==> HasPrefix(key, prefixes)
    {
      for i := 0 to |prefixes|
        invariant !HasPrefix(key, prefixes[..i])
      {
        assert prefixes[..i + 1] == prefixes[..i] + [prefixes[i]];
        assert prefixes[i] in prefixes;
        if prefixes[i] != "" && prefixes[i] <= key {
          return true;
        }
      }
      assert prefixes[..|prefixes|] == prefixes;
      return false;
    }

    /** Drops exactly the entries whose key has one of the prefixes, and counts them. Pins stay. */
    method DeletePrefix(prefixes: seq<string>) returns (n: nat)
      modifies this`entries
      ensures entries == map k | k in old(entries) && !HasPrefix(k, prefixes) :: old(entries)[k]
      ensures forall k :: k in old(entries) ==>
        (k !in entries <==> exists p :: p in prefixes && p != "" && p <= k)
      ensures n == |old(entries)| - |entries|
    {
      n := 0;
      var todo := entries.Keys;
      while todo != {}
        invariant todo <= entries.Keys <= old(entries).Keys
        invariant forall k :: k in old(entries) ==> (k in entries <==> k in todo || !HasPrefix(k, prefixes))
        invariant forall k :: k in entries ==> entries[k] == old(entries)[k]
        invariant n == |old(entries)| - |entries|
        decreases todo
      {
        var k :| k in todo;
        var drop := HasAnyPrefix(k, prefixes);
        if drop {
          assert (entries - {k}).Keys == entries.Keys - {k};
          entries, n := entries - {k}, n + 1;
        }
        todo := todo - {k};
      }
    }
  }

  lemma RemoveMore(m: Entries, ks: set<string>, k: string)
    ensures m - ks - {k} == m - (ks + {k})
  {
  }

  lemma FirstUsedEarlier(kept: Entries, sorted: seq<string>, n: nat, e: string, k: string)
    requires SortedByUse(kept, sorted) && n <= |sorted| && e in Front(sorted, n) && k in sorted
    requires k !in Front(sorted, n)
    ensures kept[e].used <= kept[k].used
  {
    var x :| 0 <= x < n && sorted[x] == e;
    var y :| 0 <= y < |sorted| && sorted[y] == k;
  }

  lemma NothingEvicted(kept: Entries, pins: Pins, max: int)
    requires Excess(kept, max) == 0
    ensures Evicted(kept, pins, max, kept)
  {
    assert kept.Keys - kept.Keys == {};
  }

  lemma FrontSizes(sorted: seq<string>, able: set<string>, n: nat)
    requires Distinct(sorted) && n <= |sorted| && forall k :: k in sorted <==> k in able
    ensures |Front(sorted, n)| == n && |able| == |sorted| && Front(sorted, n) <= able
  {
    FrontSize(sorted, n);
    FrontSize(sorted, |sorted|);
    FrontIsAll(sorted, able);
  }

  lemma RemovedAre(kept: Entries, gone: set<string>)
    requires gone <= kept.Keys
    ensures kept.Keys - (kept - gone).Keys == gone
  {
  }

  lemma FrontUsedEarlier(kept: Entries, sorted: seq<string>, n: nat)
    requires SortedByUse(kept, sorted) && n <= |sorted|
    ensures forall e, k :: e in Front(sorted, n) && k in sorted && k !in Front(sorted, n) ==>
      kept[e].used <= kept[k].used
  {
    forall e, k | e in Front(sorted, n) && k in sorted && k !in Front(sorted, n)
      ensures kept[e].used <= kept[k].used
    {
      FirstUsedEarlier(kept, sorted, n, e, k);
    }
  }

  // Removing the first keys of the sorted evictable ones is the eviction promised.
  lemma EvictedFirst(kept: Entries, able: set<string>, max: int, sorted: seq<string>, n: nat, after: Entries)
    requires 0 < max < |kept| && n == Min(|kept| - max, |sorted|) && able <= kept.Keys
    requires SortedByUse(kept, sorted) && Distinct(sorted) && forall k :: k in sorted <==> k in able
    requires after == kept - Front(sorted, n)
    ensures EvictedFrom(kept, able, max, after)
  {
    var gone := Front(sorted, n);
    FrontSizes(sorted, able, n);
    RemovedAre(kept, gone);
    FrontUsedEarlier(kept, sorted, n);
    assert forall e :: e in kept && e !in after ==> e in gone;
  }
}
