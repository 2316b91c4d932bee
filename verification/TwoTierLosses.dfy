/**
 The two ways in which a sync's work can be undone behind it. The vector half of a whole-user
 delete evaluates the user filter anew, so it also erases the vectors of records stored between
 its two halves. And an ID can be stored again after its delete (deduplication stores a new text
 under the ID of the record it found, which may have been deleted meanwhile); a search that
 found the ID without a record before then erases the new vector as an orphan.
 */
module TwoTierLosses {
  import opened Wrappers
  import opened PointStore
  import opened TwoTier

  // ---- Records of one user ----

  predicate OpOwnedBy(o: Op, id: Id, user: nat) {
    match o
    case WritingSource(i, payload, _) => i == id ==> payload.user == user
    case WritingVector(i, point) => i == id ==> point.user == user
    case _ => true
  }

  predicate PageOwnedBy(page: seq<Record>, id: Id, user: nat) {
    forall r :: r in page && r.id == id ==> r.payload.user == user
  }

  /** Wherever the record is, it carries this user. */
  predicate OwnedBy(s: State, id: Id, user: nat) {
    && (id in s.source ==> s.source[id].user == user)
    && (id in s.vec ==> s.vec[id].user == user)
    && (forall op :: op in s.ops ==> OpOwnedBy(s.ops[op], id, user))
    && match s.sync {
      case Checking(page, _) => PageOwnedBy(page, id, user)
      case Embedding(missing, _) => PageOwnedBy(missing, id, user)
      case Writing(points, _) => id in points ==> points[id].user == user
      case _ => true
    }
  }

  /** The record is the user's at the start and whenever it is stored. */
  ghost predicate BelongsTo(run: seq<State>, acts: seq<Action>, to: nat, id: Id, user: nat)
    requires |run| == |acts| + 1 && to < |run|
  {
    OwnedBy(run[0], id, user)
    && forall m :: 0 <= m < to && acts[m].BeginUpsert? && acts[m].id == id ==> acts[m].payload.user == user
  }

  lemma CheckKeepsOwner(dim: nat, s: State, a: Action, id: Id, user: nat)
    requires Enabled(dim, s, a) && OwnedBy(s, id, user) && (a.SyncScroll? || a.SyncCheck?)
    ensures OwnedBy(Apply(dim, s, a), id, user)
  {
  }

  lemma EmbedKeepsOwner(dim: nat, s: State, a: Action, id: Id, user: nat)
    requires Enabled(dim, s, a) && OwnedBy(s, id, user) && a.SyncEmbed?
    ensures OwnedBy(Apply(dim, s, a), id, user)
  {
  }

  lemma SyncKeepsOwner(dim: nat, s: State, a: Action, id: Id, user: nat)
    requires Enabled(dim, s, a) && OwnedBy(s, id, user) && BySync(a)
    ensures OwnedBy(Apply(dim, s, a), id, user)
  {
    if a.SyncScroll? || a.SyncCheck? {
      CheckKeepsOwner(dim, s, a, id, user);
    } else if a.SyncEmbed? {
      EmbedKeepsOwner(dim, s, a, id, user);
    }
  }

  lemma OpKeepsOwner(dim: nat, s: State, a: Action, op: nat, id: Id, user: nat)
    requires Enabled(dim, s, a) && OwnedBy(s, id, user) && !BySync(a)
    requires a.BeginUpsert? && a.id == id ==> a.payload.user == user
    requires op in Apply(dim, s, a).ops
    ensures OpOwnedBy(Apply(dim, s, a).ops[op], id, user)
  {
    assert op in s.ops ==> OpOwnedBy(s.ops[op], id, user);
  }

  lemma StoresKeepOwner(dim: nat, s: State, a: Action, id: Id, user: nat)
    requires Enabled(dim, s, a) && OwnedBy(s, id, user) && !BySync(a)
    ensures var t := Apply(dim, s, a);
      && t.sync == s.sync
      && (id in t.source ==> t.source[id].user == user) && (id in t.vec ==> t.vec[id].user == user)
  {
    if a.WriteSource? || a.WriteVector? {
      assert OpOwnedBy(s.ops[a.op], id, user);
    }
  }

  lemma ClientKeepsOwner(dim: nat, s: State, a: Action, id: Id, user: nat)
    requires Enabled(dim, s, a) && OwnedBy(s, id, user) && !BySync(a)
    requires a.BeginUpsert? && a.id == id ==> a.payload.user == user
    ensures OwnedBy(Apply(dim, s, a), id, user)
  {
    var t := Apply(dim, s, a);
    StoresKeepOwner(dim, s, a, id, user);
    forall op | op in t.ops
      ensures OpOwnedBy(t.ops[op], id, user)
    {
      OpKeepsOwner(dim, s, a, op, id, user);
    }
  }

  lemma StepKeepsOwner(dim: nat, s: State, a: Action, id: Id, user: nat)
    requires Enabled(dim, s, a) && OwnedBy(s, id, user)
    requires a.BeginUpsert? && a.id == id ==> a.payload.user == user
    ensures OwnedBy(Apply(dim, s, a), id, user)
  {
    if BySync(a) {
      SyncKeepsOwner(dim, s, a, id, user);
    } else {
      ClientKeepsOwner(dim, s, a, id, user);
    }
  }

  lemma {:induction false} RunKeepsOwner(dim: nat, run: seq<State>, acts: seq<Action>, to: nat, id: Id, user: nat)
    requires IsRun(dim, run, acts) && to < |run| && BelongsTo(run, acts, to, id, user)
    ensures OwnedBy(run[to], id, user)
  {
    if to > 0 {
      RunKeepsOwner(dim, run, acts, to - 1, id, user);
      assert IsStep(dim, run, acts, to - 1);
      StepKeepsOwner(dim, run[to - 1], acts[to - 1], id, user);
    }
  }

  // ---- Records that a sync finds ----

  /**
   A sync that runs from `from` and returns without an error at `to`, and a record of the user
   that is in the source tier throughout and can be embedded.
   */
  ghost predicate Synced(dim: nat, run: seq<State>, acts: seq<Action>, from: nat, to: nat, id: Id, user: nat) {
    && IsRun(dim, run, acts) && from < to < |run|
    && acts[from].SyncStart? && run[to].sync.Finished?
    && (forall m :: from < m < to ==> !acts[m].SyncStart? && !run[m].sync.Finished?)
    && (forall m :: from <= m <= to ==> id in run[m].source)
    && (forall m :: from <= m < to ==> EmbedsIfAsked(run[m], acts[m], id))
    && BelongsTo(run, acts, to, id, user)
  }

  predicate WipesOf(s: State, a: Action, users: set<nat>) {
    WipesUser(s, a) ==> s.ops[a.op].sel.user in users
  }

  /** While the sync runs, only these users are being wiped. */
  ghost predicate WipesOnly(run: seq<State>, acts: seq<Action>, from: nat, to: nat, users: set<nat>)
    requires |run| == |acts| + 1 && from < to < |run|
  {
    forall m :: from <= m < to ==> WipesOf(run[m], acts[m], users)
  }

  /** Only these IDs are ever stored again after a delete. */
  ghost predicate ReusedOnly(run: seq<State>, acts: seq<Action>, to: nat, again: set<Id>)
    requires |run| == |acts| + 1 && to < |run|
  {
    forall m, id :: 0 <= m < to && StoresAgain(run[m], acts[m], id) ==> id in again
  }

  predicate HasVector(dim: nat, s: State, id: Id) {
    id in s.vec && |s.vec[id].dense| == dim
  }

  lemma OthersRecordsAreSpared(dim: nat, s: State, a: Action, id: Id, user: nat, users: set<nat>)
    requires Enabled(dim, s, a) && OwnedBy(s, id, user) && WipesOf(s, a, users) && user !in users
    ensures SparedByWipes(s, a, id)
  {
  }

  /** With no erase pending at its start and other users wiped only, a sync leaves the vector. */
  lemma CompleteWithoutOwnWipe(dim: nat, run: seq<State>, acts: seq<Action>, from: nat, to: nat, id: Id, user: nat,
                               users: set<nat>)
    requires Synced(dim, run, acts, from, to, id, user) && WipesOnly(run, acts, from, to, users) && user !in users
    requires !ErasePending(run[from], id)
    ensures HasVector(dim, run[to], id)
  {
    forall m | from <= m < to
      ensures SparedByWipes(run[m], acts[m], id)
    {
      RunKeepsOwner(dim, run, acts, m, id, user);
      assert WipesOf(run[m], acts[m], users) && IsStep(dim, run, acts, m);
      OthersRecordsAreSpared(dim, run[m], acts[m], id, user, users);
    }
    SyncRestores(dim, run, acts, from, to, id);
  }

  /** Of a live record whose ID is not stored again after a delete, no erase is pending. */
  lemma NoErasePendingUnlessReused(dim: nat, run: seq<State>, acts: seq<Action>, i: nat, id: Id, again: set<Id>)
    requires IsRun(dim, run, acts) && i < |run| && id in run[i].source && ReusedOnly(run, acts, i, again)
    requires id !in again
    ensures !ErasePending(run[i], id)
  {
    LiveWasNeverDeleted(dim, run, acts, i, id);
    NeverDeletedIsSafe(dim, run, acts, i, id);
  }

  // ---- A record lost, for any ID, user and dimension ----

  // The record, and one of somebody else that has no text to embed.
  function Text(user: nat): Payload {
    Payload(user, "x", [], true)
  }

  function NoText(user: nat): Payload {
    Payload(user + 1, "", [], true)
  }

  function Dense(dim: nat): seq<real> {
    seq(dim, _ => 0.0)
  }

  function Point(dim: nat, user: nat): VectorPoint {
    VectorPointFor(Text(user), Dense(dim))
  }

  function Both(id: Id, user: nat): map<Id, Payload> {
    map[id := Text(user), id + 1 := NoText(user)]
  }

  function Page(id: Id, user: nat): seq<Record> {
    [Record(id, Text(user)), Record(id + 1, NoText(user))]
  }

  function Missing(id: Id, user: nat): seq<Record> {
    [Record(id + 1, NoText(user))]
  }

  // The erase that will come too late: a wipe of the user, or the sweep of an orphan.
  predicate Late(pending: Op, id: Id, user: nat) {
    pending == ErasingVector(ByUser(user)) || pending == ErasingOrphans([id], [], [id])
  }

  function LateErase(pending: Op, id: Id): Action {
    if pending.ErasingVector? then EraseVector(0, {id}) else EraseOrphans(0, {id})
  }

  // The stores once the record is in both tiers, with an erase pending and the sync here.
  function Stored(dim: nat, id: Id, user: nat, pending: Op, dead: set<Id>, sync: Sync, stable: set<Id>): State {
    State(Both(id, user), map[id := Point(dim, user)], map[0 := pending], sync, dead, stable, {})
  }

  // The record is stored in both tiers while the erase is pending.
  lemma StoreRecord(dim: nat, id: Id, user: nat, pending: Op, before: seq<State>, sofar: seq<Action>)
    returns (run: seq<State>, acts: seq<Action>)
    requires dim > 0 && IsRun(dim, before, sofar) && |sofar| == 2
    requires before[2].source == map[id + 1 := NoText(user)] && before[2].vec.Keys <= {id}
    requires before[2].ops == map[0 := pending] && before[2].sync.Idle?
    requires before[2].stable == before[2].failed == {}
    ensures IsRun(dim, run, acts) && |acts| == 5 && before <= run && sofar <= acts
    ensures acts[2..] ==
      [BeginUpsert(1, id, Text(user), Dense(dim)), WriteSource(1, Success, true), WriteVector(1, Success, true)]
    ensures before[2].dead == run[3].dead
    ensures run[5] == Stored(dim, id, user, pending, before[2].dead, Idle, {})
  {
    var s := before[2];
    run, acts := Take(dim, before, sofar, BeginUpsert(1, id, Text(user), Dense(dim)));
    UpsertBegins(dim, id, user, pending, s);
    run, acts := Take(dim, run, acts, WriteSource(1, Success, true));
    SourceWritten(dim, id, user, pending, run[3]);
    run, acts := Take(dim, run, acts, WriteVector(1, Success, true));
    VectorWritten(dim, id, user, pending, run[4]);
  }

  lemma UpsertBegins(dim: nat, id: Id, user: nat, pending: Op, s: State)
    requires s.ops == map[0 := pending] && s.stable == {}
    ensures var a := BeginUpsert(1, id, Text(user), Dense(dim));
      Enabled(dim, s, a)
      && Apply(dim, s, a) == s.(ops := map[0 := pending, 1 := WritingSource(id, Text(user), Dense(dim))])
  {
  }

  lemma SourceWritten(dim: nat, id: Id, user: nat, pending: Op, s: State)
    requires dim > 0 && s.ops == map[0 := pending, 1 := WritingSource(id, Text(user), Dense(dim))]
    requires s.source == map[id + 1 := NoText(user)] && s.stable == {}
    ensures var a := WriteSource(1, Success, true);
      Enabled(dim, s, a) && Apply(dim, s, a)
        == s.(source := Both(id, user), ops := map[0 := pending, 1 := WritingVector(id, Point(dim, user))])
  {
    assert s.source[id := Text(user)] == Both(id, user);
    assert s.ops[1 := WritingVector(id, Point(dim, user))]
        == map[0 := pending, 1 := WritingVector(id, Point(dim, user))];
  }

  lemma VectorWritten(dim: nat, id: Id, user: nat, pending: Op, s: State)
    requires s.ops == map[0 := pending, 1 := WritingVector(id, Point(dim, user))]
    requires s.vec.Keys <= {id} && s.stable == {}
    ensures var a := WriteVector(1, Success, true);
      Enabled(dim, s, a)
      && Apply(dim, s, a) == s.(vec := map[id := Point(dim, user)], ops := map[0 := pending])
  {
    assert s.ops - {1} == map[0 := pending];
    assert s.vec[id := Point(dim, user)] == map[id := Point(dim, user)];
  }

  lemma SyncStarts(dim: nat, id: Id, user: nat, pending: Op, dead: set<Id>)
    ensures var s := Stored(dim, id, user, pending, dead, Idle, {});
      Enabled(dim, s, SyncStart)
      && Apply(dim, s, SyncStart) == Stored(dim, id, user, pending, dead, Scrolling(None), {id, id + 1})
  {
  }

  lemma SyncReadsBoth(dim: nat, id: Id, user: nat, pending: Op, dead: set<Id>)
    ensures var s, a := Stored(dim, id, user, pending, dead, Scrolling(None), {id, id + 1}),
      SyncScroll(Page(id, user), None);
      Enabled(dim, s, a)
      && Apply(dim, s, a) == Stored(dim, id, user, pending, dead, Checking(Page(id, user), None), {id, id + 1})
  {
    var page, s := Page(id, user), Stored(dim, id, user, pending, dead, Scrolling(None), {id, id + 1});
    assert page[0] in page && page[1] in page;
    assert s.stable * s.source.Keys == s.stable;
  }

  lemma SyncMissesOther(dim: nat, id: Id, user: nat, pending: Op, dead: set<Id>)
    ensures var s := Stored(dim, id, user, pending, dead, Checking(Page(id, user), None), {id, id + 1});
      Apply(dim, s, SyncCheck) == Stored(dim, id, user, pending, dead, Embedding(Missing(id, user), None), {id, id + 1})
  {
    var page, s := Page(id, user), Stored(dim, id, user, pending, dead, Checking(Page(id, user), None), {id, id + 1});
    assert page[..1] == [page[0]] && page[..1][..0] == [];
    assert s.vec.Keys == {id} && Absent(page[..1], {id}) == [];
    assert page[1].id !in {id} && Absent(page, {id}) == Absent(page[..1], {id}) + [page[1]] == Missing(id, user);
    assert s.stable * s.source.Keys == s.stable;
  }

  lemma LateEraseHits(dim: nat, id: Id, user: nat, pending: Op, dead: set<Id>)
    requires Late(pending, id, user)
    ensures var s, a := Stored(dim, id, user, pending, dead, Embedding(Missing(id, user), None), {id, id + 1}),
      LateErase(pending, id);
      Enabled(dim, s, a) && Apply(dim, s, a)
        == State(Both(id, user), map[], map[], Embedding(Missing(id, user), None), dead, {id + 1}, {})
  {
    var s := Stored(dim, id, user, pending, dead, Embedding(Missing(id, user), None), {id, id + 1});
    assert Missing(id, user)[0].id == id + 1 && Ids(Missing(id, user)) == {id + 1};
    assert LostBehind(s, {id}) == {id};
    assert s.ops - {0} == map[] && Without(s.vec, {id}) == map[];
  }

  lemma EmbeddingFails(dim: nat, id: Id, user: nat, s: State)
    requires s.sync == Embedding(Missing(id, user), None)
    ensures Enabled(dim, s, SyncEmbed(map[id + 1 := Failed]))
    ensures var t := Apply(dim, s, SyncEmbed(map[id + 1 := Failed]));
      t.sync == Finished && t.source == s.source && t.vec == s.vec
  {
    var missing, results := Missing(id, user), map[id + 1 := Failed];
    assert missing[0] in missing && Ids(missing) == {id + 1};
    assert missing[..0] == [] && PointsFor(missing, results) == map[];
    assert forall r :: r in missing ==> !WrongDimension(dim, r, results[r.id]);
  }

  // The sync passes the record.
  lemma SyncPasses(dim: nat, id: Id, user: nat, pending: Op, dead: set<Id>, before: seq<State>, sofar: seq<Action>)
    returns (run: seq<State>, acts: seq<Action>)
    requires IsRun(dim, before, sofar) && |sofar| == 5
    requires before[5] == Stored(dim, id, user, pending, dead, Idle, {})
    ensures IsRun(dim, run, acts) && |acts| == 8 && before <= run && sofar <= acts
    ensures acts[5..] == [SyncStart, SyncScroll(Page(id, user), None), SyncCheck]
    ensures run[6] == Stored(dim, id, user, pending, dead, Scrolling(None), {id, id + 1})
    ensures run[7] == Stored(dim, id, user, pending, dead, Checking(Page(id, user), None), {id, id + 1})
    ensures run[8] == Stored(dim, id, user, pending, dead, Embedding(Missing(id, user), None), {id, id + 1})
  {
    SyncStarts(dim, id, user, pending, dead);
    run, acts := Take(dim, before, sofar, SyncStart);
    SyncReadsBoth(dim, id, user, pending, dead);
    run, acts := Take(dim, run, acts, SyncScroll(Page(id, user), None));
    SyncMissesOther(dim, id, user, pending, dead);
    run, acts := Take(dim, run, acts, SyncCheck);
  }

  function SyncScript(id: Id, user: nat, pending: Op): seq<Action> {
    [SyncStart, SyncScroll(Page(id, user), None), SyncCheck, LateErase(pending, id), SyncEmbed(map[id + 1 := Failed])]
  }

  // Behind it the pending erase takes the vector; then the sync returns.
  lemma SyncOvertaken(dim: nat, id: Id, user: nat, pending: Op, dead: set<Id>, before: seq<State>, sofar: seq<Action>)
    returns (run: seq<State>, acts: seq<Action>)
    requires IsRun(dim, before, sofar) && |sofar| == 5 && Late(pending, id, user)
    requires before[5] == Stored(dim, id, user, pending, dead, Idle, {})
    ensures IsRun(dim, run, acts) && |acts| == 10 && before <= run && sofar <= acts
    ensures acts[5..] == SyncScript(id, user, pending)
    ensures forall m :: 5 <= m <= 10 ==> run[m].source == Both(id, user) && run[m].dead == dead
    ensures forall m :: 5 < m < 10 ==> !run[m].sync.Finished?
    ensures run[8].ops == map[0 := pending] && run[9].sync == Embedding(Missing(id, user), None)
    ensures run[10].sync.Finished? && id !in run[10].vec
  {
    run, acts := SyncPasses(dim, id, user, pending, dead, before, sofar);
    LateEraseHits(dim, id, user, pending, dead);
    run, acts := Take(dim, run, acts, LateErase(pending, id));
    EmbeddingFails(dim, id, user, run[9]);
    run, acts := Take(dim, run, acts, SyncEmbed(map[id + 1 := Failed]));
  }

  // All acts, after the two that leave the erase pending.
  function Script(dim: nat, id: Id, user: nat, pending: Op): seq<Action> {
    [BeginUpsert(1, id, Text(user), Dense(dim)), WriteSource(1, Success, true), WriteVector(1, Success, true)]
    + SyncScript(id, user, pending)
  }

  lemma Lost(dim: nat, id: Id, user: nat, pending: Op, before: seq<State>, sofar: seq<Action>)
    returns (run: seq<State>, acts: seq<Action>)
    requires dim > 0 && IsRun(dim, before, sofar) && |sofar| == 2 && Late(pending, id, user)
    requires before[2].source == map[id + 1 := NoText(user)] && before[2].vec.Keys <= {id}
    requires before[2].ops == map[0 := pending] && before[2].sync.Idle?
    requires before[2].stable == before[2].failed == {}
    ensures IsRun(dim, run, acts) && |acts| == 10 && before <= run && sofar <= acts
    ensures acts[2..] == Script(dim, id, user, pending) && before[2].dead == run[3].dead == run[5].dead
    ensures forall m :: 5 <= m <= 10 ==> run[m].source == Both(id, user)
    ensures forall m :: 5 < m < 10 ==> !run[m].sync.Finished?
    ensures run[8].ops == map[0 := pending] && run[9].sync == Embedding(Missing(id, user), None)
    ensures run[10].sync.Finished? && id !in run[10].vec
  {
    run, acts := StoreRecord(dim, id, user, pending, before, sofar);
    ghost var stored := acts;
    run, acts := SyncOvertaken(dim, id, user, pending, before[2].dead, run, acts);
    assert acts[2..] == stored[2..] + acts[5..];
  }

  // Such a run is one of a record that the sync should have completed.
  lemma LostIsSynced(dim: nat, id: Id, user: nat, pending: Op, run: seq<State>, acts: seq<Action>)
    requires IsRun(dim, run, acts) && |acts| == 10 && acts[2..] == Script(dim, id, user, pending)
    requires OwnedBy(run[0], id, user) && !acts[0].BeginUpsert? && !acts[1].BeginUpsert?
    requires forall m :: 5 <= m <= 10 ==> run[m].source == Both(id, user)
    requires forall m :: 5 < m < 10 ==> !run[m].sync.Finished?
    requires run[9].sync == Embedding(Missing(id, user), None) && run[10].sync.Finished?
    ensures Synced(dim, run, acts, 5, 10, id, user)
  {
    forall m | 2 <= m < 10
      ensures acts[m] == acts[2..][m - 2]
    {
    }
    assert Missing(id, user)[0].id == id + 1;
  }

  lemma LostIsWiped(dim: nat, id: Id, user: nat, pending: Op, run: seq<State>, acts: seq<Action>)
    requires IsRun(dim, run, acts) && |acts| == 10 && acts[2..] == Script(dim, id, user, pending)
    requires run[8].ops == map[0 := pending] && Late(pending, id, user)
    ensures WipesOnly(run, acts, 5, 10, if pending.ErasingVector? then {user} else {})
  {
    forall m | 5 <= m < 10
      ensures acts[m] == acts[2..][m - 2] && (m != 8 ==> !WipesUser(run[m], acts[m]))
    {
    }
  }

  lemma LostIsReused(dim: nat, id: Id, user: nat, pending: Op, run: seq<State>, acts: seq<Action>)
    requires IsRun(dim, run, acts) && |acts| == 10 && acts[2..] == Script(dim, id, user, pending)
    requires !acts[0].WriteSource? && !acts[1].WriteSource?
    ensures ReusedOnly(run, acts, 10, run[3].dead)
  {
    forall m, x | 0 <= m < 10 && StoresAgain(run[m], acts[m], x)
      ensures x in run[3].dead
    {
      assert m >= 2 ==> acts[m] == acts[2..][m - 2];
      assert m == 3;
    }
  }

  // The wipe of the user has found nothing in the source tier yet.
  lemma WipeBegun(dim: nat, id: Id, user: nat) returns (run: seq<State>, acts: seq<Action>)
    ensures IsRun(dim, run, acts) && acts == [BeginDelete(0, ByUser(user)), EraseSource(0, true, {})]
    ensures run[0] == State(map[id + 1 := NoText(user)], map[], map[], Idle, {}, {}, {})
    ensures run[2] == run[0].(ops := map[0 := ErasingVector(ByUser(user))])
  {
    var s := State(map[id + 1 := NoText(user)], map[], map[], Idle, {}, {}, {});
    run, acts := [s], [];
    run, acts := Take(dim, run, acts, BeginDelete(0, ByUser(user)));
    assert run[1] == s.(ops := map[0 := ErasingSource(ByUser(user))]);
    assert Select(ByUser(user), s.source) == {};
    run, acts := Take(dim, run, acts, EraseSource(0, true, {}));
    assert Without(s.source, {}) == s.source && run[2].ops == map[0 := ErasingVector(ByUser(user))];
  }

  // A search has found the vector of a deleted record.
  lemma OrphanFound(dim: nat, id: Id, user: nat) returns (run: seq<State>, acts: seq<Action>)
    ensures IsRun(dim, run, acts) && acts == [Query(0, [id]), ReadSource(0, true)]
    ensures run[0] == State(map[id + 1 := NoText(user)], map[id := Point(dim, user)], map[], Idle, {id}, {}, {})
    ensures run[2] == run[0].(ops := map[0 := ErasingOrphans([id], [], [id])])
  {
    var s := State(map[id + 1 := NoText(user)], map[id := Point(dim, user)], map[], Idle, {id}, {}, {});
    run, acts := [s], [];
    run, acts := Take(dim, run, acts, Query(0, [id]));
    assert run[1] == s.(ops := map[0 := ReadingSource([id])]);
    SplitMore([], id, s.source);
    assert [] + [id] == [id];
    run, acts := Take(dim, run, acts, ReadSource(0, true));
    assert run[2].ops == map[0 := ErasingOrphans([id], [], [id])];
  }

  /** A wipe of the record's own user behind the sync leaves the live record without a vector. */
  lemma OwnWipeLosesALiveVector(dim: nat, id: Id, user: nat) returns (run: seq<State>, acts: seq<Action>)
    requires dim > 0
    ensures Synced(dim, run, acts, 5, 10, id, user) && WipesOnly(run, acts, 5, 10, {user})
    ensures ReusedOnly(run, acts, 10, {}) && id !in run[5].dead && !HasVector(dim, run[10], id)
  {
    var pending := ErasingVector(ByUser(user));
    run, acts := WipeBegun(dim, id, user);
    run, acts := Lost(dim, id, user, pending, run, acts);
    LostIsSynced(dim, id, user, pending, run, acts);
    LostIsWiped(dim, id, user, pending, run, acts);
    LostIsReused(dim, id, user, pending, run, acts);
  }

  /** A sweep behind the sync takes the vector of a record stored again after its delete. */
  lemma SweepLosesALiveVector(dim: nat, id: Id, user: nat) returns (run: seq<State>, acts: seq<Action>)
    requires dim > 0
    ensures Synced(dim, run, acts, 5, 10, id, user) && WipesOnly(run, acts, 5, 10, {})
    ensures ReusedOnly(run, acts, 10, {id}) && !HasVector(dim, run[10], id)
  {
    var pending := ErasingOrphans([id], [], [id]);
    run, acts := OrphanFound(dim, id, user);
    run, acts := Lost(dim, id, user, pending, run, acts);
    LostIsSynced(dim, id, user, pending, run, acts);
    LostIsWiped(dim, id, user, pending, run, acts);
    LostIsReused(dim, id, user, pending, run, acts);
  }

  // ---- The exact conditions ----

  lemma MoreWiped(run: seq<State>, acts: seq<Action>, from: nat, to: nat, some: set<nat>, users: set<nat>)
    requires |run| == |acts| + 1 && from < to < |run| && WipesOnly(run, acts, from, to, some) && some <= users
    ensures WipesOnly(run, acts, from, to, users)
  {
    assert forall m :: from <= m < to ==> WipesOf(run[m], acts[m], some);
  }

  lemma MoreReused(run: seq<State>, acts: seq<Action>, to: nat, some: set<Id>, again: set<Id>)
    requires |run| == |acts| + 1 && to < |run| && ReusedOnly(run, acts, to, some) && some <= again
    ensures ReusedOnly(run, acts, to, again)
  {
  }

  ghost predicate AllComplete(dim: nat, id: Id, user: nat, wiped: set<nat>, again: set<Id>) {
    forall run: seq<State>, acts: seq<Action>, from: nat, to: nat ::
      Synced(dim, run, acts, from, to, id, user) && WipesOnly(run, acts, from, to, wiped)
      && ReusedOnly(run, acts, to, again) ==>
        HasVector(dim, run[to], id)
  }

  /**
   The record of a user is complete after every sync of every run in which only certain users
   are wiped during the sync and only certain IDs ever stored again after a delete, exactly if
   neither its user nor its ID is among them. (The dimension is positive, as configuration
   validation requires.)
   */
  lemma CompleteExactly(dim: nat, id: Id, user: nat, wiped: set<nat>, again: set<Id>)
    requires dim > 0
    ensures AllComplete(dim, id, user, wiped, again) <==> user !in wiped && id !in again
  {
    if user in wiped {
      var run, acts := OwnWipeLosesALiveVector(dim, id, user);
      MoreWiped(run, acts, 5, 10, {user}, wiped);
      MoreReused(run, acts, 10, {}, again);
    } else if id in again {
      var run, acts := SweepLosesALiveVector(dim, id, user);
      MoreWiped(run, acts, 5, 10, {}, wiped);
      MoreReused(run, acts, 10, {id}, again);
    } else {
      forall run: seq<State>, acts: seq<Action>, from: nat, to: nat
        | Synced(dim, run, acts, from, to, id, user) && WipesOnly(run, acts, from, to, wiped)
          && ReusedOnly(run, acts, to, again)
        ensures HasVector(dim, run[to], id)
      {
        NoErasePendingUnlessReused(dim, run, acts, from, id, again);
        CompleteWithoutOwnWipe(dim, run, acts, from, to, id, user, wiped);
      }
    }
  }

  ghost predicate AllRestored(dim: nat, id: Id, user: nat, wiped: set<nat>) {
    forall run: seq<State>, acts: seq<Action>, from: nat, to: nat ::
      Synced(dim, run, acts, from, to, id, user) && WipesOnly(run, acts, from, to, wiped)
      && !ErasePending(run[from], id) ==>
        HasVector(dim, run[to], id)
  }

  /**
   However often IDs are stored again: after every sync that starts with no erase of the record
   pending and during which only certain users are wiped, it is complete exactly if its user is
   not one of them. So the next sync after a late sweep restores what was lost.
   */
  lemma RestoredExactly(dim: nat, id: Id, user: nat, wiped: set<nat>)
    requires dim > 0
    ensures AllRestored(dim, id, user, wiped) <==> user !in wiped
  {
    if user in wiped {
      var run, acts := OwnWipeLosesALiveVector(dim, id, user);
      MoreWiped(run, acts, 5, 10, {user}, wiped);
      NeverDeletedIsSafe(dim, run, acts, 5, id);
    } else {
      forall run: seq<State>, acts: seq<Action>, from: nat, to: nat
        | Synced(dim, run, acts, from, to, id, user) && WipesOnly(run, acts, from, to, wiped)
          && !ErasePending(run[from], id)
        ensures HasVector(dim, run[to], id)
      {
        CompleteWithoutOwnWipe(dim, run, acts, from, to, id, user, wiped);
      }
    }
  }
}
