/**
 The start-up migration of the legacy collection as a step system over whole histories of the
 installation: starts, crashes between any two writes, failed starts, restarts, and user
 writes while the service is up. One service runs at a time and the legacy collection is
 never changed.
 */
module Migration {
  import opened Wrappers
  import opened PointStore

  // A source record and where it came from.
  datatype Entry = Entry(payload: string, fromLegacy: bool)

  // The `legacy_migration` metadata key of the source collection.
  datatype Marker = NoMarker | InProgress | Done

  datatype Plan = Nothing | StartCopy | ResumeCopy | SkipForeignData

  // What a service process does next.
  datatype Process =
    | Down
    | Planning
    | Marking
    | Copying(offset: Option<Id>)
    | Completing
    | Repairing
    | Serving

  /**
   `deleted` is history: the records deleted once the migration was done, and not stored by a
   user again. `copied` holds the legacy records written by a copy so far.
   */
  datatype State = State(
    source: map<Id, Entry>, marker: Marker, process: Process, copied: set<Id>, deleted: set<Id>)

  // Records read per page.
  const BATCH_SIZE: nat := 128

  // The unchanging surroundings: the legacy collection, if there is one.
  type Legacy = Option<map<Id, string>>

  datatype Action =
    | Start
    | Crash
    | ReadPlan
    | PlanFails
    | WriteInProgress(ok: bool, applied: bool)
    | CopyPage(page: seq<Id>, next: Option<Id>, outcome: Outcome, written: set<Id>)
    | ScrollFails
    | WriteDone(ok: bool, applied: bool)
    | RepairDelete(id: Id)
    | RepairEnds
    | UserStore(id: Id, payload: string)
    | UserDelete(ids: set<Id>)

  /** planLegacyMigration. */
  function PlanLegacyMigration(legacyExists: bool, legacyCount: nat, sourceCount: nat, marker: Marker): Plan {
    if !legacyExists then Nothing
    else match marker {
      case Done => Nothing
      case InProgress => ResumeCopy
      case NoMarker =>
        if legacyCount == 0 then Nothing
        else if sourceCount == 0 then StartCopy
        else SkipForeignData
    }
  }

  function Copies(records: map<Id, string>, ids: set<Id>): map<Id, Entry> {
    map id | id in records && id in ids :: Entry(records[id], true)
  }

  predicate Enabled(legacy: Legacy, s: State, a: Action) {
    match a
    case Start => s.process.Down?
    case Crash => true
    case ReadPlan => s.process.Planning?
    case PlanFails => s.process.Planning?
    case WriteInProgress(ok, applied) => s.process.Marking? && (ok ==> applied)
    case CopyPage(page, next, outcome, written) =>
      && s.process.Copying? && legacy.Some? && IsPage(legacy.value.Keys, s.process.offset, BATCH_SIZE, page, next)
      && (forall id :: id in written ==> id in page)
      && (outcome.Success? ==> forall id :: id in page ==> id in written)
    case ScrollFails => s.process.Copying?
    case WriteDone(ok, applied) => s.process.Completing? && (ok ==> applied)
    case RepairDelete(id) => s.process.Repairing?
    case RepairEnds => s.process.Repairing?
    case UserStore(id, payload) => s.process.Serving?
    case UserDelete(ids) => s.process.Serving?
  }

  function Remove(s: State, ids: set<Id>): State {
    s.(source := s.source - ids, deleted := if s.marker.Done? then s.deleted + ids else s.deleted)
  }

  function Apply(legacy: Legacy, s: State, a: Action): State
    requires Enabled(legacy, s, a)
  {
    match a
    case Start => s.(process := Planning)
    case Crash => s.(process := Down)
    case ReadPlan =>
      var count := if legacy.Some? then |legacy.value| else 0;
      (match PlanLegacyMigration(legacy.Some?, count, |s.source|, s.marker)
       case Nothing => s.(process := Repairing)
       case SkipForeignData => s.(process := Repairing)
       case _ => s.(process := Marking))
    case PlanFails => s.(process := Down)
    case WriteInProgress(ok, applied) =>
      s.(marker := if applied then InProgress else s.marker, process := if ok then Copying(None) else Down)
    case CopyPage(page, next, outcome, written) =>
      var t := s.(source := s.source + Copies(legacy.value, written), copied := s.copied + written);
      if outcome.Retry? then t
      else if outcome.GiveUp? then t.(process := Down)
      else if next.None? || page == [] then t.(process := Completing)
      else t.(process := Copying(next))
    case ScrollFails => s.(process := Down)
    case WriteDone(ok, applied) =>
      s.(marker := if applied then Done else s.marker, process := if ok then Repairing else Down)
    case RepairDelete(id) => Remove(s, {id})
    case RepairEnds => s.(process := Serving)
    case UserStore(id, payload) =>
      s.(source := s.source[id := Entry(payload, false)], deleted := s.deleted - {id})
    case UserDelete(ids) => Remove(s, ids)
  }

  /** A write of the marker that is not applied leaves it, and only an unsuccessful one may not be. */
  lemma UnappliedKeepsMarker(legacy: Legacy, s: State, a: Action)
    requires Enabled(legacy, s, a) && (a.WriteInProgress? || a.WriteDone?) && !a.applied
    ensures Apply(legacy, s, a).marker == s.marker && Apply(legacy, s, a).process.Down?
  {
  }

  /** A fresh installation, or one whose source tier already holds data of another origin. */
  predicate Init(s: State) {
    && s.marker.NoMarker? && s.process.Down? && s.copied == {} && s.deleted == {}
    && forall id :: id in s.source ==> !s.source[id].fromLegacy
  }

  predicate IsStep(legacy: Legacy, run: seq<State>, acts: seq<Action>, i: nat)
    requires i < |acts| < |run|
  {
    Enabled(legacy, run[i], acts[i]) && run[i + 1] == Apply(legacy, run[i], acts[i])
  }

  ghost predicate IsRun(legacy: Legacy, run: seq<State>, acts: seq<Action>) {
    && |run| == |acts| + 1 && Init(run[0])
    && forall i :: 0 <= i < |acts| ==> IsStep(legacy, run, acts, i)
  }

  // ---- The invariant ----

  predicate OnlyLegacyCopies(legacy: Legacy, s: State) {
    legacy.Some? && forall id :: id in s.source ==> id in legacy.value && s.source[id] == Entry(legacy.value[id], true)
  }

  predicate CopiedBelow(legacy: Legacy, s: State, offset: Option<Id>) {
    legacy.Some? && forall id :: id in legacy.value && !From(id, offset) ==> id in s.copied
  }

  predicate AllCopied(legacy: Legacy, s: State) {
    legacy.Some? && legacy.value.Keys <= s.copied
  }

  ghost predicate Inv(legacy: Legacy, s: State) {
    && (s.marker.NoMarker? ==>
          s.copied == {} && s.deleted == {} && forall id :: id in s.source ==> !s.source[id].fromLegacy)
    && (s.marker.InProgress? ==> OnlyLegacyCopies(legacy, s) && s.copied == s.source.Keys && s.deleted == {})
    && (s.marker.Done? ==> AllCopied(legacy, s))
    && s.deleted !! s.source.Keys
    && match s.process {
      case Marking => legacy.Some? && (s.marker.InProgress? || (s.marker.NoMarker? && s.source == map[]))
      case Copying(offset) => s.marker.InProgress? && (offset.Some? ==> CopiedBelow(legacy, s, offset))
      case Completing => s.marker.InProgress? && AllCopied(legacy, s)
      case Repairing => !s.marker.InProgress?
      case Serving => !s.marker.InProgress?
      case _ => true
    }
  }

  lemma CopyKeepsInv(legacy: Legacy, s: State, a: Action)
    requires Inv(legacy, s) && Enabled(legacy, s, a) && a.CopyPage?
    ensures Inv(legacy, Apply(legacy, s, a))
  {
    var t := Apply(legacy, s, a);
    assert t.copied == t.source.Keys;
    forall id | id in legacy.value && Before(id, a.next) && a.outcome.Success?
      ensures id in t.copied
    {
      if From(id, s.process.offset) {
        assert id in a.page;
      }
    }
  }

  lemma StepKeepsInv(legacy: Legacy, s: State, a: Action)
    requires Inv(legacy, s) && Enabled(legacy, s, a)
    ensures Inv(legacy, Apply(legacy, s, a))
  {
    if a.CopyPage? {
      CopyKeepsInv(legacy, s, a);
    }
  }

  // ---- Theorems about whole histories ----

  lemma {:induction false} RunKeepsInv(legacy: Legacy, run: seq<State>, acts: seq<Action>, i: nat)
    requires IsRun(legacy, run, acts) && i < |run|
    ensures Inv(legacy, run[i])
  {
    if i > 0 {
      RunKeepsInv(legacy, run, acts, i - 1);
      assert IsStep(legacy, run, acts, i - 1);
      StepKeepsInv(legacy, run[i - 1], acts[i - 1]);
    }
  }

  /**
   Crash safety of the migration. At every moment of every history: the service serves only
   when no copy is half done; while one is, the source tier holds nothing but legacy copies;
   a finished migration has copied every legacy record; and records of any other origin share
   the source tier with legacy copies only after the migration was finished.
   */
  lemma MigrationIsCrashSafe(legacy: Legacy, run: seq<State>, acts: seq<Action>, i: nat)
    requires IsRun(legacy, run, acts) && i < |run|
    ensures run[i].process.Serving? ==> !run[i].marker.InProgress?
    ensures run[i].marker.InProgress? ==> OnlyLegacyCopies(legacy, run[i])
    ensures run[i].marker.Done? ==> AllCopied(legacy, run[i])
    ensures !run[i].marker.Done? ==>
      forall x, y :: x in run[i].source && y in run[i].source ==>
        run[i].source[x].fromLegacy == run[i].source[y].fromLegacy
  {
    RunKeepsInv(legacy, run, acts, i);
  }

  /** `copied` is what it says: each of its records was written by a copy at some point. */
  lemma {:induction false} CopiedWasWritten(legacy: Legacy, run: seq<State>, acts: seq<Action>, i: nat, id: Id)
    requires IsRun(legacy, run, acts) && i < |run| && id in run[i].copied
    ensures exists j :: 0 < j <= i && legacy.Some? && id in legacy.value && id in run[j].source
                          && run[j].source[id] == Entry(legacy.value[id], true)
  {
    assert IsStep(legacy, run, acts, i - 1);
    if id in run[i - 1].copied {
      CopiedWasWritten(legacy, run, acts, i - 1, id);
    }
  }

  predicate Stores(a: Action, id: Id) {
    a.UserStore? && a.id == id
  }

  // Once the migration is done, only users bring records into the source tier.
  lemma DoneStep(legacy: Legacy, s: State, a: Action)
    requires Inv(legacy, s) && Enabled(legacy, s, a) && s.marker.Done?
    ensures Apply(legacy, s, a).marker.Done?
    ensures forall id :: id in Apply(legacy, s, a).source ==> id in s.source || Stores(a, id)
  {
  }

  /** A finished migration stays finished. */
  lemma {:induction false} DoneStays(legacy: Legacy, run: seq<State>, acts: seq<Action>, from: nat, to: nat)
    requires IsRun(legacy, run, acts) && from <= to < |run| && run[from].marker.Done?
    ensures run[to].marker.Done?
  {
    if from < to {
      DoneStays(legacy, run, acts, from, to - 1);
      RunKeepsInv(legacy, run, acts, to - 1);
      assert IsStep(legacy, run, acts, to - 1);
      DoneStep(legacy, run[to - 1], acts[to - 1]);
    }
  }

  /**
   No resurrection: once the migration is done, a record that is not in the source tier stays
   out, through any crashes and restarts, until a user stores it.
   */
  lemma {:induction false} DeletedStaysDeleted(legacy: Legacy, run: seq<State>, acts: seq<Action>, from: nat, to: nat,
                                               id: Id)
    requires IsRun(legacy, run, acts) && from <= to < |run|
    requires run[from].marker.Done? && id !in run[from].source
    requires forall m :: from <= m < to ==> !Stores(acts[m], id)
    ensures id !in run[to].source
  {
    if from < to {
      DeletedStaysDeleted(legacy, run, acts, from, to - 1, id);
      DoneStays(legacy, run, acts, from, to - 1);
      RunKeepsInv(legacy, run, acts, to - 1);
      assert IsStep(legacy, run, acts, to - 1);
      DoneStep(legacy, run[to - 1], acts[to - 1]);
    }
  }

  /**
   A legacy record is lost only by being deleted: once the migration is done, it is in the
   source tier unless it was deleted or a user stored over it.
   */
  lemma {:induction false} LegacyRecordsSurvive(legacy: Legacy, run: seq<State>, acts: seq<Action>, i: nat, id: Id)
    requires IsRun(legacy, run, acts) && i < |run| && run[i].marker.Done? && legacy.Some? && id in legacy.value
    requires forall m :: 0 <= m < i ==> !Stores(acts[m], id) && id !in run[m + 1].deleted
    ensures id in run[i].source && run[i].source[id] == Entry(legacy.value[id], true)
  {
    RunKeepsInv(legacy, run, acts, i);
    RunKeepsInv(legacy, run, acts, i - 1);
    assert IsStep(legacy, run, acts, i - 1);
    if run[i - 1].marker.Done? {
      LegacyRecordsSurvive(legacy, run, acts, i - 1, id);
    }
  }

  // ---- The program ----

  /** decideVectorReuse: whether legacy vectors come from the current embedding model. */
  method DecideVectorReuse(legacyDim: int, currentDim: int, probeSims: seq<real>) returns (reuse: bool)
    ensures reuse <==>
      legacyDim > 0 && legacyDim == currentDim && forall i :: 0 <= i < |probeSims| ==> probeSims[i] >= 0.95
  {
    if legacyDim <= 0 || legacyDim != currentDim {
      return false;
    }
    for i := 0 to |probeSims|
      invariant forall j :: 0 <= j < i ==> probeSims[j] >= 0.95
    {
      if probeSims[i] < 0.95 {
        return false;
      }
    }
    return true;
  }

  /**
   A copy is due: one was interrupted, or there are legacy records and the source tier is empty
   and unmarked.
   */
  predicate CopyDue(legacy: Legacy, s: State) {
    legacy.Some? && (s.marker.InProgress? || (s.marker.NoMarker? && legacy.value != map[] && s.source == map[]))
  }

  /** Every legacy record is in the source tier, but perhaps for some that repair deleted. */
  predicate HasLegacyBut(legacy: Legacy, s: State, damaged: seq<Id>) {
    legacy.Some? && forall id :: id in legacy.value && id !in damaged ==>
      id in s.source && s.source[id] == Entry(legacy.value[id], true)
  }

  /** The source tier is as it was, but perhaps for some records that repair deleted. */
  predicate SameSourceBut(before: State, after: State, damaged: seq<Id>) {
    && (forall id :: id in after.source ==> id in before.source && after.source[id] == before.source[id])
    && (forall id :: id in before.source && id !in damaged ==> id in after.source)
  }

  // While a copy is in progress the source holds what has been copied, so at its end everything.
  lemma CopyEnds(legacy: Legacy, s: State)
    requires Inv(legacy, s) && s.process.Completing?
    ensures HasLegacyBut(legacy, s, [])
  {
  }

  /** The start-up of the service over the store, with faults and crashes at any point. */
  class Service {
    const legacy: Legacy
    const maxRetries: nat
    var s: State
    ghost var run: seq<State>
    ghost var acts: seq<Action>

    ghost predicate Valid()
      reads this
    {
      IsRun(legacy, run, acts) && run[|acts|] == s
    }

    twostate predicate Grows()
      reads this
    {
      Valid() && old(run) <= run && old(acts) <= acts
    }

    constructor (legacy: Legacy, maxRetries: nat, s: State)
      requires Init(s)
      ensures Valid() && this.legacy == legacy && this.s == s
    {
      this.legacy, this.maxRetries, this.s := legacy, maxRetries, s;
      run, acts := [s], [];
    }

    method Do(a: Action)
      requires Valid() && Enabled(legacy, s, a)
      modifies this`s, this`run, this`acts
      ensures Grows() && s == Apply(legacy, old(s), a) && acts == old(acts) + [a]
    {
      ghost var before, sofar := run, acts;
      s := Apply(legacy, s, a);
      run, acts := run + [s], acts + [a];
      forall i | 0 <= i < |acts|
        ensures IsStep(legacy, run, acts, i)
      {
        assert i < |sofar| ==> IsStep(legacy, before, sofar, i);
      }
    }

    // Copies one page into the source tier, retrying as long as the error allows.
    method CopyOnePage(page: seq<Id>, next: Option<Id>) returns (ok: bool)
      requires Valid() && s.process.Copying? && legacy.Some?
      requires IsPage(legacy.value.Keys, s.process.offset, BATCH_SIZE, page, next)
      modifies this
      ensures Grows()
      ensures if !ok then s.process.Down?
              else s.process == if next.None? || page == [] then Completing else Copying(next)
    {
      var attempt := 0;
      while true
        invariant Grows() && s.process == old(s.process) && attempt <= maxRetries
        decreases maxRetries - attempt
      {
        var outcome: Outcome := *;
        var written: set<Id> := *;
        if outcome.Retry? && attempt == maxRetries {
          outcome := GiveUp;
        }
        var all := set id | id in page;
        Do(CopyPage(page, next, outcome, if outcome.Success? then all else written * all));
        if !outcome.Retry? {
          return outcome != GiveUp;
        }
        attempt := attempt + 1;
      }
    }

    // Copies page after page.
    method CopyPages() returns (ok: bool)
      requires Valid() && s.process.Copying? && legacy.Some?
      modifies this
      ensures Grows() && if ok then s.process.Completing? else s.process.Down?
    {
      while s.process.Copying?
        invariant Grows() && (s.process.Copying? || s.process.Completing?)
        decreases if s.process.Copying? then 1 + |set id | id in legacy.value.Keys && From(id, s.process.offset)| else 0
      {
        var offset := s.process.offset;
        var stops: bool := *;
        if stops {
          Do(ScrollFails);
          return false;
        }
        var page, next := Scroll(legacy.value.Keys, offset, BATCH_SIZE);
        if next.Some? {
          PagesRunOut(legacy.value.Keys, offset, BATCH_SIZE, page, next);
        }
        ok := CopyOnePage(page, next);
        if !ok {
          return;
        }
      }
      return true;
    }

    // The copy: mark it, copy all pages, mark it done.
    method CopyLegacy() returns (ok: bool)
      requires Valid() && s.process.Marking?
      modifies this
      ensures Grows()
      ensures if ok then s.process.Repairing? && s.marker.Done? && HasLegacyBut(legacy, s, []) else s.process.Down?
    {
      RunKeepsInv(legacy, run, acts, |acts|);
      ok := *;
      var applied: bool := *;
      Do(WriteInProgress(ok, ok || applied));
      if !ok {
        return;
      }
      ok := CopyPages();
      if !ok {
        return;
      }
      RunKeepsInv(legacy, run, acts, |acts|);
      CopyEnds(legacy, s);
      ok, applied := *, *;
      Do(WriteDone(ok, ok || applied));
    }

    /**
     MigrateLegacy: nil error exactly when the service may go on to repair and serve. Then a copy
     that was due is finished, with every legacy record in the source tier; if none was due (no
     legacy collection or an empty one, a finished copy, or foreign data) nothing is touched.
     */
    method MigrateLegacy() returns (ok: bool)
      requires Valid() && s.process.Planning?
      modifies this
      ensures Grows()
      ensures if ok then s.process.Repairing? && !s.marker.InProgress? else s.process.Down?
      ensures ok && old(CopyDue(legacy, s)) ==> s.marker.Done? && HasLegacyBut(legacy, s, [])
      ensures !old(CopyDue(legacy, s)) ==> s.marker == old(s).marker && s.source == old(s).source
    {
      var inspectFails: bool := *;
      if inspectFails {
        Do(PlanFails);
        return false;
      }
      Do(ReadPlan);
      RunKeepsInv(legacy, run, acts, |acts|);
      if s.process.Repairing? {
        return true;
      }
      ok := CopyLegacy();
    }

    /**
     NewService: migrate, then delete the damaged records a best-effort scan found, then
     serve. A crash may end it anywhere; whatever happens is a history of the step system.
     */
    method NewService(damaged: seq<Id>) returns (ok: bool)
      requires Valid() && s.process.Down?
      modifies this
      ensures Grows() && if ok then s.process.Serving? && !s.marker.InProgress? else s.process.Down?
      ensures ok && old(CopyDue(legacy, s)) ==> s.marker.Done? && HasLegacyBut(legacy, s, damaged)
      ensures !old(CopyDue(legacy, s)) ==> s.marker == old(s).marker && SameSourceBut(old(s), s, damaged)
    {
      Do(Start);
      ok := MigrateLegacy();
      if !ok {
        return;
      }
      var i := 0;
      while i < |damaged|
        invariant Grows() && s.process.Repairing?
        invariant old(CopyDue(legacy, s)) ==> s.marker.Done? && HasLegacyBut(legacy, s, damaged)
        invariant !old(CopyDue(legacy, s)) ==> s.marker == old(s).marker && SameSourceBut(old(s), s, damaged)
      {
        var deleted: bool := *;
        if deleted {
          Do(RepairDelete(damaged[i]));
        }
        i := i + 1;
      }
      Do(RepairEnds);
      RunKeepsInv(legacy, run, acts, |acts|);
    }
  }
}
