/**
 The two-tier memory store as a step system: the payload-only source tier, the vector
 tier of the current embedding model, any number of client operations in flight, and one
 run of the background vector sync. Every store call is one atomic step, and every call
 that can fail may still have been applied (wholly or in part) before its error came back.
 */
module TwoTier {
  import opened Wrappers
  import opened PointStore

  // What the tier logic looks at in a source payload. One that lacks required fields is not
  // readable: a search leaves it out.
  datatype Payload = Payload(user: nat, content: string, keywords: seq<string>, readable: bool)

  // A vector-tier point: the dense embedding, the text its sparse vector is computed from,
  // and the mirrored filter field.
  datatype VectorPoint = VectorPoint(user: nat, dense: seq<real>, content: string, keywords: seq<string>)

  datatype Record = Record(id: Id, payload: Payload)

  // Records read per page by the sync.
  const SYNC_BATCH_SIZE: nat := 128

  function VectorPointFor(p: Payload, embedding: seq<real>): VectorPoint {
    VectorPoint(p.user, embedding, p.content, p.keywords)
  }

  /** The point carries the text of the record, and the field it is filtered by. */
  predicate IsOf(v: VectorPoint, p: Payload) {
    v.user == p.user && v.content == p.content && v.keywords == p.keywords
  }

  // What a delete selects: explicit IDs (deleteRecords) or one user's records
  // (DeleteUserMemories, a filter evaluated by the store in each tier).
  datatype Selector = ByIds(ids: set<Id>) | ByUser(user: nat)

  // A client operation, named after the store call it is about to make.
  datatype Op =
    | WritingSource(id: Id, payload: Payload, embedding: seq<real>)
    | WritingVector(id: Id, point: VectorPoint)
    | ErasingSource(sel: Selector)
    | ErasingVector(sel: Selector)
    | ReadingSource(hits: seq<Id>)
    | ErasingOrphans(hits: seq<Id>, returned: seq<Record>, orphans: seq<Id>)

  // The sync process, named after what it does next.
  datatype Sync =
    | Idle
    | Scrolling(offset: Option<Id>)
    | Checking(page: seq<Record>, next: Option<Id>)
    | Embedding(missing: seq<Record>, next: Option<Id>)
    | Writing(points: map<Id, VectorPoint>, next: Option<Id>)
    | Finished
    | Aborted

  // What the embedding of one record gave.
  datatype Embedded = Failed | Vector(dense: seq<real>)

  /**
   `dead`, `stable` and `failed` are history: the IDs that were ever deleted; the records that
   have stayed in the source tier since the sync started, and whose vector nobody erased behind
   the sync; and the records the sync counted as failed.
   */
  datatype State = State(
    source: map<Id, Payload>, vec: map<Id, VectorPoint>, ops: map<nat, Op>, sync: Sync,
    dead: set<Id>, stable: set<Id>, failed: set<Id>)

  datatype Action =
    | BeginUpsert(op: nat, id: Id, payload: Payload, embedding: seq<real>)
    | WriteSource(op: nat, outcome: Outcome, applied: bool)
    | WriteVector(op: nat, outcome: Outcome, applied: bool)
    | BeginDelete(op: nat, sel: Selector)
    | EraseSource(op: nat, ok: bool, erased: set<Id>)
    | EraseVector(op: nat, erased: set<Id>)
    | Query(op: nat, hits: seq<Id>)
    | ReadSource(op: nat, ok: bool)
    | EraseOrphans(op: nat, erased: set<Id>)
    | SyncStart
    | SyncScroll(page: seq<Record>, next: Option<Id>)
    | SyncCheck
    | SyncEmbed(results: map<Id, Embedded>)
    | SyncWrite(outcome: Outcome, written: set<Id>)
    | SyncAbort

  function Without<V>(m: map<Id, V>, ids: set<Id>): map<Id, V> {
    map id | id in m && id !in ids :: m[id]
  }

  function Only<V>(m: map<Id, V>, ids: set<Id>): map<Id, V> {
    map id | id in m && id in ids :: m[id]
  }

  function Ids(page: seq<Record>): set<Id> {
    set r | r in page :: r.id
  }

  function RecordIds(rs: seq<Record>): (ids: seq<Id>)
    ensures |ids| == |rs| && forall i :: 0 <= i < |rs| ==> ids[i] == rs[i].id
  {
    seq(|rs|, i requires 0 <= i < |rs| => rs[i].id)
  }

  /** One scrolled page of source records. */
  predicate IsRecordPage(source: map<Id, Payload>, offset: Option<Id>, page: seq<Record>, next: Option<Id>) {
    && IsPage(source.Keys, offset, SYNC_BATCH_SIZE, RecordIds(page), next)
    && forall r :: r in page ==> r.id in source && source[r.id] == r.payload
  }

  /** The records of `page` without a point among `have`, in page order. */
  function Absent(page: seq<Record>, have: set<Id>): (missing: seq<Record>)
    ensures forall r :: r in missing <==> r in page && r.id !in have
  {
    if page == [] then []
    else
      var last := page[|page| - 1];
      Absent(page[..|page| - 1], have) + if last.id in have then [] else [last]
  }

  /** Whether embedding the record with this result gives no point but lets the sync go on. */
  predicate CountsAsFailed(r: Record, e: Embedded) {
    r.payload.content == "" || e.Failed?
  }

  predicate WrongDimension(dim: nat, r: Record, e: Embedded) {
    !CountsAsFailed(r, e) && |e.dense| != dim
  }

  /** Some record has a vector of the wrong size. */
  predicate Mismatch(dim: nat, missing: seq<Record>, results: map<Id, Embedded>)
    requires Ids(missing) <= results.Keys
  {
    exists r :: r in missing && (assert r.id in Ids(missing); WrongDimension(dim, r, results[r.id]))
  }

  function PointsFor(missing: seq<Record>, results: map<Id, Embedded>): (points: map<Id, VectorPoint>)
    requires Ids(missing) <= results.Keys
    ensures forall id :: id in points ==>
      id in results && results[id].Vector? && points[id].dense == results[id].dense
      && exists r :: r in missing && r.id == id && r.payload.content != "" && IsOf(points[id], r.payload)
    ensures forall r :: r in missing && r.payload.content != "" && results[r.id].Vector? ==> r.id in points
  {
    if missing == [] then map[]
    else
      var last := missing[|missing| - 1];
      var rest := missing[..|missing| - 1];
      assert forall r :: r in rest ==> r in missing;
      assert last.id in Ids(missing);
      assert Ids(rest) <= Ids(missing);
      var points := PointsFor(rest, results);
      if CountsAsFailed(last, results[last.id]) then points
      else points[last.id := VectorPointFor(last.payload, results[last.id].dense)]
  }

  function FailedOf(missing: seq<Record>, results: map<Id, Embedded>): set<Id>
    requires Ids(missing) <= results.Keys
  {
    set r | r in missing && (assert r.id in Ids(missing); CountsAsFailed(r, results[r.id])) :: r.id
  }

  function Advance(next: Option<Id>): Sync {
    if next.None? then Finished else Scrolling(next)
  }

  function Select(sel: Selector, source: map<Id, Payload>): set<Id> {
    match sel
    case ByIds(ids) => ids
    case ByUser(u) => set id | id in source && source[id].user == u
  }

  function SelectVec(sel: Selector, vec: map<Id, VectorPoint>): set<Id> {
    match sel
    case ByIds(ids) => ids
    case ByUser(u) => set id | id in vec && vec[id].user == u
  }

  predicate Enabled(dim: nat, s: State, a: Action) {
    match a
    case BeginUpsert(op, id, payload, embedding) => op !in s.ops && (embedding == [] || |embedding| == dim)
    case WriteSource(op, outcome, applied) =>
      op in s.ops && s.ops[op].WritingSource? && (outcome.Success? ==> applied)
    case WriteVector(op, outcome, applied) =>
      op in s.ops && s.ops[op].WritingVector? && (outcome.Success? ==> applied)
    case BeginDelete(op, sel) => op !in s.ops
    case EraseSource(op, ok, erased) =>
      && op in s.ops && s.ops[op].ErasingSource?
      && erased <= Select(s.ops[op].sel, s.source)
      && (ok ==> erased == Select(s.ops[op].sel, s.source))
    case EraseVector(op, erased) =>
      op in s.ops && s.ops[op].ErasingVector? && erased <= SelectVec(s.ops[op].sel, s.vec)
    case Query(op, hits) => op !in s.ops && forall id :: id in hits ==> id in s.vec
    case ReadSource(op, ok) => op in s.ops && s.ops[op].ReadingSource?
    case EraseOrphans(op, erased) =>
      op in s.ops && s.ops[op].ErasingOrphans? && forall id :: id in erased ==> id in s.ops[op].orphans
    case SyncStart => s.sync.Idle? || s.sync.Finished? || s.sync.Aborted?
    case SyncScroll(page, next) => s.sync.Scrolling? && IsRecordPage(s.source, s.sync.offset, page, next)
    case SyncCheck => s.sync.Checking?
    case SyncEmbed(results) => s.sync.Embedding? && Ids(s.sync.missing) <= results.Keys
    case SyncWrite(outcome, written) =>
      s.sync.Writing? && written <= s.sync.points.Keys && (outcome.Success? ==> written == s.sync.points.Keys)
    case SyncAbort => !s.sync.Idle? && !s.sync.Finished? && !s.sync.Aborted?
  }

  /** The hits that have a source record. */
  function Found(hits: seq<Id>, source: map<Id, Payload>): seq<Record> {
    if hits == [] then []
    else
      var last := hits[|hits| - 1];
      Found(hits[..|hits| - 1], source) + if last in source then [Record(last, source[last])] else []
  }

  function Readable(rs: seq<Record>): (readable: seq<Record>)
    ensures forall r :: r in readable <==> r in rs && r.payload.readable
  {
    if rs == [] then []
    else Readable(rs[..|rs| - 1]) + if rs[|rs| - 1].payload.readable then [rs[|rs| - 1]] else []
  }

  /** What a search returns of its hits. */
  function Live(hits: seq<Id>, source: map<Id, Payload>): seq<Record> {
    Readable(Found(hits, source))
  }

  function Orphans(hits: seq<Id>, source: map<Id, Payload>): seq<Id> {
    if hits == [] then []
    else
      var last := hits[|hits| - 1];
      Orphans(hits[..|hits| - 1], source) + if last in source then [] else [last]
  }

  lemma SplitMore(hits: seq<Id>, x: Id, source: map<Id, Payload>)
    ensures Found(hits + [x], source) == Found(hits, source) + if x in source then [Record(x, source[x])] else []
    ensures Live(hits + [x], source) ==
      Live(hits, source) + if x in source && source[x].readable then [Record(x, source[x])] else []
    ensures Orphans(hits + [x], source) == Orphans(hits, source) + if x in source then [] else [x]
  {
    assert (hits + [x])[..|hits|] == hits;
    var found := Found(hits, source);
    if x in source {
      assert (found + [Record(x, source[x])])[..|found|] == found;
    } else {
      assert found + [] == found;
    }
  }

  lemma {:induction false} FoundIsExact(hits: seq<Id>, source: map<Id, Payload>)
    ensures forall r :: r in Found(hits, source) <==> r.id in hits && r.id in source && r.payload == source[r.id]
    ensures forall id :: id in Orphans(hits, source) <==> id in hits && id !in source
  {
    if hits != [] {
      var rest, last := hits[..|hits| - 1], hits[|hits| - 1];
      assert hits == rest + [last];
      FoundIsExact(rest, source);
      SplitMore(rest, last, source);
    }
  }

  /** The records returned are readable source records; the orphans are the hits without one. */
  lemma SplitIsExact(hits: seq<Id>, source: map<Id, Payload>)
    ensures forall r :: r in Live(hits, source) <==>
      r.id in hits && r.id in source && r.payload == source[r.id] && r.payload.readable
    ensures forall id :: id in Orphans(hits, source) <==> id in hits && id !in source
  {
    FoundIsExact(hits, source);
  }

  function SetOp(s: State, op: nat, o: Op): State {
    s.(ops := s.ops[op := o])
  }

  function EndOp(s: State, op: nat): State {
    s.(ops := s.ops - {op})
  }

  /** The sync has dealt with `id`: it will not look at that record again. */
  predicate Behind(sync: Sync, id: Id) {
    match sync
    case Idle => false
    case Scrolling(offset) => offset.Some? && id < offset.value
    case Checking(page, next) => Before(id, next) && id !in Ids(page)
    case Embedding(missing, next) => Before(id, next) && id !in Ids(missing)
    case Writing(points, next) => Before(id, next) && id !in points
    case Finished => true
    case Aborted => false
  }

  function LostBehind(s: State, erased: set<Id>): set<Id> {
    set id | id in erased && Behind(s.sync, id)
  }

  /** The store and process part of a step; Apply adds the bookkeeping of stable records. */
  function Effect(dim: nat, s: State, a: Action): State
    requires Enabled(dim, s, a)
  {
    match a
    case BeginUpsert(op, id, payload, embedding) => SetOp(s, op, WritingSource(id, payload, embedding))
    case WriteSource(op, outcome, applied) =>
      var o := s.ops[op];
      var t := if applied then s.(source := s.source[o.id := o.payload]) else s;
      if outcome.Retry? then t
      else if outcome.Success? && o.embedding != [] then
        SetOp(t, op, WritingVector(o.id, VectorPointFor(o.payload, o.embedding)))
      else EndOp(t, op)
    case WriteVector(op, outcome, applied) =>
      var o := s.ops[op];
      var t := if applied then s.(vec := s.vec[o.id := o.point]) else s;
      if outcome.Retry? then t else EndOp(t, op)
    case BeginDelete(op, sel) => SetOp(s, op, ErasingSource(sel))
    case EraseSource(op, ok, erased) =>
      var t := s.(source := Without(s.source, erased), dead := s.dead + erased);
      if ok then SetOp(t, op, ErasingVector(s.ops[op].sel)) else EndOp(t, op)
    case EraseVector(op, erased) =>
      EndOp(s.(vec := Without(s.vec, erased), stable := s.stable - LostBehind(s, erased)), op)
    case Query(op, hits) => if hits == [] then s else SetOp(s, op, ReadingSource(hits))
    case ReadSource(op, ok) =>
      var hits := s.ops[op].hits;
      if ok then SetOp(s, op, ErasingOrphans(hits, Live(hits, s.source), Orphans(hits, s.source))) else EndOp(s, op)
    case EraseOrphans(op, erased) =>
      EndOp(s.(vec := Without(s.vec, erased), stable := s.stable - LostBehind(s, erased)), op)
    case SyncStart => s.(sync := Scrolling(None), stable := s.source.Keys, failed := {})
    case SyncScroll(page, next) => s.(sync := if page == [] then Finished else Checking(page, next))
    case SyncCheck =>
      var missing := Absent(s.sync.page, s.vec.Keys);
      s.(sync := if missing == [] then Advance(s.sync.next) else Embedding(missing, s.sync.next))
    case SyncEmbed(results) =>
      var missing := s.sync.missing;
      if Mismatch(dim, missing, results) then s.(sync := Aborted)
      else
        var points := PointsFor(missing, results);
        s.(sync := if points == map[] then Advance(s.sync.next) else Writing(points, s.sync.next),
           failed := s.failed + FailedOf(missing, results))
    case SyncWrite(outcome, written) =>
      var t := s.(vec := s.vec + Only(s.sync.points, written));
      match outcome {
        case Success => t.(sync := Advance(s.sync.next))
        case Retry => t
        case GiveUp => t.(sync := Aborted)
      }
    case SyncAbort => s.(sync := Aborted)
  }

  function Apply(dim: nat, s: State, a: Action): State
    requires Enabled(dim, s, a)
  {
    var t := Effect(dim, s, a);
    t.(stable := t.stable * t.source.Keys)
  }

  /**
   Any store contents that earlier sessions may have left: points have the configured size,
   and a point without a source record belongs to a deleted one.
   */
  predicate Init(dim: nat, s: State) {
    && s.ops == map[] && s.sync.Idle? && s.stable == {} && s.failed == {}
    && s.dead !! s.source.Keys
    && forall id :: id in s.vec ==> (id in s.source || id in s.dead) && |s.vec[id].dense| == dim
  }

  predicate IsStep(dim: nat, run: seq<State>, acts: seq<Action>, i: nat)
    requires i < |acts| < |run|
  {
    Enabled(dim, run[i], acts[i]) && run[i + 1] == Apply(dim, run[i], acts[i])
  }

  ghost predicate IsRun(dim: nat, run: seq<State>, acts: seq<Action>) {
    && |run| == |acts| + 1
    && Init(dim, run[0])
    && forall i :: 0 <= i < |acts| ==> IsStep(dim, run, acts, i)
  }

  // ---- The invariant ----

  predicate Known(s: State, id: Id) {
    id in s.source || id in s.dead
  }

  predicate OpOk(dim: nat, s: State, o: Op) {
    match o
    case WritingSource(id, payload, embedding) => embedding == [] || |embedding| == dim
    case WritingVector(id, point) => Known(s, id) && |point.dense| == dim
    case ErasingSource(_) => true
    case ErasingVector(sel) => sel.ByIds? ==> sel.ids <= s.dead
    case ReadingSource(hits) => forall id :: id in hits ==> Known(s, id)
    case ErasingOrphans(_, _, orphans) => forall id :: id in orphans ==> id in s.dead
  }

  predicate Covered(s: State, id: Id) {
    id in s.vec || id in s.failed
  }

  ghost predicate SyncOk(dim: nat, s: State) {
    match s.sync
    case Checking(page, _) => forall r :: r in page ==> Known(s, r.id)
    case Embedding(missing, _) => forall r :: r in missing ==> Known(s, r.id)
    case Writing(points, _) => forall id :: id in points ==> Known(s, id) && |points[id].dense| == dim
    case _ => true
  }

  /** What the sync is for: stable records behind it have a vector, or it counted them as failed. */
  ghost predicate CoveredBehind(s: State) {
    forall id :: id in s.stable && Behind(s.sync, id) ==> Covered(s, id)
  }

  ghost predicate TiersOk(dim: nat, s: State) {
    && s.stable <= s.source.Keys
    && (forall id :: id in s.vec ==> Known(s, id) && |s.vec[id].dense| == dim)
    && (forall op :: op in s.ops ==> OpOk(dim, s, s.ops[op]))
  }

  ghost predicate Inv(dim: nat, s: State) {
    TiersOk(dim, s) && SyncOk(dim, s) && CoveredBehind(s)
  }

  /** The client operation an action belongs to; None for the sync's own. */
  function OpOf(a: Action): Option<nat> {
    match a
    case BeginUpsert(op, _, _, _) => Some(op)
    case WriteSource(op, _, _) => Some(op)
    case WriteVector(op, _, _) => Some(op)
    case BeginDelete(op, _) => Some(op)
    case EraseSource(op, _, _) => Some(op)
    case EraseVector(op, _) => Some(op)
    case Query(op, _) => Some(op)
    case ReadSource(op, _) => Some(op)
    case EraseOrphans(op, _) => Some(op)
    case _ => None
  }

  predicate BySync(a: Action) {
    OpOf(a).None?
  }

  // A step by anyone but the sync keeps known IDs known, and covered what is stable and behind
  // the sync.
  lemma ClientStepKeepsSync(dim: nat, s: State, a: Action)
    requires Inv(dim, s) && Enabled(dim, s, a) && !BySync(a)
    ensures SyncOk(dim, Apply(dim, s, a)) && CoveredBehind(Apply(dim, s, a))
  {
    var t := Apply(dim, s, a);
    assert t.sync == s.sync && t.failed == s.failed && t.stable <= s.stable;
    assert forall id :: Known(s, id) ==> Known(t, id);
    forall id | id in t.stable && Behind(t.sync, id)
      ensures Covered(t, id)
    {
      assert Covered(s, id);
    }
  }

  lemma OpStaysOk(dim: nat, s: State, t: State, o: Op)
    requires OpOk(dim, s, o) && s.dead <= t.dead && forall id :: Known(s, id) ==> Known(t, id)
    ensures OpOk(dim, t, o)
  {
  }

  lemma KnownGrows(dim: nat, s: State, a: Action)
    requires TiersOk(dim, s) && Enabled(dim, s, a)
    ensures var t := Apply(dim, s, a); s.dead <= t.dead && forall id :: Known(s, id) ==> Known(t, id)
  {
  }

  lemma OtherOpsUnchanged(dim: nat, s: State, a: Action, op: nat)
    requires Enabled(dim, s, a) && OpOf(a) != Some(op)
    ensures var t := Apply(dim, s, a); (op in t.ops <==> op in s.ops) && (op in t.ops ==> t.ops[op] == s.ops[op])
  {
  }

  lemma OwnOpStaysOk(dim: nat, s: State, a: Action, op: nat)
    requires TiersOk(dim, s) && Enabled(dim, s, a) && OpOf(a) == Some(op) && op in Apply(dim, s, a).ops
    ensures OpOk(dim, Apply(dim, s, a), Apply(dim, s, a).ops[op])
  {
    if op in s.ops {
      assert OpOk(dim, s, s.ops[op]);
    }
    if a == ReadSource(op, true) {
      SplitIsExact(s.ops[op].hits, s.source);
    }
  }

  lemma OpsStayOk(dim: nat, s: State, a: Action)
    requires TiersOk(dim, s) && Enabled(dim, s, a)
    ensures var t := Apply(dim, s, a); forall op :: op in t.ops ==> OpOk(dim, t, t.ops[op])
  {
    var t := Apply(dim, s, a);
    KnownGrows(dim, s, a);
    forall op | op in t.ops
      ensures OpOk(dim, t, t.ops[op])
    {
      if OpOf(a) == Some(op) {
        OwnOpStaysOk(dim, s, a, op);
      } else {
        OtherOpsUnchanged(dim, s, a, op);
        OpStaysOk(dim, s, t, s.ops[op]);
      }
    }
  }

  lemma ClientStepKeepsPoints(dim: nat, s: State, a: Action)
    requires TiersOk(dim, s) && Enabled(dim, s, a) && !BySync(a)
    ensures var t := Apply(dim, s, a);
      t.stable <= t.source.Keys && forall id :: id in t.vec ==> Known(t, id) && |t.vec[id].dense| == dim
  {
    var t := Apply(dim, s, a);
    assert forall id :: Known(s, id) ==> Known(t, id);
    if a.WriteVector? || a.WriteSource? {
      assert OpOk(dim, s, s.ops[a.op]);
    }
  }

  lemma SyncScrollKeepsInv(dim: nat, s: State, a: Action)
    requires Inv(dim, s) && Enabled(dim, s, a) && a.SyncScroll?
    ensures SyncOk(dim, Apply(dim, s, a)) && CoveredBehind(Apply(dim, s, a))
  {
    var t := Apply(dim, s, a);
    forall id | id in t.stable && Before(id, a.next)
      ensures Behind(s.sync, id) || id in Ids(a.page)
    {
      assert From(id, s.sync.offset) ==> id in Ids(a.page);
    }
    if a.page == [] && a.next.Some? {
      assert false;
    }
  }

  lemma SyncCheckKeepsInv(dim: nat, s: State, a: Action)
    requires Inv(dim, s) && Enabled(dim, s, a) && a.SyncCheck?
    ensures SyncOk(dim, Apply(dim, s, a)) && CoveredBehind(Apply(dim, s, a))
  {
    var t := Apply(dim, s, a);
    var missing := Absent(s.sync.page, s.vec.Keys);
    forall id | id in t.stable && Before(id, s.sync.next) && id !in Ids(missing)
      ensures Covered(s, id)
    {
      if id in Ids(s.sync.page) {
        var r :| r in s.sync.page && r.id == id;
        assert r in missing || id in s.vec;
      } else {
        assert Behind(s.sync, id);
      }
    }
  }

  lemma SyncEmbedKeepsInv(dim: nat, s: State, a: Action)
    requires Inv(dim, s) && Enabled(dim, s, a) && a.SyncEmbed?
    ensures SyncOk(dim, Apply(dim, s, a)) && CoveredBehind(Apply(dim, s, a))
  {
    var t := Apply(dim, s, a);
    var missing, results := s.sync.missing, a.results;
    if t.sync.Aborted? {
      return;
    }
    var points := PointsFor(missing, results);
    forall id | id in points
      ensures Known(t, id) && |points[id].dense| == dim
    {
      var r :| r in missing && r.id == id && r.payload.content != "" && IsOf(points[id], r.payload);
      assert !WrongDimension(dim, r, results[r.id]);
    }
    forall id | id in t.stable && Before(id, s.sync.next) && id !in points
      ensures Covered(t, id)
    {
      if id in Ids(missing) {
        var r :| r in missing && r.id == id;
        assert id in FailedOf(missing, results);
      } else {
        assert Behind(s.sync, id);
      }
    }
  }

  lemma SyncWriteKeepsInv(dim: nat, s: State, a: Action)
    requires Inv(dim, s) && Enabled(dim, s, a) && a.SyncWrite?
    ensures var t := Apply(dim, s, a);
      SyncOk(dim, t) && CoveredBehind(t) && forall id :: id in t.vec ==> Known(t, id) && |t.vec[id].dense| == dim
  {
    var t := Apply(dim, s, a);
    forall id | id in t.stable && Behind(t.sync, id)
      ensures Covered(t, id)
    {
      assert Behind(s.sync, id) || id in s.sync.points;
    }
  }

  lemma SyncEdgeKeepsInv(dim: nat, s: State, a: Action)
    requires Inv(dim, s) && Enabled(dim, s, a) && (a.SyncStart? || a.SyncAbort?)
    ensures SyncOk(dim, Apply(dim, s, a)) && CoveredBehind(Apply(dim, s, a))
  {
  }

  lemma SyncStepKeepsInv(dim: nat, s: State, a: Action)
    requires Inv(dim, s) && Enabled(dim, s, a) && BySync(a)
    ensures Inv(dim, Apply(dim, s, a))
  {
    OpsStayOk(dim, s, a);
    if a.SyncScroll? {
      SyncScrollKeepsInv(dim, s, a);
    } else if a.SyncCheck? {
      SyncCheckKeepsInv(dim, s, a);
    } else if a.SyncEmbed? {
      SyncEmbedKeepsInv(dim, s, a);
    } else if a.SyncWrite? {
      SyncWriteKeepsInv(dim, s, a);
    } else {
      SyncEdgeKeepsInv(dim, s, a);
    }
  }

  lemma StepKeepsInv(dim: nat, s: State, a: Action)
    requires Inv(dim, s) && Enabled(dim, s, a)
    ensures Inv(dim, Apply(dim, s, a))
  {
    if BySync(a) {
      SyncStepKeepsInv(dim, s, a);
    } else {
      ClientStepKeepsSync(dim, s, a);
      ClientStepKeepsPoints(dim, s, a);
      OpsStayOk(dim, s, a);
    }
  }

  // ---- Theorems about whole runs ----

  lemma {:induction false} RunKeepsInv(dim: nat, run: seq<State>, acts: seq<Action>, i: nat)
    requires IsRun(dim, run, acts) && i < |run|
    ensures Inv(dim, run[i])
  {
    if i > 0 {
      RunKeepsInv(dim, run, acts, i - 1);
      assert IsStep(dim, run, acts, i - 1);
      StepKeepsInv(dim, run[i - 1], acts[i - 1]);
    }
  }

  /** A source write of an ID after its delete takes effect in this step. */
  predicate StoresAgain(s: State, a: Action, id: Id) {
    a.WriteSource? && a.applied && a.op in s.ops && s.ops[a.op].WritingSource? && s.ops[a.op].id == id && id in s.dead
  }

  // A record comes into the source tier by being written, and is known to be deleted once it goes.
  lemma SourceChanges(dim: nat, s: State, a: Action, id: Id)
    requires Enabled(dim, s, a)
    ensures var t := Apply(dim, s, a);
      && (id in t.source && id !in s.source && id in s.dead ==> StoresAgain(s, a, id))
      && (id in s.dead ==> id in t.dead)
      && (id in t.dead && id !in s.dead ==> id !in t.source)
  {
  }

  /** This step writes or erases the source record of `id`. */
  predicate ChangesSource(s: State, a: Action, id: Id) {
    match a
    case WriteSource(op, _, applied) =>
      applied && op in s.ops && s.ops[op].WritingSource? && s.ops[op].id == id
    case EraseSource(_, _, erased) => id in erased
    case _ => false
  }

  /** A delete erases nothing but what it selects: these IDs, or this user's records. */
  lemma DeleteSparesOthers(dim: nat, s: State, a: Action, id: Id)
    requires Enabled(dim, s, a) && (a.EraseSource? || a.EraseVector?)
    requires match s.ops[a.op].sel {
      case ByIds(ids) => id !in ids
      case ByUser(u) =>
        if a.EraseSource? then id in s.source ==> s.source[id].user != u else id in s.vec ==> s.vec[id].user != u
    }
    ensures var t := Apply(dim, s, a);
      && (id in t.source <==> id in s.source) && (id in s.source ==> t.source[id] == s.source[id])
      && (id in t.vec <==> id in s.vec) && (id in s.vec ==> t.vec[id] == s.vec[id])
  {
  }

  /** A write that is not applied changes neither tier, and only an unsuccessful one may not be. */
  lemma UnappliedChangesNothing(dim: nat, s: State, a: Action)
    requires Enabled(dim, s, a) && (a.WriteSource? || a.WriteVector?) && !a.applied
    ensures Apply(dim, s, a).source == s.source && Apply(dim, s, a).vec == s.vec && !a.outcome.Success?
  {
  }

  lemma {:induction false} SourceKept(dim: nat, run: seq<State>, acts: seq<Action>, from: nat, to: nat, id: Id)
    requires IsRun(dim, run, acts) && from <= to < |run| && id in run[from].source
    requires forall m :: from <= m < to ==> !ChangesSource(run[m], acts[m], id)
    ensures id in run[to].source && run[to].source[id] == run[from].source[id]
  {
    if from < to {
      SourceKept(dim, run, acts, from, to - 1, id);
      assert IsStep(dim, run, acts, to - 1);
    }
  }

  /** Unless an ID is stored again after its delete, a record in the source tier was never deleted. */
  lemma {:induction false} LiveWasNeverDeleted(dim: nat, run: seq<State>, acts: seq<Action>, i: nat, id: Id)
    requires IsRun(dim, run, acts) && i < |run| && id in run[i].source
    requires forall m :: 0 <= m < i ==> !StoresAgain(run[m], acts[m], id)
    ensures id !in run[i].dead
  {
    if i > 0 {
      assert IsStep(dim, run, acts, i - 1);
      SourceChanges(dim, run[i - 1], acts[i - 1], id);
      if id in run[i - 1].source {
        LiveWasNeverDeleted(dim, run, acts, i - 1, id);
      }
    }
  }

  /** Once deleted, a record stays out of the source tier until its ID is stored again. */
  lemma {:induction false} DeletedStaysOut(dim: nat, run: seq<State>, acts: seq<Action>, from: nat, to: nat, id: Id)
    requires IsRun(dim, run, acts) && from <= to < |run| && id in run[from].dead && id !in run[from].source
    requires forall m :: from <= m < to ==> !StoresAgain(run[m], acts[m], id)
    ensures id in run[to].dead && id !in run[to].source
  {
    if from < to {
      DeletedStaysOut(dim, run, acts, from, to - 1, id);
      assert IsStep(dim, run, acts, to - 1);
      SourceChanges(dim, run[to - 1], acts[to - 1], id);
    }
  }

  /** Nobody erases the vector of `id` behind the sync in this step. */
  predicate SparesVector(s: State, a: Action, id: Id) {
    a.EraseVector? || a.EraseOrphans? ==> id !in LostBehind(s, a.erased)
  }

  predicate WipesUser(s: State, a: Action) {
    a.EraseVector? && a.op in s.ops && s.ops[a.op].ErasingVector? && s.ops[a.op].sel.ByUser?
  }

  /** No delete of a whole user does. */
  predicate SparedByWipes(s: State, a: Action, id: Id) {
    WipesUser(s, a) ==> id !in LostBehind(s, a.erased)
  }

  /** If the sync embeds `id` in this step, the embedding gives a vector. */
  predicate EmbedsIfAsked(s: State, a: Action, id: Id) {
    a.SyncEmbed? && s.sync.Embedding? ==>
      forall r :: r in s.sync.missing && r.id == id ==>
        r.payload.content != "" && id in a.results && a.results[id].Vector?
  }

  lemma StepKeepsStable(dim: nat, s: State, a: Action, id: Id)
    requires Enabled(dim, s, a) && !a.SyncStart? && id in s.stable && id !in s.failed
    requires id in Apply(dim, s, a).source && SparesVector(s, a, id) && EmbedsIfAsked(s, a, id)
    ensures var t := Apply(dim, s, a); id in t.stable && id !in t.failed
  {
  }

  lemma {:induction false} StaysStable(dim: nat, run: seq<State>, acts: seq<Action>, from: nat, to: nat, id: Id)
    requires IsRun(dim, run, acts) && from < to < |run|
    requires acts[from].SyncStart? && forall m :: from < m < to ==> !acts[m].SyncStart?
    requires forall m :: from <= m <= to ==> id in run[m].source
    requires forall m :: from <= m < to ==> SparesVector(run[m], acts[m], id) && EmbedsIfAsked(run[m], acts[m], id)
    ensures id in run[to].stable && id !in run[to].failed
  {
    assert IsStep(dim, run, acts, to - 1);
    if to > from + 1 {
      StaysStable(dim, run, acts, from, to - 1, id);
      StepKeepsStable(dim, run[to - 1], acts[to - 1], id);
    }
  }

  /**
   The sync is complete in every interleaving: a record that stays in the source tier from the
   start of the sync on, whose embedding succeeds when asked for, and whose vector nobody erases
   behind the sync, has a vector of the configured dimension once the sync has returned without
   an error.
   */
  lemma SyncCompletes(dim: nat, run: seq<State>, acts: seq<Action>, from: nat, to: nat, id: Id)
    requires IsRun(dim, run, acts) && from < to < |run|
    requires acts[from].SyncStart? && forall m :: from < m < to ==> !acts[m].SyncStart?
    requires forall m :: from <= m <= to ==> id in run[m].source
    requires forall m :: from <= m < to ==> SparesVector(run[m], acts[m], id) && EmbedsIfAsked(run[m], acts[m], id)
    requires run[to].sync.Finished?
    ensures id in run[to].vec && |run[to].vec[id].dense| == dim
  {
    StaysStable(dim, run, acts, from, to, id);
    RunKeepsInv(dim, run, acts, to);
  }

  // ---- Who may erase the vector of a live record ----

  /** A delete by ID, or a search, is about to erase the vector of `id`. */
  predicate Erases(o: Op, id: Id) {
    match o
    case ErasingVector(sel) => sel.ByIds? && id in sel.ids
    case ErasingOrphans(_, _, orphans) => id in orphans
    case _ => false
  }

  predicate ErasePending(s: State, id: Id) {
    exists op :: op in s.ops && Erases(s.ops[op], id)
  }

  lemma NoNewErase(dim: nat, s: State, a: Action, op: nat, id: Id)
    requires Enabled(dim, s, a) && OpOf(a) == Some(op) && op in Apply(dim, s, a).ops
    requires id in s.source && id in Apply(dim, s, a).source && !ErasePending(s, id)
    ensures !Erases(Apply(dim, s, a).ops[op], id)
  {
    if op in s.ops {
      assert !Erases(s.ops[op], id);
    }
    if a == ReadSource(op, true) {
      SplitIsExact(s.ops[op].hits, s.source);
    }
  }

  /** No erase of a record begins while it stays in the source tier. */
  lemma NoErasePendingStays(dim: nat, s: State, a: Action, id: Id)
    requires Enabled(dim, s, a) && id in s.source && id in Apply(dim, s, a).source && !ErasePending(s, id)
    ensures !ErasePending(Apply(dim, s, a), id)
  {
    var t := Apply(dim, s, a);
    forall op | op in t.ops
      ensures !Erases(t.ops[op], id)
    {
      if OpOf(a) == Some(op) {
        NoNewErase(dim, s, a, op, id);
      } else {
        OtherOpsUnchanged(dim, s, a, op);
        assert !Erases(s.ops[op], id);
      }
    }
  }

  lemma {:induction false} NoErasePendingInRun(dim: nat, run: seq<State>, acts: seq<Action>, from: nat, to: nat, id: Id)
    requires IsRun(dim, run, acts) && from <= to < |run| && !ErasePending(run[from], id)
    requires forall m :: from <= m <= to ==> id in run[m].source
    ensures !ErasePending(run[to], id)
  {
    if from < to {
      NoErasePendingInRun(dim, run, acts, from, to - 1, id);
      assert IsStep(dim, run, acts, to - 1);
      NoErasePendingStays(dim, run[to - 1], acts[to - 1], id);
    }
  }

  lemma NothingPendingSpares(dim: nat, s: State, a: Action, id: Id)
    requires Enabled(dim, s, a) && !ErasePending(s, id) && SparedByWipes(s, a, id)
    ensures SparesVector(s, a, id)
  {
    if a.EraseVector? || a.EraseOrphans? {
      assert !Erases(s.ops[a.op], id);
    }
  }

  /**
   So a sync that starts with no erase of a record pending gives the record a vector, whatever
   happened to it before and whoever else deletes and searches, if no delete of its whole user
   erases the vector behind the sync.
   */
  lemma SyncRestores(dim: nat, run: seq<State>, acts: seq<Action>, from: nat, to: nat, id: Id)
    requires IsRun(dim, run, acts) && from < to < |run| && !ErasePending(run[from], id)
    requires acts[from].SyncStart? && forall m :: from < m < to ==> !acts[m].SyncStart?
    requires forall m :: from <= m <= to ==> id in run[m].source
    requires forall m :: from <= m < to ==> SparedByWipes(run[m], acts[m], id) && EmbedsIfAsked(run[m], acts[m], id)
    requires run[to].sync.Finished?
    ensures id in run[to].vec && |run[to].vec[id].dense| == dim
  {
    forall m | from <= m < to
      ensures SparesVector(run[m], acts[m], id)
    {
      NoErasePendingInRun(dim, run, acts, from, m, id);
      assert IsStep(dim, run, acts, m);
      NothingPendingSpares(dim, run[m], acts[m], id);
    }
    SyncCompletes(dim, run, acts, from, to, id);
  }

  /** Of a record that was never deleted no erase is ever pending. */
  lemma NeverDeletedIsSafe(dim: nat, run: seq<State>, acts: seq<Action>, i: nat, id: Id)
    requires IsRun(dim, run, acts) && i < |run| && id !in run[i].dead
    ensures !ErasePending(run[i], id)
  {
    RunKeepsInv(dim, run, acts, i);
    forall op | op in run[i].ops
      ensures !Erases(run[i].ops[op], id)
    {
      assert OpOk(dim, run[i], run[i].ops[op]);
    }
  }

  /**
   Sweeping orphans never removes the vector of a record that is in the source tier, unless the
   record was stored again after its delete.
   */
  lemma SweepSparesLiveRecords(dim: nat, run: seq<State>, acts: seq<Action>, i: nat, id: Id)
    requires IsRun(dim, run, acts) && i < |acts|
    requires acts[i].EraseOrphans? && id in run[i].source && id !in run[i].dead && id in run[i].vec
    ensures id in run[i + 1].vec && run[i + 1].vec[id] == run[i].vec[id]
  {
    RunKeepsInv(dim, run, acts, i);
    assert IsStep(dim, run, acts, i);
    var s := run[i];
    assert OpOk(dim, s, s.ops[acts[i].op]);
  }

  /** `whole` is an order-preserving merge of `a` and `b`. */
  ghost predicate Interleaves(whole: seq<Id>, a: seq<Id>, b: seq<Id>)
    decreases |whole|
  {
    if whole == [] then a == [] && b == []
    else
      var last, rest := whole[|whole| - 1], whole[..|whole| - 1];
      || (a != [] && a[|a| - 1] == last && Interleaves(rest, a[..|a| - 1], b))
      || (b != [] && b[|b| - 1] == last && Interleaves(rest, a, b[..|b| - 1]))
  }

  lemma InterleavesMore(whole: seq<Id>, a: seq<Id>, b: seq<Id>, x: Id)
    requires Interleaves(whole, a, b)
    ensures Interleaves(whole + [x], a + [x], b) && Interleaves(whole + [x], a, b + [x])
  {
    assert (whole + [x])[..|whole|] == whole && (a + [x])[..|a|] == a && (b + [x])[..|b|] == b;
  }

  lemma HydrationMore(rest: seq<Id>, last: Id, source: map<Id, Payload>)
    requires Interleaves(rest, RecordIds(Found(rest, source)), Orphans(rest, source))
    ensures Interleaves(rest + [last], RecordIds(Found(rest + [last], source)), Orphans(rest + [last], source))
  {
    var found, orphans := Found(rest, source), Orphans(rest, source);
    InterleavesMore(rest, RecordIds(found), orphans, last);
    SplitMore(rest, last, source);
    if last in source {
      assert RecordIds(found + [Record(last, source[last])]) == RecordIds(found) + [last];
      assert orphans + [] == orphans;
    } else {
      assert found + [] == found;
    }
  }

  /**
   Hydration splits the hits: the records found, of which the readable ones are returned, and
   the orphans, which have none, keep the ranking order and lose no hit.
   */
  lemma {:induction false} HydrationSplitsHits(hits: seq<Id>, source: map<Id, Payload>)
    ensures Interleaves(hits, RecordIds(Found(hits, source)), Orphans(hits, source))
    ensures Live(hits, source) == Readable(Found(hits, source))
  {
    if hits != [] {
      var rest, last := hits[..|hits| - 1], hits[|hits| - 1];
      assert hits == rest + [last];
      HydrationSplitsHits(rest, source);
      HydrationMore(rest, last, source);
    }
  }

  // What a search is about to return and to erase was split off at its source read, and those
  // orphans are deleted records.
  predicate SplitAt(s: State, op: nat, o: Op)
    requires o.ErasingOrphans?
  {
    && op in s.ops && s.ops[op] == ReadingSource(o.hits)
    && o.returned == Live(o.hits, s.source) && o.orphans == Orphans(o.hits, s.source)
  }

  lemma SweepComesFromRead(dim: nat, s: State, a: Action, op: nat)
    requires Enabled(dim, s, a)
    requires var t := Apply(dim, s, a); op in t.ops && t.ops[op].ErasingOrphans?
    ensures var o := Apply(dim, s, a).ops[op];
      (a == ReadSource(op, true) && SplitAt(s, op, o)) || (op in s.ops && s.ops[op] == o)
  {
    if OpOf(a) != Some(op) {
      OtherOpsUnchanged(dim, s, a, op);
    }
  }

  /** Every orphan a search is about to erase was a hit whose record had been deleted. */
  lemma {:induction false} OrphansWereDeleted(dim: nat, run: seq<State>, acts: seq<Action>, i: nat, op: nat)
    requires IsRun(dim, run, acts) && i < |run|
    requires op in run[i].ops && run[i].ops[op].ErasingOrphans?
    ensures exists j :: 0 <= j < i && acts[j] == ReadSource(op, true) && SplitAt(run[j], op, run[i].ops[op])
    ensures forall id :: id in run[i].ops[op].orphans ==> id in run[i].ops[op].hits && id in run[i].dead
  {
    RunKeepsInv(dim, run, acts, i);
    assert OpOk(dim, run[i], run[i].ops[op]);
    assert IsStep(dim, run, acts, i - 1);
    SweepComesFromRead(dim, run[i - 1], acts[i - 1], op);
    if acts[i - 1] == ReadSource(op, true) && SplitAt(run[i - 1], op, run[i].ops[op]) {
      SplitIsExact(run[i].ops[op].hits, run[i - 1].source);
    } else {
      OrphansWereDeleted(dim, run, acts, i - 1, op);
    }
  }

  // ---- Where records and vectors come from ----

  /** An upsert of this record has begun. */
  predicate Upserted(acts: seq<Action>, i: nat, id: Id, p: Payload)
    requires i <= |acts|
  {
    exists m :: 0 <= m < i && acts[m].BeginUpsert? && acts[m].id == id && acts[m].payload == p
  }

  /** The record was in the source tier at some moment. */
  ghost predicate WasStored(run: seq<State>, i: nat, id: Id, p: Payload)
    requires i < |run|
  {
    exists m :: 0 <= m <= i && id in run[m].source && run[m].source[id] == p
  }

  /** The m-th step begins an upsert with this text and vector, or embeds it for the sync. */
  ghost predicate Gives(run: seq<State>, acts: seq<Action>, m: nat, id: Id, v: VectorPoint)
    requires m < |acts| && m < |run|
  {
    match acts[m]
    case BeginUpsert(_, i, p, embedding) =>
      i == id && v.dense == embedding && v.user == p.user && v.content == p.content && v.keywords == p.keywords
    case SyncEmbed(results) =>
      id in results && results[id] == Vector(v.dense)
      && exists p :: WasStored(run, m, id, p) && v.user == p.user && v.content == p.content && v.keywords == p.keywords
    case _ => false
  }

  ghost predicate Given(run: seq<State>, acts: seq<Action>, i: nat, id: Id, v: VectorPoint)
    requires i <= |acts| && i <= |run|
  {
    exists m :: 0 <= m < i && Gives(run, acts, m, id, v)
  }

  // What an operation in flight is about to write was given to it.
  ghost predicate OpGiven(run: seq<State>, acts: seq<Action>, i: nat, op: nat, o: Op)
    requires i <= |acts| && i <= |run|
  {
    match o
    case WritingSource(id, p, e) => exists m :: 0 <= m < i && acts[m] == BeginUpsert(op, id, p, e)
    case WritingVector(id, v) => Given(run, acts, i, id, v)
    case _ => true
  }

  ghost predicate SyncGiven(run: seq<State>, acts: seq<Action>, i: nat, sync: Sync)
    requires i <= |acts| && i < |run|
  {
    match sync
    case Checking(page, _) => forall r :: r in page ==> WasStored(run, i, r.id, r.payload)
    case Embedding(missing, _) => forall r :: r in missing ==> WasStored(run, i, r.id, r.payload)
    case Writing(points, _) => forall id :: id in points ==> Given(run, acts, i, id, points[id])
    case _ => true
  }

  lemma WasStoredLater(run: seq<State>, i: nat, id: Id, p: Payload)
    requires i + 1 < |run| && WasStored(run, i, id, p)
    ensures WasStored(run, i + 1, id, p)
  {
  }

  lemma GivenLater(run: seq<State>, acts: seq<Action>, i: nat, id: Id, v: VectorPoint)
    requires i < |acts| && i < |run| && Given(run, acts, i, id, v)
    ensures Given(run, acts, i + 1, id, v)
  {
  }

  lemma OpsStayGiven(dim: nat, run: seq<State>, acts: seq<Action>, i: nat, op: nat)
    requires IsRun(dim, run, acts) && i < |acts| && op in run[i + 1].ops
    requires op in run[i].ops ==> OpGiven(run, acts, i, op, run[i].ops[op])
    ensures OpGiven(run, acts, i + 1, op, run[i + 1].ops[op])
  {
    assert IsStep(dim, run, acts, i);
    if OpOf(acts[i]) != Some(op) {
      OtherOpsUnchanged(dim, run[i], acts[i], op);
    } else if acts[i].WriteSource? {
      var o := run[i].ops[op];
      var m :| 0 <= m < i && acts[m] == BeginUpsert(op, o.id, o.payload, o.embedding);
      assert Gives(run, acts, m, o.id, VectorPointFor(o.payload, o.embedding));
    }
  }

  lemma SyncStaysGiven(dim: nat, run: seq<State>, acts: seq<Action>, i: nat)
    requires IsRun(dim, run, acts) && i < |acts| && SyncGiven(run, acts, i, run[i].sync)
    ensures SyncGiven(run, acts, i + 1, run[i + 1].sync)
  {
    assert IsStep(dim, run, acts, i);
    if acts[i].SyncEmbed? {
      EmbeddedIsGiven(dim, run, acts, i);
    }
  }

  lemma EmbeddedIsGiven(dim: nat, run: seq<State>, acts: seq<Action>, i: nat)
    requires IsRun(dim, run, acts) && i < |acts| && acts[i].SyncEmbed? && SyncGiven(run, acts, i, run[i].sync)
    ensures SyncGiven(run, acts, i + 1, run[i + 1].sync)
  {
    assert IsStep(dim, run, acts, i);
    var missing, results := run[i].sync.missing, acts[i].results;
    if run[i + 1].sync.Writing? {
      var points := run[i + 1].sync.points;
      forall id | id in points
        ensures Given(run, acts, i + 1, id, points[id])
      {
        var r :| r in missing && r.id == id && r.payload.content != "" && IsOf(points[id], r.payload);
        assert WasStored(run, i, id, r.payload);
        assert Gives(run, acts, i, id, points[id]);
      }
    }
  }

  lemma {:induction false} OpsAreGiven(dim: nat, run: seq<State>, acts: seq<Action>, i: nat, op: nat)
    requires IsRun(dim, run, acts) && i < |run| && op in run[i].ops
    ensures OpGiven(run, acts, i, op, run[i].ops[op])
  {
    if i > 0 {
      if op in run[i - 1].ops {
        OpsAreGiven(dim, run, acts, i - 1, op);
      }
      OpsStayGiven(dim, run, acts, i - 1, op);
    }
  }

  lemma {:induction false} SyncIsGiven(dim: nat, run: seq<State>, acts: seq<Action>, i: nat)
    requires IsRun(dim, run, acts) && i < |run|
    ensures SyncGiven(run, acts, i, run[i].sync)
  {
    if i > 0 {
      SyncIsGiven(dim, run, acts, i - 1);
      SyncStaysGiven(dim, run, acts, i - 1);
    }
  }

  /** A record in the source tier was there from the start, or is one an upsert was called with. */
  lemma {:induction false} SourceIsGiven(dim: nat, run: seq<State>, acts: seq<Action>, i: nat, id: Id)
    requires IsRun(dim, run, acts) && i < |run| && id in run[i].source
    ensures (id in run[0].source && run[i].source[id] == run[0].source[id])
         || Upserted(acts, i, id, run[i].source[id])
  {
    if i > 0 {
      assert IsStep(dim, run, acts, i - 1);
      var s, a := run[i - 1], acts[i - 1];
      if id in s.source && run[i].source[id] == s.source[id] {
        SourceIsGiven(dim, run, acts, i - 1, id);
      } else {
        OpsAreGiven(dim, run, acts, i - 1, a.op);
      }
    }
  }

  /**
   A vector in the tier was there from the start, or carries the user, the text and the keywords
   of one upsert of its ID and the embedding given with it, or those of a record that was in the
   source tier under its ID and the embedding the sync got for that record.
   */
  lemma {:induction false} VectorsAreGiven(dim: nat, run: seq<State>, acts: seq<Action>, i: nat, id: Id)
    requires IsRun(dim, run, acts) && i < |run| && id in run[i].vec
    ensures (id in run[0].vec && run[i].vec[id] == run[0].vec[id]) || Given(run, acts, i, id, run[i].vec[id])
  {
    if i > 0 {
      assert IsStep(dim, run, acts, i - 1);
      var s, a := run[i - 1], acts[i - 1];
      if id in s.vec && run[i].vec[id] == s.vec[id] {
        VectorsAreGiven(dim, run, acts, i - 1, id);
      } else if a.WriteVector? {
        OpsAreGiven(dim, run, acts, i - 1, a.op);
      } else {
        SyncIsGiven(dim, run, acts, i - 1);
      }
    }
  }

  // Extends a run by one step.
  lemma Take(dim: nat, run: seq<State>, acts: seq<Action>, a: Action) returns (run': seq<State>, acts': seq<Action>)
    requires IsRun(dim, run, acts) && Enabled(dim, run[|acts|], a)
    ensures run' == run + [Apply(dim, run[|acts|], a)] && acts' == acts + [a] && IsRun(dim, run', acts')
  {
    run', acts' := run + [Apply(dim, run[|acts|], a)], acts + [a];
    forall i | 0 <= i < |acts'|
      ensures IsStep(dim, run', acts', i)
    {
      assert i < |acts| ==> IsStep(dim, run, acts, i);
    }
  }
}
