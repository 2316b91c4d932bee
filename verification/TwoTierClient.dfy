/**
 The store client itself: UpsertMemory, deleteRecords, search hydration and SyncVectors as
 the loops and branches the program runs, with other clients' store calls interleaved
 between any two of its own. Each method's calls are proved to be steps of the TwoTier
 system, so the theorems about runs hold of what the code does.
 */
module TwoTierClient {
  import opened Wrappers
  import opened PointStore
  import opened TwoTier

  /** Scrolls one page of source records. */
  method ScrollRecords(source: map<Id, Payload>, offset: Option<Id>) returns (page: seq<Record>, next: Option<Id>)
    ensures IsRecordPage(source, offset, page, next)
  {
    var ids;
    ids, next := Scroll(source.Keys, offset, SYNC_BATCH_SIZE);
    page := [];
    for i := 0 to |ids|
      invariant RecordIds(page) == ids[..i] && forall r :: r in page ==> r.id in source && source[r.id] == r.payload
    {
      assert ids[i] in ids;
      page := page + [Record(ids[i], source[ids[i]])];
    }
  }

  // A point lookup only reports IDs it was asked for.
  lemma {:induction false} AbsentLooksAtPageOnly(page: seq<Record>, ids: set<Id>, have: set<Id>)
    requires Ids(page) <= ids
    ensures Absent(page, have * ids) == Absent(page, have)
  {
    if page != [] {
      var rest := page[..|page| - 1];
      assert page[|page| - 1].id in Ids(page) && Ids(rest) <= Ids(page);
      AbsentLooksAtPageOnly(rest, ids, have);
    }
  }

  lemma PointsForAppend(missing: seq<Record>, i: nat, results: map<Id, Embedded>)
    requires i < |missing| && Ids(missing) <= results.Keys
    ensures Ids(missing[..i]) <= results.Keys && Ids(missing[..i + 1]) <= results.Keys && missing[i].id in results
    ensures PointsFor(missing[..i + 1], results) ==
            if CountsAsFailed(missing[i], results[missing[i].id]) then PointsFor(missing[..i], results)
            else
              PointsFor(missing[..i], results)[
                missing[i].id := VectorPointFor(missing[i].payload, results[missing[i].id].dense)]
  {
    assert forall r :: r in missing[..i] || r in missing[..i + 1] ==> r in missing;
    assert missing[i] in missing;
    assert missing[..i + 1][..i] == missing[..i];
  }

  lemma NotCollectedYet(missing: seq<Record>, i: nat, results: map<Id, Embedded>)
    requires i < |missing| && Ordered(missing) && Ids(missing[..i]) <= results.Keys
    ensures missing[i].id !in PointsFor(missing[..i], results)
  {
    forall q | q in missing[..i]
      ensures q.id != missing[i].id
    {
      var j :| 0 <= j < i && missing[j] == q;
    }
  }

  /** Splits the hits into the readable records found and the orphans, both in ranking order. */
  method SplitHits(hits: seq<Id>, byId: map<Id, Payload>, ghost source: map<Id, Payload>)
    returns (memories: seq<Record>, orphans: seq<Id>)
    requires byId == map id | id in source && id in hits :: source[id]
    ensures memories == Live(hits, source) && orphans == Orphans(hits, source)
  {
    memories, orphans := [], [];
    for i := 0 to |hits|
      invariant memories == Live(hits[..i], source) && orphans == Orphans(hits[..i], source)
    {
      assert hits[..i + 1] == hits[..i] + [hits[i]];
      SplitMore(hits[..i], hits[i], source);
      if hits[i] !in byId {
        orphans := orphans + [hits[i]];
        continue;
      }
      if !byId[hits[i]].readable {
        continue;
      }
      memories := memories + [Record(hits[i], byId[hits[i]])];
    }
    assert hits[..|hits|] == hits;
  }

  /** The records of a page that have no vector yet, and how many have one. */
  method FindMissing(page: seq<Record>, have: set<Id>, ghost ids: set<Id>) returns (missing: seq<Record>, present: nat)
    requires have == ids * Ids(page)
    ensures missing == Absent(page, ids) && present + |missing| == |page|
  {
    missing, present := [], 0;
    for i := 0 to |page|
      invariant missing == Absent(page[..i], have) && present + |missing| == i
    {
      assert page[..i + 1][..i] == page[..i];
      if page[i].id in have {
        present := present + 1;
      } else {
        missing := missing + [page[i]];
      }
    }
    assert page[..|page|] == page;
    AbsentLooksAtPageOnly(page, Ids(page), ids);
  }

  /** Asks the embedding model for every missing record; each request may fail. */
  method EmbedAll(missing: seq<Record>) returns (results: map<Id, Embedded>)
    ensures Ids(missing) <= results.Keys
  {
    results := map[];
    for i := 0 to |missing|
      invariant forall j :: 0 <= j < i ==> missing[j].id in results
    {
      var e: Embedded := *;
      results := results[missing[i].id := e];
    }
  }

  // The first i records are done with.
  ghost predicate Collected(dim: nat, missing: seq<Record>, i: nat, results: map<Id, Embedded>,
                            points: map<Id, VectorPoint>, failed: nat)
    requires Ids(missing) <= results.Keys
  {
    && i <= |missing| && Ids(missing[..i]) <= results.Keys && !Mismatch(dim, missing[..i], results)
    && points == PointsFor(missing[..i], results) && |points| + failed == i
  }

  lemma MismatchMore(dim: nat, missing: seq<Record>, i: nat, results: map<Id, Embedded>)
    requires i < |missing| && Ids(missing) <= results.Keys
    ensures Ids(missing[..i]) <= results.Keys && Ids(missing[..i + 1]) <= results.Keys && missing[i].id in results
    ensures Mismatch(dim, missing[..i + 1], results) <==>
      Mismatch(dim, missing[..i], results) || WrongDimension(dim, missing[i], results[missing[i].id])
    ensures WrongDimension(dim, missing[i], results[missing[i].id]) ==> Mismatch(dim, missing, results)
  {
    assert missing[..i + 1] == missing[..i] + [missing[i]];
    assert forall r :: r in missing[..i] ==> r in missing;
    assert missing[i] in missing && missing[i].id in Ids(missing);
  }

  lemma CollectedMore(dim: nat, missing: seq<Record>, i: nat, results: map<Id, Embedded>,
                      points: map<Id, VectorPoint>, failed: nat)
    requires Ids(missing) <= results.Keys && Ordered(missing) && i < |missing|
    requires Collected(dim, missing, i, results, points, failed)
    ensures missing[i].id in results
    ensures var r := missing[i];
      if CountsAsFailed(r, results[r.id]) then Collected(dim, missing, i + 1, results, points, failed + 1)
      else if |results[r.id].dense| != dim then Mismatch(dim, missing, results)
      else
        Collected(dim, missing, i + 1, results, points[r.id := VectorPointFor(r.payload, results[r.id].dense)], failed)
  {
    MismatchMore(dim, missing, i, results);
    PointsForAppend(missing, i, results);
    NotCollectedYet(missing, i, results);
  }

  // Field by field, what PointsFor gives for records of different IDs.
  lemma PointsAreOfTheirRecords(missing: seq<Record>, results: map<Id, Embedded>, r: Record)
    requires Ids(missing) <= results.Keys && Ordered(missing) && r in missing
    ensures var points := PointsFor(missing, results);
      && r.id in results && (r.id in points <==> r.payload.content != "" && results[r.id].Vector?)
      && (r.id in points ==> points[r.id].dense == results[r.id].dense && IsOf(points[r.id], r.payload))
  {
    var points := PointsFor(missing, results);
    assert r.id in Ids(missing);
    if r.id in points {
      var q :| q in missing && q.id == r.id && q.payload.content != "" && IsOf(points[r.id], q.payload);
      OrderedIdsDiffer(missing, q, r);
    }
  }

  lemma OrderedIdsDiffer(rs: seq<Record>, q: Record, r: Record)
    requires Ordered(rs) && q in rs && r in rs && q.id == r.id
    ensures q == r
  {
    var i :| 0 <= i < |rs| && rs[i] == q;
    var j :| 0 <= j < |rs| && rs[j] == r;
  }

  /**
   Collects the points to write and counts the records that gave none. A vector of the wrong
   size stops the whole run; it is reported exactly when some record has one. A record with text
   whose embedding succeeded gets a point with its own text, user and keywords and that vector.
   */
  method CollectPoints(dim: nat, missing: seq<Record>, results: map<Id, Embedded>)
    returns (mismatch: bool, points: map<Id, VectorPoint>, failed: nat)
    requires Ids(missing) <= results.Keys
    requires Ordered(missing)
    ensures mismatch <==> Mismatch(dim, missing, results)
    ensures mismatch <==> exists r :: r in missing && r.payload.content != "" && r.id in results
                                      && results[r.id].Vector? && |results[r.id].dense| != dim
    ensures !mismatch ==> points == PointsFor(missing, results) && |points| + failed == |missing|
    ensures !mismatch ==> points.Keys <= Ids(missing) && forall r :: r in missing ==>
      && (r.id in points <==> r.payload.content != "" && r.id in results && results[r.id].Vector?)
      && (r.id in points ==>
            && points[r.id].dense == results[r.id].dense && points[r.id].user == r.payload.user
            && points[r.id].content == r.payload.content && points[r.id].keywords == r.payload.keywords)
  {
    mismatch, points, failed := false, map[], 0;
    for i := 0 to |missing|
      invariant Collected(dim, missing, i, results, points, failed)
    {
      CollectedMore(dim, missing, i, results, points, failed);
      var r := missing[i];
      if CountsAsFailed(r, results[r.id]) {
        failed := failed + 1;
      } else if |results[r.id].dense| != dim {
        return true, points, failed;
      } else {
        points := points[r.id := VectorPointFor(r.payload, results[r.id].dense)];
      }
    }
    assert missing[..|missing|] == missing;
    forall r | r in missing
      ensures r.id in results && (r.id in points <==> r.payload.content != "" && results[r.id].Vector?)
      ensures r.id in points ==> points[r.id].dense == results[r.id].dense && IsOf(points[r.id], r.payload)
    {
      PointsAreOfTheirRecords(missing, results, r);
    }
  }

  predicate Ordered(rs: seq<Record>) {
    forall i, j :: 0 <= i < j < |rs| ==> rs[i].id < rs[j].id
  }

  lemma {:induction false} AbsentKeepsOrder(page: seq<Record>, have: set<Id>)
    requires Ordered(page)
    ensures Ordered(Absent(page, have))
  {
    if page != [] {
      var rest := page[..|page| - 1];
      AbsentKeepsOrder(rest, have);
      var missing, all := Absent(rest, have), Absent(page, have);
      assert all == missing + if page[|page| - 1].id in have then [] else [page[|page| - 1]];
      forall i | 0 <= i < |missing|
        ensures missing[i].id < page[|page| - 1].id
      {
        assert missing[i] in missing;
        var k :| 0 <= k < |rest| && rest[k] == missing[i];
        assert page[k] == rest[k];
      }
    }
  }

  class Client {
    const dim: nat
    const maxRetries: nat
    // The store and the state of every process using it.
    var s: State
    // How many more steps other clients will take; any number, but finitely many.
    var others: nat
    ghost var run: seq<State>
    ghost var acts: seq<Action>

    ghost predicate Valid()
      reads this
    {
      IsRun(dim, run, acts) && run[|acts|] == s
    }

    /** What everything this client does keeps: the run only grows, by steps of the system. */
    twostate predicate Grows()
      reads this
    {
      Valid() && old(run) <= run && old(acts) <= acts && others <= old(others) && old(s).dead <= s.dead
    }

    constructor (dim: nat, maxRetries: nat, others: nat, s: State)
      requires Init(dim, s)
      ensures Valid() && acts == [] && this.dim == dim && this.s == s
    {
      this.dim, this.maxRetries, this.others, this.s := dim, maxRetries, others, s;
      run, acts := [s], [];
    }

    method Do(a: Action)
      requires Valid() && Enabled(dim, s, a)
      modifies this`s, this`run, this`acts
      ensures Valid() && s == Apply(dim, old(s), a) && run == old(run) + [s] && acts == old(acts) + [a]
    {
      s := Apply(dim, s, a);
      run, acts := Take(dim, run, acts, a);
    }

    method OtherStep(a: Action, mine: set<nat>)
      requires Valid() && Enabled(dim, s, a) && !BySync(a) && OpOf(a).value !in mine
      modifies this`s, this`run, this`acts
      ensures Valid() && run == old(run) + [s] && acts == old(acts) + [a]
      ensures s.sync == old(s).sync && old(s).dead <= s.dead
      ensures forall op :: op in mine ==>
        (op in s.ops <==> op in old(s.ops)) && (op in s.ops ==> s.ops[op] == old(s.ops)[op])
    {
      forall op | op in mine
        ensures var t := Apply(dim, s, a);
          (op in t.ops <==> op in s.ops) && (op in t.ops ==> t.ops[op] == s.ops[op])
      {
        OtherOpsUnchanged(dim, s, a, op);
      }
      Do(a);
    }

    /** Other clients take any steps that do not belong to the operations in `mine`. */
    method OthersRun(mine: set<nat>)
      requires Valid()
      modifies this
      ensures Grows() && s.sync == old(s.sync)
      ensures forall i :: |old(acts)| <= i < |acts| ==> !BySync(acts[i]) && OpOf(acts[i]).value !in mine
      ensures forall op :: op in mine ==>
        (op in s.ops <==> op in old(s.ops)) && (op in s.ops ==> s.ops[op] == old(s.ops)[op])
      ensures others == old(others) ==> s == old(s) && acts == old(acts)
    {
      var n: nat := *;
      while n > 0 && others > 0
        invariant Grows() && s.sync == old(s.sync)
        invariant forall i :: |old(acts)| <= i < |acts| ==> !BySync(acts[i]) && OpOf(acts[i]).value !in mine
        invariant forall op :: op in mine ==>
          (op in s.ops <==> op in old(s.ops)) && (op in s.ops ==> s.ops[op] == old(s.ops)[op])
        invariant others == old(others) ==> s == old(s) && acts == old(acts)
        decreases n
      {
        var a: Action := *;
        if !BySync(a) && OpOf(a).value !in mine && Enabled(dim, s, a) {
          OtherStep(a, mine);
        }
        n, others := n - 1, others - 1;
      }
    }

    /** Writes the source record of operation `op`, retrying as long as the error allows. */
    method WriteSourceWithRetry(op: nat) returns (ok: bool)
      requires Valid() && op in s.ops && s.ops[op].WritingSource?
      modifies this
      ensures Grows() && s.sync == old(s.sync)
      ensures |old(acts)| < |acts| && var last := acts[|acts| - 1];
        last.WriteSource? && last.op == op && last.outcome == (if ok then Success else GiveUp) && (ok ==> last.applied)
      ensures var o := old(s.ops[op]);
        if ok && o.embedding != []
        then op in s.ops && s.ops[op] == WritingVector(o.id, VectorPointFor(o.payload, o.embedding))
        else op !in s.ops
      ensures var o := old(s.ops[op]); ok ==> o.id in s.source && s.source[o.id] == o.payload
    {
      var attempt := 0;
      while true
        invariant Grows() && s.sync == old(s.sync) && attempt <= maxRetries
        invariant op in s.ops && s.ops[op] == old(s.ops[op])
        decreases maxRetries - attempt
      {
        OthersRun({op});
        var outcome: Outcome := *;
        var applied: bool := *;
        if outcome.Retry? && attempt == maxRetries {
          outcome := GiveUp;
        }
        Do(WriteSource(op, outcome, applied || outcome.Success?));
        if !outcome.Retry? {
          return outcome.Success?;
        }
        attempt := attempt + 1;
      }
    }

    /** Likewise for the vector point. */
    method WriteVectorWithRetry(op: nat) returns (ok: bool)
      requires Valid() && op in s.ops && s.ops[op].WritingVector?
      modifies this
      ensures Grows() && s.sync == old(s.sync) && op !in s.ops
      ensures var o := old(s.ops[op]); ok ==> o.id in s.vec && s.vec[o.id] == o.point
      ensures forall m :: |old(acts)| <= m < |acts| && OpOf(acts[m]) == Some(op) ==> acts[m].WriteVector?
      ensures |old(acts)| < |acts| && var last := acts[|acts| - 1];
        last.WriteVector? && last.op == op && last.outcome == (if ok then Success else GiveUp) && (ok ==> last.applied)
    {
      var attempt := 0;
      while true
        invariant Grows() && s.sync == old(s.sync) && attempt <= maxRetries
        invariant op in s.ops && s.ops[op] == old(s.ops[op])
        invariant forall m :: |old(acts)| <= m < |acts| && OpOf(acts[m]) == Some(op) ==> acts[m].WriteVector?
        decreases maxRetries - attempt
      {
        OthersRun({op});
        var outcome: Outcome := *;
        var applied: bool := *;
        if outcome.Retry? && attempt == maxRetries {
          outcome := GiveUp;
        }
        Do(WriteVector(op, outcome, applied || outcome.Success?));
        if !outcome.Retry? {
          return outcome.Success?;
        }
        attempt := attempt + 1;
      }
    }

    /**
     Stores a memory in both tiers, source first. It is accepted only when both writes were
     acknowledged (or the record has no embedding yet), and an embedding of the wrong size
     is refused before anything is written. Then the vector tier holds its embedding with its
     text, user and keywords; and so does the source tier hold the record, even when the vector
     half failed, unless others wrote or erased it meanwhile.
     */
    method UpsertMemory(op: nat, id: Id, payload: Payload, embedding: seq<real>) returns (ok: bool)
      requires Valid() && op !in s.ops
      modifies this
      ensures Grows() && op !in s.ops && s.sync == old(s.sync)
      ensures embedding != [] && |embedding| != dim ==> !ok && acts == old(acts)
      ensures ok ==> WriteSource(op, Success, true) in acts[|old(acts)|..]
      ensures ok && embedding != [] ==> acts[|acts| - 1] == WriteVector(op, Success, true)
      ensures ok && embedding != [] ==>
        && id in s.vec && s.vec[id].dense == embedding && s.vec[id].user == payload.user
        && s.vec[id].content == payload.content && s.vec[id].keywords == payload.keywords
      ensures |old(acts)| < |acts| && (ok || acts[|acts| - 1].WriteVector?) && OthersSpare(old(|acts|), op, id) ==>
        id in s.source && s.source[id] == payload
    {
      if embedding != [] && |embedding| != dim {
        return false;
      }
      Do(BeginUpsert(op, id, payload, embedding));
      ok := WriteSourceWithRetry(op);
      assert acts[|acts| - 1] in acts[|old(acts)|..];
      if !ok || embedding == [] {
        return;
      }
      ghost var sofar := acts;
      ok := WriteVectorWithRetry(op);
      assert sofar <= acts && acts[|old(acts)|..|sofar|] == sofar[|old(acts)|..];
      if OthersSpare(old(|acts|), op, id) {
        SourceKept(dim, run, acts, |sofar|, |acts|, id);
      }
    }

    // Nobody but operation `op` has written or erased the source record since.
    ghost predicate OthersSpare(since: nat, op: nat, id: Id)
      requires |run| == |acts| + 1
      reads this
    {
      forall m :: since <= m < |acts| && OpOf(acts[m]) != Some(op) ==> !ChangesSource(run[m], acts[m], id)
    }

    // The source half of a delete.
    method EraseFromSource(op: nat, sel: Selector) returns (ok: bool)
      requires Valid() && op !in s.ops
      modifies this
      ensures Grows() && s.sync == old(s.sync) && |old(acts)| < |acts|
      ensures acts[|acts| - 1].EraseSource? && acts[|acts| - 1].op == op && acts[|acts| - 1].ok == ok
      ensures if ok then op in s.ops && s.ops[op] == ErasingVector(sel) else op !in s.ops
      ensures ok && sel.ByIds? ==> sel.ids <= s.dead && sel.ids !! s.source.Keys
      ensures ok && sel.ByUser? ==> forall id :: id in s.source ==> s.source[id].user != sel.user
    {
      Do(BeginDelete(op, sel));
      OthersRun({op});
      ok := *;
      var applied: set<Id> := *;
      var all := Select(sel, s.source);
      Do(EraseSource(op, ok, if ok then all else applied * all));
    }

    /**
     DeleteUserMemories: after the source half no record of the user is in the source tier, after
     the vector half no vector of theirs in the index.
     */
    method DeleteUserMemories(op: nat, user: nat) returns (ok: bool, ghost at: nat)
      requires Valid() && op !in s.ops
      modifies this
      ensures Grows() && op !in s.ops && s.sync == old(s.sync) && |old(acts)| < |acts|
      ensures ok ==> |old(acts)| < at < |run| && forall id :: id in run[at].source ==> run[at].source[id].user != user
      ensures ok ==> forall id :: id in s.vec ==> s.vec[id].user != user
    {
      ok := EraseFromSource(op, ByUser(user));
      at := |acts|;
      if !ok {
        return;
      }
      OthersRun({op});
      ok := *;
      var applied: set<Id> := *;
      var all := SelectVec(ByUser(user), s.vec);
      Do(EraseVector(op, if ok then all else applied * all));
    }

    /**
     Deletes records from both tiers, source first. If it succeeds, there was a moment of the
     call (`at`) from which on the records are out of the source tier for every reader, until
     one is stored again, whether or not the vector half worked.
     */
    method DeleteRecords(op: nat, ids: set<Id>) returns (ok: bool, ghost at: nat)
      requires Valid() && op !in s.ops
      modifies this
      ensures Grows() && op !in s.ops && s.sync == old(s.sync) && |old(acts)| < |acts|
      ensures ok ==> |old(acts)| < at < |run| && ids <= run[at].dead && ids !! run[at].source.Keys
      ensures ok ==> forall id :: id in ids && id in s.source ==>
        exists m :: at <= m < |acts| && StoresAgain(run[m], acts[m], id)
      ensures !ok ==> acts[|acts| - 1].EraseSource? && !acts[|acts| - 1].ok
    {
      ok := EraseFromSource(op, ByIds(ids));
      at := |acts|;
      if ok {
        OthersRun({op});
        var applied: set<Id> := *;
        Do(EraseVector(op, applied * ids));
        forall id | id in ids && id in s.source
          ensures exists m :: at <= m < |acts| && StoresAgain(run[m], acts[m], id)
        {
          if forall m :: at <= m < |acts| ==> !StoresAgain(run[m], acts[m], id) {
            DeletedStaysOut(dim, run, acts, at, |acts|, id);
          }
        }
      }
    }

    // The answer of the vector store to a query, less the hits below the score bound: any
    // points it holds, in any order.
    method Answer() returns (hits: seq<Id>)
      ensures forall id :: id in hits ==> id in s.vec
    {
      hits := [];
      var n: nat := *;
      while n > 0
        invariant forall id :: id in hits ==> id in s.vec
      {
        var id: Id := *;
        if id in s.vec {
          hits := hits + [id];
        }
        n := n - 1;
      }
    }

    // Reads the hits from the source tier.
    method ReadNow(op: nat, hits: seq<Id>) returns (ok: bool, byId: map<Id, Payload>)
      requires Valid() && op in s.ops && s.ops[op] == ReadingSource(hits)
      modifies this`s, this`run, this`acts
      ensures Valid() && run == old(run) + [s] && acts == old(acts) + [ReadSource(op, ok)]
      ensures s.sync == old(s).sync && s.dead == old(s).dead
      ensures byId == map id | id in old(s).source && id in hits :: old(s).source[id]
      ensures if ok then op in s.ops && s.ops[op] ==
                ErasingOrphans(hits, Live(hits, old(s).source), Orphans(hits, old(s).source))
              else op !in s.ops
    {
      ok := *;
      byId := map id | id in s.source && id in hits :: s.source[id];
      Do(ReadSource(op, ok));
    }

    // Queries the vector tier and reads the hits from the source tier.
    method ReadHits(op: nat) returns (ok: bool, hits: seq<Id>, byId: map<Id, Payload>, ghost asked: nat, ghost at: nat)
      requires Valid() && op !in s.ops
      modifies this
      ensures Grows() && s.sync == old(s.sync) && |old(acts)| <= asked < at < |run|
      ensures acts[asked] == Query(op, hits) && forall id :: id in hits ==> id in run[asked].vec
      ensures !ok || hits == [] ==> op !in s.ops
      ensures ok ==> byId == map id | id in run[at].source && id in hits :: run[at].source[id]
      ensures ok && hits != [] ==>
        op in s.ops && s.ops[op] == ErasingOrphans(hits, Live(hits, run[at].source), Orphans(hits, run[at].source))
    {
      hits := Answer();
      byId, asked := map[], |acts|;
      Do(Query(op, hits));
      at := |acts|;
      if hits == [] {
        return true, hits, byId, asked, at;
      }
      OthersRun({op});
      at := |acts|;
      ok, byId := ReadNow(op, hits);
    }

    // The search's last call: it erases some or all of these orphans.
    ghost predicate Swept(op: nat, o: Op)
      reads this
    {
      && 0 < |acts| < |run| && acts[|acts| - 1].EraseOrphans? && acts[|acts| - 1].op == op
      && op in run[|acts| - 1].ops && run[|acts| - 1].ops[op] == o
    }

    method Sweep(op: nat, orphans: seq<Id>)
      requires Valid() && op in s.ops && s.ops[op].ErasingOrphans? && s.ops[op].orphans == orphans
      modifies this
      ensures Grows() && op !in s.ops && s.sync == old(s.sync) && Swept(op, old(s.ops[op]))
    {
      OthersRun({op});
      var applied: set<Id> := *;
      Do(EraseOrphans(op, applied * (set id | id in orphans)));
    }

    /**
     Runs a vector query and loads the hits from the source tier. The hits were in the vector
     tier when it was asked; what the search returns are those of them that had a readable source
     record at one later moment of the call, in ranking order; those without any are swept.
     */
    method SearchAndHydrate(op: nat)
      returns (ok: bool, memories: seq<Record>, ghost hits: seq<Id>, ghost asked: nat, ghost at: nat)
      requires Valid() && op !in s.ops
      modifies this
      ensures Grows() && op !in s.ops && s.sync == old(s.sync) && |old(acts)| <= asked < at < |run|
      ensures acts[asked] == Query(op, hits) && forall id :: id in hits ==> id in run[asked].vec
      ensures ok ==> memories == Live(hits, run[at].source)
      ensures ok && hits != [] ==> Swept(op, ErasingOrphans(hits, memories, Orphans(hits, run[at].source)))
    {
      var found, byId;
      ok, found, byId, asked, at := ReadHits(op);
      hits, memories := found, [];
      if !ok || found == [] {
        return;
      }
      var orphans;
      memories, orphans := SplitHits(found, byId, run[at].source);
      Sweep(op, orphans);
    }

    /** As Grows, with no new sync run, and only other clients changing the source tier. */
    twostate predicate SameSync()
      reads this
    {
      && Grows()
      && |old(acts)| <= |acts| && (forall i :: |old(acts)| <= i < |acts| ==> !acts[i].SyncStart?)
      && (others == old(others) ==> s.source == old(s).source)
    }

    method Interleave()
      requires Valid()
      modifies this
      ensures SameSync() && s.sync == old(s.sync)
    {
      OthersRun({});
    }

    // Writes the points of one page, retrying as long as the error allows; a write that
    // fails may have stored any part of them.
    method WritePoints() returns (ok: bool)
      requires Valid() && s.sync.Writing?
      modifies this
      ensures SameSync()
      ensures s.sync == if ok then Advance(old(s.sync).next) else Aborted
    {
      var attempt := 0;
      while true
        invariant SameSync() && s.sync == old(s.sync) && attempt <= maxRetries
        decreases maxRetries - attempt
      {
        Interleave();
        var outcome: Outcome := *;
        var written: set<Id> := *;
        if outcome.Retry? && attempt == maxRetries {
          outcome := GiveUp;
        }
        var all := s.sync.points.Keys;
        Do(SyncWrite(outcome, if outcome.Success? then all else written * all));
        if !outcome.Retry? {
          return outcome.Success?;
        }
        attempt := attempt + 1;
      }
    }

    method TakeEmbedStep(results: map<Id, Embedded>)
      requires Valid() && Enabled(dim, s, SyncEmbed(results))
      modifies this`s, this`run, this`acts
      ensures SameSync()
      ensures var missing := old(s.sync).missing;
        s.sync ==
          if Mismatch(dim, missing, results) then Aborted
          else if PointsFor(missing, results) == map[] then Advance(old(s.sync).next)
          else Writing(PointsFor(missing, results), old(s.sync).next)
    {
      Do(SyncEmbed(results));
    }

    method TakeCheckStep()
      requires Valid() && Enabled(dim, s, SyncCheck)
      modifies this`s, this`run, this`acts
      ensures SameSync()
      ensures var missing := Absent(old(s.sync).page, old(s).vec.Keys);
        s.sync == if missing == [] then Advance(old(s.sync).next) else Embedding(missing, old(s.sync).next)
    {
      Do(SyncCheck);
    }

    // Embeds the missing records of a page, all requests in flight at once.
    method EmbedPage() returns (mismatch: bool, points: map<Id, VectorPoint>, failed: nat)
      requires Valid() && s.sync.Embedding?
      requires Ordered(s.sync.missing)
      modifies this
      ensures SameSync()
      ensures s.sync == if mismatch then Aborted
                        else if points == map[] then Advance(old(s.sync).next) else Writing(points, old(s.sync).next)
      ensures !mismatch ==> |points| + failed == |old(s.sync).missing|
    {
      var missing := s.sync.missing;
      var results := EmbedAll(missing);
      Interleave();
      mismatch, points, failed := CollectPoints(dim, missing, results);
      TakeEmbedStep(results);
    }

    /** Embeds and stores the records of one page that have no vector. */
    method SyncPage() returns (err: bool, embedded: nat, failed: nat, present: nat)
      requires Valid() && s.sync.Checking?
      requires Ordered(s.sync.page)
      modifies this
      ensures SameSync()
      ensures s.sync == if err then Aborted else Advance(old(s.sync).next)
      ensures !err ==> embedded + failed + present == |old(s.sync).page|
    {
      var page := s.sync.page;
      embedded, failed, present := 0, 0, 0;
      Interleave();
      var lookupFails: bool := *;
      if lookupFails {
        Do(SyncAbort);
        return true, 0, 0, 0;
      }
      var missing;
      missing, present := FindMissing(page, s.vec.Keys * Ids(page), s.vec.Keys);
      AbsentKeepsOrder(page, s.vec.Keys);
      TakeCheckStep();
      err := false;
      if missing != [] {
        var points;
        err, points, failed := EmbedPage();
        embedded := |points|;
        if !err && points != map[] {
          var ok := WritePoints();
          err := !ok;
        }
      }
    }

    // How many source records the sync has yet to scroll.
    function Ahead(): nat
      reads this
    {
      if s.sync.Scrolling? then 1 + |set id | id in s.source.Keys && From(id, s.sync.offset)| else 0
    }

    // Scrolls the next page, unless the sync is cancelled or the store fails.
    method NextPage() returns (err: bool, page: seq<Record>)
      requires Valid() && s.sync.Scrolling?
      modifies this
      ensures SameSync()
      ensures err ==> s.sync.Aborted?
      ensures !err && page == [] ==> s.sync.Finished?
      ensures !err && page != [] ==> s.sync.Checking? && s.sync.page == page
      ensures !err && page != [] && others == old(others) ==>
        s.source == old(s).source && IsRecordPage(s.source, old(s.sync.offset), page, s.sync.next)
      ensures !err ==> Ordered(page)
    {
      var offset := s.sync.offset;
      Interleave();
      err := *;
      page := [];
      if err {
        Do(SyncAbort);
        return;
      }
      var next;
      page, next := ScrollRecords(s.source, offset);
      Do(SyncScroll(page, next));
    }

    // One page of the sync, and how many of its records were present, embedded and failed.
    method Round() returns (err: bool, scanned: nat, present: nat, embedded: nat, failed: nat)
      requires Valid() && s.sync.Scrolling?
      modifies this
      ensures SameSync()
      ensures if err then s.sync.Aborted? else s.sync.Scrolling? || s.sync.Finished?
      ensures !err ==> scanned == present + embedded + failed
      ensures !err && others == old(others) ==> Ahead() < old(Ahead())
    {
      ghost var before, offset := others, s.sync.offset;
      var page;
      err, page := NextPage();
      scanned, present, embedded, failed := |page|, 0, 0, 0;
      if !err && page != [] {
        ghost var next := s.sync.next;
        err, embedded, failed, present := SyncPage();
        if !err && next.Some? && others == before {
          PagesRunOut(s.source.Keys, offset, SYNC_BATCH_SIZE, RecordIds(page), next);
        }
      }
    }

    /**
     The background sync. Unless it reports an error it ends Finished, having counted every
     record it scanned once as present, embedded or failed; SyncCompletes then says what the
     vector tier holds. It ends: once the other clients pause, the pages run out.
     */
    method SyncVectors() returns (err: bool, scanned: nat, present: nat, embedded: nat, failed: nat)
      requires Valid() && (s.sync.Idle? || s.sync.Finished? || s.sync.Aborted?)
      modifies this
      ensures Grows() && |old(acts)| < |acts| && acts[|old(acts)|] == SyncStart
      ensures forall i :: |old(acts)| < i < |acts| ==> !acts[i].SyncStart?
      ensures s.sync == if err then Aborted else Finished
      ensures !err ==> scanned == present + embedded + failed
      ensures !err ==> forall id :: id in s.stable && id !in s.failed ==> id in s.vec && |s.vec[id].dense| == dim
    {
      scanned, present, embedded, failed := 0, 0, 0, 0;
      Do(SyncStart);
      label started:
      while s.sync.Scrolling?
        invariant SameSync@started()
        invariant s.sync.Scrolling? || s.sync.Finished?
        invariant scanned == present + embedded + failed
        decreases others, Ahead()
      {
        var n, p, e, f;
        err, n, p, e, f := Round();
        if err {
          return;
        }
        scanned, present, embedded, failed := scanned + n, present + p, embedded + e, failed + f;
      }
      err := false;
      RunKeepsInv(dim, run, acts, |acts|);
    }
  }
}
