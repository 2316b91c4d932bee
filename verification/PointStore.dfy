/** The scroll order of the vector database, shared by the sync and the migration. */
module PointStore {
  import opened Wrappers

  // Record IDs, in the order in which the store scrolls them.
  type Id = nat

  predicate From(id: Id, offset: Option<Id>) {
    offset.None? || offset.value <= id
  }

  predicate Before(id: Id, bound: Option<Id>) {
    bound.None? || id < bound.value
  }

  predicate Ascending(ids: seq<Id>) {
    forall i, j :: 0 <= i < j < |ids| ==> ids[i] < ids[j]
  }

  /** What the store promises of one page of the collection `keys` scrolled from `offset`. */
  predicate IsPage(keys: set<Id>, offset: Option<Id>, limit: nat, page: seq<Id>, next: Option<Id>) {
    && Ascending(page) && |page| <= limit
    && (forall id :: id in page ==> id in keys && From(id, offset) && Before(id, next))
    && (forall id :: id in keys && From(id, offset) && Before(id, next) ==> id in page)
    && (next.Some? ==> |page| == limit && next.value in keys && From(next.value, offset))
  }

  /** The smallest element of a non-empty set. */
  method Least(ids: set<Id>) returns (least: Id)
    requires ids != {}
    ensures least in ids && forall id :: id in ids ==> least <= id
  {
    least :| least in ids;
    var rest := ids - {least};
    while rest != {}
      invariant rest <= ids && least in ids
      invariant forall id :: id in ids ==> id in rest || least <= id
      decreases rest
    {
      var id :| id in rest;
      if id < least {
        least := id;
      }
      rest := rest - {id};
    }
  }

  /** A store's scroll: the first `limit` keys from `offset` on, and where the next page starts. */
  method Scroll(keys: set<Id>, offset: Option<Id>, limit: nat) returns (page: seq<Id>, next: Option<Id>)
    ensures IsPage(keys, offset, limit, page, next)
  {
    var rest := set id | id in keys && From(id, offset);
    page, next := [], None;
    while rest != {}
      invariant next.None? && |page| <= limit && rest <= keys && Ascending(page)
      invariant forall id :: id in rest ==> From(id, offset)
      invariant forall id :: id in page ==> id in keys && From(id, offset)
      invariant forall id :: id in keys && From(id, offset) ==> id in rest || id in page
      invariant forall x, y :: x in page && y in rest ==> x < y
      decreases rest
    {
      var id := Least(rest);
      if |page| == limit {
        next := Some(id);
        return;
      }
      assert forall i :: 0 <= i < |page| ==> page[i] in page;
      page, rest := page + [id], rest - {id};
    }
  }

  lemma {:induction false} Smaller(a: set<Id>, b: set<Id>)
    requires a <= b
    ensures |a| <= |b|
  {
    if a != {} {
      var x :| x in a;
      Smaller(a - {x}, b - {x});
    }
  }

  /** Of an unchanged collection, ever fewer keys are left to scroll. */
  lemma PagesRunOut(keys: set<Id>, offset: Option<Id>, limit: nat, page: seq<Id>, next: Option<Id>)
    requires IsPage(keys, offset, limit, page, next) && page != [] && next.Some?
    ensures |set id | id in keys && From(id, next)| < |set id | id in keys && From(id, offset)|
  {
    var later, all := set id | id in keys && From(id, next), set id | id in keys && From(id, offset);
    assert page[0] in page && later <= all - {page[0]};
    Smaller(later, all - {page[0]});
  }
}
