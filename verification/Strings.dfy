/** Strings in the order of Go's `<`, and sorting by it. */
module Strings {

  predicate Less(a: string, b: string) {
    b != "" && (a == "" || a[0] < b[0] || (a[0] == b[0] && Less(a[1..], b[1..])))
  }

  lemma {:induction false} LessIsTotal(a: string, b: string)
    ensures a == b || Less(a, b) || Less(b, a)
    ensures !(Less(a, b) && Less(b, a)) && !Less(a, a)
  {
    if a != "" && b != "" {
      LessIsTotal(a[1..], b[1..]);
      LessIsTotal(a[1..], a[1..]);
      assert a == [a[0]] + a[1..] && b == [b[0]] + b[1..];
    } else if a != "" {
      LessIsTotal(a[1..], a[1..]);
    }
  }

  lemma {:induction false} LessIsTransitive(a: string, b: string, c: string)
    requires Less(a, b) && Less(b, c)
    ensures Less(a, c)
  {
    if a != "" && a[0] == b[0] == c[0] {
      LessIsTransitive(a[1..], b[1..], c[1..]);
    }
  }

  predicate Ascending(s: seq<string>) {
    forall i, j :: 0 <= i < j < |s| ==> !Less(s[j], s[i])
  }

  function InsertSorted(s: seq<string>, x: string): seq<string> {
    if s == [] || !Less(x, s[|s| - 1]) then s + [x] else InsertSorted(s[..|s| - 1], x) + [s[|s| - 1]]
  }

  /** sort.Strings. */
  function Sorted(s: seq<string>): seq<string> {
    if s == [] then [] else InsertSorted(Sorted(s[..|s| - 1]), s[|s| - 1])
  }

  lemma {:induction false} InsertedMembers(s: seq<string>, x: string)
    ensures multiset(InsertSorted(s, x)) == multiset(s) + multiset{x}
  {
    if s != [] && Less(x, s[|s| - 1]) {
      InsertedMembers(s[..|s| - 1], x);
      assert s == s[..|s| - 1] + [s[|s| - 1]];
    }
  }

  predicate NoneGreater(s: seq<string>, x: string) {
    forall i :: 0 <= i < |s| ==> !Less(x, s[i])
  }

  lemma AscendingMore(s: seq<string>, x: string)
    requires Ascending(s) && NoneGreater(s, x)
    ensures Ascending(s + [x])
  {
  }

  // What is not less than the last is not less than any.
  lemma LastIsGreatest(s: seq<string>, x: string)
    requires Ascending(s) && s != [] && !Less(x, s[|s| - 1])
    ensures NoneGreater(s, x)
  {
    var last := s[|s| - 1];
    forall i | 0 <= i < |s|
      ensures !Less(x, s[i])
    {
      LessIsTotal(s[i], last);
      if Less(x, s[i]) && s[i] != last {
        LessIsTransitive(x, s[i], last);
      }
    }
  }

  lemma {:induction false} InsertedNoneGreater(s: seq<string>, x: string, y: string)
    requires NoneGreater(s, y) && !Less(y, x)
    ensures NoneGreater(InsertSorted(s, x), y)
  {
    if s != [] && Less(x, s[|s| - 1]) {
      InsertedNoneGreater(s[..|s| - 1], x, y);
    }
  }

  lemma {:induction false} InsertedIsAscending(s: seq<string>, x: string)
    requires Ascending(s)
    ensures Ascending(InsertSorted(s, x))
  {
    if s != [] {
      var rest, last := s[..|s| - 1], s[|s| - 1];
      if Less(x, last) {
        InsertedIsAscending(rest, x);
        LessIsTotal(x, last);
        InsertedNoneGreater(rest, x, last);
        AscendingMore(InsertSorted(rest, x), last);
      } else {
        LastIsGreatest(s, x);
        AscendingMore(s, x);
      }
    }
  }

  /** Sorting orders. */
  lemma {:induction false} SortedIsAscending(s: seq<string>)
    ensures Ascending(Sorted(s))
  {
    if s != [] {
      SortedIsAscending(s[..|s| - 1]);
      InsertedIsAscending(Sorted(s[..|s| - 1]), s[|s| - 1]);
    }
  }

  /** And it only rearranges. */
  lemma {:induction false} SortedIsRearranged(s: seq<string>)
    ensures multiset(Sorted(s)) == multiset(s)
  {
    if s != [] {
      SortedIsRearranged(s[..|s| - 1]);
      InsertedMembers(Sorted(s[..|s| - 1]), s[|s| - 1]);
      assert s == s[..|s| - 1] + [s[|s| - 1]];
    }
  }

  lemma SortedMembers(s: seq<string>, x: string)
    ensures x in Sorted(s) <==> x in s
  {
    SortedIsRearranged(s);
    assert x in Sorted(s) <==> x in multiset(Sorted(s));
  }
}
