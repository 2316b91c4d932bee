/** Small datatypes shared by the other modules. */
module Wrappers {

  datatype Option<+T> = None | Some(value: T)

  datatype Result<+T, +E> = Ok(value: T) | Err(error: E)

  // How one attempt of a write to the vector database ended: acknowledged, failed with an
  // error that is retried, or failed for good.
  datatype Outcome = Success | Retry | GiveUp

  /** How often e occurs in s. */
  function Times<T(==)>(s: seq<T>, e: T): nat {
    if s == [] then 0 else Times(s[..|s| - 1], e) + if s[|s| - 1] == e then 1 else 0
  }

  lemma {:induction false} TimesConcat<T>(a: seq<T>, b: seq<T>, e: T)
    ensures Times(a + b, e) == Times(a, e) + Times(b, e)
  {
    if b == [] {
      assert a + b == a;
    } else {
      TimesConcat(a, b[..|b| - 1], e);
      assert (a + b)[..|a + b| - 1] == a + b[..|b| - 1];
    }
  }

  /** The first n members of a list. */
  function Front<T(==)>(s: seq<T>, n: nat): set<T>
    requires n <= |s|
  {
    set i | 0 <= i < n :: s[i]
  }

  lemma FrontMore<T>(s: seq<T>, n: nat)
    requires n < |s|
    ensures Front(s, n + 1) == Front(s, n) + {s[n]}
  {
  }

  lemma {:induction false} FrontSize<T>(s: seq<T>, n: nat)
    requires n <= |s| && forall i, j :: 0 <= i < j < |s| ==> s[i] != s[j]
    ensures |Front(s, n)| == n
  {
    if n > 0 {
      FrontSize(s, n - 1);
      FrontMore(s, n - 1);
    }
  }

  lemma FrontIsAll<T>(s: seq<T>, all: set<T>)
    requires forall x :: x in s <==> x in all
    ensures Front(s, |s|) == all
  {
  }
}
