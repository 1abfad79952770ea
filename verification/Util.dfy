/** Shared definitions. */
module Util {
  datatype Option<T> = None | Some(value: T)

  datatype Result<T, E> = Ok(value: T) | Err(error: E)

  const EINVAL := 22

  function Min(a: nat, b: nat): nat { if a < b then a else b }

  ghost predicate Distinct<T>(q: seq<T>) {
    forall i, j :: 0 <= i < j < |q| ==> q[i] != q[j]
  }

  lemma TailOf<T>(q: seq<T>)
    requires q != []
    ensures forall x :: x in q[1..] ==> x in q
  {
  }

  lemma {:induction false} CountDistinct<T>(q: seq<T>, x: T)
    requires Distinct(q)
    ensures multiset(q)[x] == if x in q then 1 else 0
  {
    if q == [] {
    } else {
      var init := q[..|q| - 1];
      CountDistinct(init, x);
      assert q == init + [q[|q| - 1]];
    }
  }

  function Elements(q: seq<nat>): set<nat> { set x: nat | x in q }

  /** Pigeonhole: numbers below n without repeats are at most n many. */
  lemma FewDistinct(q: seq<nat>, n: nat)
    requires Distinct(q) && forall i :: 0 <= i < |q| ==> q[i] < n
    ensures |q| <= n
  {
    DistinctSize(q);
    forall x | x in Elements(q) ensures x < n { }
    SubsetSize(Elements(q), n);
  }

  lemma {:induction false} DistinctSize(q: seq<nat>)
    requires Distinct(q)
    ensures |Elements(q)| == |q|
  {
    if q == [] {
    } else {
      var init, last := q[..|q| - 1], q[|q| - 1];
      DistinctSize(init);
      assert q == init + [last];
      assert Elements(q) == Elements(init) + {last};
      assert last !in Elements(init);
    }
  }

  lemma {:induction false} SubsetSize(s: set<nat>, n: nat)
    requires forall x :: x in s ==> x < n
    ensures |s| <= n
  {
    if n == 0 {
      assert s == {};
    } else {
      SubsetSize(s - {n - 1}, n - 1);
    }
  }
}
