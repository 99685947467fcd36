/**
 * Chained Mongoid `where` criteria, executed against an ordered collection.
 * `Where(s, p)` is what iterating a criteria with condition `p` over the
 * collection `s` yields: the documents satisfying `p`, in collection order.
 * Chaining two criteria is the conjunction of their conditions.
 */
module Criteria {

  /** `r` is obtained from `s` by deleting elements (order kept). */
  predicate IsSubsequence<T(==,!new)>(r: seq<T>, s: seq<T>)
    decreases |s|
  {
    |r| <= |s| &&
    (r == [] || if r[0] == s[0] then IsSubsequence(r[1..], s[1..]) else IsSubsequence(r, s[1..]))
  }

  function Where<T(==,!new)>(s: seq<T>, p: T -> bool): (r: seq<T>)
    ensures |r| <= |s|
    ensures forall x :: x in r <==> x in s && p(x)
    decreases |s|
  {
    if |s| == 0 then []
    else if p(s[0]) then [s[0]] + Where(s[1..], p)
    else Where(s[1..], p)
  }

  /** Filtering only removes elements and keeps the order of the rest. */
  lemma {:induction false} WhereIsSubsequence<T(!new)>(s: seq<T>, p: T -> bool)
    ensures IsSubsequence(Where(s, p), s)
    decreases |s|
  {
    if |s| > 0 {
      WhereIsSubsequence(s[1..], p);
      var r := Where(s, p);
      if p(s[0]) {
        assert r[0] == s[0] && r[1..] == Where(s[1..], p);
      } else if r != [] {
        assert r[0] in r;
      }
    }
  }

  /** Every occurrence of a kept value survives, duplicates included. */
  lemma {:induction false} WhereCount<T(!new)>(s: seq<T>, p: T -> bool, x: T)
    ensures multiset(Where(s, p))[x] == if p(x) then multiset(s)[x] else 0
    decreases |s|
  {
    if |s| > 0 {
      WhereCount(s[1..], p, x);
      assert s == [s[0]] + s[1..];
    }
  }

  /** `WhereCount` for every value at once. */
  lemma WhereCountAll<T(!new)>(s: seq<T>, p: T -> bool)
    ensures forall x :: multiset(Where(s, p))[x] == if p(x) then multiset(s)[x] else 0
  {
    forall x
      ensures multiset(Where(s, p))[x] == if p(x) then multiset(s)[x] else 0
    {
      WhereCount(s, p, x);
    }
  }

  /** A condition every element meets removes nothing. */
  lemma {:induction false} WhereKeepsAll<T(!new)>(s: seq<T>, p: T -> bool)
    requires forall i :: 0 <= i < |s| ==> p(s[i])
    ensures Where(s, p) == s
    decreases |s|
  {
    if |s| > 0 {
      WhereKeepsAll(s[1..], p);
      assert s == [s[0]] + s[1..];
    }
  }

  /** A condition no element meets removes everything. */
  lemma {:induction false} WhereKeepsNone<T(!new)>(s: seq<T>, p: T -> bool)
    requires forall x :: x in s ==> !p(x)
    ensures Where(s, p) == []
    decreases |s|
  {
    if |s| > 0 {
      assert s[0] in s;
      assert forall x :: x in s[1..] ==> x in s;
      WhereKeepsNone(s[1..], p);
    }
  }

  /** Conditions that agree on the collection select the same documents. */
  lemma {:induction false} WhereAgree<T(!new)>(s: seq<T>, p: T -> bool, q: T -> bool)
    requires forall x :: x in s ==> p(x) == q(x)
    ensures Where(s, p) == Where(s, q)
    decreases |s|
  {
    if |s| > 0 {
      assert s[0] in s;
      assert forall x :: x in s[1..] ==> x in s;
      WhereAgree(s[1..], p, q);
    }
  }

  /** `where(p).where(q)` is `where(p AND q)`. */
  lemma {:induction false} WhereChain<T(!new)>(s: seq<T>, p: T -> bool, q: T -> bool, pq: T -> bool)
    requires forall x :: x in s ==> pq(x) == (p(x) && q(x))
    ensures Where(Where(s, p), q) == Where(s, pq)
    decreases |s|
  {
    if |s| > 0 {
      assert s[0] in s;
      assert forall x :: x in s[1..] ==> x in s;
      WhereChain(s[1..], p, q, pq);
    }
  }

  /**
   * One guarded step `s = s.where(q) if apply` of a criteria built up so far
   * as `k`: the result is the criteria `k AND (apply ==> q)`.
   */
  lemma GuardedWhere<T(!new)>(s: seq<T>, k: T -> bool, apply: bool, q: T -> bool, k': T -> bool)
    requires forall x :: x in s ==> k'(x) == (k(x) && (apply ==> q(x)))
    ensures (if apply then Where(Where(s, k), q) else Where(s, k)) == Where(s, k')
  {
    if apply {
      WhereChain(s, k, q, k');
    } else {
      WhereAgree(s, k, k');
    }
  }
}
