/** Sequence helpers shared by the registries: the positions a Java stream
    `filter` keeps, and the elements at those positions. */
module Seqs {
  import opened Wrappers

  /** The indices 0, 1, ..., n - 1. */
  function Range(n: nat): (r: seq<nat>)
    ensures |r| == n && forall k :: 0 <= k < n ==> r[k] == k
  {
    seq(n, k => k)
  }

  /** The positions of the elements of `s` that satisfy `p`, in increasing
      order: a filter that keeps the list order. */
  function FilterIndices<T>(s: seq<T>, p: T -> bool): (r: seq<nat>)
    ensures forall k :: 0 <= k < |r| ==> r[k] < |s| && p(s[r[k]])
    ensures forall a, b :: 0 <= a < b < |r| ==> r[a] < r[b]
    ensures forall i :: 0 <= i < |s| && p(s[i]) ==> i in r
    ensures |r| <= |s|
    decreases |s|
  {
    if s == [] then []
    else
      var init := s[..|s| - 1];
      var r0 := FilterIndices(init, p);
      assert forall i :: 0 <= i < |init| ==> init[i] == s[i];
      if p(s[|s| - 1]) then r0 + [|s| - 1] else r0
  }

  /** The elements of `s` at the positions `idx`, in that order. */
  function Select<T>(s: seq<T>, idx: seq<nat>): (r: seq<T>)
    requires forall k :: 0 <= k < |idx| ==> idx[k] < |s|
    ensures |r| == |idx| && forall k :: 0 <= k < |idx| ==> r[k] == s[idx[k]]
  {
    seq(|idx|, k requires 0 <= k < |idx| => s[idx[k]])
  }

  /** The first position of an element that satisfies `p`: a stream's
      `filter(p).findFirst()`. */
  function FirstIndex<T>(s: seq<T>, p: T -> bool): (r: Option<nat>)
    ensures r.Some? ==> r.value < |s| && p(s[r.value])
    ensures r.Some? ==> forall k :: 0 <= k < r.value ==> !p(s[k])
    ensures r.None? <==> forall k :: 0 <= k < |s| ==> !p(s[k])
  {
    if s == [] then None
    else if p(s[0]) then Some(0)
    else
      var r := FirstIndex(s[1..], p);
      assert forall k :: 1 <= k < |s| ==> s[k] == s[1..][k - 1];
      if r.None? then None else Some(r.value + 1)
  }

  /** `List.remove(x)`: the list without the first occurrence of `x`, or
      unchanged when `x` does not occur. */
  function RemoveFirst<T(==)>(s: seq<T>, x: T): (r: seq<T>)
    ensures x !in s ==> r == s
    ensures x in s ==> exists i :: 0 <= i < |s| && s[i] == x && x !in s[..i] && r == s[..i] + s[i + 1..]
    ensures multiset(r) == multiset(s) - multiset{x}
  {
    var found := FirstIndex(s, y => y == x);
    if found.None? then s
    else
      var i := found.value;
      assert s == s[..i] + [s[i]] + s[i + 1..];
      assert x !in s[..i];
      s[..i] + s[i + 1..]
  }

  /** Appending one element extends the filter by its position exactly
      when the element passes. */
  lemma FilterIndicesAppend<T>(s: seq<T>, x: T, p: T -> bool)
    ensures FilterIndices(s + [x], p) == FilterIndices(s, p) + (if p(x) then [|s|] else [])
  {
    assert (s + [x])[..|s|] == s;
  }

  /** Two predicates that agree on every element keep the same positions. */
  lemma {:induction false} FilterIndicesAgree<T>(s: seq<T>, p: T -> bool, q: T -> bool)
    requires forall i :: 0 <= i < |s| ==> p(s[i]) == q(s[i])
    ensures FilterIndices(s, p) == FilterIndices(s, q)
    decreases |s|
  {
    if s != [] {
      FilterIndicesAgree(s[..|s| - 1], p, q);
    }
  }

  /** A predicate that every element passes keeps every position. */
  lemma {:induction false} FilterIndicesAll<T>(s: seq<T>, p: T -> bool)
    requires forall i :: 0 <= i < |s| ==> p(s[i])
    ensures FilterIndices(s, p) == Range(|s|)
  {
    if s != [] {
      var init := s[..|s| - 1];
      FilterIndicesAll(init, p);
      assert Range(|s|) == Range(|init|) + [|s| - 1];
    }
  }

  /** A predicate that no element passes keeps nothing. */
  lemma FilterIndicesNone<T>(s: seq<T>, p: T -> bool)
    requires forall i :: 0 <= i < |s| ==> !p(s[i])
    ensures FilterIndices(s, p) == []
  {
  }

  /** Filtering by a predicate and by its complement splits the sequence:
      the two counts add up to its length. */
  lemma {:induction false} FilterComplementCount<T>(s: seq<T>, p: T -> bool, q: T -> bool)
    requires forall x :: q(x) == !p(x)
    ensures |FilterIndices(s, p)| + |FilterIndices(s, q)| == |s|
  {
    if s != [] {
      FilterComplementCount(s[..|s| - 1], p, q);
    }
  }
}
