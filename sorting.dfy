/**
  `characters.sort()` in `construct_frequencies`: the deduplicated vector is
  sorted in place by code point.
*/
module Sorting {

  predicate Sorted(s: seq<char>)
  {
    forall i, j :: 0 <= i < j < |s| ==> s[i] <= s[j]
  }

  predicate StrictlyIncreasing(s: seq<char>)
  {
    forall i, j :: 0 <= i < j < |s| ==> s[i] < s[j]
  }

  /** Exchanges two neighbouring slots; nothing else changes. */
  method SwapAdjacent(a: array<char>, j: nat)
    requires 0 < j < a.Length
    modifies a
    ensures a[j - 1] == old(a[j]) && a[j] == old(a[j - 1])
    ensures forall k :: 0 <= k < a.Length && k != j - 1 && k != j ==> a[k] == old(a[k])
    ensures multiset(a[..]) == old(multiset(a[..]))
  {
    a[j - 1], a[j] := a[j], a[j - 1];
  }

  /**
    Sorts the first `len` slots of `a` (the vector after truncation) into
    ascending order, as a permutation of what they held; the slots beyond
    `len` are untouched. Insertion sort: Rust's slice sort is a stable merge
    sort, and on characters every sorting algorithm yields the same result.
  */
  method Sort(a: array<char>, len: nat)
    requires len <= a.Length
    modifies a
    ensures Sorted(a[..len])
    ensures multiset(a[..len]) == multiset(old(a[..len]))
    ensures a[len..] == old(a[len..])
  {
    ghost var s0 := a[..];
    var i := 0;
    while i < len
      invariant i <= len
      invariant Sorted(a[..i])
      invariant multiset(a[..]) == multiset(s0)
      invariant a[len..] == s0[len..]
    {
      InsertNext(a, i);
      i := i + 1;
    }
    PrefixMultiset(a[..], s0, len);
  }

  /**
    One pass of insertion sort: with `a[..i]` sorted, slides `a[i]` down to
    its place so that `a[..i + 1]` is sorted; only the first i + 1 slots move.
  */
  method InsertNext(a: array<char>, i: nat)
    requires i < a.Length && Sorted(a[..i])
    modifies a
    ensures Sorted(a[..i + 1])
    ensures multiset(a[..]) == multiset(old(a[..]))
    ensures a[i + 1..] == old(a[i + 1..])
  {
    var j := i;
    while j > 0 && a[j - 1] > a[j]
      invariant 0 <= j <= i
      invariant forall x, y :: 0 <= x < y <= i && y != j ==> a[x] <= a[y]
      invariant j < i ==> forall x :: 0 <= x < j ==> a[x] <= a[j + 1]
      invariant multiset(a[..]) == multiset(old(a[..]))
      invariant a[i + 1..] == old(a[i + 1..])
    {
      SwapAdjacent(a, j);
      j := j - 1;
    }
  }

  /** Two sequences with equal multisets and equal tails have equal-multiset heads. */
  lemma PrefixMultiset(s: seq<char>, t: seq<char>, len: nat)
    requires len <= |s| == |t|
    requires multiset(s) == multiset(t) && s[len..] == t[len..]
    ensures multiset(s[..len]) == multiset(t[..len])
  {
    assert s == s[..len] + s[len..];
    assert t == t[..len] + t[len..];
    var ms, mt, tail := multiset(s[..len]), multiset(t[..len]), multiset(s[len..]);
    assert multiset(s) == ms + tail;
    assert multiset(t) == mt + tail;
    forall x
      ensures ms[x] == mt[x]
    {
      assert (ms + tail)[x] == ms[x] + tail[x];
      assert (mt + tail)[x] == mt[x] + tail[x];
    }
  }
}
