/**
  `dedup`: `Vec::retain` with a set of characters seen so far, keeping the
  first occurrence of each character.
*/
module Deduplication {

  /** The set of elements of a sequence. */
  function Elems<T>(s: seq<T>): set<T>
  {
    set x | x in s
  }

  predicate NoDuplicates<T(==)>(s: seq<T>)
  {
    forall i, j :: 0 <= i < j < |s| ==> s[i] != s[j]
  }

  /**
    What `dedup` leaves of `s`: an element is kept exactly when it does not
    occur earlier. The result holds each element of `s` once.
  */
  function Distinct(s: seq<char>): (r: seq<char>)
    ensures NoDuplicates(r)
    ensures Elems(r) == Elems(s)
  {
    if s == [] then []
    else
      var init, last := s[..|s| - 1], s[|s| - 1];
      assert s == init + [last] && Elems(s) == Elems(init) + {last};
      if last in init then Distinct(init)
      else
        var d := Distinct(init);
        assert last !in Elems(d);
        assert Elems(d + [last]) == Elems(d) + {last};
        d + [last]
  }

  /** The position of the first occurrence of `c` in `s`. */
  function FirstIndex(s: seq<char>, c: char): (i: nat)
    requires c in s
    ensures i < |s| && s[i] == c && c !in s[..i]
  {
    if s[0] == c then 0
    else
      assert s[1..][..FirstIndex(s[1..], c)] == s[1..1 + FirstIndex(s[1..], c)];
      1 + FirstIndex(s[1..], c)
  }

  /** Appending an element does not move an existing first occurrence. */
  lemma FirstIndexAppend(s: seq<char>, x: char, c: char)
    requires c in s
    ensures FirstIndex(s + [x], c) == FirstIndex(s, c)
  {
    var a, b := FirstIndex(s + [x], c), FirstIndex(s, c);
    assert (s + [x])[b] == c;
  }

  /** Every element of `d` occurs in `s`, and earlier in `d` means first seen earlier in `s`. */
  predicate InFirstOccurrenceOrder(d: seq<char>, s: seq<char>)
  {
    (forall k :: 0 <= k < |d| ==> d[k] in s) &&
    (forall i, j :: 0 <= i < j < |d| ==> FirstIndex(s, d[i]) < FirstIndex(s, d[j]))
  }

  /**
    The kept elements appear in the order of their first occurrences in `s`:
    together with the contract of Distinct this says `dedup` keeps the first
    occurrence of each element, in the original relative order.
  */
  lemma {:induction false} DistinctKeepsFirstOccurrences(s: seq<char>)
    ensures InFirstOccurrenceOrder(Distinct(s), s)
  {
    if s == [] {
      assert Distinct(s) == [];
    } else {
      var init, last := s[..|s| - 1], s[|s| - 1];
      assert s == init + [last];
      DistinctKeepsFirstOccurrences(init);
      var d0 := Distinct(init);
      if last in init {
        assert Distinct(s) == d0;
        OrderAfterAppend(d0, init, last);
      } else {
        assert Distinct(s) == d0 + [last];
        OrderAfterAppendNew(d0, init, last);
      }
    }
  }

  /** Appending to `s` keeps the first-occurrence order of `d`. */
  lemma OrderAfterAppend(d: seq<char>, s: seq<char>, last: char)
    requires InFirstOccurrenceOrder(d, s)
    ensures InFirstOccurrenceOrder(d, s + [last])
  {
    var t := s + [last];
    forall i, j | 0 <= i < j < |d|
      ensures FirstIndex(t, d[i]) < FirstIndex(t, d[j])
    {
      FirstIndexAppend(s, last, d[i]);
      FirstIndexAppend(s, last, d[j]);
    }
  }

  /** Appending an element new to `s` to both sequences keeps the order. */
  lemma OrderAfterAppendNew(d: seq<char>, s: seq<char>, last: char)
    requires InFirstOccurrenceOrder(d, s) && Elems(d) == Elems(s) && last !in s
    ensures InFirstOccurrenceOrder(d + [last], s + [last])
  {
    OrderAfterAppend(d, s, last);
    var t := s + [last];
    assert t[..|s|] == s;
    assert FirstIndex(t, last) == |s|;
    forall i | 0 <= i < |d|
      ensures FirstIndex(t, d[i]) < FirstIndex(t, last)
    {
      assert d[i] in Elems(d);
      FirstIndexAppend(s, last, d[i]);
    }
  }

  /** A sequence without duplicates is left as it is. */
  lemma {:induction false} DistinctOfNoDuplicates(s: seq<char>)
    requires NoDuplicates(s)
    ensures Distinct(s) == s
  {
    if s != [] {
      var init, last := s[..|s| - 1], s[|s| - 1];
      assert s == init + [last];
      DistinctOfNoDuplicates(init);
      assert last !in init;
    }
  }

  /** Deduplicating twice is the same as deduplicating once. */
  lemma DistinctIdempotent(s: seq<char>)
    ensures Distinct(Distinct(s)) == Distinct(s)
  {
    DistinctOfNoDuplicates(Distinct(s));
  }

  /** A sequence without duplicates has as many elements as its length. */
  lemma {:induction false} NoDuplicatesCardinality<T>(s: seq<T>)
    requires NoDuplicates(s)
    ensures |Elems(s)| == |s|
  {
    if s != [] {
      var init, last := s[..|s| - 1], s[|s| - 1];
      assert s == init + [last];
      NoDuplicatesCardinality(init);
      assert Elems(s) == Elems(init) + {last};
      assert last !in Elems(init);
    }
  }

  /**
    `dedup` on the vector held in `a`: `retain` moves each element whose
    insertion into the seen-set succeeds to the next free slot; the vector is
    then truncated to the returned length.
  */
  method Dedup(a: array<char>) returns (len: nat)
    modifies a
    ensures len <= a.Length
    ensures a[..len] == Distinct(old(a[..]))
  {
    ghost var s := a[..];
    var uniques: set<char> := {};
    len := 0;
    var i := 0;
    while i < a.Length
      invariant len <= i <= a.Length
      invariant a[..len] == Distinct(s[..i])
      invariant a[i..] == s[i..]
      invariant uniques == Elems(s[..i])
    {
      var c := a[i];
      ghost var prefix := s[..i];
      assert s[i] == c && s[..i + 1] == prefix + [c];
      assert c in uniques <==> c in prefix;
      var inserted := c !in uniques;
      uniques := uniques + {c};
      if inserted {
        assert Distinct(prefix + [c]) == Distinct(prefix) + [c] by {
          assert (prefix + [c])[..|prefix|] == prefix;
        }
        a[len] := c;
        assert a[..len + 1] == a[..len] + [c];
        len := len + 1;
      } else {
        assert Distinct(prefix + [c]) == Distinct(prefix) by {
          assert (prefix + [c])[..|prefix|] == prefix;
        }
      }
      assert a[i + 1..] == s[i + 1..];
      i := i + 1;
    }
    assert s[..i] == s;
  }
}
