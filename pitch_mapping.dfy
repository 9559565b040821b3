/**
  `construct_frequencies`: the cleaned text is deduplicated and sorted by
  code point, and the character at sorted position i is mapped to
  `scale_pitch(i)`.
*/
module PitchMapping {
  import opened Primitives
  import opened Cleaning
  import opened Deduplication
  import opened Sorting

  /** How many keys lie strictly below `c`: the position of `c` in the sorted keys. */
  function Rank(keys: set<char>, c: char): nat
  {
    |set d | d in keys && d < c|
  }

  /**
    The pitch map as a value: every character of the cleaned text, mapped to
    the pitch of its rank among those characters.
  */
  function PitchMap(p: Platform, source: string): map<char, real>
  {
    var keys := Elems(CleanSource(p, source));
    map c | c in keys :: ScalePitch(p, Rank(keys, c) as real)
  }

  /** `enumerate().map(|(i, e)| (e, scale_pitch(i as Hz)))` over the sorted characters. */
  function Enumerate(p: Platform, s: seq<char>): (pairs: seq<(char, real)>)
    ensures |pairs| == |s|
  {
    seq(|s|, i requires 0 <= i < |s| => (s[i], ScalePitch(p, i as real)))
  }

  /** `HashMap::from_iter`: pairs are inserted in order, a later key overwriting an earlier one. */
  function FromIter(pairs: seq<(char, real)>): map<char, real>
  {
    if pairs == [] then map[]
    else
      var last := pairs[|pairs| - 1];
      FromIter(pairs[..|pairs| - 1])[last.0 := last.1]
  }

  /** The keys of the built map are the first components of the pairs. */
  lemma {:induction false} FromIterKeys(pairs: seq<(char, real)>)
    ensures forall c :: c in FromIter(pairs) <==> exists i :: 0 <= i < |pairs| && pairs[i].0 == c
  {
    if pairs != [] {
      var init := pairs[..|pairs| - 1];
      FromIterKeys(init);
      forall c | c in FromIter(pairs)
        ensures exists i :: 0 <= i < |pairs| && pairs[i].0 == c
      {
        if c in FromIter(init) {
          var i :| 0 <= i < |init| && init[i].0 == c;
          assert pairs[i].0 == c;
        } else {
          assert pairs[|pairs| - 1].0 == c;
        }
      }
      forall c | exists i :: 0 <= i < |pairs| && pairs[i].0 == c
        ensures c in FromIter(pairs)
      {
        var i :| 0 <= i < |pairs| && pairs[i].0 == c;
        if i < |init| {
          assert init[i].0 == c;
        }
      }
    }
  }

  /** With distinct keys, each key is bound to its own pair's value. */
  lemma {:induction false} FromIterValue(pairs: seq<(char, real)>, k: nat)
    requires k < |pairs|
    requires forall i, j :: 0 <= i < j < |pairs| ==> pairs[i].0 != pairs[j].0
    ensures pairs[k].0 in FromIter(pairs) && FromIter(pairs)[pairs[k].0] == pairs[k].1
  {
    var init := pairs[..|pairs| - 1];
    if k < |init| {
      FromIterValue(init, k);
      assert pairs[k] == init[k];
    }
  }

  /** Strictly increasing sequences hold no duplicates. */
  lemma IncreasingNoDuplicates(s: seq<char>)
    requires StrictlyIncreasing(s)
    ensures NoDuplicates(s)
  {
  }

  /** In a strictly increasing sequence, the rank of the element at position i is i. */
  lemma RankInIncreasing(s: seq<char>, i: nat)
    requires StrictlyIncreasing(s) && i < |s|
    ensures Rank(Elems(s), s[i]) == i
  {
    var below := set d | d in Elems(s) && d < s[i];
    assert below == Elems(s[..i]) by {
      forall d | d in below
        ensures d in Elems(s[..i])
      {
        var k :| 0 <= k < |s| && s[k] == d;
        assert k < i;
        assert s[..i][k] == d;
      }
    }
    IncreasingNoDuplicates(s[..i]);
    NoDuplicatesCardinality(s[..i]);
  }

  /** The keys of the enumerated map are the enumerated characters. */
  lemma EnumeratedKeys(p: Platform, s: seq<char>)
    ensures FromIter(Enumerate(p, s)).Keys == Elems(s)
  {
    var pairs := Enumerate(p, s);
    FromIterKeys(pairs);
    forall c | c in Elems(s)
      ensures c in FromIter(pairs)
    {
      var i :| 0 <= i < |s| && s[i] == c;
      assert pairs[i].0 == c;
    }
  }

  /**
    The enumerated sorted characters, collected into a map, bind each
    character to the pitch of its rank.
  */
  lemma EnumeratedMap(p: Platform, s: seq<char>)
    requires StrictlyIncreasing(s)
    ensures FromIter(Enumerate(p, s)) == map c | c in Elems(s) :: ScalePitch(p, Rank(Elems(s), c) as real)
  {
    var pairs := Enumerate(p, s);
    var m := FromIter(pairs);
    var spec := map c | c in Elems(s) :: ScalePitch(p, Rank(Elems(s), c) as real);
    EnumeratedKeys(p, s);
    forall c | c in spec
      ensures m[c] == spec[c]
    {
      var i :| 0 <= i < |s| && s[i] == c;
      EnumeratedValue(p, s, i);
    }
  }

  /** The character at index i is bound to the pitch of i, which is its rank. */
  lemma EnumeratedValue(p: Platform, s: seq<char>, i: nat)
    requires StrictlyIncreasing(s) && i < |s|
    ensures s[i] in FromIter(Enumerate(p, s))
    ensures FromIter(Enumerate(p, s))[s[i]] == ScalePitch(p, Rank(Elems(s), s[i]) as real)
  {
    var pairs := Enumerate(p, s);
    assert forall a, b :: 0 <= a < b < |pairs| ==> pairs[a].0 != pairs[b].0;
    FromIterValue(pairs, i);
    RankInIncreasing(s, i);
  }

  /**
    A sorted rearrangement of a duplicate-free sequence is strictly
    increasing and has the same elements.
  */
  lemma SortedDistinct(s: seq<char>, d: seq<char>)
    requires Sorted(s) && multiset(s) == multiset(d) && NoDuplicates(d)
    ensures StrictlyIncreasing(s) && Elems(s) == Elems(d)
  {
    assert Elems(s) == Elems(d) by {
      forall x
        ensures x in s <==> x in d
      {
        assert x in s <==> x in multiset(s);
        assert x in d <==> x in multiset(d);
      }
    }
    forall i, j | 0 <= i < j < |s|
      ensures s[i] != s[j]
    {
      NoDuplicatesCount(d, s[i]);
      RepeatCount(s, i, j);
    }
  }

  /** No element occurs twice in a duplicate-free sequence. */
  lemma {:induction false} NoDuplicatesCount(d: seq<char>, x: char)
    requires NoDuplicates(d)
    ensures multiset(d)[x] <= 1
  {
    if d != [] {
      assert d == [d[0]] + d[1..];
      NoDuplicatesCount(d[1..], x);
      assert d[0] !in d[1..];
      if x == d[0] {
        assert multiset(d[1..])[x] == 0;
      }
    }
  }

  /** Equal elements at two positions occur at least twice. */
  lemma RepeatCount(s: seq<char>, i: nat, j: nat)
    requires i < j < |s|
    ensures s[i] == s[j] ==> multiset(s)[s[i]] >= 2
  {
    assert s == s[..i] + [s[i]] + s[i + 1..j] + [s[j]] + s[j + 1..];
  }

  /**
    `construct_frequencies`: clean, collect into a vector, deduplicate and
    sort it in place, then map each character to the pitch of its index.
    The result is the pitch map of the text.
  */
  method ConstructFrequencies(p: Platform, source: string) returns (m: map<char, real>)
    ensures m == PitchMap(p, source)
  {
    var cleaned := CleanSource(p, source);
    var characters := new char[|cleaned|](i requires 0 <= i < |cleaned| => cleaned[i]);
    assert characters[..] == cleaned;
    var len := Dedup(characters);
    ghost var deduplicated := characters[..len];
    Sort(characters, len);
    m := FromIter(Enumerate(p, characters[..len]));

    SortedDistinct(characters[..len], deduplicated);
    EnumeratedMap(p, characters[..len]);
  }

  /**
    Any strictly increasing listing of the cleaned characters, enumerated and
    collected, gives the pitch map: the map does not depend on how the
    characters were sorted.
  */
  lemma PitchMapFromSorted(p: Platform, source: string, s: seq<char>)
    requires StrictlyIncreasing(s) && Elems(s) == Elems(CleanSource(p, source))
    ensures PitchMap(p, source) == FromIter(Enumerate(p, s))
  {
    EnumeratedMap(p, s);
  }

  /** The pitch map's keys are exactly the lowered input characters that pass the filter. */
  lemma PitchMapKeys(p: Platform, source: string, c: char)
    ensures c in PitchMap(p, source) <==>
      exists i :: 0 <= i < |source| && ToAsciiLowercase(source[i]) == c && Kept(p, c)
    ensures c in PitchMap(p, source) ==> Kept(p, c) && !IsAsciiUppercase(c)
  {
    CleanSourceMember(p, source, c);
  }

  /** Each character's pitch is the pitch of its rank among the map's keys. */
  lemma PitchMapValues(p: Platform, source: string, c: char)
    requires c in PitchMap(p, source)
    ensures PitchMap(p, source)[c] == ScalePitch(p, Rank(PitchMap(p, source).Keys, c) as real)
  {
    var keys := Elems(CleanSource(p, source));
    assert PitchMap(p, source).Keys == keys;
  }

  /** A text with no surviving character has an empty pitch map, and only such a text. */
  lemma PitchMapEmpty(p: Platform, source: string)
    ensures PitchMap(p, source) == map[] <==> CleanSource(p, source) == []
  {
    var cleaned := CleanSource(p, source);
    if cleaned != [] {
      assert cleaned[0] in PitchMap(p, source);
    }
  }

  /** Ranks are indices into the keys: each lies below the number of keys. */
  lemma RankBelowSize(keys: set<char>, c: char)
    requires c in keys
    ensures Rank(keys, c) < |keys|
  {
    var below := set d | d in keys && d < c;
    SubsetCardinality(below, keys - {c});
  }

  lemma SubsetCardinality(a: set<char>, b: set<char>)
    requires a <= b
    ensures |a| <= |b|
  {
    assert b == a + (b - a);
  }

  /** Ranks follow code-point order, in both directions. */
  lemma RankOrder(keys: set<char>, c1: char, c2: char)
    requires c1 in keys && c2 in keys
    ensures c1 < c2 <==> Rank(keys, c1) < Rank(keys, c2)
  {
    var b1 := set d | d in keys && d < c1;
    var b2 := set d | d in keys && d < c2;
    if c1 < c2 {
      assert b1 <= b2 && c1 in b2 - b1;
      assert b2 == b1 + (b2 - b1);
      assert |b2 - b1| >= 1;
    } else {
      SubsetCardinality(b2, b1);
    }
  }

  /** A non-empty set of characters has a least element. */
  lemma {:induction false} Minimum(keys: set<char>) returns (m: char)
    requires keys != {}
    ensures m in keys && forall d :: d in keys ==> m <= d
    decreases |keys|
  {
    var x :| x in keys;
    if keys == {x} {
      m := x;
    } else {
      var rest := keys - {x};
      assert keys == rest + {x};
      var r := Minimum(rest);
      m := if x < r then x else r;
    }
  }

  /** The keys can be listed in ascending order. */
  lemma {:induction false} SortedKeys(keys: set<char>) returns (s: seq<char>)
    ensures StrictlyIncreasing(s) && Elems(s) == keys
    decreases |keys|
  {
    if keys == {} {
      s := [];
    } else {
      var m := Minimum(keys);
      var rest := SortedKeys(keys - {m});
      s := [m] + rest;
      forall i, j | 0 <= i < j < |s|
        ensures s[i] < s[j]
      {
        assert s[j] == rest[j - 1] && s[j] in Elems(rest);
        if i > 0 {
          assert s[i] == rest[i - 1];
        }
      }
      assert Elems(s) == {m} + Elems(rest);
    }
  }

  /** Every index below the number of keys is the rank of some key. */
  lemma RankOnto(keys: set<char>, i: nat)
    requires i < |keys|
    ensures exists c :: c in keys && Rank(keys, c) == i
  {
    var s := SortedKeys(keys);
    IncreasingNoDuplicates(s);
    NoDuplicatesCardinality(s);
    RankInIncreasing(s, i);
    assert s[i] in keys;
  }
}
