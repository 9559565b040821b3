/**
  `clean_source`: lowercase the ASCII letters of a text and keep, in order,
  only the characters that are alphanumeric or ASCII punctuation.
*/
module Cleaning {
  import opened Primitives

  predicate IsAsciiUppercase(c: char)
  {
    'A' <= c <= 'Z'
  }

  predicate IsAsciiAlphanumeric(c: char)
  {
    'a' <= c <= 'z' || 'A' <= c <= 'Z' || '0' <= c <= '9'
  }

  /** `char::is_ascii_punctuation`: the 32 printable ASCII symbols. */
  predicate IsAsciiPunctuation(c: char)
  {
    '!' <= c <= '/' || ':' <= c <= '@' || '[' <= c <= '`' || '{' <= c <= '~'
  }

  /**
    `char::is_alphanumeric`: on ASCII it holds exactly of letters and digits;
    beyond ASCII the platform decides.
  */
  predicate IsAlphanumeric(p: Platform, c: char)
  {
    if c as int < 128 then IsAsciiAlphanumeric(c) else p.nonAsciiAlphanumeric(c)
  }

  /** The filter of `clean_source`. */
  predicate Kept(p: Platform, c: char)
  {
    IsAlphanumeric(p, c) || IsAsciiPunctuation(c)
  }

  /** `char::to_ascii_lowercase`. */
  function ToAsciiLowercase(c: char): char
  {
    if IsAsciiUppercase(c) then (c as int + 32) as char else c
  }

  /** The text with every ASCII letter lowercased (the `map` step of `clean_source`). */
  function Lowered(s: string): (r: string)
    ensures |r| == |s|
  {
    seq(|s|, i requires 0 <= i < |s| => ToAsciiLowercase(s[i]))
  }

  /**
    `clean_source`: the lowered characters that pass the filter, in order.
    What survives is kept by the filter and is never an ASCII capital.
  */
  function CleanSource(p: Platform, s: string): (r: string)
    ensures |r| <= |s|
    ensures forall i :: 0 <= i < |r| ==> Kept(p, r[i]) && !IsAsciiUppercase(r[i])
  {
    if s == [] then []
    else
      var c := ToAsciiLowercase(s[0]);
      (if Kept(p, c) then [c] else []) + CleanSource(p, s[1..])
  }

  /** Cleaning distributes over concatenation. */
  lemma {:induction false} CleanSourceAppend(p: Platform, a: string, b: string)
    ensures CleanSource(p, a + b) == CleanSource(p, a) + CleanSource(p, b)
  {
    if a != [] {
      assert (a + b)[0] == a[0];
      assert (a + b)[1..] == a[1..] + b;
      CleanSourceAppend(p, a[1..], b);
    } else {
      assert a + b == b;
    }
  }

  /** The newline separator never survives cleaning, so removing it changes nothing. */
  lemma CleanSourceDropsNewline(p: Platform, a: string, b: string)
    ensures CleanSource(p, a + "\n" + b) == CleanSource(p, a) + CleanSource(p, b)
  {
    var nl: string := "\n";
    assert CleanSource(p, nl) == [] by {
      assert !Kept(p, nl[0]);
      assert nl[1..] == [];
    }
    CleanSourceAppend(p, a + nl, b);
    CleanSourceAppend(p, a, nl);
    assert CleanSource(p, a + nl) == CleanSource(p, a);
  }

  /**
    A character is in the cleaned text exactly when it is the lowered form of
    some input character and passes the filter.
  */
  lemma {:induction false} CleanSourceMember(p: Platform, s: string, c: char)
    ensures c in CleanSource(p, s) <==>
      exists i :: 0 <= i < |s| && ToAsciiLowercase(s[i]) == c && Kept(p, c)
  {
    if s != [] {
      CleanSourceMember(p, s[1..], c);
      if c in CleanSource(p, s[1..]) {
        var i :| 0 <= i < |s[1..]| && ToAsciiLowercase(s[1..][i]) == c && Kept(p, c);
        assert ToAsciiLowercase(s[i + 1]) == c;
      }
      if exists i :: 0 <= i < |s| && ToAsciiLowercase(s[i]) == c && Kept(p, c) {
        var i :| 0 <= i < |s| && ToAsciiLowercase(s[i]) == c && Kept(p, c);
        if i > 0 {
          assert ToAsciiLowercase(s[1..][i - 1]) == c;
        }
      }
    }
  }

  /**
    A text is left unchanged by cleaning exactly when every character of it
    passes the filter and is not an ASCII capital.
  */
  lemma {:induction false} CleanSourceFixedPoints(p: Platform, s: string)
    ensures CleanSource(p, s) == s <==>
      forall i :: 0 <= i < |s| ==> Kept(p, s[i]) && !IsAsciiUppercase(s[i])
  {
    if s != [] && forall i :: 0 <= i < |s| ==> Kept(p, s[i]) && !IsAsciiUppercase(s[i]) {
      assert forall i :: 0 <= i < |s[1..]| ==> s[1..][i] == s[i + 1];
      CleanSourceFixedPoints(p, s[1..]);
      assert ToAsciiLowercase(s[0]) == s[0] && Kept(p, s[0]);
      assert s == [s[0]] + s[1..];
    }
  }

  /** Cleaning a cleaned text changes nothing. */
  lemma {:induction false} CleanSourceIdempotent(p: Platform, s: string)
    ensures CleanSource(p, CleanSource(p, s)) == CleanSource(p, s)
  {
    if s != [] {
      CleanSourceIdempotent(p, s[1..]);
      var c := ToAsciiLowercase(s[0]);
      if Kept(p, c) {
        assert ToAsciiLowercase(c) == c;
        assert [c][1..] == [];
        assert CleanSource(p, [c]) == [c];
        CleanSourceAppend(p, [c], CleanSource(p, s[1..]));
      } else {
        assert CleanSource(p, s) == CleanSource(p, s[1..]);
      }
    }
  }

  /** `x` occurs in `y` in order, not necessarily contiguously. */
  predicate IsSubsequence(x: string, y: string)
  {
    if x == [] then true
    else if y == [] then false
    else if x[0] == y[0] then IsSubsequence(x[1..], y[1..])
    else IsSubsequence(x, y[1..])
  }

  /** The cleaned text is an order-preserving subsequence of the lowered text. */
  lemma {:induction false} CleanSourceIsSubsequence(p: Platform, s: string)
    ensures IsSubsequence(CleanSource(p, s), Lowered(s))
  {
    if s != [] {
      CleanSourceIsSubsequence(p, s[1..]);
      assert Lowered(s)[1..] == Lowered(s[1..]);
      var c := ToAsciiLowercase(s[0]);
      if Kept(p, c) {
        assert CleanSource(p, s)[1..] == CleanSource(p, s[1..]);
      } else {
        assert CleanSource(p, s) == CleanSource(p, s[1..]);
        SubsequenceSkip(CleanSource(p, s[1..]), Lowered(s[1..]), c);
        assert [c] + Lowered(s[1..]) == Lowered(s);
      }
    }
  }

  /** Prepending a character to the longer sequence keeps a subsequence one. */
  lemma SubsequenceSkip(x: string, y: string, c: char)
    requires IsSubsequence(x, y)
    ensures IsSubsequence(x, [c] + y)
  {
    assert ([c] + y)[1..] == y;
    if x != [] && x[0] == c {
      SubsequenceTail(x, y);
    }
  }

  /** Dropping the head of a subsequence keeps it a subsequence. */
  lemma {:induction false} SubsequenceTail(x: string, y: string)
    requires x != [] && IsSubsequence(x, y)
    ensures IsSubsequence(x[1..], y)
  {
    assert y != [];
    if x[0] != y[0] {
      SubsequenceTail(x, y[1..]);
    }
    if |x| > 1 && x[1] == y[0] {
      SubsequenceTail(x[1..], y[1..]);
      assert x[1..][1..] == x[2..];
    }
  }
}
