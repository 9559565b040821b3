/**
  `calculate_averages`: the text is split on "\n", each line is cleaned,
  lines that clean to nothing are dropped, and every remaining line becomes
  the pair (mean pitch of its characters, its length / DURATION_SCALE).
*/
module LineProfile {
  import opened Primitives
  import opened Cleaning
  import opened Deduplication
  import opened PitchMapping

  /** `str::split("\n")`: the pieces between newlines, always at least one. */
  function SplitLines(s: string): (lines: seq<string>)
    ensures |lines| >= 1
    ensures forall i :: 0 <= i < |lines| ==> '\n' !in lines[i]
  {
    if s == [] then [[]]
    else
      var rest := SplitLines(s[1..]);
      if s[0] == '\n' then [[]] + rest
      else [[s[0]] + rest[0]] + rest[1..]
  }

  /** The lines put back together with a newline between neighbours. */
  function Join(lines: seq<string>): string
  {
    if lines == [] then []
    else if |lines| == 1 then lines[0]
    else lines[0] + "\n" + Join(lines[1..])
  }

  /** Joining the split text gives the text back. */
  lemma {:induction false} JoinSplit(s: string)
    ensures Join(SplitLines(s)) == s
  {
    if s != [] {
      var rest := SplitLines(s[1..]);
      JoinSplit(s[1..]);
      if s[0] == '\n' {
        assert ([[]] + rest)[1..] == rest;
        assert s == "\n" + s[1..];
      } else {
        var lines := SplitLines(s);
        assert lines[0] == [s[0]] + rest[0] && lines[1..] == rest[1..];
        if |rest| == 1 {
          assert s == [s[0]] + s[1..];
        } else {
          assert Join(rest) == rest[0] + "\n" + Join(rest[1..]);
          assert s == [s[0]] + s[1..];
        }
      }
    }
  }

  /** Splitting a text whose first piece `l` has no newline. */
  lemma {:induction false} SplitPrefix(l: string, t: string)
    requires '\n' !in l
    ensures SplitLines(l + t) == [l + SplitLines(t)[0]] + SplitLines(t)[1..]
  {
    if l != [] {
      assert (l + t)[0] == l[0] && (l + t)[1..] == l[1..] + t;
      SplitPrefix(l[1..], t);
      var lines, rest := SplitLines(t), SplitLines(l[1..] + t);
      assert rest[0] == l[1..] + lines[0] && rest[1..] == lines[1..];
      assert [l[0]] + (l[1..] + lines[0]) == l + lines[0];
    } else {
      var lines := SplitLines(t);
      assert l + t == t && l + lines[0] == lines[0];
      assert lines == [lines[0]] + lines[1..];
    }
  }

  /** Splitting joined newline-free lines gives the lines back. */
  lemma {:induction false} SplitJoin(lines: seq<string>)
    requires |lines| >= 1
    requires forall i :: 0 <= i < |lines| ==> '\n' !in lines[i]
    ensures SplitLines(Join(lines)) == lines
  {
    SplitPrefix(lines[0], Join(lines[1..]));
    if |lines| == 1 {
      assert lines[0] + [] == lines[0];
      assert Join(lines) == lines[0] + [];
    } else {
      var tail := Join(lines[1..]);
      SplitJoin(lines[1..]);
      var nl: string := "\n";
      assert SplitLines(nl + tail) == [[]] + SplitLines(tail) by {
        assert (nl + tail)[1..] == tail;
      }
      assert Join(lines) == lines[0] + (nl + tail);
      SplitPrefix(lines[0], nl + tail);
      assert lines[0] + [] == lines[0];
      assert lines == [lines[0]] + lines[1..];
    }
  }

  /** Joining two non-empty runs of lines puts one newline between them. */
  lemma {:induction false} JoinAppend(a: seq<string>, b: seq<string>)
    requires |a| >= 1 && |b| >= 1
    ensures Join(a + b) == Join(a) + "\n" + Join(b)
  {
    assert (a + b)[0] == a[0];
    if |a| == 1 {
      assert (a + b)[1..] == b;
    } else {
      assert (a + b)[1..] == a[1..] + b;
      JoinAppend(a[1..], b);
    }
  }

  /** The lines of `x + "\n" + y` are the lines of `x` followed by those of `y`. */
  lemma SplitLinesAppend(x: string, y: string)
    ensures SplitLines(x + "\n" + y) == SplitLines(x) + SplitLines(y)
  {
    var a, b := SplitLines(x), SplitLines(y);
    JoinSplit(x);
    JoinSplit(y);
    JoinAppend(a, b);
    SplitJoin(a + b);
  }

  /** Every cleaned line's characters occur in the cleaned joined text. */
  lemma {:induction false} CleanLineInText(p: Platform, lines: seq<string>, i: nat, c: char)
    requires i < |lines| && c in CleanSource(p, lines[i])
    ensures c in CleanSource(p, Join(lines))
  {
    if |lines| > 1 {
      CleanSourceDropsNewline(p, lines[0], Join(lines[1..]));
      if i > 0 {
        CleanLineInText(p, lines[1..], i - 1, c);
      }
    }
  }

  /** Every character of `line` has a pitch in `mapping`. */
  predicate Covered(line: string, mapping: map<char, real>)
  {
    forall k :: 0 <= k < |line| ==> line[k] in mapping
  }

  /** Every cleaned line of `lines` is covered by `mapping`. */
  predicate AllCovered(p: Platform, lines: seq<string>, mapping: map<char, real>)
  {
    forall i :: 0 <= i < |lines| ==> Covered(CleanSource(p, lines[i]), mapping)
  }

  /**
    The lookup `mapping[&c]` never fails: every character of every cleaned
    line of a text is a key of the pitch map built from the whole text.
  */
  lemma LookupNeverFails(p: Platform, source: string)
    ensures AllCovered(p, SplitLines(source), PitchMap(p, source))
  {
    var lines := SplitLines(source);
    JoinSplit(source);
    forall i, k | 0 <= i < |lines| && 0 <= k < |CleanSource(p, lines[i])|
      ensures CleanSource(p, lines[i])[k] in PitchMap(p, source)
    {
      var c := CleanSource(p, lines[i])[k];
      CleanLineInText(p, lines, i, c);
      assert c in Elems(CleanSource(p, source));
    }
  }

  /** `l.iter().map(|c| mapping[&c]).sum()`: the pitches of a line, added left to right. */
  function PitchSum(line: string, mapping: map<char, real>): real
    requires Covered(line, mapping)
  {
    if line == [] then 0.0
    else PitchSum(line[..|line| - 1], mapping) + mapping[line[|line| - 1]]
  }

  /** The profile entry of a non-empty cleaned line: (mean pitch, duration). */
  function Entry(line: string, mapping: map<char, real>): (real, real)
    requires line != [] && Covered(line, mapping)
  {
    (PitchSum(line, mapping) / |line| as real, |line| as real / DURATION_SCALE)
  }

  /** The `map`/`filter`/`map` pipeline of `calculate_averages` over the lines. */
  function Profile(p: Platform, lines: seq<string>, mapping: map<char, real>): seq<(real, real)>
    requires AllCovered(p, lines, mapping)
  {
    if lines == [] then []
    else
      var cleaned := CleanSource(p, lines[0]);
      (if cleaned == [] then [] else [Entry(cleaned, mapping)]) + Profile(p, lines[1..], mapping)
  }

  /** `calculate_averages`; the caller must supply a pitch for every cleaned character. */
  function CalculateAverages(p: Platform, source: string, mapping: map<char, real>): seq<(real, real)>
    requires AllCovered(p, SplitLines(source), mapping)
  {
    Profile(p, SplitLines(source), mapping)
  }

  /** Coverage of two runs of lines gives coverage of their concatenation. */
  lemma AllCoveredAppend(p: Platform, a: seq<string>, b: seq<string>, mapping: map<char, real>)
    requires AllCovered(p, a, mapping) && AllCovered(p, b, mapping)
    ensures AllCovered(p, a + b, mapping)
  {
    var ab := a + b;
    forall i | 0 <= i < |ab|
      ensures Covered(CleanSource(p, ab[i]), mapping)
    {
      if i >= |a| {
        assert ab[i] == b[i - |a|];
      } else {
        assert ab[i] == a[i];
      }
    }
  }

  /** Profiles of consecutive runs of lines are concatenated in order. */
  lemma {:induction false} ProfileAppend(p: Platform, a: seq<string>, b: seq<string>, mapping: map<char, real>)
    requires AllCovered(p, a, mapping) && AllCovered(p, b, mapping)
    ensures AllCovered(p, a + b, mapping)
    ensures Profile(p, a + b, mapping) == Profile(p, a, mapping) + Profile(p, b, mapping)
  {
    AllCoveredAppend(p, a, b, mapping);
    if a == [] {
      assert a + b == b;
    } else {
      AllCoveredTail(p, a, mapping);
      var ab := a + b;
      assert ab[0] == a[0] && ab[1..] == a[1..] + b;
      ProfileAppend(p, a[1..], b, mapping);
      var cleaned := CleanSource(p, a[0]);
      var head := if cleaned == [] then [] else [Entry(cleaned, mapping)];
      assert Profile(p, ab, mapping) == head + Profile(p, ab[1..], mapping);
      assert Profile(p, a, mapping) == head + Profile(p, a[1..], mapping);
    }
  }

  /**
    One line contributes one entry, built from its cleaned form, when it
    cleans to something, and nothing otherwise.
  */
  lemma ProfileOfLine(p: Platform, line: string, mapping: map<char, real>)
    requires Covered(CleanSource(p, line), mapping)
    ensures Profile(p, [line], mapping) ==
      if CleanSource(p, line) == [] then [] else [Entry(CleanSource(p, line), mapping)]
  {
    assert [line][1..] == [];
  }

  /** A text without a newline is a single line, profiled as that line alone. */
  lemma OneLineText(p: Platform, source: string, mapping: map<char, real>)
    requires '\n' !in source && Covered(CleanSource(p, source), mapping)
    ensures SplitLines(source) == [source]
    ensures AllCovered(p, SplitLines(source), mapping)
    ensures CalculateAverages(p, source, mapping) ==
      if CleanSource(p, source) == [] then [] else [Entry(CleanSource(p, source), mapping)]
  {
    SplitJoin([source]);
    ProfileOfLine(p, source, mapping);
  }

  /**
    The profile of `x + "\n" + y` is the profile of `x` followed by that of
    `y`: entries follow the line order of the text.
  */
  lemma CalculateAveragesSplit(p: Platform, x: string, y: string, mapping: map<char, real>)
    requires AllCovered(p, SplitLines(x), mapping) && AllCovered(p, SplitLines(y), mapping)
    ensures AllCovered(p, SplitLines(x + "\n" + y), mapping)
    ensures CalculateAverages(p, x + "\n" + y, mapping) ==
      CalculateAverages(p, x, mapping) + CalculateAverages(p, y, mapping)
  {
    SplitLinesAppend(x, y);
    ProfileAppend(p, SplitLines(x), SplitLines(y), mapping);
  }

  /**
    The cleaned forms of the lines that survive the `filter` step, in line
    order; none of them is empty.
  */
  function QualifyingLines(p: Platform, lines: seq<string>): (r: seq<string>)
    ensures |r| <= |lines|
    ensures forall k :: 0 <= k < |r| ==> r[k] != []
  {
    if lines == [] then []
    else
      var cleaned := CleanSource(p, lines[0]);
      var rest := QualifyingLines(p, lines[1..]);
      if cleaned == [] then rest else [cleaned] + rest
  }

  /** Each qualifying line is the cleaned form of one of the lines. */
  lemma {:induction false} QualifyingLineOrigin(p: Platform, lines: seq<string>, k: nat)
    requires k < |QualifyingLines(p, lines)|
    ensures exists i :: 0 <= i < |lines| && QualifyingLines(p, lines)[k] == CleanSource(p, lines[i])
  {
    var tail := lines[1..];
    var cleaned := CleanSource(p, lines[0]);
    if cleaned == [] || k > 0 {
      var k' := if cleaned == [] then k else k - 1;
      QualifyingLineOrigin(p, tail, k');
      var i :| 0 <= i < |tail| && QualifyingLines(p, tail)[k'] == CleanSource(p, tail[i]);
      assert tail[i] == lines[i + 1];
    }
  }

  /** The lines after the first are covered when all are. */
  lemma AllCoveredTail(p: Platform, lines: seq<string>, mapping: map<char, real>)
    requires lines != [] && AllCovered(p, lines, mapping)
    ensures AllCovered(p, lines[1..], mapping)
  {
    var tail := lines[1..];
    forall i | 0 <= i < |tail|
      ensures Covered(CleanSource(p, tail[i]), mapping)
    {
      assert tail[i] == lines[i + 1];
    }
  }

  /** Every qualifying line is covered when all lines are. */
  lemma QualifyingLinesCovered(p: Platform, lines: seq<string>, mapping: map<char, real>)
    requires AllCovered(p, lines, mapping)
    ensures forall k :: 0 <= k < |QualifyingLines(p, lines)| ==> Covered(QualifyingLines(p, lines)[k], mapping)
  {
    forall k | 0 <= k < |QualifyingLines(p, lines)|
      ensures Covered(QualifyingLines(p, lines)[k], mapping)
    {
      QualifyingLineOrigin(p, lines, k);
    }
  }

  /**
    Profile entries match the qualifying lines one for one and in order:
    entry k is the mean pitch and the duration of qualifying line k.
  */
  lemma {:induction false} ProfileMatchesLines(p: Platform, lines: seq<string>, mapping: map<char, real>)
    requires AllCovered(p, lines, mapping)
    ensures |Profile(p, lines, mapping)| == |QualifyingLines(p, lines)|
    ensures forall k :: 0 <= k < |QualifyingLines(p, lines)| ==>
      Covered(QualifyingLines(p, lines)[k], mapping) &&
      Profile(p, lines, mapping)[k] == Entry(QualifyingLines(p, lines)[k], mapping)
  {
    QualifyingLinesCovered(p, lines, mapping);
    if lines != [] {
      var tail := lines[1..];
      AllCoveredTail(p, lines, mapping);
      ProfileMatchesLines(p, tail, mapping);
      var cleaned := CleanSource(p, lines[0]);
      var q, qt := QualifyingLines(p, lines), QualifyingLines(p, tail);
      var pr, pt := Profile(p, lines, mapping), Profile(p, tail, mapping);
      if cleaned == [] {
        assert q == qt && pr == pt;
      } else {
        assert q == [cleaned] + qt;
        assert pr == [Entry(cleaned, mapping)] + pt;
        forall k | 0 < k < |q|
          ensures pr[k] == Entry(q[k], mapping)
        {
          assert q[k] == qt[k - 1] && pr[k] == pt[k - 1];
        }
      }
    }
  }

  /** The profile is empty exactly when every line cleans to nothing. */
  lemma {:induction false} ProfileEmpty(p: Platform, lines: seq<string>, mapping: map<char, real>)
    requires AllCovered(p, lines, mapping)
    ensures Profile(p, lines, mapping) == [] <==> forall i :: 0 <= i < |lines| ==> CleanSource(p, lines[i]) == []
  {
    if lines != [] {
      ProfileEmpty(p, lines[1..], mapping);
      assert forall i :: 0 < i < |lines| ==> lines[i] == lines[1..][i - 1];
    }
  }

  /** Bounds on the pitches of a line bound their sum. */
  lemma {:induction false} PitchSumBounds(line: string, mapping: map<char, real>, lo: real, hi: real)
    requires Covered(line, mapping)
    requires forall k :: 0 <= k < |line| ==> lo <= mapping[line[k]] <= hi
    ensures |line| as real * lo <= PitchSum(line, mapping) <= |line| as real * hi
  {
    if line != [] {
      var init := line[..|line| - 1];
      assert forall k :: 0 <= k < |init| ==> init[k] == line[k];
      PitchSumBounds(init, mapping, lo, hi);
      var n := |init| as real;
      var x := mapping[line[|line| - 1]];
      assert PitchSum(line, mapping) == PitchSum(init, mapping) + x;
      assert lo <= x <= hi;
      assert |line| as real * lo == n * lo + lo;
      assert |line| as real * hi == n * hi + hi;
    }
  }

  /**
    A line's frequency is the mean of its pitches, so it lies between the
    lowest and the highest of them; its duration is its length over
    DURATION_SCALE.
  */
  lemma EntryWithinPitchRange(line: string, mapping: map<char, real>, lo: real, hi: real)
    requires line != [] && Covered(line, mapping)
    requires forall k :: 0 <= k < |line| ==> lo <= mapping[line[k]] <= hi
    ensures lo <= Entry(line, mapping).0 <= hi
    ensures Entry(line, mapping).1 * DURATION_SCALE == |line| as real
  {
    var n := |line| as real;
    var sum := PitchSum(line, mapping);
    PitchSumBounds(line, mapping, lo, hi);
    assert n * lo <= sum <= n * hi;
    assert sum / n >= lo by {
      assert sum / n * n == sum;
    }
    assert sum / n <= hi by {
      assert sum / n * n == sum;
    }
  }
}
