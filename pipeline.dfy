/**
  `convert`: build the pitch map of the text, profile its lines, render one
  tone per profile entry and concatenate the tones in line order.
*/
module Pipeline {
  import opened Primitives
  import opened Cleaning
  import opened Deduplication
  import opened PitchMapping
  import opened LineProfile
  import opened Sorting

  /** One tone per profile entry (`map(|(c, l)| generate_wave(c, l))`). */
  function Waves(p: Platform, profile: seq<(real, real)>): (waves: seq<seq<real>>)
    ensures |waves| == |profile|
  {
    seq(|profile|, i requires 0 <= i < |profile| => GenerateWave(p, profile[i].0, profile[i].1))
  }

  /** `flatten().collect()`: the tones one after another. */
  function Flatten(waves: seq<seq<real>>): seq<real>
  {
    if waves == [] then [] else waves[0] + Flatten(waves[1..])
  }

  /** The total number of samples in a run of tones. */
  function TotalLength(waves: seq<seq<real>>): nat
  {
    if waves == [] then 0 else |waves[0]| + TotalLength(waves[1..])
  }

  /** The line profile `convert` computes: the averages under the text's own pitch map. */
  function SourceProfile(p: Platform, source: string): seq<(real, real)>
  {
    LookupNeverFails(p, source);
    CalculateAverages(p, source, PitchMap(p, source))
  }

  /** The output of `convert` for a text, as a value. */
  function SampleStream(p: Platform, source: string): seq<real>
  {
    Flatten(Waves(p, SourceProfile(p, source)))
  }

  /** `convert`: the pitch map is built in place, the rest is a pipeline of values. */
  method Convert(p: Platform, source: string) returns (waves: seq<real>)
    ensures waves == SampleStream(p, source)
  {
    var letterMap := ConstructFrequencies(p, source);
    LookupNeverFails(p, source);
    var lineAverages := CalculateAverages(p, source, letterMap);
    waves := Flatten(Waves(p, lineAverages));
  }

  /** Flattening distributes over concatenation of runs of tones. */
  lemma {:induction false} FlattenAppend(a: seq<seq<real>>, b: seq<seq<real>>)
    ensures Flatten(a + b) == Flatten(a) + Flatten(b)
  {
    if a == [] {
      assert a + b == b;
    } else {
      assert (a + b)[0] == a[0] && (a + b)[1..] == a[1..] + b;
      FlattenAppend(a[1..], b);
    }
  }

  /** The output is exactly as long as all tones together. */
  lemma {:induction false} FlattenLength(waves: seq<seq<real>>)
    ensures |Flatten(waves)| == TotalLength(waves)
  {
    if waves != [] {
      FlattenLength(waves[1..]);
    }
  }

  /**
    Tone k occupies the samples from the total length of the tones before it
    up to that plus its own length: the tones are laid out in order, without
    gaps or overlap.
  */
  lemma ToneInPlace(waves: seq<seq<real>>, k: nat)
    requires k < |waves|
    ensures TotalLength(waves[..k]) + |waves[k]| <= |Flatten(waves)|
    ensures Flatten(waves)[TotalLength(waves[..k])..TotalLength(waves[..k]) + |waves[k]|] == waves[k]
  {
    var before, after := waves[..k], waves[k + 1..];
    assert waves == before + ([waves[k]] + after);
    FlattenAppend(before, [waves[k]] + after);
    FlattenAppend([waves[k]], after);
    assert Flatten([waves[k]]) == waves[k] by {
      assert [waves[k]][1..] == [];
    }
    FlattenLength(before);
  }

  /**
    The output of a text has as many samples as the tones of its profile
    entries together, each tone lasting SAMPLE_RATE * duration samples.
  */
  lemma SampleStreamLength(p: Platform, source: string)
    ensures |SampleStream(p, source)| == TotalLength(Waves(p, SourceProfile(p, source)))
    ensures forall i :: 0 <= i < |SourceProfile(p, source)| ==>
      |Waves(p, SourceProfile(p, source))[i]| == AsU32(SAMPLE_RATE * SourceProfile(p, source)[i].1)
  {
    FlattenLength(Waves(p, SourceProfile(p, source)));
  }

  /**
    A text without a newline whose cleaned form is not empty has exactly one
    profile entry, built from that cleaned form under the text's pitch map.
  */
  lemma OneLineProfile(p: Platform, source: string)
    requires '\n' !in source && CleanSource(p, source) != []
    ensures Covered(CleanSource(p, source), PitchMap(p, source))
    ensures SourceProfile(p, source) == [Entry(CleanSource(p, source), PitchMap(p, source))]
  {
    LookupNeverFails(p, source);
    SplitJoin([source]);
    assert SplitLines(source)[0] == source;
    OneLineText(p, source, PitchMap(p, source));
  }

  /** A text with a single profile entry sounds exactly that entry's tone. */
  lemma SingleToneStream(p: Platform, source: string)
    requires |SourceProfile(p, source)| == 1
    ensures SampleStream(p, source) ==
      GenerateWave(p, SourceProfile(p, source)[0].0, SourceProfile(p, source)[0].1)
  {
    var waves := Waves(p, SourceProfile(p, source));
    assert waves[1..] == [];
    assert Flatten(waves) == waves[0] + [];
  }

  /**
    A text none of whose characters survive cleaning (the empty text, a
    lone newline, only spaces) has an empty pitch map, an empty profile and
    an empty output.
  */
  lemma SilentText(p: Platform, source: string)
    requires CleanSource(p, source) == []
    ensures PitchMap(p, source) == map[]
    ensures SourceProfile(p, source) == []
    ensures SampleStream(p, source) == []
  {
    PitchMapEmpty(p, source);
    LookupNeverFails(p, source);
    var lines := SplitLines(source);
    JoinSplit(source);
    forall i | 0 <= i < |lines|
      ensures CleanSource(p, lines[i]) == []
    {
      if CleanSource(p, lines[i]) != [] {
        CleanLineInText(p, lines, i, CleanSource(p, lines[i])[0]);
      }
    }
    ProfileEmpty(p, lines, PitchMap(p, source));
  }

  /** The empty text and a lone newline produce no sound. */
  lemma EmptyAndBlankTexts(p: Platform)
    ensures PitchMap(p, "") == map[] && SampleStream(p, "") == []
    ensures PitchMap(p, "\n") == map[] && SampleStream(p, "\n") == []
  {
    SilentText(p, "");
    var nl: string := "\n";
    assert CleanSource(p, nl) == [] by {
      assert !Kept(p, nl[0]);
      assert nl[1..] == [];
    }
    SilentText(p, nl);
  }

  /**
    "Ab": 'a' takes index 0 and 'b' index 1; the single line cleans to "ab",
    whose entry is the mean of the two pitches and lasts 2 / 88 seconds.
  */
  lemma TwoLetterText(p: Platform)
    ensures PitchMap(p, "Ab") == map['a' := ScalePitch(p, 0.0), 'b' := ScalePitch(p, 1.0)]
    ensures SourceProfile(p, "Ab") == [((ScalePitch(p, 0.0) + ScalePitch(p, 1.0)) / 2.0, 2.0 / DURATION_SCALE)]
  {
    var text: string := "Ab";
    TwoLetterMap(p, text);
    OneLineProfile(p, text);
    TwoLetterEntry(CleanSource(p, text), PitchMap(p, text), ScalePitch(p, 0.0), ScalePitch(p, 1.0));
  }

  lemma TwoLetterMap(p: Platform, text: string)
    requires text == "Ab"
    ensures CleanSource(p, text) == "ab"
    ensures PitchMap(p, text) == map['a' := ScalePitch(p, 0.0), 'b' := ScalePitch(p, 1.0)]
  {
    TwoLetterClean(p, text);
    var cleaned: string := "ab";
    assert StrictlyIncreasing(cleaned);
    PitchMapFromSorted(p, text, cleaned);
    var pairs := Enumerate(p, cleaned);
    assert pairs == [('a', ScalePitch(p, 0.0)), ('b', ScalePitch(p, 1.0))];
    assert pairs[..1][..0] == [];
  }

  lemma TwoLetterClean(p: Platform, text: string)
    requires text == "Ab"
    ensures CleanSource(p, text) == "ab"
  {
    var head, tail: string := "A", "b";
    assert text == head + tail;
    CleanSourceAppend(p, head, tail);
    CleanSourceFixedPoints(p, tail);
    assert CleanSource(p, head) == "a" by {
      assert ToAsciiLowercase(head[0]) == 'a';
      assert head[1..] == [];
    }
  }

  lemma TwoLetterEntry(cleaned: string, m: map<char, real>, x: real, y: real)
    requires cleaned == "ab" && m == map['a' := x, 'b' := y]
    ensures Covered(cleaned, m) && Entry(cleaned, m) == ((x + y) / 2.0, 2.0 / DURATION_SCALE)
  {
    assert cleaned[..1][..0] == [];
    assert PitchSum(cleaned[..1], m) == x;
    assert PitchSum(cleaned, m) == x + y;
    assert |cleaned| as real == 2.0;
  }

  /**
    "aaaa": a single key 'a' at index 0, one entry whose mean is that pitch
    and whose duration is 4 / 88 seconds, hence floor(48000 * 4 / 88) = 2181
    samples.
  */
  lemma RepeatedLetterText(p: Platform)
    ensures PitchMap(p, "aaaa") == map['a' := ScalePitch(p, 0.0)]
    ensures SourceProfile(p, "aaaa") == [(ScalePitch(p, 0.0), 4.0 / DURATION_SCALE)]
    ensures |SampleStream(p, "aaaa")| == 2181
  {
    var text: string := "aaaa";
    var v := ScalePitch(p, 0.0);
    RepeatedLetterMap(p, text);
    OneLineProfile(p, text);
    RepeatedLetterEntry(text, PitchMap(p, text), v);
    SingleToneStream(p, text);
    LineWaveLength(p, v, 4);
  }

  lemma RepeatedLetterMap(p: Platform, text: string)
    requires text == "aaaa"
    ensures CleanSource(p, text) == text
    ensures PitchMap(p, text) == map['a' := ScalePitch(p, 0.0)]
  {
    RepeatedLetterClean(p, text);
    var single: string := "a";
    assert Elems(text) == Elems(single) by {
      assert forall i :: 0 <= i < |text| ==> text[i] == 'a';
      assert text[0] == 'a' && single[0] == 'a';
    }
    PitchMapFromSorted(p, text, single);
    var pairs := Enumerate(p, single);
    assert pairs == [('a', ScalePitch(p, 0.0))];
    assert pairs[..0] == [];
  }

  lemma RepeatedLetterClean(p: Platform, text: string)
    requires text == "aaaa"
    ensures CleanSource(p, text) == text
  {
    assert forall i :: 0 <= i < |text| ==> text[i] == 'a';
    CleanSourceFixedPoints(p, text);
  }

  lemma RepeatedLetterEntry(text: string, m: map<char, real>, v: real)
    requires text == "aaaa" && m == map['a' := v]
    ensures Covered(text, m) && Entry(text, m) == (v, 4.0 / DURATION_SCALE)
  {
    assert text[..1][..0] == [];
    assert PitchSum(text[..1], m) == v;
    assert text[..2][..1] == text[..1];
    assert PitchSum(text[..2], m) == 2.0 * v;
    assert text[..3][..2] == text[..2];
    assert PitchSum(text[..3], m) == 3.0 * v;
    assert text[..3] == text[..|text| - 1];
    assert PitchSum(text, m) == 4.0 * v;
    assert |text| as real == 4.0;
  }
}
