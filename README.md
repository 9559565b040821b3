# soundify text-to-tone pipeline in Dafny

soundify turns a text (typically a program's source code) into sound. Its
library, `src/lib.rs`, does this in four steps:

1. **Pitch map.** It cleans the whole text: ASCII letters are lowercased, and only alphanumeric characters and ASCII punctuation are kept.
2. **Ranking.** It deduplicates the cleaned characters in place, keeping each character's first occurrence, and sorts them by code point. The character at sorted index `i` is given the pitch `scale_pitch(i) = 432 * (2^(1/12))^(i/2)`.
3. **Line profile.** It splits the text on `"\n"` and cleans each line, dropping the lines that clean to nothing. Every remaining line becomes a pair: the mean pitch of its characters, and a duration of `length / 88` seconds.
4. **Output.** Each pair is rendered as a sine tone of `SAMPLE_RATE * duration` samples at 48 kHz. The tones are concatenated in line order.

The model follows the code's own shape:

- `clean_source`, `calculate_averages`, `generate_wave` and `scale_pitch` are functions on sequences.
- `dedup` is a method that compacts an `array<char>` in place and returns the new length, which stands in for the truncated `Vec`.
- `characters.sort()` is an in-place sort of that prefix.
- `construct_frequencies` and `convert` are methods. They are proved equal to independent reference definitions:
  - `PitchMap` gives each cleaned character the pitch of its rank, i.e. the number of distinct cleaned characters below it.
  - `SampleStream` is the concatenated tones of that map's line profile.

Floats are modelled as exact reals. The results of `f32::powf` and `f32::sin` are not computed, and neither is the Unicode part of `char::is_alphanumeric`. All three are fields of a `Platform` value that every operation takes as a parameter. The ASCII part of `is_alphanumeric` is spelled out. The float-to-`u32` cast is modelled as truncation, saturating at both ends.

Modules: `Primitives` (constants, `scale_pitch`, `generate_wave`), `Cleaning`,
`Deduplication`, `Sorting`, `PitchMapping`, `LineProfile`, `Pipeline`.

## Model

| member | source | states |
|---|---|---|
| Primitives.AsU32 | src/lib.rs:39 | a float-to-u32 cast truncates toward zero inside the u32 range, gives 0 at or below zero and u32::MAX at or above it |
| Primitives.WaveLength | src/lib.rs:36-44 | a tone has exactly the truncated SAMPLE_RATE * duration samples, within one sample of the exact product |
| Primitives.LineWaveLength | src/lib.rs:39 | in exact reals, a line of k cleaned characters yields floor(6000 k / 11) samples, saturated at u32::MAX (f32 rounding: see Left out) |
| Primitives.WaveWithinVolume | src/lib.rs:40-42 | if sine stays within [-1, 1], every sample lies within [-VOLUME, VOLUME] |
| Primitives.ScalePitchAtZero | src/lib.rs:19-21 | index 0 gets MIDDLE_A (432 Hz), assuming powf(x, 0) = 1 |
| Cleaning.Lowered | src/lib.rs:31 | lowercasing keeps the text's length |
| Cleaning.CleanSource | src/lib.rs:28-34 | the output is no longer than the input; every output character is alphanumeric or ASCII punctuation and is not an ASCII capital |
| Cleaning.CleanSourceAppend | src/lib.rs:29-33 | cleaning a concatenation is the concatenation of the cleaned parts |
| Cleaning.CleanSourceDropsNewline | src/lib.rs:32 | a "\n" separator never survives, so cleaning `a + "\n" + b` equals cleaning a and b separately |
| Cleaning.CleanSourceMember | src/lib.rs:31-32 | c is in the output iff c is the lowercasing of some input character and passes the filter |
| Cleaning.CleanSourceFixedPoints | src/lib.rs:28-34 | a text is unchanged by cleaning iff all its characters pass the filter and none is an ASCII capital |
| Cleaning.CleanSourceIdempotent | src/lib.rs:28-34 | cleaning twice equals cleaning once |
| Cleaning.CleanSourceIsSubsequence | src/lib.rs:30-33 | the output is an order-preserving subsequence of the lowered input |
| Deduplication.Distinct | src/lib.rs:23-26 | the deduplicated sequence has no duplicates and exactly the elements of the input |
| Deduplication.FirstIndex | src/lib.rs:25 | the index of the first occurrence of a character, before which it does not occur |
| Deduplication.DistinctKeepsFirstOccurrences | src/lib.rs:24-25 | the kept characters are in the order of their first occurrences in the input |
| Deduplication.DistinctOfNoDuplicates | src/lib.rs:23-26 | a duplicate-free vector is left unchanged |
| Deduplication.DistinctIdempotent | src/lib.rs:23-26 | deduplicating twice equals deduplicating once |
| Deduplication.NoDuplicatesCardinality | src/lib.rs:23-26 | a duplicate-free sequence has as many distinct elements as its length; helper for RankInIncreasing and RankOnto |
| Deduplication.Dedup | src/lib.rs:23-26 | in-place retain: the first `len` slots of the array end up as the deduplicated old contents |
| Sorting.SwapAdjacent | src/lib.rs:49 | swapping two neighbours changes nothing else and keeps the multiset |
| Sorting.Sort | src/lib.rs:49 | the first `len` slots end sorted as a permutation of what they held; later slots are untouched |
| Sorting.InsertNext | src/lib.rs:49 | one insertion pass extends the sorted prefix by one slot, as a permutation, leaving later slots untouched |
| Sorting.PrefixMultiset | src/lib.rs:49 | equal multisets with equal tails have equal-multiset prefixes; helper for the permutation clause of Sort |
| PitchMapping.Enumerate | src/lib.rs:53-55 | enumerate produces one pair per character |
| PitchMapping.FromIterKeys | src/lib.rs:51-57 | the keys of the collected map are exactly the characters of the pairs |
| PitchMapping.FromIterValue | src/lib.rs:51-57 | with distinct keys, each key is bound to its own pair's pitch |
| PitchMapping.RankInIncreasing | src/lib.rs:49-55 | in strictly increasing order, the character at index i has rank i |
| PitchMapping.EnumeratedKeys | src/lib.rs:51-57 | the keys of the collected map are exactly the enumerated characters |
| PitchMapping.EnumeratedValue | src/lib.rs:53-55 | in strictly increasing order, the character at index i is bound to scale_pitch of its rank |
| PitchMapping.EnumeratedMap | src/lib.rs:51-57 | enumerating strictly increasing characters and collecting gives the map from each character to the pitch of its rank |
| PitchMapping.SortedDistinct | src/lib.rs:48-49 | sorting a deduplicated vector gives a strictly increasing sequence with the same elements |
| PitchMapping.NoDuplicatesCount | src/lib.rs:48 | a duplicate-free sequence holds each character at most once; helper for SortedDistinct |
| PitchMapping.RepeatCount | src/lib.rs:49 | equal characters at two positions occur at least twice; helper for SortedDistinct |
| PitchMapping.ConstructFrequencies | src/lib.rs:46-60 | clean, dedup, sort, enumerate and collect give exactly PitchMap of the text |
| PitchMapping.PitchMapFromSorted | src/lib.rs:49-57 | enumerating and collecting any strictly increasing listing of the cleaned characters gives the pitch map |
| PitchMapping.PitchMapKeys | src/lib.rs:47-57 | the keys are exactly the lowered characters of the text that pass the filter; none is an ASCII capital |
| PitchMapping.PitchMapValues | src/lib.rs:55 | each key's value is scale_pitch of its rank among the keys |
| PitchMapping.PitchMapEmpty | src/lib.rs:46-60 | the map is empty iff nothing of the text survives cleaning |
| PitchMapping.RankBelowSize | src/lib.rs:54 | every index is below the number of keys |
| PitchMapping.RankOrder | src/lib.rs:49-55 | indices follow code-point order in both directions, so distinct keys get distinct indices |
| PitchMapping.RankOnto | src/lib.rs:54 | every index 0..n-1 belongs to some key |
| PitchMapping.SortedKeys | src/lib.rs:49 | any set of keys can be listed strictly increasing; helper for RankOnto |
| PitchMapping.Minimum | src/lib.rs:49 | a non-empty key set has a least character, which it returns; helper for SortedKeys |
| PitchMapping.SubsetCardinality | src/lib.rs:54 | a subset of keys is no larger than the set; helper for RankBelowSize and RankOrder |
| LineProfile.SplitLines | src/lib.rs:64 | splitting on "\n" yields at least one piece, and no piece contains "\n" |
| LineProfile.JoinSplit | src/lib.rs:64 | joining the pieces with "\n" gives the text back |
| LineProfile.SplitJoin | src/lib.rs:64 | splitting newline-free pieces joined by "\n" gives the pieces back |
| LineProfile.SplitPrefix | src/lib.rs:64 | a newline-free prefix joins the first piece |
| LineProfile.JoinAppend | src/lib.rs:64 | joining two runs of pieces puts one "\n" between them |
| LineProfile.SplitLinesAppend | src/lib.rs:64 | the pieces of `x + "\n" + y` are those of x followed by those of y |
| LineProfile.CleanLineInText | src/lib.rs:64-65 | every cleaned line's characters occur in the cleaned whole text |
| LineProfile.LookupNeverFails | src/lib.rs:69 | every character of every cleaned line is a key of the text's pitch map, so `mapping[&c]` never panics |
| LineProfile.QualifyingLines | src/lib.rs:64-66 | the lines kept by the filter are non-empty and no more numerous than the text's lines |
| LineProfile.QualifyingLineOrigin | src/lib.rs:64-66 | each kept line is the cleaned form of one of the text's lines |
| LineProfile.QualifyingLinesCovered | src/lib.rs:69 | every kept line has a pitch for each of its characters when all lines do |
| LineProfile.ProfileMatchesLines | src/lib.rs:63-73 | entries match the kept lines one for one and in order: entry k is the mean pitch and duration of kept line k |
| LineProfile.AllCoveredAppend | src/lib.rs:69 | coverage of two runs of lines gives coverage of their concatenation |
| LineProfile.AllCoveredTail | src/lib.rs:69 | coverage of all lines gives coverage of all but the first |
| LineProfile.ProfileAppend | src/lib.rs:63-73 | the profile of consecutive runs of lines is the concatenation of their profiles |
| LineProfile.ProfileOfLine | src/lib.rs:65-72 | one line gives one entry built from its cleaned form, or nothing if that is empty |
| LineProfile.OneLineText | src/lib.rs:62-74 | a text without a newline is one line, giving one entry from its cleaned form, or none if that is empty |
| LineProfile.CalculateAveragesSplit | src/lib.rs:62-74 | the profile of `x + "\n" + y` is the profile of x followed by that of y |
| LineProfile.ProfileEmpty | src/lib.rs:66 | the profile is empty iff every line cleans to nothing |
| LineProfile.PitchSumBounds | src/lib.rs:69 | bounds on each character's pitch bound the sum, times the line length |
| LineProfile.EntryWithinPitchRange | src/lib.rs:68-71 | the mean lies between the lowest and highest pitch of the line; duration times 88 is the line's length |
| Pipeline.Waves | src/lib.rs:83 | one tone per profile entry |
| Pipeline.Convert | src/lib.rs:76-88 | building the map, profiling the lines and rendering and flattening the tones gives exactly SampleStream of the text |
| Pipeline.FlattenAppend | src/lib.rs:84 | flattening distributes over concatenation |
| Pipeline.FlattenLength | src/lib.rs:84-85 | the output is as long as all the tones together |
| Pipeline.ToneInPlace | src/lib.rs:80-85 | tone k sits in the output immediately after the earlier tones, unchanged |
| Pipeline.SampleStreamLength | src/lib.rs:76-88 | the output length is the sum of the tone lengths, each being the truncated SAMPLE_RATE * duration |
| Pipeline.OneLineProfile | src/lib.rs:62-74 | a newline-free text with surviving characters has exactly one entry, from its cleaned form under its own pitch map |
| Pipeline.SingleToneStream | src/lib.rs:80-85 | a text with a single profile entry sounds exactly that entry's tone |
| Pipeline.SilentText | src/lib.rs:76-88 | a text with no surviving character yields an empty map, an empty profile and an empty output |
| Pipeline.EmptyAndBlankTexts | src/lib.rs:76-88 | "" and "\n" yield an empty map and no sound |
| Pipeline.TwoLetterText | src/lib.rs:46-74 | "Ab" maps 'a' to scale_pitch(0) and 'b' to scale_pitch(1), and profiles to one entry: their mean, for 2/88 s |
| Pipeline.TwoLetterMap | src/lib.rs:46-60 | "Ab" cleans to "ab" and has the two-key map above |
| Pipeline.TwoLetterClean | src/lib.rs:28-34 | "Ab" cleans to "ab" |
| Pipeline.TwoLetterEntry | src/lib.rs:68-71 | the entry of "ab" is the mean of its two pitches, lasting 2/88 s |
| Pipeline.RepeatedLetterText | src/lib.rs:46-88 | "aaaa" maps 'a' to scale_pitch(0), profiles to one entry of 4/88 s, and yields 2181 samples |
| Pipeline.RepeatedLetterMap | src/lib.rs:46-60 | "aaaa" cleans to itself and has the single key 'a' |
| Pipeline.RepeatedLetterClean | src/lib.rs:28-34 | "aaaa" is left unchanged by cleaning |
| Pipeline.RepeatedLetterEntry | src/lib.rs:68-71 | the entry of "aaaa" is the pitch of 'a', lasting 4/88 s |

## Left out

- `write_to_file` (src/lib.rs:90-98): file I/O and little-endian serialisation of the samples.
- `src/main.rs`:
  - argument handling, file reading and the panic on a read error;
  - the call to `soundify::play`, which is not defined in `src/lib.rs`, so that function is not part of this model;
  - the commented-out envelope experiment.
- Floating point: every value is an exact real. f32 rounding is not modelled:
  - in `scale_pitch`;
  - in the mean `sum / len` and in `len / 88`;
  - in the step `frequency * 2 * PI / 48000` and in `n as f32 * step`;
  - in the product `SAMPLE_RATE * duration` that is cast to `u32` (src/lib.rs:39), so the sample count of a tone is the exact-real count.

  The sum of a line's pitches is still formed left to right, as `Iterator::sum` does.
- Primitives.LineWaveLength: the count floor(6000 k / 11) holds for exact reals only. In f32, `k / 88` and `48000 * (k / 88)` are each rounded before the cast. Under IEEE 754 single-precision rounding, the program's count first differs at k = 1927 cleaned characters: it is 1051091 there, one higher than the model's 1051090. For longer lines it can differ by a few samples in either direction. The same applies to `WaveLength`, `SampleStreamLength` and the sample count in `RepeatedLetterText`, whose count of 2181 for "aaaa" is also the f32 count.
- `f32::powf`, `f32::sin` and the Unicode tables behind `char::is_alphanumeric` for non-ASCII characters are not computed. They are parameters, the fields of `Platform`. Properties that need facts about them take those facts as preconditions:
  - `powf(x, 0) = 1` for `ScalePitchAtZero`;
  - sine within [-1, 1] for `WaveWithinVolume`.
- `HashMap` and `HashSet` are modelled as Dafny `map` and `set`, so hashing and iteration order are not modelled. No modelled step depends on them.
- `Vec::retain` plus the implicit truncation is modelled as compaction of an array plus the returned length. The slots after that length are not specified.
- `slice::sort` is a stable merge sort in Rust and an insertion sort here. Both produce the same sorted permutation, and only that result is specified.
- `calculate_averages` takes any map, and its lookup `mapping[&c]` panics on a missing key. Instead of modelling the panic, `CalculateAverages` requires every cleaned character to have a key. `LookupNeverFails` proves this holds for the map `convert` passes.
- `src/lib.rs` applies no envelope, has no minimum tone length and does no oversampling: each tone is the bare sine of `generate_wave`. The model has none of these either.
