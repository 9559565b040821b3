/**
  Numeric constants, the float operations the model leaves abstract, and the
  tone generator of the soundify pipeline.

  Hz, Seconds and Pulse values (f32 in the program) are modelled as exact
  `real`s. The library calls whose results the model does not compute
  (`f32::powf`, `f32::sin`, and the Unicode part of `char::is_alphanumeric`)
  are fields of a `Platform` value that every operation takes as a parameter.
*/
module Primitives {

  /** What the platform decides and the model leaves open. */
  datatype Platform = Platform(
    // `char::is_alphanumeric` for characters outside ASCII
    // (Unicode Alphabetic or Numeric)
    nonAsciiAlphanumeric: char -> bool,
    // `f32::powf(base, exponent)`
    powf: (real, real) -> real,
    // `f32::sin`
    sin: real -> real)

  const MIDDLE_A: real := 432.0
  const SAMPLE_RATE: real := 48000.0
  const VOLUME: real := 1.0
  const DURATION_SCALE: real := 88.0
  /** `std::f32::consts::PI` */
  const PI: real := 3.14159265358979323846264338327950288
  const U32_MAX: nat := 0xFFFF_FFFF

  /** The pitch `diff` quarter-tones above MIDDLE_A: 432 * (2^(1/12))^(diff/2). */
  function ScalePitch(p: Platform, diff: real): real
  {
    MIDDLE_A * p.powf(p.powf(2.0, 1.0 / 12.0), diff / 2.0)
  }

  /**
    Rust's `x as u32` on a float: truncation toward zero, saturating at 0
    below and at u32::MAX above.
  */
  function AsU32(x: real): (r: nat)
    ensures r <= U32_MAX
    ensures 0.0 <= x < U32_MAX as real ==> r as real <= x < r as real + 1.0
    ensures x <= 0.0 ==> r == 0
    ensures x >= U32_MAX as real ==> r == U32_MAX
  {
    if x <= 0.0 then 0
    else if x >= U32_MAX as real then U32_MAX
    else x.Floor
  }

  /**
    `generate_wave`: one sine sample per index below SAMPLE_RATE * duration
    (cast to u32), sample n being sin(n * step) * VOLUME with
    step = frequency * 2 * PI / SAMPLE_RATE.
  */
  function GenerateWave(p: Platform, frequency: real, duration: real): seq<real>
  {
    var step := (frequency * 2.0 * PI) / SAMPLE_RATE;
    seq(AsU32(SAMPLE_RATE * duration), n => p.sin(n as real * step) * VOLUME)
  }

  /** A tone lasts SAMPLE_RATE * duration samples, truncated and saturated as a u32. */
  lemma WaveLength(p: Platform, frequency: real, duration: real)
    ensures |GenerateWave(p, frequency, duration)| == AsU32(SAMPLE_RATE * duration)
    ensures 0.0 <= SAMPLE_RATE * duration < U32_MAX as real ==>
      |GenerateWave(p, frequency, duration)| as real <= SAMPLE_RATE * duration
                                                      < |GenerateWave(p, frequency, duration)| as real + 1.0
  {
  }

  /**
    A line of k cleaned characters lasts k / DURATION_SCALE seconds, so its
    tone has floor(48000 * k / 88) = floor(6000 * k / 11) samples (saturated).
  */
  lemma LineWaveLength(p: Platform, frequency: real, k: nat)
    ensures |GenerateWave(p, frequency, k as real / DURATION_SCALE)|
            == if 6000 * k / 11 < U32_MAX then 6000 * k / 11 else U32_MAX
  {
    var x := SAMPLE_RATE * (k as real / DURATION_SCALE);
    var q, r := 6000 * k / 11, 6000 * k % 11;
    assert 6000 * k == 11 * q + r;
    assert x == (6000 * k) as real / 11.0;
    assert x == q as real + r as real / 11.0;
    assert q as real <= x < q as real + 1.0;
    if q < U32_MAX {
      assert x < U32_MAX as real;
      assert AsU32(x) == q;
    } else {
      assert x >= U32_MAX as real;
    }
  }

  /** Every sample lies within [-VOLUME, VOLUME] when the platform's sine lies in [-1, 1]. */
  lemma WaveWithinVolume(p: Platform, frequency: real, duration: real)
    requires forall x :: -1.0 <= p.sin(x) <= 1.0
    ensures forall n :: 0 <= n < |GenerateWave(p, frequency, duration)| ==>
      -VOLUME <= GenerateWave(p, frequency, duration)[n] <= VOLUME
  {
  }

  /** The lowest pitch is MIDDLE_A itself, given that powf(x, 0) == 1. */
  lemma ScalePitchAtZero(p: Platform)
    requires forall x :: p.powf(x, 0.0) == 1.0
    ensures ScalePitch(p, 0.0) == MIDDLE_A
  {
    var semitone := p.powf(2.0, 1.0 / 12.0);
    assert p.powf(semitone, 0.0) == 1.0;
    assert 0.0 / 2.0 == 0.0;
  }
}
