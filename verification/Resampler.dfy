/** Fixed-point conversion of decoded frames to stereo at 44.1 kHz. */
module Resampler {
  import opened Wire
  import Slots

  type Sample = s: int | -0x8000 <= s < 0x8000

  const RATE: nat := 44100
  const RATE_24K: nat := 24000
  const RATE_48K: nat := 48000
  /** Samples in the PCM buffer, the most one MP3 frame decodes to. */
  const MAX_SAMPLES: nat := 2304
  /** 2^31 / 44100, rounded down. */
  const BLEND_SCALE: nat := 48695

  datatype Mp3Error = NeedInput | UnsupportedRate | UnsupportedChannels | OutputError

  datatype Frame = Frame(consumed: nat, rate: nat, channels: nat, frames: nat)

  // ----- one output sample

  function Blend(fraction: nat): nat {
    fraction * BLEND_SCALE / 0x1_0000
  }

  function Interpolate(first: Sample, second: Sample, blend: nat): int {
    first + ((second as int - first) * blend + 0x4000) / 0x8000
  }

  /** Blend weights stay below 2^15, and the 32-bit product that forms them does not wrap. */
  lemma BlendFits(fraction: nat)
    requires fraction < RATE
    ensures Blend(fraction) <= 32766 && fraction * BLEND_SCALE < 0x8000_0000
  {
  }

  /** The weight is the exact Q15 fraction, rounded down by less than 67079/44100. */
  lemma BlendError(fraction: nat)
    requires fraction < RATE
    ensures -67079 <= RATE * Blend(fraction) - 0x8000 * fraction <= 0
  {
    var b := Blend(fraction);
    assert 0x1_0000 * b <= fraction * BLEND_SCALE < 0x1_0000 * (b + 1);
  }

  lemma ProductBounds(x: int, y: int, limitX: nat, limitY: nat)
    requires -(limitX as int) <= x <= limitX && -(limitY as int) <= y <= 0
    ensures -(limitX as int * limitY) <= x * y <= limitX as int * limitY
  {
    if x >= 0 {
      assert x * (-y) <= limitX * limitY by {
        Slots.Monotone(x, limitX, -y);
        Slots.Monotone(-y, limitY, limitX);
      }
      assert x * y == -(x * (-y));
    } else {
      assert (-x) * (-y) <= limitX * limitY by {
        Slots.Monotone(-x, limitX, -y);
        Slots.Monotone(-y, limitY, limitX);
      }
      assert x * y == (-x) * (-y);
    }
  }

  /** Rounding a Q15 product back keeps it between zero and the difference it came from. */
  lemma RoundedProduct(delta: int, product: int)
    requires -65535 <= delta <= 65535
    ensures 0 <= product <= delta * 32766 ==> 0 <= (product + 0x4000) / 0x8000 <= delta
    ensures delta * 32766 <= product <= 0 ==> delta <= (product + 0x4000) / 0x8000 <= 0
  {
  }

  lemma ProductRange(delta: int, blend: nat)
    requires blend <= 32766
    ensures delta >= 0 ==> 0 <= delta * blend <= delta * 32766
    ensures delta <= 0 ==> delta * 32766 <= delta * blend <= 0
  {
    if delta >= 0 {
      Slots.Monotone(blend, 32766, delta);
    } else {
      Slots.Monotone(blend, 32766, -delta);
      assert delta * blend == -((-delta) * blend);
    }
  }

  lemma Between(first: Sample, second: Sample, blend: nat)
    requires blend <= 32766
    ensures first <= second ==> first <= Interpolate(first, second, blend) <= second
    ensures second <= first ==> second <= Interpolate(first, second, blend) <= first
    ensures -0x8000_0000 <= (second as int - first) * blend + 0x4000 < 0x8000_0000
  {
    var delta := second as int - first;
    ProductRange(delta, blend);
    RoundedProduct(delta, delta * blend);
    assert Interpolate(first, second, blend) == first + (delta * blend + 0x4000) / 0x8000;
  }

  /**
   * Every output sample lies between its two neighbours, within four units of exact linear
   * interpolation `first + (second - first) * fraction / 44100`, and no 32-bit intermediate wraps.
   */
  lemma InterpolationAccurate(first: Sample, second: Sample, fraction: nat)
    requires fraction < RATE
    ensures var out := Interpolate(first, second, Blend(fraction));
            && Min(first, second) <= out <= Max(first, second)
            && -4 * RATE < RATE * (out - first) - (second as int - first) * fraction < 4 * RATE
            && -0x8000_0000 <= (second as int - first) * Blend(fraction) + 0x4000 < 0x8000_0000
            && fraction * BLEND_SCALE < TWO32
  {
    var delta, b := second as int - first, Blend(fraction);
    BlendFits(fraction);
    BlendError(fraction);
    Between(first, second, b);
    var out := Interpolate(first, second, b);
    var e := RATE * b - 0x8000 * fraction;
    ProductBounds(delta, e, 65535, 67079);
    Scaled(delta, b, fraction, out - first, e);
  }

  /** The scaled error of the rounded product. */
  lemma Scaled(delta: int, b: nat, fraction: nat, q: int, e: int)
    requires q == (delta * b + 0x4000) / 0x8000
    requires e == RATE * b - 0x8000 * fraction
    requires -(65535 * 67079) <= delta * e <= 65535 * 67079
    ensures -4 * RATE < RATE * q - delta * fraction < 4 * RATE
  {
    assert delta * e == RATE * (delta * b) - 0x8000 * (delta * fraction);
    assert 0x8000 * q <= delta * b + 0x4000 < 0x8000 * (q + 1);
  }

  // ----- one frame

  /** Position, in 1/44100 of a source frame, of output frame `k`. */
  function Position(phase: nat, rate: nat, k: nat): nat {
    phase + k * rate
  }

  function SourceIndex(phase: nat, rate: nat, k: nat): nat {
    Position(phase, rate, k) / RATE
  }

  function Fraction(phase: nat, rate: nat, k: nat): nat {
    Position(phase, rate, k) % RATE
  }

  /** Source sample of frame `index` on `side`; mono feeds both sides. */
  function Source(pcm: seq<Sample>, channels: nat, index: nat, side: nat): Sample
    requires channels == 1 || channels == 2
    requires side < 2 && (index + 1) * channels <= |pcm|
  {
    if channels == 1 then pcm[index] else pcm[2 * index + side]
  }

  /** The next source frame, the last one held. */
  function Following(index: nat, frames: nat): nat {
    if index + 1 < frames then index + 1 else index
  }

  function Resampled(pcm: seq<Sample>, f: Frame, phase: nat, k: nat, side: nat): Sample
    requires (f.channels == 1 || f.channels == 2) && f.frames * f.channels <= |pcm|
    requires side < 2 && Position(phase, f.rate, k) < f.frames * RATE
  {
    var index := SourceIndex(phase, f.rate, k);
    IndexInRange(phase, f, k);
    BlendFits(Fraction(phase, f.rate, k));
    var first := Source(pcm, f.channels, index, side);
    var second := Source(pcm, f.channels, Following(index, f.frames), side);
    Between(first, second, Blend(Fraction(phase, f.rate, k)));
    Interpolate(first, second, Blend(Fraction(phase, f.rate, k)))
  }

  lemma IndexInRange(phase: nat, f: Frame, k: nat)
    requires (f.channels == 1 || f.channels == 2) && Position(phase, f.rate, k) < f.frames * RATE
    ensures SourceIndex(phase, f.rate, k) < f.frames
    ensures (SourceIndex(phase, f.rate, k) + 1) * f.channels <= f.frames * f.channels
    ensures (Following(SourceIndex(phase, f.rate, k), f.frames) + 1) * f.channels <= f.frames * f.channels
  {
  }

  /** Output frames made of a frame entered at `phase`, and the phase carried to the next. */
  function OutputFrames(f: Frame, phase: nat): nat
    requires f.rate > 0
  {
    CeilDiv(Max(0, f.frames * RATE - phase), f.rate)
  }

  function NextPhase(f: Frame, phase: nat): int
    requires f.rate > 0
  {
    Position(phase, f.rate, OutputFrames(f, phase)) - f.frames * RATE
  }

  lemma PhaseCarried(f: Frame, phase: nat)
    requires f.rate > 0 && phase < f.frames * RATE
    ensures 0 <= NextPhase(f, phase) < f.rate
    ensures OutputFrames(f, phase) > 0
    ensures forall k: nat | k < OutputFrames(f, phase) :: Position(phase, f.rate, k) < f.frames * RATE
  {
    var n := OutputFrames(f, phase);
    Slots.Distribute(f.rate, n, 1);
    forall k: nat | k < n
      ensures Position(phase, f.rate, k) < f.frames * RATE
    {
      Slots.Monotone(k, n - 1, f.rate);
    }
  }

  /** The position past the last output frame, from which the carried phase is taken, also fits 32 bits. */
  lemma CarriedSumFits(f: Frame, phase: nat)
    requires f.rate == RATE_24K || f.rate == RATE_48K
    requires phase < f.frames * RATE && f.frames <= MAX_SAMPLES
    ensures Position(phase, f.rate, OutputFrames(f, phase)) == f.frames * RATE + NextPhase(f, phase) < f.frames * RATE + f.rate < TWO32
  {
    PhaseCarried(f, phase);
  }

  /**
   * Every output sample of a frame, at full volume: it stands at an exact position inside the source, between its two
   * source neighbours (the last frame held), and within four units of the straight line through them.
   */
  lemma EverySampleAccurate(pcm: seq<Sample>, f: Frame, phase: nat, k: nat, side: nat)
    requires (f.channels == 1 || f.channels == 2) && f.frames * f.channels <= |pcm| && side < 2
    requires f.rate == RATE_24K || f.rate == RATE_48K
    requires phase < f.frames * RATE < TWO32 && k < OutputFrames(f, phase)
    ensures var position := Position(phase, f.rate, k);
            && position < f.frames * RATE < TWO32
            && position / RATE < f.frames && Following(position / RATE, f.frames) < f.frames
            && (position / RATE + 1) * f.channels <= |pcm| && (Following(position / RATE, f.frames) + 1) * f.channels <= |pcm|
            && var first, second := Source(pcm, f.channels, position / RATE, side),
                                    Source(pcm, f.channels, Following(position / RATE, f.frames), side);
               var out := Resampled(pcm, f, phase, k, side);
               && Min(first, second) <= out <= Max(first, second)
               && -4 * RATE < RATE * (out - first) - (second as int - first) * (position % RATE) < 4 * RATE
  {
    hide Blend, Interpolate, Source, Position;
    PhaseCarried(f, phase);
    IndexInRange(phase, f, k);
    var position := Position(phase, f.rate, k);
    InterpolationAccurate(Source(pcm, f.channels, position / RATE, side),
                          Source(pcm, f.channels, Following(position / RATE, f.frames), side), position % RATE);
  }

  // ----- no drift

  function Sum(frames: seq<nat>): nat {
    if frames == [] then 0 else frames[0] + Sum(frames[1..])
  }

  /** Total output frames of a stream of frames at one rate, entered at `phase`. */
  function TotalOutput(frames: seq<nat>, rate: nat, phase: nat): nat
    requires rate > 0
    decreases frames
  {
    if frames == [] then 0
    else
      var f := Frame(0, rate, 1, frames[0]);
      OutputFrames(f, phase) + TotalOutput(frames[1..], rate, Max(0, NextPhase(f, phase)))
  }

  function FinalPhase(frames: seq<nat>, rate: nat, phase: nat): nat
    requires rate > 0
    decreases frames
  {
    if frames == [] then phase else FinalPhase(frames[1..], rate, Max(0, NextPhase(Frame(0, rate, 1, frames[0]), phase)))
  }

  /** Output so far and phase carried always add up to the source duration exactly. */
  lemma {:induction false} NothingLost(frames: seq<nat>, rate: nat, phase: nat)
    requires rate == RATE_24K || rate == RATE_48K
    requires phase < rate && forall n | n in frames :: n >= 2
    ensures FinalPhase(frames, rate, phase) < rate
    ensures phase + TotalOutput(frames, rate, phase) * rate == RATE * Sum(frames) + FinalPhase(frames, rate, phase)
    decreases frames
  {
    if frames != [] {
      assert frames[0] in frames && forall n | n in frames[1..] :: n in frames;
      var f := Frame(0, rate, 1, frames[0]);
      PhaseCarried(f, phase);
      NothingLost(frames[1..], rate, NextPhase(f, phase));
      DistributeAdd(rate, OutputFrames(f, phase), TotalOutput(frames[1..], rate, NextPhase(f, phase)));
    }
  }

  lemma DistributeAdd(n: int, x: int, y: int)
    ensures (x + y) * n == x * n + y * n
  {
  }

  /**
   * For any sequence of frames of at least two sample frames at one rate, from phase 0, the output
   * frames total exactly the source duration at 44.1 kHz, rounded up.
   */
  lemma NoDrift(frames: seq<nat>, rate: nat)
    requires rate == RATE_24K || rate == RATE_48K
    requires forall n | n in frames :: n >= 2
    ensures TotalOutput(frames, rate, 0) == CeilDiv(RATE * Sum(frames), rate)
    ensures FinalPhase(frames, rate, 0) < rate
  {
    NothingLost(frames, rate, 0);
    CeilUnique(RATE * Sum(frames), rate, TotalOutput(frames, rate, 0), FinalPhase(frames, rate, 0));
  }

  lemma CeilUnique(a: nat, b: nat, q: nat, r: nat)
    requires b > 0 && r < b && q * b == a + r
    ensures CeilDiv(a, b) == q
  {
    if a > 0 {
      Slots.DivUnique(a - 1, b, q - 1, b - 1 - r);
    } else {
      Slots.SmallMultiple(b, q);
    }
  }

  // ----- volume and the loops

  /** `i32` division truncates toward zero. */
  function Scaled100(sample: Sample, volume: nat): Sample
    requires volume <= 100
  {
    ScaledFits(sample, volume);
    if sample >= 0 then sample as int * volume / 100 else -((-(sample as int)) * volume / 100)
  }

  lemma ScaledFits(sample: Sample, volume: nat)
    requires volume <= 100
    ensures sample >= 0 ==> 0 <= sample as int * volume / 100 <= sample
    ensures sample < 0 ==> 0 <= (-(sample as int)) * volume / 100 <= -(sample as int)
  {
    if sample >= 0 {
      Slots.Monotone(volume, 100, sample);
    } else {
      Slots.Monotone(volume, 100, -(sample as int));
    }
  }

  method ScaleVolume(samples: array<Sample>, count: nat, volume: nat)
    requires count <= samples.Length && volume <= 100
    modifies samples
    ensures forall k | 0 <= k < samples.Length ::
              samples[k] == if k < count then Scaled100(old(samples[k]), volume) else old(samples[k])
  {
    if volume != 100 {
      for i := 0 to count
        invariant forall k | 0 <= k < samples.Length ::
                    samples[k] == if k < i then Scaled100(old(samples[k]), volume) else old(samples[k])
      {
        samples[i] := Scaled100(samples[i], volume);
      }
    }
  }

  /** Advancing the whole and fractional position separately is advancing the position. */
  lemma PositionStep(phase: nat, rate: nat, k: nat, index: nat, fraction: nat)
    requires index * RATE + fraction == Position(phase, rate, k) && fraction < RATE
    ensures index == SourceIndex(phase, rate, k) && fraction == Fraction(phase, rate, k)
    ensures Position(phase, rate, k + 1) == index * RATE + fraction + rate
  {
    Slots.DivUnique(Position(phase, rate, k), RATE, index, fraction);
    Slots.Distribute(rate, k + 1, 1);
  }

  lemma PositionStart(phase: nat, rate: nat)
    ensures phase / RATE * RATE + phase % RATE == Position(phase, rate, 0)
  {
  }

  /** The two source samples of each side, where they lie in the interleaved frame. */
  lemma ResampledAt(pcm: seq<Sample>, f: Frame, phase: nat, k: nat, index: nat, fraction: nat)
    requires (f.channels == 1 || f.channels == 2) && f.frames * f.channels <= |pcm|
    requires Position(phase, f.rate, k) < f.frames * RATE
    requires index == SourceIndex(phase, f.rate, k) && fraction == Fraction(phase, f.rate, k) && fraction < RATE
    ensures var first := index * f.channels;
            var second := if index < f.frames - 1 then first + f.channels else first;
            && index < f.frames && first + f.channels <= |pcm| && second + f.channels <= |pcm|
            && Resampled(pcm, f, phase, k, 0) == Interpolate(pcm[first], pcm[second], Blend(fraction))
            && Resampled(pcm, f, phase, k, 1) ==
                 (if f.channels == 1 then Resampled(pcm, f, phase, k, 0)
                  else Interpolate(pcm[first + 1], pcm[second + 1], Blend(fraction)))
  {
    hide Blend, Interpolate, Position, Fraction;
    IndexInRange(phase, f, k);
  }

  method Resample(pcm: array<Sample>, f: Frame, phase: nat, output: array<Sample>, count: nat)
    returns (index: nat, fraction: nat)
    requires output != pcm && 2 * count <= output.Length
    requires (f.channels == 1 || f.channels == 2) && f.frames * f.channels <= pcm.Length
    requires forall k: nat | k < count :: Position(phase, f.rate, k) < f.frames * RATE
    modifies output
    ensures forall k | 0 <= k < count ::
              && output[2 * k] == Resampled(pcm[..], f, phase, k, 0)
              && output[2 * k + 1] == Resampled(pcm[..], f, phase, k, 1)
    ensures forall k | 2 * count <= k < output.Length :: output[k] == old(output[k])
    ensures index * RATE + fraction == Position(phase, f.rate, count) && fraction < RATE
  {
    hide Blend, Interpolate, Resampled, Position;
    var stepWhole, stepFraction := f.rate / RATE, f.rate % RATE;
    index, fraction := phase / RATE, phase % RATE;
    PositionStart(phase, f.rate);
    for k := 0 to count
      invariant fraction < RATE && index * RATE + fraction == Position(phase, f.rate, k)
      invariant forall i | 0 <= i < k ::
                  && output[2 * i] == Resampled(pcm[..], f, phase, i, 0)
                  && output[2 * i + 1] == Resampled(pcm[..], f, phase, i, 1)
      invariant forall i | 2 * k <= i < output.Length :: output[i] == old(output[i])
    {
      PositionStep(phase, f.rate, k, index, fraction);
      ResampledAt(pcm[..], f, phase, k, index, fraction);
      var first := index * f.channels;
      var second := if index < f.frames - 1 then first + f.channels else first;
      var blend := Blend(fraction);
      output[2 * k] := Interpolate(pcm[first], pcm[second], blend);
      output[2 * k + 1] := if f.channels == 1 then output[2 * k] else Interpolate(pcm[first + 1], pcm[second + 1], blend);
      index := index + stepWhole;
      fraction := fraction + stepFraction;
      if fraction >= RATE {
        fraction := fraction - RATE;
        index := index + 1;
      }
    }
  }
}
