/** What is heard of a decoded frame: each side of the output against the side of the frame it was made from. */
module Mp3Sound {
  import opened Wire
  import opened Resampler
  import opened Mp3
  import Slots

  /** Two sides as the decoder lays them out. */
  function Interleaved(left: seq<Sample>, right: seq<Sample>): (pcm: seq<Sample>)
    requires |left| == |right|
    ensures |pcm| == 2 * |left|
  {
    if left == [] then [] else [left[0], right[0]] + Interleaved(left[1..], right[1..])
  }

  lemma {:induction false} InterleavedAt(left: seq<Sample>, right: seq<Sample>, k: nat)
    requires |left| == |right| && k < |left|
    ensures Interleaved(left, right)[2 * k] == left[k] && Interleaved(left, right)[2 * k + 1] == right[k]
  {
    if k > 0 {
      InterleavedAt(left[1..], right[1..], k - 1);
      assert Interleaved(left, right)[2 * k] == Interleaved(left[1..], right[1..])[2 * (k - 1)];
      assert Interleaved(left, right)[2 * k + 1] == Interleaved(left[1..], right[1..])[2 * (k - 1) + 1];
    }
  }

  /** The frame's samples lie at the front of the PCM buffer; a mono frame has one side for both. */
  predicate IsDecoded(pcm: seq<Sample>, f: Frame, left: seq<Sample>, right: seq<Sample>) {
    && |left| == |right| == f.frames
    && if f.channels == 2 then Interleaved(left, right) <= pcm else f.channels == 1 && left == right && left <= pcm
  }

  lemma SourceIsSide(pcm: seq<Sample>, f: Frame, left: seq<Sample>, right: seq<Sample>, k: nat)
    requires IsDecoded(pcm, f, left, right) && k < f.frames
    ensures (k + 1) * f.channels <= f.frames * f.channels <= |pcm|
    ensures Source(pcm, f.channels, k, 0) == left[k] && Source(pcm, f.channels, k, 1) == right[k]
  {
    if f.channels == 2 {
      InterleavedAt(left, right, k);
    }
  }

  /** `out` is `sample * volume / 100`, the fraction dropped. */
  predicate AtVolume(sample: int, volume: nat, out: int) {
    && (sample >= 0 ==> 0 <= out && 100 * out <= sample * volume < 100 * out + 100)
    && (sample <= 0 ==> out <= 0 && 100 * out - 100 < sample * volume <= 100 * out)
  }

  lemma ScaledIsAtVolume(sample: Sample, volume: nat)
    requires volume <= 100
    ensures AtVolume(sample, volume, Scaled100(sample, volume))
  {
    var product := sample as int * volume;
    if sample >= 0 {
      Slots.Monotone(0, volume, sample);
    } else {
      Slots.Monotone(0, volume, -(sample as int));
    }
  }

  /** `sample` lies between the two neighbours of `position`, within four units of the straight line through them. */
  predicate OnLine(side: seq<Sample>, position: nat, sample: int) {
    var i := position / RATE;
    && i < |side|
    && var first, second := side[i] as int, (if i + 1 < |side| then side[i + 1] else side[i]) as int;
       && Min(first, second) <= sample <= Max(first, second)
       && -4 * RATE < RATE * (sample - first) - (second - first) * (position % RATE) < 4 * RATE
  }

  lemma ResampledOnLine(pcm: seq<Sample>, f: Frame, phase: nat, k: nat, left: seq<Sample>, right: seq<Sample>)
    requires IsDecoded(pcm, f, left, right) && (f.rate == RATE_24K || f.rate == RATE_48K)
    requires phase < f.frames * RATE < TWO32 && k < OutputFrames(f, phase) && phase + k * f.rate < f.frames * RATE
    ensures f.frames * f.channels <= |pcm|
    ensures OnLine(left, phase + k * f.rate, Resampled(pcm, f, phase, k, 0))
    ensures OnLine(right, phase + k * f.rate, Resampled(pcm, f, phase, k, 1))
  {
    hide Source, Resampled, OutputFrames, IsDecoded, Interleaved;
    assert |left| == |right| == f.frames && (f.channels == 1 || f.channels == 2) by { DecodedSizes(pcm, f, left, right); }
    var i := Position(phase, f.rate, k) / RATE;
    SourceIsSide(pcm, f, left, right, 0);
    EverySampleAccurate(pcm, f, phase, k, 0);
    EverySampleAccurate(pcm, f, phase, k, 1);
    SourceIsSide(pcm, f, left, right, i);
    SourceIsSide(pcm, f, left, right, Following(i, f.frames));
  }

  lemma DecodedSizes(pcm: seq<Sample>, f: Frame, left: seq<Sample>, right: seq<Sample>)
    requires IsDecoded(pcm, f, left, right)
    ensures |left| == |right| == f.frames && (f.channels == 1 || f.channels == 2)
  {
  }

  /** Output frame `k` on one side, at the volume: the source sample at 44.1 kHz, and a point on its line otherwise. */
  ghost predicate Heard(side: seq<Sample>, rate: nat, phase: nat, volume: nat, k: nat, out: int) {
    if rate == RATE then k < |side| && AtVolume(side[k], volume, out)
    else exists sample :: OnLine(side, phase + k * rate, sample) && AtVolume(sample, volume, out)
  }

  /**
   * Whatever a frame is rendered from, its left side is heard on the left and its right side on the right, a mono frame
   * on both: every output sample is, at the volume set, the source sample or a point near the line through its two
   * neighbours at its exact position.
   */
  lemma SidesAreHeard(pcm: seq<Sample>, f: Frame, phase: nat, volume: nat, frames: nat, out: seq<Sample>, before: seq<Sample>,
                      left: seq<Sample>, right: seq<Sample>, k: nat)
    requires f.rate == RATE || ((f.rate == RATE_24K || f.rate == RATE_48K) && phase < f.frames * RATE < TWO32)
    requires Rendered(pcm, f, phase, volume, frames, out, before) && IsDecoded(pcm, f, left, right) && k < frames
    ensures Heard(left, f.rate, phase, volume, k, out[2 * k]) && Heard(right, f.rate, phase, volume, k, out[2 * k + 1])
  {
    hide IsDecoded, Source, Resampled, OnLine, AtVolume, Scaled100, OutputFrames;
    DecodedSizes(pcm, f, left, right);
    if f.rate == RATE {
      SourceIsSide(pcm, f, left, right, k);
      ScaledIsAtVolume(left[k], volume);
      ScaledIsAtVolume(right[k], volume);
    } else {
      assert Position(phase, f.rate, k) == phase + k * f.rate;
      ResampledOnLine(pcm, f, phase, k, left, right);
      ScaledIsAtVolume(Resampled(pcm, f, phase, k, 0), volume);
      ScaledIsAtVolume(Resampled(pcm, f, phase, k, 1), volume);
    }
  }
}
