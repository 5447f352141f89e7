/** The incremental MP3 reader as the source has it: a fixed window, its indices, and a resident PCM buffer. */
module Mp3 {
  import opened Wire
  import opened Resampler
  import opened Mp3Spec

  predicate Playable(f: Frame, pcmLength: nat, volume: nat) {
    (f.channels == 1 || f.channels == 2) && f.frames * f.channels <= pcmLength && f.rate > 0 && volume <= 100
  }

  /** At 44.1 kHz: mono on both sides, stereo as it is. */
  ghost predicate Copied(pcm: seq<Sample>, f: Frame, volume: nat, out: seq<Sample>)
    requires Playable(f, |pcm|, volume) && 2 * f.frames <= |out|
  {
    forall k: nat | k < f.frames ::
      && out[2 * k] == Scaled100(Source(pcm, f.channels, k, 0), volume)
      && out[2 * k + 1] == Scaled100(Source(pcm, f.channels, k, 1), volume)
  }

  ghost predicate Rerated(pcm: seq<Sample>, f: Frame, phase: nat, volume: nat, frames: nat, out: seq<Sample>)
    requires Playable(f, |pcm|, volume) && 2 * frames <= |out|
  {
    forall k: nat | k < frames ::
      && Position(phase, f.rate, k) < f.frames * RATE
      && out[2 * k] == Scaled100(Resampled(pcm, f, phase, k, 0), volume)
      && out[2 * k + 1] == Scaled100(Resampled(pcm, f, phase, k, 1), volume)
  }

  /** `out` starts with the frame as played, copied at 44.1 kHz and resampled from `phase` otherwise; the rest is left. */
  ghost predicate Rendered(pcm: seq<Sample>, f: Frame, phase: nat, volume: nat, frames: nat, out: seq<Sample>, before: seq<Sample>) {
    && Playable(f, |pcm|, volume) && 2 * frames <= |out| == |before|
    && (if f.rate == RATE then frames == f.frames && Copied(pcm, f, volume, out)
        else frames == OutputFrames(f, phase) && Rerated(pcm, f, phase, volume, frames, out))
    && forall k | 2 * frames <= k < |out| :: out[k] == before[k]
  }

  class Mp3ByteStream {
    const input: array<Byte>
    const pcm: array<Sample>
    var inputStart: nat
    var inputEnd: nat
    var tagRemaining: nat
    var resampleRate: nat
    var resamplePhase: nat

    ghost predicate Valid()
      reads this
    {
      input.Length == WINDOW && inputStart <= inputEnd <= WINDOW
    }

    ghost function View(): Stream
      requires Valid()
      reads this, input
    {
      Stream(inputStart, input[inputStart..inputEnd], tagRemaining, resampleRate, resamplePhase)
    }

    constructor (pcmLength: nat)
      ensures Valid() && View() == New && fresh(input) && fresh(pcm) && pcm.Length == pcmLength
    {
      input := new Byte[WINDOW](_ => 0);
      pcm := new Sample[pcmLength](_ => 0);
      inputStart, inputEnd, tagRemaining, resampleRate, resamplePhase := 0, 0, 0, 0, 0;
    }

    method Reset()
      requires Valid()
      modifies this
      ensures Valid() && View() == New
    {
      inputStart, inputEnd, tagRemaining, resampleRate, resamplePhase := 0, 0, 0, 0, 0;
    }

    method FreeSpace() returns (free: nat)
      requires Valid()
      ensures free == Free(View())
    {
      if inputStart >= COMPACT_THRESHOLD {
        free := WINDOW - (inputEnd - inputStart);
      } else {
        free := WINDOW - inputEnd;
      }
    }

    method Push(bytes: seq<Byte>) returns (count: nat)
      requires Valid()
      modifies this, input
      ensures Valid() && View() == Pushed(old(View()), bytes) && count == Accepts(old(View()), bytes)
    {
      var free := FreeSpace();
      count := Min(|bytes|, free);
      if count > WINDOW - inputEnd {
        Compact();
      }
      ghost var before := input[..];
      Store(input, inputEnd, bytes[..count]);
      Appended(before, input[..], inputStart, inputEnd, bytes[..count]);
      inputEnd := inputEnd + count;
    }

    method Compact()
      requires Valid()
      modifies this, input
      ensures Valid() && View() == Compacted(old(View()))
    {
      if inputStart != 0 {
        var start, length := inputStart, inputEnd - inputStart;
        forall k | 0 <= k < length {
          input[k] := input[start + k];
        }
        inputEnd := length;
        inputStart := 0;
        assert View().pending == old(View()).pending;
      }
    }

    method Consume(count: nat)
      requires Valid() && count <= inputEnd - inputStart
      modifies this
      ensures Valid() && View() == Consumed(old(View()), count)
    {
      inputStart := inputStart + count;
      if inputStart == inputEnd {
        inputStart := 0;
        inputEnd := 0;
      }
      assert View().pending == old(View()).pending[count..];
    }

    method SkipTag(tag: nat) returns (progress: Result<Progress, Mp3Error>)
      requires Valid()
      modifies this
      ensures Valid() && (View(), progress) == Skip(old(View()), tag)
    {
      ghost var s := View();
      assert |s.pending| == inputEnd - inputStart;
      var consumed := Min(tag, inputEnd - inputStart);
      Consume(consumed);
      hide Consumed;
      tagRemaining := tag - consumed;
      assert View() == Consumed(s, consumed).(tagRemaining := tag - consumed);
      progress := Ok(Skipped(consumed));
    }

    /** `write_stereo_s16`: mono is copied to both sides. */
    method WriteStereo(f: Frame, volume: nat, output: array<Sample>) returns (needed: Result<nat, Mp3Error>)
      requires output != pcm && (f.channels == 1 || f.channels == 2) && f.frames * f.channels <= pcm.Length
      modifies output
      ensures needed == if output.Length < 2 * f.frames || volume > 100 then Err(OutputError) else Ok(2 * f.frames)
      ensures if needed.Err? then output[..] == old(output[..])
              else f.rate == RATE ==> Rendered(pcm[..], f, 0, volume, f.frames, output[..], old(output[..]))
    {
      if output.Length < 2 * f.frames || volume > 100 {
        return Err(OutputError);
      }
      for k := 0 to f.frames
        invariant forall i | 0 <= i < k ::
                    output[2 * i] == Source(pcm[..], f.channels, i, 0) && output[2 * i + 1] == Source(pcm[..], f.channels, i, 1)
        invariant forall i | 2 * k <= i < output.Length :: output[i] == old(output[i])
      {
        output[2 * k] := if f.channels == 1 then pcm[k] else pcm[2 * k];
        output[2 * k + 1] := if f.channels == 1 then pcm[k] else pcm[2 * k + 1];
      }
      ScaleVolume(output, 2 * f.frames, volume);
      needed := Ok(2 * f.frames);
    }

    /** `write_stereo_s16_resampled` for the rates that need resampling. */
    method WriteResampled(f: Frame, volume: nat, output: array<Sample>, phase: nat)
      returns (needed: Result<nat, Mp3Error>, carried: nat)
      requires output != pcm && (f.channels == 1 || f.channels == 2) && f.frames * f.channels <= pcm.Length
      requires f.rate == RATE_24K || f.rate == RATE_48K
      modifies output
      ensures match Converted(f, volume, output.Length, phase)
              case Err(error) => needed == Err(error) && carried == phase && output[..] == old(output[..])
              case Ok((frames, next)) =>
                && needed == Ok(2 * frames) && carried == next < f.rate
                && Rendered(pcm[..], f, phase, volume, frames, output[..], old(output[..]))
                && (f.frames <= MAX_SAMPLES ==> f.frames * RATE + carried < TWO32)
    {
      carried := phase;
      if volume > 100 {
        return Err(UnsupportedRate), phase;
      }
      var span := f.frames * RATE;
      if span >= TWO32 || phase >= span {
        return Err(OutputError), phase;
      }
      var outputFrames := CeilDiv(span - phase, f.rate);
      if output.Length < 2 * outputFrames {
        return Err(OutputError), phase;
      }
      PhaseCarried(f, phase);
      if f.frames <= MAX_SAMPLES {
        CarriedSumFits(f, phase);
      }
      var index, fraction := Resample(pcm, f, phase, output, outputFrames);
      ScaleVolume(output, 2 * outputFrames, volume);
      carried := index * RATE + fraction - span;
      needed := Ok(2 * outputFrames);
    }

    method DecodeNext(volume: nat, output: array<Sample>, endOfInput: bool, decoding: Decoding)
      returns (progress: Result<Progress, Mp3Error>)
      requires Valid() && output != pcm
      modifies this, input, output
      ensures Valid() && (View(), progress) == DecodeStep(old(View()), volume, output.Length, endOfInput, decoding, pcm.Length)
      ensures if progress.Ok? && progress.value.Decoded? then
                var f := Checked(decoding, pcm.Length).value;
                Rendered(pcm[..], f, Entered(old(View()), f.rate).phase, volume, progress.value.outputFrames, output[..], old(output[..]))
              else output[..] == old(output[..])
    {
      hide Rendered, Convert, Id3Length, Consumed;
      ghost var s := View();
      var pending := inputEnd - inputStart;
      if tagRemaining != 0 && pending != 0 {
        progress := SkipTag(tagRemaining);
        return;
      }
      if pending < MIN_DECODE_INPUT && !endOfInput {
        Compact();
        return Ok(NeedMore);
      }
      var tag := Id3Length(input[inputStart..inputEnd]);
      if tag.Some? {
        progress := SkipTag(tag.value);
        return;
      }
      var checked := Checked(decoding, pcm.Length);
      if checked == Err(NeedInput) {
        Compact();
        return Ok(NeedMore);
      }
      if checked.Err? {
        return Err(checked.error);
      }
      var f := checked.value;
      if f.consumed == 0 || f.consumed > pending {
        return Err(OutputError);
      }
      if f.frames == 0 {
        Consume(f.consumed);
        return Ok(Skipped(f.consumed));
      }
      progress := ConvertFrame(f, volume, output);
    }

    /** Writes the frame as played and carries the phase on. */
    method Render(f: Frame, volume: nat, output: array<Sample>) returns (samples: Result<nat, Mp3Error>)
      requires Valid() && output != pcm
      requires (f.channels == 1 || f.channels == 2) && f.frames * f.channels <= pcm.Length
      requires f.rate == RATE || f.rate == RATE_24K || f.rate == RATE_48K
      modifies this`resampleRate, this`resamplePhase, output
      ensures Valid()
      ensures var entered := Entered(old(View()), f.rate);
              match Converted(f, volume, output.Length, entered.phase)
              case Err(error) =>
                && samples == Err(error) && output[..] == old(output[..])
                && View() == if f.rate == RATE then entered.(phase := 0) else entered
              case Ok((frames, phase)) =>
                && samples == Ok(2 * frames) && View() == entered.(phase := phase)
                && Rendered(pcm[..], f, entered.phase, volume, frames, output[..], old(output[..]))
    {
      hide Rendered, OutputFrames, NextPhase;
      if resampleRate != f.rate {
        resampleRate := f.rate;
        resamplePhase := 0;
      }
      if f.rate == RATE {
        ghost var phase := resamplePhase;
        resamplePhase := 0;
        samples := WriteStereo(f, volume, output);
        if samples.Ok? {
          PhaseDoesNotMatter(pcm[..], f, 0, phase, volume, output[..], old(output[..]));
        }
      } else {
        var carried;
        samples, carried := WriteResampled(f, volume, output, resamplePhase);
        resamplePhase := carried;
      }
    }

    method ConvertFrame(f: Frame, volume: nat, output: array<Sample>) returns (progress: Result<Progress, Mp3Error>)
      requires Valid() && output != pcm && f.consumed <= inputEnd - inputStart
      requires (f.channels == 1 || f.channels == 2) && f.frames * f.channels <= pcm.Length
      requires f.rate == RATE || f.rate == RATE_24K || f.rate == RATE_48K
      modifies this, output
      ensures Valid() && (View(), progress) == Convert(old(View()), f, volume, output.Length)
      ensures progress.Ok? ==> progress.value.Decoded?
      ensures if progress.Err? then output[..] == old(output[..])
              else Rendered(pcm[..], f, Entered(old(View()), f.rate).phase, volume, progress.value.outputFrames, output[..], old(output[..]))
    {
      hide Rendered, Converted, Consumed;
      var samples := Render(f, volume, output);
      if samples.Err? {
        return Err(samples.error);
      }
      Consume(f.consumed);
      progress := Ok(Decoded(f.consumed, samples.value / 2, samples.value, f.rate, f.channels, f.frames));
    }

    method DiscardIncomplete() returns (discarded: nat)
      requires Valid()
      modifies this
      ensures Valid() && View() == Discarded(old(View())) && discarded == |old(View()).pending|
    {
      discarded := inputEnd - inputStart;
      inputStart := 0;
      inputEnd := 0;
      tagRemaining := 0;
    }
  }

  lemma Appended(before: seq<Byte>, after: seq<Byte>, start: nat, end: nat, bytes: seq<Byte>)
    requires start <= end && end + |bytes| <= |before| == |after|
    requires forall k | 0 <= k < |after| :: after[k] == if end <= k < end + |bytes| then bytes[k - end] else before[k]
    ensures after[start..end + |bytes|] == before[start..end] + bytes
  {
  }

  lemma PhaseDoesNotMatter(pcm: seq<Sample>, f: Frame, phase: nat, other: nat, volume: nat, out: seq<Sample>, before: seq<Sample>)
    requires f.rate == RATE && Rendered(pcm, f, phase, volume, f.frames, out, before)
    ensures Rendered(pcm, f, other, volume, f.frames, out, before)
  {
  }
}
