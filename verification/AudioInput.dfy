/** The playback endpoint as the source has it: its fields, and one method per operation. */
module AudioInput {
  import opened Wire
  import opened Ring
  import Slots
  import opened AudioInputSpec
  import Spec = AudioInputSpec

  class Endpoint {
    const ring: InputRing
    var isOpen: bool
    var controlLock: bool
    var state: PlayState
    var format: U32
    var sampleRateHint: U32
    var channelsHint: U32
    var lastError: int
    var generation: U32
    var decodedSampleRate: U32
    var decodedChannels: U32
    var negotiatedBitpool: U32
    var bytesAccepted: U32
    var bytesConsumed: U32
    var pcmFrames: U32
    var rtpPackets: U32
    var underruns: U32
    var volumePercent: U32

    ghost predicate Valid()
      reads this, ring
    {
      ring.Valid()
    }

    ghost function View(): Input
      requires Valid()
      reads this, ring, ring.data
    {
      Input(ring.Contents(), ring.data.Length, isOpen, controlLock, state, format, sampleRateHint, channelsHint,
            lastError, generation, decodedSampleRate, decodedChannels, negotiatedBitpool,
            bytesAccepted, bytesConsumed, pcmFrames, rtpPackets, underruns, volumePercent)
    }

    constructor (capacity: nat)
      requires Slots.IsCapacity(capacity)
      ensures Valid() && View() == New(capacity)
    {
      ring := new InputRing(capacity);
      isOpen, controlLock, state := false, false, Closed;
      format, sampleRateHint, channelsHint, lastError, generation := 0, 0, 0, 0, 1;
      decodedSampleRate, decodedChannels, negotiatedBitpool := 0, 0, 0;
      bytesAccepted, bytesConsumed, pcmFrames, rtpPackets, underruns := 0, 0, 0, 0, 0;
      volumePercent := VOLUME_MAX;
    }

    method TryControl() returns (held: bool)
      modifies this`controlLock
      ensures held == !old(controlLock) && controlLock
    {
      held := !controlLock;
      controlLock := true;
    }

    method ResetCounters()
      requires Valid()
      modifies this
      ensures Valid() && View() == Recounted(old(View()))
    {
      bytesAccepted := 0;
      bytesConsumed := 0;
      pcmFrames := 0;
      rtpPackets := 0;
      underruns := 0;
    }

    /** The stores that clear what the last session reported, ending in its next state. */
    method Restart(next: PlayState)
      requires Valid()
      modifies this
      ensures Valid()
      ensures View() == old(View()).(lastError := 0, decodedRate := 0, decodedChannels := 0, bitpool := 0, state := next)
    {
      lastError := 0;
      decodedSampleRate := 0;
      decodedChannels := 0;
      negotiatedBitpool := 0;
      state := next;
    }

    method StoreFormat(newFormat: U32, rate: U32, channels: U32)
      requires Valid()
      modifies this
      ensures Valid()
      ensures View() == old(View()).(format := newFormat, rateHint := rate, channelsHint := channels)
    {
      format := newFormat;
      sampleRateHint := rate;
      channelsHint := channels;
    }

    method InvalidateAndReset(next: PlayState)
      requires Valid()
      modifies this, ring
      ensures Valid() && View() == Invalidated(old(View()), next)
    {
      generation := WrappingAdd(generation, 1);
      ring.Reset();
      Restart(next);
    }

    method Open() returns (answer: Answer)
      requires Valid()
      modifies this, ring
      ensures Valid() && (View(), answer) == Spec.Open(old(View()))
    {
      if isOpen {
        return Err(Busy);
      }
      isOpen := true;
      var held := TryControl();
      if !held {
        isOpen := false;
        return Err(Busy);
      }
      StoreFormat(0, 0, 0);
      ResetCounters();
      InvalidateAndReset(Idle);
      controlLock := false;
      answer := Ok(0);
    }

    method Close() returns (answer: Answer)
      requires Valid()
      modifies this, ring
      ensures Valid() && (View(), answer) == Spec.Close(old(View()))
    {
      var held := TryControl();
      if !held {
        return Err(Busy);
      }
      InvalidateAndReset(Closed);
      StoreFormat(0, 0, 0);
      isOpen := false;
      controlLock := false;
      answer := Ok(0);
    }

    method SetFormat(wanted: Format) returns (answer: Answer)
      requires Valid()
      modifies this, ring
      ensures Valid() && (View(), answer) == Spec.SetFormat(old(View()), wanted)
    {
      var held := TryControl();
      if !held {
        return Err(Busy);
      }
      if || !isOpen || wanted.structSize != FORMAT_SIZE || wanted.format != FORMAT_MP3
         || (wanted.channelsHint != 0 && wanted.channelsHint != 1 && wanted.channelsHint != 2)
         || wanted.flags != 0 || wanted.reserved != (0, 0, 0) {
        controlLock := false;
        return Err(Invalid);
      }
      if state != Idle && state != Configured && state != Stopped {
        controlLock := false;
        return Err(Busy);
      }
      ResetCounters();
      InvalidateAndReset(Configured);
      StoreFormat(wanted.format, wanted.rateHint, wanted.channelsHint);
      controlLock := false;
      answer := Ok(0);
    }

    method Start() returns (answer: Answer)
      requires Valid()
      modifies this
      ensures Valid() && (View(), answer) == Spec.Start(old(View()))
    {
      var held := TryControl();
      if !held {
        return Err(Busy);
      }
      if format != FORMAT_MP3 || (state != Configured && state != Stopped) {
        controlLock := false;
        return Err(Invalid);
      }
      generation := WrappingAdd(generation, 1);
      Restart(Buffering);
      controlLock := false;
      answer := Ok(0);
    }

    method Pause() returns (answer: Answer)
      requires Valid()
      modifies this
      ensures Valid() && (View(), answer) == Spec.Pause(old(View()))
    {
      var held := TryControl();
      if !held {
        return Err(Busy);
      }
      if state != Buffering && state != Playing {
        controlLock := false;
        return Err(Invalid);
      }
      state := Paused;
      controlLock := false;
      answer := Ok(0);
    }

    method Resume() returns (answer: Answer)
      requires Valid()
      modifies this
      ensures Valid() && (View(), answer) == Spec.Resume(old(View()))
    {
      var held := TryControl();
      if !held {
        return Err(Busy);
      }
      if state != Paused {
        controlLock := false;
        return Err(Invalid);
      }
      state := Buffering;
      controlLock := false;
      answer := Ok(0);
    }

    method Stop() returns (answer: Answer)
      requires Valid()
      modifies this, ring
      ensures Valid() && (View(), answer) == Spec.Stop(old(View()))
    {
      var held := TryControl();
      if !held {
        return Err(Busy);
      }
      if !isOpen {
        controlLock := false;
        return Err(Pipe);
      }
      InvalidateAndReset(Stopped);
      controlLock := false;
      answer := Ok(0);
    }

    method Flush() returns (answer: Answer)
      requires Valid()
      modifies this, ring
      ensures Valid() && (View(), answer) == Spec.Flush(old(View()))
    {
      var held := TryControl();
      if !held {
        return Err(Busy);
      }
      if format == 0 {
        controlLock := false;
        return Err(Pipe);
      }
      InvalidateAndReset(Configured);
      controlLock := false;
      answer := Ok(0);
    }

    method Drain() returns (answer: Answer)
      requires Valid()
      modifies this
      ensures Valid() && (View(), answer) == Spec.Drain(old(View()))
    {
      var held := TryControl();
      if !held {
        return Err(Busy);
      }
      if state != Buffering && state != Playing && state != Paused {
        controlLock := false;
        return Err(Invalid);
      }
      state := Draining;
      controlLock := false;
      answer := Ok(0);
    }

    /** Undisturbed, the generation cannot have changed when it is read again after the copy. */
    method Write(input: seq<Byte>) returns (answer: Answer)
      requires Valid()
      modifies this, ring, ring.data
      ensures Valid() && (View(), answer) == Spec.Write(old(View()), input)
    {
      if !isOpen || format == 0 {
        return Err(Pipe);
      }
      var before := generation;
      if state == Draining || state == Closed || state == Idle {
        return Err(Pipe);
      }
      if state == Failed {
        return Err(Io);
      }
      var count := ring.Write(input);
      assert generation == before;
      if count == 0 && input != [] {
        assert View().queue == old(View()).queue;
        return Err(Again);
      }
      bytesAccepted := WrappingAdd(bytesAccepted, count);
      answer := Ok(count);
    }

    method Consume(output: array<Byte>) returns (count: nat)
      requires Valid() && output != ring.data
      modifies this, ring, output
      ensures Valid() && (View(), Ok(count)) == Spec.Consume(old(View()), output.Length)
      ensures output[..count] == old(View()).queue[..count]
    {
      count := ring.Read(output);
      bytesConsumed := WrappingAdd(bytesConsumed, count);
    }

    method MarkPlaying(captured: U32, sampleRate: U32, channels: U32, bitpool: U32) returns (current: bool)
      requires Valid()
      modifies this
      ensures Valid() && View() == Spec.MarkPlaying(old(View()), captured, sampleRate, channels, bitpool)
      ensures current == (old(generation) == captured)
    {
      if generation != captured {
        return false;
      }
      decodedSampleRate := sampleRate;
      decodedChannels := channels;
      negotiatedBitpool := bitpool;
      if state != Draining {
        state := Playing;
      }
      current := true;
    }

    method AddPcmFrames(captured: U32, frames: U32)
      requires Valid()
      modifies this
      ensures Valid() && View() == Spec.AddPcmFrames(old(View()), captured, frames)
    {
      if generation == captured {
        pcmFrames := WrappingAdd(pcmFrames, frames);
      }
    }

    method AddRtpPackets(captured: U32, packets: U32)
      requires Valid()
      modifies this
      ensures Valid() && View() == Spec.AddRtpPackets(old(View()), captured, packets)
    {
      if generation == captured {
        rtpPackets := WrappingAdd(rtpPackets, packets);
      }
    }

    method MarkUnderrun(captured: U32)
      requires Valid()
      modifies this
      ensures Valid() && View() == Spec.MarkUnderrun(old(View()), captured)
    {
      if generation == captured {
        underruns := WrappingAdd(underruns, 1);
        if state != Draining {
          state := Buffering;
        }
      }
    }

    method MarkDrained(captured: U32, pipelineEmpty: bool)
      requires Valid()
      modifies this
      ensures Valid() && View() == Spec.MarkDrained(old(View()), captured, pipelineEmpty)
    {
      var used := ring.Used();
      if generation == captured && pipelineEmpty && state == Draining && used == 0 {
        state := Stopped;
      }
    }

    method Fail(captured: U32, error: int)
      requires Valid()
      modifies this
      ensures Valid() && View() == Spec.Fail(old(View()), captured, error)
    {
      if generation == captured {
        lastError := error;
        state := Failed;
      }
    }

    method SetVolume(volume: U32) returns (answer: Answer)
      requires Valid()
      modifies this
      ensures Valid() && (View(), answer) == Spec.SetVolume(old(View()), volume)
    {
      if !isOpen || volume > VOLUME_MAX {
        return Err(Invalid);
      }
      volumePercent := volume;
      answer := Ok(0);
    }

    method RestoreVolume(volume: U32) returns (answer: Answer)
      requires Valid()
      modifies this
      ensures Valid() && (View(), answer) == Spec.RestoreVolume(old(View()), volume)
    {
      if volume > VOLUME_MAX {
        return Err(Invalid);
      }
      volumePercent := volume;
      answer := Ok(0);
    }
  }
}
