/** What each operation of the playback endpoint does, on values, one operation at a time. */
module AudioInputSpec {
  import opened Wire

  const FORMAT_MP3: U32 := 1
  const FORMAT_SIZE: U32 := 32
  const VOLUME_MAX: U32 := 100

  datatype InputError = Busy | Invalid | Again | Pipe | Io

  datatype PlayState = Closed | Idle | Configured | Buffering | Playing | Paused | Draining | Stopped | Failed

  datatype Format = Format(structSize: U32, format: U32, rateHint: U32, channelsHint: U32, flags: U32,
                           reserved: (U32, U32, U32))

  /** The endpoint's fields, with the ring as the queue of its unread bytes. */
  datatype Input = Input(
    queue: seq<Byte>, capacity: nat,
    isOpen: bool, locked: bool, state: PlayState,
    format: U32, rateHint: U32, channelsHint: U32,
    lastError: int, generation: U32,
    decodedRate: U32, decodedChannels: U32, bitpool: U32,
    accepted: U32, consumed: U32, pcmFrames: U32, rtpPackets: U32, underruns: U32,
    volume: U32)

  function New(capacity: nat): Input {
    Input([], capacity, false, false, Closed, 0, 0, 0, 0, 1, 0, 0, 0, 0, 0, 0, 0, 0, VOLUME_MAX)
  }

  type Answer = Result<nat, InputError>

  function Invalidated(i: Input, next: PlayState): Input {
    i.(generation := WrappingAdd(i.generation, 1), queue := [], lastError := 0,
       decodedRate := 0, decodedChannels := 0, bitpool := 0, state := next)
  }

  function Recounted(i: Input): Input {
    i.(accepted := 0, consumed := 0, pcmFrames := 0, rtpPackets := 0, underruns := 0)
  }

  function Open(i: Input): (Input, Answer) {
    if i.isOpen || i.locked then (i, Err(Busy))
    else (Invalidated(Recounted(i.(isOpen := true, format := 0, rateHint := 0, channelsHint := 0)), Idle), Ok(0))
  }

  function Close(i: Input): (Input, Answer) {
    if i.locked then (i, Err(Busy))
    else (Invalidated(i, Closed).(format := 0, rateHint := 0, channelsHint := 0, isOpen := false), Ok(0))
  }

  predicate Acceptable(f: Format) {
    && f.structSize == FORMAT_SIZE && f.format == FORMAT_MP3
    && f.channelsHint <= 2 && f.flags == 0 && f.reserved == (0, 0, 0)
  }

  function SetFormat(i: Input, f: Format): (Input, Answer) {
    if i.locked then (i, Err(Busy))
    else if !i.isOpen || !Acceptable(f) then (i, Err(Invalid))
    else if i.state != Idle && i.state != Configured && i.state != Stopped then (i, Err(Busy))
    else (Invalidated(Recounted(i), Configured).(format := f.format, rateHint := f.rateHint, channelsHint := f.channelsHint), Ok(0))
  }

  function Start(i: Input): (Input, Answer) {
    if i.locked then (i, Err(Busy))
    else if i.format != FORMAT_MP3 || (i.state != Configured && i.state != Stopped) then (i, Err(Invalid))
    else (i.(generation := WrappingAdd(i.generation, 1), lastError := 0,
             decodedRate := 0, decodedChannels := 0, bitpool := 0, state := Buffering), Ok(0))
  }

  function Pause(i: Input): (Input, Answer) {
    if i.locked then (i, Err(Busy))
    else if i.state != Buffering && i.state != Playing then (i, Err(Invalid))
    else (i.(state := Paused), Ok(0))
  }

  function Resume(i: Input): (Input, Answer) {
    if i.locked then (i, Err(Busy))
    else if i.state != Paused then (i, Err(Invalid))
    else (i.(state := Buffering), Ok(0))
  }

  function Stop(i: Input): (Input, Answer) {
    if i.locked then (i, Err(Busy))
    else if !i.isOpen then (i, Err(Pipe))
    else (Invalidated(i, Stopped), Ok(0))
  }

  function Flush(i: Input): (Input, Answer) {
    if i.locked then (i, Err(Busy))
    else if i.format == 0 then (i, Err(Pipe))
    else (Invalidated(i, Configured), Ok(0))
  }

  function Drain(i: Input): (Input, Answer) {
    if i.locked then (i, Err(Busy))
    else if i.state != Buffering && i.state != Playing && i.state != Paused then (i, Err(Invalid))
    else (i.(state := Draining), Ok(0))
  }

  function Write(i: Input, input: seq<Byte>): (Input, Answer) {
    if !i.isOpen || i.format == 0 then (i, Err(Pipe))
    else if i.state == Draining || i.state == Closed || i.state == Idle then (i, Err(Pipe))
    else if i.state == Failed then (i, Err(Io))
    else
      var count := Max(0, Min(|input|, i.capacity - |i.queue|));
      if count == 0 && input != [] then (i, Err(Again))
      else (i.(queue := i.queue + input[..count], accepted := WrappingAdd(i.accepted, count)), Ok(count))
  }

  function Consume(i: Input, want: nat): (Input, Answer) {
    var count := Min(want, |i.queue|);
    (i.(queue := i.queue[count..], consumed := WrappingAdd(i.consumed, count)), Ok(count))
  }

  function MarkPlaying(i: Input, generation: U32, rate: U32, channels: U32, bitpool: U32): Input {
    if i.generation != generation then i
    else i.(decodedRate := rate, decodedChannels := channels, bitpool := bitpool,
            state := if i.state == Draining then Draining else Playing)
  }

  function AddPcmFrames(i: Input, generation: U32, frames: U32): Input {
    if i.generation != generation then i else i.(pcmFrames := WrappingAdd(i.pcmFrames, frames))
  }

  function AddRtpPackets(i: Input, generation: U32, packets: U32): Input {
    if i.generation != generation then i else i.(rtpPackets := WrappingAdd(i.rtpPackets, packets))
  }

  function MarkUnderrun(i: Input, generation: U32): Input {
    if i.generation != generation then i
    else i.(underruns := WrappingAdd(i.underruns, 1), state := if i.state == Draining then Draining else Buffering)
  }

  function MarkDrained(i: Input, generation: U32, pipelineEmpty: bool): Input {
    if i.generation == generation && pipelineEmpty && i.state == Draining && i.queue == [] then i.(state := Stopped) else i
  }

  function Fail(i: Input, generation: U32, error: int): Input {
    if i.generation != generation then i else i.(lastError := error, state := Failed)
  }

  function SetVolume(i: Input, volume: U32): (Input, Answer) {
    if !i.isOpen || volume > VOLUME_MAX then (i, Err(Invalid)) else (i.(volume := volume), Ok(0))
  }

  function RestoreVolume(i: Input, volume: U32): (Input, Answer) {
    if volume > VOLUME_MAX then (i, Err(Invalid)) else (i.(volume := volume), Ok(0))
  }
}
