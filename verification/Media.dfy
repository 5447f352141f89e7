/** The media pacer and the RTP packetizer as the source has them. */
module Media {
  import opened Wire
  import opened MediaSpec
  import Slots
  import Rtp
  import Spec = MediaSpec

  class PacketClock {
    var anchorMs: U32
    var sentSamples: nat
    const leadMs: U32
    var running: bool
    var worstLagMs: U32

    ghost function View(): Clock
      reads this
    {
      Clock(anchorMs, sentSamples, leadMs, running, worstLagMs)
    }

    constructor (lead: U32)
      ensures View() == WithLead(lead)
    {
      anchorMs, sentSamples, leadMs, running, worstLagMs := 0, 0, lead, false, 0;
    }

    method Reset()
      modifies this
      ensures View() == Spec.Reset(old(View()))
    {
      running := false;
      sentSamples := 0;
    }

    method Poll(now: U32) returns (pace: Pace)
      modifies this
      ensures (View(), pace) == Spec.Poll(old(View()), now)
    {
      if !running {
        return Send;
      }
      var elapsedUs: nat := WrappingSub(now, anchorMs) * 1000;
      var sentUs: nat := sentSamples * 1_000_000 / SAMPLE_RATE;
      var targetUs: nat := elapsedUs + leadMs * 1000;
      if sentUs > targetUs {
        return Wait(Max(CeilDiv(sentUs - targetUs, 1000), 1) % TWO32);
      }
      var lagMs := Min(Max(0, elapsedUs - sentUs) / 1000, TWO32 - 1);
      worstLagMs := Max(worstLagMs, lagMs);
      if lagMs > CATCH_UP_LIMIT_MS {
        anchorMs := now;
        sentSamples := 0;
      }
      pace := Send;
    }

    method Sent(now: U32, samples: U32)
      modifies this
      ensures View() == Spec.Sent(old(View()), now, samples)
    {
      if !running {
        anchorMs := now;
        sentSamples := 0;
        running := true;
      }
      sentSamples := SaturatingAdd(sentSamples, samples);
    }

    method TakeWorstLagMs() returns (lag: U32)
      modifies this
      ensures lag == old(worstLagMs) && View() == old(View()).(worstLagMs := 0)
    {
      lag := worstLagMs;
      worstLagMs := 0;
    }
  }

  // ----- RTP packets of SBC frames

  const FRAME_SAMPLES: nat := 128
  const HEADERS: nat := 13
  const MAX_TX_SDU: nat := 672
  const MAX_FRAMES_PER_PACKET: nat := 5
  const MAX_FRAME_LENGTH: nat := 118
  /** The size of the buffer for a packet. */
  const MAX_PACKET: nat := HEADERS + MAX_FRAMES_PER_PACKET * MAX_FRAME_LENGTH
  const MIN_BITPOOL: nat := 27
  const MAX_BITPOOL: nat := 53
  /** In units of 100 microseconds. */
  const DEFAULT_SINK_DELAY: nat := 1500
  const MAX_STARTUP_PACKETS: nat := 16

  datatype MediaError = Mtu | Complete | Buffer | Codec

  function StreamFrameLength(bitpool: Byte, joint: bool): Option<nat> {
    if bitpool < MIN_BITPOOL || bitpool > MAX_BITPOOL then None
    else Some((if joint then 13 else 12) + 2 * bitpool as int)
  }

  /** Headers and frames. */
  function PacketSize(frames: nat, frameLength: nat): (size: nat)
    ensures size >= HEADERS
  {
    HEADERS + frames * frameLength
  }

  /** `frames` is the most frames, up to five, whose packet fits `limit`. */
  predicate IsMostFrames(frames: nat, frameLength: nat, limit: nat) {
    && 1 <= frames <= MAX_FRAMES_PER_PACKET
    && PacketSize(frames, frameLength) <= limit
    && forall more | frames < more <= MAX_FRAMES_PER_PACKET :: PacketSize(more, frameLength) > limit
  }

  /**
   * The fullest packet of a packetizer is longer than `MAX_PACKET` exactly in joint stereo at the
   * highest bitpool, when the peer admits five such frames.
   */
  lemma FullPacketFits(mtu: U16, bitpool: Byte, joint: bool, frames: nat)
    requires var n := StreamFrameLength(bitpool, joint); n.Some? && IsMostFrames(frames, n.value, Min(mtu, MAX_TX_SDU))
    ensures var length := PacketSize(frames, StreamFrameLength(bitpool, joint).value);
            length <= MAX_PACKET <==> !(joint && bitpool == MAX_BITPOOL && mtu >= HEADERS + 5 * 119)
  {
    var n := StreamFrameLength(bitpool, joint).value;
    if frames < MAX_FRAMES_PER_PACKET {
      assert PacketSize(MAX_FRAMES_PER_PACKET, n) > Min(mtu, MAX_TX_SDU);
      Slots.Monotone(frames, 4, n);
    }
  }

  /** The header of a packet of `frames` frames, the fields in network order. */
  function HeaderBytes(sequence: U16, timestamp: U32, frames: Byte, marker: bool): (h: seq<Byte>)
    ensures |h| == HEADERS
  {
    [0x80, 96 + (if marker then 128 else 0), sequence / 256, sequence % 256,
     timestamp / 0x100_0000, timestamp / 0x1_0000 % 256, timestamp / 256 % 256, timestamp % 256,
     0x42, 0x54, 0x50, 0x36, frames]
  }

  /** Frames of the packets sent so far. */
  function Frames(packets: seq<Byte>): nat {
    if packets == [] then 0 else Frames(packets[..|packets| - 1]) + packets[|packets| - 1]
  }

  /** Names the stream: the bytes `BTP6`. */
  const SOURCE: U32 := 0x4254_5036
  const PAYLOAD_TYPE: nat := 96

  /** What a receiver reads of the packet that follows `before`: its number, and the samples played before it. */
  function HeaderAfter(before: seq<Byte>, frames: Byte, marker: bool): Rtp.Header {
    Rtp.Header(2, false, false, 0, marker, PAYLOAD_TYPE,
               (1 + |before|) % 0x1_0000, Frames(before) * FRAME_SAMPLES % TWO32, SOURCE,
               false, false, false, frames)
  }

  lemma HeaderReads(sequence: U16, timestamp: U32, frames: Byte, marker: bool, rest: seq<Byte>)
    requires frames < 16
    ensures Rtp.Read(HeaderBytes(sequence, timestamp, frames, marker) + rest)
         == Some(Rtp.Header(2, false, false, 0, marker, PAYLOAD_TYPE, sequence, timestamp, SOURCE, false, false, false, frames))
  {
    var packet := HeaderBytes(sequence, timestamp, frames, marker) + rest;
    assert packet[2..4] == [sequence / 256, sequence % 256];
    Rtp.NumberOfTwo(sequence / 256, sequence % 256);
    assert packet[4..8] == [timestamp / 0x100_0000, timestamp / 0x1_0000 % 256, timestamp / 256 % 256, timestamp % 256];
    Rtp.WordRead(timestamp);
    assert packet[8..12] == [0x42, 0x54, 0x50, 0x36];
    Rtp.NumberOfFour(0x42, 0x54, 0x50, 0x36);
  }

  /** From one packet to the next: the sequence number by one, the timestamp by the samples, all else but marker and length kept. */
  lemma HeadersAdvance(written: seq<Byte>, k: nat, marker: bool, next: bool)
    requires k + 1 < |written|
    ensures var h, h' := HeaderAfter(written[..k], written[k], marker), HeaderAfter(written[..k + 1], written[k + 1], next);
            && h'.sequence == (h.sequence + 1) % 0x1_0000
            && h'.timestamp == (h.timestamp + written[k] * FRAME_SAMPLES) % TWO32
            && h' == h.(sequence := h'.sequence, timestamp := h'.timestamp, marker := next, frames := written[k + 1])
  {
    assert written[..k + 1][..k] == written[..k];
    CountersAdvance(k, Frames(written[..k]), written[k]);
  }

  /**
   * The header of packet `k` reads as version 2 of the one source, numbered from 1, its timestamp the samples of the
   * packets before it.
   */
  ghost predicate AllRead(written: seq<Byte>, headers: seq<(seq<Byte>, bool)>) {
    && |headers| == |written|
    && forall k | 0 <= k < |headers| :: Rtp.Read(headers[k].0) == Some(HeaderAfter(written[..k], written[k], headers[k].1))
  }

  /** Every counter is the wrapped count of what was written. */
  ghost predicate Counted(written: seq<Byte>, sequence: U16, timestamp: U32, packets: U32, frames: U32) {
    && sequence == (1 + |written|) % 0x1_0000
    && timestamp == Frames(written) * FRAME_SAMPLES % TWO32
    && packets == |written| % TWO32
    && frames == Frames(written) % TWO32
  }

  lemma HeaderReadsAs(written: seq<Byte>, sequence: U16, timestamp: U32, packets: U32, total: U32,
                      frames: Byte, marker: bool, rest: seq<Byte>)
    requires Counted(written, sequence, timestamp, packets, total) && frames < 16
    ensures Rtp.Read(HeaderBytes(sequence, timestamp, frames, marker) + rest) == Some(HeaderAfter(written, frames, marker))
  {
    hide HeaderBytes, Rtp.Read;
    HeaderReads(sequence, timestamp, frames, marker, rest);
  }

  lemma OneMoreCounted(written: seq<Byte>, sequence: U16, timestamp: U32, packets: U32, total: U32, frames: Byte)
    requires Counted(written, sequence, timestamp, packets, total)
    ensures Counted(written + [frames], (sequence + 1) % 0x1_0000, (timestamp + frames * FRAME_SAMPLES) % TWO32,
                    (packets + 1) % TWO32, (total + frames) % TWO32)
  {
    assert (written + [frames])[..|written|] == written;
    CountersAdvance(|written|, Frames(written), frames);
  }

  /** Pacing has rounded nothing away: the delays and the remainder are the playing time of the frames paced. */
  ghost predicate Paced(paced: seq<Byte>, delays: nat, idle: nat, remainder: U32) {
    remainder < SAMPLE_RATE && idle <= delays && (delays - idle) * SAMPLE_RATE + remainder == Frames(paced) * FRAME_SAMPLES * 1000
  }

  lemma OneMorePaced(paced: seq<Byte>, delays: nat, idle: nat, remainder: U32, frames: Byte)
    requires Paced(paced, delays, idle, remainder)
    ensures var timing: nat := remainder + frames * FRAME_SAMPLES * 1000;
            && (if frames == 0 then timing / SAMPLE_RATE == 0 else timing / SAMPLE_RATE >= 2)
            && 0 <= timing % SAMPLE_RATE < TWO32 && timing / SAMPLE_RATE < TWO32
            && (frames == 0 ==> Paced(paced + [frames], delays + 1, idle + 1, timing % SAMPLE_RATE))
            && (frames != 0 ==> Paced(paced + [frames], delays + timing / SAMPLE_RATE, idle, timing % SAMPLE_RATE))
  {
    assert (paced + [frames])[..|paced|] == paced;
    PaceAdvances(delays - idle, remainder, Frames(paced), frames);
  }

  lemma OneMoreRead(written: seq<Byte>, headers: seq<(seq<Byte>, bool)>, frames: Byte, header: seq<Byte>, marker: bool)
    requires AllRead(written, headers) && Rtp.Read(header) == Some(HeaderAfter(written, frames, marker))
    ensures AllRead(written + [frames], headers + [(header, marker)])
  {
    hide Rtp.Read, HeaderAfter;
    assert (written + [frames])[..|written|] == written;
    forall k | 0 <= k < |headers|
      ensures (written + [frames])[..k] == written[..k]
    {
    }
  }

  class StreamPacketizer {
    var sequence: U16
    var timestamp: U32
    var packetsSent: U32
    var framesSent: U32
    const framesPerPacket: Byte
    const frameLength: U16
    var paceRemainder: U32
    /** Frame counts of all headers written, and of all delays taken, oldest first. */
    ghost var written: seq<Byte>
    /** The headers themselves, with their markers. */
    ghost var headers: seq<(seq<Byte>, bool)>
    ghost var paced: seq<Byte>
    ghost var delays: nat
    /** Delays taken for no frames at all, a millisecond each. */
    ghost var idle: nat

    ghost predicate Valid()
      reads this
    {
      && AllRead(written, headers)
      && 1 <= framesPerPacket <= 5 && 66 <= frameLength <= 119
      && Counted(written, sequence, timestamp, packetsSent, framesSent)
      && Paced(paced, delays, idle, paceRemainder)
    }

    constructor Make(frames: Byte, length: U16)
      requires 1 <= frames <= 5 && 66 <= length <= 119
      ensures Valid() && written == [] && headers == [] && paced == [] && delays == 0 && idle == 0
      ensures framesPerPacket == frames && frameLength == length
    {
      sequence, timestamp, packetsSent, framesSent, paceRemainder := 1, 0, 0, 0, 0;
      framesPerPacket, frameLength := frames, length;
      written, headers, paced, delays, idle := [], [], [], 0, 0;
    }

    static method New(mtu: U16, bitpool: Byte, joint: bool) returns (made: Result<StreamPacketizer, MediaError>)
      ensures var length, limit := StreamFrameLength(bitpool, joint), Min(mtu, MAX_TX_SDU);
              match length
              case None => made == Err(Codec)
              case Some(n) =>
                if HEADERS + n > limit then made == Err(Mtu)
                else
                  && made.Ok? && fresh(made.value) && made.value.Valid() && made.value.frameLength == n
                  && made.value.written == [] && made.value.headers == [] && IsMostFrames(made.value.framesPerPacket, n, limit)
    {
      var length := StreamFrameLength(bitpool, joint);
      if length == None {
        return Err(Codec);
      }
      var limit := Min(mtu, MAX_TX_SDU);
      var frames := MAX_FRAMES_PER_PACKET;
      while frames > 1 && PacketSize(frames, length.value) > limit
        invariant 1 <= frames <= MAX_FRAMES_PER_PACKET
        invariant forall more | frames < more <= MAX_FRAMES_PER_PACKET :: PacketSize(more, length.value) > limit
      {
        frames := frames - 1;
      }
      if HEADERS + length.value > limit {
        return Err(Mtu);
      }
      var packetizer := new StreamPacketizer.Make(frames, length.value);
      made := Ok(packetizer);
    }

    method PacketLength(frames: Byte) returns (length: Result<nat, MediaError>)
      requires Valid()
      ensures length == if frames == 0 || frames > framesPerPacket then Err(Buffer) else Ok(PacketSize(frames, frameLength))
      ensures length.Ok? ==> (length.value <= MAX_PACKET <==> !(frames == MAX_FRAMES_PER_PACKET && frameLength == MAX_FRAME_LENGTH + 1))
    {
      if frames == 0 || frames > framesPerPacket {
        return Err(Buffer);
      }
      length := Ok(PacketSize(frames, frameLength));
    }

    method WriteHeader(out: array<Byte>, frames: Byte, marker: bool) returns (offset: Result<nat, MediaError>)
      requires Valid()
      modifies this, out
      ensures Valid() && paced == old(paced) && delays == old(delays) && idle == old(idle)
      ensures if frames == 0 || frames > framesPerPacket || out.Length < PacketSize(frames, frameLength) then
                offset == Err(Buffer) && written == old(written) && headers == old(headers) && out[..] == old(out[..])
              else
                && offset == Ok(HEADERS) && written == old(written) + [frames]
                && headers == old(headers) + [(out[..HEADERS], marker)]
                && Rtp.Read(out[..]) == Some(HeaderAfter(old(written), frames, marker))
                && out[..] == HeaderBytes(old(sequence), old(timestamp), frames, marker) + old(out[HEADERS..])
    {
      hide AllRead, Paced, Counted, Rtp.Read, HeaderAfter, HeaderBytes, PacketSize;
      var length := PacketLength(frames);
      if length.Err? || out.Length < length.value {
        return Err(Buffer);
      }
      ghost var header := HeaderBytes(sequence, timestamp, frames, marker);
      Store(out, 0, HeaderBytes(sequence, timestamp, frames, marker));
      HeaderReadsAs(written, sequence, timestamp, packetsSent, framesSent, frames, marker, []);
      HeaderReadsAs(written, sequence, timestamp, packetsSent, framesSent, frames, marker, out[HEADERS..]);
      assert header + [] == header && out[..HEADERS] == header && out[..] == header + out[HEADERS..];
      Count(frames, header, marker);
      offset := Ok(HEADERS);
    }

    method Count(frames: Byte, ghost header: seq<Byte>, marker: bool)
      requires Valid() && Rtp.Read(header) == Some(HeaderAfter(written, frames, marker))
      modifies this
      ensures Valid() && paced == old(paced) && delays == old(delays) && idle == old(idle) && written == old(written) + [frames]
      ensures headers == old(headers) + [(header, marker)]
    {
      hide AllRead, Counted, Paced, Rtp.Read, HeaderAfter;
      OneMoreCounted(written, sequence, timestamp, packetsSent, framesSent, frames);
      packetsSent := (packetsSent + 1) % TWO32;
      framesSent := (framesSent + frames) % TWO32;
      sequence := (sequence + 1) % 0x1_0000;
      timestamp := (timestamp + frames * FRAME_SAMPLES) % TWO32;
      OneMoreRead(written, headers, frames, header, marker);
      written := written + [frames];
      headers := headers + [(header, marker)];
    }

    /** The delay after a packet; over any number of packets the delays lose less than a millisecond. */
    method NextDelayMs(frames: Byte) returns (delay: U32)
      requires Valid()
      modifies this
      ensures Valid() && written == old(written) && headers == old(headers) && paced == old(paced) + [frames] && delays == old(delays) + delay
      ensures if frames == 0 then delay == 1 && idle == old(idle) + 1 else delay >= 2 && idle == old(idle)
    {
      hide AllRead, Counted, Paced;
      var timing: nat := paceRemainder + frames * FRAME_SAMPLES * 1000;
      OneMorePaced(paced, delays, idle, paceRemainder, frames);
      delay := Max(timing / SAMPLE_RATE, 1);
      paceRemainder := timing % SAMPLE_RATE;
      paced := paced + [frames];
      delays := delays + delay;
      if frames == 0 {
        idle := idle + 1;
      }
    }

    /** The fewest packets, at most sixteen, that play as long as the sink says it delays, rounded up per packet. */
    method StartupPackets(reportedDelay: U16) returns (packets: nat)
      requires Valid()
      ensures var delay := if reportedDelay == 0 then DEFAULT_SINK_DELAY else reportedDelay as int;
              var each := CeilDiv(framesPerPacket * FRAME_SAMPLES * 10_000, SAMPLE_RATE);
              && 1 <= packets <= MAX_STARTUP_PACKETS
              && (packets < MAX_STARTUP_PACKETS ==> packets * each >= delay)
              && (packets > 1 ==> (packets - 1) * each < delay)
    {
      var delay: nat := if reportedDelay == 0 then DEFAULT_SINK_DELAY else reportedDelay as int;
      var each := CeilDiv(framesPerPacket * FRAME_SAMPLES * 10_000, SAMPLE_RATE);
      var needed := CeilDiv(delay, each);
      packets := Max(1, Min(needed, MAX_STARTUP_PACKETS));
      if packets < needed {
        Slots.Monotone(packets - 1, needed - 1, each);
      }
    }
  }

  lemma WrapAdd16(total: nat, more: nat)
    ensures (total % 0x1_0000 + more) % 0x1_0000 == (total + more) % 0x1_0000
  {
  }

  lemma PaceAdvances(spent: nat, remainder: nat, owed: nat, frames: Byte)
    requires spent * SAMPLE_RATE + remainder == owed * FRAME_SAMPLES * 1000 && remainder < SAMPLE_RATE
    ensures var timing := remainder + frames * FRAME_SAMPLES * 1000;
            && (spent + timing / SAMPLE_RATE) * SAMPLE_RATE + timing % SAMPLE_RATE == (owed + frames) * FRAME_SAMPLES * 1000
            && (if frames == 0 then timing / SAMPLE_RATE == 0 else timing / SAMPLE_RATE >= 2)
  {
  }

  lemma CountersAdvance(packets: nat, total: nat, frames: Byte)
    ensures ((1 + packets) % 0x1_0000 + 1) % 0x1_0000 == (1 + (packets + 1)) % 0x1_0000
    ensures (packets % TWO32 + 1) % TWO32 == (packets + 1) % TWO32
    ensures (total % TWO32 + frames) % TWO32 == (total + frames) % TWO32
    ensures (total * FRAME_SAMPLES % TWO32 + frames * FRAME_SAMPLES) % TWO32 == (total + frames) * FRAME_SAMPLES % TWO32
  {
    WrapAdd16(1 + packets, 1);
    WrapAdd(packets, 1);
    WrapAdd(total, frames);
    WrapAdd(total * FRAME_SAMPLES, frames * FRAME_SAMPLES);
  }
}
