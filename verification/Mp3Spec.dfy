/**
 * The incremental MP3 reader on values: a FIFO of compressed bytes kept in a window that is
 * compacted lazily, with ID3v2 tags skipped. The decoder is an arbitrary answer to each call.
 */
module Mp3Spec {
  import opened Wire
  import opened Resampler
  import Id3
  import Slots

  const WINDOW: nat := 0x4000
  const MIN_DECODE_INPUT: nat := 0x800
  const COMPACT_THRESHOLD: nat := 0x2000
  const ID3_HEADER: nat := 10

  /** `pending` are the bytes from index `start` of the window on. */
  datatype Stream = Stream(start: nat, pending: seq<Byte>, tagRemaining: nat, rate: nat, phase: nat)

  const New: Stream := Stream(0, [], 0, 0, 0)

  predicate Fits(s: Stream) {
    s.start + |s.pending| <= WINDOW
  }

  /** What the decoder reported of its call: bytes used and, if it found a frame, its shape. */
  datatype Decoding = Bytes(consumed: nat) | Found(frame: Frame)

  datatype Progress =
    | NeedMore
    | Skipped(consumed: nat)
    | Decoded(used: nat, outputFrames: nat, samples: nat, rate: nat, channels: nat, sourceFrames: nat)

  // ----- the window

  function Free(s: Stream): int {
    if s.start >= COMPACT_THRESHOLD then WINDOW - |s.pending| else WINDOW - (s.start + |s.pending|)
  }

  function Compacted(s: Stream): Stream {
    s.(start := 0)
  }

  /** Bytes a push accepts, and whether it has to compact the window first. */
  function Accepts(s: Stream, input: seq<Byte>): nat {
    Max(0, Min(|input|, Free(s)))
  }

  predicate PushCompacts(s: Stream, input: seq<Byte>) {
    Accepts(s, input) > WINDOW - (s.start + |s.pending|)
  }

  function Pushed(s: Stream, input: seq<Byte>): Stream {
    var room := if PushCompacts(s, input) then Compacted(s) else s;
    room.(pending := s.pending + input[..Accepts(s, input)])
  }

  function Consumed(s: Stream, count: nat): Stream
    requires count <= |s.pending|
  {
    s.(start := if count == |s.pending| then 0 else s.start + count, pending := s.pending[count..])
  }

  // ----- tags

  /** Length of the ID3v2 tag that starts `bytes`, if one does. */
  function Id3Length(bytes: seq<Byte>): (length: Option<nat>)
    ensures length.Some? ==> length.value >= ID3_HEADER
  {
    if |bytes| < ID3_HEADER || bytes[..3] != [0x49, 0x44, 0x33] || bytes[3] == 0xff || bytes[4] == 0xff
       || bytes[6] >= 128 || bytes[7] >= 128 || bytes[8] >= 128 || bytes[9] >= 128 then None
    else
      var size: nat := ((bytes[6] as int * 128 + bytes[7] as int) * 128 + bytes[8] as int) * 128 + bytes[9] as int;
      Some(ID3_HEADER + size + if bytes[5] / 16 % 2 == 1 then ID3_HEADER else 0)
  }

  /** The tag is recognised from its header alone, however much of it has arrived. */
  lemma Id3FromHeader(bytes: seq<Byte>, more: seq<Byte>)
    requires |bytes| >= ID3_HEADER
    ensures Id3Length(bytes + more) == Id3Length(bytes)
  {
    assert (bytes + more)[..3] == bytes[..3];
  }

  /** A tag of this shape starts `bytes`, as a tagger writes it; its body need not have arrived. */
  predicate Begins(bytes: seq<Byte>, t: Id3.Shape) {
    Id3.Writable(t) && Id3.Header(t) <= bytes
  }

  lemma SizeDigits(bytes: seq<Byte>)
    requires |bytes| == ID3_HEADER
    ensures Id3.Value(bytes[6..]) == ((bytes[6] as int * 128 + bytes[7] as int) * 128 + bytes[8] as int) * 128 + bytes[9] as int
  {
    var d := bytes[6..];
    assert d[..3] == bytes[6..9] && d[..3][..2] == bytes[6..8] && d[..3][..2][..1] == bytes[6..7] && bytes[6..7][..0] == [];
    assert Id3.Value(bytes[6..7]) == 128 * Id3.Value([]) + bytes[6];
    assert Id3.Value(bytes[6..8]) == 128 * Id3.Value(bytes[6..7]) + bytes[7];
    assert Id3.Value(bytes[6..9]) == 128 * Id3.Value(bytes[6..8]) + bytes[8];
  }

  /** A tag that a tagger has written is recognised, for exactly its own length. */
  lemma WrittenTagIsRecognised(bytes: seq<Byte>, t: Id3.Shape)
    requires Begins(bytes, t)
    ensures Id3Length(bytes) == Some(Id3.TagSize(t))
  {
    var header := Id3.Header(t);
    assert bytes[..ID3_HEADER] == header;
    assert bytes[..3] == header[..3] == [0x49, 0x44, 0x33];
    assert header[6..] == Id3.Synchsafe(t.size, 4);
    SizeDigits(header);
    Id3.ValueOfSynchsafe(t.size, 4);
    forall k | 6 <= k < 10
      ensures bytes[k] < 128
    {
      assert bytes[k] == header[6..][k - 6];
    }
  }

  /** The shape of what is recognised. */
  function ShapeOf(bytes: seq<Byte>): Id3.Shape
    requires |bytes| >= ID3_HEADER
  {
    Id3.Shape(bytes[3], bytes[4], bytes[5], Id3.Value(bytes[6..10]))
  }

  /** Nothing else is: what is recognised as a tag is the header of one. */
  lemma RecognisedTagIsWritten(bytes: seq<Byte>)
    requires Id3Length(bytes).Some?
    ensures Begins(bytes, ShapeOf(bytes)) && Id3Length(bytes) == Some(Id3.TagSize(ShapeOf(bytes)))
  {
    var t, header := ShapeOf(bytes), bytes[..ID3_HEADER];
    assert header[6..] == bytes[6..10];
    Id3.SynchsafeOfValue(bytes[6..10]);
    assert header == header[..3] + header[3..6] + header[6..];
    assert header[..3] == bytes[..3];
    assert Id3.Header(t) == header;
    WrittenTagIsRecognised(bytes, t);
  }

  /** So a whole tag, with whatever behind it, has the length of all its bytes. */
  lemma TagIsItsOwnLength(t: Id3.Shape, body: seq<Byte>, more: seq<Byte>)
    requires Id3.Writable(t) && |body| == t.size
    ensures Id3Length(Id3.Tag(t, body) + more) == Some(|Id3.Tag(t, body)|)
  {
    hide Id3.Header, Id3.Footer;
    Id3.TagHasItsSize(t, body);
    WrittenTagIsRecognised(Id3.Tag(t, body) + more, t);
  }

  /** Bytes are taken for a tag exactly when they begin with the header of one. */
  lemma TagsExactly(bytes: seq<Byte>, length: nat)
    ensures Id3Length(bytes) == Some(length) <==> exists t :: Begins(bytes, t) && length == Id3.TagSize(t)
  {
    if Id3Length(bytes).Some? {
      RecognisedTagIsWritten(bytes);
    }
    forall t | Begins(bytes, t)
      ensures Id3Length(bytes) == Some(Id3.TagSize(t))
    {
      WrittenTagIsRecognised(bytes, t);
    }
  }

  // ----- one decode step

  /** The frame the wrapper passes on, or why it does not. */
  function Checked(d: Decoding, pcmLength: nat): Result<Frame, Mp3Error> {
    match d
    case Bytes(consumed) => if consumed == 0 then Err(NeedInput) else Ok(Frame(consumed, 0, 0, 0))
    case Found(f) =>
      if f.rate != RATE && f.rate != RATE_24K && f.rate != RATE_48K then Err(UnsupportedRate)
      else if f.channels != 1 && f.channels != 2 then Err(UnsupportedChannels)
      else if f.frames * f.channels > pcmLength then Err(OutputError)
      else Ok(f)
  }

  /** Output frames of a decoded frame and the phase after it, or why it cannot be written. */
  function Converted(f: Frame, volume: nat, room: nat, phase: nat): Result<(nat, nat), Mp3Error>
    requires f.rate == RATE || f.rate == RATE_24K || f.rate == RATE_48K
  {
    if f.rate == RATE then
      if room < 2 * f.frames || volume > 100 then Err(OutputError) else Ok((f.frames, 0))
    else if volume > 100 then Err(UnsupportedRate)
    else if f.frames * RATE >= TWO32 || phase >= f.frames * RATE || room < 2 * OutputFrames(f, phase) then Err(OutputError)
    else Ok((OutputFrames(f, phase), Max(0, NextPhase(f, phase))))
  }

  /** The decoder is consulted, about all pending bytes. */
  predicate Consults(s: Stream, endOfInput: bool) {
    && !(s.tagRemaining != 0 && s.pending != [])
    && !(|s.pending| < MIN_DECODE_INPUT && !endOfInput)
    && Id3Length(s.pending) == None
  }

  function Skip(s: Stream, tag: nat): (Stream, Result<Progress, Mp3Error>) {
    var consumed := Min(tag, |s.pending|);
    (Consumed(s, consumed).(tagRemaining := tag - consumed), Ok(Skipped(consumed)))
  }

  function DecodeStep(s: Stream, volume: nat, room: nat, endOfInput: bool, d: Decoding, pcmLength: nat)
    : (Stream, Result<Progress, Mp3Error>)
  {
    if s.tagRemaining != 0 && s.pending != [] then Skip(s, s.tagRemaining)
    else if |s.pending| < MIN_DECODE_INPUT && !endOfInput then (Compacted(s), Ok(NeedMore))
    else
      match Id3Length(s.pending)
      case Some(tag) => Skip(s, tag)
      case None =>
        match Checked(d, pcmLength)
        case Err(NeedInput) => (Compacted(s), Ok(NeedMore))
        case Err(error) => (s, Err(error))
        case Ok(f) =>
          if f.consumed == 0 || f.consumed > |s.pending| then (s, Err(OutputError))
          else if f.frames == 0 then (Consumed(s, f.consumed), Ok(Skipped(f.consumed)))
          else Convert(s, f, volume, room)
  }

  /** A rate change restarts the phase. */
  function Entered(s: Stream, rate: nat): Stream {
    if s.rate == rate then s else s.(rate := rate, phase := 0)
  }

  function Convert(s: Stream, f: Frame, volume: nat, room: nat): (Stream, Result<Progress, Mp3Error>)
    requires f.consumed <= |s.pending|
  {
    if f.rate != RATE && f.rate != RATE_24K && f.rate != RATE_48K then (s, Err(UnsupportedRate))
    else
      var entered := Entered(s, f.rate);
      match Converted(f, volume, room, entered.phase)
      case Err(error) => (if f.rate == RATE then entered.(phase := 0) else entered, Err(error))
      case Ok((frames, phase)) =>
        (Consumed(entered.(phase := phase), f.consumed),
         Ok(Decoded(f.consumed, frames, 2 * frames, f.rate, f.channels, f.frames)))
  }

  function Discarded(s: Stream): Stream {
    s.(start := 0, pending := [], tagRemaining := 0)
  }

  // ----- whole runs

  datatype Action =
    | Push(input: seq<Byte>)
    | Decode(volume: nat, room: nat, endOfInput: bool, decoding: Decoding, pcmLength: nat)

  /**
   * The reader with its history: every byte accepted, how many were reported consumed, how many a
   * push moved to make room, up to which position the latest tag reaches, and the source and output
   * frames decoded since the rate last changed.
   */
  datatype Reader = Reader(stream: Stream, accepted: seq<Byte>, consumed: nat, moved: nat, tagEnd: nat,
                           source: nat, output: nat)

  function Amount(result: Result<Progress, Mp3Error>): nat {
    match result
    case Ok(Skipped(consumed)) => consumed
    case Ok(Decoded(used, _, _, _, _, _)) => used
    case _ => 0
  }

  /** Source and output frames of a decoded frame. */
  function Heard(result: Result<Progress, Mp3Error>): (nat, nat) {
    match result
    case Ok(Decoded(_, outputFrames, _, _, _, sourceFrames)) => (sourceFrames, outputFrames)
    case _ => (0, 0)
  }

  /** The step gets as far as looking for a tag. */
  predicate Looks(s: Stream, endOfInput: bool) {
    && !(s.tagRemaining != 0 && s.pending != [])
    && !(|s.pending| < MIN_DECODE_INPUT && !endOfInput)
  }

  /** A tag is recognised in this step. */
  predicate Recognises(s: Stream, endOfInput: bool) {
    Looks(s, endOfInput) && Id3Length(s.pending).Some?
  }

  function Step(r: Reader, action: Action): Reader {
    match action
    case Push(input) =>
      r.(stream := Pushed(r.stream, input), accepted := r.accepted + input[..Accepts(r.stream, input)],
         moved := r.moved + if PushCompacts(r.stream, input) then |r.stream.pending| else 0)
    case Decode(volume, room, endOfInput, d, pcmLength) =>
      var (s, result) := DecodeStep(r.stream, volume, room, endOfInput, d, pcmLength);
      var kept := s.rate == r.stream.rate;
      var (source, output) := Heard(result);
      r.(stream := s, consumed := r.consumed + Amount(result),
         source := (if kept then r.source else 0) + source, output := (if kept then r.output else 0) + output,
         tagEnd := if Recognises(r.stream, endOfInput) then r.consumed + Id3Length(r.stream.pending).value else r.tagEnd)
  }

  function After(r: Reader, actions: seq<Action>): Reader
    decreases actions
  {
    if actions == [] then r else After(Step(r, actions[0]), actions[1..])
  }

  const Begin: Reader := Reader(New, [], 0, 0, 0, 0, 0)

  predicate Good(r: Reader) {
    && Fits(r.stream)
    && r.consumed <= |r.accepted| && r.stream.pending == r.accepted[r.consumed..]
    && r.moved + r.stream.start <= r.consumed
    && (if r.stream.tagRemaining != 0 then r.consumed + r.stream.tagRemaining == r.tagEnd else r.tagEnd <= r.consumed)
  }

  lemma PushKeeps(r: Reader, input: seq<Byte>)
    requires Good(r)
    ensures Good(Step(r, Push(input)))
  {
    var n := Accepts(r.stream, input);
    assert (r.accepted + input[..n])[r.consumed..] == r.accepted[r.consumed..] + input[..n];
  }

  lemma ConsumedKeeps(r: Reader, n: nat)
    requires Good(r) && n <= |r.stream.pending|
    ensures r.consumed + n <= |r.accepted|
    ensures var s := Consumed(r.stream, n);
            && Fits(s) && s.pending == r.accepted[r.consumed + n..] && r.moved + s.start <= r.consumed + n
            && s.tagRemaining == r.stream.tagRemaining
  {
    assert r.accepted[r.consumed..][n..] == r.accepted[r.consumed + n..];
  }

  /** A decode step consumes what it reports, and a tag is only counted down by what is skipped of it. */
  lemma StepIsConsumption(s: Stream, volume: nat, room: nat, endOfInput: bool, d: Decoding, pcmLength: nat)
    ensures var (t, result) := DecodeStep(s, volume, room, endOfInput, d, pcmLength);
            var n := Amount(result);
            && n <= |s.pending|
            && t.pending == Consumed(s, n).pending
            && (t.start == Consumed(s, n).start || t.start == s.start || t.start == 0)
            && (n > 0 ==> t.start == Consumed(s, n).start)
            && t.tagRemaining == (if s.tagRemaining != 0 && s.pending != [] then s.tagRemaining - n
                                  else if Recognises(s, endOfInput) then Id3Length(s.pending).value - n
                                  else s.tagRemaining)
            && (s.tagRemaining != 0 && s.pending == [] ==> n == 0)
  {
    hide Id3Length, Converted, Checked;
    assert s.pending[0..] == s.pending;
    assert Id3Length([]) == None by {
      Id3OfNothing();
    }
  }

  lemma Id3OfNothing()
    ensures Id3Length([]) == None
  {
  }

  lemma DecodeKeeps(r: Reader, action: Action)
    requires Good(r) && action.Decode?
    ensures Good(Step(r, action))
  {
    hide Id3Length, Converted, Checked, DecodeStep, Consumed, Heard;
    StepIsConsumption(r.stream, action.volume, action.room, action.endOfInput, action.decoding, action.pcmLength);
    var n := Amount(DecodeStep(r.stream, action.volume, action.room, action.endOfInput, action.decoding, action.pcmLength).1);
    ConsumedKeeps(r, n);
    ConsumedKeeps(r, 0);
    Id3OfNothing();
  }

  lemma {:induction false} RunKeeps(r: Reader, actions: seq<Action>)
    requires Good(r)
    ensures Good(After(r, actions))
    decreases actions
  {
    if actions != [] {
      if actions[0].Push? {
        PushKeeps(r, actions[0].input);
      } else {
        DecodeKeeps(r, actions[0]);
      }
      RunKeeps(Step(r, actions[0]), actions[1..]);
    }
  }

  /**
   * Across any pushes and decode steps, whatever the decoder answers: the pending bytes are the
   * bytes accepted minus those reported consumed, in order, and all the bytes ever moved by pushes
   * making room are no more than the bytes consumed.
   */
  lemma WindowIsFifo(actions: seq<Action>)
    ensures var r := After(Begin, actions);
            && r.consumed <= |r.accepted| && r.stream.pending == r.accepted[r.consumed..]
            && r.moved <= r.consumed
            && Fits(r.stream) && Free(r.stream) >= 0
  {
    RunKeeps(Begin, actions);
  }

  /** A window that refuses bytes holds more than half its size, so a short one always accepts some. */
  lemma FullWindowIsLong(actions: seq<Action>, input: seq<Byte>)
    ensures var s := After(Begin, actions).stream;
            && (Free(s) == 0 ==> |s.pending| > COMPACT_THRESHOLD)
            && (|s.pending| < MIN_DECODE_INPUT && input != [] ==> Accepts(s, input) > 0)
  {
    RunKeeps(Begin, actions);
  }

  /** The decoder is asked about bytes. */
  predicate DecoderSeesBytes(r: Reader, action: Action) {
    action.Decode? && r.stream.pending != [] && Consults(r.stream, action.endOfInput)
  }

  /** The bytes up to stream position `end` are consumed before the decoder sees any, and consuming stops right there. */
  predicate SkipsTo(r: Reader, actions: seq<Action>, end: nat)
    decreases actions
  {
    r.consumed == end
    || (r.consumed < end
        && (actions == []
            || (!DecoderSeesBytes(r, actions[0]) && SkipsTo(Step(r, actions[0]), actions[1..], end))))
  }

  predicate InTag(r: Reader, end: nat) {
    Good(r) && r.consumed <= end && (r.consumed < end ==> r.stream.tagRemaining == end - r.consumed)
  }

  lemma StepInTag(r: Reader, action: Action, end: nat)
    requires InTag(r, end) && r.consumed < end
    ensures InTag(Step(r, action), end) && !DecoderSeesBytes(r, action)
  {
    hide Id3Length, Converted, Checked, DecodeStep, Consumed, Heard, Good;
    if action.Push? {
      PushKeeps(r, action.input);
    } else {
      DecodeKeeps(r, action);
      StepIsConsumption(r.stream, action.volume, action.room, action.endOfInput, action.decoding, action.pcmLength);
      Id3OfNothing();
    }
  }

  lemma {:induction false} RestOfTag(r: Reader, actions: seq<Action>, end: nat)
    requires InTag(r, end)
    ensures SkipsTo(r, actions, end)
    decreases actions
  {
    hide Step, InTag, DecoderSeesBytes;
    assert r.consumed <= end by { Reached(r, end); }
    if r.consumed < end && actions != [] {
      StepInTag(r, actions[0], end);
      RestOfTag(Step(r, actions[0]), actions[1..], end);
    }
  }

  lemma Reached(r: Reader, end: nat)
    requires InTag(r, end)
    ensures r.consumed <= end
  {
  }

  lemma TagEntered(r: Reader, step: Action, t: Id3.Shape)
    requires Good(r) && step.Decode? && Looks(r.stream, step.endOfInput) && Begins(r.stream.pending, t)
    ensures var s, end := Step(r, step), r.consumed + Id3.TagSize(t);
            r.consumed < s.consumed <= end && s.tagEnd == end && InTag(s, end)
  {
    hide Id3Length, Converted, Checked, Heard, Good, Begins, Id3.TagSize;
    WrittenTagIsRecognised(r.stream.pending, t);
    assert Id3.TagSize(t) >= ID3_HEADER && |r.stream.pending| >= ID3_HEADER by { TagIsLong(r.stream.pending, t); }
    DecodeKeeps(r, step);
  }

  lemma TagIsLong(bytes: seq<Byte>, t: Id3.Shape)
    requires Begins(bytes, t)
    ensures Id3.TagSize(t) >= ID3_HEADER && |bytes| >= ID3_HEADER
  {
  }

  /**
   * When a step looks for a tag at stream position q and a tag as a tagger writes it begins there, of length T with its
   * footer if it has one: every run from there on consumes exactly up to q + T before the decoder sees another byte. If
   * none begins there, the decoder is asked. While bytes of a tag remain, those consumed and those remaining add up to
   * q + T.
   */
  lemma TagsAreSkippedExactly(actions: seq<Action>, step: Action, t: Id3.Shape, later: seq<Action>)
    requires step.Decode?
    ensures var r := After(Begin, actions);
            && (Looks(r.stream, step.endOfInput) && Begins(r.stream.pending, t) ==>
                  && r.consumed < Step(r, step).consumed
                  && Step(r, step).tagEnd == r.consumed + Id3.TagSize(t)
                  && SkipsTo(Step(r, step), later, r.consumed + Id3.TagSize(t)))
            && (Looks(r.stream, step.endOfInput) && (forall other :: !Begins(r.stream.pending, other)) ==>
                  Consults(r.stream, step.endOfInput) && Step(r, step).tagEnd == r.tagEnd)
            && (r.stream.tagRemaining != 0 ==> r.consumed + r.stream.tagRemaining == r.tagEnd)
            && (r.stream.tagRemaining == 0 ==> r.tagEnd <= r.consumed)
            && (Consults(r.stream, step.endOfInput) && r.stream.pending != [] ==> r.tagEnd <= r.consumed)
            && (r.consumed < r.tagEnd ==> Step(r, step).consumed <= r.tagEnd == Step(r, step).tagEnd)
  {
    hide SkipsTo, InTag, Begins, Id3.TagSize;
    RunKeeps(Begin, actions);
    var r := After(Begin, actions);
    TagsAreCountedDown(r, step);
    if Looks(r.stream, step.endOfInput) {
      if Begins(r.stream.pending, t) {
        TagEntered(r, step, t);
        RestOfTag(Step(r, step), later, r.consumed + Id3.TagSize(t));
      }
      if Id3Length(r.stream.pending).Some? {
        RecognisedTagIsWritten(r.stream.pending);
      }
    }
  }

  lemma TagsAreCountedDown(r: Reader, step: Action)
    requires Good(r) && step.Decode?
    ensures r.stream.tagRemaining != 0 ==> r.consumed + r.stream.tagRemaining == r.tagEnd
    ensures r.stream.tagRemaining == 0 ==> r.tagEnd <= r.consumed
    ensures Consults(r.stream, step.endOfInput) && r.stream.pending != [] ==> r.tagEnd <= r.consumed
    ensures r.consumed < r.tagEnd ==> Step(r, step).consumed <= r.tagEnd == Step(r, step).tagEnd
  {
    hide Converted, Checked;
    Id3OfNothing();
  }

  /** The length is settled by the first ten bytes of the tag, however the stream was cut into pushes. */
  lemma TagLengthIgnoresChunking(actions: seq<Action>, later: seq<Byte>, endOfInput: bool)
    ensures var r := After(Begin, actions);
            Recognises(r.stream, endOfInput) ==>
              r.consumed <= |r.accepted| &&
              Id3Length(r.stream.pending) == Id3Length((r.accepted + later)[r.consumed..])
  {
    RunKeeps(Begin, actions);
    var r := After(Begin, actions);
    if Recognises(r.stream, endOfInput) {
      Id3FromHeader(r.stream.pending, later);
      assert (r.accepted + later)[r.consumed..] == r.stream.pending + later;
    }
  }

  /** Discarding an incomplete rest leaves a new reader, but for the resampler. */
  lemma DiscardStartsAnew(s: Stream)
    ensures Discarded(s) == New.(rate := s.rate, phase := s.phase)
    ensures Free(Discarded(s)) == WINDOW
  {
  }

  // ----- what a decode step answers

  /** A step that succeeds consumes something, or asks for more with all consumed space reclaimed; an error consumes nothing. */
  lemma DecodeMovesOn(s: Stream, volume: nat, room: nat, endOfInput: bool, d: Decoding, pcmLength: nat)
    ensures var (t, result) := DecodeStep(s, volume, room, endOfInput, d, pcmLength);
            && (result == Ok(NeedMore) ==> t == s.(start := 0) && Free(t) == 0x4000 - |s.pending|)
            && (result.Ok? && result != Ok(NeedMore) ==> 0 < Amount(result) <= |s.pending|)
            && (result.Err? ==> t.pending == s.pending && t.start == s.start && t.tagRemaining == s.tagRemaining)
  {
    hide Id3Length, Converted, Checked;
    StepIsConsumption(s, volume, room, endOfInput, d, pcmLength);
    Id3OfNothing();
  }

  /** How many of the steps consumed something. */
  function Moves(r: Reader, actions: seq<Action>): nat
    decreases actions
  {
    if actions == [] then 0
    else (if Step(r, actions[0]).consumed > r.consumed then 1 else 0) + Moves(Step(r, actions[0]), actions[1..])
  }

  /** A caller that decodes until it is asked for more, or an error stops it, ends: every step before that takes a byte. */
  lemma {:induction false} DecodingEnds(r: Reader, actions: seq<Action>)
    requires Good(r) && forall a | a in actions :: a.Decode?
    ensures Moves(r, actions) <= After(r, actions).consumed - r.consumed <= |r.stream.pending|
    decreases actions
  {
    hide Good, DecodeStep;
    if actions != [] {
      assert actions[0] in actions && forall a | a in actions[1..] :: a in actions;
      var step := actions[0];
      DecodeKeeps(r, step);
      StepIsConsumption(r.stream, step.volume, step.room, step.endOfInput, step.decoding, step.pcmLength);
      DecodingEnds(Step(r, step), actions[1..]);
    }
  }

  /** More is asked for exactly with less than 2048 bytes pending before the end, or when the decoder can use none of them. */
  lemma AsksForMoreExactly(s: Stream, volume: nat, room: nat, endOfInput: bool, d: Decoding, pcmLength: nat)
    ensures DecodeStep(s, volume, room, endOfInput, d, pcmLength).1 == Ok(NeedMore) <==>
              && (s.tagRemaining == 0 || s.pending == [])
              && ((|s.pending| < 2048 && !endOfInput) || (Id3Length(s.pending) == None && d == Bytes(0)))
  {
    hide Id3Length, Converted;
  }

  /** A frame of a rate and a number of sides it knows, all of it there. */
  predicate IsSound(s: Stream, f: Frame, pcmLength: nat) {
    && 0 < f.consumed <= |s.pending| && f.frames > 0 && f.frames * f.channels <= pcmLength
    && (f.channels == 1 || f.channels == 2) && (f.rate == 44100 || f.rate == 24000 || f.rate == 48000)
  }

  /** It can be played, at a volume the code knows and into room enough. */
  predicate CanPlay(s: Stream, f: Frame, volume: nat, room: nat, pcmLength: nat) {
    && IsSound(s, f, pcmLength) && volume <= 100
    && if f.rate == 44100 then 2 * f.frames <= room
       else
         var phase := if s.rate == f.rate then s.phase else 0;
         phase < f.frames * 44100 < TWO32 && 2 * OutputFrames(f, phase) <= room
  }

  /**
   * A frame found is played exactly if it can be, and reported as it was found. A rate it does not know, or else a number
   * of sides, is told apart from the rest; and a frame that passes those checks sets the rate, played or not.
   */
  lemma FramesPlayExactly(s: Stream, f: Frame, volume: nat, room: nat, endOfInput: bool, pcmLength: nat)
    requires Consults(s, endOfInput)
    ensures var (t, result) := DecodeStep(s, volume, room, endOfInput, Found(f), pcmLength);
            && (result.Ok? && result.value.Decoded? <==> CanPlay(s, f, volume, room, pcmLength))
            && (result.Ok? && result.value.Decoded? ==>
                  && result.value == Decoded(f.consumed, result.value.outputFrames, 2 * result.value.outputFrames,
                                             f.rate, f.channels, f.frames)
                  && t.rate == f.rate && t.pending == s.pending[f.consumed..])
            && (result == Err(UnsupportedChannels) <==>
                  (f.rate == 44100 || f.rate == 24000 || f.rate == 48000) && f.channels != 1 && f.channels != 2)
            && (f.rate != 44100 && f.rate != 24000 && f.rate != 48000 ==> result == Err(UnsupportedRate) && t == s)
            && (t.rate == s.rate || t.rate == f.rate)
            && (IsSound(s, f, pcmLength) ==> t.rate == f.rate)
  {
    hide Id3Length, OutputFrames, NextPhase;
  }

  // ----- no drift over whole runs

  /** Output and carried phase account for every source frame since the rate last changed. */
  predicate InStep(r: Reader) {
    var s := r.stream;
    || (s.rate == 0 && s.phase == 0 && r.source == r.output == 0)
    || (s.rate == RATE && s.phase == 0 && r.output == r.source)
    || ((s.rate == RATE_24K || s.rate == RATE_48K) && s.phase < s.rate && r.output * s.rate == RATE * r.source + s.phase)
  }

  /** A frame that is written moves output, source and phase together. */
  lemma ConvertedBalances(f: Frame, volume: nat, room: nat, phase: nat)
    requires (f.rate == RATE && phase == 0) || f.rate == RATE_24K || f.rate == RATE_48K
    ensures var result := Converted(f, volume, room, phase);
            result.Ok? ==>
              && result.value.0 * f.rate + phase == RATE * f.frames + result.value.1
              && (if f.rate == RATE then result.value.1 == 0 else result.value.1 < f.rate)
  {
    if f.rate != RATE && phase < f.frames * RATE {
      PhaseCarried(f, phase);
    }
  }

  lemma ConvertInStep(r: Reader, f: Frame, volume: nat, room: nat)
    requires InStep(r) && f.consumed <= |r.stream.pending|
    ensures var (s, result) := Convert(r.stream, f, volume, room);
            var kept := s.rate == r.stream.rate;
            var (source, output) := Heard(result);
            InStep(r.(stream := s, source := (if kept then r.source else 0) + source,
                      output := (if kept then r.output else 0) + output))
  {
    hide Converted;
    if f.rate == RATE || f.rate == RATE_24K || f.rate == RATE_48K {
      var phase := Entered(r.stream, f.rate).phase;
      ConvertedBalances(f, volume, room, phase);
      var result := Converted(f, volume, room, phase);
      if result.Ok? {
        DistributeAdd(f.rate, r.output, result.value.0);
      }
    }
  }

  lemma StepInStep(r: Reader, a: Action)
    requires InStep(r)
    ensures InStep(Step(r, a))
  {
    hide Id3Length, Convert, Consumed, Pushed;
    if a.Decode? && Checked(a.decoding, a.pcmLength).Ok? {
      var f := Checked(a.decoding, a.pcmLength).value;
      if f.frames != 0 && f.consumed <= |r.stream.pending| {
        ConvertInStep(r, f, a.volume, a.room);
      }
    }
    MovesKeepRate(r.stream, a);
  }

  /** Moving or dropping compressed bytes does not touch the resampler. */
  lemma MovesKeepRate(s: Stream, a: Action)
    ensures Compacted(s).rate == s.rate && Compacted(s).phase == s.phase
    ensures a.Push? ==> Pushed(s, a.input).rate == s.rate && Pushed(s, a.input).phase == s.phase
    ensures forall n: nat | n <= |s.pending| :: Consumed(s, n).rate == s.rate && Consumed(s, n).phase == s.phase
  {
  }

  lemma {:induction false} RunInStep(r: Reader, actions: seq<Action>)
    requires InStep(r)
    ensures InStep(After(r, actions))
    decreases actions
  {
    if actions != [] {
      StepInStep(r, actions[0]);
      RunInStep(Step(r, actions[0]), actions[1..]);
    }
  }

  /**
   * In every run, whatever the window, the tags, the frames and the refused calls were in between: since the rate
   * last changed, the frames written are the source duration at 44.1 kHz rounded up, and the carried
   * phase is below the rate.
   */
  lemma RunsDoNotDrift(actions: seq<Action>)
    ensures var r := After(Begin, actions);
            r.stream.rate != 0 ==>
              && r.output == CeilDiv(RATE * r.source, r.stream.rate)
              && r.stream.phase < r.stream.rate
  {
    RunInStep(Begin, actions);
    var r := After(Begin, actions);
    if r.stream.rate == RATE {
      CeilUnique(RATE * r.source, RATE, r.output, 0);
    } else if r.stream.rate != 0 {
      CeilUnique(RATE * r.source, r.stream.rate, r.output, r.stream.phase);
    }
  }
}
