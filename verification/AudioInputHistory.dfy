/**
 * What the playback endpoint is, told from outside: from the operations called, their answers, and
 * the callbacks with the generations they carried. Nothing here looks at a field of the endpoint.
 */
module AudioInputHistory {
  import opened Wire
  import opened AudioInputSpec
  import opened AudioInputRuns

  datatype Entry =
    | Operated(operation: Operation, answer: Answer)
    | Called(generation: U32, callback: Callback)

  type Log = seq<Entry>

  function EntryOf(i: Input, action: Action): Entry {
    match action
    case Operate(operation) => Operated(operation, Do(i, operation).1)
    case CallBack(era, callback) => Called(Generation(era), callback)
  }

  /** The entries that `actions` add, oldest first. */
  function LogOf(s: Session, actions: seq<Action>): Log
    decreases actions
  {
    if actions == [] then [] else [EntryOf(s.input, actions[0])] + LogOf(Step(s, actions[0]), actions[1..])
  }

  // ----- reading a log, newest entry first

  predicate Succeeded(e: Entry) {
    e.Operated? && e.answer.Ok?
  }

  /** A successful open, close, set_format, start, stop or flush. */
  predicate BeginsEra(e: Entry) {
    Succeeded(e) && Bumps(e.operation)
  }

  predicate EmptiesRing(e: Entry) {
    BeginsEra(e) && !e.operation.DoStart?
  }

  predicate ClearsCounters(e: Entry) {
    Succeeded(e) && (e.operation.DoOpen? || e.operation.DoSetFormat?)
  }

  function Eras(log: Log): nat {
    if log == [] then 0 else Eras(log[..|log| - 1]) + if BeginsEra(log[|log| - 1]) then 1 else 0
  }

  /** A callback is heard if it carries the generation of the era it falls into. */
  predicate Heard(before: Log, e: Entry) {
    e.Called? && e.generation == Generation(Eras(before))
  }

  /** Bytes accepted since the ring was last emptied. */
  function Written(log: Log): seq<Byte> {
    if log == [] then []
    else
      var before, e := log[..|log| - 1], log[|log| - 1];
      if EmptiesRing(e) then []
      else if Succeeded(e) && e.operation.DoWrite? && e.answer.value <= |e.operation.input|
      then Written(before) + e.operation.input[..e.answer.value]
      else Written(before)
  }

  /** How many of them have been consumed. */
  function Taken(log: Log): nat {
    if log == [] then 0
    else
      var before, e := log[..|log| - 1], log[|log| - 1];
      if EmptiesRing(e) then 0
      else Taken(before) + if Succeeded(e) && e.operation.DoConsume? then e.answer.value else 0
  }

  /** The entry moves the stream to another state; `last` is the one that did so before it. */
  predicate Moves(before: Log, last: Option<Entry>, e: Entry) {
    match e
    case Operated(operation, answer) =>
      answer.Ok? && (Bumps(operation) || operation.DoPause? || operation.DoResume? || operation.DoDrain?)
    case Called(_, callback) =>
      && Heard(before, e)
      && match callback
         case OnFailure(_) => true
         case OnPlaying(_, _, _) => !IsDrain(last)
         case OnUnderrun => !IsDrain(last)
         case OnDrained(pipelineEmpty) => pipelineEmpty && IsDrain(last) && |Written(before)| == Taken(before)
         case _ => false
  }

  /** The latest entry that moved the stream. */
  function LastMove(log: Log): Option<Entry> {
    if log == [] then None
    else
      var before := log[..|log| - 1];
      if Moves(before, LastMove(before), log[|log| - 1]) then Some(log[|log| - 1]) else LastMove(before)
  }

  predicate IsDrain(m: Option<Entry>) {
    m.Some? && m.value.Operated? && m.value.operation.DoDrain?
  }

  predicate IsPause(m: Option<Entry>) {
    m.Some? && m.value.Operated? && m.value.operation.DoPause?
  }

  predicate IsFailure(m: Option<Entry>) {
    m.Some? && m.value.Called? && m.value.callback.OnFailure?
  }

  /** The stream runs: started, resumed, reported playing, or short of data. */
  predicate IsRunning(m: Option<Entry>) {
    && m.Some?
    && match m.value
       case Operated(operation, _) => operation.DoStart? || operation.DoResume?
       case Called(_, callback) => callback.OnPlaying? || callback.OnUnderrun?
  }

  /** The stream was brought to an end: stopped, or drained. */
  predicate IsStop(m: Option<Entry>) {
    m.Some? && (if m.value.Operated? then m.value.operation.DoStop? else m.value.callback.OnDrained?)
  }

  /** The stream was set up: a format set, or flushed. */
  predicate IsSetUp(m: Option<Entry>) {
    m.Some? && m.value.Operated? && (m.value.operation.DoSetFormat? || m.value.operation.DoFlush?)
  }

  predicate IsOpening(m: Option<Entry>) {
    m.Some? && m.value.Operated? && m.value.operation.DoOpen?
  }

  function StateAfter(m: Option<Entry>): PlayState {
    if IsDrain(m) then Draining
    else if IsPause(m) then Paused
    else if IsFailure(m) then Failed
    else if IsStop(m) then Stopped
    else if IsSetUp(m) then Configured
    else if IsOpening(m) then Idle
    else if !IsRunning(m) then Closed
    else if m.value.Called? && m.value.callback.OnPlaying? then Playing
    else Buffering
  }

  /** Of the opens and closes that succeeded, the last was an open. */
  predicate Opened(log: Log) {
    log != [] &&
    var e := log[|log| - 1];
    if Succeeded(e) && (e.operation.DoOpen? || e.operation.DoClose?) then e.operation.DoOpen? else Opened(log[..|log| - 1])
  }

  /** The format last set since then. */
  function FormatSet(log: Log): Option<Format> {
    if log == [] then None
    else
      var e := log[|log| - 1];
      if Succeeded(e) && e.operation.DoSetFormat? then Some(e.operation.wanted)
      else if Succeeded(e) && (e.operation.DoOpen? || e.operation.DoClose?) then None
      else FormatSet(log[..|log| - 1])
  }

  /** What the decoder last reported in this era. */
  function Decoded(log: Log): (U32, U32, U32) {
    if log == [] then (0, 0, 0)
    else
      var before, e := log[..|log| - 1], log[|log| - 1];
      if BeginsEra(e) then (0, 0, 0)
      else if Heard(before, e) && e.callback.OnPlaying? then (e.callback.rate, e.callback.channels, e.callback.bitpool)
      else Decoded(before)
  }

  function LastFailure(log: Log): int {
    if log == [] then 0
    else
      var before, e := log[..|log| - 1], log[|log| - 1];
      if BeginsEra(e) then 0
      else if Heard(before, e) && e.callback.OnFailure? then e.callback.error
      else LastFailure(before)
  }

  function Level(log: Log): U32 {
    if log == [] then VOLUME_MAX
    else
      var e := log[|log| - 1];
      if Succeeded(e) && (e.operation.DoSetVolume? || e.operation.DoRestoreVolume?) then e.operation.level
      else Level(log[..|log| - 1])
  }

  datatype Counter = Accepted | Consumed | PcmFrames | RtpPackets | Underruns

  /** How much an entry adds to a counter. */
  function Adds(c: Counter, before: Log, e: Entry): nat {
    match c
    case Accepted => if Succeeded(e) && e.operation.DoWrite? then e.answer.value else 0
    case Consumed => if Succeeded(e) && e.operation.DoConsume? then e.answer.value else 0
    case PcmFrames => if Heard(before, e) && e.callback.OnPcmFrames? then e.callback.frames else 0
    case RtpPackets => if Heard(before, e) && e.callback.OnRtpPackets? then e.callback.packets else 0
    case Underruns => if Heard(before, e) && e.callback.OnUnderrun? then 1 else 0
  }

  /** The sum since the counters were last cleared. */
  function Total(c: Counter, log: Log): nat {
    if log == [] then 0
    else
      var before, e := log[..|log| - 1], log[|log| - 1];
      if ClearsCounters(e) then 0 else Total(c, before) + Adds(c, before, e)
  }

  // ----- the endpoint is what its log tells

  predicate TellsEra(log: Log, i: Input) {
    !i.locked && i.generation == Generation(Eras(log))
  }

  predicate TellsQueue(log: Log, i: Input) {
    Taken(log) <= |Written(log)| && i.queue == Written(log)[Taken(log)..]
  }

  predicate TellsState(log: Log, i: Input) {
    i.state == StateAfter(LastMove(log))
  }

  predicate TellsFormat(log: Log, i: Input) {
    && i.isOpen == Opened(log)
    && match FormatSet(log)
       case None => i.format == 0 && i.rateHint == 0 && i.channelsHint == 0
       case Some(f) => i.format == f.format == FORMAT_MP3 && i.rateHint == f.rateHint && i.channelsHint == f.channelsHint
  }

  predicate TellsReports(log: Log, i: Input) {
    && (i.decodedRate, i.decodedChannels, i.bitpool) == Decoded(log)
    && i.lastError == LastFailure(log) && i.volume == Level(log)
  }

  function Field(c: Counter, i: Input): U32 {
    match c
    case Accepted => i.accepted
    case Consumed => i.consumed
    case PcmFrames => i.pcmFrames
    case RtpPackets => i.rtpPackets
    case Underruns => i.underruns
  }

  ghost predicate TellsCounters(log: Log, i: Input) {
    forall c :: Field(c, i) == Total(c, log) % TWO32
  }

  ghost predicate Tells(log: Log, i: Input) {
    && TellsEra(log, i) && TellsQueue(log, i) && TellsState(log, i)
    && TellsFormat(log, i) && TellsReports(log, i) && TellsCounters(log, i)
  }

  function Next(i: Input, action: Action): Input {
    match action
    case Operate(operation) => Do(i, operation).0
    case CallBack(era, callback) => Call(i, Generation(era), callback)
  }

  lemma Grown(log: Log, e: Entry)
    ensures var longer := log + [e]; longer != [] && longer[|longer| - 1] == e && longer[..|longer| - 1] == log
  {
  }

  lemma OperationBegins(i: Input, operation: Operation)
    requires !i.locked
    ensures var (after, answer) := Do(i, operation);
            !after.locked && after.generation == if answer.Ok? && Bumps(operation) then WrappingAdd(i.generation, 1) else i.generation
  {
    hide WrappingAdd, Acceptable;
  }

  lemma CallbackKeepsEra(i: Input, generation: U32, callback: Callback)
    ensures var after := Call(i, generation, callback); after.locked == i.locked && after.generation == i.generation
  {
    hide WrappingAdd;
  }

  lemma NextEra(log: Log, i: Input, action: Action)
    requires TellsEra(log, i)
    ensures TellsEra(log + [EntryOf(i, action)], Next(i, action))
  {
    hide Do, Call;
    Grown(log, EntryOf(i, action));
    if action.Operate? {
      OperationBegins(i, action.operation);
    } else {
      CallbackKeepsEra(i, Generation(action.era), action.callback);
    }
  }

  lemma NextQueue(log: Log, i: Input, action: Action)
    requires TellsEra(log, i) && TellsQueue(log, i)
    ensures TellsQueue(log + [EntryOf(i, action)], Next(i, action))
  {
    hide Generation, WrappingAdd, Acceptable;
    Grown(log, EntryOf(i, action));
  }

  lemma OperationMoves(log: Log, last: Option<Entry>, i: Input, operation: Operation)
    requires !i.locked
    ensures var (after, answer) := Do(i, operation);
            var e := Operated(operation, answer);
            after.state == if Moves(log, last, e) then StateAfter(Some(e)) else i.state
  {
    hide WrappingAdd, Acceptable, Recounted;
  }

  lemma CallbackMoves(log: Log, last: Option<Entry>, i: Input, generation: U32, callback: Callback)
    requires TellsEra(log, i) && TellsQueue(log, i) && i.state == StateAfter(last)
    ensures var e := Called(generation, callback);
            Call(i, generation, callback).state == if Moves(log, last, e) then StateAfter(Some(e)) else i.state
  {
    hide WrappingAdd, Generation, Eras, Written, Taken;
  }

  lemma NextState(log: Log, i: Input, action: Action)
    requires TellsEra(log, i) && TellsQueue(log, i) && TellsState(log, i)
    ensures TellsState(log + [EntryOf(i, action)], Next(i, action))
  {
    hide Do, Call, Moves, StateAfter, TellsQueue, Generation;
    Grown(log, EntryOf(i, action));
    if action.Operate? {
      OperationMoves(log, LastMove(log), i, action.operation);
    } else {
      CallbackMoves(log, LastMove(log), i, Generation(action.era), action.callback);
    }
  }

  lemma NextFormat(log: Log, i: Input, action: Action)
    requires TellsEra(log, i) && TellsFormat(log, i)
    ensures TellsFormat(log + [EntryOf(i, action)], Next(i, action))
  {
    hide Generation, WrappingAdd;
    Grown(log, EntryOf(i, action));
  }

  lemma NextReports(log: Log, i: Input, action: Action)
    requires TellsEra(log, i) && TellsReports(log, i)
    ensures TellsReports(log + [EntryOf(i, action)], Next(i, action))
  {
    hide Generation, WrappingAdd, Acceptable, Eras;
    Grown(log, EntryOf(i, action));
  }

  /** One step adds what its entry adds, or clears the counter. */
  lemma StepAdds(c: Counter, log: Log, i: Input, action: Action)
    requires TellsEra(log, i)
    ensures var e := EntryOf(i, action);
            Field(c, Next(i, action)) == if ClearsCounters(e) then 0 else WrappingAdd(Field(c, i), Adds(c, log, e))
  {
    hide Generation, Acceptable, Eras;
    assert WrappingAdd(Field(c, i), 0) == Field(c, i);
    hide WrappingAdd;
  }

  lemma NextCounters(log: Log, i: Input, action: Action)
    requires TellsEra(log, i) && TellsCounters(log, i)
    ensures TellsCounters(log + [EntryOf(i, action)], Next(i, action))
  {
    hide EntryOf, Next, Field, Adds, ClearsCounters, TellsEra;
    var e := EntryOf(i, action);
    Grown(log, e);
    forall c
      ensures Field(c, Next(i, action)) == Total(c, log + [e]) % TWO32
    {
      StepAdds(c, log, i, action);
      assert Field(c, i) == Total(c, log) % TWO32;
      WrapAdd(Total(c, log), Adds(c, log, e));
    }
  }

  lemma {:induction false} RunTells(log: Log, s: Session, actions: seq<Action>)
    requires Tells(log, s.input)
    ensures Tells(log + LogOf(s, actions), After(s, actions).input)
    decreases actions
  {
    hide TellsEra, TellsQueue, TellsState, TellsFormat, TellsReports, TellsCounters, Do, Call, EntryOf;
    if actions == [] {
      assert log + [] == log;
    } else {
      var e := EntryOf(s.input, actions[0]);
      assert Next(s.input, actions[0]) == Step(s, actions[0]).input;
      NextEra(log, s.input, actions[0]);
      NextQueue(log, s.input, actions[0]);
      NextState(log, s.input, actions[0]);
      NextFormat(log, s.input, actions[0]);
      NextReports(log, s.input, actions[0]);
      NextCounters(log, s.input, actions[0]);
      RunTells(log + [e], Step(s, actions[0]), actions[1..]);
      assert log + LogOf(s, actions) == log + [e] + LogOf(Step(s, actions[0]), actions[1..]);
    }
  }

  /**
   * After every run, each field of the endpoint is what the log of calls, answers and callbacks says, and nothing but
   * the log decides it: the state by the last entry that moved the stream, the queue by the bytes written since the ring
   * was last emptied, the reports by the last callbacks heard, and the counters by what was counted since they were cleared.
   */
  lemma EndpointIsItsHistory(capacity: nat, actions: seq<Action>)
    ensures Tells(LogOf(Begin(capacity), actions), After(Begin(capacity), actions).input)
  {
    hide LogOf, After;
    StartTells(capacity);
    RunTells([], Begin(capacity), actions);
    assert [] + LogOf(Begin(capacity), actions) == LogOf(Begin(capacity), actions);
  }

  lemma StartTells(capacity: nat)
    ensures Tells([], New(capacity))
  {
  }

  // ----- what the caller can rely on

  /** Paused is what a pause leaves, and only a resume follows it up, by buffering again. */
  lemma PausedExactly(capacity: nat, actions: seq<Action>)
    ensures var last := LastMove(LogOf(Begin(capacity), actions));
            var i := After(Begin(capacity), actions).input;
            var (resumed, answer) := Do(i, DoResume);
            && (i.state == Paused <==> IsPause(last))
            && (answer.Ok? <==> IsPause(last))
            && resumed == if IsPause(last) then i.(state := Buffering) else i
  {
    hide LogOf, After;
    EndpointIsItsHistory(capacity, actions);
  }

  /** Writes fail with Io exactly from a failure heard until the next entry that moves the stream, while a format is set. */
  lemma FailureRefusesWrites(capacity: nat, actions: seq<Action>, input: seq<Byte>)
    ensures var log := LogOf(Begin(capacity), actions);
            var i := After(Begin(capacity), actions).input;
            Do(i, DoWrite(input)).1 == Err(Io) <==> Opened(log) && FormatSet(log).Some? && IsFailure(LastMove(log))
  {
    hide LogOf, After;
    EndpointIsItsHistory(capacity, actions);
  }

  /** A write takes what fits of the capacity, and is refused outright before a stream is set up, in a drain and after a failure. */
  lemma WritesTakeWhatFits(capacity: nat, actions: seq<Action>, input: seq<Byte>)
    ensures var log := LogOf(Begin(capacity), actions);
            var last := LastMove(log);
            var room := capacity - (|Written(log)| - Taken(log));
            var answer := Do(After(Begin(capacity), actions).input, DoWrite(input)).1;
            && room >= 0
            && (answer.Ok? || answer == Err(Again) <==>
                  && Opened(log) && FormatSet(log).Some? && !IsDrain(last) && !IsFailure(last)
                  && (IsSetUp(last) || IsStop(last) || IsRunning(last) || IsPause(last)))
            && (answer.Ok? ==> answer.value == Min(|input|, room))
            && (answer == Err(Again) ==> room == 0 && input != [])
  {
    hide LogOf, After;
    EndpointIsItsHistory(capacity, actions);
    EveryByteAccounted(capacity, actions);
    SameCapacity(Begin(capacity), actions);
  }

  lemma {:induction false} SameCapacity(s: Session, actions: seq<Action>)
    ensures After(s, actions).input.capacity == s.input.capacity
    decreases actions
  {
    if actions != [] {
      SameCapacity(Step(s, actions[0]), actions[1..]);
    }
  }

  /** A set_format takes MP3 only, in a structure of 32 bytes with all reserved fields zero. */
  predicate IsMp3Format(f: Format) {
    f == Format(32, 1, f.rateHint, f.channelsHint, 0, (0, 0, 0)) && f.channelsHint <= 2
  }

  function Check(allowed: bool, error: InputError): Answer {
    if allowed then Ok(0) else Err(error)
  }

  /** What each operation answers, told by what moved the stream last and by what is open and set. */
  lemma AnswersAreTheHistorys(capacity: nat, actions: seq<Action>, wanted: Format, level: U32)
    ensures var log := LogOf(Begin(capacity), actions);
            var i, last, formatted := After(Begin(capacity), actions).input, LastMove(log), FormatSet(log).Some?;
            && Do(i, DoOpen).1 == Check(!Opened(log), Busy)
            && Do(i, DoClose).1 == Ok(0)
            && Do(i, DoSetFormat(wanted)).1 == (if !Opened(log) || !IsMp3Format(wanted) then Err(Invalid)
                                                else Check(IsOpening(last) || IsSetUp(last) || IsStop(last), Busy))
            && Do(i, DoStart).1 == Check(formatted && (IsSetUp(last) || IsStop(last)), Invalid)
            && Do(i, DoPause).1 == Check(IsRunning(last), Invalid)
            && Do(i, DoDrain).1 == Check(IsRunning(last) || IsPause(last), Invalid)
            && Do(i, DoStop).1 == Check(Opened(log), Pipe)
            && Do(i, DoFlush).1 == Check(formatted, Pipe)
            && Do(i, DoSetVolume(level)).1 == Check(Opened(log) && level <= 100, Invalid)
            && Do(i, DoRestoreVolume(level)).1 == Check(level <= 100, Invalid)
  {
    hide LogOf, After, TellsQueue, TellsReports, TellsCounters, Generation, WrappingAdd, Invalidated, Recounted, LastMove,
         Opened, FormatSet;
    EndpointIsItsHistory(capacity, actions);
  }
}
