/** Whole runs of the playback endpoint, operations and callbacks in any order, each one atomic. */
module AudioInputRuns {
  import opened Wire
  import opened AudioInputSpec

  datatype Operation =
    | DoOpen | DoClose | DoSetFormat(wanted: Format) | DoStart | DoPause | DoResume | DoStop | DoFlush | DoDrain
    | DoWrite(input: seq<Byte>) | DoConsume(want: nat) | DoSetVolume(level: U32) | DoRestoreVolume(level: U32)

  datatype Callback =
    | OnPlaying(rate: U32, channels: U32, bitpool: U32)
    | OnPcmFrames(frames: U32) | OnRtpPackets(packets: U32)
    | OnUnderrun | OnDrained(pipelineEmpty: bool) | OnFailure(error: int)

  /** A callback carries the generation current in the era in which it was read. */
  datatype Action = Operate(operation: Operation) | CallBack(era: nat, callback: Callback)

  function Do(i: Input, operation: Operation): (Input, Answer) {
    match operation
    case DoOpen => Open(i)
    case DoClose => Close(i)
    case DoSetFormat(wanted) => SetFormat(i, wanted)
    case DoStart => Start(i)
    case DoPause => Pause(i)
    case DoResume => Resume(i)
    case DoStop => Stop(i)
    case DoFlush => Flush(i)
    case DoDrain => Drain(i)
    case DoWrite(input) => Write(i, input)
    case DoConsume(want) => Consume(i, want)
    case DoSetVolume(level) => SetVolume(i, level)
    case DoRestoreVolume(level) => RestoreVolume(i, level)
  }

  function Call(i: Input, generation: U32, callback: Callback): Input {
    match callback
    case OnPlaying(rate, channels, bitpool) => MarkPlaying(i, generation, rate, channels, bitpool)
    case OnPcmFrames(frames) => AddPcmFrames(i, generation, frames)
    case OnRtpPackets(packets) => AddRtpPackets(i, generation, packets)
    case OnUnderrun => MarkUnderrun(i, generation)
    case OnDrained(pipelineEmpty) => MarkDrained(i, generation, pipelineEmpty)
    case OnFailure(error) => Fail(i, generation, error)
  }

  /** The 32-bit generation of an era; eras count the bumps since the endpoint was made. */
  function Generation(era: nat): U32 {
    WrappingAdd(1, era)
  }

  /** The operations that start a new era when they succeed. */
  predicate Bumps(operation: Operation) {
    || operation.DoOpen? || operation.DoClose? || operation.DoSetFormat? || operation.DoStart?
    || operation.DoStop? || operation.DoFlush?
  }

  /**
   * The endpoint with its history: bytes discarded by resets since the counters were last cleared,
   * the current era, and the eras begun by a successful start.
   */
  datatype Session = Session(input: Input, discarded: nat, era: nat, started: set<nat>)

  function Begin(capacity: nat): Session {
    Session(New(capacity), 0, 0, {})
  }

  function Step(s: Session, action: Action): Session {
    match action
    case CallBack(era, callback) => s.(input := Call(s.input, Generation(era), callback))
    case Operate(operation) =>
      var (after, answer) := Do(s.input, operation);
      if answer.Err? || !Bumps(operation) then s.(input := after)
      else
        Session(
          after,
          if operation.DoOpen? || operation.DoSetFormat? then 0
          else if operation.DoStart? then s.discarded
          else s.discarded + |s.input.queue|,
          s.era + 1,
          if operation.DoStart? then s.started + {s.era + 1} else s.started)
  }

  function After(s: Session, actions: seq<Action>): Session
    decreases actions
  {
    if actions == [] then s else After(Step(s, actions[0]), actions[1..])
  }

  // ----- no byte is lost

  predicate Conserved(s: Session) {
    && !s.input.locked && |s.input.queue| <= s.input.capacity
    && s.input.generation == Generation(s.era)
    && s.input.accepted == WrappingAdd(s.input.consumed, |s.input.queue| + s.discarded)
  }

  lemma WriteConserves(s: Session, input: seq<Byte>)
    requires Conserved(s)
    ensures Conserved(s.(input := Write(s.input, input).0))
  {
  }

  lemma ConsumeConserves(s: Session, want: nat)
    requires Conserved(s)
    ensures Conserved(s.(input := Consume(s.input, want).0))
  {
  }

  lemma CallConserves(s: Session, generation: U32, callback: Callback)
    requires Conserved(s)
    ensures Conserved(s.(input := Call(s.input, generation, callback)))
    ensures Call(s.input, generation, callback).queue == s.input.queue
  {
  }

  lemma ResetConserves(s: Session, operation: Operation)
    requires Conserved(s) && Bumps(operation)
    ensures Conserved(Step(s, Operate(operation)))
  {
  }

  lemma StepConserves(s: Session, action: Action)
    requires Conserved(s)
    ensures Conserved(Step(s, action))
  {
    match action
    case CallBack(era, callback) => CallConserves(s, Generation(era), callback);
    case Operate(operation) =>
      if Bumps(operation) {
        ResetConserves(s, operation);
      } else if operation.DoWrite? {
        WriteConserves(s, operation.input);
      } else if operation.DoConsume? {
        ConsumeConserves(s, operation.want);
      }
  }

  /**
   * In every run, whatever generations the callbacks carry: every byte accepted has been consumed,
   * is still in the ring, or was discarded by a reset (counters wrap at 2^32).
   */
  lemma {:induction false} EveryByteAccounted(capacity: nat, actions: seq<Action>)
    ensures Conserved(After(Begin(capacity), actions))
  {
    RunConserves(Begin(capacity), actions);
  }

  lemma {:induction false} RunConserves(s: Session, actions: seq<Action>)
    requires Conserved(s)
    ensures Conserved(After(s, actions))
    decreases actions
  {
    if actions != [] {
      StepConserves(s, actions[0]);
      RunConserves(Step(s, actions[0]), actions[1..]);
    }
  }

  // ----- draining

  /** The actions that may end a drain. */
  predicate MayEndDrain(action: Action) {
    match action
    case Operate(operation) => operation.DoStop? || operation.DoFlush? || operation.DoClose?
    case CallBack(_, callback) => callback.OnDrained? || callback.OnFailure?
  }

  /** What stays of the queue is its newest part. */
  predicate OnlyTaken(before: Input, after: Input) {
    |after.queue| <= |before.queue| && after.queue == before.queue[|before.queue| - |after.queue|..]
  }

  lemma OperationsDrain(i: Input, operation: Operation)
    requires i.state == Draining && !i.locked
    ensures Do(i, operation).0.state == Draining ==> OnlyTaken(i, Do(i, operation).0)
    ensures || Do(i, operation).0.state == Draining || operation.DoStop? || operation.DoFlush? || operation.DoClose?
            || (operation.DoOpen? && !i.isOpen)
    ensures operation.DoOpen? ==> (Do(i, operation).0.state == Draining <==> i.isOpen)
  {
    hide WrappingAdd;
    assert i.queue[0..] == i.queue;
  }

  lemma CallbacksDrain(i: Input, generation: U32, callback: Callback)
    requires i.state == Draining
    ensures OnlyTaken(i, Call(i, generation, callback))
    ensures Call(i, generation, callback).state == Draining || callback.OnDrained? || callback.OnFailure?
  {
  }

  /**
   * While draining nothing more is accepted and the queue only shrinks; the named actions may end the drain, and beside
   * them only `open`, exactly if the endpoint is not open.
   */
  lemma DrainIsClosedToWrites(s: Session, action: Action)
    requires Conserved(s) && s.input.state == Draining
    ensures Step(s, action).input.state == Draining || MayEndDrain(action) || (action == Operate(DoOpen) && !s.input.isOpen)
    ensures action == Operate(DoOpen) ==> (Step(s, action).input.state == Draining <==> s.input.isOpen)
    ensures action.Operate? && action.operation.DoWrite? ==> Do(s.input, action.operation) == (s.input, Err(Pipe))
    ensures Step(s, action).input.state == Draining ==> OnlyTaken(s.input, Step(s, action).input)
  {
    hide Call, OnlyTaken;
    match action
    case Operate(operation) => OperationsDrain(s.input, operation);
    case CallBack(era, callback) => CallbacksDrain(s.input, Generation(era), callback);
  }

  /** Whenever `mark_drained` stops the stream, all accepted bytes not discarded have been consumed. */
  lemma DrainLosesNothing(capacity: nat, actions: seq<Action>, era: nat, pipelineEmpty: bool)
    ensures var s := After(Begin(capacity), actions);
            var t := Step(s, CallBack(era, OnDrained(pipelineEmpty)));
            s.input.state == Draining && t.input.state != Draining ==>
              && t.input.state == Stopped && t.input.queue == [] && pipelineEmpty
              && t.input.accepted == WrappingAdd(t.input.consumed, t.discarded)
  {
    EveryByteAccounted(capacity, actions);
  }

  // ----- stale callbacks

  lemma {:induction false} ErasAdvance(s: Session, actions: seq<Action>)
    requires Conserved(s)
    ensures After(s, actions).era >= s.era
    decreases actions
  {
    if actions != [] {
      StepConserves(s, actions[0]);
      ErasAdvance(Step(s, actions[0]), actions[1..]);
    }
  }

  lemma GenerationsDiffer(later: nat, earlier: nat)
    requires earlier < later < earlier + TWO32
    ensures Generation(later) != Generation(earlier)
  {
  }

  /**
   * A callback whose generation was read before a successful open, close, set_format, start, stop
   * or flush changes nothing after it, as long as fewer than 2^32 of those happened in between.
   */
  lemma StaleCallbacksChangeNothing(capacity: nat, before: seq<Action>, between: seq<Action>, callback: Callback)
    ensures var s := After(Begin(capacity), before);
            var t := After(s, between);
            s.era < t.era < s.era + TWO32 ==> Step(t, CallBack(s.era, callback)) == t
  {
    EveryByteAccounted(capacity, before);
    var s := After(Begin(capacity), before);
    RunConserves(s, between);
    var t := After(s, between);
    if s.era < t.era < s.era + TWO32 {
      GenerationsDiffer(t.era, s.era);
    }
  }

  /** Each of the six operations begins a new era exactly when it succeeds, and nothing else does. */
  lemma OnlyTheSixBeginEras(s: Session, action: Action)
    requires Conserved(s)
    ensures Step(s, action).era == s.era
              + if action.Operate? && Bumps(action.operation) && Do(s.input, action.operation).1.Ok? then 1 else 0
    ensures Step(s, action).input.generation == Generation(Step(s, action).era)
  {
    StepConserves(s, action);
  }

  // ----- active states belong to an open MP3 session

  predicate Active(state: PlayState) {
    state == Configured || state == Buffering || state == Playing || state == Paused || state == Draining
  }

  predicate OpenMp3(i: Input) {
    i.isOpen && i.format == FORMAT_MP3
  }

  /** CONFIGURED through DRAINING imply an open endpoint set to MP3. */
  predicate Fine(i: Input) {
    Active(i.state) ==> OpenMp3(i)
  }

  predicate AlwaysFine(s: Session, actions: seq<Action>)
    decreases actions
  {
    Fine(s.input) && (actions == [] || AlwaysFine(Step(s, actions[0]), actions[1..]))
  }

  /** A `mark_playing` or `mark_underrun` that is current finds the endpoint open and set to MP3. */
  predicate Guarded(s: Session, action: Action) {
    (&& action.CallBack? && (action.callback.OnPlaying? || action.callback.OnUnderrun?)
     && Generation(action.era) == s.input.generation) ==> OpenMp3(s.input)
  }

  predicate AllGuarded(s: Session, actions: seq<Action>)
    decreases actions
  {
    actions == [] || (Guarded(s, actions[0]) && AllGuarded(Step(s, actions[0]), actions[1..]))
  }

  /** A format is only ever set on an open endpoint. */
  predicate FormatIsOpen(s: Session) {
    !s.input.locked && (s.input.format != 0 ==> OpenMp3(s.input))
  }

  lemma GuardIsExact(s: Session, action: Action)
    requires FormatIsOpen(s) && Fine(s.input)
    ensures FormatIsOpen(Step(s, action))
    ensures Fine(Step(s, action).input) <==> Guarded(s, action)
  {
    hide WrappingAdd, Generation;
  }

  lemma {:induction false} FineExactlyWhenGuarded(s: Session, actions: seq<Action>)
    requires FormatIsOpen(s) && Fine(s.input)
    ensures AlwaysFine(s, actions) <==> AllGuarded(s, actions)
    decreases actions
  {
    hide Step, Guarded;
    if actions != [] {
      GuardIsExact(s, actions[0]);
      if Guarded(s, actions[0]) {
        FineExactlyWhenGuarded(Step(s, actions[0]), actions[1..]);
      }
    }
  }

  /**
   * Throughout a run CONFIGURED through DRAINING imply an open endpoint set to MP3, if and only if every current
   * `mark_playing` and `mark_underrun` of the run finds one.
   */
  lemma ActiveExactlyWhenGuarded(capacity: nat, actions: seq<Action>)
    ensures AlwaysFine(Begin(capacity), actions) <==> AllGuarded(Begin(capacity), actions)
  {
    FineExactlyWhenGuarded(Begin(capacity), actions);
  }

  /** The code has no such guard: the very first generation is live before anything was opened. */
  lemma UndisciplinedCallbackPlaysClosedEndpoint(capacity: nat)
    ensures var first := CallBack(0, OnPlaying(44100, 2, 39));
            && !Guarded(Begin(capacity), first)
            && Step(Begin(capacity), first).input.state == Playing && !Step(Begin(capacity), first).input.isOpen
  {
  }

  lemma {:induction false} StaysFine(s: Session, actions: seq<Action>)
    requires AlwaysFine(s, actions)
    ensures Fine(After(s, actions).input)
    decreases actions
  {
    if actions != [] {
      StaysFine(Step(s, actions[0]), actions[1..]);
    }
  }

  /** In guarded runs a drain is left by stop, flush, close, `mark_drained` and `fail` only. */
  lemma GuardedDrainsEndOnlyByTheFive(capacity: nat, actions: seq<Action>, action: Action)
    ensures var s := After(Begin(capacity), actions);
            AllGuarded(Begin(capacity), actions) && s.input.state == Draining ==>
              Step(s, action).input.state == Draining || MayEndDrain(action)
  {
    hide Step;
    var s := After(Begin(capacity), actions);
    EveryByteAccounted(capacity, actions);
    if AllGuarded(Begin(capacity), actions) && s.input.state == Draining {
      ActiveExactlyWhenGuarded(capacity, actions);
      StaysFine(Begin(capacity), actions);
      DrainIsClosedToWrites(s, action);
    }
  }

  /** Without the guard a closed endpoint can be set draining, and `open` then takes it out of the drain. */
  lemma ClosedEndpointDrains(capacity: nat)
    ensures var actions := [CallBack(0, OnPlaying(44100, 2, 39)), Operate(DoDrain)];
            var s := After(Begin(capacity), actions);
            s.input.state == Draining && !s.input.isOpen && Step(s, Operate(DoOpen)).input.state == Idle
  {
    var playing, drain := CallBack(0, OnPlaying(44100, 2, 39)), Operate(DoDrain);
    var s := Step(Begin(capacity), playing);
    assert [playing, drain][1..] == [drain] && [drain][1..] == [];
    assert After(s, [drain]) == After(Step(s, drain), []);
  }

  // ----- a discipline that keeps the guard

  /** Callbacks only carry generations captured by a successful start, and eras have not wrapped. */
  predicate Disciplined(s: Session, action: Action) {
    s.era + 1 < TWO32 && (action.CallBack? ==> action.era in s.started)
  }

  predicate DisciplinedRun(s: Session, actions: seq<Action>)
    decreases actions
  {
    actions == [] || (Disciplined(s, actions[0]) && DisciplinedRun(Step(s, actions[0]), actions[1..]))
  }

  predicate Sound(s: Session) {
    && Conserved(s) && s.era < TWO32
    && (forall era | era in s.started :: era <= s.era)
    && (s.input.format != 0 ==> OpenMp3(s.input))
    && (s.era in s.started || Active(s.input.state) ==> OpenMp3(s.input))
  }

  lemma StepSound(s: Session, action: Action)
    requires Sound(s) && Disciplined(s, action)
    ensures Guarded(s, action) && Sound(Step(s, action))
  {
    StepConserves(s, action);
    if action.CallBack? && action.era != s.era {
      GenerationsDiffer(s.era, action.era);
    }
  }

  lemma {:induction false} RunGuarded(s: Session, actions: seq<Action>)
    requires Sound(s) && DisciplinedRun(s, actions)
    ensures AllGuarded(s, actions)
    decreases actions
  {
    if actions != [] {
      StepSound(s, actions[0]);
      RunGuarded(Step(s, actions[0]), actions[1..]);
    }
  }

  /** Callbacks that only carry generations of a successful start are guarded, so the active states stay sound. */
  lemma ActiveImpliesOpenMp3(capacity: nat, actions: seq<Action>)
    requires DisciplinedRun(Begin(capacity), actions)
    ensures AllGuarded(Begin(capacity), actions)
    ensures var i := After(Begin(capacity), actions).input;
            Active(i.state) ==> OpenMp3(i)
  {
    RunGuarded(Begin(capacity), actions);
    ActiveExactlyWhenGuarded(capacity, actions);
    StaysFine(Begin(capacity), actions);
  }
}
