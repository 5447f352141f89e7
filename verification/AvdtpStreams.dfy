/**
 * What a listener on the channel knows: the state of the AVDTP source, and whether media flows, from the messages
 * exchanged alone.
 */
module AvdtpStreams {
  import opened Wire
  import opened AvdtpSpec
  import opened AvdtpRuns
  import opened AvdtpWalk

  /** One event on the channel: the message it completed, if any, and the packet sent on it. */
  datatype Exchange = Exchange(heard: Option<Complete>, said: seq<Byte>)

  type Log = seq<Exchange>

  function ExchangeOf(s: Source, e: Event, room: nat): Exchange {
    Exchange(if e.Arrives? then Completed(s, e.packet) else None, Step(s, e, room).written)
  }

  function LogOf(events: seq<Event>, room: nat): Log
    decreases |events|
  {
    if events == [] then []
    else LogOf(events[..|events| - 1], room) + [ExchangeOf(Run(events[..|events| - 1], room).source, events[|events| - 1], room)]
  }

  // ----- reading a log, newest exchange first

  /** The source accepts a command that has nothing to report. */
  predicate SaysAccept(packet: seq<Byte>, signal: Byte) {
    |packet| == 2 && packet[0] % 4 == MSG_ACCEPT && packet[1] == signal
  }

  /** A response to the command awaited has been heard. */
  predicate IsAnswer(awaited: Option<(Byte, Byte)>, heard: Option<Complete>) {
    && heard.Some? && IsResponse(heard.value.message)
    && awaited == Some((heard.value.transaction, heard.value.signal))
  }

  /** The label and signal of the last command sent, until it is answered or the stream closed. */
  function Awaited(log: Log): Option<(Byte, Byte)> {
    if log == [] then None
    else
      var awaited, e := Awaited(log[..|log| - 1]), log[|log| - 1];
      if IsCommand(e.said) then Some((e.said[0] / 16, e.said[1]))
      else if ClosesStream(e.said) || IsAnswer(awaited, e.heard) then None
      else awaited
  }

  /** Either side has accepted `signal`: the source in what it says, the peer in answering the command awaited. */
  predicate Accepts(awaited: Option<(Byte, Byte)>, e: Exchange, signal: Byte) {
    || SaysAccept(e.said, signal)
    || (&& IsAnswer(awaited, e.heard) && e.heard.value.message == MSG_ACCEPT
        && e.heard.value.signal == signal && e.heard.value.payload == [])
  }

  /** The last START or SUSPEND that either side accepted was a START, and nothing has closed the stream since. */
  predicate Flowing(log: Log) {
    log != [] &&
    var before, e := log[..|log| - 1], log[|log| - 1];
    if Accepts(Awaited(before), e, START) then true
    else if Accepts(Awaited(before), e, SUSPEND) || ClosesStream(e.said) then false
    else Flowing(before)
  }

  function StateSending(signal: Byte): State {
    if signal == DISCOVER then Discovering
    else if signal == GET_ALL_CAPABILITIES || signal == GET_CAPABILITIES then ReadingCapabilities
    else if signal == SET_CONFIGURATION then Configuring
    else if signal == OPEN then Opening
    else if signal == START then Starting
    else if signal == SUSPEND then Suspending
    else Idle
  }

  /** What an answer that draws no further command leaves of a state. */
  function StateAnswered(state: State, m: Complete): State {
    if m.message != MSG_ACCEPT then
      if m.signal == OPEN then Configuring
      else if m.signal == START then Open
      else if m.signal == SUSPEND then Streaming
      else if m.signal == DISCOVER || m.signal == SET_CONFIGURATION then Idle
      else state
    else if m.payload != [] then state
    else if m.signal == OPEN || m.signal == SUSPEND then Open
    else if m.signal == START then Streaming
    else state
  }

  function StateTold(log: Log): State {
    if log == [] then Idle
    else
      var before, e := log[..|log| - 1], log[|log| - 1];
      if IsCommand(e.said) then StateSending(e.said[1])
      else if ClosesStream(e.said) then Idle
      else if SaysAccept(e.said, START) then Streaming
      else if SaysAccept(e.said, SUSPEND) then Open
      else if IsAnswer(Awaited(before), e.heard) then StateAnswered(StateTold(before), e.heard.value)
      else StateTold(before)
  }

  // ----- the source is what the log tells

  predicate HasStream(state: State) {
    state == Streaming || state == Suspending
  }

  predicate Tells(log: Log, s: Source) {
    && s.state == StateTold(log)
    && Awaited(log) == (if s.pendingSignal == 0 then None else Some((s.pendingTransaction, s.pendingSignal)))
    && (HasStream(s.state) <==> Flowing(log))
  }

  lemma Grown(log: Log, e: Exchange)
    ensures var longer := log + [e]; longer != [] && longer[|longer| - 1] == e && longer[..|longer| - 1] == log
  {
  }

  lemma CommandSays(s: Source, signal: Byte, payload: seq<Byte>, room: nat)
    requires 2 + |payload| <= room
    ensures var o := Command(s, signal, payload, room);
            && o.source == Issued(s, signal) && o.result.Ok? && IsCommand(o.written)
            && o.written == Message(s.next % 16, MSG_COMMAND, signal, payload)
            && o.written[0] / 16 == s.next % 16 && o.written[1] == signal
            && !ClosesStream(o.written) && forall other :: !SaysAccept(o.written, other)
  {
  }

  /** A command goes out. */
  lemma CommandTells(log: Log, heard: Option<Complete>, s: Source, signal: Byte, payload: seq<Byte>, room: nat)
    requires 2 + |payload| <= room && signal != 0 && s.state == StateSending(signal)
    requires HasStream(s.state) <==> Flowing(log)
    requires heard.Some? ==> heard.value.signal != START && heard.value.signal != SUSPEND
    ensures var o := Command(s, signal, payload, room);
            Tells(log + [Exchange(heard, o.written)], o.source)
  {
    hide Command, IsCommand, ClosesStream, SaysAccept, StateSending;
    var o := Command(s, signal, payload, room);
    CommandSays(s, signal, payload, room);
    Grown(log, Exchange(heard, o.written));
  }

  lemma NothingSaid()
    ensures !IsCommand([]) && !ClosesStream([]) && forall signal :: !SaysAccept([], signal)
  {
  }

  /** An answer is heard and draws no command. */
  lemma AnswerTells(log: Log, m: Complete, s: Source, t: Source)
    requires Tells(log, s) && PendingFits(s) && s.pendingSignal != 0
    requires IsResponse(m.message) && Answers(s, m.transaction, m.signal)
    requires t.pendingSignal == 0 && t.state == StateAnswered(s.state, m)
    ensures Tells(log + [Exchange(Some(m), [])], t)
  {
    hide IsCommand, ClosesStream, SaysAccept;
    NothingSaid();
    Grown(log, Exchange(Some(m), []));
  }

  /** Nothing that matters is said or heard. */
  lemma NoiseTells(log: Log, e: Exchange, s: Source, t: Source)
    requires Tells(log, s)
    requires t.state == s.state && t.pendingSignal == s.pendingSignal && t.pendingTransaction == s.pendingTransaction
    requires !IsCommand(e.said) && !ClosesStream(e.said) && !SaysAccept(e.said, START) && !SaysAccept(e.said, SUSPEND)
    requires !IsAnswer(Awaited(log), e.heard)
    ensures Tells(log + [e], t)
  {
    hide IsCommand, ClosesStream, SaysAccept, IsAnswer;
    Grown(log, e);
  }

  // ----- the steps of the source

  lemma NextSinkTells(log: Log, m: Complete, s: Source, t: Source, room: nat)
    requires Tells(log, s) && PendingFits(s) && s.state == ReadingCapabilities && s.pendingSignal != 0 && room >= ROOM
    requires IsResponse(m.message) && Answers(s, m.transaction, m.signal)
    requires t.pendingSignal == 0 && t.state == s.state
    ensures var o := NextSink(t, room); Tells(log + [Exchange(Some(m), o.written)], o.source)
  {
    hide Command, Tells;
    assert HasStream(s.state) <==> Flowing(log) by { TellsFlow(log, s); }
    var moved := t.(sinkPos := t.sinkPos + 1);
    if moved.sinkPos >= |t.sinks| {
      AnswerTells(log, m, s, moved);
    } else {
      var seid := t.sinks[moved.sinkPos];
      CommandTells(log, Some(m), moved.(remoteSeid := seid, delayReporting := false, delay := 0, state := ReadingCapabilities),
                   GET_ALL_CAPABILITIES, [Shifted(seid)], room);
    }
  }

  lemma TellsFlow(log: Log, s: Source)
    requires Tells(log, s)
    ensures HasStream(s.state) <==> Flowing(log)
  {
  }

  lemma ChooseSbcTells(log: Log, m: Complete, s: Source, t: Source, room: nat)
    requires Tells(log, s) && PendingFits(s) && s.state == ReadingCapabilities && s.pendingSignal != 0 && room >= ROOM
    requires IsResponse(m.message) && Answers(s, m.transaction, m.signal)
    requires t.pendingSignal == 0 && t.state == s.state
    ensures var o := ChooseSbc(t, m.payload, room); Tells(log + [Exchange(Some(m), o.written)], o.source)
  {
    hide Command, Tells, NextSink, Found, KeptCaps, OffersDelay, Elements, Answers;
    assert HasStream(s.state) <==> Flowing(log) by { TellsFlow(log, s); }
    var (es, whole) := Elements(m.payload);
    var noted := t.(codecCaps := KeptCaps(t.codecCaps, es));
    assert m.signal == s.pendingSignal by { AnswersSignal(s, m); }
    if whole && Found(es) == None {
      NextSinkTells(log, m, s, noted, room);
    } else if whole {
      var config, delays := Found(es).value, OffersDelay(es);
      CommandTells(log, Some(m), noted.(sbc := config, delayReporting := delays, state := Configuring), SET_CONFIGURATION,
                   [Shifted(t.remoteSeid), Shifted(t.localSeid)] + Services(config, delays), room);
    } else {
      AnswerTells(log, m, s, noted);
    }
  }

  lemma AnswersSignal(s: Source, m: Complete)
    requires Answers(s, m.transaction, m.signal)
    ensures m.signal == s.pendingSignal
  {
  }

  lemma DiscoveredTells(log: Log, m: Complete, s: Source, t: Source, room: nat)
    requires Tells(log, s) && PendingFits(s) && s.state == Discovering && s.pendingSignal != 0 && room >= ROOM
    requires m.message == MSG_ACCEPT && Answers(s, m.transaction, m.signal)
    requires t.pendingSignal == 0 && t.state == s.state
    ensures var o := Discovered(t, m.payload, room); Tells(log + [Exchange(Some(m), o.written)], o.source)
  {
    hide Command, Tells, EligibleSinks, FirstEight, Overlaid;
    assert HasStream(s.state) <==> Flowing(log) by { TellsFlow(log, s); }
    var sinks := FirstEight(EligibleSinks(m.payload));
    if m.payload == [] || |m.payload| % 2 != 0 {
      AnswerTells(log, m, s, t);
    } else if sinks == [] {
      AnswerTells(log, m, s, Discovered(t, m.payload, room).source);
    } else {
      CommandTells(log, Some(m), t.(sinks := sinks, sinkPos := 0, remoteSeid := sinks[0], state := ReadingCapabilities),
                   GET_ALL_CAPABILITIES, [Shifted(sinks[0])], room);
    }
  }

  lemma AcceptTells(log: Log, m: Complete, s: Source, room: nat)
    requires Tells(log, s) && PendingFits(s) && room >= ROOM && m.message == MSG_ACCEPT
    ensures var o := Accept(s, m.transaction, m.signal, m.payload, room); Tells(log + [Exchange(Some(m), o.written)], o.source)
  {
    hide Command, Tells, Discovered, ChooseSbc;
    NothingSaid();
    var t := s.(pendingSignal := 0);
    if !Answers(s, m.transaction, m.signal) || s.pendingSignal == 0 {
      IgnoredTells(log, m, s, room);
    } else if m.signal == DISCOVER {
      DiscoveredTells(log, m, s, t, room);
    } else if m.signal == GET_ALL_CAPABILITIES || m.signal == GET_CAPABILITIES {
      ChooseSbcTells(log, m, s, t, room);
    } else if m.signal == SET_CONFIGURATION && m.payload == [] {
      TellsFlow(log, s);
      CommandTells(log, Some(m), t.(localInUse := true, state := Opening), OPEN, [Shifted(t.remoteSeid)], room);
    } else {
      AnswerTells(log, m, s, Accept(s, m.transaction, m.signal, m.payload, room).source);
    }
  }

  /** A response that answers nothing, be it that of signal 0, changes nothing a listener follows. */
  lemma IgnoredTells(log: Log, m: Complete, s: Source, room: nat)
    requires Tells(log, s) && IsResponse(m.message)
    requires !Answers(s, m.transaction, m.signal) || s.pendingSignal == 0
    ensures var o := Dispatch(s, m.transaction, m.message, m.signal, m.payload, room);
            Tells(log + [Exchange(Some(m), o.written)], o.source)
  {
    hide Accept, Reject, IsCommand, ClosesStream, SaysAccept, Dispatch;
    NothingSaid();
    var o := Dispatch(s, m.transaction, m.message, m.signal, m.payload, room);
    ResponsesIgnoredExactly(s, m.transaction, m.message, m.signal, m.payload, room);
    if Answers(s, m.transaction, m.signal) {
      SignalZero(s, m.transaction, m.message, m.payload, room);
    }
    NoiseTells(log, Exchange(Some(m), o.written), s, o.source);
  }

  lemma RejectTells(log: Log, m: Complete, s: Source, room: nat)
    requires Tells(log, s) && PendingFits(s) && room >= ROOM && (m.message == MSG_REJECT || m.message == MSG_GENERAL_REJECT)
    ensures var o := Reject(s, m.transaction, m.signal, m.payload, room); Tells(log + [Exchange(Some(m), o.written)], o.source)
  {
    hide Command, Tells, NextSink;
    var code := if m.payload == [] then 0 else m.payload[|m.payload| - 1];
    var t := s.(pendingSignal := 0, lastReject := (m.signal, code));
    if !Answers(s, m.transaction, m.signal) || s.pendingSignal == 0 {
      IgnoredTells(log, m, s, room);
    } else if m.signal == GET_ALL_CAPABILITIES {
      TellsFlow(log, s);
      CommandTells(log, Some(m), t, GET_CAPABILITIES, [Shifted(t.remoteSeid)], room);
    } else if m.signal == GET_CAPABILITIES {
      NextSinkTells(log, m, s, t, room);
    } else {
      AnswerTells(log, m, s, Reject(s, m.transaction, m.signal, m.payload, room).source);
    }
  }

  /** How a command of the peer moves the stream, told by what is said to it. */
  lemma RemoteMoves(s: Source, transaction: Byte, signal: Byte, payload: seq<Byte>, room: nat)
    ensures var o := RemoteCommand(s, transaction, signal, payload, room);
            && !IsCommand(o.written)
            && o.source == (if SaysAccept(o.written, START) then s.(state := Streaming)
                            else if SaysAccept(o.written, SUSPEND) then s.(state := Open)
                            else if ClosesStream(o.written) then Closed(s)
                            else s.(delay := o.source.delay))
            && (SaysAccept(o.written, START) ==> s.state == Open)
            && (SaysAccept(o.written, SUSPEND) ==> s.state == Streaming)
  {
    hide Respond, Services, NamesLocal, IsCommand, ClosesStream, SaysAccept;
    NothingSaid();
    ResponseSays(transaction, signal);
    assert s == s.(delay := s.delay);
  }

  /** What a response in `o` is heard as. */
  ghost predicate SaysResponse(s: Source, signal: Byte, message: Byte, payload: seq<Byte>, o: Outcome) {
    && o.source == s && !IsCommand(o.written)
    && (forall other :: SaysAccept(o.written, other) <==>
          message == MSG_ACCEPT && other == signal && payload == [] && o.result.Ok?)
    && (ClosesStream(o.written) <==> message == MSG_ACCEPT && (signal == CLOSE || signal == ABORT) && payload == [] && o.result.Ok?)
  }

  lemma MessageKind(transaction: Byte, message: Byte)
    requires message < 4
    ensures (transaction * 16 % 256 + message) % 256 % 4 == message
  {
  }

  lemma ResponseSays(transaction: Byte, signal: Byte)
    ensures forall s: Source, message: Byte, payload: seq<Byte>, room: nat
              {:trigger Respond(s, transaction, signal, message, payload, room)} ::
              0 < message < 4 ==> SaysResponse(s, signal, message, payload, Respond(s, transaction, signal, message, payload, room))
  {
    forall s: Source, message: Byte, payload: seq<Byte>, room: nat
      {:trigger Respond(s, transaction, signal, message, payload, room)} | 0 < message < 4
      ensures SaysResponse(s, signal, message, payload, Respond(s, transaction, signal, message, payload, room))
    {
      MessageKind(transaction, message);
    }
  }

  lemma RemoteTells(log: Log, m: Complete, s: Source, room: nat)
    requires Tells(log, s) && m.message == MSG_COMMAND
    ensures var o := RemoteCommand(s, m.transaction, m.signal, m.payload, room);
            Tells(log + [Exchange(Some(m), o.written)], o.source)
  {
    hide RemoteCommand, IsCommand, SaysAccept, ClosesStream;
    RemoteMoves(s, m.transaction, m.signal, m.payload, room);
    var o := RemoteCommand(s, m.transaction, m.signal, m.payload, room);
    SaysOne(o.written);
    Grown(log, Exchange(Some(m), o.written));
  }

  lemma SaysOne(packet: seq<Byte>)
    ensures SaysAccept(packet, START) ==> !SaysAccept(packet, SUSPEND) && !ClosesStream(packet)
    ensures SaysAccept(packet, SUSPEND) ==> !ClosesStream(packet)
  {
  }

  lemma DispatchTells(log: Log, m: Complete, s: Source, room: nat)
    requires Tells(log, s) && PendingFits(s) && room >= ROOM && m.message < 4
    ensures var o := Dispatch(s, m.transaction, m.message, m.signal, m.payload, room);
            Tells(log + [Exchange(Some(m), o.written)], o.source)
  {
    hide Accept, Reject, RemoteCommand, Tells, PendingFits;
    if m.message == MSG_ACCEPT {
      AcceptTells(log, m, s, room);
    } else if m.message == MSG_COMMAND {
      RemoteTells(log, m, s, room);
    } else {
      RejectTells(log, m, s, room);
    }
  }

  /** A command of the source's own, after which it enters the state that waits for the answer. */
  lemma OwnCommandTells(log: Log, s: Source, signal: Byte, payload: seq<Byte>, room: nat)
    requires 2 + |payload| <= room && signal != 0
    requires HasStream(StateSending(signal)) <==> Flowing(log)
    ensures var o := Command(s, signal, payload, room);
            && o.result.Ok?
            && forall linked :: Tells(log + [Exchange(None, o.written)], o.source.(state := StateSending(signal), linked := linked))
  {
    hide Command, IsCommand, ClosesStream, SaysAccept, StateSending, Message, Awaited, Flowing, StateTold;
    var t := s.(state := StateSending(signal));
    CommandSays(s, signal, payload, room);
    CommandSays(t, signal, payload, room);
    CommandTells(log, None, t, signal, payload, room);
  }

  lemma OwnStepTells(log: Log, s: Source, e: Event, room: nat)
    requires Tells(log, s) && PendingFits(s) && room >= ROOM && !e.Arrives?
    requires !s.linked ==> s.state == Idle && s.pendingSignal == 0
    ensures var o := Step(s, e, room); Tells(log + [Exchange(None, o.written)], o.source)
  {
    hide Command, Tells, Flowing;
    NothingSaid();
    TellsFlow(log, s);
    var o := Step(s, e, room);
    if e.Connect? && !s.linked {
      OwnCommandTells(log, s, DISCOVER, [], room);
    } else if e.StartStream? && o != Outcome(s, Err(StateError), []) {
      OwnCommandTells(log, s, START, [Shifted(s.remoteSeid)], room);
    } else if e.SuspendStream? && o != Outcome(s, Err(StateError), []) {
      OwnCommandTells(log, s, SUSPEND, [Shifted(s.remoteSeid)], room);
    } else {
      NoiseTells(log, Exchange(None, o.written), s, o.source);
    }
  }

  lemma StepTells(log: Log, h: History, e: Event, room: nat)
    requires Inv(h) && Tells(log, h.source) && room >= ROOM
    ensures Tells(log + [ExchangeOf(h.source, e, room)], Step(h.source, e, room).source)
  {
    hide Receive, Dispatch, Tells, Labelled, Negotiated, SinksListed, Completed;
    var s, x := h.source, ExchangeOf(h.source, e, room);
    if !e.Arrives? {
      OwnStepTells(log, s, e, room);
    } else {
      ReceiveCompletes(s, e.packet, room);
      var o := Receive(s, e.packet, room);
      if x.heard == None {
        NothingSaid();
        NoiseTells(log, x, s, o.source);
      } else {
        TellsApart(log, s);
        DispatchTells(log, x.heard.value, s.(assembly := NO_ASSEMBLY), room);
      }
    }
  }

  lemma TellsApart(log: Log, s: Source)
    requires Tells(log, s)
    ensures Tells(log, s.(assembly := NO_ASSEMBLY))
  {
  }

  lemma {:induction false} RunTells(events: seq<Event>, room: nat)
    requires room >= ROOM
    ensures Tells(LogOf(events, room), Run(events, room).source)
    decreases |events|
  {
    hide Step, Inv, ExchangeOf;
    if events != [] {
      var before := events[..|events| - 1];
      RunsKeep(before, room);
      RunTells(before, room);
      StepTells(LogOf(before, room), Run(before, room), events[|events| - 1], room);
    }
  }

  // ----- main results

  /**
   * After every run the source streams, or is about to suspend, exactly if the last START or SUSPEND that either side
   * accepted was a START and nothing has closed the stream since.
   */
  lemma StreamsExactlyWhenFlowing(events: seq<Event>, room: nat)
    requires room >= ROOM
    ensures var s := Run(events, room).source;
            s.state == Streaming || s.state == Suspending <==> Flowing(LogOf(events, room))
  {
    RunTells(events, room);
  }

  /** The messages exchanged determine the state, and which command is pending, after every run. */
  lemma StateIsTold(events: seq<Event>, room: nat)
    requires room >= ROOM
    ensures var s, log := Run(events, room).source, LogOf(events, room);
            && s.state == StateTold(log)
            && (s.pendingSignal == 0 <==> Awaited(log) == None)
            && (s.pendingSignal != 0 ==> Awaited(log) == Some((s.pendingTransaction, s.pendingSignal)))
  {
    RunTells(events, room);
  }

  /** When a close is accepted, or finding a sink is refused for good, nothing of the stream is left. */
  predicate Released(s: Source) {
    s.state == Idle && s.remoteSeid == 0 && !s.localInUse && !s.delayReporting && s.delay == 0 && s.pendingSignal == 0
  }

  lemma RemoteReleases(s: Source, transaction: Byte, signal: Byte, payload: seq<Byte>, room: nat)
    requires ClosesStream(RemoteCommand(s, transaction, signal, payload, room).written)
    ensures Released(RemoteCommand(s, transaction, signal, payload, room).source)
    ensures !RemoteCommand(s, transaction, signal, payload, room).source.mediaConnected
  {
    hide RemoteCommand, IsCommand;
    RemoteEffect(s, transaction, signal, payload, room);
  }

  /** A message releases the stream if it closes it, or if it refuses the DISCOVER or SET_CONFIGURATION awaited. */
  lemma StreamIsReleased(s: Source, m: Complete, room: nat)
    requires PendingFits(s) && m.message < 4
    ensures var o := Dispatch(s, m.transaction, m.message, m.signal, m.payload, room);
            && (ClosesStream(o.written) ==> Released(o.source) && !o.source.mediaConnected)
            && (IsResponse(m.message) && m.message != MSG_ACCEPT && s.pendingSignal != 0 && Answers(s, m.transaction, m.signal)
                && (m.signal == DISCOVER || m.signal == SET_CONFIGURATION) ==>
                  && Released(o.source) && o.source.sbc == NO_SBC && o.written == []
                  && o.result == Err(Refused(if m.payload == [] then 0 else m.payload[|m.payload| - 1])))
  {
    hide RemoteCommand, Accept, Command, NextSink;
    if m.message == MSG_COMMAND {
      if ClosesStream(RemoteCommand(s, m.transaction, m.signal, m.payload, room).written) {
        RemoteReleases(s, m.transaction, m.signal, m.payload, room);
      }
    } else {
      hide Reject, ClosesStream;
      ResponsesDoNotClose(s, m, room);
      RefusalReleases(s, m, room);
    }
  }

  lemma ResponsesDoNotClose(s: Source, m: Complete, room: nat)
    requires IsResponse(m.message)
    ensures !ClosesStream(Dispatch(s, m.transaction, m.message, m.signal, m.payload, room).written)
  {
    hide Accept, Reject, IsCommand;
    AcceptSendsCommands(s, m.transaction, m.signal, m.payload, room);
    RejectSendsCommands(s, m.transaction, m.signal, m.payload, room);
    CommandsDoNotClose(Dispatch(s, m.transaction, m.message, m.signal, m.payload, room).written);
  }

  lemma CommandsDoNotClose(packet: seq<Byte>)
    requires packet == [] || IsCommand(packet)
    ensures !ClosesStream(packet)
  {
  }

  lemma RefusalReleases(s: Source, m: Complete, room: nat)
    requires m.message == MSG_REJECT || m.message == MSG_GENERAL_REJECT || m.message == MSG_ACCEPT
    ensures var o := Reject(s, m.transaction, m.signal, m.payload, room);
            m.message != MSG_ACCEPT && Answers(s, m.transaction, m.signal) && (m.signal == DISCOVER || m.signal == SET_CONFIGURATION) ==>
              && Released(o.source) && o.source.sbc == NO_SBC && o.written == []
              && o.result == Err(Refused(if m.payload == [] then 0 else m.payload[|m.payload| - 1]))
  {
    hide Command, NextSink;
  }

  // ----- a refused START or SUSPEND

  /** Waiting for the peer to answer a START or a SUSPEND. */
  predicate Underway(s: Source) {
    (s.state == Starting || s.state == Suspending) && s.pendingSignal != 0
  }

  /** Until something answers or closes it, nothing about the stream changes but its delay and its media channel. */
  lemma WaitingStep(h: History, e: Event, room: nat)
    requires Inv(h) && Underway(h.source)
    ensures var o := Step(h.source, e, room);
            o.source.pendingSignal == 0 || Bystanding(h.source, o.source)
  {
    hide Receive, Dispatch, Labelled, Negotiated, SinksListed, Completed, IsCommand;
    var s := h.source;
    if e.Arrives? {
      ReceiveCompletes(s, e.packet, room);
      if Completed(s, e.packet).Some? {
        WaitingHears(s.(assembly := NO_ASSEMBLY), Completed(s, e.packet).value, room);
      }
    }
  }

  lemma WaitingHears(s: Source, m: Complete, room: nat)
    requires Underway(s) && PendingFits(s) && m.message < 4
    ensures var o := Dispatch(s, m.transaction, m.message, m.signal, m.payload, room);
            o.source.pendingSignal == 0 || Bystanding(s, o.source)
  {
    hide RemoteCommand, Accept, Reject, IsCommand, ClosesStream;
    if m.message == MSG_COMMAND {
      RemoteEffect(s, m.transaction, m.signal, m.payload, room);
    } else if Answers(s, m.transaction, m.signal) {
      AnswerEndsWaiting(s, m, room);
    } else {
      ResponsesIgnoredExactly(s, m.transaction, m.message, m.signal, m.payload, room);
    }
  }

  lemma AnswerEndsWaiting(s: Source, m: Complete, room: nat)
    requires Underway(s) && PendingFits(s) && IsResponse(m.message) && Answers(s, m.transaction, m.signal)
    ensures Dispatch(s, m.transaction, m.message, m.signal, m.payload, room).source.pendingSignal == 0
  {
    hide RemoteCommand, Discovered, ChooseSbc, Command, NextSink;
  }

  lemma RunOneMore(events: seq<Event>, e: Event, room: nat)
    ensures var h := Run(events, room);
            var o := Step(h.source, e, room);
            var h' := Run(events + [e], room);
            && h' == Noted(h, o) && h'.source == o.source
            && |h'.commands| == |h.commands| + (if IsCommand(o.written) then 1 else 0)
            && LogOf(events + [e], room) == LogOf(events, room) + [ExchangeOf(h.source, e, room)]
  {
    hide Step;
    assert (events + [e])[..|events|] == events;
  }

  /** Where nothing is pending, nothing is after a step that sends nothing. */
  lemma NothingPendingStays(events: seq<Event>, e: Event, room: nat)
    requires room >= ROOM && Run(events, room).source.pendingSignal == 0
    ensures var o := Step(Run(events, room).source, e, room); IsCommand(o.written) || o.source.pendingSignal == 0
  {
    hide Step, IsCommand, Run, LogOf, IsAnswer, ClosesStream, StateTold, Flowing;
    RunTells(events, room);
    RunTells(events + [e], room);
    RunOneMore(events, e, room);
    Grown(LogOf(events, room), ExchangeOf(Run(events, room).source, e, room));
  }

  lemma {:induction false} CommandsGrow(events: seq<Event>, more: seq<Event>, room: nat)
    ensures |Run(events, room).commands| <= |Run(events + more, room).commands|
    decreases |more|
  {
    hide Run, Step, IsCommand;
    if more == [] {
      assert events + more == events;
    } else {
      var init := more[..|more| - 1];
      CommandsGrow(events, init, room);
      RunOneMore(events + init, more[|more| - 1], room);
      assert events + more == (events + init) + [more[|more| - 1]];
    }
  }

  lemma {:induction false} StillWaiting(events: seq<Event>, more: seq<Event>, room: nat)
    requires room >= ROOM && Underway(Run(events, room).source)
    requires |Run(events + more, room).commands| == |Run(events, room).commands|
    requires Run(events + more, room).source.pendingSignal != 0
    ensures Bystanding(Run(events, room).source, Run(events + more, room).source)
    decreases |more|
  {
    hide Step, Run, Inv, IsCommand;
    if more == [] {
      assert events + more == events;
    } else {
      var init, e := more[..|more| - 1], more[|more| - 1];
      assert events + more == (events + init) + [e];
      CommandsGrow(events, init, room);
      RunOneMore(events + init, e, room);
      if Run(events + init, room).source.pendingSignal == 0 {
        NothingPendingStays(events + init, e, room);
      }
      StillWaiting(events, init, room);
      RunsKeep(events + init, room);
      WaitingStep(Run(events + init, room), e, room);
    }
  }

  /** The packet completes a refusal of the command that was sent under that label with `signal`. */
  predicate Refuses(s: Source, packet: seq<Byte>, transaction: Byte, signal: Byte) {
    && Completed(s, packet).Some?
    && var m := Completed(s, packet).value;
       (m.message == MSG_REJECT || m.message == MSG_GENERAL_REJECT) && m.transaction == transaction && m.signal == signal
  }

  /** What a command to start or suspend found of the stream. */
  predicate SameStream(s: Source, t: Source) {
    && t.state == s.state && t.remoteSeid == s.remoteSeid && t.localSeid == s.localSeid && t.sbc == s.sbc
    && t.localInUse == s.localInUse && t.delayReporting == s.delayReporting && t.linked == s.linked
    && t.sinks == s.sinks && t.sinkPos == s.sinkPos && t.pendingSignal == s.pendingSignal
  }

  lemma RequestWaits(s: Source, e: Event, room: nat)
    requires e.StartStream? || e.SuspendStream?
    requires Step(s, e, room).result.Ok?
    ensures var t := Step(s, e, room).source;
            && Underway(t) && t.pendingSignal == (if e.StartStream? then START else SUSPEND)
            && s.pendingSignal == 0 && s.state == (if e.StartStream? then Open else Streaming)
            && SameStream(s, t.(state := s.state, pendingSignal := 0))
            && t.state == (if e.StartStream? then Starting else Suspending)
  {
  }

  lemma RefusalOfRequest(s: Source, packet: seq<Byte>, room: nat)
    requires s.linked && (s.assembly.active || s.assembly == NO_ASSEMBLY)
    requires (s.state == Starting && s.pendingSignal == START) || (s.state == Suspending && s.pendingSignal == SUSPEND)
    requires Refuses(s, packet, s.pendingTransaction, s.pendingSignal)
    ensures var o := Receive(s, packet, room);
            && o.result == Ok(0) && o.written == []
            && o.source == s.(assembly := NO_ASSEMBLY, pendingSignal := 0, lastReject := o.source.lastReject,
                              state := if s.state == Starting then Open else Streaming)
  {
    hide Receive, Completed;
    ReceiveCompletes(s, packet, room);
  }

  /**
   * After a request to start or suspend, whatever arrives while it waits: a refusal under its label, reject or general
   * reject and with any payload, undoes it. The stream is what the request found, and the same request may be made again.
   */
  lemma RefusalUndoes(events: seq<Event>, request: Event, meanwhile: seq<Event>, packet: seq<Byte>, room: nat)
    requires room >= ROOM && (request.StartStream? || request.SuspendStream?)
    ensures var s := Run(events, room).source;
            var asked := Run(events + [request], room);
            var waiting := Run(events + [request] + meanwhile, room);
            && Step(s, request, room).result.Ok?
            && |waiting.commands| == |asked.commands| && waiting.source.pendingSignal != 0
            && Refuses(waiting.source, packet, asked.source.pendingTransaction, asked.source.pendingSignal)
            ==> var o := Receive(waiting.source, packet, room);
                o.result == Ok(0) && SameStream(s, o.source) && Step(o.source, request, room).result.Ok?
  {
    hide Step, Run, Receive, Inv, Completed;
    var s := Run(events, room).source;
    var asked, waiting := Run(events + [request], room), Run(events + [request] + meanwhile, room);
    RunOneMore(events, request, room);
    if && Step(s, request, room).result.Ok?
       && |waiting.commands| == |asked.commands| && waiting.source.pendingSignal != 0
       && Refuses(waiting.source, packet, asked.source.pendingTransaction, asked.source.pendingSignal) {
      RequestWaits(s, request, room);
      StillWaiting(events + [request], meanwhile, room);
      RunsKeep(events + [request] + meanwhile, room);
      AssemblySettled(waiting);
      RefusalOfRequest(waiting.source, packet, room);
      MayAskAgain(s, Receive(waiting.source, packet, room).source, request, room);
    }
  }

  lemma AssemblySettled(h: History)
    requires Inv(h) && h.source.pendingSignal != 0
    ensures h.source.linked && (h.source.assembly.active || h.source.assembly == NO_ASSEMBLY)
  {
  }

  lemma MayAskAgain(s: Source, t: Source, request: Event, room: nat)
    requires room >= ROOM && (request.StartStream? || request.SuspendStream?)
    requires Step(s, request, room).result.Ok? && SameStream(s, t)
    ensures Step(t, request, room).result.Ok?
  {
  }
}
