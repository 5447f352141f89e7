/** What holds of the AVDTP source after every run, against any peer. */
module AvdtpRuns {
  import opened Wire
  import opened AvdtpSpec
  import Fragments = AvdtpFragments

  datatype Event =
    | Connect
    | StartStream
    | SuspendStream
    | Arrives(packet: seq<Byte>)
    | MediaChannel(up: bool)

  function Step(s: Source, e: Event, room: nat): Outcome {
    match e
    case Connect => Connected(s, room)
    case StartStream => Started(s, room)
    case SuspendStream => Suspended(s, room)
    case Arrives(packet) => Receive(s, packet, room)
    case MediaChannel(up) => Outcome(s.(mediaConnected := up), Ok(0), [])
  }

  /** The source, the signal of every command it has sent, and the services of its last SET_CONFIGURATION. */
  datatype History = History(source: Source, commands: seq<Byte>, configured: seq<Byte>)

  predicate IsCommand(packet: seq<Byte>) {
    |packet| >= 2 && packet[0] % 4 == MSG_COMMAND
  }

  function Noted(h: History, o: Outcome): History {
    if !IsCommand(o.written) then h.(source := o.source)
    else History(o.source, h.commands + [o.written[1]],
                 if o.written[1] == SET_CONFIGURATION && |o.written| >= 4 then o.written[4..] else h.configured)
  }

  function Run(events: seq<Event>, room: nat): History
    decreases |events|
  {
    if events == [] then History(New, [], [])
    else
      var before := Run(events[..|events| - 1], room);
      Noted(before, Step(before.source, events[|events| - 1], room))
  }

  // ----- the invariant

  /** The signal of the pending command is the one the state waits on. */
  predicate PendingFits(s: Source) {
    s.pendingSignal != 0 ==>
      match s.state
      case Discovering => s.pendingSignal == DISCOVER
      case ReadingCapabilities => s.pendingSignal == GET_ALL_CAPABILITIES || s.pendingSignal == GET_CAPABILITIES
      case Configuring => s.pendingSignal == SET_CONFIGURATION
      case Opening => s.pendingSignal == OPEN
      case Starting => s.pendingSignal == START
      case Suspending => s.pendingSignal == SUSPEND
      case _ => false
  }

  predicate StreamSetUp(state: State) {
    state == Opening || state == Open || state == Starting || state == Streaming || state == Suspending
  }

  predicate ValidSbc(c: Sbc) {
    && (c.frequencyChannel == 0x21 || c.frequencyChannel == 0x22) && c.shape == 0x15
    && MIN_BITPOOL <= c.minimum <= c.maximum <= PREFERRED_MAX_BITPOOL
  }

  predicate SinksListed(s: Source) {
    && |s.sinks| <= MAX_SINKS && (forall k | 0 <= k < |s.sinks| :: 0 < s.sinks[k] <= 0x3e)
    && (s.state == ReadingCapabilities && s.pendingSignal != 0 ==>
          s.sinkPos < |s.sinks| && s.remoteSeid == s.sinks[s.sinkPos])
  }

  /** From SET_CONFIGURATION on, a discovered sink is configured for SBC as the last one sent says. */
  predicate Negotiated(h: History) {
    var s := h.source;
    && (s.state == Configuring || StreamSetUp(s.state) ==>
          s.remoteSeid in s.sinks && ValidSbc(s.sbc) && h.configured == Services(s.sbc, s.delayReporting))
    && (StreamSetUp(s.state) ==> s.localInUse)
    && (s.localInUse ==> s.state == Configuring || StreamSetUp(s.state))
  }

  /** Labels count the commands modulo sixteen, and only the last command can be pending. */
  predicate Labelled(h: History) {
    var s, n := h.source, |h.commands|;
    && s.next == n % 16 && s.linked == (n > 0)
    && (forall k | 0 <= k < n :: 0 < h.commands[k] < 0x40)
    && (n > 0 ==> s.pendingTransaction == (n - 1) % 16)
    && (s.pendingSignal != 0 ==> n > 0 && s.pendingSignal == h.commands[n - 1])
  }

  predicate Settled(s: Source) {
    && s.localSeid == 1
    && (!s.linked ==> s.state == Idle && s.pendingSignal == 0)
    && (s.assembly.active || s.assembly == NO_ASSEMBLY)
  }

  predicate Inv(h: History) {
    PendingFits(h.source) && SinksListed(h.source) && Negotiated(h) && Labelled(h) && Settled(h.source)
  }

  // ----- how commands and responses are noted

  /** A source that has just sent `signal` under the next label. */
  function Issued(s: Source, signal: Byte): Source {
    s.(next := (s.next % 16 + 1) % 16, pendingTransaction := s.next % 16, pendingSignal := signal)
  }

  function Sent(h: History, s: Source, signal: Byte, payload: seq<Byte>): History {
    History(Issued(s, signal), h.commands + [signal],
            if signal == SET_CONFIGURATION && |payload| >= 2 then payload[2..] else h.configured)
  }

  lemma CommandNoted(h: History, s: Source, signal: Byte, payload: seq<Byte>, room: nat)
    requires 2 + |payload| <= room
    ensures var o := Command(s, signal, payload, room);
            o.source == Issued(s, signal) && o.result.Ok? && IsCommand(o.written) && Noted(h, o) == Sent(h, s, signal, payload)
  {
    var o := Command(s, signal, payload, room);
    assert o.written[2..] == payload;
    if |payload| >= 2 {
      assert o.written[4..] == payload[2..];
    }
  }

  /** The source changes in `s` on answering its pending command; sending the next one keeps the labels in step. */
  lemma SentLabelled(h: History, s: Source, signal: Byte, payload: seq<Byte>)
    requires Labelled(h) && s.next == h.source.next && s.linked && 0 < signal < 0x40
    ensures Labelled(Sent(h, s, signal, payload))
  {
    var n := |h.commands|;
    assert (n % 16 + 1) % 16 == (n + 1) % 16;
  }

  /** The answer that accepts a CLOSE or an ABORT. */
  predicate ClosesStream(packet: seq<Byte>) {
    |packet| == 2 && packet[0] % 4 == MSG_ACCEPT && (packet[1] == CLOSE || packet[1] == ABORT)
  }

  // ----- every step keeps it

  lemma FoundIsValid(es: seq<Element>)
    ensures Found(es).Some? ==> ValidSbc(Found(es).value)
  {
  }

  lemma SinksAreSeids(payload: seq<Byte>)
    ensures forall k | 0 <= k < |EligibleSinks(payload)| :: 0 < EligibleSinks(payload)[k] <= 0x3e
  {
  }

  /** The states a source can be in when it goes on from an answer: nothing pending, labels as before. */
  predicate Answered(h: History, s: Source) {
    s == h.source.(pendingSignal := 0, codecCaps := s.codecCaps, lastReject := s.lastReject) && s.linked
  }

  lemma NextSinkKeeps(h: History, s: Source, room: nat)
    requires Inv(h) && h.source.state == ReadingCapabilities && Answered(h, s) && room >= ROOM
    ensures Inv(Noted(h, NextSink(s, room)))
  {
    hide Command, Labelled;
    var moved := s.(sinkPos := s.sinkPos + 1);
    if moved.sinkPos >= |s.sinks| {
      QuietKeepsLabels(h, moved);
    } else {
      var seid := s.sinks[moved.sinkPos];
      var t := moved.(remoteSeid := seid, delayReporting := false, delay := 0, state := ReadingCapabilities);
      CommandNoted(h, t, GET_ALL_CAPABILITIES, [Shifted(seid)], room);
      SentLabelled(h, t, GET_ALL_CAPABILITIES, [Shifted(seid)]);
    }
  }

  lemma ChooseSbcKeeps(h: History, s: Source, payload: seq<Byte>, room: nat)
    requires Inv(h) && h.source.state == ReadingCapabilities && h.source.pendingSignal != 0 && Answered(h, s) && room >= ROOM
    ensures Inv(Noted(h, ChooseSbc(s, payload, room)))
  {
    hide Command, NextSink, Found, KeptCaps, OffersDelay, Elements, Labelled;
    var (es, whole) := Elements(payload);
    var noted := s.(codecCaps := KeptCaps(s.codecCaps, es));
    FoundIsValid(es);
    if whole && Found(es) == None {
      NextSinkKeeps(h, noted, room);
    } else if whole {
      var services := Services(Found(es).value, OffersDelay(es));
      var sent := [Shifted(s.remoteSeid), Shifted(s.localSeid)] + services;
      assert sent[2..] == services;
      var t := noted.(sbc := Found(es).value, delayReporting := OffersDelay(es), state := Configuring);
      CommandNoted(h, t, SET_CONFIGURATION, sent, room);
      SentLabelled(h, t, SET_CONFIGURATION, sent);
    } else {
      QuietKeepsLabels(h, noted);
    }
  }

  lemma QuietKeepsLabels(h: History, s: Source)
    requires Labelled(h) && s.linked == h.source.linked
    requires s.next == h.source.next && s.pendingTransaction == h.source.pendingTransaction && s.pendingSignal == 0
    ensures Labelled(h.(source := s))
  {
  }

  lemma DiscoveredKeeps(h: History, s: Source, payload: seq<Byte>, room: nat)
    requires Inv(h) && h.source.state == Discovering && Answered(h, s) && room >= ROOM
    ensures Inv(Noted(h, Discovered(s, payload, room)))
  {
    hide Command, EligibleSinks, Overlaid, Labelled;
    SinksAreSeids(payload);
    var sinks := FirstEight(EligibleSinks(payload));
    if payload == [] || |payload| % 2 != 0 {
      QuietKeepsLabels(h, s);
    } else if sinks == [] {
      QuietKeepsLabels(h, Discovered(s, payload, room).source);
    } else {
      var t := s.(sinks := sinks, sinkPos := 0, remoteSeid := sinks[0], state := ReadingCapabilities);
      CommandNoted(h, t, GET_ALL_CAPABILITIES, [Shifted(sinks[0])], room);
      SentLabelled(h, t, GET_ALL_CAPABILITIES, [Shifted(sinks[0])]);
    }
  }

  lemma ConfiguredKeeps(h: History, s: Source, room: nat)
    requires Inv(h) && h.source.state == Configuring && Answered(h, s) && room >= ROOM
    ensures Inv(Noted(h, Command(s.(localInUse := true, state := Opening), OPEN, [Shifted(s.remoteSeid)], room)))
  {
    hide Command, Labelled;
    var t := s.(localInUse := true, state := Opening);
    CommandNoted(h, t, OPEN, [Shifted(s.remoteSeid)], room);
    SentLabelled(h, t, OPEN, [Shifted(s.remoteSeid)]);
  }

  /** Steps that end with no packet and leave the stream as it was or in another state of its own. */
  lemma QuietKeeps(h: History, s: Source, result: Result<nat, Error>)
    requires Inv(h)
    requires s == h.source.(pendingSignal := 0, lastReject := s.lastReject, state := s.state) && (!s.linked ==> s.state == Idle)
    requires s.state == h.source.state || (StreamSetUp(h.source.state) && (StreamSetUp(s.state) || s.state == Configuring))
    ensures Inv(Noted(h, Outcome(s, result, [])))
  {
    hide Labelled;
    QuietKeepsLabels(h, s);
  }

  lemma AcceptKeeps(h: History, transaction: Byte, signal: Byte, payload: seq<Byte>, room: nat)
    requires Inv(h) && h.source.linked && room >= ROOM
    ensures Inv(Noted(h, Accept(h.source, transaction, signal, payload, room)))
  {
    hide Command, Discovered, ChooseSbc, Labelled, Negotiated, SinksListed;
    var s := h.source;
    var t := s.(pendingSignal := 0);
    if !Answers(s, transaction, signal) {
      Unchanged(h, Ok(0));
    } else if signal == DISCOVER {
      DiscoveredKeeps(h, t, payload, room);
    } else if signal == GET_ALL_CAPABILITIES || signal == GET_CAPABILITIES {
      ChooseSbcKeeps(h, t, payload, room);
    } else if signal == SET_CONFIGURATION && payload == [] {
      ConfiguredKeeps(h, t, room);
    } else {
      var o := Accept(s, transaction, signal, payload, room);
      QuietKeeps(h, o.source, o.result);
    }
  }

  lemma Unchanged(h: History, result: Result<nat, Error>)
    requires Inv(h)
    ensures Inv(Noted(h, Outcome(h.source, result, [])))
  {
    assert h.(source := h.source) == h;
  }

  lemma AbandonedKeeps(h: History, s: Source, result: Result<nat, Error>)
    requires Inv(h) && Answered(h, s)
    ensures Inv(Noted(h, Outcome(Abandoned(s), result, [])))
  {
    hide Labelled;
    QuietKeepsLabels(h, Abandoned(s));
  }

  lemma RejectKeeps(h: History, transaction: Byte, signal: Byte, payload: seq<Byte>, room: nat)
    requires Inv(h) && h.source.linked && room >= ROOM
    ensures Inv(Noted(h, Reject(h.source, transaction, signal, payload, room)))
  {
    hide Command, NextSink, Labelled, Negotiated, SinksListed, Abandoned;
    var s := h.source;
    var code := if payload == [] then 0 else payload[|payload| - 1];
    var t := s.(pendingSignal := 0, lastReject := (signal, code));
    if !Answers(s, transaction, signal) {
      Unchanged(h, Ok(0));
    } else if signal == GET_ALL_CAPABILITIES {
      AskAgainKeeps(h, t, room);
    } else if signal == GET_CAPABILITIES {
      NextSinkKeeps(h, t, room);
    } else if signal == DISCOVER || signal == SET_CONFIGURATION {
      AbandonedKeeps(h, t, Err(Refused(code)));
    } else {
      var o := Reject(s, transaction, signal, payload, room);
      QuietKeeps(h, o.source, o.result);
    }
  }

  lemma AskAgainKeeps(h: History, s: Source, room: nat)
    requires Inv(h) && h.source.state == ReadingCapabilities && h.source.pendingSignal != 0 && Answered(h, s) && room >= ROOM
    ensures Inv(Noted(h, Command(s, GET_CAPABILITIES, [Shifted(s.remoteSeid)], room)))
  {
    hide Command, Labelled;
    CommandNoted(h, s, GET_CAPABILITIES, [Shifted(s.remoteSeid)], room);
    SentLabelled(h, s, GET_CAPABILITIES, [Shifted(s.remoteSeid)]);
  }

  /** A command of the peer moves a set-up stream, closes it, or only notes a delay; the source answers, never commands. */
  lemma RemoteEffect(s: Source, transaction: Byte, signal: Byte, payload: seq<Byte>, room: nat)
    ensures var o := RemoteCommand(s, transaction, signal, payload, room);
            && !IsCommand(o.written)
            && (ClosesStream(o.written) ==> o.source == Closed(s))
            && (|| o.source == s.(delay := o.source.delay)
                || (s.state == Open && o.source == s.(state := Streaming))
                || (s.state == Streaming && o.source == s.(state := Open))
                || ((signal == CLOSE || signal == ABORT) && NamesLocal(s, payload) && o.source == Closed(s)))
  {
    hide Respond, Services, NamesLocal, IsCommand, ClosesStream;
    assert !IsCommand([]) && !ClosesStream([]) by { NothingWritten(); }
    RespondsOnly();
  }

  lemma NothingWritten()
    ensures !IsCommand([]) && !ClosesStream([])
  {
  }

  lemma RespondsOnly()
    ensures forall s: Source, transaction: Byte, signal: Byte, message: Byte, payload: seq<Byte>, room: nat
              {:trigger Respond(s, transaction, signal, message, payload, room)} ::
              0 < message < 4 ==>
                var o := Respond(s, transaction, signal, message, payload, room);
                o.source == s && !IsCommand(o.written)
                && (ClosesStream(o.written) ==> message == MSG_ACCEPT && (signal == CLOSE || signal == ABORT) && o.result.Ok?)
  {
  }

  lemma RemoteKeeps(h: History, transaction: Byte, signal: Byte, payload: seq<Byte>, room: nat)
    requires Inv(h) && h.source.linked
    ensures Inv(Noted(h, RemoteCommand(h.source, transaction, signal, payload, room)))
  {
    hide RemoteCommand, IsCommand, NamesLocal;
    RemoteEffect(h.source, transaction, signal, payload, room);
  }

  lemma DispatchKeeps(h: History, transaction: Byte, message: Byte, signal: Byte, payload: seq<Byte>, room: nat)
    requires Inv(h) && h.source.linked && room >= ROOM
    ensures Inv(Noted(h, Dispatch(h.source, transaction, message, signal, payload, room)))
  {
    hide Inv, Accept, Reject, RemoteCommand, Noted;
    if message == MSG_ACCEPT {
      AcceptKeeps(h, transaction, signal, payload, room);
    } else if message == MSG_REJECT || message == MSG_GENERAL_REJECT {
      RejectKeeps(h, transaction, signal, payload, room);
    } else if message == MSG_COMMAND {
      RemoteKeeps(h, transaction, signal, payload, room);
    } else {
      Unchanged(h, Err(PacketError));
    }
  }

  lemma ReassemblyKeeps(h: History, a: Assembly, result: Result<nat, Error>)
    requires Inv(h) && (a.active || a == NO_ASSEMBLY)
    ensures Inv(h.(source := h.source.(assembly := a)))
    ensures Noted(h, Outcome(h.source.(assembly := a), result, [])) == h.(source := h.source.(assembly := a))
  {
  }

  /** The history does not depend on which reassembly the source is in. */
  lemma DispatchAfterReassembly(h: History, packet: seq<Byte>, room: nat)
    requires Inv(h) && h.source.linked && room >= ROOM && packet != []
    ensures Inv(Noted(h, ReceiveRest(h.source, packet, room)))
  {
    hide Inv, Dispatch, Noted;
    var a := h.source.assembly;
    ReassemblyKeeps(h, NO_ASSEMBLY, Err(PacketError));
    ReassemblyKeeps(h, NO_ASSEMBLY, Err(Overflow));
    var g := h.(source := h.source.(assembly := NO_ASSEMBLY));
    var payload := a.payload + packet[1..];
    DispatchKeeps(g, a.transaction, a.message, a.signal, payload, room);
    SameNotes(h, g, Dispatch(g.source, a.transaction, a.message, a.signal, payload, room));
    if a.active {
      ReassemblyKeeps(h, a.(received := (a.received as int + 1) % 256, payload := payload), Ok(0));
    }
  }

  lemma SameNotes(h: History, g: History, o: Outcome)
    requires h.commands == g.commands && h.configured == g.configured
    ensures Noted(h, o) == Noted(g, o)
  {
  }

  lemma ReceiveKeeps(h: History, packet: seq<Byte>, room: nat)
    requires Inv(h) && room >= ROOM
    ensures Inv(Noted(h, Receive(h.source, packet, room)))
  {
    hide Inv, Dispatch, Noted, ReceiveRest;
    Unchanged(h, Err(PacketError));
    Unchanged(h, Err(Overflow));
    ReassemblyKeeps(h, NO_ASSEMBLY, Err(PacketError));
    if h.source.linked && packet != [] && |packet| <= MAX_SDU {
      if packet[0] / 4 % 4 == PACKET_SINGLE {
        if |packet| >= 2 {
          DispatchKeeps(h, packet[0] / 16, packet[0] % 4, packet[1], packet[2..], room);
        }
      } else if packet[0] / 4 % 4 == PACKET_START {
        if |packet| >= 3 {
          ReassemblyKeeps(h, Assembly(true, packet[0] / 16, packet[0] % 4, packet[2], packet[1], 1, packet[3..]), Ok(0));
        }
      } else {
        DispatchAfterReassembly(h, packet, room);
      }
    }
  }

  lemma ConnectKeeps(h: History, room: nat)
    requires Inv(h) && room >= ROOM
    ensures Inv(Noted(h, Connected(h.source, room)))
  {
    hide Command, Labelled;
    var s := h.source;
    if s.linked {
      Unchanged(h, Err(StateError));
    } else {
      CommandNoted(h, s, DISCOVER, [], room);
      SentLabelled(h, s.(linked := true, state := Discovering), DISCOVER, []);
    }
  }

  lemma StartKeeps(h: History, room: nat)
    requires Inv(h) && room >= ROOM
    ensures Inv(Noted(h, Started(h.source, room)))
  {
    hide Command, Labelled;
    var s := h.source;
    Unchanged(h, Err(StateError));
    CommandNoted(h, s, START, [Shifted(s.remoteSeid)], room);
    if s.linked {
      SentLabelled(h, s.(state := Starting), START, [Shifted(s.remoteSeid)]);
    }
  }

  lemma SuspendKeeps(h: History, room: nat)
    requires Inv(h) && room >= ROOM
    ensures Inv(Noted(h, Suspended(h.source, room)))
  {
    hide Command, Labelled;
    var s := h.source;
    Unchanged(h, Err(StateError));
    CommandNoted(h, s, SUSPEND, [Shifted(s.remoteSeid)], room);
    if s.linked {
      SentLabelled(h, s.(state := Suspending), SUSPEND, [Shifted(s.remoteSeid)]);
    }
  }

  lemma StepKeeps(h: History, e: Event, room: nat)
    requires Inv(h) && room >= ROOM
    ensures Inv(Noted(h, Step(h.source, e, room)))
  {
    hide Inv, Receive, Connected, Started, Suspended;
    match e
    case Connect => ConnectKeeps(h, room);
    case StartStream => StartKeeps(h, room);
    case SuspendStream => SuspendKeeps(h, room);
    case Arrives(packet) => ReceiveKeeps(h, packet, room);
    case MediaChannel(up) => MediaKeeps(h, up);
  }

  lemma MediaKeeps(h: History, up: bool)
    requires Inv(h)
    ensures Inv(h.(source := h.source.(mediaConnected := up)))
  {
  }

  lemma {:induction false} RunsKeep(events: seq<Event>, room: nat)
    requires room >= ROOM
    ensures Inv(Run(events, room))
    decreases |events|
  {
    hide Inv, Step, Noted;
    if events == [] {
      StartsKept();
    } else {
      RunsKeep(events[..|events| - 1], room);
      StepKeeps(Run(events[..|events| - 1], room), events[|events| - 1], room);
    }
  }

  lemma StartsKept()
    ensures Inv(History(New, [], []))
  {
  }

  // ----- what follows for every run

  lemma AnswersConfiguration(h: History, transaction: Byte, room: nat)
    requires Inv(h) && room >= ROOM
    ensures var s := h.source;
            var o := RemoteCommand(s, transaction, GET_CONFIGURATION, [Shifted(s.localSeid)], room);
            && o.source == s && s.localSeid == 1
            && o.written == (if s.localInUse then Message(transaction, MSG_ACCEPT, GET_CONFIGURATION, h.configured)
                             else Message(transaction, MSG_REJECT, GET_CONFIGURATION, [BAD_STATE]))
            && (s.localInUse ==> ValidSbc(s.sbc) && h.configured == Services(s.sbc, s.delayReporting))
  {
    hide Message, Labelled, SinksListed;
  }

  /** A peer that asks is told the services of the last SET_CONFIGURATION, or that nothing is set up. */
  lemma ConfigurationIsAnswered(events: seq<Event>, transaction: Byte, room: nat)
    requires room >= ROOM && transaction < 16
    ensures var h := Run(events, room);
            var s := h.source;
            var o := Receive(s, Fragments.Single(transaction, MSG_COMMAND, GET_CONFIGURATION, [Shifted(s.localSeid)]), room);
            s.linked && !s.assembly.active ==>
            && o.source == s
            && o.written == (if s.localInUse then Message(transaction, MSG_ACCEPT, GET_CONFIGURATION, h.configured)
                             else Message(transaction, MSG_REJECT, GET_CONFIGURATION, [BAD_STATE]))
            && (s.localInUse ==> ValidSbc(s.sbc) && h.configured == Services(s.sbc, s.delayReporting))
  {
    hide Receive, Run, Inv, Message;
    RunsKeep(events, room);
    AnswersConfiguration(Run(events, room), transaction, room);
    var s := Run(events, room).source;
    if s.linked && !s.assembly.active {
      Fragments.SingleStep(s, transaction, MSG_COMMAND, GET_CONFIGURATION, [Shifted(1)], room);
    }
  }

  /** What one answer leads to: an error, nothing, or the next command under the next label. */
  predicate GoesOn(s: Source, o: Outcome) {
    && (o.written == [] || (IsCommand(o.written) && o.source.pendingSignal != 0))
    && (o.source.next != s.next || o.source.pendingSignal == 0 || o.result.Err?)
  }

  lemma CommandGoesOn(s: Source, signal: Byte, payload: seq<Byte>, room: nat)
    requires signal != 0
    ensures GoesOn(s, Command(s, signal, payload, room))
  {
  }

  lemma NextSinkGoesOn(s: Source, room: nat)
    ensures GoesOn(s, NextSink(s, room))
  {
    hide Command;
    if s.sinkPos + 1 < |s.sinks| {
      var seid := s.sinks[s.sinkPos + 1];
      CommandGoesOn(s.(sinkPos := s.sinkPos + 1, remoteSeid := seid, delayReporting := false, delay := 0, state := ReadingCapabilities),
                    GET_ALL_CAPABILITIES, [Shifted(seid)], room);
    }
  }

  lemma ChooseSbcGoesOn(s: Source, payload: seq<Byte>, room: nat)
    ensures GoesOn(s, ChooseSbc(s, payload, room))
  {
    hide Command, NextSink, Elements, Found, KeptCaps, OffersDelay, Services;
    var (es, whole) := Elements(payload);
    var noted := s.(codecCaps := KeptCaps(s.codecCaps, es));
    NextSinkGoesOn(noted, room);
    if Found(es).Some? {
      CommandGoesOn(noted.(sbc := Found(es).value, delayReporting := OffersDelay(es), state := Configuring), SET_CONFIGURATION,
                    [Shifted(s.remoteSeid), Shifted(s.localSeid)] + Services(Found(es).value, OffersDelay(es)), room);
    }
  }

  lemma DiscoveredGoesOn(s: Source, payload: seq<Byte>, room: nat)
    ensures GoesOn(s, Discovered(s, payload, room))
  {
    hide Command, EligibleSinks, FirstEight, Overlaid;
    var sinks := FirstEight(EligibleSinks(payload));
    if sinks != [] {
      CommandGoesOn(s.(sinks := sinks, sinkPos := 0, remoteSeid := sinks[0], state := ReadingCapabilities),
                    GET_ALL_CAPABILITIES, [Shifted(sinks[0])], room);
    }
  }

  lemma AcceptSendsCommands(s: Source, transaction: Byte, signal: Byte, payload: seq<Byte>, room: nat)
    ensures var o := Accept(s, transaction, signal, payload, room);
            if Answers(s, transaction, signal) then GoesOn(s, o) else o == Outcome(s, Ok(0), [])
  {
    hide ChooseSbc, Discovered, Command;
    var t := s.(pendingSignal := 0);
    ChooseSbcGoesOn(t, payload, room);
    DiscoveredGoesOn(t, payload, room);
    CommandGoesOn(t.(localInUse := true, state := Opening), OPEN, [Shifted(t.remoteSeid)], room);
  }

  lemma RejectSendsCommands(s: Source, transaction: Byte, signal: Byte, payload: seq<Byte>, room: nat)
    ensures var o := Reject(s, transaction, signal, payload, room);
            if Answers(s, transaction, signal) then GoesOn(s, o) else o == Outcome(s, Ok(0), [])
  {
  }

  /** A command goes out only in step with the answer to the one before it. */
  lemma CommandsTakeTurns(s: Source, transaction: Byte, message: Byte, signal: Byte, payload: seq<Byte>, room: nat)
    requires IsCommand(Dispatch(s, transaction, message, signal, payload, room).written)
    ensures message != MSG_COMMAND && Answers(s, transaction, signal)
  {
    hide Accept, Reject, RemoteCommand;
    AcceptSendsCommands(s, transaction, signal, payload, room);
    RejectSendsCommands(s, transaction, signal, payload, room);
    RemoteEffect(s, transaction, signal, payload, room);
  }

  predicate IsResponse(message: Byte) {
    message == MSG_ACCEPT || message == MSG_REJECT || message == MSG_GENERAL_REJECT
  }

  /** Any response at all, in any state, is ignored exactly unless signal and label are those last pending. */
  lemma ResponsesIgnoredExactly(s: Source, transaction: Byte, message: Byte, signal: Byte, payload: seq<Byte>, room: nat)
    requires IsResponse(message)
    ensures Dispatch(s, transaction, message, signal, payload, room) == Outcome(s, Ok(0), []) <==> !Answers(s, transaction, signal)
  {
    hide Accept, Reject;
    AcceptSendsCommands(s, transaction, signal, payload, room);
    RejectSendsCommands(s, transaction, signal, payload, room);
    if Answers(s, transaction, signal) && signal == 0 {
      SignalZero(s, transaction, message, payload, room);
    }
  }

  /** With nothing pending, signal 0 under the last label counts as an answer; it is an error and changes no stream. */
  lemma SignalZero(s: Source, transaction: Byte, message: Byte, payload: seq<Byte>, room: nat)
    requires IsResponse(message) && s.pendingSignal == 0 && transaction == s.pendingTransaction
    ensures var o := Dispatch(s, transaction, message, 0, payload, room);
            var code := if payload == [] then 0 else payload[|payload| - 1];
            o == if message == MSG_ACCEPT then Outcome(s, Err(PacketError), [])
                 else Outcome(s.(lastReject := (0, code)), Err(Refused(code)), [])
  {
  }

  /** That happens in every run that has sent a command and has none pending. */
  lemma SignalZeroIsNotIgnored(events: seq<Event>, message: Byte, payload: seq<Byte>, room: nat)
    requires room >= ROOM && IsResponse(message) && |payload| <= FRAGMENT_CAPACITY
    ensures var h := Run(events, room);
            h.commands != [] && h.source.pendingSignal == 0 && !h.source.assembly.active ==>
              var o := Receive(h.source, Fragments.Single((|h.commands| - 1) % 16, message, 0, payload), room);
              o.result.Err? && o.written == [] && o.source == h.source.(lastReject := o.source.lastReject)
  {
    hide Receive, Run, Dispatch;
    RunsKeep(events, room);
    var h := Run(events, room);
    if h.commands != [] && h.source.pendingSignal == 0 && !h.source.assembly.active {
      var transaction := (|h.commands| - 1) % 16;
      Fragments.SingleStep(h.source, transaction, message, 0, payload, room);
      SignalZero(h.source, transaction, message, payload, room);
    }
  }

  /**
   * A response to command `i` of a run is ignored exactly unless the pending command has the same signal and its
   * number differs by a multiple of sixteen.
   */
  lemma IgnoredExactly(events: seq<Event>, i: nat, message: Byte, payload: seq<Byte>, room: nat)
    requires room >= ROOM && |payload| <= FRAGMENT_CAPACITY
    requires IsResponse(message)
    ensures var h := Run(events, room);
            i < |h.commands| && !h.source.assembly.active ==>
              var packet := Fragments.Single(i % 16, message, h.commands[i], payload);
              (Receive(h.source, packet, room) == Outcome(h.source, Ok(0), [])
               <==> !(h.source.pendingSignal == h.commands[i] && (|h.commands| - 1 - i) % 16 == 0))
  {
    hide Receive, Run, Dispatch;
    RunsKeep(events, room);
    var h := Run(events, room);
    var s := h.source;
    if i < |h.commands| && !s.assembly.active {
      Fragments.SingleStep(s, i % 16, message, h.commands[i], payload, room);
      ResponsesIgnoredExactly(s, i % 16, message, h.commands[i], payload, room);
      SameLabel(i, |h.commands| - 1);
    }
  }

  lemma SameLabel(i: nat, j: nat)
    requires i <= j
    ensures i % 16 == j % 16 <==> (j - i) % 16 == 0
  {
  }

  /** So every duplicate of an answer already acted on is ignored while fewer than sixteen commands lie between. */
  lemma DuplicatesChangeNothing(events: seq<Event>, i: nat, message: Byte, payload: seq<Byte>, room: nat)
    requires room >= ROOM && |payload| <= FRAGMENT_CAPACITY
    requires IsResponse(message)
    ensures var h := Run(events, room);
            && i < |h.commands| < i + 17 && !h.source.assembly.active
            && (i == |h.commands| - 1 ==> h.source.pendingSignal == 0)
            ==> Receive(h.source, Fragments.Single(i % 16, message, h.commands[i], payload), room) == Outcome(h.source, Ok(0), [])
  {
    hide Receive, Run;
    RunsKeep(events, room);
    IgnoredExactly(events, i, message, payload, room);
  }

  // ----- what the peer gets

  predicate Known(signal: Byte) {
    1 <= signal <= 0x0d && signal != 0x0b
  }

  /** The peer's stream command is in order: it names this end point, and the stream is in the state to obey it. */
  predicate InOrder(s: Source, signal: Byte, payload: seq<Byte>) {
    && NamesLocal(s, payload)
    && (signal == START ==> s.state == Open && s.mediaConnected)
    && (signal == SUSPEND ==> s.state == Streaming)
  }

  /** A packet is the response to one command: its label, its signal, and one of the three verdicts. */
  predicate RespondsTo(packet: seq<Byte>, transaction: Byte, signal: Byte) {
    && |packet| >= 2 && packet[0] / 16 == transaction && packet[0] / 4 % 4 == PACKET_SINGLE
    && packet[0] % 4 != MSG_COMMAND && packet[1] == signal
  }

  /**
   * Every command of the peer gets exactly one response, under its own label and signal; exactly an unknown signal
   * gets a general reject; START, SUSPEND, CLOSE and ABORT are accepted exactly when in order; and what is not accepted
   * changes nothing.
   */
  lemma EveryCommandIsAnswered(s: Source, transaction: Byte, signal: Byte, payload: seq<Byte>, room: nat)
    requires transaction < 16 && room >= ROOM
    ensures var o := RemoteCommand(s, transaction, signal, payload, room);
            && RespondsTo(o.written, transaction, signal) && o.result == Ok(|o.written|)
            && (o.written[0] % 4 == MSG_GENERAL_REJECT <==> !Known(signal))
            && (signal == START || signal == SUSPEND || signal == CLOSE || signal == ABORT ==>
                  (o.written[0] % 4 == MSG_ACCEPT <==> InOrder(s, signal, payload)))
            && (o.written[0] % 4 != MSG_ACCEPT ==> o.source == s)
  {
    hide Respond, NamesLocal, RespondsTo;
    RespondsWell(transaction, signal);
    ServicesFit();
  }

  lemma ServicesFit()
    ensures forall sbc, delayReporting :: |Services(sbc, delayReporting)| <= 12
  {
  }

  lemma RespondsWell(transaction: Byte, signal: Byte)
    requires transaction < 16
    ensures forall s: Source, message: Byte, payload: seq<Byte>, room: nat
              {:trigger Respond(s, transaction, signal, message, payload, room)} ::
              0 < message < 4 && 2 + |payload| <= room ==>
                var o := Respond(s, transaction, signal, message, payload, room);
                && RespondsTo(o.written, transaction, signal) && |o.written| >= 2 && o.written[0] % 4 == message
                && o.source == s && o.result == Ok(|o.written|)
  {
  }

  // ----- after the peer closes

  predicate Shut(s: Source) {
    s.linked && s.state == Idle && s.pendingSignal == 0 && !s.localInUse
  }

  lemma ShutStays(s: Source, transaction: Byte, message: Byte, signal: Byte, payload: seq<Byte>, room: nat)
    requires Shut(s)
    ensures var o := Dispatch(s, transaction, message, signal, payload, room); Shut(o.source) && !IsCommand(o.written)
  {
    hide RemoteCommand;
    RemoteEffect(s, transaction, signal, payload, room);
  }

  lemma AcceptedClose(s: Source, transaction: Byte, message: Byte, signal: Byte, payload: seq<Byte>, room: nat)
    requires s.linked
    requires ClosesStream(Dispatch(s, transaction, message, signal, payload, room).written)
    ensures Shut(Dispatch(s, transaction, message, signal, payload, room).source)
  {
    hide Accept, Reject, RemoteCommand;
    AcceptSendsCommands(s, transaction, signal, payload, room);
    RejectSendsCommands(s, transaction, signal, payload, room);
    RemoteEffect(s, transaction, signal, payload, room);
  }

  lemma ReceiveShuts(s: Source, packet: seq<Byte>, room: nat)
    requires s.linked
    ensures var o := Receive(s, packet, room);
            && (Shut(s) ==> Shut(o.source) && !IsCommand(o.written))
            && (ClosesStream(o.written) ==> Shut(o.source))
  {
    hide Dispatch;
    if packet != [] {
      if |packet| >= 2 {
        DispatchShuts(s, packet[0] / 16, packet[0] % 4, packet[1], packet[2..], room);
      }
      var a := s.assembly;
      DispatchShuts(s.(assembly := NO_ASSEMBLY), a.transaction, a.message, a.signal, a.payload + packet[1..], room);
    }
  }

  lemma DispatchShuts(s: Source, transaction: Byte, message: Byte, signal: Byte, payload: seq<Byte>, room: nat)
    requires s.linked
    ensures var o := Dispatch(s, transaction, message, signal, payload, room);
            && (Shut(s) ==> Shut(o.source) && !IsCommand(o.written))
            && (ClosesStream(o.written) ==> Shut(o.source))
  {
    hide Dispatch;
    if Shut(s) {
      ShutStays(s, transaction, message, signal, payload, room);
    }
    if ClosesStream(Dispatch(s, transaction, message, signal, payload, room).written) {
      AcceptedClose(s, transaction, message, signal, payload, room);
    }
  }

  lemma StepShuts(s: Source, e: Event, room: nat)
    requires s.linked
    ensures var o := Step(s, e, room);
            && (Shut(s) ==> Shut(o.source) && !IsCommand(o.written))
            && (ClosesStream(o.written) ==> Shut(o.source))
  {
    hide Receive;
    if e.Arrives? {
      ReceiveShuts(s, e.packet, room);
    }
  }

  /** Once a CLOSE or an ABORT has been accepted, the source stays idle and never sends a command again. */
  lemma {:induction false} ClosedForGood(before: seq<Event>, closing: Event, later: seq<Event>, room: nat)
    requires room >= ROOM
    ensures var h := Run(before + [closing] + later, room);
            ClosesStream(Step(Run(before, room).source, closing, room).written) ==>
              Shut(h.source) && h.commands == Run(before, room).commands
    decreases |later|
  {
    hide Step, Inv;
    var events := before + [closing] + later;
    var n := |events| - 1;
    if !ClosesStream(Step(Run(before, room).source, closing, room).written) {
      return;
    }
    if later == [] {
      assert events[..n] == before;
      ClosingIsLinked(Run(before, room), closing, room);
      StepShuts(Run(before, room).source, closing, room);
    } else {
      assert events[..n] == before + [closing] + later[..|later| - 1];
      ClosedForGood(before, closing, later[..|later| - 1], room);
      StepShuts(Run(events[..n], room).source, events[n], room);
    }
  }

  lemma ClosingIsLinked(h: History, e: Event, room: nat)
    requires ClosesStream(Step(h.source, e, room).written)
    ensures h.source.linked
  {
    hide Dispatch, ReceiveRest, ReceiveStart;
  }
}
