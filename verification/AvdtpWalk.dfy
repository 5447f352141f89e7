/** From connecting to SET_CONFIGURATION: how the source finds the sink it configures. */
module AvdtpWalk {
  import opened Wire
  import opened AvdtpSpec
  import opened AvdtpRuns
  import Choice = AvdtpChoice

  // ----- the peer

  datatype Reply = Offer(elements: seq<Element>) | Refusal

  /** What a peer answers: its end points, and for each the replies to both capability queries. */
  datatype Peer = Peer(listing: seq<Byte>, all: Byte -> Reply, basic: Byte -> Reply)

  ghost predicate WellFormed(peer: Peer) {
    && peer.listing != [] && |peer.listing| % 2 == 0
    && forall seid :: (peer.all(seid).Offer? ==> Choice.Fit(peer.all(seid).elements))
                   && (peer.basic(seid).Offer? ==> Choice.Fit(peer.basic(seid).elements))
  }

  function Candidates(peer: Peer): seq<Byte> {
    FirstEight(EligibleSinks(peer.listing))
  }

  /** The elements that decide about a sink: GET_CAPABILITIES counts only where GET_ALL_CAPABILITIES is refused. */
  function Deciding(peer: Peer, seid: Byte): Reply {
    if peer.all(seid).Offer? then peer.all(seid) else peer.basic(seid)
  }

  ghost predicate Serves(peer: Peer, seid: Byte) {
    Deciding(peer, seid).Offer? && exists e | e in Deciding(peer, seid).elements :: Choice.Suits(e)
  }

  /** Some answer it would give, to either query, offers usable SBC. */
  ghost predicate CouldServe(peer: Peer, seid: Byte) {
    || (peer.all(seid).Offer? && exists e | e in peer.all(seid).elements :: Choice.Suits(e))
    || (peer.basic(seid).Offer? && exists e | e in peer.basic(seid).elements :: Choice.Suits(e))
  }

  /** Its answer to GET_ALL_CAPABILITIES offers something, but nothing usable. */
  ghost predicate Hides(peer: Peer, seid: Byte) {
    peer.all(seid).Offer? && forall e | e in peer.all(seid).elements :: !Choice.Suits(e)
  }

  // ----- its messages

  datatype Complete = Complete(transaction: Byte, message: Byte, signal: Byte, payload: seq<Byte>)

  /** The message a packet completes, as a single packet or as the last fragment. */
  function Completed(s: Source, packet: seq<Byte>): Option<Complete> {
    var a := s.assembly;
    if !s.linked || packet == [] || |packet| > MAX_SDU then None
    else if packet[0] / 4 % 4 == PACKET_SINGLE then
      if a.active || |packet| < 2 || packet[1] >= 0x40 then None
      else Some(Complete(packet[0] / 16, packet[0] % 4, packet[1], packet[2..]))
    else if packet[0] / 4 % 4 == PACKET_END then
      if !a.active || packet[0] / 16 != a.transaction || packet[0] % 4 != a.message || a.received as int + 1 != a.expected
         || |a.payload| + |packet| - 1 > FRAGMENT_CAPACITY then None
      else Some(Complete(a.transaction, a.message, a.signal, a.payload + packet[1..]))
    else None
  }

  /** The message is the answer to the pending command. */
  predicate Concludes(s: Source, m: Complete) {
    m.message != MSG_COMMAND && Answers(s, m.transaction, m.signal)
  }

  predicate Says(reply: Reply, m: Complete)
    requires reply.Offer? ==> Choice.Fit(reply.elements)
  {
    match reply
    case Offer(elements) => m.message == MSG_ACCEPT && m.payload == Choice.Joined(elements)
    case Refusal => m.message == MSG_REJECT || m.message == MSG_GENERAL_REJECT
  }

  /** How this peer answers the command that is pending. */
  ghost predicate Truthful(peer: Peer, s: Source, m: Complete)
    requires WellFormed(peer)
  {
    if s.pendingSignal == DISCOVER then m.message == MSG_ACCEPT && m.payload == peer.listing
    else if s.pendingSignal == GET_ALL_CAPABILITIES then Says(peer.all(s.remoteSeid), m)
    else Says(peer.basic(s.remoteSeid), m)
  }

  /**
   * Anything can happen during the walk, in any number of fragments, except that the peer lies about what the pending
   * command asks, or closes the stream.
   */
  ghost predicate Fair(peer: Peer, s: Source, e: Event)
    requires WellFormed(peer)
  {
    e.Arrives? && Completed(s, e.packet).Some? ==>
      var m := Completed(s, e.packet).value;
      && (Concludes(s, m) ==> Truthful(peer, s, m))
      && (m.message == MSG_COMMAND ==> m.signal != CLOSE && m.signal != ABORT)
  }

  predicate Looking(s: Source) {
    s.pendingSignal == DISCOVER || s.pendingSignal == GET_ALL_CAPABILITIES || s.pendingSignal == GET_CAPABILITIES
  }

  /** A run from connecting on, of fair events met while the source is still looking. */
  ghost predicate Walk(peer: Peer, events: seq<Event>, room: nat)
    requires WellFormed(peer)
  {
    && events != [] && events[0] == Connect
    && forall k | 1 <= k < |events| :: Looking(Run(events[..k], room).source) && Fair(peer, Run(events[..k], room).source, events[k])
  }

  predicate Conclusive(s: Source, e: Event) {
    e.Arrives? && Completed(s, e.packet).Some? && Concludes(s, Completed(s, e.packet).value)
  }

  /** How many of the events answered a pending command. */
  function Heard(events: seq<Event>, room: nat): nat
    decreases |events|
  {
    if events == [] then 0
    else
      var n := |events| - 1;
      Heard(events[..n], room) + if Conclusive(Run(events[..n], room).source, events[n]) then 1 else 0
  }

  // ----- where a walk can be

  /** Answers still to come at most, counting down through the sinks and the two queries of each. */
  function Remaining(peer: Peer, s: Source): int {
    var n := |Candidates(peer)|;
    if s.pendingSignal == DISCOVER then 2 * n + 1
    else if s.pendingSignal == GET_ALL_CAPABILITIES then 2 * (n - s.sinkPos)
    else if s.pendingSignal == GET_CAPABILITIES then 2 * (n - s.sinkPos) - 1
    else 0
  }

  ghost predicate NoneBefore(peer: Peer, k: int) {
    forall j | 0 <= j < k && j < |Candidates(peer)| :: !Serves(peer, Candidates(peer)[j])
  }

  /** SET_CONFIGURATION has gone to the first sink that serves, inside the offer of its last suitable element. */
  ghost predicate ChoseFirst(peer: Peer, s: Source) {
    exists k | 0 <= k < |Candidates(peer)| ::
      && NoneBefore(peer, k) && Serves(peer, Candidates(peer)[k])
      && s.state == Configuring && s.pendingSignal == SET_CONFIGURATION && s.remoteSeid == Candidates(peer)[k]
      && Configures(Deciding(peer, Candidates(peer)[k]).elements, s.sbc)
  }

  ghost predicate Configures(es: seq<Element>, config: Sbc) {
    exists k | Choice.LastSuitable(es, k) :: Choice.Within(config, es[k])
  }

  ghost predicate FoundNone(peer: Peer, s: Source) {
    NoneBefore(peer, |Candidates(peer)|) && s.pendingSignal == 0 && (s.state == Discovering || s.state == ReadingCapabilities)
  }

  /** Still looking: every sink before the one asked has been found wanting. */
  ghost predicate Searching(peer: Peer, s: Source) {
    s.pendingSignal == DISCOVER ||
    (&& (s.pendingSignal == GET_ALL_CAPABILITIES || s.pendingSignal == GET_CAPABILITIES)
     && s.sinks == Candidates(peer) && NoneBefore(peer, s.sinkPos)
     && (s.pendingSignal == GET_CAPABILITIES ==> peer.all(s.remoteSeid).Refusal?))
  }

  /** One more answer heard, and the walk is further on: its verdict, the count of answers left, and the result returned. */
  ghost predicate Onward(peer: Peer, before: Source, after: Source, result: Result<nat, Error>) {
    && (Searching(peer, after) || ChoseFirst(peer, after) || FoundNone(peer, after))
    && Remaining(peer, after) < Remaining(peer, before)
    && (result == Err(Unsupported) <==> FoundNone(peer, after))
  }

  // ----- what is not an answer

  /** A packet either completes a message that is then dispatched, or only moves the reassembly. */
  lemma ReceiveCompletes(s: Source, packet: seq<Byte>, room: nat)
    requires s.assembly.active || s.assembly == NO_ASSEMBLY
    ensures var o := Receive(s, packet, room);
            if Completed(s, packet) == None then
              o.written == [] && o.source == s.(assembly := o.source.assembly) && o.result != Err(Unsupported)
            else
              var m := Completed(s, packet).value;
              o == Dispatch(s.(assembly := NO_ASSEMBLY), m.transaction, m.message, m.signal, m.payload, room) && m.message < 4
  {
    hide Dispatch;
    assert !s.assembly.active ==> s == s.(assembly := NO_ASSEMBLY);
  }

  /** Noise leaves a source that is looking where it is. */
  predicate Bystanding(s: Source, t: Source) {
    t == s.(delay := t.delay, assembly := t.assembly, mediaConnected := t.mediaConnected)
  }

  lemma NoiseIsIgnored(peer: Peer, h: History, e: Event, room: nat)
    requires WellFormed(peer) && Inv(h) && Looking(h.source) && room >= ROOM
    requires Fair(peer, h.source, e) && !Conclusive(h.source, e)
    ensures var o := Step(h.source, e, room);
            Bystanding(h.source, o.source) && !IsCommand(o.written) && o.result != Err(Unsupported)
  {
    hide Receive, Command, Dispatch, WellFormed, Completed, Labelled, Negotiated;
    if e.Arrives? {
      ReceiveCompletes(h.source, e.packet, room);
      if Completed(h.source, e.packet).Some? {
        var m := Completed(h.source, e.packet).value;
        MessageIsIgnored(h.source.(assembly := NO_ASSEMBLY), m, room);
      }
    }
  }

  lemma MessageIsIgnored(s: Source, m: Complete, room: nat)
    requires s.state == Discovering || s.state == ReadingCapabilities
    requires m.message < 4 && !Concludes(s, m) && (m.message == MSG_COMMAND ==> m.signal != CLOSE && m.signal != ABORT)
    ensures var o := Dispatch(s, m.transaction, m.message, m.signal, m.payload, room);
            Bystanding(s, o.source) && !IsCommand(o.written) && o.result != Err(Unsupported)
  {
    hide RemoteCommand;
    RemoteEffect(s, m.transaction, m.signal, m.payload, room);
    RemoteResult(s, m.transaction, m.signal, m.payload, room);
  }

  lemma RemoteResult(s: Source, transaction: Byte, signal: Byte, payload: seq<Byte>, room: nat)
    ensures RemoteCommand(s, transaction, signal, payload, room).result != Err(Unsupported)
  {
    hide Services, NamesLocal, Message;
  }

  // ----- what each answer leads to

  lemma Commanded(s: Source, signal: Byte, payload: seq<Byte>, room: nat)
    requires room >= 2 + |payload|
    ensures var o := Command(s, signal, payload, room); o.source == Issued(s, signal) && o.result.Ok?
  {
  }

  /** The sink asked has been found wanting. */
  lemma NextSinkOnward(peer: Peer, s: Source, t: Source, room: nat)
    requires room >= ROOM && Searching(peer, s) && s.pendingSignal != DISCOVER && s.state == ReadingCapabilities
    requires s.sinkPos < |s.sinks| && !Serves(peer, s.sinks[s.sinkPos])
    requires t == s.(pendingSignal := 0, codecCaps := t.codecCaps, lastReject := t.lastReject)
    ensures var o := NextSink(t, room); Onward(peer, s, o.source, o.result)
  {
    hide Command, Serves, Candidates;
    var next := s.sinkPos + 1;
    if next < |s.sinks| {
      Commanded(t.(sinkPos := next, remoteSeid := s.sinks[next], delayReporting := false, delay := 0, state := ReadingCapabilities),
                GET_ALL_CAPABILITIES, [Shifted(s.sinks[next])], room);
    }
  }

  /** The sink asked has offered `es`, and these elements decide about it. */
  lemma OfferOnward(peer: Peer, s: Source, t: Source, es: seq<Element>, room: nat)
    requires room >= ROOM && Searching(peer, s) && s.pendingSignal != DISCOVER && s.state == ReadingCapabilities
    requires s.sinkPos < |s.sinks| && s.remoteSeid == s.sinks[s.sinkPos]
    requires Choice.Fit(es) && Deciding(peer, s.remoteSeid) == Offer(es)
    requires t == s.(pendingSignal := 0)
    ensures var o := ChooseSbc(t, Choice.Joined(es), room); Onward(peer, s, o.source, o.result)
  {
    hide Command, NextSink, Candidates, Deciding, Choice.Joined, Choice.Fit, Choice.Suits, Choice.LastSuitable, Choice.Within;
    var o := ChooseSbc(t, Choice.Joined(es), room);
    Choice.ChoiceIsExact(t, es, room);
    if exists e | e in es :: Choice.Suits(e) {
      assert Configures(es, o.source.sbc);
      assert Serves(peer, s.remoteSeid);
      assert ChoseFirst(peer, o.source);
    } else {
      assert !Serves(peer, s.remoteSeid);
      NextSinkOnward(peer, s, t.(codecCaps := KeptCaps(t.codecCaps, es)), room);
    }
  }

  lemma ListingOnward(peer: Peer, s: Source, t: Source, room: nat)
    requires room >= ROOM && WellFormed(peer) && s.pendingSignal == DISCOVER && s.state == Discovering
    requires t == s.(pendingSignal := 0)
    ensures var o := Discovered(t, peer.listing, room); Onward(peer, s, o.source, o.result)
  {
    hide Command, EligibleSinks, FirstEight, Serves, Overlaid;
    var sinks := Candidates(peer);
    if sinks != [] {
      Commanded(t.(sinks := sinks, sinkPos := 0, remoteSeid := sinks[0], state := ReadingCapabilities),
                GET_ALL_CAPABILITIES, [Shifted(sinks[0])], room);
    }
  }

  lemma RefusalOnward(peer: Peer, s: Source, transaction: Byte, payload: seq<Byte>, room: nat)
    requires room >= ROOM && Searching(peer, s) && s.pendingSignal != DISCOVER && s.state == ReadingCapabilities
    requires s.sinkPos < |s.sinks| && s.remoteSeid == s.sinks[s.sinkPos] && transaction == s.pendingTransaction
    requires s.pendingSignal == GET_ALL_CAPABILITIES ==> peer.all(s.remoteSeid).Refusal?
    requires s.pendingSignal == GET_CAPABILITIES ==> peer.basic(s.remoteSeid).Refusal?
    ensures var o := Reject(s, transaction, s.pendingSignal, payload, room); Onward(peer, s, o.source, o.result)
  {
    hide Command, NextSink, Candidates;
    var code := if payload == [] then 0 else payload[|payload| - 1];
    var t := s.(pendingSignal := 0, lastReject := (s.pendingSignal, code));
    if s.pendingSignal == GET_ALL_CAPABILITIES {
      Commanded(t, GET_CAPABILITIES, [Shifted(t.remoteSeid)], room);
    } else {
      NextSinkOnward(peer, s, t, room);
    }
  }

  lemma AnswerOnward(peer: Peer, s: Source, m: Complete, room: nat)
    requires room >= ROOM && WellFormed(peer) && Looking(s) && Searching(peer, s) && PendingFits(s) && SinksListed(s)
    requires m.message < 4 && Concludes(s, m) && Truthful(peer, s, m)
    ensures var o := Dispatch(s, m.transaction, m.message, m.signal, m.payload, room); Onward(peer, s, o.source, o.result)
  {
    hide Discovered, ChooseSbc, Reject, Onward, NoneBefore, WellFormed, Choice.Fit, Choice.Joined;
    var t := s.(pendingSignal := 0);
    if s.pendingSignal == DISCOVER {
      ListingOnward(peer, s, t, room);
    } else if m.message == MSG_ACCEPT {
      FitsWell(peer, s.remoteSeid);
      var reply := if s.pendingSignal == GET_ALL_CAPABILITIES then peer.all(s.remoteSeid) else peer.basic(s.remoteSeid);
      OfferOnward(peer, s, t, reply.elements, room);
    } else {
      RefusalOnward(peer, s, m.transaction, m.payload, room);
    }
  }

  lemma FitsWell(peer: Peer, seid: Byte)
    requires WellFormed(peer)
    ensures peer.all(seid).Offer? ==> Choice.Fit(peer.all(seid).elements)
    ensures peer.basic(seid).Offer? ==> Choice.Fit(peer.basic(seid).elements)
  {
  }

  // ----- the whole walk

  /** What holds between the events of a walk. */
  ghost predicate OnTheWay(peer: Peer, h: History, heard: int) {
    && Inv(h)
    && (Searching(peer, h.source) || ChoseFirst(peer, h.source) || FoundNone(peer, h.source))
    && heard + Remaining(peer, h.source) <= 2 * |Candidates(peer)| + 1
    && |h.commands| <= heard + (if h.source.pendingSignal == 0 then 0 else 1)
  }

  lemma AnswerPends(s: Source, m: Complete, room: nat)
    requires m.message < 4 && Concludes(s, m)
    ensures var o := Dispatch(s, m.transaction, m.message, m.signal, m.payload, room);
            IsCommand(o.written) ==> o.source.pendingSignal != 0
  {
    hide Accept, Reject;
    AcceptSendsCommands(s, m.transaction, m.signal, m.payload, room);
    RejectSendsCommands(s, m.transaction, m.signal, m.payload, room);
  }

  lemma ConclusionKeeps(peer: Peer, h: History, heard: nat, e: Event, room: nat)
    requires room >= ROOM && WellFormed(peer) && OnTheWay(peer, h, heard) && Looking(h.source)
    requires Conclusive(h.source, e) && Fair(peer, h.source, e)
    ensures var o := Step(h.source, e, room);
            OnTheWay(peer, Noted(h, o), heard + 1) && (o.result == Err(Unsupported) <==> FoundNone(peer, o.source))
  {
    hide Receive, Dispatch, WellFormed, Completed, Labelled, Negotiated, Candidates, NoneBefore;
    ReceiveCompletes(h.source, e.packet, room);
    StepKeeps(h, e, room);
    var s := h.source.(assembly := NO_ASSEMBLY);
    AnswerPends(s, Completed(h.source, e.packet).value, room);
    AnswerOnward(peer, s, Completed(h.source, e.packet).value, room);
  }

  lemma NoiseKeeps(peer: Peer, h: History, heard: nat, e: Event, room: nat)
    requires room >= ROOM && WellFormed(peer) && OnTheWay(peer, h, heard) && Looking(h.source)
    requires !Conclusive(h.source, e) && Fair(peer, h.source, e)
    ensures var o := Step(h.source, e, room);
            OnTheWay(peer, Noted(h, o), heard) && !FoundNone(peer, o.source) && o.result != Err(Unsupported)
  {
    hide Step, WellFormed, Completed, Labelled, Negotiated, Candidates, NoneBefore, Inv;
    NoiseIsIgnored(peer, h, e, room);
    StepKeeps(h, e, room);
  }

  lemma {:induction false} WalkKeeps(peer: Peer, events: seq<Event>, room: nat)
    requires room >= ROOM && WellFormed(peer) && Walk(peer, events, room)
    ensures OnTheWay(peer, Run(events, room), Heard(events, room))
    ensures |events| > 1 ==>
              var n := |events| - 1;
              var o := Step(Run(events[..n], room).source, events[n], room);
              o.result == Err(Unsupported) <==> FoundNone(peer, Run(events, room).source)
    decreases |events|
  {
    hide OnTheWay, Fair, Conclusive, Step, FoundNone, WellFormed, Looking;
    var n := |events| - 1;
    if n == 0 {
      FirstStep(peer, events, room);
    } else {
      var before := events[..n];
      assert forall k | 1 <= k < n :: before[..k] == events[..k];
      WalkKeeps(peer, before, room);
      var h := Run(before, room);
      if Conclusive(h.source, events[n]) {
        ConclusionKeeps(peer, h, Heard(before, room), events[n], room);
      } else {
        NoiseKeeps(peer, h, Heard(before, room), events[n], room);
      }
    }
  }

  lemma FirstStep(peer: Peer, events: seq<Event>, room: nat)
    requires room >= ROOM && events == [Connect]
    ensures OnTheWay(peer, Run(events, room), Heard(events, room))
  {
    hide Candidates, Inv;
    RunsKeep(events, room);
    assert events[..0] == [];
    CommandNoted(History(New, [], []), New, DISCOVER, [], room);
  }

  /**
   * Whatever else arrives, the walk asks at most two queries of each of the first eight eligible sinks after DISCOVER,
   * and ends by configuring the first that serves, or with Unsupported exactly if none does.
   */
  lemma WalkFindsFirst(peer: Peer, events: seq<Event>, room: nat)
    requires room >= ROOM && WellFormed(peer) && Walk(peer, events, room)
    ensures var h, n := Run(events, room), |Candidates(peer)|;
            && (Looking(h.source) || ChoseFirst(peer, h.source) || FoundNone(peer, h.source))
            && Heard(events, room) <= 2 * n + (if Looking(h.source) then 0 else 1)
            && |h.commands| <= 2 * n + (if ChoseFirst(peer, h.source) then 2 else 1)
    ensures |events| > 1 ==>
              var n := |events| - 1;
              var o := Step(Run(events[..n], room).source, events[n], room);
              o.result == Err(Unsupported) <==> FoundNone(peer, Run(events, room).source)
  {
    hide Candidates, Serves, Step, Run, Fair, WellFormed, NoneBefore, Configures, Labelled, Negotiated;
    WalkKeeps(peer, events, room);
  }

  /**
   * A walk that has ended found no sink exactly if every candidate that could serve hides it behind an unusable first
   * answer; otherwise it chose the first that does not.
   */
  lemma UnsupportedExactlyWhenHidden(peer: Peer, events: seq<Event>, room: nat)
    requires room >= ROOM && WellFormed(peer) && Walk(peer, events, room)
    ensures var s := Run(events, room).source;
            !Looking(s) ==>
              (FoundNone(peer, s) <==> forall seid | seid in Candidates(peer) :: CouldServe(peer, seid) ==> Hides(peer, seid))
              && (ChoseFirst(peer, s) <==> !FoundNone(peer, s))
  {
    hide Candidates, CouldServe, Hides, Serves, Run, Walk, WellFormed;
    WalkFindsFirst(peer, events, room);
    var cs := Candidates(peer);
    forall seid
      ensures Serves(peer, seid) <==> CouldServe(peer, seid) && !Hides(peer, seid)
    {
      ServesExactly(peer, seid);
    }
    assert forall k | 0 <= k < |cs| :: cs[k] in cs;
  }

  lemma ServesExactly(peer: Peer, seid: Byte)
    ensures Serves(peer, seid) <==> CouldServe(peer, seid) && !Hides(peer, seid)
  {
  }
}
