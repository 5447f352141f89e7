/** What each operation of the AVDTP source does, on values. */
module AvdtpSpec {
  import opened Wire

  const MSG_COMMAND: Byte := 0
  const MSG_GENERAL_REJECT: Byte := 1
  const MSG_ACCEPT: Byte := 2
  const MSG_REJECT: Byte := 3
  const DISCOVER: Byte := 0x01
  const GET_CAPABILITIES: Byte := 0x02
  const SET_CONFIGURATION: Byte := 0x03
  const GET_CONFIGURATION: Byte := 0x04
  const RECONFIGURE: Byte := 0x05
  const OPEN: Byte := 0x06
  const START: Byte := 0x07
  const CLOSE: Byte := 0x08
  const SUSPEND: Byte := 0x09
  const ABORT: Byte := 0x0a
  const GET_ALL_CAPABILITIES: Byte := 0x0c
  const DELAY_REPORT: Byte := 0x0d
  const MEDIA_TRANSPORT: Byte := 0x01
  const MEDIA_CODEC: Byte := 0x07
  const DELAY_REPORTING: Byte := 0x08
  const BAD_ACP_SEID: Byte := 0x12
  const SEP_IN_USE: Byte := 0x13
  const BAD_PAYLOAD_FORMAT: Byte := 0x18
  const BAD_STATE: Byte := 0x31
  const MAX_SDU: nat := 128
  const FRAGMENT_CAPACITY: nat := 126
  const PACKET_SINGLE: Byte := 0
  const PACKET_START: Byte := 1
  const PACKET_CONTINUE: Byte := 2
  const PACKET_END: Byte := 3
  const MIN_BITPOOL: Byte := 27
  const MAX_BITPOOL: Byte := 53
  const PREFERRED_MAX_BITPOOL: Byte := 39
  const MAX_SINKS: nat := 8
  /** Room in `out` for every packet the source sends. */
  const ROOM: nat := 16

  datatype State =
    | Idle | Discovering | ReadingCapabilities | Configuring | Opening
    | Open | Starting | Streaming | Suspending | Failed

  datatype Error = StateError | PacketError | Overflow | Unsupported | Refused(code: Byte)

  datatype Sbc = Sbc(frequencyChannel: Byte, shape: Byte, minimum: Byte, maximum: Byte)

  const NO_SBC: Sbc := Sbc(0, 0, 0, 0)

  /** A message being reassembled; `payload` is what has arrived of it. */
  datatype Assembly = Assembly(active: bool, transaction: Byte, message: Byte, signal: Byte,
                               expected: Byte, received: Byte, payload: seq<Byte>)

  const NO_ASSEMBLY: Assembly := Assembly(false, 0, 0, 0, 0, 0, [])

  /** The fields of the source; `sinks` holds the occupied part of the discovered list. */
  datatype Source = Source(
    linked: bool, state: State, localSeid: Byte, remoteSeid: Byte,
    sbc: Sbc, delayReporting: bool, delay: U16, localInUse: bool, mediaConnected: bool,
    sinks: seq<Byte>, sinkPos: nat,
    codecCaps: seq<Byte>, lastReject: (Byte, Byte),
    next: Byte, pendingTransaction: Byte, pendingSignal: Byte,
    assembly: Assembly)

  const New: Source :=
    Source(false, Idle, 1, 0, NO_SBC, false, 0, false, false, [], 0, [0, 0, 0, 0, 0, 0], (0, 0), 0, 0, 0, NO_ASSEMBLY)

  datatype Outcome = Outcome(source: Source, result: Result<nat, Error>, written: seq<Byte>)

  function Shifted(seid: Byte): Byte {
    seid * 4 % 256
  }

  // ----- packets out

  function Message(transaction: Byte, message: Byte, signal: Byte, payload: seq<Byte>): seq<Byte> {
    [(transaction * 16 % 256 + message) % 256, signal] + payload
  }

  function Respond(s: Source, transaction: Byte, signal: Byte, message: Byte, payload: seq<Byte>, room: nat): Outcome {
    if room < 2 + |payload| then Outcome(s, Err(Overflow), [])
    else Outcome(s, Ok(2 + |payload|), Message(transaction, message, signal, payload))
  }

  /** A command takes the next label even when it does not fit. */
  function Command(s: Source, signal: Byte, payload: seq<Byte>, room: nat): Outcome {
    var transaction := s.next % 16;
    var taken := s.(next := (transaction + 1) % 16);
    if room < 2 + |payload| then Outcome(taken, Err(Overflow), [])
    else Outcome(taken.(pendingTransaction := transaction, pendingSignal := signal), Ok(2 + |payload|),
                 Message(transaction, MSG_COMMAND, signal, payload))
  }

  /** Continues with the new state once the packet is out. */
  function Then(o: Outcome, after: Source -> Source): Outcome {
    if o.result.Ok? then o.(source := after(o.source)) else o
  }

  function Connected(s: Source, room: nat): Outcome {
    if s.linked then Outcome(s, Err(StateError), [])
    else Then(Command(s, DISCOVER, [], room), (t: Source) => t.(linked := true, state := Discovering))
  }

  function Started(s: Source, room: nat): Outcome {
    if !s.linked || s.state != Open || s.remoteSeid == 0 || s.pendingSignal != 0 then Outcome(s, Err(StateError), [])
    else Then(Command(s, START, [Shifted(s.remoteSeid)], room), (t: Source) => t.(state := Starting))
  }

  function Suspended(s: Source, room: nat): Outcome {
    if !s.linked || s.state != Streaming || s.remoteSeid == 0 || s.pendingSignal != 0 then Outcome(s, Err(StateError), [])
    else Then(Command(s, SUSPEND, [Shifted(s.remoteSeid)], room), (t: Source) => t.(state := Suspending))
  }

  // ----- capabilities

  datatype Element = Element(category: Byte, value: seq<Byte>)

  /** The service elements at the front of a payload, and whether they are all of it. */
  function Elements(payload: seq<Byte>): (seq<Element>, bool) {
    if |payload| < 2 then ([], payload == [])
    else if 2 + payload[1] as int > |payload| then ([], false)
    else
      var (rest, whole) := Elements(payload[2 + payload[1]..]);
      ([Element(payload[0], payload[2..2 + payload[1]])] + rest, whole)
  }

  /** The configuration this source makes of one element, if it is usable SBC. */
  function Usable(e: Element): Option<Sbc> {
    if e.category != MEDIA_CODEC || |e.value| != 6 || e.value[0] != 0 || e.value[1] != 0 then None
    else
      var v := e.value;
      var frequencyChannel := if Has(v[2], 0x20) && Has(v[2], 0x02) then 0x22
                              else if Has(v[2], 0x20) && Has(v[2], 0x01) then 0x21 else 0;
      var maximum := Min(Min(v[5], MAX_BITPOOL), PREFERRED_MAX_BITPOOL);
      var minimum := Max(v[4], MIN_BITPOOL);
      if frequencyChannel != 0 && Has(v[3], 0x10) && Has(v[3], 0x04) && Has(v[3], 0x01) && minimum <= maximum
      then Some(Sbc(frequencyChannel, 0x15, minimum, maximum))
      else None
  }

  /** The last usable element decides. */
  function Found(es: seq<Element>): Option<Sbc> {
    if es == [] then None
    else
      var later := Found(es[1..]);
      if later.Some? then later else Usable(es[0])
  }

  function OffersDelay(es: seq<Element>): bool {
    exists e | e in es :: e.category == DELAY_REPORTING && e.value == []
  }

  /** Diagnostics keep the head of the last codec element, byte by byte over the one before. */
  function KeptCaps(caps: seq<Byte>, es: seq<Element>): seq<Byte>
    decreases es
  {
    if es == [] then caps
    else KeptCaps(if es[0].category == MEDIA_CODEC then Overlaid(caps, es[0].value) else caps, es[1..])
  }

  function Overlaid(caps: seq<Byte>, value: seq<Byte>): seq<Byte> {
    var n := Min(|caps|, |value|);
    value[..n] + caps[n..]
  }

  /** The services set up: transport, SBC as configured, and delay reporting if offered. */
  function Services(sbc: Sbc, delayReporting: bool): seq<Byte> {
    [MEDIA_TRANSPORT, 0, MEDIA_CODEC, 6, 0, 0, sbc.frequencyChannel, sbc.shape, sbc.minimum, sbc.maximum]
    + if delayReporting then [DELAY_REPORTING, 0] else []
  }

  function NextSink(s: Source, room: nat): Outcome {
    var moved := s.(sinkPos := s.sinkPos + 1);
    if moved.sinkPos >= |s.sinks| then Outcome(moved, Err(Unsupported), [])
    else
      var seid := s.sinks[moved.sinkPos];
      Command(moved.(remoteSeid := seid, delayReporting := false, delay := 0, state := ReadingCapabilities),
              GET_ALL_CAPABILITIES, [Shifted(seid)], room)
  }

  function ChooseSbc(s: Source, payload: seq<Byte>, room: nat): Outcome {
    var (es, whole) := Elements(payload);
    var noted := s.(codecCaps := KeptCaps(s.codecCaps, es));
    if !whole then Outcome(noted, Err(PacketError), [])
    else
      match Found(es)
      case None => NextSink(noted, room)
      case Some(config) =>
        var chosen := noted.(sbc := config, delayReporting := OffersDelay(es), state := Configuring);
        Command(chosen, SET_CONFIGURATION,
                [Shifted(s.remoteSeid), Shifted(s.localSeid)] + Services(config, OffersDelay(es)), room)
  }

  // ----- discovery

  predicate Eligible(first: Byte, second: Byte) {
    && 0 < first / 4 <= 0x3e && first % 2 == 0 && second % 8 == 0
    && first / 2 % 2 == 0 && second / 16 == 0 && second / 8 % 2 == 1
  }

  /** SEIDs of the eligible sinks, in order, beyond the limit of eight ignored. */
  function EligibleSinks(payload: seq<Byte>): seq<Byte> {
    if |payload| < 2 then []
    else (if Eligible(payload[0], payload[1]) then [payload[0] / 4] else []) + EligibleSinks(payload[2..])
  }

  function FirstEight(sinks: seq<Byte>): seq<Byte> {
    if |sinks| <= MAX_SINKS then sinks else sinks[..MAX_SINKS]
  }

  function Discovered(s: Source, payload: seq<Byte>, room: nat): Outcome {
    if payload == [] || |payload| % 2 != 0 then Outcome(s, Err(PacketError), [])
    else
      var sinks := FirstEight(EligibleSinks(payload));
      var listed := s.(sinks := sinks, sinkPos := 0);
      if sinks == [] then Outcome(listed.(codecCaps := Overlaid(s.codecCaps, payload)), Err(Unsupported), [])
      else Command(listed.(remoteSeid := sinks[0], state := ReadingCapabilities),
                   GET_ALL_CAPABILITIES, [Shifted(sinks[0])], room)
  }

  // ----- responses

  predicate Answers(s: Source, transaction: Byte, signal: Byte) {
    signal == s.pendingSignal && transaction == s.pendingTransaction
  }

  function Accept(s: Source, transaction: Byte, signal: Byte, payload: seq<Byte>, room: nat): Outcome {
    if !Answers(s, transaction, signal) then Outcome(s, Ok(0), [])
    else
      var t := s.(pendingSignal := 0);
      if signal == DISCOVER then Discovered(t, payload, room)
      else if signal == GET_ALL_CAPABILITIES || signal == GET_CAPABILITIES then ChooseSbc(t, payload, room)
      else if signal == SET_CONFIGURATION then
        if payload != [] then Outcome(t, Err(PacketError), [])
        else Command(t.(localInUse := true, state := Opening), OPEN, [Shifted(t.remoteSeid)], room)
      else if signal == OPEN then
        if payload != [] then Outcome(t, Err(PacketError), []) else Outcome(t.(state := Open), Ok(0), [])
      else if signal == START then
        if t.state != Starting || payload != [] then Outcome(t, Err(PacketError), [])
        else Outcome(t.(state := Streaming), Ok(0), [])
      else if signal == SUSPEND then
        if t.state != Suspending || payload != [] then Outcome(t, Err(PacketError), [])
        else Outcome(t.(state := Open), Ok(0), [])
      else Outcome(t, Err(PacketError), [])
  }

  function Abandoned(s: Source): Source {
    s.(state := Idle, remoteSeid := 0, localInUse := false, delayReporting := false, delay := 0, sbc := NO_SBC)
  }

  /** A refused START or SUSPEND leaves the stream where it was. */
  function AfterRefusal(s: Source, signal: Byte, code: Byte): (Source, Result<nat, Error>) {
    if signal == OPEN then (s.(state := Configuring), Err(Refused(code)))
    else if signal == START then (s.(state := Open), Ok(0))
    else if signal == SUSPEND then (s.(state := Streaming), Ok(0))
    else if signal == DISCOVER || signal == GET_CAPABILITIES || signal == SET_CONFIGURATION then
      (Abandoned(s), Err(Refused(code)))
    else (s, Err(Refused(code)))
  }

  function Reject(s: Source, transaction: Byte, signal: Byte, payload: seq<Byte>, room: nat): Outcome {
    if !Answers(s, transaction, signal) then Outcome(s, Ok(0), [])
    else
      var code := if payload == [] then 0 else payload[|payload| - 1];
      var t := s.(pendingSignal := 0, lastReject := (signal, code));
      if signal == GET_ALL_CAPABILITIES then Command(t, GET_CAPABILITIES, [Shifted(t.remoteSeid)], room)
      else if signal == GET_CAPABILITIES && t.state == ReadingCapabilities then NextSink(t, room)
      else
        var (after, result) := AfterRefusal(t, signal, code);
        Outcome(after, result, [])
  }

  // ----- commands of the peer

  predicate NamesLocal(s: Source, payload: seq<Byte>) {
    |payload| == 1 && payload[0] % 4 == 0 && payload[0] / 4 == s.localSeid
  }

  function Closed(s: Source): Source {
    s.(state := Idle, localInUse := false, remoteSeid := 0, pendingSignal := 0, delayReporting := false, delay := 0,
       mediaConnected := false)
  }

  function RemoteCommand(s: Source, transaction: Byte, signal: Byte, payload: seq<Byte>, room: nat): Outcome {
    var local := Shifted(s.localSeid);
    if signal == DISCOVER then
      if payload != [] then Respond(s, transaction, signal, MSG_REJECT, [BAD_PAYLOAD_FORMAT], room)
      else Respond(s, transaction, signal, MSG_ACCEPT, [if s.localInUse then local + 2 else local, 0], room)
    else if signal == GET_CAPABILITIES || signal == GET_ALL_CAPABILITIES then
      if !NamesLocal(s, payload) then Respond(s, transaction, signal, MSG_REJECT, [BAD_ACP_SEID], room)
      else Respond(s, transaction, signal, MSG_ACCEPT,
                   Services(Sbc(0x22, 0x15, MIN_BITPOOL, MAX_BITPOOL), signal == GET_ALL_CAPABILITIES), room)
    else if signal == GET_CONFIGURATION then
      if !NamesLocal(s, payload) then Respond(s, transaction, signal, MSG_REJECT, [BAD_ACP_SEID], room)
      else if !s.localInUse then Respond(s, transaction, signal, MSG_REJECT, [BAD_STATE], room)
      else Respond(s, transaction, signal, MSG_ACCEPT, Services(s.sbc, s.delayReporting), room)
    else if signal == CLOSE || signal == ABORT then
      if !NamesLocal(s, payload) then Respond(s, transaction, signal, MSG_REJECT, [BAD_ACP_SEID], room)
      else Then(Respond(s, transaction, signal, MSG_ACCEPT, [], room), (t: Source) => Closed(t))
    else if signal == DELAY_REPORT then
      if |payload| != 3 || payload[0] != local then Respond(s, transaction, signal, MSG_REJECT, [BAD_ACP_SEID], room)
      else if !s.localInUse || !s.delayReporting then Respond(s, transaction, signal, MSG_REJECT, [BAD_STATE], room)
      else Respond(s.(delay := Be16(payload[1], payload[2])), transaction, signal, MSG_ACCEPT, [], room)
    else if signal == START || signal == SUSPEND then
      if !NamesLocal(s, payload) then
        Respond(s, transaction, signal, MSG_REJECT, [if payload == [] then 0 else payload[0] - payload[0] % 4, BAD_ACP_SEID], room)
      else if signal == START && s.state == Open && s.mediaConnected then
        Then(Respond(s, transaction, signal, MSG_ACCEPT, [], room), (t: Source) => t.(state := Streaming))
      else if signal == SUSPEND && s.state == Streaming then
        Then(Respond(s, transaction, signal, MSG_ACCEPT, [], room), (t: Source) => t.(state := Open))
      else Respond(s, transaction, signal, MSG_REJECT, [local, BAD_STATE], room)
    else if signal == SET_CONFIGURATION then Respond(s, transaction, signal, MSG_REJECT, [0, SEP_IN_USE], room)
    else if signal == RECONFIGURE then Respond(s, transaction, signal, MSG_REJECT, [0, BAD_STATE], room)
    else if signal == OPEN then Respond(s, transaction, signal, MSG_REJECT, [BAD_STATE], room)
    else Respond(s, transaction, signal, MSG_GENERAL_REJECT, [], room)
  }

  // ----- packets in

  function Dispatch(s: Source, transaction: Byte, message: Byte, signal: Byte, payload: seq<Byte>, room: nat): Outcome {
    if message == MSG_ACCEPT then Accept(s, transaction, signal, payload, room)
    else if message == MSG_REJECT || message == MSG_GENERAL_REJECT then Reject(s, transaction, signal, payload, room)
    else if message == MSG_COMMAND then RemoteCommand(s, transaction, signal, payload, room)
    else Outcome(s, Err(PacketError), [])
  }

  function Dropped(s: Source, error: Error): Outcome {
    Outcome(s.(assembly := NO_ASSEMBLY), Err(error), [])
  }

  function ReceiveStart(s: Source, packet: seq<Byte>): Outcome
    requires packet != []
  {
    if s.assembly.active then Dropped(s, PacketError)
    else if |packet| < 3 || packet[1] < 2 || packet[2] >= 0x40 then Outcome(s, Err(PacketError), [])
    else if |packet| - 3 > FRAGMENT_CAPACITY then Outcome(s, Err(Overflow), [])
    else Outcome(s.(assembly := Assembly(true, packet[0] / 16, packet[0] % 4, packet[2], packet[1], 1, packet[3..])), Ok(0), [])
  }

  function ReceiveRest(s: Source, packet: seq<Byte>, room: nat): Outcome
    requires packet != []
  {
    var a := s.assembly;
    var last := packet[0] / 4 % 4 == PACKET_END;
    var number := a.received as int + 1;
    if !a.active || packet[0] / 16 != a.transaction || packet[0] % 4 != a.message then Dropped(s, PacketError)
    else if (if last then number != a.expected else number >= a.expected) then Dropped(s, PacketError)
    else if |a.payload| + |packet| - 1 > FRAGMENT_CAPACITY then Dropped(s, Overflow)
    else if !last then
      Outcome(s.(assembly := a.(received := number % 256, payload := a.payload + packet[1..])), Ok(0), [])
    else
      Dispatch(s.(assembly := NO_ASSEMBLY), a.transaction, a.message, a.signal, a.payload + packet[1..], room)
  }

  function Receive(s: Source, packet: seq<Byte>, room: nat): Outcome {
    if !s.linked || packet == [] || |packet| > MAX_SDU then Dropped(s, PacketError)
    else if packet[0] / 4 % 4 == PACKET_SINGLE then
      if s.assembly.active then Dropped(s, PacketError)
      else if |packet| < 2 || packet[1] >= 0x40 then Outcome(s, Err(PacketError), [])
      else Dispatch(s, packet[0] / 16, packet[0] % 4, packet[1], packet[2..], room)
    else if packet[0] / 4 % 4 == PACKET_START then ReceiveStart(s, packet)
    else ReceiveRest(s, packet, room)
  }
}
