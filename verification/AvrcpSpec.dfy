/**
 * What each operation of the absolute-volume endpoint does, on values: the frames
 * on the wire, the endpoint after the call, the value returned and the bytes written.
 */
module AvrcpSpec {
  import opened Wire

  const AVC_CONTROL: Byte := 0x00
  const AVC_STATUS: Byte := 0x01
  const AVC_NOTIFY: Byte := 0x03
  const AVC_NOT_IMPLEMENTED: Byte := 0x08
  const AVC_ACCEPTED: Byte := 0x09
  const AVC_REJECTED: Byte := 0x0a
  const AVC_STABLE: Byte := 0x0c
  const AVC_CHANGED: Byte := 0x0d
  const AVC_INTERIM: Byte := 0x0f
  const SUBUNIT_PANEL: Byte := 0x48
  const OPCODE_VENDOR: Byte := 0x00
  const OPCODE_PASS_THROUGH: Byte := 0x7c
  const PDU_GET_CAPABILITIES: Byte := 0x10
  const PDU_REGISTER_NOTIFICATION: Byte := 0x31
  const PDU_SET_ABSOLUTE_VOLUME: Byte := 0x50
  const CAPABILITY_COMPANY_ID: Byte := 0x02
  const CAPABILITY_EVENTS_SUPPORTED: Byte := 0x03
  const EVENT_VOLUME_CHANGED: Byte := 0x0d
  const NO_TRANSACTION: Byte := 0xff
  const MAX_VOLUME: Byte := 0x7f
  const DEFAULT_VOLUME: Byte := 0x20

  datatype State = Disconnected | Ready | WaitingSetVolume | WaitingInterim | Registered | Failed

  datatype Error = BadState | BadPacket | Rejected

  datatype MediaControl = Play | Pause | Next | Previous

  datatype Event =
    | NoEvent
    | Volume(volume: Byte)
    | Reregister
    | PeerCommand(length: nat)
    | PeerVolume(peerVolume: Byte, responseLength: nat)
    | PeerControl(control: MediaControl, responseLength: nat)

  /** The fields of the endpoint as one value. */
  datatype Endpoint = Endpoint(
    state: State,
    volume: Byte,
    next: Byte,
    control: Byte,
    notification: Byte,
    registered: bool,
    target: Byte)

  const New: Endpoint :=
    Endpoint(Disconnected, DEFAULT_VOLUME, 0, NO_TRANSACTION, NO_TRANSACTION, false, NO_TRANSACTION)

  /** What one call did: the new endpoint, the value returned, and the bytes put at the front of `out`. */
  datatype Outcome<T> = Outcome(endpoint: Endpoint, result: Result<T, Error>, written: seq<Byte>)

  // ----- messages on the wire

  /** A single-packet AVCTP frame with an AV/C vendor-dependent payload. */
  function Frame(transaction: Byte, response: bool, ctype: Byte, pdu: Byte, parameters: seq<Byte>): (p: seq<Byte>)
    requires |parameters| < 0x1_0000
    ensures |p| == 13 + |parameters|
    ensures p[0] == transaction * 16 % 256 + (if response then 2 else 0)
    ensures p[13..] == parameters
  {
    [transaction * 16 % 256 + (if response then 2 else 0), 0x11, 0x0e, ctype, SUBUNIT_PANEL, OPCODE_VENDOR,
     0x00, 0x19, 0x58, pdu, 0, |parameters| / 256, |parameters| % 256] + parameters
  }

  datatype Vendor = Vendor(transaction: Byte, response: bool, ctype: Byte, pdu: Byte, parameters: seq<Byte>)

  /** The vendor-dependent reading of a packet, if its headers and lengths are those of one. */
  function ParseVendor(packet: seq<Byte>): Option<Vendor> {
    if && |packet| >= 13
       && |packet| == 13 + Be16(packet[11], packet[12])
       && packet[0] / 4 % 4 == 0 && packet[0] % 2 == 0
       && packet[1] == 0x11 && packet[2] == 0x0e
       && packet[4] == SUBUNIT_PANEL && packet[5] == OPCODE_VENDOR
       && packet[6] == 0x00 && packet[7] == 0x19 && packet[8] == 0x58
       && packet[10] % 4 == 0
    then Some(Vendor(packet[0] / 16, packet[0] / 2 % 2 == 1, packet[3] % 16, packet[9], packet[13..]))
    else None
  }

  /** The pass-through reading of a packet that carries the AVCTP and panel headers. */
  predicate IsPassThrough(packet: seq<Byte>) {
    && |packet| >= 6
    && packet[0] / 4 % 4 == 0 && packet[0] % 2 == 0
    && packet[1] == 0x11 && packet[2] == 0x0e
    && packet[4] == SUBUNIT_PANEL && packet[5] == OPCODE_PASS_THROUGH
  }

  function ControlOf(operation: Byte): Option<MediaControl> {
    match operation % 128
    case 0x44 => Some(Play)
    case 0x46 => Some(Pause)
    case 0x4b => Some(Next)
    case 0x4c => Some(Previous)
    case _ => None
  }

  // ----- what each operation does to the endpoint

  /** The state the two transaction labels and the registration flag stand for. */
  function Derived(e: Endpoint): State {
    if e.control != NO_TRANSACTION then WaitingSetVolume
    else if e.notification == NO_TRANSACTION then Ready
    else if e.registered then Registered
    else WaitingInterim
  }

  function Refresh(e: Endpoint): Endpoint {
    e.(state := Derived(e))
  }

  predicate Live(e: Endpoint, transaction: Byte) {
    transaction == e.control || transaction == e.notification
  }

  /** The `k`-th candidate label, counting round the 4-bit circle from `next`. */
  function Candidate(e: Endpoint, k: nat): Byte {
    (e.next + k) % 16
  }

  /** The first candidate that no live transaction holds. */
  function Allocated(e: Endpoint): (transaction: Byte)
    ensures transaction < 16 && !Live(e, transaction)
    ensures exists skipped: nat ::
              && skipped <= 2
              && transaction == Candidate(e, skipped)
              && forall j | 0 <= j < skipped :: Live(e, Candidate(e, j))
  {
    if !Live(e, Candidate(e, 0)) then Candidate(e, 0)
    else if !Live(e, Candidate(e, 1)) then Candidate(e, 1)
    else Candidate(e, 2)
  }

  /** One step round the circle. */
  function Following(n: Byte): (m: Byte)
    ensures m < 16
  {
    (n + 1) % 16
  }

  /**
   * The candidates are consecutive on the circle and any three neighbours differ, so two live
   * labels cannot hold them all.
   */
  lemma CandidatesDiffer(e: Endpoint, k: nat, n: Byte)
    requires n % 16 == Candidate(e, k)
    ensures Following(n) == Following(n) % 16 == Candidate(e, k + 1)
    ensures Following(n) == Following(n % 16)
    ensures Candidate(e, k) != Candidate(e, k + 1)
    ensures Candidate(e, k) != Candidate(e, k + 2)
  {
    var i := e.next + k;
    assert (i + 1) % 16 == if i % 16 == 15 then 0 else i % 16 + 1;
    assert (i + 2) % 16 == if (i + 1) % 16 == 15 then 0 else (i + 1) % 16 + 1;
    assert (n + 1) % 16 == if n % 16 == 15 then 0 else n % 16 + 1;
  }

  function Take(e: Endpoint): Endpoint {
    e.(next := Following(Allocated(e)))
  }

  function Command(e: Endpoint, ctype: Byte, pdu: Byte, parameters: seq<Byte>, room: nat): (o: Outcome<(nat, Byte)>)
    ensures o.result.Ok? ==> o.result.value.0 == |o.written|
  {
    if room < 13 + |parameters| || |parameters| >= 0x1_0000 then Outcome(e, Err(BadPacket), [])
    else
      var transaction := Allocated(e);
      Outcome(Take(e), Ok((13 + |parameters|, transaction)), Frame(transaction, false, ctype, pdu, parameters))
  }

  function Respond(e: Endpoint, transaction: Byte, ctype: Byte, pdu: Byte, parameters: seq<Byte>, room: nat): Outcome<nat> {
    if room < 13 + |parameters| || |parameters| >= 0x1_0000 then Outcome(e, Err(BadPacket), [])
    else Outcome(e, Ok(13 + |parameters|), Frame(transaction, true, ctype, pdu, parameters))
  }

  function SetVolume(e: Endpoint, volume: Byte, room: nat): Outcome<nat> {
    if e.state.Disconnected? || e.state.Failed? || volume > MAX_VOLUME then Outcome(e, Err(BadState), [])
    else
      var o := Command(e, AVC_CONTROL, PDU_SET_ABSOLUTE_VOLUME, [volume], room);
      match o.result
      case Err(error) => Outcome(e, Err(error), [])
      case Ok((length, transaction)) =>
        Outcome(Refresh(o.endpoint.(volume := volume, control := transaction)), Ok(length), o.written)
  }

  function Register(e: Endpoint, room: nat): Outcome<nat> {
    if e.state.Disconnected? || e.state.Failed? || e.notification != NO_TRANSACTION then Outcome(e, Err(BadState), [])
    else
      var o := Command(e, AVC_NOTIFY, PDU_REGISTER_NOTIFICATION, [EVENT_VOLUME_CHANGED, 0, 0, 0, 0], room);
      match o.result
      case Err(error) => Outcome(e, Err(error), [])
      case Ok((length, transaction)) =>
        Outcome(Refresh(o.endpoint.(notification := transaction, registered := false)), Ok(length), o.written)
  }

  /** Entering `Ready` from `Disconnected`, shared by the three ways of connecting. */
  function Enter(e: Endpoint, volume: Byte): Option<Endpoint> {
    if !e.state.Disconnected? || volume > MAX_VOLUME then None
    else Some(e.(state := Ready, volume := volume))
  }

  function Connected(e: Endpoint, volume: Byte, room: nat): Outcome<nat> {
    match Enter(e, volume)
    case None => Outcome(e, Err(BadState), [])
    case Some(ready) => SetVolume(ready, volume, room)
  }

  function TargetMoved(e: Endpoint, volume: Byte, room: nat): Outcome<nat> {
    if e.state.Disconnected? || volume > MAX_VOLUME then Outcome(e, Err(BadState), [])
    else if e.target == NO_TRANSACTION then Outcome(e.(volume := volume), Ok(0), [])
    else Respond(e.(volume := volume, target := NO_TRANSACTION), e.target, AVC_CHANGED,
                 PDU_REGISTER_NOTIFICATION, [EVENT_VOLUME_CHANGED, volume], room)
  }

  /** How an event is reported once its response has been written. */
  function Report(o: Outcome<nat>, event: nat -> Event): Outcome<Event> {
    match o.result
    case Ok(length) => Outcome(o.endpoint, Ok(event(length)), o.written)
    case Err(error) => Outcome(o.endpoint, Err(error), [])
  }

  function OnPassThrough(e: Endpoint, packet: seq<Byte>, room: nat): Outcome<Event>
    requires IsPassThrough(packet)
  {
    if packet[3] % 16 != AVC_CONTROL || |packet| < 8 || |packet| - 8 != packet[7] || room < |packet| then
      Outcome(e, Err(BadPacket), [])
    else
      var control := ControlOf(packet[6]);
      var ctype := if control.Some? then AVC_ACCEPTED else AVC_NOT_IMPLEMENTED;
      var reply := packet[0 := packet[0] / 16 * 16 + 2][3 := ctype];
      var event := if control.Some? && packet[6] < 128 then PeerControl(control.value, |packet|)
                   else PeerCommand(|packet|);
      Outcome(e, Ok(event), reply)
  }

  function OnCommand(e: Endpoint, m: Vendor, room: nat): Outcome<Event> {
    var asCommand := (length: nat) => PeerCommand(length);
    if m.ctype == AVC_STATUS && m.pdu == PDU_GET_CAPABILITIES && m.parameters == [CAPABILITY_COMPANY_ID] then
      Report(Respond(e, m.transaction, AVC_STABLE, m.pdu, [CAPABILITY_COMPANY_ID, 1, 0x00, 0x19, 0x58], room), asCommand)
    else if m.ctype == AVC_STATUS && m.pdu == PDU_GET_CAPABILITIES && m.parameters == [CAPABILITY_EVENTS_SUPPORTED] then
      Report(Respond(e, m.transaction, AVC_STABLE, m.pdu, [CAPABILITY_EVENTS_SUPPORTED, 1, EVENT_VOLUME_CHANGED], room), asCommand)
    else if && m.ctype == AVC_CONTROL && m.pdu == PDU_SET_ABSOLUTE_VOLUME
            && |m.parameters| == 1 && m.parameters[0] <= MAX_VOLUME then
      var volume := m.parameters[0];
      Report(Respond(e.(volume := volume), m.transaction, AVC_ACCEPTED, m.pdu, [volume], room),
             (length: nat) => PeerVolume(volume, length))
    else if && m.ctype == AVC_NOTIFY && m.pdu == PDU_REGISTER_NOTIFICATION
            && |m.parameters| == 5 && m.parameters[0] == EVENT_VOLUME_CHANGED then
      Report(Respond(e.(target := m.transaction), m.transaction, AVC_INTERIM, m.pdu, [EVENT_VOLUME_CHANGED, e.volume], room), asCommand)
    else
      var known := m.pdu == PDU_GET_CAPABILITIES || m.pdu == PDU_SET_ABSOLUTE_VOLUME || m.pdu == PDU_REGISTER_NOTIFICATION;
      Report(Respond(e, m.transaction, if known then AVC_REJECTED else AVC_NOT_IMPLEMENTED, m.pdu, m.parameters, room), asCommand)
  }

  /** The two ways of refusing a command. */
  predicate IsRefusal(ctype: Byte) {
    ctype == AVC_REJECTED || ctype == AVC_NOT_IMPLEMENTED
  }

  /** Parameters with the shape of a volume notification: the event and one value. */
  predicate NotifiesVolume(parameters: seq<Byte>) {
    |parameters| == 2 && parameters[0] == EVENT_VOLUME_CHANGED
  }

  function OnResponse(e: Endpoint, m: Vendor): (Endpoint, Result<Event, Error>) {
    var refused := IsRefusal(m.ctype);
    if && m.pdu == PDU_REGISTER_NOTIFICATION && m.transaction == e.notification && NotifiesVolume(m.parameters) then
      var heard := e.(volume := m.parameters[1] % 128);
      if m.ctype == AVC_INTERIM && !e.registered then
        (Refresh(heard.(registered := true)), Ok(Volume(heard.volume)))
      else if m.ctype == AVC_CHANGED && e.registered then
        (Refresh(heard.(notification := NO_TRANSACTION, registered := false)), Ok(Reregister))
      else
        (heard, Err(Rejected))
    else if m.pdu == PDU_REGISTER_NOTIFICATION && m.transaction == e.notification && refused then
      (Refresh(e.(notification := NO_TRANSACTION, registered := false)), Err(Rejected))
    else if m.pdu == PDU_SET_ABSOLUTE_VOLUME && m.transaction == e.control then
      if m.ctype == AVC_ACCEPTED && |m.parameters| == 1 && m.parameters[0] <= MAX_VOLUME then
        (Refresh(e.(volume := m.parameters[0], control := NO_TRANSACTION)), Ok(Volume(m.parameters[0])))
      else if refused then
        (Refresh(e.(control := NO_TRANSACTION)), Err(Rejected))
      else
        (e, Err(Rejected))
    else
      (e, Ok(NoEvent))
  }

  function Receive(e: Endpoint, packet: seq<Byte>, room: nat): Outcome<Event> {
    if e.state.Disconnected? then Outcome(e, Err(BadPacket), [])
    else if IsPassThrough(packet) then
      if packet[0] / 2 % 2 == 1 then Outcome(e, Ok(NoEvent), []) else OnPassThrough(e, packet, room)
    else
      match ParseVendor(packet)
      case None => Outcome(e, Err(BadPacket), [])
      case Some(m) =>
        if m.response then
          var (after, result) := OnResponse(e, m);
          Outcome(after, result, [])
        else OnCommand(e, m, room)
  }

  lemma FirstByte(transaction: Byte, response: bool)
    requires transaction < 16
    ensures var b := transaction * 16 % 256 + (if response then 2 else 0);
            b / 16 == transaction && b / 4 % 4 == 0 && b / 2 % 2 == (if response then 1 else 0) && b % 2 == 0
  {
    assert transaction * 16 % 256 == transaction * 16;
  }

  lemma LengthBytes(length: nat)
    requires length < 0x1_0000
    ensures length / 256 < 256 && Be16(length / 256, length % 256) == length
  {
  }

  /** A frame written by either side is read back as exactly what was written. */
  lemma FrameRoundTrip(transaction: Byte, response: bool, ctype: Byte, pdu: Byte, parameters: seq<Byte>)
    requires transaction < 16 && ctype < 16 && |parameters| < 0x1_0000
    ensures ParseVendor(Frame(transaction, response, ctype, pdu, parameters))
         == Some(Vendor(transaction, response, ctype, pdu, parameters))
    ensures !IsPassThrough(Frame(transaction, response, ctype, pdu, parameters))
  {
    var p := Frame(transaction, response, ctype, pdu, parameters);
    assert p[11] == |parameters| / 256 && p[12] == |parameters| % 256;
    FirstByte(transaction, response);
    LengthBytes(|parameters|);
    hide Be16;
    assert p[13..] == parameters;
  }
}
