/**
 * What single packets mean to the absolute-volume endpoint, in any state: refusals, keys of the panel, and what a peer
 * learns of the capabilities.
 */
module AvrcpAnswers {
  import opened Wire
  import opened AvrcpSpec

  // ----- refusals

  /** What a refusal of the pending registration does; `parameters` are those of the refusal. */
  ghost predicate RegistrationRefused(e: Endpoint, parameters: seq<Byte>, after: Endpoint) {
    && (after.notification == NO_TRANSACTION <==> !NotifiesVolume(parameters))
    && (if NotifiesVolume(parameters) then
          && after == e.(volume := parameters[1] % 128)
          && forall room :: Register(after, room).result == Err(BadState)
        else
          && after == e.(notification := NO_TRANSACTION, registered := false, state := Derived(after))
          && forall room: nat | room >= 18 :: Register(after, room).result.Ok?)
  }

  /**
   * An answer REJECTED or NOT_IMPLEMENTED, whatever the endpoint: under the label of the volume command it frees that
   * label, under that of the registration it frees that one, if and only if its parameters are not those of a volume
   * notification. The state is then the one that the remaining labels stand for, the volume is kept, and the operation
   * can be sent again. Parameters like a notification's leave the label live and are taken for the volume. Under
   * no live label nothing happens.
   */
  lemma RefusalFreesItsLabel(e: Endpoint, transaction: Byte, ctype: Byte, pdu: Byte, parameters: seq<Byte>, room: nat)
    requires !e.state.Disconnected? && transaction < 16 && IsRefusal(ctype) && |parameters| < 0x1_0000
    ensures var o := Receive(e, Frame(transaction, true, ctype, pdu, parameters), room);
            && o.written == []
            && if pdu == PDU_REGISTER_NOTIFICATION && transaction == e.notification then
                 o.result == Err(Rejected) && RegistrationRefused(e, parameters, o.endpoint)
               else if pdu == PDU_SET_ABSOLUTE_VOLUME && transaction == e.control then
                 && o.result == Err(Rejected)
                 && o.endpoint == e.(control := NO_TRANSACTION, state := Derived(o.endpoint))
                 && forall volume: Byte, room: nat | volume <= MAX_VOLUME && room >= 14 ::
                      SetVolume(o.endpoint, volume, room).result.Ok?
               else
                 o.result == Ok(NoEvent) && o.endpoint == e
  {
    hide ParseVendor, Frame, Allocated, IsPassThrough;
    FrameRoundTrip(transaction, true, ctype, pdu, parameters);
  }

  /** A response to a volume command: the level it accepts, if it does. */
  predicate AcceptsLevel(m: Vendor) {
    m.ctype == AVC_ACCEPTED && |m.parameters| == 1 && m.parameters[0] <= MAX_VOLUME
  }

  /**
   * What any response at all does to the two labels and the volume: a volume command ends exactly when it is accepted with
   * a level or refused; a registration ends exactly when its volume changes after it was confirmed, or when it is refused
   * with other parameters; it is confirmed exactly by an INTERIM volume while it waits. The volume is then the one told,
   * and is told exactly by an acceptance or by anything that notifies a volume under the registration's label. Nothing
   * is sent, and no other field changes.
   */
  lemma ResponsesExactly(e: Endpoint, m: Vendor)
    requires e.control != NO_TRANSACTION ==> e.control != e.notification
    requires m.transaction < 16
    ensures var (after, result) := OnResponse(e, m);
            var toVolume := m.pdu == PDU_SET_ABSOLUTE_VOLUME && m.transaction == e.control;
            var toRegistration := m.pdu == PDU_REGISTER_NOTIFICATION && m.transaction == e.notification;
            var notified := toRegistration && NotifiesVolume(m.parameters);
            && after == e.(state := after.state, volume := after.volume, control := after.control,
                           notification := after.notification, registered := after.registered)
            && (after.control == NO_TRANSACTION <==>
                  e.control == NO_TRANSACTION || (toVolume && (AcceptsLevel(m) || IsRefusal(m.ctype))))
            && (after.control == NO_TRANSACTION || after.control == e.control)
            && (after.notification == NO_TRANSACTION <==>
                  || e.notification == NO_TRANSACTION
                  || (notified && m.ctype == AVC_CHANGED && e.registered)
                  || (toRegistration && !notified && IsRefusal(m.ctype)))
            && (after.notification == NO_TRANSACTION || after.notification == e.notification)
            && (notified && m.ctype == AVC_INTERIM && !e.registered ==> after.registered)
            && (toRegistration && after.notification != NO_TRANSACTION ==>
                  (after.registered <==> e.registered || (notified && m.ctype == AVC_INTERIM)))
            && after.volume == (if notified then m.parameters[1] % 128
                                else if toVolume && AcceptsLevel(m) then m.parameters[0]
                                else e.volume)
            && (after.control != e.control || after.notification != e.notification || after.registered != e.registered ==>
                  after.state == Derived(after))
            && (result == Ok(NoEvent) <==> !toVolume && (!toRegistration || !(notified || IsRefusal(m.ctype))))
            && (result == Ok(Reregister) <==> notified && m.ctype == AVC_CHANGED && e.registered)
            && (result.Ok? && result.value.Volume? <==>
                  (notified && m.ctype == AVC_INTERIM && !e.registered) || (toVolume && AcceptsLevel(m)))
            && (result.Ok? && result.value.Volume? ==> result.value.volume == after.volume)
  {
  }

  // ----- requests

  /**
   * Connecting from `Disconnected` sends the volume as a command under a free label and waits for it; otherwise, or above
   * the maximum, it is refused and changes nothing.
   */
  lemma ConnectingSendsVolume(e: Endpoint, volume: Byte, room: nat)
    requires room >= 14 && e.control == NO_TRANSACTION && e.notification == NO_TRANSACTION
    ensures var o := Connected(e, volume, room);
            if e.state.Disconnected? && volume <= 127 then
              && o.result == Ok(14) && o.endpoint.control == e.next % 16
              && o.endpoint == e.(state := WaitingSetVolume, volume := volume, control := e.next % 16, next := (e.next + 1) % 16)
              && ParseVendor(o.written) == Some(Vendor(e.next % 16, false, AVC_CONTROL, PDU_SET_ABSOLUTE_VOLUME, [volume]))
            else
              o == Outcome(e, Err(BadState), [])
  {
    hide ParseVendor, Frame;
    FrameRoundTrip(e.next % 16, false, AVC_CONTROL, PDU_SET_ABSOLUTE_VOLUME, [volume]);
    assert (e.next % 16 + 1) % 16 == (e.next + 1) % 16;
  }

  /** A registration that is sent waits for its first volume, whatever an earlier one had come to. */
  lemma RegisteringWaits(e: Endpoint, room: nat)
    ensures var o := Register(e, room);
            o.result.Ok? ==>
              && o.endpoint.notification < 16 && o.endpoint.notification != e.control && !o.endpoint.registered
              && o.endpoint.state == (if e.control == NO_TRANSACTION then WaitingInterim else WaitingSetVolume)
              && ParseVendor(o.written)
                 == Some(Vendor(o.endpoint.notification, false, AVC_NOTIFY, PDU_REGISTER_NOTIFICATION, [EVENT_VOLUME_CHANGED, 0, 0, 0, 0]))
  {
    hide ParseVendor, Frame;
    FrameRoundTrip(Allocated(e), false, AVC_NOTIFY, PDU_REGISTER_NOTIFICATION, [EVENT_VOLUME_CHANGED, 0, 0, 0, 0]);
  }

  /** A disconnected endpoint refuses everything but connecting, and nothing changes it. */
  lemma DisconnectedRefuses(e: Endpoint, packet: seq<Byte>, volume: Byte, room: nat)
    requires e.state.Disconnected?
    ensures Receive(e, packet, room) == Outcome(e, Err(BadPacket), [])
    ensures SetVolume(e, volume, room) == Register(e, room) == TargetMoved(e, volume, room) == Outcome(e, Err(BadState), [])
  {
  }

  // ----- the panel

  /** The operation identifiers of the AV/C panel subunit. */
  function KeyOf(control: MediaControl): Byte {
    match control
    case Play => 0x44
    case Pause => 0x46
    case Next => 0x4b
    case Previous => 0x4c
  }

  /** A key pressed or released, as a pass-through command without operands. */
  function KeyPacket(transaction: Byte, key: Byte, released: bool): seq<Byte>
    requires transaction < 16 && key < 128
  {
    [transaction * 16, 0x11, 0x0e, AVC_CONTROL, SUBUNIT_PANEL, OPCODE_PASS_THROUGH, key + (if released then 128 else 0), 0]
  }

  /**
   * Pressing a key of the panel is reported as that control, once; its release is accepted without a report. Any other
   * key is answered NOT_IMPLEMENTED. The endpoint does not change, and the answer is the command under its own label.
   */
  lemma KeysAreHeard(e: Endpoint, transaction: Byte, key: Byte, released: bool, room: nat)
    requires !e.state.Disconnected? && transaction < 16 && key < 128 && room >= 8
    ensures var o := Receive(e, KeyPacket(transaction, key, released), room);
            && o.endpoint == e && o.result.Ok? && |o.written| == 8
            && o.written[0] == transaction * 16 + 2 && o.written[4..] == KeyPacket(transaction, key, released)[4..]
            && (forall control :: o.result == Ok(PeerControl(control, 8)) <==> key == KeyOf(control) && !released)
            && (o.written[3] == AVC_ACCEPTED <==> exists control :: key == KeyOf(control))
            && (o.written[3] == AVC_NOT_IMPLEMENTED <==> forall control :: key != KeyOf(control))
  {
    var packet := KeyPacket(transaction, key, released);
    assert packet[0] / 16 == transaction && packet[0] / 4 % 4 == 0 && packet[0] / 2 % 2 == 0 && packet[0] % 2 == 0;
    KeysAreNamed(packet[6]);
    assert packet[6] % 128 == key;
  }

  /** Of pass-through packets, responses are ignored; commands other than CONTROL, or of another length than they say, are errors. */
  lemma OnlyControlsAreKeys(e: Endpoint, packet: seq<Byte>, room: nat)
    requires !e.state.Disconnected? && IsPassThrough(packet)
    ensures var o := Receive(e, packet, room);
            && (Has(packet[0], 2) ==> o == Outcome(e, Ok(NoEvent), []))
            && (!Has(packet[0], 2) && packet[3] % 16 != AVC_CONTROL ==> o == Outcome(e, Err(BadPacket), []))
            && (!Has(packet[0], 2) && (|packet| < 8 || |packet| != 8 + packet[7] as int) ==> o == Outcome(e, Err(BadPacket), []))
  {
  }

  lemma KeysAreNamed(operation: Byte)
    ensures forall control :: ControlOf(operation) == Some(control) <==> operation % 128 == KeyOf(control)
    ensures ControlOf(operation).Some? <==> exists control :: operation % 128 == KeyOf(control)
  {
    if ControlOf(operation).Some? {
      assert operation % 128 == KeyOf(ControlOf(operation).value);
    }
  }

  // ----- capabilities

  /** How a peer reads an answer about capabilities: their kind, and `width` bytes for each. */
  function Capabilities(answer: seq<Byte>, width: nat): Option<seq<Byte>> {
    match ParseVendor(answer)
    case None => None
    case Some(m) =>
      if m.response && m.ctype == AVC_STABLE && m.pdu == PDU_GET_CAPABILITIES
         && |m.parameters| >= 2 && |m.parameters| == 2 + width * m.parameters[1]
      then Some(m.parameters[2..])
      else None
  }

  /** The type of an answer. */
  function KindOf(answer: seq<Byte>): Option<Byte> {
    match ParseVendor(answer)
    case None => None
    case Some(m) => Some(m.ctype)
  }

  function Ask(e: Endpoint, transaction: Byte, kind: Byte, room: nat): Outcome<Event>
    requires transaction < 16
  {
    Receive(e, Frame(transaction, false, AVC_STATUS, PDU_GET_CAPABILITIES, [kind]), room)
  }

  function AskFor(e: Endpoint, transaction: Byte, event: Byte, room: nat): Outcome<Event>
    requires transaction < 16
  {
    Receive(e, Frame(transaction, false, AVC_NOTIFY, PDU_REGISTER_NOTIFICATION, [event, 0, 0, 0, 0]), room)
  }

  lemma EventsOffered(e: Endpoint, transaction: Byte, room: nat)
    requires !e.state.Disconnected? && transaction < 16 && room >= 18
    ensures Capabilities(Ask(e, transaction, CAPABILITY_EVENTS_SUPPORTED, room).written, 1) == Some([EVENT_VOLUME_CHANGED])
  {
    hide ParseVendor, Frame;
    FrameRoundTrip(transaction, false, AVC_STATUS, PDU_GET_CAPABILITIES, [CAPABILITY_EVENTS_SUPPORTED]);
    FrameRoundTrip(transaction, true, AVC_STABLE, PDU_GET_CAPABILITIES, [CAPABILITY_EVENTS_SUPPORTED, 1, EVENT_VOLUME_CHANGED]);
  }

  lemma RegistrationAnswered(e: Endpoint, transaction: Byte, event: Byte, room: nat)
    requires !e.state.Disconnected? && transaction < 16 && room >= 18
    ensures var o := AskFor(e, transaction, event, room);
            ParseVendor(o.written)
            == Some(Vendor(transaction, true, if event == EVENT_VOLUME_CHANGED then AVC_INTERIM else AVC_REJECTED,
                           PDU_REGISTER_NOTIFICATION,
                           if event == EVENT_VOLUME_CHANGED then [event, e.volume] else [event, 0, 0, 0, 0]))
  {
    hide ParseVendor, Frame;
    FrameRoundTrip(transaction, false, AVC_NOTIFY, PDU_REGISTER_NOTIFICATION, [event, 0, 0, 0, 0]);
    FrameRoundTrip(transaction, true, AVC_INTERIM, PDU_REGISTER_NOTIFICATION, [event, e.volume]);
    FrameRoundTrip(transaction, true, AVC_REJECTED, PDU_REGISTER_NOTIFICATION, [event, 0, 0, 0, 0]);
  }

  /** A peer that asks which events there are can register for exactly those. */
  lemma OfferedEventsCanBeRegistered(e: Endpoint, transaction: Byte, event: Byte, room: nat)
    requires !e.state.Disconnected? && transaction < 16 && room >= 18
    ensures var offered := Capabilities(Ask(e, transaction, CAPABILITY_EVENTS_SUPPORTED, room).written, 1);
            && offered.Some?
            && KindOf(AskFor(e, transaction, event, room).written)
               == Some(if event in offered.value then AVC_INTERIM else AVC_REJECTED)
  {
    hide ParseVendor, Ask, AskFor, Capabilities;
    EventsOffered(e, transaction, room);
    RegistrationAnswered(e, transaction, event, room);
  }

  /** The one company a peer is told of is the one whose identifier stands in the frames themselves. */
  lemma CompanyIsTheFrames(e: Endpoint, transaction: Byte, room: nat)
    requires !e.state.Disconnected? && transaction < 16 && room >= 18
    ensures var answer := Ask(e, transaction, CAPABILITY_COMPANY_ID, room).written;
            |answer| >= 9 && Capabilities(answer, 3) == Some(answer[6..9])
  {
    FrameRoundTrip(transaction, false, AVC_STATUS, PDU_GET_CAPABILITIES, [CAPABILITY_COMPANY_ID]);
    var parameters := [CAPABILITY_COMPANY_ID, 1, 0x00, 0x19, 0x58];
    FrameRoundTrip(transaction, true, AVC_STABLE, PDU_GET_CAPABILITIES, parameters);
    assert parameters[2..] == [0x00, 0x19, 0x58];
    assert Frame(transaction, true, AVC_STABLE, PDU_GET_CAPABILITIES, parameters)[6..9] == [0x00, 0x19, 0x58];
    hide ParseVendor, Ask;
    assert Ask(e, transaction, CAPABILITY_COMPANY_ID, room).written == Frame(transaction, true, AVC_STABLE, PDU_GET_CAPABILITIES, parameters) by {
      AskedForCompany(e, transaction, room);
    }
  }

  lemma AskedForCompany(e: Endpoint, transaction: Byte, room: nat)
    requires !e.state.Disconnected? && transaction < 16 && room >= 18
    ensures Ask(e, transaction, CAPABILITY_COMPANY_ID, room).written
         == Frame(transaction, true, AVC_STABLE, PDU_GET_CAPABILITIES, [CAPABILITY_COMPANY_ID, 1, 0x00, 0x19, 0x58])
  {
    hide ParseVendor, Frame;
    FrameRoundTrip(transaction, false, AVC_STATUS, PDU_GET_CAPABILITIES, [CAPABILITY_COMPANY_ID]);
  }
}
