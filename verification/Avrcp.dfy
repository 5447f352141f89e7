/**
 * The absolute-volume endpoint of AVRCP as the source has it: one class is both the
 * controller that moves the peer's volume and the target whose volume the peer moves.
 */
module Avrcp {
  import opened Wire
  import opened AvrcpSpec
  import Spec = AvrcpSpec

  class Controller {
    var state: State
    var volume: Byte
    var nextTransaction: Byte
    var controlTransaction: Byte
    var notificationTransaction: Byte
    var notificationRegistered: bool
    var targetNotificationTransaction: Byte

    ghost function View(): Endpoint
      reads this
    {
      Endpoint(state, volume, nextTransaction, controlTransaction, notificationTransaction,
               notificationRegistered, targetNotificationTransaction)
    }

    constructor ()
      ensures View() == New
    {
      state := Disconnected;
      volume := DEFAULT_VOLUME;
      nextTransaction := 0;
      controlTransaction := NO_TRANSACTION;
      notificationTransaction := NO_TRANSACTION;
      notificationRegistered := false;
      targetNotificationTransaction := NO_TRANSACTION;
    }

    method RefreshState()
      modifies this`state
      ensures View() == Refresh(old(View()))
    {
      if controlTransaction != NO_TRANSACTION {
        state := WaitingSetVolume;
      } else if notificationTransaction == NO_TRANSACTION {
        state := Ready;
      } else if notificationRegistered {
        state := Registered;
      } else {
        state := WaitingInterim;
      }
    }

    /** The `unreachable!` after the loop is proved unreachable: two labels cannot fill sixteen. */
    method AllocateTransaction() returns (transaction: Byte)
      modifies this`nextTransaction
      ensures transaction == Allocated(old(View()))
      ensures View() == Take(old(View()))
    {
      ghost var was := View();
      transaction := 0;
      var round := 0;
      while round < 16
        invariant 0 <= round <= 2
        invariant nextTransaction % 16 == Candidate(was, round)
        invariant forall j | 0 <= j < round :: Live(was, Candidate(was, j))
        invariant View() == was.(next := nextTransaction)
      {
        CandidatesDiffer(was, round, nextTransaction);
        transaction := nextTransaction % 16;
        nextTransaction := Following(nextTransaction);
        if transaction != controlTransaction && transaction != notificationTransaction {
          return;
        }
        assert Live(was, Candidate(was, round));
        if round == 2 {
          CandidatesDiffer(was, 0, was.next);
        }
        round := round + 1;
      }
      assert false;
    }

    /** The fixed bytes of a vendor-dependent frame, the first thirteen but its label, command type, PDU and length. */
    method WritePrefix(length: nat, out: array<Byte>)
      requires 13 <= length <= out.Length
      modifies out
      ensures out[1] == 0x11 && out[2] == 0x0e && out[4] == SUBUNIT_PANEL && out[5] == OPCODE_VENDOR
      ensures out[6] == 0x00 && out[7] == 0x19 && out[8] == 0x58 && out[10] == 0
      ensures forall k | length <= k < out.Length :: out[k] == old(out[k])
    {
      Clear(out, 0, length);
      Store(out, 1, [0x11, 0x0e]);
      out[4] := SUBUNIT_PANEL;
      out[5] := OPCODE_VENDOR;
      Store(out, 6, [0x00, 0x19, 0x58]);
    }

    method WriteFrame(transaction: Byte, response: bool, ctype: Byte, pdu: Byte, parameters: seq<Byte>, out: array<Byte>)
      requires |parameters| < 0x1_0000 && 13 + |parameters| <= out.Length
      modifies out
      ensures out[..] == Frame(transaction, response, ctype, pdu, parameters) + old(out[13 + |parameters|..])
    {
      hide Frame;
      var length := 13 + |parameters|;
      WritePrefix(length, out);
      out[0] := transaction * 16 % 256 + (if response then 2 else 0);
      out[3] := ctype;
      out[9] := pdu;
      out[11] := |parameters| / 256;
      out[12] := |parameters| % 256;
      Store(out, 13, parameters);
      FrameBytes(transaction, response, ctype, pdu, parameters, out[..], old(out[..]));
    }

    method Respond(transaction: Byte, ctype: Byte, pdu: Byte, parameters: seq<Byte>, out: array<Byte>)
      returns (result: Result<nat, Error>)
      modifies out
      ensures var o := Spec.Respond(View(), transaction, ctype, pdu, parameters, out.Length);
              result == o.result && out[..] == o.written + old(out[|o.written|..])
    {
      var length := 13 + |parameters|;
      if out.Length < length || |parameters| > 0xffff {
        return Err(BadPacket);
      }
      WriteFrame(transaction, true, ctype, pdu, parameters, out);
      result := Ok(length);
    }

    method Command(ctype: Byte, pdu: Byte, parameters: seq<Byte>, out: array<Byte>)
      returns (result: Result<(nat, Byte), Error>)
      modifies this`nextTransaction, out
      ensures var o := Spec.Command(old(View()), ctype, pdu, parameters, out.Length);
              View() == o.endpoint && result == o.result && out[..] == o.written + old(out[|o.written|..])
    {
      var length := 13 + |parameters|;
      if out.Length < length || |parameters| > 0xffff {
        return Err(BadPacket);
      }
      var transaction := AllocateTransaction();
      WriteFrame(transaction, false, ctype, pdu, parameters, out);
      result := Ok((length, transaction));
    }

    method SetAbsoluteVolume(newVolume: Byte, out: array<Byte>) returns (result: Result<nat, Error>)
      modifies this, out
      ensures var o := SetVolume(old(View()), newVolume, out.Length);
              View() == o.endpoint && result == o.result && out[..] == o.written + old(out[|o.written|..])
    {
      if state == Disconnected || state == Failed || newVolume > MAX_VOLUME {
        return Err(BadState);
      }
      var sent := Command(AVC_CONTROL, PDU_SET_ABSOLUTE_VOLUME, [newVolume], out);
      if sent.Err? {
        return Err(sent.error);
      }
      volume := newVolume;
      controlTransaction := sent.value.1;
      RefreshState();
      result := Ok(sent.value.0);
    }

    method RegisterVolumeNotification(out: array<Byte>) returns (result: Result<nat, Error>)
      modifies this, out
      ensures var o := Register(old(View()), out.Length);
              View() == o.endpoint && result == o.result && out[..] == o.written + old(out[|o.written|..])
    {
      if state == Disconnected || state == Failed || notificationTransaction != NO_TRANSACTION {
        return Err(BadState);
      }
      var sent := Command(AVC_NOTIFY, PDU_REGISTER_NOTIFICATION, [EVENT_VOLUME_CHANGED, 0, 0, 0, 0], out);
      if sent.Err? {
        return Err(sent.error);
      }
      notificationTransaction := sent.value.1;
      notificationRegistered := false;
      RefreshState();
      result := Ok(sent.value.0);
    }

    method Connect(newVolume: Byte, out: array<Byte>) returns (result: Result<nat, Error>)
      modifies this, out
      ensures var o := Connected(old(View()), newVolume, out.Length);
              View() == o.endpoint && result == o.result && out[..] == o.written + old(out[|o.written|..])
    {
      if state != Disconnected || newVolume > MAX_VOLUME {
        return Err(BadState);
      }
      state := Ready;
      volume := newVolume;
      result := SetAbsoluteVolume(newVolume, out);
    }

    /** Both `connected_for_volume_sync` and `target_connected`, whose bodies are the same. */
    method ConnectSilently(newVolume: Byte) returns (result: Result<(), Error>)
      modifies this
      ensures result == (if Enter(old(View()), newVolume).Some? then Ok(()) else Err(BadState))
      ensures View() == (if result.Ok? then Enter(old(View()), newVolume).value else old(View()))
    {
      if state != Disconnected || newVolume > MAX_VOLUME {
        return Err(BadState);
      }
      state := Ready;
      volume := newVolume;
      result := Ok(());
    }

    method TargetVolumeChanged(newVolume: Byte, out: array<Byte>) returns (result: Result<nat, Error>)
      modifies this, out
      ensures var o := TargetMoved(old(View()), newVolume, out.Length);
              View() == o.endpoint && result == o.result && out[..] == o.written + old(out[|o.written|..])
    {
      if state == Disconnected || newVolume > MAX_VOLUME {
        return Err(BadState);
      }
      volume := newVolume;
      if targetNotificationTransaction == NO_TRANSACTION {
        return Ok(0);
      }
      var transaction := targetNotificationTransaction;
      targetNotificationTransaction := NO_TRANSACTION;
      result := Respond(transaction, AVC_CHANGED, PDU_REGISTER_NOTIFICATION, [EVENT_VOLUME_CHANGED, newVolume], out);
    }

    method ReceivePassThrough(transaction: Byte, ctype: Byte, packet: seq<Byte>, out: array<Byte>)
      returns (result: Result<Event, Error>)
      requires IsPassThrough(packet) && transaction == packet[0] / 16 && ctype == packet[3] % 16
      modifies out
      ensures var o := OnPassThrough(View(), packet, out.Length);
              View() == o.endpoint && result == o.result && out[..] == o.written + old(out[|o.written|..])
    {
      hide ControlOf;
      if ctype != AVC_CONTROL || |packet| < 8 || |packet| - 8 != packet[7] {
        return Err(BadPacket);
      }
      var released := packet[6] / 128 % 2 == 1;
      var control := ControlOf(packet[6]);
      var response := if control.Some? then AVC_ACCEPTED else AVC_NOT_IMPLEMENTED;
      if out.Length < |packet| {
        return Err(BadPacket);
      }
      Store(out, 0, packet);
      out[0] := transaction * 16 % 256 + 2;
      out[3] := response;
      EchoBytes(packet, transaction * 16 % 256 + 2, response, out[..], old(out[..]));
      if control.Some? && !released {
        result := Ok(PeerControl(control.value, |packet|));
      } else {
        result := Ok(PeerCommand(|packet|));
      }
    }

    method ReceiveCommand(transaction: Byte, ctype: Byte, pdu: Byte, parameters: seq<Byte>, out: array<Byte>)
      returns (result: Result<Event, Error>)
      modifies this, out
      ensures var o := OnCommand(old(View()), Vendor(transaction, false, ctype, pdu, parameters), out.Length);
              View() == o.endpoint && result == o.result && out[..] == o.written + old(out[|o.written|..])
    {
      var answer: Result<nat, Error>;
      if ctype == AVC_STATUS && pdu == PDU_GET_CAPABILITIES && parameters == [CAPABILITY_COMPANY_ID] {
        answer := Respond(transaction, AVC_STABLE, pdu, [CAPABILITY_COMPANY_ID, 1, 0x00, 0x19, 0x58], out);
      } else if ctype == AVC_STATUS && pdu == PDU_GET_CAPABILITIES && parameters == [CAPABILITY_EVENTS_SUPPORTED] {
        answer := Respond(transaction, AVC_STABLE, pdu, [CAPABILITY_EVENTS_SUPPORTED, 1, EVENT_VOLUME_CHANGED], out);
      } else if ctype == AVC_CONTROL && pdu == PDU_SET_ABSOLUTE_VOLUME && |parameters| == 1 && parameters[0] <= MAX_VOLUME {
        volume := parameters[0];
        answer := Respond(transaction, AVC_ACCEPTED, pdu, [parameters[0]], out);
        return if answer.Ok? then Ok(PeerVolume(parameters[0], answer.value)) else Err(answer.error);
      } else if ctype == AVC_NOTIFY && pdu == PDU_REGISTER_NOTIFICATION && |parameters| == 5 && parameters[0] == EVENT_VOLUME_CHANGED {
        targetNotificationTransaction := transaction;
        answer := Respond(transaction, AVC_INTERIM, pdu, [EVENT_VOLUME_CHANGED, volume], out);
      } else {
        var response := if pdu == PDU_GET_CAPABILITIES || pdu == PDU_SET_ABSOLUTE_VOLUME || pdu == PDU_REGISTER_NOTIFICATION
                        then AVC_REJECTED else AVC_NOT_IMPLEMENTED;
        answer := Respond(transaction, response, pdu, parameters, out);
      }
      result := if answer.Ok? then Ok(PeerCommand(answer.value)) else Err(answer.error);
    }

    method ReceiveResponse(transaction: Byte, ctype: Byte, pdu: Byte, parameters: seq<Byte>)
      returns (result: Result<Event, Error>)
      modifies this
      ensures (View(), result) == OnResponse(old(View()), Vendor(transaction, true, ctype, pdu, parameters))
    {
      if && pdu == PDU_REGISTER_NOTIFICATION && transaction == notificationTransaction
         && |parameters| == 2 && parameters[0] == EVENT_VOLUME_CHANGED {
        volume := parameters[1] % 128;
        if ctype == AVC_INTERIM && !notificationRegistered {
          notificationRegistered := true;
          RefreshState();
          return Ok(Volume(volume));
        }
        if ctype == AVC_CHANGED && notificationRegistered {
          notificationTransaction := NO_TRANSACTION;
          notificationRegistered := false;
          RefreshState();
          return Ok(Reregister);
        }
        return Err(Rejected);
      }
      if && pdu == PDU_REGISTER_NOTIFICATION && transaction == notificationTransaction
         && (ctype == AVC_REJECTED || ctype == AVC_NOT_IMPLEMENTED) {
        notificationTransaction := NO_TRANSACTION;
        notificationRegistered := false;
        RefreshState();
        return Err(Rejected);
      }
      if pdu == PDU_SET_ABSOLUTE_VOLUME && transaction == controlTransaction {
        if ctype == AVC_ACCEPTED && |parameters| == 1 && parameters[0] <= MAX_VOLUME {
          volume := parameters[0];
          controlTransaction := NO_TRANSACTION;
          RefreshState();
          return Ok(Volume(volume));
        }
        if ctype == AVC_REJECTED || ctype == AVC_NOT_IMPLEMENTED {
          controlTransaction := NO_TRANSACTION;
          RefreshState();
        }
        return Err(Rejected);
      }
      result := Ok(NoEvent);
    }

    method Receive(packet: seq<Byte>, out: array<Byte>) returns (result: Result<Event, Error>)
      modifies this, out
      ensures var o := Spec.Receive(old(View()), packet, out.Length);
              View() == o.endpoint && result == o.result && out[..] == o.written + old(out[|o.written|..])
    {
      if |packet| < 6 || state == Disconnected {
        return Err(BadPacket);
      }
      var transaction := packet[0] / 16;
      var response := packet[0] / 2 % 2;
      if || packet[0] / 4 % 4 != 0 || packet[0] % 2 != 0
         || Be16(packet[1], packet[2]) != 0x110e || packet[4] != SUBUNIT_PANEL {
        return Err(BadPacket);
      }
      var ctype := packet[3] % 16;
      if packet[5] == OPCODE_PASS_THROUGH {
        if response == 0 {
          result := ReceivePassThrough(transaction, ctype, packet, out);
        } else {
          result := Ok(NoEvent);
        }
        return;
      }
      if |packet| < 13 || packet[5] != OPCODE_VENDOR {
        return Err(BadPacket);
      }
      var pdu := packet[9];
      if |packet| != 13 + Be16(packet[11], packet[12]) {
        return Err(BadPacket);
      }
      var parameters := packet[13..];
      if packet[6..9] != [0x00, 0x19, 0x58] || packet[10] % 4 != 0 {
        return Err(BadPacket);
      }
      assert packet[6..9][0] == packet[6] && packet[6..9][1] == packet[7] && packet[6..9][2] == packet[8];
      if response == 0 {
        result := ReceiveCommand(transaction, ctype, pdu, parameters, out);
      } else {
        result := ReceiveResponse(transaction, ctype, pdu, parameters);
      }
    }

    method Disconnect()
      modifies this
      ensures View() == New
    {
      state := Disconnected;
      volume := DEFAULT_VOLUME;
      nextTransaction := 0;
      controlTransaction := NO_TRANSACTION;
      notificationTransaction := NO_TRANSACTION;
      notificationRegistered := false;
      targetNotificationTransaction := NO_TRANSACTION;
    }
  }

  /** The packet with two bytes changed, then what was there before. */
  lemma EchoBytes(packet: seq<Byte>, first: Byte, ctype: Byte, u: seq<Byte>, before: seq<Byte>)
    requires 4 <= |packet| <= |u| == |before| && u[0] == first && u[3] == ctype
    requires forall k | 0 <= k < |u| && k != 0 && k != 3 :: u[k] == if k < |packet| then packet[k] else before[k]
    ensures u == packet[0 := first][3 := ctype] + before[|packet|..]
  {
  }

  /** Thirteen header bytes, then the parameters, then what was there before. */
  lemma FrameBytes(transaction: Byte, response: bool, ctype: Byte, pdu: Byte, parameters: seq<Byte>, u: seq<Byte>, before: seq<Byte>)
    requires |parameters| < 0x1_0000 && 13 + |parameters| <= |u| == |before|
    requires u[0] == transaction * 16 % 256 + (if response then 2 else 0) && u[1] == 0x11 && u[2] == 0x0e
    requires u[3] == ctype && u[4] == SUBUNIT_PANEL && u[5] == OPCODE_VENDOR
    requires u[6] == 0x00 && u[7] == 0x19 && u[8] == 0x58 && u[9] == pdu && u[10] == 0
    requires u[11] == |parameters| / 256 && u[12] == |parameters| % 256
    requires forall k | 13 <= k < |u| :: u[k] == if k < 13 + |parameters| then parameters[k - 13] else before[k]
    ensures u == Frame(transaction, response, ctype, pdu, parameters) + before[13 + |parameters|..]
  {
    assert u[..13] + parameters == Frame(transaction, response, ctype, pdu, parameters);
    assert u[13..13 + |parameters|] == parameters;
    assert u == u[..13] + u[13..13 + |parameters|] + before[13 + |parameters|..];
  }
}
