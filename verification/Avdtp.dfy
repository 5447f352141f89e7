/** The AVDTP source as the source has it: fields, a fragment buffer, and writes into `out`. */
module Avdtp {
  import opened Wire
  import opened AvdtpSpec
  import Spec = AvdtpSpec

  /** The specified outcome: the state, the value returned, and the packet at the front of `out`. */
  ghost predicate Did(o: Outcome, after: Source, result: Result<nat, Error>, out: seq<Byte>, before: seq<Byte>) {
    after == o.source && result == o.result && |o.written| <= |before| && out == o.written + before[|o.written|..]
  }

  /** The `fragment_*` fields of the source: a message being put together from packets. */
  class Reassembly {
    var active: bool
    var length: nat
    var transaction: Byte
    var message: Byte
    var signal: Byte
    var expected: Byte
    var received: Byte
    const payload: array<Byte>
    /** The buffer beyond what has arrived is not part of the state. */
    ghost var arrived: Assembly

    ghost predicate Valid()
      reads this, payload
    {
      && payload.Length == FRAGMENT_CAPACITY && length <= FRAGMENT_CAPACITY
      && arrived == Assembly(active, transaction, message, signal, expected, received, payload[..length])
    }

    constructor ()
      ensures Valid() && arrived == NO_ASSEMBLY && fresh(payload)
    {
      active, length, transaction, message := false, 0, 0, 0;
      signal, expected, received := 0, 0, 0;
      payload := new Byte[FRAGMENT_CAPACITY](_ => 0);
      arrived := NO_ASSEMBLY;
    }

    method Reset()
      requires Valid()
      modifies this
      ensures Valid() && arrived == NO_ASSEMBLY
    {
      active := false;
      length := 0;
      transaction := 0;
      message := 0;
      signal := 0;
      expected := 0;
      received := 0;
      arrived := NO_ASSEMBLY;
    }

    /** `fragment` is the whole START packet with room for its payload. */
    method Begin(packet: seq<Byte>)
      requires Valid() && 3 <= |packet| <= 3 + FRAGMENT_CAPACITY
      modifies this, payload
      ensures Valid()
      ensures arrived == Assembly(true, packet[0] / 16, packet[0] % 4, packet[2], packet[1], 1, packet[3..])
    {
      Store(payload, 0, packet[3..]);
      active := true;
      length := |packet| - 3;
      transaction := packet[0] / 16;
      message := packet[0] % 4;
      signal := packet[2];
      expected := packet[1];
      received := 1;
      assert payload[..length] == packet[3..];
      arrived := Assembly(true, transaction, message, signal, expected, received, payload[..length]);
    }

    method Append(fragment: seq<Byte>)
      requires Valid() && length + |fragment| <= FRAGMENT_CAPACITY
      modifies this, payload
      ensures Valid()
      ensures arrived == old(arrived).(received := (old(received) as int + 1) % 256, payload := old(arrived).payload + fragment)
    {
      ghost var before := arrived.payload;
      Store(payload, length, fragment);
      length := length + |fragment|;
      received := (received as int + 1) % 256;
      assert payload[..length] == before + fragment;
      arrived := arrived.(received := received, payload := before + fragment);
    }
  }

  class Endpoint {
    var linked: bool
    var state: State
    const localSeid: Byte
    var remoteSeid: Byte
    var selectedSbc: Sbc
    var delayReporting: bool
    var reportedDelay: U16
    var localInUse: bool
    var mediaConnected: bool
    var sinks: seq<Byte>
    var sinkPos: nat
    var lastCodecCaps: seq<Byte>
    var lastReject: (Byte, Byte)
    var nextTransaction: Byte
    var pendingTransaction: Byte
    var pendingSignal: Byte
    const fragment: Reassembly

    ghost predicate Valid()
      reads fragment, fragment.payload
    {
      fragment.Valid()
    }

    /** `out` is the caller's buffer, not the one fragments are collected in. */
    ghost predicate Ready(out: array<Byte>)
      reads fragment, fragment.payload
    {
      Valid() && out != fragment.payload
    }

    ghost function View(): Source
      reads this, fragment
    {
      Source(linked, state, localSeid, remoteSeid, selectedSbc, delayReporting, reportedDelay, localInUse,
             mediaConnected, sinks, sinkPos, lastCodecCaps, lastReject, nextTransaction, pendingTransaction,
             pendingSignal, fragment.arrived)
    }

    constructor ()
      ensures Valid() && View() == New && fresh(fragment) && fresh(fragment.payload)
    {
      linked, state, localSeid, remoteSeid, selectedSbc := false, Idle, 1, 0, NO_SBC;
      delayReporting, reportedDelay, localInUse, mediaConnected := false, 0, false, false;
      sinks, sinkPos, lastCodecCaps, lastReject := [], 0, [0, 0, 0, 0, 0, 0], (0, 0);
      nextTransaction, pendingTransaction, pendingSignal := 0, 0, 0;
      fragment := new Reassembly();
    }

    method Respond(transaction: Byte, signal: Byte, message: Byte, payload: seq<Byte>, out: array<Byte>)
      returns (result: Result<nat, Error>)
      requires Ready(out)
      modifies out
      ensures Valid() && Did(Spec.Respond(View(), transaction, signal, message, payload, out.Length),
                             View(), result, out[..], old(out[..]))
    {
      var length := 2 + |payload|;
      if out.Length < length {
        return Err(Overflow);
      }
      out[0] := (transaction * 16 % 256 + message) % 256;
      out[1] := signal;
      Store(out, 2, payload);
      result := Ok(length);
    }

    method Command(signal: Byte, payload: seq<Byte>, out: array<Byte>) returns (result: Result<nat, Error>)
      requires Ready(out)
      modifies this, out
      ensures Valid() && Did(Spec.Command(old(View()), signal, payload, out.Length), View(), result, out[..], old(out[..]))
    {
      hide Message;
      var transaction := nextTransaction % 16;
      nextTransaction := (transaction + 1) % 16;
      result := Respond(transaction, signal, MSG_COMMAND, payload, out);
      if result.Ok? {
        pendingTransaction := transaction;
        pendingSignal := signal;
      }
    }

    method Connect(out: array<Byte>) returns (result: Result<nat, Error>)
      requires Ready(out)
      modifies this, out
      ensures Valid() && Did(Connected(old(View()), out.Length), View(), result, out[..], old(out[..]))
    {
      if linked {
        return Err(StateError);
      }
      result := Command(DISCOVER, [], out);
      if result.Ok? {
        linked := true;
        state := Discovering;
      }
    }

    method Start(out: array<Byte>) returns (result: Result<nat, Error>)
      requires Ready(out)
      modifies this, out
      ensures Valid() && Did(Started(old(View()), out.Length), View(), result, out[..], old(out[..]))
    {
      if !linked || state != Open || remoteSeid == 0 || pendingSignal != 0 {
        return Err(StateError);
      }
      result := Command(START, [Shifted(remoteSeid)], out);
      if result.Ok? {
        state := Starting;
      }
    }

    method Suspend(out: array<Byte>) returns (result: Result<nat, Error>)
      requires Ready(out)
      modifies this, out
      ensures Valid() && Did(Suspended(old(View()), out.Length), View(), result, out[..], old(out[..]))
    {
      if !linked || state != Streaming || remoteSeid == 0 || pendingSignal != 0 {
        return Err(StateError);
      }
      result := Command(SUSPEND, [Shifted(remoteSeid)], out);
      if result.Ok? {
        state := Suspending;
      }
    }

    method ResetFragment()
      requires Valid()
      modifies fragment
      ensures Valid() && View() == old(View()).(assembly := NO_ASSEMBLY)
    {
      fragment.Reset();
    }

    /** What a stream that ends or changes its sink forgets of delay reporting. */
    method ForgetDelay()
      requires Valid()
      modifies this`delayReporting, this`reportedDelay
      ensures Valid() && View() == old(View()).(delayReporting := false, delay := 0)
    {
      delayReporting := false;
      reportedDelay := 0;
    }

    method ReleaseStream()
      requires Valid()
      modifies this`state, this`remoteSeid, this`localInUse
      ensures Valid() && View() == old(View()).(state := Idle, remoteSeid := 0, localInUse := false)
    {
      state := Idle;
      remoteSeid := 0;
      localInUse := false;
    }

    method TurnTo(seid: Byte)
      requires Valid()
      modifies this`remoteSeid, this`state
      ensures Valid() && View() == old(View()).(remoteSeid := seid, state := ReadingCapabilities)
    {
      remoteSeid := seid;
      state := ReadingCapabilities;
    }

    method Choose(config: Sbc, delay: bool)
      requires Valid()
      modifies this`selectedSbc, this`delayReporting, this`state
      ensures Valid() && View() == old(View()).(sbc := config, delayReporting := delay, state := Configuring)
    {
      selectedSbc := config;
      delayReporting := delay;
      state := Configuring;
    }

    method Receive(packet: seq<Byte>, out: array<Byte>) returns (result: Result<nat, Error>)
      requires Ready(out)
      modifies this, out, fragment, fragment.payload
      ensures Valid() && Did(Spec.Receive(old(View()), packet, out.Length), View(), result, out[..], old(out[..]))
    {
      hide Spec.Dispatch, Spec.ReceiveStart, Spec.ReceiveRest;
      if !linked || packet == [] || |packet| > MAX_SDU {
        ResetFragment();
        return Err(PacketError);
      }
      var transaction := packet[0] / 16;
      var packetType := packet[0] / 4 % 4;
      var message := packet[0] % 4;
      if packetType == PACKET_SINGLE {
        if fragment.active {
          ResetFragment();
          return Err(PacketError);
        }
        if |packet| < 2 || packet[1] >= 0x40 {
          return Err(PacketError);
        }
        result := Dispatch(transaction, message, packet[1], packet[2..], out);
      } else if packetType == PACKET_START {
        result := ReceiveStart(packet, out);
      } else {
        result := ReceiveRest(packet, out);
      }
    }

    method ReceiveStart(packet: seq<Byte>, out: array<Byte>) returns (result: Result<nat, Error>)
      requires Ready(out) && packet != []
      modifies fragment, fragment.payload
      ensures Valid() && Did(Spec.ReceiveStart(old(View()), packet), View(), result, out[..], old(out[..]))
    {
      if fragment.active {
        ResetFragment();
        return Err(PacketError);
      }
      if |packet| < 3 || packet[1] < 2 || packet[2] >= 0x40 {
        return Err(PacketError);
      }
      if |packet| - 3 > FRAGMENT_CAPACITY {
        return Err(Overflow);
      }
      fragment.Begin(packet);
      result := Ok(0);
    }

    method ReceiveRest(packet: seq<Byte>, out: array<Byte>) returns (result: Result<nat, Error>)
      requires Ready(out) && packet != []
      modifies this, out, fragment, fragment.payload
      ensures Valid() && Did(Spec.ReceiveRest(old(View()), packet, out.Length), View(), result, out[..], old(out[..]))
    {
      hide Spec.Dispatch;
      if !fragment.active || packet[0] / 16 != fragment.transaction || packet[0] % 4 != fragment.message {
        ResetFragment();
        return Err(PacketError);
      }
      var last := packet[0] / 4 % 4 == PACKET_END;
      var next := fragment.received as int + 1;
      if (!last && next >= fragment.expected) || (last && next != fragment.expected) {
        ResetFragment();
        return Err(PacketError);
      }
      if fragment.length + |packet| - 1 > FRAGMENT_CAPACITY {
        ResetFragment();
        return Err(Overflow);
      }
      fragment.Append(packet[1..]);
      if !last {
        return Ok(0);
      }
      var assembled := fragment.payload[..fragment.length];
      var signal, assembledTransaction, assembledMessage := fragment.signal, fragment.transaction, fragment.message;
      ResetFragment();
      result := Dispatch(assembledTransaction, assembledMessage, signal, assembled, out);
    }

    method Dispatch(transaction: Byte, message: Byte, signal: Byte, payload: seq<Byte>, out: array<Byte>)
      returns (result: Result<nat, Error>)
      requires Ready(out)
      modifies this, out
      ensures Valid() && Did(Spec.Dispatch(old(View()), transaction, message, signal, payload, out.Length),
                             View(), result, out[..], old(out[..]))
    {
      hide Spec.Accept, Spec.Reject, Spec.RemoteCommand;
      match message {
        case 2 => result := Accept(transaction, signal, payload, out);
        case 3 => result := Reject(transaction, signal, payload, out);
        case 1 => result := Reject(transaction, signal, payload, out);
        case 0 => result := RemoteCommand(transaction, signal, payload, out);
        case _ => result := Err(PacketError);
      }
    }

    method Reject(transaction: Byte, signal: Byte, payload: seq<Byte>, out: array<Byte>) returns (result: Result<nat, Error>)
      requires Ready(out)
      modifies this, out
      ensures Valid() && Did(Spec.Reject(old(View()), transaction, signal, payload, out.Length),
                             View(), result, out[..], old(out[..]))
    {
      hide Spec.NextSink, Spec.Command;
      if signal != pendingSignal || transaction != pendingTransaction {
        return Ok(0);
      }
      pendingSignal := 0;
      var code := if payload == [] then 0 else payload[|payload| - 1];
      lastReject := (signal, code);
      if signal == GET_ALL_CAPABILITIES {
        result := Command(GET_CAPABILITIES, [Shifted(remoteSeid)], out);
        return;
      }
      if signal == GET_CAPABILITIES && state == ReadingCapabilities {
        result := NextSinkCapabilities(out);
        return;
      }
      result := Refuse(signal, code);
    }

    /** What a refusal with no next command to try leaves of the stream. */
    method Refuse(signal: Byte, code: Byte) returns (result: Result<nat, Error>)
      requires Valid()
      modifies this
      ensures Valid() && (View(), result) == AfterRefusal(old(View()), signal, code)
    {
      if signal == OPEN {
        state := Configuring;
      } else if signal == START {
        state := Open;
        return Ok(0);
      } else if signal == SUSPEND {
        state := Streaming;
        return Ok(0);
      } else if signal == DISCOVER || signal == GET_CAPABILITIES || signal == SET_CONFIGURATION {
        ReleaseStream();
        ForgetDelay();
        selectedSbc := NO_SBC;
      }
      result := Err(Refused(code));
    }

    method Accept(transaction: Byte, signal: Byte, payload: seq<Byte>, out: array<Byte>) returns (result: Result<nat, Error>)
      requires Ready(out)
      modifies this, out
      ensures Valid() && Did(Spec.Accept(old(View()), transaction, signal, payload, out.Length),
                             View(), result, out[..], old(out[..]))
    {
      hide Spec.ChooseSbc, Spec.Discovered, Spec.Command;
      if signal != pendingSignal || transaction != pendingTransaction {
        return Ok(0);
      }
      pendingSignal := 0;
      if signal == DISCOVER {
        result := ListSinks(payload, out);
      } else if signal == GET_ALL_CAPABILITIES || signal == GET_CAPABILITIES {
        result := ChooseSbc(payload, out);
      } else if signal == SET_CONFIGURATION {
        if payload != [] {
          return Err(PacketError);
        }
        localInUse := true;
        state := Opening;
        result := Command(OPEN, [Shifted(remoteSeid)], out);
      } else if signal == OPEN {
        if payload != [] {
          return Err(PacketError);
        }
        state := Open;
        result := Ok(0);
      } else if signal == START {
        if state != Starting || payload != [] {
          return Err(PacketError);
        }
        state := Streaming;
        result := Ok(0);
      } else if signal == SUSPEND {
        if state != Suspending || payload != [] {
          return Err(PacketError);
        }
        state := Open;
        result := Ok(0);
      } else {
        result := Err(PacketError);
      }
    }

    /** The DISCOVER branch of accept: filter the end points, keep eight, probe the first. */
    method ListSinks(payload: seq<Byte>, out: array<Byte>) returns (result: Result<nat, Error>)
      requires Ready(out)
      modifies this, out
      ensures Valid() && Did(Discovered(old(View()), payload, out.Length), View(), result, out[..], old(out[..]))
    {
      hide Spec.Command, Eligible, EligibleSinks, Overlaid;
      if payload == [] || |payload| % 2 != 0 {
        return Err(PacketError);
      }
      sinks := FilterSinks(payload);
      sinkPos := 0;
      if sinks == [] {
        lastCodecCaps := Overlaid(lastCodecCaps, payload);
        return Err(Unsupported);
      }
      TurnTo(sinks[0]);
      result := Command(GET_ALL_CAPABILITIES, [Shifted(sinks[0])], out);
    }

    static method FilterSinks(payload: seq<Byte>) returns (found: seq<Byte>)
      requires |payload| % 2 == 0
      ensures found == FirstEight(EligibleSinks(payload))
    {
      hide Eligible, EligibleSinks, FirstEight;
      ghost var kept := [];
      var at := 0;
      found := [];
      EightOf(kept, 0);
      assert payload[0..] == payload;
      while at < |payload|
        invariant at <= |payload| && at % 2 == 0
        invariant EligibleSinks(payload) == kept + EligibleSinks(payload[at..])
        invariant found == FirstEight(kept) && |found| <= MAX_SINKS
      {
        EndPointAt(payload, at);
        EightOf(kept, payload[at] / 4);
        if Eligible(payload[at], payload[at + 1]) {
          if |found| < MAX_SINKS {
            found := found + [payload[at] / 4];
          }
          Associates(kept, [payload[at] / 4], EligibleSinks(payload[at + 2..]));
          kept := kept + [payload[at] / 4];
        }
        at := at + 2;
      }
      NoneAtEnd(payload[at..]);
      assert kept + [] == kept;
    }

    method NextSinkCapabilities(out: array<Byte>) returns (result: Result<nat, Error>)
      requires Ready(out)
      modifies this, out
      ensures Valid() && Did(NextSink(old(View()), out.Length), View(), result, out[..], old(out[..]))
    {
      hide Spec.Command, Shifted;
      sinkPos := sinkPos + 1;
      if sinkPos >= |sinks| {
        return Err(Unsupported);
      }
      var seid := sinks[sinkPos];
      ForgetDelay();
      TurnTo(seid);
      result := Command(GET_ALL_CAPABILITIES, [Shifted(seid)], out);
    }

    method ChooseSbc(payload: seq<Byte>, out: array<Byte>) returns (result: Result<nat, Error>)
      requires Ready(out)
      modifies this, out
      ensures Valid() && Did(Spec.ChooseSbc(old(View()), payload, out.Length), View(), result, out[..], old(out[..]))
    {
      hide Spec.Command, Usable, Overlaid, NextSink, Found, KeptCaps, OffersDelay, Elements, Services, Shifted;
      var caps, found, delay, whole := ScanElements(lastCodecCaps, payload);
      lastCodecCaps := caps;
      if !whole {
        return Err(PacketError);
      }
      if found == None {
        result := NextSinkCapabilities(out);
        return;
      }
      var config := found.value;
      Choose(config, delay);
      result := Command(SET_CONFIGURATION, [Shifted(remoteSeid), Shifted(localSeid)] + Services(config, delay), out);
    }

    /** The walk over the service elements of one answer. */
    static method ScanElements(oldCaps: seq<Byte>, payload: seq<Byte>)
      returns (caps: seq<Byte>, found: Option<Sbc>, delay: bool, whole: bool)
      ensures var (es, all) := Elements(payload);
              && whole == all && caps == KeptCaps(oldCaps, es)
              && (whole ==> found == Found(es) && delay == OffersDelay(es))
    {
      hide Usable, Overlaid, Elements, KeptCaps, Found, OffersDelay;
      caps, found, delay := oldCaps, None, false;
      ghost var (es, all) := Elements(payload);
      ghost var seen := 0;
      var offset := 0;
      assert payload[0..] == payload && es[0..] == es;
      while offset + 2 <= |payload|
        invariant offset <= |payload| && seen <= |es|
        invariant Elements(payload[offset..]) == (es[seen..], all)
        invariant KeptCaps(oldCaps, es) == KeptCaps(caps, es[seen..])
        invariant Found(es) == if Found(es[seen..]).Some? then Found(es[seen..]) else found
        invariant OffersDelay(es) == (delay || OffersDelay(es[seen..]))
        decreases |payload| - offset
      {
        var category, length: nat := payload[offset], payload[offset + 1];
        if offset + 2 + length > |payload| {
          NoElementHere(payload[offset..], caps);
          return caps, found, delay, false;
        }
        var value := payload[offset + 2..offset + 2 + length];
        ElementHere(payload, offset, es, seen, all);
        ScanStep(es, seen, caps);
        if category == DELAY_REPORTING && length == 0 {
          delay := true;
        }
        if category == MEDIA_CODEC {
          caps := Overlaid(caps, value);
        }
        var usable := Usable(Element(category, value));
        if usable.Some? {
          found := usable;
        }
        offset := offset + 2 + length;
        seen := seen + 1;
      }
      NoElementHere(payload[offset..], caps);
      whole := offset == |payload|;
    }

    method RemoteCommand(transaction: Byte, signal: Byte, payload: seq<Byte>, out: array<Byte>)
      returns (result: Result<nat, Error>)
      requires Ready(out)
      modifies this, out
      ensures Valid() && Did(Spec.RemoteCommand(old(View()), transaction, signal, payload, out.Length),
                             View(), result, out[..], old(out[..]))
    {
      hide Spec.Respond;
      var local := Shifted(localSeid);
      var named := |payload| == 1 && payload[0] % 4 == 0 && payload[0] / 4 == localSeid;
      if signal == DISCOVER {
        if payload != [] {
          result := Respond(transaction, signal, MSG_REJECT, [BAD_PAYLOAD_FORMAT], out);
        } else {
          result := Respond(transaction, signal, MSG_ACCEPT, [if localInUse then local + 2 else local, 0], out);
        }
      } else if signal == GET_CAPABILITIES || signal == GET_ALL_CAPABILITIES {
        if !named {
          result := Respond(transaction, signal, MSG_REJECT, [BAD_ACP_SEID], out);
        } else {
          var ours := Sbc(0x22, 0x15, MIN_BITPOOL, MAX_BITPOOL);
          result := Respond(transaction, signal, MSG_ACCEPT, Services(ours, signal == GET_ALL_CAPABILITIES), out);
        }
      } else if signal == GET_CONFIGURATION {
        if !named {
          result := Respond(transaction, signal, MSG_REJECT, [BAD_ACP_SEID], out);
        } else if !localInUse {
          result := Respond(transaction, signal, MSG_REJECT, [BAD_STATE], out);
        } else {
          result := Respond(transaction, signal, MSG_ACCEPT, Services(selectedSbc, delayReporting), out);
        }
      } else if signal == CLOSE || signal == ABORT {
        result := RemoteClose(transaction, signal, payload, out);
      } else if signal == DELAY_REPORT {
        result := RemoteDelay(transaction, signal, payload, out);
      } else if signal == START || signal == SUSPEND {
        result := RemoteStream(transaction, signal, payload, out);
      } else if signal == SET_CONFIGURATION {
        result := Respond(transaction, signal, MSG_REJECT, [0, SEP_IN_USE], out);
      } else if signal == RECONFIGURE {
        result := Respond(transaction, signal, MSG_REJECT, [0, BAD_STATE], out);
      } else if signal == OPEN {
        result := Respond(transaction, signal, MSG_REJECT, [BAD_STATE], out);
      } else {
        result := Respond(transaction, signal, MSG_GENERAL_REJECT, [], out);
      }
    }

    method RemoteClose(transaction: Byte, signal: Byte, payload: seq<Byte>, out: array<Byte>) returns (result: Result<nat, Error>)
      requires Ready(out) && (signal == CLOSE || signal == ABORT)
      modifies this, out
      ensures Valid() && Did(Spec.RemoteCommand(old(View()), transaction, signal, payload, out.Length),
                             View(), result, out[..], old(out[..]))
    {
      hide Spec.Respond;
      if !(|payload| == 1 && payload[0] % 4 == 0 && payload[0] / 4 == localSeid) {
        result := Respond(transaction, signal, MSG_REJECT, [BAD_ACP_SEID], out);
        return;
      }
      result := Respond(transaction, signal, MSG_ACCEPT, [], out);
      if result.Ok? {
        ReleaseStream();
        ForgetDelay();
        pendingSignal := 0;
        mediaConnected := false;
      }
    }

    method RemoteDelay(transaction: Byte, signal: Byte, payload: seq<Byte>, out: array<Byte>) returns (result: Result<nat, Error>)
      requires Ready(out) && signal == DELAY_REPORT
      modifies this, out
      ensures Valid() && Did(Spec.RemoteCommand(old(View()), transaction, signal, payload, out.Length),
                             View(), result, out[..], old(out[..]))
    {
      hide Spec.Respond;
      if |payload| != 3 || payload[0] != Shifted(localSeid) {
        result := Respond(transaction, signal, MSG_REJECT, [BAD_ACP_SEID], out);
      } else if !localInUse || !delayReporting {
        result := Respond(transaction, signal, MSG_REJECT, [BAD_STATE], out);
      } else {
        reportedDelay := Be16(payload[1], payload[2]);
        result := Respond(transaction, signal, MSG_ACCEPT, [], out);
      }
    }

    /** The START and SUSPEND branches. */
    method RemoteStream(transaction: Byte, signal: Byte, payload: seq<Byte>, out: array<Byte>)
      returns (result: Result<nat, Error>)
      requires Ready(out) && (signal == START || signal == SUSPEND)
      modifies this, out
      ensures Valid() && Did(Spec.RemoteCommand(old(View()), transaction, signal, payload, out.Length),
                             View(), result, out[..], old(out[..]))
    {
      hide Spec.Respond;
      var named := |payload| == 1 && payload[0] % 4 == 0 && payload[0] / 4 == localSeid;
      if !named {
        var seid := if payload == [] then 0 else payload[0] - payload[0] % 4;
        result := Respond(transaction, signal, MSG_REJECT, [seid, BAD_ACP_SEID], out);
      } else if signal == START && state == Open && mediaConnected {
        result := Respond(transaction, signal, MSG_ACCEPT, [], out);
        if result.Ok? {
          state := Streaming;
        }
      } else if signal == SUSPEND && state == Streaming {
        result := Respond(transaction, signal, MSG_ACCEPT, [], out);
        if result.Ok? {
          state := Open;
        }
      } else {
        result := Respond(transaction, signal, MSG_REJECT, [Shifted(localSeid), BAD_STATE], out);
      }
    }
  }

  /** One element at `offset`, and the rest of the list after it. */
  lemma ElementHere(payload: seq<Byte>, offset: nat, es: seq<Element>, seen: nat, all: bool)
    requires offset + 2 <= |payload| && offset + 2 + payload[offset + 1] as int <= |payload| && seen <= |es|
    requires Elements(payload[offset..]) == (es[seen..], all)
    ensures var next := offset + 2 + payload[offset + 1] as int;
            && seen < |es|
            && es[seen] == Element(payload[offset], payload[offset + 2..next])
            && Elements(payload[next..]) == (es[seen + 1..], all)
  {
    hide Usable, KeptCaps, Found;
    var t, length: nat := payload[offset..], payload[offset + 1];
    assert t[2..2 + length] == payload[offset + 2..offset + 2 + length];
    assert t[2 + length..] == payload[offset + 2 + length..];
    var (rest, _) := Elements(t[2 + length..]);
    assert es[seen..] == [Element(t[0], t[2..2 + length])] + rest;
    assert es[seen..][1..] == rest;
  }

  lemma NoElementHere(t: seq<Byte>, caps: seq<Byte>)
    requires |t| < 2 || 2 + t[1] as int > |t|
    ensures var (es, all) := Elements(t);
            && es == [] && all == (t == [])
            && KeptCaps(caps, es) == caps && Found(es) == None && !OffersDelay(es)
  {
  }

  lemma ScanStep(es: seq<Element>, seen: nat, caps: seq<Byte>)
    requires seen < |es|
    ensures var later := es[seen + 1..];
            && KeptCaps(caps, es[seen..])
                 == KeptCaps(if es[seen].category == MEDIA_CODEC then Overlaid(caps, es[seen].value) else caps, later)
            && Found(es[seen..]) == (if Found(later).Some? then Found(later) else Usable(es[seen]))
            && OffersDelay(es[seen..]) ==
                 ((es[seen].category == DELAY_REPORTING && es[seen].value == []) || OffersDelay(later))
  {
    hide Usable, Overlaid;
    assert es[seen..][0] == es[seen] && es[seen..][1..] == es[seen + 1..];
    assert es[seen..] == [es[seen]] + es[seen + 1..];
  }

  lemma EndPointAt(payload: seq<Byte>, at: nat)
    requires at + 2 <= |payload|
    ensures EligibleSinks(payload[at..]) ==
              (if Eligible(payload[at], payload[at + 1]) then [payload[at] / 4] else []) + EligibleSinks(payload[at + 2..])
    ensures !Eligible(payload[at], payload[at + 1]) ==> EligibleSinks(payload[at..]) == EligibleSinks(payload[at + 2..])
  {
    hide Eligible;
    assert payload[at..][2..] == payload[at + 2..];
    assert [] + EligibleSinks(payload[at + 2..]) == EligibleSinks(payload[at + 2..]);
  }

  lemma NoneAtEnd(t: seq<Byte>)
    requires t == []
    ensures EligibleSinks(t) == []
  {
  }

  lemma EightOf(kept: seq<Byte>, seid: Byte)
    ensures |FirstEight(kept)| <= MAX_SINKS
    ensures FirstEight([]) == []
    ensures FirstEight(kept + [seid]) == (if |FirstEight(kept)| < MAX_SINKS then FirstEight(kept) + [seid] else FirstEight(kept))
  {
  }
}
