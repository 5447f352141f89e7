/** Splitting a message into packets changes nothing but the moment it is acted on. */
module AvdtpFragments {
  import opened Wire
  import opened AvdtpSpec

  function Header(transaction: Byte, packetType: Byte, message: Byte): (h: Byte)
    requires transaction < 16 && packetType < 4 && message < 4
    ensures h / 16 == transaction && h / 4 % 4 == packetType && h % 4 == message
  {
    transaction * 16 + packetType * 4 + message
  }

  function Single(transaction: Byte, message: Byte, signal: Byte, payload: seq<Byte>): seq<Byte>
    requires transaction < 16 && message < 4
  {
    [Header(transaction, PACKET_SINGLE, message), signal] + payload
  }

  function StartPacket(transaction: Byte, message: Byte, signal: Byte, count: Byte, piece: seq<Byte>): seq<Byte>
    requires transaction < 16 && message < 4
  {
    [Header(transaction, PACKET_START, message), count, signal] + piece
  }

  /** CONTINUE packets for all pieces but the last, which ends the message. */
  function RestPackets(transaction: Byte, message: Byte, pieces: seq<seq<Byte>>): seq<seq<Byte>>
    requires transaction < 16 && message < 4
  {
    if pieces == [] then []
    else [[Header(transaction, if |pieces| == 1 then PACKET_END else PACKET_CONTINUE, message)] + pieces[0]]
         + RestPackets(transaction, message, pieces[1..])
  }

  function Packets(transaction: Byte, message: Byte, signal: Byte, count: Byte, pieces: seq<seq<Byte>>): seq<seq<Byte>>
    requires transaction < 16 && message < 4 && pieces != []
  {
    [StartPacket(transaction, message, signal, count, pieces[0])] + RestPackets(transaction, message, pieces[1..])
  }

  function Flat(pieces: seq<seq<Byte>>): seq<Byte> {
    if pieces == [] then [] else pieces[0] + Flat(pieces[1..])
  }

  /** The outcomes of receiving packets one after another. */
  function Deliver(s: Source, packets: seq<seq<Byte>>, room: nat): seq<Outcome>
    decreases |packets|
  {
    if packets == [] then []
    else
      var o := Receive(s, packets[0], room);
      [o] + Deliver(o.source, packets[1..], room)
  }

  /** Only the reassembly buffer has moved, and nothing was sent. */
  predicate Unmoved(s: Source, o: Outcome) {
    o.written == [] && o.source == s.(assembly := o.source.assembly)
  }

  ghost predicate QuietUntilLast(s: Source, os: seq<Outcome>) {
    forall k | 0 <= k < |os| - 1 :: Unmoved(s, os[k]) && os[k].result == Ok(0)
  }

  ghost predicate Ends(os: seq<Outcome>, o: Outcome) {
    os != [] && os[|os| - 1] == o
  }

  /** One CONTINUE or END packet that fits the assembly and the buffer. */
  lemma RestStep(s: Source, pieces: seq<seq<Byte>>, room: nat)
    requires s.linked && s.assembly.active && s.assembly.transaction < 16 && s.assembly.message < 4
    requires pieces != [] && |s.assembly.payload| + |pieces[0]| <= FRAGMENT_CAPACITY
    ensures var a := s.assembly;
            var o := Receive(s, RestPackets(a.transaction, a.message, pieces)[0], room);
            var number := a.received as int + 1;
            o == if |pieces| == 1 then
                   if number == a.expected
                   then Dispatch(s.(assembly := NO_ASSEMBLY), a.transaction, a.message, a.signal, a.payload + pieces[0], room)
                   else Dropped(s, PacketError)
                 else if number < a.expected
                   then Outcome(s.(assembly := a.(received := number % 256, payload := a.payload + pieces[0])), Ok(0), [])
                   else Dropped(s, PacketError)
  {
    hide Dispatch;
    var a := s.assembly;
    var packet := RestPackets(a.transaction, a.message, pieces)[0];
    assert packet[1..] == pieces[0];
  }

  lemma FirstDelivered(s: Source, transaction: Byte, message: Byte, pieces: seq<seq<Byte>>, room: nat)
    requires transaction < 16 && message < 4 && pieces != []
    ensures var packets := RestPackets(transaction, message, pieces);
            packets != [] &&
            var o := Receive(s, packets[0], room);
            && Deliver(s, packets, room) == [o] + Deliver(o.source, RestPackets(transaction, message, pieces[1..]), room)
            && (|pieces| == 1 ==> Deliver(s, packets, room) == [o])
  {
    hide Receive;
    var packets := RestPackets(transaction, message, pieces);
    assert packets[1..] == RestPackets(transaction, message, pieces[1..]);
  }

  /** What the outcomes of all the fragments still due amount to. */
  ghost predicate Completes(s: Source, os: seq<Outcome>, payload: seq<Byte>, room: nat) {
    var a := s.assembly;
    QuietUntilLast(s, os) && Ends(os, Dispatch(s.(assembly := NO_ASSEMBLY), a.transaction, a.message, a.signal, payload, room))
  }

  lemma LastPiece(s: Source, pieces: seq<seq<Byte>>, room: nat)
    requires s.linked && s.assembly.active && s.assembly.transaction < 16 && s.assembly.message < 4
    requires |pieces| == 1 && |s.assembly.payload| + |Flat(pieces)| <= FRAGMENT_CAPACITY
    requires s.assembly.received + 1 == s.assembly.expected
    ensures var a := s.assembly;
            var os := Deliver(s, RestPackets(a.transaction, a.message, pieces), room);
            |os| == 1 && Completes(s, os, a.payload + Flat(pieces), room)
  {
    hide Dispatch, Receive, RestPackets, Deliver;
    assert Flat(pieces) == pieces[0];
    RestStep(s, pieces, room);
    FirstDelivered(s, s.assembly.transaction, s.assembly.message, pieces, room);
  }

  /** One more quiet outcome in front of those that complete the message. */
  lemma OneMoreQuiet(s: Source, t: Source, o: Outcome, os: seq<Outcome>, payload: seq<Byte>, room: nat)
    requires t == s.(assembly := s.assembly.(received := t.assembly.received, payload := t.assembly.payload))
    requires o == Outcome(t, Ok(0), []) && os != [] && Completes(t, os, payload, room)
    ensures Completes(s, [o] + os, payload, room)
  {
    hide Dispatch;
    assert t.(assembly := NO_ASSEMBLY) == s.(assembly := NO_ASSEMBLY);
    forall k | 0 <= k < |os|
      ensures Unmoved(s, ([o] + os)[k]) && ([o] + os)[k].result == Ok(0)
    {
      if k > 0 {
        assert ([o] + os)[k] == os[k - 1] && Unmoved(t, os[k - 1]);
      }
    }
  }

  lemma {:induction false} Remaining(s: Source, pieces: seq<seq<Byte>>, room: nat)
    requires s.linked && s.assembly.active && s.assembly.transaction < 16 && s.assembly.message < 4
    requires pieces != [] && |s.assembly.payload| + |Flat(pieces)| <= FRAGMENT_CAPACITY
    requires s.assembly.received + |pieces| == s.assembly.expected
    ensures var a := s.assembly;
            var os := Deliver(s, RestPackets(a.transaction, a.message, pieces), room);
            |os| == |pieces| && Completes(s, os, a.payload + Flat(pieces), room)
    decreases |pieces|
  {
    hide Dispatch, Receive, RestPackets, Deliver, Completes;
    var a := s.assembly;
    if |pieces| == 1 {
      LastPiece(s, pieces, room);
    } else {
      RestStep(s, pieces, room);
      FirstDelivered(s, a.transaction, a.message, pieces, room);
      var t := s.(assembly := a.(received := a.received + 1, payload := a.payload + pieces[0]));
      Associates(a.payload, pieces[0], Flat(pieces[1..]));
      Remaining(t, pieces[1..], room);
      OneMoreQuiet(s, t, Outcome(t, Ok(0), []), Deliver(t, RestPackets(a.transaction, a.message, pieces[1..]), room),
                   a.payload + Flat(pieces), room);
    }
  }

  /** Without an assembly every later fragment is refused. */
  lemma {:induction false} Orphaned(s: Source, transaction: Byte, message: Byte, pieces: seq<seq<Byte>>, room: nat)
    requires s.linked && s.assembly == NO_ASSEMBLY && transaction < 16 && message < 4 && pieces != []
    ensures var os := Deliver(s, RestPackets(transaction, message, pieces), room);
            |os| == |pieces| && (forall k | 0 <= k < |os| :: os[k] == Outcome(s, Err(PacketError), []))
    decreases |pieces|
  {
    var os := Deliver(s, RestPackets(transaction, message, pieces), room);
    assert s == s.(assembly := NO_ASSEMBLY);
    assert os[0] == Outcome(s, Err(PacketError), []);
    if |pieces| > 1 {
      Orphaned(s, transaction, message, pieces[1..], room);
      assert os == [os[0]] + Deliver(s, RestPackets(transaction, message, pieces[1..]), room);
    }
  }

  /** One more outcome without effect in front of those that lose the message. */
  lemma OneMoreLost(s: Source, t: Source, o: Outcome, os: seq<Outcome>)
    requires Unmoved(s, o) && t == s.(assembly := t.assembly)
    requires (forall k | 0 <= k < |os| :: Unmoved(t, os[k])) && Ends(os, Dropped(t, PacketError))
    ensures (forall k | 0 <= k < |os| + 1 :: Unmoved(s, ([o] + os)[k])) && Ends([o] + os, Dropped(s, PacketError))
  {
    forall k | 0 <= k < |os| + 1
      ensures Unmoved(s, ([o] + os)[k])
    {
      if k > 0 {
        assert ([o] + os)[k] == os[k - 1] && Unmoved(t, os[k - 1]);
      }
    }
  }

  lemma {:induction false} Miscounted(s: Source, pieces: seq<seq<Byte>>, room: nat)
    requires s.linked && s.assembly.active && s.assembly.transaction < 16 && s.assembly.message < 4
    requires pieces != [] && |s.assembly.payload| + |Flat(pieces)| <= FRAGMENT_CAPACITY
    requires s.assembly.received + |pieces| != s.assembly.expected
    ensures var os := Deliver(s, RestPackets(s.assembly.transaction, s.assembly.message, pieces), room);
            && |os| == |pieces| && (forall k | 0 <= k < |os| :: Unmoved(s, os[k]))
            && Ends(os, Dropped(s, PacketError))
    decreases |pieces|
  {
    hide Dispatch, Receive, RestPackets, Deliver;
    var a := s.assembly;
    RestStep(s, pieces, room);
    FirstDelivered(s, a.transaction, a.message, pieces, room);
    if |pieces| > 1 {
      var o := Receive(s, RestPackets(a.transaction, a.message, pieces)[0], room);
      var os := Deliver(o.source, RestPackets(a.transaction, a.message, pieces[1..]), room);
      if o.source.assembly.active {
        Miscounted(o.source, pieces[1..], room);
      } else {
        assert o.source == s.(assembly := NO_ASSEMBLY);
        Orphaned(o.source, a.transaction, a.message, pieces[1..], room);
      }
      OneMoreLost(s, o.source, o, os);
    }
  }

  /**
   * Between messages, any split of a message of up to 126 bytes has the effect of the unsplit packet, all of it at the
   * last fragment, if the START packet announces the number of fragments; if it announces any other, the message is lost
   * whole and the last fragment is refused.
   */
  lemma FragmentationIsTransparent(s: Source, transaction: Byte, message: Byte, signal: Byte, count: Byte,
                                   pieces: seq<seq<Byte>>, room: nat)
    requires s.linked && s.assembly == NO_ASSEMBLY && transaction < 16 && message < 4 && signal < 0x40
    requires 2 <= count && |pieces| >= 2 && |pieces[0]| <= MAX_SDU - 3 && |Flat(pieces)| <= FRAGMENT_CAPACITY
    ensures var os := Deliver(s, Packets(transaction, message, signal, count, pieces), room);
            && |os| == |pieces|
            && if count == |pieces| then
                 QuietUntilLast(s, os) && Ends(os, Receive(s, Single(transaction, message, signal, Flat(pieces)), room))
               else
                 (forall k | 0 <= k < |os| :: Unmoved(s, os[k])) && Ends(os, Outcome(s, Err(PacketError), []))
  {
    hide Dispatch, RestPackets, StartPacket, Single;
    var packets := Packets(transaction, message, signal, count, pieces);
    var os := Deliver(s, packets, room);
    var a := Assembly(true, transaction, message, signal, count, 1, pieces[0]);
    var t := s.(assembly := a);
    StartStep(s, transaction, message, signal, count, pieces[0], room);
    hide Receive;
    assert packets[1..] == RestPackets(transaction, message, pieces[1..]);
    assert os == [os[0]] + Deliver(t, packets[1..], room);
    assert t.(assembly := NO_ASSEMBLY) == s;
    if count == |pieces| {
      Remaining(t, pieces[1..], room);
      SingleStep(s, transaction, message, signal, Flat(pieces), room);
    } else {
      Miscounted(t, pieces[1..], room);
    }
  }

  lemma StartStep(s: Source, transaction: Byte, message: Byte, signal: Byte, count: Byte, piece: seq<Byte>, room: nat)
    requires s.linked && !s.assembly.active && transaction < 16 && message < 4 && signal < 0x40
    requires 2 <= count && |piece| <= MAX_SDU - 3
    ensures Receive(s, StartPacket(transaction, message, signal, count, piece), room)
         == Outcome(s.(assembly := Assembly(true, transaction, message, signal, count, 1, piece)), Ok(0), [])
  {
    assert StartPacket(transaction, message, signal, count, piece)[3..] == piece;
  }

  lemma NextSinkKeepsAssembly(s: Source, room: nat)
    ensures NextSink(s, room).source.assembly == s.assembly
  {
    hide Message;
  }

  lemma ChooseSbcKeepsAssembly(s: Source, payload: seq<Byte>, room: nat)
    ensures ChooseSbc(s, payload, room).source.assembly == s.assembly
  {
    hide NextSink, Elements, Found, KeptCaps, OffersDelay, Services, Message;
    var (es, _) := Elements(payload);
    NextSinkKeepsAssembly(s.(codecCaps := KeptCaps(s.codecCaps, es)), room);
  }

  lemma DiscoveredKeepsAssembly(s: Source, payload: seq<Byte>, room: nat)
    ensures Discovered(s, payload, room).source.assembly == s.assembly
  {
    hide Overlaid, EligibleSinks, FirstEight, Message;
  }

  lemma AcceptKeepsAssembly(s: Source, transaction: Byte, signal: Byte, payload: seq<Byte>, room: nat)
    ensures Accept(s, transaction, signal, payload, room).source.assembly == s.assembly
  {
    hide ChooseSbc, Discovered, Message;
    ChooseSbcKeepsAssembly(s.(pendingSignal := 0), payload, room);
    DiscoveredKeepsAssembly(s.(pendingSignal := 0), payload, room);
  }

  lemma RejectKeepsAssembly(s: Source, transaction: Byte, signal: Byte, payload: seq<Byte>, room: nat)
    ensures Reject(s, transaction, signal, payload, room).source.assembly == s.assembly
  {
  }

  lemma CommandKeepsAssembly(s: Source, transaction: Byte, signal: Byte, payload: seq<Byte>, room: nat)
    ensures RemoteCommand(s, transaction, signal, payload, room).source.assembly == s.assembly
  {
    hide Message;
  }

  lemma DispatchKeepsAssembly(s: Source, transaction: Byte, message: Byte, signal: Byte, payload: seq<Byte>, room: nat)
    ensures Dispatch(s, transaction, message, signal, payload, room).source.assembly == s.assembly
  {
    hide Accept, Reject, RemoteCommand;
    AcceptKeepsAssembly(s, transaction, signal, payload, room);
    RejectKeepsAssembly(s, transaction, signal, payload, room);
    CommandKeepsAssembly(s, transaction, signal, payload, room);
  }

  lemma SingleStep(s: Source, transaction: Byte, message: Byte, signal: Byte, payload: seq<Byte>, room: nat)
    requires s.linked && !s.assembly.active && transaction < 16 && message < 4 && signal < 0x40
    requires |payload| <= FRAGMENT_CAPACITY
    ensures Receive(s, Single(transaction, message, signal, payload), room)
         == Dispatch(s, transaction, message, signal, payload, room)
  {
    hide Dispatch;
    assert Single(transaction, message, signal, payload)[2..] == payload;
  }

  /** A START packet opens a message exactly if none is open and it announces two fragments or more of a known signal. */
  lemma StartIsTakenExactly(s: Source, transaction: Byte, message: Byte, signal: Byte, count: Byte, piece: seq<Byte>, room: nat)
    requires s.linked && (s.assembly.active || s.assembly == NO_ASSEMBLY) && transaction < 16 && message < 4
    ensures var o := Receive(s, StartPacket(transaction, message, signal, count, piece), room);
            && (o.source.assembly.active <==> !s.assembly.active && count >= 2 && signal < 0x40 && |piece| <= 125)
            && (o.source.assembly.active ==>
                  o == Outcome(s.(assembly := Assembly(true, transaction, message, signal, count, 1, piece)), Ok(0), []))
            && (!o.source.assembly.active ==> o.result.Err? && o.written == [] && o.source == s.(assembly := NO_ASSEMBLY))
  {
    var packet := StartPacket(transaction, message, signal, count, piece);
    assert packet[3..] == piece && packet[0] / 4 % 4 == PACKET_START;
  }

  /** An error never leaves a partial message behind. */
  lemma ErrorsLeaveNothing(s: Source, packet: seq<Byte>, room: nat)
    requires s.assembly.active || s.assembly == NO_ASSEMBLY
    ensures var o := Receive(s, packet, room);
            && (o.source.assembly.active || o.source.assembly == NO_ASSEMBLY)
            && (o.result.Err? ==> o.source.assembly == NO_ASSEMBLY)
  {
    hide Dispatch;
    if packet != [] {
      var a := s.assembly;
      if |packet| >= 2 {
        DispatchKeepsAssembly(s, packet[0] / 16, packet[0] % 4, packet[1], packet[2..], room);
      }
      DispatchKeepsAssembly(s.(assembly := NO_ASSEMBLY), a.transaction, a.message, a.signal, a.payload + packet[1..], room);
    }
  }
}
