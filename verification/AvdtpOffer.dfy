/** What the AVDTP source tells a peer about itself, and how it reads what peers tell it (AVDTP 1.3, sections 8.6 to 8.9). */
module AvdtpOffer {
  import opened Wire
  import opened AvdtpSpec
  import Choice = AvdtpChoice
  import Runs = AvdtpRuns

  // ----- stream end points

  /** An entry of a DISCOVER answer. */
  datatype EndPoint = EndPoint(seid: Byte, inUse: bool, media: Byte, sink: bool)

  const AUDIO: Byte := 0

  predicate Writable(e: EndPoint) {
    e.seid < 64 && e.media < 16
  }

  function Entry(e: EndPoint): (bytes: seq<Byte>)
    requires Writable(e)
    ensures |bytes| == 2
  {
    [e.seid * 4 + (if e.inUse then 2 else 0), e.media * 16 + (if e.sink then 8 else 0)]
  }

  function Listing(es: seq<EndPoint>): seq<Byte>
    requires forall k | 0 <= k < |es| :: Writable(es[k])
  {
    if es == [] then [] else Entry(es[0]) + Listing(es[1..])
  }

  /** An audio sink that is free, with an identifier end points may have. */
  predicate FreeSink(e: EndPoint) {
    1 <= e.seid <= 0x3e && !e.inUse && e.media == AUDIO && e.sink
  }

  function FreeSinks(es: seq<EndPoint>): seq<Byte> {
    if es == [] then [] else (if FreeSink(es[0]) then [es[0].seid] else []) + FreeSinks(es[1..])
  }

  lemma EntryRead(e: EndPoint)
    requires Writable(e)
    ensures Eligible(Entry(e)[0], Entry(e)[1]) <==> FreeSink(e)
    ensures Entry(e)[0] / 4 == e.seid
  {
  }

  /** Of a list of end points the source considers exactly the free audio sinks, in their order. */
  lemma {:induction false} ListingRead(es: seq<EndPoint>)
    requires forall k | 0 <= k < |es| :: Writable(es[k])
    ensures EligibleSinks(Listing(es)) == FreeSinks(es)
  {
    hide Eligible, Entry, FreeSink;
    if es != [] {
      EntryRead(es[0]);
      ListingRead(es[1..]);
      assert Listing(es)[2..] == Listing(es[1..]);
    }
  }

  /** Entries with a reserved bit set are no end points to it. */
  lemma OnlyEntriesAreRead(first: Byte, second: Byte)
    ensures Eligible(first, second) ==> [first, second] == Entry(EndPoint(first / 4, false, AUDIO, true))
  {
  }

  /** A peer that asks is shown one audio source, in use exactly while a sink is configured from it. */
  lemma OwnEndPoint(s: Source, transaction: Byte, room: nat)
    requires room >= ROOM && s.localSeid < 64
    ensures var o := RemoteCommand(s, transaction, DISCOVER, [], room);
            o.source == s && o.written == Message(transaction, MSG_ACCEPT, DISCOVER,
                                                  Entry(EndPoint(s.localSeid, s.localInUse, AUDIO, false)))
  {
  }

  // ----- capabilities

  const TRANSPORT: Element := Element(MEDIA_TRANSPORT, [])
  const DELAYS: Element := Element(DELAY_REPORTING, [])

  /** SBC at 44.1 kHz, stereo or two channels of it, with the bitpools given (A2DP, section 4.3.2). */
  function SbcElement(c: Sbc): Element {
    Element(MEDIA_CODEC, [0, 0, c.frequencyChannel, c.shape, c.minimum, c.maximum])
  }

  function ServiceElements(c: Sbc, delayReporting: bool): (es: seq<Element>)
    ensures Choice.Fit(es)
  {
    [TRANSPORT, SbcElement(c)] + if delayReporting then [DELAYS] else []
  }

  lemma JoinedOne(e: Element, es: seq<Element>)
    requires Choice.Fit(es) && |e.value| < 0x100
    ensures Choice.Fit([e] + es)
    ensures Choice.Joined([e] + es) == [e.category, |e.value|] + e.value + Choice.Joined(es)
  {
    assert ([e] + es)[1..] == es;
  }

  lemma ServicesJoined(c: Sbc, delayReporting: bool)
    ensures Services(c, delayReporting) == Choice.Joined(ServiceElements(c, delayReporting))
  {
    hide Choice.Joined;
    var last := if delayReporting then [DELAYS] else [];
    assert Choice.Joined([]) == [] by { JoinedNone(); }
    JoinedOne(DELAYS, []);
    assert [DELAYS] + [] == [DELAYS];
    JoinedOne(SbcElement(c), last);
    JoinedOne(TRANSPORT, [SbcElement(c)] + last);
    assert ServiceElements(c, delayReporting) == [TRANSPORT] + ([SbcElement(c)] + last);
  }

  lemma JoinedNone()
    ensures Choice.Joined([]) == []
  {
  }

  const OFFER: Sbc := Sbc(0x22, 0x15, MIN_BITPOOL, MAX_BITPOOL)

  lemma OfferSuits()
    ensures Choice.IsSbc(SbcElement(OFFER)) && Choice.Stereo(SbcElement(OFFER)) && Choice.Suits(SbcElement(OFFER))
  {
    assert Choice.Offers(SbcElement(OFFER), MIN_BITPOOL);
  }

  /**
   * The capabilities it offers are such as it would take itself: stereo SBC with all it insists on, at every bitpool from
   * the least to the highest it sends; delay reporting is offered in the answer to GET_ALL_CAPABILITIES only.
   */
  lemma OffersWhatItTakes(s: Source, transaction: Byte, signal: Byte, room: nat)
    requires room >= ROOM && s.localSeid < 64 && (signal == GET_CAPABILITIES || signal == GET_ALL_CAPABILITIES)
    ensures var o := RemoteCommand(s, transaction, signal, [Shifted(s.localSeid)], room);
            var es := ServiceElements(OFFER, signal == GET_ALL_CAPABILITIES);
            && o.source == s && o.written == Message(transaction, MSG_ACCEPT, signal, Choice.Joined(es))
            && Elements(o.written[2..]) == (es, true)
            && Choice.LastSuitable(es, 1)
            && (forall bitpool :: Choice.Offers(es[1], bitpool) <==> MIN_BITPOOL <= bitpool <= PREFERRED_MAX_BITPOOL)
            && (OffersDelay(es) <==> signal == GET_ALL_CAPABILITIES)
  {
    hide Choice.Joined, Elements, RemoteCommand, Choice.LastSuitable, Choice.Offers, OffersDelay, Services, Message;
    var delays := signal == GET_ALL_CAPABILITIES;
    ServicesJoined(OFFER, delays);
    Choice.JoinedElements(ServiceElements(OFFER, delays));
    OfferAnswered(s, transaction, signal, room);
    OfferIsAsStated(delays);
  }

  lemma OfferAnswered(s: Source, transaction: Byte, signal: Byte, room: nat)
    requires room >= ROOM && s.localSeid < 64 && (signal == GET_CAPABILITIES || signal == GET_ALL_CAPABILITIES)
    ensures var o := RemoteCommand(s, transaction, signal, [Shifted(s.localSeid)], room);
            var payload := Services(OFFER, signal == GET_ALL_CAPABILITIES);
            o.source == s && o.written == Message(transaction, MSG_ACCEPT, signal, payload) && o.written[2..] == payload
  {
  }

  lemma OfferIsAsStated(delays: bool)
    ensures var es := ServiceElements(OFFER, delays);
            && Choice.LastSuitable(es, 1)
            && (forall bitpool :: Choice.Offers(es[1], bitpool) <==> MIN_BITPOOL <= bitpool <= PREFERRED_MAX_BITPOOL)
            && (OffersDelay(es) <==> delays)
  {
    var es := ServiceElements(OFFER, delays);
    OfferSuits();
    OnlySbcSuits();
    assert delays ==> es[2] == DELAYS;
    assert !delays ==> forall e | e in es :: e == TRANSPORT || e == SbcElement(OFFER);
  }

  lemma OnlySbcSuits()
    ensures !Choice.Suits(TRANSPORT) && !Choice.Suits(DELAYS)
  {
  }

  // ----- delays

  /**
   * A delay report for this end point, its value in network order, is taken exactly when a stream with delay reporting is
   * configured, and then for the value it carries.
   */
  lemma DelayIsTaken(s: Source, transaction: Byte, delay: U16, room: nat)
    requires room >= ROOM
    ensures var o := RemoteCommand(s, transaction, DELAY_REPORT, [Shifted(s.localSeid), delay / 256, delay % 256], room);
            if s.localInUse && s.delayReporting then
              o.source == s.(delay := delay) && o.written == Message(transaction, MSG_ACCEPT, DELAY_REPORT, [])
            else
              o.source == s && o.written == Message(transaction, MSG_REJECT, DELAY_REPORT, [BAD_STATE])
  {
  }

  // ----- refusals

  /** Commands that name the end point they are about and nothing else. */
  predicate NamesOne(signal: Byte) {
    || signal == GET_CAPABILITIES || signal == GET_ALL_CAPABILITIES || signal == GET_CONFIGURATION
    || signal == START || signal == SUSPEND || signal == CLOSE || signal == ABORT
  }

  /** Commands this end point never obeys, in any state. */
  predicate NeverObeyed(signal: Byte) {
    signal == SET_CONFIGURATION || signal == RECONFIGURE || signal == OPEN
  }

  /** The error code of a refusal. */
  function Fault(s: Source, signal: Byte, payload: seq<Byte>): Byte {
    if signal == DISCOVER then 0x18
    else if signal == SET_CONFIGURATION then 0x13
    else if signal == DELAY_REPORT then if |payload| == 3 && payload[0] == Shifted(s.localSeid) then 0x31 else 0x12
    else if NamesOne(signal) then if NamesLocal(s, payload) then 0x31 else 0x12
    else 0x31
  }

  /**
   * Why a command is refused stands last in the answer: a bad payload (0x18) for DISCOVER, an end point in use (0x13) for
   * SET_CONFIGURATION, and for the others the wrong end point (0x12) or the wrong time (0x31). START and SUSPEND name the
   * end point at fault before it, SET_CONFIGURATION and RECONFIGURE a category of none; nothing else is said.
   */
  lemma RefusalsNameTheFault(s: Source, transaction: Byte, signal: Byte, payload: seq<Byte>, room: nat)
    requires transaction < 16 && room >= ROOM && (s.localSeid < 64)
    ensures var o := RemoteCommand(s, transaction, signal, payload, room);
            |o.written| >= 2
            && (NeverObeyed(signal) || (signal == DISCOVER && payload != []) ==> o.written[0] % 4 == MSG_REJECT)
            && (o.written[0] % 4 == MSG_REJECT ==>
                  o.written[2..] == (if signal == START || signal == SUSPEND then
                                       [if payload == [] then 0 else payload[0] / 4 * 4]
                                     else if signal == SET_CONFIGURATION || signal == RECONFIGURE then [0]
                                     else []) + [Fault(s, signal, payload)])
  {
    hide Services, Respond, Message;
    Runs.ServicesFit();
    ResponseForm(transaction, signal);
  }

  lemma ResponseForm(transaction: Byte, signal: Byte)
    requires transaction < 16
    ensures forall s: Source, message: Byte, payload: seq<Byte>, room: nat
              {:trigger Respond(s, transaction, signal, message, payload, room)} ::
              0 < message < 4 && 2 + |payload| <= room ==>
                var written := Respond(s, transaction, signal, message, payload, room).written;
                |written| == 2 + |payload| && written[0] % 4 == message && written[2..] == payload
  {
    hide Message;
    forall message: Byte, payload: seq<Byte> {:trigger Message(transaction, message, signal, payload)} | message < 4
      ensures var written := Message(transaction, message, signal, payload);
              |written| == 2 + |payload| && written[0] % 4 == message && written[2..] == payload
    {
      MessageForm(transaction, message, signal, payload);
    }
  }

  lemma MessageForm(transaction: Byte, message: Byte, signal: Byte, payload: seq<Byte>)
    requires transaction < 16 && message < 4
    ensures var written := Message(transaction, message, signal, payload);
            |written| == 2 + |payload| && written[0] % 4 == message && written[2..] == payload
  {
    assert (transaction * 16 % 256 + message) % 256 == transaction * 16 + message;
  }
}
