/** Runs that reach the limits the other modules prove, for every list of sinks a peer can show. */
module AvdtpExtremes {
  import opened Wire
  import opened AvdtpSpec
  import opened AvdtpRuns
  import opened AvdtpWalk
  import Choice = AvdtpChoice
  import Fragments = AvdtpFragments

  // ----- one step each, from any history

  function Hears(transaction: Byte, message: Byte, signal: Byte, payload: seq<Byte>): Event
    requires transaction < 16 && message < 4
  {
    Arrives(Fragments.Single(transaction, message, signal, payload))
  }

  predicate Waits(h: History, signal: Byte) {
    var s := h.source;
    s.linked && s.assembly == NO_ASSEMBLY && s.next < 16 && s.pendingTransaction < 16 && s.pendingSignal == signal
  }

  /** The history after the answer to the pending command. */
  function AfterAnswer(h: History, message: Byte, payload: seq<Byte>): History
    requires h.source.pendingTransaction < 16 && message < 4
  {
    Noted(h, Step(h.source, Hears(h.source.pendingTransaction, message, h.source.pendingSignal, payload), ROOM))
  }

  lemma HearsDispatch(s: Source, message: Byte, payload: seq<Byte>)
    requires s.linked && s.assembly == NO_ASSEMBLY && s.pendingTransaction < 16 && s.pendingSignal < 0x40
    requires message < 4 && |payload| <= FRAGMENT_CAPACITY
    ensures Step(s, Hears(s.pendingTransaction, message, s.pendingSignal, payload), ROOM)
         == Dispatch(s, s.pendingTransaction, message, s.pendingSignal, payload, ROOM)
  {
    hide Dispatch, Receive;
    Fragments.SingleStep(s, s.pendingTransaction, message, s.pendingSignal, payload, ROOM);
  }

  lemma Connects()
    ensures Run([Connect], ROOM) == Sent(History(New, [], []), New.(linked := true, state := Discovering), DISCOVER, [])
  {
    hide Command;
    CommandNoted(History(New, [], []), New, DISCOVER, [], ROOM);
    assert [Connect][..0] == [];
  }

  lemma Discovers(h: History, payload: seq<Byte>, sinks: seq<Byte>)
    requires Waits(h, DISCOVER) && 0 < |payload| <= FRAGMENT_CAPACITY && |payload| % 2 == 0
    requires sinks == FirstEight(EligibleSinks(payload)) && sinks != []
    ensures AfterAnswer(h, MSG_ACCEPT, payload)
         == Sent(h, h.source.(sinks := sinks, sinkPos := 0, remoteSeid := sinks[0], state := ReadingCapabilities),
                 GET_ALL_CAPABILITIES, [Shifted(sinks[0])])
  {
    hide Command, EligibleSinks, FirstEight, IsCommand, Step;
    HearsDispatch(h.source, MSG_ACCEPT, payload);
    CommandNoted(h, h.source.(pendingSignal := 0, sinks := sinks, sinkPos := 0, remoteSeid := sinks[0], state := ReadingCapabilities),
                 GET_ALL_CAPABILITIES, [Shifted(sinks[0])], ROOM);
  }

  function CodeOf(payload: seq<Byte>): Byte {
    if payload == [] then 0 else payload[|payload| - 1]
  }

  lemma FirstQueryRefused(h: History, message: Byte, payload: seq<Byte>)
    requires Waits(h, GET_ALL_CAPABILITIES) && (message == MSG_REJECT || message == MSG_GENERAL_REJECT) && |payload| <= 1
    ensures AfterAnswer(h, message, payload)
         == Sent(h, h.source.(lastReject := (GET_ALL_CAPABILITIES, CodeOf(payload))), GET_CAPABILITIES, [Shifted(h.source.remoteSeid)])
  {
    hide Command, IsCommand, Step;
    HearsDispatch(h.source, message, payload);
    CommandNoted(h, h.source.(pendingSignal := 0, lastReject := (GET_ALL_CAPABILITIES, CodeOf(payload))),
                 GET_CAPABILITIES, [Shifted(h.source.remoteSeid)], ROOM);
  }

  lemma SecondQueryRefused(h: History, payload: seq<Byte>, seid: Byte)
    requires Waits(h, GET_CAPABILITIES) && h.source.state == ReadingCapabilities && |payload| <= 1
    requires h.source.sinkPos + 1 < |h.source.sinks| && seid == h.source.sinks[h.source.sinkPos + 1]
    ensures AfterAnswer(h, MSG_REJECT, payload)
         == Sent(h, h.source.(lastReject := (GET_CAPABILITIES, CodeOf(payload)), sinkPos := h.source.sinkPos + 1, remoteSeid := seid,
                              delayReporting := false, delay := 0), GET_ALL_CAPABILITIES, [Shifted(seid)])
  {
    hide Command, IsCommand, Step;
    HearsDispatch(h.source, MSG_REJECT, payload);
    CommandNoted(h, h.source.(pendingSignal := 0, lastReject := (GET_CAPABILITIES, CodeOf(payload)), sinkPos := h.source.sinkPos + 1,
                              remoteSeid := seid, delayReporting := false, delay := 0), GET_ALL_CAPABILITIES, [Shifted(seid)], ROOM);
  }

  lemma Offered(h: History, es: seq<Element>, config: Sbc)
    requires Waits(h, GET_CAPABILITIES) && Choice.Fit(es) && |Choice.Joined(es)| <= FRAGMENT_CAPACITY
    requires Found(es) == Some(config) && !OffersDelay(es)
    ensures AfterAnswer(h, MSG_ACCEPT, Choice.Joined(es))
         == Sent(h, h.source.(codecCaps := KeptCaps(h.source.codecCaps, es), sbc := config, delayReporting := false, state := Configuring),
                 SET_CONFIGURATION, [Shifted(h.source.remoteSeid), Shifted(h.source.localSeid)] + Services(config, false))
  {
    hide Command, IsCommand, Step, Elements, Found, KeptCaps, OffersDelay, Choice.Joined, Choice.Fit, Services;
    HearsDispatch(h.source, MSG_ACCEPT, Choice.Joined(es));
    Choice.JoinedElements(es);
    assert |Services(config, false)| == 10 by { TenBytes(config); }
    CommandNoted(h, h.source.(pendingSignal := 0, codecCaps := KeptCaps(h.source.codecCaps, es), sbc := config, delayReporting := false,
                              state := Configuring),
                 SET_CONFIGURATION, [Shifted(h.source.remoteSeid), Shifted(h.source.localSeid)] + Services(config, false), ROOM);
  }

  lemma TenBytes(config: Sbc)
    ensures |Services(config, false)| == 10
  {
  }

  lemma Configured(h: History)
    requires Waits(h, SET_CONFIGURATION)
    ensures AfterAnswer(h, MSG_ACCEPT, []) == Sent(h, h.source.(localInUse := true, state := Opening), OPEN, [Shifted(h.source.remoteSeid)])
  {
    hide Command, IsCommand, Step;
    HearsDispatch(h.source, MSG_ACCEPT, []);
    CommandNoted(h, h.source.(pendingSignal := 0, localInUse := true, state := Opening), OPEN, [Shifted(h.source.remoteSeid)], ROOM);
  }

  lemma Opened(h: History)
    requires Waits(h, OPEN)
    ensures AfterAnswer(h, MSG_ACCEPT, []) == h.(source := h.source.(pendingSignal := 0, state := Open))
  {
    hide Step;
    HearsDispatch(h.source, MSG_ACCEPT, []);
  }

  lemma Asked(h: History)
    requires Waits(h, 0) && h.source.state == Open && h.source.remoteSeid != 0
    ensures Noted(h, Step(h.source, StartStream, ROOM)) == Sent(h, h.source.(state := Starting), START, [Shifted(h.source.remoteSeid)])
  {
    hide Command, IsCommand;
    CommandNoted(h, h.source, START, [Shifted(h.source.remoteSeid)], ROOM);
  }

  lemma Streams(h: History)
    requires Waits(h, START) && h.source.state == Starting
    ensures AfterAnswer(h, MSG_ACCEPT, []) == h.(source := h.source.(pendingSignal := 0, state := Streaming))
  {
    hide Step;
    HearsDispatch(h.source, MSG_ACCEPT, []);
  }

  lemma LastQueryRefused(h: History)
    requires Waits(h, GET_CAPABILITIES) && h.source.state == ReadingCapabilities && h.source.sinkPos + 1 >= |h.source.sinks|
    ensures AfterAnswer(h, MSG_REJECT, [])
         == h.(source := h.source.(lastReject := (GET_CAPABILITIES, 0), sinkPos := h.source.sinkPos + 1, pendingSignal := 0))
  {
    hide Step;
    HearsDispatch(h.source, MSG_REJECT, []);
  }

  lemma AskedToSuspend(h: History)
    requires Waits(h, 0) && h.source.state == Streaming && h.source.remoteSeid != 0
    ensures Noted(h, Step(h.source, SuspendStream, ROOM)) == Sent(h, h.source.(state := Suspending), SUSPEND, [Shifted(h.source.remoteSeid)])
  {
    hide Command, IsCommand;
    CommandNoted(h, h.source, SUSPEND, [Shifted(h.source.remoteSeid)], ROOM);
  }

  lemma Suspends(h: History)
    requires Waits(h, SUSPEND) && h.source.state == Suspending
    ensures AfterAnswer(h, MSG_ACCEPT, []) == h.(source := h.source.(pendingSignal := 0, state := Open))
  {
    hide Step;
    HearsDispatch(h.source, MSG_ACCEPT, []);
  }

  // ----- runs built up answer by answer

  lemma RunOn(events: seq<Event>, e: Event)
    ensures Run(events + [e], ROOM) == Noted(Run(events, ROOM), Step(Run(events, ROOM).source, e, ROOM))
  {
    assert (events + [e])[..|events|] == events;
  }

  /** `events`, and then the answer to the command pending after them. */
  function Answered(events: seq<Event>, message: Byte, payload: seq<Byte>): seq<Event>
    requires Run(events, ROOM).source.pendingTransaction < 16 && message < 4
  {
    var s := Run(events, ROOM).source;
    events + [Hears(s.pendingTransaction, message, s.pendingSignal, payload)]
  }

  lemma AnsweredRuns(events: seq<Event>, message: Byte, payload: seq<Byte>)
    requires Run(events, ROOM).source.pendingTransaction < 16 && message < 4
    ensures Run(Answered(events, message, payload), ROOM) == AfterAnswer(Run(events, ROOM), message, payload)
  {
    var s := Run(events, ROOM).source;
    RunOn(events, Hears(s.pendingTransaction, message, s.pendingSignal, payload));
  }

  /** A truthful answer continues a walk. */
  lemma WalksOn(peer: Peer, events: seq<Event>, message: Byte, payload: seq<Byte>)
    requires WellFormed(peer) && Walk(peer, events, ROOM) && 0 < message < 4 && |payload| <= FRAGMENT_CAPACITY
    requires var s := Run(events, ROOM).source;
             && s.linked && s.assembly == NO_ASSEMBLY && s.pendingTransaction < 16 && Looking(s)
             && Truthful(peer, s, Complete(s.pendingTransaction, message, s.pendingSignal, payload))
    ensures Walk(peer, Answered(events, message, payload), ROOM)
  {
    hide Truthful, WellFormed, Run;
    var s, longer := Run(events, ROOM).source, Answered(events, message, payload);
    CompletedSingle(s, message, payload);
    forall k | 1 <= k < |longer|
      ensures Looking(Run(longer[..k], ROOM).source) && Fair(peer, Run(longer[..k], ROOM).source, longer[k])
    {
      if k < |events| {
        assert longer[..k] == events[..k] && longer[k] == events[k];
      } else {
        assert longer[..k] == events;
      }
    }
  }

  lemma CompletedSingle(s: Source, message: Byte, payload: seq<Byte>)
    requires s.linked && s.assembly == NO_ASSEMBLY && s.pendingTransaction < 16 && s.pendingSignal < 0x40
    requires message < 4 && |payload| <= FRAGMENT_CAPACITY
    ensures Completed(s, Hears(s.pendingTransaction, message, s.pendingSignal, payload).packet)
         == Some(Complete(s.pendingTransaction, message, s.pendingSignal, payload))
  {
    assert Hears(s.pendingTransaction, message, s.pendingSignal, payload).packet[2..] == payload;
  }

  // ----- peers that make the walk as long as it can be

  const ELEMENTS: seq<Element> := [Element(MEDIA_TRANSPORT, []), Element(MEDIA_CODEC, [0, 0, 0x23, 0x15, 2, 53])]

  const CHOSEN: Sbc := Sbc(0x22, 0x15, 27, 39)

  lemma OfferRead()
    ensures |Choice.Joined(ELEMENTS)| == 10 && Choice.Fit(ELEMENTS)
    ensures Found(ELEMENTS) == Some(CHOSEN) && !OffersDelay(ELEMENTS)
    ensures KeptCaps([0, 0, 0, 0, 0, 0], ELEMENTS) == [0, 0, 0x23, 0x15, 2, 53]
  {
    var codec := ELEMENTS[1];
    assert ELEMENTS[1..] == [codec] && [codec][1..] == [];
    assert Choice.Joined([codec]) == [MEDIA_CODEC, 6] + codec.value + [];
    assert Usable(codec) == Some(CHOSEN) && Found([codec]) == Some(CHOSEN);
    assert Overlaid([0, 0, 0, 0, 0, 0], codec.value) == codec.value;
    assert KeptCaps([0, 0, 0, 0, 0, 0], [codec]) == codec.value;
  }

  /** The end points 1 to `n`, all of them free audio sinks. */
  function Listing(n: nat): (payload: seq<Byte>)
    requires n <= MAX_SINKS
    ensures |payload| == 2 * n
  {
    if n == 0 then [] else Listing(n - 1) + [4 * n, 8]
  }

  function Seids(n: nat): (seids: seq<Byte>)
    requires n <= MAX_SINKS
    ensures |seids| == n && forall k | 0 <= k < n :: seids[k] == k + 1
  {
    if n == 0 then [] else Seids(n - 1) + [n]
  }

  /** `n` sinks that refuse every query, but the last one offers SBC at the second if `serves`. */
  function LongPeer(n: nat, serves: bool): Peer
    requires n <= MAX_SINKS
  {
    Peer(Listing(n), _ => Refusal, seid => if serves && seid == n then Offer(ELEMENTS) else Refusal)
  }

  lemma {:induction false} SinksConcat(x: seq<Byte>, y: seq<Byte>)
    requires |x| % 2 == 0
    ensures EligibleSinks(x + y) == EligibleSinks(x) + EligibleSinks(y)
    decreases |x|
  {
    hide Eligible;
    if x == [] {
      assert x + y == y;
    } else {
      assert (x + y)[2..] == x[2..] + y;
      SinksConcat(x[2..], y);
      Associates(if Eligible(x[0], x[1]) then [x[0] / 4] else [], EligibleSinks(x[2..]), EligibleSinks(y));
    }
  }

  lemma {:induction false} ListingListsAll(n: nat)
    requires n <= MAX_SINKS
    ensures EligibleSinks(Listing(n)) == Seids(n)
  {
    hide EligibleSinks;
    if n > 0 {
      ListingListsAll(n - 1);
      SinksConcat(Listing(n - 1), [4 * n, 8]);
      OneSink(n);
    } else {
      NoSinks();
    }
  }

  lemma OneSink(n: nat)
    requires 1 <= n <= MAX_SINKS
    ensures EligibleSinks([4 * n, 8]) == [n]
  {
    var first: Byte := 4 * n;
    assert first / 4 == n && first % 2 == 0 && first / 2 % 2 == 0;
    assert [first, 8][2..] == [];
  }

  lemma NoSinks()
    ensures EligibleSinks([]) == []
  {
  }

  lemma LongPeerFits(n: nat, serves: bool)
    requires 1 <= n <= MAX_SINKS
    ensures WellFormed(LongPeer(n, serves)) && Candidates(LongPeer(n, serves)) == Seids(n)
  {
    hide EligibleSinks, Found, OffersDelay, KeptCaps, Choice.Joined;
    OfferRead();
    ListingListsAll(n);
  }

  /** The run so far is a walk that has come to sink `k`, with its first or its second query pending. */
  ghost predicate Asking(n: nat, serves: bool, k: nat, second: bool, events: seq<Event>)
    requires 1 <= n <= MAX_SINKS
  {
    var h := Run(events, ROOM);
    && WellFormed(LongPeer(n, serves)) && Walk(LongPeer(n, serves), events, ROOM)
    && Waits(h, if second then GET_CAPABILITIES else GET_ALL_CAPABILITIES) && h.source.state == ReadingCapabilities
    && h.source.sinks == Seids(n) && h.source.sinkPos == k && h.source.remoteSeid == k + 1
    && |h.commands| == 2 * k + (if second then 3 else 2)
  }

  lemma AsksFirst(n: nat, serves: bool) returns (events: seq<Event>)
    requires 1 <= n <= MAX_SINKS
    ensures Asking(n, serves, 0, false, events)
  {
    hide EligibleSinks, FirstEight, WellFormed, Truthful, Step, Noted, Run;
    var peer := LongPeer(n, serves);
    LongPeerFits(n, serves);
    Connects();
    Discovers(Run([Connect], ROOM), peer.listing, Seids(n));
    AnsweredRuns([Connect], MSG_ACCEPT, peer.listing);
    TruthOfListing(peer, Run([Connect], ROOM).source);
    WalksOn(peer, [Connect], MSG_ACCEPT, peer.listing);
    events := Answered([Connect], MSG_ACCEPT, peer.listing);
  }

  lemma TruthOfListing(peer: Peer, s: Source)
    requires WellFormed(peer) && s.pendingSignal == DISCOVER
    ensures Truthful(peer, s, Complete(s.pendingTransaction, MSG_ACCEPT, DISCOVER, peer.listing))
  {
  }

  lemma TruthOfRefusal(peer: Peer, s: Source)
    requires WellFormed(peer) && (s.pendingSignal == GET_ALL_CAPABILITIES || s.pendingSignal == GET_CAPABILITIES)
    requires s.pendingSignal == GET_ALL_CAPABILITIES ==> peer.all(s.remoteSeid).Refusal?
    requires s.pendingSignal == GET_CAPABILITIES ==> peer.basic(s.remoteSeid).Refusal?
    ensures Truthful(peer, s, Complete(s.pendingTransaction, MSG_REJECT, s.pendingSignal, []))
  {
  }

  lemma AsksAgain(n: nat, serves: bool, k: nat, events: seq<Event>)
    requires 1 <= n <= MAX_SINKS && k < n && Asking(n, serves, k, false, events)
    ensures Asking(n, serves, k, true, Answered(events, MSG_REJECT, []))
  {
    hide WellFormed, Walk, Truthful, Step, Noted, Run, Listing, Seids;
    var peer, h := LongPeer(n, serves), Run(events, ROOM);
    FirstQueryRefused(h, MSG_REJECT, []);
    AnsweredRuns(events, MSG_REJECT, []);
    TruthOfRefusal(peer, h.source);
    WalksOn(peer, events, MSG_REJECT, []);
  }

  lemma AsksNext(n: nat, serves: bool, k: nat, events: seq<Event>)
    requires 1 <= n <= MAX_SINKS && k + 1 < n && Asking(n, serves, k, true, events)
    ensures Asking(n, serves, k + 1, false, Answered(events, MSG_REJECT, []))
  {
    hide WellFormed, Walk, Truthful, Step, Noted, Run, Listing;
    var peer, h := LongPeer(n, serves), Run(events, ROOM);
    SecondQueryRefused(h, [], k + 2);
    AnsweredRuns(events, MSG_REJECT, []);
    TruthOfRefusal(peer, h.source);
    WalksOn(peer, events, MSG_REJECT, []);
  }

  lemma {:induction false} AsksAll(n: nat, serves: bool, k: nat) returns (events: seq<Event>)
    requires k < n && 1 <= n <= MAX_SINKS
    ensures Asking(n, serves, k, true, events)
  {
    hide Asking;
    if k == 0 {
      events := AsksFirst(n, serves);
    } else {
      events := AsksAll(n, serves, k - 1);
      AsksNext(n, serves, k - 1, events);
      events := Answered(events, MSG_REJECT, []);
    }
    AsksAgain(n, serves, k, events);
    events := Answered(events, MSG_REJECT, []);
  }

  /**
   * For every number of sinks there is a well-formed peer and a walk that takes DISCOVER and two queries of each sink
   * before its verdict, and it does so for both verdicts.
   */
  lemma BoundIsMet(n: nat, serves: bool) returns (events: seq<Event>)
    requires 1 <= n <= MAX_SINKS
    ensures var peer, h := LongPeer(n, serves), Run(events, ROOM);
            && WellFormed(peer) && |Candidates(peer)| == n && Walk(peer, events, ROOM)
            && (if serves then ChoseFirst(peer, h.source) else FoundNone(peer, h.source))
            && |h.commands| == 1 + 2 * n + (if serves then 1 else 0)
  {
    events := LongWalk(n, serves);
    LongPeerFits(n, serves);
    WalkFindsFirst(LongPeer(n, serves), events, ROOM);
  }

  /** The same walk, with the state it ends in. */
  lemma LongWalk(n: nat, serves: bool) returns (events: seq<Event>)
    requires 1 <= n <= MAX_SINKS
    ensures var h := Run(events, ROOM);
            && WellFormed(LongPeer(n, serves)) && Walk(LongPeer(n, serves), events, ROOM)
            && |h.commands| == 1 + 2 * n + (if serves then 1 else 0)
            && (if serves then Waits(h, SET_CONFIGURATION) && h.source.remoteSeid == n && h.configured == Services(CHOSEN, false)
                else Waits(h, 0))
  {
    hide WellFormed, Truthful, Step, Noted, Run, Listing, Services, Choice.Joined, Choice.Fit, Found, OffersDelay, KeptCaps;
    var peer := LongPeer(n, serves);
    var asked := AsksAll(n, serves, n - 1);
    var h := Run(asked, ROOM);
    if serves {
      OfferRead();
      Offered(h, ELEMENTS, CHOSEN);
      AnsweredRuns(asked, MSG_ACCEPT, Choice.Joined(ELEMENTS));
      TruthOfOffer(peer, h.source, ELEMENTS);
      WalksOn(peer, asked, MSG_ACCEPT, Choice.Joined(ELEMENTS));
      events := Answered(asked, MSG_ACCEPT, Choice.Joined(ELEMENTS));
      ServicesSent(h.source.remoteSeid, h.source.localSeid);
    } else {
      LastQueryRefused(h);
      AnsweredRuns(asked, MSG_REJECT, []);
      TruthOfRefusal(peer, h.source);
      WalksOn(peer, asked, MSG_REJECT, []);
      events := Answered(asked, MSG_REJECT, []);
    }
  }

  lemma ServicesSent(remote: Byte, local: Byte)
    ensures ([Shifted(remote), Shifted(local)] + Services(CHOSEN, false))[2..] == Services(CHOSEN, false)
    ensures |[Shifted(remote), Shifted(local)] + Services(CHOSEN, false)| >= 2
  {
  }

  lemma TruthOfOffer(peer: Peer, s: Source, es: seq<Element>)
    requires WellFormed(peer) && Choice.Fit(es)
    requires || (s.pendingSignal == GET_ALL_CAPABILITIES && peer.all(s.remoteSeid) == Offer(es))
             || (s.pendingSignal == GET_CAPABILITIES && peer.basic(s.remoteSeid) == Offer(es))
    ensures Truthful(peer, s, Complete(s.pendingTransaction, MSG_ACCEPT, s.pendingSignal, Choice.Joined(es)))
  {
  }

  // ----- and on to streaming

  /** The stream is set up and at rest, with nothing pending. */
  ghost predicate Ready(h: History) {
    Waits(h, 0) && h.source.state == Open && h.source.remoteSeid != 0
  }

  /** From every such walk that finds a sink, two answers open the stream as SET_CONFIGURATION said. */
  lemma EveryListOpens(n: nat) returns (events: seq<Event>)
    requires 1 <= n <= MAX_SINKS
    ensures var h := Run(events, ROOM);
            && Ready(h) && h.source.remoteSeid == n && h.source.localInUse
            && h.configured == Services(CHOSEN, false) && |h.commands| == 2 * n + 3
  {
    hide WellFormed, Walk, Step, Noted, Run, Services;
    var chosen := LongWalk(n, true);
    Configured(Run(chosen, ROOM));
    AnsweredRuns(chosen, MSG_ACCEPT, []);
    var opening := Answered(chosen, MSG_ACCEPT, []);
    Opened(Run(opening, ROOM));
    AnsweredRuns(opening, MSG_ACCEPT, []);
    events := Answered(opening, MSG_ACCEPT, []);
  }

  /** One more request of the user, and START is pending. */
  lemma Requested(events: seq<Event>)
    requires Ready(Run(events, ROOM))
    ensures var h, h' := Run(events, ROOM), Run(events + [StartStream], ROOM);
            Waits(h', START) && h'.source.state == Starting && h'.source.remoteSeid != 0 && h'.commands == h.commands + [START]
  {
    hide Step, Noted, Run;
    Asked(Run(events, ROOM));
    RunOn(events, StartStream);
  }

  /** However many sinks refused before, the stream can run, set up as SET_CONFIGURATION said. */
  lemma EveryListStreams(n: nat) returns (events: seq<Event>)
    requires 1 <= n <= MAX_SINKS
    ensures var h := Run(events, ROOM);
            && h.source.state == Streaming && h.source.remoteSeid == n && h.source.localInUse
            && h.configured == Services(CHOSEN, false) && |h.commands| == 2 * n + 4
  {
    hide Step, Noted, Run, Services;
    var atRest := EveryListOpens(n);
    Asked(Run(atRest, ROOM));
    RunOn(atRest, StartStream);
    var starting := atRest + [StartStream];
    Streams(Run(starting, ROOM));
    AnsweredRuns(starting, MSG_ACCEPT, []);
    events := Answered(starting, MSG_ACCEPT, []);
  }

  /** Started and suspended again. */
  lemma StartedAndSuspended(events: seq<Event>) returns (longer: seq<Event>)
    requires Ready(Run(events, ROOM))
    ensures var h, h' := Run(events, ROOM), Run(longer, ROOM);
            Ready(h') && h'.commands == h.commands + [START, SUSPEND]
  {
    hide Step, Noted, Run;
    var h := Run(events, ROOM);
    Requested(events);
    var starting := events + [StartStream];
    Streams(Run(starting, ROOM));
    AnsweredRuns(starting, MSG_ACCEPT, []);
    var streaming := Answered(starting, MSG_ACCEPT, []);
    AskedToSuspend(Run(streaming, ROOM));
    RunOn(streaming, SuspendStream);
    var suspending := streaming + [SuspendStream];
    Suspends(Run(suspending, ROOM));
    AnsweredRuns(suspending, MSG_ACCEPT, []);
    longer := Answered(suspending, MSG_ACCEPT, []);
    assert h.commands + [START] + [SUSPEND] == h.commands + [START, SUSPEND];
  }

  function Rounds(m: nat): (commands: seq<Byte>)
    ensures |commands| == 2 * m
    ensures m > 0 ==> commands[0] == START
  {
    if m == 0 then [] else [START, SUSPEND] + Rounds(m - 1)
  }

  lemma {:induction false} ManyRounds(events: seq<Event>, m: nat) returns (longer: seq<Event>)
    requires Ready(Run(events, ROOM))
    ensures Ready(Run(longer, ROOM)) && Run(longer, ROOM).commands == Run(events, ROOM).commands + Rounds(m)
    decreases m
  {
    hide Ready, Run;
    longer := events;
    if m > 0 {
      var once := StartedAndSuspended(events);
      longer := ManyRounds(once, m - 1);
      Associates(Run(events, ROOM).commands, [START, SUSPEND], Rounds(m - 1));
    } else {
      assert Run(events, ROOM).commands + Rounds(0) == Run(events, ROOM).commands;
    }
  }

  /**
   * After eight starts and suspends, a late duplicate of the acceptance of the first START, long acted on, is taken for
   * the answer to the ninth, sixteen commands later: the source streams though that one has not been answered.
   */
  lemma LateAnswerIsTaken() returns (events: seq<Event>, i: nat)
    ensures var h := Run(events, ROOM);
            && i + 16 == |h.commands| - 1 && h.commands[i] == START == h.commands[i + 16] && !h.source.assembly.active
            && h.source.pendingSignal == START && h.source.state == Starting
            && Receive(h.source, Fragments.Single(i % 16, MSG_ACCEPT, h.commands[i], []), ROOM)
                 == Outcome(h.source.(pendingSignal := 0, state := Streaming), Ok(0), [])
  {
    hide Step, Noted, Run, Receive, Services;
    var atRest := EveryListOpens(1);
    var rested := ManyRounds(atRest, 8);
    Requested(rested);
    events, i := rested + [StartStream], |Run(atRest, ROOM).commands|;
    var h := Run(events, ROOM);
    RunsKeep(events, ROOM);
    assert h.commands[i] == Rounds(8)[0];
    SameLabel(i, i + 16);
    Fragments.SingleStep(h.source, i % 16, MSG_ACCEPT, START, [], ROOM);
  }

  // ----- an answer that hides another

  const TRANSPORT_ONLY: seq<Element> := [Element(MEDIA_TRANSPORT, [])]

  /** One sink that would offer SBC to GET_CAPABILITIES, but answers GET_ALL_CAPABILITIES without any codec. */
  const TERSE_PEER: Peer := Peer(Listing(1), _ => Offer(TRANSPORT_ONLY), _ => Offer(ELEMENTS))

  /** The walk gives up on a sink that would serve, without asking it the second query. */
  lemma UnusableAnswerHidesUsable() returns (events: seq<Event>)
    ensures WellFormed(TERSE_PEER) && Candidates(TERSE_PEER) == [1] && CouldServe(TERSE_PEER, 1)
    ensures Walk(TERSE_PEER, events, ROOM) && FoundNone(TERSE_PEER, Run(events, ROOM).source)
    ensures Run(events, ROOM).commands == [DISCOVER, GET_ALL_CAPABILITIES]
  {
    hide EligibleSinks, FirstEight, WellFormed, Truthful, Step, Noted, Run, Choice.Joined, Choice.Fit;
    TerseFits();
    Connects();
    var connected := [Connect];
    Discovers(Run(connected, ROOM), TERSE_PEER.listing, [1]);
    AnsweredRuns(connected, MSG_ACCEPT, TERSE_PEER.listing);
    TruthOfListing(TERSE_PEER, Run(connected, ROOM).source);
    WalksOn(TERSE_PEER, connected, MSG_ACCEPT, TERSE_PEER.listing);
    var asked := Answered(connected, MSG_ACCEPT, TERSE_PEER.listing);
    var h := Run(asked, ROOM);
    OfferedNothing(h);
    AnsweredRuns(asked, MSG_ACCEPT, Choice.Joined(TRANSPORT_ONLY));
    TruthOfOffer(TERSE_PEER, h.source, TRANSPORT_ONLY);
    WalksOn(TERSE_PEER, asked, MSG_ACCEPT, Choice.Joined(TRANSPORT_ONLY));
    events := Answered(asked, MSG_ACCEPT, Choice.Joined(TRANSPORT_ONLY));
    WalkFindsFirst(TERSE_PEER, events, ROOM);
  }

  lemma TerseFits()
    ensures WellFormed(TERSE_PEER) && Candidates(TERSE_PEER) == [1] && FirstEight(EligibleSinks(TERSE_PEER.listing)) == [1]
    ensures CouldServe(TERSE_PEER, 1)
    ensures Choice.Fit(TRANSPORT_ONLY) && |Choice.Joined(TRANSPORT_ONLY)| == 2
  {
    hide Found, OffersDelay, KeptCaps;
    OfferRead();
    ListingListsAll(1);
    assert Seids(1) == [1];
    assert ELEMENTS[1] in TERSE_PEER.basic(1).elements && Choice.Offers(ELEMENTS[1], 30);
  }

  lemma NothingFound(caps: seq<Byte>)
    ensures Found(TRANSPORT_ONLY) == None && KeptCaps(caps, TRANSPORT_ONLY) == caps
  {
    assert TRANSPORT_ONLY[1..] == [];
    assert Usable(TRANSPORT_ONLY[0]) == None;
    assert Found([]) == None;
  }

  lemma OfferedNothing(h: History)
    requires Waits(h, GET_ALL_CAPABILITIES) && h.source.state == ReadingCapabilities && |h.source.sinks| == 1 && h.source.sinkPos == 0
    ensures AfterAnswer(h, MSG_ACCEPT, Choice.Joined(TRANSPORT_ONLY)) == h.(source := h.source.(sinkPos := 1, pendingSignal := 0))
  {
    hide Step, Choice.Joined, Found, KeptCaps, OffersDelay, Elements;
    NothingFound(h.source.codecCaps);
    assert |Choice.Joined(TRANSPORT_ONLY)| == 2 by { TerseFits(); }
    HearsDispatch(h.source, MSG_ACCEPT, Choice.Joined(TRANSPORT_ONLY));
    Choice.JoinedElements(TRANSPORT_ONLY);
  }
}
