/**
 * The media clock on values, and what it promises over whole runs.
 *
 * Times are whole milliseconds; the clock itself only sees them modulo 2^32.
 */
module MediaSpec {
  import opened Wire

  const SAMPLE_RATE: nat := 44100
  const CATCH_UP_LIMIT_MS: nat := 400
  const U64_MAX: nat := 0xffff_ffff_ffff_ffff

  datatype Pace = Send | Wait(ms: nat)

  datatype Clock = Clock(anchorMs: U32, sentSamples: nat, leadMs: U32, running: bool, worstLagMs: U32)

  function WithLead(lead: U32): Clock {
    Clock(0, 0, lead, false, 0)
  }

  /** Duration of `samples` in whole microseconds, rounded down. */
  function Micros(samples: nat): nat {
    samples * 1_000_000 / SAMPLE_RATE
  }

  function Reset(c: Clock): Clock {
    c.(running := false, sentSamples := 0)
  }

  function ElapsedUs(c: Clock, now: U32): nat {
    WrappingSub(now, c.anchorMs) * 1000
  }

  function TargetUs(c: Clock, now: U32): nat {
    ElapsedUs(c, now) + c.leadMs * 1000
  }

  function LagMs(c: Clock, now: U32): nat {
    Max(0, ElapsedUs(c, now) - Micros(c.sentSamples)) / 1000
  }

  /** The clock's answer at `now`, and the clock afterwards. */
  function Poll(c: Clock, now: U32): (Clock, Pace) {
    if !c.running then (c, Send)
    else if Micros(c.sentSamples) > TargetUs(c, now) then
      (c, Wait(Max(CeilDiv(Micros(c.sentSamples) - TargetUs(c, now), 1000), 1) % TWO32))
    else
      var lag := Min(LagMs(c, now), TWO32 - 1);
      var noted := c.(worstLagMs := Max(c.worstLagMs, lag));
      if lag > CATCH_UP_LIMIT_MS then (noted.(anchorMs := now, sentSamples := 0), Send) else (noted, Send)
  }

  /** `u64::saturating_add`. */
  function SaturatingAdd(a: nat, b: nat): nat {
    Min(a + b, U64_MAX)
  }

  function Sent(c: Clock, now: U32, samples: nat): Clock {
    c.(anchorMs := if c.running then c.anchorMs else now, running := true,
       sentSamples := SaturatingAdd(if c.running then c.sentSamples else 0, samples))
  }

  // ----- time as it passes

  /** What happens to the clock, at a time that only moves forward. */
  datatype Event =
    | Polled(at: nat)
    | Packet(at: nat, samples: nat)    // a poll that answers Send, and the packet it asked for
    | Resumed                          // reset

  /** A run: the clock with the unwrapped time of its anchor and of the latest event. */
  datatype Run = Run(clock: Clock, anchor: nat, latest: nat)

  function Wrap(time: nat): U32 {
    time % TWO32
  }

  /** Time does not run back, and a running clock is looked at before 32-bit time comes round to its anchor. */
  predicate Timely(r: Run, at: nat) {
    r.latest <= at && (r.clock.running ==> at < r.anchor + TWO32)
  }

  predicate Possible(r: Run, e: Event, largest: nat) {
    match e
    case Polled(at) => Timely(r, at)
    case Packet(at, samples) =>
      Timely(r, at) && 0 < samples <= largest && Poll(r.clock, Wrap(at)).1 == Send
    case Resumed => true
  }

  /** The run after a poll at `at`; writing off a stall moves the anchor. */
  function PolledRun(r: Run, at: nat): Run {
    var (c, pace) := Poll(r.clock, Wrap(at));
    Run(c, if r.clock.running && pace == Send && LagMs(r.clock, Wrap(at)) > CATCH_UP_LIMIT_MS then at else r.anchor, at)
  }

  function Next(r: Run, e: Event): Run {
    match e
    case Resumed => r.(clock := Reset(r.clock))
    case Polled(at) => PolledRun(r, at)
    case Packet(at, samples) =>
      var polled := PolledRun(r, at);
      polled.(clock := Sent(polled.clock, Wrap(at), samples), anchor := if polled.clock.running then polled.anchor else at)
  }

  predicate Feasible(r: Run, events: seq<Event>, largest: nat)
    decreases events
  {
    events == [] || (Possible(r, events[0], largest) && Feasible(Next(r, events[0]), events[1..], largest))
  }

  function After(r: Run, events: seq<Event>): Run
    decreases events
  {
    if events == [] then r else After(Next(r, events[0]), events[1..])
  }

  // ----- arithmetic of durations

  /** Rounding down, a sum is at least the sum of its parts, and at most one part down and one up. */
  lemma MicrosOfSum(x: nat, y: nat)
    ensures Micros(x) + Micros(y) <= Micros(x + y) <= Micros(x) + PacketUs(y)
  {
  }

  /** One packet, in microseconds rounded up. */
  function PacketUs(samples: nat): nat {
    CeilDiv(samples * 1_000_000, SAMPLE_RATE)
  }

  lemma PacketUsMonotone(x: nat, y: nat)
    requires x <= y
    ensures PacketUs(x) <= PacketUs(y)
    ensures Micros(x) <= Micros(y)
  {
  }

  lemma Distance(later: nat, earlier: nat)
    requires earlier <= later < earlier + TWO32
    ensures WrappingSub(Wrap(later), Wrap(earlier)) == later - earlier
  {
  }

  // ----- never too far ahead

  /** Elapsed time since the anchor plus the lead, in microseconds. */
  function AllowanceUs(r: Run): int {
    (r.latest - r.anchor) * 1000 + r.clock.leadMs * 1000
  }

  predicate Anchored(r: Run) {
    r.anchor <= r.latest && (r.clock.running ==> r.clock.anchorMs == Wrap(r.anchor))
  }

  /** What was sent since the anchor fits elapsed time, lead and one packet. */
  predicate Bounded(r: Run, largest: nat) {
    Anchored(r) && (r.clock.running ==> Micros(r.clock.sentSamples) <= AllowanceUs(r) + PacketUs(largest))
  }

  lemma PollKeeps(r: Run, at: nat, largest: nat)
    requires Bounded(r, largest) && Possible(r, Polled(at), largest)
    ensures Bounded(PolledRun(r, at), largest) && PolledRun(r, at).latest == at
    ensures PolledRun(r, at).clock.running == r.clock.running && PolledRun(r, at).clock.leadMs == r.clock.leadMs
    ensures r.clock.running && Poll(r.clock, Wrap(at)).1 == Send ==>
              Micros(PolledRun(r, at).clock.sentSamples) <= AllowanceUs(PolledRun(r, at))
  {
    if r.clock.running {
      Distance(at, r.anchor);
    }
  }

  lemma EventKeeps(r: Run, e: Event, largest: nat)
    requires Bounded(r, largest) && Possible(r, e, largest)
    ensures Bounded(Next(r, e), largest) && Next(r, e).clock.leadMs == r.clock.leadMs
  {
    match e
    case Resumed =>
    case Polled(at) => PollKeeps(r, at, largest);
    case Packet(at, samples) =>
      PollKeeps(r, at, largest);
      PacketUsMonotone(samples, largest);
      MicrosOfSum(PolledRun(r, at).clock.sentSamples, samples);
      MicrosOfSum(0, samples);
  }

  function Begin(lead: U32, time: nat): Run {
    Run(WithLead(lead), time, time)
  }

  lemma {:induction false} RunBounded(r: Run, events: seq<Event>, largest: nat)
    requires Bounded(r, largest) && Feasible(r, events, largest)
    ensures Bounded(After(r, events), largest) && After(r, events).clock.leadMs == r.clock.leadMs
    decreases events
  {
    if events != [] {
      EventKeeps(r, events[0], largest);
      RunBounded(Next(r, events[0]), events[1..], largest);
    }
  }

  /**
   * In every run whose packets follow a poll that said Send: the audio sent since the anchor never
   * exceeds elapsed time plus lead plus one packet, to the microsecond, and the 64-bit products the
   * clock forms from it cannot overflow.
   */
  lemma NeverTooFarAhead(lead: U32, start: nat, events: seq<Event>, largest: U32)
    requires Feasible(Begin(lead, start), events, largest)
    ensures var r := After(Begin(lead, start), events);
            r.clock.running ==>
              && Micros(r.clock.sentSamples) <= (r.latest - r.anchor) * 1000 + lead * 1000 + PacketUs(largest)
              && (r.latest < r.anchor + TWO32 ==> r.clock.sentSamples * 1_000_000 < 0x1_0000_0000_0000_0000)
  {
    RunBounded(Begin(lead, start), events, largest);
    PacketUsMonotone(largest, TWO32);
  }

  // ----- the answer to wait is the least delay

  lemma CeilIsThreshold(excess: nat, d: nat)
    requires excess > 0
    ensures CeilDiv(excess, 1000) >= 1
    ensures excess > 1000 * d <==> d < CeilDiv(excess, 1000)
  {
  }

  /** `Wait(w)` names exactly the first millisecond at which the clock says Send. */
  lemma WaitIsLeast(r: Run, at: nat, d: nat, largest: U32)
    requires Bounded(r, largest) && Possible(r, Polled(at), largest)
    requires at + d < r.anchor + TWO32
    ensures var answer := Poll(r.clock, Wrap(at)).1;
            answer.Wait? ==> answer.ms >= 1 && (Poll(r.clock, Wrap(at + d)).1 == Send <==> d >= answer.ms)
  {
    hide Micros, CeilDiv, Wrap, Poll, TargetUs, Bounded, Possible;
    var excess := Micros(r.clock.sentSamples) - TargetUs(r.clock, Wrap(at));
    AnswerIsExcess(r.clock, Wrap(at));
    AnswerIsExcess(r.clock, Wrap(at + d));
    if r.clock.running && excess > 0 {
      TargetAdvances(r, at, d, largest);
      ExcessIsAWord(r, at, largest);
      CeilIsThreshold(excess, d);
      CeilIsThreshold(excess, TWO32 - 1);
    }
  }

  lemma TargetAdvances(r: Run, at: nat, d: nat, largest: nat)
    requires Bounded(r, largest) && Possible(r, Polled(at), largest) && r.clock.running && at + d < r.anchor + TWO32
    ensures TargetUs(r.clock, Wrap(at + d)) == TargetUs(r.clock, Wrap(at)) + 1000 * d
  {
    Distance(at, r.anchor);
    Distance(at + d, r.anchor);
  }

  lemma ExcessIsAWord(r: Run, at: nat, largest: U32)
    requires Bounded(r, largest) && Possible(r, Polled(at), largest) && r.clock.running
    ensures Micros(r.clock.sentSamples) - TargetUs(r.clock, Wrap(at)) <= 1000 * (TWO32 - 1)
  {
    hide Micros, CeilDiv;
    Distance(at, r.anchor);
    PacketUsMonotone(largest, TWO32);
    assert PacketUs(TWO32) <= 1000 * (TWO32 - 1);
  }

  lemma AnswerIsExcess(c: Clock, now: U32)
    ensures var excess := Micros(c.sentSamples) - TargetUs(c, now);
            Poll(c, now).1 == if c.running && excess > 0 then Wait(Max(CeilDiv(excess, 1000), 1) % TWO32) else Send
  {
  }

  // ----- bursts at one instant

  predicate AllAt(events: seq<Event>, at: nat) {
    forall e | e in events :: e.Packet? && e.at == at
  }

  function Total(events: seq<Event>): nat {
    if events == [] then 0 else (if events[0].Packet? then events[0].samples else 0) + Total(events[1..])
  }

  lemma MicrosExceed(samples: nat)
    ensures Micros(samples) >= samples
  {
  }

  /** The 64-bit counter has room for every packet the clock asks for. */
  lemma NeverSaturates(r: Run, at: nat, samples: nat, largest: U32)
    requires Bounded(r, largest) && Possible(r, Packet(at, samples), largest) && r.clock.running
    ensures PolledRun(r, at).clock.sentSamples + samples <= U64_MAX
  {
    hide Micros;
    PollKeeps(r, at, largest);
    MicrosExceed(PolledRun(r, at).clock.sentSamples);
  }

  /** Once running and not far behind, a burst only adds to what was sent. */
  lemma {:induction false} BurstAdds(r: Run, events: seq<Event>, at: nat, largest: U32)
    requires Bounded(r, largest) && Feasible(r, events, largest) && AllAt(events, at) && events != []
    requires r.clock.running && LagMs(r.clock, Wrap(at)) <= CATCH_UP_LIMIT_MS
    ensures var s := After(r, events);
            && s.anchor == r.anchor && s.latest == at && s.clock.running && s.clock.leadMs == r.clock.leadMs
            && s.clock.anchorMs == r.clock.anchorMs
            && s.clock.sentSamples == r.clock.sentSamples + Total(events)
            && Micros(s.clock.sentSamples) <= AllowanceUs(s) + PacketUs(largest)
            && s.clock.worstLagMs <= Max(r.clock.worstLagMs, LagMs(r.clock, Wrap(at)))
            && |events| <= Total(events)
    decreases events
  {
    assert events[0] in events;
    EventKeeps(r, events[0], largest);
    NeverSaturates(r, at, events[0].samples, largest);
    var s := Next(r, events[0]);
    LagFalls(r.clock, s.clock, Wrap(at));
    if |events| > 1 {
      assert forall e | e in events[1..] :: e in events;
      BurstAdds(s, events[1..], at, largest);
    } else {
      assert events[1..] == [];
    }
  }

  /** Sending more never makes the clock later. */
  lemma LagFalls(c: Clock, d: Clock, now: U32)
    requires d.anchorMs == c.anchorMs && c.sentSamples <= d.sentSamples
    ensures LagMs(d, now) <= LagMs(c, now)
  {
    PacketUsMonotone(c.sentSamples, d.sentSamples);
  }

  /**
   * A burst at one instant adds at most 401 ms plus the lead plus one packet of audio; since every
   * packet carries a sample, that also bounds how many there can be, so the burst ends.
   */
  lemma BurstsAreBounded(r: Run, events: seq<Event>, at: nat, largest: U32)
    requires Bounded(r, largest) && Feasible(r, events, largest) && AllAt(events, at)
    ensures Micros(Total(events)) <= 401_000 + r.clock.leadMs * 1000 + PacketUs(largest)
    ensures Micros(|events|) <= 401_000 + r.clock.leadMs * 1000 + PacketUs(largest)
  {
    if events != [] {
      assert events[0] in events;
      EventKeeps(r, events[0], largest);
      if r.clock.running && LagMs(r.clock, Wrap(at)) <= CATCH_UP_LIMIT_MS {
        BurstAdds(r, events, at, largest);
        Distance(at, r.anchor);
        MicrosOfSum(r.clock.sentSamples, Total(events));
      } else {
        FreshBurst(r, events, at, largest);
      }
      PacketUsMonotone(|events|, Total(events));
    }
  }

  /** A burst that starts the clock, or writes a stall off, counts from nothing. */
  lemma FreshBurst(r: Run, events: seq<Event>, at: nat, largest: U32)
    requires Bounded(r, largest) && Feasible(r, events, largest) && AllAt(events, at) && events != []
    requires !r.clock.running || LagMs(r.clock, Wrap(at)) > CATCH_UP_LIMIT_MS
    ensures Micros(Total(events)) <= r.clock.leadMs * 1000 + PacketUs(largest) && |events| <= Total(events)
  {
    assert events[0] in events;
    EventKeeps(r, events[0], largest);
    var s := Next(r, events[0]);
    Distance(at, at);
    assert s.anchor == at && s.clock.running && s.clock.sentSamples == events[0].samples;
    if |events| > 1 {
      assert forall e | e in events[1..] :: e in events;
      BurstAdds(s, events[1..], at, largest);
    } else {
      assert events[1..] == [];
    }
  }

  // ----- lateness as diagnosed

  /** One visit of the sender: a burst at `at`, after which the clock says Wait. */
  datatype Visit = Visit(at: nat, events: seq<Event>)

  predicate Complete(r: Run, v: Visit, largest: nat) {
    && v.events != [] && AllAt(v.events, v.at) && Feasible(r, v.events, largest)
    && var s := After(r, v.events);
       s.latest == v.at && v.at < s.anchor + TWO32 && Poll(s.clock, Wrap(v.at)).1.Wait?
  }

  /** Visits no further apart than the lead, each completing its burst. */
  predicate Punctual(r: Run, visits: seq<Visit>, largest: nat)
    decreases visits
  {
    visits == [] ||
    (&& Complete(r, visits[0], largest)
     && (r.clock.running ==> visits[0].at <= r.latest + r.clock.leadMs)
     && Punctual(After(r, visits[0].events), visits[1..], largest))
  }

  function AfterVisits(r: Run, visits: seq<Visit>): Run
    decreases visits
  {
    if visits == [] then r else AfterVisits(After(r, visits[0].events), visits[1..])
  }

  /** Not started yet, or ahead of real time by more than the lead. */
  predicate Ahead(r: Run) {
    Anchored(r) && (r.clock.running ==> Micros(r.clock.sentSamples) > AllowanceUs(r))
  }

  lemma VisitStaysPunctual(r: Run, v: Visit, largest: U32)
    requires Bounded(r, largest) && Ahead(r) && Complete(r, v, largest)
    requires r.clock.running ==> v.at <= r.latest + r.clock.leadMs
    ensures var s := After(r, v.events);
            Bounded(s, largest) && Ahead(s) && s.clock.worstLagMs == r.clock.worstLagMs && s.clock.leadMs == r.clock.leadMs
  {
    hide Micros, CeilDiv, WrappingSub, Wrap, SaturatingAdd;
    var events, at := v.events, v.at;
    var s := After(r, events);
    RunBounded(r, events, largest);
    assert events[0] in events;
    if r.clock.running {
      Distance(at, r.anchor);
      assert LagMs(r.clock, Wrap(at)) == 0;
      BurstAdds(r, events, at, largest);
    } else {
      EventKeeps(r, events[0], largest);
      var t := Next(r, events[0]);
      Distance(at, at);
      if |events| > 1 {
        assert forall e | e in events[1..] :: e in events;
        BurstAdds(t, events[1..], at, largest);
      } else {
        assert events[1..] == [];
      }
    }
    WorstNeverFalls(r, events);
    Distance(at, s.anchor);
  }

  lemma {:induction false} WorstNeverFalls(r: Run, events: seq<Event>)
    ensures After(r, events).clock.worstLagMs >= r.clock.worstLagMs
    decreases events
  {
    if events != [] {
      WorstNeverFalls(Next(r, events[0]), events[1..]);
    }
  }

  /** A sender that returns within the lead of its last completed burst is never diagnosed as late. */
  lemma {:induction false} PunctualSenderNeverLags(r: Run, visits: seq<Visit>, largest: U32)
    requires Bounded(r, largest) && Ahead(r) && Punctual(r, visits, largest)
    ensures AfterVisits(r, visits).clock.worstLagMs == r.clock.worstLagMs
    decreases visits
  {
    if visits != [] {
      VisitStaysPunctual(r, visits[0], largest);
      PunctualSenderNeverLags(After(r, visits[0].events), visits[1..], largest);
    }
  }
}
