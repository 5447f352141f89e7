/** The pacer as it is meant: time that never wraps, and a plain account of what has been sent since when. */
module IdealClock {
  import opened Wire
  import opened MediaSpec

  /** What has been sent since the stream last began, and when that was. */
  datatype Account = Silent | Since(anchor: nat, sent: nat)

  datatype Ideal = Ideal(account: Account, worstLagMs: nat)

  /** How many whole milliseconds the audio sent is behind the time that has passed. */
  function Behind(a: Account, at: nat): nat {
    match a
    case Silent => 0
    case Since(anchor, sent) => Max(0, (at - anchor) * 1000 - Micros(sent)) / 1000
  }

  /** A packet is due at `at`: what was sent does not reach further than the lead. */
  predicate Due(a: Account, lead: nat, at: nat) {
    a.Since? ==> Micros(a.sent) <= (at - a.anchor) * 1000 + lead * 1000
  }

  /** A look at the clock notes how late it is, and gives up what is more than 400 ms late. */
  function Looked(i: Ideal, at: nat): Ideal {
    Ideal(if Behind(i.account, at) > 400 then Since(at, 0) else i.account, Max(i.worstLagMs, Behind(i.account, at)))
  }

  function Follows(i: Ideal, e: Event): Ideal {
    match e
    case Resumed => i.(account := Silent)
    case Polled(at) => Looked(i, at)
    case Packet(at, samples) =>
      var looked := Looked(i, at);
      looked.(account := match looked.account
                         case Silent => Since(at, samples)
                         case Since(anchor, sent) => Since(anchor, sent + samples))
  }

  function IdealAfter(i: Ideal, events: seq<Event>): Ideal
    decreases events
  {
    if events == [] then i else IdealAfter(Follows(i, events[0]), events[1..])
  }

  /** The clock of a run keeps exactly this account. */
  predicate Keeps(r: Run, i: Ideal) {
    && r.clock.worstLagMs == i.worstLagMs
    && match i.account
       case Silent => !r.clock.running
       case Since(anchor, sent) => r.clock.running && r.anchor == anchor && r.clock.sentSamples == sent
  }

  lemma AnswersAsIdeal(r: Run, i: Ideal, at: nat)
    requires Anchored(r) && Keeps(r, i) && Timely(r, at)
    ensures Poll(r.clock, Wrap(at)).1 == Send <==> Due(i.account, r.clock.leadMs, at)
    ensures r.clock.running ==> LagMs(r.clock, Wrap(at)) == Behind(i.account, at) < TWO32
  {
    if r.clock.running {
      Distance(at, r.anchor);
    }
  }

  lemma LookKeeps(r: Run, i: Ideal, at: nat)
    requires Anchored(r) && Keeps(r, i) && Timely(r, at)
    ensures Keeps(PolledRun(r, at), Looked(i, at))
  {
    hide LagMs, Behind, Wrap, Micros, TargetUs;
    AnswersAsIdeal(r, i, at);
    if r.clock.running && Poll(r.clock, Wrap(at)).1.Wait? {
      AheadIsNotBehind(i.account, r.clock.leadMs, at);
    }
    if !r.clock.running {
      SilenceIsNotBehind(at);
    }
  }

  lemma AheadIsNotBehind(a: Account, lead: nat, at: nat)
    requires !Due(a, lead, at)
    ensures Behind(a, at) == 0
  {
  }

  lemma SilenceIsNotBehind(at: nat)
    ensures Behind(Silent, at) == 0
  {
  }

  lemma EventFollows(r: Run, i: Ideal, e: Event, largest: U32)
    requires Bounded(r, largest) && Keeps(r, i) && Possible(r, e, largest)
    ensures Keeps(Next(r, e), Follows(i, e))
  {
    hide Looked, PolledRun, Micros, Poll;
    match e
    case Resumed =>
    case Polled(at) => LookKeeps(r, i, at);
    case Packet(at, samples) =>
      LookKeeps(r, i, at);
      PollKeeps(r, at, largest);
      if r.clock.running {
        NeverSaturates(r, at, samples, largest);
      }
  }

  lemma {:induction false} RunFollows(r: Run, i: Ideal, events: seq<Event>, largest: U32)
    requires Bounded(r, largest) && Keeps(r, i) && Feasible(r, events, largest)
    ensures Keeps(After(r, events), IdealAfter(i, events)) && Bounded(After(r, events), largest)
    ensures After(r, events).clock.leadMs == r.clock.leadMs
    decreases events
  {
    hide Keeps, Follows, Next, Possible, Bounded;
    if events != [] {
      EventFollows(r, i, events[0], largest);
      EventKeeps(r, events[0], largest);
      RunFollows(Next(r, events[0]), Follows(i, events[0]), events[1..], largest);
    }
  }

  /**
   * However often 32-bit time has wrapped: the clock has counted exactly the samples sent since the stream began, resumed
   * or was written off, has noted exactly the worst lateness of all looks, and asks for a packet exactly when one is due.
   */
  lemma ClockIsIdeal(lead: U32, start: nat, events: seq<Event>, largest: U32, at: nat)
    requires Feasible(Begin(lead, start), events, largest)
    ensures var r := After(Begin(lead, start), events);
            var i := IdealAfter(Ideal(Silent, 0), events);
            && r.clock.worstLagMs == i.worstLagMs
            && (r.clock.running <==> i.account.Since?)
            && (i.account.Since? ==> r.clock.sentSamples == i.account.sent && r.clock.anchorMs == Wrap(i.account.anchor))
            && (Timely(r, at) ==> (Poll(r.clock, Wrap(at)).1 == Send <==> Due(i.account, lead, at)))
  {
    var r, i := After(Begin(lead, start), events), IdealAfter(Ideal(Silent, 0), events);
    RunFollows(Begin(lead, start), Ideal(Silent, 0), events, largest);
    if Timely(r, at) {
      AnswersAsIdeal(r, i, at);
    }
  }
}
