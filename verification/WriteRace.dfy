/**
 * A write of the playback endpoint racing the operations that change the generation: those that reset the ring as well,
 * and `start`, which does not. The loads, stores and resets of both sides are steps of their own, and the ring is the
 * queue that `RingSteps` proves it to be.
 */
module WriteRace {
  import opened Wire
  import Runs = AudioInputRuns

  /** A byte in the ring: the era its write read, and which write that was. */
  datatype Mark = Mark(era: nat, write: nat)

  /**
   * A write, from reading generation and state over the cursor snapshot and the compare-exchange to its recheck; what it
   * refuses before the ring is touched does not matter here.
   */
  datatype Writer =
    | Idle
    | Began(era: nat, want: nat)
    | Snapped(era: nat, count: nat, resets: nat)
    | Committed(era: nat, count: nat)

  /**
   * `invalidating` lasts from the bump of the generation to the reset that follows it; `base` is the era such a bump last
   * began, that of the running session. `writes` counts the writes that have returned, and names the one under way;
   * `accepted` are those told so.
   */
  datatype World = World(queue: seq<Mark>, capacity: nat, resets: nat, era: nat, base: nat, invalidating: bool,
                         writer: Writer, writes: nat, accepted: set<nat>)

  datatype Step =
    | ReadGeneration(want: nat)
    | TakeSnapshot
    | Commit
    | Recheck
    | StartBump          // start: the generation only
    | Bump               // open, close, set_format, stop, flush: the generation
    | Discard            // and then the ring
    | Consume(want: nat)

  datatype Effect =
    | Nothing
    | Accepted(count: nat)
    | Refused(thrown: seq<Mark>)
    | Discarded(thrown: seq<Mark>)
    | Read(bytes: seq<Mark>)

  predicate Enabled(w: World, step: Step) {
    match step
    case ReadGeneration(_) => w.writer.Idle?
    case TakeSnapshot => w.writer.Began?
    case Commit => w.writer.Snapped?
    case Recheck => w.writer.Committed?
    case StartBump => !w.invalidating && (w.writer.Idle? || w.era + 1 < w.writer.era + TWO32)
    case Bump => !w.invalidating && (w.writer.Idle? || w.era + 1 < w.writer.era + TWO32)
    case Discard => w.invalidating
    case Consume(_) => true
  }

  function Perform(w: World, step: Step): (World, Effect)
    requires Enabled(w, step)
  {
    match step
    case ReadGeneration(want) => (w.(writer := Began(w.era, want)), Nothing)
    case TakeSnapshot => (w.(writer := Snapped(w.writer.era, Min(w.writer.want, Max(0, w.capacity - |w.queue|)), w.resets)), Nothing)
    case Commit =>
      var p := w.writer;
      if p.resets != w.resets then (w.(writer := Committed(p.era, 0)), Nothing)
      else (w.(queue := w.queue + seq(p.count, _ => Mark(p.era, w.writes)), writer := Committed(p.era, p.count)), Nothing)
    case Recheck =>
      var p := w.writer;
      if Runs.Generation(w.era) != Runs.Generation(p.era)
      then (w.(queue := [], resets := w.resets + 1, writer := Idle, writes := w.writes + 1), Refused(w.queue))
      else (w.(writer := Idle, writes := w.writes + 1, accepted := w.accepted + {w.writes}), Accepted(p.count))
    case StartBump => (w.(era := w.era + 1), Nothing)
    case Bump => (w.(era := w.era + 1, base := w.era + 1, invalidating := true), Nothing)
    case Discard => (w.(queue := [], resets := w.resets + 1, invalidating := false), Discarded(w.queue))
    case Consume(want) =>
      var n := Min(want, |w.queue|);
      (w.(queue := w.queue[n..]), Read(w.queue[..n]))
  }

  // ----- the invariant

  /** The write under way began before the latest change of the generation. */
  predicate Overtaken(w: World) {
    !w.writer.Idle? && w.writer.era < w.era
  }

  /** It began before the running session. */
  predicate Outlived(w: World) {
    !w.writer.Idle? && w.writer.era < w.base
  }

  /** Bytes from before the running session that no reset in progress is about to discard. */
  predicate Stale(w: World) {
    !w.invalidating && exists k | 0 <= k < |w.queue| :: w.queue[k].era < w.base
  }

  /** The unread bytes of a write that has committed are the last ones, and the others are of writes accepted. */
  predicate OwnAreLast(w: World)
    requires w.writer.Committed?
  {
    forall k | 0 <= k < |w.queue| ::
      if k + w.writer.count >= |w.queue| then w.queue[k] == Mark(w.writer.era, w.writes)
      else w.queue[k].write in w.accepted
  }

  predicate Good(w: World) {
    && w.base <= w.era
    && (!w.writer.Idle? ==> w.writer.era <= w.era < w.writer.era + TWO32)
    && (forall a | a in w.accepted :: a < w.writes)
    && (if w.writer.Committed? then OwnAreLast(w)
        else forall k | 0 <= k < |w.queue| :: w.queue[k].write in w.accepted)
    && (w.writer.Snapped? ==> w.writer.resets <= w.resets)
    && |w.queue| <= w.capacity
    && (w.writer.Snapped? && w.writer.resets == w.resets ==> |w.queue| + w.writer.count <= w.capacity)
    // with no invalidation under way, an outlived write finds or leaves nothing in the ring but its own bytes
    && (!w.invalidating && Outlived(w) ==> |w.queue| <= if w.writer.Committed? then w.writer.count else 0)
    && (!w.invalidating && !Outlived(w) ==> forall k | 0 <= k < |w.queue| :: w.queue[k].era >= w.base)
  }

  function Start(capacity: nat): World {
    World([], capacity, 0, 0, 0, false, Idle, 0, {})
  }

  lemma StepKeeps(w: World, step: Step)
    requires Good(w) && Enabled(w, step)
    ensures Good(Perform(w, step).0)
  {
    hide Runs.Generation;
    if step.Recheck? && w.writer.era != w.era {
      Runs.GenerationsDiffer(w.era, w.writer.era);
    }
  }

  predicate Feasible(w: World, steps: seq<Step>)
    decreases steps
  {
    steps == [] || (Enabled(w, steps[0]) && Feasible(Perform(w, steps[0]).0, steps[1..]))
  }

  function After(w: World, steps: seq<Step>): World
    requires Feasible(w, steps)
    decreases steps
  {
    if steps == [] then w else After(Perform(w, steps[0]).0, steps[1..])
  }

  lemma {:induction false} RunKeeps(w: World, steps: seq<Step>)
    requires Good(w) && Feasible(w, steps)
    ensures Good(After(w, steps))
    decreases steps
  {
    hide Good, Perform;
    if steps != [] {
      StepKeeps(w, steps[0]);
      RunKeeps(Perform(w, steps[0]).0, steps[1..]);
    }
  }

  // ----- bytes of an earlier session

  /**
   * Outside an invalidation the ring holds bytes from before the running session exactly while a write from before it has
   * committed some, they are not all read, and it has not yet rechecked; nothing else is in the ring then.
   */
  lemma StaleExactlyBeforeTheRecheck(capacity: nat, steps: seq<Step>)
    requires Feasible(Start(capacity), steps)
    ensures var w := After(Start(capacity), steps);
            && (Stale(w) <==> !w.invalidating && w.writer.Committed? && w.writer.era < w.base && w.queue != [])
            && (Stale(w) ==> |w.queue| <= w.writer.count && forall k | 0 <= k < |w.queue| :: w.queue[k].write == w.writes)
  {
    RunKeeps(Start(capacity), steps);
    var w := After(Start(capacity), steps);
    if !w.invalidating && w.writer.Committed? && w.writer.era < w.base && w.queue != [] {
      assert w.queue[0].era < w.base;
    }
  }

  /**
   * A commit makes the ring hold such bytes exactly if its write is from before the running session, the invalidation is
   * over, no reset came after its snapshot, and there was room for a byte.
   */
  lemma CommitLeavesStaleExactly(capacity: nat, steps: seq<Step>)
    requires Feasible(Start(capacity), steps)
    ensures var w := After(Start(capacity), steps);
            w.writer.Snapped? ==>
              (Stale(Perform(w, Commit).0) <==>
                 Outlived(w) && !w.invalidating && w.writer.resets == w.resets && w.writer.count > 0)
  {
    RunKeeps(Start(capacity), steps);
    var w := After(Start(capacity), steps);
    if w.writer.Snapped? {
      var w' := Perform(w, Commit).0;
      if Outlived(w) && !w.invalidating && w.writer.resets == w.resets && w.writer.count > 0 {
        assert w'.queue[0].era < w.base;
      }
    }
  }

  // ----- bytes whose write will be refused

  /** A byte can be read whose write is under way and will be refused. */
  predicate Doomed(w: World) {
    Overtaken(w) && exists k | 0 <= k < |w.queue| :: w.queue[k].write == w.writes
  }

  /** That is so exactly while a write overtaken by any of the six has committed bytes, not all read, and not rechecked. */
  lemma DoomedExactlyBeforeTheRecheck(capacity: nat, steps: seq<Step>)
    requires Feasible(Start(capacity), steps)
    ensures var w := After(Start(capacity), steps);
            Doomed(w) <==> w.writer.Committed? && w.writer.era < w.era && w.writer.count > 0 && w.queue != []
  {
    RunKeeps(Start(capacity), steps);
    var w := After(Start(capacity), steps);
    if w.writer.Committed? && w.writer.era < w.era && w.writer.count > 0 && w.queue != [] {
      assert w.queue[|w.queue| - 1].write == w.writes;
    }
  }

  /** A commit brings it about exactly if its write is overtaken, no reset came after its snapshot, and it has a byte. */
  lemma CommitDoomsExactly(capacity: nat, steps: seq<Step>)
    requires Feasible(Start(capacity), steps)
    ensures var w := After(Start(capacity), steps);
            w.writer.Snapped? ==>
              (Doomed(Perform(w, Commit).0) <==> Overtaken(w) && w.writer.resets == w.resets && w.writer.count > 0)
  {
    RunKeeps(Start(capacity), steps);
    var w := After(Start(capacity), steps);
    if w.writer.Snapped? {
      var w' := Perform(w, Commit).0;
      if Overtaken(w) && w.writer.resets == w.resets && w.writer.count > 0 {
        assert w'.queue[|w'.queue| - 1].write == w.writes;
      }
    }
  }

  // ----- the recheck

  /** The recheck refuses exactly the overtaken writes, and then leaves the ring empty; otherwise it touches nothing. */
  lemma RecheckIsExact(capacity: nat, steps: seq<Step>)
    requires Feasible(Start(capacity), steps)
    ensures var w := After(Start(capacity), steps);
            w.writer.Committed? ==>
              var (w', e) := Perform(w, Recheck);
              && (e.Refused? <==> Overtaken(w))
              && (e.Refused? ==> e.thrown == w.queue && w'.queue == [])
              && (!e.Refused? ==> e == Accepted(w.writer.count) && w'.queue == w.queue && w.writer.era == w.era && !Stale(w'))
  {
    hide Runs.Generation;
    RunKeeps(Start(capacity), steps);
    var w := After(Start(capacity), steps);
    if w.writer.Committed? && w.writer.era != w.era {
      Runs.GenerationsDiffer(w.era, w.writer.era);
    }
  }

  /** Outside an invalidation, a refusal throws away bytes of the running session exactly if its write belongs to it. */
  lemma RefusalHitsSessionExactly(capacity: nat, steps: seq<Step>)
    requires Feasible(Start(capacity), steps)
    ensures var w := After(Start(capacity), steps);
            w.writer.Committed? && Overtaken(w) && !w.invalidating ==>
              var (_, e) := Perform(w, Recheck);
              e.Refused? && ((exists k | 0 <= k < |e.thrown| :: e.thrown[k].era >= w.base) <==> w.base <= w.writer.era && w.queue != [])
  {
    hide Runs.Generation;
    RunKeeps(Start(capacity), steps);
    RecheckIsExact(capacity, steps);
    var w := After(Start(capacity), steps);
    if w.writer.Committed? && w.base <= w.writer.era && !w.invalidating && w.queue != [] {
      assert w.queue[0].era >= w.base;
    }
  }

  function Thrown(w: World, step: Step): seq<Mark>
    requires Enabled(w, step)
  {
    match Perform(w, step).1
    case Refused(thrown) => thrown
    case Discarded(thrown) => thrown
    case _ => []
  }

  /** The step throws away a byte whose write was told that it was accepted, and no invalidation asked for that. */
  predicate LosesAccepted(w: World, step: Step)
    requires Enabled(w, step)
  {
    !w.invalidating && exists k | 0 <= k < |Thrown(w, step)| :: Thrown(w, step)[k].write in w.accepted
  }

  /**
   * That happens exactly when a write overtaken outside an invalidation rechecks while more is unread than it put in; it
   * has then been overtaken by `start` alone.
   */
  lemma AcceptedBytesLostExactly(capacity: nat, steps: seq<Step>, step: Step)
    requires Feasible(Start(capacity), steps)
    ensures var w := After(Start(capacity), steps);
            Enabled(w, step) ==>
              && (LosesAccepted(w, step) <==> step.Recheck? && Overtaken(w) && !w.invalidating && |w.queue| > w.writer.count)
              && (LosesAccepted(w, step) ==> w.base <= w.writer.era)
  {
    RunKeeps(Start(capacity), steps);
    RecheckIsExact(capacity, steps);
    var w := After(Start(capacity), steps);
    if Enabled(w, step) {
      StepLosesExactly(w, step);
    }
  }

  lemma StepLosesExactly(w: World, step: Step)
    requires Good(w) && Enabled(w, step)
    requires step.Recheck? ==> (Perform(w, Recheck).1.Refused? <==> Overtaken(w))
    ensures LosesAccepted(w, step) <==> step.Recheck? && Overtaken(w) && !w.invalidating && |w.queue| > w.writer.count
    ensures LosesAccepted(w, step) ==> w.base <= w.writer.era
  {
    hide Runs.Generation;
    if step.Recheck? && Overtaken(w) {
      assert Thrown(w, step) == w.queue;
      if |w.queue| > w.writer.count {
        assert w.queue[0].write in w.accepted;
      } else {
        assert forall k | 0 <= k < |w.queue| :: w.queue[k].write == w.writes;
      }
    } else {
      assert !w.invalidating ==> Thrown(w, step) == [];
    }
  }

  // ----- runs in which it happens

  ghost predicate Leads(w: World, steps: seq<Step>, w': World) {
    Feasible(w, steps) && After(w, steps) == w'
  }

  lemma OneStep(w: World, step: Step)
    requires Enabled(w, step)
    ensures Leads(w, [step], Perform(w, step).0)
  {
    assert [step][1..] == [];
    assert Feasible(Perform(w, step).0, []);
  }

  lemma {:induction false} LeadsOn(w: World, x: seq<Step>, w1: World, y: seq<Step>, w2: World)
    requires Leads(w, x, w1) && Leads(w1, y, w2)
    ensures Leads(w, x + y, w2)
    decreases x
  {
    hide Perform, Enabled;
    if x == [] {
      assert x + y == y;
    } else {
      LeadsOn(Perform(w, x[0]).0, x[1..], w1, y, w2);
      assert (x + y)[0] == x[0] && (x + y)[1..] == x[1..] + y;
    }
  }

  lemma OneByte(m: Mark)
    ensures seq(1, _ => m) == [m]
  {
    assert |seq(1, _ => m)| == 1 && seq(1, _ => m)[0] == m;
  }

  /** Snapshot and commit of one byte. */
  lemma Commits(w: World)
    requires w.writer.Began? && w.writer.want == 1 && |w.queue| < w.capacity
    ensures Leads(w, [TakeSnapshot, Commit],
                  w.(queue := w.queue + [Mark(w.writer.era, w.writes)], writer := Committed(w.writer.era, 1)))
  {
    var w1 := w.(writer := Snapped(w.writer.era, 1, w.resets));
    OneByte(Mark(w.writer.era, w.writes));
    OneStep(w, TakeSnapshot);
    OneStep(w1, Commit);
    LeadsOn(w, [TakeSnapshot], w1, [Commit],
            w.(queue := w.queue + [Mark(w.writer.era, w.writes)], writer := Committed(w.writer.era, 1)));
    assert [TakeSnapshot] + [Commit] == [TakeSnapshot, Commit];
  }

  /** A byte of the session before is read in the new one, and its write is then refused. */
  lemma RefusedByteIsRead(capacity: nat) returns (steps: seq<Step>)
    requires capacity > 0
    ensures Feasible(Start(capacity), steps)
    ensures var w := After(Start(capacity), steps);
            && Stale(w)
            && var (v, read) := Perform(w, Consume(1));
               && read == Read([Mark(0, 0)]) && v.base == 1 && v.writer.Committed?
               && Perform(v, Recheck).1.Refused?
  {
    var w0 := Start(capacity);
    var w1 := w0.(writer := Began(0, 1));
    var w2 := w1.(era := 1, base := 1, invalidating := true);
    var w3 := w2.(resets := 1, invalidating := false);
    var w4 := w3.(queue := [Mark(0, 0)], writer := Committed(0, 1));
    OneStep(w0, ReadGeneration(1));
    OneStep(w1, Bump);
    OneStep(w2, Discard);
    Commits(w3);
    LeadsOn(w0, [ReadGeneration(1)], w1, [Bump], w2);
    LeadsOn(w0, [ReadGeneration(1)] + [Bump], w2, [Discard], w3);
    steps := [ReadGeneration(1)] + [Bump] + [Discard] + [TakeSnapshot, Commit];
    LeadsOn(w0, [ReadGeneration(1)] + [Bump] + [Discard], w3, [TakeSnapshot, Commit], w4);
    assert w4.queue[0].era < w4.base;
    Runs.GenerationsDiffer(1, 0);
  }

  /** One byte written and accepted. */
  lemma WritesOne(w: World)
    requires w.writer.Idle? && |w.queue| < w.capacity
    ensures Leads(w, [ReadGeneration(1)] + [TakeSnapshot, Commit] + [Recheck],
                  w.(queue := w.queue + [Mark(w.era, w.writes)], writes := w.writes + 1, accepted := w.accepted + {w.writes}))
  {
    hide Runs.Generation, Leads;
    var w1 := w.(writer := Began(w.era, 1));
    var w2 := w.(queue := w.queue + [Mark(w.era, w.writes)], writer := Committed(w.era, 1));
    OneStep(w, ReadGeneration(1));
    Commits(w1);
    OneStep(w2, Recheck);
    LeadsOn(w, [ReadGeneration(1)], w1, [TakeSnapshot, Commit], w2);
    LeadsOn(w, [ReadGeneration(1)] + [TakeSnapshot, Commit], w2, [Recheck], Perform(w2, Recheck).0);
  }

  /**
   * A byte is accepted; the next write is overtaken by `start`. Both bytes can be read, none is from an earlier session,
   * and the recheck of the second write then throws both away.
   */
  lemma StartLosesAccepted(capacity: nat) returns (steps: seq<Step>)
    requires capacity >= 2
    ensures Feasible(Start(capacity), steps)
    ensures var w := After(Start(capacity), steps);
            && w.queue == [Mark(0, 0), Mark(0, 1)] && 0 in w.accepted && w.base == 0 && w.era == 1 && !w.invalidating
            && w.writer.Committed? && LosesAccepted(w, Recheck) && Doomed(w) && Perform(w, Recheck).0.queue == []
  {
    var w0 := Start(capacity);
    var w4 := w0.(queue := [Mark(0, 0)], writes := 1, accepted := {0});
    var w5 := w4.(writer := Began(0, 1));
    var w6 := w5.(era := 1);
    var w8 := w6.(queue := [Mark(0, 0), Mark(0, 1)], writer := Committed(0, 1));
    steps := StartOvertakes(w0, w4, w5, w6, w8);
    Runs.GenerationsDiffer(1, 0);
    var e := Perform(w8, Recheck).1;
    assert e == Refused(w8.queue) && Thrown(w8, Recheck)[0].write in w8.accepted && w8.queue[1].write == w8.writes;
  }

  lemma StartOvertakes(w0: World, w4: World, w5: World, w6: World, w8: World) returns (steps: seq<Step>)
    requires w0.capacity >= 2 && w0 == Start(w0.capacity) && w4 == w0.(queue := [Mark(0, 0)], writes := 1, accepted := {0})
    requires w5 == w4.(writer := Began(0, 1)) && w6 == w5.(era := 1)
    requires w8 == w6.(queue := [Mark(0, 0), Mark(0, 1)], writer := Committed(0, 1))
    ensures Leads(w0, steps, w8)
  {
    hide Leads, Runs.Generation;
    WritesOne(w0);
    assert w0.queue + [Mark(0, 0)] == [Mark(0, 0)];
    OneStep(w4, ReadGeneration(1));
    OneStep(w5, StartBump);
    Commits(w6);
    assert [Mark(0, 0)] + [Mark(0, 1)] == [Mark(0, 0), Mark(0, 1)] && {} + {0} == {0};
    var first := [ReadGeneration(1)] + [TakeSnapshot, Commit] + [Recheck];
    LeadsOn(w0, first, w4, [ReadGeneration(1)], w5);
    LeadsOn(w0, first + [ReadGeneration(1)], w5, [StartBump], w6);
    steps := first + [ReadGeneration(1)] + [StartBump] + [TakeSnapshot, Commit];
    LeadsOn(w0, first + [ReadGeneration(1)] + [StartBump], w6, [TakeSnapshot, Commit], w8);
  }
}
