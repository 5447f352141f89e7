/**
 * The byte ring under interleaving: one producer, one consumer and session resets, each cursor
 * load, byte copy and compare-exchange a step of its own, under sequential consistency.
 *
 * `headAt`, `tailAt` and the `...At` fields of the two parties are the unwrapped positions the
 * 32-bit cursors stand for. No step reads them to decide anything; they are there for the proofs.
 */
module RingSteps {
  import opened Wire
  import opened Slots

  datatype Producer =
    | Idle
    | TailLoaded(input: seq<Byte>, tail: U32, tailAt: nat)
    | Storing(input: seq<Byte>, head: U32, count: nat, offset: nat, headAt: nat)

  datatype Consumer =
    | Resting
    | HeadLoaded(want: nat, head: U32, headAt: nat)
    | Copying(tail: U32, count: nat, output: seq<Byte>, tailAt: nat)

  datatype Ring = Ring(bytes: seq<Byte>, head: U32, tail: U32, producer: Producer, consumer: Consumer,
                       headAt: nat, tailAt: nat)
  {
    ghost predicate WellFormed() {
      IsCapacity(|bytes|)
    }
  }

  datatype Step =
    | LoadTailForWrite(input: seq<Byte>)
    | LoadHeadForWrite
    | StoreByte
    | CommitWrite
    | LoadHeadForRead(want: nat)
    | LoadTailForRead
    | CopyByte
    | CommitRead
    | Reset

  /** What the outside sees of a step. */
  datatype Effect = Internal | Accepted(input: seq<Byte>) | Delivered(output: seq<Byte>) | Cleared

  /** The control flow of `write`, `read` and `reset`. */
  predicate Enabled(s: Ring, step: Step) {
    match step
    case LoadTailForWrite(_) => s.producer.Idle?
    case LoadHeadForWrite => s.producer.TailLoaded?
    case StoreByte => s.producer.Storing? && s.producer.offset < s.producer.count <= |s.producer.input|
    case CommitWrite => s.producer.Storing? && s.producer.offset == s.producer.count <= |s.producer.input|
    case LoadHeadForRead(_) => s.consumer.Resting?
    case LoadTailForRead => s.consumer.HeadLoaded?
    case CopyByte => s.consumer.Copying? && |s.consumer.output| < s.consumer.count
    case CommitRead => s.consumer.Copying? && |s.consumer.output| == s.consumer.count
    case Reset => true
  }

  function Perform(s: Ring, step: Step): (Ring, Effect)
    requires s.WellFormed() && Enabled(s, step)
  {
    var n := |s.bytes|;
    match step
    case LoadTailForWrite(input) => (s.(producer := TailLoaded(input, s.tail, s.tailAt)), Internal)
    case LoadHeadForWrite =>
      var p := s.producer;
      var free := n - Min(WrappingSub(s.head, p.tail), n);
      (s.(producer := Storing(p.input, s.head, Min(|p.input|, free), 0, s.headAt)), Internal)
    case StoreByte =>
      var p := s.producer;
      (s.(bytes := s.bytes[Slot(p.head + p.offset, n) := p.input[p.offset]], producer := p.(offset := p.offset + 1)), Internal)
    case CommitWrite =>
      var p := s.producer;
      if s.head != p.head then (s.(producer := Idle), Accepted([]))
      else (s.(head := (p.head + p.count) % TWO32, headAt := s.headAt + p.count, producer := Idle), Accepted(p.input[..p.count]))
    case LoadHeadForRead(want) => (s.(consumer := HeadLoaded(want, s.head, s.headAt)), Internal)
    case LoadTailForRead =>
      var c := s.consumer;
      var count := Min(c.want, Min(WrappingSub(c.head, s.tail), n));
      (s.(consumer := Copying(s.tail, count, [], s.tailAt)), Internal)
    case CopyByte =>
      var c := s.consumer;
      (s.(consumer := c.(output := c.output + [s.bytes[Slot(c.tail + |c.output|, n)]])), Internal)
    case CommitRead =>
      var c := s.consumer;
      if s.tail != c.tail then (s.(consumer := Resting), Delivered([]))
      else (s.(tail := (c.tail + c.count) % TWO32, tailAt := s.tailAt + c.count, consumer := Resting), Delivered(c.output))
    case Reset =>
      var head := (s.head + n) % TWO32;
      (s.(head := head, headAt := s.headAt + n, tail := head, tailAt := s.headAt + n), Cleared)
  }

  /** The consumer has loaded the head of the cursors but not yet the tail. */
  predicate MidSnapshot(s: Ring) {
    s.consumer.HeadLoaded?
  }

  /** A reset would carry the cursors less than 2^32 beyond every snapshot still in use. */
  predicate Near(s: Ring) {
    var ahead := s.headAt + |s.bytes|;
    && (s.producer.TailLoaded? ==> ahead < s.producer.tailAt + TWO32)
    && (s.producer.Storing? ==> ahead < s.producer.headAt + TWO32)
    && (s.consumer.Copying? ==> ahead < s.consumer.tailAt + TWO32)
  }

  /**
   * The schedules the results speak of: any interleaving, except that a reset neither falls between
   * the two loads of one read nor carries a cursor all the way round during one call.
   */
  predicate Clean(s: Ring, step: Step) {
    Enabled(s, step) && (step.Reset? ==> !MidSnapshot(s) && Near(s))
  }

  /** The published unread bytes, oldest first: what a plain queue would hold. */
  function Queue(s: Ring): (q: seq<Byte>)
    requires |s.bytes| > 0 && s.tailAt <= s.headAt
    ensures |q| == s.headAt - s.tailAt
  {
    seq(s.headAt - s.tailAt, i requires 0 <= i => s.bytes[Slot(s.tailAt + i, |s.bytes|)])
  }

  // ----- the invariant of every clean run

  ghost predicate CursorsGood(s: Ring) {
    && s.WellFormed() && 0 < |s.bytes| < TWO32
    && s.head == s.headAt % TWO32 && s.tail == s.tailAt % TWO32
    && s.tailAt <= s.headAt <= s.tailAt + |s.bytes|
  }

  ghost predicate ProducerGood(s: Ring)
    requires CursorsGood(s)
  {
    var n := |s.bytes|;
    match s.producer
    case Idle => true
    case TailLoaded(_, tail, tailAt) =>
      tail == tailAt % TWO32 && tailAt <= s.tailAt && s.headAt < tailAt + TWO32
    case Storing(input, head, count, offset, headAt) =>
      && head == headAt % TWO32 && headAt <= s.headAt < headAt + TWO32
      && offset <= count <= |input| && count <= n
      && (headAt < s.headAt ==> s.tailAt == s.headAt)
      && (headAt == s.headAt ==>
            && s.headAt + count <= s.tailAt + n
            && forall i | 0 <= i < offset :: s.bytes[Slot(headAt + i, n)] == input[i])
  }

  ghost predicate ConsumerGood(s: Ring)
    requires CursorsGood(s)
  {
    match s.consumer
    case Resting => true
    case HeadLoaded(_, head, headAt) => head == headAt % TWO32 && s.tailAt <= headAt <= s.headAt
    case Copying(tail, count, output, tailAt) =>
      && tail == tailAt % TWO32 && tailAt <= s.tailAt < tailAt + TWO32
      && |output| <= count
      && (tailAt == s.tailAt ==> count <= |Queue(s)| && output <= Queue(s))
  }

  ghost predicate Good(s: Ring) {
    CursorsGood(s) && ProducerGood(s) && ConsumerGood(s)
  }

  /** `InputRing::new`. */
  ghost predicate Initial(s: Ring) {
    && s.WellFormed() && s.head == s.tail == s.headAt == s.tailAt == 0
    && s.producer == Idle && s.consumer == Resting
  }

  lemma InitialIsGood(s: Ring)
    requires Initial(s)
    ensures Good(s) && Queue(s) == []
  {
    var m := CapacityDivides(|s.bytes|);
  }

  // ----- stores never touch what the consumer may read

  /** The byte about to be stored goes to a slot that holds no published unread byte. */
  lemma StoreMissesPublished(s: Ring, i: nat)
    requires Good(s) && Enabled(s, StoreByte) && i < |Queue(s)|
    ensures Slot(s.producer.head + s.producer.offset, |s.bytes|) != Slot(s.tailAt + i, |s.bytes|)
  {
    var p, n := s.producer, |s.bytes|;
    CursorSlot(p.headAt, p.offset, n);
    SlotsDiffer(s.tailAt + i, p.headAt + p.offset, n);
  }

  lemma StoreKeepsQueue(s: Ring)
    requires Good(s) && Enabled(s, StoreByte)
    ensures Queue(Perform(s, StoreByte).0) == Queue(s)
  {
    var s' := Perform(s, StoreByte).0;
    forall i | 0 <= i < |Queue(s)|
      ensures Queue(s')[i] == Queue(s)[i]
    {
      StoreMissesPublished(s, i);
    }
  }

  lemma StoreKeeps(s: Ring)
    requires Good(s) && Enabled(s, StoreByte)
    ensures Good(Perform(s, StoreByte).0)
  {
    hide Slot, IsCapacity;
    var p, n, s' := s.producer, |s.bytes|, Perform(s, StoreByte).0;
    StoreKeepsQueue(s);
    CursorSlot(p.headAt, p.offset, n);
    if p.headAt == s.headAt {
      forall i | 0 <= i < p.offset
        ensures s'.bytes[Slot(p.headAt + i, n)] == p.input[i]
      {
        SlotsDiffer(p.headAt + i, p.headAt + p.offset, n);
      }
    }
  }

  lemma LoadHeadForWriteKeeps(s: Ring)
    requires Good(s) && Enabled(s, LoadHeadForWrite)
    ensures Good(Perform(s, LoadHeadForWrite).0)
  {
    CursorDistance(s.headAt, s.producer.tailAt);
  }

  lemma LoadTailForReadKeeps(s: Ring)
    requires Good(s) && Enabled(s, LoadTailForRead)
    ensures Good(Perform(s, LoadTailForRead).0)
    ensures Perform(s, LoadTailForRead).0.consumer.count <= |Queue(s)|
  {
    CursorDistance(s.consumer.headAt, s.tailAt);
  }

  /** Publishing the stored bytes puts them at the end of the queue. */
  lemma QueueGrows(s: Ring, s': Ring, input: seq<Byte>)
    requires |s.bytes| > 0 && s.tailAt <= s.headAt
    requires s'.bytes == s.bytes && s'.tailAt == s.tailAt && s'.headAt == s.headAt + |input|
    requires forall i | 0 <= i < |input| :: s.bytes[Slot(s.headAt + i, |s.bytes|)] == input[i]
    ensures Queue(s') == Queue(s) + input
  {
    forall i | 0 <= i < |Queue(s')|
      ensures Queue(s')[i] == (Queue(s) + input)[i]
    {
      if i >= |Queue(s)| {
        assert s.tailAt + i == s.headAt + (i - |Queue(s)|);
      }
    }
  }

  lemma CommitWriteKeeps(s: Ring)
    requires Good(s) && Enabled(s, CommitWrite)
    ensures var (s', e) := Perform(s, CommitWrite);
            && Good(s') && e.Accepted?
            && Queue(s') == Queue(s) + e.input
            && (e.input == [] || s.producer.headAt == s.headAt)
  {
    hide Slot, IsCapacity;
    var p := s.producer;
    var (s', e) := Perform(s, CommitWrite);
    CursorsEqual(s.headAt, p.headAt);
    if p.headAt == s.headAt {
      WrapAdd(s.headAt, p.count);
      QueueGrows(s, s', e.input);
    } else {
      assert Queue(s') == Queue(s);
    }
  }

  lemma CopyKeeps(s: Ring)
    requires Good(s) && Enabled(s, CopyByte)
    ensures Good(Perform(s, CopyByte).0)
  {
    hide Slot, IsCapacity;
    var c := s.consumer;
    CursorSlot(c.tailAt, |c.output|, |s.bytes|);
    if c.tailAt == s.tailAt {
      assert Perform(s, CopyByte).0.consumer.output == c.output + [Queue(s)[|c.output|]];
    }
  }

  /** Moving the tail on takes the bytes passed off the front of the queue. */
  lemma QueueAdvances(s: Ring, s': Ring, count: nat)
    requires |s.bytes| > 0 && s.tailAt + count <= s.headAt
    requires s'.bytes == s.bytes && s'.headAt == s.headAt && s'.tailAt == s.tailAt + count
    ensures Queue(s) == Queue(s)[..count] + Queue(s')
  {
    forall i | 0 <= i < |Queue(s')|
      ensures Queue(s')[i] == Queue(s)[count + i]
    {
      assert s'.tailAt + i == s.tailAt + (count + i);
    }
  }

  lemma CommitReadKeeps(s: Ring)
    requires Good(s) && Enabled(s, CommitRead)
    ensures var (s', e) := Perform(s, CommitRead);
            && Good(s') && e.Delivered?
            && Queue(s) == e.output + Queue(s')
            && (e.output == [] || s.consumer.tailAt == s.tailAt)
  {
    hide Slot, IsCapacity;
    var c := s.consumer;
    var (s', e) := Perform(s, CommitRead);
    CursorsEqual(s.tailAt, c.tailAt);
    if c.tailAt == s.tailAt {
      WrapAdd(s.tailAt, c.count);
      QueueAdvances(s, s', c.count);
    }
  }

  lemma ResetKeeps(s: Ring)
    requires Good(s) && Clean(s, Reset)
    ensures var s' := Perform(s, Reset).0;
            Good(s') && Queue(s') == []
  {
    hide Slot, IsCapacity;
    WrapAdd(s.headAt, |s.bytes|);
  }

  // ----- refinement of a plain queue

  /** The plain queue's own step for what was seen. */
  ghost predicate QueueStep(q: seq<Byte>, e: Effect, q': seq<Byte>) {
    match e
    case Internal => q' == q
    case Accepted(input) => q' == q + input
    case Delivered(output) => q == output + q'
    case Cleared => q' == []
  }

  /** Every clean step keeps the invariant and is a step of the plain queue, or nothing to it. */
  lemma RefinesQueue(s: Ring, step: Step)
    requires Good(s) && Clean(s, step)
    ensures var (s', e) := Perform(s, step);
            Good(s') && QueueStep(Queue(s), e, Queue(s'))
  {
    hide Slot, IsCapacity;
    match step
    case LoadTailForWrite(_) =>
    case LoadHeadForWrite => LoadHeadForWriteKeeps(s);
    case StoreByte => StoreKeeps(s); StoreKeepsQueue(s);
    case CommitWrite => CommitWriteKeeps(s);
    case LoadHeadForRead(_) =>
    case LoadTailForRead => LoadTailForReadKeeps(s);
    case CopyByte => CopyKeeps(s);
    case CommitRead => CommitReadKeeps(s);
    case Reset => ResetKeeps(s);
  }

  // ----- calls that straddle a reset

  predicate WriteStale(s: Ring) {
    s.producer.Storing? && s.producer.headAt != s.headAt
  }

  predicate ReadStale(s: Ring) {
    s.consumer.Copying? && s.consumer.tailAt != s.tailAt
  }

  /** A reset makes every call whose snapshot predates it stale, and stale it stays until its commit. */
  lemma StraddlingCallsStayStale(s: Ring, step: Step)
    requires Good(s) && Clean(s, step)
    ensures var s' := Perform(s, step).0;
            && (s.producer.Storing? && (step.Reset? || WriteStale(s)) && !step.CommitWrite? ==> WriteStale(s'))
            && (s.consumer.Copying? && (step.Reset? || ReadStale(s)) && !step.CommitRead? ==> ReadStale(s'))
            && (!step.Reset? && !WriteStale(s) ==> !WriteStale(s'))
            && (!step.Reset? && !ReadStale(s) ==> !ReadStale(s'))
  {
  }

  /** The commit of a stale call returns 0 and moves nothing; any other commit takes effect. */
  lemma CommitFailsExactlyWhenStale(s: Ring)
    requires Good(s)
    ensures Enabled(s, CommitWrite) ==>
              var (s', e) := Perform(s, CommitWrite);
              if WriteStale(s) then e == Accepted([]) && s' == s.(producer := Idle)
              else e == Accepted(s.producer.input[..s.producer.count])
    ensures Enabled(s, CommitRead) ==>
              var (s', e) := Perform(s, CommitRead);
              if ReadStale(s) then e == Delivered([]) && s' == s.(consumer := Resting)
              else e == Delivered(s.consumer.output)
  {
    if s.producer.Storing? {
      CursorsEqual(s.headAt, s.producer.headAt);
    }
    if s.consumer.Copying? {
      CursorsEqual(s.tailAt, s.consumer.tailAt);
    }
  }

  // ----- whole runs

  /** Bytes accepted and bytes delivered since the last reset. */
  datatype History = History(accepted: seq<Byte>, delivered: seq<Byte>)

  function Record(h: History, e: Effect): History {
    match e
    case Internal => h
    case Accepted(input) => h.(accepted := h.accepted + input)
    case Delivered(output) => h.(delivered := h.delivered + output)
    case Cleared => History([], [])
  }

  ghost predicate CleanRun(s: Ring, steps: seq<Step>)
    decreases steps
  {
    steps == [] || (s.WellFormed() && Clean(s, steps[0]) && CleanRun(Perform(s, steps[0]).0, steps[1..]))
  }

  function Run(s: Ring, h: History, steps: seq<Step>): (Ring, History)
    requires CleanRun(s, steps)
    decreases steps
  {
    if steps == [] then (s, h)
    else
      var (s', e) := Perform(s, steps[0]);
      Run(s', Record(h, e), steps[1..])
  }

  lemma {:induction false} RunKeeps(s: Ring, h: History, steps: seq<Step>)
    requires Good(s) && CleanRun(s, steps) && h.accepted == h.delivered + Queue(s)
    ensures var (t, g) := Run(s, h, steps);
            Good(t) && g.accepted == g.delivered + Queue(t)
    decreases steps
  {
    hide Perform, ProducerGood, ConsumerGood, Queue, Record, QueueStep;
    if steps != [] {
      RefinesQueue(s, steps[0]);
      var (s', e) := Perform(s, steps[0]);
      RecordKeeps(h, e, Queue(s), Queue(s'));
      RunKeeps(s', Record(h, e), steps[1..]);
    }
  }

  lemma RecordKeeps(h: History, e: Effect, q: seq<Byte>, q': seq<Byte>)
    requires QueueStep(q, e, q') && h.accepted == h.delivered + q
    ensures Record(h, e).accepted == Record(h, e).delivered + q'
  {
    match e {
      case Internal =>
      case Accepted(input) => assert h.accepted + input == h.delivered + (q + input);
      case Delivered(output) => assert h.delivered + (output + q') == h.delivered + output + q';
      case Cleared => assert [] + q' == [];
    }
  }

  /**
   * In every clean interleaving the bytes delivered since the last reset are a prefix of the bytes
   * accepted since then, in order and once each, and the rest is still in the ring. Without resets
   * in `steps` this speaks of everything ever accepted.
   */
  lemma DeliversInOrder(s: Ring, steps: seq<Step>)
    requires Initial(s) && CleanRun(s, steps)
    ensures var (t, h) := Run(s, History([], []), steps);
            && Good(t)
            && h.delivered <= h.accepted
            && h.accepted[|h.delivered|..] == Queue(t)
            && |Queue(t)| <= |t.bytes|
  {
    InitialIsGood(s);
    RunKeeps(s, History([], []), steps);
    var (t, h) := Run(s, History([], []), steps);
    assert h.accepted == h.delivered + Queue(t);
  }

  // ----- why the two loads of a read must not be torn by a reset

  /** The copy loop of `read`, run to its end. */
  function CopyAll(s: Ring): (t: Ring)
    requires s.WellFormed() && s.consumer.Copying? && |s.consumer.output| <= s.consumer.count
    ensures t == s.(consumer := t.consumer) && t.consumer.Copying?
    ensures t.consumer.tail == s.consumer.tail && t.consumer.count == s.consumer.count == |t.consumer.output|
    decreases s.consumer.count - |s.consumer.output|
  {
    if |s.consumer.output| == s.consumer.count then s else CopyAll(Perform(s, CopyByte).0)
  }

  /** What the read has copied so far is what lies from its tail on. */
  predicate Copied(s: Ring)
    requires |s.bytes| > 0
  {
    && s.consumer.Copying?
    && forall i | 0 <= i < |s.consumer.output| :: s.consumer.output[i] == s.bytes[Slot(s.consumer.tail + i, |s.bytes|)]
  }

  lemma {:induction false} CopyAllCopies(s: Ring)
    requires s.WellFormed() && |s.bytes| > 0 && Copied(s) && |s.consumer.output| <= s.consumer.count
    ensures Copied(CopyAll(s))
    decreases s.consumer.count - |s.consumer.output|
  {
    hide Slot, IsCapacity;
    if |s.consumer.output| < s.consumer.count {
      var s' := Perform(s, CopyByte).0;
      assert CopyAll(s) == CopyAll(s');
      CopyAllCopies(s');
    }
  }

  /** The rest of a read from its second load on, with nothing in between. */
  function FinishRead(s: Ring): (Ring, Effect)
    requires s.WellFormed() && s.consumer.HeadLoaded?
  {
    Perform(CopyAll(Perform(s, LoadTailForRead).0), CommitRead)
  }

  /** The head that the read has loaded is older than the tail it is about to load. */
  predicate Torn(s: Ring) {
    && s.consumer.HeadLoaded? && s.consumer.head == s.consumer.headAt % TWO32
    && s.consumer.headAt < s.tailAt < s.consumer.headAt + TWO32
  }

  /** What such a read takes for the number of unread bytes, cut to what it wants. */
  function TornCount(s: Ring): nat
    requires Torn(s)
  {
    Min(s.consumer.want, Min(TWO32 - (s.tailAt - s.consumer.headAt), |s.bytes|))
  }

  lemma TornReadCounts(s: Ring)
    requires CursorsGood(s) && Torn(s)
    ensures var s1 := Perform(s, LoadTailForRead).0;
            && s1 == s.(consumer := Copying(s.tail, TornCount(s), [], s.tailAt))
            && FinishRead(s) == (s.(consumer := Resting, tail := (s.tail + TornCount(s)) % TWO32, tailAt := s.tailAt + TornCount(s)),
                                 Delivered(CopyAll(s1).consumer.output))
  {
    hide Slot, IsCapacity, CopyAll;
    CursorDistance(s.tailAt, s.consumer.headAt);
    assert WrappingSub(s.consumer.head, s.tail) == TWO32 - (s.tailAt - s.consumer.headAt);
  }

  /** The copy and the commit of a torn read do what they would with that many bytes to read. */
  lemma TornReadTakes(s: Ring)
    requires CursorsGood(s) && Torn(s)
    ensures var (t, e) := FinishRead(s);
            && e.Delivered? && |e.output| == TornCount(s) && t.tailAt == s.tailAt + TornCount(s) && t.headAt == s.headAt
            && forall i | 0 <= i < TornCount(s) :: e.output[i] == s.bytes[Slot(s.tailAt + i, |s.bytes|)]
  {
    hide Slot, IsCapacity, FinishRead;
    TornReadCounts(s);
    var s1 := Perform(s, LoadTailForRead).0;
    CopyAllCopies(s1);
    var output := CopyAll(s1).consumer.output;
    forall i | 0 <= i < TornCount(s)
      ensures output[i] == s.bytes[Slot(s.tailAt + i, |s.bytes|)]
    {
      CursorSlot(s.tailAt, i, |s.bytes|);
    }
  }

  /**
   * A torn read that nothing disturbs from its second load on delivers the front of the queue, and leaves the cursors in
   * order, if and only if it takes no more than the queue by then holds; otherwise it delivers more than the queue and
   * puts the tail ahead of the head. With reset and capacity small against 2^32 that is `min(want, N) <= |Queue(s)|`.
   */
  lemma TornReadExactly(s: Ring)
    requires CursorsGood(s) && Torn(s)
    ensures var (t, e) := FinishRead(s);
            && e.Delivered?
            && (e.output <= Queue(s) && t.tailAt <= t.headAt <==> TornCount(s) <= |Queue(s)|)
            && (|e.output| > |Queue(s)| && t.tailAt > t.headAt <==> TornCount(s) > |Queue(s)|)
    ensures s.tailAt + |s.bytes| <= s.consumer.headAt + TWO32 ==> TornCount(s) == Min(s.consumer.want, |s.bytes|)
  {
    hide FinishRead, Slot, IsCapacity;
    TornReadTakes(s);
    var (t, e) := FinishRead(s);
    if TornCount(s) <= |Queue(s)| {
      assert forall i | 0 <= i < |e.output| :: e.output[i] == Queue(s)[i];
    }
  }

  /**
   * So with a reset between its two loads and nothing else before it commits, every read that asks for bytes finds a head
   * older than its tail, delivers discarded bytes, and leaves the tail ahead of the head, although the queue it should
   * have seen is empty.
   */
  lemma TornReadDeliversDiscarded(s: Ring)
    requires Good(s) && s.consumer.HeadLoaded? && s.consumer.want > 0
    requires s.headAt + |s.bytes| < s.consumer.headAt + TWO32
    ensures var s1 := Perform(s, Reset).0;
            var s2 := CopyAll(Perform(s1, LoadTailForRead).0);
            var (s3, e) := Perform(s2, CommitRead);
            && Queue(s1) == []
            && e.Delivered? && 0 < |e.output| <= s.consumer.want
            && s3.tailAt > s3.headAt
            && (3 * |s.bytes| <= TWO32 ==> |e.output| == Min(s.consumer.want, |s.bytes|))
  {
    hide Slot, IsCapacity;
    var s1 := Perform(s, Reset).0;
    WrapAdd(s.headAt, |s.bytes|);
    TornReadTakes(s1);
  }

  /** A ring of one byte, and a read that has loaded its head. */
  function ReadBegun(before: Byte): (s: Ring)
    ensures s.WellFormed()
  {
    assert 1 == Pow2(0);
    Ring([before], 0, 0, Idle, HeadLoaded(1, 0, 0), 0, 0)
  }

  /** A torn read can be harmless: refilled after the reset, the ring gives it exactly the byte written. */
  lemma RefilledTornReadIsHarmless(before: Byte)
    ensures var s := ReadBegun(before);
            var s1 := Perform(s, Reset).0;
            var s2 := Perform(s1, LoadTailForWrite([7])).0;
            var s3 := Perform(s2, LoadHeadForWrite).0;
            var s4 := Perform(s3, StoreByte).0;
            var (s5, _) := Perform(s4, CommitWrite);
            && Good(s) && Torn(s5)
            && var (t, e) := FinishRead(s5); e == Delivered([7]) && t.tailAt == t.headAt
  {
    var s := ReadBegun(before);
    var s5 := Ring([7], 2, 1, Idle, HeadLoaded(1, 0, 0), 2, 1);
    assert s5 == Perform(Perform(Perform(Perform(Perform(s, Reset).0, LoadTailForWrite([7])).0, LoadHeadForWrite).0, StoreByte).0, CommitWrite).0;
    TornReadTakes(s5);
    assert FinishRead(s5).1.output == [7];
  }
}
