/**
 * Two endpoints over two lossless FIFO channels: `a` controls the volume of `b`.
 *
 * Sliders move at `a`, the volume also moves locally at `b`, packets are delivered in every order the
 * channels allow, and the target may refuse what it is asked. The channels carry bytes; the proofs read
 * them as messages.
 */
module AvrcpSystem {
  import opened Wire
  import opened AvrcpSpec

  type Packet = seq<Byte>

  type Parameters = p: seq<Byte> | |p| < 0x1_0000 witness []

  datatype System = System(a: Endpoint, b: Endpoint, ab: seq<Packet>, ba: seq<Packet>)

  datatype Action =
    | MoveSlider(level: Byte)
    | RegisterAtTarget
    | MoveTarget(level: Byte)
    | DeliverCommand
    | RefuseCommand(ctype: Byte, parameters: Parameters)
    | DeliverAnswer

  /** What limits a run: how many commands may be unanswered, and whether the target may decline the newest volume command. */
  datatype Rules = Rules(limit: nat, declines: bool)

  /** Room in `out`, enough for every packet either side sends. */
  const ROOM: nat := 32

  function Sent(written: Packet): seq<Packet> {
    if written == [] then [] else [written]
  }

  /** Packets in `ba` that answer a command; a CHANGED notification answers none. */
  function CountAnswers(ba: seq<Packet>): nat {
    if ba == [] then 0
    else (if |ba[0]| > 3 && ba[0][3] == AVC_CHANGED then 0 else 1) + CountAnswers(ba[1..])
  }

  /** Commands of `a` whose answer has not reached `a` yet. */
  function Unanswered(s: System): nat {
    |s.ab| + CountAnswers(s.ba)
  }

  predicate IsRegistration(packet: Packet) {
    ParseVendor(packet).Some? && ParseVendor(packet).value.pdu == PDU_REGISTER_NOTIFICATION
  }

  /**
   * The target may refuse a registration, and a volume command that is not the newest command sent; whether it may
   * decline the newest is up to the rules. The parameters that deny a registration do not pass for a volume notification.
   */
  predicate Enabled(rules: Rules, s: System, action: Action) {
    match action
    case MoveSlider(_) => Unanswered(s) < rules.limit
    case RegisterAtTarget => Unanswered(s) < rules.limit
    case MoveTarget(_) => true
    case DeliverCommand => s.ab != []
    case RefuseCommand(ctype, parameters) =>
      && s.ab != [] && IsRefusal(ctype)
      && if IsRegistration(s.ab[0]) then !NotifiesVolume(parameters) else |s.ab| > 1 || rules.declines
    case DeliverAnswer => s.ba != []
  }

  /** The refusal of a command, under its label. */
  function Refusal(command: Packet, ctype: Byte, parameters: Parameters): Packet {
    match ParseVendor(command)
    case None => []
    case Some(m) => Frame(m.transaction, true, ctype, m.pdu, parameters)
  }

  function Step(s: System, action: Action): System
    requires action.DeliverCommand? || action.RefuseCommand? ==> s.ab != []
    requires action.DeliverAnswer? ==> s.ba != []
  {
    match action
    case MoveSlider(level) =>
      var o := SetVolume(s.a, level, ROOM);
      s.(a := o.endpoint, ab := s.ab + Sent(o.written))
    case RegisterAtTarget =>
      var o := Register(s.a, ROOM);
      s.(a := o.endpoint, ab := s.ab + Sent(o.written))
    case MoveTarget(level) =>
      var o := TargetMoved(s.b, level, ROOM);
      s.(b := o.endpoint, ba := s.ba + Sent(o.written))
    case DeliverCommand =>
      var o := Receive(s.b, s.ab[0], ROOM);
      s.(b := o.endpoint, ab := s.ab[1..], ba := s.ba + Sent(o.written))
    case RefuseCommand(ctype, parameters) =>
      s.(ab := s.ab[1..], ba := s.ba + Sent(Refusal(s.ab[0], ctype, parameters)))
    case DeliverAnswer =>
      var o := Receive(s.a, s.ba[0], ROOM);
      s.(a := o.endpoint, ba := s.ba[1..], ab := s.ab + Sent(o.written))
  }

  /** Both sides have just connected, each with a volume of its own. */
  ghost predicate Initial(s: System) {
    && s.ab == [] && s.ba == []
    && (exists level: Byte :: Enter(New, level) == Some(s.a))
    && (exists level: Byte :: Enter(New, level) == Some(s.b))
  }

  /** `actions` can be performed one after the other from `s`, as `rules` allow. */
  predicate Feasible(rules: Rules, s: System, actions: seq<Action>)
    decreases actions
  {
    actions == [] || (Enabled(rules, s, actions[0]) && Feasible(rules, Step(s, actions[0]), actions[1..]))
  }

  function After(rules: Rules, s: System, actions: seq<Action>): System
    requires Feasible(rules, s, actions)
    decreases actions
  {
    if actions == [] then s else After(rules, Step(s, actions[0]), actions[1..])
  }

  predicate Quiet(s: System) {
    s.ab == [] && s.ba == []
  }

  // ----- the packets as messages

  datatype Order = SetTo(tag: Byte, level: Byte) | Subscribe(tag: Byte)

  /** `Declined` refuses a volume command, `Denied` a registration. */
  datatype Answer =
    | Accepted(tag: Byte, level: Byte)
    | Declined(tag: Byte, ctype: Byte, parameters: Parameters)
    | Interim(tag: Byte, level: Byte)
    | Changed(tag: Byte, level: Byte)
    | Denied(tag: Byte, ctype: Byte, parameters: Parameters)

  /** The answer is to a volume command. */
  predicate ToSet(m: Answer) {
    m.Accepted? || m.Declined?
  }

  predicate OrderOk(c: Order) {
    c.tag < 16 && (c.SetTo? ==> c.level <= MAX_VOLUME)
  }

  predicate AnswerOk(m: Answer) {
    && m.tag < 16
    && (m.Declined? || m.Denied? ==> IsRefusal(m.ctype))
    && (m.Denied? ==> !NotifiesVolume(m.parameters))
    && (m.Accepted? || m.Interim? || m.Changed? ==> m.level <= MAX_VOLUME)
  }

  function OrderPacket(c: Order): Packet {
    match c
    case SetTo(tag, level) => Frame(tag, false, AVC_CONTROL, PDU_SET_ABSOLUTE_VOLUME, [level])
    case Subscribe(tag) => Frame(tag, false, AVC_NOTIFY, PDU_REGISTER_NOTIFICATION, [EVENT_VOLUME_CHANGED, 0, 0, 0, 0])
  }

  function AnswerPacket(m: Answer): Packet {
    match m
    case Accepted(tag, level) => Frame(tag, true, AVC_ACCEPTED, PDU_SET_ABSOLUTE_VOLUME, [level])
    case Declined(tag, ctype, parameters) => Frame(tag, true, ctype, PDU_SET_ABSOLUTE_VOLUME, parameters)
    case Denied(tag, ctype, parameters) => Frame(tag, true, ctype, PDU_REGISTER_NOTIFICATION, parameters)
    case Interim(tag, level) => Frame(tag, true, AVC_INTERIM, PDU_REGISTER_NOTIFICATION, [EVENT_VOLUME_CHANGED, level])
    case Changed(tag, level) => Frame(tag, true, AVC_CHANGED, PDU_REGISTER_NOTIFICATION, [EVENT_VOLUME_CHANGED, level])
  }

  function OrderPackets(cs: seq<Order>): (ps: seq<Packet>)
    ensures |ps| == |cs|
  {
    seq(|cs|, i requires 0 <= i < |cs| => OrderPacket(cs[i]))
  }

  function AnswerPackets(rs: seq<Answer>): (ps: seq<Packet>)
    ensures |ps| == |rs|
  {
    seq(|rs|, i requires 0 <= i < |rs| => AnswerPacket(rs[i]))
  }

  /** How the target answers an order when its volume is `volume`. */
  function AnswerTo(volume: Byte, c: Order): Answer {
    if c.SetTo? then Accepted(c.tag, c.level) else Interim(c.tag, volume)
  }

  function VolumeAfter(volume: Byte, c: Order): Byte {
    if c.SetTo? then c.level else volume
  }

  lemma TargetObeys(b: Endpoint, c: Order)
    requires !b.state.Disconnected? && OrderOk(c) && b.volume <= MAX_VOLUME
    ensures var o := Receive(b, OrderPacket(c), ROOM);
            && o.written == AnswerPacket(AnswerTo(b.volume, c))
            && o.endpoint == Obeyed(b, c)
            && o.result == Ok(if c.SetTo? then PeerVolume(c.level, |o.written|) else PeerCommand(|o.written|))
  {
    match c
    case SetTo(tag, level) => FrameRoundTrip(tag, false, AVC_CONTROL, PDU_SET_ABSOLUTE_VOLUME, [level]);
    case Subscribe(tag) =>
      FrameRoundTrip(tag, false, AVC_NOTIFY, PDU_REGISTER_NOTIFICATION, [EVENT_VOLUME_CHANGED, 0, 0, 0, 0]);
  }

  /** What an answer does to the controller, message by message. */
  function Heard(a: Endpoint, m: Answer): Endpoint {
    match m
    case Accepted(tag, level) =>
      if tag == a.control then Refresh(a.(volume := level, control := NO_TRANSACTION)) else a
    case Declined(tag, _, _) =>
      if tag == a.control then Refresh(a.(control := NO_TRANSACTION)) else a
    case Denied(tag, _, _) =>
      if tag == a.notification then Refresh(a.(notification := NO_TRANSACTION, registered := false)) else a
    case Interim(tag, level) =>
      if tag != a.notification then a
      else if a.registered then a.(volume := level)
      else Refresh(a.(volume := level, registered := true))
    case Changed(tag, level) =>
      if tag != a.notification then a
      else if !a.registered then a.(volume := level)
      else Refresh(a.(volume := level, notification := NO_TRANSACTION, registered := false))
  }

  /** What the controller reports of an answer. */
  function ReportOf(a: Endpoint, m: Answer): Result<Event, Error> {
    var live := if ToSet(m) then m.tag == a.control else m.tag == a.notification;
    if !live then Ok(NoEvent)
    else
      match m
      case Accepted(_, level) => Ok(Volume(level))
      case Interim(_, level) => if a.registered then Err(Rejected) else Ok(Volume(level))
      case Changed(_, _) => if a.registered then Ok(Reregister) else Err(Rejected)
      case _ => Err(Rejected)
  }

  lemma ControllerHears(a: Endpoint, m: Answer)
    requires !a.state.Disconnected? && AnswerOk(m)
    ensures var o := Receive(a, AnswerPacket(m), ROOM);
            o.written == [] && o.endpoint == Heard(a, m) && o.result == ReportOf(a, m)
  {
    hide ParseVendor, Frame, IsPassThrough;
    match m
    case Accepted(tag, level) => FrameRoundTrip(tag, true, AVC_ACCEPTED, PDU_SET_ABSOLUTE_VOLUME, [level]);
    case Declined(tag, ctype, parameters) => FrameRoundTrip(tag, true, ctype, PDU_SET_ABSOLUTE_VOLUME, parameters);
    case Denied(tag, ctype, parameters) => FrameRoundTrip(tag, true, ctype, PDU_REGISTER_NOTIFICATION, parameters);
    case Interim(tag, level) =>
      FrameRoundTrip(tag, true, AVC_INTERIM, PDU_REGISTER_NOTIFICATION, [EVENT_VOLUME_CHANGED, level]);
    case Changed(tag, level) =>
      FrameRoundTrip(tag, true, AVC_CHANGED, PDU_REGISTER_NOTIFICATION, [EVENT_VOLUME_CHANGED, level]);
  }

  // ----- what is in flight

  /** A command on its way there or its answer on its way back, or a notification. */
  datatype Item = SetItem(tag: Byte) | SubscribeItem(tag: Byte) | ChangedItem

  function OrderItem(c: Order): Item {
    if c.SetTo? then SetItem(c.tag) else SubscribeItem(c.tag)
  }

  function AnswerItem(m: Answer): Item {
    match m
    case Accepted(tag, _) => SetItem(tag)
    case Declined(tag, _, _) => SetItem(tag)
    case Denied(tag, _, _) => SubscribeItem(tag)
    case Interim(tag, _) => SubscribeItem(tag)
    case Changed(_, _) => ChangedItem
  }

  /** Everything in flight, oldest first. */
  function Flight(rs: seq<Answer>, cs: seq<Order>): (f: seq<Item>)
    ensures |f| == |rs| + |cs|
  {
    seq(|rs|, i requires 0 <= i < |rs| => AnswerItem(rs[i])) + seq(|cs|, i requires 0 <= i < |cs| => OrderItem(cs[i]))
  }

  /** Labels of the unanswered commands, oldest first. */
  function Labels(f: seq<Item>): seq<Byte> {
    if f == [] then []
    else (if f[0].ChangedItem? then [] else [f[0].tag]) + Labels(f[1..])
  }

  /** Labels of the unanswered volume commands, oldest first. */
  function SetLabels(f: seq<Item>): seq<Byte> {
    if f == [] then []
    else (if f[0].SetItem? then [f[0].tag] else []) + SetLabels(f[1..])
  }

  lemma LabelsConcat(x: seq<Item>, y: seq<Item>)
    ensures Labels(x + y) == Labels(x) + Labels(y)
    ensures SetLabels(x + y) == SetLabels(x) + SetLabels(y)
  {
    AllLabelsConcat(x, y);
    SetLabelsConcat(x, y);
  }

  lemma {:induction false} AllLabelsConcat(x: seq<Item>, y: seq<Item>)
    ensures Labels(x + y) == Labels(x) + Labels(y)
  {
    if x == [] {
      assert x + y == y;
    } else {
      assert (x + y)[0] == x[0] && (x + y)[1..] == x[1..] + y;
      AllLabelsConcat(x[1..], y);
      Associates(if x[0].ChangedItem? then [] else [x[0].tag], Labels(x[1..]), Labels(y));
    }
  }

  lemma {:induction false} SetLabelsConcat(x: seq<Item>, y: seq<Item>)
    ensures SetLabels(x + y) == SetLabels(x) + SetLabels(y)
  {
    if x == [] {
      assert x + y == y;
    } else {
      assert (x + y)[0] == x[0] && (x + y)[1..] == x[1..] + y;
      SetLabelsConcat(x[1..], y);
      Associates(if x[0].SetItem? then [x[0].tag] else [], SetLabels(x[1..]), SetLabels(y));
    }
  }

  lemma {:induction false} SetLabelsAreLabels(f: seq<Item>)
    ensures forall t | t in SetLabels(f) :: t in Labels(f)
  {
    if f != [] {
      SetLabelsAreLabels(f[1..]);
    }
  }

  /** Registration traffic on its way to the controller. */
  function Notices(rs: seq<Answer>): seq<Answer> {
    if rs == [] then []
    else (if ToSet(rs[0]) then [] else [rs[0]]) + Notices(rs[1..])
  }

  lemma {:induction false} NoticesAppend(rs: seq<Answer>, m: Answer)
    ensures Notices(rs + [m]) == Notices(rs) + if ToSet(m) then [] else [m]
  {
    if rs == [] {
      assert rs + [m] == [m];
    } else {
      NoticesAppend(rs[1..], m);
      assert (rs + [m])[1..] == rs[1..] + [m];
    }
  }

  function Subscriptions(cs: seq<Order>): seq<Byte> {
    if cs == [] then []
    else (if cs[0].SetTo? then [] else [cs[0].tag]) + Subscriptions(cs[1..])
  }

  lemma {:induction false} SubscriptionsAppend(cs: seq<Order>, c: Order)
    ensures Subscriptions(cs + [c]) == Subscriptions(cs) + if c.SetTo? then [] else [c.tag]
  {
    if cs == [] {
      assert cs + [c] == [c];
    } else {
      SubscriptionsAppend(cs[1..], c);
      assert (cs + [c])[1..] == cs[1..] + [c];
    }
  }

  lemma ChangedIsTold(m: Answer)
    requires AnswerOk(m)
    ensures |AnswerPacket(m)| > 3 && (AnswerPacket(m)[3] == AVC_CHANGED <==> m.Changed?)
  {
  }

  lemma {:induction false} CountIsLabels(rs: seq<Answer>)
    requires forall m | m in rs :: AnswerOk(m)
    ensures CountAnswers(AnswerPackets(rs)) == |Labels(Flight(rs, []))|
  {
    hide AnswerPacket, AnswerOk;
    if rs != [] {
      ChangedIsTold(rs[0]);
      CountIsLabels(rs[1..]);
      assert AnswerPackets(rs)[1..] == AnswerPackets(rs[1..]);
      assert Flight(rs, [])[1..] == Flight(rs[1..], []);
    }
  }

  lemma {:induction false} OrdersAreLabels(cs: seq<Order>)
    ensures |Labels(Flight([], cs))| == |cs|
  {
    if cs != [] {
      OrdersAreLabels(cs[1..]);
      assert Flight([], cs)[1..] == Flight([], cs[1..]);
    }
  }

  // ----- labels never repeat

  /** How long ago, in steps of the label counter, `tag` was last handed out: 1 is the newest, 16 the oldest. */
  function Age(next: Byte, tag: Byte): int {
    if next > tag then next - tag else next - tag + 16
  }

  /**
   * The labels in flight are the newest ones without a gap, except that one label was skipped after
   * the first `gap` of them when `gap > 0`; the notification label, if live, is then not older than
   * the skipped one.
   */
  ghost predicate Window(labels: seq<Byte>, next: Byte, notification: Byte, gap: nat) {
    && next < 16
    && |labels| <= 15
    && gap <= |labels|
    && (forall i | 0 <= i < |labels| ::
          labels[i] < 16 && Age(next, labels[i]) == |labels| - i + if i < gap then 1 else 0)
    && (gap > 0 && notification != NO_TRANSACTION ==> Age(next, notification) <= |labels| - gap + 1)
  }

  lemma LabelsDiffer(labels: seq<Byte>, next: Byte, notification: Byte, gap: nat)
    requires Window(labels, next, notification, gap)
    ensures forall i, j | 0 <= i < j < |labels| :: labels[i] != labels[j]
  {
    forall i, j | 0 <= i < j < |labels|
      ensures labels[i] != labels[j]
    {
      assert Age(next, labels[i]) != Age(next, labels[j]);
    }
  }

  lemma WindowPop(labels: seq<Byte>, next: Byte, notification: Byte, gap: nat) returns (gap': nat)
    requires Window(labels, next, notification, gap) && labels != []
    ensures Window(labels[1..], next, notification, gap')
  {
    gap' := if gap <= 1 then 0 else gap - 1;
  }

  /** With room left in the window, at most the notification label is skipped. */
  lemma AllocatedWithRoom(a: Endpoint)
    requires a.next < 16 && a.control != a.next
    requires a.notification == a.next ==> a.control != Following(a.next)
    ensures Allocated(a) == if a.notification == a.next then Following(a.next) else a.next
  {
    CandidatesDiffer(a, 0, a.next);
    assert Candidate(a, 0) == a.next;
  }

  lemma FollowingIs(n: Byte)
    requires n < 16
    ensures Following(n) == if n == 15 then 0 else n + 1
  {
  }

  /** Allocation keeps the window, and the new label is none of those in flight. */
  lemma WindowPush(a: Endpoint, labels: seq<Byte>, gap: nat) returns (gap': nat)
    requires Window(labels, a.next, a.notification, gap) && |labels| <= 14
    requires a.control == NO_TRANSACTION || a.control in labels
    requires a.notification == NO_TRANSACTION || a.notification < 16
    ensures var tag := Allocated(a);
            && Window(labels + [tag], Following(tag), a.notification, gap')
            && Window(labels + [tag], Following(tag), tag, gap')
            && tag !in labels
  {
    var tag := Allocated(a);
    var notified := a.notification == a.next;
    FollowingIs(a.next);
    assert a.control != a.next;
    assert notified ==> gap == 0 && a.control != Following(a.next);
    AllocatedWithRoom(a);
    FollowingIs(tag);
    gap' := if notified then |labels| else gap;
    var labels' := labels + [tag];
    forall i | 0 <= i < |labels'|
      ensures labels'[i] < 16 && Age(Following(tag), labels'[i]) == |labels'| - i + if i < gap' then 1 else 0
    {
      if i < |labels| {
        assert labels'[i] == labels[i];
      }
    }
  }

  // ----- where the volumes are heading

  /** The answers the orders still on their way will draw from a target at `volume`. */
  function Future(volume: Byte, cs: seq<Order>): seq<Answer>
    decreases cs
  {
    if cs == [] then []
    else [AnswerTo(volume, cs[0])] + Future(VolumeAfter(volume, cs[0]), cs[1..])
  }

  function FinalTarget(volume: Byte, cs: seq<Order>): Byte
    decreases cs
  {
    if cs == [] then volume else FinalTarget(VolumeAfter(volume, cs[0]), cs[1..])
  }

  function Told(volume: Byte, control: Byte, m: Answer): Byte {
    match m
    case Accepted(tag, level) => if tag == control then level else volume
    case Interim(_, level) => level
    case Changed(_, level) => level
    case _ => volume
  }

  function FinalController(volume: Byte, control: Byte, rs: seq<Answer>): Byte
    decreases rs
  {
    if rs == [] then volume else FinalController(Told(volume, control, rs[0]), control, rs[1..])
  }

  lemma {:induction false} FutureAppend(volume: Byte, cs: seq<Order>, c: Order)
    ensures Future(volume, cs + [c]) == Future(volume, cs) + [AnswerTo(FinalTarget(volume, cs), c)]
    ensures FinalTarget(volume, cs + [c]) == VolumeAfter(FinalTarget(volume, cs), c)
    decreases cs
  {
    if cs == [] {
      assert cs + [c] == [c];
    } else {
      FutureAppend(VolumeAfter(volume, cs[0]), cs[1..], c);
      assert (cs + [c])[1..] == cs[1..] + [c];
    }
  }

  lemma {:induction false} FinalControllerAppend(volume: Byte, control: Byte, rs: seq<Answer>, m: Answer)
    ensures FinalController(volume, control, rs + [m]) == Told(FinalController(volume, control, rs), control, m)
    decreases rs
  {
    if rs == [] {
      assert rs + [m] == [m];
    } else {
      FinalControllerAppend(Told(volume, control, rs[0]), control, rs[1..], m);
      assert (rs + [m])[1..] == rs[1..] + [m];
    }
  }

  /** Once the newest command is a subscription, or a volume command not superseded, its answer decides. */
  lemma LastOrderDecides(volume: Byte, control: Byte, rs: seq<Answer>, target: Byte, cs: seq<Order>)
    requires cs != []
    requires var last := cs[|cs| - 1]; last.Subscribe? || last.tag == control
    ensures FinalController(volume, control, rs + Future(target, cs)) == FinalTarget(target, cs)
  {
    var c, init := cs[|cs| - 1], cs[..|cs| - 1];
    assert cs == init + [c];
    FutureAppend(target, init, c);
    var m := AnswerTo(FinalTarget(target, init), c);
    assert rs + Future(target, cs) == (rs + Future(target, init)) + [m];
    FinalControllerAppend(volume, control, rs + Future(target, init), m);
  }

  lemma {:induction false} NoSetIgnoresControl(volume: Byte, control: Byte, rs: seq<Answer>)
    requires SetLabels(Flight(rs, [])) == []
    ensures FinalController(volume, control, rs) == FinalController(volume, NO_TRANSACTION, rs)
    decreases rs
  {
    if rs != [] {
      assert Flight(rs, [])[1..] == Flight(rs[1..], []);
      NoSetIgnoresControl(Told(volume, control, rs[0]), control, rs[1..]);
    }
  }

  // ----- the inductive invariant

  /** How far the registration has come, on both sides and on the way. */
  predicate Registration(a: Endpoint, b: Endpoint, rs: seq<Answer>, cs: seq<Order>) {
    var n := a.notification;
    var notices := Notices(rs);
    if n == NO_TRANSACTION then
      !a.registered && Subscriptions(cs) == [] && notices == [] && b.target == NO_TRANSACTION
    else
      && n < 16
      && if Subscriptions(cs) != [] then
           Subscriptions(cs) == [n] && !a.registered && notices == [] && b.target == NO_TRANSACTION
         else
           var pending := if a.registered then notices
                          else if notices != [] && notices[0].Interim? && notices[0].tag == n then notices[1..]
                          else notices;
           if notices != [] && notices[0].Denied? then
             |notices| == 1 && notices[0].tag == n && !a.registered && b.target == NO_TRANSACTION
           else
           && (!a.registered ==> notices != [] && notices[0].Interim? && notices[0].tag == n)
           && if b.target == NO_TRANSACTION then
                |pending| == 1 && pending[0].Changed? && pending[0].tag == n
              else
                pending == [] && b.target == n
  }

  /** The controller will not lose its registration to anything in flight. */
  predicate Tracking(a: Endpoint, b: Endpoint, rs: seq<Answer>, cs: seq<Order>) {
    a.notification != NO_TRANSACTION && (Subscriptions(cs) != [] || b.target != NO_TRANSACTION)
  }

  ghost predicate Good(a: Endpoint, b: Endpoint, rs: seq<Answer>, cs: seq<Order>, gap: nat) {
    var f := Flight(rs, cs);
    var sets := SetLabels(f);
    && a.state == Derived(a) && a.volume <= MAX_VOLUME && a.target == NO_TRANSACTION
    && b.state == Ready && b.volume <= MAX_VOLUME && b.control == b.notification == NO_TRANSACTION
    && (forall c | c in cs :: OrderOk(c))
    && (forall m | m in rs :: AnswerOk(m))
    && Window(Labels(f), a.next, a.notification, gap)
    && a.control == (if sets == [] then NO_TRANSACTION else sets[|sets| - 1])
    && (a.control != NO_TRANSACTION ==> a.control != a.notification)
    && Registration(a, b, rs, cs)
    && (Tracking(a, b, rs, cs) ==>
          FinalController(a.volume, a.control, rs + Future(b.volume, cs)) == FinalTarget(b.volume, cs))
  }

  ghost predicate Carries(s: System, rs: seq<Answer>, cs: seq<Order>) {
    s.ab == OrderPackets(cs) && s.ba == AnswerPackets(rs)
  }

  ghost predicate Invariant(s: System) {
    exists rs, cs, gap :: Carries(s, rs, cs) && Good(s.a, s.b, rs, cs, gap)
  }

  /** While orders are on their way, the newest of them settles both volumes. */
  lemma OrdersSettle(a: Endpoint, b: Endpoint, rs: seq<Answer>, cs: seq<Order>)
    requires cs != []
    requires var sets := SetLabels(Flight(rs, cs));
             a.control == if sets == [] then NO_TRANSACTION else sets[|sets| - 1]
    ensures FinalController(a.volume, a.control, rs + Future(b.volume, cs)) == FinalTarget(b.volume, cs)
  {
    var init, last := cs[..|cs| - 1], cs[|cs| - 1];
    assert Flight(rs, cs) == Flight(rs, init) + [OrderItem(last)];
    LabelsConcat(Flight(rs, init), [OrderItem(last)]);
    LastOrderDecides(a.volume, a.control, rs, b.volume, cs);
  }

  /** A new order keeps everything that concerns orders; what remains is the registration. */
  lemma OrderSent(a: Endpoint, rs: seq<Answer>, cs: seq<Order>, gap: nat, c: Order) returns (gap': nat)
    requires Window(Labels(Flight(rs, cs)), a.next, a.notification, gap)
    requires |Labels(Flight(rs, cs))| <= 14 && c.tag == Allocated(a)
    requires a.control == NO_TRANSACTION || a.control in Labels(Flight(rs, cs))
    requires a.notification == NO_TRANSACTION || a.notification < 16
    ensures Window(Labels(Flight(rs, cs + [c])), Following(c.tag), a.notification, gap')
    ensures Window(Labels(Flight(rs, cs + [c])), Following(c.tag), c.tag, gap')
    ensures SetLabels(Flight(rs, cs + [c])) == SetLabels(Flight(rs, cs)) + if c.SetTo? then [c.tag] else []
  {
    assert Flight(rs, cs + [c]) == Flight(rs, cs) + [OrderItem(c)];
    LabelsConcat(Flight(rs, cs), [OrderItem(c)]);
    assert Labels([OrderItem(c)]) == [c.tag];
    gap' := WindowPush(a, Labels(Flight(rs, cs)), gap);
  }

  lemma ControlInFlight(a: Endpoint, b: Endpoint, rs: seq<Answer>, cs: seq<Order>, gap: nat)
    requires Good(a, b, rs, cs, gap)
    ensures a.control == NO_TRANSACTION || a.control in Labels(Flight(rs, cs))
    ensures a.notification == NO_TRANSACTION || a.notification < 16
  {
    SetLabelsAreLabels(Flight(rs, cs));
  }

  lemma SliderKeeps(a: Endpoint, b: Endpoint, rs: seq<Answer>, cs: seq<Order>, gap: nat, level: Byte) returns (gap': nat)
    requires Good(a, b, rs, cs, gap) && |Labels(Flight(rs, cs))| <= 14 && level <= MAX_VOLUME
    ensures var o := SetVolume(a, level, ROOM);
            var c := SetTo(Allocated(a), level);
            o.written == OrderPacket(c) && Good(o.endpoint, b, rs, cs + [c], gap')
  {
    hide Window, Labels, SetLabels, FinalController, FinalTarget, Future;
    var o := SetVolume(a, level, ROOM);
    var c := SetTo(Allocated(a), level);
    ControlInFlight(a, b, rs, cs, gap);
    gap' := OrderSent(a, rs, cs, gap, c);
    SubscriptionsAppend(cs, c);
    OrdersSettle(o.endpoint, b, rs, cs + [c]);
  }

  lemma RegisterKeeps(a: Endpoint, b: Endpoint, rs: seq<Answer>, cs: seq<Order>, gap: nat) returns (gap': nat)
    requires Good(a, b, rs, cs, gap) && |Labels(Flight(rs, cs))| <= 14 && a.notification == NO_TRANSACTION
    ensures var o := Register(a, ROOM);
            var c := Subscribe(Allocated(a));
            o.written == OrderPacket(c) && Good(o.endpoint, b, rs, cs + [c], gap')
  {
    hide Window, Labels, SetLabels, FinalController, FinalTarget, Future;
    var o := Register(a, ROOM);
    var c := Subscribe(Allocated(a));
    ControlInFlight(a, b, rs, cs, gap);
    gap' := OrderSent(a, rs, cs, gap, c);
    SubscriptionsAppend(cs, c);
    OrdersSettle(o.endpoint, b, rs, cs + [c]);
  }

  lemma PacketsAppend(rs: seq<Answer>, m: Answer, cs: seq<Order>, c: Order)
    ensures AnswerPackets(rs + [m]) == AnswerPackets(rs) + [AnswerPacket(m)]
    ensures OrderPackets(cs + [c]) == OrderPackets(cs) + [OrderPacket(c)]
  {
  }

  lemma ChangedAddsNoLabel(rs: seq<Answer>, m: Answer, cs: seq<Order>)
    requires m.Changed?
    ensures Labels(Flight(rs + [m], cs)) == Labels(Flight(rs, cs))
    ensures SetLabels(Flight(rs + [m], cs)) == SetLabels(Flight(rs, cs))
  {
    assert Flight(rs + [m], cs) == Flight(rs, []) + [ChangedItem] + Flight([], cs);
    assert Flight(rs, cs) == Flight(rs, []) + Flight([], cs);
    LabelsConcat(Flight(rs, []), [ChangedItem]);
    LabelsConcat(Flight(rs, []) + [ChangedItem], Flight([], cs));
    LabelsConcat(Flight(rs, []), Flight([], cs));
    assert Labels([ChangedItem]) == [] && SetLabels([ChangedItem]) == [];
  }

  lemma TargetKeeps(a: Endpoint, b: Endpoint, rs: seq<Answer>, cs: seq<Order>, gap: nat, level: Byte) returns (rs': seq<Answer>)
    requires Good(a, b, rs, cs, gap) && level <= MAX_VOLUME
    ensures var o := TargetMoved(b, level, ROOM);
            AnswerPackets(rs') == AnswerPackets(rs) + Sent(o.written) && Good(a, o.endpoint, rs', cs, gap)
  {
    hide Labels, SetLabels, Flight, Window;
    var o := TargetMoved(b, level, ROOM);
    if b.target == NO_TRANSACTION {
      rs' := rs;
      if cs != [] {
        OrdersSettle(a, o.endpoint, rs, cs);
      }
    } else {
      var m := Changed(b.target, level);
      rs' := rs + [m];
      ChangedAddsNoLabel(rs, m, cs);
      NoticesAppend(rs, m);
      PacketsAppend(rs, m, [], Subscribe(0));
    }
  }

  function Obeyed(b: Endpoint, c: Order): Endpoint {
    if c.SetTo? then b.(volume := c.level) else b.(target := c.tag)
  }

  lemma DeliveryKeepsRegistration(a: Endpoint, b: Endpoint, rs: seq<Answer>, cs: seq<Order>)
    requires Registration(a, b, rs, cs) && cs != [] && cs[0].tag < 16
    ensures Registration(a, Obeyed(b, cs[0]), rs + [AnswerTo(b.volume, cs[0])], cs[1..])
  {
    NoticesAppend(rs, AnswerTo(b.volume, cs[0]));
    assert Subscriptions(cs)[if cs[0].SetTo? then 0 else 1..] == Subscriptions(cs[1..]);
    assert cs[0].Subscribe? ==> Subscriptions(cs)[0] == cs[0].tag;
  }

  lemma DeliverySettles(a: Endpoint, b: Endpoint, rs: seq<Answer>, cs: seq<Order>)
    requires cs != []
    requires var sets := SetLabels(Flight(rs, cs));
             a.control == if sets == [] then NO_TRANSACTION else sets[|sets| - 1]
    ensures var m, b' := AnswerTo(b.volume, cs[0]), Obeyed(b, cs[0]);
            && Flight(rs + [m], cs[1..]) == Flight(rs, cs)
            && FinalController(a.volume, a.control, (rs + [m]) + Future(b'.volume, cs[1..])) == FinalTarget(b'.volume, cs[1..])
  {
    var m := AnswerTo(b.volume, cs[0]);
    OrdersSettle(a, b, rs, cs);
    assert Flight(rs + [m], cs[1..]) == Flight(rs, cs);
    assert rs + Future(b.volume, cs) == (rs + [m]) + Future(VolumeAfter(b.volume, cs[0]), cs[1..]);
  }

  lemma DeliveryKeeps(a: Endpoint, b: Endpoint, rs: seq<Answer>, cs: seq<Order>, gap: nat)
    requires Good(a, b, rs, cs, gap) && cs != []
    ensures Good(a, Obeyed(b, cs[0]), rs + [AnswerTo(b.volume, cs[0])], cs[1..], gap)
  {
    hide Window, Labels, SetLabels, FinalController, FinalTarget, Future, Registration, Tracking;
    assert OrderOk(cs[0]);
    DeliveryKeepsRegistration(a, b, rs, cs);
    DeliverySettles(a, b, rs, cs);
  }

  /** How a target refuses an order. */
  function RefusalOf(c: Order, ctype: Byte, parameters: Parameters): Answer {
    if c.SetTo? then Declined(c.tag, ctype, parameters) else Denied(c.tag, ctype, parameters)
  }

  lemma RefusalRead(c: Order, ctype: Byte, parameters: Parameters)
    requires OrderOk(c)
    ensures Refusal(OrderPacket(c), ctype, parameters) == AnswerPacket(RefusalOf(c, ctype, parameters))
    ensures IsRegistration(OrderPacket(c)) <==> c.Subscribe?
  {
    match c
    case SetTo(tag, level) => FrameRoundTrip(tag, false, AVC_CONTROL, PDU_SET_ABSOLUTE_VOLUME, [level]);
    case Subscribe(tag) =>
      FrameRoundTrip(tag, false, AVC_NOTIFY, PDU_REGISTER_NOTIFICATION, [EVENT_VOLUME_CHANGED, 0, 0, 0, 0]);
  }

  lemma RefusalKeepsRegistration(a: Endpoint, b: Endpoint, rs: seq<Answer>, cs: seq<Order>, ctype: Byte, parameters: Parameters)
    requires Registration(a, b, rs, cs) && cs != [] && cs[0].tag < 16
    ensures Registration(a, b, rs + [RefusalOf(cs[0], ctype, parameters)], cs[1..])
    ensures cs[0].Subscribe? ==> !Tracking(a, b, rs + [RefusalOf(cs[0], ctype, parameters)], cs[1..])
  {
    NoticesAppend(rs, RefusalOf(cs[0], ctype, parameters));
    assert Subscriptions(cs)[if cs[0].SetTo? then 0 else 1..] == Subscriptions(cs[1..]);
    assert cs[0].Subscribe? ==> Subscriptions(cs)[0] == cs[0].tag;
  }

  /** A refused registration ends it, and a refused volume command does not matter if a newer command follows. */
  lemma RefusalKeeps(a: Endpoint, b: Endpoint, rs: seq<Answer>, cs: seq<Order>, gap: nat, ctype: Byte, parameters: Parameters)
    requires Good(a, b, rs, cs, gap) && cs != [] && (cs[0].Subscribe? || |cs| > 1)
    requires IsRefusal(ctype) && (cs[0].Subscribe? ==> !NotifiesVolume(parameters))
    ensures Good(a, b, rs + [RefusalOf(cs[0], ctype, parameters)], cs[1..], gap)
  {
    hide Window, Labels, SetLabels, FinalController, FinalTarget, Future, Registration, Tracking;
    assert OrderOk(cs[0]);
    var m := RefusalOf(cs[0], ctype, parameters);
    assert Flight(rs + [m], cs[1..]) == Flight(rs, cs);
    RefusalKeepsRegistration(a, b, rs, cs, ctype, parameters);
    if cs[1..] != [] {
      OrdersSettle(a, b, rs + [m], cs[1..]);
    }
  }

  /** Taking the oldest answer off keeps the labels in order. */
  lemma FlightPops(a: Endpoint, rs: seq<Answer>, cs: seq<Order>, gap: nat) returns (gap': nat)
    requires rs != []
    requires var f := Flight(rs, cs);
             && Window(Labels(f), a.next, a.notification, gap)
             && a.control == (if SetLabels(f) == [] then NO_TRANSACTION else SetLabels(f)[|SetLabels(f)| - 1])
    requires rs[0].tag < 16
    ensures Flight(rs[1..], cs) == Flight(rs, cs)[1..]
    ensures Window(Labels(Flight(rs[1..], cs)), a.next, a.notification, gap')
    ensures SetLabels(Flight(rs, cs)) == (if ToSet(rs[0]) then [rs[0].tag] else []) + SetLabels(Flight(rs[1..], cs))
    ensures ToSet(rs[0]) ==> (rs[0].tag == a.control <==> SetLabels(Flight(rs[1..], cs)) == [])
  {
    hide Window;
    var m, f := rs[0], Flight(rs, cs);
    assert Flight(rs[1..], cs) == f[1..];
    gap' := gap;
    if !m.Changed? {
      gap' := WindowPop(Labels(f), a.next, a.notification, gap);
      assert Labels(f)[1..] == Labels(f[1..]);
    } else {
      assert Labels(f) == Labels(f[1..]);
    }
    if ToSet(m) && SetLabels(f[1..]) != [] {
      SetLabelsAreLabels(f[1..]);
      LabelsDiffer(Labels(f), a.next, a.notification, gap);
      assert a.control == SetLabels(f[1..])[|SetLabels(f[1..])| - 1];
      assert a.control in Labels(f[1..]);
      var j :| 0 <= j < |Labels(f[1..])| && Labels(f[1..])[j] == a.control;
      assert Labels(f) == [m.tag] + Labels(f[1..]);
      assert Labels(f)[0] != Labels(f)[j + 1];
    }
  }

  lemma AnswerKeepsRegistration(a: Endpoint, b: Endpoint, rs: seq<Answer>, cs: seq<Order>)
    requires Registration(a, b, rs, cs) && rs != []
    ensures Registration(Heard(a, rs[0]), b, rs[1..], cs)
    ensures Tracking(Heard(a, rs[0]), b, rs[1..], cs) ==>
              && Tracking(a, b, rs, cs) && !rs[0].Changed?
              && Heard(a, rs[0]).volume == Told(a.volume, a.control, rs[0])
  {
  }

  /** The window only looks at the notification label while it is live. */
  lemma WindowAfterHearing(labels: seq<Byte>, a: Endpoint, m: Answer, gap: nat)
    requires Window(labels, a.next, a.notification, gap)
    ensures Window(labels, Heard(a, m).next, Heard(a, m).notification, gap)
  {
  }

  /** The volumes head for the same value after an answer is heard if they did before. */
  lemma AnswerSettles(a: Endpoint, b: Endpoint, rs: seq<Answer>, cs: seq<Order>)
    requires rs != [] && Heard(a, rs[0]).volume == Told(a.volume, a.control, rs[0])
    requires FinalController(a.volume, a.control, rs + Future(b.volume, cs)) == FinalTarget(b.volume, cs)
    requires var sets, a' := SetLabels(Flight(rs[1..], cs)), Heard(a, rs[0]);
             && a'.control == (if sets == [] then NO_TRANSACTION else sets[|sets| - 1])
             && (a'.control == a.control || sets == [])
    ensures var a' := Heard(a, rs[0]);
            FinalController(a'.volume, a'.control, rs[1..] + Future(b.volume, cs)) == FinalTarget(b.volume, cs)
  {
    var a' := Heard(a, rs[0]);
    if cs != [] {
      OrdersSettle(a', b, rs[1..], cs);
    } else {
      assert rs + Future(b.volume, cs) == rs && rs[1..] + Future(b.volume, cs) == rs[1..];
      if a'.control != a.control {
        NoSetIgnoresControl(a'.volume, a.control, rs[1..]);
      }
    }
  }

  lemma AnswerKeeps(a: Endpoint, b: Endpoint, rs: seq<Answer>, cs: seq<Order>, gap: nat) returns (gap': nat)
    requires Good(a, b, rs, cs, gap) && rs != []
    ensures Good(Heard(a, rs[0]), b, rs[1..], cs, gap')
  {
    hide Window, Labels, SetLabels, FinalController, FinalTarget, Future, Registration;
    assert AnswerOk(rs[0]);
    gap' := FlightPops(a, rs, cs, gap);
    WindowAfterHearing(Labels(Flight(rs[1..], cs)), a, rs[0], gap');
    AnswerKeepsRegistration(a, b, rs, cs);
    if Tracking(Heard(a, rs[0]), b, rs[1..], cs) {
      AnswerSettles(a, b, rs, cs);
    }
  }

  lemma UnansweredIsLabels(s: System, rs: seq<Answer>, cs: seq<Order>)
    requires Carries(s, rs, cs) && forall m | m in rs :: AnswerOk(m)
    ensures Unanswered(s) == |Labels(Flight(rs, cs))|
  {
    CountIsLabels(rs);
    OrdersAreLabels(cs);
    assert Flight(rs, cs) == Flight(rs, []) + Flight([], cs);
    LabelsConcat(Flight(rs, []), Flight([], cs));
  }

  lemma InvariantBy(s: System, rs: seq<Answer>, cs: seq<Order>, gap: nat)
    requires s.ab == OrderPackets(cs) && s.ba == AnswerPackets(rs)
    requires Good(s.a, s.b, rs, cs, gap)
    ensures Invariant(s)
  {
    assert Carries(s, rs, cs);
  }

  lemma SliderStepKeeps(s: System, level: Byte)
    requires Invariant(s) && Unanswered(s) <= 14
    ensures Invariant(Step(s, MoveSlider(level)))
  {
    hide Receive, OrderPacket, AnswerPacket, Flight, Labels, Window, Registration, Tracking, SetLabels, FinalController;
    var rs, cs, gap :| Carries(s, rs, cs) && Good(s.a, s.b, rs, cs, gap);
    if level <= MAX_VOLUME {
      UnansweredIsLabels(s, rs, cs);
      var c := SetTo(Allocated(s.a), level);
      var gap' := SliderKeeps(s.a, s.b, rs, cs, gap, level);
      PacketsAppend([], Changed(0, 0), cs, c);
      InvariantBy(Step(s, MoveSlider(level)), rs, cs + [c], gap');
    }
  }

  lemma RegisterStepKeeps(s: System)
    requires Invariant(s) && Unanswered(s) <= 14
    ensures Invariant(Step(s, RegisterAtTarget))
  {
    hide Receive, OrderPacket, AnswerPacket, Flight, Labels, Window, Registration, Tracking, SetLabels, FinalController;
    var rs, cs, gap :| Carries(s, rs, cs) && Good(s.a, s.b, rs, cs, gap);
    if s.a.notification == NO_TRANSACTION {
      UnansweredIsLabels(s, rs, cs);
      var c := Subscribe(Allocated(s.a));
      var gap' := RegisterKeeps(s.a, s.b, rs, cs, gap);
      PacketsAppend([], Changed(0, 0), cs, c);
      InvariantBy(Step(s, RegisterAtTarget), rs, cs + [c], gap');
    }
  }

  lemma TargetStepKeeps(s: System, level: Byte)
    requires Invariant(s)
    ensures Invariant(Step(s, MoveTarget(level)))
  {
    hide Receive, OrderPacket, AnswerPacket, Flight, Labels, Window, Registration, Tracking, SetLabels, FinalController;
    var rs, cs, gap :| Carries(s, rs, cs) && Good(s.a, s.b, rs, cs, gap);
    if level <= MAX_VOLUME {
      var rs' := TargetKeeps(s.a, s.b, rs, cs, gap, level);
      InvariantBy(Step(s, MoveTarget(level)), rs', cs, gap);
    }
  }

  lemma CommandDelivered(s: System, c: Order)
    requires s.ab != [] && s.ab[0] == OrderPacket(c)
    requires !s.b.state.Disconnected? && OrderOk(c) && s.b.volume <= MAX_VOLUME
    ensures Step(s, DeliverCommand)
         == System(s.a, Obeyed(s.b, c), s.ab[1..], s.ba + [AnswerPacket(AnswerTo(s.b.volume, c))])
  {
    TargetObeys(s.b, c);
  }

  lemma AnswerDelivered(s: System, m: Answer)
    requires s.ba != [] && s.ba[0] == AnswerPacket(m)
    requires !s.a.state.Disconnected? && AnswerOk(m)
    ensures Step(s, DeliverAnswer) == System(Heard(s.a, m), s.b, s.ab, s.ba[1..])
  {
    ControllerHears(s.a, m);
  }

  lemma DeliverCommandKeeps(s: System)
    requires Invariant(s) && s.ab != []
    ensures Invariant(Step(s, DeliverCommand))
  {
    hide Receive, OrderPacket, AnswerPacket, Window, Registration, Tracking, Labels, SetLabels, FinalController;
    var rs, cs, gap :| Carries(s, rs, cs) && Good(s.a, s.b, rs, cs, gap);
    assert OrderOk(cs[0]);
    DeliveryKeeps(s.a, s.b, rs, cs, gap);
    CommandDelivered(s, cs[0]);
    InvariantBy(Step(s, DeliverCommand), rs + [AnswerTo(s.b.volume, cs[0])], cs[1..], gap);
  }

  lemma DeliverAnswerKeeps(s: System)
    requires Invariant(s) && s.ba != []
    ensures Invariant(Step(s, DeliverAnswer))
  {
    hide Receive, OrderPacket, AnswerPacket;
    var rs, cs, gap :| Carries(s, rs, cs) && Good(s.a, s.b, rs, cs, gap);
    assert AnswerOk(rs[0]);
    var gap' := AnswerKeeps(s.a, s.b, rs, cs, gap);
    AnswerDelivered(s, rs[0]);
    InvariantBy(Step(s, DeliverAnswer), rs[1..], cs, gap');
  }

  lemma RefuseKeeps(s: System, ctype: Byte, parameters: Parameters)
    requires Invariant(s) && Enabled(Sound, s, RefuseCommand(ctype, parameters))
    ensures Invariant(Step(s, RefuseCommand(ctype, parameters)))
  {
    hide Receive, OrderPacket, AnswerPacket, Refusal, IsRegistration, Window, Registration, Tracking, Labels, SetLabels,
         FinalController;
    var rs, cs, gap :| Carries(s, rs, cs) && Good(s.a, s.b, rs, cs, gap);
    assert OrderOk(cs[0]);
    RefusalRead(cs[0], ctype, parameters);
    var m := RefusalOf(cs[0], ctype, parameters);
    RefusalKeeps(s.a, s.b, rs, cs, gap, ctype, parameters);
    PacketsAppend(rs, m, [], Subscribe(0));
    assert AnswerPacket(m) != [] by { AnswersAreSent(m); }
    InvariantBy(Step(s, RefuseCommand(ctype, parameters)), rs + [m], cs[1..], gap);
  }

  lemma AnswersAreSent(m: Answer)
    ensures AnswerPacket(m) != []
  {
  }

  /** At most fifteen commands unanswered, and no decline of the newest. */
  const Sound: Rules := Rules(15, false)

  lemma StepKeeps(s: System, action: Action)
    requires Invariant(s) && Enabled(Sound, s, action)
    ensures Invariant(Step(s, action))
  {
    match action
    case DeliverCommand => DeliverCommandKeeps(s);
    case RefuseCommand(ctype, parameters) => RefuseKeeps(s, ctype, parameters);
    case DeliverAnswer => DeliverAnswerKeeps(s);
    case MoveSlider(level) => SliderStepKeeps(s, level);
    case RegisterAtTarget => RegisterStepKeeps(s);
    case MoveTarget(level) => TargetStepKeeps(s, level);
  }

  lemma InitialIsGood(s: System)
    requires Initial(s)
    ensures Invariant(s)
  {
    assert Carries(s, [], []) && Good(s.a, s.b, [], [], 0);
  }

  lemma {:induction false} RunKeeps(s: System, actions: seq<Action>)
    requires Invariant(s) && Feasible(Sound, s, actions)
    ensures Invariant(After(Sound, s, actions))
    decreases actions
  {
    hide Receive, SetVolume, Register, TargetMoved, Good, Carries;
    if actions != [] {
      StepKeeps(s, actions[0]);
      RunKeeps(Step(s, actions[0]), actions[1..]);
    }
  }

  // ----- main results

  /**
   * In every interleaving with at most fifteen commands unanswered: whenever both channels are
   * empty, `a` is either not subscribed (`Ready`) or `Registered` with exactly the volume of `b`.
   */
  lemma QuietVolumesAgree(s: System, actions: seq<Action>)
    requires Initial(s) && Feasible(Sound, s, actions)
    ensures var t := After(Sound, s, actions);
            Quiet(t) ==>
              && (t.a.state == Ready || t.a.state == Registered)
              && (t.a.state == Registered ==> t.a.volume == t.b.volume)
  {
    InitialIsGood(s);
    RunKeeps(s, actions);
    var t := After(Sound, s, actions);
    if Quiet(t) {
      var rs, cs, gap :| Carries(t, rs, cs) && Good(t.a, t.b, rs, cs, gap);
      assert rs == [] && cs == [];
    }
  }

  /** Throughout every such run the two live labels differ and the state is the one the labels stand for. */
  lemma LabelsNeverCollide(s: System, actions: seq<Action>)
    requires Initial(s) && Feasible(Sound, s, actions)
    ensures var a := After(Sound, s, actions).a;
            && a.state == Derived(a)
            && (a.control != NO_TRANSACTION ==> a.control < 16 && a.control != a.notification)
            && (a.notification != NO_TRANSACTION ==> a.notification < 16)
  {
    InitialIsGood(s);
    RunKeeps(s, actions);
    var t := After(Sound, s, actions);
    var rs, cs, gap :| Carries(t, rs, cs) && Good(t.a, t.b, rs, cs, gap);
    ControlInFlight(t.a, t.b, rs, cs, gap);
  }

  lemma {:induction false} AlwaysDrains(s: System) returns (more: seq<Action>)
    requires Invariant(s)
    ensures Feasible(Sound, s, more) && Quiet(After(Sound, s, more)) && Invariant(After(Sound, s, more))
    ensures |more| == 2 * |s.ab| + |s.ba|
    ensures forall d | d in more :: d.DeliverCommand? || d.DeliverAnswer?
    decreases |s.ab|, |s.ba|
  {
    more := [];
    if s.ab != [] || s.ba != [] {
      var d := if s.ab != [] then DeliverCommand else DeliverAnswer;
      StepKeeps(s, d);
      DeliverySizes(s, d);
      var rest := AlwaysDrains(Step(s, d));
      more := [d] + rest;
      assert more[1..] == rest;
    }
  }

  lemma DeliverySizes(s: System, d: Action)
    requires Invariant(s) && ((d == DeliverCommand && s.ab != []) || (d == DeliverAnswer && s.ba != []))
    ensures var s' := Step(s, d);
            if d == DeliverCommand then |s'.ab| == |s.ab| - 1 && |s'.ba| == |s.ba| + 1
            else |s'.ab| == |s.ab| && |s'.ba| == |s.ba| - 1
  {
    var rs, cs, gap :| Carries(s, rs, cs) && Good(s.a, s.b, rs, cs, gap);
    if d == DeliverCommand {
      assert OrderOk(cs[0]);
      CommandDelivered(s, cs[0]);
    } else {
      assert AnswerOk(rs[0]);
      AnswerDelivered(s, rs[0]);
    }
  }

  /**
   * Nothing can keep the two apart for good: from every reachable state, delivering what is in
   * flight (at most two deliveries a command) ends in agreement or in a lapsed subscription.
   */
  lemma EveryRunSettles(s: System, actions: seq<Action>) returns (more: seq<Action>)
    requires Initial(s) && Feasible(Sound, s, actions)
    ensures var t := After(Sound, s, actions);
            && Feasible(Sound, t, more) && |more| == 2 * |t.ab| + |t.ba|
            && var u := After(Sound, t, more);
            && Quiet(u)
            && (u.a.state == Ready || u.a.state == Registered)
            && (u.a.state == Registered ==> u.a.volume == u.b.volume)
  {
    InitialIsGood(s);
    RunKeeps(s, actions);
    more := AlwaysDrains(After(Sound, s, actions));
    QuietGood(After(Sound, After(Sound, s, actions), more));
  }

  lemma QuietGood(t: System)
    requires Invariant(t) && Quiet(t)
    ensures t.a.state == Ready || (t.a.state == Registered && t.a.volume == t.b.volume)
  {
    var rs, cs, gap :| Carries(t, rs, cs) && Good(t.a, t.b, rs, cs, gap);
    assert rs == [] && cs == [];
  }

  // ----- fifteen is the most: a run with sixteen unanswered commands ends in disagreement

  /** One more command unanswered. */
  const Most: Rules := Rules(16, false)

  ghost predicate Leads(rules: Rules, s: System, actions: seq<Action>, t: System) {
    Feasible(rules, s, actions) && After(rules, s, actions) == t
  }

  lemma {:induction false} LeadsOn(rules: Rules, s: System, x: seq<Action>, t: System, y: seq<Action>, u: System)
    requires Leads(rules, s, x, t) && Leads(rules, t, y, u)
    ensures Leads(rules, s, x + y, u)
    decreases x
  {
    hide Receive, SetVolume, Register, TargetMoved;
    if x == [] {
      assert x + y == y;
    } else {
      LeadsOn(rules, Step(s, x[0]), x[1..], t, y, u);
      assert (x + y)[0] == x[0] && (x + y)[1..] == x[1..] + y;
    }
  }

  /** The subscribed controller after the first `k` slider moves: label `k` is the newest. */
  function Moved(k: nat): Endpoint
    requires k <= 15
  {
    if k == 0 then Endpoint(Registered, 0, 1, NO_TRANSACTION, 0, true, NO_TRANSACTION)
    else Endpoint(WaitingSetVolume, k, (k + 1) % 16, k, 0, true, NO_TRANSACTION)
  }

  const Peer: Endpoint := Endpoint(Ready, 0, 0, NO_TRANSACTION, NO_TRANSACTION, false, 0)

  const Start: System := System(Enter(New, 0).value, Enter(New, 0).value, [], [])

  function Moves(k: nat): seq<Order>
    requires k <= 15
  {
    if k == 0 then [] else Moves(k - 1) + [SetTo(k, k)]
  }

  function Slides(k: nat): seq<Action>
    requires k <= 15
  {
    if k == 0 then [] else Slides(k - 1) + [MoveSlider(k)]
  }

  const Asking: Endpoint := Endpoint(WaitingInterim, 0, 1, NO_TRANSACTION, 0, false, NO_TRANSACTION)

  lemma Asked()
    ensures Step(Start, RegisterAtTarget) == System(Asking, Enter(New, 0).value, [OrderPacket(Subscribe(0))], [])
  {
    AllocatedWithRoom(Enter(New, 0).value);
  }

  lemma Subscribing(rules: Rules)
    requires rules.limit > 0
    ensures Leads(rules, Start, [RegisterAtTarget, DeliverCommand, DeliverAnswer], System(Moved(0), Peer, [], []))
  {
    hide Receive, OrderPacket, AnswerPacket, Register;
    Asked();
    var s1 := System(Asking, Enter(New, 0).value, [OrderPacket(Subscribe(0))], []);
    CommandDelivered(s1, Subscribe(0));
    var s2 := System(Asking, Peer, [], [AnswerPacket(Interim(0, 0))]);
    AnswerDelivered(s2, Interim(0, 0));
    LeadsOne(rules, s2, DeliverAnswer);
    LeadsOne(rules, s1, DeliverCommand);
    LeadsOne(rules, Start, RegisterAtTarget);
    LeadsOn(rules, Start, [RegisterAtTarget], s1, [DeliverCommand], s2);
    LeadsOn(rules, Start, [RegisterAtTarget] + [DeliverCommand], s2, [DeliverAnswer], System(Moved(0), Peer, [], []));
    assert [RegisterAtTarget] + [DeliverCommand] + [DeliverAnswer] == [RegisterAtTarget, DeliverCommand, DeliverAnswer];
  }

  lemma LeadsOne(rules: Rules, s: System, action: Action)
    requires Enabled(rules, s, action)
    ensures Leads(rules, s, [action], Step(s, action))
  {
    assert [action][1..] == [];
    assert Feasible(rules, Step(s, action), []);
  }

  lemma SlideOnce(k: nat, ab: seq<Packet>)
    requires 1 <= k <= 15
    ensures Step(System(Moved(k - 1), Peer, ab, []), MoveSlider(k))
         == System(Moved(k), Peer, ab + [OrderPacket(SetTo(k, k))], [])
  {
    AllocatedWithRoom(Moved(k - 1));
    FollowingIs(k);
  }

  lemma {:induction false} Sliding(k: nat)
    requires k <= 15
    ensures |Moves(k)| == k
    ensures Leads(Most, System(Moved(0), Peer, [], []), Slides(k), System(Moved(k), Peer, OrderPackets(Moves(k)), []))
  {
    if k > 0 {
      Sliding(k - 1);
      var s := System(Moved(k - 1), Peer, OrderPackets(Moves(k - 1)), []);
      SlideOnce(k, s.ab);
      PacketsAppend([], Changed(0, 0), Moves(k - 1), SetTo(k, k));
      LeadsOne(Most, s, MoveSlider(k));
      LeadsOn(Most, System(Moved(0), Peer, [], []), Slides(k - 1), s, [MoveSlider(k)], Step(s, MoveSlider(k)));
    }
  }

  lemma {:induction false} DeliverOrders(s: System, rs: seq<Answer>, cs: seq<Order>)
    requires Carries(s, rs, cs) && !s.b.state.Disconnected? && s.b.volume <= MAX_VOLUME
    requires forall c | c in cs :: OrderOk(c) && c.SetTo?
    ensures Leads(Most, s, seq(|cs|, _ => DeliverCommand),
                  System(s.a, s.b.(volume := FinalTarget(s.b.volume, cs)), [], AnswerPackets(rs + Future(s.b.volume, cs))))
    decreases cs
  {
    hide Receive, OrderPacket, AnswerPacket;
    if cs == [] {
      assert rs + Future(s.b.volume, cs) == rs;
    } else {
      assert OrderOk(cs[0]);
      CommandDelivered(s, cs[0]);
      var m := AnswerTo(s.b.volume, cs[0]);
      PacketsAppend(rs, m, cs, cs[0]);
      DeliverOrders(Step(s, DeliverCommand), rs + [m], cs[1..]);
      assert rs + Future(s.b.volume, cs) == rs + [m] + Future(VolumeAfter(s.b.volume, cs[0]), cs[1..]);
      assert seq(|cs|, _ => DeliverCommand)[1..] == seq(|cs[1..]|, _ => DeliverCommand);
    }
  }

  function HeardAll(a: Endpoint, rs: seq<Answer>): Endpoint
    decreases rs
  {
    if rs == [] then a else HeardAll(Heard(a, rs[0]), rs[1..])
  }

  lemma {:induction false} DeliverAnswers(s: System, rs: seq<Answer>)
    requires Carries(s, rs, []) && !s.a.state.Disconnected?
    requires forall m | m in rs :: AnswerOk(m)
    ensures Leads(Most, s, seq(|rs|, _ => DeliverAnswer), System(HeardAll(s.a, rs), s.b, [], []))
    decreases rs
  {
    hide Receive, OrderPacket, AnswerPacket;
    if rs != [] {
      assert AnswerOk(rs[0]);
      AnswerDelivered(s, rs[0]);
      DeliverAnswers(Step(s, DeliverAnswer), rs[1..]);
      assert seq(|rs|, _ => DeliverAnswer)[1..] == seq(|rs[1..]|, _ => DeliverAnswer);
    }
  }

  lemma {:induction false} StaleAnswersIgnored(a: Endpoint, rs: seq<Answer>)
    requires a.control == NO_TRANSACTION && forall m | m in rs :: m.Accepted? && m.tag < 16
    ensures HeardAll(a, rs) == a
  {
    if rs != [] {
      assert rs[0] in rs;
      StaleAnswersIgnored(a, rs[1..]);
    }
  }

  /** Every future answer to volume commands is an ACCEPTED carrying a label of one of them. */
  lemma {:induction false} FutureOfMoves(volume: Byte, cs: seq<Order>)
    requires forall c | c in cs :: OrderOk(c) && c.SetTo?
    ensures forall m | m in Future(volume, cs) :: m.Accepted? && AnswerOk(m)
    ensures |Future(volume, cs)| == |cs|
    decreases cs
  {
    if cs != [] {
      assert OrderOk(cs[0]);
      FutureOfMoves(VolumeAfter(volume, cs[0]), cs[1..]);
    }
  }

  lemma {:induction false} MovesAre(k: nat)
    requires 1 <= k <= 15
    ensures forall c | c in Moves(k) :: OrderOk(c) && c.SetTo?
    ensures |Moves(k)| == k && Moves(k)[0] == SetTo(1, 1)
  {
    if k > 1 {
      MovesAre(k - 1);
    } else {
      assert Moves(0) == [];
      assert Moves(1) == [SetTo(1, 1)];
    }
  }

  function Sixteen(): seq<Order> {
    Moves(15) + [SetTo(1, 100)]
  }

  /** The controller once the sixteenth volume command has taken the label of the first. */
  const Overtaken: Endpoint := Endpoint(WaitingSetVolume, 100, 2, 1, 0, true, NO_TRANSACTION)

  lemma SixteenthSlide()
    ensures Leads(Most, System(Moved(15), Peer, OrderPackets(Moves(15)), []), [MoveSlider(100)],
                  System(Overtaken, Peer, OrderPackets(Sixteen()), []))
  {
    Sliding(15);
    var s := System(Moved(15), Peer, OrderPackets(Moves(15)), []);
    AllocatedWithRoom(s.a);
    PacketsAppend([], Changed(0, 0), Moves(15), SetTo(1, 100));
    LeadsOne(Most, s, MoveSlider(100));
  }

  lemma SixteenFuture()
    ensures var rs := Future(0, Sixteen());
            && FinalTarget(0, Sixteen()) == 100 && rs != [] && rs[0] == Accepted(1, 1)
            && (forall m | m in rs :: m.Accepted? && m.tag < 16 && AnswerOk(m))
    ensures forall c | c in Sixteen() :: OrderOk(c) && c.SetTo?
  {
    hide OrderPacket, AnswerPacket;
    MovesAre(15);
    FutureOfMoves(0, Sixteen());
    FutureAppend(0, Moves(15), SetTo(1, 100));
    assert Sixteen()[0] == SetTo(1, 1);
  }

  /** All sixteen answered: the answer to the first is taken for the newest, and the rest are stale. */
  lemma SixteenAnswered() returns (rs: seq<Answer>)
    ensures Leads(Most, System(Overtaken, Peer, OrderPackets(Sixteen()), []),
                  seq(|Sixteen()|, _ => DeliverCommand) + seq(|rs|, _ => DeliverAnswer),
                  System(Heard(Overtaken, Accepted(1, 1)), Peer.(volume := 100), [], []))
  {
    hide Leads, OrderPackets, AnswerPackets, Receive, Future, FinalTarget, Sixteen, Moves, Heard;
    var cs := Sixteen();
    SixteenFuture();
    var s := System(Overtaken, Peer, OrderPackets(cs), []);
    assert Carries(s, [], cs) by { NoAnswers(); }
    DeliverOrders(s, [], cs);
    rs := Future(0, cs);
    assert [] + rs == rs;
    var t := System(Overtaken, Peer.(volume := 100), [], AnswerPackets(rs));
    assert Carries(t, rs, []) by { NoAnswers(); }
    DeliverAnswers(t, rs);
    HeardFirst(Overtaken, rs);
    StaleAnswersIgnored(Heard(Overtaken, rs[0]), rs[1..]);
    LeadsOn(Most, s, seq(|cs|, _ => DeliverCommand), t, seq(|rs|, _ => DeliverAnswer),
            System(Heard(Overtaken, Accepted(1, 1)), Peer.(volume := 100), [], []));
  }

  lemma NoAnswers()
    ensures OrderPackets([]) == [] && AnswerPackets([]) == []
  {
  }

  lemma HeardFirst(a: Endpoint, rs: seq<Answer>)
    requires rs != [] && a == Overtaken && rs[0] == Accepted(1, 1)
    ensures HeardAll(a, rs) == HeardAll(Heard(a, rs[0]), rs[1..]) && Heard(a, rs[0]).control == NO_TRANSACTION
  {
  }

  /**
   * Subscribe, move the slider sixteen times before the first answer arrives, then deliver
   * everything: the sixteenth command reuses the label of the first, whose late answer is taken for
   * the new one, and the controller ends `Registered` with volume 1 while the target is at 100.
   */
  lemma SixteenUnansweredDisagree() returns (actions: seq<Action>)
    ensures Initial(Start) && Feasible(Most, Start, actions)
    ensures var t := After(Most, Start, actions);
            Quiet(t) && t.a.state == Registered && t.a.volume == 1 && t.b.volume == 100
  {
    hide Step, Receive, OrderPacket, Sixteen;
    var s1, s2 := System(Moved(0), Peer, [], []), System(Moved(15), Peer, OrderPackets(Moves(15)), []);
    var s3 := System(Overtaken, Peer, OrderPackets(Sixteen()), []);
    Subscribing(Most);
    Sliding(15);
    SixteenthSlide();
    var rs := SixteenAnswered();
    var x0, x3 := [RegisterAtTarget, DeliverCommand, DeliverAnswer],
                  seq(|Sixteen()|, _ => DeliverCommand) + seq(|rs|, _ => DeliverAnswer);
    LeadsOn(Most, Start, x0, s1, Slides(15), s2);
    LeadsOn(Most, Start, x0 + Slides(15), s2, [MoveSlider(100)], s3);
    LeadsOn(Most, Start, x0 + Slides(15) + [MoveSlider(100)], s3, x3,
            System(Heard(Overtaken, Accepted(1, 1)), Peer.(volume := 100), [], []));
    actions := x0 + Slides(15) + [MoveSlider(100)] + x3;
    assert Enter(New, 0) == Some(Start.a);
  }

  lemma {:induction false} LooserRules(rules: Rules, looser: Rules, s: System, actions: seq<Action>)
    requires rules.limit <= looser.limit && (rules.declines ==> looser.declines) && Feasible(rules, s, actions)
    ensures Feasible(looser, s, actions) && After(looser, s, actions) == After(rules, s, actions)
    decreases actions
  {
    hide Receive, SetVolume, Register, TargetMoved, Refusal;
    if actions != [] {
      LooserRules(rules, looser, Step(s, actions[0]), actions[1..]);
    }
  }

  /** The promise kept to the user: a quiet, registered controller shows the volume of its target. */
  predicate Agrees(t: System) {
    Quiet(t) && t.a.state == Registered ==> t.a.volume == t.b.volume
  }

  ghost predicate AlwaysAgree(rules: Rules) {
    forall s, actions | Initial(s) && Feasible(rules, s, actions) :: Agrees(After(rules, s, actions))
  }

  // ----- a target that declines the newest volume command

  const Declining: Rules := Rules(1, true)

  const Reject: Action := RefuseCommand(AVC_REJECTED, [1])

  /** Subscribe, move the slider once, and have the target reject that: the controller goes on showing what was rejected. */
  lemma DeclinedVolumeDisagrees() returns (actions: seq<Action>)
    ensures Initial(Start) && Feasible(Declining, Start, actions)
    ensures var t := After(Declining, Start, actions);
            Quiet(t) && t.a.state == Registered && t.a.volume == 1 && t.b.volume == 0
  {
    hide Step, Receive, OrderPacket, Refusal, Leads, AnswerPacket;
    var s1 := System(Moved(0), Peer, [], []);
    var s2 := System(Moved(1), Peer, [OrderPacket(SetTo(1, 1))], []);
    var s3 := System(Moved(1), Peer, [], [AnswerPacket(Declined(1, AVC_REJECTED, [1]))]);
    var s4 := System(Heard(Moved(1), Declined(1, AVC_REJECTED, [1])), Peer, [], []);
    Subscribing(Declining);
    SlideOnce(1, []);
    assert [] + [OrderPacket(SetTo(1, 1))] == [OrderPacket(SetTo(1, 1))];
    LeadsOne(Declining, s1, MoveSlider(1));
    Declines(s2);
    LeadsOne(Declining, s2, Reject);
    AnswerDelivered(s3, Declined(1, AVC_REJECTED, [1]));
    assert s3.ba[1..] == [];
    LeadsOne(Declining, s3, DeliverAnswer);
    var x := [RegisterAtTarget, DeliverCommand, DeliverAnswer];
    LeadsOn(Declining, Start, x, s1, [MoveSlider(1)], s2);
    LeadsOn(Declining, Start, x + [MoveSlider(1)], s2, [Reject], s3);
    LeadsOn(Declining, Start, x + [MoveSlider(1)] + [Reject], s3, [DeliverAnswer], s4);
    actions := x + [MoveSlider(1)] + [Reject] + [DeliverAnswer];
    Led(Declining, Start, actions, s4);
    assert Enter(New, 0) == Some(Start.a);
  }

  lemma Led(rules: Rules, s: System, actions: seq<Action>, t: System)
    requires Leads(rules, s, actions, t)
    ensures Feasible(rules, s, actions) && After(rules, s, actions) == t
  {
  }

  lemma Declines(s: System)
    requires s.ab == [OrderPacket(SetTo(1, 1))] && s.ba == []
    ensures Step(s, Reject) == s.(ab := [], ba := [AnswerPacket(Declined(1, AVC_REJECTED, [1]))])
  {
    hide OrderPacket, AnswerPacket, Refusal;
    RefusalRead(SetTo(1, 1), AVC_REJECTED, [1]);
    AnswersAreSent(Declined(1, AVC_REJECTED, [1]));
  }

  /** Where no command may be sent, nothing ever happens but at the target. */
  lemma {:induction false} NothingSentNothingHappens(rules: Rules, s: System, actions: seq<Action>)
    requires rules.limit == 0 && Feasible(rules, s, actions)
    requires Quiet(s) && s.b.target == NO_TRANSACTION && s.a.state != Registered
    ensures After(rules, s, actions).a == s.a
    decreases actions
  {
    hide Receive, SetVolume, Register, Refusal;
    if actions != [] {
      assert actions[0].MoveTarget?;
      assert s.ba + [] == s.ba;
      NothingSentNothingHappens(rules, Step(s, actions[0]), actions[1..]);
    }
  }

  /**
   * The promise holds for every run exactly when at most fifteen commands may be unanswered and the target never declines
   * the newest volume command; refusing registrations and superseded volume commands does no harm. With no command
   * allowed at all there is nothing to decline.
   */
  lemma FifteenIsExact(rules: Rules)
    ensures AlwaysAgree(rules) <==> rules.limit <= 15 && (rules.declines ==> rules.limit == 0)
  {
    hide Feasible, After;
    if rules.limit == 0 {
      forall s, actions | Initial(s) && Feasible(rules, s, actions)
        ensures Agrees(After(rules, s, actions))
      {
        NothingSentNothingHappens(rules, s, actions);
      }
    } else if rules.limit <= 15 && !rules.declines {
      forall s, actions | Initial(s) && Feasible(rules, s, actions)
        ensures Agrees(After(rules, s, actions))
      {
        LooserRules(rules, Sound, s, actions);
        QuietVolumesAgree(s, actions);
      }
    } else if rules.limit > 15 {
      var actions := SixteenUnansweredDisagree();
      LooserRules(Most, rules, Start, actions);
    } else {
      var actions := DeclinedVolumeDisagrees();
      LooserRules(Declining, rules, Start, actions);
    }
  }
}
