/**
 * Signalling packets as structure: an ACL packet around an L2CAP packet around signalling commands
 * around configuration options (Bluetooth Core Vol 3 Part A sections 4.4 and 5), and what it means
 * to take one vendor option out of one of them.
 */
module L2cap {
  import opened Wire

  datatype Opt = Opt(kind: Byte, value: seq<Byte>)

  datatype Cmd = Cmd(code: Byte, id: Byte, data: seq<Byte>)

  /**
   * `commands` are the complete commands, `rest` what follows them in the L2CAP payload and is not
   * one, `gap` what follows the L2CAP payload in the ACL packet.
   */
  datatype Packet = Packet(handle: seq<Byte>, commands: seq<Cmd>, rest: seq<Byte>, gap: seq<Byte>)

  const CONFIGURATION_REQUEST: Byte := 4
  const MHDT: Opt := Opt(0x7f, [1])
  const FIRST_DYNAMIC_CID: U16 := 0x40

  // ----- from bytes and back

  function Low(n: nat): Byte {
    n % 256
  }

  function High(n: nat): Byte {
    n / 256 % 256
  }

  function OptBytes(o: Opt): seq<Byte> {
    [o.kind, Low(|o.value|)] + o.value
  }

  function JoinOpts(os: seq<Opt>): seq<Byte> {
    if os == [] then [] else OptBytes(os[0]) + JoinOpts(os[1..])
  }

  /** The options at the front of `s`, and what is left where no complete option starts. */
  function ParseOpts(s: seq<Byte>): (seq<Opt>, seq<Byte>) {
    if |s| < 2 || |s| - 2 < s[1] then ([], s)
    else
      var (os, rest) := ParseOpts(s[2 + s[1]..]);
      ([Opt(s[0], s[2..2 + s[1]])] + os, rest)
  }

  function CmdHeader(code: Byte, id: Byte, length: nat): (h: seq<Byte>)
    ensures |h| == 4
  {
    [code, id, Low(length), High(length)]
  }

  function CmdBytes(c: Cmd): seq<Byte> {
    CmdHeader(c.code, c.id, |c.data|) + c.data
  }

  function JoinCmds(cs: seq<Cmd>): seq<Byte> {
    if cs == [] then [] else CmdBytes(cs[0]) + JoinCmds(cs[1..])
  }

  /** The commands at the front of `s`, and what is left where no complete command starts. */
  function ParseCmds(s: seq<Byte>): (seq<Cmd>, seq<Byte>)
    decreases |s|
  {
    if |s| < 4 || |s| - 4 < Le16(s[2], s[3]) then ([], s)
    else
      var length := Le16(s[2], s[3]);
      var (cs, rest) := ParseCmds(s[4 + length..]);
      ([Cmd(s[0], s[1], s[4..4 + length])] + cs, rest)
  }

  function Signalling(p: Packet): seq<Byte> {
    JoinCmds(p.commands) + p.rest
  }

  /** The packet's bytes, every enclosing length computed from what it encloses. */
  function Unparse(p: Packet): seq<Byte>
    requires |p.handle| == 2
  {
    var signalling := Signalling(p);
    Header(p.handle, 4 + |signalling| + |p.gap|, |signalling|) + signalling + p.gap
  }

  /** Start, end of the signalling payload and end of the ACL packet, if this starts such a packet. */
  function Bounds(s: seq<Byte>): Option<(nat, nat, nat)> {
    if |s| < 8 || (s[1] / 16 % 4 != 0 && s[1] / 16 % 4 != 2) then None
    else
      var acl, l2cap := Le16(s[2], s[3]), Le16(s[4], s[5]);
      if |s| - 4 < acl || acl < 4 || Le16(s[6], s[7]) != 1 || 4 + l2cap > acl then None
      else Some((8, 8 + l2cap as nat, 4 + acl as nat))
  }

  function Parse(s: seq<Byte>): Option<Packet> {
    match Bounds(s)
    case None => None
    case Some((start, l2capEnd, aclEnd)) =>
      var (commands, rest) := ParseCmds(s[start..l2capEnd]);
      Some(Packet(s[..2], commands, rest, s[l2capEnd..aclEnd]))
  }

  lemma {:induction false} JoinParsedOpts(s: seq<Byte>)
    ensures var (os, rest) := ParseOpts(s);
            && s == JoinOpts(os) + rest
            && ParseOpts(rest) == ([], rest)
            && forall o | o in os :: |o.value| < 256
  {
    if !(|s| < 2 || |s| - 2 < s[1]) {
      JoinParsedOpts(s[2 + s[1]..]);
      assert s == [s[0], s[1]] + s[2..2 + s[1]] + s[2 + s[1]..];
    }
  }

  lemma ParseOneOpt(o: Opt, tail: seq<Byte>)
    requires |o.value| < 256
    ensures ParseOpts(OptBytes(o) + tail) == ([o] + ParseOpts(tail).0, ParseOpts(tail).1)
  {
    var s := OptBytes(o) + tail;
    assert s[0] == o.kind && s[1] == |o.value|;
    assert s[2..2 + s[1]] == o.value;
    assert s[2 + s[1]..] == tail;
  }

  lemma {:induction false} ParseJoinedOpts(os: seq<Opt>, rest: seq<Byte>)
    requires ParseOpts(rest) == ([], rest) && forall o | o in os :: |o.value| < 256
    ensures ParseOpts(JoinOpts(os) + rest) == (os, rest)
  {
    hide OptBytes, ParseOpts;
    if os == [] {
      assert JoinOpts(os) + rest == rest;
    } else {
      ParseJoinedOpts(os[1..], rest);
      assert os[0] in os;
      ParseOneOpt(os[0], JoinOpts(os[1..]) + rest);
      Associates(OptBytes(os[0]), JoinOpts(os[1..]), rest);
      assert [os[0]] + os[1..] == os;
    }
  }

  lemma LengthBytes(low: Byte, high: Byte)
    ensures Low(Le16(low, high)) == low && High(Le16(low, high)) == high
  {
  }

  lemma InThree(s: seq<Byte>, x: nat, y: nat, z: nat)
    requires x <= y <= z <= |s|
    ensures s[..x] + s[x..y] + s[y..z] == s[..z]
  {
  }

  /** One complete command at the front of `s`, taken off and put back. */
  lemma FirstCmd(s: seq<Byte>)
    requires |s| >= 4 && |s| - 4 >= Le16(s[2], s[3])
    ensures var length: nat := Le16(s[2], s[3]);
            s == CmdBytes(Cmd(s[0], s[1], s[4..4 + length])) + s[4 + length..]
  {
    var length: nat := Le16(s[2], s[3]);
    LengthBytes(s[2], s[3]);
    assert CmdHeader(s[0], s[1], length) == s[..4];
    InThree(s, 4, 4 + length, |s|);
  }

  lemma {:induction false} JoinParsedCmds(s: seq<Byte>)
    ensures s == JoinCmds(ParseCmds(s).0) + ParseCmds(s).1
    ensures ParseCmds(ParseCmds(s).1) == ([], ParseCmds(s).1)
    ensures forall c | c in ParseCmds(s).0 :: |c.data| < 0x1_0000
    decreases |s|
  {
    if !(|s| < 4 || |s| - 4 < Le16(s[2], s[3])) {
      var length := Le16(s[2], s[3]);
      var tail := s[4 + length..];
      JoinParsedCmds(tail);
      FirstCmd(s);
      var c := Cmd(s[0], s[1], s[4..4 + length]);
      assert ParseCmds(s).0 == [c] + ParseCmds(tail).0;
      assert JoinCmds(ParseCmds(s).0) == CmdBytes(c) + JoinCmds(ParseCmds(tail).0);
    }
  }

  lemma ParseOneCmd(c: Cmd, tail: seq<Byte>)
    requires |c.data| < 0x1_0000
    ensures ParseCmds(CmdBytes(c) + tail) == ([c] + ParseCmds(tail).0, ParseCmds(tail).1)
  {
    var s := CmdBytes(c) + tail;
    assert s[0] == c.code && s[1] == c.id && s[2] == Low(|c.data|) && s[3] == High(|c.data|);
    assert Le16(s[2], s[3]) == |c.data|;
    assert s[4..4 + |c.data|] == c.data;
    assert s[4 + |c.data|..] == tail;
  }

  lemma {:induction false} ParseJoinedCmds(cs: seq<Cmd>, rest: seq<Byte>)
    requires ParseCmds(rest) == ([], rest) && forall c | c in cs :: |c.data| < 0x1_0000
    ensures ParseCmds(JoinCmds(cs) + rest) == (cs, rest)
  {
    hide CmdBytes, ParseCmds;
    if cs == [] {
      assert JoinCmds(cs) + rest == rest;
    } else {
      ParseJoinedCmds(cs[1..], rest);
      assert cs[0] in cs;
      ParseOneCmd(cs[0], JoinCmds(cs[1..]) + rest);
      Associates(CmdBytes(cs[0]), JoinCmds(cs[1..]), rest);
      assert [cs[0]] + cs[1..] == cs;
    }
  }

  /** The eight header bytes of an ACL packet around an L2CAP packet. */
  function Header(handle: seq<Byte>, acl: nat, l2cap: nat): (h: seq<Byte>)
    requires |handle| == 2
    ensures |h| == 8
  {
    handle + [Low(acl), High(acl), Low(l2cap), High(l2cap), 1, 0]
  }

  lemma WordBytes(n: nat)
    requires n < 0x1_0000
    ensures Le16(Low(n), High(n)) == n
  {
  }

  lemma HeaderParsed(s: seq<Byte>)
    requires Bounds(s).Some?
    ensures var (start, l2capEnd, aclEnd) := Bounds(s).value;
            && start == 8 <= l2capEnd <= aclEnd <= |s|
            && Header(s[..2], aclEnd - 4, l2capEnd - 8) == s[..8]
  {
    LengthBytes(s[2], s[3]);
    LengthBytes(s[4], s[5]);
    assert s[6] == 1 && s[7] == 0;
  }

  lemma UnparseIs(p: Packet, signalling: seq<Byte>, acl: nat, l2cap: nat)
    requires |p.handle| == 2 && Signalling(p) == signalling
    requires l2cap == |signalling| && acl == 4 + l2cap + |p.gap|
    ensures Unparse(p) == Header(p.handle, acl, l2cap) + signalling + p.gap
  {
  }

  lemma SignallingParsed(s: seq<Byte>, p: Packet)
    requires (p.commands, p.rest) == ParseCmds(s)
    ensures Signalling(p) == s
  {
    JoinParsedCmds(s);
  }

  /** A packet that came from bytes is those bytes. */
  lemma UnparseParsed(s: seq<Byte>)
    requires Parse(s).Some?
    ensures var (_, l2capEnd, aclEnd) := Bounds(s).value;
            var p := Parse(s).value;
            && 8 <= l2capEnd <= aclEnd <= |s|
            && |p.handle| == 2 && Unparse(p) == s[..aclEnd] && Signalling(p) == s[8..l2capEnd]
  {
    hide Header, Unparse, Signalling, ParseCmds, Bounds, Le16;
    HeaderParsed(s);
    var (start, l2capEnd, aclEnd) := Bounds(s).value;
    var p := Parse(s).value;
    SignallingParsed(s[start..l2capEnd], p);
    UnparseIs(p, s[8..l2capEnd], aclEnd - 4, l2capEnd - 8);
    InThree(s, 8, l2capEnd, aclEnd);
  }

  ghost predicate Parseable(p: Packet) {
    && |p.handle| == 2 && (p.handle[1] / 16 % 4 == 0 || p.handle[1] / 16 % 4 == 2)
    && 4 + |Signalling(p)| + |p.gap| < 0x1_0000
    && ParseCmds(p.rest) == ([], p.rest)
    && forall c | c in p.commands :: |c.data| < 0x1_0000
  }

  lemma ParsedIsParseable(s: seq<Byte>)
    requires Parse(s).Some?
    ensures Parseable(Parse(s).value)
  {
    var (start, l2capEnd, aclEnd) := Bounds(s).value;
    JoinParsedCmds(s[start..l2capEnd]);
  }

  /** The header fields as `Bounds` reads them. */
  lemma HeaderFields(handle: seq<Byte>, acl: nat, l2cap: nat, after: seq<Byte>)
    requires |handle| == 2 && acl < 0x1_0000 && l2cap < 0x1_0000
    ensures var s := Header(handle, acl, l2cap) + after;
            && s[..2] == handle && s[1] == handle[1]
            && Le16(s[2], s[3]) == acl && Le16(s[4], s[5]) == l2cap && Le16(s[6], s[7]) == 1
  {
    hide Low, High;
    var s := Header(handle, acl, l2cap) + after;
    assert s[2] == Low(acl) && s[3] == High(acl) && s[4] == Low(l2cap) && s[5] == High(l2cap);
    WordBytes(acl);
    WordBytes(l2cap);
  }

  lemma HeaderBounds(handle: seq<Byte>, signalling: nat, gap: nat, after: seq<Byte>)
    requires |handle| == 2 && (handle[1] / 16 % 4 == 0 || handle[1] / 16 % 4 == 2)
    requires 4 + signalling + gap < 0x1_0000 && |after| >= signalling + gap
    ensures Bounds(Header(handle, 4 + signalling + gap, signalling) + after) == Some((8, 8 + signalling, 8 + signalling + gap))
  {
    hide Header, Le16;
    HeaderFields(handle, 4 + signalling + gap, signalling, after);
  }

  /** Reading back what was written gives the same packet, whatever bytes lie beyond it. */
  lemma ParseUnparsed(p: Packet, beyond: seq<Byte>)
    requires Parseable(p)
    ensures Parse(Unparse(p) + beyond) == Some(p)
  {
    hide Header, Bounds, ParseCmds, JoinCmds;
    var signalling := Signalling(p);
    var n, after := |signalling|, signalling + (p.gap + beyond);
    var h := Header(p.handle, 4 + n + |p.gap|, n);
    var s := h + after;
    Associates(h, signalling, p.gap);
    Associates(h, signalling + p.gap, beyond);
    Associates(signalling, p.gap, beyond);
    HeaderBounds(p.handle, n, |p.gap|, after);
    HeaderFields(p.handle, 4 + n + |p.gap|, n, after);
    ParseJoinedCmds(p.commands, p.rest);
    Pieces(h, signalling, p.gap, beyond);
  }

  lemma Pieces(h: seq<Byte>, x: seq<Byte>, y: seq<Byte>, z: seq<Byte>)
    ensures var s := h + (x + (y + z));
            s[|h|..|h| + |x|] == x && s[|h| + |x|..|h| + |x| + |y|] == y
  {
  }

  // ----- which option goes

  /** A complete Configuration Request, without continuation flags, for the wanted dynamic channel. */
  predicate IsRequest(c: Cmd, cid: Option<U16>) {
    && c.code == CONFIGURATION_REQUEST && |c.data| >= 4
    && Le16(c.data[0], c.data[1]) >= FIRST_DYNAMIC_CID
    && (cid.Some? ==> Le16(c.data[0], c.data[1]) == cid.value)
    && c.data[2] == c.data[3] == 0
  }

  datatype Search = Absent | Malformed | Present(index: nat)

  function FirstMhdt(os: seq<Opt>): (k: Option<nat>)
    ensures k.Some? ==> k.value < |os| && os[k.value] == MHDT
  {
    if os == [] then None
    else if os[0] == MHDT then Some(0)
    else
      match FirstMhdt(os[1..])
      case None => None
      case Some(k) => Some(k + 1)
  }

  /** Where the first exact option is; a broken option list without one is malformed. */
  function Scan(s: seq<Byte>): (found: Search)
    ensures found.Present? ==> found.index < |ParseOpts(s).0| && ParseOpts(s).0[found.index] == MHDT
  {
    var (os, rest) := ParseOpts(s);
    match FirstMhdt(os)
    case Some(k) => Present(k)
    case None => if |rest| < 2 then Absent else Malformed
  }

  lemma {:induction false} FirstMhdtIsFirst(os: seq<Opt>)
    ensures match FirstMhdt(os)
            case Some(k) => MHDT !in os[..k]
            case None => MHDT !in os
  {
    if os != [] && os[0] != MHDT {
      FirstMhdtIsFirst(os[1..]);
      var rest := FirstMhdt(os[1..]);
      if rest.Some? {
        assert os[..rest.value + 1] == [os[0]] + os[1..][..rest.value];
      }
    }
  }

  /** The first request that carries the option, unless a malformed request for the channel comes first. */
  function Target(cs: seq<Cmd>, cid: Option<U16>): Option<nat> {
    if cs == [] then None
    else
      var next := match Target(cs[1..], cid) case None => None case Some(k) => Some(k + 1);
      if !IsRequest(cs[0], cid) then next
      else
        match Scan(cs[0].data[4..])
        case Present(_) => Some(0)
        case Absent => next
        case Malformed => None
  }

  lemma {:induction false} TargetIsRequest(cs: seq<Cmd>, cid: Option<U16>)
    ensures Target(cs, cid).Some? ==>
              var k := Target(cs, cid).value;
              k < |cs| && IsRequest(cs[k], cid) && Carries(cs[k])
  {
    if cs != [] {
      TargetIsRequest(cs[1..], cid);
    }
  }

  predicate Carries(c: Cmd) {
    |c.data| >= 4 && Scan(c.data[4..]).Present?
  }

  /** Where in the data of a request its first exact option starts. */
  function OptionOffset(c: Cmd): nat
    requires Carries(c)
  {
    4 + |JoinOpts(ParseOpts(c.data[4..]).0[..Scan(c.data[4..]).index])|
  }

  /** The request without its first exact option; nothing else in it changes. */
  function Without(c: Cmd): Cmd
    requires Carries(c)
  {
    var (os, rest) := ParseOpts(c.data[4..]);
    var k := Scan(c.data[4..]).index;
    c.(data := c.data[..4] + JoinOpts(os[..k] + os[k + 1..]) + rest)
  }

  /** The packet without the option, when there is one to take out. */
  function Stripped(p: Packet, cid: Option<U16>): Option<Packet> {
    if cid.Some? && cid.value < FIRST_DYNAMIC_CID then None
    else
      match Target(p.commands, cid)
      case None => None
      case Some(k) =>
        TargetIsRequest(p.commands, cid);
        Some(p.(commands := p.commands[k := Without(p.commands[k])]))
  }

  function Strip(s: seq<Byte>, cid: Option<U16>): Option<Packet> {
    match Parse(s)
    case None => None
    case Some(p) => Stripped(p, cid)
  }

  // ----- what the cut does to the bytes

  lemma {:induction false} JoinOptsConcat(x: seq<Opt>, y: seq<Opt>)
    ensures JoinOpts(x + y) == JoinOpts(x) + JoinOpts(y)
  {
    hide OptBytes;
    if x == [] {
      assert x + y == y;
    } else {
      assert (x + y)[0] == x[0] && (x + y)[1..] == x[1..] + y;
      JoinOptsConcat(x[1..], y);
      Associates(OptBytes(x[0]), JoinOpts(x[1..]), JoinOpts(y));
    }
  }
  lemma {:induction false} JoinCmdsConcat(x: seq<Cmd>, y: seq<Cmd>)
    ensures JoinCmds(x + y) == JoinCmds(x) + JoinCmds(y)
  {
    hide CmdBytes;
    if x == [] {
      assert x + y == y;
    } else {
      assert (x + y)[0] == x[0] && (x + y)[1..] == x[1..] + y;
      JoinCmdsConcat(x[1..], y);
      Associates(CmdBytes(x[0]), JoinCmds(x[1..]), JoinCmds(y));
    }
  }
  lemma JoinOne()
    ensures JoinOpts([MHDT]) == [0x7f, 1, 1]
  {
    assert [MHDT][1..] == [];
    assert JoinOpts([MHDT]) == OptBytes(MHDT);
  }

  lemma OptionsAround(os: seq<Opt>, k: nat)
    requires k < |os| && os[k] == MHDT
    ensures JoinOpts(os) == JoinOpts(os[..k]) + ([0x7f, 1, 1] + JoinOpts(os[k + 1..]))
  {
    assert os == os[..k] + ([MHDT] + os[k + 1..]);
    JoinOptsConcat(os[..k], [MHDT] + os[k + 1..]);
    JoinOptsConcat([MHDT], os[k + 1..]);
    JoinOne();
  }

  /** Slices of data built from a head, a part before, three bytes and a part after. */
  lemma CutData(data: seq<Byte>, head: seq<Byte>, before: seq<Byte>, option: seq<Byte>, after: seq<Byte>)
    requires |option| == 3 && data == head + (before + (option + after))
    ensures var cut := |head| + |before|;
            && data[..cut] == head + before
            && data[cut..cut + 3] == option
            && data[cut + 3..] == after
  {
  }

  lemma Regroup(x: seq<Byte>, y: seq<Byte>, z: seq<Byte>, rest: seq<Byte>)
    ensures (x + (y + z)) + rest == x + (y + (z + rest))
  {
  }

  /** The request's data is cut by exactly the three bytes of the option. */
  lemma WithoutBytes(c: Cmd)
    requires Carries(c)
    ensures var cut := OptionOffset(c);
            && cut + 3 <= |c.data|
            && c.data[cut..cut + 3] == [0x7f, 1, 1]
            && Without(c).data == c.data[..cut] + c.data[cut + 3..]
  {
    hide JoinOpts, ParseOpts;
    var (os, rest) := ParseOpts(c.data[4..]);
    var k := Scan(c.data[4..]).index;
    JoinParsedOpts(c.data[4..]);
    OptionsAround(os, k);
    JoinOptsConcat(os[..k], os[k + 1..]);
    var before, between := JoinOpts(os[..k]), JoinOpts(os[k + 1..]);
    Regroup(before, [0x7f, 1, 1], between, rest);
    HeadAndTail(c.data, 4);
    CutData(c.data, c.data[..4], before, [0x7f, 1, 1], between + rest);
    Associates(c.data[..4], before, between + rest);
    Associates(c.data[..4], before + between, rest);
    Associates(before, between, rest);
  }

  lemma HeadAndTail(s: seq<Byte>, n: nat)
    requires n <= |s|
    ensures s == s[..n] + s[n..]
  {
  }

  /** Replacing one command replaces its bytes and nothing else. */
  lemma ReplacedBytes(p: Packet, i: nat, c: Cmd)
    requires i < |p.commands|
    ensures Signalling(p.(commands := p.commands[i := c]))
         == JoinCmds(p.commands[..i]) + (CmdBytes(c) + (JoinCmds(p.commands[i + 1..]) + p.rest))
  {
    var cs := p.commands;
    assert cs[i := c] == cs[..i] + ([c] + cs[i + 1..]);
    JoinCmdsConcat(cs[..i], [c] + cs[i + 1..]);
    JoinCmdsConcat([c], cs[i + 1..]);
    assert [c][1..] == [];
    assert JoinCmds([c]) == CmdBytes(c);
  }

  /** Slices of a payload built from a front, a header, data and a back. */
  lemma CutInside(front: seq<Byte>, header: seq<Byte>, data: seq<Byte>, cut: nat, back: seq<Byte>)
    requires |header| == 4 && cut + 3 <= |data|
    ensures var s, at := front + (header + data + back), |front|;
            && s[..at] == front
            && s[at + 4..at + 4 + cut] == data[..cut]
            && s[at + 4 + cut + 3..] == data[cut + 3..] + back
  {
  }

  /** The three bytes at `option` taken out of the command at `command`, and its length lowered by three. */
  function Cut(s: seq<Byte>, command: nat, option: nat): seq<Byte>
    requires command + 8 <= option <= |s| - 3 && Le16(s[command + 2], s[command + 3]) >= 3
  {
    var length := Le16(s[command + 2], s[command + 3]) - 3;
    s[..command] + (CmdHeader(s[command], s[command + 1], length) + (s[command + 4..option] + s[option + 3..]))
  }

  lemma HeaderInside(front: seq<Byte>, c: Cmd, back: seq<Byte>)
    requires |c.data| < 0x1_0000
    ensures var s, at := front + (CmdBytes(c) + back), |front|;
            && s[at] == c.code && s[at + 1] == c.id
            && Le16(s[at + 2], s[at + 3]) == |c.data|
  {
    var s, at := front + (CmdBytes(c) + back), |front|;
    assert s[at + 2] == Low(|c.data|) && s[at + 3] == High(|c.data|);
    WordBytes(|c.data|);
  }

  /** What the cut does to a command's bytes, wherever they lie. */
  lemma CmdCut(front: seq<Byte>, c: Cmd, back: seq<Byte>)
    requires Carries(c) && |c.data| < 0x1_0000
    ensures var s, command := front + (CmdBytes(c) + back), |front|;
            var option := command + 4 + OptionOffset(c);
            && command + 8 <= option <= |s| - 3
            && Le16(s[command + 2], s[command + 3]) == |c.data| >= 7
            && front + (CmdBytes(Without(c)) + back) == Cut(s, command, option)
  {
    hide ParseOpts, Scan, Low, High;
    var cut, length := OptionOffset(c), |c.data|;
    WithoutBytes(c);
    HeaderInside(front, c, back);
    CutInside(front, CmdHeader(c.code, c.id, length), c.data, cut, back);
    Regroup(CmdHeader(c.code, c.id, length - 3), c.data[..cut], c.data[cut + 3..], back);
  }

  /** The cut in the bytes of a signalling payload is the removal of the option from its command. */
  lemma SignallingCut(p: Packet, s: seq<Byte>, i: nat, command: nat, option: nat)
    requires Signalling(p) == s && i < |p.commands| && Carries(p.commands[i]) && |p.commands[i].data| < 0x1_0000
    requires command == |JoinCmds(p.commands[..i])|
    requires option == command + 4 + OptionOffset(p.commands[i])
    ensures command + 8 <= option <= |s| - 3
    ensures Le16(s[command + 2], s[command + 3]) == |p.commands[i].data| >= 7
    ensures Signalling(p.(commands := p.commands[i := Without(p.commands[i])])) == Cut(s, command, option)
  {
    var c := p.commands[i];
    var front, back := JoinCmds(p.commands[..i]), JoinCmds(p.commands[i + 1..]) + p.rest;
    assert s == front + (CmdBytes(c) + back) by {
      ReplacedBytes(p, i, c);
      assert p.commands[i := c] == p.commands;
    }
    CmdCut(front, c, back);
    ReplacedBytes(p, i, Without(c));
  }
}
