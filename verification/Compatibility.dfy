/** The in-place removal of the mHDT option from an inbound Configuration Request. */
module Compatibility {
  import opened Wire
  import opened L2cap

  /** `payload.copy_within(from..to, at)` with the bytes moving down. */
  method CopyDown(payload: array<Byte>, from: nat, to: nat, at: nat)
    requires at <= from <= to <= payload.Length
    modifies payload
    ensures forall k | 0 <= k < payload.Length ::
              payload[k] == if at <= k < at + (to - from) then old(payload[k + (from - at)]) else old(payload[k])
  {
    forall k | at <= k < at + (to - from) {
      payload[k] := payload[k + (from - at)];
    }
  }

  /** The packet's bytes with the option cut out and the three lengths lowered. */
  function Edited(s: seq<Byte>, command: nat, option: nat, l2capEnd: nat, aclEnd: nat): seq<Byte>
    requires Cuttable(s, command, option, l2capEnd, aclEnd)
  {
    Header(s[..2], aclEnd - 7, l2capEnd - 11) + Cut(s[8..l2capEnd], command - 8, option - 8) + s[l2capEnd..aclEnd]
  }

  /** The search on the bytes has found the option that the search on the parsed packet finds. */
  ghost predicate Located(s: seq<Byte>, cid: Option<U16>, command: nat, option: nat) {
    && Parse(s).Some?
    && var cs := Parse(s).value.commands;
       && Target(cs, cid).Some?
       && var i := Target(cs, cid).value;
          && i < |cs| && Carries(cs[i])
          && command == 8 + |JoinCmds(cs[..i])|
          && option == command + 4 + OptionOffset(cs[i])
  }

  lemma EditedHeader(p: Packet, s: seq<Byte>, command: nat, option: nat, l2capEnd: nat, aclEnd: nat)
    requires Cuttable(s, command, option, l2capEnd, aclEnd)
    requires p.handle == s[..2] && p.gap == s[l2capEnd..aclEnd]
    requires Signalling(p) == Cut(s[8..l2capEnd], command - 8, option - 8)
    ensures Unparse(p) == Edited(s, command, option, l2capEnd, aclEnd)
    ensures |Unparse(p)| == aclEnd - 3
  {
    UnparseIs(p, Cut(s[8..l2capEnd], command - 8, option - 8), aclEnd - 7, l2capEnd - 11);
  }

  lemma EditedSignalling(s: seq<Byte>, p: Packet, i: nat, command: nat, option: nat, l2capEnd: nat, aclEnd: nat)
    requires 8 <= l2capEnd <= aclEnd <= |s| && Signalling(p) == s[8..l2capEnd]
    requires i < |p.commands| && Carries(p.commands[i]) && |p.commands[i].data| < 0x1_0000
    requires command == 8 + |JoinCmds(p.commands[..i])|
    requires option == command + 4 + OptionOffset(p.commands[i])
    ensures Cuttable(s, command, option, l2capEnd, aclEnd)
    ensures Signalling(p.(commands := p.commands[i := Without(p.commands[i])]))
         == Cut(s[8..l2capEnd], command - 8, option - 8)
  {
    var signalling := s[8..l2capEnd];
    SignallingCut(p, signalling, i, command - 8, option - 8);
    assert signalling[command - 6] == s[command + 2] && signalling[command - 5] == s[command + 3];
  }

  /** The edit of the bytes is the removal of the option from the parsed packet. */
  lemma EditedIsStripped(s: seq<Byte>, cid: Option<U16>, command: nat, option: nat)
    requires cid.Some? ==> cid.value >= FIRST_DYNAMIC_CID
    requires Located(s, cid, command, option)
    ensures var (_, l2capEnd, aclEnd) := Bounds(s).value;
            && Cuttable(s, command, option, l2capEnd, aclEnd)
            && Strip(s, cid).Some?
            && |Strip(s, cid).value.handle| == 2
            && Unparse(Strip(s, cid).value) == Edited(s, command, option, l2capEnd, aclEnd)
            && |Unparse(Strip(s, cid).value)| == aclEnd - 3
  {
    UnparseParsed(s);
    ParsedIsParseable(s);
    var (_, l2capEnd, aclEnd) := Bounds(s).value;
    var p, i := Parse(s).value, Target(Parse(s).value.commands, cid).value;
    assert p.commands[i] in p.commands;
    EditedSignalling(s, p, i, command, option, l2capEnd, aclEnd);
    EditedHeader(p.(commands := p.commands[i := Without(p.commands[i])]), s, command, option, l2capEnd, aclEnd);
  }

  // ----- one step of each loop, on the specification

  lemma Slices(s: seq<Byte>, from: nat, end: nat, x: nat, y: nat)
    requires from <= end <= |s| && x <= y <= end - from
    ensures s[from..end][x..y] == s[from + x..from + y]
    ensures s[from..end][x..] == s[from + x..end]
  {
    var part := s[from..end];
    forall k | 0 <= k < y - x
      ensures part[x..y][k] == s[from + x..from + y][k]
    {
      assert part[x..y][k] == part[x + k] == s[from + (x + k)];
    }
  }

  lemma NextJoined(cs: seq<Cmd>, i: nat)
    requires i < |cs|
    ensures |JoinCmds(cs[..i + 1])| == |JoinCmds(cs[..i])| + 4 + |cs[i].data|
  {
    assert cs[..i + 1] == cs[..i] + [cs[i]];
    JoinCmdsConcat(cs[..i], [cs[i]]);
    assert [cs[i]][1..] == [];
  }

  lemma NextOptJoined(os: seq<Opt>, j: nat)
    requires j < |os|
    ensures |JoinOpts(os[..j + 1])| == |JoinOpts(os[..j])| + 2 + |os[j].value|
  {
    assert os[..j + 1] == os[..j] + [os[j]];
    JoinOptsConcat(os[..j], [os[j]]);
    assert [os[j]][1..] == [];
  }

  lemma CommandStep(s: seq<Byte>, command: nat, end: nat, cs: seq<Cmd>, i: nat, rest: seq<Byte>)
    requires command + 4 <= end <= |s| && i <= |cs|
    requires ParseCmds(s[command..end]) == (cs[i..], rest)
    ensures var length := Le16(s[command + 2], s[command + 3]);
            if command + 4 + length > end then cs[i..] == []
            else
              && i < |cs|
              && cs[i] == Cmd(s[command], s[command + 1], s[command + 4..command + 4 + length])
              && ParseCmds(s[command + 4 + length..end]) == (cs[i + 1..], rest)
              && |JoinCmds(cs[..i + 1])| == |JoinCmds(cs[..i])| + 4 + length
  {
    hide ParseCmds, JoinCmds, Le16;
    var length: nat := Le16(s[command + 2], s[command + 3]);
    ParsedAt(s, command, end);
    if command + 4 + length <= end {
      var c := Cmd(s[command], s[command + 1], s[command + 4..command + 4 + length]);
      var (later, _) := ParseCmds(s[command + 4 + length..end]);
      FirstOf(cs, i, c, later);
      NextJoined(cs, i);
    }
  }

  /** Reading at `command`: nothing if no complete command starts there, else that command and what follows it. */
  lemma ParsedAt(s: seq<Byte>, command: nat, end: nat)
    requires command + 4 <= end <= |s|
    ensures var length: nat := Le16(s[command + 2], s[command + 3]);
            if command + 4 + length > end then ParseCmds(s[command..end]).0 == []
            else
              var (later, rest) := ParseCmds(s[command + 4 + length..end]);
              ParseCmds(s[command..end]) == ([Cmd(s[command], s[command + 1], s[command + 4..command + 4 + length])] + later, rest)
  {
    hide JoinCmds;
    var length: nat := Le16(s[command + 2], s[command + 3]);
    if command + 4 + length <= end {
      Slices(s, command, end, 4, 4 + length);
      Slices(s, command, end, 4 + length, end - command);
    }
  }

  lemma FirstOf(cs: seq<Cmd>, i: nat, c: Cmd, later: seq<Cmd>)
    requires i <= |cs| && cs[i..] == [c] + later
    ensures i < |cs| && cs[i] == c && cs[i + 1..] == later
  {
    assert cs[i..][1..] == later;
  }

  lemma OptionStep(s: seq<Byte>, option: nat, end: nat, os: seq<Opt>, j: nat, rest: seq<Byte>)
    requires option + 2 <= end <= |s| && j <= |os|
    requires ParseOpts(s[option..end]) == (os[j..], rest)
    ensures var length := s[option + 1];
            if option + 2 + length > end then os[j..] == [] && rest == s[option..end]
            else
              && j < |os|
              && os[j] == Opt(s[option], s[option + 2..option + 2 + length])
              && ParseOpts(s[option + 2 + length..end]) == (os[j + 1..], rest)
              && |JoinOpts(os[..j + 1])| == |JoinOpts(os[..j])| + 2 + length
  {
    var t, length: nat := s[option..end], s[option + 1];
    if option + 2 + length <= end {
      Slices(s, option, end, 2, 2 + length);
      Slices(s, option, end, 2 + length, end - option);
      assert os[j + 1..] == os[j..][1..];
      NextOptJoined(os, j);
    }
  }

  function Later(found: Option<nat>, n: nat): Option<nat> {
    match found
    case None => None
    case Some(k) => Some(k + n)
  }

  lemma TargetAt(cs: seq<Cmd>, cid: Option<U16>, i: nat)
    requires i < |cs|
    ensures var next := Later(Target(cs[i + 1..], cid), 1);
            Target(cs[i..], cid)
            == if !IsRequest(cs[i], cid) then next
               else match Scan(cs[i].data[4..])
                    case Present(_) => Some(0)
                    case Absent => next
                    case Malformed => None
  {
    assert cs[i..][0] == cs[i] && cs[i..][1..] == cs[i + 1..];
  }

  lemma FirstMhdtAt(os: seq<Opt>, j: nat)
    requires j < |os|
    ensures FirstMhdt(os[j..]) == if os[j] == MHDT then Some(0) else Later(FirstMhdt(os[j + 1..]), 1)
  {
    assert os[j..][0] == os[j] && os[j..][1..] == os[j + 1..];
  }

  // ----- the source's function

  datatype OptionSearch = NoOption | BadOption | OptionAt(at: nat)

  /** The options before `option` are the first `j` of those in `s[start..end]`, none of them exact. */
  ghost predicate OptionsLeft(s: seq<Byte>, start: nat, option: nat, end: nat, j: nat)
    requires start <= end <= |s|
  {
    var (os, rest) := ParseOpts(s[start..end]);
    && j <= |os| && start <= option <= end
    && option == start + |JoinOpts(os[..j])|
    && ParseOpts(s[option..end]) == (os[j..], rest)
    && FirstMhdt(os) == Later(FirstMhdt(os[j..]), j)
  }

  /** `found` is the answer of the specification's scan of `s[start..end]`. */
  ghost predicate Finds(s: seq<Byte>, start: nat, end: nat, found: OptionSearch)
    requires start <= end <= |s|
  {
    var options := s[start..end];
    match Scan(options)
    case Absent => found == NoOption
    case Malformed => found == BadOption
    case Present(k) => found == OptionAt(start + |JoinOpts(ParseOpts(options).0[..k])|)
  }

  lemma OptionsStart(s: seq<Byte>, start: nat, end: nat)
    requires start <= end <= |s|
    ensures OptionsLeft(s, start, start, end, 0)
  {
    var os := ParseOpts(s[start..end]).0;
    assert os[..0] == [] && os[0..] == os;
  }

  lemma OptionsBroken(s: seq<Byte>, start: nat, option: nat, end: nat, j: nat)
    requires start <= end <= |s| && OptionsLeft(s, start, option, end, j) && option + 2 <= end
    requires option + 2 + s[option + 1] as int > end
    ensures Finds(s, start, end, BadOption)
  {
    var (os, rest) := ParseOpts(s[start..end]);
    OptionStep(s, option, end, os, j, rest);
  }

  lemma LaterTwice(found: Option<nat>, n: nat)
    ensures Later(Later(found, 1), n) == Later(found, n + 1)
    ensures Later(Some(0), n) == Some(n)
  {
  }

  lemma OptionsNext(s: seq<Byte>, start: nat, option: nat, end: nat, j: nat)
    requires start <= end <= |s| && OptionsLeft(s, start, option, end, j) && option + 2 <= end
    requires option + 2 + s[option + 1] as int <= end
    ensures var os := ParseOpts(s[start..end]).0;
            && j < |os|
            && os[j] == Opt(s[option], s[option + 2..option + 2 + s[option + 1] as int])
            && FirstMhdt(os) == (if os[j] == MHDT then Some(j) else Later(FirstMhdt(os[j + 1..]), j + 1))
  {
    hide ParseOpts, JoinOpts, FirstMhdt, Later;
    var (os, rest) := ParseOpts(s[start..end]);
    assert ParseOpts(s[option..end]) == (os[j..], rest) && FirstMhdt(os) == Later(FirstMhdt(os[j..]), j);
    OptionStep(s, option, end, os, j, rest);
    FirstMhdtAt(os, j);
    LaterTwice(FirstMhdt(os[j + 1..]), j);
  }

  lemma OptionsSkip(s: seq<Byte>, start: nat, option: nat, end: nat, j: nat)
    requires start <= end <= |s| && OptionsLeft(s, start, option, end, j) && option + 2 <= end
    requires option + 2 + s[option + 1] as int <= end
    requires Opt(s[option], s[option + 2..option + 2 + s[option + 1] as int]) != MHDT
    ensures OptionsLeft(s, start, option + 2 + s[option + 1] as int, end, j + 1)
  {
    hide ParseOpts, JoinOpts, FirstMhdt;
    OptionsNext(s, start, option, end, j);
    var (os, rest) := ParseOpts(s[start..end]);
    OptionStep(s, option, end, os, j, rest);
  }

  lemma OptionIsExact(s: seq<Byte>, option: nat)
    requires option + 2 <= |s| && option + 2 + s[option + 1] as int <= |s|
    ensures Opt(s[option], s[option + 2..option + 2 + s[option + 1] as int]) == MHDT
        <==> s[option] == 0x7f && s[option + 1] == 1 && s[option + 2] == 1
  {
    var o := Opt(s[option], s[option + 2..option + 2 + s[option + 1] as int]);
    if s[option] == 0x7f && s[option + 1] == 1 && s[option + 2] == 1 {
      assert o.value == [1];
    }
    if o == MHDT {
      assert |o.value| == 1 && o.value[0] == 1;
    }
  }

  /** What the loop's three exits mean. */
  lemma OptionsFound(s: seq<Byte>, start: nat, option: nat, end: nat, j: nat)
    requires start <= end <= |s| && OptionsLeft(s, start, option, end, j) && option + 2 <= end
    requires option + 2 + s[option + 1] as int <= end
    ensures if s[option] == 0x7f && s[option + 1] == 1 && s[option + 2] == 1 then
              Finds(s, start, end, OptionAt(option))
            else OptionsLeft(s, start, option + 2 + s[option + 1] as int, end, j + 1)
  {
    OptionsNext(s, start, option, end, j);
    OptionIsExact(s, option);
    if Opt(s[option], s[option + 2..option + 2 + s[option + 1] as int]) != MHDT {
      OptionsSkip(s, start, option, end, j);
    }
  }

  lemma OptionsEnd(s: seq<Byte>, start: nat, option: nat, end: nat, j: nat)
    requires start <= end <= |s| && OptionsLeft(s, start, option, end, j) && option + 2 > end
    ensures Finds(s, start, end, NoOption)
  {
  }

  /** The inner loop: where the first exact option of one request starts. */
  method FindOption(payload: array<Byte>, command: nat, commandEnd: nat) returns (found: OptionSearch)
    requires command + 8 <= commandEnd <= payload.Length
    ensures Finds(payload[..], command + 8, commandEnd, found)
  {
    hide Finds, OptionsLeft;
    ghost var s, j := payload[..], 0;
    var start := command + 8;
    OptionsStart(s, start, commandEnd);
    var option := start;
    while option + 2 <= commandEnd
      invariant OptionsLeft(s, start, option, commandEnd, j)
      decreases commandEnd - option
    {
      var optionLength := payload[option + 1];
      var optionEnd := option + 2 + optionLength as int;
      if optionEnd > commandEnd {
        OptionsBroken(s, start, option, commandEnd, j);
        return BadOption;
      }
      OptionsFound(s, start, option, commandEnd, j);
      if payload[option] == 0x7f && payload[option + 1] == 1 && payload[option + 2] == 1 {
        return OptionAt(option);
      }
      option := optionEnd;
      j := j + 1;
    }
    OptionsEnd(s, start, option, commandEnd, j);
    found := NoOption;
  }

  /** Where an option of a packet may be cut: inside a command, inside the L2CAP payload. */
  predicate Cuttable(s: seq<Byte>, command: nat, option: nat, l2capEnd: nat, aclEnd: nat) {
    && 8 <= command && command + 8 <= option && option + 3 <= l2capEnd <= aclEnd <= |s|
    && Le16(s[command + 2], s[command + 3]) >= 3
  }

  /** The byte at `k` once the gap is closed and the freed tail cleared. */
  function Closed(s: seq<Byte>, option: nat, aclEnd: nat, k: nat): Byte
    requires option + 3 <= aclEnd <= |s| && k < |s|
  {
    if option <= k < aclEnd - 3 then s[k + 3] else if aclEnd - 3 <= k < aclEnd then 0 else s[k]
  }

  /** The byte at `k` once the three lengths are repaired as well. */
  function Repaired(s: seq<Byte>, command: nat, option: nat, l2capEnd: nat, aclEnd: nat, k: nat): Byte
    requires Cuttable(s, command, option, l2capEnd, aclEnd) && k < |s|
  {
    var length := Le16(s[command + 2], s[command + 3]) - 3;
    if k == 2 then Low(aclEnd - 7) else if k == 3 then High(aclEnd - 7)
    else if k == 4 then Low(l2capEnd - 11) else if k == 5 then High(l2capEnd - 11)
    else if k == command + 2 then Low(length) else if k == command + 3 then High(length)
    else Closed(s, option, aclEnd, k)
  }

  function WithLe16(s: seq<Byte>, at: nat, value: nat): (t: seq<Byte>)
    requires at + 2 <= |s|
    ensures |t| == |s|
    ensures forall k | 0 <= k < |s| ::
              t[k] == if k == at then Low(value) else if k == at + 1 then High(value) else s[k]
  {
    s[at := Low(value)][at + 1 := High(value)]
  }

  lemma LengthsPut(s: seq<Byte>, t: seq<Byte>, v: seq<Byte>, w: seq<Byte>, u: seq<Byte>,
                   command: nat, option: nat, l2capEnd: nat, aclEnd: nat)
    requires Cuttable(s, command, option, l2capEnd, aclEnd)
    requires |t| == |s| && forall k | 0 <= k < |s| :: t[k] == Closed(s, option, aclEnd, k)
    requires v == WithLe16(t, command + 2, Le16(s[command + 2], s[command + 3]) - 3)
    requires w == WithLe16(v, 4, l2capEnd - 11)
    requires u == WithLe16(w, 2, aclEnd - 7)
    ensures |u| == |s| && forall k | 0 <= k < |s| :: u[k] == Repaired(s, command, option, l2capEnd, aclEnd, k)
  {
    forall k | 0 <= k < |s|
      ensures u[k] == Repaired(s, command, option, l2capEnd, aclEnd, k)
    {
      assert v[k] == if k == command + 2 || k == command + 3 then Repaired(s, command, option, l2capEnd, aclEnd, k) else t[k];
    }
  }

  /** `payload[at..at + 2].copy_from_slice(&value.to_le_bytes())`. */
  method PutLe16(payload: array<Byte>, at: nat, value: nat)
    requires at + 2 <= payload.Length
    modifies payload
    ensures payload[..] == WithLe16(old(payload[..]), at, value)
  {
    payload[at] := Low(value);
    payload[at + 1] := High(value);
  }

  method CloseGap(payload: array<Byte>, option: nat, aclEnd: nat)
    requires option + 3 <= aclEnd <= payload.Length
    modifies payload
    ensures forall k | 0 <= k < payload.Length :: payload[..][k] == Closed(old(payload[..]), option, aclEnd, k)
  {
    CopyDown(payload, option + 3, aclEnd, option);
    Clear(payload, aclEnd - 3, aclEnd);
  }

  /** The edit itself: close the gap, clear the freed tail, and repair the three lengths. */
  method TakeOut(payload: array<Byte>, command: nat, option: nat, l2capEnd: nat, aclEnd: nat)
    requires Cuttable(payload[..], command, option, l2capEnd, aclEnd)
    requires aclEnd == 4 + Le16(payload[2], payload[3]) as int && l2capEnd == 8 + Le16(payload[4], payload[5]) as int
    requires payload[6] == 1 && payload[7] == 0
    modifies payload
    ensures payload[..] == Edited(old(payload[..]), command, option, l2capEnd, aclEnd) + [0, 0, 0] + old(payload[..])[aclEnd..]
  {
    ghost var s := payload[..];
    var commandLength: nat := Le16(payload[command + 2], payload[command + 3]);
    var l2capLength: nat := Le16(payload[4], payload[5]);
    var aclLength: nat := Le16(payload[2], payload[3]);
    CloseGap(payload, option, aclEnd);
    ghost var t := payload[..];
    PutLe16(payload, command + 2, commandLength - 3);
    ghost var v := payload[..];
    PutLe16(payload, 4, l2capLength - 3);
    ghost var w := payload[..];
    PutLe16(payload, 2, aclLength - 3);
    LengthsPut(s, t, v, w, payload[..], command, option, l2capEnd, aclEnd);
    RepairedIsEdited(s, payload[..], command, option, l2capEnd, aclEnd);
  }

  lemma RepairedIsEdited(s: seq<Byte>, u: seq<Byte>, command: nat, option: nat, l2capEnd: nat, aclEnd: nat)
    requires Cuttable(s, command, option, l2capEnd, aclEnd) && s[6] == 1 && s[7] == 0
    requires |u| == |s| && forall k | 0 <= k < |s| :: u[k] == Repaired(s, command, option, l2capEnd, aclEnd, k)
    ensures u == Edited(s, command, option, l2capEnd, aclEnd) + [0, 0, 0] + s[aclEnd..]
  {
    var e := Edited(s, command, option, l2capEnd, aclEnd);
    EditedBytes(s, command, option, l2capEnd, aclEnd);
    forall k | 0 <= k < aclEnd - 3
      ensures u[k] == e[k]
    {
    }
    assert u[..aclEnd - 3] == e;
    assert u[aclEnd - 3..aclEnd] == [0, 0, 0];
    assert u[aclEnd..] == s[aclEnd..];
    assert u == u[..aclEnd - 3] + u[aclEnd - 3..aclEnd] + u[aclEnd..];
  }

  lemma CutBytes(s: seq<Byte>, command: nat, option: nat, l2capEnd: nat, aclEnd: nat)
    requires Cuttable(s, command, option, l2capEnd, aclEnd)
    ensures var middle := Cut(s[8..l2capEnd], command - 8, option - 8);
            && |middle| == l2capEnd - 11
            && forall k | 8 <= k < l2capEnd - 3 :: middle[k - 8] == Repaired(s, command, option, l2capEnd, aclEnd, k)
  {
    hide Low, High, Le16;
    var t, c, o := s[8..l2capEnd], command - 8, option - 8;
    var middle := Cut(t, c, o);
    assert t[c + 2] == s[command + 2] && t[c + 3] == s[command + 3];
    assert forall j | 0 <= j < c :: middle[j] == t[j];
    assert forall j | c + 4 <= j < o :: middle[j] == t[j];
    assert forall j | o <= j < |middle| :: middle[j] == t[j + 3];
  }

  /** The edited packet byte by byte. */
  lemma EditedBytes(s: seq<Byte>, command: nat, option: nat, l2capEnd: nat, aclEnd: nat)
    requires Cuttable(s, command, option, l2capEnd, aclEnd) && s[6] == 1 && s[7] == 0
    ensures var e := Edited(s, command, option, l2capEnd, aclEnd);
            && |e| == aclEnd - 3
            && forall k | 0 <= k < aclEnd - 3 :: e[k] == Repaired(s, command, option, l2capEnd, aclEnd, k)
  {
    hide Le16, Low, High;
    var h, middle := Header(s[..2], aclEnd - 7, l2capEnd - 11), Cut(s[8..l2capEnd], command - 8, option - 8);
    CutBytes(s, command, option, l2capEnd, aclEnd);
    var e := Edited(s, command, option, l2capEnd, aclEnd);
    assert forall k | 8 <= k < l2capEnd - 3 :: e[k] == middle[k - 8];
    assert forall k | l2capEnd - 3 <= k < aclEnd - 3 :: e[k] == s[k + 3];
    assert h == [s[0], s[1], Low(aclEnd - 7), High(aclEnd - 7), Low(l2capEnd - 11), High(l2capEnd - 11), s[6], s[7]];
  }

  /** The commands before `command` are the first `i`, and the target is not among them. */
  ghost predicate CommandsLeft(s: seq<Byte>, cid: Option<U16>, command: nat, i: nat) {
    && Parse(s).Some?
    && var cs := Parse(s).value.commands;
       var end := Bounds(s).value.1;
       && i <= |cs| && 8 <= command <= end <= |s|
       && command == 8 + |JoinCmds(cs[..i])|
       && ParseCmds(s[command..end]) == (cs[i..], Parse(s).value.rest)
       && Target(cs, cid) == Later(Target(cs[i..], cid), i)
  }

  lemma CommandsStart(s: seq<Byte>, cid: Option<U16>)
    requires Parse(s).Some?
    ensures CommandsLeft(s, cid, 8, 0)
  {
    HeaderParsed(s);
    var cs := Parse(s).value.commands;
    assert cs[..0] == [] && cs[0..] == cs;
  }

  ghost predicate NoTarget(s: seq<Byte>, cid: Option<U16>) {
    Parse(s).Some? && Target(Parse(s).value.commands, cid) == None
  }

  lemma CommandsEnd(s: seq<Byte>, cid: Option<U16>, command: nat, i: nat)
    requires CommandsLeft(s, cid, command, i)
    requires var end := Bounds(s).value.1;
             command + 4 > end || command + 4 + Le16(s[command + 2], s[command + 3]) as int > end
    ensures NoTarget(s, cid)
  {
    var end := Bounds(s).value.1;
    if command + 4 <= end {
      CommandStep(s, command, end, Parse(s).value.commands, i, Parse(s).value.rest);
    }
  }

  /** The complete command at `command`. */
  function CmdAt(s: seq<Byte>, command: nat): Cmd
    requires command + 4 <= |s| && command + 4 + Le16(s[command + 2], s[command + 3]) as int <= |s|
  {
    Cmd(s[command], s[command + 1], s[command + 4..command + 4 + Le16(s[command + 2], s[command + 3]) as int])
  }

  lemma CommandHere(s: seq<Byte>, cid: Option<U16>, command: nat, i: nat)
    requires CommandsLeft(s, cid, command, i)
    requires command + 4 <= Bounds(s).value.1
    requires command + 4 + Le16(s[command + 2], s[command + 3]) as int <= Bounds(s).value.1
    ensures var cs := Parse(s).value.commands;
            && i < |cs| && cs[i] == CmdAt(s, command)
            && Target(cs, cid) ==
                 var next := Later(Target(cs[i + 1..], cid), i + 1);
                 if !IsRequest(cs[i], cid) then next
                 else match Scan(cs[i].data[4..])
                      case Present(_) => Some(i)
                      case Absent => next
                      case Malformed => None
  {
    hide ParseCmds, JoinCmds, Scan, ParseOpts, Bounds;
    var cs := Parse(s).value.commands;
    CommandStep(s, command, Bounds(s).value.1, cs, i, Parse(s).value.rest);
    TargetAt(cs, cid, i);
  }

  lemma CommandsSkip(s: seq<Byte>, cid: Option<U16>, command: nat, i: nat)
    requires CommandsLeft(s, cid, command, i)
    requires command + 4 <= Bounds(s).value.1
    requires command + 4 + Le16(s[command + 2], s[command + 3]) as int <= Bounds(s).value.1
    requires !IsRequest(CmdAt(s, command), cid) || Scan(CmdAt(s, command).data[4..]).Absent?
    ensures CommandsLeft(s, cid, command + 4 + Le16(s[command + 2], s[command + 3]) as int, i + 1)
  {
    CommandHere(s, cid, command, i);
    CommandStep(s, command, Bounds(s).value.1, Parse(s).value.commands, i, Parse(s).value.rest);
  }

  lemma RequestData(s: seq<Byte>, cid: Option<U16>, command: nat)
    requires command + 4 <= |s| && command + 4 + Le16(s[command + 2], s[command + 3]) as int <= |s|
    ensures var length, c := Le16(s[command + 2], s[command + 3]), CmdAt(s, command);
            && (IsRequest(c, cid) <==>
                  && s[command] == CONFIGURATION_REQUEST && length >= 4
                  && Le16(s[command + 4], s[command + 5]) > 0x3f
                  && (cid == None || Le16(s[command + 4], s[command + 5]) == cid.value)
                  && Le16(s[command + 6], s[command + 7]) == 0)
            && (length >= 4 ==> c.data[4..] == s[command + 8..command + 4 + length as int])
  {
  }

  lemma RequestFound(s: seq<Byte>, cid: Option<U16>, command: nat, i: nat, found: OptionSearch)
    requires CommandsLeft(s, cid, command, i)
    requires command + 4 <= Bounds(s).value.1
    requires command + 4 + Le16(s[command + 2], s[command + 3]) as int <= Bounds(s).value.1
    requires IsRequest(CmdAt(s, command), cid)
    requires Finds(s, command + 8, command + 4 + Le16(s[command + 2], s[command + 3]) as int, found)
    ensures match found
            case BadOption => NoTarget(s, cid)
            case OptionAt(at) => Located(s, cid, command, at)
            case NoOption => Scan(CmdAt(s, command).data[4..]).Absent?
  {
    CommandHere(s, cid, command, i);
    RequestData(s, cid, command);
  }

  /** The outer loop: the request to edit and its option, if there is one. */
  method FindRequest(payload: array<Byte>, localCid: Option<U16>, l2capEnd: nat) returns (found: Option<(nat, nat)>)
    requires Parse(payload[..]).Some? && l2capEnd == Bounds(payload[..]).value.1
    ensures match found
            case None => NoTarget(payload[..], localCid)
            case Some((command, option)) => Located(payload[..], localCid, command, option)
  {
    hide CommandsLeft, NoTarget, Located, Finds, Scan, ParseCmds, IsRequest, CmdAt, Bounds;
    ghost var s, i := payload[..], 0;
    var command := 8;
    CommandsStart(s, localCid);
    while command + 4 <= l2capEnd
      invariant CommandsLeft(s, localCid, command, i)
      decreases l2capEnd - command
    {
      var commandEnd := command + 4 + Le16(payload[command + 2], payload[command + 3]) as int;
      if commandEnd > l2capEnd {
        CommandsEnd(s, localCid, command, i);
        return None;
      }
      RequestData(s, localCid, command);
      if payload[command] == CONFIGURATION_REQUEST && commandEnd >= command + 8 {
        var destinationCid := Le16(payload[command + 4], payload[command + 5]);
        var flags := Le16(payload[command + 6], payload[command + 7]);
        if destinationCid > 0x3f && (localCid == None || destinationCid == localCid.value) && flags == 0 {
          var option := FindOption(payload, command, commandEnd);
          RequestFound(s, localCid, command, i, option);
          match option {
            case BadOption => return None;
            case NoOption =>
            case OptionAt(at) => return Some((command, at));
          }
        }
      }
      CommandsSkip(s, localCid, command, i);
      command := commandEnd;
      i := i + 1;
    }
    CommandsEnd(s, localCid, command, i);
    found := None;
  }

  /** What a call leaves behind: nothing changed, or the packet rebuilt without the option. */
  ghost predicate Rewritten(s: seq<Byte>, cid: Option<U16>, t: seq<Byte>, length: Option<nat>) {
    match Strip(s, cid)
    case None => length == None && t == s
    case Some(p) =>
      var aclEnd := Bounds(s).value.2;
      && 3 <= aclEnd <= |s|
      && length == Some(aclEnd - 3)
      && |p.handle| == 2 && |Unparse(p)| == aclEnd - 3
      && t == Unparse(p) + [0, 0, 0] + s[aclEnd..]
  }

  lemma NothingToStrip(s: seq<Byte>, cid: Option<U16>)
    requires Bounds(s) == None || NoTarget(s, cid) || (cid.Some? && cid.value <= 0x3f)
    ensures Rewritten(s, cid, s, None)
  {
  }

  lemma BoundsAreLengths(s: seq<Byte>)
    requires Bounds(s).Some?
    ensures var (start, l2capEnd, aclEnd) := Bounds(s).value;
            && 8 <= |s| && aclEnd == 4 + Le16(s[2], s[3]) as int && l2capEnd == 8 + Le16(s[4], s[5]) as int
            && start == 8 <= l2capEnd <= aclEnd <= |s| && s[6] == 1 && s[7] == 0
  {
  }

  method StripMatching(payload: array<Byte>, localCid: Option<U16>) returns (length: Option<nat>)
    modifies payload
    ensures Rewritten(old(payload[..]), localCid, payload[..], length)
  {
    hide NoTarget, Located, Edited, Unparse, Cuttable, Bounds, Strip, Le16, ParseCmds;
    ghost var s := payload[..];
    if localCid.Some? && localCid.value <= 0x3f {
      NothingToStrip(s, localCid);
      return None;
    }
    var bounds := Bounds(payload[..]);
    if bounds == None {
      NothingToStrip(s, localCid);
      return None;
    }
    var (_, l2capEnd, aclEnd) := bounds.value;
    BoundsAreLengths(s);
    var found := FindRequest(payload, localCid, l2capEnd);
    match found {
      case None =>
        NothingToStrip(s, localCid);
        length := None;
      case Some((command, option)) =>
        EditedIsStripped(s, localCid, command, option);
        TakeOut(payload, command, option, l2capEnd, aclEnd);
        length := Some(aclEnd - 3);
    }
  }

  method StripOption(payload: array<Byte>, localCid: U16) returns (length: Option<nat>)
    modifies payload
    ensures Rewritten(old(payload[..]), Some(localCid), payload[..], length)
  {
    length := StripMatching(payload, Some(localCid));
  }

  method StripOptionAnyCid(payload: array<Byte>) returns (length: Option<nat>)
    modifies payload
    ensures Rewritten(old(payload[..]), None, payload[..], length)
  {
    length := StripMatching(payload, None);
  }

  // ----- main results

  /** Reading the shortened request finds the same options but the first exact one, and the same fields. */
  lemma RequestLosesOneOption(c: Cmd, cid: Option<U16>)
    requires IsRequest(c, cid) && Carries(c)
    ensures var (os, rest) := ParseOpts(c.data[4..]);
            var k := Scan(c.data[4..]).index;
            var c' := Without(c);
            && c.code == c'.code == 0x04 && IsRequest(c', cid) && c'.id == c.id && |c'.data| == |c.data| - 3 && c'.data[..4] == c.data[..4]
            && os[k] == Opt(0x7f, [1]) && os[k] !in os[..k]
            && ParseOpts(c'.data[4..]) == (os[..k] + os[k + 1..], rest)
  {
    hide JoinOpts, ParseOpts;
    var (os, rest) := ParseOpts(c.data[4..]);
    var k := Scan(c.data[4..]).index;
    JoinParsedOpts(c.data[4..]);
    FirstMhdtIsFirst(os);
    ParseJoinedOpts(os[..k] + os[k + 1..], rest);
    var head, tail := c.data[..4], JoinOpts(os[..k] + os[k + 1..]) + rest;
    Associates(head, JoinOpts(os[..k] + os[k + 1..]), rest);
    assert Without(c).data == head + tail;
    SameHead(head, tail, c.data);
    WithoutShorter(c);
  }

  /** A Configuration Request (code 4) with flags zero, sent to a dynamic channel, to `cid` if one is given. */
  predicate Configures(c: Cmd, cid: Option<U16>) {
    && c.code == 0x04 && |c.data| >= 4 && c.data[2..4] == [0, 0]
    && var destination: nat := c.data[0] as int + 256 * c.data[1] as int;
       destination >= 0x40 && (cid.Some? ==> destination == cid.value)
  }

  predicate CarriesMhdt(c: Cmd) {
    |c.data| >= 4 && Opt(0x7f, [1]) in ParseOpts(c.data[4..]).0
  }

  /** Its options make up the whole request, but for a single byte at most. */
  predicate OptionsWhole(c: Cmd) {
    |c.data| >= 4 && |ParseOpts(c.data[4..]).1| < 2
  }

  /**
   * The command edited is the first Configuration Request for the channel that carries the option 7F 01 01, provided the
   * options of those before it are well-formed.
   */
  lemma {:induction false} TargetExactly(cs: seq<Cmd>, cid: Option<U16>, k: nat)
    ensures Target(cs, cid) == Some(k) <==>
              && k < |cs| && Configures(cs[k], cid) && CarriesMhdt(cs[k])
              && forall j | 0 <= j < k :: Configures(cs[j], cid) ==> !CarriesMhdt(cs[j]) && OptionsWhole(cs[j])
  {
    hide ParseOpts;
    if cs != [] {
      RequestConfigures(cs[0], cid);
      if k > 0 {
        TargetExactly(cs[1..], cid, k - 1);
      }
    }
  }

  lemma RequestConfigures(c: Cmd, cid: Option<U16>)
    ensures IsRequest(c, cid) <==> Configures(c, cid)
    ensures |c.data| >= 4 ==>
              && (Scan(c.data[4..]).Present? <==> CarriesMhdt(c))
              && (Scan(c.data[4..]).Absent? <==> !CarriesMhdt(c) && OptionsWhole(c))
  {
    if |c.data| >= 4 {
      var os := ParseOpts(c.data[4..]).0;
      FirstMhdtIsFirst(os);
      assert c.data[2..4] == [c.data[2], c.data[3]];
    }
  }

  lemma SameHead(head: seq<Byte>, tail: seq<Byte>, data: seq<Byte>)
    requires |head| == 4 && |data| >= 4 && head == data[..4]
    ensures (head + tail)[..4] == head && (head + tail)[4..] == tail
    ensures forall k | 0 <= k < 4 :: (head + tail)[k] == data[k]
  {
  }

  lemma StrippedParseable(s: seq<Byte>, cid: Option<U16>)
    requires Strip(s, cid).Some?
    ensures Parseable(Strip(s, cid).value)
  {
    hide Unparse, ParseCmds, ParseOpts, Scan, Carries, Without, OptionOffset, Bounds;
    var p := Parse(s).value;
    ParsedIsParseable(s);
    TargetIsRequest(p.commands, cid);
    var k := Target(p.commands, cid).value;
    var c := p.commands[k];
    assert c in p.commands;
    WithoutShorter(c);
    ReplacedBytes(p, k, c);
    ReplacedBytes(p, k, Without(c));
    assert p.commands[k := c] == p.commands;
  }

  lemma WithoutShorter(c: Cmd)
    requires Carries(c)
    ensures |Without(c).data| == |c.data| - 3
  {
    WithoutBytes(c);
  }

  /**
   * Whenever a call reports a length: reading the payload again, up to that length or with anything
   * after it, gives the packet read before with one command shortened as above and every other
   * field, command and byte the same; the three freed bytes are zero, and nothing beyond the old
   * packet has changed. Otherwise the payload is untouched.
   */
  lemma RewritePreservesMeaning(s: seq<Byte>, cid: Option<U16>, t: seq<Byte>, length: Option<nat>)
    requires Rewritten(s, cid, t, length)
    ensures length.None? ==> t == s
    ensures length.Some? ==>
              && Parse(s).Some? && Target(Parse(s).value.commands, cid).Some?
              && var p, k, n := Parse(s).value, Target(Parse(s).value.commands, cid).value, length.value;
                 && k < |p.commands| && IsRequest(p.commands[k], cid) && Carries(p.commands[k])
                 && |t| == |s| && n + 3 <= |s| && Bounds(s).value.2 == n + 3 && Bounds(t).Some? && Bounds(t).value.2 == n
                 && Parse(t) == Parse(t[..n]) == Some(p.(commands := p.commands[k := Without(p.commands[k])]))
                 && t[n..n + 3] == [0, 0, 0] && t[n + 3..] == s[n + 3..]
  {
    if length.Some? {
      TargetIsRequest(Parse(s).value.commands, cid);
      StrippedParseable(s, cid);
      var p, n := Strip(s, cid).value, length.value;
      Rereads(p, n, s[n + 3..], t);
    }
  }

  lemma Rereads(p: Packet, n: nat, beyond: seq<Byte>, t: seq<Byte>)
    requires Parseable(p) && |Unparse(p)| == n && t == Unparse(p) + [0, 0, 0] + beyond
    ensures Parse(t) == Parse(t[..n]) == Some(p)
    ensures Bounds(t).Some? && Bounds(t).value.2 == n
    ensures t[n..n + 3] == [0, 0, 0] && t[n + 3..] == beyond
  {
    hide ParseCmds, Bounds;
    ParseUnparsed(p, [0, 0, 0] + beyond);
    ParseUnparsed(p, []);
    assert t == Unparse(p) + ([0, 0, 0] + beyond);
    assert t[..n] == Unparse(p) + [];
    EndsAt(p, [0, 0, 0] + beyond);
  }

  lemma EndsAt(p: Packet, beyond: seq<Byte>)
    requires Parseable(p)
    ensures Bounds(Unparse(p) + beyond) == Some((8, 8 + |Signalling(p)|, |Unparse(p)|))
  {
    hide ParseCmds, Bounds;
    var signalling := Signalling(p);
    HeaderBounds(p.handle, |signalling|, |p.gap|, signalling + p.gap + beyond);
    assert Unparse(p) + beyond
        == Header(p.handle, 4 + |signalling| + |p.gap|, |signalling|) + (signalling + p.gap + beyond);
  }

  lemma {:induction false} TargetOfItsOwnCid(cs: seq<Cmd>)
    requires Target(cs, None).Some?
    ensures var k := Target(cs, None).value;
            && k < |cs| && |cs[k].data| >= 4
            && Le16(cs[k].data[0], cs[k].data[1]) >= FIRST_DYNAMIC_CID
            && Target(cs, Some(Le16(cs[k].data[0], cs[k].data[1]))) == Some(k)
  {
    TargetIsRequest(cs, None);
    if Target(cs, None).value > 0 {
      TargetOfItsOwnCid(cs[1..]);
    }
  }

  /** A rewrite that ignores the channel is the rewrite for the channel of the request it edited. */
  lemma AnyCidIsThatCid(s: seq<Byte>)
    requires Strip(s, None).Some?
    ensures var cs := Parse(s).value.commands;
            var k := Target(cs, None).value;
            && k < |cs| && |cs[k].data| >= 4
            && Strip(s, Some(Le16(cs[k].data[0], cs[k].data[1]))) == Strip(s, None)
  {
    TargetOfItsOwnCid(Parse(s).value.commands);
  }
}
