/** The remembered-headset record: 84 bytes with an FNV-1a check word. */
module Peer {
  import opened Wire
  import Slots

  const RECORD_SIZE: nat := 84
  const NAME_CAPACITY: nat := 64
  const MAGIC: seq<Byte> := [0x42, 0x41, 0x50, 0x31]

  /** What `as_str` shows for a name that is not UTF-8: four CJK characters, twelve bytes. */
  const FALLBACK_NAME: seq<Byte> := [0xe6, 0x9c, 0xaa, 0xe7, 0x9f, 0xa5, 0xe8, 0x80, 0xb3, 0xe6, 0x9c, 0xba]

  datatype Bond = Unknown | NotBonded | Bonding | Bonded | BondFailed

  datatype Peer = Peer(address: seq<Byte>, name: seq<Byte>, rssi: int, classOfDevice: U32, bond: Bond)

  // ----- names

  /** The bytes kept of a reported name: at most 64, without trailing NULs. */
  function NameFrom(bytes: seq<Byte>): (name: seq<Byte>)
    ensures |name| <= NAME_CAPACITY && name <= bytes
    ensures name != [] ==> name[|name| - 1] != 0
  {
    TrimNuls(bytes[..Min(|bytes|, NAME_CAPACITY)])
  }

  function TrimNuls(bytes: seq<Byte>): (name: seq<Byte>)
    ensures name <= bytes
    ensures name != [] ==> name[|name| - 1] != 0
    ensures forall k | |name| <= k < |bytes| :: bytes[k] == 0
  {
    if bytes != [] && bytes[|bytes| - 1] == 0 then TrimNuls(bytes[..|bytes| - 1]) else bytes
  }

  /** Continuation byte, 80..BF. */
  predicate Continues(b: Byte) {
    0x80 <= b < 0xc0
  }

  /** Bytes of the first well-formed UTF-8 sequence of `s`, 0 if there is none (Unicode table 3-7). */
  function SequenceLength(s: seq<Byte>): (n: nat)
    ensures n <= |s|
  {
    if s == [] then 0
    else if s[0] < 0x80 then 1
    else if 0xc2 <= s[0] < 0xe0 && |s| >= 2 && Continues(s[1]) then 2
    else if 0xe0 <= s[0] < 0xf0 && |s| >= 3 && Continues(s[1]) && Continues(s[2])
         && (s[0] == 0xe0 ==> s[1] >= 0xa0) && (s[0] == 0xed ==> s[1] < 0xa0) then 3
    else if 0xf0 <= s[0] < 0xf5 && |s| >= 4 && Continues(s[1]) && Continues(s[2]) && Continues(s[3])
         && (s[0] == 0xf0 ==> s[1] >= 0x90) && (s[0] == 0xf4 ==> s[1] < 0x90) then 4
    else 0
  }

  predicate IsUtf8(s: seq<Byte>) {
    s == [] || (SequenceLength(s) > 0 && IsUtf8(s[SequenceLength(s)..]))
  }

  /** A Unicode scalar value: a code point that is no surrogate. */
  predicate IsScalar(c: nat) {
    c < 0xd800 || 0xe000 <= c < 0x11_0000
  }

  /** A scalar value in UTF-8 (RFC 3629, section 3). */
  function Utf8(c: nat): (bytes: seq<Byte>)
    requires IsScalar(c)
    ensures 1 <= |bytes| <= 4
  {
    if c < 0x80 then [c]
    else if c < 0x800 then [0xc0 + c / 64, 0x80 + c % 64]
    else if c < 0x1_0000 then [0xe0 + c / 4096, 0x80 + c / 64 % 64, 0x80 + c % 64]
    else [0xf0 + c / 0x4_0000, 0x80 + c / 4096 % 64, 0x80 + c / 64 % 64, 0x80 + c % 64]
  }

  predicate AllScalars(cs: seq<nat>) {
    forall k | 0 <= k < |cs| :: IsScalar(cs[k])
  }

  function Utf8Text(cs: seq<nat>): seq<Byte>
    requires AllScalars(cs)
  {
    if cs == [] then [] else Utf8(cs[0]) + Utf8Text(cs[1..])
  }

  /** What the sequence at the front of `s` stands for. */
  function ScalarAt(s: seq<Byte>): nat
    requires SequenceLength(s) > 0
  {
    var n := SequenceLength(s);
    if n == 1 then s[0]
    else if n == 2 then (s[0] as int - 0xc0) * 64 + (s[1] - 0x80)
    else if n == 3 then ((s[0] as int - 0xe0) * 64 + (s[1] - 0x80)) * 64 + (s[2] - 0x80)
    else (((s[0] as int - 0xf0) * 64 + (s[1] - 0x80)) * 64 + (s[2] - 0x80)) * 64 + (s[3] - 0x80)
  }

  lemma Digits64(a: nat, b: nat, c: nat, d: nat)
    requires b < 64 && c < 64 && d < 64
    ensures var n := ((a * 64 + b) * 64 + c) * 64 + d;
            n % 64 == d && n / 64 % 64 == c && n / 4096 % 64 == b && n / 0x4_0000 == a
  {
    var n := ((a * 64 + b) * 64 + c) * 64 + d;
    assert n / 64 == (a * 64 + b) * 64 + c;
    assert n / 4096 == a * 64 + b;
  }

  lemma TwoEncoded(a: nat, b: nat)
    requires 2 <= a < 32 && b < 64
    ensures IsScalar(a * 64 + b) && Utf8(a * 64 + b) == [0xc0 + a, 0x80 + b]
  {
    Digits64(0, 0, a, b);
  }

  lemma ThreeEncoded(a: nat, b: nat, c: nat)
    requires a < 16 && b < 64 && c < 64 && (a == 0 ==> b >= 0x20) && (a == 0x0d ==> b < 0x20)
    ensures var n := (a * 64 + b) * 64 + c; IsScalar(n) && Utf8(n) == [0xe0 + a, 0x80 + b, 0x80 + c]
  {
    Digits64(0, a, b, c);
  }

  lemma FourEncoded(a: nat, b: nat, c: nat, d: nat)
    requires a < 5 && b < 64 && c < 64 && d < 64 && (a == 0 ==> b >= 0x10) && (a == 4 ==> b < 0x10)
    ensures var n := ((a * 64 + b) * 64 + c) * 64 + d; IsScalar(n) && Utf8(n) == [0xf0 + a, 0x80 + b, 0x80 + c, 0x80 + d]
  {
    Digits64(a, b, c, d);
  }

  /** The front sequence is some scalar value, encoded. */
  lemma SequenceIsScalar(s: seq<Byte>)
    requires SequenceLength(s) > 0
    ensures IsScalar(ScalarAt(s)) && s[..SequenceLength(s)] == Utf8(ScalarAt(s))
  {
    hide Utf8;
    var n := SequenceLength(s);
    if n == 1 {
      OneEncoded(s[0]);
      assert s[..1] == [s[0]];
    } else {
      hide IsScalar;
      if n == 2 {
        TwoEncoded(s[0] - 0xc0, s[1] - 0x80);
        assert s[..2] == [s[0], s[1]];
      } else if n == 3 {
        ThreeEncoded(s[0] - 0xe0, s[1] - 0x80, s[2] - 0x80);
        assert s[..3] == [s[0], s[1], s[2]];
      } else {
        FourEncoded(s[0] - 0xf0, s[1] - 0x80, s[2] - 0x80, s[3] - 0x80);
        assert s[..4] == [s[0], s[1], s[2], s[3]];
      }
    }
  }

  lemma OneEncoded(c: nat)
    requires c < 0x80
    ensures Utf8(c) == [c]
  {
  }

  lemma ThreeByteRange(c: nat)
    requires 0x800 <= c < 0x1_0000 && IsScalar(c)
    ensures c / 4096 < 16 && (c / 4096 == 0 ==> c / 64 % 64 >= 0x20) && (c / 4096 == 0x0d ==> c / 64 % 64 < 0x20)
  {
    assert c / 64 == c / 4096 * 64 + c / 64 % 64;
  }

  lemma FourByteRange(c: nat)
    requires 0x1_0000 <= c < 0x11_0000
    ensures c / 0x4_0000 < 5
    ensures (c / 0x4_0000 == 0 ==> c / 4096 % 64 >= 0x10) && (c / 0x4_0000 == 4 ==> c / 4096 % 64 < 0x10)
  {
    assert c / 4096 == c / 0x4_0000 * 64 + c / 4096 % 64;
  }

  /** A scalar value encoded is a sequence, whatever follows. */
  lemma ScalarIsSequence(c: nat, rest: seq<Byte>)
    requires IsScalar(c)
    ensures SequenceLength(Utf8(c) + rest) == |Utf8(c)|
  {
    var u := Utf8(c);
    var s := u + rest;
    assert forall k | 0 <= k < |u| :: s[k] == u[k];
    if 0x800 <= c < 0x1_0000 {
      ThreeByteRange(c);
      ThreeAreSequence(s, c / 4096, c / 64 % 64, c % 64);
    } else if c >= 0x1_0000 {
      FourByteRange(c);
      FourAreSequence(s, c / 0x4_0000, c / 4096 % 64, c / 64 % 64, c % 64);
    }
  }

  lemma ThreeAreSequence(s: seq<Byte>, a: nat, b: nat, c: nat)
    requires |s| >= 3 && s[0] == 0xe0 + a && s[1] == 0x80 + b && s[2] == 0x80 + c
    requires a < 16 && b < 64 && c < 64 && (a == 0 ==> b >= 0x20) && (a == 0x0d ==> b < 0x20)
    ensures SequenceLength(s) == 3
  {
  }

  lemma FourAreSequence(s: seq<Byte>, a: nat, b: nat, c: nat, d: nat)
    requires |s| >= 4 && s[0] == 0xf0 + a && s[1] == 0x80 + b && s[2] == 0x80 + c && s[3] == 0x80 + d
    requires a < 5 && b < 64 && c < 64 && d < 64 && (a == 0 ==> b >= 0x10) && (a == 4 ==> b < 0x10)
    ensures SequenceLength(s) == 4
  {
  }

  /** A byte string is taken for text exactly when it is some scalar values encoded one after the other. */
  lemma TextExactly(s: seq<Byte>)
    ensures IsUtf8(s) <==> exists cs :: AllScalars(cs) && s == Utf8Text(cs)
  {
    if IsUtf8(s) {
      var cs := ScalarsOf(s);
    }
    if cs :| AllScalars(cs) && s == Utf8Text(cs) {
      EncodedIsText(cs);
    }
  }

  lemma {:induction false} ScalarsOf(s: seq<Byte>) returns (cs: seq<nat>)
    requires IsUtf8(s)
    ensures AllScalars(cs) && s == Utf8Text(cs)
    decreases |s|
  {
    hide SequenceLength, Utf8, ScalarAt, IsScalar;
    cs := [];
    if s != [] {
      var n := SequenceLength(s);
      SequenceIsScalar(s);
      var later := ScalarsOf(s[n..]);
      cs := [ScalarAt(s)] + later;
      assert cs[1..] == later && s == s[..n] + s[n..];
    }
  }

  lemma {:induction false} EncodedIsText(cs: seq<nat>)
    requires AllScalars(cs)
    ensures IsUtf8(Utf8Text(cs))
  {
    hide SequenceLength, Utf8, IsScalar;
    if cs != [] {
      ScalarIsSequence(cs[0], Utf8Text(cs[1..]));
      EncodedIsText(cs[1..]);
      assert Utf8Text(cs)[|Utf8(cs[0])|..] == Utf8Text(cs[1..]);
    }
  }

  function AsText(name: seq<Byte>): (text: seq<Byte>)
    ensures |name| <= NAME_CAPACITY ==> |text| <= NAME_CAPACITY
  {
    if IsUtf8(name) then name else FALLBACK_NAME
  }

  // ----- the check word

  const FNV_BASIS: U32 := 0x811c_9dc5
  const FNV_PRIME: U32 := 0x0100_0193
  /** The inverse of the prime modulo 2^32. */
  const FNV_INVERSE: U32 := 0x359c_449b

  /** Exclusive or of the lowest `bits` bits. */
  function Xor(x: nat, y: nat, bits: nat): (z: nat)
    ensures z < Slots.Pow2(bits)
  {
    if bits == 0 then 0 else (if x % 2 == y % 2 then 0 else 1) + 2 * Xor(x / 2, y / 2, bits - 1)
  }

  /** `hash ^ byte`: the byte only meets the low eight bits. */
  function Mixed(hash: U32, b: Byte): U32 {
    assert Slots.Pow2(8) == 256;
    256 * (hash / 256) + Xor(hash % 256, b, 8)
  }

  /** `(hash ^ byte).wrapping_mul(prime)` */
  function FnvStep(hash: U32, b: Byte): U32 {
    Mixed(hash, b) * FNV_PRIME % TWO32
  }

  /** Bit `k` of a number. */
  function Bit(n: nat, k: nat): nat {
    if k == 0 then n % 2 else Bit(n / 2, k - 1)
  }

  lemma {:induction false} XorBit(x: nat, y: nat, bits: nat, k: nat)
    requires k < bits
    ensures Bit(Xor(x, y, bits), k) == if Bit(x, k) == Bit(y, k) then 0 else 1
  {
    if k > 0 {
      XorBit(x / 2, y / 2, bits - 1, k - 1);
    }
  }

  /** The bits of a number put together from high and low ones. */
  lemma {:induction false} BitOfSum(high: nat, low: nat, bits: nat, k: nat)
    requires low < Slots.Pow2(bits)
    ensures Bit(Slots.Pow2(bits) * high + low, k) == if k < bits then Bit(low, k) else Bit(high, k - bits)
    decreases bits
  {
    if bits > 0 {
      var p := Slots.Pow2(bits - 1);
      assert low / 2 < p;
      Slots.MulAssociative(2, p, high);
      hide Slots.Pow2;
      Halves(p * high, low);
      if k > 0 {
        BitOfSum(high, low / 2, bits - 1, k - 1);
      }
    }
  }

  lemma Halves(high: nat, low: nat)
    ensures (2 * high + low) / 2 == high + low / 2 && (2 * high + low) % 2 == low % 2
  {
  }

  lemma {:induction false} NoBits(k: nat)
    ensures Bit(0, k) == 0
  {
    if k > 0 {
      NoBits(k - 1);
    }
  }

  /** `Mixed` is the exclusive or of all bits. */
  lemma MixedIsXor(hash: U32, b: Byte, k: nat)
    ensures Bit(Mixed(hash, b), k) == if Bit(hash, k) == Bit(b, k) then 0 else 1
  {
    hide Bit;
    assert Slots.Pow2(8) == 256;
    BitOfSum(hash / 256, Xor(hash % 256, b, 8), 8, k);
    BitOfSum(hash / 256, hash % 256, 8, k);
    BitOfSum(0, b, 8, k);
    assert 256 * (hash / 256) + hash % 256 == hash;
    if k < 8 {
      XorBit(hash % 256, b, 8, k);
    } else {
      NoBits(k - 8);
      BitIsBit(hash / 256, k - 8);
    }
  }

  lemma {:induction false} BitIsBit(n: nat, k: nat)
    ensures Bit(n, k) < 2
  {
    if k > 0 {
      BitIsBit(n / 2, k - 1);
    }
  }

  function Fold(hash: U32, bytes: seq<Byte>): U32
    decreases bytes
  {
    if bytes == [] then hash else Fold(FnvStep(hash, bytes[0]), bytes[1..])
  }

  function Checksum(bytes: seq<Byte>): U32 {
    Fold(FNV_BASIS, bytes)
  }

  lemma XorStep(x: nat, y: nat, bits: nat)
    ensures Xor(x, y, bits + 1) == (if x % 2 == y % 2 then 0 else 1) + 2 * Xor(x / 2, y / 2, bits)
    ensures Xor(x, y, 0) == 0
  {
  }

  lemma ExclusiveOr()
    ensures Xor(0xc5, 0x61, 8) == 0xa4
  {
    hide Xor;
    XorStep(0xc5, 0x61, 7);
    XorStep(0x62, 0x30, 6);
    XorStep(0x31, 0x18, 5);
    XorStep(0x18, 0x0c, 4);
    XorStep(0x0c, 0x06, 3);
    XorStep(0x06, 0x03, 2);
    XorStep(0x03, 0x01, 1);
    XorStep(0x01, 0x00, 0);
    XorStep(0x00, 0x00, 0);
  }

  /** Two of the published values of 32-bit FNV-1a: those of no bytes and of the letter a. */
  lemma PublishedValues()
    ensures Checksum([]) == 0x811c_9dc5 && Checksum([0x61]) == 0xe40c_292c
  {
    hide Xor;
    ExclusiveOr();
    assert Mixed(FNV_BASIS, 0x61) == 0x811c_9da4;
    assert [0x61][1..] == [];
    assert Fold(FNV_BASIS, [0x61]) == Fold(FnvStep(FNV_BASIS, 0x61), []);
  }

  lemma {:induction false} XorInjective(x: nat, x': nat, y: nat, y': nat, bits: nat)
    requires Xor(x, y, bits) == Xor(x', y', bits)
    requires x < Slots.Pow2(bits) && x' < Slots.Pow2(bits) && y < Slots.Pow2(bits) && y' < Slots.Pow2(bits)
    ensures x == x' <==> y == y'
  {
    if bits > 0 {
      XorInjective(x / 2, x' / 2, y / 2, y' / 2, bits - 1);
    }
  }

  /** Multiplying by the inverse undoes the multiplication, so no two words share a product. */
  lemma ProductUndone(x: U32)
    ensures x * FNV_PRIME % TWO32 * FNV_INVERSE % TWO32 == x
  {
    var product := x * FNV_PRIME;
    var q, r := product / TWO32, product % TWO32;
    assert FNV_PRIME * FNV_INVERSE == 1 + 3513497 * TWO32;
    assert r * FNV_INVERSE == x + TWO32 * (x * 3513497 - q * FNV_INVERSE);
    Slots.DivUnique(r * FNV_INVERSE, TWO32, x * 3513497 - q * FNV_INVERSE, x);
  }

  lemma MixedInjective(h: U32, h': U32, b: Byte, b': Byte)
    requires Mixed(h, b) == Mixed(h', b')
    ensures h == h' <==> b == b'
  {
    assert Slots.Pow2(8) == 256;
    Slots.DivUnique(Mixed(h, b), 256, h / 256, Xor(h % 256, b, 8));
    Slots.DivUnique(Mixed(h', b'), 256, h' / 256, Xor(h' % 256, b', 8));
    XorInjective(h % 256, h' % 256, b, b', 8);
  }

  /** One step separates different hashes under one byte, and different bytes under one hash. */
  lemma StepInjective(h: U32, h': U32, b: Byte, b': Byte)
    requires FnvStep(h, b) == FnvStep(h', b')
    ensures h == h' <==> b == b'
  {
    ProductUndone(Mixed(h, b));
    ProductUndone(Mixed(h', b'));
    MixedInjective(h, h', b, b');
  }

  /** Two byte strings that differ in exactly one place. */
  ghost predicate DifferAt(x: seq<Byte>, y: seq<Byte>, at: nat) {
    |x| == |y| && at < |x| && x[at] != y[at] && forall k | 0 <= k < |x| && k != at :: x[k] == y[k]
  }

  lemma {:induction false} FoldSeparates(h: U32, h': U32, bytes: seq<Byte>)
    requires h != h'
    ensures Fold(h, bytes) != Fold(h', bytes)
    decreases bytes
  {
    if bytes != [] {
      if FnvStep(h, bytes[0]) == FnvStep(h', bytes[0]) {
        StepInjective(h, h', bytes[0], bytes[0]);
      }
      FoldSeparates(FnvStep(h, bytes[0]), FnvStep(h', bytes[0]), bytes[1..]);
    }
  }

  /** Changing one byte changes the check word. */
  lemma {:induction false} OneByteChangesFold(h: U32, x: seq<Byte>, y: seq<Byte>, at: nat)
    requires DifferAt(x, y, at)
    ensures Fold(h, x) != Fold(h, y)
    decreases x
  {
    if at == 0 {
      assert x[1..] == y[1..];
      if FnvStep(h, x[0]) == FnvStep(h, y[0]) {
        StepInjective(h, h, x[0], y[0]);
      }
      FoldSeparates(FnvStep(h, x[0]), FnvStep(h, y[0]), x[1..]);
    } else {
      assert x[0] == y[0];
      OneByteChangesFold(FnvStep(h, x[0]), x[1..], y[1..], at - 1);
    }
  }

  // ----- the record

  function Le32(word: U32): (b: seq<Byte>)
    ensures |b| == 4
  {
    [word % 256, word / 256 % 256, word / 256 / 256 % 256, word / 256 / 256 / 256]
  }

  function FromLe32(b: seq<Byte>): U32
    requires |b| == 4
  {
    b[0] as int + 256 * (b[1] as int + 256 * (b[2] as int + 256 * b[3] as int))
  }

  lemma WordRoundTrip(word: U32)
    ensures FromLe32(Le32(word)) == word
  {
    var w1, w2 := word / 256, word / 256 / 256;
    assert word == 256 * w1 + word % 256 && w1 == 256 * w2 + w1 % 256 && w2 == 256 * (w2 / 256) + w2 % 256;
    assert w2 / 256 < 256;
  }

  lemma LowDigit(a: int, high: int, b: int, high': int)
    requires 0 <= a < 256 && 0 <= b < 256 && a + 256 * high == b + 256 * high'
    ensures a == b && high == high'
  {
  }

  lemma BytesRoundTrip(x: seq<Byte>, y: seq<Byte>)
    requires |x| == |y| == 4
    ensures FromLe32(x) == FromLe32(y) ==> forall k | 0 <= k < 4 :: x[k] == y[k]
  {
    if FromLe32(x) == FromLe32(y) {
      var x2, y2 := x[2] as int + 256 * x[3] as int, y[2] as int + 256 * y[3] as int;
      var x1, y1 := x[1] as int + 256 * x2, y[1] as int + 256 * y2;
      LowDigit(x[0], x1, y[0], y1);
      LowDigit(x[1], x2, y[1], y2);
      LowDigit(x[2], x[3], y[2], y[3]);
    }
  }

  function Zeros(n: nat): (z: seq<Byte>)
    ensures |z| == n
  {
    seq(n, _ => 0)
  }

  ghost predicate IsPeer(p: Peer) {
    |p.address| == 6 && |p.name| <= NAME_CAPACITY
  }

  /** The first 80 bytes of the record. */
  function Body(p: Peer): (b: seq<Byte>)
    requires IsPeer(p)
    ensures |b| == 80
  {
    var name := AsText(p.name);
    MAGIC + p.address + [|name|, 0] + Le32(p.classOfDevice) + name + Zeros(NAME_CAPACITY - |name|)
  }

  function Encoded(p: Peer): (record: seq<Byte>)
    requires IsPeer(p)
    ensures |record| == RECORD_SIZE
  {
    Body(p) + Le32(Checksum(Body(p)))
  }

  method FillBody(p: Peer, record: array<Byte>)
    requires IsPeer(p) && record.Length == RECORD_SIZE && forall k | 0 <= k < RECORD_SIZE :: record[k] == 0
    modifies record
    ensures record[..80] == Body(p)
  {
    hide AsText, Le32;
    var name := AsText(p.name);
    Store(record, 0, MAGIC);
    Store(record, 4, p.address);
    record[10] := |name|;
    Store(record, 12, Le32(p.classOfDevice));
    Store(record, 16, name);
  }

  method Encode(p: Peer) returns (record: array<Byte>)
    requires IsPeer(p)
    ensures fresh(record) && record[..] == Encoded(p)
  {
    hide Body, Checksum, Le32;
    record := new Byte[RECORD_SIZE](_ => 0);
    FillBody(p, record);
    var sum := Checksum(record[..80]);
    Store(record, 80, Le32(sum));
    assert record[..80] == Body(p);
    assert record[80..] == Le32(sum);
  }

  function Decode(record: seq<Byte>): Option<Peer> {
    if |record| != RECORD_SIZE || record[..4] != MAGIC then None
    else
      var length: nat := record[10];
      if length > NAME_CAPACITY || record[4..10] == Zeros(6)
         || FromLe32(record[80..]) != Checksum(record[..80])
         || !IsUtf8(record[16..16 + length]) then None
      else
        Some(Peer(record[4..10], NameFrom(record[16..16 + length]), 0, FromLe32(record[12..16]), Bonded))
  }

  lemma BodyFields(p: Peer)
    requires IsPeer(p)
    ensures var b, name := Body(p), AsText(p.name);
            && b[..4] == MAGIC && b[4..10] == p.address && b[10] == |name|
            && b[12..16] == Le32(p.classOfDevice) && b[16..16 + |name|] == name
  {
  }

  lemma TrimKept(name: seq<Byte>)
    requires |name| <= NAME_CAPACITY && (name == [] || name[|name| - 1] != 0)
    ensures NameFrom(name) == name
  {
    assert name[..|name|] == name;
  }

  lemma SliceOfPrefix(whole: seq<Byte>, prefix: seq<Byte>, from: nat, to: nat)
    requires from <= to <= |prefix| && prefix <= whole
    ensures whole[from..to] == prefix[from..to]
  {
  }

  /**
   * A stored peer is read back as it was, bonded and without signal strength, exactly when its
   * address is not all zero, for every UTF-8 name without a trailing NUL; with a zero address the
   * record is refused.
   */
  lemma RecordRoundTrip(p: Peer)
    requires IsPeer(p) && IsUtf8(p.name) && NameFrom(p.name) == p.name
    ensures Decode(Encoded(p)) == if p.address == Zeros(6) then None else Some(p.(rssi := 0, bond := Bonded))
  {
    hide IsUtf8, Checksum, Body;
    var record := Encoded(p);
    BodyFields(p);
    assert record[..80] == Body(p) && record[80..] == Le32(Checksum(Body(p)));
    SliceOfPrefix(record, Body(p), 0, 4);
    SliceOfPrefix(record, Body(p), 4, 10);
    SliceOfPrefix(record, Body(p), 12, 16);
    SliceOfPrefix(record, Body(p), 16, 16 + |p.name|);
    WordRoundTrip(Checksum(Body(p)));
    WordRoundTrip(p.classOfDevice);
  }

  lemma FallbackIsText()
    ensures IsUtf8(FALLBACK_NAME)
  {
    assert SequenceLength(FALLBACK_NAME) == 3;
    assert FALLBACK_NAME[3..] == [0xe7, 0x9f, 0xa5, 0xe8, 0x80, 0xb3, 0xe6, 0x9c, 0xba];
    assert FALLBACK_NAME[3..][3..] == [0xe8, 0x80, 0xb3, 0xe6, 0x9c, 0xba];
    assert FALLBACK_NAME[3..][3..][3..] == [0xe6, 0x9c, 0xba];
    assert FALLBACK_NAME[3..][3..][3..][3..] == [];
  }

  /** A name that is not UTF-8 comes back as the fallback text. */
  lemma UnreadableNameReplaced(p: Peer)
    requires IsPeer(p) && !IsUtf8(p.name) && p.address != Zeros(6)
    ensures Decode(Encoded(p)) == Some(p.(name := FALLBACK_NAME, rssi := 0, bond := Bonded))
  {
    hide IsUtf8, Decode, Checksum, NameFrom;
    FallbackIsText();
    var q := p.(name := FALLBACK_NAME);
    assert AsText(q.name) == AsText(p.name);
    TrimKept(FALLBACK_NAME);
    RecordRoundTrip(q);
  }

  /** If a record decodes, no record differing from it in exactly one byte does. */
  lemma OneDamagedByteIsCaught(record: seq<Byte>, damaged: seq<Byte>, at: nat)
    requires Decode(record).Some? && DifferAt(record, damaged, at)
    ensures Decode(damaged) == None
  {
    hide IsUtf8, Fold;
    if at < 80 {
      assert DifferAt(record[..80], damaged[..80], at);
      OneByteChangesFold(FNV_BASIS, record[..80], damaged[..80], at);
      assert record[80..] == damaged[80..];
    } else {
      assert record[..80] == damaged[..80];
      assert record[80..][at - 80] != damaged[80..][at - 80];
      BytesRoundTrip(record[80..], damaged[80..]);
    }
  }
}
