/** How a tagger writes an ID3v2 tag (ID3 tag version 2.4.0, sections 3.1, 3.4 and 6.2). */
module Id3 {
  import opened Wire
  import Slots

  const HEADER: nat := 10
  const FOOTER_FLAG: Byte := 0x10

  predicate SevenBit(bytes: seq<Byte>) {
    forall k | 0 <= k < |bytes| :: bytes[k] < 128
  }

  /** A number in seven-bit digits, the highest first; its top bits are lost if there are too few digits. */
  function Synchsafe(number: nat, digits: nat): (bytes: seq<Byte>)
    ensures |bytes| == digits
    ensures SevenBit(bytes)
  {
    if digits == 0 then [] else Synchsafe(number / 128, digits - 1) + [number % 128]
  }

  /** What such digits stand for. */
  function Value(digits: seq<Byte>): nat {
    if digits == [] then 0 else 128 * Value(digits[..|digits| - 1]) + digits[|digits| - 1]
  }

  lemma LastDigit(high: nat, last: nat)
    requires last < 128
    ensures (128 * high + last) / 128 == high && (128 * high + last) % 128 == last
  {
  }

  lemma SevenMore(k: nat)
    ensures Slots.Pow2(7 * (k + 1)) == 128 * Slots.Pow2(7 * k)
  {
    Slots.Pow2Sum(7, 7 * k);
    assert Slots.Pow2(7) == 128;
  }

  lemma {:induction false} ValueOfSynchsafe(number: nat, digits: nat)
    requires number < Slots.Pow2(7 * digits)
    ensures Value(Synchsafe(number, digits)) == number
  {
    if digits > 0 {
      SevenMore(digits - 1);
      hide Slots.Pow2;
      ValueOfSynchsafe(number / 128, digits - 1);
      assert Synchsafe(number, digits)[..digits - 1] == Synchsafe(number / 128, digits - 1);
    }
  }

  lemma {:induction false} SynchsafeOfValue(bytes: seq<Byte>)
    requires SevenBit(bytes)
    ensures Synchsafe(Value(bytes), |bytes|) == bytes && Value(bytes) < Slots.Pow2(7 * |bytes|)
  {
    if bytes != [] {
      hide Slots.Pow2;
      var init, last := bytes[..|bytes| - 1], bytes[|bytes| - 1];
      assert SevenBit(init) && last < 128;
      SynchsafeOfValue(init);
      SevenMore(|init|);
      LastDigit(Value(init), last);
      assert Value(bytes) == 128 * Value(init) + last;
      assert bytes == init + [last];
    }
  }

  /** What identifies a tag: its version, its flags, and the bytes between header and footer. */
  datatype Shape = Shape(version: Byte, revision: Byte, flags: Byte, size: nat)

  predicate Writable(t: Shape) {
    t.version < 0xff && t.revision < 0xff && t.size < Slots.Pow2(28)
  }

  function Header(t: Shape): (bytes: seq<Byte>)
    ensures |bytes| == HEADER
  {
    ['I' as int, 'D' as int, '3' as int, t.version, t.revision, t.flags] + Synchsafe(t.size, 4)
  }

  /** The header once more, marked from behind. */
  function Footer(t: Shape): (bytes: seq<Byte>)
    ensures |bytes| == HEADER
  {
    ['3' as int, 'D' as int, 'I' as int] + Header(t)[3..]
  }

  function Tag(t: Shape, body: seq<Byte>): seq<Byte>
    requires |body| == t.size
  {
    Header(t) + body + if Has(t.flags, FOOTER_FLAG) then Footer(t) else []
  }

  function TagSize(t: Shape): nat {
    HEADER + t.size + if Has(t.flags, FOOTER_FLAG) then HEADER else 0
  }

  lemma TagHasItsSize(t: Shape, body: seq<Byte>)
    requires |body| == t.size
    ensures |Tag(t, body)| == TagSize(t) && Header(t) <= Tag(t, body)
  {
  }
}
