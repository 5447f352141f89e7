/**
 * How a receiver reads a media packet: the RTP fixed header (RFC 3550, section 5.1) and the SBC media
 * payload header behind it (A2DP, section 4.3.4).
 */
module Rtp {
  import opened Wire

  datatype Header = Header(
    version: nat, padding: bool, extension: bool, contributors: nat, marker: bool, payloadType: nat,
    sequence: nat, timestamp: nat, source: nat,
    fragmented: bool, starting: bool, last: bool, frames: nat)

  /** The contributing sources lie between the fixed header and the payload. */
  function Read(packet: seq<Byte>): Option<Header> {
    if |packet| < 12 || |packet| < 13 + 4 * (packet[0] as int % 16) then None
    else
      var payload := packet[12 + 4 * (packet[0] as int % 16)];
      Some(Header(packet[0] / 64, Has(packet[0], 32), Has(packet[0], 16), packet[0] % 16,
                  Has(packet[1], 128), packet[1] % 128,
                  Number(packet[2..4]), Number(packet[4..8]), Number(packet[8..12]),
                  Has(payload, 128), Has(payload, 64), Has(payload, 32), payload % 16))
  }

  lemma NumberOfTwo(a: Byte, b: Byte)
    ensures Number([a, b]) == a * 256 + b
  {
    assert [a, b][..1] == [a] && [a][..0] == [];
    assert Number([a]) == Number([]) * 256 + a;
  }

  lemma NumberOfFour(a: Byte, b: Byte, c: Byte, d: Byte)
    ensures Number([a, b, c, d]) == ((a * 256 + b) * 256 + c) * 256 + d
  {
    assert [a, b, c, d][..3] == [a, b, c] && [a, b, c][..2] == [a, b];
    NumberOfTwo(a, b);
  }

  /** A word taken apart into bytes, highest first, reads as the word. */
  lemma WordRead(w: U32)
    ensures Number([w / 0x100_0000, w / 0x1_0000 % 256, w / 256 % 256, w % 256]) == w
  {
    var w1, w2, w3 := w / 256, w / 0x1_0000, w / 0x100_0000;
    assert w == 256 * w1 + w % 256 && w1 == 256 * w2 + w1 % 256 && w2 == 256 * w3 + w2 % 256;
    NumberOfFour(w3, w2 % 256, w1 % 256, w % 256);
  }
}
