/** Bytes, machine words and in-place byte stores shared by the protocol modules. */
module Wire {
  type Byte = b: int | 0 <= b < 0x100
  type U16 = h: int | 0 <= h < 0x1_0000
  type U32 = w: int | 0 <= w < TWO32

  const TWO32: int := 0x1_0000_0000

  datatype Option<+T> = None | Some(value: T)

  datatype Result<+T, +E> = Ok(value: T) | Err(error: E)

  function Min(a: int, b: int): int {
    if a <= b then a else b
  }

  function Max(a: int, b: int): int {
    if a >= b then a else b
  }

  /** Quotient rounded up, Rust's `div_ceil` on unsigned operands. */
  function CeilDiv(a: nat, b: nat): (q: nat)
    requires b > 0
    ensures (q - 1) * b < a <= q * b || (a == 0 && q == 0)
  {
    if a == 0 then 0 else (a - 1) / b + 1
  }

  /** `u32::wrapping_sub` on two words. */
  function WrappingSub(a: U32, b: U32): (d: U32)
    ensures d == (a - b) % TWO32
  {
    if a >= b then a - b else a - b + TWO32
  }

  /** `u32::wrapping_add`. */
  function WrappingAdd(a: U32, b: nat): U32 {
    (a + b) % TWO32
  }

  lemma WrapAdd(total: nat, more: nat)
    ensures (total % TWO32 + more) % TWO32 == (total + more) % TWO32
  {
  }

  function Be16(high: Byte, low: Byte): U16 {
    high * 0x100 + low
  }

  function Le16(low: Byte, high: Byte): U16 {
    high * 0x100 + low
  }

  /** A number in network order. */
  function Number(bytes: seq<Byte>): nat {
    if bytes == [] then 0 else Number(bytes[..|bytes| - 1]) * 256 + bytes[|bytes| - 1]
  }

  /** Bit `2^k`, given as its weight, of a byte. */
  predicate Has(b: Byte, weight: int)
    requires weight > 0
  {
    b / weight % 2 == 1
  }

  lemma Associates<T>(a: seq<T>, b: seq<T>, c: seq<T>)
    ensures (a + b) + c == a + (b + c)
  {
  }

  /** `target[at..at + |bytes|].copy_from_slice(bytes)`. */
  method Store(target: array<Byte>, at: nat, bytes: seq<Byte>)
    requires at + |bytes| <= target.Length
    modifies target
    ensures forall k | 0 <= k < target.Length ::
              target[k] == if at <= k < at + |bytes| then bytes[k - at] else old(target[k])
  {
    forall k | 0 <= k < |bytes| {
      target[at + k] := bytes[k];
    }
  }

  /** `target[from..to].fill(0)`. */
  method Clear(target: array<Byte>, from: nat, to: nat)
    requires from <= to <= target.Length
    modifies target
    ensures forall k | 0 <= k < target.Length :: target[k] == if from <= k < to then 0 else old(target[k])
  {
    forall k | from <= k < to {
      target[k] := 0;
    }
  }
}
