/** The byte ring of the audio endpoint, each call undisturbed; RingSteps treats interleavings. */
module Ring {
  import opened Wire
  import opened Slots

  /** The `count` bytes found in the slots from cursor `tail` on. */
  function Bytes(slots: seq<Byte>, tail: U32, count: nat): (q: seq<Byte>)
    requires |slots| > 0
    ensures |q| == count
  {
    seq(count, i requires 0 <= i => slots[Slot(tail + i, |slots|)])
  }

  lemma StoreExtends(slots: seq<Byte>, tail: U32, count: nat, b: Byte)
    requires count < |slots|
    ensures Bytes(slots[Slot(tail + count, |slots|) := b], tail, count + 1) == Bytes(slots, tail, count) + [b]
  {
    forall i: nat | i < count
      ensures Bytes(slots[Slot(tail + count, |slots|) := b], tail, count + 1)[i] == Bytes(slots, tail, count)[i]
    {
      SlotsDiffer(tail + i, tail + count, |slots|);
    }
  }

  predicate IsPast(from: U32, distance: nat, to: U32) {
    to == WrappingAdd(from, distance)
  }

  lemma PastSlot(from: U32, distance: nat, to: U32, offset: nat, n: nat)
    requires IsCapacity(n) && IsPast(from, distance, to)
    ensures n > 0 && Slot(to + offset, n) == Slot(from + (distance + offset), n)
  {
    CursorSlot(from + distance, offset, n);
  }

  lemma AdvanceDrops(slots: seq<Byte>, from: U32, taken: nat, to: U32, count: nat)
    requires IsCapacity(|slots|) && IsPast(from, taken, to) && taken <= count
    ensures |slots| > 0 && Bytes(slots, to, count - taken) == Bytes(slots, from, count)[taken..]
  {
    hide Slot;
    PastSlot(from, taken, to, 0, |slots|);
    var rest, all := Bytes(slots, to, count - taken), Bytes(slots, from, count);
    forall i | 0 <= i < count - taken
      ensures rest[i] == all[taken + i]
    {
      PastSlot(from, taken, to, i, |slots|);
    }
  }

  lemma WrappedDistance(head: U32, tail: U32)
    ensures IsPast(tail, WrappingSub(head, tail), head)
  {
  }

  lemma DistanceAfter(tail: U32, used: nat, count: nat, head: U32)
    requires used + count < TWO32 && IsPast(tail, used, head)
    ensures WrappingSub(WrappingAdd(head, count), tail) == used + count
    ensures count <= used ==> WrappingSub(head, WrappingAdd(tail, count)) == used - count
  {
    hide WrappingSub, WrappingAdd;
    PastPast(tail, used, count);
    WayBack(tail, used + count);
    if count <= used {
      PastPast(tail, count, used - count);
      WayBack(WrappingAdd(tail, count), used - count);
    }
  }

  lemma PastPast(from: U32, first: nat, second: nat)
    ensures WrappingAdd(WrappingAdd(from, first), second) == WrappingAdd(from, first + second)
  {
  }

  lemma WayBack(from: U32, distance: nat)
    requires distance < TWO32
    ensures WrappingSub(WrappingAdd(from, distance), from) == distance
  {
  }

  lemma TailMoves(slots: seq<Byte>, head: U32, tail: U32, count: nat)
    requires IsCapacity(|slots|) && count <= WrappingSub(head, tail) <= |slots|
    ensures var used, tail' := WrappingSub(head, tail), WrappingAdd(tail, count);
            && |slots| > 0
            && WrappingSub(head, tail') == used - count
            && Bytes(slots, tail', used - count) == Bytes(slots, tail, used)[count..]
  {
    hide WrappingSub, WrappingAdd, IsCapacity, Slot;
    var used := WrappingSub(head, tail);
    WrappedDistance(head, tail);
    CapacityBelow(|slots|);
    PastPast(tail, count, used - count);
    WayBack(WrappingAdd(tail, count), used - count);
    AdvanceDrops(slots, tail, count, WrappingAdd(tail, count), used);
  }

  class InputRing {
    const data: array<Byte>
    var head: U32
    var tail: U32

    ghost predicate Valid()
      reads this
    {
      && IsCapacity(data.Length) && 0 < data.Length < TWO32
      && WrappingSub(head, tail) <= data.Length
    }

    /** The unread bytes, oldest first. */
    ghost function Contents(): (q: seq<Byte>)
      requires Valid()
      reads this, data
    {
      Bytes(data[..], tail, WrappingSub(head, tail))
    }

    constructor (capacity: nat)
      requires IsCapacity(capacity)
      ensures Valid() && fresh(data) && data.Length == capacity && Contents() == []
    {
      ghost var m := CapacityDivides(capacity);
      data := new Byte[capacity](_ => 0);
      head, tail := 0, 0;
    }

    method Used() returns (used: nat)
      requires Valid()
      ensures used == |Contents()|
    {
      used := Min(WrappingSub(head, tail), data.Length);
    }

    method Write(input: seq<Byte>) returns (count: nat)
      requires Valid()
      modifies this`head, data
      ensures Valid()
      ensures count == Min(|input|, data.Length - |old(Contents())|)
      ensures Contents() == old(Contents()) + input[..count]
    {
      ghost var was := Contents();
      var used := Min(WrappingSub(head, tail), data.Length);
      count := Min(|input|, data.Length - used);
      for offset := 0 to count
        modifies data
        invariant Bytes(data[..], tail, used + offset) == was + input[..offset]
      {
        ghost var slots := data[..];
        WrappedDistance(head, tail);
        PastSlot(tail, used, head, offset, data.Length);
        StoreExtends(slots, tail, used + offset, input[offset]);
        data[Slot(head + offset, data.Length)] := input[offset];
        assert data[..] == slots[Slot(tail + (used + offset), data.Length) := input[offset]];
        assert input[..offset + 1] == input[..offset] + [input[offset]];
      }
      WrappedDistance(head, tail);
      CapacityBelow(data.Length);
      DistanceAfter(tail, used, count, head);
      head := WrappingAdd(head, count);
    }

    method Read(output: array<Byte>) returns (count: nat)
      requires Valid() && output != data
      modifies this`tail, output
      ensures Valid()
      ensures count == Min(output.Length, |old(Contents())|)
      ensures output[..] == old(Contents())[..count] + old(output[count..])
      ensures Contents() == old(Contents())[count..]
    {
      ghost var was := Contents();
      var used := Min(WrappingSub(head, tail), data.Length);
      count := Min(output.Length, used);
      for offset := 0 to count
        modifies output
        invariant forall i | 0 <= i < output.Length ::
                    output[i] == if i < offset then was[i] else old(output[i])
      {
        output[offset] := data[Slot(tail + offset, data.Length)];
      }
      TailMoves(data[..], head, tail, count);
      tail := WrappingAdd(tail, count);
    }

    /** Discards everything; the slots the cursors select stay the same. */
    method Reset()
      requires Valid()
      modifies this
      ensures Valid() && Contents() == []
      ensures Slot(head, data.Length) == old(Slot(head, data.Length))
    {
      PastSlot(head, data.Length, WrappingAdd(head, data.Length), 0, data.Length);
      SlotPeriodic(head, data.Length, 1);
      head := WrappingAdd(head, data.Length);
      tail := head;
    }
  }

  lemma CapacityBelow(n: nat)
    requires IsCapacity(n)
    ensures n < TWO32
  {
    var m := CapacityDivides(n);
  }
}
