/** The bounded table of scan results, kept in presentation order. */
module Discovery {
  import opened Wire

  const CAPACITY: nat := 12

  type Address = a: seq<Byte> | |a| == 6 witness [0, 0, 0, 0, 0, 0]

  datatype Device = Device(address: Address, name: seq<Byte>, rssi: int, classOfDevice: U32, lastSeenEpoch: U32)

  const ZERO: Address := [0, 0, 0, 0, 0, 0]

  // ----- presentation order

  /** Service bit 21 (Audio), or major class 4 (Audio/Video). */
  predicate AudioLikely(d: Device) {
    d.classOfDevice / 0x20_0000 % 2 == 1 || d.classOfDevice / 0x100 % 32 == 4
  }

  /** Lexicographic order of byte strings, as Rust orders arrays. */
  predicate Less(x: seq<Byte>, y: seq<Byte>) {
    y != [] && (x == [] || x[0] < y[0] || (x[0] == y[0] && Less(x[1..], y[1..])))
  }

  predicate Before(l: Device, r: Device) {
    if AudioLikely(l) != AudioLikely(r) then AudioLikely(l)
    else if l.rssi != r.rssi then l.rssi > r.rssi
    else Less(l.address, r.address)
  }

  lemma {:induction false} LessTotal(x: seq<Byte>, y: seq<Byte>)
    requires |x| == |y|
    ensures x != y ==> Less(x, y) || Less(y, x)
    ensures !(Less(x, y) && Less(y, x))
    ensures !Less(x, x)
  {
    if x != [] {
      LessTotal(x[1..], y[1..]);
      LessTotal(x[1..], x[1..]);
      if x[0] == y[0] && x[1..] == y[1..] {
        assert x == [x[0]] + x[1..] == [y[0]] + y[1..] == y;
      }
    }
  }

  lemma {:induction false} LessTransitive(x: seq<Byte>, y: seq<Byte>, z: seq<Byte>)
    requires Less(x, y) && Less(y, z)
    ensures Less(x, z)
  {
    if x != [] && x[0] == y[0] == z[0] {
      LessTransitive(x[1..], y[1..], z[1..]);
    }
  }

  /** On devices with distinct addresses, `Before` is a strict total order. */
  lemma BeforeIsStrictTotal(x: Device, y: Device, z: Device)
    ensures !Before(x, x)
    ensures !(Before(x, y) && Before(y, x))
    ensures Before(x, y) && Before(y, z) ==> Before(x, z)
    ensures x.address != y.address ==> Before(x, y) || Before(y, x)
  {
    LessTotal(x.address, y.address);
    LessTotal(x.address, x.address);
    if Less(x.address, y.address) && Less(y.address, z.address) {
      LessTransitive(x.address, y.address, z.address);
    }
  }

  lemma {:induction false} NumbersCompare(x: seq<Byte>, y: seq<Byte>)
    requires |x| == |y|
    ensures Less(x, y) <==> Number(x) < Number(y)
    ensures x == y <==> Number(x) == Number(y)
    decreases |x|
  {
    if x != [] {
      var n := |x| - 1;
      NumbersCompare(x[..n], y[..n]);
      LastByteLess(x[..n], y[..n], x[n], y[n]);
      assert x == x[..n] + [x[n]] && y == y[..n] + [y[n]];
    }
  }

  /** The last byte only decides where the others do not. */
  lemma {:induction false} LastByteLess(x: seq<Byte>, y: seq<Byte>, a: Byte, b: Byte)
    requires |x| == |y|
    ensures Less(x + [a], y + [b]) <==> Less(x, y) || (x == y && a < b)
  {
    if x == [] {
      assert x + [a] == [a] && y + [b] == [b];
      assert [a][1..] == [] && [b][1..] == [];
    } else {
      LastByteLess(x[1..], y[1..], a, b);
      assert (x + [a])[1..] == x[1..] + [a] && (y + [b])[1..] == y[1..] + [b];
      assert x[0] == y[0] && x[1..] == y[1..] ==> x == [x[0]] + x[1..] == y;
    }
  }

  // ----- tables as sequences

  ghost predicate Distinct(es: seq<Device>) {
    forall a, b | 0 <= a < b < |es| :: es[a].address != es[b].address
  }

  ghost predicate SameMembers(x: seq<Device>, y: seq<Device>) {
    forall d :: d in x <==> d in y
  }

  ghost predicate Sorted(es: seq<Device>) {
    forall a, b | 0 <= a < b < |es| :: Before(es[a], es[b])
  }

  /** A class of device as it is composed: eleven service bits, the major device class, and the byte below. */
  function ClassOf(services: nat, major: nat, low: Byte): nat
    requires services < 2048 && major < 32
  {
    (services * 32 + major) * 256 + low
  }

  /** Audio is likely exactly with the Audio service, the ninth, or the major class Audio/Video, the fourth. */
  lemma AudioIsServiceOrClass(d: Device, services: nat, major: nat, low: Byte)
    requires services < 2048 && major < 32 && d.classOfDevice == ClassOf(services, major, low)
    ensures AudioLikely(d) <==> services / 256 % 2 == 1 || major == 4
  {
    var c := d.classOfDevice;
    assert c / 0x100 == services * 32 + major;
    assert (services * 32 + major) % 32 == major;
    assert c == 0x20_0000 * (services / 256) + (services % 256 * 32 + major) * 256 + low;
  }

  /**
   * A table in presentation order shows audio devices before all others; within each kind the stronger signal first, and
   * under equal signals the addresses, read as numbers, in ascending order.
   */
  lemma PresentationOrder(es: seq<Device>)
    ensures Sorted(es) <==>
              forall i, j | 0 <= i < j < |es| ::
                && (AudioLikely(es[j]) ==> AudioLikely(es[i]))
                && (AudioLikely(es[i]) == AudioLikely(es[j]) ==> es[i].rssi >= es[j].rssi)
                && (AudioLikely(es[i]) == AudioLikely(es[j]) && es[i].rssi == es[j].rssi ==>
                      Number(es[i].address) < Number(es[j].address))
  {
    hide AudioLikely, Less, Number;
    forall i, j | 0 <= i < j < |es|
      ensures Before(es[i], es[j]) <==>
                && (AudioLikely(es[j]) ==> AudioLikely(es[i]))
                && (AudioLikely(es[i]) == AudioLikely(es[j]) ==> es[i].rssi >= es[j].rssi)
                && (AudioLikely(es[i]) == AudioLikely(es[j]) && es[i].rssi == es[j].rssi ==>
                      Number(es[i].address) < Number(es[j].address))
    {
      NumbersCompare(es[i].address, es[j].address);
    }
  }

  /** A sorted table is determined by the records in it. */
  lemma {:induction false} SortedUnique(x: seq<Device>, y: seq<Device>)
    requires Sorted(x) && Sorted(y) && SameMembers(x, y)
    ensures x == y
    decreases |x|
  {
    assert x != [] ==> x[0] in y;
    assert y != [] ==> y[0] in x;
    if x != [] {
      var i :| 0 <= i < |y| && y[i] == x[0];
      var j :| 0 <= j < |x| && x[j] == y[0];
      BeforeIsStrictTotal(x[0], y[0], x[0]);
      assert x[0] == y[0];
      forall d
        ensures d in x[1..] <==> d in y[1..]
      {
        BeforeIsStrictTotal(x[0], d, d);
        TailMembers(x, d);
        TailMembers(y, d);
      }
      SortedUnique(x[1..], y[1..]);
      assert x == [x[0]] + x[1..];
      assert y == [y[0]] + y[1..];
    }
  }

  lemma TailMembers(x: seq<Device>, d: Device)
    requires x != [] && Sorted(x)
    ensures d in x[1..] <==> d in x && d != x[0]
  {
    if d in x[1..] {
      var k :| 0 <= k < |x[1..]| && x[1..][k] == d;
      assert Before(x[0], x[k + 1]);
      BeforeIsStrictTotal(d, d, d);
    }
    if d in x && d != x[0] {
      var k :| 0 <= k < |x| && x[k] == d;
      assert x[1..][k - 1] == d;
    }
  }

  // ----- what a table shows

  type Records = map<Address, Device>

  /** The entries are exactly these records, one per address. */
  ghost predicate Holds(es: seq<Device>, records: Records) {
    && Distinct(es)
    && (forall a | a in records :: a != ZERO && records[a].address == a && records[a] in es)
    && (forall d | d in es :: d.address in records && records[d.address] == d)
  }

  /** The table shows exactly these records, in presentation order. */
  ghost predicate Shows(es: seq<Device>, records: Records) {
    Sorted(es) && Holds(es, records)
  }

  function WithEpoch(d: Device, epoch: U32): Device {
    d.(lastSeenEpoch := epoch)
  }

  /** The scan result enters as a new record or replaces the one of its address; a full map takes no new ones. */
  function Upserted(records: Records, d: Device, epoch: U32): Records {
    if d.address == ZERO || (d.address !in records && |records| >= CAPACITY) then records
    else records[d.address := WithEpoch(d, epoch)]
  }

  lemma InitMembers<K>(keys: seq<K>)
    requires keys != [] && forall i, j | 0 <= i < j < |keys| :: keys[i] != keys[j]
    ensures forall a :: a in keys[..|keys| - 1] <==> a in keys && a != keys[|keys| - 1]
  {
    assert keys == keys[..|keys| - 1] + [keys[|keys| - 1]];
  }

  lemma {:induction false} CountDistinct<K>(keys: seq<K>, members: set<K>)
    requires forall i, j | 0 <= i < j < |keys| :: keys[i] != keys[j]
    requires forall a :: a in members <==> a in keys
    ensures |members| == |keys|
    decreases |keys|
  {
    if keys == [] {
      assert members == {};
    } else {
      var last := keys[|keys| - 1];
      InitMembers(keys);
      assert last in keys;
      CountDistinct(keys[..|keys| - 1], members - {last});
    }
  }

  lemma CountKeys<K, V>(keys: seq<K>, records: map<K, V>)
    requires forall i, j | 0 <= i < j < |keys| :: keys[i] != keys[j]
    requires forall a :: a in records <==> a in keys
    ensures |records| == |keys|
  {
    CountDistinct(keys, records.Keys);
  }

  /** A table has as many entries as there are records. */
  lemma CountsAgree(es: seq<Device>, records: Records)
    requires Holds(es, records)
    ensures |es| == |records|
  {
    var keys := seq(|es|, i requires 0 <= i < |es| => es[i].address);
    forall a
      ensures a in records <==> a in keys
    {
      if a in records {
        var k :| 0 <= k < |es| && es[k] == records[a];
        assert keys[k] == a;
      }
      if a in keys {
        var k :| 0 <= k < |keys| && keys[k] == a;
        assert es[k] in es;
      }
    }
    CountKeys(keys, records);
  }

  lemma ShowsUnique(x: seq<Device>, y: seq<Device>, records: Records)
    requires Shows(x, records) && Shows(y, records)
    ensures x == y
  {
    SortedUnique(x, y);
  }

  // ----- the table as the source has it

  class DiscoveryTable {
    const entries: array<Device>
    var len: nat
    var epoch: U32
    var dropped: U32
    ghost var records: Records

    ghost predicate Valid()
      reads this, entries
    {
      entries.Length == CAPACITY && len <= CAPACITY && Shows(entries[..len], records)
    }

    constructor ()
      ensures Valid() && fresh(entries) && records == map[] && epoch == 0 && dropped == 0
    {
      entries := new Device[CAPACITY](_ => Device(ZERO, [], 0, 0, 0));
      len, epoch, dropped := 0, 0, 0;
      records := map[];
    }

    method BeginScan() returns (started: U32)
      requires Valid()
      modifies this
      ensures Valid() && records == map[] && len == 0 && dropped == 0
      ensures started == epoch == (if old(epoch) == TWO32 - 1 then 1 else old(epoch) + 1)
    {
      epoch := Max((epoch + 1) % TWO32, 1);
      len := 0;
      dropped := 0;
      records := map[];
      started := epoch;
    }

    method Position(address: Address) returns (found: Option<nat>)
      requires Valid()
      ensures match found
              case None => address !in records
              case Some(i) => i < len && entries[i].address == address
    {
      hide Sorted, Distinct, Before;
      assert address in records ==> records[address] in entries[..len];
      for i := 0 to len
        invariant forall k | 0 <= k < i :: entries[k].address != address
      {
        if entries[i].address == address {
          return Some(i);
        }
      }
      found := None;
    }

    method Upsert(device: Device) returns (kept: bool)
      requires Valid()
      modifies this, entries
      ensures Valid() && epoch == old(epoch) && len == |records|
      ensures records == Upserted(old(records), device, epoch)
      ensures kept == (device.address != ZERO && (device.address in old(records) || |old(records)| < CAPACITY))
      ensures dropped == if kept || device.address == ZERO then old(dropped) else Min(old(dropped) + 1, TWO32 - 1)
    {
      hide Sorted, Distinct, Holds, Before;
      CountsAgree(entries[..len], records);
      if device.address == ZERO {
        return false;
      }
      var seen := WithEpoch(device, epoch);
      var position := Position(device.address);
      ghost var was := entries[..len];
      if position.Some? {
        var index := position.value;
        entries[index] := seen;
        assert entries[..len] == was[index := seen];
        assert was[index] in was;
        ReplacedRecords(was, records, index, seen);
      } else if len == CAPACITY {
        dropped := Min(dropped + 1, TWO32 - 1);
        return false;
      } else {
        entries[len] := seen;
        len := len + 1;
        assert entries[..len] == was + [seen];
        AppendedRecords(was, records, seen);
      }
      ghost var unsorted := entries[..len];
      records := records[device.address := seen];
      HoldsDistinct(unsorted, records);
      Sort();
      HoldsAnyOrder(unsorted, entries[..len], records);
      CountsAgree(entries[..len], records);
      kept := true;
    }

    /** Insertion sort of the occupied entries. */
    method Sort()
      requires entries.Length == CAPACITY && len <= CAPACITY && Distinct(entries[..len])
      modifies entries
      ensures Sorted(entries[..len]) && Distinct(entries[..len])
      ensures SameMembers(entries[..len], old(entries[..len]))
    {
      hide Before;
      var i := 1;
      while i < len
        invariant 1 <= i && (len >= 1 ==> i <= len)
        invariant Distinct(entries[..len]) && Sorted(entries[..Min(i, len)])
        invariant SameMembers(entries[..len], old(entries[..len]))
      {
        Insert(i);
        i := i + 1;
      }
    }

    /** The inner loop: entry `i` moves down to its place among the sorted ones before it. */
    method Insert(i: nat)
      requires entries.Length == CAPACITY && i < len <= CAPACITY
      requires Distinct(entries[..len]) && Sorted(entries[..i])
      modifies entries
      ensures Distinct(entries[..len]) && Sorted(entries[..i + 1])
      ensures SameMembers(entries[..len], old(entries[..len]))
    {
      hide Before, SameMembers, Distinct;
      SameIsEquivalence(entries[..len], entries[..len], entries[..len]);
      var j := i;
      while j > 0 && Before(entries[j], entries[j - 1])
        invariant 0 <= j <= i
        invariant Distinct(entries[..len])
        invariant forall a, b | 0 <= a < b <= i && b != j :: Before(entries[..len][a], entries[..len][b])
        invariant SameMembers(entries[..len], old(entries[..len]))
        decreases j
      {
        ghost var was := entries[..len];
        entries[j], entries[j - 1] := entries[j - 1], entries[j];
        assert entries[..len] == was[j := was[j - 1]][j - 1 := was[j]];
        SwapKeeps(was, j - 1, j);
        SameIsEquivalence(entries[..len], was, old(entries[..len]));
        j := j - 1;
      }
      Settled(entries[..len], i, j);
      assert entries[..i + 1] == entries[..len][..i + 1];
    }
  }

  lemma HoldsDistinct(es: seq<Device>, records: Records)
    requires Holds(es, records)
    ensures Distinct(es)
  {
  }

  lemma HoldsAnyOrder(x: seq<Device>, y: seq<Device>, records: Records)
    requires Holds(x, records) && Distinct(y) && SameMembers(y, x)
    ensures Holds(y, records)
  {
  }

  lemma SameIsEquivalence(x: seq<Device>, y: seq<Device>, z: seq<Device>)
    ensures SameMembers(x, x)
    ensures SameMembers(x, y) && SameMembers(y, z) ==> SameMembers(x, z)
  {
  }

  lemma SwapKeeps(s: seq<Device>, i: nat, j: nat)
    requires i < j < |s| && Distinct(s)
    ensures var t := s[j := s[i]][i := s[j]];
            Distinct(t) && SameMembers(t, s)
  {
    var t := s[j := s[i]][i := s[j]];
    forall d
      ensures d in t <==> d in s
    {
      if d in s {
        var k :| 0 <= k < |s| && s[k] == d;
        assert t[if k == i then j else if k == j then i else k] == d;
      }
      if d in t {
        var k :| 0 <= k < |t| && t[k] == d;
        assert s[if k == i then j else if k == j then i else k] == d;
      }
    }
  }

  /** The inserted entry has come to rest: everything up to `i` is in order. */
  lemma Settled(s: seq<Device>, i: nat, j: nat)
    requires j <= i < |s| && Distinct(s)
    requires forall a, b | 0 <= a < b <= i && b != j :: Before(s[a], s[b])
    requires j > 0 ==> !Before(s[j], s[j - 1])
    ensures Sorted(s[..i + 1])
  {
    forall a | 0 <= a < j
      ensures Before(s[a], s[j])
    {
      BeforeIsStrictTotal(s[a], s[j - 1], s[j]);
      BeforeIsStrictTotal(s[j - 1], s[j], s[j]);
    }
  }

  /** Replacing the entry of an address, before sorting. */
  lemma ReplacedRecords(es: seq<Device>, records: Records, index: nat, d: Device)
    requires Holds(es, records) && index < |es| && es[index].address == d.address != ZERO
    ensures d.address in records && Holds(es[index := d], records[d.address := d])
  {
    var t, r := es[index := d], records[d.address := d];
    assert es[index] in es;
    forall a | a in r
      ensures r[a] in t
    {
      if a == d.address {
        assert t[index] == d;
      } else {
        var k :| 0 <= k < |es| && es[k] == records[a];
        assert t[k] == es[k];
      }
    }
    forall e | e in t
      ensures e.address in r && r[e.address] == e
    {
      var k :| 0 <= k < |t| && t[k] == e;
      if k != index {
        assert es[k] in es && es[k].address != es[index].address;
      }
    }
  }

  lemma AppendedRecords(es: seq<Device>, records: Records, d: Device)
    requires Holds(es, records) && d.address !in records && d.address != ZERO
    ensures Holds(es + [d], records[d.address := d])
  {
    forall k | 0 <= k < |es|
      ensures es[k].address != d.address
    {
      assert es[k] in es;
    }
  }

  // ----- whole scans

  /** The records after the results `rs` of one scan. */
  function Scanned(rs: seq<Device>, epoch: U32): Records {
    if rs == [] then map[] else Upserted(Scanned(rs[..|rs| - 1], epoch), rs[|rs| - 1], epoch)
  }

  /** Nonzero addresses in the order of their first result. */
  function FirstSeen(rs: seq<Device>): seq<Address> {
    if rs == [] then []
    else
      var seen, a := FirstSeen(rs[..|rs| - 1]), rs[|rs| - 1].address;
      if a == ZERO || a in seen then seen else seen + [a]
  }

  /** The results of one address, oldest first. */
  function Reports(rs: seq<Device>, a: Address): seq<Device> {
    if rs == [] then []
    else Reports(rs[..|rs| - 1], a) + if rs[|rs| - 1].address == a then [rs[|rs| - 1]] else []
  }

  function Admitted(rs: seq<Device>): seq<Address> {
    FirstSeen(rs)[..Min(CAPACITY, |FirstSeen(rs)|)]
  }

  lemma {:induction false} SeenIsReported(rs: seq<Device>, a: Address)
    ensures a in FirstSeen(rs) <==> a != ZERO && Reports(rs, a) != []
    ensures forall d | d in Reports(rs, a) :: d.address == a
    ensures forall i, j | 0 <= i < j < |FirstSeen(rs)| :: FirstSeen(rs)[i] != FirstSeen(rs)[j]
  {
    if rs != [] {
      SeenIsReported(rs[..|rs| - 1], a);
    }
  }

  /** How one more result changes the admitted addresses. */
  lemma AdmittedStep(rs: seq<Device>)
    requires rs != []
    ensures var init, a := rs[..|rs| - 1], rs[|rs| - 1].address;
            Admitted(rs) == if a == ZERO || a in Admitted(init) || |Admitted(init)| == CAPACITY then Admitted(init)
                            else Admitted(init) + [a]
  {
    hide Upserted;
    var init, a := rs[..|rs| - 1], rs[|rs| - 1].address;
    var seen := FirstSeen(init);
    if a != ZERO && a !in seen {
      assert FirstSeen(rs) == seen + [a];
      assert forall b | b in Admitted(init) :: b in seen;
    } else if a in seen && |seen| <= CAPACITY {
      assert Admitted(init) == seen;
    }
  }

  /** The latest result of an address. */
  function Latest(rs: seq<Device>, a: Address): Option<Device> {
    var reports := Reports(rs, a);
    if reports == [] then None else Some(reports[|reports| - 1])
  }

  lemma {:induction false} KeysAreAdmitted(rs: seq<Device>, epoch: U32)
    ensures forall a :: a in Scanned(rs, epoch) <==> a in Admitted(rs)
    ensures |Scanned(rs, epoch)| == |Admitted(rs)|
  {
    hide FirstSeen, WithEpoch, Admitted;
    AdmittedDiffer(rs);
    if rs != [] {
      KeysAreAdmitted(rs[..|rs| - 1], epoch);
      AdmittedDiffer(rs[..|rs| - 1]);
      AdmittedStep(rs);
    }
    CountKeys(Admitted(rs), Scanned(rs, epoch));
  }

  lemma {:induction false} RecordsAreLatest(rs: seq<Device>, epoch: U32)
    ensures forall a | a in Scanned(rs, epoch) ::
              Latest(rs, a).Some? && Scanned(rs, epoch)[a] == WithEpoch(Latest(rs, a).value, epoch)
  {
    hide WithEpoch, FirstSeen;
    if rs != [] {
      var init, last := rs[..|rs| - 1], rs[|rs| - 1];
      RecordsAreLatest(init, epoch);
      AlwaysUpdated(init, last, epoch);
      forall a | a in Scanned(rs, epoch)
        ensures Latest(rs, a).Some? && Scanned(rs, epoch)[a] == WithEpoch(Latest(rs, a).value, epoch)
      {
        if a != last.address {
          assert Latest(rs, a) == Latest(init, a);
        }
      }
    }
  }

  lemma AlwaysUpdated(init: seq<Device>, last: Device, epoch: U32)
    ensures var before, after := Scanned(init, epoch), Upserted(Scanned(init, epoch), last, epoch);
            && (last.address in after ==> after[last.address] == WithEpoch(last, epoch))
            && (forall a | a in after && a != last.address :: a in before && after[a] == before[a])
  {
    KeysAreAdmitted(init, epoch);
    SeenIsReported(init, ZERO);
    assert ZERO !in FirstSeen(init);
  }

  /**
   * After any results of one scan the table holds exactly the first twelve distinct nonzero
   * addresses, each with its latest result.
   */
  lemma KeepsLatestOfFirstTwelve(rs: seq<Device>, epoch: U32)
    ensures forall a :: a in Scanned(rs, epoch) <==> a in Admitted(rs)
    ensures |Scanned(rs, epoch)| == |Admitted(rs)| == Min(CAPACITY, |FirstSeen(rs)|)
    ensures forall a | a in Scanned(rs, epoch) ::
              Latest(rs, a).Some? && Scanned(rs, epoch)[a] == WithEpoch(Latest(rs, a).value, epoch)
  {
    KeysAreAdmitted(rs, epoch);
    RecordsAreLatest(rs, epoch);
  }

  lemma AdmittedDiffer(rs: seq<Device>)
    ensures forall i, j | 0 <= i < j < |Admitted(rs)| :: Admitted(rs)[i] != Admitted(rs)[j]
    ensures |Admitted(rs)| <= CAPACITY
    ensures rs == [] ==> Admitted(rs) == []
  {
    SeenIsReported(rs, ZERO);
  }

  /**
   * With at most twelve addresses, two scans that report each address the same way show the same
   * table, however the results of different addresses were interleaved.
   */
  lemma InterleavingDoesNotShow(x: seq<Device>, y: seq<Device>, epoch: U32, ex: seq<Device>, ey: seq<Device>)
    requires |FirstSeen(x)| <= CAPACITY && |FirstSeen(y)| <= CAPACITY
    requires forall a: Address :: Reports(x, a) == Reports(y, a)
    requires Shows(ex, Scanned(x, epoch)) && Shows(ey, Scanned(y, epoch))
    ensures ex == ey
  {
    hide FirstSeen, Reports, Scanned, Shows;
    var mx, my := Scanned(x, epoch), Scanned(y, epoch);
    KeepsLatestOfFirstTwelve(x, epoch);
    KeepsLatestOfFirstTwelve(y, epoch);
    assert Admitted(x) == FirstSeen(x) && Admitted(y) == FirstSeen(y);
    forall a: Address
      ensures a in mx <==> a in my
    {
      SeenIsReported(x, a);
      SeenIsReported(y, a);
    }
    forall a: Address
      ensures Latest(x, a) == Latest(y, a)
    {
      assert Reports(x, a) == Reports(y, a);
    }
    assert mx == my;
    ShowsUnique(ex, ey, mx);
  }
}
