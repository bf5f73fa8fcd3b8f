/** The I/O dispatch table of YAMS: devices get consecutive ranges as they are added (simulator.c), simulator_init
    fills one table slot per word of the I/O area, and memory.c looks addresses up in it. */
module IoTable {
  import opened Words

  const IO_AREA_BASE := 0xb000_8000

  datatype Device = Device(id: nat, ioBase: Word, ioLength: Word)

  predicate Owns(d: Device, address: int) { d.ioBase <= address < d.ioBase + d.ioLength }

  function Total(devices: seq<Device>): nat {
    if devices == [] then 0 else devices[0].ioLength + Total(devices[1..])
  }

  /** Newest first, each device's range follows that of the device added before it. */
  ghost predicate Laid(devices: seq<Device>) {
    devices == [] ||
    (Laid(devices[1..]) && devices[0].ioLength % 4 == 0 && devices[0].ioBase == IO_AREA_BASE + Total(devices[1..]))
  }

  /** Every device range lies in the I/O area. */
  lemma {:induction false} RangeInArea(devices: seq<Device>, k: nat)
    requires Laid(devices) && k < |devices|
    ensures IO_AREA_BASE <= devices[k].ioBase && devices[k].ioBase + devices[k].ioLength <= IO_AREA_BASE + Total(devices)
    decreases k
  {
    if k > 0 { RangeInArea(devices[1..], k - 1); }
  }

  /** Every address of the I/O area belongs to exactly one device. */
  lemma {:induction false} OwnerExists(devices: seq<Device>, address: int) returns (k: nat)
    requires Laid(devices) && IO_AREA_BASE <= address < IO_AREA_BASE + Total(devices)
    ensures k < |devices| && Owns(devices[k], address)
    ensures forall j :: 0 <= j < |devices| && Owns(devices[j], address) ==> j == k
    decreases devices
  {
    if address >= devices[0].ioBase {
      k := 0;
      forall j | 0 < j < |devices| ensures !Owns(devices[j], address) { RangeInArea(devices[1..], j - 1); }
    } else {
      var i := OwnerExists(devices[1..], address);
      k := i + 1;
      forall j | 0 < j < |devices| && Owns(devices[j], address) ensures j == k { assert devices[1..][j - 1] == devices[j]; }
    }
  }

  /** Slot `j` of the table names the device that owns word `j` of the I/O area. */
  ghost predicate SlotOk(devices: seq<Device>, d: Device, j: int) {
    d in devices && Owns(d, IO_AREA_BASE + 4 * j) && Owns(d, IO_AREA_BASE + 4 * j + 3)
  }

  /** The slots of a table of `n`, from the last one down. */
  ghost predicate Backwards(writes: seq<int>, n: int) {
    forall k :: 0 <= k < |writes| ==> writes[k] == n - 1 - k
  }

  class Simulator {
    var devices: seq<Device>
    var ioAreaLength: nat
    var ioDevices: array<Device>

    /** The ranges are consecutive as long as they end below 2^32. */
    ghost predicate Valid()
      reads this
    {
      Laid(devices) && IO_AREA_BASE + Total(devices) < WORDS
    }

    constructor ()
      ensures Valid() && devices == []
    {
      devices := [];
      ioAreaLength := 0;
      ioDevices := new Device[0];
    }

    /** simulator_add_device */
    method AddDevice(id: nat, ioLength: Word)
      requires Valid() && ioLength % 4 == 0 && IO_AREA_BASE + Total(devices) + ioLength < WORDS
      modifies this`devices
      ensures Valid() && |devices| == |old(devices)| + 1 && devices[1..] == old(devices)
      ensures devices[0].id == id && devices[0].ioLength == ioLength
      ensures devices[0].ioBase == if old(devices) == [] then 0xb000_8000 else old(devices[0].ioBase + devices[0].ioLength)
    {
      var iobase: Word := IO_AREA_BASE;
      if devices != [] {
        iobase := devices[0].ioBase + devices[0].ioLength;
      }
      devices := [Device(id, iobase, ioLength)] + devices;
    }

    /** simulator_init: fills the table backwards, newest device first; `writes` lists the slots in the order written. */
    method Init() returns (ghost writes: seq<int>)
      requires Valid()
      modifies this`ioAreaLength, this`ioDevices
      ensures Valid() && fresh(ioDevices) && ioAreaLength == Total(devices) && 4 * ioDevices.Length == ioAreaLength
      ensures forall j :: 0 <= j < ioDevices.Length ==> SlotOk(devices, ioDevices[j], j)
      ensures |writes| == ioDevices.Length && Backwards(writes, ioDevices.Length)
    {
      hide SlotOk, Total, Laid, Backwards;
      NoneYet();
      WordsTotal(devices);
      NewestEnds(devices);
      var ioLength := 0;
      if devices != [] {
        ioLength := devices[0].ioBase - IO_AREA_BASE + devices[0].ioLength;
      }
      ioAreaLength := ioLength;
      var table := new Device[ioLength / 4](_ => Device(0, 0, 0));
      var offset := ioLength / 4 - 1;
      writes := [];
      var dev := 0;
      while dev < |devices|
        invariant 0 <= dev <= |devices| && offset == Total(devices[dev..]) / 4 - 1 && Laid(devices[dev..])
        invariant Total(devices[dev..]) % 4 == 0
        invariant forall j :: offset < j < table.Length ==> SlotOk(devices, table[j], j)
        invariant |writes| == table.Length - 1 - offset && Backwards(writes, table.Length)
        modifies table
      {
        var d := devices[dev];
        Peel(devices, dev);
        var i := 0;
        while i < d.ioLength
          invariant 0 <= i <= d.ioLength && i % 4 == 0
          invariant offset == Total(devices[dev..]) / 4 - 1 - i / 4
          invariant forall j :: offset < j < table.Length ==> SlotOk(devices, table[j], j)
          invariant |writes| == table.Length - 1 - offset && Backwards(writes, table.Length)
          modifies table
        {
          SlotOwned(devices, dev, i, offset);
          table[offset] := d;
          BackwardsNext(writes, table.Length);
          writes := writes + [offset];
          offset := offset - 1;
          i := i + 4;
        }
        dev := dev + 1;
      }
      assert devices[dev..] == [];
      ioDevices := table;
    }

    /** The lookup of memory.c: any address of the I/O area reaches the one device whose range contains it. */
    method Lookup(address: Word) returns (d: Device)
      requires Valid() && ioAreaLength == Total(devices) && 4 * ioDevices.Length == ioAreaLength
      requires forall j :: 0 <= j < ioDevices.Length ==> SlotOk(devices, ioDevices[j], j)
      requires IO_AREA_BASE <= address < IO_AREA_BASE + ioAreaLength
      ensures d in devices && Owns(d, address)
      ensures forall e :: e in devices && Owns(e, address) ==> e == d
    {
      var i := (address - IO_AREA_BASE) / 4;
      d := ioDevices[i];
      ghost var k := OwnerExists(devices, address);
    }
  }

  lemma NoneYet()
    ensures forall n :: Backwards([], n)
  {
  }

  lemma BackwardsNext(writes: seq<int>, n: int)
    requires Backwards(writes, n)
    ensures Backwards(writes + [n - 1 - |writes|], n)
  {
  }

  /** The newest device ends where the I/O area ends. */
  lemma NewestEnds(devices: seq<Device>)
    requires Laid(devices)
    ensures Total(devices) == if devices == [] then 0 else devices[0].ioBase - IO_AREA_BASE + devices[0].ioLength
    ensures devices[0..] == devices && Total([]) == 0
  {
  }

  lemma Peel(devices: seq<Device>, dev: nat)
    requires dev < |devices| && Laid(devices[dev..])
    ensures Laid(devices[dev + 1..]) && devices[dev].ioLength % 4 == 0
    ensures Total(devices[dev..]) == devices[dev].ioLength + Total(devices[dev + 1..])
    ensures Total(devices[dev..]) % 4 == 0 && Total(devices[dev + 1..]) % 4 == 0
  {
    assert devices[dev..][0] == devices[dev] && devices[dev..][1..] == devices[dev + 1..];
    WordsTotal(devices[dev..]);
    WordsTotal(devices[dev + 1..]);
  }

  /** The slot the backward fill writes lies in the range of the device it is at. */
  lemma SlotOwned(devices: seq<Device>, dev: nat, i: nat, offset: int)
    requires dev < |devices| && Laid(devices[dev..]) && i < devices[dev].ioLength && i % 4 == 0
    requires Total(devices[dev..]) % 4 == 0 && offset == Total(devices[dev..]) / 4 - 1 - i / 4
    ensures offset >= 0 && SlotOk(devices, devices[dev], offset)
  {
    assert devices[dev..][0] == devices[dev];
  }

  lemma {:induction false} WordsTotal(devices: seq<Device>)
    requires Laid(devices)
    ensures Total(devices) % 4 == 0
    decreases devices
  {
    if devices != [] { WordsTotal(devices[1..]); }
  }
}
