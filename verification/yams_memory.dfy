/** YAMS memory accesses (memory.c) and the unaligned loads and stores (cpu.c), big-endian. */
module YamsMemory {
  import opened YamsTlb

  /** A byte held in a register-sized vector. */
  type Byte8 = b: Reg | b <= 0xff

  datatype Exception = AddressLoad | AddressStore | TlbLoad | TlbStore | TlbInvalid | TlbModified | BusError

  /** Where an access goes: main memory, the I/O area, or nowhere. */
  datatype Place = Ram(address: Reg) | Io | Fault(exception: Exception)

  /** Main memory: the bytes below `size`, a whole number of pages. */
  datatype Memory = Memory(bytes: Reg -> Byte8, size: Reg)

  predicate Whole(m: Memory) { m.size & 0xfff == 0 }

  function Translated(c: Cp0, va: Reg, reference: Reference): Place
    requires Sized(c)
  {
    match Translate(c, va, reference)
    case Physical(a) => Ram(a)
    case Refill => Fault(if reference.Load? then TlbLoad else TlbStore)
    case Invalid => Fault(TlbInvalid)
    case Modification => Fault(TlbModified)
  }

  /** Segment translation, for an aligned address. */
  function Segment(c: Cp0, kernel: bool, va: Reg, reference: Reference): Place
    requires Sized(c)
  {
    if InKseg2(va) then (if kernel then Translated(c, va, reference) else Fault(AddressLoad))
    else if AboveKseg0(va) then
      (if !kernel then Fault(if reference.Load? then AddressLoad else AddressStore)
       else if InIoArea(va) then Io
       else Ram(Kseg1(va)))
    else if AboveKuseg(va) then
      (if kernel then Ram(Kseg0(va)) else Fault(if reference.Load? then AddressLoad else AddressStore))
    else Translated(c, va, reference)
  }

  predicate InKseg2(va: Reg) { va >= 0xc000_0000 }

  predicate InIoArea(va: Reg) { va >= 0xb000_0000 }

  predicate AboveKseg0(va: Reg) { va >= 0xa000_0000 }

  predicate AboveKuseg(va: Reg) { va >= 0x8000_0000 }

  function Kseg0(va: Reg): Reg { va - 0x8000_0000 }

  function Kseg1(va: Reg): Reg { va - 0xa000_0000 }

  /** Segment translation and the bounds check. */
  function Locate(m: Memory, c: Cp0, kernel: bool, va: Reg, reference: Reference): Place
    requires Sized(c)
  {
    var place := Segment(c, kernel, va, reference);
    if place.Ram? && !Below(place.address, m.size) then Fault(BusError) else place
  }

  predicate Below(a: Reg, size: Reg) { a < size }

  lemma Unmapped(va: Reg)
    requires 0x8000_0000 <= va < 0xc000_0000
    ensures va < 0xa000_0000 ==> Kseg0(va) == va & 0x1fff_ffff
    ensures va >= 0xa000_0000 ==> Kseg1(va) == va & 0x1fff_ffff
  {
  }

  lemma UnmappedSegment(c: Cp0, va: Reg, reference: Reference)
    requires Sized(c) && 0x8000_0000 <= va < 0xc000_0000
    ensures Segment(c, true, va, reference) == if va >= 0xb000_0000 then Io else Ram(va & 0x1fff_ffff)
  {
    hide Translated, Kseg0, Kseg1;
    Unmapped(va);
  }

  lemma MappedSegment(c: Cp0, kernel: bool, va: Reg, reference: Reference)
    requires Sized(c) && (va < 0x8000_0000 || (va >= 0xc000_0000 && kernel))
    ensures Segment(c, kernel, va, reference)
         == match Translate(c, va, reference)
            case Physical(a) => Ram(a)
            case Refill => Fault(if reference == Load then TlbLoad else TlbStore)
            case Invalid => Fault(TlbInvalid)
            case Modification => Fault(TlbModified)
  {
    hide Translate, Kseg0, Kseg1;
  }

  /** A user program reaches only what lies below 2^31. */
  lemma UserSegment(c: Cp0, va: Reg, reference: Reference)
    requires Sized(c) && va >= 0x8000_0000
    ensures Segment(c, false, va, reference)
         == Fault(if reference == Store && va < 0xc000_0000 then AddressStore else AddressLoad)
  {
    hide Translated, Kseg0, Kseg1;
  }

  /** Where an access goes, by its address: below 2^31, and for the kernel from 3 * 2^30 on, the TLB decides; in between the
      kernel gets to the low 29 bits of the address, but for the I/O area from 0xb0000000 on. A place in main memory is below
      its size. */
  ghost predicate GoesTo(m: Memory, c: Cp0, kernel: bool, va: Reg, reference: Reference, p: Place)
    requires Sized(c)
  {
    if va >= 0x8000_0000 && !kernel then
      p == Fault(if reference == Store && va < 0xc000_0000 then AddressStore else AddressLoad)
    else if 0x8000_0000 <= va < 0xc000_0000 then
      p == if va >= 0xb000_0000 then Io else InMemory(m.size, va & 0x1fff_ffff)
    else
      p == match Translate(c, va, reference)
           case Physical(a) => InMemory(m.size, a)
           case Refill => Fault(if reference == Load then TlbLoad else TlbStore)
           case Invalid => Fault(TlbInvalid)
           case Modification => Fault(TlbModified)
  }

  function InMemory(size: Reg, a: Reg): Place { if a < size then Ram(a) else Fault(BusError) }

  lemma WhereItGoes(m: Memory, c: Cp0, kernel: bool, va: Reg, reference: Reference)
    requires Sized(c)
    ensures GoesTo(m, c, kernel, va, reference, Locate(m, c, kernel, va, reference))
  {
    hide Segment, Translate, Below, InMemory;
    var place := Segment(c, kernel, va, reference);
    if place.Ram? { InMemoryIs(m.size, place.address); }
    if va >= 0x8000_0000 && !kernel {
      UserSegment(c, va, reference);
    } else if 0x8000_0000 <= va < 0xc000_0000 {
      UnmappedSegment(c, va, reference);
    } else {
      MappedSegment(c, kernel, va, reference);
    }
  }

  lemma InMemoryIs(size: Reg, a: Reg)
    ensures InMemory(size, a) == if Below(a, size) then Ram(a) else Fault(BusError)
  {
  }

  // ----- words in memory -----

  /** Byte `k` of a word, the most significant one first. */
  function ByteOf(w: Reg, k: nat): Byte8 {
    match k
    case 0 => w >> 24
    case 1 => (w >> 16) & 0xff
    case 2 => (w >> 8) & 0xff
    case _ => w & 0xff
  }

  function Joined(b0: Byte8, b1: Byte8, b2: Byte8, b3: Byte8): Reg {
    (b0 << 24) | (b1 << 16) | (b2 << 8) | b3
  }

  /** An aligned address below the memory size. */
  predicate WordAddress(m: Memory, a: Reg) { a & 3 == 0 && Below(a, m.size) }

  function ReadWord(m: Memory, a: Reg): Reg {
    Joined(m.bytes(a), m.bytes(a + 1), m.bytes(a + 2), m.bytes(a + 3))
  }

  function Put(bytes: Reg -> Byte8, a: Reg, b: Byte8): Reg -> Byte8 { x => if x == a then b else bytes(x) }

  function WriteWord(m: Memory, a: Reg, w: Reg): Memory {
    m.(bytes := Put(Put(Put(Put(m.bytes, a, ByteOf(w, 0)), a + 1, ByteOf(w, 1)), a + 2, ByteOf(w, 2)), a + 3, ByteOf(w, 3)))
  }

  lemma JoinedBytes(b0: Byte8, b1: Byte8, b2: Byte8, b3: Byte8)
    ensures var w := Joined(b0, b1, b2, b3);
            ByteOf(w, 0) == b0 && ByteOf(w, 1) == b1 && ByteOf(w, 2) == b2 && ByteOf(w, 3) == b3
  {
  }

  lemma BytesJoined(w: Reg)
    ensures Joined(ByteOf(w, 0), ByteOf(w, 1), ByteOf(w, 2), ByteOf(w, 3)) == w
  {
  }

  // ----- the merges of the unaligned instructions -----

  function SwlMerge(old_: Reg, rt: Reg, va: Reg): Reg { SwlShift(old_, rt, va & 3) }

  function SwlShift(old_: Reg, rt: Reg, offset: Reg): Reg
    requires offset <= 3
  {
    var sft := 32 - offset * 8;
    var mask: Reg := if sft >= 32 then 0 else 0xffff_ffff << sft;
    (old_ & mask) | (rt >> (offset * 8))
  }

  function SwrMerge(old_: Reg, rt: Reg, va: Reg): Reg { SwrShift(old_, rt, va & 3) }

  function SwrShift(old_: Reg, rt: Reg, offset: Reg): Reg
    requires offset <= 3
  {
    var sft := 8 + offset * 8;
    var mask: Reg := if sft >= 32 then 0 else 0xffff_ffff >> sft;
    (old_ & mask) | (rt << (24 - offset * 8))
  }

  function LwlMerge(word: Reg, rt: Reg, va: Reg): Reg { LwlShift(word, rt, va & 3) }

  function LwlShift(word: Reg, rt: Reg, offset: Reg): Reg
    requires offset <= 3
  {
    var sft := 32 - offset * 8;
    var mask: Reg := if sft >= 32 then 0 else 0xffff_ffff >> sft;
    (rt & mask) | (word << (offset * 8))
  }

  function LwrMerge(word: Reg, rt: Reg, va: Reg): Reg { LwrShift(word, rt, va & 3) }

  function LwrShift(word: Reg, rt: Reg, offset: Reg): Reg
    requires offset <= 3
  {
    var sft := 8 + offset * 8;
    var mask: Reg := if sft >= 32 then 0 else 0xffff_ffff << sft;
    (rt & mask) | (word >> (24 - offset * 8))
  }

  /** The place of a byte in its word. */
  function Offset(va: Reg): (o: nat)
    ensures o <= 3
  {
    if va & 3 == 0 then 0 else if va & 3 == 1 then 1 else if va & 3 == 2 then 2 else 3
  }

  lemma SwlForm0(old_: Reg, rt: Reg)
    ensures SwlShift(old_, rt, 0) == rt
  {
  }

  lemma SwlForm1(old_: Reg, rt: Reg)
    ensures SwlShift(old_, rt, 1) == (old_ & 0xff00_0000) | (rt >> 8)
  {
  }

  lemma SwlForm2(old_: Reg, rt: Reg)
    ensures SwlShift(old_, rt, 2) == (old_ & 0xffff_0000) | (rt >> 16)
  {
  }

  lemma SwlForm3(old_: Reg, rt: Reg)
    ensures SwlShift(old_, rt, 3) == (old_ & 0xffff_ff00) | (rt >> 24)
  {
  }

  lemma SwrForm0(old_: Reg, rt: Reg)
    ensures SwrShift(old_, rt, 0) == (old_ & 0x00ff_ffff) | (rt << 24)
  {
  }

  lemma SwrForm1(old_: Reg, rt: Reg)
    ensures SwrShift(old_, rt, 1) == (old_ & 0x0000_ffff) | (rt << 16)
  {
  }

  lemma SwrForm2(old_: Reg, rt: Reg)
    ensures SwrShift(old_, rt, 2) == (old_ & 0x0000_00ff) | (rt << 8)
  {
  }

  lemma SwrForm3(old_: Reg, rt: Reg)
    ensures SwrShift(old_, rt, 3) == rt
  {
  }

  lemma OffsetCases(va: Reg)
    ensures va & 3 == 0 || va & 3 == 1 || va & 3 == 2 || va & 3 == 3
    ensures (va & 3 == 1 <==> Offset(va) == 1) && (va & 3 == 2 <==> Offset(va) == 2)
    ensures (va & 3 == 0 <==> Offset(va) == 0) && (va & 3 == 3 <==> Offset(va) == 3)
  {
  }

  /** The bytes of a word made of the first bytes of one word and the bytes of another, shifted behind them. */
  lemma FirstBytes1(old_: Reg, rt: Reg, k: nat)
    requires k <= 3
    ensures ByteOf((old_ & 0xff00_0000) | (rt >> 8), k) == if k < 1 then ByteOf(old_, k) else ByteOf(rt, k - 1)
  {
  }

  lemma FirstBytes2(old_: Reg, rt: Reg, k: nat)
    requires k <= 3
    ensures ByteOf((old_ & 0xffff_0000) | (rt >> 16), k) == if k < 2 then ByteOf(old_, k) else ByteOf(rt, k - 2)
  {
  }

  lemma FirstBytes3(old_: Reg, rt: Reg, k: nat)
    requires k <= 3
    ensures ByteOf((old_ & 0xffff_ff00) | (rt >> 24), k) == if k < 3 then ByteOf(old_, k) else ByteOf(rt, k - 3)
  {
  }

  lemma LastBytes0(old_: Reg, rt: Reg, k: nat)
    requires k <= 3
    ensures ByteOf((old_ & 0x00ff_ffff) | (rt << 24), k) == if k > 0 then ByteOf(old_, k) else ByteOf(rt, k + 3)
  {
  }

  lemma LastBytes1(old_: Reg, rt: Reg, k: nat)
    requires k <= 3
    ensures ByteOf((old_ & 0x0000_ffff) | (rt << 16), k) == if k > 1 then ByteOf(old_, k) else ByteOf(rt, k + 2)
  {
  }

  lemma LastBytes2(old_: Reg, rt: Reg, k: nat)
    requires k <= 3
    ensures ByteOf((old_ & 0x0000_00ff) | (rt << 8), k) == if k > 2 then ByteOf(old_, k) else ByteOf(rt, k + 1)
  {
  }

  lemma SwlBytes0(old_: Reg, rt: Reg, k: nat)
    requires k <= 3
    ensures ByteOf(SwlShift(old_, rt, 0), k) == if k < 0 then ByteOf(old_, k) else ByteOf(rt, k - 0)
  {
    hide ByteOf, SwlShift;
    SwlForm0(old_, rt);
  }

  lemma SwlBytes1(old_: Reg, rt: Reg, k: nat)
    requires k <= 3
    ensures ByteOf(SwlShift(old_, rt, 1), k) == if k < 1 then ByteOf(old_, k) else ByteOf(rt, k - 1)
  {
    hide ByteOf, SwlShift;
    SwlForm1(old_, rt);
    FirstBytes1(old_, rt, k);
  }

  lemma SwlBytes2(old_: Reg, rt: Reg, k: nat)
    requires k <= 3
    ensures ByteOf(SwlShift(old_, rt, 2), k) == if k < 2 then ByteOf(old_, k) else ByteOf(rt, k - 2)
  {
    hide ByteOf, SwlShift;
    SwlForm2(old_, rt);
    FirstBytes2(old_, rt, k);
  }

  lemma SwlBytes3(old_: Reg, rt: Reg, k: nat)
    requires k <= 3
    ensures ByteOf(SwlShift(old_, rt, 3), k) == if k < 3 then ByteOf(old_, k) else ByteOf(rt, k - 3)
  {
    hide ByteOf, SwlShift;
    SwlForm3(old_, rt);
    FirstBytes3(old_, rt, k);
  }

  lemma SwrBytes0(old_: Reg, rt: Reg, k: nat)
    requires k <= 3
    ensures ByteOf(SwrShift(old_, rt, 0), k) == if k > 0 then ByteOf(old_, k) else ByteOf(rt, k + 3)
  {
    hide ByteOf, SwrShift;
    SwrForm0(old_, rt);
    LastBytes0(old_, rt, k);
  }

  lemma SwrBytes1(old_: Reg, rt: Reg, k: nat)
    requires k <= 3
    ensures ByteOf(SwrShift(old_, rt, 1), k) == if k > 1 then ByteOf(old_, k) else ByteOf(rt, k + 2)
  {
    hide ByteOf, SwrShift;
    SwrForm1(old_, rt);
    LastBytes1(old_, rt, k);
  }

  lemma SwrBytes2(old_: Reg, rt: Reg, k: nat)
    requires k <= 3
    ensures ByteOf(SwrShift(old_, rt, 2), k) == if k > 2 then ByteOf(old_, k) else ByteOf(rt, k + 1)
  {
    hide ByteOf, SwrShift;
    SwrForm2(old_, rt);
    LastBytes2(old_, rt, k);
  }

  lemma SwrBytes3(old_: Reg, rt: Reg, k: nat)
    requires k <= 3
    ensures ByteOf(SwrShift(old_, rt, 3), k) == if k > 3 then ByteOf(old_, k) else ByteOf(rt, k + 0)
  {
    hide ByteOf, SwrShift;
    SwrForm3(old_, rt);
  }

  /** SWL puts the register's first bytes at the address and after it in the word. */
  lemma SwlBytes(old_: Reg, rt: Reg, va: Reg, k: nat)
    requires k <= 3
    ensures ByteOf(SwlMerge(old_, rt, va), k) == if k < Offset(va) then ByteOf(old_, k) else ByteOf(rt, k - Offset(va))
  {
    hide ByteOf, SwlShift, Offset;
    OffsetCases(va);
    SwlBytes0(old_, rt, k);
    SwlBytes1(old_, rt, k);
    SwlBytes2(old_, rt, k);
    SwlBytes3(old_, rt, k);
  }

  /** SWR puts the register's last bytes at the address and before it in the word. */
  lemma SwrBytes(old_: Reg, rt: Reg, va: Reg, k: nat)
    requires k <= 3
    ensures ByteOf(SwrMerge(old_, rt, va), k) == if k > Offset(va) then ByteOf(old_, k) else ByteOf(rt, k + 3 - Offset(va))
  {
    hide ByteOf, SwrShift, Offset;
    OffsetCases(va);
    SwrBytes0(old_, rt, k);
    SwrBytes1(old_, rt, k);
    SwrBytes2(old_, rt, k);
    SwrBytes3(old_, rt, k);
  }

  lemma LwlForm0(word: Reg, rt: Reg)
    ensures LwlShift(word, rt, 0) == word
  {
  }

  lemma LwrForm0(word: Reg, rt: Reg)
    ensures LwrShift(word, rt, 0) == (rt & 0xffff_ff00) | (word >> 24)
  {
  }

  lemma LwlBytes0(word: Reg, rt: Reg, k: nat)
    requires k <= 3
    ensures ByteOf(LwlShift(word, rt, 0), k) == if k + 0 <= 3 then ByteOf(word, k + 0) else ByteOf(rt, k)
  {
    hide LwlShift;
    LwlForm0(word, rt);
  }

  lemma LwrBytes0(word: Reg, rt: Reg, k: nat)
    requires k <= 3
    ensures ByteOf(LwrShift(word, rt, 0), k) == if k + 0 >= 3 then ByteOf(word, k + 0 - 3) else ByteOf(rt, k)
  {
    hide LwrShift;
    LwrForm0(word, rt);
  }

  lemma LwlForm1(word: Reg, rt: Reg)
    ensures LwlShift(word, rt, 1) == (rt & 0x0000_00ff) | (word << 8)
  {
  }

  lemma LwrForm1(word: Reg, rt: Reg)
    ensures LwrShift(word, rt, 1) == (rt & 0xffff_0000) | (word >> 16)
  {
  }

  lemma LwlBytes1(word: Reg, rt: Reg, k: nat)
    requires k <= 3
    ensures ByteOf(LwlShift(word, rt, 1), k) == if k + 1 <= 3 then ByteOf(word, k + 1) else ByteOf(rt, k)
  {
    hide LwlShift;
    LwlForm1(word, rt);
  }

  lemma LwrBytes1(word: Reg, rt: Reg, k: nat)
    requires k <= 3
    ensures ByteOf(LwrShift(word, rt, 1), k) == if k + 1 >= 3 then ByteOf(word, k + 1 - 3) else ByteOf(rt, k)
  {
    hide LwrShift;
    LwrForm1(word, rt);
  }

  lemma LwlForm2(word: Reg, rt: Reg)
    ensures LwlShift(word, rt, 2) == (rt & 0x0000_ffff) | (word << 16)
  {
  }

  lemma LwrForm2(word: Reg, rt: Reg)
    ensures LwrShift(word, rt, 2) == (rt & 0xff00_0000) | (word >> 8)
  {
  }

  lemma LwlBytes2(word: Reg, rt: Reg, k: nat)
    requires k <= 3
    ensures ByteOf(LwlShift(word, rt, 2), k) == if k + 2 <= 3 then ByteOf(word, k + 2) else ByteOf(rt, k)
  {
    hide LwlShift;
    LwlForm2(word, rt);
  }

  lemma LwrBytes2(word: Reg, rt: Reg, k: nat)
    requires k <= 3
    ensures ByteOf(LwrShift(word, rt, 2), k) == if k + 2 >= 3 then ByteOf(word, k + 2 - 3) else ByteOf(rt, k)
  {
    hide LwrShift;
    LwrForm2(word, rt);
  }

  lemma LwlForm3(word: Reg, rt: Reg)
    ensures LwlShift(word, rt, 3) == (rt & 0x00ff_ffff) | (word << 24)
  {
  }

  lemma LwrForm3(word: Reg, rt: Reg)
    ensures LwrShift(word, rt, 3) == word
  {
  }

  lemma LwlBytes3(word: Reg, rt: Reg, k: nat)
    requires k <= 3
    ensures ByteOf(LwlShift(word, rt, 3), k) == if k + 3 <= 3 then ByteOf(word, k + 3) else ByteOf(rt, k)
  {
    hide LwlShift;
    LwlForm3(word, rt);
  }

  lemma LwrBytes3(word: Reg, rt: Reg, k: nat)
    requires k <= 3
    ensures ByteOf(LwrShift(word, rt, 3), k) == if k + 3 >= 3 then ByteOf(word, k + 3 - 3) else ByteOf(rt, k)
  {
    hide LwrShift;
    LwrForm3(word, rt);
  }

  /** LWL puts the bytes of the word from the address on into the register's first bytes, LWR those up to the address into
      its last ones; the other bytes of the register stay. */
  lemma LwlBytes(word: Reg, rt: Reg, va: Reg, k: nat)
    requires k <= 3
    ensures ByteOf(LwlMerge(word, rt, va), k) == if k + Offset(va) <= 3 then ByteOf(word, k + Offset(va)) else ByteOf(rt, k)
  {
    hide ByteOf, LwlShift, Offset;
    OffsetCases(va);
    LwlBytes0(word, rt, k);
    LwlBytes1(word, rt, k);
    LwlBytes2(word, rt, k);
    LwlBytes3(word, rt, k);
  }

  lemma LwrBytes(word: Reg, rt: Reg, va: Reg, k: nat)
    requires k <= 3
    ensures ByteOf(LwrMerge(word, rt, va), k) == if k + Offset(va) >= 3 then ByteOf(word, k + Offset(va) - 3) else ByteOf(rt, k)
  {
    hide ByteOf, LwrShift, Offset;
    OffsetCases(va);
    LwrBytes0(word, rt, k);
    LwrBytes1(word, rt, k);
    LwrBytes2(word, rt, k);
    LwrBytes3(word, rt, k);
  }

  lemma LastOffset(va: Reg)
    ensures Offset(va + 3) == if va & 3 == 0 then 3 else Offset(va) - 1
    ensures Offset(va) == 0 <==> va & 3 == 0
  {
  }

  /** Loading the two halves of a stored register gives that register back. */
  lemma LoadsRestore(w1: Reg, w2: Reg, rt: Reg, any: Reg, va: Reg)
    ensures va & 3 != 0 ==>
              LwrMerge(SwrMerge(w2, rt, va + 3), LwlMerge(SwlMerge(w1, rt, va), any, va), va + 3) == rt
    ensures va & 3 == 0 ==>
              var w := SwrMerge(SwlMerge(w1, rt, va), rt, va + 3); LwrMerge(w, LwlMerge(w, any, va), va + 3) == rt
  {
  }

  // ----- the instructions -----

  datatype Stored = Stored(memory: Memory) | StoreToDevice | StoreRaised(exception: Exception)

  datatype Loaded = Loaded(register: Reg) | LoadFromDevice | LoadRaised(exception: Exception)

  function WordOf(va: Reg): Reg { va & 0xffff_fffc }

  ghost function Swl(m: Memory, c: Cp0, kernel: bool, rt: Reg, va: Reg): Stored
    requires Sized(c) && Whole(m)
  {
    StoreMerged(m, c, kernel, va, old_ => SwlMerge(old_, rt, va))
  }

  ghost function Swr(m: Memory, c: Cp0, kernel: bool, rt: Reg, va: Reg): Stored
    requires Sized(c) && Whole(m)
  {
    StoreMerged(m, c, kernel, va, old_ => SwrMerge(old_, rt, va))
  }

  /** Read the word, merge the register into it, write it back. */
  ghost function StoreMerged(m: Memory, c: Cp0, kernel: bool, va: Reg, merge: Reg -> Reg): Stored
    requires Sized(c) && Whole(m)
  {
    match Locate(m, c, kernel, WordOf(va), Load)
    case Fault(e) => StoreRaised(e)
    case Io => StoreToDevice
    case Ram(a) =>
      LocatedWord(m, c, kernel, va, Load);
      match Locate(m, c, kernel, WordOf(va), Store)
      case Fault(e) => StoreRaised(e)
      case Io => StoreToDevice
      case Ram(b) => Stored(WriteWord(m, b, merge(ReadWord(m, a))))
  }

  ghost function Lwl(m: Memory, c: Cp0, kernel: bool, rt: Reg, va: Reg): Loaded
    requires Sized(c) && Whole(m)
  {
    match Locate(m, c, kernel, WordOf(va), Load)
    case Fault(e) => LoadRaised(e)
    case Io => LoadFromDevice
    case Ram(a) => LocatedWord(m, c, kernel, va, Load); Loaded(LwlMerge(ReadWord(m, a), rt, va))
  }

  ghost function Lwr(m: Memory, c: Cp0, kernel: bool, rt: Reg, va: Reg): Loaded
    requires Sized(c) && Whole(m)
  {
    match Locate(m, c, kernel, WordOf(va), Load)
    case Fault(e) => LoadRaised(e)
    case Io => LoadFromDevice
    case Ram(a) => LocatedWord(m, c, kernel, va, Load); Loaded(LwrMerge(ReadWord(m, a), rt, va))
  }

  // ----- where words lie -----

  /** Addresses at the same place in their pages. */
  predicate SameOffset(p: Reg, va: Reg) { p & 0xfff == va & 0xfff }

  lemma UseOffset(e: Entry, va: Reg, reference: Reference)
    ensures var t := Use(e, va, reference); t.Physical? ==> SameOffset(t.address, va)
    ensures Use(e, va, Store).Physical? ==> Use(e, va, Load) == Use(e, va, Store)
  {
  }

  lemma SegmentOffset(va: Reg)
    ensures SameOffset(va - 0x8000_0000, va) && SameOffset(va - 0xa000_0000, va)
  {
  }

  lemma TranslatedOffset(c: Cp0, va: Reg, reference: Reference)
    requires Sized(c)
    ensures var p := Translated(c, va, reference); p.Ram? ==> SameOffset(p.address, va)
    ensures Translated(c, va, Store).Ram? ==> Translated(c, va, Load) == Translated(c, va, Store)
  {
    hide FirstMatch, Use, Vpn2Of, SameOffset;
    var i := FirstMatch(c, Vpn2Of(va), 0);
    if i < NUM_TLB_ENTRIES {
      UseOffset(c.tlb[i], va, reference);
      UseOffset(c.tlb[i], va, Store);
    }
  }

  /** Translation keeps the offset in the page. */
  lemma KeepsOffset(m: Memory, c: Cp0, kernel: bool, va: Reg, reference: Reference)
    requires Sized(c)
    ensures var p := Locate(m, c, kernel, va, reference);
            p.Ram? ==> SameOffset(p.address, va) && Below(p.address, m.size)
  {
    hide Translated, SameOffset, Below;
    SegmentOffset(va);
    TranslatedOffset(c, va, reference);
  }

  lemma WordOffset(va: Reg)
    ensures WordOf(va) & 3 == 0
  {
  }

  lemma LowBits(p: Reg, va: Reg)
    requires SameOffset(p, va) && va & 3 == 0
    ensures p & 3 == 0
  {
  }

  lemma LocatedWord(m: Memory, c: Cp0, kernel: bool, va: Reg, reference: Reference)
    requires Sized(c) && Whole(m)
    ensures var p := Locate(m, c, kernel, WordOf(va), reference); p.Ram? ==> WordAddress(m, p.address)
  {
    hide Locate, WordOf;
    KeepsOffset(m, c, kernel, WordOf(va), reference);
    var p := Locate(m, c, kernel, WordOf(va), reference);
    if p.Ram? {
      WordOffset(va);
      LowBits(p.address, WordOf(va));
    }
  }

  /** A store that is allowed goes where the load went. */
  lemma LoadStoreAgree(m: Memory, c: Cp0, kernel: bool, va: Reg)
    requires Sized(c)
    ensures Locate(m, c, kernel, va, Store).Ram? ==> Locate(m, c, kernel, va, Load) == Locate(m, c, kernel, va, Store)
  {
    hide Translated, SameOffset, Below;
    TranslatedOffset(c, va, Store);
  }

  // ----- an address and its word -----

  lemma SamePageHalf(va: Reg)
    ensures WordOf(va) & 0x0000_1000 == va & 0x0000_1000
  {
  }

  lemma JoinWord(pfn: Reg, va: Reg)
    ensures InFrame(pfn, WordOf(va)) == WordOf(InFrame(pfn, va))
  {
  }

  /** The word of an address is translated to the word of its translation. */
  lemma UseWord(e: Entry, va: Reg, reference: Reference)
    ensures Use(e, WordOf(va), reference)
         == match Use(e, va, reference) case Physical(a) => Physical(WordOf(a)) case t => t
  {
    hide WordOf, Access;
    SamePageHalf(va);
    AccessWord(e.even, va, reference);
    AccessWord(e.odd, va, reference);
  }

  lemma AccessWord(half: Reg, va: Reg, reference: Reference)
    ensures Access(half, WordOf(va), reference)
         == match Access(half, va, reference) case Physical(a) => Physical(WordOf(a)) case t => t
  {
    hide WordOf, TlbV, TlbD, TlbPfn, InFrame;
    JoinWord(TlbPfn(half), va);
  }

  lemma SameVpn2(va: Reg)
    ensures Vpn2Of(WordOf(va)) == Vpn2Of(va)
  {
  }

  lemma SameKseg2(va: Reg)
    ensures InKseg2(WordOf(va)) <==> InKseg2(va)
  {
  }

  lemma SameIoArea(va: Reg)
    ensures InIoArea(WordOf(va)) <==> InIoArea(va)
  {
  }

  lemma SameKseg1(va: Reg)
    ensures AboveKseg0(WordOf(va)) <==> AboveKseg0(va)
  {
  }

  lemma SameKseg0(va: Reg)
    ensures AboveKuseg(WordOf(va)) <==> AboveKuseg(va)
  {
  }

  lemma SameSegment(va: Reg)
    ensures InKseg2(WordOf(va)) <==> InKseg2(va)
    ensures InIoArea(WordOf(va)) <==> InIoArea(va)
    ensures AboveKseg0(WordOf(va)) <==> AboveKseg0(va)
    ensures AboveKuseg(WordOf(va)) <==> AboveKuseg(va)
  {
    hide InKseg2, InIoArea, AboveKseg0, AboveKuseg, WordOf;
    SameKseg2(va);
    SameIoArea(va);
    SameKseg1(va);
    SameKseg0(va);
  }

  lemma LessWord(va: Reg)
    ensures WordOf(va) - 0xa000_0000 == WordOf(va - 0xa000_0000)
  {
  }

  lemma LessWord8(va: Reg)
    ensures WordOf(va) - 0x8000_0000 == WordOf(va - 0x8000_0000)
  {
  }

  lemma KsegWord(va: Reg)
    ensures Kseg1(WordOf(va)) == WordOf(Kseg1(va)) && Kseg0(WordOf(va)) == WordOf(Kseg0(va))
  {
    hide WordOf;
    LessWord(va);
    LessWord8(va);
  }

  function PlaceWord(p: Place): Place { if p.Ram? then Ram(WordOf(p.address)) else p }

  lemma TranslatedWord(c: Cp0, va: Reg, reference: Reference)
    requires Sized(c)
    ensures Translated(c, WordOf(va), reference) == PlaceWord(Translated(c, va, reference))
  {
    hide WordOf, Use, Vpn2Of, FirstMatch;
    SameVpn2(va);
    var i := FirstMatch(c, Vpn2Of(va), 0);
    if i < NUM_TLB_ENTRIES { UseWord(c.tlb[i], va, reference); }
  }

  /** Whatever the segment and the page tables, an address and its word go to a place and its word. */
  lemma SegmentWord(c: Cp0, kernel: bool, va: Reg, reference: Reference)
    requires Sized(c)
    ensures Segment(c, kernel, WordOf(va), reference) == PlaceWord(Segment(c, kernel, va, reference))
  {
    hide WordOf, Translated, InKseg2, AboveKuseg, AboveKseg0, InIoArea, Kseg0, Kseg1;
    SameSegment(va);
    KsegWord(va);
    TranslatedWord(c, va, reference);
  }

  // ----- words and bytes after a write -----

  function Plus(a: Reg, k: nat): Reg {
    match k
    case 0 => a
    case 1 => a + 1
    case 2 => a + 2
    case _ => a + 3
  }

  lemma Written4(m: Memory, a: Reg, w: Reg, k: nat)
    requires k <= 3
    ensures WriteWord(m, a, w).bytes(Plus(a, k)) == ByteOf(w, k)
  {
    hide ByteOf;
  }

  /** `x` is none of the four bytes from `a` on. */
  predicate Outside(x: Reg, a: Reg) { x != a && x != a + 1 && x != a + 2 && x != a + 3 }

  lemma WrittenElsewhere(m: Memory, a: Reg, w: Reg, x: Reg)
    requires Outside(x, a)
    ensures WriteWord(m, a, w).bytes(x) == m.bytes(x)
  {
    hide ByteOf;
  }

  lemma ReadIs(m: Memory, a: Reg)
    ensures ReadWord(m, a) == Joined(m.bytes(Plus(a, 0)), m.bytes(Plus(a, 1)), m.bytes(Plus(a, 2)), m.bytes(Plus(a, 3)))
  {
    hide Joined;
  }

  lemma ReadsWritten(m: Memory, a: Reg, w: Reg)
    ensures ReadWord(WriteWord(m, a, w), a) == w
  {
    hide ByteOf, Joined, WriteWord, ReadWord, Plus;
    ReadIs(WriteWord(m, a, w), a);
    Written4(m, a, w, 0);
    Written4(m, a, w, 1);
    Written4(m, a, w, 2);
    Written4(m, a, w, 3);
    BytesJoined(w);
  }

  lemma WordsApart(a: Reg, b: Reg, k: nat)
    requires a & 3 == 0 && b & 3 == 0 && a != b && k <= 3
    ensures Outside(Plus(b, k), a)
  {
  }

  lemma ReadsOther(m: Memory, a: Reg, w: Reg, b: Reg)
    requires a & 3 == 0 && b & 3 == 0 && a != b
    ensures ReadWord(WriteWord(m, a, w), b) == ReadWord(m, b)
  {
    hide ByteOf, Joined, WriteWord, Outside, ReadWord, Plus;
    ReadIs(m, b);
    ReadIs(WriteWord(m, a, w), b);
    forall k | 0 <= k <= 3 ensures WriteWord(m, a, w).bytes(Plus(b, k)) == m.bytes(Plus(b, k)) {
      WordsApart(a, b, k);
      WrittenElsewhere(m, a, w, Plus(b, k));
    }
  }

  // ----- unaligned stores and loads -----

  /** The words that hold bytes `va` and `va + 3`. */
  ghost predicate InRam(m: Memory, c: Cp0, kernel: bool, va: Reg)
    requires Sized(c)
  {
    Locate(m, c, kernel, WordOf(va), Store).Ram? && Locate(m, c, kernel, WordOf(va + 3), Store).Ram?
  }

  ghost function At(m: Memory, c: Cp0, kernel: bool, va: Reg): Reg
    requires Sized(c) && Locate(m, c, kernel, WordOf(va), Store).Ram?
  {
    Locate(m, c, kernel, WordOf(va), Store).address
  }

  lemma NextWord(va: Reg)
    ensures va & 3 == 0 ==> WordOf(va + 3) == WordOf(va)
    ensures va & 3 != 0 ==> !SameOffset(WordOf(va + 3), WordOf(va))
    ensures (va + 3) & 3 == ((va & 3) + 3) & 3
  {
  }

  /** The two words are the same or do not overlap in memory, whatever the page tables say. */
  lemma TwoWords(m: Memory, c: Cp0, kernel: bool, va: Reg)
    requires Sized(c) && Whole(m) && InRam(m, c, kernel, va)
    ensures var p, q := At(m, c, kernel, va), At(m, c, kernel, va + 3);
            && WordAddress(m, p) && WordAddress(m, q)
            && (va & 3 == 0 ==> p == q) && (va & 3 != 0 ==> p != q)
            && Locate(m, c, kernel, WordOf(va), Load) == Ram(p) && Locate(m, c, kernel, WordOf(va + 3), Load) == Ram(q)
  {
    hide Locate, WordOf;
    NextWord(va);
    LoadStoreAgree(m, c, kernel, WordOf(va));
    LoadStoreAgree(m, c, kernel, WordOf(va + 3));
    KeepsOffset(m, c, kernel, WordOf(va), Store);
    KeepsOffset(m, c, kernel, WordOf(va + 3), Store);
    LocatedWord(m, c, kernel, va, Store);
    LocatedWord(m, c, kernel, va + 3, Store);
  }

  lemma SameSize(m: Memory, n: Memory, c: Cp0, kernel: bool, va: Reg, reference: Reference)
    requires Sized(c) && n.size == m.size
    ensures Locate(n, c, kernel, va, reference) == Locate(m, c, kernel, va, reference)
  {
    hide Segment, Below;
  }

  lemma StillWhole(m: Memory, a: Reg, w: Reg)
    requires Whole(m)
    ensures Whole(WriteWord(m, a, w))
  {
    hide ByteOf;
  }

  /** SWL at `va` then SWR at `va + 3`, as two word writes. */
  lemma StoresAre(m: Memory, c: Cp0, kernel: bool, rt: Reg, va: Reg)
    requires Sized(c) && Whole(m) && InRam(m, c, kernel, va)
    ensures var p, q := At(m, c, kernel, va), At(m, c, kernel, va + 3);
            && WordAddress(m, p) && Swl(m, c, kernel, rt, va).Stored?
            && var m1 := Swl(m, c, kernel, rt, va).memory;
               && m1 == WriteWord(m, p, SwlMerge(ReadWord(m, p), rt, va))
               && Whole(m1) && WordAddress(m1, q)
               && Swr(m1, c, kernel, rt, va + 3) == Stored(WriteWord(m1, q, SwrMerge(ReadWord(m1, q), rt, va + 3)))
               && Whole(Swr(m1, c, kernel, rt, va + 3).memory)
  {
    hide Locate, WordOf, SwlMerge, SwrMerge, ReadWord, ByteOf, WriteWord, WordAddress, Whole;
    TwoWords(m, c, kernel, va);
    var p, q := At(m, c, kernel, va), At(m, c, kernel, va + 3);
    var w := SwlMerge(ReadWord(m, p), rt, va);
    var m1 := WriteWord(m, p, w);
    StillWhole(m, p, w);
    WriteSize(m, p, w);
    SameSize(m, m1, c, kernel, WordOf(va + 3), Load);
    SameSize(m, m1, c, kernel, WordOf(va + 3), Store);
    LocatedWord(m1, c, kernel, va + 3, Load);
    StillWhole(m1, q, SwrMerge(ReadWord(m1, q), rt, va + 3));
  }

  lemma WriteSize(m: Memory, a: Reg, w: Reg)
    ensures WriteWord(m, a, w).size == m.size
  {
  }

  // ----- the round trip -----

  /** Physical address of byte `i` from `va` on, given the words at `p` and `q` that hold bytes `va` and `va + 3`. */
  function ByteAddress(p: Reg, q: Reg, va: Reg, i: nat): Reg
    requires i <= 3
  {
    var k := Offset(va) + i;
    if k <= 3 then Plus(p, k) else Plus(q, k - 4)
  }

  lemma OffsetPlus(va: Reg, i: nat)
    requires i <= 3
    ensures Offset(Plus(va, i)) == if Offset(va) + i <= 3 then Offset(va) + i else Offset(va) + i - 4
  {
  }

  lemma Word1(va: Reg)
    ensures WordOf(va + 1) == if va & 3 == 3 then WordOf(va + 3) else WordOf(va)
  {
    if va & 3 == 3 { Word1High(va); } else { Word1Low(va); }
  }

  lemma Word1High(va: Reg)
    requires va & 3 == 3
    ensures (va + 1) & 0xffff_fffc == (va + 3) & 0xffff_fffc
  {
  }

  lemma Word1Low(va: Reg)
    requires va & 3 != 3
    ensures (va + 1) & 0xffff_fffc == va & 0xffff_fffc
  {
  }

  lemma Word2(va: Reg)
    ensures WordOf(va + 2) == if va & 3 == 2 || va & 3 == 3 then WordOf(va + 3) else WordOf(va)
  {
    if va & 3 == 2 || va & 3 == 3 { Word2High(va); } else { Word2Low(va); }
  }

  lemma Word2High(va: Reg)
    requires va & 3 == 2 || va & 3 == 3
    ensures (va + 2) & 0xffff_fffc == (va + 3) & 0xffff_fffc
  {
  }

  lemma Word2Low(va: Reg)
    requires va & 3 != 2 && va & 3 != 3
    ensures (va + 2) & 0xffff_fffc == va & 0xffff_fffc
  {
  }

  lemma Word3(va: Reg)
    ensures va & 3 == 0 ==> WordOf(va + 3) == WordOf(va)
  {
  }

  lemma OffsetRange(va: Reg)
    ensures Offset(va) == 3 <==> va & 3 == 3
    ensures Offset(va) >= 2 <==> va & 3 == 2 || va & 3 == 3
    ensures Offset(va) == 0 <==> va & 3 == 0
  {
  }

  lemma PlusWord(va: Reg, i: nat)
    requires i <= 3
    ensures WordOf(Plus(va, i)) == if Offset(va) + i <= 3 then WordOf(va) else WordOf(va + 3)
  {
    hide WordOf, Offset;
    OffsetRange(va);
    Word1(va);
    Word2(va);
    Word3(va);
  }

  lemma FromWord(a: Reg)
    ensures a == Plus(WordOf(a), Offset(a))
  {
  }

  lemma SameOffsets(p: Reg, va: Reg)
    requires SameOffset(p, va)
    ensures Offset(p) == Offset(va)
  {
  }

  /** An address is below the size when its word is. */
  lemma WordInside(m: Memory, a: Reg)
    requires Whole(m) && Below(WordOf(a), m.size)
    ensures Below(a, m.size)
  {
  }

  /** Byte `i` of the four is where its own address goes. */
  lemma BytePlace(m: Memory, c: Cp0, kernel: bool, va: Reg, i: nat)
    requires Sized(c) && Whole(m) && InRam(m, c, kernel, va) && i <= 3
    ensures Locate(m, c, kernel, Plus(va, i), Load) == Ram(ByteAddress(At(m, c, kernel, va), At(m, c, kernel, va + 3), va, i))
  {
    hide Segment, WordOf, Plus, Offset, Below, Whole, SameOffset;
    var u := Plus(va, i);
    TwoWords(m, c, kernel, va);
    PlusWord(va, i);
    OffsetPlus(va, i);
    SegmentWord(c, kernel, u, Load);
    var place := Segment(c, kernel, u, Load);
    WordInside(m, place.address);
    KeepsOffset(m, c, kernel, u, Load);
    SameOffsets(place.address, u);
    FromWord(place.address);
  }

  /** The two word writes, byte by byte. */
  lemma BytesStored(m: Memory, p: Reg, q: Reg, rt: Reg, va: Reg, i: nat)
    requires i <= 3 && p & 3 == 0 && q & 3 == 0 && (p == q <==> va & 3 == 0)
    ensures var m1 := WriteWord(m, p, SwlMerge(ReadWord(m, p), rt, va));
            var m2 := WriteWord(m1, q, SwrMerge(ReadWord(m1, q), rt, va + 3));
            m2.bytes(ByteAddress(p, q, va, i)) == ByteOf(rt, i)
  {
    hide SwlMerge, SwrMerge, ReadWord, WriteWord, ByteOf, Outside, Plus, Offset;
    var w1 := SwlMerge(ReadWord(m, p), rt, va);
    var m1 := WriteWord(m, p, w1);
    var w2 := SwrMerge(ReadWord(m1, q), rt, va + 3);
    var k := Offset(va) + i;
    LastOffset(va);
    if p == q {
      SwrBytes(ReadWord(m1, q), rt, va + 3, k);
      Written4(m1, q, w2, k);
    } else if k <= 3 {
      SwlBytes(ReadWord(m, p), rt, va, k);
      Written4(m, p, w1, k);
      WordsApart(q, p, k);
      WrittenElsewhere(m1, q, w2, Plus(p, k));
    } else {
      SwrBytes(ReadWord(m1, q), rt, va + 3, k - 4);
      Written4(m1, q, w2, k - 4);
    }
  }

  /** Which of the four bytes from `a` on `x` is; 4 when it is none of them. */
  lemma Where(x: Reg, a: Reg) returns (k: nat)
    ensures k <= 4 && (k == 4 ==> Outside(x, a)) && (k < 4 ==> x == Plus(a, k))
  {
    k := if x == a then 0 else if x == a + 1 then 1 else if x == a + 2 then 2 else if x == a + 3 then 3 else 4;
  }

  lemma ByteOfRead(m: Memory, a: Reg, k: nat)
    requires k <= 3
    ensures ByteOf(ReadWord(m, a), k) == m.bytes(Plus(a, k))
  {
    hide ByteOf, Joined, ReadWord, Plus;
    ReadIs(m, a);
    JoinedBytes(m.bytes(Plus(a, 0)), m.bytes(Plus(a, 1)), m.bytes(Plus(a, 2)), m.bytes(Plus(a, 3)));
  }

  /** A byte the merge does not touch is kept. */
  lemma FirstKept(m: Memory, p: Reg, rt: Reg, va: Reg, x: Reg)
    requires forall j :: Offset(va) <= j <= 3 ==> x != Plus(p, j)
    ensures WriteWord(m, p, SwlMerge(ReadWord(m, p), rt, va)).bytes(x) == m.bytes(x)
  {
    hide SwlMerge, ReadWord, WriteWord, ByteOf, Outside, Plus, Offset;
    var w := SwlMerge(ReadWord(m, p), rt, va);
    var k := Where(x, p);
    if k == 4 {
      WrittenElsewhere(m, p, w, x);
    } else {
      SwlBytes(ReadWord(m, p), rt, va, k);
      Written4(m, p, w, k);
      ByteOfRead(m, p, k);
    }
  }

  lemma LastKept(m: Memory, q: Reg, rt: Reg, va: Reg, x: Reg)
    requires forall j :: 0 <= j <= 3 && j <= Offset(va) ==> x != Plus(q, j)
    ensures WriteWord(m, q, SwrMerge(ReadWord(m, q), rt, va)).bytes(x) == m.bytes(x)
  {
    hide SwrMerge, ReadWord, WriteWord, ByteOf, Outside, Plus, Offset;
    var w := SwrMerge(ReadWord(m, q), rt, va);
    var k := Where(x, q);
    if k == 4 {
      WrittenElsewhere(m, q, w, x);
    } else {
      SwrBytes(ReadWord(m, q), rt, va, k);
      Written4(m, q, w, k);
      ByteOfRead(m, q, k);
    }
  }

  /** No byte other than those at `va .. va + 3` changes. */
  lemma OthersKept(m: Memory, p: Reg, q: Reg, rt: Reg, va: Reg, x: Reg)
    requires p == q <==> va & 3 == 0
    requires forall i :: 0 <= i <= 3 ==> x != ByteAddress(p, q, va, i)
    ensures var m1 := WriteWord(m, p, SwlMerge(ReadWord(m, p), rt, va));
            var m2 := WriteWord(m1, q, SwrMerge(ReadWord(m1, q), rt, va + 3));
            m2.bytes(x) == m.bytes(x)
  {
    hide SwlMerge, SwrMerge, ReadWord, WriteWord, ByteOf, Outside, Plus, Offset;
    var m1 := WriteWord(m, p, SwlMerge(ReadWord(m, p), rt, va));
    LastOffset(va);
    forall j | Offset(va) <= j <= 3 ensures x != Plus(p, j) {
      assert x != ByteAddress(p, q, va, j - Offset(va));
    }
    forall j | 0 <= j <= 3 && j <= Offset(va + 3) ensures x != Plus(q, j) {
      assert x != ByteAddress(p, q, va, if p == q then j else j + 4 - Offset(va));
    }
    FirstKept(m, p, rt, va, x);
    LastKept(m1, q, rt, va + 3, x);
  }

  /** What SWL at `va` and SWR at `va + 3` leave in memory. */
  ghost predicate HoldsRegister(m: Memory, n: Memory, p: Reg, q: Reg, rt: Reg, va: Reg) {
    && n.size == m.size
    && (forall i :: 0 <= i <= 3 ==> n.bytes(ByteAddress(p, q, va, i)) == ByteOf(rt, i))
    && (forall x: Reg :: (forall i :: 0 <= i <= 3 ==> x != ByteAddress(p, q, va, i)) ==> n.bytes(x) == m.bytes(x))
  }

  lemma StoresHold(m: Memory, p: Reg, q: Reg, rt: Reg, va: Reg)
    requires p & 3 == 0 && q & 3 == 0 && (p == q <==> va & 3 == 0)
    ensures var m1 := WriteWord(m, p, SwlMerge(ReadWord(m, p), rt, va));
            HoldsRegister(m, WriteWord(m1, q, SwrMerge(ReadWord(m1, q), rt, va + 3)), p, q, rt, va)
  {
    hide SwlMerge, SwrMerge, ReadWord, WriteWord, ByteOf, ByteAddress;
    var m1 := WriteWord(m, p, SwlMerge(ReadWord(m, p), rt, va));
    var m2 := WriteWord(m1, q, SwrMerge(ReadWord(m1, q), rt, va + 3));
    WriteSize(m, p, SwlMerge(ReadWord(m, p), rt, va));
    WriteSize(m1, q, SwrMerge(ReadWord(m1, q), rt, va + 3));
    forall i | 0 <= i <= 3 ensures m2.bytes(ByteAddress(p, q, va, i)) == ByteOf(rt, i) {
      BytesStored(m, p, q, rt, va, i);
    }
    forall x: Reg | forall i :: 0 <= i <= 3 ==> x != ByteAddress(p, q, va, i) ensures m2.bytes(x) == m.bytes(x) {
      OthersKept(m, p, q, rt, va, x);
    }
  }

  /** Where each of the bytes `va .. va + 3` goes, by its own translation. */
  ghost predicate BytesPlaced(m: Memory, c: Cp0, kernel: bool, va: Reg)
    requires Sized(c) && InRam(m, c, kernel, va)
  {
    forall i :: 0 <= i <= 3 ==>
      Locate(m, c, kernel, Plus(va, i), Load) == Ram(ByteAddress(At(m, c, kernel, va), At(m, c, kernel, va + 3), va, i))
  }

  lemma PlacedBytes(m: Memory, c: Cp0, kernel: bool, va: Reg)
    requires Sized(c) && Whole(m) && InRam(m, c, kernel, va)
    ensures BytesPlaced(m, c, kernel, va)
  {
    hide Locate, Plus, ByteAddress, Whole, At;
    forall i | 0 <= i <= 3
      ensures Locate(m, c, kernel, Plus(va, i), Load) == Ram(ByteAddress(At(m, c, kernel, va), At(m, c, kernel, va + 3), va, i))
    {
      BytePlace(m, c, kernel, va, i);
    }
  }

  /** SWL at `va` then SWR at `va + 3` changes exactly the bytes at `va .. va + 3`, to those of the register. */
  lemma UnalignedStore(m: Memory, c: Cp0, kernel: bool, rt: Reg, va: Reg)
    requires Sized(c) && Whole(m) && InRam(m, c, kernel, va)
    ensures Swl(m, c, kernel, rt, va).Stored?
    ensures var m1 := Swl(m, c, kernel, rt, va).memory;
            Whole(m1) && Swr(m1, c, kernel, rt, va + 3).Stored? && Whole(Swr(m1, c, kernel, rt, va + 3).memory)
    ensures var m1 := Swl(m, c, kernel, rt, va).memory;
            HoldsRegister(m, Swr(m1, c, kernel, rt, va + 3).memory,
                          At(m, c, kernel, va), At(m, c, kernel, va + 3), rt, va)
    ensures BytesPlaced(m, c, kernel, va)
  {
    hide BytesPlaced;
    PlacedBytes(m, c, kernel, va);
    hide Swl, Swr, HoldsRegister, ReadWord, WriteWord, SwlMerge, SwrMerge, Locate, Whole, WordOf;
    StoresAre(m, c, kernel, rt, va);
    TwoWords(m, c, kernel, va);
    StoresHold(m, At(m, c, kernel, va), At(m, c, kernel, va + 3), rt, va);
  }

  /** LWL at `va` then LWR at `va + 3` afterwards gives the stored register, whatever the target held before. */
  lemma UnalignedRoundTrip(m: Memory, c: Cp0, kernel: bool, rt: Reg, any: Reg, va: Reg)
    requires Sized(c) && Whole(m) && InRam(m, c, kernel, va)
    ensures Swl(m, c, kernel, rt, va).Stored?
    ensures var m1 := Swl(m, c, kernel, rt, va).memory;
            Whole(m1) && Swr(m1, c, kernel, rt, va + 3).Stored? && Whole(Swr(m1, c, kernel, rt, va + 3).memory)
    ensures var m2 := Swr(Swl(m, c, kernel, rt, va).memory, c, kernel, rt, va + 3).memory;
            && Lwl(m2, c, kernel, any, va).Loaded?
            && Lwr(m2, c, kernel, Lwl(m2, c, kernel, any, va).register, va + 3) == Loaded(rt)
  {
    hide HoldsRegister, ReadWord, WriteWord, SwlMerge, SwrMerge, LwlMerge, LwrMerge, Locate, Whole, WordOf, Swl, Swr;
    StoresAre(m, c, kernel, rt, va);
    TwoWords(m, c, kernel, va);
    var p, q := At(m, c, kernel, va), At(m, c, kernel, va + 3);
    var w1 := SwlMerge(ReadWord(m, p), rt, va);
    var m1 := WriteWord(m, p, w1);
    var w2 := SwrMerge(ReadWord(m1, q), rt, va + 3);
    var m2 := WriteWord(m1, q, w2);
    WriteSize(m, p, w1);
    WriteSize(m1, q, w2);
    SameSize(m, m2, c, kernel, WordOf(va), Load);
    SameSize(m, m2, c, kernel, WordOf(va + 3), Load);
    ReadsWritten(m1, q, w2);
    ReadsWritten(m, p, w1);
    if p != q {
      ReadsOther(m1, q, w2, p);
      ReadsOther(m, p, w1, q);
    }
    LoadsRestore(ReadWord(m, p), ReadWord(m, q), rt, any, va);
  }
}
