/** Load-linked and store-conditional across CPUs (cpu.c), on virtual addresses and main memory. */
module YamsLlSc {
  import opened YamsTlb
  import opened YamsMemory

  const INVALID: Reg := 0xffff_ffff

  /** What a CPU translates with: its TLB registers and its mode, which may differ at every instruction. */
  datatype Context = Context(cp0: Cp0, kernel: bool)

  type Access = x: Context | Sized(x.cp0) witness Context(Reset(), true)

  // ----- physical addresses -----

  /** phys_addr: it knows nothing of the I/O area. */
  function PhysAddr(x: Access, va: Reg): Reg {
    if InKseg2(va) || !AboveKuseg(va) then
      match Translate(x.cp0, va, Load)
      case Physical(a) => a
      case _ => INVALID
    else if AboveKseg0(va) then Kseg1(va)
    else Kseg0(va)
  }

  /** Where an access goes. */
  function Reach(m: Memory, x: Access, va: Reg, reference: Reference): Place {
    Locate(m, x.cp0, x.kernel, va, reference)
  }

  /** In main memory phys_addr gives the address of the access, for loads and for stores. */
  lemma PhysIsPlace(m: Memory, x: Access, va: Reg, reference: Reference)
    ensures var p := Reach(m, x, va, reference); p.Ram? ==> PhysAddr(x, va) == p.address
  {
    hide Translate, Below;
    TranslatedOffset(x.cp0, va, reference);
  }

  /** And phys_addr of the word of an address gives the word of the access. */
  lemma PhysOfWord(m: Memory, x: Access, va: Reg, reference: Reference)
    ensures var p := Reach(m, x, va, reference); p.Ram? ==> PhysAddr(x, WordOf(va)) == WordOf(p.address)
  {
    hide Translate, Below, WordOf, Locate;
    PhysIsPlace(m, x, va, reference);
    var p := Reach(m, x, va, reference);
    if p.Ram? {
      NotInvalid(m, x, va, reference);
      PhysWord(x, va);
    }
  }

  lemma NotInvalid(m: Memory, x: Access, va: Reg, reference: Reference)
    ensures var p := Reach(m, x, va, reference); p.Ram? ==> p.address != INVALID
  {
    hide Segment;
  }

  lemma PhysWord(x: Access, va: Reg)
    ensures PhysAddr(x, va) != INVALID ==> PhysAddr(x, WordOf(va)) == WordOf(PhysAddr(x, va))
  {
    hide WordOf, Use, Vpn2Of, FirstMatch, InKseg2, AboveKuseg, AboveKseg0, InIoArea, Kseg0, Kseg1;
    SameSegment(va);
    KsegWord(va);
    SameVpn2(va);
    var i := FirstMatch(x.cp0, Vpn2Of(va), 0);
    if i < NUM_TLB_ENTRIES { UseWord(x.cp0.tlb[i], va, Load); }
  }

  /** phys_addr by the address: what a load translates to below 2^31 and from 3 * 2^30 on, else the low 29 bits. */
  lemma PhysInPlain(x: Access, va: Reg)
    ensures 0x8000_0000 <= va < 0xc000_0000 ==> PhysAddr(x, va) == va & 0x1fff_ffff
    ensures va < 0x8000_0000 || va >= 0xc000_0000 ==>
              PhysAddr(x, va) == match Translate(x.cp0, va, Load) case Physical(a) => a case _ => INVALID
  {
    hide Translate, Kseg0, Kseg1;
    if 0x8000_0000 <= va < 0xc000_0000 { Unmapped(va); }
  }

  // ----- stores -----

  datatype Kind = Sb | Sh | Sw | Swl | Swr

  predicate Aligned(va: Reg) { va & 3 == 0 }

  predicate Halved(va: Reg) { va & 1 == 0 }

  /** Where a store goes, or why it does not. */
  function Target(m: Memory, x: Access, kind: Kind, va: Reg): Place {
    match kind
    case Sb => Reach(m, x, va, Store)
    case Sh => if Halved(va) then Reach(m, x, va, Store) else Fault(AddressStore)
    case Sw => if Aligned(va) then Reach(m, x, va, Store) else Fault(AddressStore)
    case _ =>
      var p := Reach(m, x, WordOf(va), Load);
      if p.Fault? then p else Reach(m, x, WordOf(va), Store)
  }

  /** Main memory after a store that goes to `b`. */
  function Stores(m: Memory, kind: Kind, b: Reg, rt: Reg, va: Reg): (n: Memory)
    ensures n.size == m.size
  {
    match kind
    case Sb => m.(bytes := Put(m.bytes, b, LowByte(rt)))
    case Sh => m.(bytes := Put(Put(m.bytes, b, LowByte(rt >> 8)), b + 1, LowByte(rt)))
    case Sw => WriteWord(m, b, rt)
    case Swl => WriteWord(m, b, SwlMerge(ReadWord(m, b), rt, va))
    case Swr => WriteWord(m, b, SwrMerge(ReadWord(m, b), rt, va))
  }

  function LowByte(rt: Reg): Byte8 { rt & 0xff }

  /** The word whose links a store breaks, as the instruction computes it. */
  function Broken(x: Access, kind: Kind, va: Reg): Reg {
    if kind.Sw? then PhysAddr(x, va) else PhysAddr(x, WordOf(va))
  }

  lemma WordItself(b: Reg)
    requires Aligned(b)
    ensures WordOf(b) == b
  {
  }

  lemma AlignedPlace(m: Memory, x: Access, va: Reg, reference: Reference)
    requires Aligned(va)
    ensures var p := Reach(m, x, va, reference); p.Ram? ==> Aligned(p.address)
  {
    hide Locate, SameOffset;
    KeepsOffset(m, x.cp0, x.kernel, va, reference);
    var p := Reach(m, x, va, reference);
    if p.Ram? { LowBits(p.address, va); }
  }

  lemma WordAligned(va: Reg)
    ensures Aligned(WordOf(va))
  {
  }

  /** Every store that reaches main memory breaks the links of exactly the word it writes. */
  lemma BreaksWritten(m: Memory, x: Access, kind: Kind, va: Reg)
    ensures var p := Target(m, x, kind, va); p.Ram? ==> Broken(x, kind, va) == WordOf(p.address)
  {
    hide Reach, PhysAddr, WordOf, Aligned, Halved;
    var p := Target(m, x, kind, va);
    if p.Ram? {
      if kind.Sb? || kind.Sh? {
        PhysOfWord(m, x, va, Store);
      } else {
        var a := if kind.Sw? then va else WordOf(va);
        WordAligned(va);
        PhysIsPlace(m, x, a, Store);
        AlignedPlace(m, x, a, Store);
        WordItself(p.address);
      }
    }
  }

  /** Which stores are refused: SH of an odd address, SW of one that is no multiple of 4, and any whose word or byte cannot
      be stored to; SWL and SWR must be able to load the word, too. The rest go where their address goes. */
  lemma TargetInPlain(m: Memory, x: Access, kind: Kind, va: Reg)
    ensures (kind.Sh? && va & 1 != 0) || (kind.Sw? && va & 3 != 0) ==> Target(m, x, kind, va) == Fault(AddressStore)
    ensures kind.Sb? || (kind.Sh? && va & 1 == 0) || (kind.Sw? && va & 3 == 0) ==>
              Target(m, x, kind, va) == Locate(m, x.cp0, x.kernel, va, Store)
    ensures kind.Swl? || kind.Swr? ==>
              var load := Locate(m, x.cp0, x.kernel, va & 0xffff_fffc, Load);
              Target(m, x, kind, va) == if load.Fault? then load else Locate(m, x.cp0, x.kernel, va & 0xffff_fffc, Store)
    ensures !Target(m, x, kind, va).Fault? ==> Broken(x, kind, va) == PhysAddr(x, va & 0xffff_fffc)
  {
    hide Locate, PhysAddr;
    if kind.Sw? && va & 3 == 0 { WordItself(va); }
  }

  /** SWL and SWR store what they do in YamsMemory. */
  lemma UnalignedAgree(m: Memory, x: Access, rt: Reg, va: Reg)
    requires Whole(m)
    ensures var p := Target(m, x, Swl, va);
            p.Ram? ==> YamsMemory.Swl(m, x.cp0, x.kernel, rt, va) == Stored(Stores(m, Swl, p.address, rt, va))
    ensures var p := Target(m, x, Swr, va);
            p.Ram? ==> YamsMemory.Swr(m, x.cp0, x.kernel, rt, va) == Stored(Stores(m, Swr, p.address, rt, va))
  {
    hide Locate, WordOf, SwlMerge, SwrMerge, WriteWord, ReadWord, Whole;
    LoadStoreAgree(m, x.cp0, x.kernel, WordOf(va));
  }

  // ----- what a store leaves alone -----

  lemma OtherByte(m: Memory, b: Reg, v: Byte8, w: Reg)
    requires Aligned(w) && WordOf(b) != w
    ensures ReadWord(m.(bytes := Put(m.bytes, b, v)), w) == ReadWord(m, w)
  {
    hide Joined;
    NotInWord(b, w);
  }

  lemma NotInWord(b: Reg, w: Reg)
    requires Aligned(w) && WordOf(b) != w
    ensures b != w && b != w + 1 && b != w + 2 && b != w + 3
  {
    hide WordOf;
    InWord(w);
  }

  lemma InWord(w: Reg)
    requires Aligned(w)
    ensures WordOf(w) == w && WordOf(w + 1) == w && WordOf(w + 2) == w && WordOf(w + 3) == w
  {
    InWord1(w);
    InWord2(w);
    InWord3(w);
  }

  lemma InWord1(w: Reg)
    requires w & 3 == 0
    ensures (w + 1) & 0xffff_fffc == w
  {
  }

  lemma InWord2(w: Reg)
    requires w & 3 == 0
    ensures (w + 2) & 0xffff_fffc == w
  {
  }

  lemma InWord3(w: Reg)
    requires w & 3 == 0
    ensures (w + 3) & 0xffff_fffc == w
  {
  }

  lemma HalfWord(b: Reg)
    requires Halved(b)
    ensures WordOf(b + 1) == WordOf(b)
  {
  }

  lemma HalvedPlace(m: Memory, x: Access, va: Reg)
    requires Halved(va)
    ensures var p := Reach(m, x, va, Store); p.Ram? ==> Halved(p.address)
  {
    hide Locate;
    KeepsOffset(m, x.cp0, x.kernel, va, Store);
  }

  /** A store changes no word but the one it goes to. */
  lemma OtherWord(m: Memory, x: Access, kind: Kind, rt: Reg, va: Reg, w: Reg)
    requires Target(m, x, kind, va).Ram? && Aligned(w) && WordOf(Target(m, x, kind, va).address) != w
    ensures ReadWord(Stores(m, kind, Target(m, x, kind, va).address, rt, va), w) == ReadWord(m, w)
  {
    hide Reach, WordOf, Halved, ReadWord, WriteWord, SwlMerge, SwrMerge, Put, LowByte;
    var b := Target(m, x, kind, va).address;
    match kind
    case Sb => OtherByte(m, b, LowByte(rt), w);
    case Sh =>
      HalvedPlace(m, x, va);
      HalfWord(b);
      OtherByte(m, b, LowByte(rt >> 8), w);
      OtherByte(m.(bytes := Put(m.bytes, b, LowByte(rt >> 8))), b + 1, LowByte(rt), w);
    case _ =>
      var a := if kind.Sw? then va else WordOf(va);
      WordAligned(va);
      AlignedPlace(m, x, a, Store);
      WordItself(b);
      var old_ := ReadWord(m, b);
      ReadsOther(m, b, if kind.Sw? then rt else if kind.Swl? then SwlMerge(old_, rt, va) else SwrMerge(old_, rt, va), w);
  }

  // ----- what a store leaves, byte by byte -----

  /** SB leaves the register's last byte at `b`, SH the last two and SW all four from `b` on, most significant first; SWL and
      SWR leave its first or its last bytes in the word at `b`. No other byte changes. */
  ghost predicate StoresBytes(m: Memory, n: Memory, kind: Kind, b: Reg, rt: Reg, va: Reg) {
    match kind
    case Sb => n.bytes(b) == rt & 0xff && forall a: Reg :: a != b ==> n.bytes(a) == m.bytes(a)
    case Sh =>
      && n.bytes(b) == (rt >> 8) & 0xff && n.bytes(b + 1) == rt & 0xff
      && forall a: Reg :: a != b && a != b + 1 ==> n.bytes(a) == m.bytes(a)
    case Sw => FourBytes(m, n, b, rt)
    case _ =>
      && (forall k :: 0 <= k <= 3 ==> n.bytes(Plus(b, k)) == MergedByte(m, kind, b, rt, Offset(va), k))
      && forall a: Reg :: Outside(a, b) ==> n.bytes(a) == m.bytes(a)
  }

  ghost predicate FourBytes(m: Memory, n: Memory, b: Reg, rt: Reg) {
    && n.bytes(b) == rt >> 24 && n.bytes(b + 1) == (rt >> 16) & 0xff
    && n.bytes(b + 2) == (rt >> 8) & 0xff && n.bytes(b + 3) == rt & 0xff
    && forall a: Reg :: Outside(a, b) ==> n.bytes(a) == m.bytes(a)
  }

  function MergedByte(m: Memory, kind: Kind, b: Reg, rt: Reg, o: nat, k: nat): Byte8
    requires o <= 3
  {
    if kind.Swl? then (if k < o then m.bytes(Plus(b, k)) else ByteOf(rt, k - o))
    else if k > o then m.bytes(Plus(b, k)) else ByteOf(rt, k + 3 - o)
  }

  lemma StoredBytes(m: Memory, kind: Kind, b: Reg, rt: Reg, va: Reg)
    ensures StoresBytes(m, Stores(m, kind, b, rt, va), kind, b, rt, va)
  {
    hide SwlMerge, SwrMerge, ReadWord, WriteWord, ByteOf, Outside, Plus, Offset, FourBytes;
    match kind
    case Sb =>
    case Sh =>
    case Sw => WordBytes(m, b, rt);
    case _ =>
      var w := if kind.Swl? then SwlMerge(ReadWord(m, b), rt, va) else SwrMerge(ReadWord(m, b), rt, va);
      forall k | 0 <= k <= 3
        ensures WriteWord(m, b, w).bytes(Plus(b, k)) == MergedByte(m, kind, b, rt, Offset(va), k)
      {
        Written4(m, b, w, k);
        ByteOfRead(m, b, k);
        if kind.Swl? { SwlBytes(ReadWord(m, b), rt, va, k); } else { SwrBytes(ReadWord(m, b), rt, va, k); }
      }
      forall a: Reg | Outside(a, b) ensures WriteWord(m, b, w).bytes(a) == m.bytes(a) { WrittenElsewhere(m, b, w, a); }
  }

  lemma WordBytes(m: Memory, b: Reg, rt: Reg)
    ensures FourBytes(m, WriteWord(m, b, rt), b, rt)
  {
    hide WriteWord, Outside;
    Written4(m, b, rt, 0);
    Written4(m, b, rt, 1);
    Written4(m, b, rt, 2);
    Written4(m, b, rt, 3);
    forall a: Reg | Outside(a, b) ensures WriteWord(m, b, rt).bytes(a) == m.bytes(a) { WrittenElsewhere(m, b, rt, a); }
  }

  // ----- the machine -----

  /** Main memory, and each CPU's LLAddr register. */
  datatype Machine = Machine(memory: Memory, llAddr: seq<Reg>)

  /** The instructions that touch memory or the link. */
  datatype Action =
    | Ll(cpu: nat, x: Access, va: Reg)
    | Sc(cpu: nat, x: Access, va: Reg, rt: Reg)
    | StoreAt(cpu: nat, x: Access, va: Reg, rt: Reg, kind: Kind)
    | Eret(cpu: nat)

  /** invalidate_rmw_sequences */
  function Invalidated(llAddr: seq<Reg>, w: Reg): (r: seq<Reg>)
    ensures |r| == |llAddr|
    ensures forall c :: 0 <= c < |r| ==> r[c] == if llAddr[c] == w then INVALID else llAddr[c]
  {
    seq(|llAddr|, c requires 0 <= c < |llAddr| => if llAddr[c] == w then INVALID else llAddr[c])
  }

  /** LL goes through, in main memory or in the I/O area. */
  predicate Loads(m: Machine, a: Action) {
    a.Ll? && Aligned(a.va) && !Reach(m.memory, a.x, a.va, Load).Fault?
  }

  /** SC finds its link. The alignment is tested by the write alone, not by the trial write of size 0 before it. */
  predicate Succeeds(m: Machine, a: Action) {
    && a.Sc? && a.cpu < |m.llAddr|
    && !Reach(m.memory, a.x, a.va, Store).Fault?
    && m.llAddr[a.cpu] == PhysAddr(a.x, a.va) && Aligned(a.va)
  }

  /** The store goes through, in main memory or in the I/O area. */
  predicate Passes(m: Machine, a: Action) {
    a.StoreAt? && !Target(m.memory, a.x, a.kind, a.va).Fault?
  }

  /** A store that goes to place `p`; the I/O area is not part of the machine. */
  function Landed(m: Memory, p: Place, kind: Kind, rt: Reg, va: Reg): (n: Memory)
    ensures n.size == m.size
  {
    if p.Ram? then Stores(m, kind, p.address, rt, va) else m
  }

  function After(m: Machine, a: Action): (r: Machine)
    requires a.cpu < |m.llAddr|
    ensures |r.llAddr| == |m.llAddr| && r.memory.size == m.memory.size
  {
    match a
    case Ll(c, x, va) => if Loads(m, a) then m.(llAddr := m.llAddr[c := PhysAddr(x, va)]) else m
    case Sc(c, x, va, rt) =>
      if Succeeds(m, a) then
        Machine(Landed(m.memory, Reach(m.memory, x, va, Store), Sw, rt, va), Invalidated(m.llAddr, PhysAddr(x, va)))
      else m
    case StoreAt(c, x, va, rt, kind) =>
      if Passes(m, a) then
        Machine(Landed(m.memory, Target(m.memory, x, kind, va), kind, rt, va), Invalidated(m.llAddr, Broken(x, kind, va)))
      else m
    case Eret(c) => m.(llAddr := m.llAddr[c := INVALID])
  }

  /** The instruction changes the word at `w` of main memory. */
  predicate Writes(m: Machine, a: Action, w: Reg) {
    || (Succeeds(m, a) && Reach(m.memory, a.x, a.va, Store) == Ram(w))
    || (Passes(m, a) && Target(m.memory, a.x, a.kind, a.va).Ram? && WordOf(Target(m.memory, a.x, a.kind, a.va).address) == w)
  }

  /** The instruction breaks the links to `w`. */
  predicate Breaks(m: Machine, a: Action, w: Reg) {
    || (Succeeds(m, a) && PhysAddr(a.x, a.va) == w)
    || (Passes(m, a) && Broken(a.x, a.kind, a.va) == w)
  }

  /** What writes a word breaks its links, whatever the instruction and the page tables. */
  lemma WritesBreak(m: Machine, a: Action, w: Reg)
    requires Writes(m, a, w)
    ensures Breaks(m, a, w)
  {
    hide Reach, PhysAddr, WordOf, Aligned, Target, Broken;
    if Succeeds(m, a) {
      PhysIsPlace(m.memory, a.x, a.va, Store);
    } else {
      BreaksWritten(m.memory, a.x, a.kind, a.va);
    }
  }

  /** Conversely, outside the I/O area what breaks a link writes the word. */
  lemma BreaksWrite(m: Machine, a: Action, w: Reg)
    requires Breaks(m, a, w)
    requires a.Sc? ==> Reach(m.memory, a.x, a.va, Store).Ram?
    requires a.StoreAt? ==> Target(m.memory, a.x, a.kind, a.va).Ram?
    ensures Writes(m, a, w)
  {
    hide Reach, PhysAddr, WordOf, Aligned, Target, Broken;
    if a.Sc? {
      PhysIsPlace(m.memory, a.x, a.va, Store);
    } else {
      BreaksWritten(m.memory, a.x, a.kind, a.va);
    }
  }

  /** A word nobody writes keeps its value. */
  lemma SameWord(m: Machine, a: Action, w: Reg)
    requires a.cpu < |m.llAddr| && Aligned(w) && !Writes(m, a, w)
    ensures ReadWord(After(m, a).memory, w) == ReadWord(m.memory, w)
  {
    hide Reach, PhysAddr, WordOf, Target, Broken, ReadWord, WriteWord, Stores, Aligned;
    if Succeeds(m, a) {
      var p := Reach(m.memory, a.x, a.va, Store);
      if p.Ram? {
        AlignedPlace(m.memory, a.x, a.va, Store);
        OtherAligned(m.memory, p.address, a.rt, a.va, w);
      }
    } else if Passes(m, a) && Target(m.memory, a.x, a.kind, a.va).Ram? {
      OtherWord(m.memory, a.x, a.kind, a.rt, a.va, w);
    }
  }

  lemma OtherAligned(m: Memory, b: Reg, rt: Reg, va: Reg, w: Reg)
    requires Aligned(b) && Aligned(w) && b != w
    ensures ReadWord(Stores(m, Sw, b, rt, va), w) == ReadWord(m, w)
  {
    hide ReadWord, WriteWord;
    ReadsOther(m, b, rt, w);
  }

  // ----- runs: the instructions of all CPUs in the order they happen -----

  ghost predicate Runnable(m: Machine, acts: seq<Action>) {
    forall i :: 0 <= i < |acts| ==> acts[i].cpu < |m.llAddr|
  }

  /** The machine before action `i`. */
  ghost function Before(m: Machine, acts: seq<Action>, i: nat): (r: Machine)
    requires Runnable(m, acts) && i <= |acts|
    ensures |r.llAddr| == |m.llAddr| && r.memory.size == m.memory.size
  {
    if i == 0 then m else After(Before(m, acts, i - 1), acts[i - 1])
  }

  /** Action `j` is CPU `c`'s last LL before `i`, it set the link to `w`, and nothing has broken that link since. */
  ghost predicate Links(m: Machine, acts: seq<Action>, j: nat, i: nat, c: nat, w: Reg)
    requires Runnable(m, acts) && i <= |acts|
  {
    && j < i && acts[j].cpu == c && Loads(Before(m, acts, j), acts[j]) && PhysAddr(acts[j].x, acts[j].va) == w
    && forall k :: j < k < i ==> Leaves(Before(m, acts, k), acts[k], c, w)
  }

  /** The action is not an LL of CPU `c` and does not break links to `w`. */
  predicate Leaves(m: Machine, a: Action, c: nat, w: Reg) {
    !(a.cpu == c && Loads(m, a)) && !Breaks(m, a, w)
  }

  ghost predicate Unlinked(m: Machine) {
    forall c :: 0 <= c < |m.llAddr| ==> m.llAddr[c] == INVALID
  }

  /** An action that leaves a CPU's link valid, and is not its LL, left it alone. */
  lemma StepLink(m: Machine, a: Action, c: nat)
    requires a.cpu < |m.llAddr| && c < |m.llAddr| && !(a.cpu == c && Loads(m, a))
    ensures var w := After(m, a).llAddr[c]; w != INVALID ==> m.llAddr[c] == w && Leaves(m, a, c, w)
  {
    hide Reach, PhysAddr, WordOf, Target, Broken, Stores, Aligned, WriteWord;
  }

  /** A valid link is always explained by such an LL. */
  lemma {:induction false} LinkHistory(m: Machine, acts: seq<Action>, i: nat, c: nat)
    requires Runnable(m, acts) && Unlinked(m) && i <= |acts| && c < |m.llAddr|
    ensures var w := Before(m, acts, i).llAddr[c]; w != INVALID ==> exists j :: Links(m, acts, j, i, c, w)
    decreases i
  {
    hide Loads, Breaks, PhysAddr, Leaves, After, Writes;
    if i > 0 {
      LinkHistory(m, acts, i - 1, c);
      var before, a := Before(m, acts, i - 1), acts[i - 1];
      var w := Before(m, acts, i).llAddr[c];
      if w != INVALID {
        if a.cpu == c && Loads(before, a) {
          LoadLinks(before, a);
          assert Links(m, acts, i - 1, i, c, w);
        } else {
          StepLink(before, a, c);
          var j :| Links(m, acts, j, i - 1, c, w);
          assert Links(m, acts, j, i, c, w);
        }
      }
    }
  }

  lemma LoadLinks(m: Machine, a: Action)
    requires a.cpu < |m.llAddr| && Loads(m, a)
    ensures After(m, a) == m.(llAddr := m.llAddr[a.cpu := PhysAddr(a.x, a.va)])
  {
    hide PhysAddr, Reach, Aligned;
  }

  /** Conversely such an LL keeps the link until this CPU returns from an exception. */
  lemma {:induction false} LinkStays(m: Machine, acts: seq<Action>, j: nat, i: nat, c: nat, w: Reg)
    requires Runnable(m, acts) && i <= |acts| && c < |m.llAddr| && Links(m, acts, j, i, c, w)
    requires forall k :: j < k < i ==> acts[k] != Eret(c)
    ensures Before(m, acts, i).llAddr[c] == w
    decreases i
  {
    hide Loads, Breaks, PhysAddr, Leaves, After;
    if i - 1 == j {
      LoadLinks(Before(m, acts, j), acts[j]);
    } else {
      LinkStays(m, acts, j, i - 1, c, w);
      assert Leaves(Before(m, acts, i - 1), acts[i - 1], c, w);
      KeepsLink(Before(m, acts, i - 1), acts[i - 1], c, w);
    }
  }

  lemma KeepsLink(m: Machine, a: Action, c: nat, w: Reg)
    requires a.cpu < |m.llAddr| && c < |m.llAddr| && m.llAddr[c] == w && Leaves(m, a, c, w) && a != Eret(c)
    ensures After(m, a).llAddr[c] == w
  {
    hide Reach, PhysAddr, WordOf, Target, Broken, Stores, Aligned, WriteWord;
  }

  /** While nobody writes a word its value stands. */
  lemma {:induction false} Unwritten(m: Machine, acts: seq<Action>, j: nat, i: nat, w: Reg)
    requires Runnable(m, acts) && j <= i <= |acts| && Aligned(w)
    requires forall k :: j <= k < i ==> !Writes(Before(m, acts, k), acts[k], w)
    ensures ReadWord(Before(m, acts, i).memory, w) == ReadWord(Before(m, acts, j).memory, w)
    decreases i
  {
    hide Writes, ReadWord, After, Aligned;
    if i > j {
      Unwritten(m, acts, j, i - 1, w);
      assert !Writes(Before(m, acts, i - 1), acts[i - 1], w);
      SameWord(Before(m, acts, i - 1), acts[i - 1], w);
    }
  }

  // ----- what SC guarantees -----

  /** Below this size no main memory lies where phys_addr puts the I/O area. */
  const ALIAS: Reg := 0x1000_0000

  /** A successful SC that goes to main memory. */
  predicate Commits(m: Machine, a: Action) {
    Succeeds(m, a) && Reach(m.memory, a.x, a.va, Store).Ram?
  }

  lemma IoAlias(m: Memory, x: Access, va: Reg)
    ensures Reach(m, x, va, Load).Io? ==> PhysAddr(x, va) >= ALIAS
  {
    hide Translate, Below;
  }

  lemma InMemory(m: Memory, x: Access, va: Reg, reference: Reference)
    ensures var p := Reach(m, x, va, reference); p.Ram? ==> p.address < m.size
  {
    hide Segment;
  }

  /** With no more memory than that, an LL whose phys_addr lies in main memory was an LL of that word. */
  lemma LoadsThere(m: Memory, x: Access, va: Reg, w: Reg)
    requires m.size <= ALIAS && w < m.size && PhysAddr(x, va) == w && !Reach(m, x, va, Load).Fault?
    ensures Reach(m, x, va, Load) == Ram(w)
  {
    hide Reach, PhysAddr;
    IoAlias(m, x, va);
    PhysIsPlace(m, x, va, Load);
  }

  /** The SC at `i` was preceded by an LL of the very word it writes, by the same CPU, with nothing in between
      that would break the link. */
  ghost predicate LoadedFirst(m: Machine, acts: seq<Action>, j: nat, i: nat, c: nat, w: Reg)
    requires Runnable(m, acts) && i <= |acts|
  {
    Links(m, acts, j, i, c, w) && Reach(m.memory, acts[j].x, acts[j].va, Load) == Ram(w)
  }

  lemma SameReach(m: Memory, n: Memory, x: Access, va: Reg, reference: Reference)
    requires m.size == n.size
    ensures Reach(m, x, va, reference) == Reach(n, x, va, reference)
  {
    hide Segment, Below;
  }

  /** When SC succeeds in main memory, this CPU's last LL was of the same word, no CPU has stored to the word since,
      and memory still holds the value that LL read. */
  lemma ScIsAtomic(m: Machine, acts: seq<Action>, i: nat) returns (j: nat, w: Reg)
    requires Runnable(m, acts) && Unlinked(m) && m.memory.size <= ALIAS
    requires i < |acts| && Commits(Before(m, acts, i), acts[i])
    ensures Reach(m.memory, acts[i].x, acts[i].va, Store) == Ram(w) && Aligned(w)
    ensures LoadedFirst(m, acts, j, i, acts[i].cpu, w)
    ensures forall k :: j <= k < i ==> !Writes(Before(m, acts, k), acts[k], w)
    ensures ReadWord(Before(m, acts, i).memory, w) == ReadWord(Before(m, acts, j).memory, w)
  {
    hide Reach, PhysAddr, Leaves, Breaks, Writes, Aligned, ReadWord, Before, Links, LoadedFirst;
    var n, a := Before(m, acts, i), acts[i];
    w := Reach(n.memory, a.x, a.va, Store).address;
    SameReach(m.memory, n.memory, a.x, a.va, Store);
    InMemory(n.memory, a.x, a.va, Store);
    NotInvalid(n.memory, a.x, a.va, Store);
    PhysIsPlace(n.memory, a.x, a.va, Store);
    AlignedPlace(n.memory, a.x, a.va, Store);
    LinkHistory(m, acts, i, a.cpu);
    j :| Links(m, acts, j, i, a.cpu, w);
    LinkIs(m, acts, j, i, a.cpu, w);
    LinkedLoad(m.memory, Before(m, acts, j), acts[j], w);
    LoadedIs(m, acts, j, i, a.cpu, w);
    LinkedUnwritten(m, acts, j, i, a.cpu, w);
    Unwritten(m, acts, j, i, w);
  }

  lemma LoadedIs(m: Machine, acts: seq<Action>, j: nat, i: nat, c: nat, w: Reg)
    requires Runnable(m, acts) && j < i <= |acts| && Links(m, acts, j, i, c, w)
    requires Loads(Before(m, acts, j), acts[j]) && Reach(m.memory, acts[j].x, acts[j].va, Load) == Ram(w)
    ensures LoadedFirst(m, acts, j, i, c, w)
  {
    hide Links, Reach;
  }

  lemma LinkIs(m: Machine, acts: seq<Action>, j: nat, i: nat, c: nat, w: Reg)
    requires Runnable(m, acts) && i <= |acts| && Links(m, acts, j, i, c, w)
    ensures j < i && Loads(Before(m, acts, j), acts[j]) && PhysAddr(acts[j].x, acts[j].va) == w
  {
  }

  lemma LinkedLoad(m: Memory, n: Machine, a: Action, w: Reg)
    requires n.memory.size == m.size && Loads(n, a) && PhysAddr(a.x, a.va) == w && m.size <= ALIAS && w < m.size
    ensures Reach(m, a.x, a.va, Load) == Ram(w)
  {
    hide Reach, PhysAddr, Aligned;
    SameReach(m, n.memory, a.x, a.va, Load);
    LoadsThere(m, a.x, a.va, w);
  }

  lemma LinkedUnwritten(m: Machine, acts: seq<Action>, j: nat, i: nat, c: nat, w: Reg)
    requires Runnable(m, acts) && i <= |acts| && Links(m, acts, j, i, c, w)
    ensures forall k :: j <= k < i ==> !Writes(Before(m, acts, k), acts[k], w)
  {
    hide Loads, PhysAddr, Leaves, Writes, Before;
    forall k | j <= k < i ensures !Writes(Before(m, acts, k), acts[k], w) {
      if k == j { LoadsWriteNothing(Before(m, acts, j), acts[j], w); }
      else { LeavesUnwritten(Before(m, acts, k), acts[k], c, w); }
    }
  }

  lemma LoadsWriteNothing(m: Machine, a: Action, w: Reg)
    requires Loads(m, a)
    ensures !Writes(m, a, w)
  {
    hide Reach, PhysAddr, WordOf, Target, Broken, Aligned;
  }

  lemma LeavesUnwritten(m: Machine, a: Action, c: nat, w: Reg)
    requires Leaves(m, a, c, w)
    ensures !Writes(m, a, w)
  {
    hide Breaks, Writes;
    if Writes(m, a, w) { WritesBreak(m, a, w); }
  }

  /** With more memory an LL of the I/O area links a word of main memory, and SC succeeds on a word never loaded. */
  lemma AliasCommits(m: Machine, rt: Reg) returns (acts: seq<Action>)
    requires Unlinked(m) && |m.llAddr| > 0 && m.memory.size > ALIAS
    ensures |acts| == 2 && Runnable(m, acts)
    ensures Commits(Before(m, acts, 1), acts[1]) && Reach(m.memory, acts[1].x, acts[1].va, Store) == Ram(ALIAS)
    ensures forall j :: !LoadedFirst(m, acts, j, 1, acts[1].cpu, ALIAS)
  {
    var x: Access := Context(Reset(), true);
    acts := [Ll(0, x, 0xb000_0000), Sc(0, x, 0x9000_0000, rt)];
    hide PhysAddr, Reach, Aligned, WriteWord;
    AliasPlaces(m.memory, x);
    assert Before(m, acts, 0) == m;
    LoadLinks(m, acts[0]);
    var n := Before(m, acts, 1);
    assert n == After(m, acts[0]);
    SameReach(m.memory, n.memory, x, 0x9000_0000, Store);
    forall j ensures !LoadedFirst(m, acts, j, 1, 0, ALIAS) { }
  }

  lemma AliasPlaces(m: Memory, x: Access)
    requires m.size > ALIAS && x == Context(Reset(), true)
    ensures Reach(m, x, 0xb000_0000, Load) == Io && PhysAddr(x, 0xb000_0000) == ALIAS && Aligned(0xb000_0000)
    ensures Reach(m, x, 0x9000_0000, Store) == Ram(ALIAS) && PhysAddr(x, 0x9000_0000) == ALIAS && Aligned(0x9000_0000)
  {
    hide Translate;
  }

  // ----- when SC succeeds -----

  /** After an ERET of its CPU a link stays broken until the next LL. */
  lemma {:induction false} EretBreaks(m: Machine, acts: seq<Action>, k: nat, i: nat, c: nat)
    requires Runnable(m, acts) && k < i <= |acts| && c < |m.llAddr| && acts[k] == Eret(c)
    requires forall l :: k < l < i ==> !(acts[l].cpu == c && Loads(Before(m, acts, l), acts[l]))
    ensures Before(m, acts, i).llAddr[c] == INVALID
    decreases i
  {
    hide Loads, After;
    if i == k + 1 {
      EretLink(Before(m, acts, k), c);
    } else {
      EretBreaks(m, acts, k, i - 1, c);
      StepLink(Before(m, acts, i - 1), acts[i - 1], c);
    }
  }

  lemma EretLink(m: Machine, c: nat)
    requires c < |m.llAddr|
    ensures After(m, Eret(c)).llAddr[c] == INVALID
  {
  }

  /** CPU `c` has linked `w` and may still commit: its last LL was of `w`, it has not returned from an exception since, and
      no instruction of any CPU has broken the link. */
  ghost predicate MayCommit(m: Machine, acts: seq<Action>, i: nat, c: nat, w: Reg)
    requires Runnable(m, acts) && i <= |acts|
  {
    exists j: nat :: LoadedFirst(m, acts, j, i, c, w) && forall k :: j < k < i ==> acts[k] != Eret(c)
  }

  /** An SC of a word of main memory succeeds exactly when its CPU may commit, and the word then holds the register; when
      it does not succeed it changes nothing. */
  lemma ScSucceedsIff(m: Machine, acts: seq<Action>, i: nat, w: Reg)
    requires Runnable(m, acts) && Unlinked(m) && m.memory.size <= ALIAS
    requires i < |acts| && acts[i].Sc? && Aligned(acts[i].va) && Reach(m.memory, acts[i].x, acts[i].va, Store) == Ram(w)
    ensures Succeeds(Before(m, acts, i), acts[i]) <==> MayCommit(m, acts, i, acts[i].cpu, w)
    ensures if MayCommit(m, acts, i, acts[i].cpu, w) then ReadWord(Before(m, acts, i + 1).memory, w) == acts[i].rt
            else Before(m, acts, i + 1) == Before(m, acts, i)
  {
    hide Reach, PhysAddr, Leaves, Loads, Aligned, ReadWord, Links, After;
    var n, a := Before(m, acts, i), acts[i];
    SameReach(m.memory, n.memory, a.x, a.va, Store);
    PhysIsPlace(n.memory, a.x, a.va, Store);
    if Succeeds(n, a) {
      CommitsLinked(m, acts, i, w);
      ScStores(n, a, w);
    } else {
      forall j: nat | LoadedFirst(m, acts, j, i, a.cpu, w) && forall k :: j < k < i ==> acts[k] != Eret(a.cpu) ensures false {
        LinkStays(m, acts, j, i, a.cpu, w);
      }
      ScFails(n, a);
    }
  }

  lemma ScFails(m: Machine, a: Action)
    requires a.cpu < |m.llAddr| && a.Sc? && !Succeeds(m, a)
    ensures After(m, a) == m
  {
    hide Reach, PhysAddr, Aligned;
  }

  lemma CommitsLinked(m: Machine, acts: seq<Action>, i: nat, w: Reg)
    requires Runnable(m, acts) && Unlinked(m) && m.memory.size <= ALIAS && i < |acts|
    requires Succeeds(Before(m, acts, i), acts[i]) && Reach(m.memory, acts[i].x, acts[i].va, Store) == Ram(w)
    ensures MayCommit(m, acts, i, acts[i].cpu, w)
  {
    hide Reach, PhysAddr, Leaves, Loads, Aligned, ReadWord, Before, LoadedFirst;
    var n, a := Before(m, acts, i), acts[i];
    SameReach(m.memory, n.memory, a.x, a.va, Store);
    InMemory(n.memory, a.x, a.va, Store);
    NotInvalid(n.memory, a.x, a.va, Store);
    var j, v := ScIsAtomic(m, acts, i);
    LinkValid(m, acts, i, w);
    forall k | j < k < i ensures acts[k] != Eret(a.cpu) {
      if acts[k] == Eret(a.cpu) { NoLoadsSince(m, acts, j, i, a.cpu, w, k); EretBreaks(m, acts, k, i, a.cpu); }
    }
  }

  lemma LinkValid(m: Machine, acts: seq<Action>, i: nat, w: Reg)
    requires Runnable(m, acts) && i < |acts|
    requires Succeeds(Before(m, acts, i), acts[i]) && Reach(m.memory, acts[i].x, acts[i].va, Store) == Ram(w)
    ensures Before(m, acts, i).llAddr[acts[i].cpu] == w != INVALID
  {
    hide Reach, PhysAddr, Aligned, Before;
    var n, a := Before(m, acts, i), acts[i];
    SameReach(m.memory, n.memory, a.x, a.va, Store);
    NotInvalid(n.memory, a.x, a.va, Store);
    PhysIsPlace(n.memory, a.x, a.va, Store);
  }

  lemma NoLoadsSince(m: Machine, acts: seq<Action>, j: nat, i: nat, c: nat, w: Reg, k: nat)
    requires Runnable(m, acts) && i <= |acts| && LoadedFirst(m, acts, j, i, c, w) && j < k < i
    ensures forall l :: k < l < i ==> !(acts[l].cpu == c && Loads(Before(m, acts, l), acts[l]))
  {
    hide Reach, PhysAddr, Loads, Before, Breaks;
    forall l | k < l < i ensures !(acts[l].cpu == c && Loads(Before(m, acts, l), acts[l])) {
      assert Leaves(Before(m, acts, l), acts[l], c, w);
    }
  }

  /** If the action at `i` is an SC that writes main memory, its CPU had loaded that word. */
  ghost predicate AtomicAt(m: Machine, acts: seq<Action>, i: nat) {
    Runnable(m, acts) && i < |acts| && Commits(Before(m, acts, i), acts[i]) ==>
      exists j :: LoadedFirst(m, acts, j, i, acts[i].cpu, Reach(m.memory, acts[i].x, acts[i].va, Store).address)
  }

  /** SC is atomic in every run exactly when main memory ends below the alias of the I/O area. */
  lemma AtomicIff(m: Machine)
    requires Unlinked(m) && |m.llAddr| > 0
    ensures (forall acts: seq<Action>, i: nat :: AtomicAt(m, acts, i)) <==> m.memory.size <= ALIAS
  {
    hide Reach, PhysAddr, Before, LoadedFirst, Runnable, Commits;
    if m.memory.size <= ALIAS {
      forall acts: seq<Action>, i: nat ensures AtomicAt(m, acts, i) {
        if Runnable(m, acts) && i < |acts| && Commits(Before(m, acts, i), acts[i]) {
          var j, w := ScIsAtomic(m, acts, i);
          assert LoadedFirst(m, acts, j, i, acts[i].cpu, w);
        }
      }
    } else {
      var acts := AliasCommits(m, 0);
      assert !AtomicAt(m, acts, 1);
    }
  }

  /** SC of a misaligned address never finds its link, so the alignment test after it never fails. */
  lemma ScMisaligned(m: Machine, acts: seq<Action>, i: nat)
    requires Runnable(m, acts) && Unlinked(m) && i < |acts|
    requires acts[i].Sc? && !Aligned(acts[i].va) && !Reach(m.memory, acts[i].x, acts[i].va, Store).Fault?
    ensures Before(m, acts, i).llAddr[acts[i].cpu] != PhysAddr(acts[i].x, acts[i].va)
  {
    hide Reach, PhysAddr, Leaves, Aligned, Before;
    var c := acts[i].cpu;
    var w := Before(m, acts, i).llAddr[c];
    LinkHistory(m, acts, i, c);
    PhysMisaligned(m.memory, acts[i].x, acts[i].va);
    if w != INVALID {
      var j: nat :| Links(m, acts, j, i, c, w);
      PhysAligned(acts[j].x, acts[j].va);
    }
  }

  lemma PhysAligned(x: Access, va: Reg)
    requires Aligned(va) && PhysAddr(x, va) != INVALID
    ensures Aligned(PhysAddr(x, va))
  {
    hide PhysAddr, WordOf, Aligned;
    WordItself(va);
    PhysWord(x, va);
    WordAligned(PhysAddr(x, va));
  }

  lemma PhysMisaligned(m: Memory, x: Access, va: Reg)
    requires !Aligned(va) && !Reach(m, x, va, Store).Fault?
    ensures PhysAddr(x, va) != INVALID && !Aligned(PhysAddr(x, va))
  {
    hide Translate, Below, Locate, SameOffset;
    PhysIsPlace(m, x, va, Store);
    NotInvalid(m, x, va, Store);
    KeepsOffset(m, x.cp0, x.kernel, va, Store);
    if Reach(m, x, va, Store).Ram? {
      SameRest(Reach(m, x, va, Store).address, va);
    } else {
      IoMisaligned(m, x, va);
    }
  }

  lemma SameRest(p: Reg, va: Reg)
    requires SameOffset(p, va) && !Aligned(va)
    ensures !Aligned(p)
  {
  }

  lemma IoMisaligned(m: Memory, x: Access, va: Reg)
    requires Reach(m, x, va, Store).Io? && !Aligned(va)
    ensures PhysAddr(x, va) != INVALID && !Aligned(PhysAddr(x, va))
  {
    hide Translate, Below;
  }

  // ----- counting with LL and SC -----

  /** The word `w` is written only by SCs that store one more than their CPU's last LL read. */
  ghost predicate Counted(m: Machine, acts: seq<Action>, w: Reg)
    requires Runnable(m, acts)
  {
    forall i :: 0 <= i < |acts| && Writes(Before(m, acts, i), acts[i], w) ==>
      acts[i].Sc? && forall j :: Links(m, acts, j, i, acts[i].cpu, w) ==>
                       acts[i].rt == ReadWord(Before(m, acts, j).memory, w) + 1
  }

  /** How many SCs to `w` among the first `i` actions succeeded. */
  ghost function Successes(m: Machine, acts: seq<Action>, i: nat, w: Reg): nat
    requires Runnable(m, acts) && i <= |acts|
  {
    if i == 0 then 0
    else
      var a := acts[i - 1];
      Successes(m, acts, i - 1, w) + if a.Sc? && Writes(Before(m, acts, i - 1), a, w) then 1 else 0
  }

  /** A register counted up `n` times from `start`: addition modulo 2^32. */
  function Counter(start: Reg, n: nat): Reg {
    if n == 0 then start else Counter(start, n - 1) + 1
  }

  /** The counter equals its start plus the number of successful SCs, modulo 2^32, in every interleaving. */
  lemma {:induction false} CounterExact(m: Machine, acts: seq<Action>, i: nat, w: Reg)
    requires Runnable(m, acts) && Unlinked(m) && m.memory.size <= ALIAS
    requires Aligned(w) && Counted(m, acts, w) && i <= |acts|
    ensures ReadWord(Before(m, acts, i).memory, w) == Counter(ReadWord(m.memory, w), Successes(m, acts, i, w))
    decreases i
  {
    hide Counted, Writes, After, ReadWord, Aligned;
    if i > 0 {
      CounterExact(m, acts, i - 1, w);
      if Writes(Before(m, acts, i - 1), acts[i - 1], w) {
        WrittenCount(m, acts, i - 1, w);
      } else {
        SameWord(Before(m, acts, i - 1), acts[i - 1], w);
      }
    }
  }

  lemma WrittenCount(m: Machine, acts: seq<Action>, i: nat, w: Reg)
    requires Runnable(m, acts) && Unlinked(m) && m.memory.size <= ALIAS
    requires Counted(m, acts, w) && i < |acts| && Writes(Before(m, acts, i), acts[i], w)
    ensures acts[i].Sc?
    ensures ReadWord(Before(m, acts, i + 1).memory, w) == ReadWord(Before(m, acts, i).memory, w) + 1
  {
    hide Reach, ReadWord, Aligned, Links, Target, WordOf, After, PhysAddr;
    assert acts[i].Sc?;
    var j, w' := ScIsAtomic(m, acts, i);
    SameReach(m.memory, Before(m, acts, i).memory, acts[i].x, acts[i].va, Store);
    ScStores(Before(m, acts, i), acts[i], w);
  }

  lemma ScStores(m: Machine, a: Action, w: Reg)
    requires a.cpu < |m.llAddr| && Succeeds(m, a) && Reach(m.memory, a.x, a.va, Store) == Ram(w)
    ensures ReadWord(After(m, a).memory, w) == a.rt
  {
    hide Reach, PhysAddr, ReadWord, WriteWord, Aligned;
    ReadsWritten(m.memory, w, a.rt);
  }

  // ----- the hardware's memory and LLAddr registers -----

  datatype Outcome = Done(register: Reg) | Device | Raised(exception: Exception)

  class Hardware {
    var memory: Memory
    const llAddr: array<Reg>

    function State(): Machine
      reads this, llAddr
    {
      Machine(memory, llAddr[..])
    }

    constructor (memory: Memory, cpus: nat)
      ensures State() == Machine(memory, llAddr[..]) && Unlinked(State()) && llAddr.Length == cpus && fresh(llAddr)
    {
      this.memory := memory;
      llAddr := new Reg[cpus](_ => INVALID);
    }

    method InvalidateRmwSequences(address: Reg)
      modifies llAddr
      ensures llAddr[..] == Invalidated(old(llAddr[..]), address)
    {
      ghost var before := llAddr[..];
      var i := 0;
      while i < llAddr.Length
        invariant 0 <= i <= llAddr.Length
        invariant forall c :: 0 <= c < i ==> llAddr[c] == if before[c] == address then INVALID else before[c]
        invariant forall c :: i <= c < llAddr.Length ==> llAddr[c] == before[c]
      {
        if llAddr[i] == address {
          llAddr[i] := INVALID;
        }
        i := i + 1;
      }
    }

    /** LL: reads the word and sets the link, also for the I/O area. */
    method LoadLinked(cpu: nat, x: Access, va: Reg) returns (r: Outcome)
      requires cpu < llAddr.Length
      modifies llAddr
      ensures State() == After(old(State()), Ll(cpu, x, va))
      ensures if !Aligned(va) then r == Raised(AddressLoad)
              else match Reach(memory, x, va, Load)
                   case Fault(e) => r == Raised(e)
                   case Io => r == Device
                   case Ram(p) => r == Done(ReadWord(memory, p))
      ensures llAddr[..] == if r.Raised? then old(llAddr[..]) else old(llAddr[..])[cpu := PhysAddr(x, va)]
    {
      hide Reach, PhysAddr, ReadWord;
      if !Aligned(va) { return Raised(AddressLoad); }
      var p := Reach(memory, x, va, Load);
      if p.Fault? { return Raised(p.exception); }
      r := if p.Ram? then Done(ReadWord(memory, p.address)) else Device;
      llAddr[cpu] := PhysAddr(x, va);
    }

    /** SC returns 1 and stores when the link is still there, else returns 0 and changes nothing. */
    method StoreConditional(cpu: nat, x: Access, va: Reg, rt: Reg) returns (r: Outcome)
      requires cpu < llAddr.Length
      modifies `memory, llAddr
      ensures State() == After(old(State()), Sc(cpu, x, va, rt))
      ensures match Reach(old(memory), x, va, Store)
              case Fault(e) => r == Raised(e)
              case _ =>
                r == if old(llAddr[cpu]) != PhysAddr(x, va) then Done(0)
                     else if va & 3 == 0 then Done(1) else Raised(AddressStore)
      ensures var p := Reach(old(memory), x, va, Store);
              if r == Done(1) && p.Ram? then FourBytes(old(memory), memory, p.address, rt) else memory == old(memory)
    {
      hide Reach, PhysAddr, WriteWord, FourBytes;
      var p := Reach(memory, x, va, Store);
      if p.Fault? { return Raised(p.exception); }
      var pAddr := PhysAddr(x, va);
      var atomic := llAddr[cpu] == pAddr;
      if atomic {
        if !Aligned(va) { return Raised(AddressStore); }
        if p.Ram? {
          WordBytes(memory, p.address, rt);
          memory := WriteWord(memory, p.address, rt);
        }
        InvalidateRmwSequences(pAddr);
        r := Done(1);
      } else {
        r := Done(0);
      }
    }

    /** SB, SH, SW, SWL and SWR. */
    method StoreRegister(cpu: nat, x: Access, va: Reg, rt: Reg, kind: Kind) returns (raised: bool)
      requires cpu < llAddr.Length
      modifies `memory, llAddr
      ensures State() == After(old(State()), StoreAt(cpu, x, va, rt, kind))
      ensures raised <==> Target(old(memory), x, kind, va).Fault?
      ensures var p := Target(old(memory), x, kind, va);
              if p.Ram? then StoresBytes(old(memory), memory, kind, p.address, rt, va) else memory == old(memory)
    {
      hide Target, Broken, Stores, StoresBytes;
      var p := Target(memory, x, kind, va);
      if p.Ram? { StoredBytes(memory, kind, p.address, rt, va); }
      if p.Fault? { return true; }
      if p.Ram? { memory := Stores(memory, kind, p.address, rt, va); }
      InvalidateRmwSequences(Broken(x, kind, va));
      return false;
    }
  }
}
