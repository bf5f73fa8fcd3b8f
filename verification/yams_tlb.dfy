/** The YAMS translation lookaside buffer: its field macros (cp0.h), the TLB instructions and MTC0 (cpu.c),
    and the address translator (cp0.c).

    Registers with fields are 32-bit vectors; Index, Random and Wired, which number entries, are integers
    below 2^32, where `& 0x7fffffff` is `% 2^31` and `& 15` is `% 16`.
 */
module YamsTlb {
  import opened Words

  type Reg = bv32

  const NUM_TLB_ENTRIES := 16
  const PROBE_FAILED := 0x8000_0000

  datatype Entry = Entry(vp: Reg, even: Reg, odd: Reg)

  // ----- field macros -----

  function EntryHiVpn2(r: Reg): Reg { (0xffff_e000 & r) >> 13 }
  function EntryHiAsid(r: Reg): Reg { 0x0000_00ff & r }
  function EntryLoPfn(r: Reg): Reg { (0xcfff_ffc0 & r) >> 6 }
  function EntryLoC(r: Reg): Reg { (0x0000_0038 & r) >> 3 }
  function EntryLoD(r: Reg): Reg { (0x0000_0004 & r) >> 2 }
  function EntryLoV(r: Reg): Reg { (0x0000_0002 & r) >> 1 }
  function EntryLoG(r: Reg): Reg { 0x0000_0001 & r }

  function TlbG(e: Entry): Reg { (e.vp & 0x0000_0100) >> 8 }
  function TlbAsid(e: Entry): Reg { e.vp & 0x0000_00ff }
  function TlbVpn2(e: Entry): Reg { (e.vp & 0xffff_e000) >> 13 }
  function TlbPfn(half: Reg): Reg { (half & 0x3fff_ffc0) >> 6 }
  function TlbC(half: Reg): Reg { (half & 0x0000_0038) >> 3 }
  function TlbD(half: Reg): Reg { (half & 0x0000_0004) >> 2 }
  function TlbV(half: Reg): Reg { (half & 0x0000_0002) >> 1 }

  function SetG(vp: Reg, value: Reg): Reg { (vp & !0x0000_0100) | (value << 8) }
  function SetAsid(vp: Reg, value: Reg): Reg { (vp & !0x0000_00ff) | value }
  function SetVpn2(vp: Reg, value: Reg): Reg { (vp & !0xffff_e000) | (value << 13) }
  function SetPfn(half: Reg, value: Reg): Reg { (half & !0x3fff_ffc0) | (value << 6) }
  function SetC(half: Reg, value: Reg): Reg { (half & !0x0000_0038) | (value << 3) }
  function SetD(half: Reg, value: Reg): Reg { (half & !0x0000_0004) | (value << 2) }
  function SetV(half: Reg, value: Reg): Reg { (half & !0x0000_0002) | (value << 1) }

  // ----- what the instructions store and read back -----

  /** One half of an entry after a TLB write from an EntryLo register. */
  function HalfWritten(half: Reg, lo: Reg): Reg {
    SetV(SetD(SetC(SetPfn(half, EntryLoPfn(lo)), EntryLoC(lo)), EntryLoD(lo)), EntryLoV(lo))
  }

  function VpWritten(vp: Reg, hi: Reg, lo0: Reg, lo1: Reg): Reg {
    SetG(SetAsid(SetVpn2(vp, EntryHiVpn2(hi)), EntryHiAsid(hi)), EntryLoG(lo1) & EntryLoG(lo0))
  }

  function Written(e: Entry, hi: Reg, lo0: Reg, lo1: Reg): Entry {
    Entry(VpWritten(e.vp, hi, lo0, lo1), HalfWritten(e.even, lo0), HalfWritten(e.odd, lo1))
  }

  function ReadHi(e: Entry): Reg { (TlbVpn2(e) << 13) | TlbAsid(e) }

  function ReadLo(half: Reg, g: Reg): Reg {
    (TlbPfn(half) << 6) | (TlbC(half) << 3) | (TlbD(half) << 2) | (TlbV(half) << 1) | g
  }

  predicate IsBit(g: Reg) { g <= 1 }

  /** An EntryLo register with its G bit replaced. */
  function WithG(lo: Reg, g: Reg): Reg { (lo & 0xffff_fffe) | g }

  function CombinedG(lo0: Reg, lo1: Reg): Reg { lo0 & lo1 & 1 }

  /** Bits 8 to 12 of EntryHi, which no entry stores, are clear. */
  predicate MaskedHi(hi: Reg) { hi & 0x0000_1f00 == 0 }

  /** The top four bits of an EntryLo register, which no entry gives back, are clear. */
  predicate TopClear(lo: Reg) { lo & 0xf000_0000 == 0 }

  /** Reading an entry back gives the EntryHi register exactly when its unused bits are clear. */
  lemma HiRoundTrip(e: Entry, hi: Reg, lo0: Reg, lo1: Reg)
    ensures ReadHi(Written(e, hi, lo0, lo1)) == hi <==> MaskedHi(hi)
  {
  }

  lemma GlobalBit(e: Entry, hi: Reg, lo0: Reg, lo1: Reg)
    ensures TlbG(Written(e, hi, lo0, lo1)) == CombinedG(lo0, lo1) && IsBit(CombinedG(lo0, lo1))
  {
  }

  /** And the EntryLo register, with its G bit replaced by `g`, exactly when its top four bits are clear. */
  lemma LoRoundTrip(half: Reg, lo: Reg, g: Reg)
    requires IsBit(g)
    ensures ReadLo(HalfWritten(half, lo), g) == WithG(lo, g) <==> TopClear(lo)
  {
  }

  // ----- the state -----

  datatype Cp0 = Cp0(
    index: Word, random: Word, wired: Word, entryHi: Reg, entryLo0: Reg, entryLo1: Reg, tlb: seq<Entry>)

  predicate Sized(c: Cp0) { |c.tlb| == NUM_TLB_ENTRIES && c.random < NUM_TLB_ENTRIES }

  /** A register half as MTC0 leaves it. */
  predicate Masked(half: Reg) { half & 0xfc00_0000 == 0 }

  predicate MaskedEntry(e: Entry) { Masked(e.even) && Masked(e.odd) }

  /** What every reachable state satisfies: the random index stays among the unwired entries,
      and the registers hold no bits that MTC0 masks out. */
  ghost predicate Reachable(c: Cp0) {
    && Sized(c)
    && c.wired <= c.random
    && MaskedHi(c.entryHi) && Masked(c.entryLo0) && Masked(c.entryLo1)
    && (forall i :: 0 <= i < NUM_TLB_ENTRIES ==> MaskedEntry(c.tlb[i]))
  }

  /** The TLB instructions, the MTC0 instructions that matter to them, and the effect of a TLB exception on EntryHi. */
  datatype Instruction =
    | Tlbr | Tlbwi | Tlbwr | Tlbp
    | Mtc0Index(number: Word) | Mtc0Wired(number: Word)
    | Mtc0EntryLo0(value: Reg) | Mtc0EntryLo1(value: Reg) | Mtc0EntryHi(value: Reg)
    | BadVpn2(address: Reg)

  predicate Matches(e: Entry, vpn2: Reg, asid: Reg) {
    TlbVpn2(e) == vpn2 && (TlbG(e) == 1 || TlbAsid(e) == asid)
  }

  /** Whether entry `i` matches the page and the address space in EntryHi. */
  predicate Hit(c: Cp0, i: nat) {
    i < |c.tlb| && Matches(c.tlb[i], EntryHiVpn2(c.entryHi), EntryHiAsid(c.entryHi))
  }

  /** The index register after TLBP has looked at the first `i` entries: the last match wins. */
  function Probe(c: Cp0, i: nat): Word
    requires i <= |c.tlb| == NUM_TLB_ENTRIES
  {
    if i == 0 then (if c.index < PROBE_FAILED then c.index + PROBE_FAILED else c.index)
    else if Hit(c, i - 1) then i - 1
    else Probe(c, i - 1)
  }

  function Replaced(c: Cp0, i: nat): seq<Entry>
    requires i < |c.tlb|
  {
    c.tlb[i := Written(c.tlb[i], c.entryHi, c.entryLo0, c.entryLo1)]
  }

  /** MTC0's masks, and SET_CP0_ENTRYHI_BADVPN2. */
  function ToEntryLo(v: Reg): Reg { v & 0x03ff_ffff }
  function ToEntryHi(v: Reg): Reg { v & 0xffff_e0ff }
  function WithBadVpn2(hi: Reg, a: Reg): Reg { (hi & !0xffff_e000) | (a & 0xffff_e000) }

  function Step(c: Cp0, ins: Instruction): Cp0
    requires Sized(c)
  {
    match ins
    case Tlbr =>
      var i := c.index % PROBE_FAILED;
      if i < NUM_TLB_ENTRIES then
        var e := c.tlb[i];
        c.(entryHi := ReadHi(e), entryLo1 := ReadLo(e.odd, TlbG(e)), entryLo0 := ReadLo(e.even, TlbG(e)))
      else c
    case Tlbwi =>
      var i := c.index % PROBE_FAILED;
      if i < NUM_TLB_ENTRIES then c.(tlb := Replaced(c, i)) else c
    case Tlbwr =>
      var i := c.random;
      c.(tlb := Replaced(c, i), random := if (i - 1) % WORDS >= c.wired && i != 0 then i - 1 else NUM_TLB_ENTRIES - 1)
    case Tlbp => c.(index := Probe(c, NUM_TLB_ENTRIES))
    case Mtc0Index(n) => c.(index := (if c.index < PROBE_FAILED then 0 else PROBE_FAILED) + n % NUM_TLB_ENTRIES)
    case Mtc0Wired(n) => c.(wired := n % NUM_TLB_ENTRIES, random := NUM_TLB_ENTRIES - 1)
    case Mtc0EntryLo0(v) => c.(entryLo0 := ToEntryLo(v))
    case Mtc0EntryLo1(v) => c.(entryLo1 := ToEntryLo(v))
    case Mtc0EntryHi(v) => c.(entryHi := ToEntryHi(v))
    case BadVpn2(a) => c.(entryHi := WithBadVpn2(c.entryHi, a))
  }

  // ----- reachable states -----

  /** cp0_create */
  function Reset(): Cp0 {
    Cp0(0, NUM_TLB_ENTRIES - 1, 0, 0, 0, 0, seq(NUM_TLB_ENTRIES, _ => Entry(0, 0, 0)))
  }

  lemma ResetReachable()
    ensures Reachable(Reset())
  {
  }

  lemma WrittenMasked(e: Entry, hi: Reg, lo0: Reg, lo1: Reg)
    requires MaskedEntry(e) && Masked(lo0) && Masked(lo1)
    ensures MaskedEntry(Written(e, hi, lo0, lo1))
  {
    hide VpWritten;
  }

  lemma ReadMasked(e: Entry, half: Reg)
    requires Masked(half)
    ensures MaskedHi(ReadHi(e)) && Masked(ReadLo(half, TlbG(e)))
  {
  }

  lemma Mtc0Masks(v: Reg, hi: Reg)
    ensures Masked(ToEntryLo(v)) && MaskedHi(ToEntryHi(v))
    ensures MaskedHi(hi) ==> MaskedHi(WithBadVpn2(hi, v))
  {
  }

  /** The instructions that move entries keep every register masked. */
  lemma EntryStepKeeps(c: Cp0, ins: Instruction)
    requires Reachable(c) && (ins.Tlbr? || ins.Tlbwi? || ins.Tlbwr?)
    ensures Reachable(Step(c, ins))
  {
    hide Written, ReadHi, ReadLo, TlbG, Probe, Masked, MaskedHi, MaskedEntry;
    var i := if ins.Tlbwr? then c.random else c.index % PROBE_FAILED;
    if i < NUM_TLB_ENTRIES {
      if ins.Tlbr? {
        HalvesMasked(c.tlb[i]);
        ReadMasked(c.tlb[i], c.tlb[i].odd);
        ReadMasked(c.tlb[i], c.tlb[i].even);
      } else {
        WrittenMasked(c.tlb[i], c.entryHi, c.entryLo0, c.entryLo1);
      }
    }
  }

  lemma StepKeeps(c: Cp0, ins: Instruction)
    requires Reachable(c)
    ensures Reachable(Step(c, ins))
  {
    hide Replaced, ReadHi, ReadLo, TlbG, Probe, Masked, MaskedHi, MaskedEntry, ToEntryLo, ToEntryHi, WithBadVpn2;
    if ins.Tlbr? || ins.Tlbwi? || ins.Tlbwr? {
      EntryStepKeeps(c, ins);
    } else if ins.Mtc0EntryLo0? || ins.Mtc0EntryLo1? || ins.Mtc0EntryHi? {
      Mtc0Masks(ins.value, c.entryHi);
    } else if ins.BadVpn2? {
      Mtc0Masks(ins.address, c.entryHi);
    }
  }

  lemma HalvesMasked(e: Entry)
    requires MaskedEntry(e)
    ensures Masked(e.even) && Masked(e.odd)
  {
  }

  /** The state after a program. */
  function Run(c: Cp0, program: seq<Instruction>): (r: Cp0)
    requires Sized(c)
    ensures Sized(r)
    decreases |program|
  {
    if program == [] then c else Step(Run(c, program[..|program| - 1]), program[|program| - 1])
  }

  lemma {:induction false} RunReachable(program: seq<Instruction>)
    ensures Reachable(Run(Reset(), program))
    decreases |program|
  {
    hide Reachable, Step;
    ResetReachable();
    if program != [] {
      RunReachable(program[..|program| - 1]);
      StepKeeps(Run(Reset(), program[..|program| - 1]), program[|program| - 1]);
    }
  }

  /** In every state a program reaches, Wired <= Random <= 15 and TLBWR replaces no wired entry. */
  lemma WiredEntriesStay(program: seq<Instruction>, i: nat)
    ensures var c := Run(Reset(), program);
            && c.wired <= c.random < NUM_TLB_ENTRIES
            && (i < c.wired ==> Step(c, Tlbwr).tlb[i] == c.tlb[i])
  {
    hide Written, Run, MaskedEntry;
    RunReachable(program);
  }

  /** In every state a program reaches, TLBWI then TLBR gives back EntryHi and,
      up to the combined G bit, EntryLo0 and EntryLo1. */
  lemma WriteThenRead(program: seq<Instruction>)
    ensures var c := Run(Reset(), program);
            c.index % PROBE_FAILED < NUM_TLB_ENTRIES ==> ReadsBack(c, Step(Step(c, Tlbwi), Tlbr))
  {
    hide Step, Run, ReadsBack, Reachable;
    RunReachable(program);
    var c := Run(Reset(), program);
    if c.index % PROBE_FAILED < NUM_TLB_ENTRIES { WriteThenReadAt(c); }
  }

  /** The registers `r` hold what was in `c`, the G bit of both EntryLo registers being that of both together. */
  predicate ReadsBack(c: Cp0, r: Cp0) {
    && r.entryHi == c.entryHi
    && WithBothG(r.entryLo0, c.entryLo0, c.entryLo0, c.entryLo1)
    && WithBothG(r.entryLo1, c.entryLo1, c.entryLo0, c.entryLo1)
  }

  predicate WithBothG(r: Reg, lo: Reg, lo0: Reg, lo1: Reg) { r == (lo & 0xffff_fffe) | (lo0 & lo1 & 1) }

  lemma WriteThenReadAt(c: Cp0)
    requires Reachable(c) && c.index % PROBE_FAILED < NUM_TLB_ENTRIES
    ensures ReadsBack(c, Step(Step(c, Tlbwi), Tlbr))
  {
    hide Written, ReadHi, ReadLo, TlbG, Masked, MaskedHi, MaskedEntry, WithG, CombinedG, ReadsBack;
    EntryRoundTrip(c.tlb[c.index % PROBE_FAILED], c.entryHi, c.entryLo0, c.entryLo1);
    ReadsBackBits(c, Step(Step(c, Tlbwi), Tlbr));
  }

  lemma ReadsBackBits(c: Cp0, r: Cp0)
    requires r.entryHi == c.entryHi
    requires r.entryLo0 == WithG(c.entryLo0, CombinedG(c.entryLo0, c.entryLo1))
    requires r.entryLo1 == WithG(c.entryLo1, CombinedG(c.entryLo0, c.entryLo1))
    ensures ReadsBack(c, r)
  {
    hide WithG, CombinedG, WithBothG;
    GReplaced(c.entryLo0, c.entryLo0, c.entryLo1);
    GReplaced(c.entryLo1, c.entryLo0, c.entryLo1);
  }

  lemma GReplaced(lo: Reg, lo0: Reg, lo1: Reg)
    ensures WithBothG(WithG(lo, CombinedG(lo0, lo1)), lo, lo0, lo1)
  {
  }

  lemma EntryRoundTrip(e: Entry, hi: Reg, lo0: Reg, lo1: Reg)
    requires MaskedHi(hi) && Masked(lo0) && Masked(lo1)
    ensures var w := Written(e, hi, lo0, lo1);
            && ReadHi(w) == hi
            && ReadLo(w.even, TlbG(w)) == WithG(lo0, CombinedG(lo0, lo1))
            && ReadLo(w.odd, TlbG(w)) == WithG(lo1, CombinedG(lo0, lo1))
  {
    hide ReadHi, ReadLo, TlbG, HalfWritten, VpWritten, Masked, MaskedHi, TopClear, WithG, CombinedG, IsBit;
    HiRoundTrip(e, hi, lo0, lo1);
    GlobalBit(e, hi, lo0, lo1);
    TopBits(lo0);
    TopBits(lo1);
    LoRoundTrip(e.even, lo0, CombinedG(lo0, lo1));
    LoRoundTrip(e.odd, lo1, CombinedG(lo0, lo1));
  }

  lemma TopBits(lo: Reg)
    requires Masked(lo)
    ensures TopClear(lo)
  {
  }

  // ----- the translator -----

  datatype Reference = Load | Store

  datatype Translation = Physical(address: Reg) | Refill | Invalid | Modification

  /** tlb_translate's search from entry `i` on: the first match, or 16. */
  function FirstMatch(c: Cp0, vpn2: Reg, i: nat): (r: nat)
    requires i <= |c.tlb| == NUM_TLB_ENTRIES
    ensures i <= r <= NUM_TLB_ENTRIES
    ensures r < NUM_TLB_ENTRIES ==> Matches(c.tlb[r], vpn2, EntryHiAsid(c.entryHi))
    ensures forall j :: i <= j < r ==> !Matches(c.tlb[j], vpn2, EntryHiAsid(c.entryHi))
    decreases NUM_TLB_ENTRIES - i
  {
    if i == NUM_TLB_ENTRIES || Matches(c.tlb[i], vpn2, EntryHiAsid(c.entryHi)) then i else FirstMatch(c, vpn2, i + 1)
  }

  /** The address in a page frame. */
  function InFrame(pfn: Reg, va: Reg): Reg { (pfn << 12) | (va & 0x0000_0fff) }

  function Use(e: Entry, va: Reg, reference: Reference): Translation {
    Access(if va & 0x0000_1000 == 0 then e.even else e.odd, va, reference)
  }

  function Access(half: Reg, va: Reg, reference: Reference): Translation {
    if TlbV(half) == 0 then Invalid
    else if TlbD(half) == 0 && reference.Store? then Modification
    else Physical(InFrame(TlbPfn(half), va))
  }

  function Vpn2Of(va: Reg): Reg { (va & 0xffff_e000) >> 13 }

  /** tlb_translate */
  function Translate(c: Cp0, va: Reg, reference: Reference): Translation
    requires Sized(c)
  {
    var i := FirstMatch(c, Vpn2Of(va), 0);
    if i < NUM_TLB_ENTRIES then Use(c.tlb[i], va, reference) else Refill
  }

  /** No two entries match the page in EntryHi. */
  ghost predicate UniqueHit(c: Cp0) {
    forall i, j :: 0 <= i < j && Hit(c, i) ==> !Hit(c, j)
  }

  lemma {:induction false} ProbeIsLast(c: Cp0, i: nat)
    requires i <= |c.tlb| == NUM_TLB_ENTRIES
    ensures var p := Probe(c, i);
            if exists j :: 0 <= j < i && Hit(c, j) then p < i && Hit(c, p) && forall j :: p < j < i ==> !Hit(c, j)
            else p >= PROBE_FAILED
  {
    hide Hit;
    if i > 0 { ProbeIsLast(c, i - 1); }
  }

  /** TLBP finds the entry the translator uses for the page in EntryHi exactly when no two entries match it. */
  lemma ProbeAgreesIff(c: Cp0)
    requires Sized(c)
    ensures var first := FirstMatch(c, EntryHiVpn2(c.entryHi), 0); var probed := Step(c, Tlbp).index;
            && (first == NUM_TLB_ENTRIES <==> probed >= PROBE_FAILED)
            && (first < NUM_TLB_ENTRIES ==> (probed == first <==> UniqueHit(c)))
  {
    hide Matches, EntryHiVpn2, EntryHiAsid;
    var first := FirstMatch(c, EntryHiVpn2(c.entryHi), 0);
    ProbeIsLast(c, NUM_TLB_ENTRIES);
    var probed := Step(c, Tlbp).index;
    assert forall j :: 0 <= j < first ==> !Hit(c, j);
    if first < NUM_TLB_ENTRIES {
      assert Hit(c, first);
      if probed == first {
        assert forall j :: first < j && Hit(c, j) ==> j < NUM_TLB_ENTRIES;
      }
    }
  }

  /** Right after reset they do not: every entry matches page 0, TLBP answers the last and the translator uses the first. */
  lemma ResetDisagrees()
    ensures Run(Reset(), []) == Reset()
    ensures FirstMatch(Reset(), EntryHiVpn2(Reset().entryHi), 0) == 0 && Step(Reset(), Tlbp).index == NUM_TLB_ENTRIES - 1
  {
    assert Hit(Reset(), 0) && Hit(Reset(), NUM_TLB_ENTRIES - 1);
  }

  predicate OnPage(hi: Reg, va: Reg) { va & 0xffff_e000 == hi & 0xffff_e000 }

  /** An address is looked up under the page number in EntryHi exactly when it lies on that page. */
  lemma SamePage(hi: Reg, va: Reg)
    ensures Vpn2Of(va) == EntryHiVpn2(hi) <==> OnPage(hi, va)
  {
    hide Vpn2Of, EntryHiVpn2, OnPage;
    if Vpn2Of(va) == EntryHiVpn2(hi) { PageBack(hi, va); }
    if OnPage(hi, va) { PageGiven(hi, va); }
  }

  lemma PageGiven(hi: Reg, va: Reg)
    requires OnPage(hi, va)
    ensures Vpn2Of(va) == EntryHiVpn2(hi)
  {
  }

  lemma PageBack(hi: Reg, va: Reg)
    requires Vpn2Of(va) == EntryHiVpn2(hi)
    ensures OnPage(hi, va)
  {
    ShiftBack(va);
    ShiftBack(hi);
    EntryHiIs(hi);
  }

  lemma ShiftBack(a: Reg)
    ensures ((a & 0xffff_e000) >> 13) << 13 == a & 0xffff_e000
  {
  }

  lemma EntryHiIs(hi: Reg)
    ensures EntryHiVpn2(hi) == (hi & 0xffff_e000) >> 13 && EntryHiAsid(hi) == hi & 0x0000_00ff
  {
  }

  /** What the bits of an EntryLo register, or of one half of an entry, say about an access to its page. */
  function PageOf(lo: Reg, va: Reg, reference: Reference): Translation {
    if ValidClear(lo) then Invalid
    else if DirtyClear(lo) && reference == Store then Modification
    else Physical(FrameAddress(lo, va))
  }

  predicate ValidClear(lo: Reg) { lo & 0x0000_0002 == 0 }

  predicate DirtyClear(lo: Reg) { lo & 0x0000_0004 == 0 }

  /** The frame number is in bits 6 to 29, and a frame has 2^12 bytes. */
  function FrameAddress(lo: Reg, va: Reg): Reg { ((lo & 0x3fff_ffc0) << 6) | (va & 0x0000_0fff) }

  lemma AccessInBits(half: Reg, va: Reg, reference: Reference)
    ensures Access(half, va, reference) == PageOf(half, va, reference)
  {
    hide TlbV, TlbD, TlbPfn, InFrame, ValidClear, DirtyClear, FrameAddress;
    HalfBits(half);
    HalfFrame(half, va);
  }

  lemma HalfBits(half: Reg)
    ensures TlbV(half) == 0 <==> ValidClear(half)
    ensures TlbD(half) == 0 <==> DirtyClear(half)
  {
  }

  lemma HalfFrame(half: Reg, va: Reg)
    ensures InFrame(TlbPfn(half), va) == FrameAddress(half, va)
  {
    hide TlbPfn;
    HalfPfn(half);
  }

  lemma HalfPfn(half: Reg)
    ensures TlbPfn(half) << 12 == (half & 0x3fff_ffc0) << 6
  {
  }

  lemma WrittenUsed(half: Reg, lo: Reg, va: Reg, reference: Reference)
    requires Masked(lo)
    ensures Access(HalfWritten(half, lo), va, reference) == PageOf(lo, va, reference)
  {
    hide Masked, HalfWritten, TlbV, TlbD, TlbPfn, InFrame, ValidClear, DirtyClear, FrameAddress;
    HalfUsed(half, lo);
    WrittenFrame(half, lo, va);
  }

  lemma HalfUsed(half: Reg, lo: Reg)
    ensures TlbV(HalfWritten(half, lo)) == 0 <==> ValidClear(lo)
    ensures TlbD(HalfWritten(half, lo)) == 0 <==> DirtyClear(lo)
  {
  }

  lemma WrittenFrame(half: Reg, lo: Reg, va: Reg)
    requires Masked(lo)
    ensures InFrame(TlbPfn(HalfWritten(half, lo)), va) == FrameAddress(lo, va)
  {
    hide HalfWritten, Masked, TlbPfn;
    WrittenPfn(half, lo);
  }

  lemma WrittenPfn(half: Reg, lo: Reg)
    requires Masked(lo)
    ensures TlbPfn(HalfWritten(half, lo)) << 12 == (lo & 0x3fff_ffc0) << 6
  {
  }

  lemma WrittenMatches(e: Entry, hi: Reg, lo0: Reg, lo1: Reg)
    ensures Matches(Written(e, hi, lo0, lo1), EntryHiVpn2(hi), EntryHiAsid(hi))
  {
  }

  /** Bit 12 of the address is clear. */
  predicate EvenPage(va: Reg) { va & 0x0000_1000 == 0 }

  predicate ForAll(e: Entry) { e.vp & 0x0000_0100 != 0 }

  predicate SameSpace(e: Entry, hi: Reg) { e.vp & 0x0000_00ff == hi & 0x0000_00ff }

  /** The entry holds the page of `va`, for the address space in `hi` or for all of them: the test in bits. */
  predicate Holds(e: Entry, va: Reg, hi: Reg) { OnPage(e.vp, va) && (ForAll(e) || SameSpace(e, hi)) }

  lemma HoldsIffMatches(e: Entry, va: Reg, hi: Reg)
    ensures Holds(e, va, hi) <==> Matches(e, Vpn2Of(va), EntryHiAsid(hi))
  {
    hide TlbG, TlbVpn2, TlbAsid, Vpn2Of, EntryHiAsid, EntryHiVpn2, OnPage, ForAll, SameSpace;
    SamePage(e.vp, va);
    EntryFields(e, hi);
  }

  lemma EntryFields(e: Entry, hi: Reg)
    ensures TlbVpn2(e) == EntryHiVpn2(e.vp)
    ensures TlbG(e) == 1 <==> ForAll(e)
    ensures TlbAsid(e) == EntryHiAsid(hi) <==> SameSpace(e, hi)
  {
    hide EntryHiVpn2, EntryHiAsid, TlbG, ForAll;
    EntryHiIs(hi);
    EntryHiIs(e.vp);
    GlobalField(e);
  }

  lemma GlobalField(e: Entry)
    ensures TlbG(e) == 1 <==> ForAll(e)
  {
  }

  /** Entry `i` is the first that holds the page of `va`, or there is none and `i` is their number. */
  ghost predicate FirstHolding(tlb: seq<Entry>, va: Reg, hi: Reg, i: nat) {
    i <= |tlb| && (i < |tlb| ==> Holds(tlb[i], va, hi)) && forall j :: 0 <= j < i ==> !Holds(tlb[j], va, hi)
  }

  lemma UseInBits(e: Entry, va: Reg, reference: Reference)
    ensures Use(e, va, reference) == PageOf(if EvenPage(va) then e.even else e.odd, va, reference)
  {
    hide Access, PageOf;
    AccessInBits(e.even, va, reference);
    AccessInBits(e.odd, va, reference);
  }

  /** The translator uses the first entry that holds the page, its even half when bit 12 of the address is clear. */
  lemma TranslateInBits(c: Cp0, va: Reg, reference: Reference, i: nat)
    requires Sized(c) && FirstHolding(c.tlb, va, c.entryHi, i)
    ensures Translate(c, va, reference)
         == if i == NUM_TLB_ENTRIES then Refill
            else PageOf(if EvenPage(va) then c.tlb[i].even else c.tlb[i].odd, va, reference)
  {
    hide Holds, Matches, Use, PageOf, Vpn2Of, EntryHiAsid, EvenPage;
    forall j | 0 <= j < NUM_TLB_ENTRIES
      ensures Holds(c.tlb[j], va, c.entryHi) <==> Matches(c.tlb[j], Vpn2Of(va), EntryHiAsid(c.entryHi))
    {
      HoldsIffMatches(c.tlb[j], va, c.entryHi);
    }
    if i < NUM_TLB_ENTRIES { UseInBits(c.tlb[i], va, reference); }
  }

  ghost predicate TranslatedInBits(c: Cp0, va: Reg, reference: Reference, t: Translation)
    requires Sized(c)
  {
    forall i: nat :: FirstHolding(c.tlb, va, c.entryHi, i) ==>
      t == if i == NUM_TLB_ENTRIES then Refill
           else PageOf(if EvenPage(va) then c.tlb[i].even else c.tlb[i].odd, va, reference)
  }

  lemma TranslationInBits(c: Cp0, va: Reg, reference: Reference)
    requires Sized(c)
    ensures TranslatedInBits(c, va, reference, Translate(c, va, reference))
  {
    hide FirstHolding, PageOf, EvenPage, Translate;
    forall i: nat | FirstHolding(c.tlb, va, c.entryHi, i) { TranslateInBits(c, va, reference, i); }
  }

  lemma WrittenHolds(e: Entry, hi: Reg, lo0: Reg, lo1: Reg, va: Reg)
    requires OnPage(hi, va)
    ensures Holds(Written(e, hi, lo0, lo1), va, hi)
  {
    hide Matches, Written, Vpn2Of, EntryHiVpn2, EntryHiAsid, Holds, OnPage;
    SamePage(hi, va);
    WrittenMatches(e, hi, lo0, lo1);
    HoldsIffMatches(Written(e, hi, lo0, lo1), va, hi);
  }

  lemma WrittenInBits(e: Entry, hi: Reg, lo0: Reg, lo1: Reg, va: Reg, reference: Reference)
    requires Masked(lo0) && Masked(lo1)
    ensures Use(Written(e, hi, lo0, lo1), va, reference) == PageOf(if EvenPage(va) then lo0 else lo1, va, reference)
  {
    hide Access, PageOf, HalfWritten, VpWritten, Masked;
    WrittenUsed(e.even, lo0, va, reference);
    WrittenUsed(e.odd, lo1, va, reference);
  }

  lemma WriteThenTranslateAt(c: Cp0, va: Reg, reference: Reference)
    requires Reachable(c) && c.index % PROBE_FAILED < NUM_TLB_ENTRIES && OnPage(c.entryHi, va)
    requires forall j :: 0 <= j < c.index % PROBE_FAILED ==> !Holds(c.tlb[j], va, c.entryHi)
    ensures Translate(Step(c, Tlbwi), va, reference)
         == PageOf(if EvenPage(va) then c.entryLo0 else c.entryLo1, va, reference)
  {
    hide Written, Masked, MaskedHi, MaskedEntry, Use, PageOf, Holds, OnPage, Translate, EvenPage;
    var i := c.index % PROBE_FAILED;
    var w := Step(c, Tlbwi);
    assert w.tlb[i] == Written(c.tlb[i], c.entryHi, c.entryLo0, c.entryLo1);
    WrittenHolds(c.tlb[i], c.entryHi, c.entryLo0, c.entryLo1, va);
    WrittenInBits(c.tlb[i], c.entryHi, c.entryLo0, c.entryLo1, va, reference);
    UseInBits(w.tlb[i], va, reference);
    TranslateInBits(w, va, reference, i);
  }

  /** In every state a program reaches, TLBWI makes addresses on the page in EntryHi translate as EntryLo0 says for
      the even page and EntryLo1 for the odd one, unless an earlier entry holds that page. */
  lemma WriteThenTranslate(program: seq<Instruction>, va: Reg, reference: Reference)
    requires var c := Run(Reset(), program);
             && c.index % PROBE_FAILED < NUM_TLB_ENTRIES && OnPage(c.entryHi, va)
             && forall j :: 0 <= j < c.index % PROBE_FAILED ==> !Holds(c.tlb[j], va, c.entryHi)
    ensures var c := Run(Reset(), program); var t := Translate(Step(c, Tlbwi), va, reference);
            && (va & 0x1000 == 0 ==> t == PageOf(c.entryLo0, va, reference))
            && (va & 0x1000 != 0 ==> t == PageOf(c.entryLo1, va, reference))
  {
    hide Step, Run, Reachable, Translate, Holds, PageOf, OnPage;
    RunReachable(program);
    WriteThenTranslateAt(Run(Reset(), program), va, reference);
  }

  lemma RunExtends(c: Cp0, program: seq<Instruction>, ins: Instruction)
    requires Sized(c)
    ensures Run(c, program + [ins]) == Step(Run(c, program), ins)
  {
    hide Step;
    assert (program + [ins])[..|program|] == program;
  }

  /** The masks of MTC0 leave the page, the address space and the bits of an EntryLo register below 2^26. */
  lemma MaskedRegisters(hi: Reg, lo: Reg, va: Reg)
    ensures OnPage(ToEntryHi(hi), va) <==> OnPage(hi, va)
    ensures forall e :: SameSpace(e, ToEntryHi(hi)) <==> SameSpace(e, hi)
  {
    assert ToEntryHi(hi) & 0xffff_e000 == hi & 0xffff_e000;
    assert ToEntryHi(hi) & 0x0000_00ff == hi & 0x0000_00ff;
  }

  /** What the kernel does to map a pair of pages: four MTC0 and a TLBWI, in any state a program reaches. */
  lemma MapPages(program: seq<Instruction>, hi: Reg, lo0: Reg, lo1: Reg, n: Word, va: Reg, reference: Reference)
    requires var c := Run(Reset(), program);
             OnPage(hi, va) && forall j :: 0 <= j < n % 16 ==> !Holds(c.tlb[j], va, hi)
    ensures var w := Run(Reset(), program + [Mtc0EntryHi(hi)] + [Mtc0EntryLo0(lo0)] + [Mtc0EntryLo1(lo1)] + [Mtc0Index(n)]
                                  + [Tlbwi]);
            && w.index % PROBE_FAILED == n % 16
            && (va & 0x1000 == 0 ==> Translate(w, va, reference) == PageOf(lo0 & 0x03ff_ffff, va, reference))
            && (va & 0x1000 != 0 ==> Translate(w, va, reference) == PageOf(lo1 & 0x03ff_ffff, va, reference))
  {
    hide Step, Run, Reachable, Translate, PageOf, OnPage, ForAll, SameSpace;
    RunReachable(program);
    var c := Run(Reset(), program);
    var d := FourMtc0(program, hi, lo0, lo1, n);
    MaskedRegisters(hi, lo0, va);
    forall j | 0 <= j < n % 16 ensures !Holds(d.tlb[j], va, d.entryHi) {
      assert !Holds(c.tlb[j], va, hi);
    }
    WriteThenTranslateAt(d, va, reference);
  }

  lemma FourMtc0(program: seq<Instruction>, hi: Reg, lo0: Reg, lo1: Reg, n: Word) returns (d: Cp0)
    ensures var c := Run(Reset(), program);
            && Reachable(d) && d.tlb == c.tlb && d.index % PROBE_FAILED == n % 16
            && d.entryHi == ToEntryHi(hi) && d.entryLo0 == lo0 & 0x03ff_ffff && d.entryLo1 == lo1 & 0x03ff_ffff
    ensures Run(Reset(), program + [Mtc0EntryHi(hi)] + [Mtc0EntryLo0(lo0)] + [Mtc0EntryLo1(lo1)] + [Mtc0Index(n)]
                         + [Tlbwi]) == Step(d, Tlbwi)
    ensures Step(d, Tlbwi).index == d.index
  {
    hide Run, Reachable, ToEntryHi, Replaced;
    var c := Run(Reset(), program);
    var p := program + [Mtc0EntryHi(hi)];
    RunExtends(Reset(), program, Mtc0EntryHi(hi));
    RunExtends(Reset(), p, Mtc0EntryLo0(lo0));
    p := p + [Mtc0EntryLo0(lo0)];
    RunExtends(Reset(), p, Mtc0EntryLo1(lo1));
    p := p + [Mtc0EntryLo1(lo1)];
    RunExtends(Reset(), p, Mtc0Index(n));
    p := p + [Mtc0Index(n)];
    RunExtends(Reset(), p, Tlbwi);
    d := Run(Reset(), p);
    RunReachable(p);
  }

  // ----- the random index -----

  /** TLBWR writes the entry that TLBWI writes when Index says what Random says, and moves Random one down, from Wired
      back to 15. */
  lemma TlbwrStep(c: Cp0)
    requires Sized(c)
    ensures Step(c, Tlbwr).tlb == Step(c.(index := c.random), Tlbwi).tlb
    ensures Step(c, Tlbwr).random == if c.random > c.wired then c.random - 1 else 15
    ensures Step(c, Tlbwr).wired == c.wired
  {
    hide Written;
  }

  function Repeat(k: nat): seq<Instruction> { seq(k, _ => Tlbwr) }

  lemma {:induction false} RandomAfter(c: Cp0, k: nat)
    requires Reachable(c) && k < 16 - c.wired
    ensures var r := Run(c, Repeat(k));
            && Reachable(r) && r.wired == c.wired
            && r.random == if k <= c.random - c.wired then c.random - k else 16 + c.random - c.wired - k
    decreases k
  {
    hide Step, MaskedEntry, MaskedHi, Masked;
    if k > 0 {
      RandomAfter(c, k - 1);
      assert Repeat(k)[..k - 1] == Repeat(k - 1);
      var r := Run(c, Repeat(k - 1));
      TlbwrStep(r);
      StepKeeps(r, Tlbwr);
    }
  }

  /** Successive TLBWRs replace every unwired entry: each of the first 16 - Wired of them another one. */
  lemma EveryUnwiredReplaced(c: Cp0, i: nat) returns (k: nat)
    requires Reachable(c) && c.wired <= i < 16
    ensures k < 16 - c.wired && Run(c, Repeat(k)).random == i
    ensures forall j: nat :: j < 16 - c.wired && Run(c, Repeat(j)).random == i ==> j == k
  {
    hide Run, Reachable;
    InRangeRandom(c);
    k := if i <= c.random then c.random - i else 16 + c.random - c.wired - i;
    RandomAfter(c, k);
    forall j: nat | j < 16 - c.wired && Run(c, Repeat(j)).random == i ensures j == k { RandomAfter(c, j); }
  }

  lemma InRangeRandom(c: Cp0)
    requires Reachable(c)
    ensures Sized(c) && c.wired <= c.random < 16
  {
    hide MaskedEntry, MaskedHi, Masked;
  }

  /** After MTC0 to Wired they run through the unwired entries from the last one down. */
  lemma WiredThenRandom(program: seq<Instruction>, n: Word, k: nat)
    requires k < 16 - n % 16
    ensures var r := Run(Run(Reset(), program + [Mtc0Wired(n)]), Repeat(k)); r.wired == n % 16 && r.random == 15 - k
  {
    hide Run, Reachable;
    RunExtends(Reset(), program, Mtc0Wired(n));
    RunReachable(program + [Mtc0Wired(n)]);
    RandomAfter(Run(Reset(), program + [Mtc0Wired(n)]), k);
  }

  // ----- a TLB refill -----

  lemma SpaceKept(e: Entry, hi: Reg, va: Reg)
    ensures SameSpace(e, WithBadVpn2(hi, va)) <==> SameSpace(e, hi)
  {
    assert WithBadVpn2(hi, va) & 0x0000_00ff == hi & 0x0000_00ff;
  }

  lemma BadPage(hi: Reg, va: Reg)
    ensures OnPage(WithBadVpn2(hi, va), va)
  {
  }

  /** The registers when a refill handler has put a pair of frames into EntryLo0 and EntryLo1. */
  lemma RefillRegisters(program: seq<Instruction>, va: Reg, lo0: Reg, lo1: Reg) returns (d: Cp0)
    ensures var c := Run(Reset(), program);
            && Reachable(d) && d.tlb == c.tlb && d.random == c.random && d.entryHi == WithBadVpn2(c.entryHi, va)
            && d.entryLo0 == lo0 & 0x03ff_ffff && d.entryLo1 == lo1 & 0x03ff_ffff
    ensures Run(Reset(), program + [BadVpn2(va)] + [Mtc0EntryLo0(lo0)] + [Mtc0EntryLo1(lo1)] + [Tlbwr]) == Step(d, Tlbwr)
  {
    hide Run, Reachable, WithBadVpn2, Replaced;
    var p := program + [BadVpn2(va)];
    RunExtends(Reset(), program, BadVpn2(va));
    RunExtends(Reset(), p, Mtc0EntryLo0(lo0));
    p := p + [Mtc0EntryLo0(lo0)];
    RunExtends(Reset(), p, Mtc0EntryLo1(lo1));
    p := p + [Mtc0EntryLo1(lo1)];
    RunExtends(Reset(), p, Tlbwr);
    d := Run(Reset(), p);
    RunReachable(p);
  }

  /** In every state a program reaches: when no entry holds the page of an address, a reference to it misses, and the
      exception that raises, two MTC0 and a TLBWR make that address translate as the register for its half says. */
  lemma RefillMaps(program: seq<Instruction>, va: Reg, lo0: Reg, lo1: Reg, reference: Reference)
    requires var c := Run(Reset(), program); FirstHolding(c.tlb, va, c.entryHi, 16)
    ensures Translate(Run(Reset(), program), va, reference) == Refill
    ensures var w := Run(Reset(), program + [BadVpn2(va)] + [Mtc0EntryLo0(lo0)] + [Mtc0EntryLo1(lo1)] + [Tlbwr]);
            && (va & 0x1000 == 0 ==> Translate(w, va, reference) == PageOf(lo0 & 0x03ff_ffff, va, reference))
            && (va & 0x1000 != 0 ==> Translate(w, va, reference) == PageOf(lo1 & 0x03ff_ffff, va, reference))
  {
    hide Step, Run, Reachable, Translate, PageOf, OnPage, ForAll, SameSpace, Written;
    var c := Run(Reset(), program);
    TranslateInBits(c, va, reference, 16);
    var d := RefillRegisters(program, va, lo0, lo1);
    InRangeRandom(d);
    forall j | 0 <= j < 16 ensures !Holds(d.tlb[j], va, d.entryHi) { SpaceKept(d.tlb[j], c.entryHi, va); }
    BadPage(c.entryHi, va);
    WriteRandomTranslates(d, va, reference);
  }

  lemma WriteRandomTranslates(c: Cp0, va: Reg, reference: Reference)
    requires Reachable(c) && OnPage(c.entryHi, va) && forall j :: 0 <= j < 16 ==> !Holds(c.tlb[j], va, c.entryHi)
    ensures Translate(Step(c, Tlbwr), va, reference)
         == PageOf(if EvenPage(va) then c.entryLo0 else c.entryLo1, va, reference)
  {
    hide Written, Masked, MaskedHi, MaskedEntry, Use, PageOf, Holds, OnPage, Translate, EvenPage;
    var i := c.random;
    var w := Step(c, Tlbwr);
    assert w.tlb[i] == Written(c.tlb[i], c.entryHi, c.entryLo0, c.entryLo1);
    WrittenHolds(c.tlb[i], c.entryHi, c.entryLo0, c.entryLo1, va);
    WrittenInBits(c.tlb[i], c.entryHi, c.entryLo0, c.entryLo1, va, reference);
    UseInBits(w.tlb[i], va, reference);
    TranslateInBits(w, va, reference, i);
  }

  lemma WiredKept(c: Cp0, ins: Instruction, i: nat)
    requires Reachable(c) && i < c.wired && !ins.Tlbwi? && !ins.Mtc0Wired?
    ensures i < |c.tlb| == |Step(c, ins).tlb| && Step(c, ins).wired == c.wired && Step(c, ins).tlb[i] == c.tlb[i]
  {
    hide Written, MaskedEntry, MaskedHi, Masked, ReadHi, ReadLo, Probe;
  }

  /** Wired entries are left alone by every program without TLBWI that does not set Wired. */
  lemma {:induction false} WiredSurvive(c: Cp0, program: seq<Instruction>, i: nat)
    requires Reachable(c) && i < c.wired
    requires forall j :: 0 <= j < |program| ==> !program[j].Tlbwi? && !program[j].Mtc0Wired?
    ensures var r := Run(c, program); Reachable(r) && r.wired == c.wired && r.tlb[i] == c.tlb[i]
    decreases |program|
  {
    hide Step, MaskedEntry, MaskedHi, Masked;
    if program != [] {
      var p := program[..|program| - 1];
      WiredSurvive(c, p, i);
      WiredKept(Run(c, p), program[|p|], i);
      StepKeeps(Run(c, p), program[|p|]);
    }
  }

  lemma HitIffHolds(c: Cp0, i: nat)
    ensures Hit(c, i) <==> i < |c.tlb| && Holds(c.tlb[i], c.entryHi, c.entryHi)
  {
    hide Matches, Holds, EntryHiVpn2, EntryHiAsid, Vpn2Of;
    SamePage(c.entryHi, c.entryHi);
    if i < |c.tlb| { HoldsIffMatches(c.tlb[i], c.entryHi, c.entryHi); }
  }

  /** TLBP finds the last entry that holds the page in EntryHi, and otherwise sets the top bit of Index. */
  lemma ProbeInBits(c: Cp0)
    requires Sized(c)
    ensures var p := Step(c, Tlbp).index;
            if exists i :: 0 <= i < 16 && Holds(c.tlb[i], c.entryHi, c.entryHi)
            then p < 16 && Holds(c.tlb[p], c.entryHi, c.entryHi)
                 && forall j :: p < j < 16 ==> !Holds(c.tlb[j], c.entryHi, c.entryHi)
            else p == if c.index < 0x8000_0000 then c.index + 0x8000_0000 else c.index
  {
    hide Hit, Holds, Probe;
    ProbeIsLast(c, NUM_TLB_ENTRIES);
    forall i | 0 <= i < 16 ensures Hit(c, i) <==> Holds(c.tlb[i], c.entryHi, c.entryHi) { HitIffHolds(c, i); }
    if forall i :: 0 <= i < 16 ==> !Hit(c, i) { ProbeNone(c, NUM_TLB_ENTRIES); }
  }

  lemma {:induction false} ProbeNone(c: Cp0, i: nat)
    requires i <= |c.tlb| == NUM_TLB_ENTRIES && forall j :: 0 <= j < i ==> !Hit(c, j)
    ensures Probe(c, i) == if c.index < 0x8000_0000 then c.index + 0x8000_0000 else c.index
  {
    hide Hit;
    if i > 0 { ProbeNone(c, i - 1); }
  }

  // ----- the registers and entries of one CPU -----

  class TlbUnit {
    var index: Word
    var random: Word
    var wired: Word
    var entryHi: Reg
    var entryLo0: Reg
    var entryLo1: Reg
    const tlb: array<Entry>

    function State(): Cp0
      reads this, tlb
    {
      Cp0(index, random, wired, entryHi, entryLo0, entryLo1, tlb[..])
    }

    /** cp0_create */
    constructor ()
      ensures State() == Reset() && fresh(tlb)
    {
      index, random, wired := 0, NUM_TLB_ENTRIES - 1, 0;
      entryHi, entryLo0, entryLo1 := 0, 0, 0;
      tlb := new Entry[NUM_TLB_ENTRIES](_ => Entry(0, 0, 0));
    }

    /** The stores that TLBWI and TLBWR share. */
    method WriteEntry(i: nat)
      requires i < tlb.Length
      modifies tlb
      ensures tlb[..] == old(tlb[..])[i := Written(old(tlb[i]), entryHi, entryLo0, entryLo1)]
    {
      hide SetVpn2, SetAsid, SetG, SetPfn, SetC, SetD, SetV,
           EntryHiVpn2, EntryHiAsid, EntryLoG, EntryLoPfn, EntryLoC, EntryLoD, EntryLoV;
      tlb[i] := tlb[i].(vp := SetVpn2(tlb[i].vp, EntryHiVpn2(entryHi)));
      tlb[i] := tlb[i].(vp := SetAsid(tlb[i].vp, EntryHiAsid(entryHi)));
      tlb[i] := tlb[i].(vp := SetG(tlb[i].vp, EntryLoG(entryLo1) & EntryLoG(entryLo0)));
      tlb[i] := tlb[i].(odd := SetPfn(tlb[i].odd, EntryLoPfn(entryLo1)));
      tlb[i] := tlb[i].(odd := SetC(tlb[i].odd, EntryLoC(entryLo1)));
      tlb[i] := tlb[i].(odd := SetD(tlb[i].odd, EntryLoD(entryLo1)));
      tlb[i] := tlb[i].(odd := SetV(tlb[i].odd, EntryLoV(entryLo1)));
      tlb[i] := tlb[i].(even := SetPfn(tlb[i].even, EntryLoPfn(entryLo0)));
      tlb[i] := tlb[i].(even := SetC(tlb[i].even, EntryLoC(entryLo0)));
      tlb[i] := tlb[i].(even := SetD(tlb[i].even, EntryLoD(entryLo0)));
      tlb[i] := tlb[i].(even := SetV(tlb[i].even, EntryLoV(entryLo0)));
    }

    method WriteIndexed()
      requires Sized(State())
      modifies tlb
      ensures State() == Step(old(State()), Tlbwi)
      ensures forall i :: 0 <= i < tlb.Length && i != index % PROBE_FAILED ==> tlb[i] == old(tlb[i])
    {
      hide Written;
      var i := index % PROBE_FAILED;
      if i < NUM_TLB_ENTRIES {
        WriteEntry(i);
      }
    }

    method WriteRandom()
      requires Sized(State())
      modifies this`random, tlb
      ensures State() == Step(old(State()), Tlbwr)
      ensures forall i :: 0 <= i < tlb.Length && i != old(random) ==> tlb[i] == old(tlb[i])
      ensures random == if old(random) > wired then old(random) - 1 else 15
    {
      hide Written;
      var i := random;
      WriteEntry(i);
      if (i - 1) % WORDS >= wired && i != 0 {
        random := i - 1;
      } else {
        random := NUM_TLB_ENTRIES - 1;
      }
    }

    method ReadIndexed()
      requires Sized(State())
      modifies this`entryHi, this`entryLo0, this`entryLo1
      ensures State() == Step(old(State()), Tlbr)
    {
      hide ReadHi, ReadLo, TlbG;
      var i := index % PROBE_FAILED;
      if i < NUM_TLB_ENTRIES {
        entryHi := ReadHi(tlb[i]);
        entryLo1 := ReadLo(tlb[i].odd, TlbG(tlb[i]));
        entryLo0 := ReadLo(tlb[i].even, TlbG(tlb[i]));
      }
    }

    method ProbeEntries()
      requires Sized(State())
      modifies this`index
      ensures State() == Step(old(State()), Tlbp)
      ensures if exists i :: 0 <= i < 16 && Holds(tlb[i], entryHi, entryHi)
              then index < 16 && Holds(tlb[index], entryHi, entryHi)
                   && forall j :: index < j < 16 ==> !Holds(tlb[j], entryHi, entryHi)
              else index == if old(index) < 0x8000_0000 then old(index) + 0x8000_0000 else old(index)
    {
      hide Matches, Holds;
      ghost var c := State();
      ProbeInBits(c);
      index := if index < PROBE_FAILED then index + PROBE_FAILED else index;
      var i := 0;
      while i < NUM_TLB_ENTRIES
        invariant 0 <= i <= NUM_TLB_ENTRIES && index == Probe(c, i)
      {
        if Matches(tlb[i], EntryHiVpn2(entryHi), EntryHiAsid(entryHi)) {
          index := i;
        }
        i := i + 1;
      }
    }

    /** tlb_translate */
    method Lookup(va: Reg, reference: Reference) returns (t: Translation)
      requires Sized(State())
      ensures t == Translate(State(), va, reference)
      ensures TranslatedInBits(State(), va, reference, t)
    {
      hide Matches, Use, TranslatedInBits;
      TranslationInBits(State(), va, reference);
      ghost var c := State();
      var i := 0;
      while i < NUM_TLB_ENTRIES
        invariant 0 <= i <= NUM_TLB_ENTRIES
        invariant FirstMatch(c, Vpn2Of(va), 0) == FirstMatch(c, Vpn2Of(va), i)
      {
        if Matches(tlb[i], Vpn2Of(va), EntryHiAsid(entryHi)) {
          return Use(tlb[i], va, reference);
        }
        i := i + 1;
      }
      return Refill;
    }
  }
}
