/** A volume as tfstool creates it (util/tfstool.c), on a host of either byte order. */
module TfsFormat {
  import opened Words
  import opened Bitmap
  import opened Libc
  import opened TfsLayout
  import opened TfsRuns

  /** The bits of the three system blocks set, one after the other. */
  function FreshBitmap(): Block {
    BitSet(BitSet(BitSet(ZeroBlock(), HEADER_BLOCK, true), ALLOCATION_BLOCK, true), DIRECTORY_BLOCK, true)
  }

  // ----- the tool's own bitmap code, on a host of either byte order -----

  /** Word `i` of memory as the host reads it. */
  function HostWord(b: Bytes, i: nat, little: bool): Word
    requires 4 * i + 4 <= |b|
  {
    if little then Join(b[4 * i + 3], b[4 * i + 2], b[4 * i + 1], b[4 * i]) else GetWord(b, i)
  }

  /** htonl, and ntohl, which is the same function. */
  function Net(w: Word, little: bool): Word {
    if little then Join(Lane(w, 3), Lane(w, 2), Lane(w, 1), Lane(w, 0)) else w
  }

  method StoreHost(b: array<Byte>, i: nat, w: Word, little: bool)
    requires 4 * i + 4 <= b.Length
    modifies b
    ensures HostWord(b[..], i, little) == w
    ensures forall x :: 0 <= x < b.Length && (x < 4 * i || x >= 4 * i + 4) ==> b[x] == old(b[x])
  {
    var k := 4 * i;
    JoinLanes(w);
    if little {
      b[k], b[k + 1], b[k + 2], b[k + 3] := Lane(w, 3), Lane(w, 2), Lane(w, 1), Lane(w, 0);
    } else {
      b[k], b[k + 1], b[k + 2], b[k + 3] := Lane(w, 0), Lane(w, 1), Lane(w, 2), Lane(w, 3);
    }
  }

  /** ntohl of a word the host reads is the word the kernel reads. */
  lemma NetReads(b: Bytes, i: nat, little: bool)
    requires 4 * i + 4 <= |b|
    ensures Net(HostWord(b, i, little), little) == GetWord(b, i)
  {
    LanesOfJoin(b[4 * i + 3], b[4 * i + 2], b[4 * i + 1], b[4 * i]);
  }

  /** And htonl undoes ntohl. */
  lemma NetTwice(w: Word, little: bool)
    ensures Net(Net(w, little), little) == w
  {
    JoinLanes(w);
    LanesOfJoin(Lane(w, 3), Lane(w, 2), Lane(w, 1), Lane(w, 0));
  }

  /** Bytes that differ in word `i` only, where the kernel reads `w`. */
  lemma StoredWord(b: Bytes, r: Bytes, i: nat, w: Word)
    requires 4 * i + 4 <= |b| == |r| && GetWord(r, i) == w
    requires forall x :: 0 <= x < |b| && (x < 4 * i || x >= 4 * i + 4) ==> r[x] == b[x]
    ensures r == SetWord(b, i, w)
  {
    SameLanes(r, SetWord(b, i, w), i);
  }

  /** bitmap_set of tfstool: on either host it leaves the bytes that the kernel's bitmap_set leaves. */
  method ToolBitmapSet(bitmap: array<Byte>, pos: nat, value: bool, little: bool)
    requires IsBitmap(bitmap[..]) && pos < 8 * bitmap.Length
    modifies bitmap
    ensures bitmap[..] == BitSet(old(bitmap[..]), pos, value)
  {
    hide GetWord, HostWord, Net, WordBit;
    ghost var b := bitmap[..];
    var i, j := pos / 32, pos % 32;
    NetReads(b, i, little);
    var w := Net(HostWord(bitmap[..], i, little), little);
    MaskWords();
    WordBitAfter(w, j, value, 0, 32);
    var w' := WithWordBit(w, j, value);
    StoreHost(bitmap, i, Net(w', little), little);
    NetTwice(w', little);
    NetReads(bitmap[..], i, little);
    StoredWord(b, bitmap[..], i, w');
  }

  // ----- the new volume -----

  function Zeroed(n: nat): (v: Volume)
    ensures |v| == n
  {
    if n == 0 then [] else Zeroed(n - 1) + [ZeroBlock()]
  }

  /** Header, bitmap, and zeros. */
  function Laid(header: Block, bitmap: Block, total: nat): (v: Volume)
    requires SYSTEM_BLOCKS <= total
    ensures |v| == total && v[ALLOCATION_BLOCK] == bitmap && v[DIRECTORY_BLOCK] == ZeroBlock()
  {
    [header, bitmap, ZeroBlock()] + Zeroed(total - SYSTEM_BLOCKS)
  }

  function Formatted(header: Block, total: nat): (v: Volume)
    requires SYSTEM_BLOCKS <= total
    ensures |v| == total
  {
    Laid(header, FreshBitmap(), total)
  }

  /** tfstool_createvol: the blocks of the new volume, in the order written; none when it would be too small. */
  method CreateVol(header: Block, size: int, little: bool) returns (ok: bool, disk: seq<Block>)
    ensures ok <==> size >= SYSTEM_BLOCKS
    ensures disk == if ok then Formatted(header, size) else []
  {
    hide BitSet;
    var allocation := new Byte[BLOCK_SIZE](_ => 0);
    if size < SYSTEM_BLOCKS { return false, []; }
    disk := [header];
    assert allocation[..] == ZeroBlock();
    ToolBitmapSet(allocation, HEADER_BLOCK, true, little);
    ToolBitmapSet(allocation, ALLOCATION_BLOCK, true, little);
    ToolBitmapSet(allocation, DIRECTORY_BLOCK, true, little);
    disk := disk + [allocation[..]];
    disk := disk + [ZeroBlock()];
    var i := SYSTEM_BLOCKS;
    while i < size
      invariant SYSTEM_BLOCKS <= i <= size
      invariant disk == [header, FreshBitmap(), ZeroBlock()] + Zeroed(i - SYSTEM_BLOCKS)
    {
      disk := disk + [ZeroBlock()];
      i := i + 1;
    }
    ok := true;
  }

  /** The part of a disk that tfs_init takes for the volume: what one bitmap block can describe. */
  function Seen(v: Volume): (r: Volume) {
    if |v| <= 8 * BLOCK_SIZE then v else v[..8 * BLOCK_SIZE]
  }

  lemma {:induction false} ZeroedPrefix(n: nat, k: nat)
    requires k <= n
    ensures Zeroed(n)[..k] == Zeroed(k)
    decreases n
  {
    if k < n { ZeroedPrefix(n - 1, k); }
  }

  lemma SeenFormatted(header: Block, total: nat)
    requires SYSTEM_BLOCKS <= total
    ensures Seen(Formatted(header, total)) == Formatted(header, if total <= 8 * BLOCK_SIZE then total else 8 * BLOCK_SIZE)
  {
    hide FreshBitmap, ZeroBlock;
    if total > 8 * BLOCK_SIZE {
      ZeroedPrefix(total - SYSTEM_BLOCKS, 8 * BLOCK_SIZE - SYSTEM_BLOCKS);
    }
  }

  lemma {:induction false} NoBits(j: nat)
    ensures !WordBit(0, j)
    decreases j
  {
    if j > 0 { NoBits(j - 1); }
  }

  lemma ZeroBits(p: nat)
    requires p < 8 * BLOCK_SIZE
    ensures !Bit(ZeroBlock(), p)
  {
    NoBits(p % 32);
  }

  lemma FreshBits(p: nat)
    requires p < 8 * BLOCK_SIZE
    ensures Bit(FreshBitmap(), p) <==> p < SYSTEM_BLOCKS
  {
    hide Bit, BitSet;
    var b0 := ZeroBlock();
    var b1 := BitSet(b0, HEADER_BLOCK, true);
    var b2 := BitSet(b1, ALLOCATION_BLOCK, true);
    ZeroBits(p);
    BitSetAt(b0, HEADER_BLOCK, true, p);
    BitSetAt(b1, ALLOCATION_BLOCK, true, p);
    BitSetAt(b2, DIRECTORY_BLOCK, true, p);
  }

  lemma EmptyDirectory(i: nat)
    requires i < MAX_FILES
    ensures !InUse(ZeroBlock(), i) && 0 in NameField(ZeroBlock(), i) && EntryName(ZeroBlock(), i) == []
  {
    assert NameField(ZeroBlock(), i)[0] == 0;
  }

  /** Whatever host wrote it, the volume is well formed and holds no file. */
  lemma FormattedIsEmpty(header: Block, total: nat)
    requires SYSTEM_BLOCKS <= total
    ensures WellFormed(Seen(Formatted(header, total)))
    ensures Abs(Seen(Formatted(header, total))) == map[]
  {
    hide Bit, BitSet, GetWord, FreshBitmap, NameField, CStr;
    var v := Seen(Formatted(header, total));
    SeenFormatted(header, total);
    forall i | 0 <= i < MAX_FILES
      ensures !InUse(v[DIRECTORY_BLOCK], i) && 0 in NameField(v[DIRECTORY_BLOCK], i) && EntryName(v[DIRECTORY_BLOCK], i) == []
    {
      EmptyDirectory(i);
    }
    forall p: nat | p < |v| ensures Bit(v[ALLOCATION_BLOCK], p) <==> p < SYSTEM_BLOCKS {
      FreshBits(p);
    }
    assert forall p :: !Taken(v, p);
    assert Names(v) == {};
  }

  /** From a fresh disk on, any calls are the same calls on an empty map. */
  lemma FromEmpty(header: Block, total: nat, calls: seq<Call>)
    requires SYSTEM_BLOCKS <= total
    requires forall k :: 0 <= k < |calls| ==> ValidCall(calls[k])
    ensures WellFormed(Seen(Formatted(header, total)))
    ensures var v := Seen(Formatted(header, total)); var (w, replies) := Run(v, calls);
            (Abs(w), replies) == SpecRun(|v|, map[], calls)
  {
    hide WellFormed, Abs, Run, SpecRun;
    FormattedIsEmpty(header, total);
    RunRefines(Seen(Formatted(header, total)), calls);
  }
}
