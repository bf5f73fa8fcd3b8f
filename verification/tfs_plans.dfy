/** What each TFS operation writes, as a list of block writes computed from the volume it found. */
module TfsPlans {
  import opened Words
  import opened Bitmap
  import opened Libc
  import opened TfsLayout

  const VFS_OK := 0
  const VFS_ERROR := -2
  const VFS_NOT_FOUND := -5

  // ----- block writes -----

  datatype Write = Write(block: nat, data: Block)

  predicate InVolume(v: Volume, ws: seq<Write>) {
    forall k :: 0 <= k < |ws| ==> ws[k].block < |v|
  }

  /** The volume after the writes, in order. */
  function Apply(v: Volume, ws: seq<Write>): (r: Volume)
    requires InVolume(v, ws)
    ensures |r| == |v|
  {
    if ws == [] then v
    else var last := ws[|ws| - 1];
         Apply(v, ws[..|ws| - 1])[last.block := last.data]
  }

  lemma {:induction false} ApplyElsewhere(v: Volume, ws: seq<Write>, p: nat)
    requires InVolume(v, ws) && p < |v|
    requires forall k :: 0 <= k < |ws| ==> ws[k].block != p
    ensures Apply(v, ws)[p] == v[p]
    decreases |ws|
  {
    if ws != [] { ApplyElsewhere(v, ws[..|ws| - 1], p); }
  }

  lemma {:induction false} ApplyAt(v: Volume, ws: seq<Write>, k: nat)
    requires InVolume(v, ws) && k < |ws|
    requires forall j :: k < j < |ws| ==> ws[j].block != ws[k].block
    ensures Apply(v, ws)[ws[k].block] == ws[k].data
    decreases |ws|
  {
    if k < |ws| - 1 { ApplyAt(v, ws[..|ws| - 1], k); }
  }

  /** The status an operation returns and the writes it makes when no request fails. */
  datatype Plan = Plan(status: int, writes: seq<Write>)

  // ----- allocation -----

  /** Up to `m` successive bitmap_findnset calls: the bitmap they leave and the blocks they found. */
  function Take(b: Bytes, l: nat, m: nat): (r: (Bytes, seq<nat>))
    requires IsBitmap(b) && l <= 8 * |b|
    ensures |r.0| == |b| && |r.1| <= m
  {
    if m == 0 then (b, [])
    else
      var (b1, found) := Take(b, l, m - 1);
      if |found| < m - 1 then (b1, found)
      else
        var p := FirstClear(b1, l, 0);
        if p < 0 then (b1, found) else (BitSet(b1, p, true), found + [p])
  }

  ghost predicate Found(b: Bytes, l: nat, c: Bytes, found: seq<nat>)
    requires IsBitmap(b) && l <= 8 * |b| && |c| == |b|
  {
    && (forall k :: 0 <= k < |found| ==> found[k] < l && !Bit(b, found[k]))
    && (forall j, k :: 0 <= j < k < |found| ==> found[j] != found[k])
    && (forall p: nat :: p < 8 * |b| ==> (Bit(c, p) <==> Bit(b, p) || p in found))
  }

  /** The blocks taken are distinct and were free, and the bitmap gains exactly them. */
  lemma {:induction false} TakeFinds(b: Bytes, l: nat, m: nat)
    requires IsBitmap(b) && l <= 8 * |b|
    ensures Found(b, l, Take(b, l, m).0, Take(b, l, m).1)
  {
    if m > 0 {
      TakeFinds(b, l, m - 1);
      var (b1, found) := Take(b, l, m - 1);
      if |found| == m - 1 {
        FoundGrows(b, l, b1, found, FirstClear(b1, l, 0));
      }
    }
  }

  lemma FoundGrows(b: Bytes, l: nat, c: Bytes, found: seq<nat>, p: int)
    requires IsBitmap(b) && l <= 8 * |b| && |c| == |b| && Found(b, l, c, found)
    requires p >= 0 ==> p < l && !Bit(c, p)
    ensures p >= 0 ==> Found(b, l, BitSet(c, p, true), found + [p])
  {
    if p >= 0 { BitSetEffect(c, p, true); }
  }

  /** Number of clear bits below `l`. */
  function FreeBits(b: Bytes, l: nat): nat
    requires IsBitmap(b) && l <= 8 * |b|
  {
    if l == 0 then 0 else FreeBits(b, l - 1) + (if Bit(b, l - 1) then 0 else 1)
  }

  lemma {:induction false} FreeBitsDrop(b: Bytes, c: Bytes, l: nat, p: nat)
    requires IsBitmap(b) && |c| == |b| && l <= 8 * |b| && p < 8 * |b|
    requires !Bit(b, p) && Bit(c, p)
    requires forall q: nat :: q < 8 * |b| && q != p ==> Bit(c, q) == Bit(b, q)
    ensures FreeBits(c, l) == FreeBits(b, l) - (if p < l then 1 else 0)
  {
    if l > 0 { FreeBitsDrop(b, c, l - 1, p); }
  }

  lemma {:induction false} NoFreeBits(b: Bytes, l: nat)
    requires IsBitmap(b) && l <= 8 * |b|
    requires forall p: nat :: p < l ==> Bit(b, p)
    ensures FreeBits(b, l) == 0
  {
    if l > 0 { NoFreeBits(b, l - 1); }
  }

  /** Taking blocks uses up exactly that many free bits, and comes back short only when none is left. */
  lemma {:induction false} TakeCounts(b: Bytes, l: nat, m: nat)
    requires IsBitmap(b) && l <= 8 * |b|
    ensures FreeBits(Take(b, l, m).0, l) == FreeBits(b, l) - |Take(b, l, m).1|
    ensures |Take(b, l, m).1| == if FreeBits(b, l) < m then FreeBits(b, l) else m
  {
    if m > 0 {
      TakeCounts(b, l, m - 1);
      var (b1, found) := Take(b, l, m - 1);
      if |found| == m - 1 {
        var p := FirstClear(b1, l, 0);
        if p >= 0 {
          BitSetEffect(b1, p, true);
          FreeBitsDrop(b1, BitSet(b1, p, true), l, p);
        } else {
          NoFreeBits(b1, l);
        }
      }
    }
  }

  // ----- directory edits -----

  function Enter(d: Block, i: nat, filename: Bytes, n: Word): Block
    requires i < MAX_FILES && (0 in filename || |filename| >= FILENAME_MAX - 1)
  {
    SetWord(Splice(d, 20 * i + 4, CopiedString(NameField(d, i), filename)), 5 * i, n)
  }

  /** Entry `i` with inode number `n` and first name byte `c`. */
  function Retag(d: Block, i: nat, n: Word, c: Byte): Block
    requires i < MAX_FILES
  {
    Splice(SetWord(d, 5 * i, n), 20 * i + 4, [c])
  }

  function Vacate(d: Block, i: nat): Block
    requires i < MAX_FILES
  {
    Retag(d, i, 0, 0)
  }

  lemma SameName(d: Bytes, e: Bytes, j: nat)
    requires |d| == |e| == BLOCK_SIZE && j < MAX_FILES
    requires forall x :: 20 * j + 4 <= x < 20 * j + 20 ==> e[x] == d[x]
    ensures NameField(e, j) == NameField(d, j)
  {
  }

  lemma SameEntry(d: Bytes, e: Bytes, j: nat)
    requires |d| == |e| == BLOCK_SIZE && j < MAX_FILES
    requires forall x :: 20 * j <= x < 20 * j + 20 ==> e[x] == d[x]
    ensures NameField(e, j) == NameField(d, j) && EntryInode(e, j) == EntryInode(d, j)
  {
  }

  lemma EnterEffect(d: Block, i: nat, filename: Bytes, n: Word, j: nat)
    requires i < MAX_FILES && j < MAX_FILES && 0 in filename
    ensures var e := Enter(d, i, filename, n);
            && EntryInode(e, j) == (if j == i then n else EntryInode(d, j))
            && NameField(e, j) == if j == i then CopiedString(NameField(d, i), filename) else NameField(d, j)
  {
    var name := CopiedString(NameField(d, i), filename);
    var s := Splice(d, 20 * i + 4, name);
    var e := Enter(d, i, filename, n);
    if j == i {
      SameName(s, e, i);
      assert NameField(s, i) == name;
    } else {
      SameEntry(d, e, j);
    }
  }

  lemma RetagEffect(d: Block, i: nat, n: Word, c: Byte, j: nat)
    requires i < MAX_FILES && j < MAX_FILES
    ensures EntryInode(Retag(d, i, n, c), j) == if j == i then n else EntryInode(d, j)
    ensures j != i ==> NameField(Retag(d, i, n, c), j) == NameField(d, j)
    ensures NameField(Retag(d, i, n, c), i)[0] == c
  {
    if j != i { SameEntry(d, Retag(d, i, n, c), j); }
  }

  lemma VacateEffect(d: Block, i: nat, j: nat)
    requires i < MAX_FILES && j < MAX_FILES
    ensures var e := Vacate(d, i);
            && EntryInode(e, j) == (if j == i then 0 else EntryInode(d, j))
            && (j != i ==> NameField(e, j) == NameField(d, j))
            && 0 in NameField(e, i) && EntryName(e, i) == []
  {
    RetagEffect(d, i, 0, 0, j);
  }

  /** The last entry below `i` whose inode number is 0, or -1. */
  function LastFree(d: Block, i: nat): (r: int)
    requires i <= MAX_FILES
    ensures r == -1 || (0 <= r < i && !InUse(d, r))
    ensures forall j :: r < j < i && 0 <= j ==> InUse(d, j)
  {
    if i == 0 then -1
    else if EntryInode(d, i - 1) == 0 then i - 1
    else LastFree(d, i - 1)
  }

  // ----- inode blocks -----

  function Pack(ws: seq<Word>): (b: Bytes)
    ensures |b| == 4 * |ws|
  {
    seq(4 * |ws|, x requires 0 <= x < 4 * |ws| => Lane(ws[x / 4], x % 4))
  }

  lemma PackedWord(ws: seq<Word>, i: nat)
    requires i < |ws|
    ensures GetWord(Pack(ws), i) == ws[i]
  {
    JoinLanes(ws[i]);
    var b := Pack(ws);
    assert (4 * i + 1) / 4 == i && (4 * i + 2) / 4 == i && (4 * i + 3) / 4 == i;
  }

  function InodeBlock(size: Word, pointers: seq<Word>): Block
    requires |pointers| <= BLOCKS_MAX
  {
    Pack([size] + pointers + seq(BLOCKS_MAX - |pointers|, _ => 0))
  }

  lemma InodeBlockWords(size: Word, pointers: seq<Word>)
    requires |pointers| <= BLOCKS_MAX
    ensures var b := InodeBlock(size, pointers);
            && Size(b) == size
            && forall k :: 0 <= k < BLOCKS_MAX ==> Pointer(b, k) == if k < |pointers| then pointers[k] else 0
  {
    var ws := [size] + pointers + seq(BLOCKS_MAX - |pointers|, _ => 0);
    PackedWord(ws, 0);
    forall k | 0 <= k < BLOCKS_MAX
      ensures Pointer(InodeBlock(size, pointers), k) == if k < |pointers| then pointers[k] else 0
    {
      PackedWord(ws, k + 1);
    }
  }

  // ----- the plans -----

  /** `(size + 511) / 512` as the source computes it: a signed 32-bit sum and quotient stored in an unsigned word. */
  function BlocksNeeded(size: int): nat
    requires 0 <= size < 0x8000_0000
  {
    var sum := size + BLOCK_SIZE - 1;
    if sum < 0x8000_0000 then sum / BLOCK_SIZE
    else WORDS - (WORDS - sum) / BLOCK_SIZE
  }

  /** The size test lets through exactly the sizes that fit an inode, with their true block count. */
  lemma BlocksNeededExact(size: int)
    requires 0 <= size < 0x8000_0000
    ensures BlocksNeeded(size) <= BLOCKS_MAX <==> size <= BLOCK_SIZE * BLOCKS_MAX
    ensures BlocksNeeded(size) <= BLOCKS_MAX ==> BlocksNeeded(size) == Span(size)
  {
  }

  /** The bitmap and the blocks that tfs_create allocates: one for the inode, the rest for data. */
  function Allocated(v: Volume, size: int): (r: (Block, seq<nat>))
    requires Sized(v) && 0 <= size < 0x8000_0000
  {
    Take(v[ALLOCATION_BLOCK], |v|, BlocksNeeded(size) + 1)
  }

  /** tfs_create goes through: the size fits, the name is new, and there is a free entry and enough free blocks. */
  predicate Creatable(v: Volume, filename: Bytes, size: int)
    requires Sized(v) && 0 <= size < 0x8000_0000
  {
    && BlocksNeeded(size) <= BLOCKS_MAX
    && Find(v[DIRECTORY_BLOCK], CStr(filename), 0) < 0
    && LastFree(v[DIRECTORY_BLOCK], MAX_FILES) >= 0
    && |Allocated(v, size).1| == BlocksNeeded(size) + 1
  }

  predicate AreWords(s: seq<nat>) { forall k :: 0 <= k < |s| ==> s[k] < WORDS }

  /** Write number `k` of tfs_create: bitmap, directory, inode, then the zeroed data blocks. */
  function CreateWrite(d: Block, slot: nat, filename: Bytes, size: Word, bitmap: Block, found: seq<nat>, k: nat): Write
    requires slot < MAX_FILES && 0 in filename
    requires 0 < |found| <= BLOCKS_MAX + 1 && AreWords(found) && k < 2 + |found|
  {
    if k == 0 then Write(ALLOCATION_BLOCK, bitmap)
    else if k == 1 then Write(DIRECTORY_BLOCK, Enter(d, slot, filename, found[0]))
    else if k == 2 then Write(found[0], InodeBlock(size, found[1..]))
    else Write(found[k - 2], ZeroBlock())
  }

  function CreateWrites(d: Block, slot: nat, filename: Bytes, size: Word, bitmap: Block, found: seq<nat>): (r: seq<Write>)
    requires slot < MAX_FILES && 0 in filename
    requires 0 < |found| <= BLOCKS_MAX + 1 && AreWords(found)
    ensures |r| == 2 + |found|
    ensures forall k :: 0 <= k < |r| ==> r[k] == CreateWrite(d, slot, filename, size, bitmap, found, k)
  {
    seq(2 + |found|, k requires 0 <= k < 2 + |found| =>
      CreateWrite(d, slot, filename, size, bitmap, found, k))
  }

  lemma AllocatedWords(v: Volume, size: int)
    requires Sized(v) && 0 <= size < 0x8000_0000
    ensures AreWords(Allocated(v, size).1)
  {
    TakeFinds(v[ALLOCATION_BLOCK], |v|, BlocksNeeded(size) + 1);
  }

  ghost function CreatePlan(v: Volume, filename: Bytes, size: int): Plan
    requires Sized(v) && 0 in filename && 0 <= size < 0x8000_0000
  {
    if !Creatable(v, filename, size) then Plan(VFS_ERROR, [])
    else
      var (bitmap, found) := Allocated(v, size);
      AllocatedWords(v, size);
      Plan(VFS_OK, CreateWrites(v[DIRECTORY_BLOCK], LastFree(v[DIRECTORY_BLOCK], MAX_FILES),
                                filename, size, bitmap, found))
  }

  // ----- removing -----

  /** How many pointers the clearing loop of tfs_remove visits, from pointer `k` on. */
  function PointerCount(inode: Block, k: nat): (r: nat)
    requires k <= BLOCKS_MAX
    ensures k <= r <= BLOCKS_MAX
    decreases BLOCKS_MAX - k
  {
    if k < BLOCKS_MAX && Pointer(inode, k) != 0 then PointerCount(inode, k + 1) else k
  }

  /** The bitmap with the bits of the first `k` pointers cleared. */
  ghost function Cleared(b: Bytes, inode: Block, k: nat): (r: Bytes)
    requires IsBitmap(b) && k <= BLOCKS_MAX
    requires forall j :: 0 <= j < k ==> Pointer(inode, j) < 8 * |b|
    ensures |r| == |b|
  {
    if k == 0 then b else BitSet(Cleared(b, inode, k - 1), Pointer(inode, k - 1), false)
  }

  /** `p` is one of the first `k` pointers. */
  predicate PointsTo(inode: Block, k: nat, p: nat)
    requires k <= BLOCKS_MAX
  {
    k > 0 && (Pointer(inode, k - 1) == p || PointsTo(inode, k - 1, p))
  }

  lemma {:induction false} PointsToExists(inode: Block, k: nat, p: nat)
    requires k <= BLOCKS_MAX
    ensures PointsTo(inode, k, p) <==> exists j :: 0 <= j < k && Pointer(inode, j) == p
  {
    if k > 0 { PointsToExists(inode, k - 1, p); }
  }

  lemma {:induction false} ClearedBits(b: Bytes, inode: Block, k: nat, p: nat)
    requires IsBitmap(b) && k <= BLOCKS_MAX && p < 8 * |b|
    requires forall j :: 0 <= j < k ==> Pointer(inode, j) < 8 * |b|
    ensures Bit(Cleared(b, inode, k), p) <==> Bit(b, p) && !PointsTo(inode, k, p)
  {
    hide Bit, BitSet, Pointer, GetWord;
    if k > 0 {
      ClearedBits(b, inode, k - 1, p);
      BitSetAt(Cleared(b, inode, k - 1), Pointer(inode, k - 1), false, p);
    }
  }

  lemma {:induction false} PointerCountIsSpan(v: Volume, n: int, k: nat)
    requires InodeOk(v, n) && k <= Span(Size(v[n]))
    ensures PointerCount(v[n], k) == Span(Size(v[n]))
    decreases BLOCKS_MAX - k
  {
    if k < Span(Size(v[n])) {
      assert InData(v, Pointer(v[n], k));
      PointerCountIsSpan(v, n, k + 1);
    } else if k < BLOCKS_MAX {
      assert Pointer(v[n], k) == 0;
    }
  }

  /** tfs_remove: bitmap, then directory. */
  ghost function RemovePlan(v: Volume, filename: Bytes): Plan
    requires WellFormed(v) && 0 in filename && CStr(filename) != []
  {
    var slot := Find(v[DIRECTORY_BLOCK], CStr(filename), 0);
    if slot < 0 then Plan(VFS_NOT_FOUND, [])
    else
      FindIsLookup(v, CStr(filename));
      Plan(VFS_OK, RemoveWrites(v, slot))
  }

  ghost function RemoveWrites(v: Volume, i: nat): (r: seq<Write>)
    requires Sized(v) && i < MAX_FILES && HasFile(v, i)
    ensures InVolume(v, r)
  {
    [Write(ALLOCATION_BLOCK, FreedBitmap(v, i)), Write(DIRECTORY_BLOCK, Vacate(v[DIRECTORY_BLOCK], i))]
  }

  /** The bitmap after the inode bit and the bits of the counted pointers of entry `i` are cleared. */
  ghost function FreedBitmap(v: Volume, i: nat): Block
    requires Sized(v) && i < MAX_FILES && HasFile(v, i)
  {
    var n := Inode(v, i);
    PointerCountIsSpan(v, n, 0);
    Cleared(BitSet(v[ALLOCATION_BLOCK], n, false), v[n], PointerCount(v[n], 0))
  }

  // ----- reading and writing -----

  function Min(a: int, b: int): int { if a < b then a else b }

  /** Block `k` of a file after `data` is laid over the file from `offset`. */
  function Overlay(old_: Block, k: nat, data: Bytes, offset: nat): (r: Block)
    ensures forall x :: 0 <= x < BLOCK_SIZE ==>
              r[x] == var pos := BLOCK_SIZE * k + x;
                      if offset <= pos < offset + |data| then data[pos - offset] else old_[x]
  {
    seq(BLOCK_SIZE, x requires 0 <= x < BLOCK_SIZE =>
      var pos := BLOCK_SIZE * k + x;
      if offset <= pos < offset + |data| then data[pos - offset] else old_[x])
  }

  /** The blocks `first..last` that bytes `offset..offset + len` of a file touch. */
  function First(offset: nat): nat { offset / BLOCK_SIZE }

  function Last(offset: nat, len: nat): nat
    requires len > 0
  {
    (offset + len - 1) / BLOCK_SIZE
  }

  ghost function OverlayWrites(v: Volume, n: int, data: Bytes, offset: nat, count: nat): (r: seq<Write>)
    requires InodeOk(v, n) && First(offset) + count <= Span(Size(v[n]))
    ensures |r| == count
    ensures forall t :: 0 <= t < count ==>
              r[t] == Write(Pointer(v[n], First(offset) + t),
                            Overlay(v[Pointer(v[n], First(offset) + t)], First(offset) + t, data, offset))
  {
    seq(count, t requires 0 <= t < count && InodeOk(v, n) && First(offset) + count <= Span(Size(v[n])) =>
      Write(Pointer(v[n], First(offset) + t),
            Overlay(v[Pointer(v[n], First(offset) + t)], First(offset) + t, data, offset)))
  }

  /** How many bytes an access of `len` bytes at `offset` moves, or VFS_ERROR outside the file. */
  function Clip(size: nat, len: nat, offset: int): int {
    if offset < 0 || offset > size then VFS_ERROR else Min(len, size - offset)
  }

  lemma ClipSpan(size: nat, len: nat, offset: int)
    requires Clip(size, len, offset) > 0
    ensures First(offset) <= Last(offset, Clip(size, len, offset)) < Span(size)
  {
  }

  /** tfs_write: the touched data blocks, first to last. */
  ghost function WritePlan(v: Volume, n: int, data: Bytes, offset: int): Plan
    requires Sized(v) && InodeOk(v, n)
  {
    var len := Clip(Size(v[n]), |data|, offset);
    if len <= 0 then Plan(len, [])
    else
      ClipSpan(Size(v[n]), |data|, offset);
      Plan(len, OverlayWrites(v, n, data[..len], offset, Last(offset, len) - First(offset) + 1))
  }
}
