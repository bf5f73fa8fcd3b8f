/** The Trivial Filesystem driver (fs/tfs.c) on a disk whose requests may fail. */
module TfsDriver {
  import opened Words
  import opened Bitmap
  import opened Libc
  import opened TfsLayout
  import opened TfsPlans
  import opened TfsCreate
  import opened TfsRemove
  import opened TfsWrite
  import opened TfsSpace
  import opened TfsRuns

  /** The writes of a plan that ran: all of them, or a prefix when some disk request failed. */
  ghost predicate Ran(v: Volume, w: Volume, plan: Plan, status: int, failed: bool)
    requires InVolume(v, plan.writes)
  {
    if failed then
      status == VFS_ERROR && exists k :: 0 <= k <= |plan.writes| && w == After(v, plan.writes, k)
    else
      status == plan.status && w == Apply(v, plan.writes)
  }

  /** The volume after the first `k` writes. */
  ghost function After(v: Volume, ws: seq<Write>, k: nat): (w: Volume)
    requires InVolume(v, ws) && k <= |ws|
    ensures |w| == |v|
  {
    Apply(v, ws[..k])
  }

  lemma AfterNone(v: Volume, ws: seq<Write>)
    requires InVolume(v, ws)
    ensures After(v, ws, 0) == v
  {
  }

  lemma AfterNext(v: Volume, ws: seq<Write>, k: nat)
    requires InVolume(v, ws) && k < |ws|
    ensures After(v, ws, k + 1) == After(v, ws, k)[ws[k].block := ws[k].data]
  {
    assert ws[..k + 1][..k] == ws[..k];
  }

  lemma AfterAll(v: Volume, ws: seq<Write>)
    requires InVolume(v, ws)
    ensures After(v, ws, |ws|) == Apply(v, ws)
  {
    assert ws[..|ws|] == ws;
  }

  lemma RanPrefix(v: Volume, w: Volume, plan: Plan, k: nat)
    requires InVolume(v, plan.writes) && k <= |plan.writes| && w == After(v, plan.writes, k)
    ensures Ran(v, w, plan, VFS_ERROR, true)
    ensures k == |plan.writes| ==> Ran(v, w, plan, plan.status, false)
  {
    AfterAll(v, plan.writes);
  }

  lemma RanNothing(v: Volume, plan: Plan, failed: bool)
    requires InVolume(v, plan.writes)
    requires failed || plan == Plan(VFS_ERROR, [])
    ensures Ran(v, v, plan, VFS_ERROR, failed)
  {
    AfterNone(v, plan.writes);
  }

  /** `fileid` is the inode block of the file with that name. */
  ghost predicate IsFile(v: Volume, name: Bytes, fileid: int)
    requires Sized(v)
  {
    exists i :: 0 <= i < MAX_FILES && HasFile(v, i) && EntryName(v[DIRECTORY_BLOCK], i) == name && Inode(v, i) == fileid
  }

  lemma EntryFound(v: Volume, name: Bytes, i: nat)
    requires Readable(v) && name != [] && i < MAX_FILES && EntryName(v[DIRECTORY_BLOCK], i) == name
    ensures name in Abs(v) && IsFile(v, name, EntryInode(v[DIRECTORY_BLOCK], i))
  {
    hide CStr, InodeOk, Abs, EntryInode;
    EntryOfName(v, i);
  }

  lemma EntryIsString(v: Volume, i: nat)
    requires Readable(v) && i < MAX_FILES
    ensures 0 in NameField(v[DIRECTORY_BLOCK], i)
    ensures EntryName(v[DIRECTORY_BLOCK], i) == CStr(NameField(v[DIRECTORY_BLOCK], i))
    ensures EntryInode(v[DIRECTORY_BLOCK], i) == GetWord(v[DIRECTORY_BLOCK], 5 * i)
  {
  }

  lemma EntryMissing(v: Volume, name: Bytes)
    requires Readable(v) && forall j :: 0 <= j < MAX_FILES ==> EntryName(v[DIRECTORY_BLOCK], j) != name
    ensures name !in Abs(v)
  {
  }

  /** One more block from the bitmap. */
  lemma TakeNext(b: Bytes, l: nat, m: nat)
    requires IsBitmap(b) && l <= 8 * |b| && |Take(b, l, m).1| == m
    ensures var (c, found) := Take(b, l, m); var p := FirstClear(c, l, 0);
            Take(b, l, m + 1) == if p < 0 then (c, found) else (BitSet(c, p, true), found + [p])
  {
  }

  /** A search that came back short once stays short. */
  lemma TakeShort(b: Bytes, l: nat, m: nat, k: nat)
    requires IsBitmap(b) && l <= 8 * |b| && m <= k && |Take(b, l, m).1| < m
    ensures |Take(b, l, k).1| < k
  {
    TakeCounts(b, l, m);
    TakeCounts(b, l, k);
  }

  lemma TakenBelow(b: Bytes, l: nat, m: nat)
    requires IsBitmap(b) && l <= 8 * |b|
    ensures forall k :: 0 <= k < |Take(b, l, m).1| ==> Take(b, l, m).1[k] < l
  {
    TakeFinds(b, l, m);
  }

  /** A block with the words of an inode is that inode. */
  lemma IsInodeBlock(b: Block, size: Word, pointers: seq<Word>)
    requires |pointers| <= BLOCKS_MAX && Size(b) == size
    requires forall k :: 0 <= k < BLOCKS_MAX ==> Pointer(b, k) == if k < |pointers| then pointers[k] else 0
    ensures b == InodeBlock(size, pointers)
  {
    var c := InodeBlock(size, pointers);
    InodeBlockWords(size, pointers);
    forall i: nat | 4 * i + 4 <= |b| ensures GetWord(b, i) == GetWord(c, i) {
      if i > 0 { assert Pointer(b, i - 1) == Pointer(c, i - 1); }
    }
    SameWords(b, c);
  }

  /** Where the create writes go, as the buffers tell it. */
  lemma CreateWriteFacts(v: Volume, d: Block, slot: nat, filename: Bytes, size: Word, bitmap: Block, found: seq<nat>)
    requires Sized(v) && slot < MAX_FILES && 0 in filename && Fresh(v, found)
    ensures var ws := CreateWrites(d, slot, filename, size, bitmap, found);
            && |ws| == 2 + |found|
            && ws[0] == Write(ALLOCATION_BLOCK, bitmap)
            && ws[1] == Write(DIRECTORY_BLOCK, Enter(d, slot, filename, found[0]))
            && ws[2] == Write(found[0], InodeBlock(size, found[1..]))
            && forall k :: 3 <= k < |ws| ==> ws[k] == Write(found[k - 2], ZeroBlock())
    ensures found[0] < |v| && GetWord(Enter(d, slot, filename, found[0]), 5 * slot) == found[0]
    ensures forall k :: 1 <= k < |found| ==> found[k] < |v| && GetWord(InodeBlock(size, found[1..]), k) == found[k]
  {
    hide Enter, InodeBlock, GetWord;
    EnterInode(d, slot, filename, found[0]);
    InodeBlockWords(size, found[1..]);
    forall k | 1 <= k < |found| ensures GetWord(InodeBlock(size, found[1..]), k) == found[k] {
      assert Pointer(InodeBlock(size, found[1..]), k - 1) == found[k];
    }
  }

  lemma EnterInode(d: Block, slot: nat, filename: Bytes, n: Word)
    requires slot < MAX_FILES && 0 in filename
    ensures GetWord(Enter(d, slot, filename, n), 5 * slot) == n
  {
  }

  lemma CreatePlanFits(v: Volume, filename: Bytes, size: int)
    requires WellFormed(v) && 0 in filename && FileName(CStr(filename)) && 0 <= size < 0x8000_0000
    ensures InVolume(v, CreatePlan(v, filename, size).writes)
  {
    hide *;
    CreateRefines(v, filename, size);
    EmptyFits(v);
  }

  /** What remains of a create plan once the name is new and entry `index` is free. */
  ghost function FillPlan(v: Volume, filename: Bytes, size: int, index: nat): Plan
    requires Sized(v) && 0 in filename && 0 <= size < 0x8000_0000 && index < MAX_FILES
    requires BlocksNeeded(size) <= BLOCKS_MAX
  {
    var (bitmap, found) := Allocated(v, size);
    AllocatedWords(v, size);
    if |found| < BlocksNeeded(size) + 1 then Plan(VFS_ERROR, [])
    else Plan(VFS_OK, CreateWrites(v[DIRECTORY_BLOCK], index, filename, size, bitmap, found))
  }

  lemma PlanSplits(v: Volume, filename: Bytes, size: int)
    requires Sized(v) && 0 in filename && 0 <= size < 0x8000_0000
    ensures var d := v[DIRECTORY_BLOCK]; var plan := CreatePlan(v, filename, size);
            if BlocksNeeded(size) > BLOCKS_MAX || Find(d, CStr(filename), 0) >= 0 || LastFree(d, MAX_FILES) < 0
            then plan == Plan(VFS_ERROR, [])
            else plan == FillPlan(v, filename, size, LastFree(d, MAX_FILES))
  {
    hide CStr, Find, Take, CreateWrites;
  }

  lemma FillPlanFits(v: Volume, filename: Bytes, size: int, index: nat)
    requires Sized(v) && BitmapExact(v) && 0 in filename && 0 <= size < 0x8000_0000 && index < MAX_FILES
    requires BlocksNeeded(size) <= BLOCKS_MAX
    ensures InVolume(v, FillPlan(v, filename, size, index).writes)
  {
    hide Take, CreateWrites, BitmapExact;
    var (bitmap, found) := Allocated(v, size);
    if |found| == BlocksNeeded(size) + 1 {
      TakenAreFresh(v, BlocksNeeded(size) + 1, bitmap, found);
      CreateTargets(v, index, filename, size, bitmap, found);
    } else {
      EmptyFits(v);
    }
  }

  lemma EmptyFits(v: Volume)
    ensures InVolume(v, [])
  {
  }

  lemma ReadableDirectory(v: Volume)
    requires Readable(v)
    ensures DirectoryOk(v[DIRECTORY_BLOCK])
  {
  }

  lemma DirectoryEntry(d: Block, i: nat)
    requires DirectoryOk(d) && i < MAX_FILES
    ensures 0 in NameField(d, i) && EntryName(d, i) == CStr(NameField(d, i))
  {
  }

  lemma LastFreeStep(d: Block, i: nat)
    requires i < MAX_FILES
    ensures LastFree(d, 0) == -1
    ensures LastFree(d, i + 1) == if GetWord(d, 5 * i) == 0 then i else LastFree(d, i)
  {
  }

  lemma DirectoryEntryOf(v: Volume, i: nat)
    requires Readable(v) && i < MAX_FILES
    ensures 0 in NameField(v[DIRECTORY_BLOCK], i)
  {
  }

  lemma FindsName(d: Block, name: Bytes, from: nat, i: nat)
    requires from <= i < MAX_FILES && EntryName(d, i) == name
    ensures Find(d, name, from) >= 0
  {
  }

  lemma LastFreeRange(d: Block)
    ensures -1 <= LastFree(d, MAX_FILES) < MAX_FILES
  {
  }

  lemma TakeFirst(b: Bytes, l: nat)
    requires IsBitmap(b) && l <= 8 * |b|
    ensures var p := FirstClear(b, l, 0);
            Take(b, l, 1) == if p < 0 then (b, []) else (BitSet(b, p, true), [p])
  {
    assert Take(b, l, 0) == (b, []);
    TakeNext(b, l, 0);
    assert forall p: nat :: [] + [p] == [p];
  }

  lemma RanAll(v: Volume, plan: Plan)
    requires plan.writes == []
    ensures InVolume(v, plan.writes) && Ran(v, v, plan, plan.status, false)
  {
  }

  lemma FindsFirst(d: Block, name: Bytes, from: nat, i: nat)
    requires from <= i < MAX_FILES && EntryName(d, i) == name
    requires forall j :: from <= j < i ==> EntryName(d, j) != name
    ensures Find(d, name, from) == i
  {
  }

  lemma FindsNone(d: Block, name: Bytes)
    requires forall j :: 0 <= j < MAX_FILES ==> EntryName(d, j) != name
    ensures Find(d, name, 0) == -1
  {
  }

  lemma RemovePlanFits(v: Volume, filename: Bytes)
    requires WellFormed(v) && 0 in filename && CStr(filename) != []
    ensures var plan := RemovePlan(v, filename);
            && InVolume(v, plan.writes)
            && var slot := Find(v[DIRECTORY_BLOCK], CStr(filename), 0);
               if slot < 0 then plan == Plan(VFS_NOT_FOUND, [])
               else HasFile(v, slot) && plan == Plan(VFS_OK, RemoveWrites(v, slot))
  {
    hide CStr, Find, DirectoryOk, Disjoint, BitmapExact, RemoveWrites;
    FindIsLookup(v, CStr(filename));
    EmptyFits(v);
  }

  lemma EntryOfFile(v: Volume, i: nat)
    requires Sized(v) && i < MAX_FILES && HasFile(v, i)
    ensures GetWord(v[DIRECTORY_BLOCK], 5 * i) == Inode(v, i) && InData(v, Inode(v, i))
  {
  }

  /** The pointers of a sound inode name bits of the allocation block, and stop being non-zero at the file size. */
  lemma PointersInBitmap(v: Volume, n: int)
    requires Sized(v) && InodeOk(v, n)
    ensures Span(Size(v[n])) <= BLOCKS_MAX
    ensures forall k :: 0 <= k < BLOCKS_MAX ==> Pointer(v[n], k) < 8 * BLOCK_SIZE
    ensures forall k :: 0 <= k < BLOCKS_MAX ==> (Pointer(v[n], k) != 0 <==> k < Span(Size(v[n])))
  {
  }

  lemma ClearedStep(b: Bytes, inode: Block, k: nat)
    requires IsBitmap(b) && k < BLOCKS_MAX
    requires forall j :: 0 <= j < BLOCKS_MAX ==> Pointer(inode, j) < 8 * |b|
    ensures Cleared(b, inode, 0) == b
    ensures Cleared(b, inode, k + 1) == BitSet(Cleared(b, inode, k), Pointer(inode, k), false)
  {
  }

  lemma PointerCountStep(inode: Block, k: nat)
    requires k <= BLOCKS_MAX
    ensures PointerCount(inode, k) == if k < BLOCKS_MAX && Pointer(inode, k) != 0 then PointerCount(inode, k + 1) else k
  {
  }

  lemma VacateIs(d: Block, e: Block, i: nat, zero: Word)
    requires i < MAX_FILES && zero == 0
    requires e == SetWord(d, 5 * i, zero)[20 * i + 4 := 0]
    ensures e == Vacate(d, i)
  {
    hide GetWord;
  }

  lemma SoundInode(v: Volume, n: int)
    requires Sized(v) && InodeOk(v, n)
    ensures InData(v, n) && GetWord(v[n], 0) == Size(v[n])
  {
  }

  /** Block `k` of a file holds the file's bytes from `512 * k` on. */
  lemma DataBlock(v: Volume, n: int, k: nat)
    requires Sized(v) && InodeOk(v, n) && k < Span(Size(v[n]))
    ensures k < BLOCKS_MAX && GetWord(v[n], k + 1) == Pointer(v[n], k) && InData(v, Pointer(v[n], k))
    ensures forall x :: BLOCK_SIZE * k <= x < BLOCK_SIZE * k + BLOCK_SIZE && x < Size(v[n]) ==>
              v[Pointer(v[n], k)][x - BLOCK_SIZE * k] == Content(v, n)[x]
  {
    hide GetWord;
  }

  /** The caller's buffer once `n` bytes of the content, from `offset` on, have been read into it. */
  ghost function Filled(o: Bytes, c: Bytes, offset: nat, n: nat): Bytes
    requires offset + n <= |c| && n <= |o|
  {
    Splice(o, 0, c[offset..offset + n])
  }

  lemma FilledNext(o: Bytes, c: Bytes, offset: nat, n: nat, m: nat)
    requires offset + n + m <= |c| && n + m <= |o|
    ensures |Filled(o, c, offset, n)| == |o|
    ensures Splice(Filled(o, c, offset, n), n, c[offset + n..offset + n + m]) == Filled(o, c, offset, n + m)
  {
  }

  lemma FilledParts(o: Bytes, c: Bytes, offset: nat, n: nat, len: nat)
    requires offset + n <= |c| && n <= len <= |o|
    ensures |Filled(o, c, offset, n)| == |o| && (n == 0 ==> Filled(o, c, offset, n) == o)
    ensures Filled(o, c, offset, n)[..n] == c[offset..offset + n] && Filled(o, c, offset, n)[len..] == o[len..]
  {
  }

  lemma FirstChunk(offset: nat, len: nat)
    requires len > 0
    ensures First(offset) <= Last(offset, len) && BLOCK_SIZE * First(offset) + offset % BLOCK_SIZE == offset
    ensures var m := Min(BLOCK_SIZE - offset % BLOCK_SIZE, len);
            m > 0 && m == Min(BLOCK_SIZE * (First(offset) + 1) - offset, len)
            && (First(offset) == Last(offset, len) ==> m == len)
  {
  }

  lemma NextChunk(offset: nat, len: nat, k: nat)
    requires len > 0 && First(offset) < k <= Last(offset, len)
    ensures BLOCK_SIZE * k - offset < len
    ensures var chunk := if k == Last(offset, len) then len - (BLOCK_SIZE * k - offset) else BLOCK_SIZE;
            && 0 < chunk <= BLOCK_SIZE && BLOCK_SIZE * k - offset + chunk <= len
            && BLOCK_SIZE * k - offset + chunk == Min(BLOCK_SIZE * (k + 1) - offset, len)
  {
  }

  lemma LastChunk(offset: nat, len: nat)
    requires len > 0
    ensures Min(BLOCK_SIZE * (Last(offset, len) + 1) - offset, len) == len
  {
  }

  lemma SpliceParts(o: Bytes, d: Bytes, n: nat)
    requires |d| <= n <= |o|
    ensures Splice(o, 0, d)[..|d|] == d && Splice(o, 0, d)[n..] == o[n..]
  {
  }

  /** A chunk laid over a block that was read first, or over the whole block, is the overlay of the data. */
  lemma ChunkIsOverlay(old_: Block, base: Block, k: nat, data: Bytes, offset: nat, at: nat, s: nat, m: nat)
    requires at + m <= BLOCK_SIZE && s + m <= |data| && BLOCK_SIZE * k + at == offset + s
    requires at == 0 || s == 0
    requires at + m == BLOCK_SIZE || s + m == |data|
    requires m < BLOCK_SIZE ==> base == old_
    ensures Splice(base, at, data[s..s + m]) == Overlay(old_, k, data, offset)
  {
  }

  /** Before its own write, a data block still holds the old bytes. */
  lemma PendingBlock(v: Volume, slot: nat, data: Bytes, offset: nat, count: nat, t: nat)
    requires Sized(v) && Disjoint(v) && slot < MAX_FILES && HasFile(v, slot)
    requires First(offset) + count <= Span(Size(v[Inode(v, slot)])) && t < count
    ensures var n := Inode(v, slot); var ws := OverlayWrites(v, n, data, offset, count);
            var p := Pointer(v[n], First(offset) + t);
            InVolume(v, ws) && p < |v| && After(v, ws, t)[p] == v[p]
  {
    hide Content, Owned, Overlay, Blocks, Disjoint, IsData;
    var ws := OverlayWrites(v, Inode(v, slot), data, offset, count);
    var k := First(offset) + t;
    OtherTargets(v, slot, data, offset, count, k);
    assert InData(v, Pointer(v[Inode(v, slot)], k));
    forall j | 0 <= j < t ensures ws[..t][j].block != Pointer(v[Inode(v, slot)], k) {
      assert ws[..t][j] == ws[j];
    }
    ApplyElsewhere(v, ws[..t], Pointer(v[Inode(v, slot)], k));
  }

  lemma InodeSound(v: Volume, slot: nat)
    requires Sized(v) && slot < MAX_FILES && HasFile(v, slot)
    ensures InodeOk(v, Inode(v, slot))
  {
  }

  /** How many blocks a write inside the file touches. */
  lemma WriteCount(v: Volume, slot: nat, n: nat, data: Bytes, offset: nat) returns (count: nat)
    requires Sized(v) && Disjoint(v) && slot < MAX_FILES && HasFile(v, slot) && Inode(v, slot) == n
    requires |data| > 0 && offset + |data| <= Size(v[n])
    ensures count == Last(offset, |data|) - First(offset) + 1
    ensures InodeOk(v, n) && First(offset) + count <= Span(Size(v[n]))
    ensures InVolume(v, OverlayWrites(v, n, data, offset, count))
  {
    hide Content, Owned, Overlay, Blocks, Disjoint, OverlayWrites;
    ClipSpan(Size(v[n]), |data|, offset);
    count := Last(offset, |data|) - First(offset) + 1;
    PendingBlock(v, slot, data, offset, count, 0);
  }

  lemma WritePlanIs(v: Volume, slot: nat, data: Bytes, offset: int)
    requires WellFormed(v) && slot < MAX_FILES && HasFile(v, slot)
    ensures var n := Inode(v, slot);
            var plan := WritePlan(v, n, data, offset);
            && InVolume(v, plan.writes)
            && (offset < 0 || offset > Size(v[n]) ==> plan == Plan(VFS_ERROR, []))
            && (0 <= offset <= Size(v[n]) ==>
                  var len := Min(|data|, Size(v[n]) - offset);
                  if len == 0 then plan == Plan(0, [])
                  else
                    && First(offset) + (Last(offset, len) - First(offset) + 1) <= Span(Size(v[n]))
                    && plan == Plan(len, OverlayWrites(v, n, data[..len], offset, Last(offset, len) - First(offset) + 1)))
  {
    hide Content, Owned, Overlay, Blocks, Disjoint, OverlayWrites, DirectoryOk, BitmapExact, InodeOk, GetWord, InVolume;
    var n := Inode(v, slot);
    SoundInode(v, n);
    var len := Clip(Size(v[n]), |data|, offset);
    if len > 0 {
      var count := WriteCount(v, slot, n, data[..len], offset);
    } else {
      EmptyFits(v);
    }
  }

  const ROOT: Bytes := [47]

  lemma RootIsString()
    ensures CStr(ROOT + [0]) == ROOT && 0 in ROOT + [0]
  {
    var s := ROOT + [0];
    assert s[1] == 0;
    CStrUnique(s, 1);
  }

  lemma FreeBitsStep(b: Bytes, l: nat)
    requires IsBitmap(b) && l < 8 * |b|
    ensures FreeBits(b, 0) == 0
    ensures FreeBits(b, l + 1) == FreeBits(b, l) + (if Bit(b, l) then 0 else 1)
  {
  }

  lemma FilesUpToStep(v: Volume, k: nat)
    requires Readable(v) && k < MAX_FILES
    ensures FilesUpTo(v, 0) == 0
    ensures FilesUpTo(v, k + 1) == FilesUpTo(v, k) + (if GetWord(v[DIRECTORY_BLOCK], 5 * k) != 0 then 1 else 0)
    ensures HasFile(v, k) <==> GetWord(v[DIRECTORY_BLOCK], 5 * k) != 0
  {
  }

  lemma FilesAreAll(v: Volume)
    requires Readable(v)
    ensures FilesUpTo(v, MAX_FILES) == |Abs(v)|
    ensures forall k :: 0 <= k < MAX_FILES && HasFile(v, k) ==> FilesUpTo(v, k) < |Abs(v)|
  {
    hide HasFile, Abs, DirectoryOk, FilesUpTo, AbsUpTo, Usage, BlocksUpTo;
    AbsIsUpTo(v);
    CountUpTo(v, MAX_FILES);
    forall k | 0 <= k < MAX_FILES && HasFile(v, k) ensures FilesUpTo(v, k) < FilesUpTo(v, MAX_FILES) {
      FilesUpToGrows(v, k, MAX_FILES);
    }
  }

  lemma {:induction false} FilesUpToGrows(v: Volume, k: nat, l: nat)
    requires Sized(v) && k < l <= MAX_FILES && HasFile(v, k)
    ensures FilesUpTo(v, k) < FilesUpTo(v, l)
    decreases l
  {
    hide HasFile;
    if k < l - 1 { FilesUpToGrows(v, k, l - 1); }
  }

  lemma {:induction false} NthEntry(v: Volume, idx: nat, l: nat) returns (k: nat)
    requires Sized(v) && l <= MAX_FILES && idx < FilesUpTo(v, l)
    ensures k < l && HasFile(v, k) && FilesUpTo(v, k) == idx
    decreases l
  {
    hide HasFile;
    if HasFile(v, l - 1) && FilesUpTo(v, l - 1) == idx {
      k := l - 1;
    } else {
      k := NthEntry(v, idx, l - 1);
    }
  }

  /** The name of the file with `idx` files before it in the directory. */
  ghost function NthName(v: Volume, idx: int): Bytes
    requires Readable(v)
  {
    if exists k :: 0 <= k < MAX_FILES && HasFile(v, k) && FilesUpTo(v, k) == idx then
      var k :| 0 <= k < MAX_FILES && HasFile(v, k) && FilesUpTo(v, k) == idx;
      EntryName(v[DIRECTORY_BLOCK], k)
    else []
  }

  lemma NthIs(v: Volume, i: nat)
    requires Readable(v) && i < MAX_FILES && HasFile(v, i)
    ensures NthName(v, FilesUpTo(v, i)) == EntryName(v[DIRECTORY_BLOCK], i)
  {
    hide HasFile, DirectoryOk, EntryName, FilesUpTo;
    forall k | 0 <= k < MAX_FILES && HasFile(v, k) && k != i ensures FilesUpTo(v, k) != FilesUpTo(v, i) {
      if k < i { FilesUpToGrows(v, k, i); } else { FilesUpToGrows(v, i, k); }
    }
  }

  /** Every file has a number. */
  lemma NameHasNumber(v: Volume, name: Bytes) returns (idx: nat)
    requires Readable(v) && name in Abs(v)
    ensures idx < |Abs(v)| && NthName(v, idx) == name
  {
    hide HasFile, DirectoryOk, EntryName, FilesUpTo, NthName;
    FilesAreAll(v);
    NthIs(v, EntryOf(v, name));
    idx := FilesUpTo(v, EntryOf(v, name));
  }

  /** Every number below the file count names a file, and different numbers name different files. */
  lemma NumberHasName(v: Volume, i: nat, j: nat)
    requires Readable(v) && i <= j < |Abs(v)|
    ensures NthName(v, i) in Abs(v)
    ensures NthName(v, i) == NthName(v, j) ==> i == j
  {
    hide HasFile, DirectoryOk, EntryName, FilesUpTo, NthName;
    FilesAreAll(v);
    var k := NthEntry(v, i, MAX_FILES);
    var l := NthEntry(v, j, MAX_FILES);
    NthIs(v, k);
    NthIs(v, l);
    EntryOfName(v, k);
    if k != l { NamesDiffer(v, k, l); }
  }

  /** Bytes after the terminator do not matter. */
  lemma CStrPrefix(c: Bytes, r: Bytes)
    requires 0 in c && |c| <= |r| && r[..|c|] == c
    ensures 0 in r && CStr(r) == CStr(c)
  {
    hide CStr;
    NulInside(c);
    var n := |CStr(c)|;
    assert r[..|c|][n] == 0;
    assert r[..n] == c[..n];
    CStrUnique(r, n);
  }

  /** Copying a string into the front of a larger buffer leaves that string there. */
  lemma CopiedName(s: Bytes, o: Bytes, r: Bytes)
    requires 0 in s && |s| == FILENAME_MAX && |o| >= FILENAME_MAX
    requires r == Splice(o, 0, CopiedString(o[..FILENAME_MAX], s))
    ensures 0 in r && CStr(r) == CStr(s)
  {
    hide CStr, Splice, CopiedString;
    NulInside(s);
    var c := CopiedString(o[..FILENAME_MAX], s);
    SpliceParts(o, c, |o|);
    CStrPrefix(c, r);
    assert CStr(s)[..|CStr(s)|] == CStr(s);
  }

  /** A string with a zero byte ends before its buffer does. */
  lemma NulInside(s: Bytes)
    requires 0 in s
    ensures |CStr(s)| < |s|
  {
  }

  /** A result of -1 as an unsigned word. */
  function Unsigned(r: int): Word
    requires -1 <= r < WORDS
  {
    if r < 0 then 0xffff_ffff else r
  }

  class Tfs {
    const startblock: nat
    const totalblocks: nat
    const disk: array<Block>
    const bufferInode: array<Byte>
    const bufferBat: array<Byte>
    const bufferMd: array<Byte>

    /** Some disk request of the current call has failed. */
    ghost var failed: bool

    ghost predicate Valid() {
      && SYSTEM_BLOCKS <= totalblocks <= 8 * BLOCK_SIZE
      && startblock + totalblocks <= disk.Length
      && bufferInode.Length == bufferBat.Length == bufferMd.Length == BLOCK_SIZE
      && bufferInode != bufferBat && bufferInode != bufferMd && bufferBat != bufferMd
    }

    /** The blocks of this filesystem's partition. */
    ghost function V(): (v: Volume)
      requires Valid()
      reads disk
      ensures |v| == totalblocks && Sized(v)
    {
      disk[startblock..startblock + totalblocks]
    }

    /** The disk before and after the partition. */
    ghost function Rest(): (seq<Block>, seq<Block>)
      requires Valid()
      reads disk
    {
      (disk[..startblock], disk[startblock + totalblocks..])
    }

    // ----- disk requests -----

    /** Fills a buffer from block `b` of the partition, or fails. */
    method ReadBlock(b: nat, buffer: array<Byte>) returns (r: int)
      requires Valid() && b < totalblocks && buffer.Length == BLOCK_SIZE
      modifies buffer, `failed
      ensures r == 0 ==> failed
      ensures r != 0 ==> failed == old(failed) && buffer[..] == V()[b]
    {
      var ok: bool := *;
      if !ok {
        failed := true;
        return 0;
      }
      var data := disk[startblock + b];
      forall i | 0 <= i < BLOCK_SIZE { buffer[i] := data[i]; }
      return 1;
    }

    /** Writes a buffer to block `b` of the partition, or fails and leaves the disk alone. */
    method WriteBlock(b: nat, buffer: array<Byte>) returns (r: int)
      requires Valid() && b < totalblocks && buffer.Length == BLOCK_SIZE
      modifies disk, `failed
      ensures Rest() == old(Rest())
      ensures r == 0 ==> failed && V() == old(V())
      ensures r != 0 ==> failed == old(failed) && V() == old(V())[b := buffer[..]]
    {
      var ok: bool := *;
      if !ok {
        failed := true;
        return 0;
      }
      disk[startblock + b] := buffer[..];
      return 1;
    }

    // ----- opening -----

    method Open(filename: Bytes) returns (r: int)
      requires Valid() && Readable(V())
      requires 0 in filename && CStr(filename) != []
      modifies bufferMd, `failed
      ensures failed ==> r == VFS_ERROR
      ensures !failed ==>
                if CStr(filename) in Abs(V()) then IsFile(V(), CStr(filename), r) else r == VFS_NOT_FOUND
    {
      hide CStr, Abs, EntryInode, EntryName, Readable, GetWord, IsFile;
      failed := false;
      ghost var d := V()[DIRECTORY_BLOCK];
      var ok := ReadBlock(DIRECTORY_BLOCK, bufferMd);
      if ok == 0 { return VFS_ERROR; }
      var i := 0;
      while i < MAX_FILES
        invariant 0 <= i <= MAX_FILES && bufferMd[..] == d && !failed
        invariant forall j :: 0 <= j < i ==> EntryName(d, j) != CStr(filename)
      {
        EntryIsString(V(), i);
        var c := StringCmp(NameField(bufferMd[..], i), filename);
        if c == 0 {
          EntryFound(V(), CStr(filename), i);
          return GetWord(bufferMd[..], 5 * i);
        }
        i := i + 1;
      }
      EntryMissing(V(), CStr(filename));
      return VFS_NOT_FOUND;
    }

    // ----- creating -----

    /** The allocation loops of tfs_create: data blocks into the inode buffer, then zero pointers. */
    method AllocateData(size: Word, numblocks: nat, ghost b: Bytes)
      returns (ok: bool)
      requires Valid() && IsBitmap(b) && |b| == BLOCK_SIZE && numblocks <= BLOCKS_MAX
      requires |Take(b, totalblocks, 1).1| == 1 && bufferBat[..] == Take(b, totalblocks, 1).0
      modifies bufferInode, bufferBat
      ensures ok <==> |Take(b, totalblocks, numblocks + 1).1| == numblocks + 1
      ensures ok ==>
                var (bitmap, found) := Take(b, totalblocks, numblocks + 1);
                && AreWords(found)
                && found[0] == Take(b, totalblocks, 1).1[0]
                && bufferBat[..] == bitmap && bufferInode[..] == InodeBlock(size, found[1..])
    {
      hide Take, GetWord, SetWord;
      ghost var l := totalblocks;
      StoreWord(bufferInode, 0, size);
      var i := 0;
      while i < numblocks
        invariant 0 <= i <= numblocks
        invariant |Take(b, l, i + 1).1| == i + 1 && bufferBat[..] == Take(b, l, i + 1).0
        invariant Take(b, l, i + 1).1[0] == Take(b, l, 1).1[0]
        invariant GetWord(bufferInode[..], 0) == size
        invariant forall k :: 1 <= k < i + 1 ==> GetWord(bufferInode[..], k) == Take(b, l, i + 1).1[k]
      {
        TakeNext(b, l, i + 1);
        var block := BitmapFindNSet(bufferBat, totalblocks);
        ghost var before := bufferInode[..];
        StoreWord(bufferInode, i + 1, Unsigned(block));
        forall k | 0 <= k <= i + 1
          ensures GetWord(bufferInode[..], k) == if k == i + 1 then Unsigned(block) else GetWord(before, k)
        {
          GetSetWord(before, i + 1, Unsigned(block), k);
        }
        if GetWord(bufferInode[..], i + 1) == 0xffff_ffff {
          TakeShort(b, l, i + 2, numblocks + 1);
          return false;
        }
        i := i + 1;
      }
      ghost var found := Take(b, l, numblocks + 1).1;
      while i < BLOCKS_MAX
        invariant numblocks <= i <= BLOCKS_MAX && bufferBat[..] == Take(b, l, numblocks + 1).0
        invariant GetWord(bufferInode[..], 0) == size
        invariant forall k :: 1 <= k < i + 1 ==>
          GetWord(bufferInode[..], k) == if k <= numblocks then found[k] else 0
      {
        ghost var before := bufferInode[..];
        var zero: Word := 0;
        StoreWord(bufferInode, i + 1, zero);
        forall k | 0 <= k <= i + 1
          ensures GetWord(bufferInode[..], k) == if k == i + 1 then zero else GetWord(before, k)
        {
          GetSetWord(before, i + 1, zero, k);
        }
        i := i + 1;
      }
      TakenBelow(b, l, numblocks + 1);
      IsInodeBlock(bufferInode[..], size, found[1..]);
      return true;
    }

    /** The block writes of tfs_create, stopping at the first that fails. */
    method WriteOut(index: nat, numblocks: nat, ghost d: Block, ghost filename: Bytes, ghost size: Word,
                    ghost bitmap: Block, ghost found: seq<nat>)
      returns (r: int)
      requires Valid() && index < MAX_FILES && 0 in filename
      requires Fresh(V(), found) && |found| == numblocks + 1
      requires bufferBat[..] == bitmap
      requires bufferMd[..] == Enter(d, index, filename, found[0])
      requires bufferInode[..] == InodeBlock(size, found[1..])
      requires d == V()[DIRECTORY_BLOCK] && !failed
      modifies disk, bufferBat, `failed
      ensures Rest() == old(Rest())
      ensures var ws := CreateWrites(d, index, filename, size, bitmap, found);
              && InVolume(old(V()), ws)
              && Ran(old(V()), V(), Plan(VFS_OK, ws), r, failed)
    {
      hide Enter, InodeBlock, Ran, After, InVolume, CreateWrites, GetWord, Apply;
      ghost var v := V();
      ghost var ws := CreateWrites(d, index, filename, size, bitmap, found);
      ghost var plan := Plan(VFS_OK, ws);
      CreateTargets(v, index, filename, size, bitmap, found);
      CreateWriteFacts(v, d, index, filename, size, bitmap, found);
      AfterNone(v, ws);
      AfterNext(v, ws, 0);
      r := WriteBlock(ALLOCATION_BLOCK, bufferBat);
      if r == 0 { RanPrefix(v, V(), plan, 0); return VFS_ERROR; }
      AfterNext(v, ws, 1);
      r := WriteBlock(DIRECTORY_BLOCK, bufferMd);
      if r == 0 { RanPrefix(v, V(), plan, 1); return VFS_ERROR; }
      AfterNext(v, ws, 2);
      r := WriteBlock(GetWord(bufferMd[..], 5 * index), bufferInode);
      if r == 0 { RanPrefix(v, V(), plan, 2); return VFS_ERROR; }
      MemorySet(bufferBat, 0, BLOCK_SIZE);
      assert bufferBat[..] == ZeroBlock();
      var i := 0;
      while i < numblocks
        invariant 0 <= i <= numblocks && bufferBat[..] == ZeroBlock() && !failed
        invariant Rest() == old(Rest()) && V() == After(v, ws, 3 + i)
      {
        AfterNext(v, ws, 3 + i);
        r := WriteBlock(GetWord(bufferInode[..], i + 1), bufferBat);
        if r == 0 { RanPrefix(v, V(), plan, 3 + i); return VFS_ERROR; }
        i := i + 1;
      }
      RanPrefix(v, V(), plan, 3 + i);
      return VFS_OK;
    }

    /** The directory loop of tfs_create: false for a name already there, else the last free entry or -1. */
    method FindSlot(filename: Bytes) returns (isNew: bool, index: int)
      requires Valid() && DirectoryOk(bufferMd[..]) && 0 in filename
      ensures isNew <==> Find(bufferMd[..], CStr(filename), 0) < 0
      ensures isNew ==> index == LastFree(bufferMd[..], MAX_FILES)
    {
      hide CStr, DirectoryOk, EntryName, EntryInode, LastFree, GetWord, Find;
      ghost var d := bufferMd[..];
      index := -1;
      var i := 0;
      LastFreeStep(d, 0);
      while i < MAX_FILES
        invariant 0 <= i <= MAX_FILES && index == LastFree(d, i)
        invariant forall j :: 0 <= j < i ==> EntryName(d, j) != CStr(filename)
      {
        DirectoryEntry(d, i);
        LastFreeStep(d, i);
        var c := StringCmp(NameField(bufferMd[..], i), filename);
        if c == 0 {
          FindsName(d, CStr(filename), 0, i);
          return false, index;
        }
        if GetWord(bufferMd[..], 5 * i) == 0 { index := i; }
        i := i + 1;
      }
      return true, index;
    }

    /** The second half of tfs_create, once the directory buffer holds the name in entry `index`. */
    method Fill(filename: Bytes, size: int, index: nat, numblocks: nat) returns (r: int)
      requires Valid() && Sized(V()) && BitmapExact(V()) && !failed
      requires 0 in filename && 0 <= size < 0x8000_0000 && index < MAX_FILES
      requires numblocks == BlocksNeeded(size) <= BLOCKS_MAX
      requires var d := V()[DIRECTORY_BLOCK];
               bufferMd[..] == Splice(d, 20 * index + 4, CopiedString(NameField(d, index), filename))
      modifies disk, bufferInode, bufferBat, bufferMd, `failed
      ensures Rest() == old(Rest())
      ensures var plan := FillPlan(old(V()), filename, size, index);
              InVolume(old(V()), plan.writes) && Ran(old(V()), V(), plan, r, failed)
    {
      hide CStr, Take, Ran, CreateWrites, InodeBlock, BitmapExact, CopiedString, Splice, InVolume, GetWord, SetWord, Apply;
      ghost var v := V();
      ghost var plan := FillPlan(v, filename, size, index);
      FillPlanFits(v, filename, size, index);
      var ok := ReadBlock(ALLOCATION_BLOCK, bufferBat);
      if ok == 0 { RanNothing(v, plan, true); return VFS_ERROR; }
      ghost var b := v[ALLOCATION_BLOCK];
      TakeFirst(b, totalblocks);
      var block := BitmapFindNSet(bufferBat, totalblocks);
      StoreWord(bufferMd, 5 * index, Unsigned(block));
      if GetWord(bufferMd[..], 5 * index) == 0xffff_ffff {
        TakeShort(b, totalblocks, 1, numblocks + 1);
        RanNothing(v, plan, false);
        return VFS_ERROR;
      }
      var enough := AllocateData(size, numblocks, b);
      if !enough { RanNothing(v, plan, false); return VFS_ERROR; }
      ghost var found := Allocated(v, size).1;
      TakenAreFresh(v, numblocks + 1, Allocated(v, size).0, found);
      r := WriteOut(index, numblocks, v[DIRECTORY_BLOCK], filename, size, Allocated(v, size).0, found);
    }

    method Create(filename: Bytes, size: int) returns (r: int)
      requires Valid() && WellFormed(V())
      requires 0 in filename && FileName(CStr(filename)) && 0 <= size < 0x8000_0000
      modifies disk, bufferInode, bufferBat, bufferMd, `failed
      ensures Rest() == old(Rest())
      ensures var plan := CreatePlan(old(V()), filename, size);
              InVolume(old(V()), plan.writes) && Ran(old(V()), V(), plan, r, failed)
    {
      hide CStr, Find, Ran, Readable, Disjoint, BitmapExact, CopiedString, Splice, InVolume, LastFree,
           CreatePlan, FillPlan, BlocksNeeded, FileName;
      failed := false;
      ghost var v := V();
      ghost var plan := CreatePlan(v, filename, size);
      CreatePlanFits(v, filename, size);
      PlanSplits(v, filename, size);
      var numblocks := BlocksNeeded(size);
      if numblocks > BLOCKS_MAX { RanNothing(v, plan, false); return VFS_ERROR; }
      var ok := ReadBlock(DIRECTORY_BLOCK, bufferMd);
      if ok == 0 { RanNothing(v, plan, true); return VFS_ERROR; }
      ReadableDirectory(v);
      ghost var d := V()[DIRECTORY_BLOCK];
      var isNew, index := FindSlot(filename);
      if !isNew { RanNothing(v, plan, false); return VFS_ERROR; }
      if index == -1 { RanNothing(v, plan, false); return VFS_ERROR; }
      LastFreeRange(d);
      StringCopy(bufferMd, 20 * index + 4, filename, FILENAME_MAX);
      r := Fill(filename, size, index, numblocks);
    }

    // ----- removing -----

    /** The pointer tfs_remove tests before its index: past the last one it sees the first word after the inode buffer. */
    function TestedPointer(i: nat): Word
      requires Valid() && i <= BLOCKS_MAX
      reads bufferInode, bufferBat
    {
      if i < BLOCKS_MAX then Pointer(bufferInode[..], i) else GetWord(bufferBat[..], 0)
    }

    /** Clears the inode bit and the bits of the pointers in the allocation buffer. */
    method FreeBlocks(ghost v: Volume, ghost slot: nat, n: nat)
      requires Valid() && Sized(v) && slot < MAX_FILES && HasFile(v, slot) && n == Inode(v, slot)
      requires bufferInode[..] == v[n] && bufferBat[..] == v[ALLOCATION_BLOCK]
      modifies bufferBat
      ensures bufferBat[..] == FreedBitmap(v, slot)
    {
      hide Cleared, PointerCount, GetWord, BitSet, Owned, Content;
      ghost var inode := v[n];
      PointersInBitmap(v, n);
      BitmapSet(bufferBat, n, false);
      ghost var b := bufferBat[..];
      var i := 0;
      ClearedStep(b, inode, 0);
      while TestedPointer(i) != 0 && i < BLOCKS_MAX
        invariant 0 <= i <= BLOCKS_MAX
        invariant PointerCount(inode, i) == PointerCount(inode, 0)
        invariant i <= Span(Size(inode))
        invariant bufferBat[..] == Cleared(b, inode, i)
        decreases BLOCKS_MAX - i
      {
        PointerCountStep(inode, i);
        ClearedStep(b, inode, i);
        BitmapSet(bufferBat, Pointer(bufferInode[..], i), false);
        i := i + 1;
      }
      PointerCountStep(inode, i);
    }

    method Remove(filename: Bytes) returns (r: int)
      requires Valid() && WellFormed(V())
      requires 0 in filename && CStr(filename) != []
      modifies disk, bufferInode, bufferBat, bufferMd, `failed
      ensures Rest() == old(Rest())
      ensures var plan := RemovePlan(old(V()), filename);
              InVolume(old(V()), plan.writes) && Ran(old(V()), V(), plan, r, failed)
    {
      hide CStr, Find, Ran, After, Readable, Disjoint, BitmapExact, DirectoryOk, EntryName, EntryInode, InVolume,
           GetWord, SetWord, Apply, HasFile, FreedBitmap, Vacate;
      failed := false;
      ghost var v := V();
      ghost var d := v[DIRECTORY_BLOCK];
      ghost var plan := RemovePlan(v, filename);
      RemovePlanFits(v, filename);
      ReadableDirectory(v);
      var ok := ReadBlock(DIRECTORY_BLOCK, bufferMd);
      if ok == 0 { RanNothing(v, plan, true); return VFS_ERROR; }
      var index := -1;
      var i := 0;
      while i < MAX_FILES
        invariant 0 <= i <= MAX_FILES && index == -1 && bufferMd[..] == d
        invariant forall j :: 0 <= j < i ==> EntryName(d, j) != CStr(filename)
        modifies {}
      {
        DirectoryEntry(d, i);
        var c := StringCmp(NameField(bufferMd[..], i), filename);
        if c == 0 {
          FindsFirst(d, CStr(filename), 0, i);
          index := i;
          break;
        }
        i := i + 1;
      }
      if index == -1 {
        FindsNone(d, CStr(filename));
        RanAll(v, plan);
        return VFS_NOT_FOUND;
      }
      r := Release(filename, index);
    }

    /** The second half of tfs_remove, once entry `index` is known to carry the name. */
    method Release(ghost filename: Bytes, index: nat) returns (r: int)
      requires Valid() && Sized(V()) && !failed
      requires index < MAX_FILES && HasFile(V(), index) && bufferMd[..] == V()[DIRECTORY_BLOCK]
      modifies disk, bufferInode, bufferBat, bufferMd, `failed
      ensures Rest() == old(Rest())
      ensures var plan := Plan(VFS_OK, RemoveWrites(old(V()), index));
              Ran(old(V()), V(), plan, r, failed)
    {
      hide Ran, After, InVolume, GetWord, SetWord, Apply, FreedBitmap, HasFile, InodeOk;
      ghost var v := V();
      ghost var ws := RemoveWrites(v, index);
      ghost var plan := Plan(VFS_OK, ws);
      AfterNone(v, ws);
      var ok := ReadBlock(ALLOCATION_BLOCK, bufferBat);
      if ok == 0 { RanPrefix(v, v, plan, 0); return VFS_ERROR; }
      EntryOfFile(v, index);
      ok := ReadBlock(GetWord(bufferMd[..], 5 * index), bufferInode);
      if ok == 0 { RanPrefix(v, v, plan, 0); return VFS_ERROR; }
      FreeBlocks(v, index, GetWord(bufferMd[..], 5 * index));
      var zero: Word := 0;
      StoreWord(bufferMd, 5 * index, zero);
      bufferMd[20 * index + 4] := 0;
      VacateIs(v[DIRECTORY_BLOCK], bufferMd[..], index, zero);
      AfterNext(v, ws, 0);
      r := WriteBlock(ALLOCATION_BLOCK, bufferBat);
      if r == 0 { RanPrefix(v, V(), plan, 0); return VFS_ERROR; }
      AfterNext(v, ws, 1);
      r := WriteBlock(DIRECTORY_BLOCK, bufferMd);
      if r == 0 { RanPrefix(v, V(), plan, 1); return VFS_ERROR; }
      RanPrefix(v, V(), plan, 2);
      return VFS_OK;
    }

    // ----- reading -----

    /** Reads at most `bufsize` bytes of an open file into the caller's buffer. */
    method Read(fileid: int, buffer: array<Byte>, bufsize: nat, offset: int) returns (r: int)
      requires Valid() && bufsize <= buffer.Length
      requires fileid < 2 || fileid > totalblocks || InodeOk(V(), fileid)
      requires buffer != bufferInode && buffer != bufferBat && buffer != bufferMd
      modifies buffer, bufferInode, bufferBat, `failed
      ensures failed ==> r == VFS_ERROR
      ensures !failed && (fileid < 2 || fileid > totalblocks) ==> r == VFS_ERROR
      ensures r <= bufsize
      ensures !failed && 2 <= fileid <= totalblocks ==>
                Reply(r, buffer[..if r < 0 then 0 else r]) == ReadSlice(V(), fileid, bufsize, offset)
      ensures !failed && 2 <= fileid <= totalblocks ==>
                ReadOut(V(), fileid, bufsize, offset, r, buffer[..if r < 0 then 0 else r])
      ensures buffer[bufsize..] == old(buffer[bufsize..])
    {
      hide GetWord, Content, InodeOk, ReadOut;
      if 2 <= fileid <= totalblocks { SliceReadOut(V(), fileid, bufsize, offset); }
      failed := false;
      ghost var v := V();
      ghost var kept := buffer[bufsize..];
      if fileid < 2 || fileid > totalblocks { return VFS_ERROR; }
      SoundInode(v, fileid);
      var ok := ReadBlock(fileid, bufferInode);
      if ok == 0 { return VFS_ERROR; }
      var size := GetWord(bufferInode[..], 0);
      if offset < 0 || offset > size { return VFS_ERROR; }
      var len := Min(bufsize, size - offset);
      if len == 0 { return 0; }
      ghost var rest := buffer[len..];
      r := ReadBlocks(v, fileid, buffer, len, offset);
      assert buffer[bufsize..] == rest[bufsize - len..];
    }

    /** Reads block `k` of the file and copies `m` of its bytes, from `s` on, to the caller's buffer. */
    method ReadChunk(ghost v: Volume, ghost n: int, k: nat, buffer: array<Byte>, ghost o: Bytes, ghost offset: nat,
                     at: nat, s: nat, m: nat) returns (r: int)
      requires Valid() && v == V() && InodeOk(v, n) && bufferInode[..] == v[n] && k < Span(Size(v[n]))
      requires buffer != bufferInode && buffer != bufferBat && |o| == buffer.Length
      requires at + m <= buffer.Length && s + m <= BLOCK_SIZE
      requires BLOCK_SIZE * k + s == offset + at && offset + at + m <= Size(v[n])
      requires buffer[..] == Filled(o, Content(v, n), offset, at)
      modifies buffer, bufferBat, `failed
      ensures r == 0 ==> failed && buffer[..] == old(buffer[..])
      ensures r != 0 ==> failed == old(failed) && buffer[..] == Filled(o, Content(v, n), offset, at + m)
    {
      hide GetWord, Content, InodeOk, Filled;
      DataBlock(v, n, k);
      r := ReadBlock(GetWord(bufferInode[..], k + 1), bufferBat);
      if r == 0 { return; }
      var aligned: bool := *;
      assert bufferBat[s..s + m] == Content(v, n)[offset + at..offset + at + m];
      FilledNext(o, Content(v, n), offset, at, m);
      MemCopy(m, buffer, at, bufferBat, s, aligned);
    }

    method ReadBlocks(ghost v: Volume, ghost n: int, buffer: array<Byte>, len: nat, offset: nat) returns (r: int)
      requires Valid() && v == V() && InodeOk(v, n) && bufferInode[..] == v[n]
      requires buffer != bufferInode && buffer != bufferBat
      requires 0 < len <= buffer.Length && offset + len <= Size(v[n])
      requires !failed
      modifies buffer, bufferBat, `failed
      ensures if failed then r == VFS_ERROR
              else r == len && buffer[..len] == Content(v, n)[offset..offset + len]
      ensures buffer[len..] == old(buffer[len..])
    {
      hide GetWord, Content, InodeOk, First, Last, Filled;
      ghost var o, c := buffer[..], Content(v, n);
      var b1, b2 := First(offset), Last(offset, len);
      FirstChunk(offset, len);
      SoundInode(v, n);
      ClipSpan(Size(v[n]), len, offset);
      var read := Min(BLOCK_SIZE - offset % BLOCK_SIZE, len);
      FilledParts(o, c, offset, 0, len);
      var ok := ReadChunk(v, n, b1, buffer, o, offset, 0, offset % BLOCK_SIZE, read);
      if ok == 0 { return VFS_ERROR; }
      b1 := b1 + 1;
      while b1 <= b2
        invariant First(offset) < b1 <= b2 + 1
        invariant read == Min(BLOCK_SIZE * b1 - offset, len)
        invariant buffer[..] == Filled(o, c, offset, read) && !failed
      {
        var chunk := if b1 == b2 then len - read else BLOCK_SIZE;
        NextChunk(offset, len, b1);
        FilledParts(o, c, offset, read, len);
        ok := ReadChunk(v, n, b1, buffer, o, offset, read, 0, chunk);
        if ok == 0 { return VFS_ERROR; }
        read := read + chunk;
        b1 := b1 + 1;
      }
      LastChunk(offset, len);
      FilledParts(o, c, offset, read, len);
      return read;
    }

    // ----- writing -----

    /** Writes at most `datasize` bytes of the caller's buffer to the open file of entry `slot`. */
    method Write(ghost slot: nat, fileid: int, buffer: array<Byte>, datasize: nat, offset: int) returns (r: int)
      requires Valid() && WellFormed(V()) && datasize <= buffer.Length
      requires fileid < 2 || fileid > totalblocks || (slot < MAX_FILES && HasFile(V(), slot) && Inode(V(), slot) == fileid)
      requires buffer != bufferInode && buffer != bufferBat
      modifies disk, bufferInode, bufferBat, `failed
      ensures Rest() == old(Rest())
      ensures fileid < 2 || fileid > totalblocks ==> V() == old(V()) && !failed && r == VFS_ERROR
      ensures 2 <= fileid <= totalblocks ==>
                var plan := WritePlan(old(V()), fileid, buffer[..datasize], offset);
                InVolume(old(V()), plan.writes) && Ran(old(V()), V(), plan, r, failed)
      ensures !failed && 2 <= fileid <= totalblocks ==> Overwritten(old(V()), V(), fileid, buffer[..datasize], offset, r)
    {
      hide GetWord, Ran, InodeOk, Disjoint, DirectoryOk, BitmapExact, OverlayWrites, InVolume, Clip, Overwritten;
      failed := false;
      ghost var v := V();
      if fileid < 2 || fileid > totalblocks { return VFS_ERROR; }
      ghost var data := buffer[..datasize];
      ghost var plan := WritePlan(v, fileid, data, offset);
      WritePlanIs(v, slot, data, offset);
      SoundInode(v, fileid);
      var ok := ReadBlock(fileid, bufferInode);
      if ok == 0 { RanNothing(v, plan, true); return VFS_ERROR; }
      var size := GetWord(bufferInode[..], 0);
      if offset < 0 || offset > size {
        RanAll(v, plan);
        RanOverwrites(v, V(), slot, data, offset, VFS_ERROR);
        return VFS_ERROR;
      }
      var len := Min(datasize, size - offset);
      if len == 0 {
        RanAll(v, plan);
        RanOverwrites(v, V(), slot, data, offset, 0);
        return 0;
      }
      assert data[..len] == buffer[..len];
      r := WriteBlocks(v, slot, fileid, buffer, len, offset);
      if !failed { RanOverwrites(v, V(), slot, data, offset, r); }
    }

    method WriteBlocks(ghost v: Volume, ghost slot: nat, ghost n: nat, buffer: array<Byte>, len: nat, offset: nat)
      returns (r: int)
      requires Valid() && v == V() && Disjoint(v) && slot < MAX_FILES && HasFile(v, slot) && Inode(v, slot) == n
      requires bufferInode[..] == v[n] && buffer != bufferBat && !failed
      requires 0 < len <= buffer.Length && offset + len <= Size(v[n])
      modifies disk, bufferBat, `failed
      ensures Rest() == old(Rest())
      ensures var count := Last(offset, len) - First(offset) + 1;
              First(offset) + count <= Span(Size(v[n])) &&
              var ws := OverlayWrites(v, n, buffer[..len], offset, count);
              InVolume(v, ws) && Ran(v, V(), Plan(len, ws), r, failed)
    {
      hide GetWord, Ran, After, InodeOk, HasFile, Inode, Disjoint, OverlayWrites, InVolume, First, Last;
      ghost var data := buffer[..len];
      ghost var count := WriteCount(v, slot, n, data, offset);
      ghost var ws := OverlayWrites(v, n, data, offset, count);
      ghost var plan := Plan(len, ws);
      AfterNone(v, ws);
      var b1, b2 := First(offset), Last(offset, len);
      FirstChunk(offset, len);
      var written := Min(BLOCK_SIZE - offset % BLOCK_SIZE, len);
      r := WriteChunk(v, slot, n, b1, buffer, len, offset, offset % BLOCK_SIZE, 0, written, count);
      if r == 0 { RanPrefix(v, V(), plan, 0); return VFS_ERROR; }
      b1 := b1 + 1;
      while b1 <= b2
        invariant First(offset) < b1 <= b2 + 1
        invariant written == Min(BLOCK_SIZE * b1 - offset, len)
        invariant buffer[..len] == data && !failed && Rest() == old(Rest())
        invariant V() == After(v, ws, b1 - First(offset))
      {
        var chunk := if b1 == b2 then len - written else BLOCK_SIZE;
        NextChunk(offset, len, b1);
        r := WriteChunk(v, slot, n, b1, buffer, len, offset, 0, written, chunk, count);
        if r == 0 { RanPrefix(v, V(), plan, b1 - First(offset)); return VFS_ERROR; }
        written := written + chunk;
        b1 := b1 + 1;
      }
      LastChunk(offset, len);
      RanPrefix(v, V(), plan, count);
      return written;
    }

    /** Puts `m` bytes of the caller's buffer, from `s` on, into block `k` of the file at `at`; a partial block is read first. */
    method WriteChunk(ghost v: Volume, ghost slot: nat, ghost n: nat, k: nat, buffer: array<Byte>, ghost len: nat,
                      ghost offset: nat, at: nat, s: nat, m: nat, ghost count: nat) returns (r: int)
      requires Valid() && |v| == totalblocks && Disjoint(v) && slot < MAX_FILES && HasFile(v, slot) && Inode(v, slot) == n
      requires bufferInode[..] == v[n] && buffer != bufferBat
      requires len <= buffer.Length && First(offset) <= k < First(offset) + count <= Span(Size(v[n]))
      requires at + m <= BLOCK_SIZE && s + m <= len && BLOCK_SIZE * k + at == offset + s
      requires at == 0 || s == 0
      requires at + m == BLOCK_SIZE || s + m == len
      requires var ws := OverlayWrites(v, n, buffer[..len], offset, count);
               InVolume(v, ws) && V() == After(v, ws, k - First(offset))
      modifies disk, bufferBat, `failed
      ensures Rest() == old(Rest())
      ensures var ws := OverlayWrites(v, n, buffer[..len], offset, count); var t := k - First(offset);
              if r == 0 then failed && V() == After(v, ws, t)
              else failed == old(failed) && V() == After(v, ws, t + 1)
    {
      hide GetWord, After, InodeOk, HasFile, Inode, Disjoint, InVolume, Overlay, Splice;
      ghost var data := buffer[..len];
      InodeSound(v, slot);
      SoundInode(v, n);
      ghost var ws := OverlayWrites(v, n, data, offset, count);
      ghost var t := k - First(offset);
      DataBlock(v, n, k);
      PendingBlock(v, slot, data, offset, count, t);
      ghost var p: nat := Pointer(v[n], k);
      if m < BLOCK_SIZE {
        r := ReadBlock(GetWord(bufferInode[..], k + 1), bufferBat);
        if r == 0 { return; }
      }
      ghost var base := bufferBat[..];
      var aligned: bool := *;
      MemCopy(m, bufferBat, at, buffer, s, aligned);
      assert buffer[s..s + m] == data[s..s + m];
      ChunkIsOverlay(v[p], base, k, data, offset, at, s, m);
      AfterNext(v, ws, t);
      r := WriteBlock(GetWord(bufferInode[..], k + 1), bufferBat);
    }

    // ----- counting -----

    /** Free bytes: what the files and the system blocks leave of the volume. */
    method GetFree() returns (r: int)
      requires Valid() && WellFormed(V())
      modifies bufferBat, `failed
      ensures failed ==> r == VFS_ERROR
      ensures !failed ==> r == (totalblocks - SYSTEM_BLOCKS - Usage(Abs(V()))) * BLOCK_SIZE
    {
      hide DirectoryOk, Disjoint, BitmapExact, Bit, Abs, Usage, FreeBits;
      failed := false;
      SpaceConserved(V());
      ghost var b := V()[ALLOCATION_BLOCK];
      var ok := ReadBlock(ALLOCATION_BLOCK, bufferBat);
      if ok == 0 { return VFS_ERROR; }
      var used := 0;
      var i := 0;
      FreeBitsStep(b, 0);
      while i < totalblocks
        invariant 0 <= i <= totalblocks && bufferBat[..] == b
        invariant used + FreeBits(b, i) == i
        modifies {}
      {
        var bit := BitmapGet(bufferBat, i);
        FreeBitsStep(b, i);
        used := used + bit;
        i := i + 1;
      }
      return (totalblocks - used) * BLOCK_SIZE;
    }

    /** The number of files in the only directory. */
    method FileCount(dirname: Bytes) returns (r: int)
      requires Valid() && Readable(V()) && 0 in dirname
      modifies bufferMd, `failed
      ensures CStr(dirname) != ROOT ==> r == VFS_NOT_FOUND
      ensures CStr(dirname) == ROOT ==> r == if failed then VFS_ERROR else |Abs(V())|
    {
      hide CStr, DirectoryOk, Abs, GetWord, FilesUpTo;
      failed := false;
      RootIsString();
      var c := StringCmp(dirname, ROOT + [0]);
      if c != 0 { return VFS_NOT_FOUND; }
      ghost var v := V();
      var ok := ReadBlock(DIRECTORY_BLOCK, bufferMd);
      if ok == 0 { return VFS_ERROR; }
      var count := 0;
      var i := 0;
      FilesUpToStep(v, 0);
      while i < MAX_FILES
        invariant 0 <= i <= MAX_FILES && bufferMd[..] == v[DIRECTORY_BLOCK]
        invariant count == FilesUpTo(v, i)
        modifies {}
      {
        FilesUpToStep(v, i);
        if GetWord(bufferMd[..], 5 * i) != 0 { count := count + 1; }
        i := i + 1;
      }
      FilesAreAll(v);
      return count;
    }

    /** The name of file number `idx` of the only directory, counting used entries in order. */
    method File(dirname: Bytes, idx: int, buffer: array<Byte>) returns (r: int)
      requires Valid() && Readable(V()) && 0 in dirname && buffer.Length >= FILENAME_MAX
      requires buffer != bufferMd
      modifies bufferMd, buffer, `failed
      ensures CStr(dirname) != ROOT || idx < 0 || failed ==> r == VFS_ERROR
      ensures CStr(dirname) == ROOT && idx >= 0 && !failed ==>
                if idx < |Abs(V())| then r == VFS_OK && 0 in buffer[..] && CStr(buffer[..]) == NthName(V(), idx)
                else r == VFS_ERROR
    {
      hide CStr, DirectoryOk, Abs, GetWord, FilesUpTo, NthName, EntryName, HasFile, Splice, CopiedString;
      failed := false;
      RootIsString();
      var c := StringCmp(dirname, ROOT + [0]);
      if c != 0 || idx < 0 { return VFS_ERROR; }
      ghost var v := V();
      var ok := ReadBlock(DIRECTORY_BLOCK, bufferMd);
      if ok == 0 { return VFS_ERROR; }
      var count := 0;
      var i := 0;
      FilesUpToStep(v, 0);
      while i < MAX_FILES
        invariant 0 <= i <= MAX_FILES && bufferMd[..] == v[DIRECTORY_BLOCK]
        invariant count == FilesUpTo(v, i) <= idx
        modifies {}
      {
        FilesUpToStep(v, i);
        if GetWord(bufferMd[..], 5 * i) != 0 {
          if count == idx { break; }
          count := count + 1;
        }
        i := i + 1;
      }
      FilesAreAll(v);
      if i < MAX_FILES {
        NthIs(v, i);
        DirectoryEntryOf(v, i);
        ghost var o := buffer[..];
        StringCopy(buffer, 0, NameField(bufferMd[..], i), FILENAME_MAX);
        CopiedName(NameField(v[DIRECTORY_BLOCK], i), o, buffer[..]);
        EntryIsString(v, i);
        return VFS_OK;
      }
      return VFS_ERROR;
    }
  }

  // ----- what a call that ran means for the files -----

  /** tfs_create: without I/O errors the map gains a zero-filled file; with one, every earlier file is intact. */
  lemma CreateRan(v: Volume, w: Volume, filename: Bytes, size: int, status: int, failed: bool)
    requires WellFormed(v) && ValidCall(Call.Create(filename, size))
    requires var plan := CreatePlan(v, filename, size); InVolume(v, plan.writes) && Ran(v, w, plan, status, failed)
    ensures |w| == |v|
    ensures !failed ==> WellFormed(w) && (Abs(w), Reply(status, [])) == SpecCreate(|v|, Abs(v), CStr(filename), size)
    ensures failed ==> forall i :: 0 <= i < MAX_FILES && HasFile(v, i) ==> Intact(v, w, i)
  {
    hide CreatePlan, DirectoryOk, Disjoint, BitmapExact, Apply, HasFile, Intact, SpecCreate, Abs, InVolume, CStr;
    var plan := CreatePlan(v, filename, size);
    if failed {
      var k :| 0 <= k <= |plan.writes| && w == After(v, plan.writes, k);
      CreatePrefixSafe(v, filename, size, k);
    } else {
      CreateMatches(v, filename, size);
    }
  }

  /** tfs_remove: without I/O errors the map loses the file; with one, every other file is intact. */
  lemma RemoveRan(v: Volume, w: Volume, filename: Bytes, status: int, failed: bool)
    requires WellFormed(v) && ValidCall(Call.Remove(filename))
    requires var plan := RemovePlan(v, filename); InVolume(v, plan.writes) && Ran(v, w, plan, status, failed)
    ensures |w| == |v|
    ensures !failed ==> WellFormed(w) && (Abs(w), Reply(status, [])) == SpecRemove(Abs(v), CStr(filename))
    ensures failed ==>
              forall i :: 0 <= i < MAX_FILES && HasFile(v, i) && EntryName(v[DIRECTORY_BLOCK], i) != CStr(filename)
                          ==> Intact(v, w, i)
  {
    hide RemovePlan, DirectoryOk, Disjoint, BitmapExact, Apply, HasFile, Intact, SpecRemove, Abs, InVolume, CStr, EntryName;
    var plan := RemovePlan(v, filename);
    if failed {
      var k :| 0 <= k <= |plan.writes| && w == After(v, plan.writes, k);
      forall i | 0 <= i < MAX_FILES && HasFile(v, i) && EntryName(v[DIRECTORY_BLOCK], i) != CStr(filename)
        ensures Intact(v, w, i)
      {
        RemovePrefixSafe(v, filename, k, i);
      }
    } else {
      RemoveMatches(v, filename);
    }
  }

  /** What a read that went through hands out of the file of inode `n`, and how many bytes that is. */
  ghost predicate ReadOut(v: Volume, n: int, len: nat, offset: int, r: int, got: Bytes)
    requires InodeOk(v, n)
  {
    var c := Content(v, n);
    if offset < 0 || offset > |c| then r == VFS_ERROR && got == []
    else r == (if offset + len <= |c| then len else |c| - offset) && got == c[offset..offset + r]
  }

  lemma SliceReadOut(v: Volume, n: int, len: nat, offset: int)
    requires InodeOk(v, n)
    ensures var reply := ReadSlice(v, n, len, offset); ReadOut(v, n, len, offset, reply.status, reply.data)
  {
    hide InodeOk, Content;
  }

  /** The file of inode `n` after a write that went through, and the number of bytes it took. */
  ghost predicate Overwritten(v: Volume, w: Volume, n: int, data: Bytes, offset: int, r: int)
    requires InodeOk(v, n)
  {
    var c := Content(v, n);
    if offset < 0 || offset > |c| then r == VFS_ERROR && w == v
    else
      && r == (if offset + |data| <= |c| then |data| else |c| - offset)
      && InodeOk(w, n) && Content(w, n) == c[..offset] + data[..r] + c[offset + r..]
  }

  lemma RanOverwrites(v: Volume, w: Volume, slot: nat, data: Bytes, offset: int, r: int)
    requires WellFormed(v) && slot < MAX_FILES && HasFile(v, slot)
    requires var plan := WritePlan(v, Inode(v, slot), data, offset);
             InVolume(v, plan.writes) && Ran(v, w, plan, r, false)
    ensures InodeOk(v, Inode(v, slot)) && Overwritten(v, w, Inode(v, slot), data, offset, r)
  {
    hide DirectoryOk, Disjoint, BitmapExact, Apply, InVolume, OverlayWrites, InodeOk, Content;
    WritePlanIs(v, slot, data, offset);
    InodeSound(v, slot);
    var n := Inode(v, slot);
    var c, plan := Content(v, n), WritePlan(v, n, data, offset);
    if plan.status <= 0 {
      AfterNone(v, plan.writes);
      if plan.status == 0 { assert c[..offset] + data[..0] + c[offset..] == c; }
    } else {
      WritePrefixFile(v, slot, data[..plan.status], offset, |plan.writes|);
      assert plan.writes[..|plan.writes|] == plan.writes;
      WholeOverwrite(c, Content(w, n), data[..plan.status], offset);
    }
  }

  /** The blocks a slice touches hold all of it. */
  lemma WholeOverwrite(c: Bytes, d: Bytes, data: Bytes, offset: nat)
    requires |data| > 0 && offset + |data| <= |c| == |d|
    requires forall x :: 0 <= x < |c| ==>
               d[x] == if First(offset) <= x / BLOCK_SIZE < First(offset) + (Last(offset, |data|) - First(offset) + 1)
                       then Splice(c, offset, data)[x] else c[x]
    ensures d == c[..offset] + data + c[offset + |data|..]
  {
    forall x | 0 <= x < |c| ensures d[x] == Splice(c, offset, data)[x] {
      if offset <= x < offset + |data| {
        assert offset / BLOCK_SIZE <= x / BLOCK_SIZE <= (offset + |data| - 1) / BLOCK_SIZE;
      }
    }
  }

  /** What a failed tfs_write leaves of the file it was writing: some of the touched blocks are new, first to last. */
  ghost predicate StoppedIn(v: Volume, w: Volume, slot: nat, data: Bytes, offset: int)
    requires Sized(v) && |w| == |v| && slot < MAX_FILES && HasFile(v, slot)
  {
    var put := Clip(Size(v[Inode(v, slot)]), |data|, offset);
    if put <= 0 then w == v
    else
      exists m :: 0 <= m <= Last(offset, put) - First(offset) + 1
                  && PartWritten(v, w, slot, data[..put], offset, m)
  }

  /** tfs_write: without I/O errors the slice is laid over the file; with one, every other file is intact
      and the file itself is new block by block. */
  lemma WriteRan(v: Volume, w: Volume, slot: nat, data: Bytes, offset: int, status: int, failed: bool)
    requires WellFormed(v) && slot < MAX_FILES && HasFile(v, slot)
    requires var plan := WritePlan(v, Inode(v, slot), data, offset);
             InVolume(v, plan.writes) && Ran(v, w, plan, status, failed)
    ensures |w| == |v|
    ensures !failed ==>
              WellFormed(w) && (Abs(w), Reply(status, [])) == SpecWrite(Abs(v), EntryName(v[DIRECTORY_BLOCK], slot), data, offset)
    ensures failed ==>
              forall i :: 0 <= i < MAX_FILES && i != slot && HasFile(v, i) ==> Intact(v, w, i)
    ensures failed ==> StoppedIn(v, w, slot, data, offset)
  {
    hide DirectoryOk, Disjoint, BitmapExact, Apply, HasFile, Intact, Abs, InVolume, CStr, EntryName, OverlayWrites, StoppedIn;
    InodeSound(v, slot);
    var plan := WritePlan(v, Inode(v, slot), data, offset);
    if failed {
      var k :| 0 <= k <= |plan.writes| && w == After(v, plan.writes, k);
      WriteStopped(v, slot, data, offset, k);
      WritePartly(v, slot, data, offset, k);
    } else {
      WriteRefines(v, slot, data, offset);
    }
  }

  lemma WritePartly(v: Volume, slot: nat, data: Bytes, offset: int, k: nat)
    requires WellFormed(v) && slot < MAX_FILES && HasFile(v, slot)
    requires var plan := WritePlan(v, Inode(v, slot), data, offset);
             InVolume(v, plan.writes) && k <= |plan.writes|
    ensures StoppedIn(v, After(v, WritePlan(v, Inode(v, slot), data, offset).writes, k), slot, data, offset)
  {
    hide DirectoryOk, Disjoint, BitmapExact, Apply, InVolume, OverlayWrites, InodeOk, PartWritten;
    WritePlanIs(v, slot, data, offset);
    InodeSound(v, slot);
    var plan := WritePlan(v, Inode(v, slot), data, offset);
    if plan.status <= 0 {
      AfterNone(v, plan.writes);
    } else {
      WritePrefixFile(v, slot, data[..plan.status], offset, k);
    }
  }

  lemma WriteStopped(v: Volume, slot: nat, data: Bytes, offset: int, k: nat)
    requires WellFormed(v) && slot < MAX_FILES && HasFile(v, slot)
    requires var plan := WritePlan(v, Inode(v, slot), data, offset);
             InVolume(v, plan.writes) && k <= |plan.writes|
    ensures forall i :: 0 <= i < MAX_FILES && i != slot && HasFile(v, i) ==>
                          Intact(v, After(v, WritePlan(v, Inode(v, slot), data, offset).writes, k), i)
  {
    hide DirectoryOk, Disjoint, BitmapExact, Apply, Intact, InVolume, OverlayWrites, InodeOk;
    WritePlanIs(v, slot, data, offset);
    InodeSound(v, slot);
    var plan := WritePlan(v, Inode(v, slot), data, offset);
    forall i | 0 <= i < MAX_FILES && i != slot && HasFile(v, i) ensures Intact(v, After(v, plan.writes, k), i) {
      if plan.writes == [] {
        AfterNone(v, plan.writes);
        IntactItself(v, i);
      } else {
        WritePrefixSafe(v, slot, data[..plan.status], offset, k, i);
      }
    }
  }
}
