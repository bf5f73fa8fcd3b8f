/** tfs_create adds one zero-filled file to the file map and keeps the volume well formed. */
module TfsCreate {
  import opened Words
  import opened Bitmap
  import opened Libc
  import opened TfsLayout
  import opened TfsPlans

  /** An entry whose inode number and blocks are left alone keeps its file. */
  lemma KeepsFile(v: Volume, w: Volume, i: nat)
    requires Sized(v) && |w| == |v| && i < MAX_FILES && HasFile(v, i)
    requires EntryInode(w[DIRECTORY_BLOCK], i) == EntryInode(v[DIRECTORY_BLOCK], i)
    requires forall p :: p in Blocks(v, i) ==> w[p] == v[p]
    ensures HasFile(w, i) && Inode(w, i) == Inode(v, i) && Blocks(w, i) == Blocks(v, i)
    ensures Content(w, Inode(w, i)) == Content(v, Inode(v, i))
  {
    var n := Inode(v, i);
    assert forall k :: 0 <= k < |Owned(v, n)| ==> Owned(v, n)[k] in Blocks(v, i);
    SameFile(v, w, n);
  }

  function Zeros(n: nat): Bytes { seq(n, _ => 0) }

  /** The directory `e` is `d` with entry `slot` naming inode `n`. */
  ghost predicate Entered(d: Block, e: Block, slot: nat, n: int, name: Bytes) {
    && slot < MAX_FILES && EntryInode(e, slot) == n
    && 0 in NameField(e, slot) && EntryName(e, slot) == name
    && forall j :: 0 <= j < MAX_FILES && j != slot ==>
         EntryInode(e, j) == EntryInode(d, j) && NameField(e, j) == NameField(d, j)
  }

  /** `inode` describes a file of `size` bytes on the blocks `found[1..]`. */
  ghost predicate Describes(inode: Block, found: seq<nat>, size: nat)
    requires |found| == 1 + Span(size)
  {
    && Size(inode) == size
    && forall k :: 0 <= k < BLOCKS_MAX ==> Pointer(inode, k) == if k < Span(size) then found[k + 1] else 0
  }

  /** `w` is `v` with a file of `size` zero bytes entered at `slot`, on the blocks `found`. */
  ghost predicate Created(v: Volume, w: Volume, slot: nat, found: seq<nat>, name: Bytes, size: nat)
    requires Sized(v) && |w| == |v|
  {
    && slot < MAX_FILES && !InUse(v[DIRECTORY_BLOCK], slot)
    && size <= BLOCK_SIZE * BLOCKS_MAX && |found| == 1 + Span(size)
    && Found(v[ALLOCATION_BLOCK], |v|, w[ALLOCATION_BLOCK], found)
    && (forall k :: 0 <= k < |found| ==> InData(v, found[k]) && !Taken(v, found[k]))
    && Entered(v[DIRECTORY_BLOCK], w[DIRECTORY_BLOCK], slot, found[0], name)
    && Describes(w[found[0]], found, size)
    && (forall k :: 1 <= k < |found| ==> w[found[k]] == ZeroBlock())
    && (forall p :: InData(v, p) && p !in found ==> w[p] == v[p])
  }

  lemma FoundIsNew(v: Volume, c: Bytes, found: seq<nat>)
    requires Sized(v) && BitmapExact(v) && |c| == BLOCK_SIZE && Found(v[ALLOCATION_BLOCK], |v|, c, found)
    ensures forall k :: 0 <= k < |found| ==> InData(v, found[k]) && !Taken(v, found[k])
  {
  }

  lemma NewFile(v: Volume, w: Volume, slot: nat, found: seq<nat>, name: Bytes, size: nat)
    requires Sized(v) && |w| == |v| && Created(v, w, slot, found, name, size)
    ensures HasFile(w, slot) && Inode(w, slot) == found[0]
    ensures Blocks(w, slot) == found
    ensures Content(w, Inode(w, slot)) == Zeros(size)
  {
    hide GetWord, Found, Bit, CStr;
    var n := found[0];
    assert InData(w, n);
    forall k | 0 <= k < Span(size) ensures InData(w, Pointer(w[n], k)) && w[Pointer(w[n], k)] == ZeroBlock() {
      assert Pointer(w[n], k) == found[k + 1];
      assert InData(v, found[k + 1]);
    }
    assert InodeOk(w, n);
    assert Blocks(w, slot) == Owned(w, n);
    assert Owned(w, n) == found;
    var c := Content(w, n);
    assert forall x :: 0 <= x < |c| ==> x / BLOCK_SIZE < Span(size);
  }

  lemma OldFile(v: Volume, w: Volume, slot: nat, found: seq<nat>, name: Bytes, size: nat, i: nat)
    requires Readable(v) && |w| == |v| && Created(v, w, slot, found, name, size)
    requires i < MAX_FILES && i != slot
    ensures HasFile(w, i) <==> HasFile(v, i)
    ensures HasFile(v, i) ==> Blocks(w, i) == Blocks(v, i) && Content(w, Inode(w, i)) == Content(v, Inode(v, i))
  {
    assert EntryInode(w[DIRECTORY_BLOCK], i) == EntryInode(v[DIRECTORY_BLOCK], i);
    if HasFile(v, i) {
      forall p | p in Blocks(v, i) ensures w[p] == v[p] {
        assert Taken(v, p);
        assert InData(v, p);
      }
      KeepsFile(v, w, i);
    }
  }

  lemma OldName(v: Volume, name: Bytes, j: nat)
    requires Readable(v) && name !in Abs(v) && j < MAX_FILES && InUse(v[DIRECTORY_BLOCK], j)
    ensures EntryName(v[DIRECTORY_BLOCK], j) != name
  {
    AbsAt(v, j);
  }

  lemma DirectoryCreated(v: Volume, w: Volume, slot: nat, found: seq<nat>, name: Bytes, size: nat)
    requires Readable(v) && |w| == |v| && Created(v, w, slot, found, name, size)
    requires name != [] && name !in Abs(v)
    ensures DirectoryOk(w[DIRECTORY_BLOCK])
  {
    hide GetWord, Found, Describes, InodeOk, Content, Owned, CStr;
    var d, e := v[DIRECTORY_BLOCK], w[DIRECTORY_BLOCK];
    NewFile(v, w, slot, found, name, size);
    forall j | 0 <= j < MAX_FILES && InUse(d, j) ensures EntryName(d, j) != name {
      OldName(v, name, j);
    }
    assert forall j :: 0 <= j < MAX_FILES && j != slot ==>
      (InUse(e, j) <==> InUse(d, j)) && EntryName(e, j) == EntryName(d, j) && 0 in NameField(e, j);
  }

  /** The blocks of the new file are not among those of an old one. */
  lemma NewBlocksApart(v: Volume, w: Volume, slot: nat, found: seq<nat>, name: Bytes, size: nat)
    requires Sized(v) && |w| == |v| && Created(v, w, slot, found, name, size)
    ensures forall i, a, b :: 0 <= i < MAX_FILES && HasFile(v, i) && 0 <= a < |Blocks(v, i)| && 0 <= b < |found|
              ==> Blocks(v, i)[a] != found[b]
  {
    forall i, a, b | 0 <= i < MAX_FILES && HasFile(v, i) && 0 <= a < |Blocks(v, i)| && 0 <= b < |found|
      ensures Blocks(v, i)[a] != found[b]
    {
      assert Blocks(v, i)[a] in Blocks(v, i);
      assert Taken(v, Blocks(v, i)[a]);
    }
  }

  lemma DisjointCreated(v: Volume, w: Volume, slot: nat, found: seq<nat>, name: Bytes, size: nat)
    requires Readable(v) && Disjoint(v) && |w| == |v| && Created(v, w, slot, found, name, size)
    ensures Disjoint(w)
  {
    hide InodeOk, Content, Owned, Entered, Describes, GetWord, Names;
    NewFile(v, w, slot, found, name, size);
    NewBlocksApart(v, w, slot, found, name, size);
    forall i, j, a, b | 0 <= i < MAX_FILES && 0 <= j < MAX_FILES && HasFile(w, i) && HasFile(w, j)
      && 0 <= a < |Blocks(w, i)| && 0 <= b < |Blocks(w, j)| && Blocks(w, i)[a] == Blocks(w, j)[b]
      ensures i == j && a == b
    {
      if i != slot { OldFile(v, w, slot, found, name, size, i); }
      if j != slot { OldFile(v, w, slot, found, name, size, j); }
    }
  }

  lemma BitmapCreated(v: Volume, w: Volume, slot: nat, found: seq<nat>, name: Bytes, size: nat)
    requires Readable(v) && BitmapExact(v) && |w| == |v| && Created(v, w, slot, found, name, size)
    ensures BitmapExact(w)
  {
    NewFile(v, w, slot, found, name, size);
    forall p: nat | p < |v|
      ensures Bit(w[ALLOCATION_BLOCK], p) <==> p < SYSTEM_BLOCKS || Taken(w, p)
    {
      TakenCreated(v, w, slot, found, name, size, p);
    }
  }

  lemma TakenCreated(v: Volume, w: Volume, slot: nat, found: seq<nat>, name: Bytes, size: nat, p: nat)
    requires Readable(v) && |w| == |v| && Created(v, w, slot, found, name, size) && p < |v|
    ensures Taken(w, p) <==> Taken(v, p) || p in found
  {
    NewFile(v, w, slot, found, name, size);
    if p in found {
      assert p in Blocks(w, slot);
    }
    if Taken(v, p) {
      var i :| 0 <= i < MAX_FILES && HasFile(v, i) && p in Blocks(v, i);
      OldFile(v, w, slot, found, name, size, i);
    }
    if Taken(w, p) {
      var i :| 0 <= i < MAX_FILES && HasFile(w, i) && p in Blocks(w, i);
      if i != slot { OldFile(v, w, slot, found, name, size, i); }
    }
  }

  lemma CreatedWellFormed(v: Volume, w: Volume, slot: nat, found: seq<nat>, name: Bytes, size: nat)
    requires WellFormed(v) && |w| == |v| && Created(v, w, slot, found, name, size)
    requires name != [] && name !in Abs(v)
    ensures WellFormed(w)
  {
    DirectoryCreated(v, w, slot, found, name, size);
    DisjointCreated(v, w, slot, found, name, size);
    BitmapCreated(v, w, slot, found, name, size);
    NewFile(v, w, slot, found, name, size);
    forall i | 0 <= i < MAX_FILES && InUse(w[DIRECTORY_BLOCK], i) ensures HasFile(w, i) {
      if i != slot { OldFile(v, w, slot, found, name, size, i); }
    }
  }

  lemma CreatedAbs(v: Volume, w: Volume, slot: nat, found: seq<nat>, name: Bytes, size: nat)
    requires Readable(v) && Readable(w) && |w| == |v| && Created(v, w, slot, found, name, size)
    requires name !in Abs(v)
    ensures Abs(w) == Abs(v)[name := Zeros(size)]
  {
    hide InodeOk, Content, Owned, Describes, GetWord, CStr, Found, Created, Lists, Names, Abs;
    var m := Abs(v)[name := Zeros(size)];
    forall i | 0 <= i < MAX_FILES && HasFile(w, i) ensures Lists(m, w, i) {
      CreatedLists(v, w, slot, found, name, size, i);
    }
    forall nm | nm in m ensures nm in Names(w) {
      CreatedNames(v, w, slot, found, name, size, nm);
    }
    AbsUnique(w, m);
  }

  lemma CreatedLists(v: Volume, w: Volume, slot: nat, found: seq<nat>, name: Bytes, size: nat, i: nat)
    requires Readable(v) && Readable(w) && |w| == |v| && Created(v, w, slot, found, name, size)
    requires name !in Abs(v) && i < MAX_FILES && HasFile(w, i)
    ensures Lists(Abs(v)[name := Zeros(size)], w, i)
  {
    hide InodeOk, Content, Owned, Describes, GetWord, CStr, Found, Names, Abs;
    if i == slot {
      NewFile(v, w, slot, found, name, size);
    } else {
      OldFile(v, w, slot, found, name, size, i);
      AbsAt(v, i);
      OldName(v, name, i);
    }
  }

  lemma CreatedNames(v: Volume, w: Volume, slot: nat, found: seq<nat>, name: Bytes, size: nat, nm: Bytes)
    requires Readable(v) && Readable(w) && |w| == |v| && Created(v, w, slot, found, name, size)
    requires nm == name || nm in Abs(v)
    ensures nm in Names(w)
  {
    hide InodeOk, Content, Owned, Describes, GetWord, CStr, Found;
    if nm == name {
      NewFile(v, w, slot, found, name, size);
      EntryOfName(w, slot);
    } else {
      var i := EntryOf(v, nm);
      OldFile(v, w, slot, found, name, size, i);
      EntryOfName(w, i);
    }
  }

  // ----- from the plan to the created volume -----

  /** Blocks for a new file: in the data area, and each once. */
  ghost predicate Fresh(v: Volume, found: seq<nat>) {
    && 0 < |found| <= BLOCKS_MAX + 1
    && (forall k :: 0 <= k < |found| ==> InData(v, found[k]) && found[k] < WORDS)
    && (forall j, k :: 0 <= j < k < |found| ==> found[j] != found[k])
  }

  /** The writes go to the two system blocks and to the new blocks, each block once. */
  lemma CreateTargets(v: Volume, slot: nat, filename: Bytes, size: Word, bitmap: Block, found: seq<nat>)
    requires Sized(v) && slot < MAX_FILES && 0 in filename && Fresh(v, found)
    ensures var ws := CreateWrites(v[DIRECTORY_BLOCK], slot, filename, size, bitmap, found);
            InVolume(v, ws) && forall j, k :: 0 <= j < k < |ws| ==> ws[j].block != ws[k].block
  {
  }

  /** After all writes, each block written holds what its one write put there. */
  lemma CreateApplied(v: Volume, slot: nat, filename: Bytes, size: Word, bitmap: Block, found: seq<nat>, k: nat)
    requires Sized(v) && slot < MAX_FILES && 0 in filename && Fresh(v, found) && k < 2 + |found|
    ensures var ws := CreateWrites(v[DIRECTORY_BLOCK], slot, filename, size, bitmap, found);
            var write := CreateWrite(v[DIRECTORY_BLOCK], slot, filename, size, bitmap, found, k);
            InVolume(v, ws) && write.block < |v| && Apply(v, ws)[write.block] == write.data
  {
    CreateTargets(v, slot, filename, size, bitmap, found);
    ApplyAt(v, CreateWrites(v[DIRECTORY_BLOCK], slot, filename, size, bitmap, found), k);
  }

  /** Blocks other than the targets keep their contents through any number of the writes. */
  lemma CreateUntouched(v: Volume, slot: nat, filename: Bytes, size: Word, bitmap: Block, found: seq<nat>, m: nat, p: nat)
    requires Sized(v) && slot < MAX_FILES && 0 in filename && Fresh(v, found) && m <= 2 + |found|
    requires InData(v, p) && p !in found
    ensures var ws := CreateWrites(v[DIRECTORY_BLOCK], slot, filename, size, bitmap, found);
            InVolume(v, ws[..m]) && Apply(v, ws[..m])[p] == v[p]
  {
    var ws := CreateWrites(v[DIRECTORY_BLOCK], slot, filename, size, bitmap, found);
    CreateTargets(v, slot, filename, size, bitmap, found);
    forall k | 0 <= k < m ensures ws[..m][k].block != p && ws[..m][k].block < |v| {
      assert ws[..m][k] == ws[k];
    }
    ApplyElsewhere(v, ws[..m], p);
  }

  lemma EnterEnters(d: Block, slot: nat, filename: Bytes, n: Word)
    requires slot < MAX_FILES && 0 in filename && FileName(CStr(filename))
    ensures Entered(d, Enter(d, slot, filename, n), slot, n, CStr(filename))
  {
    EnterEffect(d, slot, filename, n, slot);
    forall j | 0 <= j < MAX_FILES && j != slot
      ensures EntryInode(Enter(d, slot, filename, n), j) == EntryInode(d, j)
      ensures NameField(Enter(d, slot, filename, n), j) == NameField(d, j)
    {
      EnterEffect(d, slot, filename, n, j);
    }
  }

  lemma InodeDescribes(found: seq<nat>, size: Word)
    requires |found| == 1 + Span(size) && |found| <= BLOCKS_MAX + 1 && AreWords(found)
    ensures Describes(InodeBlock(size, found[1..]), found, size)
  {
    InodeBlockWords(size, found[1..]);
  }

  lemma CreateData(v: Volume, slot: nat, filename: Bytes, size: Word, bitmap: Block, found: seq<nat>)
    requires Sized(v) && slot < MAX_FILES && 0 in filename && Fresh(v, found)
    ensures var ws := CreateWrites(v[DIRECTORY_BLOCK], slot, filename, size, bitmap, found);
            && InVolume(v, ws)
            && (forall k :: 1 <= k < |found| ==> Apply(v, ws)[found[k]] == ZeroBlock())
            && (forall p :: InData(v, p) && p !in found ==> Apply(v, ws)[p] == v[p])
  {
    var ws := CreateWrites(v[DIRECTORY_BLOCK], slot, filename, size, bitmap, found);
    CreateTargets(v, slot, filename, size, bitmap, found);
    forall k | 1 <= k < |found| ensures Apply(v, ws)[found[k]] == ZeroBlock() {
      CreateApplied(v, slot, filename, size, bitmap, found, k + 2);
    }
    assert ws[..2 + |found|] == ws;
    forall p | InData(v, p) && p !in found ensures Apply(v, ws)[p] == v[p] {
      CreateUntouched(v, slot, filename, size, bitmap, found, 2 + |found|, p);
    }
  }

  lemma CreateCreates(v: Volume, slot: nat, filename: Bytes, size: Word, bitmap: Block, found: seq<nat>)
    requires Sized(v) && slot < MAX_FILES && !InUse(v[DIRECTORY_BLOCK], slot)
    requires 0 in filename && FileName(CStr(filename)) && Fresh(v, found)
    requires size <= BLOCK_SIZE * BLOCKS_MAX && |found| == 1 + Span(size)
    requires Found(v[ALLOCATION_BLOCK], |v|, bitmap, found)
    requires forall k :: 0 <= k < |found| ==> !Taken(v, found[k])
    ensures var ws := CreateWrites(v[DIRECTORY_BLOCK], slot, filename, size, bitmap, found);
            InVolume(v, ws) && Created(v, Apply(v, ws), slot, found, CStr(filename), size)
  {
    CreateData(v, slot, filename, size, bitmap, found);
    CreateApplied(v, slot, filename, size, bitmap, found, 0);
    CreateApplied(v, slot, filename, size, bitmap, found, 1);
    CreateApplied(v, slot, filename, size, bitmap, found, 2);
    EnterEnters(v[DIRECTORY_BLOCK], slot, filename, found[0]);
    InodeDescribes(found, size);
  }

  // ----- tfs_create as a whole -----

  lemma FoundIsFresh(v: Volume, c: Bytes, found: seq<nat>)
    requires Sized(v) && BitmapExact(v) && |c| == BLOCK_SIZE && Found(v[ALLOCATION_BLOCK], |v|, c, found)
    requires 0 < |found| <= BLOCKS_MAX + 1
    ensures Fresh(v, found) && forall k :: 0 <= k < |found| ==> !Taken(v, found[k])
  {
    FoundIsNew(v, c, found);
  }

  /** What the allocation of a create that goes through has found. */
  lemma TakenAreFresh(v: Volume, m: nat, bitmap: Block, found: seq<nat>)
    requires Sized(v) && BitmapExact(v) && 0 < m <= BLOCKS_MAX + 1
    requires (bitmap, found) == Take(v[ALLOCATION_BLOCK], |v|, m) && |found| == m
    ensures Found(v[ALLOCATION_BLOCK], |v|, bitmap, found)
    ensures Fresh(v, found) && forall k :: 0 <= k < |found| ==> !Taken(v, found[k])
  {
    hide Take, Bit;
    TakeFinds(v[ALLOCATION_BLOCK], |v|, m);
    FoundIsFresh(v, bitmap, found);
  }

  /** tfs_create adds a file of `size` zero bytes under a new name and changes no other file; a refused create writes nothing. */
  lemma CreateRefines(v: Volume, filename: Bytes, size: int)
    requires WellFormed(v) && 0 in filename && FileName(CStr(filename)) && 0 <= size < 0x8000_0000
    ensures var plan := CreatePlan(v, filename, size); var name := CStr(filename);
            if plan.status == VFS_OK then
              && InVolume(v, plan.writes)
              && WellFormed(Apply(v, plan.writes))
              && name !in Abs(v)
              && Abs(Apply(v, plan.writes)) == Abs(v)[name := Zeros(size)]
            else plan == Plan(VFS_ERROR, [])
  {
    if Creatable(v, filename, size) {
      var slot := LastFree(v[DIRECTORY_BLOCK], MAX_FILES);
      var (bitmap, found) := Allocated(v, size);
      BlocksNeededExact(size);
      TakenAreFresh(v, BlocksNeeded(size) + 1, bitmap, found);
      CreateCreates(v, slot, filename, size, bitmap, found);
      FindIsLookup(v, CStr(filename));
      var w := Apply(v, CreatePlan(v, filename, size).writes);
      CreatedWellFormed(v, w, slot, found, CStr(filename), size);
      CreatedAbs(v, w, slot, found, CStr(filename), size);
    }
  }
}
