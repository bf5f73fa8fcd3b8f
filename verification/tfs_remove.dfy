/** tfs_remove deletes one file from the file map and keeps the volume well formed. */
module TfsRemove {
  import opened Words
  import opened Bitmap
  import opened Libc
  import opened TfsLayout
  import opened TfsPlans
  import opened TfsCreate

  /** The directory `e` is `d` with entry `slot` freed. */
  ghost predicate Vacated(d: Block, e: Block, slot: nat) {
    && slot < MAX_FILES && EntryInode(e, slot) == 0
    && 0 in NameField(e, slot) && EntryName(e, slot) == []
    && forall j :: 0 <= j < MAX_FILES && j != slot ==>
         EntryInode(e, j) == EntryInode(d, j) && NameField(e, j) == NameField(d, j)
  }

  /** The bitmap `c` is `b` with the bits of `blocks` cleared. */
  ghost predicate BitsFreed(b: Block, c: Block, blocks: seq<int>) {
    forall p: nat :: p < 8 * BLOCK_SIZE ==> (Bit(c, p) <==> Bit(b, p) && p !in blocks)
  }

  /** `w` is `v` without the file of entry `slot`. */
  ghost predicate Removed(v: Volume, w: Volume, slot: nat)
    requires Sized(v) && |w| == |v|
  {
    && slot < MAX_FILES && HasFile(v, slot)
    && BitsFreed(v[ALLOCATION_BLOCK], w[ALLOCATION_BLOCK], Blocks(v, slot))
    && Vacated(v[DIRECTORY_BLOCK], w[DIRECTORY_BLOCK], slot)
    && (forall p :: InData(v, p) ==> w[p] == v[p])
  }

  lemma OtherFile(v: Volume, w: Volume, slot: nat, i: nat)
    requires Readable(v) && |w| == |v| && Removed(v, w, slot) && i < MAX_FILES
    ensures HasFile(w, i) <==> i != slot && HasFile(v, i)
    ensures HasFile(w, i) ==> Blocks(w, i) == Blocks(v, i) && Content(w, Inode(w, i)) == Content(v, Inode(v, i))
  {
    if i != slot && HasFile(v, i) {
      assert forall p :: p in Blocks(v, i) ==> InData(v, p);
      KeepsFile(v, w, i);
    }
  }

  lemma DirectoryRemoved(d: Block, e: Block, slot: nat)
    requires DirectoryOk(d) && Vacated(d, e, slot)
    ensures DirectoryOk(e)
  {
    assert forall j :: 0 <= j < MAX_FILES && j != slot ==>
      (InUse(e, j) <==> InUse(d, j)) && EntryName(e, j) == EntryName(d, j) && 0 in NameField(e, j);
  }

  lemma DisjointRemoved(v: Volume, w: Volume, slot: nat)
    requires Readable(v) && Disjoint(v) && |w| == |v| && Removed(v, w, slot)
    ensures Disjoint(w)
  {
    forall i | 0 <= i < MAX_FILES
      ensures HasFile(w, i) ==> HasFile(v, i) && Blocks(w, i) == Blocks(v, i)
    {
      OtherFile(v, w, slot, i);
    }
  }

  /** Exactly the victim's blocks stop being taken. */
  lemma TakenRemoved(v: Volume, w: Volume, slot: nat, p: nat)
    requires Readable(v) && Disjoint(v) && |w| == |v| && Removed(v, w, slot)
    ensures Taken(w, p) <==> Taken(v, p) && p !in Blocks(v, slot)
  {
    if Taken(w, p) {
      var i :| 0 <= i < MAX_FILES && HasFile(w, i) && p in Blocks(w, i);
      OtherFile(v, w, slot, i);
      OnlyOwner(v, i, slot, p);
    }
    if Taken(v, p) && p !in Blocks(v, slot) {
      var i :| 0 <= i < MAX_FILES && HasFile(v, i) && p in Blocks(v, i);
      OtherFile(v, w, slot, i);
    }
  }

  lemma OnlyOwner(v: Volume, i: nat, j: nat, p: int)
    requires Sized(v) && Disjoint(v) && i < MAX_FILES && j < MAX_FILES && i != j
    requires HasFile(v, i) && HasFile(v, j) && p in Blocks(v, i)
    ensures p !in Blocks(v, j)
  {
    var a :| 0 <= a < |Blocks(v, i)| && Blocks(v, i)[a] == p;
    assert forall b :: 0 <= b < |Blocks(v, j)| ==> Blocks(v, j)[b] != Blocks(v, i)[a];
  }

  lemma BitmapRemoved(v: Volume, w: Volume, slot: nat)
    requires WellFormed(v) && |w| == |v| && Removed(v, w, slot)
    ensures BitmapExact(w)
  {
    forall p: nat | p < |v|
      ensures Bit(w[ALLOCATION_BLOCK], p) <==> p < SYSTEM_BLOCKS || Taken(w, p)
    {
      TakenRemoved(v, w, slot, p);
      assert p in Blocks(v, slot) ==> InData(v, p);
    }
  }

  lemma RemovedWellFormed(v: Volume, w: Volume, slot: nat)
    requires WellFormed(v) && |w| == |v| && Removed(v, w, slot)
    ensures WellFormed(w)
  {
    DirectoryRemoved(v[DIRECTORY_BLOCK], w[DIRECTORY_BLOCK], slot);
    DisjointRemoved(v, w, slot);
    BitmapRemoved(v, w, slot);
    forall i | 0 <= i < MAX_FILES && InUse(w[DIRECTORY_BLOCK], i) ensures HasFile(w, i) {
      OtherFile(v, w, slot, i);
    }
  }

  lemma NamesDiffer(v: Volume, i: nat, j: nat)
    requires Readable(v) && i < MAX_FILES && j < MAX_FILES && i != j && HasFile(v, i) && HasFile(v, j)
    ensures EntryName(v[DIRECTORY_BLOCK], i) != EntryName(v[DIRECTORY_BLOCK], j)
  {
    if j < i {
      assert EntryName(v[DIRECTORY_BLOCK], j) != EntryName(v[DIRECTORY_BLOCK], i);
    }
  }

  lemma RemovedLists(v: Volume, w: Volume, slot: nat, i: nat)
    requires Readable(v) && |w| == |v| && Removed(v, w, slot)
    requires i < MAX_FILES && HasFile(w, i)
    ensures Lists(Abs(v) - {EntryName(v[DIRECTORY_BLOCK], slot)}, w, i)
  {
    hide DirectoryOk, InodeOk, Content, Owned, CStr, Names, Blocks;
    OtherFile(v, w, slot, i);
    AbsAt(v, i);
    NamesDiffer(v, i, slot);
    ListsMoves(Abs(v), v, w, i, Abs(v) - {EntryName(v[DIRECTORY_BLOCK], slot)});
  }

  lemma RemovedNames(v: Volume, w: Volume, slot: nat, name: Bytes)
    requires Readable(v) && |w| == |v| && Removed(v, w, slot)
    requires name in Abs(v) && name != EntryName(v[DIRECTORY_BLOCK], slot)
    ensures name in Names(w)
  {
    var i := EntryOf(v, name);
    OtherFile(v, w, slot, i);
    assert EntryName(w[DIRECTORY_BLOCK], i) == name;
  }

  lemma RemovedAbs(v: Volume, w: Volume, slot: nat)
    requires Readable(v) && Readable(w) && |w| == |v| && Removed(v, w, slot)
    ensures Abs(w) == Abs(v) - {EntryName(v[DIRECTORY_BLOCK], slot)}
  {
    var m := Abs(v) - {EntryName(v[DIRECTORY_BLOCK], slot)};
    forall i | 0 <= i < MAX_FILES && HasFile(w, i) ensures Lists(m, w, i) {
      RemovedLists(v, w, slot, i);
    }
    forall name | name in m ensures name in Names(w) {
      RemovedNames(v, w, slot, name);
    }
    AbsUnique(w, m);
  }

  // ----- from the plan to the removal -----

  lemma VacateVacates(d: Block, slot: nat)
    requires slot < MAX_FILES
    ensures Vacated(d, Vacate(d, slot), slot)
  {
    VacateEffect(d, slot, slot);
    forall j | 0 <= j < MAX_FILES && j != slot
      ensures EntryInode(Vacate(d, slot), j) == EntryInode(d, j)
      ensures NameField(Vacate(d, slot), j) == NameField(d, j)
    {
      VacateEffect(d, slot, j);
    }
  }

  /** The loop over the inode's pointers frees exactly the blocks of the file. */
  lemma FreedBits(v: Volume, slot: nat, p: nat)
    requires Sized(v) && slot < MAX_FILES && HasFile(v, slot) && p < 8 * BLOCK_SIZE
    ensures Bit(FreedBitmap(v, slot), p) <==> Bit(v[ALLOCATION_BLOCK], p) && p !in Blocks(v, slot)
  {
    var n := Inode(v, slot);
    var b := BitSet(v[ALLOCATION_BLOCK], n, false);
    PointerCountIsSpan(v, n, 0);
    ClearedBits(b, v[n], Span(Size(v[n])), p);
    BitSetAt(v[ALLOCATION_BLOCK], n, false, p);
    PointsToBlocks(v, slot, p);
  }

  lemma PointsToBlocks(v: Volume, slot: nat, p: nat)
    requires Sized(v) && slot < MAX_FILES && HasFile(v, slot)
    ensures p in Blocks(v, slot) <==> p == Inode(v, slot) || PointsTo(v[Inode(v, slot)], Span(Size(v[Inode(v, slot)])), p)
  {
    var n := Inode(v, slot);
    var o := Owned(v, n);
    PointsToExists(v[n], Span(Size(v[n])), p);
    assert forall k :: 0 <= k < Span(Size(v[n])) ==> o[k + 1] == Pointer(v[n], k);
    if p in o {
      var k :| 0 <= k < |o| && o[k] == p;
      if k > 0 { assert Pointer(v[n], k - 1) == p; }
    }
  }

  lemma FreedBitmapFrees(v: Volume, slot: nat)
    requires Sized(v) && slot < MAX_FILES && HasFile(v, slot)
    ensures BitsFreed(v[ALLOCATION_BLOCK], FreedBitmap(v, slot), Blocks(v, slot))
  {
    forall p: nat | p < 8 * BLOCK_SIZE
      ensures Bit(FreedBitmap(v, slot), p) <==> Bit(v[ALLOCATION_BLOCK], p) && p !in Blocks(v, slot)
    {
      FreedBits(v, slot, p);
    }
  }

  lemma RemoveApplied(v: Volume, slot: nat)
    requires Sized(v) && slot < MAX_FILES && HasFile(v, slot)
    ensures var w := Apply(v, RemoveWrites(v, slot));
            && w[ALLOCATION_BLOCK] == FreedBitmap(v, slot)
            && w[DIRECTORY_BLOCK] == Vacate(v[DIRECTORY_BLOCK], slot)
            && forall p :: InData(v, p) ==> w[p] == v[p]
  {
    var ws := RemoveWrites(v, slot);
    ApplyAt(v, ws, 0);
    ApplyAt(v, ws, 1);
    forall p | InData(v, p) ensures Apply(v, ws)[p] == v[p] {
      ApplyElsewhere(v, ws, p);
    }
  }

  lemma RemoveRemoves(v: Volume, slot: nat)
    requires Sized(v) && slot < MAX_FILES && HasFile(v, slot)
    ensures Removed(v, Apply(v, RemoveWrites(v, slot)), slot)
  {
    VacateVacates(v[DIRECTORY_BLOCK], slot);
    FreedBitmapFrees(v, slot);
    RemoveApplied(v, slot);
  }

  lemma RemoveEntry(v: Volume, slot: nat)
    requires WellFormed(v) && slot < MAX_FILES && HasFile(v, slot)
    ensures var w := Apply(v, RemoveWrites(v, slot));
            WellFormed(w) && Abs(w) == Abs(v) - {EntryName(v[DIRECTORY_BLOCK], slot)}
  {
    var w := Apply(v, RemoveWrites(v, slot));
    RemoveRemoves(v, slot);
    RemovedWellFormed(v, w, slot);
    RemovedAbs(v, w, slot);
  }

  /** tfs_remove deletes the named file and changes no other; without such a file it writes nothing. */
  lemma RemoveRefines(v: Volume, filename: Bytes)
    requires WellFormed(v) && 0 in filename && CStr(filename) != []
    ensures var plan := RemovePlan(v, filename); var name := CStr(filename);
            if name in Abs(v) then
              && plan.status == VFS_OK && InVolume(v, plan.writes)
              && WellFormed(Apply(v, plan.writes))
              && Abs(Apply(v, plan.writes)) == Abs(v) - {name}
            else plan == Plan(VFS_NOT_FOUND, [])
  {
    FindIsLookup(v, CStr(filename));
    var slot := Find(v[DIRECTORY_BLOCK], CStr(filename), 0);
    if slot >= 0 {
      RemoveEntry(v, slot);
    }
  }
}
