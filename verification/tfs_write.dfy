/** tfs_write lays a slice over one file and keeps everything else; tfs_read returns slices of the file map. */
module TfsWrite {
  import opened Words
  import opened Bitmap
  import opened Libc
  import opened TfsLayout
  import opened TfsPlans
  import opened TfsCreate
  import opened TfsRemove

  /** `p` is a data block of entry `slot`. */
  ghost predicate IsData(v: Volume, slot: nat, p: int)
    requires Sized(v) && slot < MAX_FILES && HasFile(v, slot)
  {
    exists k :: 0 <= k < Span(Size(v[Inode(v, slot)])) && Pointer(v[Inode(v, slot)], k) == p
  }

  /** Data blocks are owned, in the data area, and are not the inode block. */
  lemma DataBlocks(v: Volume, slot: nat, p: int)
    requires Sized(v) && Disjoint(v) && slot < MAX_FILES && HasFile(v, slot) && IsData(v, slot, p)
    ensures p in Blocks(v, slot) && InData(v, p) && p != Inode(v, slot)
  {
    var k :| 0 <= k < Span(Size(v[Inode(v, slot)])) && Pointer(v[Inode(v, slot)], k) == p;
    assert Blocks(v, slot)[k + 1] == p;
    assert Blocks(v, slot)[0] == Inode(v, slot);
  }

  /** Only data blocks of the written file change. */
  lemma WrittenElsewhere(v: Volume, w: Volume, slot: nat, data: Bytes, offset: nat, p: nat)
    requires Sized(v) && Disjoint(v) && |w| == |v| && Written(v, w, slot, data, offset) && p < |v|
    requires p < SYSTEM_BLOCKS || p == Inode(v, slot) || p !in Blocks(v, slot)
    ensures w[p] == v[p]
  {
    if IsData(v, slot, p) { DataBlocks(v, slot, p); }
  }

  /** `w` is `v` with `data` laid over the file of entry `slot` from `offset`. */
  ghost predicate Written(v: Volume, w: Volume, slot: nat, data: Bytes, offset: nat)
    requires Sized(v) && |w| == |v|
  {
    && slot < MAX_FILES && HasFile(v, slot)
    && offset + |data| <= Size(v[Inode(v, slot)])
    && (forall k :: 0 <= k < Span(Size(v[Inode(v, slot)])) ==>
          w[Pointer(v[Inode(v, slot)], k)] == Overlay(v[Pointer(v[Inode(v, slot)], k)], k, data, offset))
    && (forall p :: 0 <= p < |v| && !IsData(v, slot, p) ==> w[p] == v[p])
  }

  lemma WrittenFile(v: Volume, w: Volume, slot: nat, data: Bytes, offset: nat)
    requires Sized(v) && Disjoint(v) && |w| == |v| && Written(v, w, slot, data, offset)
    ensures HasFile(w, slot) && Inode(w, slot) == Inode(v, slot) && Blocks(w, slot) == Blocks(v, slot)
    ensures Content(w, Inode(w, slot)) == Splice(Content(v, Inode(v, slot)), offset, data)
  {
    var n := Inode(v, slot);
    WrittenElsewhere(v, w, slot, data, offset, n);
    WrittenElsewhere(v, w, slot, data, offset, DIRECTORY_BLOCK);
    assert Owned(w, n) == Owned(v, n);
    WrittenContent(v, w, n, data, offset);
  }

  lemma WrittenContent(v: Volume, w: Volume, n: int, data: Bytes, offset: nat)
    requires InodeOk(v, n) && |w| == |v| && InodeOk(w, n) && w[n] == v[n]
    requires offset + |data| <= Size(v[n])
    requires forall k :: 0 <= k < Span(Size(v[n])) ==>
               w[Pointer(v[n], k)] == Overlay(v[Pointer(v[n], k)], k, data, offset)
    ensures Content(w, n) == Splice(Content(v, n), offset, data)
  {
    var c, d := Content(v, n), Splice(Content(v, n), offset, data);
    forall x | 0 <= x < |c| ensures Content(w, n)[x] == d[x] {
      var k := x / BLOCK_SIZE;
      assert k < Span(Size(v[n]));
      assert BLOCK_SIZE * k + x % BLOCK_SIZE == x;
      var old_ := v[Pointer(v[n], k)];
      assert Overlay(old_, k, data, offset)[x % BLOCK_SIZE]
          == if offset <= x < offset + |data| then data[x - offset] else old_[x % BLOCK_SIZE];
    }
  }

  lemma UnwrittenFile(v: Volume, w: Volume, slot: nat, data: Bytes, offset: nat, i: nat)
    requires Readable(v) && Disjoint(v) && |w| == |v| && Written(v, w, slot, data, offset)
    requires i < MAX_FILES && i != slot
    ensures HasFile(w, i) <==> HasFile(v, i)
    ensures HasFile(v, i) ==> Inode(w, i) == Inode(v, i) && Blocks(w, i) == Blocks(v, i)
                              && Content(w, Inode(w, i)) == Content(v, Inode(v, i))
  {
    WrittenElsewhere(v, w, slot, data, offset, DIRECTORY_BLOCK);
    if HasFile(v, i) {
      forall p | p in Blocks(v, i) ensures w[p] == v[p] {
        OnlyOwner(v, i, slot, p);
        WrittenElsewhere(v, w, slot, data, offset, p);
      }
      KeepsFile(v, w, i);
    }
  }

  lemma WrittenWellFormed(v: Volume, w: Volume, slot: nat, data: Bytes, offset: nat)
    requires WellFormed(v) && |w| == |v| && Written(v, w, slot, data, offset)
    ensures WellFormed(w)
  {
    WrittenElsewhere(v, w, slot, data, offset, DIRECTORY_BLOCK);
    WrittenElsewhere(v, w, slot, data, offset, ALLOCATION_BLOCK);
    forall i | 0 <= i < MAX_FILES
      ensures HasFile(w, i) <==> HasFile(v, i)
      ensures HasFile(v, i) ==> Blocks(w, i) == Blocks(v, i)
    {
      if i == slot { WrittenFile(v, w, slot, data, offset); }
      else { UnwrittenFile(v, w, slot, data, offset, i); }
    }
    assert forall p: nat :: Taken(w, p) <==> Taken(v, p);
  }

  lemma WrittenLists(v: Volume, w: Volume, slot: nat, data: Bytes, offset: nat, m: Files, i: nat)
    requires Readable(v) && Disjoint(v) && |w| == |v| && Written(v, w, slot, data, offset)
    requires i < MAX_FILES && HasFile(w, i)
    requires var name := EntryName(v[DIRECTORY_BLOCK], slot);
             name in Abs(v) && offset + |data| <= |Abs(v)[name]|
             && m == Abs(v)[name := Splice(Abs(v)[name], offset, data)]
    ensures Lists(m, w, i)
  {
    hide DirectoryOk, InodeOk, Content, Owned, CStr, Names, Blocks;
    WrittenElsewhere(v, w, slot, data, offset, DIRECTORY_BLOCK);
    if i == slot {
      WrittenFile(v, w, slot, data, offset);
      AbsAt(v, slot);
    } else {
      UnwrittenFile(v, w, slot, data, offset, i);
      AbsAt(v, i);
      NamesDiffer(v, i, slot);
      ListsMoves(Abs(v), v, w, i, m);
    }
  }

  lemma WrittenName(v: Volume, w: Volume, slot: nat, data: Bytes, offset: nat)
    requires Readable(v) && |w| == |v| && Written(v, w, slot, data, offset)
    ensures var name := EntryName(v[DIRECTORY_BLOCK], slot);
            name in Abs(v) && offset + |data| <= |Abs(v)[name]|
  {
    AbsAt(v, slot);
  }

  lemma WrittenAbs(v: Volume, w: Volume, slot: nat, data: Bytes, offset: nat)
    requires Readable(v) && Disjoint(v) && Readable(w) && |w| == |v| && Written(v, w, slot, data, offset)
    ensures var name := EntryName(v[DIRECTORY_BLOCK], slot);
            name in Abs(v) && offset + |data| <= |Abs(v)[name]|
            && Abs(w) == Abs(v)[name := Splice(Abs(v)[name], offset, data)]
  {
    hide DirectoryOk, InodeOk, Content, Owned, CStr, Names, Blocks, Lists;
    var name := EntryName(v[DIRECTORY_BLOCK], slot);
    WrittenName(v, w, slot, data, offset);
    var m := Abs(v)[name := Splice(Abs(v)[name], offset, data)];
    forall i | 0 <= i < MAX_FILES && HasFile(w, i) ensures Lists(m, w, i) {
      WrittenLists(v, w, slot, data, offset, m, i);
    }
    forall nm | nm in m ensures nm in Names(w) {
      WrittenNames(v, w, slot, data, offset, nm);
    }
    AbsUnique(w, m);
  }

  lemma WrittenNames(v: Volume, w: Volume, slot: nat, data: Bytes, offset: nat, name: Bytes)
    requires Readable(v) && Disjoint(v) && |w| == |v| && Written(v, w, slot, data, offset) && name in Names(v)
    ensures name in Names(w)
  {
    var i := EntryOf(v, name);
    WrittenElsewhere(v, w, slot, data, offset, DIRECTORY_BLOCK);
    if i == slot { WrittenFile(v, w, slot, data, offset); }
    else { UnwrittenFile(v, w, slot, data, offset, i); }
    assert EntryName(w[DIRECTORY_BLOCK], i) == name;
  }

  // ----- from the plan to the overlay -----

  /** A block outside the slice is overlaid by nothing. */
  lemma OverlayMisses(old_: Block, k: nat, data: Bytes, offset: nat)
    requires |data| > 0 && (k < First(offset) || k > Last(offset, |data|))
    ensures Overlay(old_, k, data, offset) == old_
  {
  }

  lemma PointersDistinct(v: Volume, slot: nat, j: nat, k: nat)
    requires Sized(v) && Disjoint(v) && slot < MAX_FILES && HasFile(v, slot)
    requires j < Span(Size(v[Inode(v, slot)])) && k < Span(Size(v[Inode(v, slot)])) && j != k
    ensures Pointer(v[Inode(v, slot)], j) != Pointer(v[Inode(v, slot)], k)
  {
    var o := Blocks(v, slot);
    assert o[j + 1] == Pointer(v[Inode(v, slot)], j) && o[k + 1] == Pointer(v[Inode(v, slot)], k);
  }

  /** The overlay writes go to data blocks of the file, each once. */
  lemma OverlayTargets(v: Volume, slot: nat, data: Bytes, offset: nat, count: nat, t: nat)
    requires Sized(v) && Disjoint(v) && slot < MAX_FILES && HasFile(v, slot)
    requires t < count && First(offset) + count <= Span(Size(v[Inode(v, slot)]))
    ensures var n := Inode(v, slot); var ws := OverlayWrites(v, n, data, offset, count);
            && ws[t].block < |v| && IsData(v, slot, ws[t].block)
            && forall k :: 0 <= k < Span(Size(v[n])) && k != First(offset) + t ==> ws[t].block != Pointer(v[n], k)
  {
    hide Content, Owned, Overlay, Blocks, Disjoint;
    var n := Inode(v, slot);
    var j := First(offset) + t;
    assert InData(v, Pointer(v[n], j));
    forall k | 0 <= k < Span(Size(v[n])) && k != j ensures Pointer(v[n], j) != Pointer(v[n], k) {
      PointersDistinct(v, slot, j, k);
    }
  }

  ghost predicate WritesBelow(v: Volume, slot: nat, ws: seq<Write>)
    requires Sized(v) && slot < MAX_FILES && HasFile(v, slot)
  {
    forall t :: 0 <= t < |ws| ==> ws[t].block < |v| && IsData(v, slot, ws[t].block)
  }

  lemma OverlayPrefix(v: Volume, slot: nat, data: Bytes, offset: nat, count: nat, m: nat)
    requires Sized(v) && Disjoint(v) && slot < MAX_FILES && HasFile(v, slot)
    requires m <= count && First(offset) + count <= Span(Size(v[Inode(v, slot)]))
    ensures WritesBelow(v, slot, OverlayWrites(v, Inode(v, slot), data, offset, count)[..m])
  {
    hide Content, Owned, Overlay, Blocks, Disjoint, InodeOk;
    var ws := OverlayWrites(v, Inode(v, slot), data, offset, count);
    forall t | 0 <= t < m ensures ws[..m][t].block < |v| && IsData(v, slot, ws[..m][t].block) {
      OverlayTargets(v, slot, data, offset, count, t);
    }
  }

  /** Writes to data blocks leave every other block alone. */
  lemma DataWritesElsewhere(v: Volume, slot: nat, ws: seq<Write>, p: nat)
    requires Sized(v) && slot < MAX_FILES && HasFile(v, slot) && WritesBelow(v, slot, ws)
    requires p < |v| && !IsData(v, slot, p)
    ensures InVolume(v, ws) && Apply(v, ws)[p] == v[p]
  {
    ApplyElsewhere(v, ws, p);
  }

  /** After all writes, a data block the slice touches is overlaid. */
  lemma OverlayTouched(v: Volume, slot: nat, data: Bytes, offset: nat, count: nat, t: nat)
    requires Sized(v) && Disjoint(v) && slot < MAX_FILES && HasFile(v, slot)
    requires First(offset) + count <= Span(Size(v[Inode(v, slot)])) && t < count
    ensures var n := Inode(v, slot); var ws := OverlayWrites(v, n, data, offset, count);
            InVolume(v, ws) && ws[t].block < |v| && Apply(v, ws)[ws[t].block] == ws[t].data
  {
    hide Content, Owned, Overlay, Blocks, Disjoint, IsData, GetWord, Apply, InodeOk, Pointer;
    OtherTargets(v, slot, data, offset, count, First(offset) + t);
    ApplyAt(v, OverlayWrites(v, Inode(v, slot), data, offset, count), t);
  }

  /** Any other data block keeps its bytes. */
  lemma OverlayUntouched(v: Volume, slot: nat, data: Bytes, offset: nat, count: nat, k: nat)
    requires Sized(v) && Disjoint(v) && slot < MAX_FILES && HasFile(v, slot)
    requires First(offset) + count <= Span(Size(v[Inode(v, slot)]))
    requires k < Span(Size(v[Inode(v, slot)])) && (k < First(offset) || k >= First(offset) + count)
    ensures var n := Inode(v, slot); var ws := OverlayWrites(v, n, data, offset, count);
            InVolume(v, ws) && Pointer(v[n], k) < |v| && Apply(v, ws)[Pointer(v[n], k)] == v[Pointer(v[n], k)]
  {
    hide Content, Owned, Overlay, Blocks, Disjoint, IsData, GetWord, Apply;
    var n := Inode(v, slot);
    assert InData(v, Pointer(v[n], k));
    OtherTargets(v, slot, data, offset, count, k);
    ApplyElsewhere(v, OverlayWrites(v, n, data, offset, count), Pointer(v[n], k));
  }

  /** Only the write meant for data block `k` goes there. */
  lemma OtherTargets(v: Volume, slot: nat, data: Bytes, offset: nat, count: nat, k: nat)
    requires Sized(v) && Disjoint(v) && slot < MAX_FILES && HasFile(v, slot)
    requires First(offset) + count <= Span(Size(v[Inode(v, slot)]))
    requires k < Span(Size(v[Inode(v, slot)]))
    ensures var n := Inode(v, slot); var ws := OverlayWrites(v, n, data, offset, count);
            InVolume(v, ws) && forall t :: 0 <= t < count && First(offset) + t != k ==> ws[t].block != Pointer(v[n], k)
  {
    hide Content, Owned, Overlay, Blocks, Disjoint, IsData;
    forall t | 0 <= t < count
      ensures OverlayWrites(v, Inode(v, slot), data, offset, count)[t].block < |v|
      ensures First(offset) + t != k ==>
                OverlayWrites(v, Inode(v, slot), data, offset, count)[t].block != Pointer(v[Inode(v, slot)], k)
    {
      OverlayTargets(v, slot, data, offset, count, t);
    }
  }

  lemma WriteWrites(v: Volume, slot: nat, data: Bytes, offset: nat)
    requires Sized(v) && Disjoint(v) && slot < MAX_FILES && HasFile(v, slot)
    requires |data| > 0 && offset + |data| <= Size(v[Inode(v, slot)])
    ensures var n := Inode(v, slot); var count := Last(offset, |data|) - First(offset) + 1;
            First(offset) + count <= Span(Size(v[n])) &&
            var ws := OverlayWrites(v, n, data, offset, count);
            InVolume(v, ws) && Written(v, Apply(v, ws), slot, data, offset)
  {
    hide Content, Owned, Overlay, Blocks, Disjoint, GetWord, Apply, IsData;
    var n := Inode(v, slot);
    ClipSpan(Size(v[n]), |data|, offset);
    var count := Last(offset, |data|) - First(offset) + 1;
    var ws := OverlayWrites(v, n, data, offset, count);
    OverlayPrefix(v, slot, data, offset, count, count);
    assert ws[..count] == ws;
    forall k | 0 <= k < Span(Size(v[n]))
      ensures Pointer(v[n], k) < |v|
      ensures Apply(v, ws)[Pointer(v[n], k)] == Overlay(v[Pointer(v[n], k)], k, data, offset)
    {
      assert InData(v, Pointer(v[n], k));
      if k < First(offset) || k > Last(offset, |data|) {
        OverlayUntouched(v, slot, data, offset, count, k);
        OverlayMisses(v[Pointer(v[n], k)], k, data, offset);
      } else {
        OverlayTouched(v, slot, data, offset, count, k - First(offset));
      }
    }
    forall p | 0 <= p < |v| && !IsData(v, slot, p) ensures Apply(v, ws)[p] == v[p] {
      DataWritesElsewhere(v, slot, ws, p);
    }
  }

  /** The map after `data` is laid over the file of entry `slot`. */
  ghost predicate EntryWritten(v: Volume, w: Volume, slot: nat, data: Bytes, offset: nat)
    requires WellFormed(v) && slot < MAX_FILES && HasFile(v, slot)
  {
    var name := EntryName(v[DIRECTORY_BLOCK], slot);
    && WellFormed(w) && name in Abs(v) && offset + |data| <= |Abs(v)[name]|
    && Abs(w) == Abs(v)[name := Splice(Abs(v)[name], offset, data)]
  }

  lemma WriteEntry(v: Volume, slot: nat, data: Bytes, offset: nat)
    requires WellFormed(v) && slot < MAX_FILES && HasFile(v, slot)
    requires |data| > 0 && offset + |data| <= Size(v[Inode(v, slot)])
    ensures var n := Inode(v, slot); var count := Last(offset, |data|) - First(offset) + 1;
            First(offset) + count <= Span(Size(v[n])) &&
            var ws := OverlayWrites(v, n, data, offset, count);
            InVolume(v, ws) && EntryWritten(v, Apply(v, ws), slot, data, offset)
  {
    hide DirectoryOk, InodeOk, Owned, CStr, Names, Blocks, Disjoint, BitmapExact, Written, Content;
    WriteWrites(v, slot, data, offset);
    var count := Last(offset, |data|) - First(offset) + 1;
    var w := Apply(v, OverlayWrites(v, Inode(v, slot), data, offset, count));
    WrittenWellFormed(v, w, slot, data, offset);
    WrittenAbs(v, w, slot, data, offset);
  }

  /** tfs_write on an open file lays the clipped slice over that file and changes no other file. */
  lemma WriteRefines(v: Volume, slot: nat, data: Bytes, offset: int)
    requires WellFormed(v) && slot < MAX_FILES && HasFile(v, slot)
    ensures var name := EntryName(v[DIRECTORY_BLOCK], slot);
            name in Abs(v) &&
            var plan := WritePlan(v, Inode(v, slot), data, offset);
            && plan.status == Clip(|Abs(v)[name]|, |data|, offset)
            && InVolume(v, plan.writes)
            && WellFormed(Apply(v, plan.writes))
            && Abs(Apply(v, plan.writes))
               == if plan.status <= 0 then Abs(v)
                  else Abs(v)[name := Splice(Abs(v)[name], offset, data[..plan.status])]
  {
    hide DirectoryOk, Owned, CStr, Names, Blocks, Disjoint, BitmapExact, OverlayWrites;
    AbsAt(v, slot);
    var len := Clip(Size(v[Inode(v, slot)]), |data|, offset);
    if len > 0 {
      WriteEntry(v, slot, data[..len], offset);
    }
  }
}
