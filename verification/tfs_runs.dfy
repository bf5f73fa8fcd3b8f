/** Whole runs of TFS calls against the file map, and what an interrupted call leaves behind. */
module TfsRuns {
  import opened Words
  import opened Bitmap
  import opened Libc
  import opened TfsLayout
  import opened TfsPlans
  import opened TfsCreate
  import opened TfsRemove
  import opened TfsWrite
  import opened TfsSpace

  // ----- calls -----

  /** Calls by file name; reading and writing go through tfs_open. File names are C strings. */
  datatype Call =
    | Create(filename: Bytes, size: int)
    | Remove(filename: Bytes)
    | WriteTo(filename: Bytes, data: Bytes, offset: int)
    | ReadFrom(filename: Bytes, len: nat, offset: int)

  datatype Reply = Reply(status: int, data: Bytes)

  predicate ValidCall(c: Call) {
    && 0 in c.filename && FileName(CStr(c.filename))
    && (c.Create? ==> 0 <= c.size < 0x8000_0000)
  }

  /** The bytes tfs_read hands to its caller. */
  ghost function ReadSlice(v: Volume, n: int, len: nat, offset: int): Reply
    requires InodeOk(v, n)
  {
    var got := Clip(Size(v[n]), len, offset);
    Reply(got, if got <= 0 then [] else Content(v, n)[offset..offset + got])
  }

  ghost function ExecCreate(v: Volume, filename: Bytes, size: int): (r: (Volume, Reply))
    requires WellFormed(v) && ValidCall(Create(filename, size))
    ensures WellFormed(r.0) && |r.0| == |v|
  {
    var plan := CreatePlan(v, filename, size);
    CreateRefines(v, filename, size);
    (Apply(v, plan.writes), Reply(plan.status, []))
  }

  ghost function ExecRemove(v: Volume, filename: Bytes): (r: (Volume, Reply))
    requires WellFormed(v) && ValidCall(Remove(filename))
    ensures WellFormed(r.0) && |r.0| == |v|
  {
    var plan := RemovePlan(v, filename);
    RemoveRefines(v, filename);
    (Apply(v, plan.writes), Reply(plan.status, []))
  }

  ghost function ExecWrite(v: Volume, filename: Bytes, data: Bytes, offset: int): (r: (Volume, Reply))
    requires WellFormed(v) && ValidCall(WriteTo(filename, data, offset))
    ensures WellFormed(r.0) && |r.0| == |v|
  {
    FindIsLookup(v, CStr(filename));
    var slot := Find(v[DIRECTORY_BLOCK], CStr(filename), 0);
    if slot < 0 then (v, Reply(VFS_NOT_FOUND, []))
    else
      var plan := WritePlan(v, Inode(v, slot), data, offset);
      WriteRefines(v, slot, data, offset);
      (Apply(v, plan.writes), Reply(plan.status, []))
  }

  ghost function ExecRead(v: Volume, filename: Bytes, len: nat, offset: int): Reply
    requires WellFormed(v) && ValidCall(ReadFrom(filename, len, offset))
  {
    FindIsLookup(v, CStr(filename));
    var slot := Find(v[DIRECTORY_BLOCK], CStr(filename), 0);
    if slot < 0 then Reply(VFS_NOT_FOUND, []) else ReadSlice(v, Inode(v, slot), len, offset)
  }

  /** One call on the disk. */
  ghost function Exec(v: Volume, c: Call): (r: (Volume, Reply))
    requires WellFormed(v) && ValidCall(c)
    ensures WellFormed(r.0) && |r.0| == |v|
  {
    match c
    case Create(filename, size) => ExecCreate(v, filename, size)
    case Remove(filename) => ExecRemove(v, filename)
    case WriteTo(filename, data, offset) => ExecWrite(v, filename, data, offset)
    case ReadFrom(filename, len, offset) => (v, ExecRead(v, filename, len, offset))
  }

  // ----- the same calls on a map from names to byte strings -----

  /** Creating in a map that may occupy `total` blocks. */
  ghost function SpecCreate(total: nat, m: Files, name: Bytes, size: int): (Files, Reply) {
    if 0 <= size <= BLOCK_SIZE * BLOCKS_MAX && name !in m && |m| < MAX_FILES
       && SYSTEM_BLOCKS + Usage(m) + 1 + Span(size) <= total
    then (m[name := Zeros(size)], Reply(VFS_OK, []))
    else (m, Reply(VFS_ERROR, []))
  }

  ghost function SpecRemove(m: Files, name: Bytes): (Files, Reply) {
    if name in m then (m - {name}, Reply(VFS_OK, [])) else (m, Reply(VFS_NOT_FOUND, []))
  }

  ghost function SpecWrite(m: Files, name: Bytes, data: Bytes, offset: int): (Files, Reply) {
    if name !in m then (m, Reply(VFS_NOT_FOUND, []))
    else
      var put := Clip(|m[name]|, |data|, offset);
      (if put <= 0 then m else m[name := Splice(m[name], offset, data[..put])], Reply(put, []))
  }

  ghost function SpecRead(m: Files, name: Bytes, len: nat, offset: int): Reply {
    if name !in m then Reply(VFS_NOT_FOUND, [])
    else
      var got := Clip(|m[name]|, len, offset);
      Reply(got, if got <= 0 then [] else m[name][offset..offset + got])
  }

  ghost function Spec(total: nat, m: Files, c: Call): (Files, Reply) {
    var name := CStr(c.filename);
    match c
    case Create(_, size) => SpecCreate(total, m, name, size)
    case Remove(_) => SpecRemove(m, name)
    case WriteTo(_, data, offset) => SpecWrite(m, name, data, offset)
    case ReadFrom(_, len, offset) => (m, SpecRead(m, name, len, offset))
  }

  /** Creating goes through exactly when the size is at most 127 blocks, the name new, a directory entry of the 25 and the
      blocks free; the new file reads as zeros, and no other file changes. */
  lemma CreateInPlain(total: nat, m: Files, name: Bytes, size: int)
    ensures var (w, reply) := SpecCreate(total, m, name, size);
            if 0 <= size <= 65024 && name !in m && |m| < 25 && 3 + Usage(m) + 1 + (size + 511) / 512 <= total then
              && reply == Reply(VFS_OK, []) && name in w && |w[name]| == size
              && (forall i :: 0 <= i < size ==> w[name][i] == 0) && SameElsewhere(m, w, name)
            else reply == Reply(VFS_ERROR, []) && w == m
  {
  }

  /** Removing takes the named file away, and no other file changes. */
  lemma RemoveInPlain(m: Files, name: Bytes)
    ensures var (w, reply) := SpecRemove(m, name);
            if name in m then reply == Reply(VFS_OK, []) && name !in w && SameElsewhere(m, w, name)
            else reply == Reply(VFS_NOT_FOUND, []) && w == m
  {
  }

  ghost predicate SameElsewhere(m: Files, w: Files, name: Bytes) {
    forall other :: other != name ==> (other in w <==> other in m) && (other in m ==> w[other] == m[other])
  }

  /** A read returns as many bytes as were asked for, or all that are left of the file. */
  lemma ReadInPlain(m: Files, name: Bytes, len: nat, offset: int)
    requires name in m
    ensures var c := m[name]; var reply := SpecRead(m, name, len, offset);
            && (offset < 0 || offset > |c| ==> reply == Reply(VFS_ERROR, []))
            && (0 <= offset && offset + len <= |c| ==> reply == Reply(len, c[offset..offset + len]))
            && (0 <= offset <= |c| < offset + len ==> reply == Reply(|c| - offset, c[offset..]))
  {
  }

  /** A write lays as many bytes as were given over the file, or as many as there is room for; the file keeps its size. */
  lemma WriteInPlain(m: Files, name: Bytes, data: Bytes, offset: int)
    requires name in m
    ensures var c := m[name]; var (w, reply) := SpecWrite(m, name, data, offset);
            && (offset < 0 || offset > |c| ==> w == m && reply == Reply(VFS_ERROR, []))
            && (0 <= offset && offset + |data| <= |c| ==>
                  reply == Reply(|data|, []) && w == m[name := c[..offset] + data + c[offset + |data|..]])
            && (0 <= offset <= |c| < offset + |data| ==>
                  reply == Reply(|c| - offset, []) && w == m[name := c[..offset] + data[..|c| - offset]])
  {
    var c := m[name];
    if 0 <= offset && offset + |data| <= |c| && data == [] {
      assert c[..offset] + data + c[offset + |data|..] == c && m[name := c] == m;
    } else if 0 <= offset && offset + |data| <= |c| {
      assert data[..|data|] == data;
    } else if 0 <= offset <= |c| {
      var put := data[..|c| - offset];
      assert c[..offset] + put + c[|c|..] == c[..offset] + put;
      if offset == |c| { assert c[..offset] + put == c && m[name := c] == m; }
    }
  }

  // ----- refinement -----

  lemma ApplyNothing(v: Volume)
    ensures InVolume(v, []) && Apply(v, []) == v
  {
  }

  lemma CreateMatches(v: Volume, filename: Bytes, size: int)
    requires WellFormed(v) && ValidCall(Create(filename, size))
    ensures var (w, reply) := ExecCreate(v, filename, size);
            (Abs(w), reply) == SpecCreate(|v|, Abs(v), CStr(filename), size)
  {
    hide WellFormed, Abs, Apply, Creatable, Usage, CStr, Find, CreateWrites, Allocated, InVolume;
    CreateRefines(v, filename, size);
    CreatableIff(v, filename, size);
    ApplyNothing(v);
  }

  lemma RemoveMatches(v: Volume, filename: Bytes)
    requires WellFormed(v) && ValidCall(Remove(filename))
    ensures var (w, reply) := ExecRemove(v, filename);
            (Abs(w), reply) == SpecRemove(Abs(v), CStr(filename))
  {
    hide WellFormed, Abs, Apply, CStr, Find, RemoveWrites, InVolume;
    RemoveRefines(v, filename);
    ApplyNothing(v);
  }

  lemma WriteMatches(v: Volume, filename: Bytes, data: Bytes, offset: int)
    requires WellFormed(v) && ValidCall(WriteTo(filename, data, offset))
    ensures var (w, reply) := ExecWrite(v, filename, data, offset);
            (Abs(w), reply) == SpecWrite(Abs(v), CStr(filename), data, offset)
  {
    hide DirectoryOk, Disjoint, BitmapExact, Abs, Apply, CStr, Find, OverlayWrites, InVolume;
    FindIsLookup(v, CStr(filename));
    var slot := Find(v[DIRECTORY_BLOCK], CStr(filename), 0);
    if slot >= 0 { WriteRefines(v, slot, data, offset); }
  }

  lemma ReadMatches(v: Volume, filename: Bytes, len: nat, offset: int)
    requires WellFormed(v) && ValidCall(ReadFrom(filename, len, offset))
    ensures ExecRead(v, filename, len, offset) == SpecRead(Abs(v), CStr(filename), len, offset)
  {
    hide DirectoryOk, Disjoint, BitmapExact, Abs, CStr, Find;
    FindIsLookup(v, CStr(filename));
  }

  /** Each call does to the disk what it does to the map, with the same reply. */
  lemma ExecRefines(v: Volume, c: Call)
    requires WellFormed(v) && ValidCall(c)
    ensures (Abs(Exec(v, c).0), Exec(v, c).1) == Spec(|v|, Abs(v), c)
  {
    hide WellFormed, Abs, CStr, ExecCreate, ExecRemove, ExecWrite, ExecRead,
         SpecCreate, SpecRemove, SpecWrite, SpecRead;
    match c
    case Create(filename, size) => CreateMatches(v, filename, size);
    case Remove(filename) => RemoveMatches(v, filename);
    case WriteTo(filename, data, offset) => WriteMatches(v, filename, data, offset);
    case ReadFrom(filename, len, offset) => ReadMatches(v, filename, len, offset);
  }

  ghost function Run(v: Volume, calls: seq<Call>): (r: (Volume, seq<Reply>))
    requires WellFormed(v) && forall k :: 0 <= k < |calls| ==> ValidCall(calls[k])
    ensures WellFormed(r.0) && |r.0| == |v|
    decreases |calls|
  {
    if calls == [] then (v, [])
    else
      var (v1, replies) := Run(v, calls[..|calls| - 1]);
      var (v2, reply) := Exec(v1, calls[|calls| - 1]);
      (v2, replies + [reply])
  }

  ghost function SpecRun(total: nat, m: Files, calls: seq<Call>): (Files, seq<Reply>)
    decreases |calls|
  {
    if calls == [] then (m, [])
    else
      var (m1, replies) := SpecRun(total, m, calls[..|calls| - 1]);
      var (m2, reply) := Spec(total, m1, calls[|calls| - 1]);
      (m2, replies + [reply])
  }

  /** Over any sequence of calls without I/O errors TFS is a map from names to byte strings. */
  lemma {:induction false} RunRefines(v: Volume, calls: seq<Call>)
    requires WellFormed(v) && forall k :: 0 <= k < |calls| ==> ValidCall(calls[k])
    ensures (Abs(Run(v, calls).0), Run(v, calls).1) == SpecRun(|v|, Abs(v), calls)
    decreases |calls|
  {
    hide WellFormed, Exec, Spec, Abs;
    if calls != [] {
      RunRefines(v, calls[..|calls| - 1]);
      ExecRefines(Run(v, calls[..|calls| - 1]).0, calls[|calls| - 1]);
    }
  }

  // ----- interrupted calls -----

  /** The file of entry `i` has its inode, its bytes and its allocation bits in `w` as in `v`. */
  ghost predicate Intact(v: Volume, w: Volume, i: nat)
    requires Sized(v) && |w| == |v| && i < MAX_FILES && HasFile(v, i)
  {
    && HasFile(w, i) && Inode(w, i) == Inode(v, i)
    && EntryName(w[DIRECTORY_BLOCK], i) == EntryName(v[DIRECTORY_BLOCK], i)
    && Blocks(w, i) == Blocks(v, i)
    && Content(w, Inode(w, i)) == Content(v, Inode(v, i))
    && forall p :: p in Blocks(v, i) ==> Bit(w[ALLOCATION_BLOCK], p)
  }

  /** Enough for a file to be intact: its entry, its blocks and its bits are. */
  lemma IntactFrom(v: Volume, w: Volume, i: nat)
    requires Sized(v) && |w| == |v| && i < MAX_FILES && HasFile(v, i)
    requires EntryInode(w[DIRECTORY_BLOCK], i) == EntryInode(v[DIRECTORY_BLOCK], i)
    requires NameField(w[DIRECTORY_BLOCK], i) == NameField(v[DIRECTORY_BLOCK], i)
    requires forall p :: p in Blocks(v, i) ==> w[p] == v[p] && Bit(w[ALLOCATION_BLOCK], p)
    ensures Intact(v, w, i)
  {
    hide Bit, InodeOk, Content, Owned;
    KeepsFile(v, w, i);
  }

  /** What the first `m` create writes make of the system blocks. */
  lemma CreatePrefixSystem(v: Volume, slot: nat, filename: Bytes, size: Word, bitmap: Block, found: seq<nat>, m: nat)
    requires Sized(v) && slot < MAX_FILES && 0 in filename && Fresh(v, found) && m <= 2 + |found|
    ensures var d := v[DIRECTORY_BLOCK]; var ws := CreateWrites(d, slot, filename, size, bitmap, found)[..m];
            && InVolume(v, ws)
            && Apply(v, ws)[ALLOCATION_BLOCK] == (if m > 0 then bitmap else v[ALLOCATION_BLOCK])
            && Apply(v, ws)[DIRECTORY_BLOCK] == if m > 1 then Enter(d, slot, filename, found[0]) else d
  {
    hide Enter, Apply;
    var all := CreateWrites(v[DIRECTORY_BLOCK], slot, filename, size, bitmap, found);
    var ws := all[..m];
    CreateTargets(v, slot, filename, size, bitmap, found);
    assert forall k :: 0 <= k < m ==> ws[k] == all[k];
    if m > 0 { ApplyAt(v, ws, 0); } else { ApplyElsewhere(v, ws, ALLOCATION_BLOCK); }
    if m > 1 { ApplyAt(v, ws, 1); } else { ApplyElsewhere(v, ws, DIRECTORY_BLOCK); }
  }

  lemma CreatePrefixIntact(v: Volume, slot: nat, filename: Bytes, size: Word, bitmap: Block, found: seq<nat>, m: nat, i: nat)
    requires WellFormed(v) && slot < MAX_FILES && !InUse(v[DIRECTORY_BLOCK], slot) && 0 in filename
    requires Fresh(v, found) && m <= 2 + |found| && Found(v[ALLOCATION_BLOCK], |v|, bitmap, found)
    requires forall k :: 0 <= k < |found| ==> !Taken(v, found[k])
    requires i < MAX_FILES && HasFile(v, i)
    ensures var ws := CreateWrites(v[DIRECTORY_BLOCK], slot, filename, size, bitmap, found)[..m];
            InVolume(v, ws) && Intact(v, Apply(v, ws), i)
  {
    hide Bit, InodeOk, Content, Owned, Enter, Apply, DirectoryOk, Disjoint, CreateWrites, GetWord, CStr, NameField,
         Intact, Blocks, Pointer;
    var ws := CreateWrites(v[DIRECTORY_BLOCK], slot, filename, size, bitmap, found)[..m];
    CreatePrefixSystem(v, slot, filename, size, bitmap, found, m);
    EnterEffect(v[DIRECTORY_BLOCK], slot, filename, found[0], i);
    forall p | p in Blocks(v, i)
      ensures Apply(v, ws)[p] == v[p] && Bit(Apply(v, ws)[ALLOCATION_BLOCK], p)
    {
      assert Taken(v, p) && InData(v, p);
      CreateUntouched(v, slot, filename, size, bitmap, found, m, p);
    }
    IntactFrom(v, Apply(v, ws), i);
  }

  /** After any prefix of the writes of tfs_create, every earlier file is intact. */
  lemma CreatePrefixSafe(v: Volume, filename: Bytes, size: int, m: nat)
    requires WellFormed(v) && 0 in filename && 0 <= size < 0x8000_0000
    requires m <= |CreatePlan(v, filename, size).writes|
    ensures var ws := CreatePlan(v, filename, size).writes[..m];
            InVolume(v, ws) && forall i :: 0 <= i < MAX_FILES && HasFile(v, i) ==> Intact(v, Apply(v, ws), i)
  {
    hide Bit, InodeOk, Content, Owned, Apply, DirectoryOk, Disjoint, Take, Intact, Found;
    var plan := CreatePlan(v, filename, size);
    if plan.writes == [] {
      assert plan.writes[..m] == [];
      ApplyNothing(v);
      forall i | 0 <= i < MAX_FILES && HasFile(v, i) ensures Intact(v, v, i) {
        IntactItself(v, i);
      }
    } else {
      var slot := LastFree(v[DIRECTORY_BLOCK], MAX_FILES);
      var (bitmap, found) := Allocated(v, size);
      TakenAreFresh(v, BlocksNeeded(size) + 1, bitmap, found);
      forall i | 0 <= i < MAX_FILES && HasFile(v, i) ensures Intact(v, Apply(v, plan.writes[..m]), i) {
        CreatePrefixIntact(v, slot, filename, size, bitmap, found, m, i);
      }
      CreatePrefixSystem(v, slot, filename, size, bitmap, found, m);
    }
  }

  lemma IntactItself(v: Volume, i: nat)
    requires WellFormed(v) && i < MAX_FILES && HasFile(v, i)
    ensures Intact(v, v, i)
  {
    hide Bit, InodeOk, Content, Owned, DirectoryOk, Disjoint;
    forall p | p in Blocks(v, i) ensures Bit(v[ALLOCATION_BLOCK], p) {
      assert Taken(v, p);
    }
  }

  lemma RemovePrefixSystem(v: Volume, slot: nat, m: nat)
    requires Sized(v) && slot < MAX_FILES && HasFile(v, slot) && m <= 2
    ensures var ws := RemoveWrites(v, slot)[..m];
            && InVolume(v, ws)
            && Apply(v, ws)[ALLOCATION_BLOCK] == (if m > 0 then FreedBitmap(v, slot) else v[ALLOCATION_BLOCK])
            && Apply(v, ws)[DIRECTORY_BLOCK] == (if m > 1 then Vacate(v[DIRECTORY_BLOCK], slot) else v[DIRECTORY_BLOCK])
            && forall p :: InData(v, p) ==> Apply(v, ws)[p] == v[p]
  {
    hide Vacate, FreedBitmap, Apply;
    var all := RemoveWrites(v, slot);
    var ws := all[..m];
    assert forall k :: 0 <= k < m ==> ws[k] == all[k];
    if m > 0 { ApplyAt(v, ws, 0); } else { ApplyElsewhere(v, ws, ALLOCATION_BLOCK); }
    if m > 1 { ApplyAt(v, ws, 1); } else { ApplyElsewhere(v, ws, DIRECTORY_BLOCK); }
    forall p | InData(v, p) ensures Apply(v, ws)[p] == v[p] {
      ApplyElsewhere(v, ws, p);
    }
  }

  lemma RemoveEntryPrefix(v: Volume, slot: nat, m: nat, i: nat)
    requires WellFormed(v) && slot < MAX_FILES && HasFile(v, slot) && m <= 2
    requires i < MAX_FILES && HasFile(v, i) && i != slot
    ensures var ws := RemoveWrites(v, slot)[..m];
            InVolume(v, ws) && Intact(v, Apply(v, ws), i)
  {
    hide Bit, InodeOk, Content, Owned, Apply, DirectoryOk, Vacate, FreedBitmap;
    var ws := RemoveWrites(v, slot)[..m];
    IntactItself(v, i);
    RemovePrefixSystem(v, slot, m);
    VacateEffect(v[DIRECTORY_BLOCK], slot, i);
    forall p | p in Blocks(v, i)
      ensures Apply(v, ws)[p] == v[p] && Bit(Apply(v, ws)[ALLOCATION_BLOCK], p)
    {
      OnlyOwner(v, i, slot, p);
      FreedBits(v, slot, p);
    }
    IntactFrom(v, Apply(v, ws), i);
  }

  /** After any prefix of the writes of tfs_remove, every file but the victim is intact. */
  lemma RemovePrefixSafe(v: Volume, filename: Bytes, m: nat, i: nat)
    requires WellFormed(v) && 0 in filename && CStr(filename) != []
    requires m <= |RemovePlan(v, filename).writes|
    requires i < MAX_FILES && HasFile(v, i) && EntryName(v[DIRECTORY_BLOCK], i) != CStr(filename)
    ensures var ws := RemovePlan(v, filename).writes[..m];
            InVolume(v, ws) && Intact(v, Apply(v, ws), i)
  {
    hide InodeOk, Content, Owned, DirectoryOk, BitmapExact, Disjoint, Intact, CStr, Apply;
    FindIsLookup(v, CStr(filename));
    var slot := Find(v[DIRECTORY_BLOCK], CStr(filename), 0);
    if slot < 0 {
      assert RemovePlan(v, filename).writes[..m] == [];
      ApplyNothing(v);
      IntactItself(v, i);
    } else {
      RemoveEntryPrefix(v, slot, m, i);
    }
  }

  /** After any prefix of the writes of tfs_write, every other file is intact. */
  lemma WritePrefixSafe(v: Volume, slot: nat, data: Bytes, offset: nat, m: nat, i: nat)
    requires WellFormed(v) && slot < MAX_FILES && HasFile(v, slot)
    requires |data| > 0 && offset + |data| <= Size(v[Inode(v, slot)])
    requires m <= Last(offset, |data|) - First(offset) + 1
    requires i < MAX_FILES && HasFile(v, i) && i != slot
    ensures var count := Last(offset, |data|) - First(offset) + 1;
            First(offset) + count <= Span(Size(v[Inode(v, slot)])) &&
            var ws := OverlayWrites(v, Inode(v, slot), data, offset, count)[..m];
            InVolume(v, ws) && Intact(v, Apply(v, ws), i)
  {
    hide Content, Owned, DirectoryOk, Disjoint, Apply, OverlayWrites, Bit, IsData, Intact;
    ClipSpan(Size(v[Inode(v, slot)]), |data|, offset);
    var count := Last(offset, |data|) - First(offset) + 1;
    var ws := OverlayWrites(v, Inode(v, slot), data, offset, count)[..m];
    OverlayPrefix(v, slot, data, offset, count, m);
    IntactItself(v, i);
    NotData(v, slot, ALLOCATION_BLOCK);
    NotData(v, slot, DIRECTORY_BLOCK);
    DataWritesElsewhere(v, slot, ws, ALLOCATION_BLOCK);
    DataWritesElsewhere(v, slot, ws, DIRECTORY_BLOCK);
    forall p | p in Blocks(v, i) ensures Apply(v, ws)[p] == v[p] {
      OnlyOwner(v, i, slot, p);
      NotData(v, slot, p);
      DataWritesElsewhere(v, slot, ws, p);
    }
    IntactFrom(v, Apply(v, ws), i);
  }

  /** In the file being written, the bytes of the blocks already written are the new ones and all others the old ones. */
  lemma WritePrefixBytes(v: Volume, slot: nat, data: Bytes, offset: nat, m: nat, x: nat)
    requires WellFormed(v) && slot < MAX_FILES && HasFile(v, slot)
    requires |data| > 0 && offset + |data| <= Size(v[Inode(v, slot)])
    requires m <= Last(offset, |data|) - First(offset) + 1
    requires x < Size(v[Inode(v, slot)])
    ensures First(offset) + m <= Span(Size(v[Inode(v, slot)]))
    ensures var ws := OverlayWrites(v, Inode(v, slot), data, offset, m);
            && InVolume(v, ws)
            && HasFile(Apply(v, ws), slot) && Inode(Apply(v, ws), slot) == Inode(v, slot)
            && Size(Apply(v, ws)[Inode(v, slot)]) == Size(v[Inode(v, slot)])
            && Content(Apply(v, ws), Inode(v, slot))[x]
               == if First(offset) <= x / BLOCK_SIZE < First(offset) + m
                  then Splice(Content(v, Inode(v, slot)), offset, data)[x]
                  else Content(v, Inode(v, slot))[x]
  {
    hide Owned, DirectoryOk, Disjoint, Apply, OverlayWrites, Bit, IsData, GetWord, CStr, InodeOk, Content, Pointer,
         Overlay, EntryName;
    var n := Inode(v, slot);
    InodeInData(v, n);
    ClipSpan(Size(v[n]), |data|, offset);
    ByteOf(v, v, n, x);
    var ws := OverlayWrites(v, n, data, offset, m);
    OverlayPrefix(v, slot, data, offset, m, m);
    assert ws[..m] == ws;
    NotData(v, slot, DIRECTORY_BLOCK);
    InodeNotData(v, slot);
    DataWritesElsewhere(v, slot, ws, DIRECTORY_BLOCK);
    DataWritesElsewhere(v, slot, ws, n);
    ByteOf(v, Apply(v, ws), n, x);
    var k := x / BLOCK_SIZE;
    if First(offset) <= k < First(offset) + m {
      OverlayTouched(v, slot, data, offset, m, k - First(offset));
      OverlaidByte(v[Pointer(v[n], k)], data, offset, x);
    } else {
      OverlayUntouched(v, slot, data, offset, m, k);
    }
  }

  lemma OverlaidByte(old_: Block, data: Bytes, offset: nat, x: nat)
    ensures Overlay(old_, x / BLOCK_SIZE, data, offset)[x % BLOCK_SIZE]
         == if offset <= x < offset + |data| then data[x - offset] else old_[x % BLOCK_SIZE]
  {
    assert BLOCK_SIZE * (x / BLOCK_SIZE) + x % BLOCK_SIZE == x;
  }

  /** Where byte `x` of a file lies, also in a volume with the same inode. */
  lemma ByteOf(v: Volume, w: Volume, n: int, x: nat)
    requires InodeOk(v, n) && |w| == |v| && w[n] == v[n] && x < Size(v[n])
    ensures InodeOk(w, n) && x / BLOCK_SIZE < Span(Size(v[n])) <= BLOCKS_MAX
    ensures InData(v, Pointer(v[n], x / BLOCK_SIZE))
    ensures Content(w, n)[x] == w[Pointer(v[n], x / BLOCK_SIZE)][x % BLOCK_SIZE]
  {
  }

  lemma InodeInData(v: Volume, n: int)
    requires InodeOk(v, n)
    ensures InData(v, n) && SizeOk(v[n])
  {
  }

  lemma InodeNotData(v: Volume, slot: nat)
    requires Sized(v) && Disjoint(v) && slot < MAX_FILES && HasFile(v, slot)
    ensures !IsData(v, slot, Inode(v, slot))
  {
    if IsData(v, slot, Inode(v, slot)) { DataBlocks(v, slot, Inode(v, slot)); }
  }

  /** The first `m` writes of a longer write are the writes of the first `m` blocks. */
  lemma OverlayPrefixIs(v: Volume, n: int, data: Bytes, offset: nat, count: nat, m: nat)
    requires InodeOk(v, n) && m <= count && First(offset) + count <= Span(Size(v[n]))
    ensures OverlayWrites(v, n, data, offset, count)[..m] == OverlayWrites(v, n, data, offset, m)
  {
  }

  /** In `w` the file of entry `slot` has its size, the new bytes in the first `m` blocks that the slice touches,
      and the old bytes everywhere else. */
  ghost predicate PartWritten(v: Volume, w: Volume, slot: nat, data: Bytes, offset: nat, m: nat)
    requires Sized(v) && |w| == |v| && slot < MAX_FILES && HasFile(v, slot)
    requires offset + |data| <= Size(v[Inode(v, slot)])
  {
    && HasFile(w, slot) && Inode(w, slot) == Inode(v, slot)
    && Size(w[Inode(v, slot)]) == Size(v[Inode(v, slot)])
    && forall x :: 0 <= x < Size(v[Inode(v, slot)]) ==>
         Content(w, Inode(v, slot))[x]
         == if First(offset) <= x / BLOCK_SIZE < First(offset) + m
            then Splice(Content(v, Inode(v, slot)), offset, data)[x]
            else Content(v, Inode(v, slot))[x]
  }

  /** After any prefix of the writes of tfs_write, so it is. */
  lemma WritePrefixFile(v: Volume, slot: nat, data: Bytes, offset: nat, m: nat)
    requires WellFormed(v) && slot < MAX_FILES && HasFile(v, slot)
    requires |data| > 0 && offset + |data| <= Size(v[Inode(v, slot)])
    requires m <= Last(offset, |data|) - First(offset) + 1
    ensures var count := Last(offset, |data|) - First(offset) + 1;
            First(offset) + count <= Span(Size(v[Inode(v, slot)])) &&
            var ws := OverlayWrites(v, Inode(v, slot), data, offset, count)[..m];
            InVolume(v, ws) && PartWritten(v, Apply(v, ws), slot, data, offset, m)
  {
    hide DirectoryOk, Disjoint, BitmapExact, Apply, OverlayWrites, Content, InodeOk, InVolume, EntryName, GetWord;
    var n := Inode(v, slot);
    InodeInData(v, n);
    ClipSpan(Size(v[n]), |data|, offset);
    OverlayPrefixIs(v, n, data, offset, Last(offset, |data|) - First(offset) + 1, m);
    WritePrefixBytes(v, slot, data, offset, m, 0);
    forall x | 0 <= x < Size(v[n])
      ensures InodeOk(Apply(v, OverlayWrites(v, n, data, offset, m)), n)
      ensures Content(Apply(v, OverlayWrites(v, n, data, offset, m)), n)[x]
           == if First(offset) <= x / BLOCK_SIZE < First(offset) + m
              then Splice(Content(v, n), offset, data)[x] else Content(v, n)[x]
    {
      WritePrefixBytes(v, slot, data, offset, m, x);
    }
  }

  lemma NotData(v: Volume, slot: nat, p: int)
    requires Sized(v) && Disjoint(v) && slot < MAX_FILES && HasFile(v, slot)
    requires p < SYSTEM_BLOCKS || p !in Blocks(v, slot)
    ensures !IsData(v, slot, p)
  {
    if IsData(v, slot, p) { DataBlocks(v, slot, p); }
  }

  // ----- create, then remove -----

  /** Creating a file and removing it again restores the allocation block byte for byte. */
  lemma CreateThenRemove(v: Volume, filename: Bytes, size: int)
    requires WellFormed(v) && ValidCall(Create(filename, size)) && Creatable(v, filename, size)
    ensures var (w, _) := ExecCreate(v, filename, size);
            var (u, reply) := ExecRemove(w, filename);
            reply.status == VFS_OK && u[ALLOCATION_BLOCK] == v[ALLOCATION_BLOCK] && Abs(u) == Abs(v)
  {
    hide DirectoryOk, Disjoint, BitmapExact, CStr, RemoveWrites, Created, Creatable, HasFile, Abs, ExecCreate, ExecRemove;
    var w := ExecCreate(v, filename, size).0;
    var slot, found := CreateOutcome(v, filename, size);
    RemoveOutcome(w, filename, slot);
    RestoredBitmap(v, w, slot, found, CStr(filename), size);
    CreateThenRemoveFiles(v, filename, size);
  }

  lemma CreateThenRemoveFiles(v: Volume, filename: Bytes, size: int)
    requires WellFormed(v) && ValidCall(Create(filename, size)) && Creatable(v, filename, size)
    ensures var (w, _) := ExecCreate(v, filename, size);
            var (u, reply) := ExecRemove(w, filename);
            reply.status == VFS_OK && Abs(u) == Abs(v)
  {
    hide DirectoryOk, Disjoint, BitmapExact, HasFile, CStr, Abs, ExecCreate, ExecRemove, Creatable, Usage, Zeros, Sized;
    CreatableIff(v, filename, size);
    CreateMatches(v, filename, size);
    RemoveMatches(ExecCreate(v, filename, size).0, filename);
    AddThenDrop(Abs(v), CStr(filename), Zeros(size));
  }

  lemma AddThenDrop(m: Files, name: Bytes, content: Bytes)
    requires name !in m
    ensures m[name := content] - {name} == m
  {
  }

  lemma CreateOutcome(v: Volume, filename: Bytes, size: int) returns (slot: nat, found: seq<nat>)
    requires WellFormed(v) && ValidCall(Create(filename, size)) && Creatable(v, filename, size)
    ensures var w := ExecCreate(v, filename, size).0;
            && Created(v, w, slot, found, CStr(filename), size)
            && slot < MAX_FILES && HasFile(w, slot) && EntryName(w[DIRECTORY_BLOCK], slot) == CStr(filename)
  {
    hide DirectoryOk, CStr, Take, Bit, CreateWrites, Found, Created;
    slot := LastFree(v[DIRECTORY_BLOCK], MAX_FILES);
    var bitmap := Allocated(v, size).0;
    found := Allocated(v, size).1;
    BlocksNeededExact(size);
    TakenAreFresh(v, BlocksNeeded(size) + 1, bitmap, found);
    CreateCreates(v, slot, filename, size, bitmap, found);
    CreatedEntry(v, ExecCreate(v, filename, size).0, slot, found, CStr(filename), size);
  }

  lemma CreatedEntry(v: Volume, w: Volume, slot: nat, found: seq<nat>, name: Bytes, size: nat)
    requires Sized(v) && |w| == |v| && Created(v, w, slot, found, name, size)
    ensures HasFile(w, slot) && EntryName(w[DIRECTORY_BLOCK], slot) == name
  {
    NewFile(v, w, slot, found, name, size);
  }

  lemma RemoveOutcome(w: Volume, filename: Bytes, slot: nat)
    requires WellFormed(w) && ValidCall(Remove(filename))
    requires slot < MAX_FILES && HasFile(w, slot) && EntryName(w[DIRECTORY_BLOCK], slot) == CStr(filename)
    ensures ExecRemove(w, filename).0 == Apply(w, RemoveWrites(w, slot))
  {
    hide DirectoryOk, Disjoint, BitmapExact, CStr, RemoveWrites, InodeOk;
    FindNew(w, slot, CStr(filename));
  }

  lemma FindNew(w: Volume, slot: nat, name: Bytes)
    requires Readable(w) && slot < MAX_FILES && HasFile(w, slot) && EntryName(w[DIRECTORY_BLOCK], slot) == name
    ensures Find(w[DIRECTORY_BLOCK], name, 0) == slot
  {
    EntryOfName(w, slot);
  }

  lemma RestoredBitmap(v: Volume, w: Volume, slot: nat, found: seq<nat>, name: Bytes, size: nat)
    requires Sized(v) && |w| == |v| && Created(v, w, slot, found, name, size)
    requires slot < MAX_FILES && HasFile(w, slot)
    ensures Apply(w, RemoveWrites(w, slot))[ALLOCATION_BLOCK] == v[ALLOCATION_BLOCK]
  {
    hide InodeOk, Content, Owned, Bit, RemoveWrites, Vacate;
    NewFile(v, w, slot, found, name, size);
    RemoveRemoves(w, slot);
    var c := Apply(w, RemoveWrites(w, slot))[ALLOCATION_BLOCK];
    forall p: nat | p < 8 * BLOCK_SIZE ensures Bit(c, p) == Bit(v[ALLOCATION_BLOCK], p) {
    }
    BitsDetermine(c, v[ALLOCATION_BLOCK]);
  }
}
