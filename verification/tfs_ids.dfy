/** Runs of TFS calls in which files are read and written by the ids that tfs_open returned, kept over any other calls
    for as long as the file exists. */
module TfsIds {
  import opened Words
  import opened Bitmap
  import opened Libc
  import opened TfsLayout
  import opened TfsPlans
  import opened TfsCreate
  import opened TfsRemove
  import opened TfsWrite
  import opened TfsRuns

  datatype IdCall =
    | Make(filename: Bytes, size: int)
    | Delete(filename: Bytes)
    | Open(filename: Bytes)
    | WriteId(id: int, data: Bytes, offset: int)
    | ReadId(id: int, len: nat, offset: int)

  /** The file ids that a caller holds, each with the name it was opened under. */
  type Ids = map<int, Bytes>

  predicate HasName(c: IdCall) { c.Make? || c.Delete? || c.Open? }

  /** Names and sizes as VFS passes them down, and ids of files that have not been removed. */
  predicate Legal(ids: Ids, c: IdCall) {
    if HasName(c) then 0 in c.filename && FileName(CStr(c.filename)) && (c.Make? ==> 0 <= c.size < 0x8000_0000)
    else c.id in ids
  }

  function Without(ids: Ids, name: Bytes): Ids {
    map n | n in ids && ids[n] != name :: ids[n]
  }

  /** What a caller holds after a call and its reply. */
  function Track(ids: Ids, c: IdCall, reply: Reply): Ids {
    match c
    case Open(filename) => if reply.status < 0 then ids else ids[reply.status := CStr(filename)]
    case Delete(filename) => if reply.status < 0 then ids else Without(ids, CStr(filename))
    case _ => ids
  }

  /** An id is held from the tfs_open that returned it until its file is removed. */
  lemma HeldUntilRemoved(ids: Ids, c: IdCall, reply: Reply, n: int)
    ensures var held := Track(ids, c, reply);
            if c.Open? && reply.status >= 0 && n == reply.status then n in held && held[n] == CStr(c.filename)
            else if c.Delete? && reply.status >= 0 then
              (n in held <==> n in ids && ids[n] != CStr(c.filename)) && (n in held ==> held[n] == ids[n])
            else (n in held <==> n in ids) && (n in held ==> held[n] == ids[n])
  {
  }

  // ----- on the disk -----

  /** Every id is the inode block of the file it was opened for. */
  ghost predicate Tracked(v: Volume, ids: Ids)
    requires Readable(v)
  {
    forall n :: n in ids ==> ids[n] in Names(v) && Inode(v, EntryOf(v, ids[n])) == n
  }

  ghost function OpenReply(v: Volume, name: Bytes): Reply
    requires WellFormed(v) && name != []
  {
    FindIsLookup(v, name);
    var slot := Find(v[DIRECTORY_BLOCK], name, 0);
    Reply(if slot < 0 then VFS_NOT_FOUND else Inode(v, slot), [])
  }

  /** tfs_write and tfs_read let an id through when it lies between 2 and the number of blocks. */
  ghost function WriteById(v: Volume, n: int, data: Bytes, offset: int): (Volume, Reply)
    requires Sized(v) && InodeOk(v, n) && InVolume(v, WritePlan(v, n, data, offset).writes)
  {
    if n < 2 || n > |v| then (v, Reply(VFS_ERROR, []))
    else
      var plan := WritePlan(v, n, data, offset);
      (Apply(v, plan.writes), Reply(plan.status, []))
  }

  ghost function ReadById(v: Volume, n: int, len: nat, offset: int): Reply
    requires InodeOk(v, n)
  {
    if n < 2 || n > |v| then Reply(VFS_ERROR, []) else ReadSlice(v, n, len, offset)
  }

  ghost function Exec1(v: Volume, ids: Ids, c: IdCall): (Volume, Reply)
    requires WellFormed(v) && Tracked(v, ids) && Legal(ids, c)
  {
    match c
    case Make(filename, size) => ExecCreate(v, filename, size)
    case Delete(filename) => ExecRemove(v, filename)
    case Open(filename) => (v, OpenReply(v, CStr(filename)))
    case WriteId(n, data, offset) => KnownInode(v, ids, n, data, offset); WriteById(v, n, data, offset)
    case ReadId(n, len, offset) => KnownInode(v, ids, n, [], 0); (v, ReadById(v, n, len, offset))
  }

  lemma KnownInode(v: Volume, ids: Ids, n: int, data: Bytes, offset: int)
    requires WellFormed(v) && Tracked(v, ids) && n in ids
    ensures InodeOk(v, n) && InVolume(v, WritePlan(v, n, data, offset).writes)
    ensures SYSTEM_BLOCKS <= n < |v|
  {
    hide InodeOk, Content, DirectoryOk, Disjoint, BitmapExact, Abs, Apply, WritePlan, InVolume;
    var slot := EntryOf(v, ids[n]);
    WriteRefines(v, slot, data, offset);
    InodeInData(v, n);
  }

  // ----- ids keep naming their files -----

  lemma StaysNamed(v: Volume, w: Volume, name: Bytes)
    requires Readable(v) && Readable(w) && name in Names(v)
    requires var i := EntryOf(v, name);
             HasFile(w, i) && Inode(w, i) == Inode(v, i) && EntryName(w[DIRECTORY_BLOCK], i) == name
    ensures name in Names(w) && Inode(w, EntryOf(w, name)) == Inode(v, EntryOf(v, name))
  {
    hide InodeOk, DirectoryOk, CStr, GetWord;
    EntryOfName(w, EntryOf(v, name));
  }

  /** Wherever every file with an id is intact, ids go on naming their files. */
  lemma IntactTracked(v: Volume, w: Volume, ids: Ids)
    requires WellFormed(v) && WellFormed(w) && |w| == |v| && Tracked(v, ids)
    requires forall n :: n in ids ==> Intact(v, w, EntryOf(v, ids[n]))
    ensures Tracked(w, ids)
  {
    hide InodeOk, DirectoryOk, Disjoint, BitmapExact, Blocks, Content, Bit, EntryOf;
    forall n | n in ids ensures ids[n] in Names(w) && Inode(w, EntryOf(w, ids[n])) == n {
      EntryIs(v, ids[n]);
      assert Intact(v, w, EntryOf(v, ids[n]));
      StaysNamed(v, w, ids[n]);
    }
  }

  lemma EntryIs(v: Volume, name: Bytes)
    requires Readable(v) && name in Names(v)
    ensures var i := EntryOf(v, name); i < MAX_FILES && HasFile(v, i) && EntryName(v[DIRECTORY_BLOCK], i) == name
  {
  }

  lemma MakeTracked(v: Volume, ids: Ids, filename: Bytes, size: int)
    requires WellFormed(v) && Tracked(v, ids) && Legal(ids, Make(filename, size))
    ensures Tracked(ExecCreate(v, filename, size).0, ids)
  {
    hide WellFormed, Readable, Intact, CStr, Apply, Names, EntryOf;
    WellReadable(v);
    var plan := CreatePlan(v, filename, size);
    var w := ExecCreate(v, filename, size).0;
    CreatePrefixSafe(v, filename, size, |plan.writes|);
    assert plan.writes[..|plan.writes|] == plan.writes;
    WellReadable(w);
    forall n | n in ids ensures Intact(v, w, EntryOf(v, ids[n])) { EntryIs(v, ids[n]); }
    IntactTracked(v, w, ids);
  }

  lemma WellReadable(v: Volume)
    requires WellFormed(v)
    ensures Readable(v) && Sized(v)
  {
  }

  lemma DeleteTracked(v: Volume, ids: Ids, filename: Bytes)
    requires WellFormed(v) && Tracked(v, ids) && Legal(ids, Delete(filename))
    ensures var (w, reply) := ExecRemove(v, filename); Tracked(w, Track(ids, Delete(filename), reply))
  {
    hide WellFormed, Readable, Intact, CStr, Apply, Names, EntryOf, Abs, RemovePlan;
    var (w, reply) := ExecRemove(v, filename);
    var left := Track(ids, Delete(filename), reply);
    WellReadable(v);
    WellReadable(w);
    RemoveRefines(v, filename);
    if CStr(filename) in Abs(v) {
      forall n | n in left ensures n in ids && left[n] == ids[n] && Intact(v, w, EntryOf(v, left[n])) {
        SurvivesDelete(v, ids[n], filename);
      }
      IntactTracked(v, w, left);
    } else {
      ApplyNothing(v);
    }
  }

  lemma SurvivesDelete(v: Volume, name: Bytes, filename: Bytes)
    requires WellFormed(v) && name in Names(v) && 0 in filename && FileName(CStr(filename)) && name != CStr(filename)
    ensures var w := ExecRemove(v, filename).0; Intact(v, w, EntryOf(v, name))
  {
    hide WellFormed, Readable, Intact, CStr, Apply, Names, EntryOf, Abs, RemovePlan;
    WellReadable(v);
    EntryIs(v, name);
    var plan := RemovePlan(v, filename);
    RemovePrefixSafe(v, filename, |plan.writes|, EntryOf(v, name));
    assert plan.writes[..|plan.writes|] == plan.writes;
  }

  /** tfs_open finds the inode block of the named file. */
  lemma OpenFinds(v: Volume, name: Bytes)
    requires WellFormed(v) && name != []
    ensures OpenReply(v, name) == if name in Names(v) then Reply(Inode(v, EntryOf(v, name)), []) else Reply(VFS_NOT_FOUND, [])
    ensures name in Names(v) ==> Inode(v, EntryOf(v, name)) >= SYSTEM_BLOCKS
  {
    hide DirectoryOk, Disjoint, BitmapExact, InodeOk, Content, Find, EntryName;
    FindIsLookup(v, name);
    var slot := Find(v[DIRECTORY_BLOCK], name, 0);
    if slot >= 0 {
      EntryOfName(v, slot);
      InodeInData(v, Inode(v, slot));
    }
  }

  lemma OpenTracked(v: Volume, ids: Ids, filename: Bytes)
    requires WellFormed(v) && Tracked(v, ids) && Legal(ids, Open(filename))
    ensures Tracked(v, Track(ids, Open(filename), OpenReply(v, CStr(filename))))
  {
    hide WellFormed, Readable, OpenReply, CStr, Names, EntryOf;
    WellReadable(v);
    OpenFinds(v, CStr(filename));
  }

  lemma WriteTracked(v: Volume, ids: Ids, n: int, data: Bytes, offset: int)
    requires WellFormed(v) && Tracked(v, ids) && n in ids
    ensures InodeOk(v, n) && InVolume(v, WritePlan(v, n, data, offset).writes)
    ensures var w := WriteById(v, n, data, offset).0; WellFormed(w) && |w| == |v| && Tracked(w, ids)
  {
    hide InodeOk, Content, DirectoryOk, Disjoint, BitmapExact, Abs, Apply, OverlayWrites, InVolume, EntryOf, Intact;
    KnownInode(v, ids, n, data, offset);
    EntryIs(v, ids[n]);
    var slot := EntryOf(v, ids[n]);
    WriteRefines(v, slot, data, offset);
    var w := WriteById(v, n, data, offset).0;
    SameDirectory(v, slot, data, offset);
    forall k | k in ids ensures ids[k] in Names(w) && Inode(w, EntryOf(w, ids[k])) == k {
      EntryIs(v, ids[k]);
      StaysNamed(v, w, ids[k]);
    }
  }

  /** A write leaves the directory alone. */
  lemma SameDirectory(v: Volume, slot: nat, data: Bytes, offset: int)
    requires WellFormed(v) && slot < MAX_FILES && HasFile(v, slot)
    ensures var ws := WritePlan(v, Inode(v, slot), data, offset).writes;
            InVolume(v, ws) && Apply(v, ws)[DIRECTORY_BLOCK] == v[DIRECTORY_BLOCK] && |Apply(v, ws)| == |v|
  {
    hide InodeOk, Content, DirectoryOk, Disjoint, BitmapExact, Apply, OverlayWrites, InVolume, IsData;
    var n := Inode(v, slot);
    InodeInData(v, n);
    var len := Clip(Size(v[n]), |data|, offset);
    if len <= 0 {
      ApplyNothing(v);
    } else {
      ClipSpan(Size(v[n]), |data|, offset);
      var count := Last(offset, len) - First(offset) + 1;
      var ws := OverlayWrites(v, n, data[..len], offset, count);
      OverlayPrefix(v, slot, data[..len], offset, count, count);
      assert ws[..count] == ws;
      NotData(v, slot, DIRECTORY_BLOCK);
      DataWritesElsewhere(v, slot, ws, DIRECTORY_BLOCK);
    }
  }

  /** One call on the disk, with the ids its caller then holds. */
  ghost function Exec(v: Volume, ids: Ids, c: IdCall): (r: (Volume, Ids, Reply))
    requires WellFormed(v) && Tracked(v, ids) && Legal(ids, c)
    ensures WellFormed(r.0) && |r.0| == |v| && Tracked(r.0, r.1)
  {
    var (w, reply) := Exec1(v, ids, c);
    ExecTracked(v, ids, c);
    (w, Track(ids, c, reply), reply)
  }

  lemma ExecTracked(v: Volume, ids: Ids, c: IdCall)
    requires WellFormed(v) && Tracked(v, ids) && Legal(ids, c)
    ensures var (w, reply) := Exec1(v, ids, c); WellFormed(w) && |w| == |v| && Tracked(w, Track(ids, c, reply))
  {
    hide WellFormed, Readable, Tracked, ExecCreate, ExecRemove, OpenReply, WriteById, ReadById;
    match c
    case Make(filename, size) => MakeTracked(v, ids, filename, size);
    case Delete(filename) => DeleteTracked(v, ids, filename);
    case Open(filename) => OpenTracked(v, ids, filename);
    case WriteId(n, data, offset) => WriteTracked(v, ids, n, data, offset);
    case ReadId(_, _, _) =>
  }

  /** The calls use only ids that their caller holds at that time. */
  ghost predicate LegalRun(v: Volume, ids: Ids, calls: seq<IdCall>)
    requires WellFormed(v) && Tracked(v, ids)
    decreases |calls|
  {
    calls == [] || (
      Legal(ids, calls[0]) &&
      var (w, held, _) := Exec(v, ids, calls[0]);
      LegalRun(w, held, calls[1..]))
  }

  ghost function Run(v: Volume, ids: Ids, calls: seq<IdCall>): (r: (Volume, seq<Reply>))
    requires WellFormed(v) && Tracked(v, ids) && LegalRun(v, ids, calls)
    ensures WellFormed(r.0) && |r.0| == |v|
    decreases |calls|
  {
    if calls == [] then (v, [])
    else
      var (w, held, reply) := Exec(v, ids, calls[0]);
      var (end, replies) := Run(w, held, calls[1..]);
      (end, [reply] + replies)
  }

  // ----- the same calls on a map from names to byte strings -----

  /** An id that tfs_open may return for `name`: the one already held for that file, else one held for no file. */
  predicate IdFor(ids: Ids, n: int, name: Bytes) {
    n >= 0 && (n in ids ==> ids[n] == name) && forall k :: k in ids && ids[k] == name ==> k == n
  }

  ghost predicate Spec(total: nat, m: Files, ids: Ids, c: IdCall, reply: Reply, after: Files)
    requires Legal(ids, c)
  {
    match c
    case Make(filename, size) => (after, reply) == SpecCreate(total, m, CStr(filename), size)
    case Delete(filename) => (after, reply) == SpecRemove(m, CStr(filename))
    case Open(filename) =>
      && after == m && reply.data == []
      && if CStr(filename) in m then IdFor(ids, reply.status, CStr(filename)) else reply.status == VFS_NOT_FOUND
    case WriteId(n, data, offset) => (after, reply) == SpecWrite(m, ids[n], data, offset)
    case ReadId(n, len, offset) => after == m && reply == SpecRead(m, ids[n], len, offset)
  }

  /** The map may answer so, and ends as `after`. */
  ghost predicate SpecRun(total: nat, m: Files, ids: Ids, calls: seq<IdCall>, replies: seq<Reply>, after: Files)
    decreases |calls|
  {
    if calls == [] then replies == [] && after == m
    else
      && Legal(ids, calls[0]) && replies != []
      && exists m1 :: Spec(total, m, ids, calls[0], replies[0], m1)
                      && SpecRun(total, m1, Track(ids, calls[0], replies[0]), calls[1..], replies[1..], after)
  }

  lemma WriteIdMatches(v: Volume, ids: Ids, n: int, data: Bytes, offset: int)
    requires WellFormed(v) && Tracked(v, ids) && n in ids
    ensures InodeOk(v, n) && InVolume(v, WritePlan(v, n, data, offset).writes)
    ensures var (w, reply) := WriteById(v, n, data, offset);
            WellFormed(w) && (Abs(w), reply) == SpecWrite(Abs(v), ids[n], data, offset)
  {
    hide DirectoryOk, Disjoint, BitmapExact, Abs, Apply, InVolume, InodeOk, Content, EntryOf, WritePlan;
    KnownInode(v, ids, n, data, offset);
    EntryIs(v, ids[n]);
    WriteRefines(v, EntryOf(v, ids[n]), data, offset);
  }

  lemma ReadIdMatches(v: Volume, ids: Ids, n: int, len: nat, offset: int)
    requires WellFormed(v) && Tracked(v, ids) && n in ids
    ensures InodeOk(v, n) && ReadById(v, n, len, offset) == SpecRead(Abs(v), ids[n], len, offset)
  {
    hide DirectoryOk, Disjoint, BitmapExact, Abs, InodeOk, EntryOf;
    KnownInode(v, ids, n, [], 0);
    EntryIs(v, ids[n]);
    AbsAt(v, EntryOf(v, ids[n]));
  }

  lemma OpenMatches(v: Volume, ids: Ids, filename: Bytes)
    requires WellFormed(v) && Tracked(v, ids) && Legal(ids, Open(filename))
    ensures Spec(|v|, Abs(v), ids, Open(filename), OpenReply(v, CStr(filename)), Abs(v))
  {
    hide WellFormed, Readable, OpenReply, CStr, Names, EntryOf;
    WellReadable(v);
    var name := CStr(filename);
    OpenFinds(v, name);
    forall k | k in ids && name in Names(v) && k == Inode(v, EntryOf(v, name)) ensures ids[k] == name {
      OneName(v, ids[k], name);
    }
  }

  /** Two files do not share an inode block. */
  lemma OneName(v: Volume, a: Bytes, b: Bytes)
    requires WellFormed(v) && a in Names(v) && b in Names(v) && Inode(v, EntryOf(v, a)) == Inode(v, EntryOf(v, b))
    ensures a == b
  {
    hide DirectoryOk, BitmapExact, InodeOk, EntryOf;
    EntryIs(v, a);
    EntryIs(v, b);
    assert Blocks(v, EntryOf(v, a))[0] == Blocks(v, EntryOf(v, b))[0];
  }

  /** Each call does to the disk what it does to the map, an id standing for the name it was opened under. */
  lemma ExecMatches(v: Volume, ids: Ids, c: IdCall)
    requires WellFormed(v) && Tracked(v, ids) && Legal(ids, c)
    ensures var (w, _, reply) := Exec(v, ids, c); Spec(|v|, Abs(v), ids, c, reply, Abs(w))
  {
    hide WellFormed, Readable, Abs, CStr, ExecCreate, ExecRemove, WriteById, ReadById, OpenReply, Tracked,
         SpecCreate, SpecRemove, SpecWrite, SpecRead, IdFor;
    match c
    case Make(filename, size) => CreateMatches(v, filename, size);
    case Delete(filename) => RemoveMatches(v, filename);
    case Open(filename) => OpenMatches(v, ids, filename);
    case WriteId(n, data, offset) => WriteIdMatches(v, ids, n, data, offset);
    case ReadId(n, len, offset) => ReadIdMatches(v, ids, n, len, offset);
  }

  /** Over any sequence of calls without I/O errors, in which files are used through ids kept since they were opened,
      TFS is a map from names to byte strings. */
  lemma {:induction false} IdRunRefines(v: Volume, ids: Ids, calls: seq<IdCall>)
    requires WellFormed(v) && Tracked(v, ids) && LegalRun(v, ids, calls)
    ensures var (w, replies) := Run(v, ids, calls); SpecRun(|v|, Abs(v), ids, calls, replies, Abs(w))
    decreases |calls|
  {
    hide WellFormed, Readable, Tracked, Abs, Exec, Spec, Legal;
    WellReadable(v);
    if calls != [] {
      var (w, held, reply) := Exec(v, ids, calls[0]);
      WellReadable(w);
      ExecMatches(v, ids, calls[0]);
      HeldIs(v, ids, calls[0]);
      IdRunRefines(w, held, calls[1..]);
      var (end, replies) := Run(w, held, calls[1..]);
      WellReadable(end);
      SpecRunStep(|v|, Abs(v), ids, calls, reply, Abs(w), replies, Abs(end));
    }
  }

  lemma SpecRunStep(total: nat, m: Files, ids: Ids, calls: seq<IdCall>, reply: Reply, m1: Files,
                    replies: seq<Reply>, after: Files)
    requires calls != [] && Legal(ids, calls[0]) && Spec(total, m, ids, calls[0], reply, m1)
    requires SpecRun(total, m1, Track(ids, calls[0], reply), calls[1..], replies, after)
    ensures SpecRun(total, m, ids, calls, [reply] + replies, after)
  {
    hide Spec, Legal, Track;
    var all := [reply] + replies;
    assert all[1..] == replies;
    assert Spec(total, m, ids, calls[0], all[0], m1)
           && SpecRun(total, m1, Track(ids, calls[0], all[0]), calls[1..], all[1..], after);
  }

  lemma HeldIs(v: Volume, ids: Ids, c: IdCall)
    requires WellFormed(v) && Tracked(v, ids) && Legal(ids, c)
    ensures var (_, held, reply) := Exec(v, ids, c); held == Track(ids, c, reply)
  {
  }
}
