/** The calls of the virtual filesystem layer (fs/vfs.c) as lists of the steps that touch what calls share: the counter
    of operations, the locks, the mount table and the table of open files. */
module VfsCalls {

  /** Locks by rank: vfs_op_sem, vfs_table.sem, openfile_table.sem, then one lock per filesystem. */
  const OP := 0
  const TABLE := 1
  const FILES := 2

  function Volume(v: nat): nat { 3 + v }

  datatype Instr =
    | Start                       // vfs_start_op
    | End                         // vfs_end_op
    | P(lock: nat)
    | V(lock: nat)
    | Begin                       // vfs_deinit up to its test of vfs_ops
    | Wait                        // semaphore_P(vfs_unmount_sem)
    | Resume                      // semaphore_P(vfs_op_sem) and the assertion after it
    | Find(v: nat)                // look the filesystem up in the mount table
    | Mount(v: nat)               // enter it there
    | Reserve(v: nat, row: nat)   // vfs_open: look it up, and give it a free row of the open-file table
    | Fetch(row: nat)             // vfs_read, vfs_write: the filesystem of an open file, read without a lock
    | Close(row: nat)             // vfs_close: clear the row
    | Drop(row: nat)              // vfs_open: clear the row after all
    | Idle(v: nat)                // vfs_unmount: no row holds the filesystem
    | Retire(v: nat)              // fs->unmount, once it has the lock, and the mount table entry cleared
    | Visit(v: nat)               // one round of the loop of vfs_deinit

  /** How far a call has come: not started, counted in vfs_ops, or closing the whole layer down. */
  datatype Mode = Fresh | InOp | Closing(stage: Stage)

  datatype Stage = Called | Waiting | Woken | Running(waited: bool)

  /** What a call knows about the filesystem it is to lock: that it is mounted, that it is mounted and has no open file,
      or that it was the filesystem of an open file when the call looked. */
  datatype Use = Nothing | Found(v: nat) | Leaving(v: nat) | OnFile(row: nat, v: nat)

  datatype Call = Call(mode: Mode, held: seq<nat>, use: Use, rest: seq<Instr>)

  predicate Done(c: Call) { c.rest == [] }

  predicate Has(c: Call, l: nat) { l in c.held }

  /** The call has the filesystem of a file and not yet its lock. */
  predicate Pending(c: Call) { c.use.OnFile? && Volume(c.use.v) !in c.held }

  predicate Runs(mode: Mode) { mode.Closing? && mode.stage.Running? }

  // ----- orderly calls -----

  predicate Above(held: seq<nat>, lock: nat) {
    forall i :: 0 <= i < |held| ==> held[i] < lock
  }

  /** Why a call may take the lock of filesystem `v`. */
  predicate Entitled(held: seq<nat>, use: Use, v: nat) {
    match use
    case Nothing => false
    case Found(u) => u == v && TABLE in held
    case Leaving(u) => u == v && TABLE in held && FILES in held
    case OnFile(_, u) => u == v && held == []
  }

  predicate Allowed(locks: nat, mode: Mode, held: seq<nat>, use: Use, rest: seq<Instr>)
    requires rest != []
  {
    && (use.OnFile? ==> mode == InOp)
    && (use.OnFile? && Volume(use.v) !in held ==> rest[0] in {V(TABLE), V(FILES), P(Volume(use.v))})
    && match rest[0]
       case Start => mode == Fresh && held == [] && use == Nothing
       case End => mode == InOp && held == [] && |rest| == 1
       case P(l) => mode != Fresh && OP < l < locks && Above(held, l) && (l >= 3 ==> Entitled(held, use, l - 3))
       case V(l) => mode != Fresh && held != [] && l == held[|held| - 1]
       case Begin => mode == Closing(Called) && held == [] && use == Nothing
       case Wait => mode == Closing(Waiting) && held == [] && use == Nothing && |rest| >= 2 && rest[1] == Resume
       case Resume => mode == Closing(Woken) && held == [] && use == Nothing
       case Find(v) => mode == InOp && held == [TABLE] && use == Nothing && Volume(v) < locks
       case Mount(v) => mode == InOp && held == [TABLE] && use == Nothing && Volume(v) < locks
       case Reserve(v, _) => mode == InOp && held == [TABLE, FILES] && use == Nothing && Volume(v) < locks
       case Fetch(_) => mode == InOp && held == [] && use == Nothing
       case Close(_) => mode == InOp && held == [FILES] && use == Nothing && |rest| >= 2 && rest[1] == V(FILES)
       case Drop(_) => mode == InOp && held == [FILES] && use == Nothing && |rest| >= 2 && rest[1] == V(FILES)
       case Idle(v) => mode == InOp && held == [TABLE, FILES] && use == Found(v)
       case Retire(v) =>
         || (mode == InOp && held == [TABLE, FILES, Volume(v)] && use == Leaving(v))
         || (Runs(mode) && held == [OP, TABLE, FILES, Volume(v)] && use == Found(v))
       case Visit(v) => Runs(mode) && held == [OP, TABLE, FILES] && use == Nothing && Volume(v) < locks
  }

  function HeldNext(held: seq<nat>, i: Instr): seq<nat> {
    if i.P? then held + [i.lock]
    else if (i.V? || i.Retire?) && held != [] then held[..|held| - 1]
    else held
  }

  function UseNext(use: Use, i: Instr): Use {
    match i
    case V(l) => if l < 3 && use.OnFile? then use else Nothing
    case Find(v) => Found(v)
    case Reserve(v, row) => OnFile(row, v)
    case Idle(v) => Leaving(v)
    case Retire(_) => Nothing
    case _ => use
  }

  /** The rest of a call takes locks in rank order, gives back the last one taken first or destroys it, ends with none,
      and locks no filesystem it has not come upon. */
  predicate Orderly(locks: nat, mode: Mode, held: seq<nat>, use: Use, rest: seq<Instr>)
    decreases |rest|, 0
  {
    if rest == [] then held == [] && mode != InOp && use == Nothing
    else
      && Allowed(locks, mode, held, use, rest)
      && match rest[0]
         case Start => Orderly(locks, InOp, [], Nothing, rest[1..])
         case End => true
         case Begin => OrderlyTail(locks, rest[1..])
         case Wait => OrderlyTail(locks, rest[2..])
         case Resume => OrderlyTail(locks, rest[1..])
         case i => Orderly(locks, mode, HeldNext(held, i), UseNext(use, i), rest[1..])
  }

  /** What vfs_deinit does once it holds vfs_op_sem for good. */
  predicate OrderlyTail(locks: nat, rest: seq<Instr>)
    decreases |rest|, 1
  {
    && Orderly(locks, Closing(Running(false)), [OP], Nothing, rest)
    && Orderly(locks, Closing(Running(true)), [OP], Nothing, rest)
  }

  /** Locks held in increasing order, all in range, and vfs_op_sem only by a running shutdown. */
  predicate HeldOk(locks: nat, mode: Mode, held: seq<nat>) {
    && (forall i :: 0 <= i < |held| ==> held[i] < locks)
    && (forall i, j :: 0 <= i < j < |held| ==> held[i] < held[j])
    && (OP in held ==> Runs(mode))
  }

  predicate CallOk(locks: nat, c: Call) {
    && Orderly(locks, c.mode, c.held, c.use, c.rest)
    && HeldOk(locks, c.mode, c.held)
    && (c.mode == Closing(Called) ==> c.rest != [] && c.rest[0] == Begin)
    && (c.mode == Closing(Waiting) ==> c.rest != [] && c.rest[0] == Wait)
    && (c.mode == Closing(Woken) ==> c.rest != [] && c.rest[0] == Resume)
    && (c.mode == Fresh ==> c.held == [] && c.use == Nothing)
  }

  // ----- giving up -----

  /** How every operation of vfs.c gives up: it releases what it holds and ends. */
  function Exit(held: seq<nat>): seq<Instr> {
    if held == [] then [End] else [V(held[|held| - 1])] + Exit(held[..|held| - 1])
  }

  lemma {:induction false} ExitOrderly(locks: nat, held: seq<nat>)
    ensures Orderly(locks, InOp, held, Nothing, Exit(held))
    decreases |held|
  {
    if held != [] {
      var less := held[..|held| - 1];
      ExitOrderly(locks, less);
      assert Exit(held)[1..] == Exit(less);
    }
  }

  // ----- the operations -----

  function Locked(v: nat): seq<Instr> { [P(Volume(v)), V(Volume(v))] }

  /** vfs_open up to the answer of the filesystem. */
  function Opening(v: nat, row: nat): seq<Instr> {
    [P(TABLE), P(FILES), Reserve(v, row), V(FILES), V(TABLE)] + Locked(v)
  }

  /** Every path of vfs_mount, vfs_unmount, vfs_open, vfs_close, vfs_seek, vfs_read, vfs_write, vfs_create,
      vfs_remove, vfs_getfree, vfs_filecount and vfs_file, for filesystem `v` and row `row` where they matter. */
  function Paths(v: nat, row: nat): seq<seq<Instr>> {
    [ [],                                                                // a path name that does not parse
      [P(TABLE), V(TABLE)],                                              // mount refused; listing the mount table
      [P(TABLE), Mount(v), V(TABLE)],                                    // mount
      Leave(v),                                                          // unmount
      Opening(v, row),                                                   // open
      Opening(v, row) + [P(FILES), Drop(row), V(FILES)],                 // open of a missing file
      [P(FILES), Close(row), V(FILES)],                                  // close
      [P(FILES), V(FILES)],                                              // seek
      [Fetch(row)],                                                      // read, write that move nothing
      [Fetch(row), P(FILES), V(FILES)],                                  // read, write
      [P(TABLE), Find(v)] + Locked(v) + [V(TABLE)] ]                     // create, remove, getfree, filecount, file
  }

  function Leave(v: nat): seq<Instr> {
    [P(TABLE), Find(v), P(FILES), Idle(v), P(Volume(v)), Retire(v), V(FILES), V(TABLE)]
  }

  function Operation(path: seq<Instr>): Call { Call(Fresh, [], Nothing, [Start] + path + [End]) }

  /** vfs_deinit, over all filesystems there may be. */
  function Deinit(volumes: seq<nat>): Call { Call(Closing(Called), [], Nothing, [Begin] + Tail(volumes)) }

  function Rounds(volumes: seq<nat>): seq<Instr> {
    if volumes == [] then [] else [Visit(volumes[0])] + Rounds(volumes[1..])
  }

  function Tail(volumes: seq<nat>): seq<Instr> {
    [P(TABLE), P(FILES)] + (Rounds(volumes) + [V(FILES), V(TABLE), V(OP)])
  }

  // ----- they are orderly -----

  /** A step that is no border of the operation, before an orderly rest. */
  lemma Prepend(locks: nat, mode: Mode, held: seq<nat>, use: Use, i: Instr, rest: seq<Instr>)
    requires i != Start && i != End && i != Begin && i != Wait && i != Resume
    requires Allowed(locks, mode, held, use, [i] + rest)
    requires Orderly(locks, mode, HeldNext(held, i), UseNext(use, i), rest)
    ensures Orderly(locks, mode, held, use, [i] + rest)
  {
    assert ([i] + rest)[1..] == rest;
  }

  lemma Release(locks: nat, mode: Mode, held: seq<nat>, use: Use, l: nat, rest: seq<Instr>)
    requires use.OnFile? ==> mode == InOp && (l == TABLE || l == FILES || l == Volume(use.v))
    requires mode != Fresh && Orderly(locks, mode, held, UseNext(use, V(l)), rest)
    ensures Orderly(locks, mode, held + [l], use, [V(l)] + rest)
  {
    assert (held + [l])[..|held|] == held;
    Prepend(locks, mode, held + [l], use, V(l), rest);
  }

  lemma Acquire(locks: nat, mode: Mode, held: seq<nat>, use: Use, l: nat, rest: seq<Instr>)
    requires mode != Fresh && OP < l < locks && Above(held, l) && (l >= 3 ==> Entitled(held, use, l - 3))
    requires use.OnFile? ==> mode == InOp && (Volume(use.v) !in held ==> l == Volume(use.v))
    requires Orderly(locks, mode, held + [l], use, rest)
    ensures Orderly(locks, mode, held, use, [P(l)] + rest)
  {
    Prepend(locks, mode, held, use, P(l), rest);
  }

  lemma LockedOrderly(locks: nat, held: seq<nat>, use: Use, v: nat, rest: seq<Instr>)
    requires Volume(v) < locks && Entitled(held, use, v) && Above(held, Volume(v))
    requires Orderly(locks, InOp, held, Nothing, rest)
    ensures Orderly(locks, InOp, held, use, Locked(v) + rest)
  {
    hide Orderly;
    Release(locks, InOp, held, use, Volume(v), rest);
    Acquire(locks, InOp, held, use, Volume(v), [V(Volume(v))] + rest);
    assert Locked(v) + rest == [P(Volume(v))] + ([V(Volume(v))] + rest);
  }

  lemma FilesOrderly(locks: nat, rest: seq<Instr>)
    requires locks >= 3 && Orderly(locks, InOp, [], Nothing, rest)
    ensures Orderly(locks, InOp, [], Nothing, [P(FILES), V(FILES)] + rest)
  {
    hide Orderly;
    Release(locks, InOp, [], Nothing, FILES, rest);
    assert [] + [FILES] == [FILES];
    Acquire(locks, InOp, [], Nothing, FILES, [V(FILES)] + rest);
    assert [P(FILES), V(FILES)] + rest == [P(FILES)] + ([V(FILES)] + rest);
  }

  /** The open-file table is locked while a row is cleared. */
  lemma ClearOrderly(locks: nat, i: Instr, rest: seq<Instr>)
    requires locks >= 3 && Orderly(locks, InOp, [], Nothing, rest) && (i.Close? || i.Drop?)
    ensures Orderly(locks, InOp, [], Nothing, [P(FILES), i, V(FILES)] + rest)
  {
    hide Orderly;
    Release(locks, InOp, [], Nothing, FILES, rest);
    assert [] + [FILES] == [FILES];
    Prepend(locks, InOp, [FILES], Nothing, i, [V(FILES)] + rest);
    Acquire(locks, InOp, [], Nothing, FILES, [i] + ([V(FILES)] + rest));
    assert [P(FILES), i, V(FILES)] + rest == [P(FILES)] + ([i] + ([V(FILES)] + rest));
  }

  lemma OpeningOrderly(locks: nat, v: nat, row: nat, rest: seq<Instr>)
    requires Volume(v) < locks && Orderly(locks, InOp, [], Nothing, rest)
    ensures Orderly(locks, InOp, [], Nothing, Opening(v, row) + rest)
  {
    hide Orderly, Locked;
    var use := OnFile(row, v);
    LockedOrderly(locks, [], use, v, rest);
    assert [] + [TABLE] == [TABLE] && [TABLE] + [FILES] == [TABLE, FILES];
    var r0 := [V(TABLE)] + (Locked(v) + rest);
    Release(locks, InOp, [], use, TABLE, Locked(v) + rest);
    Release(locks, InOp, [TABLE], use, FILES, r0);
    ReserveOrderly(locks, v, row, [V(FILES)] + r0);
    var r1 := [Reserve(v, row)] + ([V(FILES)] + r0);
    Acquire(locks, InOp, [TABLE], Nothing, FILES, r1);
    Acquire(locks, InOp, [], Nothing, TABLE, [P(FILES)] + r1);
    OpeningIs(v, row, rest);
  }

  lemma OpeningIs(v: nat, row: nat, rest: seq<Instr>)
    ensures Opening(v, row) + rest
         == [P(TABLE)] + ([P(FILES)] + ([Reserve(v, row)] + ([V(FILES)] + ([V(TABLE)] + (Locked(v) + rest)))))
  {
    hide Locked;
  }

  lemma ReserveOrderly(locks: nat, v: nat, row: nat, rest: seq<Instr>)
    requires Volume(v) < locks && Orderly(locks, InOp, [TABLE, FILES], OnFile(row, v), rest)
    ensures Orderly(locks, InOp, [TABLE, FILES], Nothing, [Reserve(v, row)] + rest)
  {
    hide Orderly;
    Prepend(locks, InOp, [TABLE, FILES], Nothing, Reserve(v, row), rest);
  }

  lemma LeaveOrderly(locks: nat, v: nat, rest: seq<Instr>)
    requires Volume(v) < locks && Orderly(locks, InOp, [], Nothing, rest)
    ensures Orderly(locks, InOp, [], Nothing, Leave(v) + rest)
  {
    hide Orderly;
    assert [] + [TABLE] == [TABLE] && [TABLE] + [FILES] == [TABLE, FILES];
    Release(locks, InOp, [], Nothing, TABLE, rest);
    var r0 := [V(TABLE)] + rest;
    Release(locks, InOp, [TABLE], Nothing, FILES, r0);
    var r1 := [V(FILES)] + r0;
    RetireOrderly(locks, v, r1);
    var r2 := [Idle(v), P(Volume(v)), Retire(v)] + r1;
    Acquire(locks, InOp, [TABLE], Found(v), FILES, r2);
    Prepend(locks, InOp, [TABLE], Nothing, Find(v), [P(FILES)] + r2);
    Acquire(locks, InOp, [], Nothing, TABLE, [Find(v)] + ([P(FILES)] + r2));
    LeaveIs(v, rest);
  }

  lemma LeaveIs(v: nat, rest: seq<Instr>)
    ensures Leave(v) + rest
         == [P(TABLE)] + ([Find(v)] + ([P(FILES)] + ([Idle(v), P(Volume(v)), Retire(v)] + ([V(FILES)] + ([V(TABLE)] + rest)))))
  {
  }

  lemma RetireOrderly(locks: nat, v: nat, rest: seq<Instr>)
    requires Volume(v) < locks && Orderly(locks, InOp, [TABLE, FILES], Nothing, rest)
    ensures Orderly(locks, InOp, [TABLE, FILES], Found(v), [Idle(v), P(Volume(v)), Retire(v)] + rest)
  {
    hide Orderly;
    var both, all := [TABLE, FILES], [TABLE, FILES, Volume(v)];
    assert both + [Volume(v)] == all && all[..2] == both;
    Prepend(locks, InOp, all, Leaving(v), Retire(v), rest);
    Acquire(locks, InOp, both, Leaving(v), Volume(v), [Retire(v)] + rest);
    IdleOrderly(locks, v, [P(Volume(v))] + ([Retire(v)] + rest));
    assert [Idle(v), P(Volume(v)), Retire(v)] + rest == [Idle(v)] + ([P(Volume(v))] + ([Retire(v)] + rest));
  }

  lemma IdleOrderly(locks: nat, v: nat, rest: seq<Instr>)
    requires Orderly(locks, InOp, [TABLE, FILES], Leaving(v), rest)
    ensures Orderly(locks, InOp, [TABLE, FILES], Found(v), [Idle(v)] + rest)
  {
    hide Orderly;
    Prepend(locks, InOp, [TABLE, FILES], Found(v), Idle(v), rest);
  }

  lemma FetchOrderly(locks: nat, row: nat, rest: seq<Instr>)
    requires Orderly(locks, InOp, [], Nothing, rest)
    ensures Orderly(locks, InOp, [], Nothing, [Fetch(row)] + rest)
  {
    hide Orderly;
    Prepend(locks, InOp, [], Nothing, Fetch(row), rest);
  }

  lemma TableOrderly(locks: nat, rest: seq<Instr>)
    requires locks >= 3 && Orderly(locks, InOp, [], Nothing, rest)
    ensures Orderly(locks, InOp, [], Nothing, [P(TABLE), V(TABLE)] + rest)
  {
    hide Orderly;
    Release(locks, InOp, [], Nothing, TABLE, rest);
    assert [] + [TABLE] == [TABLE];
    Acquire(locks, InOp, [], Nothing, TABLE, [V(TABLE)] + rest);
    assert [P(TABLE), V(TABLE)] + rest == [P(TABLE)] + ([V(TABLE)] + rest);
  }

  lemma MountOrderly(locks: nat, v: nat, rest: seq<Instr>)
    requires Volume(v) < locks && Orderly(locks, InOp, [], Nothing, rest)
    ensures Orderly(locks, InOp, [], Nothing, [P(TABLE), Mount(v), V(TABLE)] + rest)
  {
    hide Orderly;
    Release(locks, InOp, [], Nothing, TABLE, rest);
    assert [] + [TABLE] == [TABLE];
    Prepend(locks, InOp, [TABLE], Nothing, Mount(v), [V(TABLE)] + rest);
    Acquire(locks, InOp, [], Nothing, TABLE, [Mount(v)] + ([V(TABLE)] + rest));
    assert [P(TABLE), Mount(v), V(TABLE)] + rest == [P(TABLE)] + ([Mount(v)] + ([V(TABLE)] + rest));
  }

  /** The mount table is locked while a filesystem found in it is used. */
  lemma UseOrderly(locks: nat, v: nat, rest: seq<Instr>)
    requires Volume(v) < locks && Orderly(locks, InOp, [], Nothing, rest)
    ensures Orderly(locks, InOp, [], Nothing, [P(TABLE), Find(v)] + Locked(v) + [V(TABLE)] + rest)
  {
    hide Orderly, Locked;
    var last := [V(TABLE)] + rest;
    Release(locks, InOp, [], Nothing, TABLE, rest);
    assert [] + [TABLE] == [TABLE];
    FoundOrderly(locks, v, last);
    Acquire(locks, InOp, [], Nothing, TABLE, [Find(v)] + (Locked(v) + last));
    assert [P(TABLE), Find(v)] + Locked(v) + [V(TABLE)] + rest == [P(TABLE)] + ([Find(v)] + (Locked(v) + last));
  }

  lemma FoundOrderly(locks: nat, v: nat, rest: seq<Instr>)
    requires Volume(v) < locks && Orderly(locks, InOp, [TABLE], Nothing, rest)
    ensures Orderly(locks, InOp, [TABLE], Nothing, [Find(v)] + (Locked(v) + rest))
  {
    hide Orderly;
    LockedOrderly(locks, [TABLE], Found(v), v, rest);
    Prepend(locks, InOp, [TABLE], Nothing, Find(v), Locked(v) + rest);
  }

  lemma PathOrderly(locks: nat, v: nat, row: nat, i: nat)
    requires Volume(v) < locks && i < |Paths(v, row)|
    ensures Orderly(locks, InOp, [], Nothing, Paths(v, row)[i] + [End])
  {
    hide Orderly, Opening, Leave, Locked;
    var end := [End];
    EndOrderly(locks);
    if i == 0 {
      assert [] + end == end;
    } else if i == 1 {
      TableOrderly(locks, end);
    } else if i == 2 {
      MountOrderly(locks, v, end);
    } else if i == 3 {
      LeaveOrderly(locks, v, end);
    } else if i == 4 {
      OpeningOrderly(locks, v, row, end);
    } else if i == 5 {
      var drop := [P(FILES), Drop(row), V(FILES)];
      ClearOrderly(locks, Drop(row), end);
      OpeningOrderly(locks, v, row, drop + end);
      assert Opening(v, row) + drop + end == Opening(v, row) + (drop + end);
    } else if i == 6 {
      ClearOrderly(locks, Close(row), end);
    } else if i == 7 {
      FilesOrderly(locks, end);
    } else if i == 8 {
      FetchOrderly(locks, row, end);
    } else if i == 9 {
      var more := [P(FILES), V(FILES)] + end;
      FilesOrderly(locks, end);
      FetchOrderly(locks, row, more);
      assert [Fetch(row), P(FILES), V(FILES)] + end == [Fetch(row)] + more;
    } else {
      UseOrderly(locks, v, end);
    }
  }

  lemma EndOrderly(locks: nat)
    ensures Orderly(locks, InOp, [], Nothing, [End])
  {
  }

  lemma NoLocks(locks: nat)
    ensures forall m :: HeldOk(locks, m, [])
  {
  }

  /** Every path of every operation of vfs.c. */
  lemma OperationsOrderly(locks: nat, v: nat, row: nat, i: nat)
    requires Volume(v) < locks && i < |Paths(v, row)|
    ensures CallOk(locks, Operation(Paths(v, row)[i])) && Operation(Paths(v, row)[i]).mode == Fresh
  {
    hide HeldOk, Paths;
    var path := Paths(v, row)[i];
    NoLocks(locks);
    PathOrderly(locks, v, row, i);
    assert [Start] + path + [End] == [Start] + (path + [End]);
    assert ([Start] + (path + [End]))[1..] == path + [End];
  }

  lemma {:induction false} RoundsOrderly(locks: nat, mode: Mode, volumes: seq<nat>, rest: seq<Instr>)
    requires Runs(mode) && forall i :: 0 <= i < |volumes| ==> Volume(volumes[i]) < locks
    requires Orderly(locks, mode, [OP, TABLE, FILES], Nothing, rest)
    ensures Orderly(locks, mode, [OP, TABLE, FILES], Nothing, Rounds(volumes) + rest)
    decreases |volumes|
  {
    hide Orderly;
    if volumes == [] {
      assert Rounds(volumes) + rest == rest;
    } else {
      var more := Rounds(volumes[1..]) + rest;
      RoundsOrderly(locks, mode, volumes[1..], rest);
      Prepend(locks, mode, [OP, TABLE, FILES], Nothing, Visit(volumes[0]), more);
      assert Rounds(volumes) + rest == [Visit(volumes[0])] + more;
    }
  }

  lemma TailOrderly(locks: nat, mode: Mode, volumes: seq<nat>)
    requires Runs(mode) && locks >= 3 && forall i :: 0 <= i < |volumes| ==> Volume(volumes[i]) < locks
    ensures Orderly(locks, mode, [OP], Nothing, Tail(volumes))
  {
    hide Orderly;
    NothingLeft(locks, mode);
    assert [] + [OP] == [OP] && [OP] + [TABLE] == [OP, TABLE] && [OP, TABLE] + [FILES] == [OP, TABLE, FILES];
    Release(locks, mode, [], Nothing, OP, []);
    Release(locks, mode, [OP], Nothing, TABLE, [V(OP)] + []);
    Release(locks, mode, [OP, TABLE], Nothing, FILES, [V(TABLE)] + ([V(OP)] + []));
    var last := [V(FILES), V(TABLE), V(OP)];
    assert last == [V(FILES)] + ([V(TABLE)] + ([V(OP)] + []));
    RoundsOrderly(locks, mode, volumes, last);
    var more := Rounds(volumes) + last;
    Acquire(locks, mode, [OP, TABLE], Nothing, FILES, more);
    Acquire(locks, mode, [OP], Nothing, TABLE, [P(FILES)] + more);
    assert Tail(volumes) == [P(TABLE)] + ([P(FILES)] + more);
  }

  lemma NothingLeft(locks: nat, mode: Mode)
    requires Runs(mode)
    ensures Orderly(locks, mode, [], Nothing, [])
  {
  }

  /** vfs_deinit over any filesystems. */
  lemma DeinitOrderly(locks: nat, volumes: seq<nat>)
    requires locks >= 3 && forall i :: 0 <= i < |volumes| ==> Volume(volumes[i]) < locks
    ensures CallOk(locks, Deinit(volumes)) && Deinit(volumes).mode == Closing(Called)
  {
    hide HeldOk;
    NoLocks(locks);
    TailOrderly(locks, Closing(Running(false)), volumes);
    TailOrderly(locks, Closing(Running(true)), volumes);
    assert ([Begin] + Tail(volumes))[1..] == Tail(volumes);
    assert OrderlyTail(locks, Tail(volumes));
  }
}
