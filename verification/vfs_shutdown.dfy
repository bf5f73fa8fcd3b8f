/** The virtual filesystem layer (fs/vfs.c) with any number of calls at once: operations in flight, mounting, open
    files, and the one forced shutdown. */
module VfsShutdown {
  import opened VfsCalls

  /** The holder of a lock that was destroyed: nobody gets it any more. */
  const RETIRED := -2

  datatype State = State(
    ops: int, usable: bool,
    signals: nat,          // value of vfs_unmount_sem
    sent: nat,             // how often it was raised
    owner: seq<int>,       // holder of each lock, -1, or RETIRED
    mounted: set<nat>,     // filesystems in the mount table
    files: seq<int>,       // filesystem of each row of the open-file table, or -1
    calls: seq<Call>)

  // ----- steps -----

  predicate Shape(s: State) {
    && 3 <= |s.owner|
    && (forall l :: 0 <= l < |s.owner| ==> -2 <= s.owner[l] < |s.calls|)
    && (forall t :: 0 <= t < |s.calls| ==> CallOk(|s.owner|, s.calls[t]))
  }

  /** Whether call `t` can take its next step now. */
  predicate Ready(s: State, t: nat)
    requires Shape(s) && t < |s.calls|
  {
    !Done(s.calls[t]) &&
    match s.calls[t].rest[0]
    case P(l) => l < |s.owner| && s.owner[l] == -1
    case Wait => s.signals > 0
    case Start => s.owner[OP] == -1
    case End => s.owner[OP] == -1
    case Begin => s.owner[OP] == -1
    case Resume => s.owner[OP] == -1
    case _ => true
  }

  predicate IsOpen(s: State, row: nat) { row < |s.files| && s.files[row] >= 0 }

  /** Some row of the open-file table holds filesystem `v`. */
  predicate InUse(s: State, v: nat) {
    exists r :: 0 <= r < |s.files| && s.files[r] == v
  }

  /** Call `t` after a step, nothing else changed. */
  function Put(s: State, t: nat, c: Call): State
    requires t < |s.calls|
  {
    s.(calls := s.calls[t := c])
  }

  /** Call `t` goes on to its next step. */
  function On(s: State, t: nat): State
    requires t < |s.calls| && s.calls[t].rest != []
  {
    var c := s.calls[t];
    Put(s, t, c.(held := HeldNext(c.held, c.rest[0]), use := UseNext(c.use, c.rest[0]), rest := c.rest[1..]))
  }

  /** Call `t` gives up. */
  function Bail(s: State, t: nat): State
    requires t < |s.calls|
  {
    Put(s, t, s.calls[t].(use := Nothing, rest := Exit(s.calls[t].held)))
  }

  function Go(s: State, t: nat): State
    requires Shape(s) && t < |s.calls| && Ready(s, t)
  {
    var c := s.calls[t];
    var rest := c.rest[1..];
    match c.rest[0]
    case Start =>
      if s.usable then Put(s, t, Call(InOp, [], Nothing, rest)).(ops := s.ops + 1)
      else Put(s, t, Call(Fresh, [], Nothing, []))
    case End =>
      var s1 := Put(s, t, Call(Fresh, [], Nothing, rest)).(ops := s.ops - 1);
      if !s.usable && s.ops - 1 == 0 then s1.(signals := s.signals + 1, sent := s.sent + 1) else s1
    case P(l) => On(s, t).(owner := s.owner[l := t])
    case V(l) => if l < |s.owner| then On(s, t).(owner := s.owner[l := -1]) else s
    case Begin =>
      if s.ops > 0 then Put(s, t, Call(Closing(Waiting), [], Nothing, [Wait, Resume] + rest)).(usable := false)
      else Put(s, t, Call(Closing(Running(false)), [OP], Nothing, rest)).(usable := false, owner := s.owner[OP := t])
    case Wait => Put(s, t, Call(Closing(Woken), [], Nothing, rest)).(signals := s.signals - 1)
    case Resume => Put(s, t, Call(Closing(Running(true)), [OP], Nothing, rest)).(owner := s.owner[OP := t])
    case Find(v) => if v in s.mounted then On(s, t) else Bail(s, t)
    case Mount(v) =>
      if Volume(v) < |s.owner| && s.owner[Volume(v)] != RETIRED then On(s, t).(mounted := s.mounted + {v}) else Bail(s, t)
    case Reserve(v, row) =>
      if v in s.mounted && row < |s.files| && s.files[row] == -1 then On(s, t).(files := s.files[row := v]) else Bail(s, t)
    case Fetch(row) =>
      if IsOpen(s, row) then Put(s, t, c.(use := OnFile(row, s.files[row]), rest := Locked(s.files[row]) + rest))
      else Bail(s, t)
    case Close(row) => if IsOpen(s, row) then On(s, t).(files := s.files[row := -1]) else Bail(s, t)
    case Drop(row) => if IsOpen(s, row) then On(s, t).(files := s.files[row := -1]) else On(s, t)
    case Idle(v) => if InUse(s, v) then Bail(s, t) else On(s, t)
    case Retire(v) =>
      if Volume(v) < |s.owner| then On(s, t).(owner := s.owner[Volume(v) := RETIRED], mounted := s.mounted - {v}) else s
    case Visit(v) =>
      if v in s.mounted then Put(s, t, c.(use := Found(v), rest := [P(Volume(v)), Retire(v)] + rest)) else On(s, t)
  }

  // ----- the invariant -----

  /** A lock's owner holds it, and nobody else does. */
  predicate OwnerOk(s: State, l: nat)
    requires Shape(s) && l < |s.owner|
  {
    forall t :: 0 <= t < |s.calls| ==> (Has(s.calls[t], l) <==> s.owner[l] == t)
  }

  /** The number of calls counted in vfs_ops. */
  function Active(calls: seq<Call>): nat {
    if calls == [] then 0 else Active(calls[..|calls| - 1]) + if calls[|calls| - 1].mode == InOp then 1 else 0
  }

  predicate IsCloser(c: Call) { c.mode.Closing? }

  /** At most one call of vfs_deinit. */
  predicate OneCloser(s: State) {
    forall t, u :: 0 <= t < u < |s.calls| ==> !(IsCloser(s.calls[t]) && IsCloser(s.calls[u]))
  }

  /** How the flag, the counter and vfs_unmount_sem go with the stage of the shutdown. */
  predicate StageOk(s: State, stage: Stage) {
    match stage
    case Called => s.usable && s.signals == 0 && s.sent == 0
    case Waiting => !s.usable && s.signals == s.sent == (if s.ops == 0 then 1 else 0)
    case Woken => !s.usable && s.ops == 0 && s.signals == 0 && s.sent == 1
    case Running(waited) => !s.usable && s.ops == 0 && s.signals == 0 && s.sent == if waited then 1 else 0
  }

  predicate ShutdownOk(s: State) {
    && (forall t :: 0 <= t < |s.calls| && IsCloser(s.calls[t]) ==> StageOk(s, s.calls[t].mode.stage))
    && (!s.usable ==> exists t :: 0 <= t < |s.calls| && IsCloser(s.calls[t]) && s.calls[t].mode.stage != Called)
    && (s.usable ==> s.signals == 0 && s.sent == 0)
  }

  /** Mounted filesystems have a lock that works; until the shutdown runs open files are on mounted filesystems. */
  predicate TablesOk(s: State) {
    && (forall l :: 0 <= l < 3 && l < |s.owner| ==> s.owner[l] != RETIRED)
    && (forall v :: v in s.mounted ==> Volume(v) < |s.owner| && s.owner[Volume(v)] != RETIRED)
    && (forall r :: 0 <= r < |s.files| ==> s.files[r] >= -1)
    && (forall r :: 0 <= r < |s.files| && s.files[r] >= 0 ==> Volume(s.files[r]) < |s.owner|)
    && (s.usable || s.ops > 0 ==> forall r :: 0 <= r < |s.files| && s.files[r] >= 0 ==> s.files[r] in s.mounted)
  }

  /** What call `c` knows of a filesystem is true, for as long as it relies on it. */
  predicate UseOk(s: State, c: Call) {
    match c.use
    case Nothing => true
    case Found(v) => TABLE in c.held && v in s.mounted
    case Leaving(v) => TABLE in c.held && FILES in c.held && v in s.mounted && !InUse(s, v)
    case OnFile(_, v) => Volume(v) < |s.owner|
  }

  predicate Inv(s: State) {
    && Shape(s)
    && (forall l :: 0 <= l < |s.owner| ==> OwnerOk(s, l))
    && s.ops == Active(s.calls)
    && OneCloser(s)
    && ShutdownOk(s)
    && TablesOk(s)
    && (forall t :: 0 <= t < |s.calls| ==> UseOk(s, s.calls[t]))
  }

  // ----- every step keeps the invariant -----

  /** The call after its step. */
  function CallAfter(s: State, t: nat): Call
    requires Shape(s) && t < |s.calls| && Ready(s, t)
  {
    Go(s, t).calls[t]
  }

  lemma OnlyCallMoves(s: State, t: nat)
    requires Shape(s) && t < |s.calls| && Ready(s, t)
    ensures Go(s, t).calls == s.calls[t := CallAfter(s, t)]
    ensures |Go(s, t).owner| == |s.owner| && |Go(s, t).files| == |s.files|
  {
    hide CallOk, Exit, Locked, On, Bail, Put;
    Unfinished(s, t);
    OnMoves(s, t);
    forall d: Call ensures Put(s, t, d) == s.(calls := s.calls[t := d]) { PutIs(s, t, d); }
  }

  lemma PutIs(s: State, t: nat, d: Call)
    requires t < |s.calls|
    ensures Put(s, t, d) == s.(calls := s.calls[t := d])
  {
  }

  lemma OnMoves(s: State, t: nat)
    requires t < |s.calls| && s.calls[t].rest != []
    ensures var w := On(s, t); |w.calls| == |s.calls| && w == s.(calls := s.calls[t := w.calls[t]])
    ensures var w := Bail(s, t); |w.calls| == |s.calls| && w == s.(calls := s.calls[t := w.calls[t]])
  {
    hide Exit, HeldNext, UseNext;
  }

  lemma TakeLock(locks: nat, mode: Mode, held: seq<nat>, l: nat)
    requires HeldOk(locks, mode, held) && Above(held, l) && l < locks && (l != OP || Runs(mode))
    ensures HeldOk(locks, mode, held + [l])
  {
  }

  lemma DropLock(locks: nat, mode: Mode, held: seq<nat>)
    requires HeldOk(locks, mode, held) && held != []
    ensures HeldOk(locks, mode, held[..|held| - 1])
  {
  }

  /** Steps inside an operation, or inside the loop of vfs_deinit. */
  predicate Inner(i: Instr) {
    i != Start && i != End && i != Begin && i != Wait && i != Resume
  }

  /** Steps on which an operation may give up. */
  predicate MayFail(i: Instr) { i.Find? || i.Mount? || i.Reserve? || i.Fetch? || i.Close? || i.Idle? }

  lemma OnKept(locks: nat, c: Call)
    requires CallOk(locks, c) && c.rest != [] && Inner(c.rest[0])
    ensures CallOk(locks, Call(c.mode, HeldNext(c.held, c.rest[0]), UseNext(c.use, c.rest[0]), c.rest[1..]))
  {
    hide HeldOk, Above;
    var i := c.rest[0];
    assert c.mode == InOp || Runs(c.mode);
    if i.P? { TakeLock(locks, c.mode, c.held, i.lock); }
    if i.V? || i.Retire? { DropLock(locks, c.mode, c.held); }
  }

  lemma BailKept(locks: nat, c: Call)
    requires CallOk(locks, c) && c.mode == InOp
    ensures CallOk(locks, c.(use := Nothing, rest := Exit(c.held)))
  {
    hide HeldOk;
    ExitOrderly(locks, c.held);
  }

  lemma FetchKept(locks: nat, c: Call, row: nat, v: nat)
    requires CallOk(locks, c) && c.rest != [] && c.rest[0] == Fetch(row) && Volume(v) < locks
    ensures CallOk(locks, c.(use := OnFile(row, v), rest := Locked(v) + c.rest[1..]))
  {
    hide HeldOk;
    LockedOrderly(locks, [], OnFile(row, v), v, c.rest[1..]);
  }

  lemma VisitKept(locks: nat, c: Call, v: nat)
    requires CallOk(locks, c) && c.rest != [] && c.rest[0] == Visit(v)
    ensures CallOk(locks, c.(use := Found(v), rest := [P(Volume(v)), Retire(v)] + c.rest[1..]))
  {
    hide HeldOk;
    var rest := c.rest[1..];
    var all := [OP, TABLE, FILES, Volume(v)];
    assert [OP, TABLE, FILES] + [Volume(v)] == all && all[..3] == [OP, TABLE, FILES];
    Prepend(locks, c.mode, all, Found(v), Retire(v), rest);
    Acquire(locks, c.mode, [OP, TABLE, FILES], Found(v), Volume(v), [Retire(v)] + rest);
    assert [P(Volume(v)), Retire(v)] + rest == [P(Volume(v))] + ([Retire(v)] + rest);
  }

  /** What a step inside an operation makes of its call. */
  lemma InnerAfter(s: State, t: nat)
    requires Shape(s) && t < |s.calls| && Ready(s, t) && Inner(s.calls[t].rest[0])
    ensures var c := s.calls[t]; var d := CallAfter(s, t);
            || d == Call(c.mode, HeldNext(c.held, c.rest[0]), UseNext(c.use, c.rest[0]), c.rest[1..])
            || (MayFail(c.rest[0]) && c.mode == InOp && d == c.(use := Nothing, rest := Exit(c.held)))
            || (c.rest[0].Fetch? && IsOpen(s, c.rest[0].row)
                && d == c.(use := OnFile(c.rest[0].row, s.files[c.rest[0].row]),
                           rest := Locked(s.files[c.rest[0].row]) + c.rest[1..]))
            || (c.rest[0].Visit? && d == c.(use := Found(c.rest[0].v),
                                            rest := [P(Volume(c.rest[0].v)), Retire(c.rest[0].v)] + c.rest[1..]))
  {
    hide Exit;
    Releases(s, t);
    assert CallOk(|s.owner|, s.calls[t]);
  }

  /** Whether the tables refuse a step of an operation: nothing mounted there, no free row, a file that is not open, or one
      that is. */
  predicate Refused(s: State, i: Instr) {
    match i
    case Find(v) => v !in s.mounted
    case Mount(v) => Volume(v) >= |s.owner| || s.owner[Volume(v)] == RETIRED
    case Reserve(v, row) => v !in s.mounted || row >= |s.files| || s.files[row] != -1
    case Fetch(row) => row >= |s.files| || s.files[row] < 0
    case Close(row) => row >= |s.files| || s.files[row] < 0
    case Idle(v) => exists r :: 0 <= r < |s.files| && s.files[r] == v
    case _ => false
  }

  /** An operation gives up exactly then, releasing what it holds and changing no table; otherwise it goes on. */
  lemma GivesUpIff(s: State, t: nat)
    requires Shape(s) && t < |s.calls| && Ready(s, t) && MayFail(s.calls[t].rest[0])
    ensures var c := s.calls[t]; var i := c.rest[0]; var d := CallAfter(s, t);
            if Refused(s, i) then
              d == c.(use := Nothing, rest := Exit(c.held)) && Go(s, t).mounted == s.mounted && Go(s, t).files == s.files
            else if i.Fetch? then
              i.row < |s.files| && s.files[i.row] >= 0
              && d == c.(use := OnFile(i.row, s.files[i.row]), rest := Locked(s.files[i.row]) + c.rest[1..])
            else d == Call(c.mode, c.held, UseNext(c.use, i), c.rest[1..])
  {
    hide Exit, Locked;
    assert CallOk(|s.owner|, s.calls[t]);
  }

  lemma ModeStepKept(s: State, t: nat)
    requires Shape(s) && t < |s.calls| && Ready(s, t) && !Inner(s.calls[t].rest[0])
    ensures CallOk(|s.owner|, CallAfter(s, t))
  {
    hide HeldOk;
    var c := s.calls[t];
    assert CallOk(|s.owner|, c) && c.held == [];
    NoLocks(|s.owner|);
    RunningKept(|s.owner|, c.rest);
    match c.rest[0]
    case Start =>
    case End =>
    case Wait => assert c.rest[1..][1..] == c.rest[2..];
    case Resume =>
    case Begin =>
      var w := [Wait, Resume] + c.rest[1..];
      assert w[0] == Wait && w[1] == Resume && w[2..] == c.rest[1..];
  }

  lemma RunningKept(locks: nat, rest: seq<Instr>)
    requires locks >= 3 && rest != []
    ensures OrderlyTail(locks, rest[1..]) ==> CallOk(locks, Call(Closing(Running(false)), [OP], Nothing, rest[1..]))
    ensures OrderlyTail(locks, rest[1..]) ==> CallOk(locks, Call(Closing(Running(true)), [OP], Nothing, rest[1..]))
  {
  }

  lemma CallKept(s: State, t: nat)
    requires Inv(s) && t < |s.calls| && Ready(s, t)
    ensures CallOk(|s.owner|, CallAfter(s, t))
  {
    hide CallOk, HeldOk, Orderly, Go, Active, OneCloser, OwnerOk, ShutdownOk, UseOk, Ready, Exit;
    var c := s.calls[t];
    assert CallOk(|s.owner|, c) && c.rest != [] by { Unfinished(s, t); }
    if Inner(c.rest[0]) {
      InnerAfter(s, t);
      OnKept(|s.owner|, c);
      if c.mode == InOp { BailKept(|s.owner|, c); }
      if c.rest[0].Fetch? && IsOpen(s, c.rest[0].row) { FetchKept(|s.owner|, c, c.rest[0].row, s.files[c.rest[0].row]); }
      if c.rest[0].Visit? { VisitKept(|s.owner|, c, c.rest[0].v); }
    } else {
      ModeStepKept(s, t);
    }
  }

  lemma Unfinished(s: State, t: nat)
    requires Shape(s) && t < |s.calls| && Ready(s, t)
    ensures s.calls[t].rest != [] && CallOk(|s.owner|, s.calls[t])
  {
    hide CallOk;
  }

  lemma GoShape(s: State, t: nat)
    requires Inv(s) && t < |s.calls| && Ready(s, t)
    ensures Shape(Go(s, t))
  {
    hide CallOk, Active, OneCloser, OwnerOk, ShutdownOk, UseOk, Go, TablesOk;
    CallKept(s, t);
    OnlyCallMoves(s, t);
    OwnerAfter(s, t);
  }

  /** What a step does to the locks of its call. */
  lemma HeldAfter(s: State, t: nat, l: nat)
    requires Shape(s) && t < |s.calls| && Ready(s, t)
    ensures var c := s.calls[t]; var i := c.rest[0];
            Has(CallAfter(s, t), l) <==>
              if i.P? && i.lock == l then true
              else if (i.V? && i.lock == l) || (i.Retire? && Volume(i.v) == l) then false
              else if l == OP && (i == Resume || (i == Begin && s.ops <= 0)) then true
              else Has(c, l)
  {
    hide Exit, Orderly, Go;
    var c := s.calls[t];
    Unfinished(s, t);
    if Inner(c.rest[0]) {
      InnerAfter(s, t);
      LastOut(|s.owner|, c);
      if c.rest[0].V? || c.rest[0].Retire? { LastLock(c.held, l); }
    } else {
      OuterHeld(s, t);
    }
  }

  lemma LastOut(locks: nat, c: Call)
    requires CallOk(locks, c) && c.rest != []
    ensures c.rest[0].V? ==> c.held != [] && c.held[|c.held| - 1] == c.rest[0].lock
    ensures c.rest[0].Retire? ==> c.held != [] && c.held[|c.held| - 1] == Volume(c.rest[0].v)
  {
  }

  lemma OuterHeld(s: State, t: nat)
    requires Shape(s) && t < |s.calls| && Ready(s, t) && !Inner(s.calls[t].rest[0])
    ensures var c := s.calls[t]; var i := c.rest[0];
            c.held == [] && CallAfter(s, t).held == if i == Resume || (i == Begin && s.ops <= 0) then [OP] else []
  {
    hide HeldOk;
    assert CallOk(|s.owner|, s.calls[t]);
  }

  /** Releasing the last lock taken releases that one only. */
  lemma LastLock(held: seq<nat>, l: nat)
    requires held != [] && forall i, j :: 0 <= i < j < |held| ==> held[i] < held[j]
    ensures l in held[..|held| - 1] <==> l in held && l != held[|held| - 1]
  {
    assert held == held[..|held| - 1] + [held[|held| - 1]];
  }

  /** A call releases or destroys only what it holds. */
  lemma Releases(s: State, t: nat)
    requires Shape(s) && t < |s.calls| && Ready(s, t)
    ensures var c := s.calls[t];
            && (c.rest[0].V? ==> Has(c, c.rest[0].lock) && c.rest[0].lock < |s.owner|)
            && (c.rest[0].Retire? ==> Has(c, Volume(c.rest[0].v)) && Volume(c.rest[0].v) < |s.owner|)
  {
    assert CallOk(|s.owner|, s.calls[t]);
  }

  /** How a step changes the holders of locks. */
  lemma OwnerAfter(s: State, t: nat)
    requires Shape(s) && t < |s.calls| && Ready(s, t)
    ensures var i := s.calls[t].rest[0]; var owner := Go(s, t).owner;
            owner == if i.P? then s.owner[i.lock := t]
                     else if i.V? && i.lock < |s.owner| then s.owner[i.lock := -1]
                     else if i.Retire? && Volume(i.v) < |s.owner| then s.owner[Volume(i.v) := RETIRED]
                     else if i == Resume || (i == Begin && s.ops <= 0) then s.owner[OP := t]
                     else s.owner
  {
    hide CallOk;
  }

  lemma OwnerKept(s: State, t: nat, l: nat)
    requires Inv(s) && t < |s.calls| && Ready(s, t) && l < |s.owner|
    ensures Shape(Go(s, t)) && l < |Go(s, t).owner| && OwnerOk(Go(s, t), l)
  {
    hide CallOk, Active, OneCloser, ShutdownOk, Has, UseOk, TablesOk, Go;
    GoShape(s, t);
    OnlyCallMoves(s, t);
    OwnerAfter(s, t);
    HeldAfter(s, t, l);
    Releases(s, t);
    assert OwnerOk(s, l);
    LockFree(s, t);
  }

  /** A lock that is taken was free. */
  lemma LockFree(s: State, t: nat)
    requires Shape(s) && t < |s.calls| && Ready(s, t)
    ensures var i := s.calls[t].rest[0];
            && (i.P? ==> i.lock < |s.owner| && s.owner[i.lock] == -1)
            && (i == Resume || i == Begin ==> s.owner[OP] == -1)
  {
    hide CallOk;
  }

  lemma {:induction false} ActiveUpdate(calls: seq<Call>, t: nat, c: Call)
    requires t < |calls|
    ensures Active(calls[t := c]) + (if calls[t].mode == InOp then 1 else 0) == Active(calls) + (if c.mode == InOp then 1 else 0)
  {
    var n := |calls| - 1;
    if t == n {
      assert calls[t := c][..n] == calls[..n];
    } else {
      assert calls[t := c][..n] == calls[..n][t := c];
      ActiveUpdate(calls[..n], t, c);
    }
  }

  lemma CountKept(s: State, t: nat)
    requires Inv(s) && t < |s.calls| && Ready(s, t)
    ensures Go(s, t).ops == Active(Go(s, t).calls)
  {
    hide CallOk, OneCloser, ShutdownOk, OwnerOk, UseOk, TablesOk;
    OnlyCallMoves(s, t);
    ActiveUpdate(s.calls, t, CallAfter(s, t));
    ModeAfter(s, t);
  }

  /** How a step changes the mode of its call. */
  lemma ModeAfter(s: State, t: nat)
    requires Shape(s) && t < |s.calls| && Ready(s, t)
    ensures var c := s.calls[t]; var d := CallAfter(s, t);
            && (c.rest[0] == Start ==> c.mode == Fresh && d.mode == if s.usable then InOp else Fresh)
            && (c.rest[0] == End ==> c.mode == InOp && d.mode == Fresh)
            && (c.rest[0] == Begin ==>
                  c.mode == Closing(Called) && d.mode == Closing(if s.ops > 0 then Waiting else Running(false)))
            && (c.rest[0] == Wait ==> c.mode == Closing(Waiting) && d.mode == Closing(Woken))
            && (c.rest[0] == Resume ==> c.mode == Closing(Woken) && d.mode == Closing(Running(true)))
            && (Inner(c.rest[0]) ==> d.mode == c.mode)
  {
    hide HeldOk, Exit;
    assert CallOk(|s.owner|, s.calls[t]);
  }

  lemma CloserKept(s: State, t: nat)
    requires Inv(s) && t < |s.calls| && Ready(s, t)
    ensures OneCloser(Go(s, t))
  {
    hide CallOk, Active, ShutdownOk, OwnerOk, UseOk, TablesOk;
    OnlyCallMoves(s, t);
    ModeAfter(s, t);
    forall u | 0 <= u < |s.calls| ensures IsCloser(Go(s, t).calls[u]) == IsCloser(s.calls[u]) {
    }
  }

  lemma {:induction false} ActiveCall(calls: seq<Call>)
    ensures Active(calls) > 0 ==> exists t :: 0 <= t < |calls| && calls[t].mode == InOp
    ensures forall t :: 0 <= t < |calls| && calls[t].mode == InOp ==> Active(calls) > 0
  {
    if calls != [] {
      ActiveCall(calls[..|calls| - 1]);
    }
  }

  /** How a step changes the flag, the counter and vfs_unmount_sem. */
  lemma FlagsAfter(s: State, t: nat)
    requires Shape(s) && t < |s.calls| && Ready(s, t)
    ensures var i := s.calls[t].rest[0]; var s' := Go(s, t);
            && (Inner(i) || i == Resume ==>
                  s'.usable == s.usable && s'.ops == s.ops && s'.signals == s.signals && s'.sent == s.sent)
            && (i == Begin ==> !s'.usable && s'.ops == s.ops && s'.signals == s.signals && s'.sent == s.sent)
            && (i == Wait ==> s'.usable == s.usable && s'.ops == s.ops && s'.signals == s.signals - 1 && s'.sent == s.sent)
            && (i == Start ==> s'.usable == s.usable && s'.ops == (if s.usable then s.ops + 1 else s.ops)
                               && s'.signals == s.signals && s'.sent == s.sent)
            && (i == End ==> s'.usable == s.usable && s'.ops == s.ops - 1
                             && (var d := if !s.usable && s.ops - 1 == 0 then 1 else 0;
                                 s'.signals == s.signals + d && s'.sent == s.sent + d))
  {
    hide CallOk;
  }

  /** Starting, ending and waking keep the flag, the counter and the semaphore in step with the shutdown. */
  lemma ShutdownKept(s: State, t: nat)
    requires Inv(s) && t < |s.calls| && Ready(s, t)
    ensures ShutdownOk(Go(s, t))
  {
    hide CallOk, Active, OwnerOk, UseOk, TablesOk, Go;
    OnlyCallMoves(s, t);
    ModeAfter(s, t);
    FlagsAfter(s, t);
    ActiveCall(s.calls);
    var s' := Go(s, t);
    forall u | 0 <= u < |s'.calls| && IsCloser(s'.calls[u]) ensures StageOk(s', s'.calls[u].mode.stage) {
      assert IsCloser(s.calls[u]) && StageOk(s, s.calls[u].mode.stage);
    }
    if !s.usable {
      var u :| 0 <= u < |s.calls| && IsCloser(s.calls[u]) && s.calls[u].mode.stage != Called;
      assert IsCloser(s'.calls[u]) && s'.calls[u].mode.stage != Called;
    } else if s.calls[t].rest[0] == Begin {
      assert IsCloser(s'.calls[t]) && s'.calls[t].mode.stage != Called;
    }
  }

  /** What the step needs to hold to change the tables. */
  lemma TableHeld(s: State, t: nat)
    requires Shape(s) && t < |s.calls| && Ready(s, t)
    ensures var c := s.calls[t]; var i := c.rest[0];
            && (i.Retire? ==> TABLE in c.held && FILES in c.held && (c.use == Leaving(i.v) || Runs(c.mode)))
            && (i.Close? || i.Drop? || i.Reserve? ==> FILES in c.held)
            && (i.Mount? || i.Reserve? || i.Find? ==> TABLE in c.held && Volume(i.v) < |s.owner|)
            && (i.Idle? ==> TABLE in c.held && FILES in c.held && c.use == Found(i.v))
            && (i.Visit? ==> TABLE in c.held)
  {
    assert CallOk(|s.owner|, s.calls[t]);
  }

  /** How a step changes the tables. */
  lemma TablesAfter(s: State, t: nat)
    requires Shape(s) && t < |s.calls| && Ready(s, t)
    ensures var i := s.calls[t].rest[0]; var s' := Go(s, t);
            && s'.mounted == (if i.Retire? && Volume(i.v) < |s.owner| then s.mounted - {i.v}
                              else if i.Mount? && Volume(i.v) < |s.owner| && s.owner[Volume(i.v)] != RETIRED
                              then s.mounted + {i.v}
                              else s.mounted)
            && s'.files == if i.Reserve? && i.v in s.mounted && i.row < |s.files| && s.files[i.row] == -1
                           then s.files[i.row := i.v]
                           else if (i.Close? || i.Drop?) && IsOpen(s, i.row) then s.files[i.row := -1]
                           else s.files
  {
    hide CallOk;
  }

  lemma TablesKept(s: State, t: nat)
    requires Inv(s) && t < |s.calls| && Ready(s, t)
    ensures TablesOk(Go(s, t))
  {
    hide CallOk, Active, OwnerOk, Go;
    OwnerAfter(s, t);
    TablesAfter(s, t);
    FlagsAfter(s, t);
    TableHeld(s, t);
    LockFree(s, t);
    var c := s.calls[t];
    assert UseOk(s, c);
    if Runs(c.mode) { assert StageOk(s, c.mode.stage); }
  }

  lemma UseKept(s: State, t: nat, u: nat)
    requires Inv(s) && t < |s.calls| && Ready(s, t) && u < |s.calls| && u != t
    ensures UseOk(Go(s, t), s.calls[u])
  {
    hide CallOk, Active, OneCloser, ShutdownOk, Go;
    TablesAfter(s, t);
    TableHeld(s, t);
    OwnerAfter(s, t);
    assert UseOk(s, s.calls[u]) && OwnerOk(s, TABLE) && OwnerOk(s, FILES);
  }

  lemma OwnUseKept(s: State, t: nat)
    requires Inv(s) && t < |s.calls| && Ready(s, t)
    ensures UseOk(Go(s, t), CallAfter(s, t))
  {
    hide CallOk, Active, OneCloser, ShutdownOk, OwnerOk, Exit;
    assert UseOk(s, s.calls[t]);
    TableHeld(s, t);
    Releases(s, t);
    StaysHeld(s, t);
  }

  /** A call that gives a lock back no longer relies on what the lock protects. */
  lemma StaysHeld(s: State, t: nat)
    requires Shape(s) && t < |s.calls| && Ready(s, t)
    ensures var c := s.calls[t]; var d := CallAfter(s, t);
            d.use == c.use && !c.use.OnFile? && c.use != Nothing ==> forall l :: Has(c, l) ==> Has(d, l)
  {
    hide Exit;
    assert CallOk(|s.owner|, s.calls[t]);
  }

  lemma StepKeeps(s: State, t: nat)
    requires Inv(s) && t < |s.calls| && Ready(s, t)
    ensures Inv(Go(s, t))
  {
    hide CallOk, Active, OwnerOk, OneCloser, ShutdownOk, Ready, UseOk, TablesOk, Go;
    GoShape(s, t);
    CountKept(s, t);
    CloserKept(s, t);
    ShutdownKept(s, t);
    TablesKept(s, t);
    OnlyCallMoves(s, t);
    OwnUseKept(s, t);
    forall l | 0 <= l < |s.owner| ensures OwnerOk(Go(s, t), l) { OwnerKept(s, t, l); }
    forall u | 0 <= u < |s.calls| ensures UseOk(Go(s, t), Go(s, t).calls[u]) {
      if u != t { UseKept(s, t, u); }
    }
  }

  // ----- whole runs -----

  /** Any calls at all, before any of them has begun, with any filesystems mounted and any files open on them. */
  predicate Initial(s: State) {
    && 3 <= |s.owner| && (forall l :: 0 <= l < |s.owner| ==> s.owner[l] == -1)
    && s.ops == 0 && s.usable && s.signals == 0 && s.sent == 0
    && (forall t :: 0 <= t < |s.calls| ==>
          CallOk(|s.owner|, s.calls[t]) && (s.calls[t].mode == Fresh || s.calls[t].mode == Closing(Called)))
    && OneCloser(s)
    && TablesOk(s)
  }

  lemma InitialInv(s: State)
    requires Initial(s)
    ensures Inv(s)
  {
    hide Orderly, TablesOk;
    ActiveCall(s.calls);
    assert Active(s.calls) == 0;
    forall t | 0 <= t < |s.calls| ensures s.calls[t].held == [] && s.calls[t].use == Nothing {
      StartsEmpty(|s.owner|, s.calls[t]);
    }
  }

  lemma StartsEmpty(locks: nat, c: Call)
    requires CallOk(locks, c) && (c.mode == Fresh || c.mode == Closing(Called))
    ensures c.held == [] && c.use == Nothing
  {
  }

  ghost predicate Run(s: State, order: seq<nat>, s': State)
    decreases |order|
  {
    if order == [] then s == s'
    else Shape(s) && order[0] < |s.calls| && Ready(s, order[0]) && Run(Go(s, order[0]), order[1..], s')
  }

  lemma {:induction false} RunKeeps(s: State, order: seq<nat>, s': State)
    requires Inv(s) && Run(s, order, s')
    ensures Inv(s')
    decreases |order|
  {
    hide Inv, Go, Ready;
    if order != [] {
      StepKeeps(s, order[0]);
      RunKeeps(Go(s, order[0]), order[1..], s');
    }
  }

  /** In every interleaving vfs_ops is the number of operations between start and end, the unmount loop runs only when
      none is active and none can start, and both assertions hold. */
  lemma SafeShutdown(s: State, order: seq<nat>, s': State, t: nat)
    requires Initial(s) && Run(s, order, s') && t < |s'.calls| && s'.calls[t].rest != []
    ensures s'.ops == Active(s'.calls) >= 0
    ensures Runs(s'.calls[t].mode) ==>
              !s'.usable && s'.ops == 0 && forall u :: 0 <= u < |s'.calls| ==> s'.calls[u].mode != InOp
    ensures s'.calls[t].rest[0].Visit? ==> Runs(s'.calls[t].mode)
    ensures s'.calls[t].rest[0] == Resume ==> s'.ops == 0
    ensures s'.calls[t].rest[0] == End ==> s'.ops - 1 >= 0
  {
    hide OwnerOk, OneCloser, HeldOk, TablesOk, UseOk;
    InitialInv(s);
    RunKeeps(s, order, s');
    ActiveCall(s'.calls);
    assert CallOk(|s'.owner|, s'.calls[t]);
    AtStage(|s'.owner|, s'.calls[t]);
  }

  lemma AtStage(locks: nat, c: Call)
    requires CallOk(locks, c) && c.rest != []
    ensures c.rest[0].Visit? ==> Runs(c.mode)
    ensures c.rest[0] == Resume ==> c.mode == Closing(Woken)
    ensures c.rest[0] == End ==> c.mode == InOp
  {
  }

  /** vfs_unmount_sem is raised at most once; when a shutdown has finished, exactly once if it had to wait and never otherwise. */
  lemma SignalledOnce(s: State, order: seq<nat>, s': State, t: nat)
    requires Initial(s) && Run(s, order, s') && t < |s'.calls| && IsCloser(s'.calls[t])
    ensures s'.sent <= 1
    ensures s'.calls[t].mode.stage.Running? ==> s'.sent == (if s'.calls[t].mode.stage.waited then 1 else 0) && s'.signals == 0
  {
    hide OwnerOk, OneCloser, CallOk, Active, TablesOk, UseOk;
    InitialInv(s);
    RunKeeps(s, order, s');
    assert StageOk(s', s'.calls[t].mode.stage);
  }

  /** Until the shutdown runs no mounted filesystem loses its lock and no file stays open on an unmounted one. */
  lemma FilesStayMounted(s: State, order: seq<nat>, s': State, row: nat)
    requires Initial(s) && Run(s, order, s') && IsOpen(s', row)
    ensures s'.usable || s'.ops > 0 ==>
              s'.files[row] in s'.mounted && Volume(s'.files[row]) < |s'.owner| && s'.owner[Volume(s'.files[row])] != RETIRED
  {
    hide OwnerOk, OneCloser, CallOk, Active, ShutdownOk, UseOk;
    InitialInv(s);
    RunKeeps(s, order, s');
  }

  // ----- what a finished shutdown leaves -----

  /** The shutdown `t` has yet to visit every filesystem there may be, or it is running and has yet to visit or retire
      every one that is mounted. */
  ghost predicate Covered(s: State, t: nat)
    requires t < |s.calls|
  {
    var c := s.calls[t];
    && IsCloser(c)
    && (|| (forall v :: 0 <= v && Volume(v) < |s.owner| ==> Visit(v) in c.rest)
        || (Runs(c.mode) && forall v :: v in s.mounted ==> Visit(v) in c.rest || Retire(v) in c.rest))
  }

  /** Nothing is mounted while the shutdown runs. */
  lemma NoMountWhileRunning(s: State, t: nat, u: nat)
    requires Inv(s) && t < |s.calls| && Runs(s.calls[t].mode) && u < |s.calls| && Ready(s, u)
    ensures Go(s, u).mounted <= s.mounted
  {
    hide OwnerOk, OneCloser, TablesOk, UseOk, Go, HeldOk;
    TablesAfter(s, u);
    ActiveCall(s.calls);
    assert StageOk(s, s.calls[t].mode.stage);
    assert CallOk(|s.owner|, s.calls[u]);
  }

  /** What the shutdown's own steps leave of its list. */
  lemma CloserAfter(s: State, t: nat)
    requires Shape(s) && t < |s.calls| && Ready(s, t) && IsCloser(s.calls[t])
    ensures var c := s.calls[t]; var i := c.rest[0]; var d := CallAfter(s, t);
            && IsCloser(d) && (Runs(c.mode) ==> Runs(d.mode))
            && (forall x :: x in c.rest && x != i ==> x in d.rest)
            && (i.Visit? || i.Retire? ==> Runs(c.mode))
            && (i.Visit? && i.v in s.mounted ==> Retire(i.v) in d.rest)
            && (i.Retire? ==> Volume(i.v) < |s.owner| && Go(s, t).mounted == s.mounted - {i.v})
            && (!i.Retire? ==> Go(s, t).mounted == s.mounted)
  {
    hide HeldOk, Exit;
    Releases(s, t);
    assert CallOk(|s.owner|, s.calls[t]);
    var c := s.calls[t];
    assert c.rest == [c.rest[0]] + c.rest[1..];
  }

  lemma CoveredKept(s: State, t: nat, u: nat)
    requires Inv(s) && t < |s.calls| && Covered(s, t) && u < |s.calls| && Ready(s, u)
    ensures t < |Go(s, u).calls| && Covered(Go(s, u), t)
  {
    hide CallOk, Active, OwnerOk, OneCloser, ShutdownOk, Ready, UseOk, Go, Runs;
    OnlyCallMoves(s, u);
    if u == t {
      CloserAfter(s, t);
    } else if Runs(s.calls[t].mode) {
      NoMountWhileRunning(s, t, u);
    }
  }

  lemma {:induction false} RunCovered(s: State, order: seq<nat>, s': State, t: nat)
    requires Inv(s) && Run(s, order, s') && t < |s.calls| && Covered(s, t)
    ensures Inv(s') && t < |s'.calls| && Covered(s', t)
    decreases |order|
  {
    hide Inv, Go, Ready, Covered;
    if order != [] {
      StepKeeps(s, order[0]);
      CoveredKept(s, t, order[0]);
      RunCovered(Go(s, order[0]), order[1..], s', t);
    }
  }

  lemma {:induction false} VisitsAll(volumes: seq<nat>, v: nat)
    requires v in volumes
    ensures Visit(v) in Deinit(volumes).rest && Visit(v) in Rounds(volumes)
  {
    if v != volumes[0] { VisitsAll(volumes[1..], v); }
    assert Visit(v) in Tail(volumes);
  }

  /** In every run in which vfs_deinit has returned nothing is mounted, whatever was mounted before or while it waited, and
      no operation is in flight or can start. */
  lemma DeinitUnmountsAll(s: State, order: seq<nat>, s': State, t: nat, volumes: seq<nat>)
    requires Initial(s) && Run(s, order, s') && t < |s.calls| && s.calls[t] == Deinit(volumes)
    requires forall v :: 0 <= v && Volume(v) < |s.owner| ==> v in volumes
    requires t < |s'.calls| && Done(s'.calls[t])
    ensures s'.mounted == {} && !s'.usable && s'.ops == 0
  {
    hide OwnerOk, OneCloser, UseOk, Active;
    InitialInv(s);
    forall v: nat | Volume(v) < |s.owner| ensures Visit(v) in s.calls[t].rest { VisitsAll(volumes, v); }
    assert Covered(s, t);
    RunCovered(s, order, s', t);
    assert CallOk(|s'.owner|, s'.calls[t]) && StageOk(s', s'.calls[t].mode.stage);
    assert forall v :: v in s'.mounted ==> Volume(v) < |s'.owner|;
  }
}
