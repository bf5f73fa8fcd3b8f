/** Which calls of the virtual filesystem layer return. The order of the locks admits no deadlock; but fs->unmount
    destroys the lock of its filesystem, and a call that was on its way to that lock waits for ever. */
module VfsReturns {
  import opened VfsCalls
  import opened VfsShutdown

  /** The call waits for a lock that has been destroyed. */
  predicate Stranded(s: State, u: nat)
    requires u < |s.calls|
  {
    var c := s.calls[u];
    !Done(c) && c.rest[0].P? && c.rest[0].lock < |s.owner| && s.owner[c.rest[0].lock] == RETIRED
  }

  predicate SomeStranded(s: State) {
    exists u :: 0 <= u < |s.calls| && Stranded(s, u)
  }

  /** No call can go on. */
  predicate Halted(s: State)
    requires Shape(s)
  {
    forall u :: 0 <= u < |s.calls| ==> !Ready(s, u)
  }

  predicate AllDone(s: State) {
    forall t :: 0 <= t < |s.calls| ==> Done(s.calls[t])
  }

  // ----- no deadlock -----

  /** The lock a call waits for; none for vfs_unmount_sem. */
  function Wanted(c: Call): int
    requires c.rest != []
  {
    match c.rest[0]
    case P(l) => l
    case Start => OP
    case End => OP
    case Begin => OP
    case Resume => OP
    case _ => -1
  }

  /** A call that holds a lock waits, if at all, for a lock of higher rank. */
  lemma WantsHigher(locks: nat, c: Call, l: nat)
    requires CallOk(locks, c) && Has(c, l)
    ensures c.rest != [] && Inner(c.rest[0])
    ensures c.rest[0].P? ==> l < c.rest[0].lock < locks
  {
  }

  lemma InnerReady(s: State, u: nat)
    requires Shape(s) && u < |s.calls| && s.calls[u].rest != [] && Inner(s.calls[u].rest[0]) && !s.calls[u].rest[0].P?
    ensures Ready(s, u)
  {
    hide CallOk;
  }

  /** Only a call that holds nothing and looked at an open file can be stranded. */
  lemma StrandedUse(s: State, u: nat)
    requires Inv(s) && u < |s.calls| && Stranded(s, u)
    ensures var c := s.calls[u];
            c.mode == InOp && c.held == [] && c.use.OnFile? && c.rest[0] == P(Volume(c.use.v)) && Pending(c)
  {
    hide OwnerOk, Active, OneCloser, ShutdownOk, Above, HeldOk;
    var c := s.calls[u];
    assert CallOk(|s.owner|, c) && UseOk(s, c);
    if c.use.OnFile? { ModeOfUse(|s.owner|, c); }
  }

  lemma ModeOfUse(locks: nat, c: Call)
    requires CallOk(locks, c) && c.rest != [] && c.use.OnFile?
    ensures c.mode == InOp
  {
  }

  /** Following the owners of wanted locks leads to a call that can go on. */
  lemma {:induction false} Chase(s: State, t: nat, l: nat) returns (u: nat)
    requires Inv(s) && t < |s.calls| && s.calls[t].rest != [] && l < |s.owner| && Wanted(s.calls[t]) == l
    requires s.owner[l] != RETIRED
    ensures u < |s.calls| && Ready(s, u)
    decreases |s.owner| - l
  {
    hide CallOk, Active, OneCloser, ShutdownOk, Has, TablesOk, UseOk;
    if s.owner[l] == -1 {
      u := t;
    } else {
      var v := s.owner[l];
      assert OwnerOk(s, l) && CallOk(|s.owner|, s.calls[v]);
      assert Has(s.calls[v], l);
      WantsHigher(|s.owner|, s.calls[v], l);
      if s.calls[v].rest[0].P? {
        HoldersSafe(s, v, l);
        u := Chase(s, v, s.calls[v].rest[0].lock);
      } else {
        u := v;
        InnerReady(s, v);
      }
    }
  }

  lemma HoldersSafe(s: State, v: nat, l: nat)
    requires Inv(s) && v < |s.calls| && Has(s.calls[v], l)
    ensures !Stranded(s, v)
  {
    hide Inv;
    if Stranded(s, v) { StrandedUse(s, v); }
  }

  lemma WantedLock(locks: nat, c: Call)
    requires CallOk(locks, c) && c.rest != [] && locks >= 3
    ensures c.rest[0] == Wait || (Inner(c.rest[0]) && !c.rest[0].P?) || 0 <= Wanted(c) < locks
    ensures c.rest[0] == Wait ==> c.mode == Closing(Waiting)
    ensures c.mode == InOp ==> c.rest[0] != Wait
  {
  }

  lemma Unstranded(s: State, t: nat)
    requires Inv(s) && t < |s.calls| && s.calls[t].rest != [] && !Stranded(s, t) && 0 <= Wanted(s.calls[t]) < |s.owner|
    ensures s.owner[Wanted(s.calls[t])] != RETIRED
  {
    hide CallOk, Active, OneCloser, ShutdownOk, OwnerOk, UseOk;
  }

  /** As long as no call is stranded, every call that has not returned leads to one that can go on. */
  lemma Progress(s: State, t: nat) returns (u: nat)
    requires Inv(s) && t < |s.calls| && !Done(s.calls[t]) && !SomeStranded(s)
    ensures u < |s.calls| && Ready(s, u)
  {
    hide CallOk, Active, OneCloser, OwnerOk, UseOk, TablesOk;
    var c := s.calls[t];
    WantedLock(|s.owner|, c);
    if c.rest[0] == Wait && s.signals > 0 {
      u := t;
    } else if c.rest[0] == Wait {
      assert StageOk(s, c.mode.stage);
      ActiveCall(s.calls);
      var v: nat :| v < |s.calls| && s.calls[v].mode == InOp;
      StillBusy(|s.owner|, s.calls[v]);
      u := NotWaiting(s, v);
    } else {
      u := NotWaiting(s, t);
    }
  }

  lemma NotWaiting(s: State, t: nat) returns (u: nat)
    requires Inv(s) && t < |s.calls| && !Done(s.calls[t]) && !SomeStranded(s) && s.calls[t].rest[0] != Wait
    ensures u < |s.calls| && Ready(s, u)
  {
    hide CallOk, Active, OneCloser, ShutdownOk, OwnerOk, UseOk, TablesOk;
    assert !Stranded(s, t);
    WantedLock(|s.owner|, s.calls[t]);
    if Inner(s.calls[t].rest[0]) && !s.calls[t].rest[0].P? {
      u := t;
      InnerReady(s, t);
    } else {
      Unstranded(s, t);
      u := Chase(s, t, Wanted(s.calls[t]));
    }
  }

  lemma StillBusy(locks: nat, c: Call)
    requires CallOk(locks, c) && c.mode == InOp
    ensures c.rest != [] && c.rest[0] != Wait
  {
  }

  /** When nothing moves any more, every call has returned if and only if none waits for a destroyed lock. */
  lemma ReturnedIff(s: State, order: seq<nat>, s': State)
    requires Initial(s) && Run(s, order, s')
    ensures Shape(s') && (Halted(s') ==> (AllDone(s') <==> !SomeStranded(s')))
  {
    hide Initial, Run, Ready, Stranded;
    InitialInv(s);
    RunKeeps(s, order, s');
    if Halted(s') && !SomeStranded(s') {
      forall t | 0 <= t < |s'.calls| ensures Done(s'.calls[t]) {
        if !Done(s'.calls[t]) { var u := Progress(s', t); }
      }
    }
    if SomeStranded(s') {
      var u :| 0 <= u < |s'.calls| && Stranded(s', u);
      StrandedBusy(s', u);
    }
  }

  lemma StrandedBusy(s: State, u: nat)
    requires u < |s.calls| && Stranded(s, u)
    ensures !Done(s.calls[u])
  {
  }

  // ----- runs are finite -----

  /** The steps a call can still take, at most: some steps put others before the rest. */
  function Weight(rest: seq<Instr>): nat {
    if rest == [] then 0 else Cost(rest[0]) + Weight(rest[1..])
  }

  function Cost(i: Instr): nat {
    if MayFail(i) then 4 else if i == Begin || i.Visit? then 3 else 1
  }

  function Left(calls: seq<Call>): nat {
    if calls == [] then 0 else Left(calls[..|calls| - 1]) + Weight(calls[|calls| - 1].rest)
  }

  lemma {:induction false} LeftUpdate(calls: seq<Call>, t: nat, c: Call)
    requires t < |calls|
    ensures Left(calls[t := c]) == Left(calls) - Weight(calls[t].rest) + Weight(c.rest)
    decreases |calls|
  {
    var n := |calls| - 1;
    if t == n {
      assert calls[t := c][..n] == calls[..n];
    } else {
      assert calls[t := c][..n] == calls[..n][t := c];
      LeftUpdate(calls[..n], t, c);
    }
  }

  lemma {:induction false} ExitWeight(held: seq<nat>)
    ensures Weight(Exit(held)) == |held| + 1
    decreases |held|
  {
    if held != [] {
      ExitWeight(held[..|held| - 1]);
      assert Exit(held)[1..] == Exit(held[..|held| - 1]);
    }
  }

  lemma WeightTwo(i: Instr, j: Instr, rest: seq<Instr>)
    requires !MayFail(i) && !MayFail(j) && i != Begin && j != Begin && !i.Visit? && !j.Visit?
    ensures Weight([i, j] + rest) == Weight(rest) + 2 && Weight([]) == 0
  {
    assert ([i, j] + rest)[1..] == [j] + rest && ([j] + rest)[1..] == rest;
  }

  lemma WeightIs(rest: seq<Instr>)
    requires rest != []
    ensures Weight(rest) == Weight(rest[1..]) + Cost(rest[0])
  {
  }

  lemma FewLocks(locks: nat, c: Call)
    requires CallOk(locks, c) && c.rest != [] && MayFail(c.rest[0])
    ensures |c.held| <= 2
  {
  }

  lemma Lighter(s: State, t: nat)
    requires Shape(s) && t < |s.calls| && Ready(s, t)
    ensures Weight(CallAfter(s, t).rest) < Weight(s.calls[t].rest)
  {
    hide CallOk, Go, Weight, Exit;
    var c := s.calls[t];
    Unfinished(s, t);
    WeightIs(c.rest);
    if Inner(c.rest[0]) {
      InnerAfter(s, t);
      ExitWeight(c.held);
      if MayFail(c.rest[0]) { FewLocks(|s.owner|, c); }
      if c.rest[0].Fetch? && IsOpen(s, c.rest[0].row) {
        var l := Volume(s.files[c.rest[0].row]);
        WeightTwo(P(l), V(l), c.rest[1..]);
      }
      if c.rest[0].Visit? { WeightTwo(P(Volume(c.rest[0].v)), Retire(c.rest[0].v), c.rest[1..]); }
    } else {
      WeightTwo(Wait, Resume, c.rest[1..]);
      OuterRest(s, t);
    }
  }

  lemma OuterRest(s: State, t: nat)
    requires Shape(s) && t < |s.calls| && Ready(s, t) && !Inner(s.calls[t].rest[0])
    ensures var rest := s.calls[t].rest; var after := CallAfter(s, t).rest;
            after == rest[1..] || after == [] || (rest[0] == Begin && after == [Wait, Resume] + rest[1..])
  {
    hide CallOk;
  }

  lemma StepUses(s: State, t: nat)
    requires Shape(s) && t < |s.calls| && Ready(s, t)
    ensures Left(Go(s, t).calls) < Left(s.calls)
  {
    hide Go, Ready, CallOk;
    OnlyCallMoves(s, t);
    Lighter(s, t);
    LeftUpdate(s.calls, t, CallAfter(s, t));
  }

  /** No run is longer than the steps its calls have. */
  lemma {:induction false} RunBounded(s: State, order: seq<nat>, s': State)
    requires Run(s, order, s')
    ensures |order| + Left(s'.calls) <= Left(s.calls)
    decreases |order|
  {
    hide Go, Ready, CallOk;
    if order != [] {
      StepUses(s, order[0]);
      RunBounded(Go(s, order[0]), order[1..], s');
    }
  }

  // ----- closing files with care -----

  /** The row that a call is about to clear. */
  predicate Clears(s: State, t: nat, row: nat)
    requires t < |s.calls|
  {
    var c := s.calls[t];
    !Done(c) && (c.rest[0] == Close(row) || c.rest[0] == Drop(row)) && IsOpen(s, row)
  }

  /** Some call looked at a file on `v` and has not got the lock of `v` yet. */
  predicate Awaited(s: State, v: int) {
    exists u :: 0 <= u < |s.calls| && Pending(s.calls[u]) && s.calls[u].use.v == v
  }

  /** The step closes the last open file of a filesystem that another call still has to lock. */
  ghost predicate Hasty(s: State, t: nat)
    requires t < |s.calls|
  {
    exists row: nat :: Clears(s, t, row) && Awaited(s, s.files[row])
                  && forall r :: 0 <= r < |s.files| && r != row ==> s.files[r] != s.files[row]
  }

  /** A filesystem that some call has to lock has an open file. */
  predicate Sheltered(s: State) {
    forall u :: 0 <= u < |s.calls| && Pending(s.calls[u]) ==> InUse(s, s.calls[u].use.v)
  }

  ghost predicate CarefulRun(s: State, order: seq<nat>, s': State)
    decreases |order|
  {
    if order == [] then s == s'
    else
      && Shape(s) && order[0] < |s.calls| && Ready(s, order[0]) && !Hasty(s, order[0])
      && CarefulRun(Go(s, order[0]), order[1..], s')
  }

  /** How a call comes to rely on an open file. */
  lemma PendingAfter(s: State, t: nat)
    requires Inv(s) && t < |s.calls| && Ready(s, t) && Pending(CallAfter(s, t))
    ensures var c := s.calls[t]; var d := CallAfter(s, t);
            || (Pending(c) && d.use == c.use)
            || (c.rest[0] == Fetch(d.use.row) && IsOpen(s, d.use.row) && s.files[d.use.row] == d.use.v)
            || (c.rest[0] == Reserve(d.use.v, d.use.row) && d.use.row < |s.files|
                && Go(s, t).files == s.files[d.use.row := d.use.v] && s.files[d.use.row] == -1)
  {
    hide OwnerOk, Active, OneCloser, ShutdownOk, TablesOk, Exit, HeldOk;
    assert CallOk(|s.owner|, s.calls[t]) && UseOk(s, s.calls[t]);
  }

  /** Only clearing a row takes an open file away. */
  lemma FilesAfter(s: State, t: nat, r: nat)
    requires Inv(s) && t < |s.calls| && Ready(s, t) && r < |s.files| && s.files[r] >= 0 && !Clears(s, t, r)
    ensures r < |Go(s, t).files| && Go(s, t).files[r] == s.files[r]
  {
    hide Go, OwnerOk, Active, OneCloser, ShutdownOk, CallOk, UseOk;
    TablesAfter(s, t);
  }

  lemma ShelteredKept(s: State, t: nat)
    requires Inv(s) && t < |s.calls| && Ready(s, t) && Sheltered(s) && !Hasty(s, t)
    ensures Sheltered(Go(s, t))
  {
    hide Inv, Go, Ready, Clears;
    ShapeOf(s);
    var s' := Go(s, t);
    OnlyCallMoves(s, t);
    forall u | 0 <= u < |s'.calls| && Pending(s'.calls[u]) ensures InUse(s', s'.calls[u].use.v) {
      var v := s'.calls[u].use.v;
      if u == t { PendingAfter(s, t); }
      if Pending(s.calls[u]) && s.calls[u].use.v == v {
        StaysInUse(s, t, u, v);
      } else {
        NewUse(s, t, s'.calls[u].use.row, v);
      }
    }
  }

  lemma ShapeOf(s: State)
    requires Inv(s)
    ensures Shape(s)
  {
  }

  lemma StaysInUse(s: State, t: nat, u: nat, v: nat)
    requires Inv(s) && t < |s.calls| && Ready(s, t) && Sheltered(s) && !Hasty(s, t)
    requires u < |s.calls| && Pending(s.calls[u]) && s.calls[u].use.v == v
    ensures InUse(Go(s, t), v)
  {
    hide Inv, Go, Ready, Clears;
    ShapeOf(s);
    var r: nat :| 0 <= r < |s.files| && s.files[r] == v;
    if Clears(s, t, r) {
      assert Awaited(s, s.files[r]);
      var q: nat :| 0 <= q < |s.files| && q != r && s.files[q] == s.files[r];
      OneRow(s, t, r, q);
      FilesAfter(s, t, q);
      assert Go(s, t).files[q] == v;
    } else {
      FilesAfter(s, t, r);
      assert Go(s, t).files[r] == v;
    }
  }

  lemma OneRow(s: State, t: nat, r: nat, q: nat)
    requires t < |s.calls| && Clears(s, t, r) && q != r
    ensures !Clears(s, t, q)
  {
  }

  lemma NewUse(s: State, t: nat, row: nat, v: nat)
    requires Inv(s) && t < |s.calls| && Ready(s, t)
    requires var i := s.calls[t].rest[0];
             || (i == Fetch(row) && IsOpen(s, row) && s.files[row] == v)
             || (row < |s.files| && Go(s, t).files == s.files[row := v])
    ensures InUse(Go(s, t), v)
  {
    hide Go, OwnerOk, Active, OneCloser, ShutdownOk, CallOk, UseOk;
    TablesAfter(s, t);
    assert Go(s, t).files[row] == v;
  }

  /** While files are closed with care no call is stranded. */
  lemma ShelteredSafe(s: State)
    requires Inv(s) && Sheltered(s)
    ensures !SomeStranded(s)
  {
    hide CallOk, OwnerOk, OneCloser, ShutdownOk, UseOk;
    if SomeStranded(s) {
      var u :| 0 <= u < |s.calls| && Stranded(s, u);
      StrandedUse(s, u);
      var v := s.calls[u].use.v;
      var r :| 0 <= r < |s.files| && s.files[r] == v;
      ActiveCall(s.calls);
    }
  }

  lemma {:induction false} CarefulKeeps(s: State, order: seq<nat>, s': State)
    requires Inv(s) && Sheltered(s) && CarefulRun(s, order, s')
    ensures Inv(s') && Sheltered(s') && Run(s, order, s')
    decreases |order|
  {
    hide Inv, Sheltered, Go, Ready, Hasty;
    if order != [] {
      StepKeeps(s, order[0]);
      ShelteredKept(s, order[0]);
      CarefulKeeps(Go(s, order[0]), order[1..], s');
    }
  }

  lemma InitialSheltered(s: State)
    requires Initial(s)
    ensures Sheltered(s)
  {
    hide CallOk, TablesOk;
    forall u | 0 <= u < |s.calls| ensures !Pending(s.calls[u]) { StartsEmpty(|s.owner|, s.calls[u]); }
  }

  /** In every run that closes files with care every call returns, a shutdown that waited included. */
  lemma CarefulReturns(s: State, order: seq<nat>, s': State)
    requires Initial(s) && CarefulRun(s, order, s')
    ensures Shape(s') && !SomeStranded(s') && |order| <= Left(s.calls)
    ensures Halted(s') ==> AllDone(s')
  {
    hide Initial, CarefulRun, Stranded, Ready, Sheltered, Run;
    InitialInv(s);
    InitialSheltered(s);
    CarefulKeeps(s, order, s');
    ShelteredSafe(s');
    RunBounded(s, order, s');
    ReturnedIff(s, order, s');
  }

  // ----- a discipline a caller can follow -----

  /** No call clears a row while another call is on its way from that row to the lock of its filesystem. */
  predicate Polite(s: State, t: nat)
    requires t < |s.calls|
  {
    forall u :: 0 <= u < |s.calls| && Pending(s.calls[u]) ==> !Clears(s, t, s.calls[u].use.row)
  }

  ghost predicate PoliteRun(s: State, order: seq<nat>, s': State)
    decreases |order|
  {
    if order == [] then s == s'
    else
      && Shape(s) && order[0] < |s.calls| && Ready(s, order[0]) && Polite(s, order[0])
      && PoliteRun(Go(s, order[0]), order[1..], s')
  }

  /** Every call on its way to a lock still finds its file open. */
  predicate Settled(s: State) {
    forall u :: 0 <= u < |s.calls| && Pending(s.calls[u]) ==> OnOpenRow(s, s.calls[u].use)
  }

  predicate OnOpenRow(s: State, use: Use)
    requires use.OnFile?
  {
    use.row < |s.files| && s.files[use.row] == use.v
  }

  lemma SettledKept(s: State, t: nat)
    requires Inv(s) && t < |s.calls| && Ready(s, t) && Settled(s) && Polite(s, t)
    ensures Settled(Go(s, t))
  {
    hide Inv, Go, Ready, Clears;
    ShapeOf(s);
    var s' := Go(s, t);
    OnlyCallMoves(s, t);
    forall u | 0 <= u < |s'.calls| && Pending(s'.calls[u]) ensures OnOpenRow(s', s'.calls[u].use) {
      var use := s'.calls[u].use;
      if u == t { PendingAfter(s, t); }
      if Pending(s.calls[u]) && s.calls[u].use == use {
        FilesAfter(s, t, use.row);
      } else {
        NewRow(s, t, use.row, use.v);
      }
    }
  }

  lemma NewRow(s: State, t: nat, row: nat, v: nat)
    requires Inv(s) && t < |s.calls| && Ready(s, t)
    requires var i := s.calls[t].rest[0];
             || (i == Fetch(row) && IsOpen(s, row) && s.files[row] == v)
             || (row < |s.files| && Go(s, t).files == s.files[row := v])
    ensures row < |Go(s, t).files| && Go(s, t).files[row] == v
  {
    hide Go, OwnerOk, Active, OneCloser, ShutdownOk, CallOk, UseOk;
    TablesAfter(s, t);
  }

  lemma PoliteIsCareful(s: State, t: nat)
    requires t < |s.calls| && Settled(s) && Polite(s, t)
    ensures !Hasty(s, t)
  {
    hide Clears;
  }

  lemma {:induction false} PoliteRunCareful(s: State, order: seq<nat>, s': State)
    requires Inv(s) && Settled(s) && PoliteRun(s, order, s')
    ensures CarefulRun(s, order, s')
    decreases |order|
  {
    hide Inv, Settled, Go, Ready, Hasty, Polite;
    if order != [] {
      PoliteIsCareful(s, order[0]);
      StepKeeps(s, order[0]);
      SettledKept(s, order[0]);
      PoliteRunCareful(Go(s, order[0]), order[1..], s');
    }
  }

  /** In particular when no file is closed while another operation on it is in flight. */
  lemma PoliteReturns(s: State, order: seq<nat>, s': State)
    requires Initial(s) && PoliteRun(s, order, s')
    ensures Shape(s') && (Halted(s') ==> AllDone(s'))
  {
    hide Initial, CarefulRun, PoliteRun, Halted, Settled;
    InitialInv(s);
    InitialSettled(s);
    PoliteRunCareful(s, order, s');
    CarefulReturns(s, order, s');
  }

  lemma InitialSettled(s: State)
    requires Initial(s)
    ensures Settled(s)
  {
    hide CallOk, TablesOk;
    forall u | 0 <= u < |s.calls| ensures !Pending(s.calls[u]) { StartsEmpty(|s.owner|, s.calls[u]); }
  }

  // ----- stranded for ever -----

  lemma StrandedStays(s: State, t: nat, u: nat)
    requires Inv(s) && t < |s.calls| && Ready(s, t) && u < |s.calls| && Stranded(s, u)
    ensures u < |Go(s, t).calls| && Go(s, t).calls[u] == s.calls[u] && Stranded(Go(s, t), u)
  {
    hide Go, CallOk, Active, OneCloser, ShutdownOk, UseOk, TablesOk;
    OnlyCallMoves(s, t);
    OwnerAfter(s, t);
    LockFree(s, t);
    Releases(s, t);
    var i := s.calls[t].rest[0];
    if i.V? { assert OwnerOk(s, i.lock); }
    NotReady(s, u);
  }

  lemma NotReady(s: State, u: nat)
    requires Shape(s) && u < |s.calls| && Stranded(s, u)
    ensures !Ready(s, u)
  {
    hide CallOk;
  }

  lemma {:induction false} StrandedRuns(s: State, order: seq<nat>, s': State, u: nat)
    requires Inv(s) && Run(s, order, s') && u < |s.calls| && Stranded(s, u)
    ensures Inv(s') && u < |s'.calls| && s'.calls[u] == s.calls[u] && Stranded(s', u)
    decreases |order|
  {
    hide Inv, Go, Ready, Stranded;
    if order != [] {
      StepKeeps(s, order[0]);
      StrandedStays(s, order[0], u);
      StrandedRuns(Go(s, order[0]), order[1..], s', u);
    }
  }

  /** A stranded call never takes another step, its operation stays counted, and vfs_deinit never gets to unmount. */
  lemma StrandedForever(s: State, order: seq<nat>, s': State, u: nat)
    requires Inv(s) && Run(s, order, s') && u < |s.calls| && Stranded(s, u)
    ensures u < |s'.calls| && s'.calls[u] == s.calls[u] && !Done(s'.calls[u]) && s'.ops > 0
    ensures forall c :: 0 <= c < |s'.calls| && IsCloser(s'.calls[c]) ==> s'.calls[c].mode.stage in {Called, Waiting}
  {
    hide CallOk, Active, OneCloser, OwnerOk, UseOk, TablesOk, Run;
    StrandedRuns(s, order, s', u);
    StrandedUse(s', u);
    ActiveCall(s'.calls);
  }

  // ----- one more call -----

  function With(s: State, c: Call): State { s.(calls := s.calls + [c]) }

  lemma PutWith(s: State, c: Call, t: nat, d: Call)
    requires t < |s.calls|
    ensures |With(s, c).calls| == |s.calls| + 1 && Put(With(s, c), t, d) == With(Put(s, t, d), c)
  {
    assert (s.calls + [c])[t := d] == s.calls[t := d] + [c];
  }

  lemma WithReady(s: State, c: Call, t: nat)
    requires Shape(s) && Shape(With(s, c)) && t < |s.calls|
    ensures Ready(With(s, c), t) == Ready(s, t)
  {
    hide CallOk;
    assert With(s, c).calls[t] == s.calls[t];
  }

  lemma OnWith(s: State, c: Call, t: nat)
    requires t < |s.calls| && s.calls[t].rest != []
    ensures var w := With(s, c); w.calls[t] == s.calls[t] && On(w, t) == With(On(s, t), c) && Bail(w, t) == With(Bail(s, t), c)
  {
    hide Put;
    var d := s.calls[t];
    assert With(s, c).calls[t] == d;
    PutWith(s, c, t, d.(held := HeldNext(d.held, d.rest[0]), use := UseNext(d.use, d.rest[0]), rest := d.rest[1..]));
    PutWith(s, c, t, d.(use := Nothing, rest := Exit(d.held)));
  }

  lemma WithOuter(s: State, c: Call, t: nat)
    requires Shape(s) && Shape(With(s, c)) && t < |s.calls| && Ready(s, t) && Ready(With(s, c), t)
    requires !Inner(s.calls[t].rest[0])
    ensures Go(With(s, c), t) == With(Go(s, t), c)
  {
    hide CallOk, Put, Ready;
    Unfinished(s, t);
    var rest := s.calls[t].rest[1..];
    assert With(s, c).calls[t] == s.calls[t];
    PutWith(s, c, t, Call(InOp, [], Nothing, rest));
    PutWith(s, c, t, Call(Fresh, [], Nothing, []));
    PutWith(s, c, t, Call(Fresh, [], Nothing, rest));
    PutWith(s, c, t, Call(Closing(Waiting), [], Nothing, [Wait, Resume] + rest));
    PutWith(s, c, t, Call(Closing(Running(false)), [OP], Nothing, rest));
    PutWith(s, c, t, Call(Closing(Woken), [], Nothing, rest));
    PutWith(s, c, t, Call(Closing(Running(true)), [OP], Nothing, rest));
  }

  lemma WithInner(s: State, c: Call, t: nat)
    requires Shape(s) && Shape(With(s, c)) && t < |s.calls| && Ready(s, t) && Ready(With(s, c), t)
    requires Inner(s.calls[t].rest[0])
    ensures Go(With(s, c), t) == With(Go(s, t), c)
  {
    hide CallOk, Put, On, Bail, Ready, Locked;
    Unfinished(s, t);
    OnWith(s, c, t);
    var d := s.calls[t];
    if d.rest[0].Fetch? && IsOpen(s, d.rest[0].row) {
      var v := s.files[d.rest[0].row];
      PutWith(s, c, t, d.(use := OnFile(d.rest[0].row, v), rest := Locked(v) + d.rest[1..]));
    }
    if d.rest[0].Visit? {
      var v := d.rest[0].v;
      PutWith(s, c, t, d.(use := Found(v), rest := [P(Volume(v)), Retire(v)] + d.rest[1..]));
    }
  }

  lemma WithSteps(s: State, c: Call, t: nat)
    requires Shape(s) && Shape(With(s, c)) && t < |s.calls|
    ensures Ready(With(s, c), t) == Ready(s, t)
    ensures Ready(s, t) ==> Go(With(s, c), t) == With(Go(s, t), c)
  {
    hide Shape, Ready, Go;
    WithReady(s, c, t);
    if Ready(s, t) {
      Unfinished(s, t);
      if Inner(s.calls[t].rest[0]) { WithInner(s, c, t); } else { WithOuter(s, c, t); }
    }
  }

  lemma {:induction false} WithActive(calls: seq<Call>, c: Call)
    requires c.mode != InOp
    ensures Active(calls + [c]) == Active(calls)
  {
    assert (calls + [c])[..|calls|] == calls;
  }

  lemma WithShutdown(s: State, c: Call)
    requires OneCloser(s) && ShutdownOk(s) && c.mode == Fresh
    ensures OneCloser(With(s, c)) && ShutdownOk(With(s, c))
  {
    var w := With(s, c);
    if !s.usable {
      var t :| 0 <= t < |s.calls| && IsCloser(s.calls[t]) && s.calls[t].mode.stage != Called;
      assert IsCloser(w.calls[t]);
    }
  }

  lemma WithShape(s: State, c: Call)
    requires Shape(s) && CallOk(|s.owner|, c)
    ensures Shape(With(s, c))
  {
    hide CallOk;
  }

  lemma WithInv(s: State, c: Call)
    requires Inv(s) && CallOk(|s.owner|, c) && c.mode == Fresh
    ensures Inv(With(s, c))
  {
    hide Orderly, TablesOk, HeldOk, Active, OneCloser, ShutdownOk;
    var w := With(s, c);
    WithShape(s, c);
    WithActive(s.calls, c);
    WithShutdown(s, c);
    assert TablesOk(w) by { SameTables(s, c); }
    forall l | 0 <= l < |s.owner| ensures OwnerOk(w, l) { assert OwnerOk(s, l); }
    forall t | 0 <= t < |w.calls| ensures UseOk(w, w.calls[t]) { if t < |s.calls| { assert UseOk(s, s.calls[t]); } }
  }

  lemma SameTables(s: State, c: Call)
    requires TablesOk(s)
    ensures TablesOk(With(s, c))
  {
  }

  lemma {:induction false} WithRun(s: State, order: seq<nat>, s': State, c: Call)
    requires Inv(s) && Run(s, order, s') && CallOk(|s.owner|, c) && c.mode == Fresh
    ensures Run(With(s, c), order, With(s', c))
    decreases |order|
  {
    hide Inv, Go, Ready, CallOk, With;
    if order != [] {
      ShapeOf(s);
      WithInv(s, c);
      ShapeOf(With(s, c));
      WithCalls(s, c);
      WithSteps(s, c, order[0]);
      StepKeeps(s, order[0]);
      OnlyCallMoves(s, order[0]);
      WithRun(Go(s, order[0]), order[1..], s', c);
    }
  }

  lemma WithCalls(s: State, c: Call)
    ensures |With(s, c).calls| == |s.calls| + 1
  {
  }

  // ----- an unmount that nothing holds up -----

  function HeldAt(v: nat, k: nat): seq<nat> {
    if k == 0 then [] else if k <= 2 then [TABLE] else if k == 5 then [TABLE, FILES, Volume(v)] else [TABLE, FILES]
  }

  function UseAt(v: nat, k: nat): Use {
    if k <= 1 || k == 6 then Nothing else if k <= 3 then Found(v) else Leaving(v)
  }

  /** Call `n`, a vfs_unmount of `v`, has taken `k` steps, and nothing stands in its way. */
  predicate At(s: State, n: nat, v: nat, k: nat) {
    && n < |s.calls| && Volume(v) < |s.owner| && k <= 6
    && s.calls[n] == Call(InOp, HeldAt(v, k), UseAt(v, k), (Leave(v) + [End])[k..])
    && s.owner[TABLE] == (if k >= 1 then n else -1)
    && s.owner[FILES] == (if k >= 3 then n else -1)
    && s.owner[Volume(v)] == (if k == 6 then RETIRED else if k == 5 then n else -1)
    && (k < 6 ==> v in s.mounted) && !InUse(s, v)
  }

  lemma LeaveStep(s: State, n: nat, v: nat, k: nat)
    requires Inv(s) && At(s, n, v, k) && k < 6
    ensures Ready(s, n) && At(Go(s, n), n, v, k + 1) && !Hasty(s, n)
    ensures Go(s, n).calls == s.calls[n := CallAfter(s, n)]
  {
    hide CallOk, Active, OneCloser, ShutdownOk, OwnerOk, UseOk, TablesOk, Leave, InUse;
    var code := Leave(v) + [End];
    LeaveAt(v, k);
    assert s.calls[n].rest[0] == Leave(v)[k] && code[k..][1..] == code[k + 1..];
    SameFiles(s, Go(s, n), v);
  }

  lemma LeaveAt(v: nat, k: nat)
    requires k < 6
    ensures |Leave(v)| == 8
    ensures Leave(v)[..6] == [P(TABLE), Find(v), P(FILES), Idle(v), P(Volume(v)), Retire(v)] && Leave(v)[k] == Leave(v)[..6][k]
  {
  }

  /** It ends with the lock destroyed, and every other call where it was. */
  lemma {:induction false} LeaveSteps(s: State, n: nat, v: nat, k: nat) returns (order: seq<nat>, s': State)
    requires Inv(s) && At(s, n, v, k)
    ensures CarefulRun(s, order, s') && At(s', n, v, 6)
    ensures |s'.calls| == |s.calls| && forall u :: 0 <= u < |s.calls| && u != n ==> s'.calls[u] == s.calls[u]
    decreases 6 - k
  {
    hide Inv, At, Go, Ready, Hasty;
    if k >= 6 {
      order, s' := [], s;
      AtBound(s, n, v, k);
    } else {
      ShapeOf(s);
      AtBound(s, n, v, k);
      LeaveStep(s, n, v, k);
      StepKeeps(s, n);
      var more;
      more, s' := LeaveSteps(Go(s, n), n, v, k + 1);
      order := [n] + more;
      assert order[1..] == more;
    }
  }

  lemma AtBound(s: State, n: nat, v: nat, k: nat)
    requires At(s, n, v, k)
    ensures n < |s.calls| && k <= 6
  {
  }

  // ----- exactly which closings strand a call -----

  predicate Free(s: State, l: nat) { l < |s.owner| && s.owner[l] == -1 }

  /** Call `t` clears row `row`, on a layer in use, and neither the mount table nor the filesystem of the row is locked. */
  predicate Quiet(s: State, t: nat, row: nat) {
    t < |s.calls| && Clears(s, t, row) && s.usable && Free(s, TABLE) && Free(s, Volume(s.files[row]))
  }

  /** The closing goes through, an unmount of the filesystem comes along, no further file is closed in haste, and a call
      ends up stranded. */
  ghost predicate Strands(s: State, t: nat, v: nat, order: seq<nat>, s': State) {
    var w := With(s, Operation(Leave(v)));
    Shape(w) && t < |w.calls| && Ready(w, t) && CarefulRun(Go(w, t), order, s') && SomeStranded(s')
  }

  lemma SameHaste(s: State, c: Call, t: nat)
    requires t < |s.calls| && !Pending(c)
    ensures Hasty(With(s, c), t) ==> Hasty(s, t)
  {
    var w := With(s, c);
    assert w.calls[t] == s.calls[t];
    if Hasty(w, t) {
      var row: nat :| Clears(w, t, row) && Awaited(w, w.files[row])
                      && forall r :: 0 <= r < |w.files| && r != row ==> w.files[r] != w.files[row];
      var u :| 0 <= u < |w.calls| && Pending(w.calls[u]) && w.calls[u].use.v == w.files[row];
      assert u < |s.calls| && s.calls[u] == w.calls[u];
      assert Clears(s, t, row) && Awaited(s, s.files[row]);
    }
  }

  lemma WithSheltered(s: State, c: Call)
    requires Sheltered(s) && !Pending(c)
    ensures Sheltered(With(s, c))
  {
  }

  /** A closing that is not hasty strands nobody. */
  lemma OnlyHaste(s: State, t: nat, v: nat, order: seq<nat>, s': State)
    requires Inv(s) && Sheltered(s) && Volume(v) < |s.owner| && t < |s.calls| && !Hasty(s, t)
    ensures !Strands(s, t, v, order, s')
  {
    hide Inv, Sheltered, Hasty, Ready, Go, CarefulRun, Leave;
    var c := Operation(Leave(v));
    LeaveCallOk(|s.owner|, v);
    WithInv(s, c);
    WithSheltered(s, c);
    SameHaste(s, c, t);
    if Strands(s, t, v, order, s') {
      StepKeeps(With(s, c), t);
      ShelteredKept(With(s, c), t);
      CarefulKeeps(Go(With(s, c), t), order, s');
      ShelteredSafe(s');
    }
  }

  lemma LeaveCallOk(locks: nat, v: nat)
    requires Volume(v) < locks
    ensures CallOk(locks, Operation(Leave(v))) && Operation(Leave(v)).mode == Fresh && !Pending(Operation(Leave(v)))
  {
    hide CallOk, Leave;
    OperationsOrderly(locks, v, 0, 3);
  }

  /** While a call relies on an open file nobody holds vfs_op_sem, and the filesystem of an open file is mounted. */
  lemma Underway(s: State, u: nat, row: nat)
    requires Inv(s) && u < |s.calls| && Pending(s.calls[u])
    ensures s.owner[OP] == -1 && s.calls[u].mode == InOp && s.ops > 0
    ensures IsOpen(s, row) ==> s.files[row] in s.mounted && Volume(s.files[row]) < |s.owner|
  {
    hide Active, OneCloser, UseOk, CallOk, ShutdownOk, OwnerOk;
    PendingInOp(|s.owner|, s.calls[u]);
    ActiveCall(s.calls);
    if s.owner[OP] >= 0 { HoldsOp(s, s.owner[OP]); }
  }

  lemma HoldsOp(s: State, x: nat)
    requires Inv(s) && s.owner[OP] == x
    ensures s.ops == 0
  {
    hide Active, OneCloser, UseOk, Orderly, Above;
    assert OwnerOk(s, OP) && CallOk(|s.owner|, s.calls[x]);
    assert Has(s.calls[x], OP);
  }

  lemma PendingInOp(locks: nat, c: Call)
    requires CallOk(locks, c) && Pending(c)
    ensures c.mode == InOp && c.rest != [] && c.rest[0] in {V(TABLE), V(FILES), P(Volume(c.use.v))}
    ensures c.rest[0] == V(TABLE) ==> Has(c, TABLE)
    ensures c.rest[0] == V(FILES) ==> Has(c, FILES)
  {
  }

  /** With the mount table free and the open-file table held by another call, it is at the lock of the filesystem. */
  lemma AtTheLock(s: State, t: nat, u: nat)
    requires Inv(s) && u < |s.calls| && Pending(s.calls[u]) && t != u
    requires s.owner[TABLE] == -1 && s.owner[FILES] == t
    ensures s.calls[u].rest != [] && s.calls[u].rest[0] == P(Volume(s.calls[u].use.v))
  {
    hide Active, OneCloser, ShutdownOk, UseOk, TablesOk, CallOk;
    PendingInOp(|s.owner|, s.calls[u]);
    assert OwnerOk(s, TABLE) && OwnerOk(s, FILES);
  }

  /** The call that clears a row holds the open-file table, and gives it back next. */
  lemma Clearing(s: State, t: nat, row: nat)
    requires Inv(s) && t < |s.calls| && Clears(s, t, row)
    ensures var c := s.calls[t];
            && s.owner[FILES] == t && !Pending(c) && c.mode == InOp && c.held == [FILES] && c.use == Nothing
            && |c.rest| >= 2 && c.rest[1] == V(FILES)
  {
    hide Active, OneCloser, ShutdownOk, UseOk, TablesOk;
    assert CallOk(|s.owner|, s.calls[t]) && OwnerOk(s, FILES);
    assert Has(s.calls[t], FILES);
  }

  lemma ClearRow(w: State, t: nat, row: nat)
    requires Shape(w) && t < |w.calls| && Clears(w, t, row)
    ensures Ready(w, t) && Go(w, t) == On(w, t).(files := w.files[row := -1])
  {
    hide CallOk, On;
  }

  lemma FreeFiles(s: State, t: nat)
    requires Shape(s) && t < |s.calls| && s.calls[t].rest != [] && s.calls[t].rest[0] == V(FILES)
    ensures Ready(s, t) && Go(s, t) == On(s, t).(owner := s.owner[FILES := -1]) && !Hasty(s, t)
  {
    hide CallOk, On;
  }

  lemma StartLeave(s: State, n: nat, v: nat)
    requires Shape(s) && n < |s.calls| && s.calls[n] == Operation(Leave(v)) && s.usable
    requires s.owner[OP] == -1 && Free(s, TABLE) && Free(s, FILES) && Free(s, Volume(v)) && v in s.mounted && !InUse(s, v)
    ensures Ready(s, n) && At(Go(s, n), n, v, 0) && !Hasty(s, n)
    ensures Go(s, n).calls == s.calls[n := CallAfter(s, n)]
  {
    hide CallOk, InUse, Leave;
    var code := Leave(v) + [End];
    assert s.calls[n].rest == [Start] + code;
    assert ([Start] + code)[1..] == code && code[0..] == code;
    assert InUse(Go(s, n), v) == InUse(s, v) by { SameFiles(s, Go(s, n), v); }
  }

  lemma SameFiles(s: State, s': State, v: nat)
    requires s'.files == s.files
    ensures InUse(s', v) == InUse(s, v)
  {
  }

  /** The state after the closing and the release of the open-file table, with the unmount started. */
  lemma ClosedAndLeaving(s: State, t: nat, row: nat, v: nat) returns (s': State)
    requires Inv(s) && Quiet(s, t, row) && Hasty(s, t) && s.files[row] == v && v in s.mounted && s.owner[OP] == -1
    requires forall r :: 0 <= r < |s.files| && r != row ==> s.files[r] != v
    ensures var w := With(s, Operation(Leave(v))); var n := |s.calls|;
            && Inv(w) && Ready(w, t) && Inv(s') && |s'.calls| == n + 1
            && CarefulRun(Go(w, t), [t, n], s') && At(s', n, v, 0)
            && forall u :: 0 <= u < n && u != t ==> s'.calls[u] == s.calls[u]
  {
    hide Inv, Leave, CarefulRun, CallOk, Go, Ready, Hasty, At;
    ShapeOf(s);
    var c := Operation(Leave(v));
    var w, n := With(s, c), |s.calls|;
    LeaveCallOk(|s.owner|, v);
    WithInv(s, c);
    Clearing(s, t, row);
    var d := w.calls[t];
    assert d == s.calls[t] && w.calls[n] == c;
    ClearRow(w, t, row);
    var s1 := Go(w, t);
    StepKeeps(w, t);
    assert s1.calls[t].rest == d.rest[1..] && s1.calls[t].held == [FILES];
    ShapeOf(s1);
    FreeFiles(s1, t);
    var s2 := Go(s1, t);
    StepKeeps(s1, t);
    assert s2.owner == s.owner[FILES := -1] && s2.files == s.files[row := -1] && s2.calls[n] == c;
    ShapeOf(s2);
    StartLeave(s2, n, v);
    s' := Go(s2, n);
    StepKeeps(s2, n);
    TwoSteps(s1, t, n);
  }

  lemma TwoSteps(s: State, t: nat, n: nat)
    requires Shape(s) && t < |s.calls| && Ready(s, t) && !Hasty(s, t)
    requires var s2 := Go(s, t); Shape(s2) && n < |s2.calls| && Ready(s2, n) && !Hasty(s2, n)
    ensures CarefulRun(s, [t, n], Go(Go(s, t), n))
  {
    hide Shape, Go, Ready, Hasty;
    assert [t, n][1..] == [n] && [n][1..] == [];
    assert CarefulRun(Go(s, t), [n], Go(Go(s, t), n));
  }

  lemma {:induction false} Joined(s: State, first: seq<nat>, mid: State, second: seq<nat>, s': State)
    requires CarefulRun(s, first, mid) && CarefulRun(mid, second, s')
    ensures CarefulRun(s, first + second, s')
    decreases |first|
  {
    hide Shape, Go, Ready, Hasty;
    if first == [] {
      assert first + second == second;
    } else {
      Joined(Go(s, first[0]), first[1..], mid, second, s');
      assert (first + second)[1..] == first[1..] + second;
    }
  }

  /** A hasty closing does strand a call. */
  lemma HasteStrands(s: State, t: nat, row: nat) returns (u: nat, order: seq<nat>, s': State)
    requires Inv(s) && Quiet(s, t, row) && Hasty(s, t)
    ensures Strands(s, t, s.files[row], order, s')
    ensures u < |s.calls| && Pending(s.calls[u]) && u < |s'.calls| && Stranded(s', u)
  {
    hide Inv, Leave, CallOk, Go, Ready, CarefulRun, At;
    var v, n := s.files[row], |s.calls|;
    OneRowOnly(s, t, row);
    u := Waiter(s, t, row);
    Underway(s, u, row);
    var s1 := ClosedAndLeaving(s, t, row, v);
    var more;
    more, s' := LeaveSteps(s1, n, v, 0);
    order := [t, n] + more;
    var w := With(s, Operation(Leave(v)));
    ShapeOf(w);
    Joined(Go(w, t), [t, n], s1, more, s');
    Clearing(s, t, row);
    AtTheLock(s, t, u);
    LeftBehind(s', n, v, u);
  }

  lemma OneRowOnly(s: State, t: nat, row: nat)
    requires t < |s.calls| && Clears(s, t, row) && Hasty(s, t)
    ensures forall r :: 0 <= r < |s.files| && r != row ==> s.files[r] != s.files[row]
    ensures Awaited(s, s.files[row])
  {
    hide Awaited;
  }

  lemma Waiter(s: State, t: nat, row: nat) returns (u: nat)
    requires Inv(s) && t < |s.calls| && Clears(s, t, row) && Awaited(s, s.files[row])
    ensures u < |s.calls| && u != t && Pending(s.calls[u]) && s.calls[u].use.v == s.files[row]
  {
    hide Inv;
    Clearing(s, t, row);
    u :| 0 <= u < |s.calls| && Pending(s.calls[u]) && s.calls[u].use.v == s.files[row];
  }

  lemma LeftBehind(s: State, n: nat, v: nat, u: nat)
    requires At(s, n, v, 6) && u < |s.calls| && s.calls[u].rest != [] && s.calls[u].rest[0] == P(Volume(v))
    ensures Stranded(s, u) && SomeStranded(s)
  {
    assert Stranded(s, u);
  }

  /** After any run that closed files with care, a closing under which nothing else holds up an unmount can strand a call
      if and only if it is hasty: it closes the last open file of a filesystem that some call still has to lock. */
  lemma StrandsIff(s0: State, before: seq<nat>, s: State, t: nat, row: nat)
    requires Initial(s0) && CarefulRun(s0, before, s) && Quiet(s, t, row)
    ensures Hasty(s, t) <==> exists order, s' :: Strands(s, t, s.files[row], order, s')
  {
    hide Initial, CarefulRun, Quiet, Sheltered, Strands, Hasty, Inv;
    InitialInv(s0);
    InitialSheltered(s0);
    CarefulKeeps(s0, before, s);
    QuietBounds(s, t, row);
    if Hasty(s, t) {
      var u, order, s' := HasteStrands(s, t, row);
    } else {
      forall order, s' ensures !Strands(s, t, s.files[row], order, s') {
        OnlyHaste(s, t, s.files[row], order, s');
      }
    }
  }

  lemma QuietBounds(s: State, t: nat, row: nat)
    requires Quiet(s, t, row)
    ensures t < |s.calls| && row < |s.files| && s.files[row] >= 0 && Volume(s.files[row]) < |s.owner|
  {
  }

  // ----- one such run -----

  lemma {:induction false} CarefulIsRun(s: State, order: seq<nat>, s': State)
    requires CarefulRun(s, order, s')
    ensures Run(s, order, s')
    decreases |order|
  {
    hide Shape, Go, Ready, Hasty;
    if order != [] { CarefulIsRun(Go(s, order[0]), order[1..], s'); }
  }

  lemma {:induction false} RunThen(s: State, order: seq<nat>, mid: State, t: nat, more: seq<nat>, s': State)
    requires Run(s, order, mid) && Shape(mid) && t < |mid.calls| && Ready(mid, t) && Run(Go(mid, t), more, s')
    ensures Run(s, order + [t] + more, s')
    decreases |order|
  {
    hide Shape, Go, Ready;
    if order == [] {
      assert order + [t] + more == [t] + more && ([t] + more)[1..] == more;
    } else {
      RunThen(Go(s, order[0]), order[1..], mid, t, more, s');
      assert (order + [t] + more)[1..] == order[1..] + [t] + more;
    }
  }

  /** Filesystem 0 with one file open, and a call that reads it beside one that closes it; the reader starts and looks at
      the file, the other starts and locks the open-file table. */
  function Scene(k: nat): State {
    State(if k == 0 then 0 else if k <= 2 then 1 else 2, true, 0, 0, [-1, -1, if k >= 4 then 1 else -1, -1], {0}, [0],
          [ if k == 0 then Operation([Fetch(0)])
            else if k == 1 then Call(InOp, [], Nothing, [Fetch(0), End])
            else Call(InOp, [], OnFile(0, 0), [P(3), V(3), End]),
            if k <= 2 then Operation([P(FILES), Close(0), V(FILES)])
            else if k == 3 then Call(InOp, [], Nothing, [P(FILES), Close(0), V(FILES), End])
            else Call(InOp, [FILES], Nothing, [Close(0), V(FILES), End]) ])
  }

  lemma SceneInitial()
    ensures Initial(Scene(0))
  {
    hide CallOk;
    OperationsOrderly(4, 0, 0, 8);
    OperationsOrderly(4, 0, 0, 6);
  }

  lemma SceneStep(k: nat)
    requires k < 4 && Inv(Scene(k))
    ensures var t := if k < 2 then 0 else 1; Ready(Scene(k), t) && Go(Scene(k), t) == Scene(k + 1)
  {
    hide CallOk, Active, OneCloser, ShutdownOk, OwnerOk, UseOk, TablesOk, Exit;
    var s, t := Scene(k), if k < 2 then 0 else 1;
    var rest := s.calls[t].rest;
    if k == 0 { assert rest[1..] == [Fetch(0), End]; }
    if k == 1 { assert rest[1..] == [End] && Locked(0) + [End] == [P(3), V(3), End]; }
    if k == 2 { assert rest[1..] == [P(FILES), Close(0), V(FILES), End]; }
    if k == 3 { assert rest[1..] == [Close(0), V(FILES), End] && [] + [FILES] == [FILES]; }
    assert Go(s, t).calls == Scene(k + 1).calls && Go(s, t).owner == Scene(k + 1).owner;
  }

  lemma {:induction false} SceneRun(k: nat)
    requires k <= 4
    ensures Inv(Scene(k)) && Run(Scene(0), [0, 0, 1, 1][..k], Scene(k))
  {
    hide Inv, Scene, Go, Ready;
    var order := [0, 0, 1, 1];
    if k == 0 {
      SceneInitial();
      InitialInv(Scene(0));
    } else {
      SceneRun(k - 1);
      ShapeOf(Scene(k - 1));
      SceneSize(k - 1);
      SceneStep(k - 1);
      assert order[k - 1] == if k - 1 < 2 then 0 else 1;
      StepKeeps(Scene(k - 1), order[k - 1]);
      RunThen(Scene(0), order[..k - 1], Scene(k - 1), order[k - 1], [], Scene(k));
      assert order[..k - 1] + [order[k - 1]] + [] == order[..k];
    }
  }

  lemma SceneSize(k: nat)
    ensures |Scene(k).calls| == 2
  {
  }

  lemma SceneHasty()
    ensures Quiet(Scene(4), 1, 0) && Hasty(Scene(4), 1)
  {
    var s := Scene(4);
    assert Pending(s.calls[0]);
    assert Clears(s, 1, 0) && Awaited(s, s.files[0]);
  }

  /** A call reads a file that another closes, and a third unmounts the filesystem: the reader never returns. */
  lemma ReaderStranded() returns (s: State, order: seq<nat>, s': State)
    ensures Initial(s) && Run(s, order, s') && |s'.calls| > 0 && Stranded(s', 0)
    ensures s.mounted == {0} && s.files == [0]
    ensures s.calls == [Operation([Fetch(0)]), Operation([P(FILES), Close(0), V(FILES)]), Operation(Leave(0))]
  {
    hide Inv, Leave, Run, CarefulRun, Go, Ready, Hasty, Quiet;
    var c := Operation(Leave(0));
    SceneRun(0);
    SceneRun(4);
    assert [0, 0, 1, 1][..4] == [0, 0, 1, 1];
    SceneHasty();
    SceneInitial();
    LeaveCallOk(4, 0);
    s := With(Scene(0), c);
    WithInitial(Scene(0), c);
    WithRun(Scene(0), [0, 0, 1, 1], Scene(4), c);
    var u, more;
    u, more, s' := HasteStrands(Scene(4), 1, 0);
    assert u == 0;
    var w := With(Scene(4), c);
    CarefulIsRun(Go(w, 1), more, s');
    RunThen(s, [0, 0, 1, 1], w, 1, more, s');
    order := [0, 0, 1, 1] + [1] + more;
  }

  lemma WithInitial(s: State, c: Call)
    requires Initial(s) && CallOk(|s.owner|, c) && c.mode == Fresh
    ensures Initial(With(s, c))
  {
    hide CallOk, TablesOk;
    SameTables(s, c);
  }
}
