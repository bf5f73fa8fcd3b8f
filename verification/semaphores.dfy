/** Semaphores (kernel/semaphore.c) on top of the thread machine, on any number of CPUs. */
module Semaphores {
  import opened Threads

  /** A semaphore with its lock's holder (-1 when free) and a record of the calls made on it. */
  datatype Semaphore = Semaphore(
    address: nat,
    value: int,
    lock: int,
    initial: nat,
    downs: nat,      // calls of semaphore_P so far
    ups: nat,        // calls of semaphore_V so far
    granted: nat,    // calls of semaphore_P that need no further semaphore_V to return
    returned: nat,   // calls of semaphore_P that have returned
    blocked: set<Tid>,      // threads whose semaphore_P found no unit and has not returned
    inside: multiset<Tid>,  // threads whose semaphore_P has returned, less those that called semaphore_V since
    foreign: nat     // calls of semaphore_V by interrupt handlers, or by threads that were not inside
  )

  /** What a CPU does while it holds a semaphore's lock. */
  datatype Op =
    | NoOp
    | InP(s: nat)                 // value lowered below zero, on the way through sleepq_add
    | InV(s: nat, woke: bool)     // value raised to zero or less, before or after sleepq_wake took a thread off

  datatype System = System(k: Kernel, sems: seq<Semaphore>, op: seq<Op>)

  datatype Step =
    | PEnter(cpu: Cpu, s: nat)
    | PMark(cpu: Cpu)
    | PLink(cpu: Cpu)
    | PLeave(cpu: Cpu)
    | PReturn(cpu: Cpu, s: nat)                   // back from thread_switch
    | VEnter(cpu: Cpu, s: nat, handler: bool)     // called by an interrupt handler, or by the CPU's thread
    | VUnlink(cpu: Cpu)
    | VFinish(cpu: Cpu)
    | VLeave(cpu: Cpu)
    | Other(action: Action)

  predicate SystemShape(y: System) {
    && Shape(y.k) && |y.op| == |y.k.pc|
    && (forall c :: 0 <= c < |y.op| && y.op[c] != NoOp ==> y.op[c].s < |y.sems|)
  }

  predicate IsAddress(y: System, r: nat) {
    exists s :: 0 <= s < |y.sems| && y.sems[s].address == r
  }

  /** Whether no CPU inside a semaphore operation takes part in the action, and no semaphore is its resource. */
  predicate Outside(y: System, a: Action)
    requires SystemShape(y)
  {
    match a
    case Claim(_) => true
    case Init(_) => true
    case AddReady(_) => true
    case Prepare(c, r) => c < |y.op| && y.op[c] == NoOp && !IsAddress(y, r)
    case Unlink(c, r, _) => c < |y.op| && y.op[c] == NoOp && !IsAddress(y, r)
    case _ => a.cpu < |y.op| && y.op[a.cpu] == NoOp
  }

  /** The thread-level action of a step, if it has one. */
  function Action0(y: System, st: Step): (r: seq<Action>)
    requires SystemShape(y)
    ensures |r| <= 1
  {
    match st
    case PMark(c) => if c < |y.op| && y.op[c].InP? then [Prepare(c, y.sems[y.op[c].s].address)] else []
    case PLink(c) => [Link(c)]
    case VUnlink(c) => if c < |y.op| && y.op[c].InV? then [Unlink(c, y.sems[y.op[c].s].address, false)] else []
    case VFinish(c) => [FinishWake(c)]
    case Other(a) => [a]
    case _ => []
  }

  /** The thread is in no semaphore_P that blocked. */
  predicate OutsideP(y: System, t: Tid) {
    forall s :: 0 <= s < |y.sems| ==> t !in y.sems[s].blocked
  }

  predicate CanStep(y: System, st: Step)
    requires SystemShape(y)
  {
    && (forall i :: 0 <= i < |Action0(y, st)| ==> Enabled(y.k, Action0(y, st)[i]))
    && match st
       case PEnter(c, s) =>
         c < |y.op| && s < |y.sems| && y.op[c] == NoOp && y.sems[s].lock == -1
         && y.k.pc[c].InThread? && y.k.current[c] != IDLE && OutsideP(y, y.k.current[c])
       case PMark(c) => c < |y.op| && y.op[c].InP?
       case PLink(c) => c < |y.op| && y.op[c].InP?
       case PLeave(c) => c < |y.op| && y.op[c].InP? && y.k.pc[c].Added?
       case PReturn(c, s) =>
         c < |y.op| && s < |y.sems| && y.op[c] == NoOp && y.k.pc[c].InThread? && y.k.current[c] in y.sems[s].blocked
       case VEnter(c, s, handler) =>
         c < |y.op| && s < |y.sems| && y.op[c] == NoOp && y.sems[s].lock == -1
         && if handler then Open(y.k.pc[c]) else y.k.pc[c].InThread?
       case VUnlink(c) => c < |y.op| && y.op[c].InV? && !y.op[c].woke
       case VFinish(c) => c < |y.op| && y.op[c].InV?
       case VLeave(c) => c < |y.op| && y.op[c].InV? && y.op[c].woke && Open(y.k.pc[c])
       case Other(a) => Outside(y, a)
  }

  /** semaphore_P by thread `t` on CPU `c`, up to the test of the value. */
  function Lowered(m: Semaphore, c: Cpu, t: Tid): Semaphore {
    var v := m.value - 1;
    if v < 0 then m.(value := v, downs := m.downs + 1, lock := c, blocked := m.blocked + {t})
    else Passed(m.(value := v, downs := m.downs + 1, granted := m.granted + 1), t)
  }

  /** A semaphore_P of thread `t` returns. */
  function Passed(m: Semaphore, t: Tid): Semaphore {
    m.(returned := m.returned + 1, blocked := m.blocked - {t}, inside := m.inside + multiset{t})
  }

  /** semaphore_V, up to the test of the value. */
  function Raised(m: Semaphore, c: Cpu, t: Tid, handler: bool): Semaphore {
    var v := m.value + 1;
    var m1 := if v <= 0 then m.(value := v, ups := m.ups + 1, lock := c) else m.(value := v, ups := m.ups + 1);
    if !handler && t in m.inside then m1.(inside := m.inside - multiset{t}) else m1.(foreign := m.foreign + 1)
  }

  /** The semaphores after a step; `found` says whether VUnlink found a thread. */
  function SemsAfter(y: System, st: Step): seq<Semaphore>
    requires SystemShape(y) && CanStep(y, st)
  {
    match st
    case PEnter(c, s) => y.sems[s := Lowered(y.sems[s], c, y.k.current[c])]
    case PLeave(c) => y.sems[y.op[c].s := y.sems[y.op[c].s].(lock := -1)]
    case PReturn(c, s) => y.sems[s := Passed(y.sems[s], y.k.current[c])]
    case VEnter(c, s, handler) => y.sems[s := Raised(y.sems[s], c, y.k.current[c], handler)]
    case VUnlink(c) =>
      var m := y.sems[y.op[c].s];
      if Waiters(y.k, m.address) == [] then y.sems else y.sems[y.op[c].s := m.(granted := m.granted + 1)]
    case VLeave(c) => y.sems[y.op[c].s := y.sems[y.op[c].s].(lock := -1)]
    case _ => y.sems
  }

  function OpAfter(y: System, st: Step): seq<Op>
    requires SystemShape(y) && CanStep(y, st)
  {
    match st
    case PEnter(c, s) => if y.sems[s].value - 1 < 0 then y.op[c := InP(s)] else y.op
    case PLeave(c) => y.op[c := NoOp]
    case VEnter(c, s, _) => if y.sems[s].value + 1 <= 0 then y.op[c := InV(s, false)] else y.op
    case VUnlink(c) => y.op[c := InV(y.op[c].s, true)]
    case VLeave(c) => y.op[c := NoOp]
    case _ => y.op
  }

  function KernelAfter(y: System, st: Step): Kernel
    requires SystemShape(y) && CanStep(y, st)
  {
    if Action0(y, st) == [] then y.k else Next(y.k, Action0(y, st)[0])
  }

  function Take(y: System, st: Step): System
    requires SystemShape(y) && CanStep(y, st)
  {
    System(KernelAfter(y, st), SemsAfter(y, st), OpAfter(y, st))
  }

  // ----- the accounting -----

  /** A P call has lowered the value and its thread is not linked yet. */
  predicate Unlinked(y: System, s: nat)
    requires SystemShape(y) && s < |y.sems|
  {
    var c := y.sems[s].lock;
    0 <= c < |y.op| && y.op[c] == InP(s) && !y.k.pc[c].Added?
  }

  /** A V call has raised the value and has not taken its thread off yet. */
  predicate Owing(y: System, s: nat)
    requires SystemShape(y) && s < |y.sems|
  {
    var c := y.sems[s].lock;
    0 <= c < |y.op| && y.op[c] == InV(s, false)
  }

  function One(b: bool): nat { if b then 1 else 0 }

  /** Value, waiting threads and finished P calls of one semaphore. */
  ghost predicate Balanced(y: System, s: nat)
    requires SystemShape(y) && s < |y.sems|
  {
    var m := y.sems[s];
    var waiting := |Waiters(y.k, m.address)|;
    && m.address != 0
    && m.value == m.initial + m.ups - m.downs
    && waiting + One(Unlinked(y, s)) == (if m.value < 0 then -m.value else 0) + One(Owing(y, s))
    && m.granted + waiting + One(Unlinked(y, s)) == m.downs
  }

  /** The record of P calls that blocked and of threads inside, against the threads that wait. */
  ghost predicate BlockedOk(y: System, s: nat)
    requires SystemShape(y) && s < |y.sems|
  {
    var m := y.sems[s];
    && m.downs == m.returned + |m.blocked|
    && |m.inside| + m.ups == m.returned + m.foreign
    && (forall t :: t in Waiters(y.k, m.address) ==> t in m.blocked)
    && (Unlinked(y, s) ==> y.k.current[m.lock] in m.blocked)
  }

  /** A CPU's operation agrees with its thread-level position and with the lock it holds. */
  ghost predicate OpOk(y: System, c: Cpu)
    requires SystemShape(y) && c < |y.op|
  {
    match y.op[c]
    case NoOp =>
      && (y.k.pc[c].Adding? ==> !IsAddress(y, y.k.sleepsOn[y.k.current[c]]))
      && (y.k.pc[c].Waking? || y.k.pc[c].Searching? ==> !IsAddress(y, y.k.pc[c].resource))
    case InP(s) =>
      && y.sems[s].lock == c
      && y.k.current[c] != IDLE
      && (y.k.pc[c].InThread? || y.k.pc[c].Added?
          || (y.k.pc[c].Adding? && y.k.sleepsOn[y.k.current[c]] == y.sems[s].address))
    case InV(s, woke) =>
      && y.sems[s].lock == c
      && (Open(y.k.pc[c]) || (woke && y.k.pc[c].Waking? && y.k.pc[c].resource == y.sems[s].address && !y.k.pc[c].all))
  }

  ghost predicate LockOk(y: System, s: nat)
    requires SystemShape(y) && s < |y.sems|
  {
    var c := y.sems[s].lock;
    c == -1 || (0 <= c < |y.op| && y.op[c] != NoOp && y.op[c].s == s)
  }

  ghost predicate SystemInv(y: System) {
    && SystemShape(y) && Inv(y.k)
    && (forall s :: 0 <= s < |y.sems| ==> Balanced(y, s) && LockOk(y, s) && BlockedOk(y, s))
    && (forall s, r :: 0 <= s < r < |y.sems| ==> y.sems[s].address != y.sems[r].address)
    && (forall c :: 0 <= c < |y.op| ==> OpOk(y, c))
  }

  lemma TakeShape(y: System, st: Step)
    requires SystemInv(y) && CanStep(y, st)
    ensures SystemShape(Take(y, st)) && Inv(KernelAfter(y, st))
    ensures |Take(y, st).sems| == |y.sems| && |Take(y, st).op| == |y.op| && |KernelAfter(y, st).pc| == |y.k.pc|
  {
    hide Next, Waiters, Balanced, OpOk, LockOk, ReadyExact, ChainOk, MarkedOk, OwnerOk, WakerOk, OwnersApart, IsAddress;
    if Action0(y, st) != [] {
      ActionKeeps(y.k, Action0(y, st)[0]);
      ShapeKept(y.k, Action0(y, st)[0]);
    }
  }

  /** The waiters of a semaphore change only when its own P links a thread or its own V takes one off. */
  lemma WaitersTaken(y: System, st: Step, s: nat)
    requires SystemInv(y) && CanStep(y, st) && s < |y.sems|
    ensures Shape(KernelAfter(y, st))
    ensures var w := Waiters(y.k, y.sems[s].address);
            Waiters(KernelAfter(y, st), y.sems[s].address)
            == if st.PLink? && y.op[st.cpu].s == s then w + [y.k.current[st.cpu]]
               else if st.VUnlink? && y.op[st.cpu].s == s && w != [] then w[1..]
               else w
  {
    hide Next, Waiters, ReadyExact, ChainOk, MarkedOk, OwnerOk, WakerOk, OwnersApart;
    TakeShape(y, st);
    assert Balanced(y, s);
    if Action0(y, st) != [] {
      WaitersStep(y.k, Action0(y, st)[0], y.sems[s].address);
      assert IsAddress(y, y.sems[s].address);
      if st.PLink? { assert OpOk(y, st.cpu); }
      if st.Other? && st.action.Link? { assert OpOk(y, st.action.cpu); }
    }
  }

  lemma LockKept(y: System, st: Step, s: nat)
    requires SystemInv(y) && CanStep(y, st) && s < |y.sems|
    ensures SystemShape(Take(y, st)) && LockOk(Take(y, st), s)
  {
    hide Next, Waiters, ReadyExact, ChainOk, MarkedOk, OwnerOk, WakerOk, OwnersApart, Balanced, IsAddress, KernelAfter;
    TakeShape(y, st);
    assert LockOk(y, s);
    if !st.Other? { assert OpOk(y, st.cpu); }
  }

  /** Where a step leaves the other CPUs: exactly where they were, apart from their threads' marks. */
  lemma OtherCpus(y: System, st: Step, d: Cpu)
    requires SystemInv(y) && CanStep(y, st) && d < |y.op|
    requires !(st.Other? && (st.action.Claim? || st.action.Init? || st.action.AddReady?)) ==>
               d != if st.Other? then st.action.cpu else st.cpu
    ensures d < |KernelAfter(y, st).pc| == |KernelAfter(y, st).current|
    ensures KernelAfter(y, st).pc[d] == y.k.pc[d] && KernelAfter(y, st).current[d] == y.k.current[d]
  {
    hide Waiters, ReadyExact, ChainOk, MarkedOk, OwnerOk, WakerOk, OwnersApart, Balanced, IsAddress, OpOk, LockOk;
    TakeShape(y, st);
  }

  /** Acting on another CPU does not change the mark of a thread that is being added. */
  lemma MarkKept(k: Kernel, a: Action, d: Cpu)
    requires Inv(k) && Enabled(k, a) && d < |k.pc| && k.pc[d].Adding?
    requires !(a.Claim? || a.Init? || a.AddReady?) ==> a.cpu != d
    ensures Shape(Next(k, a)) && k.current[d] < |Next(k, a).sleepsOn|
    ensures Next(k, a).sleepsOn[k.current[d]] == k.sleepsOn[k.current[d]]
  {
    hide ReadyExact, ChainOk, MarkedOk;
    ShapeKept(k, a);
    assert OwnerOk(k, d);
    if a.Prepare? {
      assert OwnerOk(k, a.cpu) && Owned(k, a.cpu) != Owned(k, d);
    } else if a.FinishWake? {
      assert WakerOk(k, a.cpu);
    } else if a.Schedule? {
      ScheduleFrame(k, a.cpu);
    }
  }

  lemma SameAddresses(y: System, st: Step, r: nat)
    requires SystemShape(y) && CanStep(y, st)
    requires SystemShape(Take(y, st))
    ensures IsAddress(Take(y, st), r) <==> IsAddress(y, r)
  {
    hide KernelAfter, OpAfter;
    var y' := Take(y, st);
    assert |y'.sems| == |y.sems|;
    assert forall s :: 0 <= s < |y.sems| ==> y'.sems[s].address == y.sems[s].address;
    if IsAddress(y, r) {
      var s :| 0 <= s < |y.sems| && y.sems[s].address == r;
      assert y'.sems[s].address == r;
    }
  }

  lemma OpKeptElsewhere(y: System, st: Step, d: Cpu)
    requires SystemInv(y) && CanStep(y, st) && d < |y.op|
    requires !(st.Other? && (st.action.Claim? || st.action.Init? || st.action.AddReady?)) ==>
               d != if st.Other? then st.action.cpu else st.cpu
    ensures SystemShape(Take(y, st)) && OpOk(Take(y, st), d)
  {
    hide Waiters, Inv, Balanced, IsAddress, Next, LockOk;
    TakeShape(y, st);
    OtherCpus(y, st, d);
    assert OpOk(y, d);
    if Action0(y, st) != [] && y.k.pc[d].Adding? { MarkKept(y.k, Action0(y, st)[0], d); }
    if y.k.pc[d].Adding? { SameAddresses(y, st, y.k.sleepsOn[y.k.current[d]]); }
    if y.k.pc[d].Waking? || y.k.pc[d].Searching? { SameAddresses(y, st, y.k.pc[d].resource); }
    if !st.Other? && y.op[st.cpu] != NoOp { assert OpOk(y, st.cpu); }
  }

  lemma OpKeptHere(y: System, st: Step, d: Cpu)
    requires SystemInv(y) && CanStep(y, st) && d < |y.op| && !st.Other? && d == st.cpu
    ensures SystemShape(Take(y, st)) && OpOk(Take(y, st), d)
  {
    hide Waiters, ReadyExact, ChainOk, MarkedOk, WakerOk, OwnersApart, Balanced, LockOk, IsAddress;
    TakeShape(y, st);
    assert OpOk(y, d);
    if y.k.pc[d].Waking? || y.k.pc[d].Searching? { SameAddresses(y, st, y.k.pc[d].resource); }
  }

  lemma OpKeptOutside(y: System, a: Action, d: Cpu)
    requires SystemInv(y) && CanStep(y, Other(a)) && d < |y.op|
    requires !a.Claim? && !a.Init? && !a.AddReady? && d == a.cpu
    ensures SystemShape(Take(y, Other(a))) && OpOk(Take(y, Other(a)), d)
  {
    hide Waiters, ReadyExact, ChainOk, MarkedOk, WakerOk, OwnersApart, Balanced, LockOk, IsAddress;
    TakeShape(y, Other(a));
    assert OpOk(y, d);
    if y.k.pc[d].Waking? || y.k.pc[d].Searching? { SameAddresses(y, Other(a), y.k.pc[d].resource); }
    if a.Prepare? || a.Unlink? { SameAddresses(y, Other(a), a.resource); }
  }

  lemma OutsideOps(y: System, a: Action)
    requires SystemShape(y) && Outside(y, a)
    ensures a.Claim? || a.Init? || a.AddReady? || (a.cpu < |y.op| && y.op[a.cpu] == NoOp)
  {
  }

  /** The step is part of an operation on semaphore `s`. */
  predicate Touches(y: System, st: Step, s: nat)
    requires SystemShape(y) && CanStep(y, st)
  {
    match st
    case Other(_) => false
    case PEnter(_, r) => r == s
    case PReturn(_, r) => r == s
    case VEnter(_, r, _) => r == s
    case _ => y.op[st.cpu].s == s
  }

  /** What the accounting of a semaphore is about stays as it was. */
  ghost predicate Untouched(y: System, y': System, s: nat)
    requires SystemShape(y) && s < |y.sems|
  {
    && SystemShape(y') && |y'.sems| == |y.sems| && y'.sems[s] == y.sems[s]
    && Waiters(y'.k, y.sems[s].address) == Waiters(y.k, y.sems[s].address)
    && Unlinked(y', s) == Unlinked(y, s) && Owing(y', s) == Owing(y, s)
    && (Unlinked(y, s) ==> y'.k.current[y.sems[s].lock] == y.k.current[y.sems[s].lock])
  }

  lemma ElsewhereUntouched(y: System, st: Step, s: nat)
    requires SystemInv(y) && CanStep(y, st) && s < |y.sems| && !Touches(y, st, s)
    ensures Untouched(y, Take(y, st), s)
  {
    hide Waiters, Inv, OpOk, IsAddress, Next, Outside, OutsideP, Balanced, BlockedOk;
    TakeShape(y, st);
    WaitersTaken(y, st, s);
    assert LockOk(y, s);
    var h := y.sems[s].lock;
    if h >= 0 {
      if st.Other? { OutsideOps(y, st.action); }
      OtherCpus(y, st, h);
    }
  }

  lemma UntouchedKept(y: System, y': System, s: nat)
    requires SystemShape(y) && s < |y.sems| && Untouched(y, y', s) && Balanced(y, s) && BlockedOk(y, s)
    ensures SystemShape(y') && |y'.sems| == |y.sems| && Balanced(y', s) && BlockedOk(y', s)
  {
    hide Waiters;
  }

  lemma BalancedKept(y: System, st: Step, s: nat)
    requires SystemInv(y) && CanStep(y, st) && s < |y.sems| && Touches(y, st, s)
    ensures SystemShape(Take(y, st)) && Balanced(Take(y, st), s)
  {
    hide *;
    if st.VEnter? {
      BalancedKeptRaise(y, st, s);
    } else if st.VUnlink? || st.VFinish? || st.VLeave? {
      BalancedKeptV(y, st, s);
    } else {
      BalancedKeptP(y, st, s);
    }
  }

  lemma BalancedKeptP(y: System, st: Step, s: nat)
    requires SystemInv(y) && CanStep(y, st) && s < |y.sems| && Touches(y, st, s)
    requires !st.VEnter? && !st.VUnlink? && !st.VFinish? && !st.VLeave?
    ensures SystemShape(Take(y, st)) && Balanced(Take(y, st), s)
  {
    hide Waiters, Inv, IsAddress, Next, OutsideP, BlockedOk;
    TakeShape(y, st);
    WaitersTaken(y, st, s);
    assert Balanced(y, s) && LockOk(y, s) && OpOk(y, st.cpu);
    Moves(y, st);
    if st.PReturn? { var h := y.sems[s].lock; if h >= 0 { OtherCpus(y, st, h); } }
  }

  lemma BalancedKeptRaise(y: System, st: Step, s: nat)
    requires SystemInv(y) && CanStep(y, st) && s < |y.sems| && Touches(y, st, s) && st.VEnter?
    ensures SystemShape(Take(y, st)) && Balanced(Take(y, st), s)
  {
    hide Waiters, Inv, IsAddress, Next, OutsideP, BlockedOk, OpOk, Raised, Passed;
    TakeShape(y, st);
    WaitersTaken(y, st, s);
    assert Balanced(y, s) && LockOk(y, s);
    RaisedValue(y.sems[s], st.cpu, y.k.current[st.cpu], st.handler);
  }

  lemma RaisedValue(m: Semaphore, c: Cpu, t: Tid, handler: bool)
    ensures var r := Raised(m, c, t, handler);
            && r.address == m.address && r.value == m.value + 1 && r.initial == m.initial
            && r.ups == m.ups + 1 && r.downs == m.downs && r.granted == m.granted
            && r.lock == if r.value <= 0 then c else m.lock
  {
  }

  lemma BalancedKeptV(y: System, st: Step, s: nat)
    requires SystemInv(y) && CanStep(y, st) && s < |y.sems| && Touches(y, st, s)
    requires st.VUnlink? || st.VFinish? || st.VLeave?
    ensures SystemShape(Take(y, st)) && Balanced(Take(y, st), s)
  {
    hide Waiters, Inv, IsAddress, Next, OutsideP, BlockedOk, Raised, Lowered, Passed;
    TakeShape(y, st);
    WaitersTaken(y, st, s);
    assert Balanced(y, s) && LockOk(y, s) && OpOk(y, st.cpu);
  }

  /** How the acting CPU's position changes inside semaphore operations. */
  lemma Moves(y: System, st: Step)
    requires SystemInv(y) && CanStep(y, st)
    ensures |KernelAfter(y, st).pc| == |y.k.pc|
    ensures st.PMark? ==> KernelAfter(y, st).pc[st.cpu].Adding?
    ensures st.PLink? ==> KernelAfter(y, st).pc[st.cpu].Added?
  {
    hide Waiters, ReadyExact, ChainOk, MarkedOk, OwnerOk, WakerOk, OwnersApart, IsAddress, Balanced, LockOk, OpOk;
    TakeShape(y, st);
  }

  // ----- blocked calls and threads inside -----

  lemma BlockedKeptP(y: System, st: Step, s: nat)
    requires SystemInv(y) && CanStep(y, st) && s < |y.sems| && Touches(y, st, s)
    requires st.PMark? || st.PLink? || st.PLeave?
    ensures SystemShape(Take(y, st)) && BlockedOk(Take(y, st), s)
  {
    hide Waiters, Inv, IsAddress, Next, Balanced, OutsideP, Raised, Lowered, Passed;
    TakeShape(y, st);
    WaitersTaken(y, st, s);
    assert BlockedOk(y, s) && LockOk(y, s) && OpOk(y, st.cpu);
    Moves(y, st);
    Stays(y, st);
  }

  lemma BlockedKeptLower(y: System, st: Step, s: nat)
    requires SystemInv(y) && CanStep(y, st) && s < |y.sems| && Touches(y, st, s) && st.PEnter?
    ensures SystemShape(Take(y, st)) && BlockedOk(Take(y, st), s)
  {
    hide Waiters, Inv, IsAddress, Next, Balanced, OpOk, Raised, Lowered;
    TakeShape(y, st);
    WaitersTaken(y, st, s);
    assert BlockedOk(y, s) && LockOk(y, s);
    LoweredCounts(y.sems[s], st.cpu, y.k.current[st.cpu]);
  }

  lemma LoweredCounts(m: Semaphore, c: Cpu, t: Tid)
    requires m.downs == m.returned + |m.blocked| && |m.inside| + m.ups == m.returned + m.foreign && t !in m.blocked
    ensures var r := Lowered(m, c, t);
            && r.downs == r.returned + |r.blocked| && |r.inside| + r.ups == r.returned + r.foreign
            && m.blocked <= r.blocked && r.address == m.address && r.lock == (if m.value - 1 < 0 then c else m.lock)
            && (m.value - 1 < 0 ==> t in r.blocked)
  {
    assert m.blocked - {t} == m.blocked;
  }

  lemma BlockedKeptV(y: System, st: Step, s: nat)
    requires SystemInv(y) && CanStep(y, st) && s < |y.sems| && Touches(y, st, s)
    requires st.VUnlink? || st.VFinish? || st.VLeave?
    ensures SystemShape(Take(y, st)) && BlockedOk(Take(y, st), s)
  {
    hide Waiters, Inv, IsAddress, Next, Balanced, OutsideP;
    TakeShape(y, st);
    WaitersTaken(y, st, s);
    assert BlockedOk(y, s) && LockOk(y, s) && OpOk(y, st.cpu);
  }

  lemma BlockedKeptRaise(y: System, c: Cpu, s: nat, handler: bool)
    requires SystemInv(y) && CanStep(y, VEnter(c, s, handler)) && s < |y.sems|
    ensures var y' := Take(y, VEnter(c, s, handler)); SystemShape(y') && BlockedOk(y', s)
  {
    hide Waiters, Inv, IsAddress, Next, Balanced, OutsideP, Raised, OpOk;
    var m := y.sems[s];
    TakeShape(y, VEnter(c, s, handler));
    assert BlockedOk(y, s) && LockOk(y, s);
    RaisedCounts(m, c, y.k.current[c], handler);
  }

  lemma RaisedCounts(m: Semaphore, c: Cpu, t: Tid, handler: bool)
    requires |m.inside| + m.ups == m.returned + m.foreign
    ensures var r := Raised(m, c, t, handler);
            && |r.inside| + r.ups == r.returned + r.foreign
            && r.downs == m.downs && r.returned == m.returned && r.blocked == m.blocked && r.address == m.address
            && (r.lock == m.lock || r.lock == c)
  {
  }

  /** A P call that returns is not waiting any more, and not about to wait on another CPU. */
  lemma BlockedKeptReturn(y: System, c: Cpu, s: nat)
    requires SystemInv(y) && CanStep(y, PReturn(c, s))
    ensures SystemShape(Take(y, PReturn(c, s))) && BlockedOk(Take(y, PReturn(c, s)), s)
  {
    hide Waiters, ReadyExact, ChainOk, MarkedOk, OwnerOk, WakerOk, IsAddress, OutsideP;
    TakeShape(y, PReturn(c, s));
    assert BlockedOk(y, s) && LockOk(y, s) && Balanced(y, s);
    var t := y.k.current[c];
    if t in Waiters(y.k, y.sems[s].address) { WaitersElsewhere(y.k, y.sems[s].address, t, c); }
    if Unlinked(y, s) {
      var h := y.sems[s].lock;
      assert OpOk(y, h);
      assert Owned(y.k, h) == y.k.current[h] && Owned(y.k, c) == t;
    }
  }

  /** Inside semaphore_P a CPU keeps its thread. */
  lemma Stays(y: System, st: Step)
    requires SystemInv(y) && CanStep(y, st) && (st.PEnter? || st.PMark? || st.PLink? || st.PLeave?)
    ensures |KernelAfter(y, st).pc| == |y.k.pc| && KernelAfter(y, st).current == y.k.current
  {
    hide Waiters, ReadyExact, ChainOk, MarkedOk, OwnerOk, WakerOk, OwnersApart, IsAddress, Balanced, LockOk, OpOk, BlockedOk;
    TakeShape(y, st);
  }

  lemma BlockedKept(y: System, st: Step, s: nat)
    requires SystemInv(y) && CanStep(y, st) && s < |y.sems| && Touches(y, st, s)
    ensures SystemShape(Take(y, st)) && BlockedOk(Take(y, st), s)
  {
    hide Waiters, Inv, IsAddress, Take, Balanced, OutsideP, CanStep, SystemInv;
    match st
    case PReturn(c, _) => BlockedKeptReturn(y, c, s);
    case PEnter(_, _) => BlockedKeptLower(y, st, s);
    case PMark(_) => BlockedKeptP(y, st, s);
    case PLink(_) => BlockedKeptP(y, st, s);
    case PLeave(_) => BlockedKeptP(y, st, s);
    case VEnter(c, _, handler) => BlockedKeptRaise(y, c, s, handler);
    case _ => BlockedKeptV(y, st, s);
  }

  /** Every step of every CPU keeps the accounting of every semaphore. */
  lemma StepKeeps(y: System, st: Step)
    requires SystemInv(y) && CanStep(y, st)
    ensures SystemInv(Take(y, st))
  {
    hide Inv, Balanced, LockOk, OpOk, BlockedOk, KernelAfter, SemsAfter, OpAfter, Touches, Untouched;
    TakeShape(y, st);
    forall s | 0 <= s < |y.sems| ensures Balanced(Take(y, st), s) && LockOk(Take(y, st), s) && BlockedOk(Take(y, st), s) {
      if Touches(y, st, s) {
        BalancedKept(y, st, s);
        BlockedKept(y, st, s);
      } else {
        ElsewhereUntouched(y, st, s);
        UntouchedKept(y, Take(y, st), s);
      }
      LockKept(y, st, s);
    }
    AddressesStay(y, st);
    forall d | 0 <= d < |y.op| ensures OpOk(Take(y, st), d) {
      if st.Other? {
        if st.action.Claim? || st.action.Init? || st.action.AddReady? || d != st.action.cpu {
          OpKeptElsewhere(y, st, d);
        } else {
          OpKeptOutside(y, st.action, d);
        }
      } else if d == st.cpu {
        OpKeptHere(y, st, d);
      } else {
        OpKeptElsewhere(y, st, d);
      }
    }
  }

  lemma AddressesStay(y: System, st: Step)
    requires SystemShape(y) && CanStep(y, st)
    ensures |SemsAfter(y, st)| == |y.sems|
    ensures forall s :: 0 <= s < |y.sems| ==> SemsAfter(y, st)[s].address == y.sems[s].address
  {
  }

  // ----- whole runs -----

  ghost predicate Run(y: System, steps: seq<Step>, y': System)
    decreases |steps|
  {
    if steps == [] then y == y'
    else SystemShape(y) && CanStep(y, steps[0]) && Run(Take(y, steps[0]), steps[1..], y')
  }

  lemma {:induction false} RunKeeps(y: System, steps: seq<Step>, y': System)
    requires SystemInv(y) && Run(y, steps, y')
    ensures SystemInv(y')
    decreases |steps|
  {
    hide SystemInv, Take, CanStep;
    if steps != [] {
      StepKeeps(y, steps[0]);
      RunKeeps(Take(y, steps[0]), steps[1..], y');
    }
  }

  /** After any run, a semaphore whose lock is free holds its initial value plus the V calls minus the P calls,
      as many threads wait as the value is below zero, and P calls have been granted first come first served
      up to the initial value plus the V calls. */
  lemma Accounting(y: System, steps: seq<Step>, y': System, s: nat)
    requires SystemInv(y) && Run(y, steps, y') && s < |y'.sems| && y'.sems[s].lock == -1
    ensures SystemShape(y')
    ensures var m := y'.sems[s];
            && m.value == m.initial + m.ups - m.downs
            && |Waiters(y'.k, m.address)| == (if m.value < 0 then -m.value else 0)
            && m.granted == if m.downs <= m.initial + m.ups then m.downs else m.initial + m.ups
  {
    hide Waiters, OpOk, LockOk, Inv;
    RunKeeps(y, steps, y');
    assert Balanced(y', s);
  }

  lemma {:induction false} FilterDistinct(sleepsOn: seq<nat>, chain: seq<Tid>, r: nat)
    requires Distinct(chain) && forall j :: 0 <= j < |chain| ==> chain[j] < |sleepsOn|
    ensures Distinct(Filter(sleepsOn, chain, r))
    decreases chain
  {
    if chain != [] {
      FilterDistinct(sleepsOn, chain[1..], r);
      FilterMembers(sleepsOn, chain[1..], r, chain[0]);
    }
  }

  lemma {:induction false} CountsAtMost(s: seq<Tid>, all: set<Tid>)
    requires Distinct(s) && forall t :: t in s ==> t in all
    ensures |s| <= |all|
    decreases |s|
  {
    if s != [] {
      CountsAtMost(s[1..], all - {s[0]});
    }
  }

  /** As many P calls are blocked at least as threads wait or are about to. */
  lemma BlockedWait(y: System, s: nat)
    requires SystemInv(y) && s < |y.sems|
    ensures |Waiters(y.k, y.sems[s].address)| + One(Unlinked(y, s)) <= |y.sems[s].blocked|
  {
    hide ReadyExact, MarkedOk, WakerOk, OwnersApart, Hash, Filter, IsAddress, Distinct;
    var m := y.sems[s];
    var w := Waiters(y.k, m.address);
    assert BlockedOk(y, s) && Balanced(y, s);
    assert ChainOk(y.k, Hash(|y.k.chains|, m.address));
    FilterDistinct(y.k.sleepsOn, y.k.chains[Hash(|y.k.chains|, m.address)], m.address);
    if Unlinked(y, s) {
      NotYetWaiting(y, s);
      LonelyCount(w, y.k.current[m.lock], m.blocked);
    } else {
      CountsAtMost(w, m.blocked);
    }
  }

  lemma LonelyCount(s: seq<Tid>, t: Tid, all: set<Tid>)
    requires Distinct(s) && t !in s && t in all && forall u :: u in s ==> u in all
    ensures |s| + 1 <= |all|
  {
    CountsAtMost(s, all - {t});
  }

  lemma NotYetWaiting(y: System, s: nat)
    requires SystemInv(y) && s < |y.sems| && Unlinked(y, s)
    ensures y.k.current[y.sems[s].lock] !in Waiters(y.k, y.sems[s].address)
  {
    hide ReadyExact, MarkedOk, WakerOk, OwnersApart, Hash, Filter, IsAddress, Distinct, BlockedOk;
    var m := y.sems[s];
    var c := m.lock;
    assert OpOk(y, c) && Balanced(y, s) && OwnerOk(y.k, c);
    var t := y.k.current[c];
    if t in Waiters(y.k, m.address) {
      FilterMembers(y.k.sleepsOn, y.k.chains[Hash(|y.k.chains|, m.address)], m.address, t);
      if y.k.pc[c].InThread? { WaitersElsewhere(y.k, m.address, t, c); }
    }
  }

  /** At no moment of a run have more P calls returned than the initial value plus the V calls, and the threads inside,
      counted as often as they are, number at most the initial value plus the V calls that came from elsewhere.
      So with initial value 1, and V called only by threads that are inside, at most one thread is inside. */
  lemma MutualExclusion(y: System, steps: seq<Step>, y': System, s: nat)
    requires SystemInv(y) && Run(y, steps, y') && s < |y'.sems|
    ensures var m := y'.sems[s];
            && m.returned <= m.granted <= m.initial + m.ups
            && |m.inside| <= m.initial + m.foreign
            && (m.initial == 1 && m.foreign == 0 ==> forall t, u :: t in m.inside && u in m.inside ==> t == u && m.inside[t] == 1)
  {
    hide Waiters, OpOk, LockOk, Inv;
    RunKeeps(y, steps, y');
    assert Balanced(y', s) && BlockedOk(y', s);
    BlockedWait(y', s);
    if y'.sems[s].initial == 1 && y'.sems[s].foreign == 0 { OneInside(y'.sems[s].inside); }
  }

  lemma OneInside(m: multiset<Tid>)
    requires |m| <= 1
    ensures forall t, u :: t in m && u in m ==> t == u && m[t] == 1
  {
    forall t, u | t in m && u in m ensures t == u && m[t] == 1 {
      assert m == multiset{t} + (m - multiset{t});
    }
  }

  /** When semaphore_V calls sleepq_wake there is a thread to wake, and it is the longest waiting one. */
  lemma WakeFindsThread(y: System, c: Cpu)
    requires SystemInv(y) && CanStep(y, VUnlink(c))
    ensures var r := y.sems[y.op[c].s].address;
            Waiters(y.k, r) != [] && KernelAfter(y, VUnlink(c)).pc == y.k.pc[c := Waking(Waiters(y.k, r)[0], r, false, y.k.pc[c])]
  {
    hide Waiters, LockOk, ReadyExact, ChainOk, MarkedOk, OwnerOk, WakerOk, OwnersApart, DoUnlink;
    var s := y.op[c].s;
    assert OpOk(y, c) && Balanced(y, s);
    assert Action0(y, VUnlink(c))[0] == Unlink(c, y.sems[s].address, false);
    WakeDelivers(y.k, c, y.sems[s].address, false);
    UnlinkPc(y.k, c, y.sems[s].address);
  }

  lemma UnlinkPc(k: Kernel, c: Cpu, r: nat)
    requires Shape(k) && Enabled(k, Unlink(c, r, false))
    ensures var k' := DoUnlink(k, c, r, false); |k'.pc| == |k.pc| && k'.pc == k.pc[c := k'.pc[c]]
  {
  }

  /** Freshly created semaphores on freshly booted CPUs. */
  lemma BootKeeps(k: Kernel, sems: seq<Semaphore>, threads: nat, chains: nat, cpus: nat)
    requires threads > 0 && chains > 0 && k == Boot(threads, chains, cpus)
    requires forall s :: 0 <= s < |sems| ==>
               sems[s].address != 0 && sems[s].value == sems[s].initial && sems[s].lock == -1
               && sems[s].downs == 0 && sems[s].ups == 0 && sems[s].granted == 0
               && sems[s].returned == 0 && sems[s].foreign == 0 && sems[s].blocked == {} && sems[s].inside == multiset{}
    requires forall s, r :: 0 <= s < r < |sems| ==> sems[s].address != sems[r].address
    ensures SystemInv(System(k, sems, seq(cpus, _ => NoOp)))
  {
    hide ReadyExact, ChainOk, MarkedOk, OwnerOk, WakerOk, OwnersApart, Hash;
    BootInv(threads, chains, cpus);
  }
}
