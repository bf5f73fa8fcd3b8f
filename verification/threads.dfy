/** The thread life cycle across CPUs (kernel/thread.c, scheduler.c, sleepq.c).

    Every action is one region of code that runs under a spinlock, or touches only
    fields no other CPU can touch at that point.  Lists are kept as sequences here;
    ThreadTable shows that the shared `next` field encodes them.
 */
module Threads {

  type Tid = nat
  type Cpu = nat

  const IDLE: Tid := 0

  datatype ThreadState = Free | Running | Ready | Sleeping | NonReady | Dying

  /** Where a CPU stands. Interrupts are enabled at InThread, Added and Finished: there the scheduler may come in,
      and device handlers may call sleepq_wake, which go back to where they came from. */
  datatype Pc =
    | InThread                                       // running the code of its thread
    | Adding                                         // in sleepq_add, thread marked but not yet linked
    | Added                                          // linked, on its way to thread_switch
    | Searching(resource: nat, back: Pc)             // in sleepq_wake_all, sleep queue lock held
    | Waking(thread: Tid, resource: nat, all: bool, back: Pc)  // `thread` unlinked, sleep queue lock held
    | Finished                                       // in thread_finish, on its way to the scheduler
    | Switching(to: Tid)                             // in scheduler_schedule, thread table lock released

  datatype Kernel = Kernel(
    state: seq<ThreadState>,
    sleepsOn: seq<nat>,
    ready: seq<Tid>,
    chains: seq<seq<Tid>>,
    current: seq<Tid>,
    pc: seq<Pc>,
    holder: int        // the CPU that holds sleepq_slock, or -1
  )

  /** SLEEPQ_HASH, for a table of `n` chains. */
  function Hash(n: nat, resource: nat): (h: nat)
    requires n > 0
    ensures h < n
  {
    resource % n
  }

  // ----- list helpers -----

  predicate Distinct(s: seq<Tid>) {
    forall i, j :: 0 <= i < j < |s| ==> s[i] != s[j]
  }

  function Without(s: seq<Tid>, i: nat): seq<Tid>
    requires i < |s|
  {
    s[..i] + s[i + 1..]
  }

  lemma WithoutMembers(s: seq<Tid>, i: nat)
    requires i < |s| && Distinct(s)
    ensures Distinct(Without(s, i))
    ensures forall t :: t in Without(s, i) <==> t in s && t != s[i]
  {
    forall t | t in s && t != s[i] ensures t in Without(s, i) {
      var j :| 0 <= j < |s| && s[j] == t;
      assert t == Without(s, i)[if j < i then j else j - 1];
    }
  }

  /** Position of the first thread of a chain that waits for `resource`, or the chain's length. */
  function FirstWaiter(sleepsOn: seq<nat>, chain: seq<Tid>, resource: nat): (i: nat)
    requires forall j :: 0 <= j < |chain| ==> chain[j] < |sleepsOn|
    ensures i <= |chain|
    ensures i < |chain| ==> sleepsOn[chain[i]] == resource
    ensures forall j :: 0 <= j < i ==> sleepsOn[chain[j]] != resource
  {
    if chain == [] || sleepsOn[chain[0]] == resource then 0
    else 1 + FirstWaiter(sleepsOn, chain[1..], resource)
  }

  // ----- the shape of a state -----

  predicate InTable(k: Kernel, s: seq<Tid>) {
    forall i :: 0 <= i < |s| ==> s[i] < |k.state|
  }

  predicate Holds(p: Pc) { p.Searching? || p.Waking? }

  /** Interrupts are enabled, and a wake may start. */
  predicate Open(p: Pc) { p.InThread? || p.Added? || p.Finished? }

  /** Where the CPU's thread stands while a wake is under way on that CPU. */
  function Home(p: Pc): Pc { if Holds(p) then p.back else p }

  predicate PcInTable(k: Kernel, p: Pc) {
    && (p.Waking? ==> p.thread < |k.state|)
    && (p.Switching? ==> p.to < |k.state|)
    && (Holds(p) ==> Open(p.back))
  }

  predicate Shape(k: Kernel) {
    && 0 < |k.state| == |k.sleepsOn|
    && 0 < |k.chains|
    && |k.current| == |k.pc|
    && InTable(k, k.ready) && InTable(k, k.current)
    && (forall h :: 0 <= h < |k.chains| ==> InTable(k, k.chains[h]))
    && (forall c :: 0 <= c < |k.pc| ==> PcInTable(k, k.pc[c]))
  }

  /** The thread a CPU runs, or is about to run once scheduler_schedule returns. */
  function Owned(k: Kernel, c: Cpu): Tid
    requires |k.current| == |k.pc| && c < |k.pc|
  {
    if k.pc[c].Switching? then k.pc[c].to else k.current[c]
  }

  // ----- actions -----

  datatype Action =
    | Prepare(cpu: Cpu, resource: nat)
    | Link(cpu: Cpu)
    | Unlink(cpu: Cpu, resource: nat, all: bool)
    | FinishWake(cpu: Cpu)
    | Schedule(cpu: Cpu)
    | Publish(cpu: Cpu)
    | Claim(tid: Tid)
    | Init(tid: Tid)
    | AddReady(tid: Tid)
    | Finish(cpu: Cpu)

  predicate Enabled(k: Kernel, a: Action)
    requires Shape(k)
  {
    match a
    case Prepare(c, r) => c < |k.pc| && k.pc[c].InThread? && k.current[c] != IDLE && r != 0
    case Link(c) => c < |k.pc| && k.pc[c].Adding? && k.holder == -1
    case Unlink(c, r, all) =>
      c < |k.pc| && r != 0 && if k.pc[c].Searching? then all && k.pc[c].resource == r else Open(k.pc[c]) && k.holder == -1
    case FinishWake(c) => c < |k.pc| && k.pc[c].Waking?
    case Schedule(c) => c < |k.pc| && Open(k.pc[c])
    case Publish(c) => c < |k.pc| && k.pc[c].Switching?
    case Claim(t) => 0 < t < |k.state| && k.state[t] == Free
    case Init(t) => 0 < t < |k.state| && k.state[t] == NonReady
    case AddReady(t) => 0 < t < |k.state| && k.state[t] == NonReady
    case Finish(c) => c < |k.pc| && k.pc[c].InThread? && k.current[c] != IDLE
  }

  /** sleepq_add, before the lock: mark the running thread. */
  function DoPrepare(k: Kernel, c: Cpu, r: nat): Kernel
    requires Shape(k) && Enabled(k, Prepare(c, r))
  {
    k.(sleepsOn := k.sleepsOn[k.current[c] := r], pc := k.pc[c := Adding])
  }

  /** sleepq_add, under the lock: append to the chain of the resource. */
  function DoLink(k: Kernel, c: Cpu): Kernel
    requires Shape(k) && Enabled(k, Link(c))
  {
    var t := k.current[c];
    var h := Hash(|k.chains|, k.sleepsOn[t]);
    k.(chains := k.chains[h := k.chains[h] + [t]], pc := k.pc[c := Added])
  }

  /** sleepq_wake and sleepq_wake_all, first half: take the first waiter off its chain. */
  function DoUnlink(k: Kernel, c: Cpu, r: nat, all: bool): Kernel
    requires Shape(k) && Enabled(k, Unlink(c, r, all))
  {
    var h := Hash(|k.chains|, r);
    var i := FirstWaiter(k.sleepsOn, k.chains[h], r);
    if i == |k.chains[h]| then k.(pc := k.pc[c := Home(k.pc[c])], holder := -1)
    else k.(chains := k.chains[h := Without(k.chains[h], i)],
            pc := k.pc[c := Waking(k.chains[h][i], r, all, Home(k.pc[c]))], holder := c)
  }

  /** Second half, under the thread table lock: clear the mark, make a sleeper ready. */
  function DoFinishWake(k: Kernel, c: Cpu): Kernel
    requires Shape(k) && Enabled(k, FinishWake(c))
  {
    var t := k.pc[c].thread;
    var k' := k.(
      sleepsOn := k.sleepsOn[t := 0],
      pc := k.pc[c := if k.pc[c].all then Searching(k.pc[c].resource, k.pc[c].back) else k.pc[c].back],
      holder := if k.pc[c].all then c else -1);
    if k.state[t] == Sleeping then k'.(state := k.state[t := Ready], ready := k.ready + [t])
    else k'
  }

  /** scheduler_schedule, first part: what becomes of the thread that was running. */
  function Retire(k: Kernel, t: Tid): Kernel
    requires Shape(k) && t < |k.state|
  {
    if k.state[t] == Dying then k.(state := k.state[t := Free])
    else if k.sleepsOn[t] != 0 then k.(state := k.state[t := Sleeping])
    else if t != IDLE then k.(state := k.state[t := Ready], ready := k.ready + [t])
    else k.(state := k.state[t := Ready])
  }

  /** Second part: the first ready thread, or the idle thread, runs next on this CPU. */
  function Dispatch(k: Kernel, c: Cpu): Kernel
    requires Shape(k) && c < |k.pc|
  {
    if k.ready == [] then k.(state := k.state[IDLE := Running], pc := k.pc[c := Switching(IDLE)])
    else
      var t := k.ready[0];
      k.(state := k.state[t := Running], ready := k.ready[1..], pc := k.pc[c := Switching(t)])
  }

  function DoSchedule(k: Kernel, c: Cpu): Kernel
    requires Shape(k) && Enabled(k, Schedule(c))
  {
    Dispatch(Retire(k, k.current[c]), c)
  }

  function Next(k: Kernel, a: Action): Kernel
    requires Shape(k) && Enabled(k, a)
  {
    match a
    case Prepare(c, r) => DoPrepare(k, c, r)
    case Link(c) => DoLink(k, c)
    case Unlink(c, r, all) => DoUnlink(k, c, r, all)
    case FinishWake(c) => DoFinishWake(k, c)
    case Schedule(c) => DoSchedule(k, c)
    case Publish(c) => k.(current := k.current[c := k.pc[c].to], pc := k.pc[c := InThread])
    case Claim(t) => k.(state := k.state[t := NonReady])
    case Init(t) => k.(sleepsOn := k.sleepsOn[t := 0])
    case AddReady(t) => k.(ready := k.ready + [t], state := k.state[t := Ready])
    case Finish(c) => k.(state := k.state[k.current[c] := Dying], pc := k.pc[c := Finished])
  }

  // ----- the invariant -----

  /** The ready list holds exactly the ready threads other than the idle one, once each. */
  ghost predicate ReadyExact(k: Kernel)
    requires Shape(k)
  {
    Distinct(k.ready) && forall t :: 0 <= t < |k.state| ==> (t in k.ready <==> k.state[t] == Ready && t != IDLE)
  }

  /** A chain holds threads that wait for a resource with its hash, once each. */
  ghost predicate ChainOk(k: Kernel, h: nat)
    requires Shape(k) && h < |k.chains|
  {
    && Distinct(k.chains[h])
    && forall t :: t in k.chains[h] ==> t < |k.state| && k.sleepsOn[t] != 0 && Hash(|k.chains|, k.sleepsOn[t]) == h
  }

  ghost predicate OnChain(k: Kernel, t: Tid)
    requires Shape(k) && t < |k.state|
  {
    t in k.chains[Hash(|k.chains|, k.sleepsOn[t])]
  }

  /** The holder of the sleep queue lock has just unlinked `t`. */
  predicate BeingWoken(k: Kernel, t: Tid) {
    0 <= k.holder < |k.pc| && k.pc[k.holder].Waking? && k.pc[k.holder].thread == t
  }

  /** A sleeping thread is where a wake will find it, only sleeping or running threads are marked, and the idle thread
      is always there to run. */
  ghost predicate MarkedOk(k: Kernel, t: Tid)
    requires Shape(k) && t < |k.state|
  {
    && (t == IDLE ==> k.state[t] == Ready || k.state[t] == Running)
    && (k.sleepsOn[t] != 0 ==> t != IDLE && (k.state[t] == Sleeping || k.state[t] == Running))
    && (k.state[t] == Sleeping ==> k.sleepsOn[t] != 0 && (OnChain(k, t) || BeingWoken(k, t)))
  }

  /** A CPU between sleepq_add and the scheduler runs a marked thread, unless a wake came first, on whichever CPU. */
  ghost predicate OwnerOk(k: Kernel, c: Cpu)
    requires Shape(k) && c < |k.pc|
  {
    var t := Owned(k, c);
    && (t != IDLE ==> k.state[t] == if Home(k.pc[c]).Finished? then Dying else Running)
    && match Home(k.pc[c]) {
         case Adding => t != IDLE && k.sleepsOn[t] != 0 && !OnChain(k, t) && !BeingWoken(k, t)
         case Added => t != IDLE && (k.sleepsOn[t] != 0 ==> OnChain(k, t) || BeingWoken(k, t))
         case Finished => t != IDLE && k.sleepsOn[t] == 0
         case _ => k.sleepsOn[t] == 0
       }
  }

  ghost predicate WakerOk(k: Kernel, c: Cpu)
    requires Shape(k) && c < |k.pc|
  {
    && (Holds(k.pc[c]) <==> k.holder == c)
    && (k.pc[c].Searching? ==> k.pc[c].resource != 0)
    && (k.pc[c].Waking? ==> k.sleepsOn[k.pc[c].thread] == k.pc[c].resource != 0 && !OnChain(k, k.pc[c].thread))
  }

  /** No thread but the idle one belongs to two CPUs. */
  ghost predicate OwnersApart(k: Kernel)
    requires Shape(k)
  {
    forall c, d :: 0 <= c < d < |k.pc| && Owned(k, c) == Owned(k, d) ==> Owned(k, c) == IDLE
  }

  ghost predicate Inv(k: Kernel) {
    && Shape(k)
    && -1 <= k.holder < |k.pc|
    && ReadyExact(k)
    && (forall h :: 0 <= h < |k.chains| ==> ChainOk(k, h))
    && (forall t :: 0 <= t < |k.state| ==> MarkedOk(k, t))
    && (forall c :: 0 <= c < |k.pc| ==> OwnerOk(k, c) && WakerOk(k, c))
    && OwnersApart(k)
  }

  // ----- every action keeps the invariant -----

  lemma ShapeKept(k: Kernel, a: Action)
    requires Inv(k) && Enabled(k, a)
    ensures Shape(Next(k, a)) && -1 <= Next(k, a).holder < |k.pc| == |Next(k, a).pc|
    ensures |Next(k, a).state| == |k.state| && |Next(k, a).chains| == |k.chains|
  {
    hide Hash, ReadyExact, ChainOk, MarkedOk, OwnerOk, WakerOk, OwnersApart, DoSchedule, DoUnlink, DoLink, DoFinishWake;
    if a.Schedule? { ScheduleShape(k, a.cpu); }
    if a.Unlink? { UnlinkShape(k, a.cpu, a.resource, a.all); }
    if a.Link? { LinkShape(k, a.cpu); }
    if a.FinishWake? { FinishWakeShape(k, a.cpu); }
  }

  lemma FinishWakeShape(k: Kernel, c: Cpu)
    requires Shape(k) && -1 <= k.holder < |k.pc| && Enabled(k, FinishWake(c))
    ensures var k' := DoFinishWake(k, c);
            && Shape(k') && -1 <= k'.holder < |k.pc| == |k'.pc|
            && |k'.state| == |k.state| && |k'.chains| == |k.chains|
  {
  }

  lemma UnlinkShape(k: Kernel, c: Cpu, r: nat, all: bool)
    requires Shape(k) && Enabled(k, Unlink(c, r, all))
    ensures var k' := DoUnlink(k, c, r, all);
            Shape(k') && -1 <= k'.holder < |k.pc| == |k'.pc| && k'.state == k.state && |k'.chains| == |k.chains|
  {
    hide Hash;
  }

  lemma LinkShape(k: Kernel, c: Cpu)
    requires Shape(k) && Enabled(k, Link(c))
    ensures var k' := DoLink(k, c);
            Shape(k') && k'.holder == k.holder && |k.pc| == |k'.pc| && k'.state == k.state && |k'.chains| == |k.chains|
  {
    hide Hash;
  }

  lemma ScheduleShape(k: Kernel, c: Cpu)
    requires Shape(k) && Enabled(k, Schedule(c))
    ensures var k' := DoSchedule(k, c);
            Shape(k') && k'.holder == k.holder && |k'.pc| == |k.pc| && |k'.state| == |k.state| && |k'.chains| == |k.chains|
  {
    hide Dispatch;
    RetireShape(k, k.current[c]);
    DispatchShape(Retire(k, k.current[c]), c);
  }

  lemma RetireShape(k: Kernel, t: Tid)
    requires Shape(k) && t < |k.state|
    ensures var k' := Retire(k, t);
            Shape(k') && k'.holder == k.holder && k'.pc == k.pc && |k'.state| == |k.state| && k'.chains == k.chains
  {
  }

  lemma DispatchShape(k: Kernel, c: Cpu)
    requires Shape(k) && c < |k.pc|
    ensures var k' := Dispatch(k, c);
            Shape(k') && k'.holder == k.holder && |k'.pc| == |k.pc| && |k'.state| == |k.state| && k'.chains == k.chains
  {
  }

  /** Actions outside the scheduler. */
  lemma ReadyKept(k: Kernel, a: Action)
    requires Inv(k) && Enabled(k, a) && !a.Schedule?
    ensures Shape(Next(k, a)) && ReadyExact(Next(k, a))
  {
    hide Hash, ChainOk, OwnersApart;
    ShapeKept(k, a);
    if a.FinishWake? {
      assert WakerOk(k, a.cpu) && MarkedOk(k, k.pc[a.cpu].thread);
    }
    if a.Finish? || a.Prepare? { assert OwnerOk(k, a.cpu); }
  }

  /** The sleep queue chain, and the thread, that an action works on. */
  function Touched(k: Kernel, a: Action): nat
    requires Shape(k) && Enabled(k, a)
  {
    match a
    case Prepare(_, r) => Hash(|k.chains|, r)
    case Link(c) => Hash(|k.chains|, k.sleepsOn[k.current[c]])
    case Unlink(_, r, _) => Hash(|k.chains|, r)
    case _ => 0
  }

  lemma ChainKept(k: Kernel, a: Action, h: nat)
    requires Inv(k) && Enabled(k, a) && !a.Schedule? && !a.Unlink? && h < |k.chains|
    ensures Shape(Next(k, a)) && ChainOk(Next(k, a), h)
  {
    hide Hash, ReadyExact, OwnersApart, DoUnlink, FirstWaiter;
    ShapeKept(k, a);
    assert ChainOk(k, h) && ChainOk(k, Touched(k, a));
    if a.FinishWake? || a.Prepare? || a.Link? { assert OwnerOk(k, a.cpu) && WakerOk(k, a.cpu); }
    if a.Init? { assert MarkedOk(k, a.tid); }
  }

  lemma ChainKeptByUnlink(k: Kernel, a: Action, h: nat)
    requires Inv(k) && Enabled(k, a) && a.Unlink? && h < |k.chains|
    ensures Shape(Next(k, a)) && ChainOk(Next(k, a), h)
  {
    hide Hash, ReadyExact, OwnersApart, Without, Distinct, MarkedOk, OwnerOk, WakerOk;
    ShapeKept(k, a);
    var g := Touched(k, a);
    assert ChainOk(k, h) && ChainOk(k, g);
    var i := FirstWaiter(k.sleepsOn, k.chains[g], a.resource);
    if i < |k.chains[g]| { WithoutMembers(k.chains[g], i); }
  }

  lemma MarkedKept(k: Kernel, a: Action, t: Tid)
    requires Inv(k) && Enabled(k, a) && !a.Schedule? && !a.Unlink? && t < |k.state|
    ensures Shape(Next(k, a)) && MarkedOk(Next(k, a), t)
  {
    hide Hash, ReadyExact, OwnersApart, Distinct, DoUnlink, FirstWaiter;
    ShapeKept(k, a);
    assert MarkedOk(k, t) && ChainOk(k, Touched(k, a));
    if !a.Claim? && !a.Init? && !a.AddReady? { assert OwnerOk(k, a.cpu) && WakerOk(k, a.cpu); }
  }

  lemma MarkedKeptByUnlink(k: Kernel, a: Action, t: Tid)
    requires Inv(k) && Enabled(k, a) && a.Unlink? && t < |k.state|
    ensures Shape(Next(k, a)) && MarkedOk(Next(k, a), t)
  {
    hide Hash, ReadyExact, OwnersApart, Without, Distinct, OwnerOk;
    ShapeKept(k, a);
    var g := Touched(k, a);
    assert MarkedOk(k, t) && ChainOk(k, g) && WakerOk(k, a.cpu);
    var i := FirstWaiter(k.sleepsOn, k.chains[g], a.resource);
    if i < |k.chains[g]| { WithoutMembers(k.chains[g], i); }
  }

  lemma OwnerKept(k: Kernel, a: Action, d: Cpu)
    requires Inv(k) && Enabled(k, a) && (a.Publish? || a.Finish? || a.Claim? || a.Init? || a.AddReady?) && d < |k.pc|
    ensures Shape(Next(k, a)) && OwnerOk(Next(k, a), d)
  {
    hide Hash, ReadyExact, Distinct, DoUnlink, MarkedOk;
    ShapeKept(k, a);
    assert OwnerOk(k, d);
    if a.Publish? || a.Finish? { assert OwnerOk(k, a.cpu) && WakerOk(k, a.cpu); }
  }

  lemma OwnerKeptByAdd(k: Kernel, a: Action, d: Cpu)
    requires Inv(k) && Enabled(k, a) && (a.Prepare? || a.Link?) && d < |k.pc|
    ensures Shape(Next(k, a)) && OwnerOk(Next(k, a), d)
  {
    hide Hash, ReadyExact, Distinct, DoUnlink, DoFinishWake, DoSchedule, MarkedOk;
    ShapeKept(k, a);
    assert OwnerOk(k, d) && WakerOk(k, d) && ChainOk(k, Touched(k, a));
    assert OwnerOk(k, a.cpu) && WakerOk(k, a.cpu);
    if k.holder >= 0 { assert WakerOk(k, k.holder); }
  }

  lemma OwnerKeptByWake(k: Kernel, c: Cpu, d: Cpu)
    requires Inv(k) && Enabled(k, FinishWake(c)) && d < |k.pc|
    ensures Shape(DoFinishWake(k, c)) && OwnerOk(DoFinishWake(k, c), d)
  {
    hide Hash, ReadyExact, Distinct, ChainOk, MarkedOk, OwnersApart;
    ShapeKept(k, FinishWake(c));
    assert OwnerOk(k, d) && OwnerOk(k, c) && WakerOk(k, c);
  }

  lemma OwnerKeptByUnlink(k: Kernel, c: Cpu, r: nat, all: bool, d: Cpu)
    requires Inv(k) && Enabled(k, Unlink(c, r, all)) && d < |k.pc|
    ensures Shape(DoUnlink(k, c, r, all)) && OwnerOk(DoUnlink(k, c, r, all), d)
  {
    hide Hash, ReadyExact, Without, Distinct, MarkedOk;
    ShapeKept(k, Unlink(c, r, all));
    var g := Hash(|k.chains|, r);
    assert OwnerOk(k, d) && ChainOk(k, g) && OwnerOk(k, c) && WakerOk(k, c);
    var i := FirstWaiter(k.sleepsOn, k.chains[g], r);
    if i < |k.chains[g]| { WithoutMembers(k.chains[g], i); }
  }

  lemma WakerKept(k: Kernel, a: Action, d: Cpu)
    requires Inv(k) && Enabled(k, a) && !a.Schedule? && !a.Unlink? && d < |k.pc|
    ensures Shape(Next(k, a)) && WakerOk(Next(k, a), d)
  {
    hide Hash, ReadyExact, OwnersApart, Distinct, DoUnlink, FirstWaiter;
    ShapeKept(k, a);
    assert OwnerOk(k, d) && WakerOk(k, d) && ChainOk(k, Touched(k, a));
    if k.holder >= 0 { assert WakerOk(k, k.holder); }
    if !a.Claim? && !a.Init? && !a.AddReady? { assert OwnerOk(k, a.cpu) && WakerOk(k, a.cpu); }
    if a.Init? && k.pc[d].Waking? { assert MarkedOk(k, k.pc[d].thread); }
  }

  lemma WakerKeptByUnlink(k: Kernel, a: Action, d: Cpu)
    requires Inv(k) && Enabled(k, a) && a.Unlink? && d < |k.pc|
    ensures Shape(Next(k, a)) && WakerOk(Next(k, a), d)
  {
    hide Hash, ReadyExact, OwnersApart, Without, Distinct, MarkedOk, OwnerOk;
    ShapeKept(k, a);
    var g := Touched(k, a);
    assert WakerOk(k, d) && WakerOk(k, a.cpu) && ChainOk(k, g);
    if k.holder >= 0 { assert WakerOk(k, k.holder); }
    var i := FirstWaiter(k.sleepsOn, k.chains[g], a.resource);
    if i < |k.chains[g]| { WithoutMembers(k.chains[g], i); }
  }

  lemma ApartKept(k: Kernel, a: Action)
    requires Inv(k) && Enabled(k, a) && !a.Schedule?
    ensures Shape(Next(k, a)) && OwnersApart(Next(k, a))
  {
    hide Hash, ReadyExact, ChainOk, MarkedOk, OwnerOk, WakerOk, Without;
    ShapeKept(k, a);
    assert forall d :: 0 <= d < |k.pc| ==> Owned(Next(k, a), d) == Owned(k, d);
  }

  /** The invariant while CPU `c` is inside scheduler_schedule and runs no thread. */
  ghost predicate InvBut(k: Kernel, c: Cpu) {
    && Shape(k) && c < |k.pc|
    && -1 <= k.holder < |k.pc| && k.holder != c && !Holds(k.pc[c])
    && ReadyExact(k)
    && (forall h :: 0 <= h < |k.chains| ==> ChainOk(k, h))
    && (forall t :: 0 <= t < |k.state| ==> MarkedOk(k, t))
    && (forall d :: 0 <= d < |k.pc| && d != c ==> OwnerOk(k, d) && WakerOk(k, d))
    && (forall d, e :: 0 <= d < e < |k.pc| && d != c && e != c && Owned(k, d) == Owned(k, e) ==> Owned(k, d) == IDLE)
  }

  lemma RetireKeeps(k: Kernel, c: Cpu)
    requires Inv(k) && Enabled(k, Schedule(c))
    ensures InvBut(Retire(k, k.current[c]), c)
  {
    hide Hash, Distinct, ReadyExact, ChainOk, MarkedOk, OwnerOk, Retire;
    var k' := Retire(k, k.current[c]);
    RetireReady(k, c);
    RetireFrame(k, c);
    forall h | 0 <= h < |k.chains| ensures ChainOk(k', h) {
      RetireChain(k, c, h);
    }
    forall t | 0 <= t < |k.state| ensures MarkedOk(k', t) {
      RetireMarked(k, c, t);
    }
    forall d | 0 <= d < |k.pc| && d != c ensures OwnerOk(k', d) && WakerOk(k', d) && Owned(k', d) == Owned(k, d) {
      RetireOwner(k, c, d);
    }
  }

  lemma RetireFrame(k: Kernel, c: Cpu)
    requires Inv(k) && Enabled(k, Schedule(c))
    ensures var k' := Retire(k, k.current[c]);
            && Shape(k') && |k'.state| == |k.state| && k'.sleepsOn == k.sleepsOn && k'.chains == k.chains
            && k'.pc == k.pc && k'.current == k.current && k'.holder == k.holder != c
            && forall t :: 0 <= t < |k.state| && t != k.current[c] ==> k'.state[t] == k.state[t]
  {
    hide Hash, ReadyExact, ChainOk, MarkedOk, OwnerOk, OwnersApart;
    assert WakerOk(k, c);
  }

  lemma RetireChain(k: Kernel, c: Cpu, h: nat)
    requires Inv(k) && Enabled(k, Schedule(c)) && h < |k.chains|
    ensures Shape(Retire(k, k.current[c])) && ChainOk(Retire(k, k.current[c]), h)
  {
    hide Hash, Distinct, ReadyExact, MarkedOk, OwnerOk, WakerOk, OwnersApart;
    assert ChainOk(k, h);
  }

  lemma RetireMarked(k: Kernel, c: Cpu, t: Tid)
    requires Inv(k) && Enabled(k, Schedule(c)) && t < |k.state|
    ensures Shape(Retire(k, k.current[c])) && MarkedOk(Retire(k, k.current[c]), t)
  {
    hide Hash, Distinct, ReadyExact, ChainOk, OwnersApart;
    assert MarkedOk(k, t) && OwnerOk(k, c) && WakerOk(k, c);
  }

  lemma RetireOwner(k: Kernel, c: Cpu, d: Cpu)
    requires Inv(k) && Enabled(k, Schedule(c)) && d < |k.pc| && d != c
    ensures var k' := Retire(k, k.current[c]);
            Shape(k') && OwnerOk(k', d) && WakerOk(k', d) && Owned(k', d) == Owned(k, d)
  {
    hide Hash, Distinct, ReadyExact, ChainOk, MarkedOk, Retire;
    RetireFrame(k, c);
    assert OwnerOk(k, d) && WakerOk(k, d);
    assert Owned(k, c) == k.current[c];
    assert Owned(k, d) == Owned(k, c) ==> Owned(k, c) == IDLE;
  }

  lemma RetireReady(k: Kernel, c: Cpu)
    requires Inv(k) && Enabled(k, Schedule(c))
    ensures Shape(Retire(k, k.current[c])) && ReadyExact(Retire(k, k.current[c]))
  {
    hide Hash, ChainOk, WakerOk, OwnersApart, MarkedOk;
    var me := k.current[c];
    assert OwnerOk(k, c);
    assert forall t :: t in k.ready + [me] <==> t in k.ready || t == me;
  }

  lemma DispatchKeeps(k: Kernel, c: Cpu)
    requires InvBut(k, c)
    ensures Inv(Dispatch(k, c))
  {
    hide Hash, Distinct, ReadyExact, ChainOk, MarkedOk, OwnerOk, WakerOk;
    var k' := Dispatch(k, c);
    DispatchReady(k, c);
    forall h | 0 <= h < |k.chains| ensures ChainOk(k', h) {
      DispatchChain(k, c, h);
    }
    forall t | 0 <= t < |k.state| ensures MarkedOk(k', t) {
      DispatchMarked(k, c, t);
    }
    forall d | 0 <= d < |k.pc|
      ensures OwnerOk(k', d) && WakerOk(k', d)
      ensures d != c ==> Owned(k', d) == Owned(k, d) && (Owned(k, d) == Owned(k', c) ==> Owned(k, d) == IDLE)
    {
      DispatchOwner(k, c, d);
    }
  }

  lemma DispatchReady(k: Kernel, c: Cpu)
    requires InvBut(k, c)
    ensures Shape(Dispatch(k, c)) && ReadyExact(Dispatch(k, c))
  {
    hide Hash, ChainOk, MarkedOk, OwnerOk, WakerOk;
    if k.ready != [] {
      var next := k.ready[0];
      assert forall t :: t in k.ready <==> t in k.ready[1..] || t == next;
    }
  }

  lemma DispatchChain(k: Kernel, c: Cpu, h: nat)
    requires InvBut(k, c) && h < |k.chains|
    ensures Shape(Dispatch(k, c)) && ChainOk(Dispatch(k, c), h)
  {
    hide Hash, Distinct, ReadyExact, MarkedOk, OwnerOk, WakerOk;
    assert ChainOk(k, h);
  }

  /** The thread that is to run was ready, so no wake was under way for it. */
  lemma DispatchMarked(k: Kernel, c: Cpu, t: Tid)
    requires InvBut(k, c) && t < |k.state|
    ensures Shape(Dispatch(k, c)) && MarkedOk(Dispatch(k, c), t)
  {
    hide Hash, Distinct, ChainOk, OwnerOk;
    assert MarkedOk(k, t);
    if k.ready != [] { assert k.ready[0] in k.ready; }
  }

  lemma DispatchOwner(k: Kernel, c: Cpu, d: Cpu)
    requires InvBut(k, c) && d < |k.pc|
    ensures var k' := Dispatch(k, c);
            && Shape(k') && OwnerOk(k', d) && WakerOk(k', d)
            && (d != c ==> Owned(k', d) == Owned(k, d) && (Owned(k, d) == Owned(k', c) ==> Owned(k, d) == IDLE))
  {
    hide Hash, Distinct, ChainOk;
    var k' := Dispatch(k, c);
    var next := k'.pc[c].to;
    assert MarkedOk(k, next) && MarkedOk(k, IDLE);
    if k.ready != [] { assert next in k.ready; }
    if d != c { assert OwnerOk(k, d) && WakerOk(k, d); }
  }

  /** Every action of every CPU keeps the invariant. */
  lemma ActionKeeps(k: Kernel, a: Action)
    requires Inv(k) && Enabled(k, a)
    ensures Inv(Next(k, a))
  {
    if a.Schedule? {
      ScheduleKeeps(k, a.cpu);
    } else {
      OtherKeeps(k, a);
    }
  }

  lemma ScheduleKeeps(k: Kernel, c: Cpu)
    requires Inv(k) && Enabled(k, Schedule(c))
    ensures Inv(DoSchedule(k, c))
  {
    hide ReadyExact, ChainOk, MarkedOk, OwnerOk, WakerOk, OwnersApart, Dispatch, Retire;
    RetireKeeps(k, c);
    DispatchKeeps(Retire(k, k.current[c]), c);
  }

  lemma OtherKeeps(k: Kernel, a: Action)
    requires Inv(k) && Enabled(k, a) && !a.Schedule?
    ensures Inv(Next(k, a))
  {
    hide ReadyExact, ChainOk, MarkedOk, OwnerOk, WakerOk, OwnersApart, Next;
    ShapeKept(k, a);
    ReadyKept(k, a);
    ApartKept(k, a);
    forall h | 0 <= h < |k.chains| ensures ChainOk(Next(k, a), h) {
      if a.Unlink? { ChainKeptByUnlink(k, a, h); } else { ChainKept(k, a, h); }
    }
    forall t | 0 <= t < |k.state| ensures MarkedOk(Next(k, a), t) {
      if a.Unlink? { MarkedKeptByUnlink(k, a, t); } else { MarkedKept(k, a, t); }
    }
    forall d | 0 <= d < |k.pc| ensures OwnerOk(Next(k, a), d) && WakerOk(Next(k, a), d) {
      if a.Unlink? { WakerKeptByUnlink(k, a, d); } else { WakerKept(k, a, d); }
      if a.Unlink? {
        UnlinkIs(k, a);
        OwnerKeptByUnlink(k, a.cpu, a.resource, a.all, d);
      } else if a.FinishWake? {
        FinishWakeIs(k, a);
        OwnerKeptByWake(k, a.cpu, d);
      } else if a.Prepare? || a.Link? {
        OwnerKeptByAdd(k, a, d);
      } else {
        OwnerKept(k, a, d);
      }
    }
  }

  lemma FinishWakeIs(k: Kernel, a: Action)
    requires Shape(k) && Enabled(k, a) && a.FinishWake?
    ensures Next(k, a) == DoFinishWake(k, a.cpu)
  {
  }

  lemma UnlinkIs(k: Kernel, a: Action)
    requires Shape(k) && Enabled(k, a) && a.Unlink?
    ensures Next(k, a) == DoUnlink(k, a.cpu, a.resource, a.all)
  {
  }

  // ----- whole runs -----

  /** Interrupts are set up and every CPU is still on the idle thread, whose row alone is in use. */
  function Boot(threads: nat, chains: nat, cpus: nat): Kernel
    requires threads > 0 && chains > 0
  {
    Kernel(seq(threads, t => if t == IDLE then Ready else Free), seq(threads, _ => 0),
           [], seq(chains, _ => []), seq(cpus, _ => IDLE), seq(cpus, _ => InThread), -1)
  }

  lemma BootInv(threads: nat, chains: nat, cpus: nat)
    requires threads > 0 && chains > 0
    ensures Inv(Boot(threads, chains, cpus))
  {
    hide Hash;
  }

  /** `k` turns into `k'` by the actions, each of which was possible when it was taken. */
  ghost predicate Run(k: Kernel, actions: seq<Action>, k': Kernel)
    decreases |actions|
  {
    if actions == [] then k == k'
    else Shape(k) && Enabled(k, actions[0]) && Run(Next(k, actions[0]), actions[1..], k')
  }

  lemma {:induction false} RunKeeps(k: Kernel, actions: seq<Action>, k': Kernel)
    requires Inv(k) && Run(k, actions, k')
    ensures Inv(k')
    decreases |actions|
  {
    hide Inv, Next;
    if actions != [] {
      ActionKeeps(k, actions[0]);
      RunKeeps(Next(k, actions[0]), actions[1..], k');
    }
  }

  /** In every interleaving, once the sleep queue lock is free a sleeping thread is where a wake of its resource looks,
      and a thread that no wake can reach is not sleeping. */
  lemma NoLostWakeup(threads: nat, chains: nat, cpus: nat, actions: seq<Action>, k: Kernel, t: Tid)
    requires threads > 0 && chains > 0 && Run(Boot(threads, chains, cpus), actions, k)
    requires t < |k.state|
    ensures Shape(k)
    ensures k.holder == -1 && k.state[t] == Sleeping ==> k.sleepsOn[t] != 0 && OnChain(k, t)
    ensures k.sleepsOn[t] == 0 ==> k.state[t] != Sleeping
    ensures t != IDLE && k.state[t] == Ready ==> t in k.ready && k.sleepsOn[t] == 0
  {
    hide ChainOk, OwnerOk, WakerOk, OwnersApart;
    BootInv(threads, chains, cpus);
    RunKeeps(Boot(threads, chains, cpus), actions, k);
    assert MarkedOk(k, t);
  }

  /** scheduler_current_thread alone can name a thread on two CPUs, but only while one of them is leaving it. */
  lemma CurrentTwice(k: Kernel, c: Cpu, d: Cpu)
    requires Inv(k) && c < d < |k.pc| && k.current[c] == k.current[d] != IDLE
    ensures k.pc[c].Switching? || k.pc[d].Switching?
  {
    assert Owned(k, c) == Owned(k, d) ==> Owned(k, c) == IDLE;
  }

  lemma {:induction false} RunExtends(k0: Kernel, actions: seq<Action>, k: Kernel, a: Action)
    requires Run(k0, actions, k) && Shape(k) && Enabled(k, a)
    ensures Run(k0, actions + [a], Next(k, a))
    decreases |actions|
  {
    hide Next, Enabled, Shape;
    if actions == [] {
      assert [a][1..] == [];
    } else {
      RunExtends(Next(k0, actions[0]), actions[1..], k, a);
      assert (actions + [a])[1..] == actions[1..] + [a];
    }
  }

  lemma RunOne(k0: Kernel, actions: seq<Action>, k: Kernel, a: Action) returns (actions': seq<Action>, k': Kernel)
    requires Inv(k) && Run(k0, actions, k) && Enabled(k, a)
    ensures k' == Next(k, a) && Inv(k') && Run(k0, actions', k')
  {
    hide Next, Run;
    ActionKeeps(k, a);
    RunExtends(k0, actions, k, a);
    actions', k' := actions + [a], Next(k, a);
  }

  /** Three rows, one chain and two CPUs, nobody waiting and nobody in the kernel. */
  function Quiet(state: seq<ThreadState>, ready: seq<Tid>, current: seq<Tid>): Kernel {
    Kernel(state, [0, 0, 0], ready, [[]], current, [InThread, InThread], -1)
  }

  /** A thread is created and run. */
  lemma NewThread(k0: Kernel, actions: seq<Action>, k: Kernel, t: Tid) returns (actions': seq<Action>, k': Kernel)
    requires Inv(k) && Run(k0, actions, k) && 0 < t < |k.state| && k.state[t] == Free && k.sleepsOn[t] == 0
    ensures Inv(k') && Run(k0, actions', k')
    ensures k' == k.(state := k.state[t := Ready], ready := k.ready + [t])
  {
    hide Run, InvBut;
    actions', k' := RunOne(k0, actions, k, Claim(t));
    actions', k' := RunOne(k0, actions', k', Init(t));
    actions', k' := RunOne(k0, actions', k', AddReady(t));
  }

  lemma TwoThreads() returns (actions: seq<Action>, k: Kernel)
    ensures Run(Boot(3, 1, 2), actions, k) && Inv(k)
    ensures k == Quiet([Ready, Ready, Ready], [1, 2], [0, 0])
  {
    hide Inv, Run;
    var k0 := Boot(3, 1, 2);
    BootInv(3, 1, 2);
    RunsNothing(k0);
    assert k0 == Quiet([Ready, Free, Free], [], [0, 0]);
    actions, k := NewThread(k0, [], k0, 1);
    assert k == Quiet([Ready, Ready, Free], [1], [0, 0]);
    actions, k := NewThread(k0, actions, k, 2);
  }

  /** Two threads were created and run, and CPU 0 has picked up the first. */
  lemma FirstThreadRuns() returns (actions: seq<Action>, k: Kernel)
    ensures Run(Boot(3, 1, 2), actions, k) && Inv(k)
    ensures k == Quiet([Ready, Running, Ready], [2], [1, 0])
  {
    hide Inv, Run, Boot;
    var k0 := Boot(3, 1, 2);
    actions, k := TwoThreads();
    actions, k := RunOne(k0, actions, k, Schedule(0));
    actions, k := RunOne(k0, actions, k, Publish(0));
  }

  lemma RunsNothing(k: Kernel)
    ensures Run(k, [], k)
  {
  }

  /** It does happen: CPU 0 is leaving thread 1 for thread 2 when CPU 1 already runs thread 1. */
  lemma CurrentTwiceHappens() returns (actions: seq<Action>, k: Kernel)
    ensures Run(Boot(3, 1, 2), actions, k)
    ensures |k.pc| == 2 && k.current == [1, 1] && k.pc == [Switching(2), InThread]
  {
    hide Inv, Run;
    actions, k := FirstThreadRuns();
    actions, k := RunOne(Boot(3, 1, 2), actions, k, Schedule(0));
    actions, k := RunOne(Boot(3, 1, 2), actions, k, Schedule(1));
    actions, k := RunOne(Boot(3, 1, 2), actions, k, Publish(1));
  }

  // ----- every running thread has a CPU -----

  ghost predicate HasOwner(k: Kernel, t: Tid)
    requires Shape(k)
  {
    exists c :: 0 <= c < |k.pc| && Owned(k, c) == t
  }

  ghost predicate Housed(k: Kernel)
    requires Shape(k)
  {
    forall t :: 0 < t < |k.state| && (k.state[t] == Running || k.state[t] == Dying) ==> HasOwner(k, t)
  }

  lemma HousedKept(k: Kernel, a: Action)
    requires Inv(k) && Housed(k) && Enabled(k, a)
    ensures Shape(Next(k, a)) && Housed(Next(k, a))
  {
    hide ReadyExact, ChainOk, WakerOk, OwnersApart, OwnerOk, MarkedOk, Next;
    ShapeKept(k, a);
    var k' := Next(k, a);
    forall t | 0 < t < |k.state| && (k'.state[t] == Running || k'.state[t] == Dying) ensures HasOwner(k', t) {
      StillHoused(k, a, t);
    }
  }

  lemma StillHoused(k: Kernel, a: Action, t: Tid)
    requires Inv(k) && Housed(k) && Enabled(k, a)
    requires Shape(Next(k, a)) && |Next(k, a).state| == |k.state| && |Next(k, a).pc| == |k.pc|
    requires 0 < t < |k.state| && (Next(k, a).state[t] == Running || Next(k, a).state[t] == Dying)
    ensures HasOwner(Next(k, a), t)
  {
    hide Hash, ReadyExact, ChainOk, WakerOk, OwnersApart, DoUnlink, MarkedOk, DoSchedule, DoLink, DoFinishWake, Enabled;
    if a.Schedule? {
      StillHousedBySchedule(k, a.cpu, t);
    } else {
      NeverStarts(k, a, t);
      var c :| 0 <= c < |k.pc| && Owned(k, c) == t;
      assert Owned(Next(k, a), c) == t by { ApartKept(k, a); SameOwners(k, a, c); }
    }
  }

  /** Only the scheduler starts threads. */
  lemma NeverStarts(k: Kernel, a: Action, t: Tid)
    requires Inv(k) && Enabled(k, a) && !a.Schedule? && 0 < t < |k.state|
    requires |Next(k, a).state| == |k.state|
    requires Next(k, a).state[t] == Running || Next(k, a).state[t] == Dying
    ensures k.state[t] == Running || k.state[t] == Dying
  {
    hide Hash, ReadyExact, ChainOk, WakerOk, OwnersApart, MarkedOk;
    if a.Finish? { assert OwnerOk(k, a.cpu); }
  }

  lemma SameOwners(k: Kernel, a: Action, c: Cpu)
    requires Inv(k) && Enabled(k, a) && !a.Schedule? && c < |k.pc|
    ensures Shape(Next(k, a)) && |Next(k, a).pc| == |k.pc| && Owned(Next(k, a), c) == Owned(k, c)
  {
    hide Hash, ReadyExact, ChainOk, WakerOk, OwnersApart, MarkedOk, OwnerOk;
    ShapeKept(k, a);
  }

  lemma StillHousedBySchedule(k: Kernel, c: Cpu, t: Tid)
    requires Inv(k) && Housed(k) && Enabled(k, Schedule(c))
    requires Shape(DoSchedule(k, c)) && |DoSchedule(k, c).state| == |k.state| && |DoSchedule(k, c).pc| == |k.pc|
    requires 0 < t < |k.state| && (DoSchedule(k, c).state[t] == Running || DoSchedule(k, c).state[t] == Dying)
    ensures HasOwner(DoSchedule(k, c), t)
  {
    hide ReadyExact, ChainOk, WakerOk, OwnersApart, MarkedOk;
    var k' := DoSchedule(k, c);
    assert OwnerOk(k, c);
    if k'.pc[c].to == t {
      assert Owned(k', c) == t;
    } else {
      assert HasOwner(k, t);
      var d :| 0 <= d < |k.pc| && Owned(k, d) == t;
      assert Owned(k', d) == t;
    }
  }

  /** In every run a running thread other than the idle one belongs to a CPU. */
  lemma {:induction false} RunHouses(k: Kernel, actions: seq<Action>, k': Kernel)
    requires Inv(k) && Housed(k) && Run(k, actions, k')
    ensures Inv(k') && Housed(k')
    decreases |actions|
  {
    hide Inv, Next, Housed;
    if actions != [] {
      ActionKeeps(k, actions[0]);
      HousedKept(k, actions[0]);
      RunHouses(Next(k, actions[0]), actions[1..], k');
    }
  }

  lemma BootHoused(threads: nat, chains: nat, cpus: nat)
    requires threads > 0 && chains > 0
    ensures Housed(Boot(threads, chains, cpus))
  {
  }

  /** So since boot a running thread other than the idle one belongs to exactly one CPU. */
  lemma OneOwner(threads: nat, chains: nat, cpus: nat, actions: seq<Action>, k: Kernel, t: Tid) returns (c: Cpu)
    requires threads > 0 && chains > 0 && Run(Boot(threads, chains, cpus), actions, k)
    requires 0 < t < |k.state| && k.state[t] == Running
    ensures Shape(k) && c < |k.pc| && Owned(k, c) == t
    ensures forall d :: 0 <= d < |k.pc| && Owned(k, d) == t ==> d == c
  {
    hide ReadyExact, ChainOk, MarkedOk, OwnerOk, WakerOk, Run;
    BootInv(threads, chains, cpus);
    BootHoused(threads, chains, cpus);
    RunHouses(Boot(threads, chains, cpus), actions, k);
    assert HasOwner(k, t);
    c :| 0 <= c < |k.pc| && Owned(k, c) == t;
  }

  // ----- who waits, in order -----

  function Filter(sleepsOn: seq<nat>, chain: seq<Tid>, r: nat): (w: seq<Tid>)
    requires forall j :: 0 <= j < |chain| ==> chain[j] < |sleepsOn|
  {
    if chain == [] then []
    else (if sleepsOn[chain[0]] == r then [chain[0]] else []) + Filter(sleepsOn, chain[1..], r)
  }

  /** The threads linked for `r`, longest waiting first. */
  function Waiters(k: Kernel, r: nat): seq<Tid>
    requires Shape(k)
  {
    Filter(k.sleepsOn, k.chains[Hash(|k.chains|, r)], r)
  }

  lemma {:induction false} FilterAppend(sleepsOn: seq<nat>, chain: seq<Tid>, t: Tid, r: nat)
    requires t < |sleepsOn| && forall j :: 0 <= j < |chain| ==> chain[j] < |sleepsOn|
    ensures Filter(sleepsOn, chain + [t], r)
            == Filter(sleepsOn, chain, r) + (if sleepsOn[t] == r then [t] else [])
    decreases chain
  {
    if chain == [] {
      assert chain + [t] == [t];
    } else {
      var longer := chain + [t];
      assert longer[0] == chain[0] && longer[1..] == chain[1..] + [t];
      FilterAppend(sleepsOn, chain[1..], t, r);
      assert Filter(sleepsOn, longer, r)
          == (if sleepsOn[chain[0]] == r then [chain[0]] else []) + Filter(sleepsOn, chain[1..] + [t], r);
    }
  }

  lemma {:induction false} FilterMembers(sleepsOn: seq<nat>, chain: seq<Tid>, r: nat, t: Tid)
    requires forall j :: 0 <= j < |chain| ==> chain[j] < |sleepsOn|
    ensures t in Filter(sleepsOn, chain, r) <==> t in chain && sleepsOn[t] == r
    decreases chain
  {
    if chain != [] {
      assert chain == [chain[0]] + chain[1..];
      FilterMembers(sleepsOn, chain[1..], r, t);
    }
  }

  lemma {:induction false} FilterFrame(s: seq<nat>, s': seq<nat>, chain: seq<Tid>, r: nat)
    requires |s| == |s'| && forall j :: 0 <= j < |chain| ==> chain[j] < |s| && s'[chain[j]] == s[chain[j]]
    ensures Filter(s', chain, r) == Filter(s, chain, r)
    decreases chain
  {
    if chain != [] { FilterFrame(s, s', chain[1..], r); }
  }

  lemma FilterCons(sleepsOn: seq<nat>, t: Tid, rest: seq<Tid>, q: nat)
    requires t < |sleepsOn| && forall j :: 0 <= j < |rest| ==> rest[j] < |sleepsOn|
    ensures forall j :: 0 <= j < |[t] + rest| ==> ([t] + rest)[j] < |sleepsOn|
    ensures var w := Filter(sleepsOn, rest, q); Filter(sleepsOn, [t] + rest, q) == if sleepsOn[t] == q then [t] + w else w
  {
    assert ([t] + rest)[1..] == rest;
  }

  lemma WithoutTail(chain: seq<Tid>, i: nat)
    requires i < |chain|
    ensures Without(chain, i) == if i == 0 then chain[1..] else [chain[0]] + Without(chain[1..], i - 1)
    ensures forall j :: 0 <= j < |Without(chain, i)| ==> Without(chain, i)[j] in chain
  {
  }

  /** Taking out the first waiter of `r` takes the head off the waiters of `r` and no other resource's waiters. */
  lemma {:induction false} FilterWithoutFirst(sleepsOn: seq<nat>, chain: seq<Tid>, r: nat, q: nat)
    requires forall j :: 0 <= j < |chain| ==> chain[j] < |sleepsOn|
    ensures var i := FirstWaiter(sleepsOn, chain, r); var w := Filter(sleepsOn, chain, q);
            if i == |chain| then q == r ==> w == []
            else
              && (q == r ==> w != [] && w[0] == chain[i])
              && Filter(sleepsOn, Without(chain, i), q) == if q == r then w[1..] else w
    decreases chain
  {
    hide Without, Filter, FirstWaiter;
    if chain == [] {
      FilterNone(sleepsOn, q);
    } else {
      var rest := chain[1..];
      FilterStep(sleepsOn, chain, q);
      FirstWaiterStep(sleepsOn, chain, r);
      if sleepsOn[chain[0]] == r {
        WithoutTail(chain, 0);
      } else {
        FilterWithoutFirst(sleepsOn, rest, r, q);
        var i := FirstWaiter(sleepsOn, rest, r);
        if i < |rest| {
          WithoutTail(chain, i + 1);
          WithoutTail(rest, i);
          FilterCons(sleepsOn, chain[0], Without(rest, i), q);
        }
      }
    }
  }

  lemma FilterNone(sleepsOn: seq<nat>, q: nat)
    ensures Filter(sleepsOn, [], q) == []
  {
  }

  lemma FilterStep(sleepsOn: seq<nat>, chain: seq<Tid>, q: nat)
    requires chain != [] && forall j :: 0 <= j < |chain| ==> chain[j] < |sleepsOn|
    ensures var w := Filter(sleepsOn, chain[1..], q);
            Filter(sleepsOn, chain, q) == if sleepsOn[chain[0]] == q then [chain[0]] + w else w
  {
  }

  lemma FirstWaiterStep(sleepsOn: seq<nat>, chain: seq<Tid>, r: nat)
    requires chain != [] && forall j :: 0 <= j < |chain| ==> chain[j] < |sleepsOn|
    ensures FirstWaiter(sleepsOn, chain, r)
         == if sleepsOn[chain[0]] == r then 0 else FirstWaiter(sleepsOn, chain[1..], r) + 1
  {
  }

  /** What one action does to the waiters of a resource: linking appends, a wake takes the first, nothing else counts. */
  ghost function WaitersAfter(k: Kernel, a: Action, r: nat): seq<Tid>
    requires Shape(k) && Enabled(k, a)
  {
    var w := Waiters(k, r);
    if a.Link? && k.sleepsOn[k.current[a.cpu]] == r then w + [k.current[a.cpu]]
    else if a.Unlink? && a.resource == r && w != [] then w[1..]
    else w
  }

  lemma WaitersStep(k: Kernel, a: Action, r: nat)
    requires Inv(k) && Enabled(k, a) && r != 0
    ensures Shape(Next(k, a)) && Waiters(Next(k, a), r) == WaitersAfter(k, a, r)
  {
    hide Hash, ReadyExact, OwnersApart, Distinct, Without, FirstWaiter, Filter, Dispatch, Retire;
    ShapeKept(k, a);
    var g := Hash(|k.chains|, r);
    assert ChainOk(k, g);
    if a.Link? {
      FilterAppend(k.sleepsOn, k.chains[g], k.current[a.cpu], r);
    } else if a.Unlink? {
      FilterWithoutFirst(k.sleepsOn, k.chains[g], a.resource, r);
    } else if a.Prepare? {
      assert OwnerOk(k, a.cpu);
      FilterFrame(k.sleepsOn, Next(k, a).sleepsOn, k.chains[g], r);
    } else if a.FinishWake? {
      assert WakerOk(k, a.cpu);
      FilterFrame(k.sleepsOn, Next(k, a).sleepsOn, k.chains[g], r);
    } else if a.Init? {
      assert MarkedOk(k, a.tid);
      FilterFrame(k.sleepsOn, Next(k, a).sleepsOn, k.chains[g], r);
    } else if a.Schedule? {
      ScheduleFrame(k, a.cpu);
    }
  }

  lemma ScheduleFrame(k: Kernel, c: Cpu)
    requires Shape(k) && Enabled(k, Schedule(c))
    ensures DoSchedule(k, c).sleepsOn == k.sleepsOn && DoSchedule(k, c).chains == k.chains
  {
  }

  /** A wake reaches a thread exactly when one waits, it is the longest waiting one,
      and afterwards that thread is unmarked and either ready or still running. */
  lemma WakeDelivers(k: Kernel, c: Cpu, r: nat, all: bool)
    requires Inv(k) && Enabled(k, Unlink(c, r, all))
    ensures var k1 := DoUnlink(k, c, r, all);
            if Waiters(k, r) == [] then k1 == k.(pc := k.pc[c := Home(k.pc[c])], holder := -1)
            else
              && Shape(k1) && Enabled(k1, FinishWake(c)) && k1.pc[c] == Waking(Waiters(k, r)[0], r, all, Home(k.pc[c]))
              && Delivered(k, DoFinishWake(k1, c), c, Waiters(k, r)[0],
                           if all then Searching(r, Home(k.pc[c])) else Home(k.pc[c]))
  {
    hide Hash, ReadyExact, OwnersApart, Distinct, Without, FirstWaiter, Filter;
    var g := Hash(|k.chains|, r);
    UnlinkIs(k, Unlink(c, r, all));
    ShapeKept(k, Unlink(c, r, all));
    FilterWithoutFirst(k.sleepsOn, k.chains[g], r, r);
    assert ChainOk(k, g) && OwnerOk(k, c) && WakerOk(k, c);
    if Waiters(k, r) != [] {
      FilterMembers(k.sleepsOn, k.chains[g], r, Waiters(k, r)[0]);
      assert MarkedOk(k, Waiters(k, r)[0]);
    }
  }

  /** A delivered wake takes the head off the waiters of its resource and leaves all other waiters alone. */
  lemma WakeWaiters(k: Kernel, c: Cpu, r: nat, all: bool, q: nat)
    requires Inv(k) && Enabled(k, Unlink(c, r, all)) && Waiters(k, r) != [] && q != 0
    ensures var k1 := DoUnlink(k, c, r, all);
            && Inv(k1) && Enabled(k1, FinishWake(c)) && Inv(DoFinishWake(k1, c))
            && Waiters(DoFinishWake(k1, c), q) == if q == r then Waiters(k, q)[1..] else Waiters(k, q)
  {
    hide Waiters, DoUnlink, DoFinishWake, ReadyExact, ChainOk, OwnersApart, WakerOk, OwnerOk, MarkedOk;
    var k1 := DoUnlink(k, c, r, all);
    WakeDelivers(k, c, r, all);
    UnlinkIs(k, Unlink(c, r, all));
    FinishWakeIs(k1, FinishWake(c));
    ActionKeeps(k, Unlink(c, r, all));
    ActionKeeps(k1, FinishWake(c));
    WaitersStep(k, Unlink(c, r, all), q);
    WaitersStep(k1, FinishWake(c), q);
  }

  /** A handler on the CPU that is about to switch away from the longest waiting thread may wake just that thread:
      the scheduler then finds it unmarked and keeps it ready or runs it again. */
  lemma WakeBeforeSwitch(k: Kernel, c: Cpu, r: nat)
    requires Inv(k) && Enabled(k, Unlink(c, r, false)) && k.pc[c].Added?
    requires Waiters(k, r) != [] && Waiters(k, r)[0] == k.current[c]
    ensures var t := k.current[c]; var k1 := DoUnlink(k, c, r, false);
            && Inv(k1) && Enabled(k1, FinishWake(c))
            && var k2 := DoFinishWake(k1, c);
               && Inv(k2) && Enabled(k2, Schedule(c))
               && var k3 := DoSchedule(k2, c);
                  && Inv(k3) && k3.sleepsOn[t] == 0
                  && if k3.pc[c] == Switching(t) then k3.state[t] == Running else k3.state[t] == Ready && t in k3.ready
  {
    hide Waiters, DoUnlink, DoFinishWake, ReadyExact, ChainOk, OwnersApart, WakerOk, MarkedOk;
    var t, k1 := k.current[c], DoUnlink(k, c, r, false);
    WakeDelivers(k, c, r, false);
    WakeWaiters(k, c, r, false, r);
    var k2 := DoFinishWake(k1, c);
    assert OwnerOk(k, c);
    assert k2.pc[c] == Added;
    ActionKeeps(k2, Schedule(c));
    ScheduleFrame(k2, c);
    assert t in Retire(k2, t).ready;
  }

  /** A thread that waits does not run its own code on any CPU. */
  lemma WaitersElsewhere(k: Kernel, r: nat, t: Tid, c: Cpu)
    requires Inv(k) && r != 0 && t in Waiters(k, r) && c < |k.pc| && k.pc[c].InThread?
    ensures k.current[c] != t && t < |k.sleepsOn| && k.sleepsOn[t] == r
  {
    hide Hash, ReadyExact, MarkedOk, WakerOk, OwnersApart, Distinct, Filter;
    assert OwnerOk(k, c);
    FilterMembers(k.sleepsOn, k.chains[Hash(|k.chains|, r)], r, t);
    assert ChainOk(k, Hash(|k.chains|, r));
  }

  /** Thread `t` has been woken, and nothing happened to any other thread. */
  ghost predicate Delivered(k: Kernel, k': Kernel, c: Cpu, t: Tid, p: Pc)
    requires Shape(k) && c < |k.pc|
  {
    && t < |k.state| && k.sleepsOn[t] != 0
    && k'.sleepsOn == k.sleepsOn[t := 0]
    && k'.pc == k.pc[c := p] && k'.current == k.current
    && k'.holder == (if p.Searching? then c else -1)
    && if k.state[t] == Sleeping then k'.state == k.state[t := Ready] && k'.ready == k.ready + [t]
       else k.state[t] == Running && k'.state == k.state && k'.ready == k.ready
  }

  // ----- waking all -----

  function Sleepers(state: seq<ThreadState>, s: seq<Tid>): seq<Tid>
    requires InState(state, s)
  {
    if s == [] then []
    else
      var t := s[|s| - 1];
      Sleepers(state, s[..|s| - 1]) + (if state[t] == Sleeping then [t] else [])
  }

  predicate InState(state: seq<ThreadState>, s: seq<Tid>) {
    forall i :: 0 <= i < |s| ==> s[i] < |state|
  }

  /** The threads of `done`, and only they, have been woken, in that order. */
  ghost predicate Woken(k0: Kernel, k: Kernel, done: seq<Tid>) {
    && InState(k0.state, done) && |k0.sleepsOn| == |k0.state|
    && |k.state| == |k.sleepsOn| == |k0.state|
    && k.current == k0.current
    && (forall t :: 0 <= t < |k0.state| ==> k.sleepsOn[t] == if t in done then 0 else k0.sleepsOn[t])
    && (forall t :: 0 <= t < |k0.state| ==>
          k.state[t] == if t in done && k0.state[t] == Sleeping then Ready else k0.state[t])
    && k.ready == k0.ready + Sleepers(k0.state, done)
  }

  lemma WokenNext(k0: Kernel, k: Kernel, done: seq<Tid>, k': Kernel, c: Cpu, t: Tid, p: Pc)
    requires Woken(k0, k, done) && Shape(k) && c < |k.pc| && Delivered(k, k', c, t, p)
    ensures Woken(k0, k', done + [t])
  {
    assert (done + [t])[..|done|] == done;
  }
}
