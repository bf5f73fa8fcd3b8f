/** What single actions do to a thread's row and to the ready list, and what follows for whole runs. */
module ThreadSteps {
  import opened Threads

  // ----- the scheduler -----

  /** scheduler_schedule: a finished thread's row becomes free, a marked thread sleeps, any other one queues up behind the
      ready threads, and the head of the queue runs next. */
  lemma ScheduleOutcome(k: Kernel, c: Cpu)
    requires Inv(k) && Enabled(k, Schedule(c))
    ensures var me, k' := k.current[c], Next(k, Schedule(c));
            && Shape(k') && |k'.state| == |k.state| && |k'.pc| == |k.pc| && k'.pc[c].Switching?
            && var to := k'.pc[c].to;
               && (k.ready != [] ==> to == k.ready[0] && k.state[to] == Ready)
               && (k.state[me] == Dying ==> k'.state[me] == Free && me !in k'.ready && Enabled(k', Claim(me)))
               && (k.sleepsOn[me] != 0 ==> k'.state[me] == Sleeping && me !in k'.ready)
               && (if me == IDLE || k.state[me] == Dying || k.sleepsOn[me] != 0 then
                     (k.ready == [] ==> to == IDLE) && k'.ready == (if k.ready == [] then [] else k.ready[1..])
                   else if k.ready == [] then to == me && k'.ready == []
                   else k'.state[me] == Ready && k'.ready == k.ready[1..] + [me])
               && k'.state[to] == Running && (me == IDLE != to ==> k'.state[me] == Ready)
               && (forall t :: 0 <= t < |k.state| && t != me && t != to ==> k'.state[t] == k.state[t])
               && k'.pc == k.pc[c := Switching(to)]
               && k'.sleepsOn == k.sleepsOn && k'.chains == k.chains && k'.current == k.current && k'.holder == k.holder
  {
    hide ChainOk, OwnersApart, Hash;
    var me := k.current[c];
    assert OwnerOk(k, c) && MarkedOk(k, me) && WakerOk(k, c);
    if k.ready != [] { assert k.ready[0] in k.ready; }
  }

  // ----- the life cycle of a thread -----

  /** The only ways a thread's state changes: claimed, made ready, finished, woken, switched away from, and dispatched. */
  lemma StateStep(k: Kernel, a: Action, t: Tid)
    requires Inv(k) && Enabled(k, a) && 0 < t < |k.state|
    ensures t < |Next(k, a).state|
    ensures var s, s' := k.state[t], Next(k, a).state[t];
            if a == Claim(t) then s == Free && s' == NonReady
            else if a == AddReady(t) then s == NonReady && s' == Ready
            else if a.Finish? && k.current[a.cpu] == t then s == Running && s' == Dying
            else if a.FinishWake? && k.pc[a.cpu].thread == t then
              (s == Sleeping && s' == Ready) || (s == Running && s' == Running)
            else if a.Schedule? && k.current[a.cpu] == t then
              || (s == Dying && s' == Free)
              || (s == Running && s' == if k.sleepsOn[t] != 0 then Sleeping else if k.ready == [] then Running else Ready)
            else if a.Schedule? && k.ready != [] && k.ready[0] == t then s == Ready && s' == Running
            else s' == s
  {
    hide ChainOk, OwnersApart, Hash, Distinct, Dispatch, Retire, DoSchedule, DoUnlink;
    if a.Schedule? {
      ScheduleIs(k, a);
      ScheduleOutcome(k, a.cpu);
      assert OwnerOk(k, a.cpu);
    } else if a.Unlink? {
      UnlinkShape(k, a.cpu, a.resource, a.all);
    } else if a.Finish? {
      assert OwnerOk(k, a.cpu);
    } else if a.FinishWake? {
      assert WakerOk(k, a.cpu) && MarkedOk(k, k.pc[a.cpu].thread);
    }
  }

  lemma ScheduleIs(k: Kernel, a: Action)
    requires Shape(k) && Enabled(k, a) && a.Schedule?
    ensures a == Schedule(a.cpu)
  {
  }

  // ----- from thread_finish to the next thread_create -----

  lemma StillFinished(k: Kernel, a: Action, c: Cpu)
    requires Inv(k) && Enabled(k, a) && c < |k.pc| && Home(k.pc[c]).Finished? && a != Schedule(c)
    ensures c < |Next(k, a).pc| == |Next(k, a).current|
    ensures Home(Next(k, a).pc[c]).Finished? && Next(k, a).current[c] == k.current[c]
  {
    hide ReadyExact, ChainOk, MarkedOk, OwnerOk, WakerOk, OwnersApart, Hash, Distinct, DoSchedule;
    if a.Schedule? {
      ScheduleIs(k, a);
      ScheduleOutcome(k, a.cpu);
    }
  }

  lemma {:induction false} RunStillFinished(k: Kernel, actions: seq<Action>, k': Kernel, c: Cpu)
    requires Inv(k) && Run(k, actions, k') && c < |k.pc| && Home(k.pc[c]).Finished? && Schedule(c) !in actions
    ensures Inv(k') && c < |k'.pc| && Home(k'.pc[c]).Finished? && k'.current[c] == k.current[c]
    decreases |actions|
  {
    hide Inv, Next;
    if actions != [] {
      StillFinished(k, actions[0], c);
      ActionKeeps(k, actions[0]);
      RunStillFinished(Next(k, actions[0]), actions[1..], k', c);
    }
  }

  /** A thread that has called thread_finish is dying until its CPU comes to the scheduler, whatever other CPUs and
      interrupts do; that frees its row, and thread_create can claim it. */
  lemma FinishFreesRow(k: Kernel, c: Cpu, actions: seq<Action>, k': Kernel)
    requires Inv(k) && Enabled(k, Finish(c)) && Run(Next(k, Finish(c)), actions, k') && Schedule(c) !in actions
    ensures Inv(k') && c < |k'.pc| && k'.current[c] == k.current[c] && k'.state[k.current[c]] == Dying
    ensures Enabled(k', Schedule(c)) ==> Enabled(Next(k', Schedule(c)), Claim(k.current[c]))
  {
    hide ReadyExact, ChainOk, MarkedOk, WakerOk, OwnersApart, Hash, Distinct, DoSchedule, Run;
    ActionKeeps(k, Finish(c));
    RunStillFinished(Next(k, Finish(c)), actions, k', c);
    assert OwnerOk(k', c) && OwnerOk(k, c);
    if Enabled(k', Schedule(c)) { ScheduleOutcome(k', c); }
  }

  // ----- the ready list is a queue -----

  /** A ready thread keeps its place but for moving up one at each scheduling, and at the head it is the one that runs. */
  lemma ReadyStep(k: Kernel, a: Action, i: nat)
    requires Inv(k) && Enabled(k, a) && i < |k.ready|
    ensures if !a.Schedule? then InPlace(Next(k, a).ready, i, k.ready[i])
            else if i > 0 then InPlace(Next(k, a).ready, i - 1, k.ready[i])
            else a.cpu < |Next(k, a).pc| && Next(k, a).pc[a.cpu] == Switching(k.ready[0])
  {
    hide ReadyExact, ChainOk, MarkedOk, OwnerOk, WakerOk, OwnersApart, Hash, Distinct, DoSchedule, DoUnlink;
    if a.Schedule? {
      ScheduleIs(k, a);
      ScheduleOutcome(k, a.cpu);
    } else if a.Unlink? {
      UnlinkReady(k, a);
    }
  }

  predicate InPlace(ready: seq<Tid>, i: nat, t: Tid) {
    i < |ready| && ready[i] == t
  }

  lemma UnlinkReady(k: Kernel, a: Action)
    requires Shape(k) && Enabled(k, a) && a.Unlink?
    ensures Next(k, a).ready == k.ready
  {
    hide Hash, FirstWaiter;
  }

  /** How often the scheduler has picked a thread. */
  function Schedules(actions: seq<Action>): nat {
    if actions == [] then 0 else (if actions[0].Schedule? then 1 else 0) + Schedules(actions[1..])
  }

  lemma {:induction false} MovesUp(k: Kernel, actions: seq<Action>, k': Kernel, i: nat)
    requires Inv(k) && Run(k, actions, k') && Schedules(actions) <= i < |k.ready|
    ensures Inv(k') && InPlace(k'.ready, i - Schedules(actions), k.ready[i])
    decreases |actions|
  {
    hide Inv, Next;
    if actions != [] {
      ReadyStep(k, actions[0], i);
      ActionKeeps(k, actions[0]);
      MovesUp(Next(k, actions[0]), actions[1..], k', if actions[0].Schedule? then i - 1 else i);
    }
  }

  /** Bounded waiting: in every run the thread with `i` others before it on the ready list is what the scheduler picks the
      next time after it has picked `i` threads, on whichever CPU. */
  lemma RunsInTurn(k: Kernel, actions: seq<Action>, k': Kernel, i: nat, c: Cpu)
    requires Inv(k) && Run(k, actions, k') && Schedules(actions) == i < |k.ready|
    requires Shape(k') && Enabled(k', Schedule(c))
    ensures c < |Next(k', Schedule(c)).pc| && Next(k', Schedule(c)).pc[c] == Switching(k.ready[i])
  {
    hide Inv, Next, Run, Schedules;
    MovesUp(k, actions, k', i);
    ReadyStep(k', Schedule(c), 0);
  }

  // ----- nobody is stuck -----

  /** Every CPU can take its next step, but for one that waits in sleepq_add for the sleep queue lock; and then the holder
      is another CPU, which can take its own. */
  lemma CpuGoesOn(k: Kernel, c: Cpu)
    requires Inv(k) && c < |k.pc|
    ensures match k.pc[c] {
              case Adding => if k.holder == -1 then Enabled(k, Link(c)) else k.holder != c && Holds(k.pc[k.holder])
              case Searching(r, _) => Enabled(k, Unlink(c, r, true))
              case Waking(_, _, _, _) => Enabled(k, FinishWake(c))
              case Switching(_) => Enabled(k, Publish(c))
              case _ => Enabled(k, Schedule(c)) && (k.holder == -1 ==> forall r, all :: r != 0 ==> Enabled(k, Unlink(c, r, all)))
            }
    ensures k.pc[c].InThread? && k.current[c] != IDLE ==>
              Enabled(k, Finish(c)) && forall r :: r != 0 ==> Enabled(k, Prepare(c, r))
    ensures forall t :: 0 < t < |k.state| && k.state[t] == NonReady ==> Enabled(k, Init(t)) && Enabled(k, AddReady(t))
  {
    hide ReadyExact, ChainOk, MarkedOk, OwnerOk, OwnersApart, Hash;
    assert WakerOk(k, c);
    if k.holder != -1 { assert WakerOk(k, k.holder); }
  }
}
