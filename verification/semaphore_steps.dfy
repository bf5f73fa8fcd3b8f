/** What single steps do to a semaphore, and what follows for the number of calls in a run. */
module SemaphoreSteps {
  import opened Threads
  import opened Semaphores

  /** The step is the start of a semaphore_P on `s`. */
  predicate IsP(st: Step, s: nat) { st.PEnter? && st.s == s }

  predicate IsV(st: Step, s: nat) { st.VEnter? && st.s == s }

  /** A semaphore_P on `s` returns: at once when the value was above zero, else when its thread runs again. */
  predicate Returns(y: System, st: Step, s: nat)
    requires s < |y.sems|
  {
    (IsP(st, s) && y.sems[s].value > 0) || (st.PReturn? && st.s == s)
  }

  /** P lowers the value by one, V raises it by one, and nothing else changes it; the record follows the calls. */
  lemma SemaphoreStep(y: System, st: Step, s: nat)
    requires SystemInv(y) && CanStep(y, st) && s < |y.sems|
    ensures |Take(y, st).sems| == |y.sems| && Take(y, st).sems[s].address == y.sems[s].address
    ensures var m, n := y.sems[s], Take(y, st).sems[s];
            && n.value == m.value + (if IsV(st, s) then 1 else if IsP(st, s) then -1 else 0)
            && n.initial == m.initial
            && n.downs == m.downs + (if IsP(st, s) then 1 else 0)
            && n.ups == m.ups + (if IsV(st, s) then 1 else 0)
            && n.returned == m.returned + if Returns(y, st, s) then 1 else 0
    ensures var m, n := y.sems[s], Take(y, st).sems[s];
            if Returns(y, st, s) then
              n.inside == m.inside + multiset{y.k.current[st.cpu]} && n.foreign == m.foreign
            else if IsV(st, s) then
              var t := y.k.current[st.cpu];
              if !st.handler && t in m.inside then n.inside == m.inside - multiset{t} && n.foreign == m.foreign
              else n.inside == m.inside && n.foreign == m.foreign + 1
            else n.inside == m.inside && n.foreign == m.foreign
  {
    hide Waiters, Inv, Balanced, BlockedOk, LockOk, IsAddress, Next;
    if !st.Other? && !st.PEnter? && !st.PReturn? && !st.VEnter? { assert st.cpu < |y.op| && OpOk(y, st.cpu); }
  }

  /** How many calls of semaphore_P, or of semaphore_V, on `s` start in a run. */
  function Ps(steps: seq<Step>, s: nat): nat {
    if steps == [] then 0 else (if IsP(steps[0], s) then 1 else 0) + Ps(steps[1..], s)
  }

  function Vs(steps: seq<Step>, s: nat): nat {
    if steps == [] then 0 else (if IsV(steps[0], s) then 1 else 0) + Vs(steps[1..], s)
  }

  /** In every run, whatever CPUs and interrupts do, the value moves by the V calls less the P calls. */
  lemma {:induction false} ValueIsCount(y: System, steps: seq<Step>, y': System, s: nat)
    requires SystemInv(y) && Semaphores.Run(y, steps, y') && s < |y.sems|
    ensures SystemInv(y') && s < |y'.sems| && y'.sems[s].initial == y.sems[s].initial
    ensures y'.sems[s].value == y.sems[s].value + Vs(steps, s) - Ps(steps, s)
    ensures y'.sems[s].ups == y.sems[s].ups + Vs(steps, s) && y'.sems[s].downs == y.sems[s].downs + Ps(steps, s)
    decreases |steps|
  {
    hide SystemInv, Take, CanStep, Returns;
    if steps != [] {
      SemaphoreStep(y, steps[0], s);
      StepKeeps(y, steps[0]);
      ValueIsCount(Take(y, steps[0]), steps[1..], y', s);
    }
  }

  // ----- nobody is stuck -----

  /** A CPU inside an operation can take its next step unless it waits for the sleep queue lock, and a thread that was
      woken returns from semaphore_P as soon as it runs. */
  lemma OpGoesOn(y: System, c: Cpu)
    requires SystemInv(y) && c < |y.op|
    ensures match y.op[c]
            case NoOp =>
              && (forall s :: 0 <= s < |y.sems| && y.k.pc[c].InThread? && y.k.current[c] in y.sems[s].blocked ==>
                    CanStep(y, PReturn(c, s)))
              && (forall s :: 0 <= s < |y.sems| && y.sems[s].lock == -1 && Open(y.k.pc[c]) ==> CanStep(y, VEnter(c, s, true)))
              && (forall s :: 0 <= s < |y.sems| && y.sems[s].lock == -1 && y.k.pc[c].InThread? ==>
                    CanStep(y, VEnter(c, s, false))
                    && (y.k.current[c] != IDLE && (forall r :: 0 <= r < |y.sems| ==> y.k.current[c] !in y.sems[r].blocked) ==>
                          CanStep(y, PEnter(c, s))))
            case InP(_) =>
              if y.k.pc[c].InThread? then CanStep(y, PMark(c))
              else if y.k.pc[c].Added? then CanStep(y, PLeave(c))
              else y.k.holder == -1 ==> CanStep(y, PLink(c))
            case InV(_, woke) =>
              if y.k.pc[c].Waking? then CanStep(y, VFinish(c))
              else if woke then CanStep(y, VLeave(c))
              else y.k.holder == -1 ==> CanStep(y, VUnlink(c))
  {
    hide Waiters, BlockedOk, LockOk, IsAddress, ReadyExact, ChainOk, MarkedOk, OwnerOk, WakerOk, OwnersApart, Next;
    assert OpOk(y, c);
    if y.op[c] != NoOp { assert Balanced(y, y.op[c].s); }
    if y.op[c].InP? { assert OwnerOk(y.k, c); }
  }
}
