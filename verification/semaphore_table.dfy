/** The semaphore table and the bodies of semaphore_P and semaphore_V, as one CPU runs them with the locks held. */
module SemaphoreTables {
  import opened Threads
  import opened ThreadTables

  const SEMAPHORE_SIZE := 12

  /** The address of a row, which is the resource its waiters sleep on. */
  function Address(base: nat, s: nat): nat { base + SEMAPHORE_SIZE * s }

  /** The number of threads a value below zero stands for. */
  function Short(value: int): nat { if value < 0 then -value else 0 }

  /** A row in use has as many waiters as its value is short of zero; a free row has none. */
  ghost predicate RowOk(k: Kernel, base: nat, s: nat, value: int, creator: int)
    requires Shape(k)
  {
    |Waiters(k, Address(base, s))| == if creator == -1 then 0 else Short(value)
  }

  lemma RowFrame(k: Kernel, k': Kernel, base: nat, s: nat, value: int, creator: int)
    requires Shape(k) && Shape(k') && RowOk(k, base, s, value, creator)
    requires Waiters(k', Address(base, s)) == Waiters(k, Address(base, s))
    ensures RowOk(k', base, s, value, creator)
  {
  }

  lemma KernelShape(k: Kernel)
    requires Inv(k)
    ensures Shape(k)
  {
  }

  /** Marking and linking a thread puts it at the end of the waiters of its resource. */
  lemma AddedWaiter(k: Kernel, c: Cpu, r: nat, q: nat)
    requires Inv(k) && Enabled(k, Prepare(c, r)) && k.holder == -1 && q != 0
    ensures var k1 := Next(k, Prepare(c, r));
            && Inv(k1) && Enabled(k1, Link(c))
            && var k2 := Next(k1, Link(c));
               && Inv(k2) && k2.pc == k.pc[c := Added] && k2.current == k.current && k2.state == k.state
               && k2.ready == k.ready && k2.sleepsOn == k.sleepsOn[k.current[c] := r]
               && Waiters(k2, q) == if q == r then Waiters(k, q) + [k.current[c]] else Waiters(k, q)
  {
    hide ReadyExact, ChainOk, MarkedOk, OwnerOk, WakerOk, OwnersApart, Hash, Waiters;
    var k1 := Next(k, Prepare(c, r));
    ActionKeeps(k, Prepare(c, r));
    ActionKeeps(k1, Link(c));
    WaitersStep(k, Prepare(c, r), q);
    WaitersStep(k1, Link(c), q);
  }

  class SemaphoreTable {
    const table: ThreadTable
    const base: nat
    const value: array<int>
    const creator: array<int>
    var nextSem: nat

    constructor (table: ThreadTable, base: nat, rows: nat)
      requires table.Valid() && Shape(table.K()) && base > 0 && rows > 0
      requires forall r :: r >= base ==> Waiters(table.K(), r) == []
      ensures Valid() && this.table == table && this.base == base && creator.Length == rows
      ensures forall s :: 0 <= s < rows ==> creator[s] == -1
    {
      this.table := table;
      this.base := base;
      value := new int[rows](_ => 0);
      creator := new int[rows](_ => -1);
      nextSem := 0;
    }

    ghost predicate Separate()
      reads this
    {
      && value != creator
      && value != table.next && value != table.hashtable
      && creator != table.next && creator != table.hashtable
    }

    ghost predicate Valid()
      reads this, value, creator, table, table.state, table.sleepsOn, table.next, table.hashtable, table.current
    {
      && Separate() && table.Valid() && Shape(table.K())
      && base > 0 && value.Length == creator.Length && nextSem < value.Length
      && forall s :: 0 <= s < value.Length ==> RowOk(table.K(), base, s, value[s], creator[s])
    }

    /** semaphore_P, with the semaphore's lock held: lowers the value and, below zero, queues the calling thread. */
    method P(c: Cpu, s: nat) returns (blocked: bool)
      requires Valid() && s < value.Length && creator[s] != -1
      requires c < |table.pc| && table.pc[c].InThread? && table.current[c] != IDLE && table.holder == -1
      modifies value, table`pc, table`chains, table.next, table.sleepsOn, table.hashtable
      ensures Valid() && value[..] == old(value[..])[s := old(value[s]) - 1]
      ensures blocked <==> value[s] < 0
      ensures !blocked ==> table.K() == old(table.K())
      ensures blocked ==>
                && table.pc == old(table.pc)[c := Added]
                && Waiters(table.K(), Address(base, s)) == Waiters(old(table.K()), Address(base, s)) + [table.current[c]]
    {
      hide Inv, Encodes, Waiters, Address, RowOk, DoPrepare, DoLink;
      ghost var k := table.K();
      ghost var r := Address(base, s);
      value[s] := value[s] - 1;
      blocked := value[s] < 0;
      AddressNonZero(base, s);
      if blocked {
        AddedWaiter(k, c, r, r);
        forall q | q != 0 { AddedWaiter(k, c, r, q); }
        table.SleepqMark(c, Address(base, s));
        table.SleepqLink(c);
        KernelShape(table.K());
        forall t | 0 <= t < value.Length && t != s ensures RowOk(table.K(), base, t, value[t], creator[t]) {
          AddressNonZero(base, t);
          AddressesDiffer(base, s, t);
          RowFrame(k, table.K(), base, t, value[t], creator[t]);
        }
      }
      RowAt(k, table.K(), base, s, old(value[s]), value[s], creator[s]);
    }

    /** semaphore_V, with the semaphore's lock held: raises the value and wakes the longest waiting thread, if any waits;
        called by the CPU's thread or by an interrupt handler. */
    method V(c: Cpu, s: nat)
      requires Valid() && s < value.Length && creator[s] != -1
      requires c < |table.pc| && Open(table.pc[c]) && table.holder == -1
      modifies value, table`head, table`tail, table`ready, table`chains, table`pc, table`holder
      modifies table.state, table.sleepsOn, table.next, table.hashtable
      ensures Valid() && value[..] == old(value[..])[s := old(value[s]) + 1]
      ensures var k, w := old(table.K()), Waiters(old(table.K()), Address(base, s));
              if old(value[s]) >= 0 then table.K() == k
              else
                && w != [] && Delivered(k, table.K(), c, w[0], k.pc[c])
                && Waiters(table.K(), Address(base, s)) == w[1..]
    {
      hide Inv, Encodes, Waiters, Address, RowOk, Delivered;
      ghost var k := table.K();
      WaitersShort(k, base, s, value[s], creator[s]);
      value[s] := value[s] + 1;
      AddressNonZero(base, s);
      if value[s] <= 0 {
        table.SleepqWake(c, Address(base, s));
        KernelShape(table.K());
        forall t | 0 <= t < value.Length && t != s ensures RowOk(table.K(), base, t, value[t], creator[t]) {
          AddressNonZero(base, t);
          AddressesDiffer(base, s, t);
          RowFrame(k, table.K(), base, t, value[t], creator[t]);
        }
      }
      RowAt(k, table.K(), base, s, old(value[s]), value[s], creator[s]);
    }

    /** semaphore_create: claims the first free row from `nextSem` on, or returns -1 when all are in use. */
    method Create(initial: int, me: Tid) returns (r: int)
      requires Valid() && initial >= 0
      modifies this`nextSem, creator, value
      ensures Valid()
      ensures if r < 0 then
                r == -1 && (forall s :: 0 <= s < creator.Length ==> old(creator[s]) != -1) && creator[..] == old(creator[..])
                && value[..] == old(value[..])
              else
                && r < creator.Length && FirstUnused(old(creator[..]), old(nextSem), r)
                && creator[..] == old(creator[..])[r := me] && value[..] == old(value[..])[r := initial]
                && nextSem == (r + 1) % creator.Length
    {
      hide Inv, Encodes, Waiters, Row;
      ghost var from, n := nextSem, creator.Length;
      var sem := -1;
      var i := 0;
      RowZero(from, n);
      while i < creator.Length
        invariant 0 <= i <= n && nextSem < n && nextSem == Row(from, i, n)
        invariant NoneUnused(creator[..], from, i)
        invariant creator[..] == old(creator[..]) && value[..] == old(value[..])
      {
        sem := nextSem;
        nextSem := (nextSem + 1) % creator.Length;
        RowNext(from, i, n);
        if creator[sem] == -1 {
          creator[sem] := me;
          value[sem] := initial;
          return sem;
        }
        i := i + 1;
      }
      AllUsed(creator[..], from);
      return -1;
    }

    /** semaphore_destroy, which must not be called while threads wait. */
    method Destroy(s: nat)
      requires Valid() && s < creator.Length && Waiters(table.K(), Address(base, s)) == []
      modifies creator
      ensures Valid() && creator[..] == old(creator[..])[s := -1]
    {
      hide Inv, Encodes, Waiters;
      creator[s] := -1;
    }
  }

  // ----- rows in the order semaphore_create visits them -----

  ghost predicate NoneUnused(creator: seq<int>, from: nat, n: nat)
    requires |creator| > 0
  {
    forall i :: 0 <= i < n ==> creator[Row(from, i, |creator|)] != -1
  }

  ghost predicate FirstUnused(creator: seq<int>, from: nat, s: nat)
    requires |creator| > 0
  {
    && s < |creator| && creator[s] == -1
    && exists i :: 0 <= i < |creator| && Row(from, i, |creator|) == s && NoneUnused(creator, from, i)
  }

  lemma RowZero(from: nat, n: nat)
    requires from < n
    ensures Row(from, 0, n) == from
  {
    RowWraps(from, 0, n);
  }

  lemma RowNext(from: nat, i: nat, n: nat)
    requires from < n && i < n
    ensures (Row(from, i, n) + 1) % n == Row(from, i + 1, n)
  {
    RowWraps(from, i, n);
    if i + 1 < n { RowWraps(from, i + 1, n); }
    WrapOnce(from + i + 1, n);
    WrapOnce(Row(from, i, n) + 1, n);
  }

  lemma AllUsed(creator: seq<int>, from: nat)
    requires from < |creator| && NoneUnused(creator, from, |creator|)
    ensures forall s :: 0 <= s < |creator| ==> creator[s] != -1
  {
    hide Row;
    forall s | 0 <= s < |creator| ensures creator[s] != -1 {
      var j := if s >= from then s - from else s - from + |creator|;
      RowWraps(from, j, |creator|);
      assert Row(from, j, |creator|) == s;
    }
  }

  lemma WaitersShort(k: Kernel, base: nat, s: nat, value: int, creator: int)
    requires Shape(k) && RowOk(k, base, s, value, creator) && creator != -1
    ensures |Waiters(k, Address(base, s))| == Short(value)
  {
  }

  lemma AddressNonZero(base: nat, s: nat)
    requires base > 0
    ensures Address(base, s) != 0
  {
  }

  lemma AddressesDiffer(base: nat, s: nat, t: nat)
    requires s != t
    ensures Address(base, s) != Address(base, t)
  {
  }

  /** One more or one fewer waiter goes with the value moving by one below zero. */
  lemma RowAt(k: Kernel, k': Kernel, base: nat, s: nat, before: int, after: int, creator: int)
    requires Shape(k) && Shape(k') && RowOk(k, base, s, before, creator) && creator != -1
    requires |Waiters(k', Address(base, s))| - |Waiters(k, Address(base, s))| == Short(after) - Short(before)
    ensures RowOk(k', base, s, after, creator)
  {
  }
}
