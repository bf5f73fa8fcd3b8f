/** The thread table, the ready list and the sleep queue as the kernel keeps them:
    one `next` field per thread links both kinds of list. */
module ThreadTables {
  import opened Threads
  import opened ThreadSteps

  /** `next` runs through the list in order and ends in -1. */
  ghost predicate Linked(next: seq<int>, s: seq<Tid>) {
    && (forall i :: 0 <= i < |s| ==> s[i] < |next|)
    && (forall i :: 0 <= i < |s| - 1 ==> next[s[i]] == s[i + 1])
    && (s != [] ==> next[s[|s| - 1]] == -1)
  }

  function HeadOf(s: seq<Tid>): int { if s == [] then -1 else s[0] }

  function TailOf(s: seq<Tid>): int { if s == [] then -1 else s[|s| - 1] }

  /** Links of threads outside the list do not matter to it. */
  lemma LinkedFrame(next: seq<int>, after: seq<int>, s: seq<Tid>)
    requires Linked(next, s) && |next| == |after|
    requires forall t :: t in s ==> after[t] == next[t]
    ensures Linked(after, s)
  {
  }

  lemma LinkedAppend(next: seq<int>, s: seq<Tid>, t: Tid)
    requires Linked(next, s) && t < |next| && t !in s && Distinct(s)
    ensures s == [] ==> Linked(next[t := -1], [t])
    ensures s != [] ==> Linked(next[s[|s| - 1] := t][t := -1], s + [t])
  {
  }

  lemma LinkedTail(next: seq<int>, s: seq<Tid>)
    requires Linked(next, s) && s != []
    ensures next[s[0]] == HeadOf(s[1..]) && Linked(next, s[1..])
  {
    if |s| > 1 { assert next[s[0]] == s[1]; }
  }

  lemma LinkedWithout(next: seq<int>, s: seq<Tid>, i: nat)
    requires Linked(next, s) && Distinct(s) && 0 < i < |s|
    ensures Linked(next[s[i - 1] := next[s[i]]], Without(s, i))
  {
    var after := next[s[i - 1] := next[s[i]]];
    var r := Without(s, i);
    forall j | 0 <= j < |r| - 1 ensures after[r[j]] == r[j + 1] {
    }
  }

  /** The links, the ready list's ends and the hash table, as values. */
  datatype Links = Links(next: seq<int>, hashtable: seq<int>, head: int, tail: int)

  ghost predicate ChainLinked(k: Kernel, l: Links, h: nat)
    requires Shape(k) && |l.hashtable| == |k.chains| && h < |k.chains|
  {
    l.hashtable[h] == HeadOf(k.chains[h]) && Linked(l.next, k.chains[h])
  }

  ghost predicate ReadyLinked(l: Links, ready: seq<Tid>) {
    l.head == HeadOf(ready) && l.tail == TailOf(ready) && Linked(l.next, ready)
  }

  /** The links encode the lists of the state, and a thread about to be linked has no successor. */
  ghost predicate Encodes(k: Kernel, l: Links) {
    && Shape(k) && |l.next| == |k.state| && |l.hashtable| == |k.chains|
    && ReadyLinked(l, k.ready)
    && (forall h :: 0 <= h < |k.chains| ==> ChainLinked(k, l, h))
    && (forall c :: 0 <= c < |k.pc| && k.pc[c].Adding? ==> l.next[k.current[c]] == -1)
  }

  /** Which lists a thread can be on. */
  lemma Unlisted(k: Kernel, t: Tid)
    requires Inv(k) && t < |k.state|
    ensures k.state[t] != Ready || t == IDLE ==> t !in k.ready
    ensures k.sleepsOn[t] == 0 ==> forall h :: 0 <= h < |k.chains| ==> t !in k.chains[h]
    ensures forall h :: 0 <= h < |k.chains| && t in k.chains[h] ==>
              h == Hash(|k.chains|, k.sleepsOn[t]) && t !in k.ready && t != IDLE
  {
    hide Hash, OwnerOk, WakerOk, OwnersApart, Distinct;
    assert MarkedOk(k, t);
    forall h | 0 <= h < |k.chains| && t in k.chains[h]
      ensures k.sleepsOn[t] != 0 && h == Hash(|k.chains|, k.sleepsOn[t])
    {
      assert ChainOk(k, h);
    }
  }

  /** Changing links of threads on no list, or not changing links at all. */
  lemma EncodesFrame(k: Kernel, l: Links, k': Kernel, l': Links)
    requires Inv(k) && Encodes(k, l) && Shape(k') && |l'.next| == |l.next| && |k'.state| == |k.state|
    requires k'.ready == k.ready && k'.chains == k.chains
    requires l'.hashtable == l.hashtable && l'.head == l.head && l'.tail == l.tail
    requires forall t :: 0 <= t < |k.state| && l'.next[t] != l.next[t] ==>
               t !in k.ready && forall h :: 0 <= h < |k.chains| ==> t !in k.chains[h]
    requires forall c :: 0 <= c < |k'.pc| && k'.pc[c].Adding? ==> l'.next[k'.current[c]] == -1
    ensures Encodes(k', l')
  {
    hide Inv, Distinct, Hash;
    LinkedFrame(l.next, l'.next, k.ready);
    forall h | 0 <= h < |k.chains| ensures ChainLinked(k', l', h) {
      assert ChainLinked(k, l, h);
      LinkedFrame(l.next, l'.next, k.chains[h]);
    }
  }

  /** Changing one chain, and links of its threads only. */
  lemma EncodesChain(k: Kernel, l: Links, k': Kernel, l': Links, h: nat)
    requires Inv(k) && Encodes(k, l) && Shape(k') && |l'.next| == |l.next| && |k'.state| == |k.state|
    requires k'.ready == k.ready && |k'.chains| == |k.chains| && h < |k.chains| && |l'.hashtable| == |k.chains|
    requires l'.head == l.head && l'.tail == l.tail
    requires forall g :: 0 <= g < |k.chains| && g != h ==>
               k'.chains[g] == k.chains[g] && l'.hashtable[g] == l.hashtable[g]
    requires forall t :: 0 <= t < |k.state| && l'.next[t] != l.next[t] ==> t in k.chains[h]
    requires ChainLinked(k', l', h)
    requires forall c :: 0 <= c < |k'.pc| && k'.pc[c].Adding? ==> l'.next[k'.current[c]] == -1
    ensures Encodes(k', l')
  {
    hide Inv, Distinct, Hash;
    forall t | t in k.chains[h] && t < |k.state| ensures t !in k.ready { Unlisted(k, t); }
    LinkedFrame(l.next, l'.next, k.ready);
    forall g | 0 <= g < |k.chains| && g != h ensures ChainLinked(k', l', g) {
      assert ChainLinked(k, l, g);
      forall t | t in k.chains[h] && t < |k.state| ensures t !in k.chains[g] { Unlisted(k, t); }
      LinkedFrame(l.next, l'.next, k.chains[g]);
    }
  }

  // ----- sleepq_add -----

  lemma HashIs(n: nat, resource: nat)
    requires n > 0
    ensures Hash(n, resource) == resource % n
  {
  }

  lemma PrepareEncodes(k: Kernel, l: Links, c: Cpu, r: nat)
    requires Inv(k) && Encodes(k, l) && Enabled(k, Prepare(c, r))
    ensures Encodes(DoPrepare(k, c, r), l.(next := l.next[k.current[c] := -1]))
  {
    hide ReadyExact, ChainOk, MarkedOk, WakerOk, OwnersApart, Hash, Distinct, Linked;
    assert OwnerOk(k, c);
    Unlisted(k, k.current[c]);
    EncodesFrame(k, l, DoPrepare(k, c, r), l.(next := l.next[k.current[c] := -1]));
  }

  function LinkLinks(l: Links, h: nat, chain: seq<Tid>, me: Tid): Links
    requires h < |l.hashtable| && forall i :: 0 <= i < |chain| ==> chain[i] < |l.next|
  {
    if chain == [] then l.(hashtable := l.hashtable[h := me])
    else l.(next := l.next[chain[|chain| - 1] := me])
  }

  /** Linking a thread without a successor at the end of a chain. */
  lemma LinkList(l: Links, h: nat, chain: seq<Tid>, me: Tid)
    requires h < |l.hashtable| && Distinct(chain) && l.hashtable[h] == HeadOf(chain) && Linked(l.next, chain)
    requires me < |l.next| && me !in chain && l.next[me] == -1
    ensures var l' := LinkLinks(l, h, chain, me);
            && l'.hashtable[h] == HeadOf(chain + [me]) && Linked(l'.next, chain + [me])
            && |l'.next| == |l.next| && |l'.hashtable| == |l.hashtable| && l'.head == l.head && l'.tail == l.tail
            && (forall g :: 0 <= g < |l.hashtable| && g != h ==> l'.hashtable[g] == l.hashtable[g])
            && forall t :: 0 <= t < |l.next| && l'.next[t] != l.next[t] ==> t in chain
  {
    hide Distinct;
    LinkedAppend(l.next, chain, me);
    assert l.next[me := -1] == l.next;
    if chain == [] {
      assert chain + [me] == [me];
    } else {
      assert l.next[chain[|chain| - 1] := me][me := -1] == l.next[chain[|chain| - 1] := me];
    }
  }

  lemma LinkEncodes(k: Kernel, l: Links, c: Cpu)
    requires Inv(k) && Encodes(k, l) && Enabled(k, Link(c))
    ensures var h := Hash(|k.chains|, k.sleepsOn[k.current[c]]);
            Encodes(DoLink(k, c), LinkLinks(l, h, k.chains[h], k.current[c]))
  {
    hide ReadyExact, MarkedOk, WakerOk, OwnerOk, OwnersApart, Hash, Linked, Distinct, LinkLinks;
    var me := k.current[c];
    var h := Hash(|k.chains|, k.sleepsOn[me]);
    var chain := k.chains[h];
    assert ChainOk(k, h) && ChainLinked(k, l, h);
    AddingOffChain(k, c, h);
    LinkList(l, h, chain, me);
    forall d | 0 <= d < |k.pc| && k.pc[d].Adding? ensures k.current[d] !in chain { AddingOffChain(k, d, h); }
    EncodesChain(k, l, DoLink(k, c), LinkLinks(l, h, chain, me), h);
  }

  // ----- sleepq_wake -----

  function UnlinkLinks(l: Links, h: nat, chain: seq<Tid>, i: nat): Links
    requires h < |l.hashtable| && i < |chain| && forall j :: 0 <= j < |chain| ==> chain[j] < |l.next|
  {
    if i == 0 then l.(hashtable := l.hashtable[h := l.next[chain[i]]])
    else l.(next := l.next[chain[i - 1] := l.next[chain[i]]])
  }

  lemma UnlinkList(l: Links, h: nat, chain: seq<Tid>, i: nat)
    requires h < |l.hashtable| && i < |chain| && Distinct(chain)
    requires l.hashtable[h] == HeadOf(chain) && Linked(l.next, chain)
    ensures var l' := UnlinkLinks(l, h, chain, i);
            && l'.hashtable[h] == HeadOf(Without(chain, i)) && Linked(l'.next, Without(chain, i))
            && forall t :: 0 <= t < |l.next| && l'.next[t] != l.next[t] ==> t in chain
  {
    hide Linked, Distinct;
    if i == 0 {
      LinkedTail(l.next, chain);
      assert Without(chain, 0) == chain[1..];
    } else {
      LinkedWithout(l.next, chain, i);
      assert Without(chain, i)[0] == chain[0];
    }
  }

  lemma UnlinkEncodes(k: Kernel, l: Links, c: Cpu, r: nat, all: bool)
    requires Inv(k) && Encodes(k, l) && Enabled(k, Unlink(c, r, all))
    ensures var h := Hash(|k.chains|, r);
            var i := FirstWaiter(k.sleepsOn, k.chains[h], r);
            Encodes(DoUnlink(k, c, r, all), if i == |k.chains[h]| then l else UnlinkLinks(l, h, k.chains[h], i))
  {
    hide ReadyExact, MarkedOk, WakerOk, OwnerOk, OwnersApart, Hash, Linked, Distinct, UnlinkLinks, Without;
    var h := Hash(|k.chains|, r);
    var chain := k.chains[h];
    var i := FirstWaiter(k.sleepsOn, chain, r);
    var k' := DoUnlink(k, c, r, all);
    UnlinkIs(k, Unlink(c, r, all));
    ShapeKept(k, Unlink(c, r, all));
    assert ChainOk(k, h) && ChainLinked(k, l, h);
    assert forall d :: 0 <= d < |k'.pc| && k'.pc[d].Adding? ==> k.pc[d].Adding?;
    forall d | 0 <= d < |k.pc| && k.pc[d].Adding? ensures k.current[d] !in chain { AddingOffChain(k, d, h); }
    if i == |chain| {
      EncodesFrame(k, l, k', l);
    } else {
      UnlinkList(l, h, chain, i);
      UnlinkShape(l, h, chain, i);
      EncodesChain(k, l, k', UnlinkLinks(l, h, chain, i), h);
    }
  }

  lemma UnlinkShape(l: Links, h: nat, chain: seq<Tid>, i: nat)
    requires h < |l.hashtable| && i < |chain| && forall j :: 0 <= j < |chain| ==> chain[j] < |l.next|
    ensures var l' := UnlinkLinks(l, h, chain, i);
            && |l'.next| == |l.next| && |l'.hashtable| == |l.hashtable| && l'.head == l.head && l'.tail == l.tail
            && forall g :: 0 <= g < |l.hashtable| && g != h ==> l'.hashtable[g] == l.hashtable[g]
  {
  }

  lemma AddingOffChain(k: Kernel, d: Cpu, h: nat)
    requires Inv(k) && d < |k.pc| && k.pc[d].Adding? && h < |k.chains|
    ensures k.current[d] !in k.chains[h]
  {
    hide Hash, ReadyExact, MarkedOk, WakerOk, OwnersApart;
    assert OwnerOk(k, d) && ChainOk(k, h);
  }

  // ----- the ready list -----

  /** scheduler_add_to_ready_list */
  function ReadyAdd(l: Links, t: Tid): Links
    requires t < |l.next| && l.tail < |l.next|
  {
    if l.tail < 0 then l.(next := l.next[t := -1], head := t, tail := t)
    else l.(next := l.next[l.tail := t][t := -1], tail := t)
  }

  lemma ReadyAddEncodes(k: Kernel, l: Links, k': Kernel, t: Tid)
    requires Inv(k) && Encodes(k, l) && Shape(k') && |k'.state| == |k.state| && t < |k.state|
    requires k'.ready == k.ready + [t] && k'.chains == k.chains
    requires t !in k.ready && forall h :: 0 <= h < |k.chains| ==> t !in k.chains[h]
    requires forall c :: 0 <= c < |k'.pc| && k'.pc[c].Adding? ==>
               k'.current[c] !in k.ready && (k'.current[c] != t ==> l.next[k'.current[c]] == -1)
    ensures l.tail < |l.next| && Encodes(k', ReadyAdd(l, t))
  {
    hide MarkedOk, OwnerOk, WakerOk, OwnersApart, Hash, Linked, ChainOk;
    var l' := ReadyAdd(l, t);
    LinkedAppend(l.next, k.ready, t);
    if k.ready == [] { assert k.ready + [t] == [t]; }
    forall h | 0 <= h < |k.chains| ensures ChainLinked(k', l', h) {
      assert ChainLinked(k, l, h);
      forall s | s in k.chains[h] && s < |k.state| ensures s !in k.ready { Unlisted(k, s); }
      LinkedFrame(l.next, l'.next, k.chains[h]);
    }
  }

  /** scheduler_remove_first_ready */
  function ReadyDrop(l: Links): Links
    requires 0 <= l.head < |l.next|
  {
    l.(head := l.next[l.head], tail := if l.tail == l.head then -1 else l.tail)
  }

  lemma ReadyDropLinked(l: Links, ready: seq<Tid>)
    requires ReadyLinked(l, ready) && Distinct(ready) && ready != []
    ensures 0 <= l.head < |l.next| && ReadyLinked(ReadyDrop(l), ready[1..])
  {
    LinkedTail(l.next, ready);
  }

  lemma FinishWakeEncodes(k: Kernel, l: Links, c: Cpu)
    requires Inv(k) && Encodes(k, l) && Enabled(k, FinishWake(c))
    ensures var t := k.pc[c].thread; var l1 := l.(next := l.next[t := -1]);
            && l1.tail < |l1.next|
            && Encodes(DoFinishWake(k, c), if k.state[t] == Sleeping then ReadyAdd(l1, t) else l1)
  {
    hide ReadyExact, ChainOk, OwnersApart, Hash, Linked, Distinct;
    var t := k.pc[c].thread;
    var l1 := l.(next := l.next[t := -1]);
    var k' := DoFinishWake(k, c);
    assert WakerOk(k, c) && MarkedOk(k, t);
    WokenUnlisted(k, c);
    FinishWakeIs(k, FinishWake(c));
    ShapeKept(k, FinishWake(c));
    EncodesFrame(k, l, k, l1);
    if k.state[t] == Sleeping {
      forall d | 0 <= d < |k.pc| && k.pc[d].Adding? ensures k.current[d] !in k.ready {
        assert OwnerOk(k, d);
        Unlisted(k, k.current[d]);
      }
      ReadyAddEncodes(k, l1, k', t);
    } else {
      EncodesFrame(k, l1, k', l1);
    }
  }

  lemma WokenUnlisted(k: Kernel, c: Cpu)
    requires Inv(k) && c < |k.pc| && k.pc[c].Waking?
    ensures var t := k.pc[c].thread;
            t !in k.ready && forall h :: 0 <= h < |k.chains| ==> t !in k.chains[h]
  {
    hide ReadyExact, ChainOk, OwnersApart, Hash, Distinct, OwnerOk;
    assert WakerOk(k, c) && MarkedOk(k, k.pc[c].thread);
    Unlisted(k, k.pc[c].thread);
  }

  // ----- scheduling -----

  lemma RetireEncodes(k: Kernel, l: Links, c: Cpu)
    requires Inv(k) && Encodes(k, l) && Enabled(k, Schedule(c))
    ensures var me := k.current[c]; var k' := Retire(k, me);
            && l.tail < |l.next|
            && Encodes(k', if k'.ready == k.ready then l else ReadyAdd(l, me))
  {
    hide ReadyExact, ChainOk, OwnersApart, Hash, Linked, Distinct, MarkedOk, WakerOk;
    var me := k.current[c];
    var k' := Retire(k, me);
    assert OwnerOk(k, c);
    Unlisted(k, me);
    if k'.ready == k.ready {
      EncodesFrame(k, l, k', l);
    } else {
      forall d | 0 <= d < |k.pc| && k.pc[d].Adding? ensures k.current[d] !in k.ready {
        assert OwnerOk(k, d);
        Unlisted(k, k.current[d]);
      }
      ReadyAddEncodes(k, l, k', me);
    }
  }

  lemma DispatchEncodes(k: Kernel, l: Links, c: Cpu)
    requires InvBut(k, c) && Encodes(k, l)
    ensures k.ready != [] ==> 0 <= l.head < |l.next|
    ensures Shape(Dispatch(k, c)) && Encodes(Dispatch(k, c), if k.ready == [] then l else ReadyDrop(l))
  {
    hide ChainOk, Hash, Linked, Distinct, MarkedOk, WakerOk, OwnerOk;
    var k' := Dispatch(k, c);
    if k.ready != [] { ReadyDropLinked(l, k.ready); }
    var l' := if k.ready == [] then l else ReadyDrop(l);
    forall h | 0 <= h < |k.chains| ensures ChainLinked(k', l', h) {
      assert ChainLinked(k, l, h);
    }
  }

  lemma AddReadyEncodes(k: Kernel, l: Links, t: Tid)
    requires Inv(k) && Encodes(k, l) && Enabled(k, AddReady(t))
    ensures l.tail < |l.next| && Encodes(Next(k, AddReady(t)), ReadyAdd(l, t))
  {
    hide ReadyExact, ChainOk, OwnersApart, Hash, Linked, Distinct, WakerOk;
    assert MarkedOk(k, t);
    Unlisted(k, t);
    forall d | 0 <= d < |k.pc| && k.pc[d].Adding? ensures k.current[d] !in k.ready {
      assert OwnerOk(k, d);
      Unlisted(k, k.current[d]);
    }
    ReadyAddEncodes(k, l, Next(k, AddReady(t)), t);
  }

  lemma LocalEncodes(k: Kernel, l: Links, a: Action)
    requires Inv(k) && Encodes(k, l) && Enabled(k, a) && (a.Publish? || a.Claim? || a.Init? || a.Finish?)
    ensures Shape(Next(k, a)) && Encodes(Next(k, a), if a.Init? then l.(next := l.next[a.tid := -1]) else l)
  {
    hide ReadyExact, ChainOk, OwnersApart, Hash, Linked, Distinct, WakerOk, OwnerOk;
    ShapeKept(k, a);
    if a.Init? {
      assert MarkedOk(k, a.tid);
      Unlisted(k, a.tid);
    }
    EncodesFrame(k, l, Next(k, a), if a.Init? then l.(next := l.next[a.tid := -1]) else l);
  }

  // ----- what the C code sees -----

  lemma Sizes(k: Kernel, l: Links)
    requires Inv(k) && Encodes(k, l)
    ensures Shape(k) && |l.next| == |k.state| && |l.hashtable| == |k.chains|
    ensures l.head < |k.state| && l.tail < |k.state|
  {
    hide ReadyExact, ChainOk, OwnersApart, Hash, Distinct, WakerOk, OwnerOk, MarkedOk;
  }

  function Follower(s: seq<Tid>, i: nat): int {
    if i + 1 < |s| then s[i + 1] else -1
  }

  /** A chain as its links show it: positive thread numbers, each followed by the next, the last by -1. */
  lemma ChainSeen(k: Kernel, l: Links, h: nat)
    requires Inv(k) && Encodes(k, l) && h < |k.chains|
    ensures forall i :: 0 <= i < |k.chains[h]| ==> 0 < k.chains[h][i] < |l.next|
    ensures forall i :: 0 <= i < |k.chains[h]| ==> l.next[k.chains[h][i]] == Follower(k.chains[h], i)
    ensures l.hashtable[h] == HeadOf(k.chains[h])
  {
    hide ReadyExact, ChainOk, OwnersApart, Hash, Distinct, WakerOk, OwnerOk, MarkedOk;
    assert ChainLinked(k, l, h);
    forall i | 0 <= i < |k.chains[h]| ensures 0 < k.chains[h][i] { Unlisted(k, k.chains[h][i]); }
  }

  lemma {:induction false} FirstWaiterIs(sleepsOn: seq<nat>, chain: seq<Tid>, r: nat, i: nat)
    requires forall j :: 0 <= j < |chain| ==> chain[j] < |sleepsOn|
    requires i <= |chain| && (i < |chain| ==> sleepsOn[chain[i]] == r)
    requires forall j :: 0 <= j < i ==> sleepsOn[chain[j]] != r
    ensures FirstWaiter(sleepsOn, chain, r) == i
    decreases i
  {
    if i > 0 { FirstWaiterIs(sleepsOn, chain[1..], r, i - 1); }
  }

  lemma ReadyAtSchedule(k: Kernel, l: Links, c: Cpu)
    requires InvBut(k, c) && Encodes(k, l)
    ensures l.head == HeadOf(k.ready) && IDLE !in k.ready && l.head < |l.next| == |k.state|
    ensures Shape(k) && c < |k.pc|
  {
    hide ChainOk, OwnersApart, Hash, Distinct, WakerOk, OwnerOk, MarkedOk;
  }

  /** The loop variables of a walk stand at position `i` of a chain. */
  predicate At(chain: seq<Tid>, i: nat, prev: int, first: int) {
    && i <= |chain|
    && first == (if i < |chain| then chain[i] else -1)
    && prev == if i == 0 then -1 else chain[i - 1]
  }

  predicate NoWaiters(sleepsOn: seq<nat>, chain: seq<Tid>, i: nat, resource: nat) {
    i <= |chain| && forall j :: 0 <= j < i ==> chain[j] < |sleepsOn| && sleepsOn[chain[j]] != resource
  }

  lemma Unchecked(k: Kernel, chain: seq<Tid>, i: nat, resource: nat)
    requires NoWaiters(k.sleepsOn, chain, i, resource)
    ensures i <= |chain| && forall j :: 0 <= j < i ==> chain[j] < |k.sleepsOn| && k.sleepsOn[chain[j]] != resource
  {
  }

  /** Where the walk stands once the thread it found is unlinked. */
  lemma CursorAfter(k: Kernel, h: nat, resource: nat, i: nat, prev: int, first: int)
    requires Inv(k) && h < |k.chains| && At(k.chains[h], i, prev, first)
    requires Shape(k) && i == FirstWaiter(k.sleepsOn, k.chains[h], resource)
    ensures first > 0 <==> i < |k.chains[h]|
    ensures first > 0 ==> i > 0 ==> prev > 0
    ensures first > 0 ==> first == k.chains[h][i] && (i == 0 ==> prev <= 0) && (i > 0 ==> prev == k.chains[h][i - 1])
    ensures NoWaiters(k.sleepsOn, k.chains[h], i, resource)
    ensures first > 0 ==>
              var chain := Without(k.chains[h], i);
              && At(chain, i, prev, Follower(k.chains[h], i)) && NoWaiters(k.sleepsOn, chain, i, resource)
              && |chain| < |k.chains[h]|
  {
    hide ReadyExact, ChainOk, OwnersApart, Hash, Distinct, WakerOk, OwnerOk, MarkedOk, FirstWaiter, Without;
    forall j | 0 <= j < |k.chains[h]| ensures k.chains[h][j] > 0 { Unlisted(k, k.chains[h][j]); }
    if i < |k.chains[h]| { WithoutAt(k.chains[h], i); }
  }

  lemma ChainStart(k: Kernel, l: Links, resource: nat)
    requires Inv(k) && Encodes(k, l)
    ensures |k.chains| == |l.hashtable| > 0
    ensures var h := Hash(|k.chains|, resource);
            At(k.chains[h], 0, -1, l.hashtable[h]) && NoWaiters(k.sleepsOn, k.chains[h], 0, resource)
  {
    hide ReadyExact, ChainOk, OwnersApart, Hash, Distinct, WakerOk, OwnerOk, MarkedOk;
    assert ChainLinked(k, l, Hash(|k.chains|, resource));
  }

  lemma NothingWoken(k: Kernel, c: Cpu)
    requires c < |k.pc| && Open(k.pc[c]) && k.holder == -1
    ensures k.(pc := k.pc[c := Home(k.pc[c])], holder := -1) == k
  {
  }

  lemma DeliveredPc(k: Kernel, k': Kernel, c: Cpu, t: Tid, p: Pc)
    requires Shape(k) && c < |k.pc| && Delivered(k, k', c, t, p)
    ensures k'.pc == k.pc[c := p]
  {
  }

  /** Giving the sleep queue lock back changes no list and no mark. */
  lemma Released(k0: Kernel, k: Kernel, done: seq<Tid>, c: Cpu, r: nat)
    requires Shape(k) && c < |k.pc| && Woken(k0, k, done)
    ensures var k' := k.(pc := k.pc[c := Home(k.pc[c])], holder := -1);
            Shape(k') && Waiters(k', r) == Waiters(k, r) && Woken(k0, k', done)
  {
    hide Filter;
  }

  lemma UnmarkKeeps(sleepsOn: seq<nat>, t: Tid, chain: seq<Tid>, i: nat, resource: nat)
    requires NoWaiters(sleepsOn, chain, i, resource) && resource != 0 && t < |sleepsOn|
    ensures NoWaiters(sleepsOn[t := 0], chain, i, resource)
  {
  }

  lemma FinishWakeMarks(k: Kernel, c: Cpu)
    requires Shape(k) && Enabled(k, FinishWake(c))
    ensures Next(k, FinishWake(c)).sleepsOn == k.sleepsOn[k.pc[c].thread := 0]
    ensures Next(k, FinishWake(c)).chains == k.chains
  {
  }

  lemma WokenNone(k: Kernel)
    requires Shape(k)
    ensures Woken(k, k, [])
  {
  }

  lemma WithoutAt(chain: seq<Tid>, i: nat)
    requires i < |chain|
    ensures |Without(chain, i)| == |chain| - 1 && Without(chain, i)[..i] == chain[..i]
    ensures Follower(chain, i) == if i < |Without(chain, i)| then Without(chain, i)[i] else -1
    ensures forall j :: 0 <= j < i ==> Without(chain, i)[j] == chain[j]
  {
  }

  // ----- rows in the order thread_create visits them -----

  function Row(from: nat, i: nat, n: nat): (t: nat)
    requires n > 0
    ensures t < n
  {
    (i + from) % n
  }

  /** None of the first `n` rows visited can be claimed. */
  ghost predicate NoneFree(state: seq<ThreadState>, from: nat, n: nat)
    requires |state| > 0
  {
    forall i :: 0 <= i < n ==> Row(from, i, |state|) == IDLE || state[Row(from, i, |state|)] != Free
  }

  /** `t` is the first row visited that can be claimed. */
  ghost predicate FirstFree(state: seq<ThreadState>, from: nat, t: Tid)
    requires |state| > 0
  {
    && 0 < t < |state| && state[t] == Free
    && exists i :: 0 <= i < |state| && Row(from, i, |state|) == t && NoneFree(state, from, i)
  }

  /** Every row is visited, whatever the starting point. */
  lemma AllRows(state: seq<ThreadState>, from: nat)
    requires from < |state| && NoneFree(state, from, |state|)
    ensures forall t :: 0 < t < |state| ==> state[t] != Free
  {
    hide Row;
    forall t | 0 < t < |state| ensures state[t] != Free {
      var j := if t >= from then t - from else t - from + |state|;
      RowWraps(from, j, |state|);
      assert Row(from, j, |state|) == t;
    }
  }

  lemma RowWraps(from: nat, i: nat, n: nat)
    requires from < n && i < n
    ensures Row(from, i, n) == if from + i < n then from + i else from + i - n
  {
    WrapOnce(i + from, n);
  }

  lemma WrapOnce(x: nat, n: nat)
    requires n > 0 && x < 2 * n
    ensures x % n == if x < n then x else x - n
  {
    var q, r := x / n, x % n;
    assert x == q * n + r && r < n;
    assert q >= 2 ==> q * n >= 2 * n;
  }

  lemma BootEncodes(threads: nat, buckets: nat, cpus: nat, l: Links)
    requires threads > 0 && buckets > 0
    requires |l.next| == threads && |l.hashtable| == buckets && l.head == -1 && l.tail == -1
    requires forall h :: 0 <= h < buckets ==> l.hashtable[h] == -1
    ensures Encodes(Boot(threads, buckets, cpus), l)
  {
  }

  // ----- the kernel's own tables -----

  class ThreadTable {
    const state: array<ThreadState>
    const sleepsOn: array<nat>
    const next: array<int>
    const hashtable: array<int>
    const current: array<Tid>
    var head: int
    var tail: int
    var nextTid: nat

    ghost var ready: seq<Tid>
    ghost var chains: seq<seq<Tid>>
    ghost var pc: seq<Pc>
    ghost var holder: int

    /** thread_table_init, scheduler_init and sleepq_init. */
    constructor (threads: nat, buckets: nat, cpus: nat)
      requires threads > 0 && buckets > 0
      ensures Valid() && K() == Boot(threads, buckets, cpus)
      ensures fresh(state) && fresh(sleepsOn) && fresh(next) && fresh(hashtable) && fresh(current)
    {
      state := new ThreadState[threads](t => if t == IDLE then Ready else Free);
      sleepsOn := new nat[threads](_ => 0);
      next := new int[threads](_ => -1);
      hashtable := new int[buckets](_ => -1);
      current := new Tid[cpus](_ => IDLE);
      head, tail, nextTid := -1, -1, 0;
      ready, chains, pc, holder := [], seq(buckets, _ => []), seq(cpus, _ => InThread), -1;
      new;
      BootInv(threads, buckets, cpus);
      assert K() == Boot(threads, buckets, cpus);
      BootEncodes(threads, buckets, cpus, L());
    }

    ghost function K(): Kernel
      reads this, state, sleepsOn, current
    {
      Kernel(state[..], sleepsOn[..], ready, chains, current[..], pc, holder)
    }

    ghost function L(): Links
      reads this, next, hashtable
    {
      Links(next[..], hashtable[..], head, tail)
    }

    ghost predicate Valid()
      reads this, state, sleepsOn, next, hashtable, current
    {
      && next != hashtable && sleepsOn != current
      && Inv(K()) && Encodes(K(), L())
      && nextTid < state.Length
    }

    /** scheduler_add_to_ready_list */
    method AddToReadyList(t: Tid)
      requires next != hashtable && t < next.Length && tail < next.Length
      modifies this`head, this`tail, next
      ensures L() == ReadyAdd(old(L()), t)
    {
      if tail < 0 {
        head := t;
        tail := t;
        next[t] := -1;
      } else {
        next[tail] := t;
        next[t] := -1;
        tail := t;
      }
    }

    /** sleepq_add, up to the lock. */
    method SleepqMark(c: Cpu, resource: nat)
      requires Valid() && Enabled(K(), Prepare(c, resource))
      modifies this`pc, next, sleepsOn
      ensures Valid() && K() == Next(old(K()), Prepare(c, resource))
      ensures sleepsOn[..] == old(sleepsOn[..])[current[c] := resource] && pc == old(pc)[c := Adding]
    {
      hide Inv, Encodes;
      Sizes(K(), L());
      PrepareEncodes(K(), L(), c, resource);
      ActionKeeps(K(), Prepare(c, resource));
      var me := current[c];
      next[me] := -1;
      sleepsOn[me] := resource;
      pc := pc[c := Adding];
    }

    /** sleepq_add, under sleepq_slock: walk to the end of the chain and link the thread there. */
    method SleepqLink(c: Cpu)
      requires Valid() && Enabled(K(), Link(c))
      modifies this`pc, this`chains, next, hashtable
      ensures Valid() && K() == Next(old(K()), Link(c))
      ensures var h := sleepsOn[current[c]] % hashtable.Length;
              chains == old(chains)[h := old(chains)[h] + [current[c]]] && pc == old(pc)[c := Added]
    {
      hide Inv, Encodes, Hash;
      ghost var k, l := K(), L();
      Sizes(k, l);
      LinkEncodes(k, l, c);
      ActionKeeps(k, Link(c));
      var me := current[c];
      var h := Hash(hashtable.Length, sleepsOn[me]);
      HashIs(hashtable.Length, sleepsOn[me]);
      ghost var chain := chains[h];
      ChainSeen(k, l, h);
      if hashtable[h] <= 0 {
        hashtable[h] := me;
      } else {
        var prev := hashtable[h];
        ghost var i := 0;
        while next[prev] > 0
          invariant 0 <= i < |chain| && prev == chain[i]
          invariant 0 <= prev < next.Length && next[..] == l.next
          invariant next[prev] == Follower(chain, i)
          decreases |chain| - i
          modifies {}
        {
          prev := next[prev];
          i := i + 1;
        }
        next[prev] := me;
      }
      chains := chains[h := chain + [me]];
      pc := pc[c := Added];
      assert L() == LinkLinks(l, h, chain, me);
    }

    /** The search loop of sleepq_wake and sleepq_wake_all: the next thread of a chain that waits for `resource`,
        starting at position `i0`, and the thread before it. */
    method FindWaiter(resource: nat, prev0: int, first0: int, ghost chain: seq<Tid>, ghost i0: nat)
      returns (prev: int, first: int, ghost i: nat)
      requires next.Length == sleepsOn.Length && At(chain, i0, prev0, first0)
      requires forall j :: 0 <= j < |chain| ==> 0 < chain[j] < next.Length
      requires forall j :: 0 <= j < |chain| ==> next[chain[j]] == Follower(chain, j)
      requires forall j :: 0 <= j < i0 ==> sleepsOn[chain[j]] != resource
      ensures At(chain, FirstWaiter(sleepsOn[..], chain, resource), prev, first)
      ensures i == FirstWaiter(sleepsOn[..], chain, resource)
    {
      hide FirstWaiter;
      prev := prev0;
      first := first0;
      i := i0;
      while first > 0 && sleepsOn[first] != resource
        invariant At(chain, i, prev, first)
        invariant forall j :: 0 <= j < i ==> sleepsOn[chain[j]] != resource
        decreases |chain| - i
      {
        prev := first;
        first := next[first];
        i := i + 1;
      }
      FirstWaiterIs(sleepsOn[..], chain, resource, i);
    }

    /** First half of sleepq_wake, and of each round of sleepq_wake_all: unlinks the first waiter and
        returns it, the thread before it and the thread after it. */
    method WakeUnlink(c: Cpu, resource: nat, all: bool, prev0: int, first0: int, ghost i0: nat)
      returns (wake: int, prev: int, first: int, ghost i: nat)
      requires Valid() && Enabled(K(), Unlink(c, resource, all))
      requires var chain := chains[Hash(|chains|, resource)];
               At(chain, i0, prev0, first0) && NoWaiters(sleepsOn[..], chain, i0, resource)
      modifies this`pc, this`chains, this`holder, next, hashtable
      ensures Valid() && K() == Next(old(K()), Unlink(c, resource, all))
      ensures if wake > 0 then pc[c] == Waking(wake, resource, all, Home(old(pc[c]))) else pc[c] == Home(old(pc[c]))
      ensures var chain := chains[Hash(|chains|, resource)];
              At(chain, i, prev, first) && NoWaiters(sleepsOn[..], chain, i, resource)
      ensures wake > 0 ==> |chains[Hash(|chains|, resource)]| < |old(chains[Hash(|chains|, resource)])|
      ensures wake <= 0 ==> i == |chains[Hash(|chains|, resource)]|
    {
      hide Inv, Encodes, Hash, FirstWaiter, At, NoWaiters, Follower;
      ghost var k, l := K(), L();
      Sizes(k, l);
      UnlinkEncodes(k, l, c, resource, all);
      ActionKeeps(k, Unlink(c, resource, all));
      var h := Hash(hashtable.Length, resource);
      ghost var chain := chains[h];
      ChainSeen(k, l, h);
      Unchecked(k, chain, i0, resource);
      prev, wake, i := FindWaiter(resource, prev0, first0, chain, i0);
      CursorAfter(k, h, resource, i, prev, wake);
      first := wake;
      if wake > 0 {
        first := next[wake];
        if prev <= 0 {
          hashtable[h] := next[wake];
        } else {
          next[prev] := next[wake];
        }
        chains := chains[h := Without(chain, i)];
        pc := pc[c := Waking(wake, resource, all, Home(pc[c]))];
        holder := c;
      } else {
        pc := pc[c := Home(pc[c])];
        holder := -1;
      }
    }

    /** Second half, under thread_table_slock as well: the thread is no longer marked, and ready if it slept. */
    method WakeFinish(c: Cpu, first: Tid)
      requires Valid() && Enabled(K(), FinishWake(c)) && first == pc[c].thread
      modifies this`head, this`tail, this`ready, this`pc, this`holder, state, sleepsOn, next
      ensures Valid() && K() == Next(old(K()), FinishWake(c))
      ensures sleepsOn[..] == old(sleepsOn[..])[first := 0]
      ensures if old(state[first]) == Sleeping then
                state[..] == old(state[..])[first := Ready] && ready == old(ready) + [first]
              else state[..] == old(state[..]) && ready == old(ready)
    {
      hide Inv, Encodes;
      ghost var k, l := K(), L();
      Sizes(k, l);
      FinishWakeEncodes(k, l, c);
      ActionKeeps(k, FinishWake(c));
      sleepsOn[first] := 0;
      next[first] := -1;
      if state[first] == Sleeping {
        state[first] := Ready;
        AddToReadyList(first);
        ready := ready + [first];
      }
      holder := if pc[c].all then c else -1;
      pc := pc[c := if pc[c].all then Searching(pc[c].resource, pc[c].back) else pc[c].back];
    }

    /** sleepq_wake: the longest waiting thread is delivered, if there is one. */
    method SleepqWake(c: Cpu, resource: nat)
      requires Valid() && Enabled(K(), Unlink(c, resource, false))
      modifies this`head, this`tail, this`ready, this`chains, this`pc, this`holder, state, sleepsOn, next, hashtable
      ensures Valid()
      ensures var k := old(K());
              if Waiters(k, resource) == [] then K() == k
              else
                && Delivered(k, K(), c, Waiters(k, resource)[0], k.pc[c])
                && forall q :: q != 0 ==>
                     Waiters(K(), q) == if q == resource then Waiters(k, q)[1..] else Waiters(k, q)
    {
      hide Inv, Encodes, Hash, FirstWaiter, Filter, DoUnlink, DoFinishWake, Delivered, Waiters;
      ghost var k := K();
      Sizes(k, L());
      WakeDelivers(k, c, resource, false);
      if Waiters(k, resource) != [] {
        forall q | q != 0 { WakeWaiters(k, c, resource, false, q); }
      }
      ChainStart(k, L(), resource);
      var h := Hash(hashtable.Length, resource);
      var wake, prev, first;
      ghost var i;
      wake, prev, first, i := WakeUnlink(c, resource, false, -1, hashtable[h], 0);
      if wake > 0 {
        WakeFinish(c, wake);
      } else {
        NothingWoken(k, c);
      }
    }

    /** One round of sleepq_wake_all: delivers the longest waiting thread and goes on searching behind it, or gives
        the sleep queue lock back. */
    method WakeRound(c: Cpu, resource: nat, prev0: int, first0: int, ghost i0: nat)
      returns (wake: int, prev: int, first: int, ghost i: nat)
      requires Valid() && Enabled(K(), Unlink(c, resource, true))
      requires var chain := chains[Hash(|chains|, resource)];
               At(chain, i0, prev0, first0) && NoWaiters(sleepsOn[..], chain, i0, resource)
      modifies this`head, this`tail, this`ready, this`chains, this`pc, this`holder, state, sleepsOn, next, hashtable
      ensures Valid() && |chains| == |old(chains)|
      ensures var k := old(K()); var w := Waiters(k, resource);
              if wake <= 0 then w == [] && K() == k.(pc := k.pc[c := Home(k.pc[c])], holder := -1)
              else
                && w != [] && wake == w[0] && Waiters(K(), resource) == w[1..]
                && Delivered(k, K(), c, wake, Searching(resource, Home(k.pc[c])))
      ensures wake > 0 ==>
                var chain := chains[Hash(|chains|, resource)];
                && At(chain, i, prev, first) && NoWaiters(sleepsOn[..], chain, i, resource)
                && |chain| < |old(chains[Hash(|chains|, resource)])|
    {
      hide Inv, Encodes, Hash, FirstWaiter, Filter, DoUnlink, DoFinishWake, Delivered, Waiters, At, NoWaiters;
      ghost var k := K();
      Sizes(k, L());
      WakeDelivers(k, c, resource, true);
      if Waiters(k, resource) != [] { WakeWaiters(k, c, resource, true, resource); }
      ghost var h := Hash(hashtable.Length, resource);
      wake, prev, first, i := WakeUnlink(c, resource, true, prev0, first0, i0);
      Sizes(K(), L());
      if wake > 0 {
        UnmarkKeeps(sleepsOn[..], wake, chains[h], i, resource);
        FinishWakeMarks(K(), c);
        WakeFinish(c, wake);
        Sizes(K(), L());
      }
    }

    /** sleepq_wake_all: every waiter of the resource is delivered, longest waiting first, and no other thread is. */
    method SleepqWakeAll(c: Cpu, resource: nat)
      requires Valid() && Enabled(K(), Unlink(c, resource, true)) && Open(pc[c])
      modifies this`head, this`tail, this`ready, this`chains, this`pc, this`holder, state, sleepsOn, next, hashtable
      ensures Valid() && pc == old(pc) && holder == -1
      ensures Waiters(K(), resource) == [] && Woken(old(K()), K(), Waiters(old(K()), resource))
    {
      hide Inv, Encodes, Hash, FirstWaiter, Filter, DoUnlink, DoFinishWake, Delivered, Waiters, Woken, At, NoWaiters;
      ghost var k := K();
      Sizes(k, L());
      ghost var ws := Waiters(k, resource);
      ghost var n := 0;
      assert ws[..0] == [] && ws[0..] == ws;
      WokenNone(k);
      ChainStart(k, L(), resource);
      var h := Hash(hashtable.Length, resource);
      var prev, first := -1, hashtable[h];
      ghost var i := 0;
      var wake := 1;
      while wake > 0
        invariant Valid() && Shape(K()) && |chains| == hashtable.Length && n <= |ws|
        invariant c < |pc| && pc == k.pc[c := if wake > 0 && n > 0 then Searching(resource, k.pc[c]) else k.pc[c]]
        invariant Waiters(K(), resource) == ws[n..] && Woken(k, K(), ws[..n])
        invariant if wake > 0 then
                    && Enabled(K(), Unlink(c, resource, true))
                    && At(chains[h], i, prev, first) && NoWaiters(sleepsOn[..], chains[h], i, resource)
                  else holder == -1 && n == |ws|
        decreases |chains[h]|, wake
      {
        ghost var k1 := K();
        Released(k, k1, ws[..n], c, resource);
        wake, prev, first, i := WakeRound(c, resource, prev, first, i);
        Sizes(K(), L());
        if wake > 0 {
          DeliveredPc(k1, K(), c, wake, Searching(resource, k.pc[c]));
          WokenNext(k, k1, ws[..n], K(), c, wake, Searching(resource, k.pc[c]));
          assert ws[..n] + [wake] == ws[..n + 1];
          n := n + 1;
        }
      }
      assert ws[..n] == ws;
    }

    /** scheduler_remove_first_ready */
    method RemoveFirstReady() returns (t: Tid)
      requires head < next.Length && head != IDLE
      modifies this`head, this`tail
      ensures if old(head) < 0 then t == IDLE && L() == old(L())
              else t == old(head) && L() == ReadyDrop(old(L()))
    {
      if head >= 0 {
        t := head;
        if tail == t { tail := -1; }
        head := next[head];
      } else {
        t := IDLE;
      }
    }

    /** scheduler_schedule's first part: what becomes of the thread that was running. */
    method RetireCurrent(c: Cpu)
      requires Valid() && Enabled(K(), Schedule(c))
      modifies this`head, this`tail, this`ready, state, next
      ensures InvBut(K(), c) && Encodes(K(), L()) && K() == Retire(old(K()), current[c])
      ensures var me := current[c];
              if old(state[me]) == Dying then state[..] == old(state[..])[me := Free] && ready == old(ready)
              else if sleepsOn[me] != 0 then state[..] == old(state[..])[me := Sleeping] && ready == old(ready)
              else state[..] == old(state[..])[me := Ready] && ready == old(ready) + if me == IDLE then [] else [me]
    {
      hide Inv, Encodes, InvBut;
      ghost var k, l := K(), L();
      Sizes(k, l);
      RetireEncodes(k, l, c);
      RetireKeeps(k, c);
      var me := current[c];
      if state[me] == Dying {
        state[me] := Free;
      } else if sleepsOn[me] != 0 {
        state[me] := Sleeping;
      } else {
        if me != IDLE {
          AddToReadyList(me);
          ready := ready + [me];
        }
        state[me] := Ready;
      }
    }

    /** scheduler_schedule's second part: the first ready thread, or the idle one, is to run on the CPU. */
    method DispatchFirst(c: Cpu) returns (t: Tid)
      requires InvBut(K(), c) && Encodes(K(), L()) && next != hashtable
      modifies this`head, this`tail, this`ready, this`pc, state
      ensures Shape(old(K())) && c < |pc| && pc[c] == Switching(t)
      ensures K() == Dispatch(old(K()), c) && Encodes(K(), L())
      ensures t == (if old(ready) == [] then IDLE else old(ready)[0])
      ensures ready == (if old(ready) == [] then [] else old(ready)[1..]) && state[..] == old(state[..])[t := Running]
    {
      hide Inv, Encodes, InvBut;
      ReadyAtSchedule(K(), L(), c);
      DispatchEncodes(K(), L(), c);
      t := RemoveFirstReady();
      state[t] := Running;
      if ready != [] { ready := ready[1..]; }
      pc := pc[c := Switching(t)];
    }

    /** scheduler_schedule, up to the release of thread_table_slock. */
    method SchedulerSchedule(c: Cpu) returns (t: Tid)
      requires Valid() && Enabled(K(), Schedule(c))
      modifies this`head, this`tail, this`ready, this`pc, state, next
      ensures Valid() && K() == Next(old(K()), Schedule(c)) && pc[c] == Switching(t)
      ensures var me := current[c];
              && (old(state[me]) == Dying ==> state[me] == Free && me != t)
              && (sleepsOn[me] != 0 ==> state[me] == Sleeping && me != t)
              && (if me == IDLE || old(state[me]) == Dying || sleepsOn[me] != 0 then
                    t == (if old(ready) == [] then IDLE else old(ready)[0])
                    && ready == if old(ready) == [] then [] else old(ready)[1..]
                  else t == (old(ready) + [me])[0] && ready == (old(ready) + [me])[1..] && (me != t ==> state[me] == Ready))
              && t < state.Length && state[t] == Running
              && forall u :: 0 <= u < state.Length && u != me && u != t ==> state[u] == old(state[u])
    {
      hide Inv, Encodes, InvBut, Retire, Dispatch;
      ghost var k := K();
      ScheduleOutcome(k, c);
      ActionKeeps(k, Schedule(c));
      RetireCurrent(c);
      t := DispatchFirst(c);
    }

    /** The last part of scheduler_schedule. */
    method SchedulerPublish(c: Cpu, t: Tid)
      requires Valid() && c < |pc| && pc[c] == Switching(t)
      modifies this`pc, current
      ensures Valid() && K() == Next(old(K()), Publish(c))
      ensures current[..] == old(current[..])[c := t] && pc == old(pc)[c := InThread]
    {
      hide Inv, Encodes;
      Sizes(K(), L());
      LocalEncodes(K(), L(), Publish(c));
      ActionKeeps(K(), Publish(c));
      current[c] := t;
      pc := pc[c := InThread];
    }

    /** scheduler_add_ready, for a thread that thread_create has set up. */
    method SchedulerAddReady(t: Tid)
      requires Valid() && Enabled(K(), AddReady(t))
      modifies this`head, this`tail, this`ready, state, next
      ensures Valid() && K() == Next(old(K()), AddReady(t))
      ensures state[..] == old(state[..])[t := Ready] && ready == old(ready) + [t]
    {
      hide Inv, Encodes;
      Sizes(K(), L());
      AddReadyEncodes(K(), L(), t);
      ActionKeeps(K(), AddReady(t));
      AddToReadyList(t);
      ready := ready + [t];
      state[t] := Ready;
    }

    /** thread_create, first part: claims the first free row from `nextTid` on, the idle thread's excluded, or returns -1. */
    method ThreadClaim() returns (tid: int)
      requires Valid()
      modifies this`nextTid, state
      ensures Valid()
      ensures if tid < 0 then K() == old(K()) && forall t :: 0 < t < state.Length ==> state[t] != Free
              else
                && Enabled(old(K()), Claim(tid)) && K() == Next(old(K()), Claim(tid))
                && FirstFree(old(state[..]), old(nextTid), tid)
                && nextTid == (tid + 1) % state.Length
                && old(state[tid]) == Free && state[..] == old(state[..])[tid := NonReady]
    {
      hide Inv, Encodes, Row;
      ghost var k, l := K(), L();
      Sizes(k, l);
      tid := -1;
      var i := 0;
      while i < state.Length
        invariant 0 <= i <= state.Length && NoneFree(state[..], nextTid, i)
        modifies {}
      {
        var t := Row(nextTid, i, state.Length);
        if t != IDLE {
          if state[t] == Free {
            tid := t;
            break;
          }
        }
        i := i + 1;
      }
      if tid < 0 {
        AllRows(state[..], nextTid);
        return;
      }
      LocalEncodes(k, l, Claim(tid));
      ActionKeeps(k, Claim(tid));
      nextTid := (tid + 1) % state.Length;
      state[tid] := NonReady;
    }

    /** thread_create, after the lock is released: clear the row. */
    method ThreadInit(tid: Tid)
      requires Valid() && Enabled(K(), Init(tid))
      modifies sleepsOn, next
      ensures Valid() && K() == Next(old(K()), Init(tid))
      ensures sleepsOn[..] == old(sleepsOn[..])[tid := 0] && next[..] == old(next[..])[tid := -1]
    {
      hide Inv, Encodes;
      Sizes(K(), L());
      LocalEncodes(K(), L(), Init(tid));
      ActionKeeps(K(), Init(tid));
      sleepsOn[tid] := 0;
      next[tid] := -1;
    }

    /** thread_finish */
    method ThreadFinish(c: Cpu)
      requires Valid() && Enabled(K(), Finish(c))
      modifies this`pc, state
      ensures Valid() && K() == Next(old(K()), Finish(c))
      ensures state[..] == old(state[..])[current[c] := Dying] && pc == old(pc)[c := Finished]
    {
      hide Inv, Encodes;
      Sizes(K(), L());
      LocalEncodes(K(), L(), Finish(c));
      ActionKeeps(K(), Finish(c));
      state[current[c]] := Dying;
      pc := pc[c := Finished];
    }
  }

}
