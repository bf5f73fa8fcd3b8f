/** The priority queue of the third assignment (queue.c), run by one thread: a heap whose root has the single child 1. */
module PriorityQueue {

  const INIT_SIZE := 8
  const GROWTH_FACTOR := 2
  const QUEUE_OVERFLOW := 2

  function Parent(i: nat): nat { i / 2 }

  function Left(i: nat): nat { if i == 0 then 1 else i * 2 }

  function Right(i: nat): nat { if i == 0 then 2 else i * 2 + 1 }

  /** The tree these indices make: below the root they are the two children, and the root's only child is 1. */
  lemma Children(i: nat, k: nat)
    requires k > 0
    ensures Parent(k) == i <==> if i == 0 then k == Left(i) else k == Left(i) || k == Right(i)
    ensures Parent(Right(0)) == Left(0)
  {
  }

  /** Every element but the root is at most its parent. */
  ghost predicate IsHeap(s: seq<int>) {
    forall k :: 0 < k < |s| ==> s[Parent(k)] >= s[k]
  }

  /** A heap but for the edge above `i`; the children of `i` do not exceed its parent. */
  ghost predicate HeapButAbove(s: seq<int>, i: nat) {
    && (forall k :: 0 < k < |s| && k != i ==> s[Parent(k)] >= s[k])
    && (forall k :: 0 < k < |s| && Parent(k) == i && 0 < i < |s| ==> s[Parent(i)] >= s[k])
  }

  /** A heap but for the edges below `i`; the children of `i` do not exceed its parent. */
  ghost predicate HeapButBelow(s: seq<int>, i: nat) {
    && (forall k :: 0 < k < |s| && Parent(k) != i ==> s[Parent(k)] >= s[k])
    && (forall k :: 0 < k < |s| && Parent(k) == i && 0 < i < |s| ==> s[Parent(i)] >= s[k])
  }

  /** The root is a maximum. */
  lemma {:induction false} RootIsMax(s: seq<int>, k: nat)
    requires IsHeap(s) && k < |s|
    ensures s[0] >= s[k]
    decreases k
  {
    if k > 0 { RootIsMax(s, Parent(k)); }
  }

  function Swapped(s: seq<int>, i: nat, j: nat): seq<int>
    requires i < |s| && j < |s|
  {
    s[i := s[j]][j := s[i]]
  }

  lemma SwapKeeps(s: seq<int>, i: nat, j: nat)
    requires i < |s| && j < |s|
    ensures multiset(Swapped(s, i, j)) == multiset(s)
  {
  }

  lemma UpStep(s: seq<int>, i: nat)
    requires 0 < i < |s| && HeapButAbove(s, i) && s[Parent(i)] < s[i]
    ensures HeapButAbove(Swapped(s, Parent(i), i), Parent(i))
  {
    forall k | 0 < k < |s|
      ensures var p := Parent(i); var r := Swapped(s, p, i);
              (k != p ==> r[Parent(k)] >= r[k]) && (Parent(k) == p && p > 0 ==> r[Parent(p)] >= r[k])
    {
      UpEdge(s, i, k);
    }
  }

  /** One step up: the edge above `k` after `i` has changed places with its parent. */
  lemma UpEdge(s: seq<int>, i: nat, k: nat)
    requires 0 < i < |s| && HeapButAbove(s, i) && s[Parent(i)] < s[i] && 0 < k < |s|
    ensures var p := Parent(i); var r := Swapped(s, p, i);
            (k != p ==> r[Parent(k)] >= r[k]) && (Parent(k) == p && p > 0 ==> r[Parent(p)] >= r[k])
  {
    var p := Parent(i);
    assert Parent(k) < k && p < i && (p > 0 ==> Parent(p) < p);
    hide Parent;
    if k != i { assert s[Parent(k)] >= s[k]; }
    if p > 0 { assert s[Parent(p)] >= s[p]; }
  }

  /** The child of `i` that heap_down looks at. */
  function MaxChild(s: seq<int>, i: nat): nat
    requires Left(i) < |s|
  {
    if Right(i) < |s| && s[Right(i)] > s[Left(i)] then Right(i) else Left(i)
  }

  /** One step down: the edge above `k` after the greater child of `i` has moved up if it must. */
  lemma DownEdge(s: seq<int>, i: nat, k: nat)
    requires Left(i) < |s| && i < |s| && HeapButBelow(s, i) && 0 < k < |s|
    ensures var m := MaxChild(s, i);
            var r := if s[m] > s[i] then Swapped(s, m, i) else s;
            if Parent(k) == m then r[Parent(m)] >= r[k] else r[Parent(k)] >= r[k]
  {
    var m := MaxChild(s, i);
    Children(i, k);
    Children(i, m);
    assert Parent(k) < k;
    hide Parent, Left, Right;
    if Parent(k) == i || k == i {
    } else {
      assert s[Parent(k)] >= s[k];
    }
  }

  lemma DownStep(s: seq<int>, i: nat)
    requires Left(i) < |s| && i < |s| && HeapButBelow(s, i)
    ensures var m := MaxChild(s, i);
            HeapButBelow(if s[m] > s[i] then Swapped(s, m, i) else s, m)
  {
    forall k | 0 < k < |s|
      ensures var m := MaxChild(s, i);
              var r := if s[m] > s[i] then Swapped(s, m, i) else s;
              if Parent(k) == m then r[Parent(m)] >= r[k] else r[Parent(k)] >= r[k]
    {
      DownEdge(s, i, k);
    }
  }

  datatype Popped = Took(pri: int) | Waits

  class Queue {
    var root: array<int>
    var count: nat

    /** The elements in the queue. */
    ghost function Contents(): multiset<int>
      requires count <= root.Length
      reads this, root
    {
      multiset(root[..count])
    }

    ghost predicate Valid()
      reads this, root
    {
      0 < root.Length && count <= root.Length && IsHeap(root[..count])
    }

    /** queue_init */
    constructor ()
      ensures Valid() && Contents() == multiset{} && fresh(root)
    {
      root := new int[INIT_SIZE](_ => 0);
      count := 0;
    }

    method Exchange(x: nat, y: nat)
      requires x < root.Length && y < root.Length
      modifies root
      ensures root[..] == Swapped(old(root[..]), x, y)
    {
      var tmp := root[x];
      root[x] := root[y];
      root[y] := tmp;
    }

    /** queue_heap_up, on the first `n` elements. */
    method HeapUp(start: nat, ghost n: nat)
      requires start < n <= root.Length && HeapButAbove(root[..n], start)
      modifies root
      ensures IsHeap(root[..n]) && multiset(root[..n]) == multiset(old(root[..n]))
      ensures root[n..] == old(root[n..])
    {
      hide HeapButAbove, Swapped;
      var i: nat := start;
      while i > 0 && root[Parent(i)] < root[i]
        invariant i < n && HeapButAbove(root[..n], i)
        invariant multiset(root[..n]) == multiset(old(root[..n])) && root[n..] == old(root[n..])
      {
        ghost var s, t := root[..n], root[n..];
        assert root[..] == s + t;
        UpStep(s, i);
        SwapKeeps(s, Parent(i), i);
        Exchange(Parent(i), i);
        SwappedParts(s, t, root[..], n, Parent(i), i);
        i := Parent(i);
      }
      UpDone(root[..n], i);
    }

    /** queue_heap_down from the root. */
    method HeapDown(count: nat)
      requires count <= root.Length && HeapButBelow(root[..count], 0)
      modifies root
      ensures IsHeap(root[..count]) && multiset(root[..count]) == multiset(old(root[..count]))
      ensures root[count..] == old(root[count..])
    {
      hide HeapButBelow, Swapped;
      var i: nat := 0;
      while Left(i) < count
        invariant 0 <= i && (i < count || count == 0) && HeapButBelow(root[..count], i)
        invariant multiset(root[..count]) == multiset(old(root[..count])) && root[count..] == old(root[count..])
        decreases count - i
      {
        ghost var s, t := root[..count], root[count..];
        assert root[..] == s + t;
        DownStep(s, i);
        var maxChild := Left(i);
        if Right(i) < count && root[Right(i)] > root[Left(i)] {
          maxChild := Right(i);
        }
        if root[maxChild] > root[i] {
          SwapKeeps(s, maxChild, i);
          Exchange(maxChild, i);
          SwappedParts(s, t, root[..], count, maxChild, i);
        }
        i := maxChild;
      }
      DownDone(root[..count], i);
    }

    /** queue_grow; realloc may fail. */
    method Grow() returns (r: int)
      requires Valid()
      modifies this
      ensures Valid() && count == old(count) && root[..count] == old(root[..count])
      ensures Contents() == old(Contents()) && (r == 0 ==> count < root.Length)
      ensures r == QUEUE_OVERFLOW ==> root == old(root)
      ensures r != QUEUE_OVERFLOW ==> r == 0 && fresh(root) && root.Length == GROWTH_FACTOR * old(root.Length)
    {
      var enough: bool := *;
      if !enough { return QUEUE_OVERFLOW; }
      var newRoot := new int[root.Length * GROWTH_FACTOR](_ => 0);
      forall k | 0 <= k < root.Length { newRoot[k] := root[k]; }
      assert newRoot[..count] == root[..count];
      root := newRoot;
      return 0;
    }

    /** The end of queue_push, with room for the element. */
    method Place(pri: int)
      requires Valid() && count < root.Length
      modifies this`count, root
      ensures Valid() && Contents() == old(Contents()) + multiset{pri}
    {
      hide HeapButAbove, IsHeap;
      ghost var before := root[..count];
      PushedLast(before, pri);
      root[count] := pri;
      assert root[..count + 1] == before + [pri];
      PlacedElements(before, pri);
      HeapUp(count, count + 1);
      count := count + 1;
    }

    /** queue_push */
    method Push(pri: int) returns (r: int)
      requires Valid()
      modifies this, root
      ensures Valid()
      ensures r == QUEUE_OVERFLOW ==> Contents() == old(Contents()) && old(count) >= old(root.Length)
      ensures r != QUEUE_OVERFLOW ==> r == 0 && Contents() == old(Contents()) + multiset{pri}
    {
      hide IsHeap;
      if count >= root.Length {
        r := Grow();
        if r != 0 { return; }
      }
      Place(pri);
      return 0;
    }

    /** queue_pop: the maximum leaves; on an empty queue the caller is left waiting for a push. */
    method Pop() returns (r: Popped)
      requires Valid()
      modifies this`count, root
      ensures Valid() && (r.Waits? <==> old(count) == 0)
      ensures r.Waits? ==> count == 0 && Contents() == old(Contents()) == multiset{}
      ensures r.Took? ==>
                && count == old(count) - 1 && Contents() == old(Contents()) - multiset{r.pri}
                && r.pri in old(Contents()) && forall x :: x in old(Contents()) ==> x <= r.pri
    {
      if count == 0 { return Waits; }
      ghost var s := root[..count];
      var pri := root[0];
      forall x | x in multiset(s) ensures x <= pri {
        var k :| 0 <= k < |s| && s[k] == x;
        RootIsMax(s, k);
      }
      count := count - 1;
      Exchange(0, count);
      PoppedFirst(s, root[..count]);
      HeapDown(count);
      return Took(pri);
    }
  }

  lemma SwappedParts(s: seq<int>, t: seq<int>, r: seq<int>, n: nat, i: nat, j: nat)
    requires n == |s| && i < n && j < n && r == Swapped(s + t, i, j)
    ensures r[..n] == Swapped(s, i, j) && r[n..] == t
  {
  }

  lemma UpDone(s: seq<int>, i: nat)
    requires i < |s| && HeapButAbove(s, i) && (i == 0 || s[Parent(i)] >= s[i])
    ensures IsHeap(s)
  {
  }

  lemma DownDone(s: seq<int>, i: nat)
    requires HeapButBelow(s, i) && Left(i) >= |s|
    ensures IsHeap(s)
  {
  }

  lemma PlacedElements(s: seq<int>, pri: int)
    ensures multiset(s + [pri]) == multiset(s) + multiset{pri}
  {
  }

  lemma PushedLast(s: seq<int>, pri: int)
    requires IsHeap(s)
    ensures HeapButAbove(s + [pri], |s|)
  {
  }

  /** The old heap with its last element moved to the root. */
  lemma PoppedFirst(s: seq<int>, r: seq<int>)
    requires IsHeap(s) && s != [] && |r| == |s| - 1
    requires forall k :: 0 <= k < |r| ==> r[k] == if k == 0 then s[|s| - 1] else s[k]
    ensures HeapButBelow(r, 0) && multiset(r) == multiset(s) - multiset{s[0]}
  {
    PoppedElements(s, r);
    forall k | 0 < k < |r| && Parent(k) != 0 ensures r[Parent(k)] >= r[k] {
      assert s[Parent(k)] >= s[k];
    }
  }

  lemma PoppedElements(s: seq<int>, r: seq<int>)
    requires s != [] && |r| == |s| - 1
    requires forall k :: 0 <= k < |r| ==> r[k] == if k == 0 then s[|s| - 1] else s[k]
    ensures multiset(r) == multiset(s) - multiset{s[0]}
  {
    if r != [] {
      assert s == [s[0]] + r[1..] + [s[|s| - 1]];
      assert r == [s[|s| - 1]] + r[1..];
    } else {
      assert s == [s[0]];
    }
  }

  // ----- draining -----

  /** `outs` are the results of popping `m` empty. */
  ghost predicate Drains(m: multiset<int>, outs: seq<int>)
    decreases |outs|
  {
    if outs == [] then m == multiset{}
    else outs[0] in m && (forall x :: x in m ==> x <= outs[0]) && Drains(m - multiset{outs[0]}, outs[1..])
  }

  lemma {:induction false} DrainsAll(m: multiset<int>, outs: seq<int>)
    requires Drains(m, outs)
    ensures multiset(outs) == m
    decreases |outs|
  {
    if outs != [] {
      DrainsAll(m - multiset{outs[0]}, outs[1..]);
      assert outs == [outs[0]] + outs[1..];
    }
  }

  ghost predicate Descending(outs: seq<int>) {
    forall i, j :: 0 <= i < j < |outs| ==> outs[i] >= outs[j]
  }

  /** Popping everything yields the elements in descending order. */
  lemma {:induction false} DrainSorts(m: multiset<int>, outs: seq<int>)
    requires Drains(m, outs)
    ensures multiset(outs) == m && Descending(outs)
    decreases |outs|
  {
    DrainsAll(m, outs);
    if outs != [] {
      DrainSorts(m - multiset{outs[0]}, outs[1..]);
      forall i, j | 0 <= i < j < |outs| ensures outs[i] >= outs[j] {
        assert outs[1..][j - 1] == outs[j] && outs[j] in multiset(outs);
        if i > 0 { assert outs[1..][i - 1] == outs[i]; }
      }
    }
  }

  /** Conversely a descending arrangement of `m` is what popping `m` empty yields. */
  lemma {:induction false} SortedDrains(m: multiset<int>, outs: seq<int>)
    requires multiset(outs) == m && Descending(outs)
    ensures Drains(m, outs)
    decreases |outs|
  {
    hide Descending;
    if outs != [] {
      HeadIsMost(outs);
      SortedDrains(m - multiset{outs[0]}, outs[1..]);
    }
  }

  lemma HeadIsMost(outs: seq<int>)
    requires outs != [] && Descending(outs)
    ensures forall x :: x in multiset(outs) ==> x <= outs[0]
    ensures Descending(outs[1..]) && multiset(outs[1..]) == multiset(outs) - multiset{outs[0]}
  {
    assert outs == [outs[0]] + outs[1..];
    forall x | x in multiset(outs) ensures x <= outs[0] {
      var k :| 0 <= k < |outs| && outs[k] == x;
    }
  }

  /** Nothing in `m` exceeds any of `outs`. */
  ghost predicate Under(m: multiset<int>, outs: seq<int>) {
    forall i, x :: 0 <= i < |outs| && x in m ==> x <= outs[i]
  }

  lemma PoppedNext(outs: seq<int>, m: multiset<int>, pri: int)
    requires Descending(outs) && Under(m, outs)
    requires pri in m && forall x :: x in m ==> x <= pri
    ensures Descending(outs + [pri]) && Under(m - multiset{pri}, outs + [pri])
    ensures multiset(outs + [pri]) + (m - multiset{pri}) == multiset(outs) + m
  {
  }

  lemma NothingOut(m: multiset<int>)
    ensures Descending([]) && Under(m, []) && multiset([]) + m == m
  {
  }

  /** The bouncer program's shutdown, which pops as long as queue_pop returns: it ends waiting on an empty queue. */
  method Shutdown(q: Queue) returns (outs: seq<int>)
    requires q.Valid()
    modifies q`count, q.root
    ensures q.Valid() && q.count == 0
    ensures Drains(old(q.Contents()), outs) && multiset(outs) == old(q.Contents()) && Descending(outs)
  {
    hide Descending, Under, Drains, IsHeap;
    ghost var m := q.Contents();
    outs := [];
    NothingOut(m);
    var waits := false;
    while !waits
      invariant q.Valid() && q.root == old(q.root)
      invariant multiset(outs) + q.Contents() == m && Descending(outs) && Under(q.Contents(), outs)
      invariant waits ==> q.count == 0 && q.Contents() == multiset{}
      decreases q.count, !waits
    {
      ghost var rest := q.Contents();
      var r := q.Pop();
      if r.Waits? {
        waits := true;
      } else {
        PoppedNext(outs, rest, r.pri);
        outs := outs + [r.pri];
      }
    }
    SortedDrains(m, outs);
  }
}
