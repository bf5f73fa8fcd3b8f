/** The user-level heap allocator (userland/lib.c): tiles of words, and the free list threaded through them. */
module Allocator {
  import opened Words

  const HALF := 0x8000_0000   // 2^31
  const HEADER := 4           // sizeof(size_t)
  const MIN_ALLOC_SIZE := 8   // sizeof(free_block_t)

  // ----- sizes -----

  /** The request as malloc rounds it: at least 8 bytes, word-aligned, in 32-bit arithmetic. */
  function Rounded(size: Word): Word {
    var s := if size < MIN_ALLOC_SIZE then MIN_ALLOC_SIZE else size;
    if s % 4 == 0 then s else (s - s % 4 + 4) % WORDS
  }

  function AsInt(w: int): int
    requires 0 <= w < WORDS
  {
    if w < HALF then w else w - WORDS
  }

  /** `(int)(bs - s - 4) >= 12`, and `bs >= s + 4`, in 32-bit arithmetic. */
  predicate CanSplit(bs: Word, s: Word) { AsInt((bs - s - HEADER) % WORDS) >= MIN_ALLOC_SIZE + HEADER }

  predicate CanTake(bs: Word, s: Word) { bs >= (s + HEADER) % WORDS }

  /** The tests of malloc mean what they should. */
  predicate TestsExact(bs: Word, s: Word) {
    && (CanSplit(bs, s) <==> bs >= s + 16)
    && (CanSplit(bs, s) || CanTake(bs, s) <==> bs >= s + HEADER)
  }

  /** Up to 2^32 - 4 bytes rounding gives the least multiple of 4 that is not below 8 and the request; for the last three
      sizes it gives 0. */
  lemma RoundedExact(size: Word)
    ensures size <= 8 ==> Rounded(size) == 8
    ensures 8 <= size <= WORDS - 4 ==> size <= Rounded(size) < size + 4 && Rounded(size) % 4 == 0
    ensures size <= WORDS - 4 ==> forall m :: m % 4 == 0 && m >= 8 && m >= size ==> m >= Rounded(size)
    ensures size > WORDS - 4 ==> Rounded(size) == 0
  {
  }

  /** On a block below 2^31 bytes the tests are right exactly when the request is at most 2^31 - 4 bytes larger. */
  lemma TestsExactIff(bs: Word, s: Word)
    requires MIN_ALLOC_SIZE <= bs < HALF && MIN_ALLOC_SIZE <= s && bs % 4 == 0 && s % 4 == 0
    ensures TestsExact(bs, s) <==> s + HEADER - bs <= HALF
  {
    var d := bs - s - HEADER;
    if d >= 0 {
      assert d % WORDS == d;
    } else {
      assert d % WORDS == d + WORDS;
    }
    if s + HEADER < WORDS { assert (s + HEADER) % WORDS == s + HEADER; }
  }

  /** A request near 2^32 is handed a block that is too small. */
  lemma HugeRequest()
    ensures Rounded(0xffff_ff00) == 0xffff_ff00 && CanSplit(256, 0xffff_ff00)
    ensures Rounded(0xffff_ffff) == 0
  {
  }

  // ----- tilings -----

  /** Blocks by their first word, with their length in words, header included; some of them are free. */
  datatype Tiling = Tiling(size: map<nat, nat>, free: set<nat>)

  /** Block `a` lies in the heap and is followed by a block or by the end. */
  ghost predicate BlockOk(t: Tiling, n: nat, a: nat)
    requires a in t.size
  {
    t.size[a] >= 2 && a + t.size[a] <= n && (a + t.size[a] == n || a + t.size[a] in t.size)
  }

  ghost predicate Before(t: Tiling, a: nat, b: nat)
    requires a in t.size
  {
    a + t.size[a] <= b
  }

  /** The blocks cover words `0..n` exactly, without overlap. */
  ghost predicate Tiles(t: Tiling, n: nat) {
    && 0 in t.size && t.free <= t.size.Keys
    && (forall a :: a in t.size ==> BlockOk(t, n, a))
    && (forall a, b :: a in t.size && b in t.size && a < b ==> Before(t, a, b))
  }

  /** No two free blocks touch. */
  ghost predicate Coalesced(t: Tiling) {
    forall a :: a in t.free && a in t.size ==> a + t.size[a] !in t.free
  }

  /** Words of a request: its rounded bytes and the header. */
  function Need(s: Word): nat { s / 4 + 1 }

  ghost predicate Fits(t: Tiling, need: nat, a: nat) {
    a in t.free && a in t.size && t.size[a] >= need
  }

  /** The free block malloc uses: the first that is large enough. */
  ghost predicate FirstFit(t: Tiling, need: nat, a: nat) {
    Fits(t, need, a) && forall b: nat :: b < a ==> !Fits(t, need, b)
  }

  /** The tiling after a request is served from block `a`, and the block handed out. */
  ghost function Served(t: Tiling, a: nat, need: nat): (Tiling, nat)
    requires a in t.size && t.size[a] >= need
  {
    if t.size[a] >= need + 3 then
      var rest := t.size[a] - need;
      (Tiling(t.size[a := rest][a + rest := need], t.free), a + rest)
    else (Tiling(t.size, t.free - {a}), a)
  }

  lemma ServedTiles(t: Tiling, n: nat, a: nat, need: nat)
    requires Tiles(t, n) && Coalesced(t) && a in t.free && t.size[a] >= need >= 3
    ensures var (u, p) := Served(t, a, need);
            Tiles(u, n) && Coalesced(u) && p in u.size && p !in u.free && u.size[p] >= need
  {
    hide BlockOk, Before;
    var (u, p) := Served(t, a, need);
    if t.size[a] >= need + 3 {
      assert p !in t.size by { NoneInside(t, n, a, p); }
      forall b | b in u.size ensures BlockOk(u, n, b) {
        assert BlockOk(t, n, a) && (b in t.size ==> BlockOk(t, n, b));
        SplitBlockOk(t, n, a, need, b);
      }
      forall b, c | b in u.size && c in u.size && b < c ensures Before(u, b, c) { SplitBefore(t, n, a, need, b, c); }
      forall b | b in u.free && b in u.size ensures b + u.size[b] !in u.free { SplitCoalesced(t, n, a, need, b); }
    } else {
      forall b | b in u.size ensures BlockOk(u, n, b) { SameBlock(t, u, n, b); }
      forall b, c | b in u.size && c in u.size && b < c ensures Before(u, b, c) { SameBefore(t, u, b, c); }
    }
  }

  lemma NoneInside(t: Tiling, n: nat, a: nat, p: nat)
    requires Tiles(t, n) && a in t.size && a < p < a + t.size[a]
    ensures p !in t.size
  {
    assert p in t.size ==> Before(t, a, p);
  }

  lemma SameBlock(t: Tiling, u: Tiling, n: nat, b: nat)
    requires b in t.size && b in u.size && u.size[b] == t.size[b] && t.size.Keys <= u.size.Keys && BlockOk(t, n, b)
    ensures BlockOk(u, n, b)
  {
  }

  lemma SameBefore(t: Tiling, u: Tiling, b: nat, c: nat)
    requires b in t.size && b in u.size && u.size[b] <= t.size[b] && Before(t, b, c)
    ensures Before(u, b, c)
  {
  }

  lemma SplitBlockOk(t: Tiling, n: nat, a: nat, need: nat, b: nat)
    requires a in t.size && need >= 3 && t.size[a] >= need + 3 && b in Served(t, a, need).0.size
    requires BlockOk(t, n, a) && (b in t.size ==> BlockOk(t, n, b)) && Served(t, a, need).1 !in t.size
    ensures BlockOk(Served(t, a, need).0, n, b)
  {
  }

  lemma SplitBefore(t: Tiling, n: nat, a: nat, need: nat, b: nat, c: nat)
    requires Tiles(t, n) && a in t.free && need >= 3 && t.size[a] >= need + 3
    requires b in Served(t, a, need).0.size && c in Served(t, a, need).0.size && b < c
    ensures Before(Served(t, a, need).0, b, c)
  {
    hide BlockOk;
    NoneInside(t, n, a, Served(t, a, need).1);
    assert b in t.size && c in t.size ==> Before(t, b, c);
    assert b in t.size && b < a ==> Before(t, b, a);
    assert b in t.size && a < b ==> Before(t, a, b);
    assert c in t.size && a < c ==> Before(t, a, c);
  }

  lemma SplitCoalesced(t: Tiling, n: nat, a: nat, need: nat, b: nat)
    requires Tiles(t, n) && Coalesced(t) && a in t.free && need >= 3 && t.size[a] >= need + 3
    requires b in t.free
    ensures var u := Served(t, a, need).0; b in u.size && b + u.size[b] !in u.free
  {
    NoneInside(t, n, a, Served(t, a, need).1);
  }

  /** Two touching blocks made one. */
  ghost function Merge(t: Tiling, a: nat): Tiling
    requires a in t.size
  {
    var b := a + t.size[a];
    if b in t.size then Tiling((t.size - {b})[a := t.size[a] + t.size[b]], t.free - {b}) else t
  }

  lemma MergeTiles(t: Tiling, n: nat, a: nat)
    requires Tiles(t, n) && a in t.size && a + t.size[a] in t.size
    ensures Tiles(Merge(t, a), n)
  {
    hide BlockOk, Before;
    var u := Merge(t, a);
    forall c | c in u.size ensures BlockOk(u, n, c) {
      assert BlockOk(t, n, a) && BlockOk(t, n, a + t.size[a]) && BlockOk(t, n, c);
      if c != a { EndsDiffer(t, n, a, c); }
      MergeBlockOk(t, n, a, c);
    }
    forall c, d | c in u.size && d in u.size && c < d ensures Before(u, c, d) { MergeBefore(t, n, a, c, d); }
    NotEmpty(t, n, a);
  }

  lemma MergeBlockOk(t: Tiling, n: nat, a: nat, c: nat)
    requires a in t.size && a + t.size[a] in t.size && c in Merge(t, a).size
    requires BlockOk(t, n, a) && BlockOk(t, n, a + t.size[a]) && BlockOk(t, n, c)
    requires c != a ==> c + t.size[c] != a + t.size[a]
    ensures BlockOk(Merge(t, a), n, c)
  {
  }

  /** Two blocks do not end at the same word. */
  lemma EndsDiffer(t: Tiling, n: nat, a: nat, c: nat)
    requires Tiles(t, n) && a in t.size && c in t.size && a != c
    ensures c + t.size[c] != a + t.size[a]
  {
    hide BlockOk;
    assert a < c ==> Before(t, a, c);
    assert c < a ==> Before(t, c, a);
    NotEmpty(t, n, a);
    NotEmpty(t, n, c);
  }

  lemma NotEmpty(t: Tiling, n: nat, a: nat)
    requires a in t.size && BlockOk(t, n, a)
    ensures t.size[a] >= 2 && a + t.size[a] <= n
  {
  }

  lemma MergeBefore(t: Tiling, n: nat, a: nat, c: nat, d: nat)
    requires Tiles(t, n) && a in t.size && a + t.size[a] in t.size
    requires c in Merge(t, a).size && d in Merge(t, a).size && c < d
    ensures Before(Merge(t, a), c, d)
  {
    hide BlockOk;
    var b := a + t.size[a];
    assert Before(t, c, d);
    assert b < d ==> Before(t, b, d);
  }

  /** The free block that ends where `p` starts. */
  ghost predicate Touches(t: Tiling, a: nat, p: nat) {
    a in t.free && a in t.size && a + t.size[a] == p
  }

  /** Freeing block `p`: it joins the free blocks it touches. */
  ghost function Freed(t: Tiling, p: nat): Tiling
    requires p in t.size && t.free <= t.size.Keys
  {
    var u := Tiling(t.size, t.free + {p});
    if exists a :: Touches(t, a, p) then
      var a :| Touches(t, a, p);
      MergeFree(Merge(u, a), a)
    else MergeFree(u, p)
  }

  ghost function MergeFree(t: Tiling, a: nat): Tiling
    requires a in t.size
  {
    if a + t.size[a] in t.free then Merge(t, a) else t
  }

  lemma TouchesUnique(t: Tiling, n: nat, a: nat, b: nat, p: nat)
    requires Tiles(t, n) && Touches(t, a, p) && Touches(t, b, p)
    ensures a == b
  {
    if a != b { EndsDiffer(t, n, a, b); }
  }

  /** Marking a block free, then merging it with free neighbours. */
  lemma MarkTiles(t: Tiling, n: nat, p: nat)
    requires Tiles(t, n) && p in t.size
    ensures Tiles(Tiling(t.size, t.free + {p}), n)
  {
    hide BlockOk, Before;
    var u := Tiling(t.size, t.free + {p});
    forall b | b in u.size ensures BlockOk(u, n, b) {
      assert BlockOk(t, n, b);
      SameBlock(t, u, n, b);
    }
    forall b, c | b in u.size && c in u.size && b < c ensures Before(u, b, c) {
      SameBefore(t, u, b, c);
    }
  }

  /** Only block `a` may touch a free block after it. */
  ghost predicate OnlyToucher(t: Tiling, a: nat) {
    forall c :: c in t.free && c in t.size && c != a ==> c + t.size[c] !in t.free
  }

  lemma MergeFreeCoalesces(t: Tiling, n: nat, a: nat)
    requires Tiles(t, n) && a in t.free && OnlyToucher(t, a)
    ensures Tiles(MergeFree(t, a), n) && Coalesced(MergeFree(t, a))
    ensures MergeFree(t, a).free <= t.free && a in MergeFree(t, a).free
  {
    hide BlockOk, Before;
    assert BlockOk(t, n, a);
    NotEmpty(t, n, a);
    if a + t.size[a] in t.free {
      MergeTiles(t, n, a);
      assert BlockOk(t, n, a + t.size[a]);
      NotEmpty(t, n, a + t.size[a]);
    }
  }

  /** Once `p` has joined the free block before it, that block alone may touch a free block. */
  lemma JoinedBefore(t: Tiling, n: nat, p: nat, a: nat)
    requires Tiles(t, n) && Coalesced(t) && p in t.size && p !in t.free && Touches(t, a, p)
    ensures var v := Merge(Tiling(t.size, t.free + {p}), a);
            Tiles(v, n) && a in v.free && OnlyToucher(v, a)
  {
    hide BlockOk, Before;
    var u := Tiling(t.size, t.free + {p});
    MarkTiles(t, n, p);
    MergeTiles(u, n, a);
    assert BlockOk(t, n, a);
    NotEmpty(t, n, a);
    var v := Merge(u, a);
    assert v.free == t.free;
    forall c | c in v.free && c in v.size && c != a ensures c + v.size[c] !in v.free {
      assert v.size[c] == t.size[c];
    }
  }

  lemma JoinedNothing(t: Tiling, n: nat, p: nat)
    requires Tiles(t, n) && Coalesced(t) && p in t.size && p !in t.free && forall a :: !Touches(t, a, p)
    ensures var u := Tiling(t.size, t.free + {p}); Tiles(u, n) && OnlyToucher(u, p)
  {
    hide BlockOk, Before;
    var u := Tiling(t.size, t.free + {p});
    MarkTiles(t, n, p);
    forall c | c in u.free && c in u.size && c != p ensures c + u.size[c] !in u.free {
      assert c + t.size[c] !in t.free && !Touches(t, c, p);
    }
  }

  lemma FreedTiles(t: Tiling, n: nat, p: nat)
    requires Tiles(t, n) && Coalesced(t) && p in t.size && p !in t.free
    ensures Tiles(Freed(t, p), n) && Coalesced(Freed(t, p))
  {
    hide Tiles, Coalesced, OnlyToucher, MergeFree, Merge;
    var u := Tiling(t.size, t.free + {p});
    if exists a :: Touches(t, a, p) {
      var a := FreedJoins(t, n, p);
      JoinedBefore(t, n, p, a);
      MergeFreeCoalesces(Merge(u, a), n, a);
    } else {
      JoinedNothing(t, n, p);
      MergeFreeCoalesces(u, n, p);
    }
  }

  /** Which block Freed joins `p` to. */
  lemma FreedJoins(t: Tiling, n: nat, p: nat) returns (a: nat)
    requires Tiles(t, n) && p in t.size && exists a :: Touches(t, a, p)
    ensures Touches(t, a, p) && Merge(Tiling(t.size, t.free + {p}), a).size.Keys >= {a}
    ensures Freed(t, p) == MergeFree(Merge(Tiling(t.size, t.free + {p}), a), a)
  {
    hide MergeFree, BlockOk, Before;
    a :| Touches(t, a, p);
    forall b | Touches(t, b, p) ensures a == b { TouchesUnique(t, n, a, b, p); }
  }

  // ----- which words are free -----

  ghost predicate FreeWord(t: Tiling, x: nat) {
    exists a :: a in t.free && a in t.size && a <= x < a + t.size[a]
  }

  /** Serving a request takes the words of the block it hands out, and no others, from the free ones. */
  lemma ServedWords(t: Tiling, n: nat, a: nat, need: nat, x: nat)
    requires Tiles(t, n) && a in t.free && t.size[a] >= need >= 3
    ensures var (u, p) := Served(t, a, need);
            && p in u.size && p + u.size[p] == a + t.size[a]
            && u.size[p] == (if t.size[a] < need + 3 then t.size[a] else need)
            && (FreeWord(u, x) <==> FreeWord(t, x) && !(p <= x < p + u.size[p]))
            && (forall q :: q in u.size && q !in u.free <==> q == p || (q in t.size && q !in t.free))
            && (forall q :: q in u.size && q !in u.free && q != p ==> u.size[q] == t.size[q])
  {
    hide BlockOk;
    var (u, p) := Served(t, a, need);
    if t.size[a] >= need + 3 { NoneInside(t, n, a, p); }
    if FreeWord(t, x) {
      var b :| b in t.free && b in t.size && b <= x < b + t.size[b];
      assert (a < b ==> Before(t, a, b)) && (b < a ==> Before(t, b, a));
      assert b != a ==> b in u.free && u.size[b] == t.size[b];
      assert b == a && x < p ==> a in u.free && a in u.size && a <= x < a + u.size[a];
    }
    if FreeWord(u, x) {
      var b :| b in u.free && b in u.size && b <= x < b + u.size[b];
      assert (a < b ==> Before(t, a, b)) && (b < a ==> Before(t, b, a));
      assert b in t.free && b <= x < b + t.size[b];
    }
  }

  /** The same words are free, and the same blocks live. */
  ghost predicate SameUse(t: Tiling, u: Tiling) {
    && (forall x :: FreeWord(u, x) <==> FreeWord(t, x))
    && (forall q :: q in u.size && q !in u.free <==> q in t.size && q !in t.free)
    && (forall q :: q in u.size && q in t.size && q !in u.free && q !in t.free ==> u.size[q] == t.size[q])
  }

  lemma MergeFreeUse(t: Tiling, n: nat, a: nat)
    requires Tiles(t, n) && a in t.free
    ensures SameUse(t, MergeFree(t, a))
  {
    hide Before, BlockOk, FreeWord;
    assert BlockOk(t, n, a);
    NotEmpty(t, n, a);
    if a + t.size[a] in t.free {
      forall x: nat ensures FreeWord(Merge(t, a), x) <==> FreeWord(t, x) { MergeWord(t, n, a, x); }
    }
  }

  lemma MergeWord(t: Tiling, n: nat, a: nat, x: nat)
    requires Tiles(t, n) && a in t.free && a + t.size[a] in t.free
    ensures FreeWord(Merge(t, a), x) <==> FreeWord(t, x)
  {
    hide Before;
    var b, u := a + t.size[a], Merge(t, a);
    assert BlockOk(t, n, a) && BlockOk(t, n, b);
    if FreeWord(t, x) {
      var c :| c in t.free && c in t.size && c <= x < c + t.size[c];
      var d := if c == b then a else c;
      assert d in u.free && d in u.size && d <= x < d + u.size[d];
    }
    if FreeWord(u, x) {
      var c :| c in u.free && c in u.size && c <= x < c + u.size[c];
      var d := if c == a && b <= x then b else c;
      assert d in t.free && d in t.size && d <= x < d + t.size[d];
    }
  }

  lemma MarkedWords(t: Tiling, p: nat, x: nat)
    requires p in t.size
    ensures FreeWord(Tiling(t.size, t.free + {p}), x) <==> FreeWord(t, x) || p <= x < p + t.size[p]
  {
    var u := Tiling(t.size, t.free + {p});
    if p <= x < p + t.size[p] {
      assert p in u.free && p in u.size && p <= x < p + u.size[p];
    } else if FreeWord(t, x) {
      var b :| b in t.free && b in t.size && b <= x < b + t.size[b];
      assert b in u.free && b in u.size && b <= x < b + u.size[b];
    }
  }

  /** Freeing a block makes its words free, and no others; the other live blocks stay as they are. */
  lemma FreedWords(t: Tiling, n: nat, p: nat, x: nat)
    requires Tiles(t, n) && Coalesced(t) && p in t.size && p !in t.free
    ensures var u := Freed(t, p);
            && (FreeWord(u, x) <==> FreeWord(t, x) || p <= x < p + t.size[p])
            && (forall q :: q in u.size && q !in u.free <==> q != p && q in t.size && q !in t.free)
            && (forall q :: q in u.size && q !in u.free ==> u.size[q] == t.size[q])
  {
    hide FreeWord, BlockOk, Before, MergeFree;
    var u := Tiling(t.size, t.free + {p});
    MarkTiles(t, n, p);
    MarkedWords(t, p, x);
    if exists a :: Touches(t, a, p) {
      var a := FreedJoins(t, n, p);
      MergeIsFree(u, a);
      MergeFreeUse(u, n, a);
      MergeTiles(u, n, a);
      MergeFreeUse(Merge(u, a), n, a);
    } else {
      MergeFreeUse(u, n, p);
    }
  }

  lemma MergeIsFree(t: Tiling, a: nat)
    requires a in t.size && a in t.free && a + t.size[a] in t.free && a + t.size[a] in t.size && t.size[a] > 0
    ensures MergeFree(t, a) == Merge(t, a) && a in Merge(t, a).size && a in Merge(t, a).free
  {
  }

  /** A free block of one tiling is a free block of any other with the same free words, and no longer there. */
  lemma SharedFree(t: Tiling, u: Tiling, n: nat, a: nat)
    requires Tiles(t, n) && Coalesced(t) && Tiles(u, n) && Coalesced(u) && SameUse(t, u) && a in t.free
    ensures a in u.free && a in u.size && u.size[a] <= t.size[a]
  {
    hide Coalesced, SameUse, Before;
    assert BlockOk(t, n, a);
    FreeStart(t, n, a);
    SameFree(t, u, a);
    var b :| b in u.free && b in u.size && b <= a < b + u.size[b];
    if b < a {
      assert FreeWord(u, a - 1);
      SameFree(t, u, a - 1);
      NotBehindFree(t, n, a);
    }
    var x := a + t.size[a];
    if a + u.size[a] > x {
      assert FreeWord(u, x);
      SameFree(t, u, x);
      NotBeforeFree(t, n, a);
    }
  }

  lemma FreeStart(t: Tiling, n: nat, a: nat)
    requires Tiles(t, n) && a in t.free
    ensures FreeWord(t, a)
  {
    hide Before;
    assert BlockOk(t, n, a);
  }

  lemma SameFree(t: Tiling, u: Tiling, x: nat)
    requires SameUse(t, u)
    ensures FreeWord(t, x) <==> FreeWord(u, x)
  {
    hide FreeWord;
  }

  /** The words on both sides of a free block are not free. */
  lemma NotBehindFree(t: Tiling, n: nat, a: nat)
    requires Tiles(t, n) && Coalesced(t) && a in t.free && a > 0
    ensures !FreeWord(t, a - 1)
  {
    hide BlockOk;
    forall c | c in t.free && c in t.size ensures !(c <= a - 1 < c + t.size[c]) {
      if c < a { assert Before(t, c, a); }
    }
  }

  lemma NotBeforeFree(t: Tiling, n: nat, a: nat)
    requires Tiles(t, n) && Coalesced(t) && a in t.free
    ensures !FreeWord(t, a + t.size[a])
  {
    hide BlockOk;
    var x := a + t.size[a];
    forall c | c in t.free && c in t.size ensures !(c <= x < c + t.size[c]) {
      if c < a { assert Before(t, c, a); }
      if a < c { assert Before(t, a, c); }
    }
  }

  /** Which words are free and which blocks are live fixes the tiling: free has no choice. */
  lemma UseDetermines(t: Tiling, u: Tiling, n: nat)
    requires Tiles(t, n) && Coalesced(t) && Tiles(u, n) && Coalesced(u) && SameUse(t, u)
    ensures t == u
  {
    hide Coalesced, FreeWord, BlockOk, Before;
    forall a | a in t.free ensures a in u.free && u.size[a] <= t.size[a] { SharedFree(t, u, n, a); }
    forall a | a in u.free ensures a in t.free && t.size[a] <= u.size[a] { SharedFree(u, t, n, a); }
    assert t.free == u.free;
    assert t.size == u.size;
  }

  /** Freeing what malloc just handed out gives the same tiling and the same free blocks back. */
  lemma FreeUndoesMalloc(t: Tiling, n: nat, a: nat, need: nat)
    requires Tiles(t, n) && Coalesced(t) && a in t.free && t.size[a] >= need >= 3
    ensures var (u, p) := Served(t, a, need); p in u.size && u.free <= u.size.Keys && Freed(u, p) == t
  {
    hide BlockOk, Before;
    var (u, p) := Served(t, a, need);
    ServedTiles(t, n, a, need);
    if t.size[a] >= need + 3 {
      NoneInside(t, n, a, p);
      assert Touches(u, a, p);
      forall b | Touches(u, b, p) ensures a == b { TouchesUnique(u, n, a, b, p); }
      assert Merge(Tiling(u.size, u.free + {p}), a) == t by {
        assert (u.size - {p})[a := t.size[a]] == t.size;
        assert u.free + {p} - {p} == t.free;
      }
    } else {
      forall b ensures !Touches(u, b, p) {
        assert b in t.free && b in t.size ==> b + t.size[b] !in t.free;
      }
      assert u.free + {p} == t.free;
    }
  }
}
