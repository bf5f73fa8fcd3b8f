/** The heap in memory: a header word per block, and the free list threaded through the second words of free blocks. */
module Heaps {
  import opened Words
  import opened Allocator

  /** The address of word `i` of a heap that starts at `base`; NULL is 0. */
  function Address(base: nat, i: int): int { base + 4 * i }

  function Index(base: nat, p: int): int { (p - base) / 4 }

  lemma IndexOfAddress(base: nat, i: int)
    ensures Index(base, Address(base, i)) == i
  {
  }

  /** `p` points to the first free block after word `from`, or is NULL when there is none. */
  ghost predicate Points(free: set<nat>, base: nat, from: int, p: int) {
    if p == 0 then forall b :: b in free ==> b <= from
    else
      var a := Index(base, p);
      && a > from && a >= 0 && p == Address(base, a) && a in free
      && forall b :: b in free ==> b <= from || b >= a
  }

  ghost predicate Headers(t: Tiling, h: seq<Word>) {
    forall a :: a in t.size ==> a + 1 < |h| && h[a] == 4 * t.size[a]
  }

  ghost predicate Links(t: Tiling, h: seq<Word>, base: nat, first: int) {
    && Points(t.free, base, -1, first)
    && forall a :: a in t.free ==> a + 1 < |h| && Points(t.free, base, a, h[a + 1])
  }

  ghost predicate Encodes(t: Tiling, h: seq<Word>, base: nat, first: int) {
    Tiles(t, |h|) && Headers(t, h) && Links(t, h, base, first)
  }

  // ----- where blocks lie -----

  lemma BlockRange(t: Tiling, n: nat, a: nat)
    requires Tiles(t, n) && a in t.size
    ensures t.size[a] >= 2 && a + t.size[a] <= n
  {
    hide BlockOk, Before;
    assert BlockOk(t, n, a);
    NotEmpty(t, n, a);
  }

  lemma Apart(t: Tiling, n: nat, a: nat, b: nat)
    requires Tiles(t, n) && a in t.size && b in t.size && a != b
    ensures a + t.size[a] <= b || b + t.size[b] <= a
    ensures t.size[a] >= 2 && t.size[b] >= 2
  {
    hide BlockOk;
    BlockRange(t, n, a);
    BlockRange(t, n, b);
    assert a < b ==> Before(t, a, b);
    assert b < a ==> Before(t, b, a);
  }

  // ----- the effect of each store on the list -----

  /** Splitting the tail off a free block changes two headers and no link. */
  lemma SplitEncodes(t: Tiling, h: seq<Word>, base: nat, first: int, a: nat, need: nat)
    requires Encodes(t, h, base, first) && Coalesced(t) && a in t.free && a in t.size && t.size[a] >= need + 3 && need >= 3
    requires 4 * |h| < HALF
    ensures var rest := t.size[a] - need;
            && a + rest < |h|
            && Encodes(Served(t, a, need).0, h[a := 4 * rest][a + rest := 4 * need], base, first)
  {
    hide BlockOk, Before, Points;
    var (u, p) := Served(t, a, need);
    var rest := t.size[a] - need;
    BlockRange(t, |h|, a);
    ServedTiles(t, |h|, a, need);
    var g := h[a := 4 * rest][p := 4 * need];
    forall b | b in u.size ensures b + 1 < |g| && g[b] == 4 * u.size[b] {
      BlockRange(u, |h|, b);
      if b in t.size && b != a { Apart(t, |h|, a, b); }
    }
    forall b | b in u.free ensures b + 1 < |g| && g[b + 1] == h[b + 1] {
      BlockRange(t, |h|, b);
      if b != a { Apart(t, |h|, a, b); }
    }
  }

  /** The free blocks after `from` once `a`, the next one, is gone. */
  lemma PointsPast(free: set<nat>, base: nat, from: int, a: nat, p: int)
    requires Points(free, base, from, Address(base, a)) && Points(free, base, a, p) && base > 0
    ensures Points(free - {a}, base, from, p)
  {
    IndexOfAddress(base, a);
  }

  lemma PointsElsewhere(free: set<nat>, base: nat, from: int, a: nat, b: nat, p: int)
    requires Points(free, base, from, Address(base, a)) && Points(free, base, b, p) && base > 0
    requires b in free && b != a && b != from && (from == -1 || (from >= 0 && from in free))
    ensures Points(free - {a}, base, b, p)
  {
    IndexOfAddress(base, a);
  }

  /** Taking a whole free block unlinks it from the one before, or from the list's start. */
  lemma TakeEncodes(t: Tiling, h: seq<Word>, base: nat, first: int, a: nat, need: nat, from: int)
    requires Encodes(t, h, base, first) && Coalesced(t) && base > 0
    requires a in t.free && a in t.size && need <= t.size[a] < need + 3 && need >= 3
    requires Points(t.free, base, from, Address(base, a)) && (from == -1 || (from >= 0 && from in t.free))
    ensures a + 1 < |h| && (from >= 0 ==> from + 1 < |h|)
    ensures var next := h[a + 1];
            if from < 0 then Encodes(Served(t, a, need).0, h, base, next)
            else Encodes(Served(t, a, need).0, h[from + 1 := next], base, first)
  {
    hide BlockOk, Before, Points;
    var u := Served(t, a, need).0;
    ServedTiles(t, |h|, a, need);
    BlockRange(t, |h|, a);
    if from >= 0 { BlockRange(t, |h|, from); }
    var next := h[a + 1];
    var g := if from < 0 then h else h[from + 1 := next];
    PointsPast(t.free, base, from, a, next);
    if from >= 0 { FirstElsewhere(t.free, base, from, a, first); }
    forall b | b in u.size ensures b + 1 < |g| && g[b] == 4 * u.size[b] {
      BlockRange(t, |h|, b);
      if from >= 0 && b != from { Apart(t, |h|, from, b); }
    }
    forall b | b in u.free ensures b + 1 < |g| && Points(u.free, base, b, g[b + 1]) {
      BlockRange(t, |h|, b);
      if b != from {
        if from >= 0 { Apart(t, |h|, from, b); }
        PointsElsewhere(t.free, base, from, a, b, h[b + 1]);
      }
    }
  }

  lemma FirstElsewhere(free: set<nat>, base: nat, from: int, a: nat, p: int)
    requires Points(free, base, from, Address(base, a)) && Points(free, base, -1, p) && base > 0
    requires from in free && from >= 0
    ensures Points(free - {a}, base, -1, p)
  {
    IndexOfAddress(base, a);
    IndexOfAddress(base, from);
  }

  /** Putting block `p` between `from` and `next` in the list. */
  lemma InsertEncodes(t: Tiling, h: seq<Word>, base: nat, first: int, p: nat, from: int, next: int)
    requires Encodes(t, h, base, first) && base > 0 && 0 <= next < WORDS && Address(base, |h|) < WORDS
    requires p in t.size && p !in t.free && (from == -1 || (from >= 0 && from in t.free))
    requires from < p && Points(t.free, base, from, next) && (next == 0 || Index(base, next) > p)
    ensures p + 1 < |h| && (from >= 0 ==> from + 1 < |h|)
    ensures var u := Tiling(t.size, t.free + {p});
            if from < 0 then Encodes(u, h[p + 1 := next], base, Address(base, p))
            else Encodes(u, h[from + 1 := Address(base, p)][p + 1 := next], base, first)
  {
    hide BlockOk, Before, Points;
    var u := Tiling(t.size, t.free + {p});
    MarkTiles(t, |h|, p);
    BlockRange(t, |h|, p);
    if from >= 0 { BlockRange(t, |h|, from); Apart(t, |h|, from, p); }
    var g := if from < 0 then h[p + 1 := next] else h[from + 1 := Address(base, p)][p + 1 := next];
    PointsInserted(t.free, base, p, from, next);
    if from >= 0 { PointsAround(t.free, base, p, from, next, -1, first); }
    forall b | b in u.size ensures b + 1 < |g| && g[b] == 4 * u.size[b] {
      BlockRange(t, |h|, b);
      if b != p { Apart(t, |h|, p, b); }
      if from >= 0 && b != from { Apart(t, |h|, from, b); }
    }
    forall b | b in u.free ensures b + 1 < |g| && Points(u.free, base, b, g[b + 1]) {
      BlockRange(t, |h|, b);
      if b != p && b != from {
        Apart(t, |h|, p, b);
        if from >= 0 { Apart(t, |h|, from, b); }
        PointsAround(t.free, base, p, from, next, b, h[b + 1]);
      }
    }
  }

  lemma PointsInserted(free: set<nat>, base: nat, p: nat, from: int, next: int)
    requires base > 0 && from < p && Points(free, base, from, next) && (next == 0 || Index(base, next) > p)
    ensures Points(free + {p}, base, p, next) && Points(free + {p}, base, from, Address(base, p))
  {
    IndexOfAddress(base, p);
  }

  lemma PointsAround(free: set<nat>, base: nat, p: nat, from: int, next: int, b: int, q: int)
    requires base > 0 && from < p && Points(free, base, from, next) && (next == 0 || Index(base, next) > p)
    requires Points(free, base, b, q) && b != from && b != p
    requires (from == -1 && b >= 0 && b in free) || (from >= 0 && from in free && (b == -1 || (b >= 0 && b in free)))
    ensures Points(free + {p}, base, b, q)
  {
  }

  /** Making one block of two that touch: the second leaves the list, its successor becomes the first's. */
  lemma MergeEncodes(t: Tiling, h: seq<Word>, base: nat, first: int, a: nat, b: nat, g: seq<Word>)
    requires a in t.size && b == a + t.size[a] && a + 1 < |h| && b + 1 < |h| && h[a] + h[b] < WORDS
    requires g == h[a := h[a] + h[b]][a + 1 := h[b + 1]]
    requires a in t.free && b in t.free && base > 0
    requires Encodes(t, h, base, first)
    ensures Encodes(Merge(t, a), g, base, first)
  {
    hide BlockOk, Before, Points;
    var u := Merge(t, a);
    BlockRange(t, |h|, a);
    BlockRange(t, |h|, b);
    MergeTiles(t, |h|, a);
    NextIsNeighbour(t, |h|, base, a, h[a + 1]);
    PointsPast(t.free, base, a, b, h[b + 1]);
    FirstElsewhere(t.free, base, a, b, first);
    forall c | c in u.size ensures c + 1 < |g| && g[c] == 4 * u.size[c] {
      BlockRange(t, |h|, c);
      if c != a { Apart(t, |h|, a, c); }
    }
    forall c | c in u.free ensures c + 1 < |g| && Points(u.free, base, c, g[c + 1]) {
      BlockRange(t, |h|, c);
      if c != a {
        Apart(t, |h|, a, c);
        PointsElsewhere(t.free, base, a, b, c, h[c + 1]);
      }
    }
  }

  /** What the headers of two touching blocks say. */
  lemma MergeRoom(t: Tiling, h: seq<Word>, a: nat, b: nat)
    requires a in t.size && b in t.size && b == a + t.size[a] && 4 * |h| < HALF
    requires Tiles(t, |h|) && Headers(t, h)
    ensures a + 1 < b && b + 1 < |h| && h[a] + h[b] < WORDS && h[a] == 4 * (b - a)
  {
    hide BlockOk, Before;
    BlockRange(t, |h|, a);
    BlockRange(t, |h|, b);
  }

  /** The list leads from a free block to the free block that touches it. */
  lemma NextIsNeighbour(t: Tiling, n: nat, base: nat, a: nat, p: int)
    requires Tiles(t, n) && base > 0 && a in t.size && a in t.free && a + t.size[a] in t.free && Points(t.free, base, a, p)
    ensures p == Address(base, a + t.size[a])
  {
    hide BlockOk, Before;
    var b := a + t.size[a];
    BlockRange(t, n, a);
    if p != Address(base, b) {
      var c := Index(base, p);
      assert p != 0;
      Apart(t, n, a, c);
    }
  }

  // ----- single bytes -----

  /** Byte `x` of the heap. */
  function ByteAt(h: seq<Word>, x: nat): Byte
    requires x / 4 < |h|
  {
    Lane(h[x / 4], x % 4)
  }

  function WithLane(w: Word, k: nat, b: Byte): Word
    requires k < 4
  {
    match k
    case 0 => Join(b, Lane(w, 1), Lane(w, 2), Lane(w, 3))
    case 1 => Join(Lane(w, 0), b, Lane(w, 2), Lane(w, 3))
    case 2 => Join(Lane(w, 0), Lane(w, 1), b, Lane(w, 3))
    case _ => Join(Lane(w, 0), Lane(w, 1), Lane(w, 2), b)
  }

  lemma WithLaneLanes(w: Word, k: nat, b: Byte, j: nat)
    requires k < 4 && j < 4
    ensures Lane(WithLane(w, k, b), j) == if j == k then b else Lane(w, j)
  {
    LanesOfJoin(if k == 0 then b else Lane(w, 0), if k == 1 then b else Lane(w, 1),
                if k == 2 then b else Lane(w, 2), if k == 3 then b else Lane(w, 3));
  }

  /** The heap after byte `x` is stored. */
  function WithByte(h: seq<Word>, x: nat, b: Byte): (g: seq<Word>)
    requires x / 4 < |h|
    ensures |g| == |h|
  {
    h[x / 4 := WithLane(h[x / 4], x % 4, b)]
  }

  lemma WithByteAt(h: seq<Word>, x: nat, b: Byte, y: nat)
    requires x / 4 < |h| && y / 4 < |h|
    ensures ByteAt(WithByte(h, x, b), y) == if y == x then b else ByteAt(h, y)
  {
    hide Lane, WithLane;
    if x / 4 == y / 4 { WithLaneLanes(h[x / 4], x % 4, b, y % 4); }
  }

  /** The first byte a caller may use in the block at word `a`, and how many there are. */
  function Payload(a: nat): nat { 4 * a + HEADER }

  ghost function Room(t: Tiling, a: nat): int
    requires a in t.size
  {
    4 * t.size[a] - HEADER
  }

  /** A store into the payload of a live block touches neither headers nor links. */
  lemma StoreEncodes(t: Tiling, h: seq<Word>, base: nat, first: int, a: nat, x: nat, v: Word)
    requires Encodes(t, h, base, first) && a in t.size && a !in t.free && a < x < a + t.size[a]
    ensures x < |h| && Encodes(t, h[x := v], base, first)
  {
    hide BlockOk, Before, Points;
    BlockRange(t, |h|, a);
    forall b | b in t.size ensures b + 1 < |h| && h[x := v][b] == 4 * t.size[b] {
      if b != a { Apart(t, |h|, a, b); }
    }
    forall b | b in t.free ensures b + 1 < |h| && Points(t.free, base, b, h[x := v][b + 1]) {
      assert b in t.size;
      Apart(t, |h|, a, b);
    }
  }

  lemma StoreLive(t: Tiling, h: seq<Word>, a: nat, x: nat, v: Word)
    requires Tiles(t, |h|) && a in t.size && a < x < a + t.size[a] && x < |h|
    ensures LiveKept(t, h, t, h[x := v], a)
  {
    hide BlockOk, Before;
    forall q | q in t.size && q !in t.free && q != a ensures Kept(t, h, t, h[x := v], q) {
      Apart(t, |h|, a, q);
    }
  }

  /** Byte `i` of the payload of block `b` in `g` is that of block `a` in `h`. */
  ghost predicate SameByte(h: seq<Word>, a: nat, g: seq<Word>, b: nat, i: nat) {
    && (Payload(a) + i) / 4 < |h| && (Payload(b) + i) / 4 < |g|
    && ByteAt(g, Payload(b) + i) == ByteAt(h, Payload(a) + i)
  }

  /** The payloads of two blocks agree on their first `n` bytes, as far as there are `m`. */
  ghost predicate SamePrefix(h: seq<Word>, a: nat, g: seq<Word>, b: nat, n: int, m: int) {
    forall i: nat :: i < n && i < m ==> SameByte(h, a, g, b, i)
  }

  lemma StoredByte(h: seq<Word>, a: nat, g: seq<Word>, b: nat, i: nat, v: Byte, j: nat)
    requires SameByte(h, a, g, b, j) || j == i
    requires (Payload(b) + i) / 4 < |g|
    requires j == i ==> (Payload(a) + i) / 4 < |h| && v == ByteAt(h, Payload(a) + i)
    ensures SameByte(h, a, WithByte(g, Payload(b) + i, v), b, j)
  {
    hide ByteAt, WithByte;
    WithByteAt(g, Payload(b) + i, v, Payload(b) + j);
  }

  // ----- the allocator -----

  /** No other block than `p` changed: not its words, not its size, not whether it is free. */
  ghost predicate LiveKept(t: Tiling, h: seq<Word>, u: Tiling, g: seq<Word>, p: int) {
    |g| == |h| && forall q :: q in t.size && q !in t.free && q != p ==> Kept(t, h, u, g, q)
  }

  ghost predicate Kept(t: Tiling, h: seq<Word>, u: Tiling, g: seq<Word>, q: nat)
    requires q in t.size && |g| == |h|
  {
    && q in u.size && u.size[q] == t.size[q] && q !in u.free
    && forall x :: q <= x < q + t.size[q] && x < |h| ==> g[x] == h[x]
  }

  /** The tests of malloc are right for every free block it looks at. */
  ghost predicate InRange(t: Tiling, size: Word) {
    && size <= WORDS - 4
    && forall a :: a in t.free && a in t.size && (forall b: nat :: b < a ==> !Fits(t, Need(Rounded(size)), b))
         ==> Rounded(size) + HEADER - 4 * t.size[a] <= HALF
  }

  /** Every request up to 2^31 bytes is in range, whatever the state of the heap. */
  lemma HalfInRange(t: Tiling, n: nat, size: Word)
    requires Tiles(t, n) && size <= HALF
    ensures InRange(t, size)
  {
    hide Fits, Need;
    RoundedExact(size);
    forall a | a in t.free && a in t.size ensures Rounded(size) + HEADER - 4 * t.size[a] <= HALF {
      BlockRange(t, n, a);
    }
  }

  /** `p` is the address a caller is given for the block whose header is the word before. */
  predicate IsPayload(base: nat, p: int) {
    p > base && p == Address(base, Index(base, p - HEADER)) + HEADER
  }

  /** `p` was handed out and not freed since. */
  ghost predicate IsLive(t: Tiling, base: nat, p: int) {
    IsPayload(base, p) && Index(base, p - HEADER) in t.size && Index(base, p - HEADER) !in t.free
  }

  ghost predicate ZeroByte(h: seq<Word>, a: nat, i: nat) {
    (Payload(a) + i) / 4 < |h| && ByteAt(h, Payload(a) + i) == 0
  }

  ghost predicate ZeroPrefix(h: seq<Word>, a: nat, n: int) {
    forall i: nat :: i < n ==> ZeroByte(h, a, i)
  }

  /** The bytes from `y` on in `g` are those from `x` on in `h`: `n` of them, as far as the old block had `m`. */
  ghost predicate CopiedAlong(h: seq<Word>, x: int, g: seq<Word>, y: int, n: int, m: int) {
    x >= 0 && y >= 0 && forall i: nat :: i < n && i < m ==> SameAt(h, x, g, y, i)
  }

  ghost predicate SameAt(h: seq<Word>, x: nat, g: seq<Word>, y: nat, i: nat) {
    && (x + i) / 4 < |h| && (y + i) / 4 < |g|
    && Lane(g[(y + i) / 4], (y + i) % 4) == Lane(h[(x + i) / 4], (x + i) % 4)
  }

  lemma PayloadAt(base: nat, p: int)
    requires IsPayload(base, p)
    ensures Index(base, p - HEADER) >= 0 && Payload(Index(base, p - HEADER)) == p - base
  {
  }

  lemma PrefixIsCopied(h: seq<Word>, a: nat, g: seq<Word>, b: nat, base: nat, p: int, q: int, n: int, m: int)
    requires IsPayload(base, p) && IsPayload(base, q) && a == Index(base, p - HEADER) && b == Index(base, q - HEADER)
    requires SamePrefix(h, a, g, b, n, m)
    ensures CopiedAlong(h, p - base, g, q - base, n, m)
  {
    hide Lane, IsPayload, Index;
    PayloadAt(base, p);
    PayloadAt(base, q);
    var x: nat, y: nat := p - base, q - base;
    forall i: nat | i < n && i < m ensures SameAt(h, x, g, y, i) {
      assert SameByte(h, a, g, b, i);
    }
  }

  // ----- malloc in bytes -----

  /** A free block with room for a header and the request. */
  ghost predicate HasRoom(t: Tiling, size: Word, a: nat) {
    a in t.free && a in t.size && 4 * t.size[a] >= 12 && 4 * t.size[a] >= size + 4
  }

  lemma FitsIffRoom(t: Tiling, size: Word, a: nat)
    requires size <= WORDS - 4
    ensures Fits(t, Need(Rounded(size)), a) <==> HasRoom(t, size, a)
  {
    RoundedExact(size);
  }

  /** `p` is the end of the first block with room, which loses its last words, or the whole block where less than 12 bytes
      would be left. */
  ghost predicate HandsOut(t: Tiling, u: Tiling, base: nat, size: Word, p: int) {
    exists a :: HandsOutOf(t, u, base, size, p, a)
  }

  ghost predicate HandsOutOf(t: Tiling, u: Tiling, base: nat, size: Word, p: int, a: nat) {
    && HasRoom(t, size, a) && (forall b: nat :: b < a ==> !HasRoom(t, size, b))
    && var bytes := if size <= 8 then 8 else (size + 3) / 4 * 4;
       var rest := t.size[a] - (bytes + 4) / 4;
       if 4 * t.size[a] >= bytes + 4 + 12 then
         u.free == t.free && u.size == t.size[a := rest][a + rest := (bytes + 4) / 4] && p == base + 4 * (a + rest) + 4
       else u.size == t.size && u.free == t.free - {a} && p == base + 4 * a + 4
  }

  lemma ServedInBytes(t: Tiling, u: Tiling, base: nat, size: Word, p: int)
    requires size <= WORDS - 4 && IsPayload(base, p) && ServedFirst(t, Need(Rounded(size)), u, Index(base, p - HEADER))
    ensures HandsOut(t, u, base, size, p)
  {
    hide Fits, Rounded;
    var need := Need(Rounded(size));
    RoundedExact(size);
    forall b: nat { FitsIffRoom(t, size, b); }
    var a :| FirstFit(t, need, a) && HasRoom(t, size, a) && (u, Index(base, p - HEADER)) == Served(t, a, need);
    assert HandsOutOf(t, u, base, size, p, a);
  }

  /** What malloc does to the tiling: the first fit, or nothing when there is none. */
  ghost predicate Allocates(t: Tiling, u: Tiling, base: nat, size: Word, q: int) {
    if size != 0 && exists a :: Fits(t, Need(Rounded(size)), a)
    then IsPayload(base, q) && ServedFirst(t, Need(Rounded(size)), u, Index(base, q - HEADER))
    else q == 0 && u == t
  }

  /** What realloc does to the tiling when it moves block `p`. */
  ghost predicate Moves(t: Tiling, u: Tiling, base: nat, size: Word, p: nat, q: int) {
    exists v :: Allocates(t, v, base, size, q) && p in v.size && v.free <= v.size.Keys && u == Freed(v, p)
  }

  /** The words of block `p` become free, and no others do; the other live blocks stay. */
  ghost predicate FreesExactly(t: Tiling, u: Tiling, p: nat) {
    && p in t.size
    && (forall x: nat :: FreeWord(u, x) <==> FreeWord(t, x) || p <= x < p + t.size[p])
    && (forall q :: q in u.size && q !in u.free <==> q != p && q in t.size && q !in t.free)
  }

  lemma FreedExactly(t: Tiling, n: nat, p: nat)
    requires Tiles(t, n) && Coalesced(t) && p in t.size && p !in t.free
    ensures FreesExactly(t, Freed(t, p), p)
  {
    hide FreeWord, Freed, Coalesced, BlockOk, Before;
    forall x: nat ensures FreeWord(Freed(t, p), x) <==> FreeWord(t, x) || p <= x < p + t.size[p] { FreedWords(t, n, p, x); }
    FreedWords(t, n, p, 0);
  }

  class Heap {
    const base: nat
    const words: array<Word>
    var freeList: Word
    ghost var tiling: Tiling

    ghost predicate Sized() {
      base > 0 && 2 <= words.Length && 4 * words.Length < HALF && Address(base, words.Length) < WORDS
    }

    ghost predicate Valid()
      reads this, words
    {
      Sized() && Encodes(tiling, words[..], base, freeList) && Coalesced(tiling)
    }

    /** heap_init */
    constructor (base: nat, length: nat)
      requires base > 0 && 2 <= length && 4 * length < HALF && Address(base, length) < WORDS
      ensures Valid() && this.base == base && words.Length == length && fresh(words)
      ensures tiling == Tiling(map[0 := length], {0})
      ensures freeList == base && words[0] == 4 * length && words[1] == 0
    {
      this.base := base;
      words := new Word[length](_ => 0);
      freeList := base;
      tiling := Tiling(map[0 := length], {0});
      new;
      words[0] := 4 * length;
      words[1] := 0;
      WholeHeap(words[..], base);
    }

    /** malloc, when the block is too big: its tail becomes the new block. */
    method Split(block: Word, s: Word, ghost a: nat, ghost need: nat) returns (p: Word)
      requires Valid() && a in tiling.free && a in tiling.size && block == Address(base, a)
      requires s + HEADER == 4 * need && need >= 3 && tiling.size[a] >= need + 3
      modifies this`tiling, words
      ensures Valid() && (tiling, Index(base, p - HEADER)) == Served(old(tiling), a, need) && IsPayload(base, p)
      ensures LiveKept(old(tiling), old(words[..]), tiling, words[..], -1)
    {
      hide BlockOk, Before, Tiles, Points, Headers, Links, Coalesced, LiveKept;
      ghost var t, h := tiling, words[..];
      HeaderAt(t, h, base, freeList, a);
      SplitEncodes(t, h, base, freeList, a, need);
      SplitLive(t, h, a, need);
      ServedTiles(t, |h|, a, need);
      IndexOfAddress(base, a);
      var i := Index(base, block);
      words[i] := words[i] - (s + HEADER);
      var newBlock := block + words[i];
      IndexOfAddress(base, a + t.size[a] - need);
      words[Index(base, newBlock)] := s + HEADER;
      tiling := Served(t, a, need).0;
      return newBlock + HEADER;
    }

    /** malloc, when the block is not too big: the whole of it leaves the list. */
    method TakeWhole(block: Word, prev: Word, ghost a: nat, ghost need: nat, ghost from: int) returns (p: Word)
      requires Valid() && a in tiling.free && a in tiling.size && block == Address(base, a)
      requires need >= 3 && need <= tiling.size[a] < need + 3 && Points(tiling.free, base, from, block)
      requires if from < 0 then from == -1 && prev == 0 else from in tiling.free && prev == Address(base, from)
      modifies this`tiling, this`freeList, words
      ensures Valid() && (tiling, Index(base, p - HEADER)) == Served(old(tiling), a, need) && IsPayload(base, p)
      ensures LiveKept(old(tiling), old(words[..]), tiling, words[..], -1)
    {
      hide BlockOk, Before, Tiles, Points, Headers, Links, Coalesced, LiveKept;
      ghost var t, h := tiling, words[..];
      HeaderAt(t, h, base, freeList, a);
      if from >= 0 {
        FreeIsBlock(t, h, base, freeList, from);
        HeaderAt(t, h, base, freeList, from);
      }
      TakeEncodes(t, h, base, freeList, a, need, from);
      TakeLive(t, h, a, need, from, h[a + 1]);
      ServedTiles(t, |h|, a, need);
      IndexOfAddress(base, a);
      IndexOfAddress(base, from);
      var i := Index(base, block);
      if prev == 0 {
        freeList := words[i + 1];
      } else {
        words[Index(base, prev) + 1] := words[i + 1];
      }
      tiling := Served(t, a, need).0;
      return block + HEADER;
    }

    /** malloc: serves the request from the first free block that fits, and fails only when none does. */
    method Malloc(size: Word) returns (p: Word)
      requires Valid() && InRange(tiling, size)
      modifies this, words
      ensures Valid()
      ensures size == 0 || (forall a :: !Fits(old(tiling), Need(Rounded(size)), a)) ==>
                p == 0 && tiling == old(tiling) && words[..] == old(words[..])
      ensures size != 0 && (exists a :: Fits(old(tiling), Need(Rounded(size)), a)) ==>
                IsPayload(base, p) && ServedFirst(old(tiling), Need(Rounded(size)), tiling, Index(base, p - HEADER))
      ensures p == 0 <==> size == 0 || forall a :: !HasRoom(old(tiling), size, a)
      ensures p != 0 ==> HandsOut(old(tiling), tiling, base, size, p)
      ensures LiveKept(old(tiling), old(words[..]), tiling, words[..], -1)
    {
      hide BlockOk, Before, Tiles, Points, Headers, Links, Coalesced, LiveKept, CanSplit, CanTake, Encodes, Fits, Rounded;
      hide HasRoom, HandsOut, ServedFirst;
      ghost var t, h := tiling, words[..];
      LiveSame(t, h);
      forall a: nat { FitsIffRoom(t, size, a); }
      if size == 0 { return 0; }
      RoundedExact(size);
      var s := Rounded(size);
      ghost var need := Need(s);
      ghost var from: int := -1;
      var block: Word := freeList;
      var prev: Word := 0;
      StartPoints(t, h, base, freeList);
      while block != 0
        invariant Points(t.free, base, from, block)
        invariant if from < 0 then from == -1 && prev == 0 else from in t.free && prev == Address(base, from)
        invariant forall b: nat :: b <= from ==> !Fits(t, need, b)
        invariant Valid() && tiling == t && words[..] == h
        decreases words.Length - from
      {
        ghost var a := Visit(t, h, base, freeList, from, block);
        var i := Index(base, block);
        TestsHold(t, h, size, a, from);
        if CanSplit(words[i], s) {
          p := Split(block, s, a, need);
          ServedIsFirst(t, need, a, tiling, Index(base, p - HEADER));
          ServedInBytes(t, tiling, base, size, p);
          return;
        } else if CanTake(words[i], s) {
          p := TakeWhole(block, prev, a, need, from);
          ServedIsFirst(t, need, a, tiling, Index(base, p - HEADER));
          ServedInBytes(t, tiling, base, size, p);
          return;
        }
        NoFitAt(t, need, a);
        from := a;
        prev := block;
        block := words[i + 1];
      }
      NoFits(t, h, base, freeList, from, need);
      return 0;
    }

    /** free's insertion between the free blocks around the block. */
    method Insert(block: Word, prev: Word, cur: Word, ghost p: nat, ghost from: int)
      requires Valid() && p in tiling.size && p !in tiling.free && block == Address(base, p)
      requires if from < 0 then from == -1 && prev == 0 else from in tiling.free && prev == Address(base, from)
      requires from < p && Points(tiling.free, base, from, cur) && (cur == 0 || cur > block)
      modifies this`tiling, this`freeList, words
      ensures Sized() && Encodes(tiling, words[..], base, freeList)
      ensures tiling == Tiling(old(tiling).size, old(tiling).free + {p})
      ensures LiveKept(old(tiling), old(words[..]), tiling, words[..], p)
      ensures Points(tiling.free, base, p, cur)
    {
      hide BlockOk, Before, Tiles, Points, Headers, Links, Coalesced, LiveKept, Encodes;
      ghost var t, h := tiling, words[..];
      HeaderAt(t, h, base, freeList, p);
      if from >= 0 {
        FreeIsBlock(t, h, base, freeList, from);
        HeaderAt(t, h, base, freeList, from);
      }
      IndexOfAddress(base, p);
      IndexOfAddress(base, from);
      AfterBlock(t.free, base, from, cur, p);
      InsertEncodes(t, h, base, freeList, p, from, cur);
      InsertLive(t, h, p, from, block, cur);
      PointsInserted(t.free, base, p, from, cur);
      if prev == 0 {
        freeList := block;
      } else {
        words[Index(base, prev) + 1] := block;
      }
      words[Index(base, block) + 1] := cur;
      tiling := Tiling(t.size, t.free + {p});
    }

    /** free's merging of block `a` with the next free block `b`, which touches it. */
    method MergeNext(first: Word, second: Word, ghost a: nat, ghost b: nat)
      requires Sized() && Encodes(tiling, words[..], base, freeList)
      requires a in tiling.free && b in tiling.free && a in tiling.size && b == a + tiling.size[a]
      requires first == Address(base, a) && second == Address(base, b)
      modifies this`tiling, words
      ensures Sized() && Encodes(tiling, words[..], base, freeList)
      ensures tiling == Merge(old(tiling), a)
      ensures LiveKept(old(tiling), old(words[..]), tiling, words[..], -1)
      ensures a + 1 < words.Length && b + 1 < words.Length && words[a + 1] == old(words[b + 1])
    {
      hide BlockOk, Before, Points, Coalesced, LiveKept, Headers, Links, Tiles, Encodes;
      ghost var t, h := tiling, words[..];
      FreeIsBlock(t, h, base, freeList, b);
      HeaderAt(t, h, base, freeList, a);
      HeaderAt(t, h, base, freeList, b);
      MergeRoom(t, h, a, b);
      IndexOfAddress(base, a);
      IndexOfAddress(base, b);
      MergeEncodes(t, h, base, freeList, a, b, h[a := h[a] + h[b]][a + 1 := h[b + 1]]);
      MergeLive(t, h, a, b, h[a] + h[b], h[b + 1]);
      var i, j := Index(base, first), Index(base, second);
      words[i] := words[i] + words[j];
      words[i + 1] := words[j + 1];
      tiling := Merge(t, a);
    }

    /** free: the block joins the free list in address order, and the free blocks it touches. */
    method Free(ptr: Word)
      requires Valid()
      requires ptr != 0 ==> IsLive(tiling, base, ptr)
      modifies this, words
      ensures Valid()
      ensures ptr == 0 ==> tiling == old(tiling) && words[..] == old(words[..])
      ensures ptr != 0 ==>
                var p := Index(base, ptr - HEADER);
                && old(tiling).free <= old(tiling).size.Keys && tiling == Freed(old(tiling), p)
                && LiveKept(old(tiling), old(words[..]), tiling, words[..], p)
                && FreesExactly(old(tiling), tiling, p)
    {
      hide BlockOk, Before, Tiles, Points, Headers, Links, Coalesced, LiveKept, Encodes, Merge, MergeFree, Freed;
      hide FreesExactly;
      if ptr != 0 {
        ghost var t, h := tiling, words[..];
        ghost var p: nat := Index(base, ptr - HEADER);
        var block: Word := ptr - HEADER;
        var cur: Word := freeList;
        var prev: Word := 0;
        ghost var from: int := -1;
        StartPoints(t, h, base, freeList);
        HeaderAt(t, h, base, freeList, p);
        while cur <= block && cur != 0
          invariant Valid() && tiling == t && words[..] == h && from < p
          invariant Points(t.free, base, from, cur)
          invariant if from < 0 then from == -1 && prev == 0 else from in t.free && prev == Address(base, from)
          decreases words.Length - from
        {
          ghost var a := Visit(t, h, base, freeList, from, cur);
          prev := cur;
          cur := words[Index(base, cur) + 1];
          from := a;
        }
        Insert(block, prev, cur, p, from);
        var start := JoinPrevious(block, prev, cur, t, p, from);
        ghost var s: nat := Index(base, start);
        ghost var u, g := tiling, words[..];
        JoinNext(start, cur, s);
        FreedIs(t, h, base, freeList, p, from, cur);
        FreedTiles(t, |h|, p);
        FreedExactly(t, |h|, p);
        LiveTrans(t, h, u, g, tiling, words[..], p);
      }
    }

    /** A byte loaded through a pointer; beyond the heap it can be anything. */
    method LoadByte(ptr: Word, i: nat) returns (b: Byte)
      requires Sized() && IsPayload(base, ptr)
      ensures var x := Payload(Index(base, ptr - HEADER)) + i; x / 4 < words.Length ==> b == ByteAt(words[..], x)
    {
      var x := ptr - base + i;
      if x / 4 < words.Length { b := Lane(words[x / 4], x % 4); } else { b := *; }
    }

    /** A byte stored in the payload of a live block. */
    method StoreByte(ptr: Word, i: nat, b: Byte)
      requires Valid() && IsLive(tiling, base, ptr) && i < Room(tiling, Index(base, ptr - HEADER))
      modifies words
      ensures Valid()
      ensures var a := Index(base, ptr - HEADER);
              && (Payload(a) + i) / 4 < words.Length
              && words[..] == WithByte(old(words[..]), Payload(a) + i, b)
              && LiveKept(tiling, old(words[..]), tiling, words[..], a)
    {
      hide BlockOk, Before, Links, Headers, LiveKept;
      ghost var a: nat := Index(base, ptr - HEADER);
      var x := ptr - base + i;
      HeaderAt(tiling, words[..], base, freeList, a);
      StoreEncodes(tiling, words[..], base, freeList, a, x / 4, WithLane(words[x / 4], x % 4, b));
      StoreLive(tiling, words[..], a, x / 4, WithLane(words[x / 4], x % 4, b));
      words[x / 4] := WithLane(words[x / 4], x % 4, b);
    }

    /** realloc's copying loop: `size` bytes from one live block to another. */
    method Copy(target: Word, ptr: Word, size: nat)
      requires Valid() && IsLive(tiling, base, target) && IsLive(tiling, base, ptr) && target != ptr
      requires size <= Room(tiling, Index(base, target - HEADER))
      modifies words
      ensures Valid()
      ensures var a, p := Index(base, target - HEADER), Index(base, ptr - HEADER);
              && SamePrefix(old(words[..]), p, words[..], a, size, Room(tiling, p))
              && LiveKept(tiling, old(words[..]), tiling, words[..], a)
    {
      hide BlockOk, Before, Encodes, LiveKept, Coalesced, SameByte, ByteAt, WithByte;
      ghost var t, h := tiling, words[..];
      ghost var a: nat, p: nat := Index(base, target - HEADER), Index(base, ptr - HEADER);
      LiveAll(t, h, a);
      var i: nat := 0;
      while i < size
        invariant i <= size && Valid()
        invariant SamePrefix(h, p, words[..], a, i, Room(t, p))
        invariant LiveKept(t, h, t, words[..], a)
      {
        ghost var g := words[..];
        var b := LoadByte(ptr, i);
        StoreByte(target, i, b);
        if i < Room(t, p) { StillThere(t, h, g, base, freeList, a, p, i); }
        forall j: nat | j < i + 1 && j < Room(t, p) ensures SameByte(h, p, words[..], a, j) {
          StoredByte(h, p, g, a, i, b, j);
        }
        LiveVia(t, h, g, words[..], a);
        i := i + 1;
      }
    }

    /** realloc: a request is served before the old block is freed, and the bytes both have room for move along. */
    method Realloc(ptr: Word, size: Word) returns (q: Word)
      requires Valid() && InRange(tiling, size) && (ptr != 0 ==> IsLive(tiling, base, ptr))
      modifies this, words
      ensures Valid()
      ensures ptr == 0 ==> Allocates(old(tiling), tiling, base, size, q)
                           && LiveKept(old(tiling), old(words[..]), tiling, words[..], -1)
      ensures ptr != 0 && size == 0 ==>
                var p := Index(base, ptr - HEADER);
                && q == 0 && old(tiling).free <= old(tiling).size.Keys && tiling == Freed(old(tiling), p)
                && LiveKept(old(tiling), old(words[..]), tiling, words[..], p)
      ensures ptr != 0 && size != 0 && q == 0 ==>
                Allocates(old(tiling), tiling, base, size, 0) && words[..] == old(words[..])
      ensures ptr != 0 && size != 0 && q != 0 ==>
                var p := Index(base, ptr - HEADER);
                && Moves(old(tiling), tiling, base, size, p, q)
                && CopiedAlong(old(words[..]), ptr - base, words[..], q - base, size, 4 * old(tiling).size[p] - 4)
                && LiveKept(old(tiling), old(words[..]), tiling, words[..], p)
    {
      hide BlockOk, Before, Encodes, LiveKept, Coalesced, SameByte, ServedFirst, Freed, Rounded, Fits, Tiles, Headers, Links;
      hide CopiedAlong, FreesExactly, HandsOut, HasRoom;
      if ptr == 0 { q := Malloc(size); return; }
      if size == 0 { Free(ptr); return 0; }
      ghost var t, h := tiling, words[..];
      ghost var p: nat := Index(base, ptr - HEADER);
      HeaderAt(t, h, base, freeList, p);
      q := Malloc(size);
      if q != 0 {
        ghost var u, g := tiling, words[..];
        ghost var a := ServedBlock(t, |h|, u, base, size, q);
        KeptOne(t, h, u, g, p);
        HeaderAt(u, g, base, freeList, a);
        Copy(q, ptr, size);
        ghost var k := words[..];
        Free(ptr);
        forall i: nat | i < size && i < Room(t, p) ensures SameByte(h, p, words[..], a, i) {
          MovedByte(t, h, u, g, k, tiling, words[..], a, p, i);
        }
        MovedLive(t, h, u, g, k, tiling, words[..], a, p);
        PrefixIsCopied(h, p, words[..], a, base, ptr, q, size, Room(t, p));
      }
    }

    /** calloc: both multiplications wrap the same way, so the bytes asked for are all zeroed. */
    method Calloc(nmemb: Word, size: Word) returns (q: Word)
      requires Valid() && InRange(tiling, nmemb * size % WORDS)
      modifies this, words
      ensures Valid()
      ensures Allocates(old(tiling), tiling, base, nmemb * size % WORDS, q)
      ensures LiveKept(old(tiling), old(words[..]), tiling, words[..], -1)
      ensures q != 0 ==> ZeroPrefix(words[..], Index(base, q - HEADER), nmemb * size % WORDS)
    {
      hide BlockOk, Before, Encodes, LiveKept, Coalesced, ZeroByte, ServedFirst, Rounded, Fits, Tiles, Headers, Links, WithByte;
      ghost var t, h := tiling, words[..];
      var bytes: Word := nmemb * size % WORDS;
      HeapTiles(t, h, base, freeList);
      q := Malloc(bytes);
      if q != 0 {
        ghost var u, g := tiling, words[..];
        ghost var a := ServedBlock(t, |h|, u, base, bytes, q);
        LiveAll(u, g, a);
        var i: nat := 0;
        while i < bytes
          invariant i <= bytes && Valid() && tiling == u && LiveKept(u, g, u, words[..], a)
          invariant forall j: nat :: j < i ==> ZeroByte(words[..], a, j)
        {
          ghost var k := words[..];
          StoreByte(q, i, 0);
          forall j: nat | j < i + 1 ensures ZeroByte(words[..], a, j) { ZeroStored(k, a, i, j); }
          LiveVia(u, g, k, words[..], a);
          i := i + 1;
        }
        FilledLive(t, h, u, g, words[..], a);
      }
    }

    /** free's merge with the free block before, if it touches. */
    method JoinPrevious(block: Word, prev: Word, cur: Word, ghost t: Tiling, ghost p: nat, ghost from: int) returns (start: Word)
      requires Sized() && Encodes(tiling, words[..], base, freeList) && Points(tiling.free, base, p, cur)
      requires p in t.size && p !in t.free && block == Address(base, p) && tiling == Tiling(t.size, t.free + {p})
      requires if from < 0 then from == -1 && prev == 0 else from in t.free && from < p && prev == Address(base, from)
      modifies this`tiling, words
      ensures Sized() && Encodes(tiling, words[..], base, freeList)
      ensures var s := if from >= 0 && Touches(t, from, p) then from else p;
              && start == Address(base, s) && s in tiling.free && s in tiling.size && Points(tiling.free, base, s, cur)
              && (s == p ==> tiling == Tiling(t.size, t.free + {p}))
              && (s != p ==> s in t.size && tiling == Merge(Tiling(t.size, t.free + {p}), s))
      ensures forall h :: LiveKept(t, h, old(tiling), old(words[..]), p) ==> LiveKept(t, h, tiling, words[..], p)
    {
      hide BlockOk, Before, Tiles, Points, Headers, Links, Coalesced, LiveKept, Encodes, Merge, MergeFree, Freed;
      ghost var u, g := tiling, words[..];
      start := block;
      HeaderAt(u, g, base, freeList, p);
      IndexOfAddress(base, p);
      if prev != 0 {
        IndexOfAddress(base, from);
        FreeIsBlock(u, g, base, freeList, from);
        HeaderAt(u, g, base, freeList, from);
        if block - prev == words[Index(base, prev)] {
          LinkAt(u, g, base, freeList, p, cur);
          MergeNext(prev, block, from, p);
          start := prev;
          MergedStays(u, g, base, from);
          LinkOut(tiling, words[..], base, freeList, from);
          forall h | LiveKept(t, h, u, g, p) ensures LiveKept(t, h, tiling, words[..], p) {
            LiveTrans(t, h, u, g, tiling, words[..], p);
          }
        }
      }
    }

    /** free's merge with the free block after, if it touches. */
    method JoinNext(block: Word, cur: Word, ghost s: nat)
      requires Sized() && Encodes(tiling, words[..], base, freeList) && Points(tiling.free, base, s, cur)
      requires s in tiling.free && s in tiling.size && block == Address(base, s)
      modifies this`tiling, words
      ensures Sized() && Encodes(tiling, words[..], base, freeList)
      ensures tiling == MergeFree(old(tiling), s)
      ensures LiveKept(old(tiling), old(words[..]), tiling, words[..], -1)
    {
      hide BlockOk, Before, Tiles, Points, Headers, Links, Coalesced, LiveKept, Encodes, Merge;
      LiveSame(tiling, words[..]);
      HeaderAt(tiling, words[..], base, freeList, s);
      NextTest(tiling, words.Length, base, s, cur);
      IndexOfAddress(base, s);
      if cur != 0 && cur - block == words[Index(base, block)] {
        MergeNext(block, cur, s, Index(base, cur));
      }
    }
  }

  lemma LiveAll(t: Tiling, h: seq<Word>, a: nat)
    ensures LiveKept(t, h, t, h, a)
  {
  }

  lemma LiveVia(t: Tiling, h: seq<Word>, g: seq<Word>, k: seq<Word>, a: nat)
    requires LiveKept(t, h, t, g, a) && LiveKept(t, g, t, k, a)
    ensures LiveKept(t, h, t, k, a)
  {
    forall q | q in t.size && q !in t.free && q != a ensures Kept(t, h, t, k, q) {
      assert Kept(t, h, t, g, q) && Kept(t, g, t, k, q);
    }
  }

  /** The source of a copy is not overwritten. */
  lemma StillThere(t: Tiling, h: seq<Word>, g: seq<Word>, base: nat, first: int, a: nat, p: nat, i: nat)
    requires Encodes(t, h, base, first) && LiveKept(t, h, t, g, a)
    requires p in t.size && p !in t.free && p != a && i < Room(t, p)
    ensures (Payload(p) + i) / 4 < |h| == |g| && ByteAt(g, Payload(p) + i) == ByteAt(h, Payload(p) + i)
  {
    hide Lane;
    HeaderAt(t, h, base, first, p);
    assert Kept(t, h, t, g, p);
  }

  /** The block just served is live and large enough, and was not live before. */
  lemma ServedBlock(t: Tiling, n: nat, u: Tiling, base: nat, size: Word, q: int) returns (a: nat)
    requires Tiles(t, n) && Coalesced(t) && size != 0 && size <= WORDS - 4
    requires IsPayload(base, q) && ServedFirst(t, Need(Rounded(size)), u, Index(base, q - HEADER))
    ensures a == Index(base, q - HEADER) && IsLive(u, base, q) && size <= Room(u, a) && (a in t.size ==> a in t.free)
  {
    hide BlockOk, Before, Coalesced;
    RoundedExact(size);
    var need := Need(Rounded(size));
    var b :| FirstFit(t, need, b) && (u, Index(base, q - HEADER)) == Served(t, b, need);
    ServedTiles(t, n, b, need);
    a := Index(base, q - HEADER);
    if a != b { NoneInside(t, n, b, a); }
  }

  lemma KeptOne(t: Tiling, h: seq<Word>, u: Tiling, g: seq<Word>, p: nat)
    requires LiveKept(t, h, u, g, -1) && p in t.size && p !in t.free
    ensures Kept(t, h, u, g, p)
  {
  }

  lemma HeapTiles(t: Tiling, h: seq<Word>, base: nat, first: int)
    requires Encodes(t, h, base, first)
    ensures Tiles(t, |h|)
  {
  }

  lemma ZeroStored(h: seq<Word>, a: nat, i: nat, j: nat)
    requires (Payload(a) + i) / 4 < |h| && (ZeroByte(h, a, j) || j == i)
    ensures ZeroByte(WithByte(h, Payload(a) + i, 0), a, j)
  {
    hide ByteAt, WithByte;
    WithByteAt(h, Payload(a) + i, 0, Payload(a) + j);
  }

  /** Filling a block that was not live before keeps what was. */
  lemma FilledLive(t: Tiling, h: seq<Word>, u: Tiling, g: seq<Word>, k: seq<Word>, a: nat)
    requires LiveKept(t, h, u, g, -1) && LiveKept(u, g, u, k, a) && (a in t.size ==> a in t.free)
    ensures LiveKept(t, h, u, k, -1)
  {
    forall q | q in t.size && q !in t.free ensures Kept(t, h, u, k, q) {
      assert Kept(t, h, u, g, q) && Kept(u, g, u, k, q);
    }
  }

  lemma KeptByte(t: Tiling, h: seq<Word>, u: Tiling, g: seq<Word>, q: nat, i: nat)
    requires q in t.size && |g| == |h| && Kept(t, h, u, g, q) && q + t.size[q] <= |h| && i < Room(t, q)
    ensures SameByte(h, q, g, q, i)
  {
    hide Lane;
  }

  /** From malloc through the copy to the free of the old block, for a byte that moved along. */
  lemma MovedByte(t: Tiling, h: seq<Word>, u: Tiling, g: seq<Word>, k: seq<Word>, v: Tiling, l: seq<Word>,
                  a: nat, p: nat, i: nat)
    requires LiveKept(t, h, u, g, -1) && LiveKept(u, k, v, l, p) && |k| == |g|
    requires a != p && p in t.size && p !in t.free && a in u.size && a !in u.free
    requires p + t.size[p] <= |h| && a + u.size[a] <= |k| && i < Room(t, p) && i < Room(u, a)
    requires SameByte(g, p, k, a, i)
    ensures SameByte(h, p, l, a, i)
  {
    hide Kept, ByteAt;
    assert Kept(t, h, u, g, p) && Kept(u, k, v, l, a);
    KeptByte(t, h, u, g, p, i);
    KeptByte(u, k, v, l, a, i);
  }

  /** And for the other live blocks. */
  lemma MovedLive(t: Tiling, h: seq<Word>, u: Tiling, g: seq<Word>, k: seq<Word>, v: Tiling, l: seq<Word>, a: nat, p: nat)
    requires LiveKept(t, h, u, g, -1) && LiveKept(u, g, u, k, a) && LiveKept(u, k, v, l, p)
    requires a in t.size ==> a in t.free
    ensures LiveKept(t, h, v, l, p)
  {
    forall q | q in t.size && q !in t.free && q != p ensures Kept(t, h, v, l, q) {
      assert Kept(t, h, u, g, q) && Kept(u, g, u, k, q) && Kept(u, k, v, l, q);
    }
  }

  /** What stands at the second word of a free block. */
  lemma LinkOut(t: Tiling, h: seq<Word>, base: nat, first: int, a: nat)
    requires Encodes(t, h, base, first) && a in t.free
    ensures a + 1 < |h| && Points(t.free, base, a, h[a + 1])
  {
  }

  lemma LinkAt(t: Tiling, h: seq<Word>, base: nat, first: int, a: nat, p: int)
    requires Encodes(t, h, base, first) && a in t.free && Points(t.free, base, a, p) && base > 0
    ensures a + 1 < |h| && h[a + 1] == p
  {
  }

  lemma MergedStays(t: Tiling, h: seq<Word>, base: nat, a: nat)
    requires a in t.size && a in t.free && t.size[a] > 0
    ensures a in Merge(t, a).size && a in Merge(t, a).free
  {
  }

  /** The next free block touches exactly when the address difference is the block's size. */
  lemma NextTest(t: Tiling, n: nat, base: nat, s: nat, cur: int)
    requires Tiles(t, n) && base > 0 && s in t.free && s in t.size && Points(t.free, base, s, cur)
    ensures s + t.size[s] in t.free <==> cur != 0 && cur - Address(base, s) == 4 * t.size[s]
    ensures cur != 0 ==> cur == Address(base, Index(base, cur)) && Index(base, cur) >= 0
  {
    hide BlockOk, Before;
    if s + t.size[s] in t.free { NextIsNeighbour(t, n, base, s, cur); BlockRange(t, n, s); }
  }

  /** Freed, in terms of the free block the walk stopped at. */
  lemma FreedIs(t: Tiling, h: seq<Word>, base: nat, first: int, p: nat, from: int, cur: int)
    requires Tiles(t, |h|) && p in t.size && p !in t.free
    requires from < 0 || (from in t.free && from < p)
    requires Points(t.free, base, from, cur) && (cur == 0 || cur > Address(base, p))
    ensures t.free <= t.size.Keys
    ensures var u := Tiling(t.size, t.free + {p});
            if from >= 0 && Touches(t, from, p)
            then from in Merge(u, from).size && Freed(t, p) == MergeFree(Merge(u, from), from)
            else Freed(t, p) == MergeFree(u, p)
  {
    hide BlockOk, Before, MergeFree;
    AfterBlock(t.free, base, from, cur, p);
    if from >= 0 { Apart(t, |h|, from, p); }
    forall a: nat | Touches(t, a, p) ensures a == from {
      BlockRange(t, |h|, a);
      assert a <= from;
      if a != from { Apart(t, |h|, a, from); }
    }
    if from >= 0 && Touches(t, from, p) { BlockRange(t, |h|, from); }
  }

  lemma LiveTrans(t: Tiling, h: seq<Word>, u: Tiling, g: seq<Word>, v: Tiling, k: seq<Word>, p: int)
    requires LiveKept(t, h, u, g, p) && LiveKept(u, g, v, k, -1)
    ensures LiveKept(t, h, v, k, p)
  {
    forall q | q in t.size && q !in t.free && q != p ensures Kept(t, h, v, k, q) {
      assert Kept(t, h, u, g, q) && Kept(u, g, v, k, q);
    }
  }

  /** The next free block after `from` lies beyond `p`. */
  lemma AfterBlock(free: set<nat>, base: nat, from: int, cur: int, p: nat)
    requires Points(free, base, from, cur) && (cur == 0 || cur > Address(base, p))
    ensures cur == 0 || Index(base, cur) > p
  {
  }

  lemma InsertLive(t: Tiling, h: seq<Word>, p: nat, from: int, block: Word, next: Word)
    requires Tiles(t, |h|) && p in t.size && p !in t.free && (from < 0 || (from in t.free && from in t.size && from < p))
    ensures p + 1 < |h| && (from >= 0 ==> from + 1 < |h|)
    ensures var g := if from < 0 then h[p + 1 := next] else h[from + 1 := block][p + 1 := next];
            LiveKept(t, h, Tiling(t.size, t.free + {p}), g, p)
  {
    hide BlockOk, Before;
    BlockRange(t, |h|, p);
    if from >= 0 { BlockRange(t, |h|, from); }
    var g := if from < 0 then h[p + 1 := next] else h[from + 1 := block][p + 1 := next];
    forall q | q in t.size && q !in t.free && q != p ensures Kept(t, h, Tiling(t.size, t.free + {p}), g, q) {
      Apart(t, |h|, p, q);
      if from >= 0 { Apart(t, |h|, from, q); }
    }
  }

  lemma MergeLive(t: Tiling, h: seq<Word>, a: nat, b: nat, size: Word, next: Word)
    requires Tiles(t, |h|) && a in t.size && a in t.free && b == a + t.size[a] && b in t.size && b in t.free
    ensures a + 1 < |h| && LiveKept(t, h, Merge(t, a), h[a := size][a + 1 := next], -1)
  {
    hide BlockOk, Before;
    BlockRange(t, |h|, a);
    forall q | q in t.size && q !in t.free ensures Kept(t, h, Merge(t, a), h[a := size][a + 1 := next], q) {
      Apart(t, |h|, a, q);
    }
  }

  /** The tiling `u` and block `p` come from serving the first block of `t` that fits. */
  ghost predicate ServedFirst(t: Tiling, need: nat, u: Tiling, p: int) {
    exists a :: FirstFit(t, need, a) && (u, p) == Served(t, a, need)
  }

  lemma ServedIsFirst(t: Tiling, need: nat, a: nat, u: Tiling, p: int)
    requires a in t.free && a in t.size && t.size[a] >= need && (u, p) == Served(t, a, need)
    requires forall b: nat :: b < a ==> !Fits(t, need, b)
    ensures ServedFirst(t, need, u, p) && exists b :: Fits(t, need, b)
  {
    assert FirstFit(t, need, a);
  }

  lemma NoFitAt(t: Tiling, need: nat, a: nat)
    requires a in t.size && t.size[a] < need
    ensures !Fits(t, need, a)
  {
  }

  lemma NoFits(t: Tiling, h: seq<Word>, base: nat, first: int, from: int, need: nat)
    requires Points(t.free, base, from, 0) && forall b: nat :: b <= from ==> !Fits(t, need, b)
    ensures forall b :: !Fits(t, need, b)
  {
  }

  lemma FreeIsBlock(t: Tiling, h: seq<Word>, base: nat, first: int, a: nat)
    requires Encodes(t, h, base, first) && a in t.free
    ensures a in t.size
  {
    hide BlockOk, Before;
  }

  lemma HeaderAt(t: Tiling, h: seq<Word>, base: nat, first: int, a: nat)
    requires Encodes(t, h, base, first) && a in t.size
    ensures a + 1 < |h| && h[a] == 4 * t.size[a] && t.size[a] >= 2 && a + t.size[a] <= |h|
    ensures Tiles(t, |h|) && Headers(t, h) && Links(t, h, base, first)
  {
    hide BlockOk, Before;
    BlockRange(t, |h|, a);
  }

  lemma SplitLive(t: Tiling, h: seq<Word>, a: nat, need: nat)
    requires Tiles(t, |h|) && Coalesced(t) && a in t.free && a in t.size && t.size[a] >= need + 3 && need >= 3
    requires 4 * |h| < HALF
    ensures var rest := t.size[a] - need;
            && a < |h| && a + rest < |h|
            && LiveKept(t, h, Served(t, a, need).0, h[a := 4 * rest][a + rest := 4 * need], -1)
  {
    hide BlockOk, Before;
    var (u, p) := Served(t, a, need);
    BlockRange(t, |h|, a);
    NoneInside(t, |h|, a, p);
    var g := h[a := 4 * (t.size[a] - need)][p := 4 * need];
    forall q | q in t.size && q !in t.free ensures Kept(t, h, u, g, q) {
      Apart(t, |h|, a, q);
    }
  }

  lemma TakeLive(t: Tiling, h: seq<Word>, a: nat, need: nat, from: int, next: Word)
    requires Tiles(t, |h|) && a in t.free && a in t.size && need <= t.size[a] < need + 3
    requires from < 0 || (from in t.free && from in t.size)
    ensures from >= 0 ==> from + 1 < |h|
    ensures var g := if from < 0 then h else h[from + 1 := next];
            LiveKept(t, h, Served(t, a, need).0, g, -1)
  {
    hide BlockOk, Before;
    if from >= 0 { BlockRange(t, |h|, from); }
    var g := if from < 0 then h else h[from + 1 := next];
    forall q | q in t.size && q !in t.free ensures Kept(t, h, Served(t, a, need).0, g, q) {
      if from >= 0 { Apart(t, |h|, from, q); }
    }
  }

  lemma WholeHeap(h: seq<Word>, base: nat)
    requires base > 0 && 2 <= |h| && 4 * |h| < HALF && Address(base, |h|) < WORDS && h[0] == 4 * |h| && h[1] == 0
    ensures var t := Tiling(map[0 := |h|], {0}); Encodes(t, h, base, base) && Coalesced(t)
  {
    IndexOfAddress(base, 0);
  }

  lemma LiveSame(t: Tiling, h: seq<Word>)
    ensures LiveKept(t, h, t, h, -1)
  {
  }

  lemma StartPoints(t: Tiling, h: seq<Word>, base: nat, first: int)
    requires Encodes(t, h, base, first)
    ensures Points(t.free, base, -1, first)
  {
  }

  /** The free block a walk has arrived at. */
  lemma Visit(t: Tiling, h: seq<Word>, base: nat, first: int, from: int, p: int) returns (a: nat)
    requires Encodes(t, h, base, first) && Points(t.free, base, from, p) && p != 0
    ensures a == Index(base, p) && p == Address(base, a) && a > from && a in t.free && a in t.size
    ensures forall b :: b in t.free ==> b <= from || b >= a
    ensures a + 1 < |h| && a + t.size[a] <= |h| && t.size[a] >= 2 && h[a] == 4 * t.size[a] && Points(t.free, base, a, h[a + 1])
  {
    hide BlockOk, Before;
    a := Index(base, p);
    BlockRange(t, |h|, a);
  }

  lemma TestsHold(t: Tiling, h: seq<Word>, size: Word, a: nat, from: int)
    requires InRange(t, size) && size != 0 && a in t.free && a in t.size && a < |h| && h[a] == 4 * t.size[a]
    requires 2 <= t.size[a] && 4 * t.size[a] < HALF
    requires forall b :: b in t.free ==> b <= from || b >= a
    requires forall b: nat :: b <= from ==> !Fits(t, Need(Rounded(size)), b)
    ensures var need := Need(Rounded(size));
            && need >= 3 && Rounded(size) + HEADER == 4 * need
            && (CanSplit(h[a], Rounded(size)) <==> t.size[a] >= need + 3)
            && (CanSplit(h[a], Rounded(size)) || CanTake(h[a], Rounded(size)) <==> t.size[a] >= need)
            && forall b: nat :: b < a ==> !Fits(t, need, b)
  {
    hide CanSplit, CanTake;
    RoundedExact(size);
    TestsExactIff(h[a], Rounded(size));
  }

  // ----- what a tiling says about the memory -----

  /** The tiling fixes the free list: two heaps with the same tiling have the same list, headers and links. */
  lemma SameFreeList(t: Tiling, h: seq<Word>, g: seq<Word>, base: nat, first: int, other: int)
    requires Encodes(t, h, base, first) && Encodes(t, g, base, other) && base > 0
    ensures first == other
    ensures forall a :: a in t.free ==> a + 1 < |h| && a + 1 < |g| && h[a] == g[a] && h[a + 1] == g[a + 1]
  {
    hide BlockOk, Before;
    PointsUnique(t.free, base, -1, first, other);
    forall a | a in t.free ensures a + 1 < |h| && a + 1 < |g| && h[a] == g[a] && h[a + 1] == g[a + 1] {
      PointsUnique(t.free, base, a, h[a + 1], g[a + 1]);
    }
  }

  lemma PointsUnique(free: set<nat>, base: nat, from: int, p: int, q: int)
    requires Points(free, base, from, p) && Points(free, base, from, q) && base > 0
    ensures p == q
  {
  }

  /** Free and live blocks tile the heap: every word lies in exactly one block. */
  lemma {:induction false} EveryWordOnce(t: Tiling, n: nat, x: nat, from: nat) returns (a: nat)
    requires Tiles(t, n) && from in t.size && from <= x < n
    ensures a in t.size && a <= x < a + t.size[a]
    ensures forall b :: b in t.size && b <= x < b + t.size[b] ==> b == a
    decreases n - from
  {
    hide BlockOk, Before;
    BlockRange(t, n, from);
    if x < from + t.size[from] {
      a := from;
      forall b | b in t.size && b <= x < b + t.size[b] ensures b == a {
        if b != a { Apart(t, n, a, b); }
      }
    } else {
      NextStarts(t, n, from);
      a := EveryWordOnce(t, n, x, from + t.size[from]);
    }
  }

  lemma NextStarts(t: Tiling, n: nat, a: nat)
    requires Tiles(t, n) && a in t.size && a + t.size[a] < n
    ensures a + t.size[a] in t.size
  {
    hide Before;
    assert BlockOk(t, n, a);
  }
}
