/** Allocation bitmaps (lib/bitmap.c): bits packed into 32-bit words, bit 0 lowest. */
module Bitmap {
  import opened Words

  // ----- bits of one word -----

  /** `w >> j`, one place at a time. */
  function Shr(w: Word, j: nat): Word
    decreases j
  {
    if j == 0 then w else Shr(w / 2, j - 1)
  }

  /** `1 << j` */
  function Mask(j: nat): nat {
    if j == 0 then 1 else 2 * Mask(j - 1)
  }

  function WordBit(w: Word, j: nat): bool {
    Shr(w, j) % 2 == 1
  }

  /** `w | (1 << j)` when `on`, else `w & ~(1 << j)`: a bit-or adds the mask exactly when the bit is clear. */
  function WithWordBit(w: Word, j: nat, on: bool): (r: int) {
    if WordBit(w, j) == on then w
    else if on then w + Mask(j)
    else w - Mask(j)
  }

  /** Changing bit `j` of an `n`-bit number changes that bit alone and stays in `n` bits. */
  lemma {:induction false} WordBitAfter(w: Word, j: nat, on: bool, k: nat, n: nat)
    requires j < n && w < Mask(n)
    ensures 0 <= WithWordBit(w, j, on) < Mask(n)
    ensures WithWordBit(w, j, on) < WORDS ==>
              WordBit(WithWordBit(w, j, on), k) == if j == k then on else WordBit(w, k)
    decreases j
  {
    if j == 0 {
      assert WordBit(w, 0) == (w % 2 == 1);
      if k > 0 { assert WithWordBit(w, 0, on) / 2 == w / 2; }
    } else {
      var h := WithWordBit(w / 2, j - 1, on);
      WordBitAfter(w / 2, j - 1, on, if k == 0 then 0 else k - 1, n - 1);
      assert WithWordBit(w, j, on) == 2 * h + w % 2;
    }
  }

  lemma MaskWords()
    ensures Mask(32) == WORDS
  {
    assert Mask(8) == 0x100;
    assert Mask(16) == 0x1_0000;
    assert Mask(24) == 0x100_0000;
  }

  lemma {:induction false} OnesAreSet(w: Word, n: nat, j: nat)
    requires w == Mask(n) - 1 && j < n
    ensures WordBit(w, j)
    decreases n
  {
    var half := Mask(n - 1);
    assert w == 2 * (half - 1) + 1;
    assert w / 2 == half - 1 && w % 2 == 1;
    if j > 0 { OnesAreSet(half - 1, n - 1, j - 1); }
  }

  lemma {:induction false} SameBits(v: Word, w: Word, n: nat)
    requires v < Mask(n) && w < Mask(n)
    requires forall j :: 0 <= j < n ==> WordBit(v, j) == WordBit(w, j)
    ensures v == w
    decreases n
  {
    if n > 0 {
      assert WordBit(v, 0) == WordBit(w, 0);
      forall j | 0 <= j < n - 1 ensures WordBit(v / 2, j) == WordBit(w / 2, j) {
        assert WordBit(v, j + 1) == WordBit(w, j + 1);
      }
      SameBits(v / 2, w / 2, n - 1);
    }
  }

  // ----- bitmaps -----

  /** Byte strings that hold a whole number of words. */
  predicate IsBitmap(b: Bytes) { |b| % 4 == 0 }

  function Bit(b: Bytes, p: nat): bool
    requires IsBitmap(b) && p < 8 * |b|
  {
    WordBit(GetWord(b, p / 32), p % 32)
  }

  function BitSet(b: Bytes, p: nat, on: bool): (r: Bytes)
    requires IsBitmap(b) && p < 8 * |b|
    ensures |r| == |b|
  {
    MaskWords();
    WordBitAfter(GetWord(b, p / 32), p % 32, on, 0, 32);
    SetWord(b, p / 32, WithWordBit(GetWord(b, p / 32), p % 32, on))
  }

  lemma {:induction false} ShrAgain(w: Word, j: nat, k: nat)
    ensures Shr(Shr(w, j), k) == Shr(w, j + k)
    decreases j
  {
    if j > 0 { ShrAgain(w / 2, j - 1, k); }
  }

  lemma ShrByte(w: Word)
    ensures Shr(w, 8) == w / 0x100
  {
    assert Shr(w, 8) == Shr(w / 2 / 2, 6) == Shr(w / 2 / 2 / 2 / 2, 4) == Shr(w / 2 / 2 / 2 / 2 / 2 / 2, 2);
  }

  const POWERS := [1, 2, 4, 8, 16, 32, 64, 128]

  lemma ShrSmall(w: Word, r: nat)
    requires r < 8
    ensures Shr(w, r) == w / POWERS[r]
  {
    var q := w / 2 / 2 / 2;
    assert Shr(w, 3) == q && q == w / 8;
    assert Shr(q, 3) == q / 2 / 2 / 2 && q / 2 / 2 / 2 == w / 64;
    if r >= 3 { ShrAgain(w, 3, r - 3); }
    if r >= 6 { ShrAgain(q, 3, r - 6); }
  }

  lemma {:induction false} HighDropped(w: Word, high: nat, low: Word, m: nat, r: nat)
    requires r < m && w == Mask(m) * high + low
    ensures WordBit(w, r) == WordBit(low, r)
    decreases r
  {
    var half := Mask(m - 1) * high;
    assert w == 2 * half + low;
    if r > 0 {
      assert w / 2 == half + low / 2;
      HighDropped(w / 2, high, low / 2, m - 1, r - 1);
    }
  }

  /** A bit of the lowest byte of a word. */
  lemma LowBit(w: Word, high: nat, low: Byte, r: nat)
    requires w == 0x100 * high + low && r < 8
    ensures WordBit(w, r) <==> low / POWERS[r] % 2 == 1
  {
    hide Shr;
    assert Mask(8) == 0x100;
    HighDropped(w, high, low, 8, r);
    ShrSmall(low, r);
  }

  lemma BitOfWord(w: Word, b0: Byte, b1: Byte, b2: Byte, b3: Byte, j: nat)
    requires w == ((b0 as int * 0x100 + b1) * 0x100 + b2) * 0x100 + b3 && j < 32
    ensures WordBit(w, j) <==> [b3, b2, b1, b0][j / 8] / POWERS[j % 8] % 2 == 1
  {
    hide WordBit;
    var w2 := b0 as int * 0x100 + b1;
    var w1 := w2 * 0x100 + b2;
    if j < 8 {
      LowBit(w, w1, b3, j);
    } else {
      BitOfByte(w, w1, j);
      if j < 16 {
        LowBit(w1, w2, b2, j - 8);
      } else {
        BitOfByte(w1, w2, j - 8);
        if j < 24 {
          LowBit(w2, b0, b1, j - 16);
        } else {
          BitOfByte(w2, b0, j - 16);
          LowBit(b0, 0, b0, j - 24);
        }
      }
    }
  }

  /** Where bit `p` is: byte `p % 32 / 8` from the end of word `p / 32`. */
  lemma BytePlace(b: Bytes, p: nat)
    requires IsBitmap(b) && p < 8 * |b|
    ensures var i, j := p / 32, p % 32;
            && 0 <= 4 * i + 3 - j / 8 < |b| && 4 * i + 4 <= |b| && j % 8 == p % 8
            && b[4 * i + 3 - j / 8] == [b[4 * i + 3], b[4 * i + 2], b[4 * i + 1], b[4 * i]][j / 8]
  {
    var j := p % 32;
    assert j / 8 == 0 || j / 8 == 1 || j / 8 == 2 || j / 8 == 3;
  }

  /** Bit `p` in memory: words of 32 bits with the most significant byte first, bit 0 the lowest of a word. */
  lemma BitInByte(b: Bytes, p: nat)
    requires IsBitmap(b) && p < 8 * |b|
    ensures 0 <= 4 * (p / 32) + 3 - p % 32 / 8 < |b|
    ensures Bit(b, p) <==> b[4 * (p / 32) + 3 - p % 32 / 8] / [1, 2, 4, 8, 16, 32, 64, 128][p % 8] % 2 == 1
  {
    hide WordBit;
    BytePlace(b, p);
    var i := p / 32;
    BitOfWord(GetWord(b, i), b[4 * i], b[4 * i + 1], b[4 * i + 2], b[4 * i + 3], p % 32);
  }

  lemma BitOfByte(w: Word, high: Word, j: int)
    requires w / 0x100 == high
    ensures j >= 8 ==> (WordBit(w, j) <==> WordBit(high, j - 8))
  {
    if j >= 8 {
      ShrByte(w);
      ShrAgain(w, 8, j - 8);
    }
  }

  lemma BitSetAt(b: Bytes, p: nat, on: bool, q: nat)
    requires IsBitmap(b) && p < 8 * |b| && q < 8 * |b|
    ensures Bit(BitSet(b, p, on), q) == if q == p then on else Bit(b, q)
  {
    hide WordBit, WithWordBit, GetWord, SetWord, Mask;
    assert p == 32 * (p / 32) + p % 32 && q == 32 * (q / 32) + q % 32;
    var w := GetWord(b, p / 32);
    MaskWords();
    WordBitAfter(w, p % 32, on, q % 32, 32);
    GetSetWord(b, p / 32, WithWordBit(w, p % 32, on), q / 32);
  }

  lemma BitSetEffect(b: Bytes, p: nat, on: bool)
    requires IsBitmap(b) && p < 8 * |b|
    ensures forall q: nat :: q < 8 * |b| ==> Bit(BitSet(b, p, on), q) == if q == p then on else Bit(b, q)
  {
    forall q: nat | q < 8 * |b| { BitSetAt(b, p, on, q); }
  }

  /** Bitmaps with the same bits are the same bytes. */
  lemma BitsDetermine(a: Bytes, b: Bytes)
    requires IsBitmap(a) && |a| == |b|
    requires forall p: nat :: p < 8 * |a| ==> Bit(a, p) == Bit(b, p)
    ensures a == b
  {
    hide GetWord, Mask, WordBit;
    forall i: nat | 4 * i + 4 <= |a| ensures GetWord(a, i) == GetWord(b, i) {
      forall j | 0 <= j < 32 ensures WordBit(GetWord(a, i), j) == WordBit(GetWord(b, i), j) {
        assert Bit(a, 32 * i + j) == Bit(b, 32 * i + j);
      }
      MaskWords();
      SameBits(GetWord(a, i), GetWord(b, i), 32);
    }
    SameWords(a, b);
  }

  /** The lowest clear bit in `from..l`, or -1. */
  function FirstClear(b: Bytes, l: nat, from: nat): (r: int)
    requires IsBitmap(b) && from <= l <= 8 * |b|
    ensures r == -1 || from <= r < l
    ensures r >= 0 ==> !Bit(b, r)
    ensures forall p :: from <= p < (if r < 0 then l else r) ==> Bit(b, p)
    decreases l - from
  {
    if from == l then -1
    else if !Bit(b, from) then from
    else FirstClear(b, l, from + 1)
  }

  /** FirstClear is the only number with its properties. */
  lemma {:induction false} FirstClearUnique(b: Bytes, l: nat, from: nat, r: int)
    requires IsBitmap(b) && from <= l <= 8 * |b|
    requires r == -1 || from <= r < l
    requires r >= 0 ==> !Bit(b, r)
    requires forall p :: from <= p < (if r < 0 then l else r) ==> Bit(b, p)
    ensures FirstClear(b, l, from) == r
    decreases l - from
  {
    if from < l && Bit(b, from) {
      FirstClearUnique(b, l, from + 1, r);
    }
  }

  ghost predicate AllSet(b: Bytes, n: nat)
    requires IsBitmap(b) && n <= 8 * |b|
  {
    forall p :: 0 <= p < n ==> Bit(b, p)
  }

  lemma NoneSet(b: Bytes)
    requires IsBitmap(b)
    ensures AllSet(b, 0)
  {
  }

  lemma AllSetGrows(b: Bytes, n: nat)
    requires IsBitmap(b) && n < 8 * |b| && AllSet(b, n) && Bit(b, n)
    ensures AllSet(b, n + 1)
  {
  }

  lemma AllSetSkipsWord(b: Bytes, i: nat)
    requires IsBitmap(b) && 4 * i + 4 <= |b|
    requires AllSet(b, 32 * i) && GetWord(b, i) == 0xffff_ffff
    ensures AllSet(b, 32 * (i + 1))
  {
    hide GetWord, Mask, WordBit;
    MaskWords();
    forall p | 32 * i <= p < 32 * i + 32 ensures Bit(b, p) {
      OnesAreSet(GetWord(b, i), 32, p - 32 * i);
    }
  }

  lemma AllSetMeansFull(b: Bytes, l: nat, n: nat)
    requires IsBitmap(b) && l <= n <= 8 * |b| && AllSet(b, n)
    ensures FirstClear(b, l, 0) == -1
  {
    FirstClearUnique(b, l, 0, -1);
  }

  lemma AllSetThenClear(b: Bytes, l: nat, n: nat)
    requires IsBitmap(b) && n < l <= 8 * |b| && AllSet(b, n) && !Bit(b, n)
    ensures FirstClear(b, l, 0) == n
  {
    FirstClearUnique(b, l, 0, n);
  }

  // ----- the C routines, on a buffer -----

  method BitmapGet(bitmap: array<Byte>, pos: nat) returns (r: int)
    requires IsBitmap(bitmap[..]) && pos < 8 * bitmap.Length
    ensures r == if Bit(bitmap[..], pos) then 1 else 0
  {
    var i, j := pos / 32, pos % 32;
    r := Shr(GetWord(bitmap[..], i), j) % 2;
  }

  /** Stores word `i` of a buffer. */
  method StoreWord(buffer: array<Byte>, i: nat, w: Word)
    requires 4 * i + 4 <= buffer.Length
    modifies buffer
    ensures buffer[..] == SetWord(old(buffer[..]), i, w)
  {
    buffer[4 * i] := Lane(w, 0);
    buffer[4 * i + 1] := Lane(w, 1);
    buffer[4 * i + 2] := Lane(w, 2);
    buffer[4 * i + 3] := Lane(w, 3);
  }

  method BitmapSet(bitmap: array<Byte>, pos: nat, value: bool)
    requires IsBitmap(bitmap[..]) && pos < 8 * bitmap.Length
    modifies bitmap
    ensures bitmap[..] == BitSet(old(bitmap[..]), pos, value)
  {
    var i, j := pos / 32, pos % 32;
    var w := GetWord(bitmap[..], i);
    MaskWords();
    WordBitAfter(w, j, value, 0, 32);
    StoreWord(bitmap, i, WithWordBit(w, j, value));
  }

  /** Finds the first zero bit below `l` and sets it; -1 when there is none. Whole words of ones are skipped. */
  method BitmapFindNSet(bitmap: array<Byte>, l: nat) returns (r: int)
    requires IsBitmap(bitmap[..]) && l <= 8 * bitmap.Length
    modifies bitmap
    ensures r == FirstClear(old(bitmap[..]), l, 0)
    ensures bitmap[..] == if r < 0 then old(bitmap[..]) else BitSet(old(bitmap[..]), r, true)
  {
    hide Bit, BitSet, FirstClear, AllSet;
    ghost var b := bitmap[..];
    NoneSet(b);
    var i := 0;
    while i < (l + 31) / 32
      invariant 0 <= i <= (l + 31) / 32
      invariant bitmap[..] == b && AllSet(b, 32 * i)
    {
      if GetWord(bitmap[..], i) != 0xffff_ffff {
        var basepos := i * 32;
        var j := 0;
        while j < 32
          invariant 0 <= j <= 32
          invariant bitmap[..] == b && AllSet(b, basepos + j)
        {
          var bit := BitmapGet(bitmap, basepos + j);
          if bit == 0 {
            if basepos + j >= l {
              AllSetMeansFull(b, l, basepos + j);
              return -1;
            }
            AllSetThenClear(b, l, basepos + j);
            BitmapSet(bitmap, basepos + j, true);
            return basepos + j;
          }
          AllSetGrows(b, basepos + j);
          j := j + 1;
        }
      } else {
        AllSetSkipsWord(b, i);
      }
      i := i + 1;
    }
    AllSetMeansFull(b, l, 32 * i);
    return -1;
  }
}
