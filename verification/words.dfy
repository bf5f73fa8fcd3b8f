/** Bytes, 32-bit words and their big-endian layout in byte strings.

    The modelled build is the big-endian MIPS one, where `from_big_endian32` and
    `to_big_endian32` are the identity: a word read from memory is built from four
    consecutive bytes, the first one most significant.
 */
module Words {

  const WORDS := 0x1_0000_0000

  type Byte = x: int | 0 <= x < 0x100
  type Word = x: int | 0 <= x < WORDS
  type Bytes = seq<Byte>

  function Join(b0: Byte, b1: Byte, b2: Byte, b3: Byte): Word {
    ((b0 * 0x100 + b1) * 0x100 + b2) * 0x100 + b3
  }

  /** Byte `k` of a word, counted from the most significant one. */
  function Lane(w: Word, k: nat): Byte
    requires k < 4
  {
    match k
    case 0 => w / 0x100 / 0x100 / 0x100
    case 1 => w / 0x100 / 0x100 % 0x100
    case 2 => w / 0x100 % 0x100
    case _ => w % 0x100
  }

  lemma JoinLanes(w: Word)
    ensures Join(Lane(w, 0), Lane(w, 1), Lane(w, 2), Lane(w, 3)) == w
  {
  }

  lemma LanesOfJoin(b0: Byte, b1: Byte, b2: Byte, b3: Byte)
    ensures var w := Join(b0, b1, b2, b3);
            Lane(w, 0) == b0 && Lane(w, 1) == b1 && Lane(w, 2) == b2 && Lane(w, 3) == b3
  {
    var h := b0 * 0x100 + b1;
    var w := Join(b0, b1, b2, b3);
    assert w / 0x100 == h * 0x100 + b2;
    assert w / 0x100 / 0x100 == h;
  }

  function GetWord(b: Bytes, i: nat): Word
    requires 4 * i + 4 <= |b|
  {
    Join(b[4 * i], b[4 * i + 1], b[4 * i + 2], b[4 * i + 3])
  }

  /** The four bytes of a word, the first one most significant. */
  lemma WordInBytes(b: Bytes, i: nat)
    requires 4 * i + 4 <= |b|
    ensures var b0: int, b1: int, b2: int, b3: int := b[4 * i], b[4 * i + 1], b[4 * i + 2], b[4 * i + 3];
            GetWord(b, i) == 0x100_0000 * b0 + 0x1_0000 * b1 + 0x100 * b2 + b3
  {
  }

  function SetWord(b: Bytes, i: nat, w: Word): (r: Bytes)
    requires 4 * i + 4 <= |b|
    ensures |r| == |b|
    ensures GetWord(r, i) == w
    ensures forall x :: 0 <= x < |b| && (x < 4 * i || x >= 4 * i + 4) ==> r[x] == b[x]
  {
    JoinLanes(w);
    b[..4 * i] + [Lane(w, 0), Lane(w, 1), Lane(w, 2), Lane(w, 3)] + b[4 * i + 4..]
  }

  lemma GetSetWord(b: Bytes, i: nat, w: Word, j: nat)
    requires 4 * i + 4 <= |b| && 4 * j + 4 <= |b|
    ensures GetWord(SetWord(b, i, w), j) == if i == j then w else GetWord(b, j)
  {
  }

  lemma SameLanes(a: Bytes, b: Bytes, i: nat)
    requires 4 * i + 4 <= |a| == |b| && GetWord(a, i) == GetWord(b, i)
    ensures forall x :: 4 * i <= x < 4 * i + 4 ==> a[x] == b[x]
  {
    LanesOfJoin(a[4 * i], a[4 * i + 1], a[4 * i + 2], a[4 * i + 3]);
    LanesOfJoin(b[4 * i], b[4 * i + 1], b[4 * i + 2], b[4 * i + 3]);
  }

  /** Four-byte aligned strings with the same words are the same string. */
  lemma SameWords(a: Bytes, b: Bytes)
    requires |a| == |b| && |a| % 4 == 0
    requires forall i: nat :: 4 * i + 4 <= |a| ==> GetWord(a, i) == GetWord(b, i)
    ensures a == b
  {
    forall x | 0 <= x < |a| ensures a[x] == b[x] {
      assert GetWord(a, x / 4) == GetWord(b, x / 4);
      SameLanes(a, b, x / 4);
    }
  }
}
