/** The on-disk layout of the Trivial Filesystem (fs/tfs_constants.h) and its well-formed volumes. */
module TfsLayout {
  import opened Words
  import opened Bitmap
  import opened Libc

  const BLOCK_SIZE := 512
  const BLOCKS_MAX := 127
  const MAX_FILES := 25
  const FILENAME_MAX := 16

  const HEADER_BLOCK := 0
  const ALLOCATION_BLOCK := 1
  const DIRECTORY_BLOCK := 2
  const SYSTEM_BLOCKS := 3

  type Block = b: Bytes | |b| == BLOCK_SIZE witness seq(BLOCK_SIZE, _ => 0)

  /** The blocks of one partition, from its header block on. */
  type Volume = seq<Block>

  function ZeroBlock(): (b: Block)
    ensures forall x :: 0 <= x < BLOCK_SIZE ==> b[x] == 0
  {
    seq(BLOCK_SIZE, _ => 0)
  }

  /** tfs_init caps the volume at the number of bits in the allocation block. */
  predicate Sized(v: Volume) { SYSTEM_BLOCKS <= |v| <= 8 * BLOCK_SIZE }

  // ----- directory entries -----

  function EntryInode(d: Block, i: nat): Word
    requires i < MAX_FILES
  {
    GetWord(d, 5 * i)
  }

  function NameField(d: Block, i: nat): (r: Bytes)
    requires i < MAX_FILES
    ensures |r| == FILENAME_MAX
  {
    d[20 * i + 4..20 * i + 20]
  }

  function EntryName(d: Block, i: nat): Bytes
    requires i < MAX_FILES
  {
    CStr(NameField(d, i))
  }

  predicate InUse(d: Block, i: nat) { i < MAX_FILES && EntryInode(d, i) != 0 }

  /** Names VFS passes down: non-empty and short enough for a directory entry (vfs.c:284-323). */
  predicate FileName(name: Bytes) { 0 < |name| < FILENAME_MAX && 0 !in name }

  /** Every entry holds a C string, which is empty exactly in free entries; names in use are distinct. */
  ghost predicate DirectoryOk(d: Block) {
    && (forall i :: 0 <= i < MAX_FILES ==> 0 in NameField(d, i))
    && (forall i :: 0 <= i < MAX_FILES ==> (InUse(d, i) <==> EntryName(d, i) != []))
    && (forall i, j :: 0 <= i < j < MAX_FILES && InUse(d, i) && InUse(d, j) ==> EntryName(d, i) != EntryName(d, j))
  }

  /** A directory entry in bytes: four of inode number, most significant first, then 16 of name. */
  lemma EntryInBytes(d: Block, i: nat)
    requires i < MAX_FILES
    ensures var b0: int, b1: int, b2: int, b3: int := d[20 * i], d[20 * i + 1], d[20 * i + 2], d[20 * i + 3];
            EntryInode(d, i) == 0x100_0000 * b0 + 0x1_0000 * b1 + 0x100 * b2 + b3
    ensures |NameField(d, i)| == 16 && forall k :: 0 <= k < 16 ==> NameField(d, i)[k] == d[20 * i + 4 + k]
  {
    hide GetWord;
    WordInBytes(d, 5 * i);
  }

  // ----- files -----

  function Span(size: nat): nat { (size + BLOCK_SIZE - 1) / BLOCK_SIZE }

  function Size(inode: Block): nat { GetWord(inode, 0) }

  function Pointer(inode: Block, k: nat): Word
    requires k < BLOCKS_MAX
  {
    GetWord(inode, k + 1)
  }

  /** An inode in bytes: the size, then 127 block numbers. */
  lemma InodeInBytes(inode: Block, k: nat)
    requires k < 127
    ensures var b0: int, b1: int, b2: int, b3: int := inode[0], inode[1], inode[2], inode[3];
            Size(inode) == 0x100_0000 * b0 + 0x1_0000 * b1 + 0x100 * b2 + b3
    ensures var j := 4 * k + 4;
            var b0: int, b1: int, b2: int, b3: int := inode[j], inode[j + 1], inode[j + 2], inode[j + 3];
            Pointer(inode, k) == 0x100_0000 * b0 + 0x1_0000 * b1 + 0x100 * b2 + b3
  {
    hide GetWord;
    WordInBytes(inode, 0);
    WordInBytes(inode, k + 1);
  }

  /** As many blocks of 512 bytes as hold the file, and no more. */
  lemma SpanExact(size: nat)
    ensures 512 * (Span(size) - 1) < size <= 512 * Span(size) || (size == 0 && Span(size) == 0)
  {
  }

  predicate SizeOk(inode: Block) { Size(inode) <= BLOCK_SIZE * BLOCKS_MAX }

  predicate InData(v: Volume, p: int) { SYSTEM_BLOCKS <= p < |v| }

  /** `n` is the block of an inode whose pointers up to the file size lie in the volume, and whose other pointers are 0. */
  ghost predicate InodeOk(v: Volume, n: int) {
    && InData(v, n)
    && SizeOk(v[n])
    && forall k :: 0 <= k < BLOCKS_MAX ==>
         if k < Span(Size(v[n])) then InData(v, Pointer(v[n], k)) else Pointer(v[n], k) == 0
  }

  /** The blocks of a file: its inode block, then its data blocks. */
  ghost function Owned(v: Volume, n: int): (r: seq<int>)
    requires InodeOk(v, n)
    ensures |r| == 1 + Span(Size(v[n])) && r[0] == n
    ensures forall k :: 1 <= k < |r| ==> r[k] == Pointer(v[n], k - 1)
  {
    [n] + seq(Span(Size(v[n])), k requires 0 <= k < Span(Size(v[n])) && SizeOk(v[n]) => Pointer(v[n], k))
  }

  /** The bytes of a file. */
  ghost function Content(v: Volume, n: int): (r: Bytes)
    requires InodeOk(v, n)
    ensures |r| == Size(v[n])
    ensures forall x :: 0 <= x < |r| ==> r[x] == v[Pointer(v[n], x / BLOCK_SIZE)][x % BLOCK_SIZE]
  {
    seq(Size(v[n]), x requires 0 <= x < Size(v[n]) && InodeOk(v, n) =>
      v[Pointer(v[n], x / BLOCK_SIZE)][x % BLOCK_SIZE])
  }

  /** A file depends only on the blocks it owns. */
  lemma SameFile(v: Volume, w: Volume, n: int)
    requires |v| == |w| && InodeOk(v, n)
    requires forall k :: 0 <= k < |Owned(v, n)| ==> w[Owned(v, n)[k]] == v[Owned(v, n)[k]]
    ensures InodeOk(w, n) && Owned(w, n) == Owned(v, n) && Content(w, n) == Content(v, n)
  {
    var o := Owned(v, n);
    assert w[o[0]] == v[o[0]];
    forall k | 0 <= k < Span(Size(v[n])) ensures w[Pointer(v[n], k)] == v[Pointer(v[n], k)] {
      assert w[o[k + 1]] == v[o[k + 1]];
    }
  }

  // ----- volumes -----

  /** Entry `i` is in use and its inode is sound. */
  ghost predicate HasFile(v: Volume, i: nat)
    requires Sized(v)
  {
    InUse(v[DIRECTORY_BLOCK], i) && InodeOk(v, EntryInode(v[DIRECTORY_BLOCK], i))
  }

  ghost function Inode(v: Volume, i: nat): int
    requires Sized(v) && HasFile(v, i)
  {
    EntryInode(v[DIRECTORY_BLOCK], i)
  }

  ghost function Blocks(v: Volume, i: nat): (r: seq<int>)
    requires Sized(v) && HasFile(v, i)
    ensures |r| > 0 && forall k :: 0 <= k < |r| ==> InData(v, r[k])
  {
    Owned(v, Inode(v, i))
  }

  /** Some file owns block `p`. */
  ghost predicate Taken(v: Volume, p: int)
    requires Sized(v)
  {
    exists i :: 0 <= i < MAX_FILES && HasFile(v, i) && p in Blocks(v, i)
  }

  /** No block belongs to two places. */
  ghost predicate Disjoint(v: Volume)
    requires Sized(v)
  {
    forall i, j, a, b ::
      0 <= i < MAX_FILES && 0 <= j < MAX_FILES && HasFile(v, i) && HasFile(v, j)
      && 0 <= a < |Blocks(v, i)| && 0 <= b < |Blocks(v, j)| && Blocks(v, i)[a] == Blocks(v, j)[b]
      ==> i == j && a == b
  }

  /** The bitmap marks exactly the system blocks and the blocks of files. */
  ghost predicate BitmapExact(v: Volume)
    requires Sized(v)
  {
    forall p: nat :: p < |v| ==> (Bit(v[ALLOCATION_BLOCK], p) <==> p < SYSTEM_BLOCKS || Taken(v, p))
  }

  /** Every entry in use names a sound file. */
  ghost predicate Readable(v: Volume) {
    && Sized(v)
    && DirectoryOk(v[DIRECTORY_BLOCK])
    && forall i :: 0 <= i < MAX_FILES && InUse(v[DIRECTORY_BLOCK], i) ==> HasFile(v, i)
  }

  ghost predicate WellFormed(v: Volume) {
    Readable(v) && Disjoint(v) && BitmapExact(v)
  }

  // ----- the file map a volume stands for -----

  /** The first entry from `i` on that carries `name`, or -1. */
  function Find(d: Block, name: Bytes, i: nat): (r: int)
    requires i <= MAX_FILES
    ensures r == -1 || (i <= r < MAX_FILES && EntryName(d, r) == name)
    ensures forall j :: i <= j < (if r < 0 then MAX_FILES else r) ==> EntryName(d, j) != name
    decreases MAX_FILES - i
  {
    if i == MAX_FILES then -1
    else if EntryName(d, i) == name then i
    else Find(d, name, i + 1)
  }

  type Files = map<Bytes, Bytes>

  ghost function Names(v: Volume): set<Bytes>
    requires Sized(v)
  {
    set i | 0 <= i < MAX_FILES && HasFile(v, i) :: EntryName(v[DIRECTORY_BLOCK], i)
  }

  /** The entry of a named file. */
  ghost function EntryOf(v: Volume, name: Bytes): (i: nat)
    requires Readable(v) && name in Names(v)
    ensures i < MAX_FILES && HasFile(v, i) && EntryName(v[DIRECTORY_BLOCK], i) == name
  {
    var j :| 0 <= j < MAX_FILES && HasFile(v, j) && EntryName(v[DIRECTORY_BLOCK], j) == name;
    Find(v[DIRECTORY_BLOCK], name, 0)
  }

  lemma EntryOfName(v: Volume, i: nat)
    requires Readable(v) && i < MAX_FILES && HasFile(v, i)
    ensures EntryName(v[DIRECTORY_BLOCK], i) in Names(v)
    ensures EntryOf(v, EntryName(v[DIRECTORY_BLOCK], i)) == i
  {
  }

  /** The abstract state: file contents by name. */
  ghost function Abs(v: Volume): (m: Files)
    requires Readable(v)
    ensures m.Keys == Names(v)
  {
    map name | name in Names(v) :: Content(v, Inode(v, EntryOf(v, name)))
  }

  lemma AbsAt(v: Volume, i: nat)
    requires Readable(v) && i < MAX_FILES && HasFile(v, i)
    ensures Lists(Abs(v), v, i)
  {
    EntryOfName(v, i);
  }

  /** A listing carries over to an entry with the same name and content. */
  lemma ListsMoves(m: Files, v: Volume, w: Volume, i: nat, l: Files)
    requires Sized(v) && Sized(w) && i < MAX_FILES && HasFile(v, i) && HasFile(w, i) && Lists(m, v, i)
    requires NameField(w[DIRECTORY_BLOCK], i) == NameField(v[DIRECTORY_BLOCK], i)
    requires Content(w, Inode(w, i)) == Content(v, Inode(v, i))
    requires var name := EntryName(v[DIRECTORY_BLOCK], i); name in l && name in m && l[name] == m[name]
    ensures Lists(l, w, i)
  {
  }

  ghost predicate ListsAll(m: Files, v: Volume)
    requires Sized(v)
  {
    forall i :: 0 <= i < MAX_FILES && HasFile(v, i) ==> Lists(m, v, i)
  }

  lemma ListedName(v: Volume, m: Files, name: Bytes)
    requires Readable(v) && ListsAll(m, v) && name in Names(v)
    ensures name in m && Abs(v)[name] == m[name]
  {
    assert Lists(m, v, EntryOf(v, name));
  }

  /** A map that lists every file, and nothing else, is the abstract state. */
  lemma AbsUnique(v: Volume, m: Files)
    requires Readable(v) && ListsAll(m, v) && m.Keys <= Names(v)
    ensures Abs(v) == m
  {
    forall name | name in Names(v) ensures name in m && Abs(v)[name] == m[name] {
      ListedName(v, m, name);
    }
  }

  ghost predicate Lists(m: Files, v: Volume, i: nat)
    requires Sized(v) && i < MAX_FILES && HasFile(v, i)
  {
    EntryName(v[DIRECTORY_BLOCK], i) in m && m[EntryName(v[DIRECTORY_BLOCK], i)] == Content(v, Inode(v, i))
  }

  /** Looking a name up in the directory and in the abstract map agree. */
  lemma FindIsLookup(v: Volume, name: Bytes)
    requires Readable(v) && name != []
    ensures var i := Find(v[DIRECTORY_BLOCK], name, 0);
            && (i >= 0 <==> name in Abs(v))
            && (i >= 0 ==> HasFile(v, i) && Abs(v)[name] == Content(v, Inode(v, i)))
  {
    var i := Find(v[DIRECTORY_BLOCK], name, 0);
    if i >= 0 {
      assert HasFile(v, i);
      AbsAt(v, i);
    }
  }
}
