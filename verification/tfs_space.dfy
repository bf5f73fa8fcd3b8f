/** Where the blocks of a well-formed volume are: the bitmap accounts for the system blocks and every file. */
module TfsSpace {
  import opened Words
  import opened Bitmap
  import opened Libc
  import opened TfsLayout
  import opened TfsPlans
  import opened TfsCreate
  import opened TfsRemove

  // ----- cost of a file map -----

  /** Blocks a file of this content occupies: its inode and its data. */
  function Cost(content: Bytes): nat { 1 + Span(|content|) }

  ghost function Usage(m: Files): nat
    decreases |m|
  {
    if m == map[] then 0
    else var name :| name in m;
         Cost(m[name]) + Usage(m - {name})
  }

  /** The total does not depend on the order of summation. */
  lemma {:induction false} UsageSplit(m: Files, name: Bytes)
    requires name in m
    ensures Usage(m) == Cost(m[name]) + Usage(m - {name})
    decreases |m|
  {
    var first :| first in m && Usage(m) == Cost(m[first]) + Usage(m - {first});
    if first != name {
      UsageSplit(m - {first}, name);
      UsageSplit(m - {name}, first);
      assert m - {first} - {name} == m - {name} - {first};
    }
  }

  lemma UsageAdd(m: Files, name: Bytes, content: Bytes)
    requires name !in m
    ensures Usage(m[name := content]) == Usage(m) + Cost(content)
  {
    UsageSplit(m[name := content], name);
    assert m[name := content] - {name} == m;
  }

  /** The blocks that all files together occupy: for each an inode and a block for every 512 bytes begun. */
  lemma UsageInPlain(m: Files, name: Bytes)
    ensures Usage(map[]) == 0
    ensures name in m ==> Usage(m) == 1 + (|m[name]| + 511) / 512 + Usage(m - {name})
  {
    if name in m { UsageSplit(m, name); }
  }

  // ----- the files of the first entries -----

  ghost function AbsUpTo(v: Volume, k: nat): Files
    requires Sized(v) && k <= MAX_FILES
  {
    if k == 0 then map[]
    else if HasFile(v, k - 1) then
      AbsUpTo(v, k - 1)[EntryName(v[DIRECTORY_BLOCK], k - 1) := Content(v, Inode(v, k - 1))]
    else AbsUpTo(v, k - 1)
  }

  ghost function FilesUpTo(v: Volume, k: nat): nat
    requires Sized(v) && k <= MAX_FILES
  {
    if k == 0 then 0 else FilesUpTo(v, k - 1) + (if HasFile(v, k - 1) then 1 else 0)
  }

  ghost function BlocksUpTo(v: Volume, k: nat): nat
    requires Sized(v) && k <= MAX_FILES
  {
    if k == 0 then 0 else BlocksUpTo(v, k - 1) + (if HasFile(v, k - 1) then |Blocks(v, k - 1)| else 0)
  }

  lemma {:induction false} AbsUpToNames(v: Volume, k: nat, name: Bytes)
    requires Sized(v) && k <= MAX_FILES
    ensures name in AbsUpTo(v, k) <==>
              exists i :: 0 <= i < k && HasFile(v, i) && EntryName(v[DIRECTORY_BLOCK], i) == name
  {
    hide Content, InodeOk, GetWord, CStr;
    if k > 0 { AbsUpToNames(v, k - 1, name); }
  }

  lemma NewNameBeyond(v: Volume, k: nat)
    requires Readable(v) && k < MAX_FILES && HasFile(v, k)
    ensures EntryName(v[DIRECTORY_BLOCK], k) !in AbsUpTo(v, k)
  {
    hide AbsUpTo, Content, InodeOk, GetWord, CStr;
    AbsUpToNames(v, k, EntryName(v[DIRECTORY_BLOCK], k));
  }

  lemma {:induction false} AbsUpToLists(v: Volume, k: nat, i: nat)
    requires Readable(v) && i < k <= MAX_FILES && HasFile(v, i)
    ensures Lists(AbsUpTo(v, k), v, i)
  {
    hide DirectoryOk, Content, InodeOk, GetWord, CStr;
    if i < k - 1 {
      AbsUpToLists(v, k - 1, i);
      if HasFile(v, k - 1) { NamesDiffer(v, i, k - 1); }
    }
  }

  lemma AbsIsUpTo(v: Volume)
    requires Readable(v)
    ensures Abs(v) == AbsUpTo(v, MAX_FILES)
  {
    hide DirectoryOk, Content, InodeOk, GetWord, CStr, AbsUpTo, Lists;
    var m := AbsUpTo(v, MAX_FILES);
    forall i | 0 <= i < MAX_FILES && HasFile(v, i) ensures Lists(m, v, i) {
      AbsUpToLists(v, MAX_FILES, i);
    }
    forall name | name in m ensures name in Names(v) {
      AbsUpToNames(v, MAX_FILES, name);
    }
    AbsUnique(v, m);
  }

  lemma {:induction false} CountUpTo(v: Volume, k: nat)
    requires Readable(v) && k <= MAX_FILES
    ensures |AbsUpTo(v, k)| == FilesUpTo(v, k)
    ensures Usage(AbsUpTo(v, k)) == BlocksUpTo(v, k)
  {
    hide DirectoryOk, InodeOk, GetWord, CStr, Usage;
    if k == 0 {
      UsageEmpty();
    } else {
      CountUpTo(v, k - 1);
      if HasFile(v, k - 1) {
        NewNameBeyond(v, k - 1);
        UsageAdd(AbsUpTo(v, k - 1), EntryName(v[DIRECTORY_BLOCK], k - 1), Content(v, Inode(v, k - 1)));
      }
    }
  }

  lemma UsageEmpty()
    ensures Usage(map[]) == 0
  {
  }

  // ----- counting blocks -----

  ghost function SetBits(b: Bytes, l: nat): set<int>
    requires IsBitmap(b) && l <= 8 * |b|
  {
    set p | 0 <= p < l && Bit(b, p)
  }

  lemma {:induction false} SetBitsCount(b: Bytes, l: nat)
    requires IsBitmap(b) && l <= 8 * |b|
    ensures |SetBits(b, l)| + FreeBits(b, l) == l
  {
    hide Bit;
    if l > 0 {
      SetBitsCount(b, l - 1);
      if Bit(b, l - 1) {
        assert SetBits(b, l) == SetBits(b, l - 1) + {l - 1};
      } else {
        assert SetBits(b, l) == SetBits(b, l - 1);
      }
    }
  }

  ghost function Elements(s: seq<int>): set<int> { set k | 0 <= k < |s| :: s[k] }

  lemma {:induction false} DistinctCount(s: seq<int>)
    requires forall j, k :: 0 <= j < k < |s| ==> s[j] != s[k]
    ensures |Elements(s)| == |s|
    decreases |s|
  {
    if s != [] {
      var t := s[..|s| - 1];
      DistinctCount(t);
      assert Elements(s) == Elements(t) + {s[|s| - 1]};
    }
  }

  ghost function OwnedUpTo(v: Volume, k: nat): set<int>
    requires Sized(v) && k <= MAX_FILES
  {
    if k == 0 then {HEADER_BLOCK, ALLOCATION_BLOCK, DIRECTORY_BLOCK}
    else if HasFile(v, k - 1) then OwnedUpTo(v, k - 1) + Elements(Blocks(v, k - 1))
    else OwnedUpTo(v, k - 1)
  }

  lemma {:induction false} OwnedUpToMembers(v: Volume, k: nat, p: int)
    requires Sized(v) && k <= MAX_FILES
    ensures p in OwnedUpTo(v, k) <==>
              0 <= p < SYSTEM_BLOCKS || exists i :: 0 <= i < k && HasFile(v, i) && p in Blocks(v, i)
  {
    hide Blocks, InodeOk, GetWord;
    if k > 0 {
      OwnedUpToMembers(v, k - 1, p);
    }
  }

  lemma OwnedApart(v: Volume, k: nat)
    requires Sized(v) && Disjoint(v) && k < MAX_FILES && HasFile(v, k)
    ensures OwnedUpTo(v, k) !! Elements(Blocks(v, k))
  {
    hide OwnedUpTo, InodeOk, GetWord, Disjoint;
    forall p | p in Elements(Blocks(v, k)) ensures p !in OwnedUpTo(v, k) {
      OwnedUpToMembers(v, k, p);
      forall i | 0 <= i < k && HasFile(v, i) ensures p !in Blocks(v, i) {
        OnlyOwner(v, k, i, p);
      }
    }
  }

  lemma {:induction false} OwnedUpToCount(v: Volume, k: nat)
    requires Sized(v) && Disjoint(v) && k <= MAX_FILES
    ensures |OwnedUpTo(v, k)| == SYSTEM_BLOCKS + BlocksUpTo(v, k)
  {
    hide InodeOk, GetWord, Disjoint, Blocks, Elements;
    if k > 0 {
      OwnedUpToCount(v, k - 1);
      if HasFile(v, k - 1) {
        OwnedApart(v, k - 1);
        BlocksDistinct(v, k - 1);
        DistinctCount(Blocks(v, k - 1));
      }
    }
  }

  lemma BlocksDistinct(v: Volume, i: nat)
    requires Sized(v) && Disjoint(v) && i < MAX_FILES && HasFile(v, i)
    ensures forall j, k :: 0 <= j < k < |Blocks(v, i)| ==> Blocks(v, i)[j] != Blocks(v, i)[k]
  {
  }

  lemma SetBitsAreOwned(v: Volume)
    requires Sized(v) && BitmapExact(v)
    ensures OwnedUpTo(v, MAX_FILES) == SetBits(v[ALLOCATION_BLOCK], |v|)
  {
    hide OwnedUpTo, InodeOk, GetWord, Bit;
    forall p ensures p in OwnedUpTo(v, MAX_FILES) <==> p in SetBits(v[ALLOCATION_BLOCK], |v|) {
      OwnedUpToMembers(v, MAX_FILES, p);
      assert Taken(v, p) ==> 0 <= p < |v|;
    }
  }

  /** Conservation: free blocks, system blocks and the blocks of all files add up to the volume. */
  lemma SpaceConserved(v: Volume)
    requires WellFormed(v)
    ensures FreeBits(v[ALLOCATION_BLOCK], |v|) + SYSTEM_BLOCKS + Usage(Abs(v)) == |v|
  {
    hide OwnedUpTo, BlocksUpTo, AbsUpTo, FilesUpTo, Disjoint, BitmapExact, DirectoryOk, Usage, FreeBits;
    AbsIsUpTo(v);
    CountUpTo(v, MAX_FILES);
    OwnedUpToCount(v, MAX_FILES);
    SetBitsAreOwned(v);
    SetBitsCount(v[ALLOCATION_BLOCK], |v|);
  }

  lemma {:induction false} LastFreeIff(v: Volume, k: nat)
    requires Readable(v) && k <= MAX_FILES
    ensures FilesUpTo(v, k) <= k
    ensures LastFree(v[DIRECTORY_BLOCK], k) < 0 <==> FilesUpTo(v, k) == k
  {
    hide DirectoryOk, InodeOk, GetWord;
    if k > 0 { LastFreeIff(v, k - 1); }
  }

  /** tfs_create succeeds exactly when the size fits an inode, the name is new,
      the directory has room and enough blocks are free. */
  lemma CreatableIff(v: Volume, filename: Bytes, size: int)
    requires WellFormed(v) && CStr(filename) != [] && 0 <= size < 0x8000_0000
    ensures Creatable(v, filename, size) <==>
              && size <= BLOCK_SIZE * BLOCKS_MAX
              && CStr(filename) !in Abs(v)
              && |Abs(v)| < MAX_FILES
              && SYSTEM_BLOCKS + Usage(Abs(v)) + 1 + Span(size) <= |v|
  {
    hide OwnedUpTo, BlocksUpTo, AbsUpTo, FilesUpTo, Disjoint, BitmapExact, DirectoryOk, Usage, FreeBits, Take, LastFree, Find;
    BlocksNeededExact(size);
    FindIsLookup(v, CStr(filename));
    AbsIsUpTo(v);
    CountUpTo(v, MAX_FILES);
    LastFreeIff(v, MAX_FILES);
    SpaceConserved(v);
    TakeCounts(v[ALLOCATION_BLOCK], |v|, BlocksNeeded(size) + 1);
  }
}
