/** The string and memory routines of lib/libc.c. A C string is a byte string holding a zero byte. */
module Libc {
  import opened Words

  /** The characters before the first zero byte. */
  function CStr(s: Bytes): (r: Bytes)
    ensures |r| <= |s| && 0 !in r
    ensures |r| < |s| ==> s[|r|] == 0
    ensures r == s[..|r|]
  {
    if s == [] || s[0] == 0 then [] else [s[0]] + CStr(s[1..])
  }

  /** CStr is the only prefix with its properties. */
  lemma {:induction false} CStrUnique(s: Bytes, n: nat)
    requires n <= |s| && 0 !in s[..n] && (n < |s| ==> s[n] == 0)
    ensures CStr(s) == s[..n]
    decreases s
  {
    if n > 0 {
      assert s[..n][0] == s[0];
      assert s[1..][..n - 1] == s[..n][1..];
      CStrUnique(s[1..], n - 1);
    }
  }

  /** Inside its string a position is the end exactly when it holds the zero byte. */
  lemma CStrAt(s: Bytes, i: nat)
    requires i <= |CStr(s)| && i < |s|
    ensures s[i] == 0 <==> |CStr(s)| == i
  {
    if i < |CStr(s)| { assert CStr(s)[i] == s[i]; }
  }

  /** Plain `char` is signed: the byte as a number from -128 to 127. */
  function SignedChar(c: Byte): (r: int)
    ensures -0x80 <= r < 0x80 && (c - r) % 0x100 == 0
  {
    if c < 0x80 then c else c - 0x100
  }

  /** The strings agree before position `i`, neither ends before it, and they differ there. */
  ghost predicate DifferAt(str1: Bytes, str2: Bytes, i: nat) {
    && i <= |CStr(str1)| && i < |str1| && i <= |CStr(str2)| && i < |str2|
    && CStr(str1)[..i] == CStr(str2)[..i] && str1[i] != str2[i]
  }

  /** stringcmp: zero exactly for equal strings, else the difference of the first bytes that differ. */
  method StringCmp(str1: Bytes, str2: Bytes) returns (r: int)
    requires 0 in str1 && 0 in str2
    ensures r == 0 <==> CStr(str1) == CStr(str2)
    ensures r != 0 ==> exists i: nat :: DifferAt(str1, str2, i) && r == SignedChar(str1[i]) - SignedChar(str2[i])
  {
    ghost var c1, c2 := CStr(str1), CStr(str2);
    assert |c1| < |str1| && |c2| < |str2|;
    var i := 0;
    while true
      invariant 0 <= i <= |c1| && i <= |c2| && c1[..i] == c2[..i]
      decreases |str1| - i
    {
      CStrAt(str1, i);
      CStrAt(str2, i);
      if str1[i] == 0 && str2[i] == 0 {
        return 0;
      }
      if str1[i] == 0 || str2[i] == 0 || str1[i] != str2[i] {
        assert DifferAt(str1, str2, i);
        return SignedChar(str1[i]) - SignedChar(str2[i]);
      }
      assert c1[..i + 1] == c1[..i] + [c1[i]] && c2[..i + 1] == c2[..i] + [c2[i]];
      i := i + 1;
    }
  }

  /** `t` with `d` written over it from position `at`. */
  function Splice(t: Bytes, at: nat, d: Bytes): (r: Bytes)
    requires at + |d| <= |t|
    ensures |r| == |t|
    ensures forall x :: 0 <= x < |t| ==> r[x] == if at <= x < at + |d| then d[x - at] else t[x]
  {
    t[..at] + d + t[at + |d|..]
  }

  /** How many characters of `source` fit in `len` bytes with the terminator. */
  function FitLen(source: Bytes, len: nat): nat
    requires len > 0
  {
    if |CStr(source)| < len then |CStr(source)| else len - 1
  }

  /** What a copy leaves in a target buffer: the string, cut to fit, one zero byte, and the old bytes after it. */
  function CopiedString(target: Bytes, source: Bytes): (r: Bytes)
    requires |target| > 0 && (0 in source || |source| >= |target| - 1)
    ensures |r| == |target| && 0 in r
    ensures CStr(r) == CStr(source)[..FitLen(source, |target|)]
    ensures var n := FitLen(source, |target|);
            forall x :: 0 <= x < |r| ==> r[x] == if x < n then source[x] else if x == n then 0 else target[x]
  {
    var n := FitLen(source, |target|);
    var r := source[..n] + [0] + target[n + 1..];
    assert r[n] == 0;
    CStrUnique(r, n);
    r
  }

  /** stringcopy, whose padding loop never advances `target`. */
  method StringCopy(target: array<Byte>, t: nat, source: Bytes, buflen: nat)
    requires buflen > 0 && t + buflen <= target.Length
    requires 0 in source || |source| >= buflen - 1
    modifies target
    ensures target[..] == Splice(old(target[..]), t, CopiedString(old(target[t..t + buflen]), source))
  {
    ghost var o := target[..];
    ghost var c := CStr(source);
    var i := 0;
    while i < buflen - 1
      invariant 0 <= i <= buflen - 1 && i <= |c|
      invariant forall x :: t <= x < t + i ==> target[x] == source[x - t]
      invariant forall x :: 0 <= x < target.Length && (x < t || x >= t + i) ==> target[x] == o[x]
    {
      CStrAt(source, i);
      target[t + i] := source[i];
      if source[i] == 0 {
        var k := i + 1;
        while k < buflen
          invariant forall x :: t <= x < t + i ==> target[x] == source[x - t]
          invariant target[t + i] == 0
          invariant forall x :: 0 <= x < target.Length && (x < t || x > t + i) ==> target[x] == o[x]
        {
          target[t + i] := 0;
          k := k + 1;
        }
        CopyDone(o, target[..], t, source, buflen, i);
        return;
      }
      i := i + 1;
    }
    target[t + i] := 0;
    CopyDone(o, target[..], t, source, buflen, i);
  }

  lemma CopyDone(o: Bytes, r: Bytes, t: nat, source: Bytes, buflen: nat, i: nat)
    requires buflen > 0 && t + buflen <= |o| == |r|
    requires 0 in source || |source| >= buflen - 1
    requires i == FitLen(source, buflen)
    requires forall x :: t <= x < t + i ==> r[x] == source[x - t]
    requires r[t + i] == 0
    requires forall x :: 0 <= x < |o| && (x < t || x > t + i) ==> r[x] == o[x]
    ensures r == Splice(o, t, CopiedString(o[t..t + buflen], source))
  {
    hide CStr, Splice, CopiedString;
    var d := CopiedString(o[t..t + buflen], source);
    var s := Splice(o, t, d);
    forall x | 0 <= x < |r| ensures r[x] == s[x] {
      if t <= x < t + buflen {
        assert s[x] == d[x - t] == if x < t + i then source[x - t] else if x == t + i then 0 else o[x];
      }
    }
  }

  /** A copy in plain words: the characters that fit, one zero byte behind them, and the old bytes after it. */
  lemma CopyInPlain(target: Bytes, source: Bytes)
    requires |target| > 0 && (0 in source || |source| >= |target| - 1)
    ensures var r, s := CopiedString(target, source), CStr(source);
            && |r| == |target|
            && (forall i :: 0 <= i < |s| && i < |r| - 1 ==> r[i] == s[i])
            && (|s| < |r| ==> r[|s|] == 0 && forall i :: |s| < i < |r| ==> r[i] == target[i])
            && (|s| >= |r| ==> r[|r| - 1] == 0)
  {
  }

  /** The documented padding with zero bytes happens exactly when those bytes were zero before. */
  lemma CopyPadsIff(target: Bytes, source: Bytes)
    requires |target| > 0 && (0 in source || |source| >= |target| - 1)
    ensures var r := CopiedString(target, source); var n := FitLen(source, |target|);
            (forall i :: n < i < |r| ==> r[i] == 0) <==> (forall i :: n < i < |r| ==> target[i] == 0)
  {
    var r := CopiedString(target, source);
    var n := FitLen(source, |target|);
    assert forall x :: n < x < |r| ==> r[x] == target[x];
  }

  /** Copying the empty string into a buffer of ones leaves two of them. */
  lemma CopyKeepsOld()
    ensures CopiedString([1, 1, 1], [0]) == [0, 1, 1]
  {
  }

  /** memcopy: whole words first when both pointers are word aligned, else byte by byte. */
  method MemCopy(buflen: nat, target: array<Byte>, t: nat, source: array<Byte>, s: nat, aligned: bool)
    requires target != source
    requires t + buflen <= target.Length && s + buflen <= source.Length
    modifies target
    ensures target[..] == Splice(old(target[..]), t, source[s..s + buflen])
  {
    ghost var o := target[..];
    ghost var d := source[s..s + buflen];
    var done := 0;
    if aligned {
      while done + 4 <= buflen
        invariant 0 <= done <= buflen
        invariant forall x :: t <= x < t + done ==> target[x] == d[x - t]
        invariant forall x :: 0 <= x < target.Length && (x < t || x >= t + done) ==> target[x] == o[x]
      {
        var a, b := t + done, s + done;
        target[a], target[a + 1], target[a + 2], target[a + 3] :=
          source[b], source[b + 1], source[b + 2], source[b + 3];
        done := done + 4;
      }
    }
    while done < buflen
      invariant 0 <= done <= buflen
      invariant forall x :: t <= x < t + done ==> target[x] == d[x - t]
      invariant forall x :: 0 <= x < target.Length && (x < t || x >= t + done) ==> target[x] == o[x]
    {
      target[t + done] := source[s + done];
      done := done + 1;
    }
  }

  method MemorySet(target: array<Byte>, value: Byte, size: nat)
    requires size <= target.Length
    modifies target
    ensures target[..] == seq(size, _ => value) + old(target[size..])
  {
    ghost var o := target[..];
    var i := 0;
    while i < size
      invariant 0 <= i <= size
      invariant forall x :: 0 <= x < target.Length ==> target[x] == if x < i then value else o[x]
    {
      target[i] := value;
      i := i + 1;
    }
  }
}
