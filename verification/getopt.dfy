/** Argument permutation in getopt (yams/src/getopt.c): `exchange` and the PERMUTE scan of _getopt_internal. */
module Getopt {

  /** `r` is `s` with the runs of `len` elements at `x` and at `y` exchanged. */
  predicate Swapped(s: seq<string>, r: seq<string>, x: nat, y: nat, len: nat)
    requires x + len <= y && y + len <= |s| == |r|
  {
    && (forall k :: x <= k < x + len ==> r[k] == s[k - x + y])
    && (forall k :: y <= k < y + len ==> r[k] == s[k - y + x])
    && (forall k :: 0 <= k < |s| && !(x <= k < x + len) && !(y <= k < y + len) ==> r[k] == s[k])
  }

  method SwapRuns(argv: array<string>, x: nat, y: nat, len: nat)
    requires x + len <= y && y + len <= argv.Length
    modifies argv
    ensures Swapped(old(argv[..]), argv[..], x, y, len)
  {
    ghost var before := argv[..];
    var i := 0;
    while i < len
      invariant 0 <= i <= len
      invariant forall k :: x <= k < x + i ==> argv[k] == before[k - x + y]
      invariant forall k :: y <= k < y + i ==> argv[k] == before[k - y + x]
      invariant forall k :: 0 <= k < argv.Length && !(x <= k < x + i) && !(y <= k < y + i) ==> argv[k] == before[k]
    {
      var tem := argv[x + i];
      argv[x + i] := argv[y + i];
      argv[y + i] := tem;
      i := i + 1;
    }
  }

  /** The segments `first..last` and `last..end` exchanged. */
  function Rotated(s: seq<string>, first: nat, last: nat, end: nat): (r: seq<string>)
    requires first <= last <= end <= |s|
    ensures |r| == |s|
  {
    s[..first] + s[last..end] + s[first..last] + s[end..]
  }

  lemma RotatedAt(s: seq<string>, first: nat, last: nat, end: nat, x: nat)
    requires first <= last <= end <= |s| && x < |s|
    ensures Rotated(s, first, last, end)[x]
         == s[if x < first || x >= end then x else if x < first + (end - last) then x + (last - first) else x - (end - last)]
  {
  }

  /** Exchanging a short bottom segment with the top of the long one leaves a smaller exchange to do. */
  lemma BottomMoved(s: seq<string>, r: seq<string>, bottom: nat, middle: nat, top: nat)
    requires bottom < middle < top <= |s| == |r| && top - middle > middle - bottom
    requires Swapped(s, r, bottom, top - (middle - bottom), middle - bottom)
    ensures var len := middle - bottom;
            Rotated(s, bottom, middle, top) == Rotated(r, bottom, middle, top - len)
  {
    hide Rotated;
    var len := middle - bottom;
    forall x | 0 <= x < |s| ensures Rotated(s, bottom, middle, top)[x] == Rotated(r, bottom, middle, top - len)[x] {
      RotatedAt(s, bottom, middle, top, x);
      RotatedAt(r, bottom, middle, top - len, x);
    }
  }

  lemma TopMoved(s: seq<string>, r: seq<string>, bottom: nat, middle: nat, top: nat)
    requires bottom < middle < top <= |s| == |r| && top - middle <= middle - bottom
    requires Swapped(s, r, bottom, middle, top - middle)
    ensures var len := top - middle;
            Rotated(s, bottom, middle, top) == Rotated(r, bottom + len, middle, top)
  {
    hide Rotated;
    var len := top - middle;
    forall x | 0 <= x < |s| ensures Rotated(s, bottom, middle, top)[x] == Rotated(r, bottom + len, middle, top)[x] {
      RotatedAt(s, bottom, middle, top, x);
      RotatedAt(r, bottom + len, middle, top, x);
    }
  }

  lemma NothingLeft(s: seq<string>, bottom: nat, middle: nat, top: nat)
    requires bottom <= middle <= top <= |s| && (bottom == middle || middle == top)
    ensures Rotated(s, bottom, middle, top) == s
  {
  }

  /** The in-place exchange of `exchange`. */
  method Exchange(argv: array<string>, first: nat, last: nat, end: nat)
    requires first <= last <= end <= argv.Length
    modifies argv
    ensures argv[..] == Rotated(old(argv[..]), first, last, end)
  {
    hide Rotated, Swapped;
    ghost var goal := Rotated(argv[..], first, last, end);
    var bottom: nat := first;
    var middle: nat := last;
    var top: nat := end;
    while top > middle && middle > bottom
      invariant bottom <= middle <= top <= argv.Length
      invariant Rotated(argv[..], bottom, middle, top) == goal
      decreases top - bottom
    {
      ghost var before := argv[..];
      if top - middle > middle - bottom {
        var len := middle - bottom;
        SwapRuns(argv, bottom, top - (middle - bottom), len);
        BottomMoved(before, argv[..], bottom, middle, top);
        top := top - len;
      } else {
        var len := top - middle;
        SwapRuns(argv, bottom, middle, len);
        TopMoved(before, argv[..], bottom, middle, top);
        bottom := bottom + len;
      }
    }
    NothingLeft(argv[..], bottom, middle, top);
  }

  // ----- the PERMUTE scan -----

  /** Option syntax: a dash followed by something. */
  predicate IsOption(arg: string) { |arg| >= 2 && arg[0] == '-' }

  const STOP := "--"

  /** Options with their arguments, and everything else, both in their original order.  `takes` says which options
      consume the element after them; `--` ends the options and counts as one. */
  datatype Split = Split(options: seq<string>, others: seq<string>)

  /** The split of `args` from element `i` on, after `done`. */
  function SplitFrom(args: seq<string>, takes: string -> bool, i: nat, done: Split): (r: Split)
    requires i <= |args|
    decreases |args| - i
  {
    if i == |args| then done
    else if !IsOption(args[i]) then SplitFrom(args, takes, i + 1, done.(others := done.others + [args[i]]))
    else if args[i] == STOP then Split(done.options + [args[i]], done.others + args[i + 1..])
    else if takes(args[i]) && i + 1 < |args| then
      SplitFrom(args, takes, i + 2, done.(options := done.options + [args[i], args[i + 1]]))
    else SplitFrom(args, takes, i + 1, done.(options := done.options + [args[i]]))
  }

  /** The split keeps every element: options and others together are a rearrangement of the arguments. */
  lemma {:induction false} SplitKeepsAll(args: seq<string>, takes: string -> bool, i: nat, done: Split)
    requires i <= |args| && multiset(done.options + done.others) == multiset(args[..i])
    ensures var r := SplitFrom(args, takes, i, done); multiset(r.options + r.others) == multiset(args)
    decreases |args| - i
  {
    hide IsOption;
    if i == |args| {
      assert args[..i] == args;
    } else {
      var a := args[i];
      Joined(done.options, done.others, args[..i], [a]);
      assert args[..i + 1] == args[..i] + [a];
      if !IsOption(a) {
        SplitKeepsAll(args, takes, i + 1, done.(others := done.others + [a]));
      } else if a == STOP {
        assert args == args[..i + 1] + args[i + 1..];
        Joined(done.options + [a], done.others, args[..i + 1], args[i + 1..]);
      } else if takes(a) && i + 1 < |args| {
        Joined(done.options, done.others, args[..i], [a, args[i + 1]]);
        assert args[..i + 2] == args[..i] + [a, args[i + 1]];
        SplitKeepsAll(args, takes, i + 2, done.(options := done.options + [a, args[i + 1]]));
      } else {
        SplitKeepsAll(args, takes, i + 1, done.(options := done.options + [a]));
      }
    }
  }

  /** More elements at the end of either group. */
  lemma Joined(x: seq<string>, y: seq<string>, all: seq<string>, more: seq<string>)
    requires multiset(x + y) == multiset(all)
    ensures multiset((x + more) + y) == multiset(all + more) == multiset(x + (y + more))
  {
  }

  /** `s` comes from `t` by leaving elements out. */
  ghost predicate Subsequence(s: seq<string>, t: seq<string>)
    decreases t
  {
    s == [] || (t != [] && (Subsequence(s, t[..|t| - 1])
                            || (s[|s| - 1] == t[|t| - 1] && Subsequence(s[..|s| - 1], t[..|t| - 1]))))
  }

  lemma SubsequenceGrows(s: seq<string>, t: seq<string>, a: string)
    requires Subsequence(s, t)
    ensures Subsequence(s, t + [a]) && Subsequence(s + [a], t + [a])
  {
    assert (t + [a])[..|t|] == t && (s + [a])[..|s|] == s;
  }

  lemma {:induction false} SubsequenceTail(s: seq<string>, t: seq<string>, u: seq<string>)
    requires Subsequence(s, t)
    ensures Subsequence(s + u, t + u) && Subsequence(s, t + u)
    decreases |u|
  {
    if u == [] {
      assert s + u == s && t + u == t;
    } else {
      var v := u[..|u| - 1];
      SubsequenceTail(s, t, v);
      assert s + u == (s + v) + [u[|u| - 1]] && t + u == (t + v) + [u[|u| - 1]];
      SubsequenceGrows(s + v, t + v, u[|u| - 1]);
      SubsequenceGrows(s, t + v, u[|u| - 1]);
    }
  }

  /** Both groups keep the original order. */
  lemma {:induction false} SplitKeepsOrder(args: seq<string>, takes: string -> bool, i: nat, done: Split)
    requires i <= |args| && Subsequence(done.options, args[..i]) && Subsequence(done.others, args[..i])
    ensures var r := SplitFrom(args, takes, i, done); Subsequence(r.options, args) && Subsequence(r.others, args)
    decreases |args| - i
  {
    hide Subsequence;
    if i == |args| {
      assert args[..i] == args;
    } else {
      var a := args[i];
      assert args[..i + 1] == args[..i] + [a];
      SubsequenceGrows(done.options, args[..i], a);
      SubsequenceGrows(done.others, args[..i], a);
      if !IsOption(a) {
        SplitKeepsOrder(args, takes, i + 1, done.(others := done.others + [a]));
      } else if a == STOP {
        assert args == args[..i + 1] + args[i + 1..];
        SubsequenceTail(done.others, args[..i + 1], args[i + 1..]);
        SubsequenceTail(done.options + [a], args[..i + 1], args[i + 1..]);
      } else if takes(a) && i + 1 < |args| {
        var b := args[i + 1];
        assert args[..i + 2] == args[..i + 1] + [b] && done.options + [a, b] == (done.options + [a]) + [b];
        SubsequenceGrows(done.options + [a], args[..i + 1], b);
        SubsequenceGrows(done.others, args[..i + 1], b);
        SplitKeepsOrder(args, takes, i + 2, done.(options := done.options + [a, b]));
      } else {
        SplitKeepsOrder(args, takes, i + 1, done.(options := done.options + [a]));
      }
    }
  }

  // ----- the split, element by element -----

  datatype Mark = Program | Option | Argument | Stop | Other | Rest

  /** What an element is, given the one before it: the program's name, an option, the argument of the option before it,
      `--`, something else before `--`, or what comes after it. */
  function MarkOf(args: seq<string>, takes: string -> bool, i: nat): Mark
    requires i < |args|
  {
    if i == 0 then Program
    else
      var before := MarkOf(args, takes, i - 1);
      if before == Option && takes(args[i - 1]) then Argument
      else if before == Stop || before == Rest then Rest
      else if |args[i]| < 2 || args[i][0] != '-' then Other
      else if args[i] == "--" then Stop
      else Option
  }

  predicate InFront(m: Mark) { m != Other && m != Rest }

  /** The elements in front, or those behind, among the first `n`, in order. */
  function Pick(args: seq<string>, takes: string -> bool, n: nat, front: bool): seq<string>
    requires n <= |args|
  {
    if n == 0 then []
    else Pick(args, takes, n - 1, front) + if InFront(MarkOf(args, takes, n - 1)) == front then [args[n - 1]] else []
  }

  lemma PickOne(args: seq<string>, takes: string -> bool, i: nat)
    requires i < |args|
    ensures if InFront(MarkOf(args, takes, i)) then
              Pick(args, takes, i + 1, true) == Pick(args, takes, i, true) + [args[i]]
              && Pick(args, takes, i + 1, false) == Pick(args, takes, i, false)
            else
              Pick(args, takes, i + 1, true) == Pick(args, takes, i, true)
              && Pick(args, takes, i + 1, false) == Pick(args, takes, i, false) + [args[i]]
  {
  }

  /** Nothing before element `i` decides what it is. */
  predicate Fresh(args: seq<string>, takes: string -> bool, i: nat)
    requires 0 < i <= |args|
  {
    var m := MarkOf(args, takes, i - 1);
    m != Stop && m != Rest && (m == Option ==> !takes(args[i - 1]))
  }

  lemma FreshMark(args: seq<string>, takes: string -> bool, i: nat)
    requires 0 < i < |args| && Fresh(args, takes, i)
    ensures MarkOf(args, takes, i) == if !IsOption(args[i]) then Other else if args[i] == STOP then Stop else Option
  {
  }

  lemma MarkAfter(args: seq<string>, takes: string -> bool, i: nat)
    requires i + 1 < |args|
    ensures MarkOf(args, takes, i) == Option && takes(args[i]) ==> MarkOf(args, takes, i + 1) == Argument
    ensures MarkOf(args, takes, i) == Stop || MarkOf(args, takes, i) == Rest ==> MarkOf(args, takes, i + 1) == Rest
  {
  }

  /** The split puts the program's name, the options, their arguments and `--` in front, and everything else behind. */
  lemma {:induction false} SplitByMarks(args: seq<string>, takes: string -> bool, i: nat)
    requires 0 < i <= |args| && (i < |args| ==> Fresh(args, takes, i))
    ensures SplitFrom(args, takes, i, Split(Pick(args, takes, i, true), Pick(args, takes, i, false)))
         == Split(Pick(args, takes, |args|, true), Pick(args, takes, |args|, false))
    decreases |args| - i
  {
    hide MarkOf, Pick, IsOption;
    if i < |args| {
      var a := args[i];
      FreshMark(args, takes, i);
      PickOne(args, takes, i);
      if !IsOption(a) {
        SplitByMarks(args, takes, i + 1);
      } else if a == STOP {
        AllRest(args, takes, i, |args|);
      } else if takes(a) && i + 1 < |args| {
        MarkAfter(args, takes, i);
        PickOne(args, takes, i + 1);
        assert Pick(args, takes, i, true) + [a] + [args[i + 1]] == Pick(args, takes, i, true) + [a, args[i + 1]];
        SplitByMarks(args, takes, i + 2);
      } else {
        SplitByMarks(args, takes, i + 1);
      }
    }
  }

  lemma {:induction false} AllRest(args: seq<string>, takes: string -> bool, i: nat, n: nat)
    requires 0 < i < n <= |args| && MarkOf(args, takes, i) == Stop
    ensures Pick(args, takes, n, true) == Pick(args, takes, i, true) + [args[i]]
    ensures Pick(args, takes, n, false) == Pick(args, takes, i, false) + args[i + 1..n]
    ensures MarkOf(args, takes, n - 1) == if n == i + 1 then Stop else Rest
    decreases n
  {
    hide MarkOf, Pick;
    PickOne(args, takes, n - 1);
    if n == i + 1 {
      assert args[i + 1..n] == [];
    } else {
      AllRest(args, takes, i, n - 1);
      MarkAfter(args, takes, n - 2);
      assert args[i + 1..n] == args[i + 1..n - 1] + [args[n - 1]];
    }
  }

  /** An option that takes an argument is followed in the result by the element that followed it. */
  lemma ArgumentFollows(args: seq<string>, takes: string -> bool, i: nat)
    requires i + 1 < |args| && MarkOf(args, takes, i) == Option && takes(args[i])
    ensures var front, k := Pick(args, takes, |args|, true), |Pick(args, takes, i, true)|;
            k + 1 < |front| && front[k] == args[i] && front[k + 1] == args[i + 1]
  {
    hide MarkOf;
    MarkAfter(args, takes, i);
    PickPrefix(args, takes, i + 2, |args|);
  }

  lemma {:induction false} PickPrefix(args: seq<string>, takes: string -> bool, i: nat, n: nat)
    requires i <= n <= |args|
    ensures Pick(args, takes, i, true) <= Pick(args, takes, n, true)
    decreases n
  {
    if i < n { PickPrefix(args, takes, i, n - 1); }
  }

  /** The whole split. */
  lemma ResultByMarks(args: seq<string>, takes: string -> bool)
    requires |args| >= 1
    ensures SplitFrom(args, takes, 1, Split(args[..1], []))
         == Split(Pick(args, takes, |args|, true), Pick(args, takes, |args|, false))
  {
    assert args[..1] == [args[0]];
    assert Pick(args, takes, 1, true) == [args[0]] && Pick(args, takes, 1, false) == [];
    SplitByMarks(args, takes, 1);
  }

  /** Stepping over a non-option adds it to those found since. */
  lemma SkipsOther(args: seq<string>, argv: seq<string>, takes: string -> bool, first: nat, i: nat)
    requires first <= i < |args| == |argv| && argv[i..] == args[i..] && !IsOption(argv[i])
    ensures argv[i + 1..] == args[i + 1..]
    ensures SplitFrom(args, takes, i, Split(argv[..first], argv[first..i]))
         == SplitFrom(args, takes, i + 1, Split(argv[..first], argv[first..i + 1]))
  {
    hide IsOption;
    assert args[i] == args[i..][0] == argv[i..][0] == argv[i];
    assert argv[first..i + 1] == argv[first..i] + [argv[i]];
    assert argv[i + 1..] == argv[i..][1..] && args[i + 1..] == args[i..][1..];
  }

  /** _getopt_internal's scanning state. The decoding of one option is represented by `takes`. */
  class Scanner {
    const argv: array<string>
    var firstNonopt: nat
    var lastNonopt: nat
    var optind: nat
    ghost var args: seq<string>

    /** Up to `optind` the arguments are split into options, others, and options found since. */
    ghost predicate Valid(takes: string -> bool)
      reads this, argv
    {
      && 1 <= firstNonopt <= lastNonopt <= optind <= argv.Length == |args|
      && argv[optind..] == args[optind..]
      && SplitFrom(args, takes, 1, Split(args[..1], []))
         == SplitFrom(args, takes, optind, Split(argv[..firstNonopt] + argv[lastNonopt..optind], argv[firstNonopt..lastNonopt]))
    }

    constructor (argv: array<string>, takes: string -> bool)
      requires argv.Length >= 1
      ensures Valid(takes) && this.argv == argv && args == argv[..] && optind == 1
    {
      this.argv := argv;
      firstNonopt, lastNonopt, optind := 1, 1, 1;
      args := argv[..];
      new;
      assert argv[..1] + argv[1..1] == args[..1];
    }

    /** Moves the options found since behind the earlier options. */
    method Regroup(takes: string -> bool)
      requires Valid(takes)
      modifies this`firstNonopt, this`lastNonopt, argv
      ensures Valid(takes) && firstNonopt + (old(lastNonopt) - old(firstNonopt)) == lastNonopt == optind
    {
      hide SplitFrom, Rotated;
      ghost var was := argv[..];
      var b, m, e := firstNonopt, lastNonopt, optind;
      Exchange(argv, b, m, e);
      RotatedParts(was, argv[..], b, m, e);
      firstNonopt := firstNonopt + (optind - lastNonopt);
      lastNonopt := optind;
    }

    /** The outcome of the whole scan. */
    ghost function Result(takes: string -> bool): Split
      requires |args| >= 1
      reads this
    {
      SplitFrom(args, takes, 1, Split(args[..1], []))
    }

    /** One pass over non-options and `--`; true when the scan is over. */
    method Next(takes: string -> bool) returns (over: bool)
      requires Valid(takes)
      modifies this`firstNonopt, this`lastNonopt, this`optind, argv
      ensures args == old(args) && |args| >= 1
      ensures over ==> argv[..] == Result(takes).options + Result(takes).others && optind == |Result(takes).options|
      ensures !over ==> Valid(takes) && lastNonopt == optind < argv.Length && IsOption(argv[optind]) && argv[optind] != STOP
                        && optind >= old(optind)
    {
      hide Subsequence, Rotated;
      if firstNonopt != lastNonopt && lastNonopt != optind {
        Regroup(takes);
      } else if lastNonopt != optind {
        AllOptions(argv[..], firstNonopt, lastNonopt, optind);
        firstNonopt := optind;
        lastNonopt := optind;
      }
      Collect(takes);
      if optind != argv.Length && argv[optind] == STOP {
        over := Stop(takes);
        return;
      }
      if optind == argv.Length {
        WholeArgs(argv[..], firstNonopt, lastNonopt);
        if firstNonopt != lastNonopt { optind := firstNonopt; }
        return true;
      }
      return false;
    }

    /** Skips non-options, which join those skipped before. */
    method Collect(takes: string -> bool)
      requires Valid(takes) && (lastNonopt == optind)
      modifies this`lastNonopt, this`optind
      ensures Valid(takes) && lastNonopt == optind >= old(optind)
      ensures optind < argv.Length ==> IsOption(argv[optind])
    {
      hide SplitFrom;
      assert argv[..firstNonopt] + argv[lastNonopt..optind] == argv[..firstNonopt];
      while optind < argv.Length && !IsOption(argv[optind])
        invariant 1 <= firstNonopt <= lastNonopt <= optind <= argv.Length == |args|
        invariant argv[optind..] == args[optind..] && optind >= old(optind)
        invariant SplitFrom(args, takes, 1, Split(args[..1], []))
               == SplitFrom(args, takes, optind, Split(argv[..firstNonopt], argv[firstNonopt..optind]))
      {
        SkipsOther(args, argv[..], takes, firstNonopt, optind);
        optind := optind + 1;
      }
      lastNonopt := optind;
      assert argv[..firstNonopt] + argv[lastNonopt..optind] == argv[..firstNonopt];
    }

    /** `--` ends the options; all that follows are non-options. */
    method Stop(takes: string -> bool) returns (over: bool)
      requires Valid(takes) && lastNonopt == optind < argv.Length && argv[optind] == STOP
      modifies this`firstNonopt, this`lastNonopt, this`optind, argv
      ensures args == old(args) && |args| >= 1 && over
      ensures argv[..] == Result(takes).options + Result(takes).others && optind == |Result(takes).options|
    {
      hide Subsequence, Rotated;
      ghost var was := argv[..];
      var b, m := firstNonopt, lastNonopt;
      optind := optind + 1;
      if firstNonopt != lastNonopt && lastNonopt != optind {
        Exchange(argv, firstNonopt, lastNonopt, optind);
        firstNonopt := firstNonopt + (optind - lastNonopt);
        lastNonopt := optind;
      } else if firstNonopt == lastNonopt {
        firstNonopt := optind;
      }
      if b == m { NothingLeft(was, b, m, m + 1); }
      StopResult(args, takes, was, argv[..], b, m);
      lastNonopt := argv.Length;
      optind := argv.Length;
      if firstNonopt != lastNonopt { optind := firstNonopt; }
      return true;
    }

    /** Repeated calls until -1 is returned: options with their arguments first, `--` if there was one, then the
        non-options, each group in its original order, and optind at the first non-option. */
    method Scan(takes: string -> bool)
      requires Valid(takes)
      modifies this`firstNonopt, this`lastNonopt, this`optind, argv
      ensures args == old(args) && |args| >= 1
      ensures argv[..] == Result(takes).options + Result(takes).others && optind == |Result(takes).options|
      ensures var n := |args|;
              argv[..] == Pick(args, takes, n, true) + Pick(args, takes, n, false) && optind == |Pick(args, takes, n, true)|
    {
      ghost var all := args;
      ResultByMarks(all, takes);
      var over := Next(takes);
      while !over
        invariant args == old(args) && |args| >= 1
        invariant over ==> argv[..] == Result(takes).options + Result(takes).others && optind == |Result(takes).options|
        invariant !over ==> Valid(takes) && lastNonopt == optind < argv.Length && IsOption(argv[optind]) && argv[optind] != STOP
        decreases !over, argv.Length - optind
      {
        Consume(takes);
        over := Next(takes);
      }
    }

    /** Steps over the option at `optind`, with the element after it when the option takes it. */
    method Consume(takes: string -> bool)
      requires Valid(takes) && optind < argv.Length && IsOption(argv[optind]) && argv[optind] != STOP
      requires lastNonopt == optind
      modifies this`optind
      ensures Valid(takes) && optind > old(optind)
    {
      ghost var done := argv[..firstNonopt] + argv[lastNonopt..optind];
      assert args[optind..][0] == argv[optind..][0];
      assert argv[..firstNonopt] + argv[lastNonopt..optind + 1] == done + [argv[optind]];
      if takes(argv[optind]) && optind + 1 < argv.Length {
        assert args[optind..][1] == argv[optind..][1];
        assert argv[..firstNonopt] + argv[lastNonopt..optind + 2] == done + [argv[optind], argv[optind + 1]];
        assert argv[optind + 2..] == argv[optind..][2..] && args[optind + 2..] == args[optind..][2..];
        optind := optind + 2;
      } else {
        assert argv[optind + 1..] == argv[optind..][1..] && args[optind + 1..] == args[optind..][1..];
        optind := optind + 1;
      }
    }
  }

  lemma AllOptions(s: seq<string>, first: nat, last: nat, end: nat)
    requires first == last <= end <= |s|
    ensures s[..end] + s[end..end] == s[..first] + s[last..end] && s[end..end] == s[first..last]
  {
  }

  lemma WholeArgs(s: seq<string>, first: nat, last: nat)
    requires first <= last == |s|
    ensures s == (s[..first] + s[last..|s|]) + s[first..last] && |s[..first] + s[last..|s|]| == first
  {
  }

  lemma StopResult(args: seq<string>, takes: string -> bool, s: seq<string>, r: seq<string>, b: nat, m: nat)
    requires b <= m < |s| == |args| && s[m..] == args[m..] && s[m] == STOP
    requires r == Rotated(s, b, m, m + 1)
    ensures var x := SplitFrom(args, takes, m, Split(s[..b] + s[m..m], s[b..m]));
            r == x.options + x.others && |x.options| == b + 1
  {
    assert args[m..][0] == s[m..][0];
    assert args[m + 1..] == args[m..][1..] && s[m + 1..] == s[m..][1..];
    assert IsOption(STOP);
  }

  lemma RotatedParts(s: seq<string>, r: seq<string>, b: nat, m: nat, e: nat)
    requires b <= m <= e <= |s| && r == Rotated(s, b, m, e)
    ensures |r| == |s| && r[..b + (e - m)] + r[e..e] == s[..b] + s[m..e]
    ensures r[b + (e - m)..e] == s[b..m] && r[e..] == s[e..]
  {
  }

  /** The arguments as the scan leaves them are a rearrangement of the input, and each group keeps its order. */
  lemma ResultIsStable(args: seq<string>, takes: string -> bool)
    requires |args| >= 1
    ensures var r := SplitFrom(args, takes, 1, Split(args[..1], []));
            && multiset(r.options + r.others) == multiset(args)
            && Subsequence(r.options, args) && Subsequence(r.others, args)
  {
    var done := Split(args[..1], []);
    assert done.options + done.others == args[..1];
    SplitKeepsAll(args, takes, 1, done);
    SubsequenceTail([], [], args[..1]);
    assert [] + args[..1] == args[..1];
    SplitKeepsOrder(args, takes, 1, done);
  }
}
