/** Printing numbers (lib/xprintf.c) and reading them back (atoi in lib/libc.c).
    Strings are sequences of their characters, without the terminator. */
module Printing {

  const REV_SIZE := 22
  const DIGITS := "0123456789ABCDEF0123456789abcdef"

  function Digit(d: nat, smalls: bool): char
    requires d < 16
  {
    if smalls then DIGITS[16 + d] else DIGITS[d]
  }

  predicate Base(base: nat) { base == 8 || base == 10 || base == 16 }

  /** A number in a base, most significant digit first. */
  function Digits(n: nat, base: nat, smalls: bool): (s: string)
    requires Base(base)
    ensures |s| > 0
  {
    if n < base then [Digit(n, smalls)] else Digits(n / base, base, smalls) + [Digit(n % base, smalls)]
  }

  function Pow8(k: nat): nat { if k == 0 then 1 else 8 * Pow8(k - 1) }

  lemma {:induction false} DigitsBound(n: nat, base: nat, smalls: bool, k: nat)
    requires Base(base) && n < Pow8(k) && k > 0
    ensures |Digits(n, base, smalls)| <= k
    decreases k
  {
    if n >= base {
      assert n / base <= n / 8;
      DigitsBound(n / base, base, smalls, k - 1);
    }
  }

  /** Any 64-bit number fits the scratch buffer in base 8, 10 or 16. */
  lemma FitsScratch(n: nat, base: nat, smalls: bool)
    requires Base(base) && n < 0x1_0000_0000_0000_0000
    ensures |Digits(n, base, smalls)| <= REV_SIZE
  {
    assert Pow8(5) == 0x8000;
    assert Pow8(10) == 0x4000_0000;
    assert Pow8(15) == 0x2000_0000_0000;
    assert Pow8(20) == 0x1000_0000_0000_0000;
    assert Pow8(22) == 0x4_0000_0000_0000_0000;
    DigitsBound(n, base, smalls, REV_SIZE);
  }

  function Reversed(s: string): (r: string)
    ensures |r| == |s| && forall i :: 0 <= i < |s| ==> r[i] == s[|s| - 1 - i]
  {
    if s == [] then [] else [s[|s| - 1]] + Reversed(s[..|s| - 1])
  }

  function Min(a: int, b: int): int { if a < b then a else b }

  function Fill(n: int, c: char): string { seq(if n < 0 then 0 else n, _ => c) }

  /** At least `prec` digits, zeros added on the left, and at least `width` characters, spaces added on the left;
      both are limited to 22. */
  function Padded(digits: string, prec: int, width: int): string {
    var zeros := Fill(Min(prec, REV_SIZE) - |digits|, '0') + digits;
    Fill(Min(width, REV_SIZE) - |zeros|, ' ') + zeros
  }

  /** The digit loop of print_uint: the digits of the number, reversed. */
  method ReverseDigits(rev: array<char>, n0: nat, base: nat, smalls: bool) returns (i: nat)
    requires Base(base) && n0 < 0x1_0000_0000_0000_0000 && rev.Length == REV_SIZE
    modifies rev
    ensures i <= REV_SIZE && Reversed(rev[..i]) == Digits(n0, base, smalls)
  {
    hide Digits, Reversed;
    i := 0;
    var n: nat := n0;
    ghost var digits := Digits(n0, base, smalls);
    FitsScratch(n0, base, smalls);
    NothingReversed();
    assert rev[..0] == [] && digits + [] == digits;
    while true
      invariant i + |Digits(n, base, smalls)| == |digits|
      invariant digits == Digits(n, base, smalls) + Reversed(rev[..i])
      decreases n
    {
      LowDigit(n, base, smalls, rev[..i], digits);
      AppendReversed(rev[..i], Digit(n % base, smalls));
      rev[i] := Digit(n % base, smalls);
      assert rev[..i + 1] == rev[..i] + [Digit(n % base, smalls)];
      i := i + 1;
      if n / base == 0 { break; }
      n := n / base;
    }
  }

  /** The digit and padding loops of print_uint: fills the scratch buffer with the padded number, reversed. */
  method Reverse(rev: array<char>, n0: nat, base: nat, smalls: bool, prec0: int, width0: int) returns (i: nat)
    requires Base(base) && n0 < 0x1_0000_0000_0000_0000 && rev.Length == REV_SIZE
    modifies rev
    ensures i <= REV_SIZE && Reversed(rev[..i]) == Padded(Digits(n0, base, smalls), prec0, width0)
  {
    hide Digits, Reversed, Fill;
    ghost var digits := Digits(n0, base, smalls);
    i := ReverseDigits(rev, n0, base, smalls);
    i := Pad(rev, i, Min(prec0, REV_SIZE), '0', digits);
    i := Pad(rev, i, Min(width0, REV_SIZE), ' ', Fill(Min(prec0, REV_SIZE) - |digits|, '0') + digits);
  }

  /** One padding loop of print_uint. */
  method Pad(rev: array<char>, i0: nat, limit: int, c: char, ghost text: string) returns (i: nat)
    requires i0 <= rev.Length && limit <= rev.Length && Reversed(rev[..i0]) == text
    modifies rev
    ensures i <= rev.Length && Reversed(rev[..i]) == Fill(limit - |text|, c) + text
  {
    hide Reversed, Fill;
    i := i0;
    NoFill(0, c, text);
    if limit <= i0 { NoFill(limit - |text|, c, text); }
    while i < limit
      invariant i0 <= i <= rev.Length && (i > i0 ==> i <= limit)
      invariant Reversed(rev[..i]) == Fill(i - |text|, c) + text
    {
      AppendReversed(rev[..i], c);
      MoreFill(i - |text|, c, text);
      rev[i] := c;
      assert rev[..i + 1] == rev[..i] + [c];
      i := i + 1;
    }
  }

  /** print_uint into a buffer: the padded number, cut to `size` characters; the scratch buffer is never overrun. */
  method PrintUint(buf: array<char>, at: nat, size: int, n0: nat, base: nat, smalls: bool, prec: int, width: int)
    returns (written: nat)
    requires Base(base) && n0 < 0x1_0000_0000_0000_0000
    requires size > 0 ==> at + size <= buf.Length
    modifies buf
    ensures size <= 0 ==> written == 0 && buf[..] == old(buf[..])
    ensures size > 0 ==>
              var text := Padded(Digits(n0, base, smalls), prec, width);
              && |text| <= REV_SIZE && written == Min(size, |text|)
              && buf[..] == old(buf[..at]) + text[..written] + old(buf[at + written..])
  {
    hide Digits, Padded, Put, Reversed, Fill;
    if size <= 0 { return 0; }
    var rev := new char[REV_SIZE];
    var len := Reverse(rev, n0, base, smalls, prec, width);
    ghost var backwards := rev[..len];
    ghost var text := Reversed(backwards);
    ghost var before := buf[..];
    var j := len - 1;
    written := 0;
    PutIs(before, at, text, 0);
    while j >= 0 && written < size
      invariant -1 <= j < len <= REV_SIZE && written <= size && written == len - 1 - j
      invariant buf[..] == Put(before, at, text, written)
      invariant rev[..len] == backwards
    {
      assert text[written] == backwards[j];
      PutNext(before, at, text, written);
      buf[at + written] := rev[j];
      written := written + 1;
      j := j - 1;
    }
    PutIs(before, at, text, written);
  }

  /** A buffer after the first `k` characters of `text` were stored from `at`. */
  ghost function Put(before: string, at: nat, text: string, k: nat): (r: string)
    requires k <= |text| && at + k <= |before|
    ensures |r| == |before|
  {
    before[..at] + text[..k] + before[at + k..]
  }

  lemma PutNext(before: string, at: nat, text: string, k: nat)
    requires k < |text| && at + k < |before|
    ensures Put(before, at, text, k)[at + k := text[k]] == Put(before, at, text, k + 1)
  {
  }

  lemma PutIs(before: string, at: nat, text: string, k: nat)
    requires k <= |text| && at + k <= |before|
    ensures Put(before, at, text, k) == before[..at] + text[..k] + before[at + k..]
    ensures k == 0 ==> Put(before, at, text, k) == before
  {
  }

  lemma NothingReversed()
    ensures Reversed([]) == []
  {
  }

  lemma AppendReversed(s: string, c: char)
    ensures Reversed(s + [c]) == [c] + Reversed(s)
  {
    assert (s + [c])[..|s|] == s;
  }

  lemma NoFill(n: int, c: char, s: string)
    requires n <= 0
    ensures Fill(n, c) + s == s
  {
  }

  lemma MoreFill(n: nat, c: char, s: string)
    ensures [c] + (Fill(n, c) + s) == Fill(n + 1, c) + s
  {
  }

  /** Taking the low digit of what is left. */
  lemma LowDigit(n: nat, base: nat, smalls: bool, done: string, digits: string)
    requires Base(base) && digits == Digits(n, base, smalls) + Reversed(done)
    ensures var c := Digit(n % base, smalls);
            if n / base == 0 then digits == [c] + Reversed(done)
            else digits == Digits(n / base, base, smalls) + ([c] + Reversed(done))
                 && |Digits(n, base, smalls)| == |Digits(n / base, base, smalls)| + 1
  {
    if n < base {
      assert n / base == 0 && n % base == n;
    }
  }

  // ----- what the text means -----

  /** The value of a digit; 16 for anything else. */
  function ValueOf(c: char): nat {
    if '0' <= c <= '9' then (c - '0') as nat
    else if 'a' <= c <= 'f' then (c - 'a') as nat + 10
    else if 'A' <= c <= 'F' then (c - 'A') as nat + 10
    else 16
  }

  function NumberOf(s: string, base: nat): nat {
    if s == [] then 0 else NumberOf(s[..|s| - 1], base) * base + ValueOf(s[|s| - 1])
  }

  /** A digit of the base, its letter in the case asked for. */
  predicate IsDigitOf(c: char, base: nat, smalls: bool) {
    ValueOf(c) < base && ('A' <= c <= 'F' ==> !smalls) && ('a' <= c <= 'f' ==> smalls)
  }

  lemma DigitMeans(d: nat, base: nat, smalls: bool)
    requires Base(base) && d < base
    ensures ValueOf(Digit(d, smalls)) == d && IsDigitOf(Digit(d, smalls), base, smalls)
  {
  }

  predicate AllDigits(s: string, base: nat, smalls: bool) { forall i :: 0 <= i < |s| ==> IsDigitOf(s[i], base, smalls) }

  lemma NumberAppend(s: string, c: char, base: nat)
    ensures NumberOf(s + [c], base) == NumberOf(s, base) * base + ValueOf(c)
  {
    assert (s + [c])[..|s|] == s;
  }

  lemma Rebuilt(n: nat, base: nat)
    requires base > 0
    ensures n / base * base + n % base == n
  {
  }

  /** In base 8, 10 and 16 the digits are digits of the base, stand for the number, and start with 0 for 0 alone. */
  lemma {:induction false} DigitsMean(n: nat, base: nat, smalls: bool)
    requires Base(base)
    ensures var s := Digits(n, base, smalls);
            && AllDigits(s, base, smalls) && NumberOf(s, base) == n && (s[0] == '0' ==> n == 0 && |s| == 1)
    decreases n
  {
    hide Digit, ValueOf, IsDigitOf, NumberOf;
    DigitMeans(n % base, base, smalls);
    var c := Digit(n % base, smalls);
    if n < base {
      assert n % base == n && [] + [c] == [c];
      NumberAppend([], c, base);
      NoneIsZero(base);
      LeadingZero(c);
    } else {
      var front := Digits(n / base, base, smalls);
      DigitsMean(n / base, base, smalls);
      NumberAppend(front, c, base);
      Rebuilt(n, base);
      assert n / base > 0;
    }
  }

  lemma NoneIsZero(base: nat)
    ensures NumberOf("", base) == 0
  {
  }

  lemma LeadingZero(c: char)
    ensures c == '0' ==> ValueOf(c) == 0
  {
  }

  /** The digits stand at the right end; left of them come zeros up to the precision, and left of these blanks up to the
      width, with both counted as 22 when they are larger. */
  lemma PaddedMeans(digits: string, prec: int, width: int)
    requires 0 < |digits| <= 22
    ensures var t := Padded(digits, prec, width);
            var p := if prec > 22 then 22 else prec;
            var w := if width > 22 then 22 else width;
            var zeros := if p > |digits| then p - |digits| else 0;
            var blanks := if w > |digits| + zeros then w - |digits| - zeros else 0;
            && |t| == blanks + zeros + |digits| && t[blanks + zeros..] == digits
            && (forall k :: 0 <= k < blanks ==> t[k] == ' ') && (forall k :: blanks <= k < blanks + zeros ==> t[k] == '0')
  {
  }

  // ----- plain %d -----

  const INT_MIN := -0x8000_0000
  const INT_MAX := 0x7fff_ffff

  /** The text of a signed number. */
  function Decimal(n: int): string {
    if n < 0 then "-" + Digits(-n, 10, false) else Digits(n, 10, false)
  }

  /** The %d case of vxnprintf with no flags, width or precision: the sign, then the negated number as unsigned. */
  method PrintInt(buf: array<char>, at: nat, size: int, arg: int) returns (written: nat)
    requires INT_MIN <= arg <= INT_MAX && size > 0 && at + size <= buf.Length
    modifies buf
    ensures var text := Decimal(arg);
            written == Min(size, |text|) && buf[..] == old(buf[..at]) + text[..written] + old(buf[at + written..])
  {
    hide Digits, Fill, Padded, Decimal;
    var n := arg;
    written := 0;
    ghost var before := buf[..];
    if arg < 0 {
      buf[at] := '-';
      written := 1;
      n := -arg;
    }
    ghost var mid := buf[..];
    ghost var digits := Digits(n, 10, false);
    var w := PrintUint(buf, at + written, size - written, n, 10, false, 0, 0);
    NoPadding(digits);
    if arg < 0 {
      SignedText(before, mid, buf[..], at, digits, w);
    } else {
      DecimalIs(arg);
    }
    DecimalIs(arg);
    written := written + w;
  }

  /** What a `%d` leaves in the buffer: the text, cut so that a zero fits behind it within `size`. */
  function Printed(before: string, at: nat, size: nat, arg: int): (after: string)
    requires 0 < size && at + size <= |before|
    ensures |after| == |before|
  {
    var k := Min(|Decimal(arg)|, size - 1);
    before[..at] + Decimal(arg)[..k] + ['\0'] + before[at + k + 1..]
  }

  /** vxnprintf of the format "%d": when the text fills the buffer, the zero takes the place of its last character and
      the result is -1. */
  method PrintDecimal(buf: array<char>, at: nat, size: int, arg: int) returns (written: int)
    requires INT_MIN <= arg <= INT_MAX
    requires size > 0 ==> at + size <= buf.Length
    modifies buf
    ensures size <= 0 ==> written == 0 && buf[..] == old(buf[..])
    ensures size > 0 ==> written == if |Decimal(arg)| < size then |Decimal(arg)| else -1
    ensures size > 0 ==> buf[..] == Printed(old(buf[..]), at, size, arg)
  {
    hide Decimal;
    if size <= 0 { return 0; }
    ghost var before := buf[..];
    var end: nat := at;
    written := PrintInt(buf, at, size, arg);
    end := end + written;
    ghost var mid := buf[..];
    if written == size {
      end := end - 1;
      written := -1;
    }
    buf[end] := '\0';
    Terminated(before, mid, at, size, arg, end);
  }

  lemma Terminated(before: string, mid: string, at: nat, size: nat, arg: int, end: nat)
    requires 0 < size && at + size <= |before|
    requires var w := Min(size, |Decimal(arg)|);
             mid == before[..at] + Decimal(arg)[..w] + before[at + w..] && end == at + if w == size then w - 1 else w
    ensures end < |mid| && mid[end := '\0'] == Printed(before, at, size, arg)
  {
    hide Decimal;
  }

  lemma DecimalIs(n: int)
    ensures n < 0 ==> Decimal(n) == "-" + Digits(-n, 10, false)
    ensures n >= 0 ==> Decimal(n) == Digits(n, 10, false)
  {
  }

  /** A sign at `at` and `w` digits after it. */
  lemma SignedText(before: string, mid: string, after: string, at: nat, digits: string, w: nat)
    requires at + 1 + w <= |before| && w <= |digits| && mid == before[at := '-']
    requires after == mid[..at + 1] + digits[..w] + mid[at + 1 + w..] || (w == 0 && after == mid)
    ensures after == before[..at] + ("-" + digits)[..1 + w] + before[at + 1 + w..]
  {
    assert mid[..at + 1] == before[..at] + ['-'];
    assert ("-" + digits)[..1 + w] == ['-'] + digits[..w];
    assert mid[at + 1 + w..] == before[at + 1 + w..];
    assert mid == mid[..at + 1] + mid[at + 1..];
  }

  lemma NoPadding(digits: string)
    ensures Padded(digits, 0, 0) == digits
  {
    assert Fill(0 - |digits|, '0') == [];
  }

  // ----- atoi -----

  predicate IsBlank(c: char) { c == ' ' || c == '\t' || c == '\r' || c == '\n' }

  predicate IsDigit(c: char) { '0' <= c <= '9' }

  function DigitValue(c: char): int { c as int - '0' as int }

  /** The position after the blanks from `i` on. */
  function SkipBlanks(s: string, i: nat): (j: nat)
    requires i <= |s|
    ensures i <= j <= |s|
    decreases |s| - i
  {
    if i < |s| && IsBlank(s[i]) then SkipBlanks(s, i + 1) else i
  }

  /** The value after reading the digits from `i` on. */
  function ReadDigits(s: string, i: nat, sign: int, value: int): int
    requires i <= |s|
    decreases |s| - i
  {
    if i < |s| && IsDigit(s[i]) then ReadDigits(s, i + 1, sign, 10 * value + sign * DigitValue(s[i])) else value
  }

  function Parse(s: string): int {
    var i := SkipBlanks(s, 0);
    if i == |s| then 0
    else if s[i] == '-' then ReadDigits(s, i + 1, -1, 0)
    else if s[i] == '+' then ReadDigits(s, i + 1, 1, 0)
    else ReadDigits(s, i, 1, 0)
  }

  method Atoi(s: string) returns (value: int)
    ensures value == Parse(s)
  {
    var sign := 1;
    var i: nat := 0;
    value := 0;
    while i < |s| && IsBlank(s[i])
      invariant i <= |s| && SkipBlanks(s, 0) == SkipBlanks(s, i)
    {
      i := i + 1;
    }
    if i == |s| { return 0; }
    if s[i] == '-' {
      sign := -1;
      i := i + 1;
    } else if s[i] == '+' {
      i := i + 1;
    }
    ghost var start := i;
    while i < |s| && IsDigit(s[i])
      invariant start <= i <= |s|
      invariant ReadDigits(s, start, sign, 0) == ReadDigits(s, i, sign, value)
    {
      value := 10 * value + sign * DigitValue(s[i]);
      i := i + 1;
    }
  }

  /** Blanks: space, tab, carriage return and newline. */
  predicate AllBlank(b: string) { forall i :: 0 <= i < |b| ==> b[i] in " \t\r\n" }

  predicate AllDecimal(digits: string) { forall i :: 0 <= i < |digits| ==> '0' <= digits[i] <= '9' }

  /** What atoi makes of blanks, perhaps a sign, digits, and something that is no digit: the number the digits stand for,
      negated behind a minus sign; 0 when there are none. */
  lemma ParseMeans(blanks: string, sign: string, digits: string, rest: string)
    requires AllBlank(blanks) && AllDecimal(digits) && (sign == "" || sign == "-" || sign == "+")
    requires rest == "" || !('0' <= rest[0] <= '9')
    requires sign == "" && digits == "" ==> rest == "" || rest[0] !in " \t\r\n+-"
    ensures var n: int := NumberOf(digits, 10); Parse(blanks + sign + digits + rest) == if sign == "-" then -n else n
  {
    hide ReadDigits, NumberOf, SkipBlanks;
    var tail := sign + digits + rest;
    var s := blanks + sign + digits + rest;
    assert s == blanks + tail;
    assert tail == "" || tail[0] !in " \t\r\n" by {
      if sign == "" && digits != "" { assert tail[0] == digits[0]; }
      if sign != "" { assert tail[0] == sign[0]; }
    }
    SkipsAll(blanks, tail, 0);
    var pre := blanks + sign;
    var up := if sign == "-" then -1 else 1;
    assert s == pre + digits + rest;
    ReadsAll(pre, digits, rest, up, |digits|);
    assert digits[..|digits|] == digits;
    StopsReading(s, |pre| + |digits|, up, up * NumberOf(digits, 10));
    if tail == "" {
      assert digits == "";
      NoneIsZero(10);
    } else if sign != "" {
      assert s[|blanks|] == sign[0];
    } else {
      assert s[|blanks|] == tail[0] && tail[0] != '-' && tail[0] != '+';
    }
  }

  lemma {:induction false} SkipsAll(blanks: string, tail: string, i: nat)
    requires AllBlank(blanks) && (tail == "" || tail[0] !in " \t\r\n") && i <= |blanks|
    ensures SkipBlanks(blanks + tail, i) == |blanks|
    decreases |blanks| - i
  {
    var s := blanks + tail;
    if i < |blanks| {
      assert s[i] == blanks[i];
      SkipsAll(blanks, tail, i + 1);
    } else if i < |s| {
      assert s[i] == tail[0];
    }
  }

  lemma {:induction false} ReadsAll(pre: string, digits: string, rest: string, up: int, k: nat)
    requires AllDecimal(digits) && k <= |digits|
    ensures var s := pre + digits + rest;
            ReadDigits(s, |pre|, up, 0) == ReadDigits(s, |pre| + k, up, up * NumberOf(digits[..k], 10))
    decreases k
  {
    hide ReadDigits, NumberOf;
    var s := pre + digits + rest;
    if k > 0 {
      ReadsAll(pre, digits, rest, up, k - 1);
      assert digits[..k] == digits[..k - 1] + [digits[k - 1]];
      NumberAppend(digits[..k - 1], digits[k - 1], 10);
      assert s[|pre| + k - 1] == digits[k - 1];
      ReadsOne(s, |pre| + k - 1, up, NumberOf(digits[..k - 1], 10));
    } else {
      assert digits[..0] == "";
      NoneIsZero(10);
    }
  }

  lemma ReadsOne(s: string, i: nat, up: int, value: int)
    requires i < |s| && '0' <= s[i] <= '9'
    ensures ReadDigits(s, i, up, up * value) == ReadDigits(s, i + 1, up, up * (value * 10 + ValueOf(s[i])))
  {
    assert up * (value * 10 + ValueOf(s[i])) == 10 * (up * value) + up * ValueOf(s[i]);
  }

  lemma StopsReading(s: string, i: nat, up: int, value: int)
    requires i <= |s| && (i == |s| || !('0' <= s[i] <= '9'))
    ensures ReadDigits(s, i, up, value) == value
  {
  }

  // ----- the round trip -----

  /** A text that ends here or goes on with something that is no digit. */
  predicate Ends(rest: string) { rest == [] || !IsDigit(rest[0]) }

  lemma DecimalDigit(d: nat)
    requires d < 10
    ensures IsDigit(Digit(d, false)) && DigitValue(Digit(d, false)) == d && Digit(d, false) != '-' && Digit(d, false) != '+'
    ensures !IsBlank(Digit(d, false))
  {
  }

  /** Reading the digits of `n`, from any point where reading stands at `value`, reads on with 10^k * value + n. */
  function Shifted(value: int, n: nat): int {
    if n < 10 then 10 * value else 10 * Shifted(value, n / 10)
  }

  lemma {:induction false} ReadsDigits(pre: string, n: nat, rest: string, sign: int, value: int)
    ensures var s := pre + Digits(n, 10, false) + rest;
            ReadDigits(s, |pre|, sign, value)
            == ReadDigits(s, |pre| + |Digits(n, 10, false)|, sign, Shifted(value, n) + sign * n)
    decreases n
  {
    hide ReadDigits, Digits, Shifted, DigitValue;
    var s := pre + Digits(n, 10, false) + rest;
    LastDigit(n);
    DecimalDigit(n % 10);
    ShiftedIs(value, n);
    if n < 10 {
      OneDigit(s, |pre|, sign, value);
    } else {
      var low := [Digit(n % 10, false)];
      assert s == pre + Digits(n / 10, 10, false) + (low + rest);
      ReadsDigits(pre, n / 10, low + rest, sign, value);
      var j := |pre| + |Digits(n / 10, 10, false)|;
      assert s[j] == Digit(n % 10, false);
      OneDigit(s, j, sign, Shifted(value, n / 10) + sign * (n / 10));
      SignSplits(sign, n / 10, n % 10, n);
    }
  }

  lemma LastDigit(n: nat)
    ensures Digits(n, 10, false) == (if n < 10 then [] else Digits(n / 10, 10, false)) + [Digit(n % 10, false)]
    ensures n == 10 * (n / 10) + n % 10
  {
  }

  lemma ShiftedIs(value: int, n: nat)
    ensures Shifted(value, n) == if n < 10 then 10 * value else 10 * Shifted(value, n / 10)
  {
  }

  lemma OneDigit(s: string, i: nat, sign: int, value: int)
    requires i < |s| && IsDigit(s[i])
    ensures ReadDigits(s, i, sign, value) == ReadDigits(s, i + 1, sign, 10 * value + sign * DigitValue(s[i]))
  {
  }

  lemma SignSplits(sign: int, q: nat, r: nat, n: nat)
    requires n == 10 * q + r
    ensures 10 * (sign * q) + sign * r == sign * n
  {
    assert sign * n == sign * (10 * q) + sign * r;
  }

  lemma {:induction false} ShiftedZero(n: nat)
    ensures Shifted(0, n) == 0
    decreases n
  {
    if n >= 10 { ShiftedZero(n / 10); }
  }

  lemma {:induction false} FirstDigit(n: nat)
    ensures IsDigit(Digits(n, 10, false)[0]) && !IsBlank(Digits(n, 10, false)[0])
    decreases n
  {
    if n < 10 { DecimalDigit(n); } else { FirstDigit(n / 10); }
  }

  /** Reading a printed number back gives the number, whatever non-digit follows the text. */
  lemma ParseDecimal(n: int, rest: string)
    requires Ends(rest)
    ensures Parse(Decimal(n) + rest) == n
  {
    hide Digits;
    var m := if n < 0 then -n else n;
    var pre := if n < 0 then "-" else "";
    var sign := if n < 0 then -1 else 1;
    var s := Decimal(n) + rest;
    assert s == pre + Digits(m, 10, false) + rest;
    FirstDigit(m);
    assert s[|pre|] == Digits(m, 10, false)[0];
    ReadsDigits(pre, m, rest, sign, 0);
    ShiftedZero(m);
    var j := |pre| + |Digits(m, 10, false)|;
    assert rest != [] ==> s[j] == rest[0];
  }

  /** While a printed number is read back, the value stays between 0 and the number: it never overflows. */
  lemma {:induction false} PartialValues(n: nat, k: nat, sign: int) returns (q: nat)
    requires k <= |Digits(n, 10, false)|
    ensures q <= n && ReadDigits(Digits(n, 10, false)[..k], 0, sign, 0) == sign * q
    decreases n
  {
    hide ReadDigits, Digits;
    var s := Digits(n, 10, false);
    LastDigit(n);
    if k == |s| {
      q := n;
      ReadsDigits("", n, "", sign, 0);
      ShiftedZero(n);
      assert "" + s + "" == s && s[..k] == s;
      AtEnd(s, sign, sign * n);
    } else if n < 10 {
      q := 0;
      assert s[..k] == [];
      AtEnd([], sign, 0);
    } else {
      q := PartialValues(n / 10, k, sign);
      assert s[..k] == Digits(n / 10, 10, false)[..k];
    }
  }

  lemma AtEnd(s: string, sign: int, value: int)
    ensures ReadDigits(s, |s|, sign, value) == value
  {
  }

  function Pow10(k: nat): nat { if k == 0 then 1 else 10 * Pow10(k - 1) }

  lemma {:induction false} DecimalBound(n: nat, k: nat)
    requires n < Pow10(k) && k > 0
    ensures |Digits(n, 10, false)| <= k
    decreases k
  {
    if n >= 10 { DecimalBound(n / 10, k - 1); }
  }

  /** 11 characters are enough for any 32-bit number. */
  lemma DecimalFits(n: int)
    requires INT_MIN <= n <= INT_MAX
    ensures |Decimal(n)| <= 11
  {
    hide Digits;
    assert Pow10(5) == 100000;
    assert Pow10(10) == 10000000000;
    DecimalBound(if n < 0 then -n else n, 10);
    DecimalIs(n);
  }

  /** Cut after at least one digit, the digits of a number are those of a smaller one. */
  lemma {:induction false} DigitsCut(n: nat, k: nat) returns (q: nat)
    requires 0 < k < |Digits(n, 10, false)|
    ensures 0 < q < n && Digits(n, 10, false)[..k] == Digits(q, 10, false)
    decreases n
  {
    hide Digits;
    LastDigit(n);
    var high := Digits(n / 10, 10, false);
    if k == |high| {
      q := n / 10;
      assert Digits(n, 10, false)[..k] == high;
    } else {
      q := DigitsCut(n / 10, k);
      assert Digits(n, 10, false)[..k] == high[..k];
    }
  }

  /** A text cut too short for all digits reads as another number. */
  lemma CutReadsLess(arg: int, k: nat, rest: string)
    requires arg != 0 && k < |Decimal(arg)| && rest != [] && rest[0] == '\0'
    ensures Parse(Decimal(arg)[..k] + rest) != arg
  {
    hide Digits, ReadDigits;
    var sign := if arg < 0 then 1 else 0;
    var n := if arg < 0 then -arg else arg;
    var s := Decimal(arg)[..k] + rest;
    if k <= sign {
      NoDigits(if k == 0 then "" else "-", rest);
      assert Decimal(arg)[..k] == if k == 0 then "" else "-";
    } else {
      var q := DigitsCut(n, k - sign);
      var shorter: int := if arg < 0 then -(q as int) else q;
      assert Decimal(arg)[..k] == Decimal(shorter);
      ParseDecimal(shorter, rest);
    }
  }

  /** atoi of a zero byte, with or without a sign before it, is 0. */
  lemma NoDigits(sign: string, rest: string)
    requires sign == "" || sign == "-"
    requires rest != [] && rest[0] == '\0'
    ensures Parse(sign + rest) == 0
  {
    assert SkipBlanks(sign + rest, 0) == 0;
  }

  /** atoi reads back what %d left in a buffer exactly when the text and its zero fit, and 0 always. */
  lemma PrintThenReadIff(before: string, at: nat, size: nat, arg: int)
    requires 0 < size && at + size <= |before|
    ensures Parse(Printed(before, at, size, arg)[at..]) == arg <==> arg == 0 || |Decimal(arg)| < size
  {
    hide Decimal, Parse;
    var k := Min(|Decimal(arg)|, size - 1);
    var rest := ['\0'] + before[at + k + 1..];
    assert Printed(before, at, size, arg)[at..] == Decimal(arg)[..k] + rest;
    if |Decimal(arg)| < size {
      assert Decimal(arg)[..k] == Decimal(arg);
      ParseDecimal(arg, rest);
    } else if arg != 0 {
      CutReadsLess(arg, k, rest);
    } else {
      OneZero();
      assert Decimal(arg)[..k] == "";
      NoDigits("", rest);
    }
  }

  lemma OneZero()
    ensures |Decimal(0)| == 1
  {
  }

  /** So 12 characters are enough for every 32-bit number. */
  lemma TwelveSuffice(before: string, at: nat, size: nat, arg: int)
    requires INT_MIN <= arg <= INT_MAX && size >= 12 && at + size <= |before|
    ensures Parse(Printed(before, at, size, arg)[at..]) == arg
  {
    hide Decimal, Parse, Printed;
    DecimalFits(arg);
    PrintThenReadIff(before, at, size, arg);
  }

  /** And 11 are not: the least number loses its last digit. */
  lemma ElevenCut(before: string, at: nat)
    requires at + 11 <= |before|
    ensures Parse(Printed(before, at, 11, INT_MIN)[at..]) == -214748364
  {
    hide Digits, Parse;
    LastDigit(2147483648);
    DecimalIs(INT_MIN);
    DecimalIs(-214748364);
    NineDigits();
    var rest := ['\0'] + before[at + 11..];
    assert Printed(before, at, 11, INT_MIN)[at..] == Decimal(-214748364) + rest;
    ParseDecimal(-214748364, rest);
  }

  lemma NineDigits()
    ensures |Digits(214748364, 10, false)| == 9
  {
    assert |Digits(214748, 10, false)| == 6;
  }
}
