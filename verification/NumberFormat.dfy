/**
 * The number formatter of x64_kenerl/libs/vsprintf.c: skip_atoi, do_div and number, on 32-bit patterns.
 */
module NumberFormat {
  import opened Arith

  type int32 = x: int | -0x8000_0000 <= x < 0x8000_0000

  /** The flag bits of the type argument. */
  datatype Flags = Flags(zeroPad: bool, sign: bool, plus: bool, space: bool, left: bool, special: bool, small: bool)

  /** The pattern read as unsigned, and back. */
  function Unsigned(x: int32): nat {
    if x < 0 then x + U32 else x
  }

  function Wrap(x: int): int32 {
    var m := x % U32;
    if m < 0x8000_0000 then m else m - U32
  }

  // ----- digits

  const UPPER := "0123456789ABCDEFGHIJKLMNOPQRSTUVWXYZ"
  const LOWER := "0123456789abcdefghijklmnopqrstuvwxyz"

  function DigitChar(d: nat, small: bool): char
    requires d < 36
  {
    if small then LOWER[d] else UPPER[d]
  }

  /** How a reader takes a character; 36 for one that is no digit in any base. */
  function DigitValue(c: char): nat {
    if '0' <= c <= '9' then c as int - '0' as int
    else if 'A' <= c <= 'Z' then c as int - 'A' as int + 10
    else if 'a' <= c <= 'z' then c as int - 'a' as int + 10
    else 36
  }

  lemma DigitInverse(d: nat, small: bool)
    requires d < 36
    ensures DigitValue(DigitChar(d, small)) == d
    ensures DigitChar(d, small) == '0' <==> d == 0
  {
    UpperInverse(d);
    LowerInverse(d);
  }

  lemma UpperInverse(d: nat)
    requires d < 36
    ensures DigitValue(UPPER[d]) == d
  {
  }

  lemma LowerInverse(d: nat)
    requires d < 36
    ensures DigitValue(LOWER[d]) == d
  {
  }

  lemma DigitInBase(d: nat, base: nat, small: bool)
    requires d < base && 2 <= base <= 36
    ensures DigitIn(DigitChar(d, small), base, small) && DigitValue(DigitChar(d, small)) == d
    ensures DigitChar(d, small) == '0' <==> d == 0
  {
    hide DigitChar, DigitValue;
    DigitInverse(d, small);
  }

  /** The digits of n, most significant first. */
  function Digits(n: nat, base: nat, small: bool): (s: string)
    requires 2 <= base <= 36
    ensures |s| > 0
  {
    if n < base then [DigitChar(n, small)]
    else
      NotZero(n, base);
      Digits(n / base, base, small) + [DigitChar(n % base, small)]
  }

  /** What a reader makes of a run of digits. */
  function Value(s: string, base: nat): nat {
    if s == "" then 0 else Value(s[..|s| - 1], base) * base + DigitValue(s[|s| - 1])
  }

  /** A run of digits as number writes it: digits of the base in one case, no leading zero unless it is just 0. */
  predicate Canonical(s: string, base: nat, small: bool)
    requires 2 <= base <= 36
  {
    |s| > 0 && (forall i :: 0 <= i < |s| ==> DigitIn(s[i], base, small)) && (s[0] == '0' ==> |s| == 1)
  }

  predicate DigitIn(c: char, base: nat, small: bool)
    requires 2 <= base <= 36
  {
    DigitValue(c) < base && DigitChar(DigitValue(c), small) == c
  }

  /** The digits read back as the number, and have the canonical form. */
  lemma {:induction false} DigitsRead(n: nat, base: nat, small: bool)
    requires 2 <= base <= 36
    ensures Value(Digits(n, base, small), base) == n
    ensures Canonical(Digits(n, base, small), base, small) && (Digits(n, base, small)[0] == '0' <==> n == 0)
  {
    hide DigitChar, DigitValue, DigitIn;
    if n < base {
      DigitInBase(n, base, small);
      assert Digits(n, base, small) == [DigitChar(n, small)];
      OneDigit(DigitChar(n, small), base, small);
    } else {
      NotZero(n, base);
      DigitsRead(n / base, base, small);
      AppendDigit(Digits(n / base, base, small), n / base, n % base, base, small);
    }
  }

  lemma AppendDigit(s: string, q: nat, r: nat, base: nat, small: bool)
    requires 2 <= base <= 36 && Canonical(s, base, small) && s[0] != '0' && Value(s, base) == q && r < base
    ensures Canonical(s + [DigitChar(r, small)], base, small)
    ensures Value(s + [DigitChar(r, small)], base) == q * base + r
  {
    DigitInBase(r, base, small);
    NextDigit(s, DigitChar(r, small), base, small);
  }

  lemma OneDigit(c: char, base: nat, small: bool)
    requires 2 <= base <= 36 && DigitIn(c, base, small)
    ensures Value([c], base) == DigitValue(c) && Canonical([c], base, small)
  {
    hide DigitChar, DigitValue, DigitIn;
    var s := [c];
    assert s[..|s| - 1] == "";
    assert Value("", base) == 0;
  }

  lemma NextDigit(s: string, c: char, base: nat, small: bool)
    requires 2 <= base <= 36 && Canonical(s, base, small) && s[0] != '0' && DigitIn(c, base, small)
    ensures Value(s + [c], base) == Value(s, base) * base + DigitValue(c) && Canonical(s + [c], base, small)
  {
    hide DigitChar, DigitValue, DigitIn;
    var t := s + [c];
    assert t[..|t| - 1] == s;
  }

  lemma NotZero(n: nat, base: nat)
    requires 2 <= base <= n
    ensures 0 < n / base < n && n % base < base && n == n / base * base + n % base
  {
  }

  /** Conversely every canonical run is what number writes for its value. */
  lemma {:induction false} DigitsOnly(s: string, base: nat, small: bool)
    requires 2 <= base <= 36 && Canonical(s, base, small)
    ensures Digits(Value(s, base), base, small) == s
  {
    hide DigitChar, DigitValue, DigitIn, Digits;
    var t, c := s[..|s| - 1], s[|s| - 1];
    assert s == t + [c];
    Shorter(s, base, small);
    if t != "" {
      DigitsOnly(t, base, small);
      DigitsRead(Value(t, base), base, small);
    }
    LastDigit(Value(t, base), DigitValue(c), base, small);
  }

  lemma LastDigit(q: nat, r: nat, base: nat, small: bool)
    requires 2 <= base <= 36 && r < base
    ensures q > 0 ==> Digits(q * base + r, base, small) == Digits(q, base, small) + [DigitChar(r, small)]
    ensures q == 0 ==> Digits(q * base + r, base, small) == [DigitChar(r, small)]
  {
    hide DigitChar;
    if q > 0 {
      DivideBack(q, r, base);
    }
  }

  lemma Shorter(s: string, base: nat, small: bool)
    requires 2 <= base <= 36 && Canonical(s, base, small)
    ensures var t, c := s[..|s| - 1], s[|s| - 1];
      DigitValue(c) < base && DigitChar(DigitValue(c), small) == c &&
      (t != "" ==> Canonical(t, base, small) && t[0] != '0')
  {
    hide DigitChar, DigitValue;
    assert DigitIn(s[|s| - 1], base, small);
  }

  lemma DivideBack(q: nat, r: nat, base: nat)
    requires r < base && q > 0
    ensures (q * base + r) / base == q && (q * base + r) % base == r && q * base + r >= base
  {
    DivUnique(q * base + r, base, q, r);
  }

  lemma {:induction false} Pow2Sum(a: nat, b: nat)
    ensures Pow2(a + b) == Pow2(a) * Pow2(b)
  {
    if a > 0 {
      Pow2Sum(a - 1, b);
    }
  }

  lemma Pow2Doubled(k: nat)
    ensures Pow2(2 * k) == Pow2(k) * Pow2(k) && Pow2(1) == 2
  {
    Pow2Sum(k, k);
    assert Pow2(0) == 1;
  }

  /** Below 2^k no more than k digits, in any base. */
  lemma {:induction false} DigitsShort(n: nat, base: nat, small: bool, k: nat)
    requires 2 <= base <= 36 && k > 0 && n < Pow2(k)
    ensures |Digits(n, base, small)| <= k
  {
    assert Pow2(k) == 2 * Pow2(k - 1) && Pow2(0) == 1;
    if n >= base && k > 1 {
      Halved(n, base);
      DigitsShort(n / base, base, small, k - 1);
    }
  }

  lemma Halved(n: nat, base: nat)
    requires base >= 2
    ensures 2 * (n / base) <= n
  {
    assert n == base * (n / base) + n % base;
  }

  // ----- the layout of the output

  function Repeat(c: char, n: int): (s: string)
    ensures |s| == if n > 0 then n else 0
  {
    if n > 0 then seq(n, _ => c) else ""
  }

  function Magnitude(num: int32, f: Flags): nat {
    if f.sign && num < 0 then -(num as int) else Unsigned(num)
  }

  function SignMark(num: int32, f: Flags): string {
    if f.sign && num < 0 then "-" else if f.plus then "+" else if f.space then " " else ""
  }

  function Prefix(base: nat, f: Flags): string {
    if f.special && base == 8 then "0"
    else if f.special && base == 16 then ['0', DigitChar(33, f.small)]
    else ""
  }

  function Max(a: int, b: int): int {
    if a < b then b else a
  }

  function Run(num: int32, base: nat, f: Flags): string
    requires 2 <= base <= 36
  {
    Digits(Magnitude(num, f), base, f.small)
  }

  /** The padding that the digits, the sign and the prefix leave. */
  function Room(num: int32, base: nat, size: int, precision: int, f: Flags): int
    requires 2 <= base <= 36
  {
    size - |SignMark(num, f)| - |Prefix(base, f)| - Max(precision, |Run(num, base, f)|)
  }

  /**
   * The output: padding on the left, before the digits or on the right; then precision zeros and the digits. Its
   * length is the width, or what sign, prefix and digits need where that is more.
   */
  function Layout(num: int32, base: nat, size: int, precision: int, f: Flags): (s: string)
    requires 2 <= base <= 36
    ensures |s| == Max(size, |SignMark(num, f)| + |Prefix(base, f)| + Max(precision, |Run(num, base, f)|))
  {
    var run := Run(num, base, f);
    Arrange(Room(num, base, size, precision, f), SignMark(num, f), Prefix(base, f), Max(precision, |run|) - |run|, run,
      f.zeroPad && !f.left, f.left)
  }

  function Arrange(room: int, sign: string, prefix: string, zeros: int, run: string, zeroPad: bool, left: bool): string
  {
    Repeat(' ', if left || zeroPad then 0 else room) + sign + prefix + Repeat('0', if zeroPad then room else 0) +
    Repeat('0', zeros) + run + Repeat(' ', if left then room else 0)
  }

  // ----- the same in 32 bits

  /** The count after `while (size-- > 0)`. */
  function AfterLoop(size: int32): int32 {
    if size > 0 then -1 else Wrap(size - 1)
  }

  function AfterFirst(room: int32, zeroPad: bool, left: bool): int32 {
    if zeroPad || left then room else AfterLoop(room)
  }

  function AfterSecond(room: int32, zeroPad: bool, left: bool): int32 {
    if left then room else AfterLoop(AfterFirst(room, zeroPad, left))
  }

  /** What the three padding loops write, each with the count that the one before left. */
  function Emitted(
    room: int32, sign: string, prefix: string, zeros: int, run: string, zeroPad: bool, left: bool): string
  {
    Repeat(' ', if zeroPad || left then 0 else room) + sign + prefix +
    Repeat(if zeroPad then '0' else ' ', if left then 0 else AfterFirst(room, zeroPad, left)) +
    Repeat('0', zeros) + run + Repeat(' ', AfterSecond(room, zeroPad, left))
  }

  /** The layout with width and precision, and all that is computed from them, in 32 bits. */
  function Layout32(num: int32, base: nat, size: int32, precision: int32, f: Flags): string
    requires 2 <= base <= 36
  {
    var run := Run(num, base, f);
    Emitted(Wrap(Room(num, base, size, precision, f)), SignMark(num, f), Prefix(base, f), Max(precision, |run|) - |run|,
      run, f.zeroPad && !f.left, f.left)
  }

  /** The loops run the count past the smallest int. */
  predicate RunsOver(room: int32, zeroPad: bool, left: bool) {
    !left && (room == -0x8000_0000 || (!zeroPad && room == -0x7fff_ffff))
  }

  lemma NoPadding(c: char, n: int)
    requires n <= 0
    ensures Repeat(c, n) == ""
  {
  }

  lemma AfterLoopSign(room: int32)
    ensures AfterLoop(room) > 0 <==> room == -0x8000_0000
    ensures AfterLoop(room) == -0x8000_0000 <==> room == -0x7fff_ffff
  {
  }

  lemma EmittedIff(room: int32, sign: string, prefix: string, zeros: int, run: string, zeroPad: bool, left: bool)
    requires !(zeroPad && left)
    ensures !RunsOver(room, zeroPad, left) <==>
      Emitted(room, sign, prefix, zeros, run, zeroPad, left) == Arrange(room, sign, prefix, zeros, run, zeroPad, left)
  {
    hide Repeat, AfterLoop;
    AfterLoopSign(room);
    AfterLoopSign(AfterFirst(room, zeroPad, left));
    forall c, n | n <= 0 ensures Repeat(c, n) == "" {
      NoPadding(c, n);
    }
    if RunsOver(room, zeroPad, left) {
      var n := |sign| + |prefix| + |Repeat('0', zeros)| + |run|;
      assert |Emitted(room, sign, prefix, zeros, run, zeroPad, left)| > n;
      assert |Arrange(room, sign, prefix, zeros, run, zeroPad, left)| == n;
    }
  }

  lemma ArrangeNegative(
    room: int, other: int, sign: string, prefix: string, zeros: int, run: string, zeroPad: bool, left: bool)
    requires room <= 0 && other <= 0
    ensures Arrange(room, sign, prefix, zeros, run, zeroPad, left) ==
      Arrange(other, sign, prefix, zeros, run, zeroPad, left)
  {
    NoPadding(' ', room);
    NoPadding(' ', other);
    NoPadding('0', room);
    NoPadding('0', other);
  }

  lemma ArrangeLength(room: int, sign: string, prefix: string, zeros: int, run: string, zeroPad: bool, left: bool)
    requires !(zeroPad && left)
    ensures |Arrange(room, sign, prefix, zeros, run, zeroPad, left)| ==
      |sign| + |prefix| + |Repeat('0', zeros)| + |run| + Max(room, 0)
  {
  }

  lemma WrapRange(x: int)
    requires -0x1_0000_0002 <= x < 0x8000_0000
    ensures x >= -0x8000_0000 ==> Wrap(x) == x
    ensures x < -0x8000_0000 ==> Wrap(x) == x + U32
  {
  }

  /**
   * Exactly when 32 bits are enough for width and precision: what the width leaves stays above the smallest int by
   * as much as the loops count it down, or falls so far below that it wraps to nothing again.
   */
  lemma WidthIff(num: int32, base: nat, size: int32, precision: int32, f: Flags)
    requires 2 <= base <= 36
    ensures var room := Room(num, base, size, precision, f);
      Layout32(num, base, size, precision, f) == Layout(num, base, size, precision, f) <==>
        (room >= -0x8000_0000 && !RunsOver(room, f.zeroPad && !f.left, f.left)) || room <= -U32
  {
    hide Emitted, Arrange, Digits, DigitChar, Wrap;
    var room := Room(num, base, size, precision, f);
    var w := Wrap(room);
    var run, sign, prefix := Run(num, base, f), SignMark(num, f), Prefix(base, f);
    var zeros, zeroPad := Max(precision, |run|) - |run|, f.zeroPad && !f.left;
    RunLength32(num, base, f);
    WrapRange(room);
    EmittedIff(w, sign, prefix, zeros, run, zeroPad, f.left);
    if room < -0x8000_0000 {
      if w <= 0 {
        ArrangeNegative(room, w, sign, prefix, zeros, run, zeroPad, f.left);
      } else {
        ArrangeLength(room, sign, prefix, zeros, run, zeroPad, f.left);
        ArrangeLength(w, sign, prefix, zeros, run, zeroPad, f.left);
      }
    }
  }

  /** So it is for every width from -1 up and every precision that a caller can mean. */
  lemma WidthFits(num: int32, base: nat, size: int32, precision: int32, f: Flags)
    requires 2 <= base <= 36 && size >= -1 && precision <= 0x7fff_fff0
    ensures Layout32(num, base, size, precision, f) == Layout(num, base, size, precision, f)
  {
    hide Layout32, Layout, Digits, DigitChar;
    RunLength32(num, base, f);
    WidthIff(num, base, size, precision, f);
  }

  /** An input that fails: the smallest int as a width wraps to the largest. */
  lemma SmallestWidth(num: int32, base: nat, f: Flags)
    requires 2 <= base <= 36
    ensures Layout32(num, base, -0x8000_0000, 0, f) != Layout(num, base, -0x8000_0000, 0, f)
  {
    hide Layout32, Layout, Digits, DigitChar;
    RunLength32(num, base, f);
    WidthIff(num, base, -0x8000_0000, 0, f);
  }

  lemma RunLength32(num: int32, base: nat, f: Flags)
    requires 2 <= base <= 36
    ensures 1 <= |Run(num, base, f)| <= 32
  {
    hide Digits;
    if f.sign && num < 0 {
      NegateWraps(num);
      Bound(Wrap(-(num as int)), base, f.small);
    } else {
      Bound(num, base, f.small);
    }
  }

  // ----- the code

  /** The div instruction: the dividend is unsigned, the quotient below 2^31. */
  method DoDiv(n: int32, base: int32) returns (q: int32, r: nat)
    requires base >= 2
    ensures Unsigned(n) == q * base + r && r < base && q >= 0
  {
    var u := Unsigned(n);
    var quotient := u / base;
    r := u % base;
    Divides(u, base, quotient, r);
    q := quotient;
  }

  lemma Divides(n: nat, base: nat, q: nat, r: nat)
    requires 2 <= base && n < U32 && q == n / base && r == n % base
    ensures n == q * base + r && r < base && q < 0x8000_0000
  {
    Halved(n, base);
  }

  function Backwards(s: string): (r: string)
    ensures |r| == |s|
  {
    if s == "" then "" else [s[|s| - 1]] + Backwards(s[..|s| - 1])
  }

  lemma BackwardsNext(a: string, i: nat)
    requires i < |a|
    ensures Backwards(a[..i + 1]) == [a[i]] + Backwards(a[..i])
  {
    assert a[..i + 1][..i] == a[..i];
  }

  /** The digits go into tmp least significant first, and never past its 36 characters. */
  method FillTmp(tmp: array<char>, n: int32, base: int32, small: bool) returns (i: nat)
    requires tmp.Length == 36 && 2 <= base <= 36
    modifies tmp
    ensures i <= 32 && Backwards(tmp[..i]) == Digits(Unsigned(n), base, small)
  {
    hide Digits, DigitChar, Backwards;
    i := 0;
    var num := n;
    Bound(n, base, small);
    if num == 0 {
      tmp[0] := '0';
      i := 1;
      JustZero(tmp[..1], base, small);
    } else {
      ghost var all := Digits(Unsigned(n), base, small);
      assert tmp[..0] == "";
      BackwardsEmpty();
      while num != 0
        invariant |all| <= 32 && i <= |all|
        invariant all == Ahead(Unsigned(num), base, small) + Backwards(tmp[..i])
        decreases Unsigned(num)
      {
        var q, d := DoDiv(num, base);
        DivUnique(Unsigned(num), base, q, d);
        DigitOff(all, Unsigned(num), base, small, Backwards(tmp[..i]));
        ghost var was := tmp[..i];
        tmp[i] := DigitChar(d, small);
        BackwardsNext(tmp[..], i);
        assert tmp[..][..i] == was && tmp[..][..i + 1] == tmp[..i + 1];
        i := i + 1;
        num := q;
      }
    }
  }

  lemma BackwardsEmpty()
    ensures Backwards("") == ""
  {
  }

  lemma JustZero(s: string, base: nat, small: bool)
    requires 2 <= base <= 36 && s == "0"
    ensures Backwards(s) == Digits(0, base, small)
  {
    assert s[..0] == "";
  }

  lemma Bound(n: int32, base: nat, small: bool)
    requires 2 <= base <= 36
    ensures |Digits(Unsigned(n), base, small)| <= 32
  {
    Pow2Doubled(1);
    Pow2Doubled(2);
    Pow2Doubled(4);
    Pow2Doubled(8);
    Pow2Doubled(16);
    DigitsShort(Unsigned(n), base, small, 32);
  }

  // The digits not yet taken off.
  function Ahead(n: nat, base: nat, small: bool): string
    requires 2 <= base <= 36
  {
    if n == 0 then "" else Digits(n, base, small)
  }

  // One digit moves from the front part to the back.
  lemma DigitOff(all: string, n: nat, base: nat, small: bool, back: string)
    requires 2 <= base <= 36 && n > 0 && all == Digits(n, base, small) + back
    ensures |back| < |all| && n / base < n && (n / base == 0 <==> n < base)
    ensures all == Ahead(n / base, base, small) + ([DigitChar(n % base, small)] + back)
  {
    hide DigitChar;
    if n >= base {
      NotZero(n, base);
    } else {
      BelowBase(n, base);
    }
  }

  lemma BelowBase(n: nat, base: nat)
    requires n < base
    ensures n / base == 0 && n % base == n
  {
  }

  /** What has been written: out from position at on, the rest as before. */
  predicate Wrote(now: string, was: string, at: nat, out: string) {
    at + |out| <= |was| && now == was[..at] + out + was[at + |out|..]
  }

  lemma WroteMore(was: string, mid: string, now: string, at: nat, out: string, more: string)
    requires Wrote(mid, was, at, out) && Wrote(now, mid, at + |out|, more)
    ensures Wrote(now, was, at, out + more)
  {
  }

  lemma WroteNothing(s: string, at: nat)
    requires at <= |s|
    ensures Wrote(s, s, at, "")
  {
  }

  lemma RepeatMore(out: string, c: char, n: nat)
    ensures out + Repeat(c, n) + [c] == out + Repeat(c, n + 1)
  {
  }

  lemma Empties(out: string, n: int)
    requires n <= 0
    ensures forall c :: out + Repeat(c, n) == out
  {
  }

  // The writers extend what has been written since the text was was, from position at on.
  method Put(str: array<char>, end: nat, c: char, ghost was: string, ghost at: nat, ghost out: string)
    requires end < str.Length && end == at + |out| && Wrote(str[..], was, at, out)
    modifies str
    ensures Wrote(str[..], was, at, out + [c])
  {
    ghost var mid := str[..];
    str[end] := c;
    WroteMore(was, mid, str[..], at, out, [c]);
  }

  // The padding loops.
  method Pad(str: array<char>, start: nat, size: int32, c: char, ghost was: string, ghost at: nat, ghost out: string)
    returns (end: nat, rest: int32)
    requires start + |Repeat(c, size)| <= str.Length && start == at + |out| && Wrote(str[..], was, at, out)
    modifies str
    ensures rest == AfterLoop(size) && end == at + |out + Repeat(c, size)|
    ensures Wrote(str[..], was, at, out + Repeat(c, size))
  {
    hide Wrote;
    end, rest := start, size;
    ghost var k := 0;
    assert out + Repeat(c, k) == out;
    while rest > 0
      invariant end == start + k && k + Max(rest, 0) == |Repeat(c, size)| && k + rest == size
      invariant Wrote(str[..], was, at, out + Repeat(c, k))
    {
      Put(str, end, c, was, at, out + Repeat(c, k));
      RepeatMore(out, c, k);
      end, rest, k := end + 1, rest - 1, k + 1;
    }
    assert Repeat(c, k) == Repeat(c, size);
    WrapRange(rest - 1);
    rest := Wrap(rest - 1);
  }

  // The sign and the prefix.
  method Write(str: array<char>, start: nat, s: string, ghost was: string, ghost at: nat, ghost out: string)
    returns (end: nat)
    requires start + |s| <= str.Length && |s| <= 2 && start == at + |out| && Wrote(str[..], was, at, out)
    modifies str
    ensures end == at + |out + s| && Wrote(str[..], was, at, out + s)
  {
    hide Wrote;
    end := start + |s|;
    if |s| > 0 {
      Put(str, start, s[0], was, at, out);
    }
    if |s| > 1 {
      Put(str, start + 1, s[1], was, at, out + [s[0]]);
    }
    TwoAtMost(out, s);
  }

  lemma TwoAtMost(out: string, s: string)
    requires |s| <= 2
    ensures |s| == 0 ==> out + s == out
    ensures |s| == 1 ==> out + [s[0]] == out + s
    ensures |s| == 2 ==> out + [s[0]] + [s[1]] == out + s
  {
  }

  // The digits, from the last one stored to the first.
  method WriteBackwards(
    str: array<char>, start: nat, tmp: array<char>, n: nat, ghost digits: string,
    ghost was: string, ghost at: nat, ghost out: string)
    returns (end: nat)
    requires n <= tmp.Length && start + n <= str.Length && str != tmp && digits == tmp[..n]
    requires start == at + |out| && Wrote(str[..], was, at, out)
    modifies str
    ensures end == at + |out + Backwards(digits)| && Wrote(str[..], was, at, out + Backwards(digits))
  {
    hide Wrote, Backwards;
    end := start;
    ghost var now := out;
    var i := n;
    while i > 0
      invariant 0 <= i <= n && end == at + |now| && |now| == |out| + n - i
      invariant out + Backwards(digits) == now + Backwards(tmp[..i])
      invariant Wrote(str[..], was, at, now)
    {
      i := i - 1;
      BackwardsNext(tmp[..], i);
      assert tmp[..][..i] == tmp[..i] && tmp[..][..i + 1] == tmp[..i + 1];
      Put(str, end, tmp[i], was, at, now);
      now := now + [tmp[i]];
      end := end + 1;
    }
    BackwardsEmpty();
    assert tmp[..0] == "" && now + "" == now;
  }

  // Lines 65-86.
  method WriteAll(
    str: array<char>, at: nat, size: int32, sign: string, prefix: string, zeros: int32, tmp: array<char>, i: nat,
    ghost digits: string, zeroPad: bool, left: bool)
    returns (end: nat)
    requires |sign| <= 1 && |prefix| <= 2 && i <= tmp.Length && str != tmp && !(zeroPad && left) && digits == tmp[..i]
    requires at + |Emitted(size, sign, prefix, zeros, Backwards(digits), zeroPad, left)| <= str.Length
    modifies str
    ensures end == at + |Emitted(size, sign, prefix, zeros, Backwards(digits), zeroPad, left)|
    ensures Wrote(str[..], old(str[..]), at, Emitted(size, sign, prefix, zeros, Backwards(digits), zeroPad, left))
  {
    hide Wrote, Repeat, Backwards, AfterLoop;
    var room := size;
    ghost var was, c := str[..], if zeroPad then '0' else ' ';
    ghost var a, b := if zeroPad || left then 0 else size, if left then 0 else AfterFirst(size, zeroPad, left);
    end := at;
    WroteNothing(was, at);
    ghost var out := Repeat(' ', a);
    if !zeroPad && !left {
      end, room := Pad(str, end, room, ' ', was, at, "");
      assert "" + out == out;
    }
    end := Write(str, end, sign, was, at, out);
    out := out + sign;
    end := Write(str, end, prefix, was, at, out);
    out := out + prefix;
    Empties(out, 0);
    if !left {
      end, room := Pad(str, end, room, if zeroPad then '0' else ' ', was, at, out);
    }
    out := out + Repeat(c, b);
    var none: int;
    end, none := Pad(str, end, zeros, '0', was, at, out);
    out := out + Repeat('0', zeros);
    assert tmp[..i] == digits;
    end := WriteBackwards(str, end, tmp, i, digits, was, at, out);
    out := out + Backwards(digits);
    end, room := Pad(str, end, room, ' ', was, at, out);
  }

  /** number: refuses other bases, else writes the layout at the given position, with 32-bit width and precision. */
  method Number(str: array<char>, at: nat, num: int32, base: int32, size: int32, precision: int32, f: Flags)
    returns (ok: bool, end: nat)
    requires 2 <= base <= 36 ==> at + |Layout32(num, base, size, precision, f)| <= str.Length
    modifies str
    ensures ok <==> 2 <= base <= 36
    ensures !ok ==> str[..] == old(str[..])
    ensures ok ==> end == at + |Layout32(num, base, size, precision, f)|
    ensures ok ==> Wrote(str[..], old(str[..]), at, Layout32(num, base, size, precision, f))
  {
    hide Wrote, Repeat, Digits, Backwards, DigitChar, Emitted, Wrap;
    if base < 2 || base > 36 {
      return false, at;
    }
    var zeroPad := f.zeroPad && !f.left;
    var n, room := num, size;
    var sign: string;
    if f.sign && num < 0 {
      sign := "-";
      NegateWraps(num);
      n := Wrap(-(num as int));
    } else {
      sign := if f.plus then "+" else if f.space then " " else "";
    }
    room := Wrap(room - |sign|);
    var prefix := "";
    if f.special {
      if base == 16 {
        room, prefix := Wrap(room - 2), ['0', DigitChar(33, f.small)];
      } else if base == 8 {
        room, prefix := Wrap(room - 1), "0";
      }
    }
    var tmp := new char[36];
    var i := FillTmp(tmp, n, base, f.small);
    var digits := precision;
    if i > digits {
      digits := i;
    }
    assert |Run(num, base, f)| == i;
    WrapTwice(size - |sign|, |prefix|, digits);
    ok := true;
    end := WriteAll(str, at, Wrap(room - digits), sign, prefix, digits - i, tmp, i, tmp[..i], zeroPad, f.left);
  }

  /** Taking off in steps, each wrapped, is taking off at once. */
  lemma WrapTwice(x: int, p: int, d: int)
    ensures Wrap(Wrap(Wrap(x) - p) - d) == Wrap(x - p - d) && Wrap(Wrap(x)) == Wrap(x)
  {
    hide Wrap;
    var i := WrapQuotient(x);
    WrapShift(x, i);
    WrapShift(x - p, i);
    var j := WrapQuotient(x - p);
    WrapShift(x - p - d, j);
  }

  lemma NegateWraps(num: int32)
    requires num < 0
    ensures Unsigned(Wrap(-(num as int))) == -(num as int)
  {
  }

  // ----- reading back

  function TrimLeft(s: string): string {
    if s != "" && s[0] == ' ' then TrimLeft(s[1..]) else s
  }

  function TrimRight(s: string): string {
    if s != "" && s[|s| - 1] == ' ' then TrimRight(s[..|s| - 1]) else s
  }

  /** A reader of formatted numbers: blanks off, an optional sign, "0x" if it was asked for, then digits. */
  function Parse(s: string, base: nat, special: bool): int {
    var t := TrimLeft(TrimRight(s));
    var negative := t != "" && t[0] == '-';
    var u := if negative || (t != "" && t[0] == '+') then t[1..] else t;
    var v: int := Value(if special && base == 16 && |u| >= 2 then u[2..] else u, base);
    if negative then -v else v
  }

  lemma {:induction false} TrimLeftBlanks(n: nat, t: string)
    requires t != "" && t[0] != ' '
    ensures TrimLeft(Repeat(' ', n) + t) == t
  {
    if n > 0 {
      assert (Repeat(' ', n) + t)[1..] == Repeat(' ', n - 1) + t;
      TrimLeftBlanks(n - 1, t);
    } else {
      assert Repeat(' ', n) + t == t;
    }
  }

  lemma {:induction false} TrimRightBlanks(n: nat, t: string)
    requires t != "" && t[|t| - 1] != ' '
    ensures TrimRight(t + Repeat(' ', n)) == t
  {
    var s := t + Repeat(' ', n);
    if n > 0 {
      assert s[..|s| - 1] == t + Repeat(' ', n - 1);
      TrimRightBlanks(n - 1, t);
    } else {
      assert s == t;
    }
  }

  lemma {:induction false} LeadingZeros(k: nat, s: string, base: nat)
    ensures Value(Repeat('0', k) + s, base) == Value(s, base)
    decreases |s|, k
  {
    hide DigitValue;
    var t := Repeat('0', k) + s;
    if s != "" {
      assert t[..|t| - 1] == Repeat('0', k) + s[..|s| - 1];
      LeadingZeros(k, s[..|s| - 1], base);
    } else if k > 0 {
      assert t[..|t| - 1] == Repeat('0', k - 1) + s;
      LeadingZeros(k - 1, s, base);
      ZeroDigit();
    } else {
      assert t == s;
    }
  }

  lemma ZeroDigit()
    ensures DigitValue('0') == 0
  {
  }

  // The text between the blanks.
  function Core(mark: string, prefix: string, zeros: nat, run: string): string {
    mark + prefix + Repeat('0', zeros) + run
  }

  /** Blanks around a core, wherever the padding went; a sign written as a blank counts with the padding. */
  lemma LayoutCore(room: int, sign: string, prefix: string, zeros: nat, run: string, zeroPad: bool, left: bool)
    returns (a: nat, k: nat, b: nat)
    requires !(zeroPad && left)
    ensures var mark := if sign == " " then "" else sign;
      Arrange(room, sign, prefix, zeros, run, zeroPad, left) ==
        Repeat(' ', a) + Core(mark, prefix, k, run) + Repeat(' ', b)
  {
    hide Repeat, Core;
    var n: nat := if room > 0 then room else 0;
    var p, z: nat := if left || zeroPad then 0 else n, if zeroPad then n else 0;
    var mark := if sign == " " then "" else sign;
    a := if sign == " " then p + 1 else p;
    k := z + zeros;
    b := if left then n else 0;
    RepeatSign(p);
    assert Repeat(' ', p) + sign == Repeat(' ', a) + mark;
    RepeatClamped(room);
    RepeatJoin('0', z, zeros);
    Regroup(Repeat(' ', a), mark, prefix, Repeat('0', z), Repeat('0', zeros), run, Repeat(' ', b));
    CoreIs(mark, prefix, k, run);
  }

  lemma CoreIs(mark: string, prefix: string, zeros: nat, run: string)
    ensures Core(mark, prefix, zeros, run) == mark + prefix + Repeat('0', zeros) + run
  {
  }

  lemma RepeatSign(p: nat)
    ensures Repeat(' ', p) + " " == Repeat(' ', p + 1) + ""
    ensures Repeat(' ', p) + "" == Repeat(' ', p)
  {
  }

  lemma RepeatClamped(room: int)
    ensures forall c :: Repeat(c, room) == Repeat(c, if room > 0 then room else 0)
  {
  }

  lemma RepeatJoin(c: char, a: nat, b: nat)
    ensures Repeat(c, a) + Repeat(c, b) == Repeat(c, a + b)
  {
  }

  lemma Regroup(a: string, m: string, x: string, z: string, zs: string, r: string, b: string)
    ensures a + m + x + z + zs + r + b == a + (m + x + (z + zs) + r) + b
  {
  }

  lemma ParseCore(a: nat, mark: string, prefix: string, k: nat, run: string, b: nat, base: nat, special: bool)
    requires mark == "" || mark == "+" || mark == "-"
    requires run != "" && run[0] != ' ' && run[0] != '+' && run[0] != '-' && run[|run| - 1] != ' '
    requires (|prefix| == 2 && prefix[0] == '0' && special && base == 16)
      || (!(special && base == 16) && (prefix == "" || prefix == "0"))
    ensures Parse(Repeat(' ', a) + Core(mark, prefix, k, run) + Repeat(' ', b), base, special) ==
      if mark == "-" then -(Value(run, base) as int) else Value(run, base)
  {
    hide Value, TrimLeft, TrimRight, Core, Repeat;
    var core := Core(mark, prefix, k, run);
    CoreEnds(mark, prefix, k, run);
    TrimRightBlanks(b, Repeat(' ', a) + core);
    TrimLeftBlanks(a, core);
    PrefixValue(prefix, k, run, base);
  }

  lemma CoreEnds(mark: string, prefix: string, k: nat, run: string)
    requires mark == "" || mark == "+" || mark == "-"
    requires run != "" && run[0] != ' ' && run[0] != '+' && run[0] != '-' && run[|run| - 1] != ' '
    requires prefix != "" ==> prefix[0] == '0'
    ensures var core := Core(mark, prefix, k, run);
      var u := prefix + Repeat('0', k) + run;
      core != "" && core[0] != ' ' && core[|core| - 1] != ' ' && |u| >= |prefix| + 1 &&
      (mark == "" ==> core == u && core[0] != '+' && core[0] != '-') &&
      (mark != "" ==> core[0] == mark[0] && core[1..] == u)
  {
    var u := prefix + Repeat('0', k) + run;
    assert Core(mark, prefix, k, run) == mark + u;
    assert u[|u| - 1] == run[|run| - 1];
    assert u[0] == if prefix != "" || k > 0 then '0' else run[0];
  }

  lemma PrefixValue(prefix: string, k: nat, run: string, base: nat)
    requires run != ""
    ensures var u := prefix + Repeat('0', k) + run;
      (|prefix| == 2 ==> Value(u[2..], base) == Value(run, base)) &&
      (prefix == "" || prefix == "0" ==> Value(u, base) == Value(run, base))
  {
    hide Value;
    var u := prefix + Repeat('0', k) + run;
    if prefix == "0" {
      assert u == Repeat('0', k + 1) + run;
      LeadingZeros(k + 1, run, base);
    } else {
      assert u[|prefix|..] == Repeat('0', k) + run;
      LeadingZeros(k, run, base);
    }
  }

  lemma RunEnds(n: nat, base: nat, small: bool)
    requires 2 <= base <= 36
    ensures var run := Digits(n, base, small);
      run[0] != ' ' && run[0] != '+' && run[0] != '-' && run[|run| - 1] != ' '
  {
    hide DigitChar, Digits;
    DigitsRead(n, base, small);
    var run := Digits(n, base, small);
    assert DigitIn(run[0], base, small) && DigitIn(run[|run| - 1], base, small);
  }

  /** Whatever the base, width, precision and flags, the text reads back as the number, or as its unsigned pattern. */
  lemma ReadsBack(num: int32, base: nat, size: int, precision: int, f: Flags)
    requires 2 <= base <= 36
    ensures Parse(Layout(num, base, size, precision, f), base, f.special) == if f.sign then num else Unsigned(num)
  {
    hide Parse, Arrange, Digits, DigitChar, Core;
    var run := Run(num, base, f);
    var sign := SignMark(num, f);
    var mark := if sign == " " then "" else sign;
    var a, k, b := LayoutCore(Room(num, base, size, precision, f), sign, Prefix(base, f),
      Max(precision, |run|) - |run|, run, f.zeroPad && !f.left, f.left);
    DigitsRead(Magnitude(num, f), base, f.small);
    RunEnds(Magnitude(num, f), base, f.small);
    ParseCore(a, mark, Prefix(base, f), k, run, b, base, f.special);
  }

  // ----- the text, character by character

  /** A digit of the base in the case asked for. */
  predicate IsDigitOf(c: char, base: nat, small: bool) {
    || '0' as int <= c as int < '0' as int + (if base < 10 then base else 10)
    || (base > 10 && small && 'a' as int <= c as int < 'a' as int + base - 10)
    || (base > 10 && !small && 'A' as int <= c as int < 'A' as int + base - 10)
  }

  lemma DigitShape(d: nat, small: bool)
    requires d < 36
    ensures DigitChar(d, small) as int ==
      if d < 10 then '0' as int + d else if small then 'a' as int + d - 10 else 'A' as int + d - 10
  {
    LowerShape(d);
    UpperShape(d);
  }

  lemma LowerShape(d: nat)
    requires d < 36
    ensures LOWER[d] as int == if d < 10 then '0' as int + d else 'a' as int + d - 10
  {
  }

  lemma UpperShape(d: nat)
    requires d < 36
    ensures UPPER[d] as int == if d < 10 then '0' as int + d else 'A' as int + d - 10
  {
  }

  lemma DigitsShape(n: nat, base: nat, small: bool)
    requires 2 <= base <= 36
    ensures forall i :: 0 <= i < |Digits(n, base, small)| ==> IsDigitOf(Digits(n, base, small)[i], base, small)
  {
    hide DigitChar, Digits, DigitValue;
    var run := Digits(n, base, small);
    DigitsRead(n, base, small);
    forall i | 0 <= i < |run|
      ensures IsDigitOf(run[i], base, small)
    {
      assert DigitIn(run[i], base, small);
      DigitShape(DigitValue(run[i]), small);
    }
  }

  /** All characters of a text are blanks. */
  predicate Blank(s: string) {
    forall i :: 0 <= i < |s| ==> s[i] == ' '
  }

  /** The text s is blanks, the head, the digits and blanks. */
  predicate Parts(s: string, lead: nat, head: string, digits: string, trail: nat) {
    && |s| == lead + |head| + |digits| + trail && Blank(s[..lead]) && Blank(s[|s| - trail..])
    && s[lead..lead + |head|] == head && s[lead + |head|..|s| - trail] == digits
  }

  lemma ArrangeParts(room: int, sign: string, prefix: string, zeros: int, run: string, zeroPad: bool, left: bool)
    returns (lead: nat, more: nat, trail: nat)
    requires !(zeroPad && left) && zeros >= 0
    ensures more == zeros + (if zeroPad && room > 0 then room else 0)
    ensures lead + trail == if !zeroPad && room > 0 then room else 0
    ensures if left then lead == 0 else trail == 0
    ensures Parts(Arrange(room, sign, prefix, zeros, run, zeroPad, left), lead, sign + prefix, Repeat('0', more) + run,
      trail)
  {
    hide Repeat, Parts;
    var p, z, t := if left || zeroPad then 0 else room, if zeroPad then room else 0, if left then room else 0;
    lead, trail := |Repeat(' ', p)|, |Repeat(' ', t)|;
    more := zeros + if zeroPad && room > 0 then room else 0;
    JoinZeros(z, zeros);
    Regroup'(Repeat(' ', p), sign, prefix, Repeat('0', z), Repeat('0', zeros), run, Repeat(' ', t));
    Blanks(p);
    Blanks(t);
    PartsOf(Repeat(' ', p), sign + prefix, Repeat('0', more) + run, Repeat(' ', t));
  }

  lemma Regroup'(a: string, m: string, x: string, z: string, zs: string, r: string, b: string)
    ensures a + m + x + z + zs + r + b == a + (m + x) + (z + zs + r) + b
  {
  }

  lemma Blanks(n: int)
    ensures Blank(Repeat(' ', n))
  {
  }

  lemma JoinZeros(z: int, zeros: int)
    requires zeros >= 0
    ensures Repeat('0', z) + Repeat('0', zeros) == Repeat('0', zeros + if z > 0 then z else 0)
  {
  }

  lemma PartsOf(a: string, b: string, c: string, d: string)
    requires Blank(a) && Blank(d)
    ensures Parts(a + b + c + d, |a|, b, c, |d|)
  {
    var s := a + b + c + d;
    assert s[..|a|] == a && s[|s| - |d|..] == d;
    assert s[|a|..|a| + |b|] == b && s[|a| + |b|..|s| - |d|] == c;
  }

  lemma DigitsFrom(s: string, lead: nat, head: string, digits: string, trail: nat)
    requires Parts(s, lead, head, digits, trail)
    ensures forall i :: lead + |head| <= i < |s| - trail ==> s[i] == digits[i - (lead + |head|)]
  {
    forall i | lead + |head| <= i < |s| - trail
      ensures s[i] == digits[i - (lead + |head|)]
    {
      assert s[i] == s[lead + |head|..|s| - trail][i - (lead + |head|)];
    }
  }

  /** Zeros and a run of digits: a zero in front of more than one digit is one of the zeros. */
  lemma ZerosAndRun(more: nat, n: nat, base: nat, small: bool)
    requires 2 <= base <= 36
    ensures var digits := Repeat('0', more) + Digits(n, base, small);
      && |digits| == more + |Digits(n, base, small)|
      && (forall i :: 0 <= i < |digits| ==> IsDigitOf(digits[i], base, small))
      && (digits[0] == '0' && |digits| > 1 ==> more > 0)
  {
    hide Digits;
    DigitsShape(n, base, small);
    DigitsRead(n, base, small);
  }

  /** No letter of the other case stands anywhere in the text. */
  predicate OneCase(s: string, small: bool) {
    forall i :: 0 <= i < |s| ==> if small then !('A' <= s[i] <= 'Z') else !('a' <= s[i] <= 'z')
  }

  lemma HeadCase(num: int32, base: nat, f: Flags)
    ensures OneCase(SignMark(num, f) + Prefix(base, f), f.small)
  {
    DigitShape(33, f.small);
  }

  lemma Head(num: int32, base: nat, f: Flags)
    ensures SignMark(num, f) + Prefix(base, f) ==
      (if f.sign && num < 0 then "-" else if f.plus then "+" else if f.space then " " else "") +
      (if f.special && base == 16 then if f.small then "0x" else "0X"
       else if f.special && base == 8 then "0" else "")
  {
    DigitShape(33, f.small);
  }

  lemma LayoutParts(num: int32, base: nat, size: int, precision: int, f: Flags)
    returns (lead: nat, more: nat, trail: nat)
    requires 2 <= base <= 36
    ensures var run := Run(num, base, f);
      && Parts(Layout(num, base, size, precision, f), lead, SignMark(num, f) + Prefix(base, f),
           Repeat('0', more) + run, trail)
      && more + |run| >= precision && (if f.left then lead == 0 else trail == 0) && (f.zeroPad ==> lead == 0)
      && (lead + trail > 0 ==> |Layout(num, base, size, precision, f)| == size)
      && (more > 0 && more + |run| > precision ==>
            f.zeroPad && !f.left && |Layout(num, base, size, precision, f)| == size)
  {
    hide Arrange, Digits, DigitChar, Repeat, Parts, SignMark, Prefix;
    var run := Run(num, base, f);
    lead, more, trail := ArrangeParts(Room(num, base, size, precision, f), SignMark(num, f), Prefix(base, f),
      Max(precision, |run|) - |run|, run, f.zeroPad && !f.left, f.left);
  }

  /**
   * What is written, from the first character to the last: blanks up to the width, where neither zeros nor the left
   * margin is asked for; the sign and the prefix; digits of the base in the case asked for, as many as the precision at
   * least, with zeros in front only up to the precision, or up to the width where zeros are asked for; blanks.
   */
  lemma Text(num: int32, base: nat, size: int, precision: int, f: Flags)
    returns (lead: nat, body: nat, trail: nat)
    requires 2 <= base <= 36
    ensures var s := Layout(num, base, size, precision, f);
      && lead <= body && body + trail < |s| && Blank(s[..lead]) && Blank(s[|s| - trail..])
      && s[lead..body] ==
           (if f.sign && num < 0 then "-" else if f.plus then "+" else if f.space then " " else "") +
           (if f.special && base == 16 then if f.small then "0x" else "0X"
            else if f.special && base == 8 then "0" else "")
      && (forall i :: body <= i < |s| - trail ==> IsDigitOf(s[i], base, f.small))
      && |s| - trail - body >= precision && |s| >= size
      && (if f.left then lead == 0 else trail == 0) && (f.zeroPad ==> lead == 0)
      && (lead + trail > 0 ==> |s| == size)
      && (s[body] == '0' && |s| - trail - body > Max(1, precision) ==> f.zeroPad && !f.left && |s| == size)
  {
    hide Layout, Digits, DigitChar, Repeat, SignMark, Prefix, IsDigitOf, Blank;
    var more;
    lead, more, trail := LayoutParts(num, base, size, precision, f);
    var head, run := SignMark(num, f) + Prefix(base, f), Run(num, base, f);
    body := lead + |head|;
    ZerosAndRun(more, Magnitude(num, f), base, f.small);
    DigitsFrom(Layout(num, base, size, precision, f), lead, head, Repeat('0', more) + run, trail);
    Head(num, base, f);
  }

  lemma PartsCase(s: string, lead: nat, head: string, digits: string, trail: nat, base: nat, small: bool)
    requires base <= 36 && Parts(s, lead, head, digits, trail)
    requires OneCase(head, small) && forall i :: 0 <= i < |digits| ==> IsDigitOf(digits[i], base, small)
    ensures OneCase(s, small)
  {
    forall i | 0 <= i < |s|
      ensures if small then !('A' <= s[i] <= 'Z') else !('a' <= s[i] <= 'z')
    {
      var body := lead + |head|;
      if i < lead {
        assert s[i] == s[..lead][i];
      } else if i < body {
        assert s[i] == s[lead..body][i - lead];
      } else if i < |s| - trail {
        assert s[i] == s[body..|s| - trail][i - body] == digits[i - body];
      } else {
        assert s[i] == s[|s| - trail..][i - (|s| - trail)];
      }
    }
  }

  lemma LetterCase(num: int32, base: nat, size: int, precision: int, f: Flags)
    requires 2 <= base <= 36
    ensures OneCase(Layout(num, base, size, precision, f), f.small)
  {
    hide Layout, Digits, DigitChar, Repeat, SignMark, Prefix, IsDigitOf, Parts, OneCase;
    var lead, more, trail := LayoutParts(num, base, size, precision, f);
    ZerosAndRun(more, Magnitude(num, f), base, f.small);
    HeadCase(num, base, f);
    PartsCase(Layout(num, base, size, precision, f), lead, SignMark(num, f) + Prefix(base, f),
      Repeat('0', more) + Run(num, base, f), trail, base, f.small);
  }

  // ----- skip_atoi

  predicate IsDigit(c: char) {
    '0' <= c <= '9'
  }

  /** The length of the run of decimal digits a text starts with. */
  function DigitRun(s: string): (n: nat)
    ensures n <= |s|
  {
    if s != "" && IsDigit(s[0]) then 1 + DigitRun(s[1..]) else 0
  }

  lemma WrapShift(x: int, k: int)
    ensures Wrap(x + k * U32) == Wrap(x)
  {
    assert (x + k * U32) % U32 == x % U32;
  }

  lemma WrapQuotient(x: int) returns (k: int)
    ensures Wrap(x) == x + k * U32
  {
    k := if x % U32 < 0x8000_0000 then -(x / U32) else -(x / U32) - 1;
  }

  lemma AtoiStep(v: nat, c: char)
    requires IsDigit(c)
    ensures Wrap(Wrap(Wrap(Wrap(v) * 10) + c as int) - '0' as int) == Wrap(v * 10 + DigitValue(c))
  {
    hide Wrap;
    var j := WrapQuotient(v);
    WrapShift(v * 10, j * 10);
    var k := WrapQuotient(v * 10);
    WrapShift(v * 10 + c as int, k);
    var m := WrapQuotient(v * 10 + c as int);
    WrapShift(v * 10 + c as int - '0' as int, m);
  }

  /** Steps over the run of digits at p, adding up in 32 bits. */
  method SkipAtoi(s: string, p: nat) returns (i: int32, q: nat)
    requires p <= |s|
    ensures q == p + DigitRun(s[p..]) && i == Wrap(Value(s[p..q], 10))
  {
    hide Wrap, DigitValue;
    i, q := 0, p;
    assert s[p..p] == "";
    WrapUnsigned(0);
    while q < |s| && IsDigit(s[q])
      invariant p <= q <= |s| && p + DigitRun(s[p..]) == q + DigitRun(s[q..])
      invariant i == Wrap(Value(s[p..q], 10))
    {
      assert s[q..][1..] == s[q + 1..];
      assert s[p..q + 1][..q - p] == s[p..q];
      AtoiStep(Value(s[p..q], 10), s[q]);
      i := Wrap(Wrap(Wrap(i * 10) + s[q] as int) - '0' as int);
      q := q + 1;
    }
  }

  lemma {:induction false} RunLength(s: string, rest: string)
    requires forall i :: 0 <= i < |s| ==> IsDigit(s[i])
    requires rest == "" || !IsDigit(rest[0])
    ensures DigitRun(s + rest) == |s|
  {
    if s != "" {
      assert (s + rest)[1..] == s[1..] + rest;
      RunLength(s[1..], rest);
    } else {
      assert s + rest == rest;
    }
  }

  lemma WrapUnsigned(x: int32)
    ensures Wrap(Unsigned(x)) == x
  {
  }

  /** skip_atoi inverts plain decimal output: for every number from 0 up, and for every pattern written unsigned. */
  lemma AtoiInverts(x: int32, size: int, precision: int, f: Flags, rest: string)
    requires size <= 0 && precision <= 0 && !f.plus && !f.space && (f.sign ==> x >= 0)
    requires rest == "" || !IsDigit(rest[0])
    ensures var s := Layout(x, 10, size, precision, f);
      DigitRun(s + rest) == |s| && Wrap(Value(s, 10)) == x
  {
    hide Digits, Value, DigitRun, Wrap, DigitChar;
    var n := Magnitude(x, f);
    var s := Digits(n, 10, f.small);
    assert Layout(x, 10, size, precision, f) == s;
    DigitsRead(n, 10, f.small);
    WrapUnsigned(x);
    forall i | 0 <= i < |s| ensures IsDigit(s[i]) {
      assert DigitIn(s[i], 10, f.small);
      Decimal(s[i], f.small);
    }
    RunLength(s, rest);
  }

  lemma Decimal(c: char, small: bool)
    requires DigitIn(c, 10, small)
    ensures IsDigit(c)
  {
  }
}
