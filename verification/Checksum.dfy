/**
 * The Internet checksum of netstack/utils/util.cpp in its two forms: ip_checksum adds 16-bit words as a
 * little-endian machine loads them, tcp_checksum adds them in network order (section 2 of RFC 1071).
 */
module Checksum {
  import opened Arith

  type byte = x: nat | x < 256

  const U16 := 0x1_0000
  const ONES := 0xffff

  function WordLe(a: nat, b: nat): nat {
    a + 256 * b
  }

  function WordBe(a: nat, b: nat): nat {
    256 * a + b
  }

  /** The sum of the words of a byte string, low byte first; a last odd byte counts as it is. */
  function SumLe(s: seq<byte>): nat {
    if |s| == 0 then 0 else if |s| == 1 then s[0] else WordLe(s[0], s[1]) + SumLe(s[2..])
  }

  /** The sum of the words in network order; a last odd byte is padded with zero on the right. */
  function SumBe(s: seq<byte>): nat {
    if |s| == 0 then 0 else if |s| == 1 then WordBe(s[0], 0) else WordBe(s[0], s[1]) + SumBe(s[2..])
  }

  /** What folding the carries of x back in leaves: 0 for 0, else the representative of x modulo 65535 in 1 .. 65535. */
  function Norm(x: nat): (n: nat)
    ensures n <= ONES && (n == 0 <==> x == 0)
  {
    if x == 0 then 0 else (x - 1) % ONES + 1
  }

  /** The value of ip_checksum and of tcp_checksum: sums are kept in 32 bits, folded, and complemented. */
  function ChecksumLe(s: seq<byte>): (c: nat)
    ensures c <= ONES
  {
    ONES - Norm(SumLe(s) % U32)
  }

  function ChecksumBe(s: seq<byte>): (c: nat)
    ensures c <= ONES
  {
    ONES - Norm(SumBe(s) % U32)
  }

  // ----- arithmetic modulo 65535

  lemma NormUnique(x: nat, n: nat, k: int)
    requires 1 <= n <= ONES && x > 0 && x == n + k * ONES
    ensures Norm(x) == n
  {
    assert x - 1 == n - 1 + k * ONES && k >= 0;
    assert (x - 1) / ONES == k;
  }

  lemma NormQuotient(x: nat) returns (k: nat)
    ensures x == Norm(x) + k * ONES
  {
    k := if x == 0 then 0 else (x - 1) / ONES;
  }

  /** One turn of the folding loop keeps the class modulo 65535 and shrinks the number. */
  lemma FoldStep(x: nat)
    requires x >= U16
    ensures Norm(x % U16 + x / U16) == Norm(x) && 0 < x % U16 + x / U16 < x
  {
    var k := NormQuotient(x);
    NormUnique(x % U16 + x / U16, Norm(x), k - x / U16);
  }

  lemma NormSmall(x: nat)
    requires x <= ONES
    ensures Norm(x) == x
  {
  }

  // ----- the code

  /** The folding loop. */
  method Fold(x: nat) returns (r: nat)
    requires x < U32
    ensures r == Norm(x) <= ONES
  {
    r := x;
    while r / U16 != 0
      invariant Norm(r) == Norm(x)
      decreases r
    {
      FoldStep(r);
      r := r % U16 + r / U16;
    }
    NormSmall(r);
  }

  lemma WrapAdd(a: nat, b: nat)
    ensures (a % U32 + b) % U32 == (a + b) % U32
  {
  }

  lemma {:induction false} SumLeExtend(s: seq<byte>, t: seq<byte>)
    requires |s| % 2 == 0
    ensures SumLe(s + t) == SumLe(s) + SumLe(t)
  {
    if s == [] {
      assert s + t == t;
    } else {
      assert (s + t)[2..] == s[2..] + t;
      SumLeExtend(s[2..], t);
    }
  }

  lemma {:induction false} SumBeExtend(s: seq<byte>, t: seq<byte>)
    requires |s| % 2 == 0
    ensures SumBe(s + t) == SumBe(s) + SumBe(t)
  {
    if s == [] {
      assert s + t == t;
    } else {
      assert (s + t)[2..] == s[2..] + t;
      SumBeExtend(s[2..], t);
    }
  }

  lemma NextWord(s: seq<byte>, i: nat)
    requires i % 2 == 0 && i + 2 <= |s|
    ensures SumLe(s[..i + 2]) == SumLe(s[..i]) + WordLe(s[i], s[i + 1])
    ensures SumBe(s[..i + 2]) == SumBe(s[..i]) + WordBe(s[i], s[i + 1])
  {
    assert s[..i + 2] == s[..i] + [s[i], s[i + 1]];
    SumLeExtend(s[..i], [s[i], s[i + 1]]);
    SumBeExtend(s[..i], [s[i], s[i + 1]]);
  }

  lemma LastByte(s: seq<byte>, i: nat)
    requires i % 2 == 0 && i + 1 == |s|
    ensures SumLe(s) == SumLe(s[..i]) + s[i]
  {
    assert s == s[..i] + [s[i]];
    SumLeExtend(s[..i], [s[i]]);
  }

  /** ip_checksum: a length below zero reads nothing. */
  method IpChecksum(data: array<byte>, length: int) returns (c: nat)
    requires length <= data.Length
    ensures c == ChecksumLe(data[..if length < 0 then 0 else length])
  {
    hide Norm;
    ghost var n: nat := if length < 0 then 0 else length;
    ghost var s := data[..n];
    var sum: nat, i: nat, left: int := 0, 0, length;
    assert s[..0] == [];
    while left > 1
      invariant 0 <= i <= n && i % 2 == 0 && (length >= 0 ==> left == n - i) && (length < 0 ==> left == length)
      invariant sum == SumLe(s[..i]) % U32
    {
      NextWord(s, i);
      WrapAdd(SumLe(s[..i]), WordLe(data[i], data[i + 1]));
      sum := (sum + WordLe(data[i], data[i + 1])) % U32;
      i := i + 2;
      left := left - 2;
    }
    assert left <= 0 ==> s[..i] == s;
    if left == 1 {
      LastByte(s, i);
      WrapAdd(SumLe(s[..i]), data[i]);
      sum := (sum + data[i]) % U32;
    }
    var folded := Fold(sum);
    c := ONES - folded;
  }

  /** tcp_checksum: the parts are copied into one buffer, padded to whole words, and summed in network order. */
  method TcpChecksum(pseudo: seq<byte>, header: seq<byte>, options: seq<byte>, data: seq<byte>, haveMemory: bool)
    returns (c: nat)
    ensures !haveMemory ==> c == 0
    ensures haveMemory ==> c == ChecksumBe(pseudo + header + options + data)
  {
    if !haveMemory {
      return 0;
    }
    var packet := Assemble(pseudo, header, options, data);
    ghost var all := pseudo + header + options + data;
    PadBe(all, packet[..]);
    var sum := SumWords(packet);
    var folded := Fold(sum);
    c := ONES - folded;
  }

  // Lines 114-136: the buffer, with room for the pad byte.
  method Assemble(pseudo: seq<byte>, header: seq<byte>, options: seq<byte>, data: seq<byte>)
    returns (packet: array<byte>)
    ensures var all := pseudo + header + options + data;
      packet.Length == |all| + |all| % 2 && packet[..|all|] == all && (|all| % 2 == 1 ==> packet[|all|] == 0)
  {
    var len := |pseudo| + |header| + |options| + |data|;
    packet := new byte[len + len % 2];
    Copy(packet, 0, pseudo);
    assert packet[..|pseudo|] == pseudo;
    Copy(packet, |pseudo|, header);
    assert packet[..|pseudo| + |header|] == pseudo + header;
    if |options| > 0 {
      Copy(packet, |pseudo| + |header|, options);
    }
    assert packet[..|pseudo| + |header| + |options|] == pseudo + header + options;
    if |data| > 0 {
      Copy(packet, |pseudo| + |header| + |options|, data);
    }
    assert packet[..len] == pseudo + header + options + data;
    if len % 2 != 0 {
      packet[len] := 0;
    }
  }

  // Lines 139-142.
  method SumWords(packet: array<byte>) returns (sum: nat)
    requires packet.Length % 2 == 0
    ensures sum == SumBe(packet[..]) % U32
  {
    ghost var s := packet[..];
    sum := 0;
    var i: nat := 0;
    assert s[..0] == [];
    while i < packet.Length / 2
      invariant i <= packet.Length / 2 && sum == SumBe(s[..2 * i]) % U32
    {
      NextWord(s, 2 * i);
      WrapAdd(SumBe(s[..2 * i]), WordBe(packet[2 * i], packet[2 * i + 1]));
      sum := (sum + WordBe(packet[2 * i], packet[2 * i + 1])) % U32;
      i := i + 1;
    }
    assert s[..2 * i] == s;
  }

  /** A buffer in which the first i bytes of s have been copied to position at. */
  function Copied(was: seq<byte>, at: nat, s: seq<byte>, i: nat): seq<byte>
    requires at + i <= |was| && i <= |s|
  {
    was[..at] + s[..i] + was[at + i..]
  }

  lemma CopyStep(was: seq<byte>, at: nat, s: seq<byte>, i: nat)
    requires at + i < |was| && i < |s|
    ensures Copied(was, at, s, i)[at + i := s[i]] == Copied(was, at, s, i + 1)
  {
  }

  // memcpy
  method Copy(a: array<byte>, at: nat, s: seq<byte>)
    requires at + |s| <= a.Length
    modifies a
    ensures a[..] == old(a[..at]) + s + old(a[at + |s|..])
  {
    ghost var was := a[..];
    var i := 0;
    while i < |s|
      invariant 0 <= i <= |s|
      invariant a[..] == Copied(was, at, s, i)
    {
      ghost var mid := a[..];
      CopyStep(was, at, s, i);
      a[at + i] := s[i];
      assert a[..] == mid[at + i := s[i]];
      i := i + 1;
    }
  }

  lemma PadBe(s: seq<byte>, t: seq<byte>)
    requires |t| == |s| + |s| % 2 && t[..|s|] == s && (|s| % 2 == 1 ==> t[|s|] == 0)
    ensures SumBe(t) == SumBe(s)
  {
    hide SumBe;
    if |s| % 2 == 1 {
      var n := |s| - 1;
      assert s == s[..n] + [s[n]] && t == s[..n] + [s[n], 0];
      SumBeExtend(s[..n], [s[n]]);
      SumBeExtend(s[..n], [s[n], 0]);
      OddByte(s[n]);
    } else {
      assert t == s;
    }
  }

  lemma OddByte(b: byte)
    ensures SumBe([b]) == SumBe([b, 0])
  {
  }

  // ----- no overflow

  /** The number of 16-bit words, the last one padded. */
  function Words(s: seq<byte>): nat {
    (|s| + 1) / 2
  }

  lemma {:induction false} SumBound(s: seq<byte>)
    ensures SumLe(s) <= ONES * Words(s) && SumBe(s) <= ONES * Words(s)
  {
    if |s| >= 2 {
      SumBound(s[2..]);
    }
  }

  /** Up to 65537 words the 32-bit accumulator holds the exact sum, in either order. */
  lemma NoOverflow(s: seq<byte>)
    requires Words(s) <= 65537
    ensures SumLe(s) < U32 && SumBe(s) < U32
  {
    SumBound(s);
  }

  // ----- what is summed

  /** The sum of the bytes at even places, or at odd places, among the first n. */
  function PlaceSum(s: seq<byte>, odd: bool, n: nat): nat
    requires n <= |s|
  {
    if n == 0 then 0 else PlaceSum(s, odd, n - 1) + if odd == ((n - 1) % 2 == 1) then s[n - 1] else 0
  }

  /** Up to an even place. */
  lemma {:induction false} EvenPrefix(s: seq<byte>, i: nat)
    requires i % 2 == 0 && i <= |s|
    ensures SumLe(s[..i]) == PlaceSum(s, false, i) + 256 * PlaceSum(s, true, i)
    ensures SumBe(s[..i]) == 256 * PlaceSum(s, false, i) + PlaceSum(s, true, i)
  {
    if i >= 2 {
      EvenPrefix(s, i - 2);
      NextWord(s, i - 2);
      TwoPlaces(s, i - 2);
    }
  }

  lemma TwoPlaces(s: seq<byte>, i: nat)
    requires i % 2 == 0 && i + 2 <= |s|
    ensures PlaceSum(s, false, i + 2) == PlaceSum(s, false, i) + s[i]
    ensures PlaceSum(s, true, i + 2) == PlaceSum(s, true, i) + s[i + 1]
  {
    assert (i + 1) % 2 == 1;
    assert PlaceSum(s, false, i + 1) == PlaceSum(s, false, i) + s[i];
    assert PlaceSum(s, true, i + 1) == PlaceSum(s, true, i);
  }

  /**
   * ip_checksum counts the bytes at odd places 256-fold and tcp_checksum those at even places, whatever the length: a
   * last odd byte is at an even place.
   */
  lemma SumsByPlace(s: seq<byte>)
    ensures SumLe(s) == PlaceSum(s, false, |s|) + 256 * PlaceSum(s, true, |s|)
    ensures SumBe(s) == 256 * PlaceSum(s, false, |s|) + PlaceSum(s, true, |s|)
  {
    var i := |s| - |s| % 2;
    EvenPrefix(s, i);
    if i == |s| {
      assert s[..i] == s;
    } else {
      assert s == s[..i] + [s[i]];
      SumLeExtend(s[..i], [s[i]]);
      SumBeExtend(s[..i], [s[i]]);
    }
  }

  // ----- byte order

  /** The sum of the first bytes of the words. */
  function Firsts(s: seq<byte>): nat {
    if |s| == 0 then 0 else s[0] + if |s| == 1 then 0 else Firsts(s[2..])
  }

  /** Swapping the bytes of every word multiplies the sum by 256, modulo 65535. */
  lemma {:induction false} SumsRelated(s: seq<byte>)
    ensures 256 * SumBe(s) == SumLe(s) + ONES * Firsts(s)
  {
    if |s| >= 2 {
      SumsRelated(s[2..]);
    }
  }

  lemma {:induction false} ZeroTogether(s: seq<byte>)
    ensures SumLe(s) == 0 <==> SumBe(s) == 0
  {
    if |s| >= 2 {
      ZeroTogether(s[2..]);
    }
  }

  predicate AllZero(s: seq<byte>) {
    forall i :: 0 <= i < |s| ==> s[i] == 0
  }

  lemma ZeroTail(s: seq<byte>)
    requires |s| >= 2
    ensures AllZero(s) <==> s[0] == 0 && s[1] == 0 && AllZero(s[2..])
  {
    var t := s[2..];
    assert forall i :: 2 <= i < |s| ==> s[i] == t[i - 2];
    assert forall i :: 0 <= i < |t| ==> t[i] == s[i + 2];
  }

  /** The sum is zero for all-zero data only, so the folded sum is too. */
  lemma {:induction false} ZeroOnlyForZeros(s: seq<byte>)
    ensures SumLe(s) == 0 <==> AllZero(s)
  {
    if |s| >= 2 {
      ZeroTail(s);
      ZeroOnlyForZeros(s[2..]);
    }
  }

  /** htons */
  function Swap(x: nat): (y: nat)
    requires x <= ONES
    ensures y <= ONES
  {
    x % 256 * 256 + x / 256
  }

  lemma SwapBytes(x: nat)
    requires x <= ONES
    ensures Swap(x) % 256 == x / 256 && Swap(x) / 256 == x % 256
  {
    BytesOf(x % 256, x / 256);
  }

  lemma BytesOf(h: nat, l: nat)
    requires h < 256 && l < 256
    ensures (h * 256 + l) / 256 == h && (h * 256 + l) % 256 == l
  {
  }

  lemma SwapTwice(x: nat)
    requires x <= ONES
    ensures Swap(Swap(x)) == x && Swap(ONES - x) == ONES - Swap(x)
    ensures 256 * x == Swap(x) + ONES * (x / 256) && (Swap(x) == 0 <==> x == 0)
  {
    SwapBytes(x);
    var h, l := x / 256, x % 256;
    assert ONES - x == (255 - h) * 256 + (255 - l);
    BytesOf(255 - h, 255 - l);
  }

  /** Folded sums are each other's byte swap exactly when one is 256 times the other and both or neither are zero. */
  lemma SwapIff(a: nat, b: nat)
    ensures Norm(a) == Swap(Norm(b)) <==> (a == 0 <==> b == 0) && (a - 256 * b) % ONES == 0
  {
    var m, n := Norm(a), Norm(b);
    var j := NormQuotient(a);
    var k := NormQuotient(b);
    SwapTwice(n);
    ClassDifference(a, b, m, n, j, k, Swap(n), n / 256);
    SmallMultiple(m - Swap(n));
  }

  lemma ClassDifference(a: int, b: int, m: int, n: int, j: int, k: int, w: int, q: int)
    requires a == m + j * ONES && b == n + k * ONES && 256 * n == w + ONES * q
    ensures (a - 256 * b) % ONES == (m - w) % ONES
  {
    var e := j - q - 256 * k;
    assert a - 256 * b == (m - w) + ONES * e;
    ModOnes(m - w, e);
  }

  lemma SmallMultiple(d: int)
    requires -ONES <= d <= ONES
    ensures d % ONES == 0 <==> d == 0 || d == ONES || d == -ONES
  {
  }

  lemma ModOnes(d: int, k: int)
    ensures (d + ONES * k) % ONES == d % ONES
  {
  }

  /**
   * Section 2(B) of RFC 1071, with the accumulator's width taken into account: the two functions give each
   * other's byte swap exactly when the carries lost above 32 bits match and neither wrapped to zero alone.
   */
  lemma ByteOrderIff(s: seq<byte>)
    ensures ChecksumLe(s) == Swap(ChecksumBe(s)) <==>
      (SumLe(s) % U32 == 0 <==> SumBe(s) % U32 == 0) && (SumLe(s) / U32 - 256 * (SumBe(s) / U32)) % ONES == 0
  {
    var a, b := SumLe(s) % U32, SumBe(s) % U32;
    var j, k := SumLe(s) / U32, SumBe(s) / U32;
    SwapTwice(Norm(b));
    SwapIff(a, b);
    SumsRelated(s);
    LostCarries(a, b, j, k, SumLe(s), SumBe(s), Firsts(s));
  }

  /** 2^32 is 1 modulo 65535, so each carry lost counts one. */
  lemma LostCarries(a: int, b: int, j: int, k: int, x: int, y: int, f: int)
    requires x == a + j * U32 && y == b + k * U32 && 256 * y == x + ONES * f
    ensures (a - 256 * b) % ONES == 0 <==> (j - 256 * k) % ONES == 0
  {
    var d := j - 256 * k;
    assert a - 256 * b == -d + ONES * (-f - d * (ONES + 2));
    ModOnes(-d, -f - d * (ONES + 2));
    NegMod(d);
  }

  lemma NegMod(d: int)
    ensures (-d) % ONES == 0 <==> d % ONES == 0
  {
  }

  /**
   * For every byte string of up to 65537 words, even or odd in length, the two checksums are each other's byte swap.
   */
  lemma ByteOrderIndependence(s: seq<byte>)
    requires Words(s) <= 65537
    ensures ChecksumLe(s) == Swap(ChecksumBe(s))
  {
    NoOverflow(s);
    ZeroTogether(s);
    ByteOrderIff(s);
  }

  // ----- one word too many

  function AllOnes(n: nat): (s: seq<byte>)
    ensures |s| == 2 * n
  {
    if n == 0 then [] else [0xff, 0xff] + AllOnes(n - 1)
  }

  lemma {:induction false} AllOnesSum(n: nat)
    ensures SumLe(AllOnes(n)) == SumBe(AllOnes(n)) == n * ONES
  {
    if n > 0 {
      assert AllOnes(n)[2..] == AllOnes(n - 1);
      AllOnesSum(n - 1);
    }
  }

  lemma OnceWrapped(x: nat, r: nat)
    requires x == U32 + r && r < U32
    ensures x % U32 == r
  {
  }

  lemma LastWord(s: seq<byte>, t: seq<byte>)
    requires |s| % 2 == 0 && SumLe(s) == SumBe(s) == U32 - 1 && t == [1, 0]
    ensures ChecksumLe(s + t) == ONES && ChecksumBe(s + t) == ONES - 255
  {
    SumLeExtend(s, t);
    SumBeExtend(s, t);
    OnceWrapped(SumLe(s + t), 0);
    OnceWrapped(SumBe(s + t), 255);
    NormSmall(255);
  }

  /** With 65538 words the accumulator can wrap, and the two checksums are no longer byte swaps of each other. */
  lemma OneWordTooMany() returns (s: seq<byte>)
    ensures Words(s) == 65538 && ChecksumLe(s) != Swap(ChecksumBe(s))
  {
    hide AllOnes, SumLe, SumBe;
    AllOnesSum(65537);
    s := AllOnes(65537) + [1, 0];
    LastWord(AllOnes(65537), [1, 0]);
  }

  // ----- a filled-in checksum verifies

  /** The bytes of a 16-bit value as a little-endian machine stores it, and in network order. */
  function StoreLe(x: nat): seq<byte>
    requires x <= ONES
  {
    [x % 256, x / 256]
  }

  function StoreBe(x: nat): seq<byte>
    requires x <= ONES
  {
    [x / 256, x % 256]
  }

  /** Storing the swapped value natively and storing the value in network order give the same bytes. */
  lemma SameBytes(s: seq<byte>)
    requires Words(s) <= 65537
    ensures StoreLe(ChecksumLe(s)) == StoreBe(ChecksumBe(s))
  {
    ByteOrderIndependence(s);
    SwapBytes(ChecksumBe(s));
  }

  /** Data with a two-byte checksum field between an even number of bytes and the rest. */
  function Filled(before: seq<byte>, field: seq<byte>, after: seq<byte>): seq<byte> {
    before + field + after
  }

  lemma FilledSum(before: seq<byte>, x: nat, after: seq<byte>)
    requires |before| % 2 == 0 && x <= ONES
    ensures SumLe(Filled(before, StoreLe(x), after)) == SumLe(Filled(before, StoreLe(0), after)) + x
  {
    FieldSum(before, x, after);
    FieldSum(before, 0, after);
  }

  lemma FieldSum(before: seq<byte>, x: nat, after: seq<byte>)
    requires |before| % 2 == 0 && x <= ONES
    ensures SumLe(Filled(before, StoreLe(x), after)) == SumLe(before) + x + SumLe(after)
  {
    assert Filled(before, StoreLe(x), after) == before + (StoreLe(x) + after);
    SumLeExtend(before, StoreLe(x) + after);
    SumLeExtend(StoreLe(x), after);
    assert SumLe(StoreLe(x)) == x;
  }

  lemma Exact(s: seq<byte>)
    requires Words(s) <= 65537
    ensures ChecksumLe(s) == ONES - Norm(SumLe(s))
  {
    hide SumLe, SumBe, Norm;
    NoOverflow(s);
  }

  /** Checksumming again with the checksum in its field gives zero: how a receiver verifies. */
  lemma FilledVerifies(before: seq<byte>, after: seq<byte>)
    requires |before| % 2 == 0 && Words(Filled(before, StoreLe(0), after)) <= 65537
    ensures var c := ChecksumLe(Filled(before, StoreLe(0), after));
      ChecksumLe(Filled(before, StoreLe(c), after)) == 0
  {
    var s := Filled(before, StoreLe(0), after);
    var c := ChecksumLe(s);
    Exact(s);
    Exact(Filled(before, StoreLe(c), after));
    FilledSum(before, c, after);
    Complement(SumLe(s));
  }

  lemma Complement(x: nat)
    ensures Norm(x + (ONES - Norm(x))) == ONES
  {
    var k := NormQuotient(x);
    NormUnique(x + (ONES - Norm(x)), ONES, k);
  }

  /** The same in network order, as the TCP builder stores it. */
  lemma FilledVerifiesBe(before: seq<byte>, after: seq<byte>)
    requires |before| % 2 == 0 && Words(Filled(before, StoreBe(0), after)) <= 65537
    ensures var c := ChecksumBe(Filled(before, StoreBe(0), after));
      ChecksumBe(Filled(before, StoreBe(c), after)) == 0
  {
    var s := Filled(before, StoreBe(0), after);
    FilledVerifies(before, after);
    SameBytes(s);
    var t := Filled(before, StoreBe(ChecksumBe(s)), after);
    ByteOrderIndependence(t);
    SwapTwice(ChecksumBe(t));
  }

  lemma VerifiesIff(s: seq<byte>)
    requires Words(s) <= 65537
    ensures ChecksumLe(s) == 0 <==> SumLe(s) > 0 && SumLe(s) % ONES == 0
  {
    Exact(s);
    var k := NormQuotient(SumLe(s));
    ModOnes(Norm(SumLe(s)), k);
  }

  /**
   * What the check catches: of data that verifies, another value of one aligned word verifies too only when it is
   * the other of 0x0000 and 0xffff and some other byte is not zero.
   */
  lemma OneWordChanged(before: seq<byte>, x: nat, y: nat, after: seq<byte>)
    requires |before| % 2 == 0 && x <= ONES && y <= ONES
    requires Words(Filled(before, StoreLe(x), after)) <= 65537
    requires ChecksumLe(Filled(before, StoreLe(x), after)) == 0
    ensures ChecksumLe(Filled(before, StoreLe(y), after)) == 0 <==>
      x == y || ((x - y == ONES || y - x == ONES) && !(AllZero(before) && AllZero(after)))
  {
    hide SumLe, Filled, ChecksumLe, StoreLe, AllZero, Words;
    SameWords(before, x, y, after);
    VerifiesIff(Filled(before, StoreLe(x), after));
    VerifiesIff(Filled(before, StoreLe(y), after));
    FieldSum(before, x, after);
    FieldSum(before, y, after);
    ZeroOnlyForZeros(before);
    ZeroOnlyForZeros(after);
    SameClass(SumLe(before) + SumLe(after), x, y);
  }

  lemma SameWords(before: seq<byte>, x: nat, y: nat, after: seq<byte>)
    requires x <= ONES && y <= ONES
    ensures Words(Filled(before, StoreLe(x), after)) == Words(Filled(before, StoreLe(y), after))
  {
  }

  lemma SameClass(r: nat, x: nat, y: nat)
    requires x <= ONES && y <= ONES && (r + x) % ONES == 0 && r + x > 0
    ensures (r + y) % ONES == 0 && r + y > 0 <==> x == y || ((x - y == ONES || y - x == ONES) && r > 0)
  {
    var k := (r + x) / ONES;
    assert r + y == (y - x) + ONES * k;
    ModOnes(y - x, k);
    SmallMultiple(y - x);
  }
}
