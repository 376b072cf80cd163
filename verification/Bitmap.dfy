/** The bit array behind the physical page allocator: x64_kenerl/libs/bitmap.c. */
module Bitmap {
  import opened Arith

  /** The C `int` that a 32-bit unsigned value converts to. */
  function ToInt32(u: nat): (i: int)
    requires u < U32
    ensures -0x8000_0000 <= i < 0x8000_0000 && i % U32 == u
  {
    if u < 0x8000_0000 then u else u - U32
  }

  const EOF := -1

  /** The byte 1 << k. */
  function Mask(k: nat): bv8
    requires k < 8
  {
    [1, 2, 4, 8, 16, 32, 64, 128][k]
  }

  predicate TestByte(x: bv8, k: nat)
    requires k < 8
  {
    x & Mask(k) != 0
  }

  function Bit(x: bv8, k: nat): nat
    requires k < 8
  {
    if TestByte(x, k) then 1 else 0
  }

  /** Bit k of a byte is the one that counts 2^k in its value. */
  lemma ByteValue(x: bv8)
    ensures x as nat == Bit(x, 0) + 2 * Bit(x, 1) + 4 * Bit(x, 2) + 8 * Bit(x, 3) +
      16 * Bit(x, 4) + 32 * Bit(x, 5) + 64 * Bit(x, 6) + 128 * Bit(x, 7)
  {
  }

  /** Setting or clearing one bit of a byte changes that bit and no other. */
  lemma ByteBits(x: bv8, k: nat, j: nat)
    requires k < 8 && j < 8
    ensures TestByte(x | Mask(k), j) == (j == k || TestByte(x, j))
    ensures TestByte(x & !Mask(k), j) == (j != k && TestByte(x, j))
  {
    DistinctMasks(x, Mask(k), Mask(j));
  }

  lemma DistinctMasks(x: bv8, m: bv8, n: bv8)
    requires m & (m - 1) == 0 && n & (n - 1) == 0 && m != 0 && n != 0
    ensures ((x | m) & n != 0) == (n == m || x & n != 0)
    ensures (x & !m & n != 0) == (n != m && x & n != 0)
  {
  }

  /** Byte x with bit k set to the given value. */
  function WithBit(x: bv8, k: nat, value: bool): bv8
    requires k < 8
  {
    if value then x | Mask(k) else x & !Mask(k)
  }

  /** The bits of a byte string, least significant bit of the first byte first. */
  function Unpack(bytes: seq<bv8>): (v: seq<bool>)
    ensures |v| == 8 * |bytes|
  {
    seq(8 * |bytes|, i requires 0 <= i < 8 * |bytes| => TestByte(bytes[i / 8], i % 8))
  }

  lemma UnpackAt(bytes: seq<bv8>, byte: nat, k: nat)
    requires byte < |bytes| && k < 8
    ensures Unpack(bytes)[8 * byte + k] == TestByte(bytes[byte], k)
  {
    assert (8 * byte + k) / 8 == byte && (8 * byte + k) % 8 == k;
  }

  /** Rewriting one bit of one byte is a one-element update of the bits. */
  lemma UnpackUpdate(bytes: seq<bv8>, byte: nat, k: nat, y: bv8, value: bool)
    requires byte < |bytes| && k < 8
    requires forall j :: 0 <= j < 8 ==> TestByte(y, j) == if j == k then value else TestByte(bytes[byte], j)
    ensures Unpack(bytes[byte := y]) == Unpack(bytes)[8 * byte + k := value]
  {
    var w, v := Unpack(bytes[byte := y]), Unpack(bytes)[8 * byte + k := value];
    forall i | 0 <= i < |v|
      ensures w[i] == v[i]
    {
      var b, j := i / 8, i % 8;
      UnpackAt(bytes[byte := y], b, j);
      UnpackAt(bytes, b, j);
      assert i == 8 * b + j;
    }
  }

  lemma SetByte(x: bv8, k: nat, value: bool)
    requires k < 8
    ensures forall j :: 0 <= j < 8 ==> TestByte(WithBit(x, k, value), j) == if j == k then value else TestByte(x, j)
  {
    forall j | 0 <= j < 8
      ensures TestByte(WithBit(x, k, value), j) == if j == k then value else TestByte(x, j)
    {
      ByteBits(x, k, j);
    }
  }

  /** Bits s .. s+count-1 are clear. */
  predicate ClearRun(v: seq<bool>, s: nat, count: nat) {
    s + count <= |v| && forall i :: s <= i < s + count ==> !v[i]
  }

  /** Where the scan loop stops: after `count` clear bits, or, asked for none, after a set bit. */
  predicate Hit(v: seq<bool>, s: nat, count: nat) {
    if count > 0 then ClearRun(v, s, count) else 0 < s <= |v| && v[s - 1]
  }

  predicate FirstHit(v: seq<bool>, limit: nat, s: nat, count: nat) {
    && s + count <= limit
    && Hit(v, s, count)
    && forall t: nat :: t < s ==> !Hit(v, t, count)
  }

  /** What the scan knows after `next` bits, the last `counter` of which are clear. */
  predicate Scanned(v: seq<bool>, count: nat, next: nat, counter: nat) {
    && counter <= next <= |v|
    && ClearRun(v, next - counter, counter)
    && (counter < next ==> v[next - counter - 1])
    && (if count == 0 then counter == next else counter < count)
    && forall t: nat :: t + count <= next ==> !Hit(v, t, count)
  }

  /** One more bit either completes the lowest run or leaves the scan's knowledge intact. */
  lemma ScanStep(v: seq<bool>, limit: nat, count: nat, next: nat, counter: nat, c: nat)
    requires next < limit <= |v| && Scanned(v, count, next, counter)
    requires c == if v[next] then 0 else counter + 1
    ensures c == count ==> next + 1 >= count && FirstHit(v, limit, next + 1 - count, count)
    ensures c != count ==> Scanned(v, count, next + 1, c)
  {
    forall t: nat | t + count <= next + 1 && Hit(v, t, count)
      ensures c == count && t == next + 1 - count
    {
      assert t + count == next + 1;
      if count > 0 && counter < next {
        assert v[next - counter - 1];
      }
    }
  }

  /** Where the scan stops when it has seen `next` bits, the last `counter` of which are clear. */
  ghost function StopFrom(v: seq<bool>, limit: nat, count: nat, next: nat, counter: nat): (s: int)
    requires counter <= next && limit <= |v|
    ensures s == EOF || (0 <= s && s + count <= limit)
    decreases limit - next
  {
    if next >= limit then EOF
    else
      var c := if v[next] then 0 else counter + 1;
      if c == count then next + 1 - count else StopFrom(v, limit, count, next + 1, c)
  }

  lemma StopStep(v: seq<bool>, limit: nat, count: nat, next: nat, counter: nat)
    requires counter <= next && limit <= |v|
    ensures var s, c := StopFrom(v, limit, count, next, counter), if next < limit && v[next] then 0 else counter + 1;
      s == if next >= limit then EOF else if c == count then next + 1 - count
        else StopFrom(v, limit, count, next + 1, c)
  {
  }

  lemma {:induction false} StopIsFirstHit(v: seq<bool>, limit: nat, count: nat, next: nat, counter: nat)
    requires next <= limit <= |v| && Scanned(v, count, next, counter)
    ensures var s := StopFrom(v, limit, count, next, counter);
      if s == EOF then NoHit(v, limit, count) else FirstHit(v, limit, s, count)
    decreases limit - next
  {
    if next == limit {
      NoneFound(v, limit, count, counter);
    } else {
      var c := if v[next] then 0 else counter + 1;
      ScanStep(v, limit, count, next, counter, c);
      if c != count {
        StopIsFirstHit(v, limit, count, next + 1, c);
      }
    }
  }

  /** v with bits s .. s+count-1 set. */
  function Filled(v: seq<bool>, s: nat, count: nat): (r: seq<bool>)
    requires s + count <= |v|
    ensures |r| == |v|
    ensures forall i :: 0 <= i < |v| ==> r[i] == (v[i] || s <= i < s + count)
  {
    seq(|v|, i requires 0 <= i < |v| => v[i] || s <= i < s + count)
  }

  lemma FilledSteps(v: seq<bool>, s: nat, count: nat)
    requires s + count <= |v|
    ensures Filled(v, s, 0) == v
    ensures count > 0 ==> Filled(v, s, count) == Filled(v, s, count - 1)[s + count - 1 := true]
  {
  }

  ghost predicate NoHit(v: seq<bool>, limit: nat, count: nat) {
    forall s: nat :: !FirstHit(v, limit, s, count)
  }

  lemma NoneFound(v: seq<bool>, limit: nat, count: nat, counter: nat)
    requires limit <= |v| && Scanned(v, count, limit, counter)
    ensures NoHit(v, limit, count)
  {
    forall s: nat
      ensures !FirstHit(v, limit, s, count)
    {
      assert s + count <= limit ==> !Hit(v, s, count);
    }
  }

  /** Adding and taking off the offset in 32-bit arithmetic. */
  lemma OffsetCancels(offset: nat, i: nat)
    requires offset < U32 && i < U32
    ensures ((offset + i) % U32 - offset) % U32 == i
  {
  }

  lemma IntRoundTrip(offset: nat, s: nat)
    requires s < U32
    ensures ToInt32(s) % U32 == s && (ToInt32(s) + offset) % U32 == (s + offset) % U32
  {
  }

  class Bits {
    const bits: array<bv8>
    const length: nat
    const offset: nat

    ghost predicate Valid() {
      length == bits.Length < U32 && offset < U32
    }

    ghost function View(): (v: seq<bool>)
      requires Valid()
      reads bits
      ensures |v| == 8 * length
    {
      Unpack(bits[..])
    }

    /** The number of bits the scan looks at: a 32-bit product in the source. */
    ghost function Limit(): (n: nat)
      ensures n <= U32 - 8 && n <= 8 * length
    {
      length * 8 % U32
    }

    // bitmap_init and bitmap_make
    constructor (bits: array<bv8>, length: nat, start: nat)
      requires length == bits.Length < U32 && start < U32
      modifies bits
      ensures Valid() && this.bits == bits && this.length == length && offset == start
      ensures forall i :: 0 <= i < |View()| ==> !View()[i]
    {
      this.bits, this.length, this.offset := bits, length, start;
      new;
      for i := 0 to length
        invariant Valid() && this.bits == bits && this.length == length && offset == start
        invariant forall j :: 0 <= j < i ==> bits[j] == 0
      {
        bits[i] := 0;
      }
    }

    // Lines 27 and following of bitmap_test and bitmap_set, on the index already relative to the offset.
    method TestBit(idx: nat) returns (b: bool)
      requires Valid() && idx < 8 * length
      ensures b == View()[idx]
    {
      UnpackAt(bits[..], idx / 8, idx % 8);
      b := bits[idx / 8] & Mask(idx % 8) != 0;
    }

    method SetBit(idx: nat, value: bool)
      requires Valid() && idx < 8 * length
      modifies bits
      ensures Valid() && View() == old(View())[idx := value]
    {
      var byte, k := idx / 8, idx % 8;
      SetByte(bits[byte], k, value);
      UnpackUpdate(bits[..], byte, k, WithBit(bits[byte], k, value), value);
      ghost var before := bits[..];
      bits[byte] := WithBit(bits[byte], k, value);
      assert bits[..] == before[byte := WithBit(before[byte], k, value)];
    }

    method Test(index: nat) returns (b: bool)
      requires Valid() && index < U32 && (index - offset) % U32 < 8 * length
      ensures b == View()[(index - offset) % U32]
    {
      b := TestBit((index - offset) % U32);
    }

    method Set(index: nat, value: bool)
      requires Valid() && index < U32 && (index - offset) % U32 < 8 * length
      modifies bits
      ensures Valid() && View() == old(View())[(index - offset) % U32 := value]
    {
      SetBit((index - offset) % U32, value);
    }

    // The calls bitmap_test(map, map->offset + i) and bitmap_set(map, map->offset + i, true).
    method TestFrom(i: nat) returns (b: bool)
      requires Valid() && i < 8 * length && i < U32
      ensures b == View()[i]
    {
      OffsetCancels(offset, i);
      b := Test((offset + i) % U32);
    }

    method SetFrom(i: nat)
      requires Valid() && i < 8 * length && i < U32
      modifies bits
      ensures Valid() && View() == old(View())[i := true]
    {
      OffsetCancels(offset, i);
      Set((offset + i) % U32, true);
    }

    // The second loop of bitmap_scan.
    method Fill(start: nat, count: nat)
      requires Valid() && start + count <= |View()| && start + count <= U32
      modifies bits
      ensures Valid() && View() == Filled(old(View()), start, count)
    {
      ghost var v := View();
      var bitsLeft, nextBit := count, start;
      FilledSteps(v, start, 0);
      while bitsLeft > 0
        invariant Valid() && 0 <= bitsLeft <= count && nextBit == start + count - bitsLeft
        invariant View() == Filled(v, start, count - bitsLeft)
      {
        bitsLeft := bitsLeft - 1;
        FilledSteps(v, start, count - bitsLeft);
        SetFrom(nextBit);
        nextBit := nextBit + 1;
      }
    }

    // The first loop of bitmap_scan.
    method Search(count: nat) returns (start: int, ghost s: int)
      requires Valid() && count < U32
      ensures s == StopFrom(View(), Limit(), count, 0, 0)
      ensures if s == EOF then start == EOF else 0 <= s < U32 && start == ToInt32(s)
    {
      hide StopFrom;
      ghost var v, limit := View(), Limit();
      start := EOF;
      var bitsLeft := length * 8 % U32;
      var nextBit: nat := 0;
      var counter: nat := 0;
      while bitsLeft > 0
        invariant View() == v && bitsLeft >= 0 && bitsLeft + nextBit == limit <= |v|
        invariant counter <= nextBit
        invariant StopFrom(v, limit, count, 0, 0) == StopFrom(v, limit, count, nextBit, counter)
      {
        StopStep(v, limit, count, nextBit, counter);
        bitsLeft := bitsLeft - 1;
        var taken := TestFrom(nextBit);
        counter := if taken then 0 else counter + 1;
        nextBit := nextBit + 1;
        if counter == count {
          s := nextBit - count;
          start := ToInt32(nextBit - count);
          return;
        }
      }
      StopStep(v, limit, count, nextBit, counter);
      s := EOF;
    }

    /**
     * First fit: the lowest run of `count` clear bits is set and its index returned; without one nothing changes.
     * The answer -1 means that there is none, except where the index of a run, counted from the offset, is 2^32 - 1.
     */
    method Scan(count: nat) returns (r: int)
      requires Valid() && count < U32
      modifies bits
      ensures Valid()
      ensures var s := StopFrom(old(View()), Limit(), count, 0, 0);
        && (s == EOF ==> r == EOF && bits[..] == old(bits[..]) && NoHit(View(), Limit(), count))
        && (s != EOF ==> r == ToInt32((s + offset) % U32) && View() == Filled(old(View()), s, count))
        && (s != EOF ==> FirstHit(old(View()), Limit(), s, count))
        && (r == EOF <==> s == EOF || (s + offset) % U32 == U32 - 1)
    {
      var start;
      ghost var s;
      start, s := Search(count);
      StopIsFirstHit(View(), Limit(), count, 0, 0);
      if start == EOF {
        return EOF;
      }
      IntRoundTrip(offset, s);
      Fill(start % U32, count);
      r := ToInt32((start + offset) % U32);
    }
  }
}
