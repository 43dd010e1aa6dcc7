/** Bytes, the bit-level get and set macros of src/amvp_aes.c, and their read-over-write laws. */
module Bits {
  type Byte = bv8
  type Bytes = seq<Byte>

  /** Bit `k` of `x`, counted from the most significant end. */
  predicate TestBit(x: Byte, k: nat)
    requires k < 8
  {
    (x >> (7 - k)) & 1 == 1
  }

  /** `x` with bit `k` cleared, then set to `v`. */
  function PutBit(x: Byte, k: nat, v: bool): Byte
    requires k < 8
  {
    (x & !((1 as bv8) << (7 - k))) | ((if v then 1 as bv8 else 0) << (7 - k))
  }

  /** The macro `gb(a, b)`. */
  predicate GetBit(a: Bytes, b: nat)
    requires b / 8 < |a|
  {
    TestBit(a[b / 8], b % 8)
  }

  /** The macro `sb(a, b, v)`. */
  function SetBit(a: Bytes, b: nat, v: bool): (r: Bytes)
    requires b / 8 < |a|
    ensures |r| == |a|
  {
    a[b / 8 := PutBit(a[b / 8], b % 8, v)]
  }

  // ---- one byte ------------------------------------------------------------

  function Mask(k: nat): Byte
    requires k < 8
  {
    match k
    case 0 => 0x80
    case 1 => 0x40
    case 2 => 0x20
    case 3 => 0x10
    case 4 => 0x08
    case 5 => 0x04
    case 6 => 0x02
    case _ => 0x01
  }

  lemma ShiftIsMask(k: nat)
    requires k < 8
    ensures (1 as bv8) << (7 - k) == Mask(k)
    ensures (0 as bv8) << (7 - k) == 0
  {
    if k == 0 {} else if k == 1 {} else if k == 2 {} else if k == 3 {}
    else if k == 4 {} else if k == 5 {} else if k == 6 {} else { assert k == 7; }
  }

  lemma TestIsMask(x: Byte, k: nat)
    requires k < 8
    ensures TestBit(x, k) <==> x & Mask(k) != 0
  {
    if k == 0 {} else if k == 1 {} else if k == 2 {} else if k == 3 {}
    else if k == 4 {} else if k == 5 {} else if k == 6 {} else { assert k == 7; }
  }

  lemma MaskOverlap(k: nat, m: nat)
    requires k < 8 && m < 8
    ensures Mask(k) & Mask(m) == if k == m then Mask(k) else 0
    ensures Mask(k) != 0
  {
    if k == 0 {} else if k == 1 {} else if k == 2 {} else if k == 3 {}
    else if k == 4 {} else if k == 5 {} else if k == 6 {} else { assert k == 7; }
  }

  lemma MaskedPut(x: Byte, a: Byte, b: Byte)
    ensures a & b == 0 ==> ((x & !a) | a) & b == x & b && ((x & !a) | 0) & b == x & b
    ensures ((x & !a) | a) & a == a && ((x & !a) | 0) & a == 0
  {
  }

  /** Reading any bit of a byte after one bit was written. */
  lemma TestAfterPut(x: Byte, k: nat, v: bool, m: nat)
    requires k < 8 && m < 8
    ensures TestBit(PutBit(x, k, v), m) == if m == k then v else TestBit(x, m)
  {
    ShiftIsMask(k);
    TestIsMask(x, m);
    TestIsMask(PutBit(x, k, v), m);
    MaskOverlap(k, m);
    MaskedPut(x, Mask(k), Mask(m));
  }

  lemma EqualByBits(x: Byte, y: Byte)
    requires forall k: nat :: k < 8 ==> TestBit(x, k) == TestBit(y, k)
    ensures x == y
  {
    assert TestBit(x, 0) == TestBit(y, 0);
    assert TestBit(x, 1) == TestBit(y, 1);
    assert TestBit(x, 2) == TestBit(y, 2);
    assert TestBit(x, 3) == TestBit(y, 3);
    assert TestBit(x, 4) == TestBit(y, 4);
    assert TestBit(x, 5) == TestBit(y, 5);
    assert TestBit(x, 6) == TestBit(y, 6);
    assert TestBit(x, 7) == TestBit(y, 7);
  }

  /** Keeping only the top bit keeps exactly bit 0. */
  lemma TopBitOnly(x: Byte)
    ensures x & 0x80 == if TestBit(x, 0) then 0x80 else 0
    ensures TestBit(x & 0x80, 0) == TestBit(x, 0)
  {
  }

  /** The bits of a byte, the most significant first, each with its weight. */
  lemma BitsOfByte(x: Byte)
    ensures x == (if TestBit(x, 0) then 0x80 else 0) | (if TestBit(x, 1) then 0x40 else 0)
               | (if TestBit(x, 2) then 0x20 else 0) | (if TestBit(x, 3) then 0x10 else 0)
               | (if TestBit(x, 4) then 0x08 else 0) | (if TestBit(x, 5) then 0x04 else 0)
               | (if TestBit(x, 6) then 0x02 else 0) | (if TestBit(x, 7) then 0x01 else 0)
  {
  }

  // ---- buffers -------------------------------------------------------------

  lemma GetAfterSet(a: Bytes, b: nat, v: bool, c: nat)
    requires b / 8 < |a| && c / 8 < |a|
    ensures GetBit(SetBit(a, b, v), c) == if b == c then v else GetBit(a, c)
  {
    TestAfterPut(a[b / 8], b % 8, v, c % 8);
    if b / 8 == c / 8 && b % 8 == c % 8 {
      assert b == 8 * (b / 8) + b % 8 && c == 8 * (c / 8) + c % 8;
    }
  }

  lemma BytesEqualByBits(a: Bytes, b: Bytes)
    requires |a| == |b|
    requires forall n: nat {:trigger GetBit(a, n)} :: n < 8 * |a| ==> GetBit(a, n) == GetBit(b, n)
    ensures a == b
  {
    forall i: nat | i < |a|
      ensures a[i] == b[i]
    {
      forall k: nat | k < 8
        ensures TestBit(a[i], k) == TestBit(b[i], k)
      {
        assert (8 * i + k) / 8 == i && (8 * i + k) % 8 == k;
        assert GetBit(a, 8 * i + k) == GetBit(b, 8 * i + k);
      }
      EqualByBits(a[i], b[i]);
    }
  }

  function PackByte(bits: seq<bool>): Byte
    requires |bits| <= 8
  {
    if bits == [] then 0 else PutBit(PackByte(bits[..|bits| - 1]), |bits| - 1, bits[|bits| - 1])
  }

  /** The bytes whose bits, most significant first, are `bits`. */
  function PackBits(bits: seq<bool>): (r: Bytes)
    requires |bits| % 8 == 0
    ensures |r| == |bits| / 8
  {
    seq(|bits| / 8, i requires 0 <= i < |bits| / 8 => PackByte(bits[8 * i..8 * i + 8]))
  }

  lemma {:induction false} PackByteBit(bits: seq<bool>, k: nat)
    requires k < |bits| <= 8
    ensures TestBit(PackByte(bits), k) == bits[k]
  {
    var last := |bits| - 1;
    TestAfterPut(PackByte(bits[..last]), last, bits[last], k);
    if k < last {
      PackByteBit(bits[..last], k);
    }
  }

  lemma PackBitsBit(bits: seq<bool>, n: nat)
    requires |bits| % 8 == 0 && n < |bits|
    ensures GetBit(PackBits(bits), n) == bits[n]
  {
    var i := n / 8;
    assert n == 8 * i + n % 8;
    PackByteBit(bits[8 * i..8 * i + 8], n % 8);
  }

  /** A buffer that agrees with `bits` everywhere is the packing of `bits`. */
  lemma PackBitsUnique(a: Bytes, bits: seq<bool>)
    requires |bits| == 8 * |a|
    requires forall n: nat {:trigger GetBit(a, n)} :: n < |bits| ==> GetBit(a, n) == bits[n]
    ensures a == PackBits(bits)
  {
    forall n: nat | n < 8 * |a|
      ensures GetBit(a, n) == GetBit(PackBits(bits), n)
    {
      PackBitsBit(bits, n);
    }
    BytesEqualByBits(a, PackBits(bits));
  }

  /** The first `n` bits of a buffer are those of `bits`. */
  ghost predicate Holds(a: Bytes, bits: seq<bool>, n: nat)
    requires n <= |bits| <= 8 * |a|
  {
    forall m: nat {:trigger GetBit(a, m)} :: m < n ==> GetBit(a, m) == bits[m]
  }

  /** Writing the next bit extends them. */
  lemma HoldsNext(a: Bytes, bits: seq<bool>, n: nat)
    requires n < |bits| <= 8 * |a| && Holds(a, bits, n)
    ensures Holds(SetBit(a, n, bits[n]), bits, n + 1)
  {
    var b := SetBit(a, n, bits[n]);
    forall m: nat | m < n + 1
      ensures GetBit(b, m) == bits[m]
    {
      GetAfterSet(a, n, bits[n], m);
    }
  }

  /** A buffer of just these bits is their packing; a longer one starts with it. */
  lemma HoldsAll(a: Bytes, bits: seq<bool>, k: nat)
    requires |bits| == 8 * k && k <= |a| && Holds(a, bits, |bits|)
    ensures a[..k] == PackBits(bits)
  {
    forall m: nat | m < |bits|
      ensures GetBit(a[..k], m) == bits[m]
    {
      assert GetBit(a, m) == bits[m];
    }
    PackBitsUnique(a[..k], bits);
  }

  // ---- exclusive or --------------------------------------------------------

  function Xor(a: Bytes, b: Bytes): (r: Bytes)
    requires |a| == |b|
    ensures |r| == |a|
  {
    seq(|a|, i requires 0 <= i < |a| => a[i] ^ b[i])
  }

  lemma XorTwice(a: Bytes, b: Bytes)
    requires |a| == |b|
    ensures Xor(Xor(a, b), b) == a
  {
    forall i | 0 <= i < |a|
      ensures Xor(Xor(a, b), b)[i] == a[i]
    {
      assert (a[i] ^ b[i]) ^ b[i] == a[i];
    }
  }

  lemma XorAssociative(a: Bytes, b: Bytes, c: Bytes)
    requires |a| == |b| == |c|
    ensures Xor(Xor(a, b), c) == Xor(a, Xor(b, c))
  {
    forall i | 0 <= i < |a|
      ensures Xor(Xor(a, b), c)[i] == Xor(a, Xor(b, c))[i]
    {
      assert (a[i] ^ b[i]) ^ c[i] == a[i] ^ (b[i] ^ c[i]);
    }
  }
}
