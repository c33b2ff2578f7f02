/** Bit strings, most significant bit first, and the 32-bit integers that carry them. */
module Bits {
  import opened Common

  type byte = x: int | 0 <= x < 256

  /** The value C keeps when an integer is stored into a signed 32-bit variable. */
  function Int32(x: int): (r: int)
    ensures -0x8000_0000 <= r < 0x8000_0000
  {
    (x + 0x8000_0000) % 0x1_0000_0000 - 0x8000_0000
  }

  predicate IsInt32(x: int) {
    -0x8000_0000 <= x < 0x8000_0000
  }

  predicate AllInt32(xs: seq<int>) {
    forall i :: 0 <= i < |xs| ==> IsInt32(xs[i])
  }

  function Pow2(n: nat): (r: nat)
    ensures r > 0
  {
    if n == 0 then 1 else 2 * Pow2(n - 1)
  }

  /** The low `n` bits of `v` in two's complement. */
  function ToBits(v: int, n: nat): (bs: seq<bool>)
    ensures |bs| == n
    decreases n, v
  {
    if n == 0 then [] else ToBits(v / 2, n - 1) + [v % 2 == 1]
  }

  /** The unsigned number a bit string denotes. */
  function Val(bs: seq<bool>): (v: nat)
    ensures v < Pow2(|bs|)
  {
    if bs == [] then 0
    else 2 * Val(bs[..|bs| - 1]) + (if bs[|bs| - 1] then 1 else 0)
  }

  function Zeros(n: nat): (bs: seq<bool>)
    ensures |bs| == n
  {
    seq(n, _ => false)
  }

  function ByteBits(b: byte): (bs: seq<bool>)
    ensures |bs| == 8
  {
    ToBits(b, 8)
  }

  /** Big-endian bytes of a number, `n` of them. */
  function BigEndian(v: nat, n: nat): (bs: seq<byte>)
    ensures |bs| == n
    decreases n, v
  {
    if n == 0 then [] else BigEndian(v / 256, n - 1) + [v % 256]
  }

  /** The number that bytes denote, the first one counting most. */
  function FromBytes(bs: seq<byte>): nat {
    if bs == [] then 0 else FromBytes(bs[..|bs| - 1]) * 256 + bs[|bs| - 1]
  }

  function Pow256(n: nat): (p: nat)
    ensures p > 0
  {
    if n == 0 then 1 else 256 * Pow256(n - 1)
  }

  function At(bs: seq<byte>, i: nat): (r: int)
    requires i < |bs|
    ensures 0 <= r < 256
  {
    bs[i]
  }

  /** Bits left over when `n` bits are written as whole bytes. */
  function Loose(n: nat): (r: nat)
    ensures r <= 7
    ensures n < 8 ==> r == n
  {
    if n < 8 then n else Loose(n - 8)
  }

  /** The bits of a byte stream, in the order they are consumed. */
  function BytesBits(bs: seq<byte>): (r: seq<bool>)
    ensures |r| == 8 * |bs| && Loose(|r|) == 0
  {
    if bs == [] then [] else ByteBits(bs[0]) + BytesBits(bs[1..])
  }

  /** The whole bytes of a bit string; up to seven trailing bits are dropped. */
  function Pack(bits: seq<bool>): (bs: seq<byte>)
    ensures |bits| == 8 * |bs| + Loose(|bits|)
  {
    if |bits| < 8 then [] else
      assert Pow2(8) == 256;
      [Val(bits[..8])] + Pack(bits[8..])
  }

  // ----- powers of two

  lemma {:induction false} Pow2Add(m: nat, n: nat)
    ensures Pow2(m + n) == Pow2(m) * Pow2(n)
  {
    if n > 0 {
      Pow2Add(m, n - 1);
    }
  }

  lemma {:induction false} Pow2Monotone(m: nat, n: nat)
    requires m <= n
    ensures Pow2(m) <= Pow2(n)
  {
    if m < n {
      Pow2Monotone(m, n - 1);
    }
  }

  lemma {:induction false} Pow2Values()
    ensures Pow2(8) == 0x100 && Pow2(16) == 0x1_0000 && Pow2(24) == 0x100_0000
    ensures Pow2(32) == 0x1_0000_0000 && Pow2(31) == 0x8000_0000
  {
    assert Pow2(8) == 0x100;
    Pow2Add(8, 8);
    Pow2Add(16, 8);
    Pow2Add(16, 16);
    assert Pow2(32) == 2 * Pow2(31);
  }

  /** Dividing by two first, and by `p` afterwards, is dividing by `2 * p`. */
  lemma {:induction false} HalfFirst(x: int, p: int)
    requires p > 0
    ensures x / (2 * p) == x / 2 / p
    ensures x % (2 * p) == 2 * (x / 2 % p) + x % 2
  {
    var q, r := x / 2 / p, x / 2 % p;
    assert x / 2 == q * p + r;
    assert x == 2 * (q * p) + 2 * r + x % 2;
    assert 2 * (q * p) == q * (2 * p);
    DivUnique(x, 2 * p, q, 2 * r + x % 2);
  }

  lemma {:induction false} SmallMultiple(e: int, d: int)
    requires d > 0
    ensures e >= 1 ==> e * d >= d
    ensures e <= -1 ==> e * d <= -d
  {
  }

  lemma {:induction false} DivUnique(x: int, d: int, q: int, r: int)
    requires d > 0 && x == q * d + r && 0 <= r < d
    ensures x / d == q && x % d == r
  {
    var e := x / d - q;
    assert x / d * d + x % d == x;
    assert e * d == r - x % d;
    SmallMultiple(e, d);
  }

  // ----- taking bit strings apart

  /** Splitting an (m+n)-bit field into its upper m and lower n bits. */
  lemma {:induction false} Split(x: int, m: nat, n: nat)
    ensures ToBits(x, m + n) == ToBits(x / Pow2(n), m) + ToBits(x, n)
    decreases n
  {
    if n > 0 {
      Split(x / 2, m, n - 1);
      HalfFirst(x, Pow2(n - 1));
    }
  }

  lemma {:induction false} Congruent(x: int, q: int, n: nat)
    ensures ToBits(x + q * Pow2(n), n) == ToBits(x, n)
    decreases n
  {
    if n > 0 {
      var h := q * Pow2(n - 1);
      assert q * Pow2(n) == 2 * h;
      assert (x + 2 * h) / 2 == x / 2 + h && (x + 2 * h) % 2 == x % 2;
      Congruent(x / 2, q, n - 1);
    }
  }

  lemma {:induction false} MulAssociative(a: int, b: int, c: int)
    ensures a * (b * c) == (a * b) * c
  {
  }

  lemma {:induction false} ValOfBits(v: int, n: nat)
    ensures Val(ToBits(v, n)) == v % Pow2(n)
    decreases n
  {
    if n > 0 {
      ValOfBits(v / 2, n - 1);
      var bs := ToBits(v, n);
      assert bs[..|bs| - 1] == ToBits(v / 2, n - 1);
      HalfFirst(v, Pow2(n - 1));
    }
  }

  lemma {:induction false} BitsOfVal(bs: seq<bool>)
    ensures ToBits(Val(bs), |bs|) == bs
  {
    if bs != [] {
      BitsOfVal(bs[..|bs| - 1]);
    }
  }

  lemma {:induction false} ReduceBits(v: int, n: nat)
    ensures ToBits(v % Pow2(n), n) == ToBits(v, n)
  {
    var q := v / Pow2(n);
    assert v == v % Pow2(n) + q * Pow2(n);
    Congruent(v % Pow2(n), q, n);
  }

  /** Shifting `data` into the low end of a field appends its bits. */
  lemma {:induction false} Append(x: int, m: nat, data: int, n: nat)
    ensures ToBits(x * Pow2(n) + data % Pow2(n), m + n) == ToBits(x, m) + ToBits(data, n)
  {
    var y := x * Pow2(n) + data % Pow2(n);
    Split(y, m, n);
    DivUnique(y, Pow2(n), x, data % Pow2(n));
    Congruent(data % Pow2(n), x, n);
    ReduceBits(data, n);
  }

  // ----- byte streams

  lemma {:induction false} ByteOfBits(bits: seq<bool>)
    requires |bits| == 8
    ensures Val(bits) < 256 && ByteBits(Val(bits)) == bits
  {
    assert Pow2(8) == 256;
    BitsOfVal(bits);
  }

  lemma {:induction false} ByteVal(b: byte)
    ensures Val(ByteBits(b)) == b
  {
    ValOfBits(b, 8);
    assert Pow2(8) == 256;
  }

  lemma {:induction false} FourBytes(num: nat)
    requires num < 0x1_0000_0000
    ensures var bs := BigEndian(num, 4);
            At(bs, 0) * 0x100_0000 + At(bs, 1) * 0x1_0000 + At(bs, 2) * 0x100 + At(bs, 3) == num
  {
    var bs := BigEndian(num, 4);
    assert bs == BigEndian(num / 256, 3) + [num % 256];
    assert BigEndian(num / 256, 3) == BigEndian(num / 256 / 256, 2) + [num / 256 % 256];
    assert BigEndian(num / 256 / 256, 2) == BigEndian(num / 256 / 256 / 256, 1) + [num / 256 / 256 % 256];
    assert BigEndian(num / 256 / 256 / 256, 1) == [] + [num / 256 / 256 / 256 % 256];
  }

  lemma {:induction false} BytesBitsUnfolds(bs: seq<byte>)
    ensures BytesBits(bs) == if bs == [] then [] else ByteBits(bs[0]) + BytesBits(bs[1..])
  {
  }

  lemma {:induction false} BytesBitsAppend(a: seq<byte>, b: seq<byte>)
    ensures BytesBits(a + b) == BytesBits(a) + BytesBits(b)
  {
    hide ByteBits, Loose, BytesBits;
    BytesBitsUnfolds(a);
    BytesBitsUnfolds(a + b);
    if a == [] {
      assert a + b == b;
    } else {
      BytesBitsAppend(a[1..], b);
      assert (a + b)[1..] == a[1..] + b;
      SeqAssociative(ByteBits(a[0]), BytesBits(a[1..]), BytesBits(b));
    }
  }

  /** Packing then unpacking keeps every bit except the loose ones at the end. */
  lemma {:induction false} PackRoundTrip(bits: seq<bool>)
    ensures BytesBits(Pack(bits)) == bits[..|bits| - Loose(|bits|)]
  {
    if |bits| >= 8 {
      PackRoundTrip(bits[8..]);
      ByteOfBits(bits[..8]);
      var ps := Pack(bits);
      assert ps[1..] == Pack(bits[8..]);
      var n := |bits| - Loose(|bits|);
      assert bits[8..][..n - 8] == bits[8..n];
    }
  }

  /** Bytes followed by fewer than eight loose bits pack back to exactly those bytes. */
  lemma {:induction false} PackOfBytes(bs: seq<byte>, tail: seq<bool>)
    requires |tail| < 8
    ensures Pack(BytesBits(bs) + tail) == bs
  {
    if bs == [] {
      assert BytesBits(bs) + tail == tail;
    } else {
      var all := BytesBits(bs) + tail;
      assert all[..8] == ByteBits(bs[0]);
      assert all[8..] == BytesBits(bs[1..]) + tail;
      ByteVal(bs[0]);
      PackOfBytes(bs[1..], tail);
    }
  }

  /** Followed by at least seven more bits, every bit of `e` reaches a byte. */
  lemma {:induction false} PackKeepsFront(e: seq<bool>, p: seq<bool>)
    requires |p| >= 7
    ensures var bits := BytesBits(Pack(e + p));
            && e <= bits <= e + p
            && bits == e + bits[|e|..]
            && |bits| == |e| + |p| - Loose(|e| + |p|)
  {
    PackRoundTrip(e + p);
    assert e == (e + p)[..|e + p| - Loose(|e + p|)][..|e|];
  }

  // ----- the places of bits and bytes

  lemma {:induction false} BitAt(v: int, n: nat, i: nat)
    requires i < n
    ensures ToBits(v, n)[i] == (v / Pow2(n - 1 - i) % 2 == 1)
    decreases n
  {
    if i < n - 1 {
      BitAt(v / 2, n - 1, i);
      HalfFirst(v, Pow2(n - 2 - i));
    } else {
      assert Pow2(0) == 1;
    }
  }

  /** Bits are taken from the top of each byte. */
  lemma {:induction false} StreamBitAt(bs: seq<byte>, k: nat, i: nat)
    requires k < |bs| && i < 8
    ensures BytesBits(bs)[8 * k + i] == (bs[k] / Pow2(7 - i) % 2 == 1)
  {
    if k == 0 {
      BitAt(bs[0], 8, i);
    } else {
      StreamBitAt(bs[1..], k - 1, i);
    }
  }

  function Bit(b: bool): nat {
    if b then 1 else 0
  }

  /** And put there. */
  lemma {:induction false} PackedAt(bits: seq<bool>, k: nat)
    requires 8 * k + 8 <= |bits|
    ensures k < |Pack(bits)|
    ensures Pack(bits)[k]
         == 0x80 * Bit(bits[8 * k]) + 0x40 * Bit(bits[8 * k + 1]) + 0x20 * Bit(bits[8 * k + 2])
            + 0x10 * Bit(bits[8 * k + 3]) + 8 * Bit(bits[8 * k + 4]) + 4 * Bit(bits[8 * k + 5])
            + 2 * Bit(bits[8 * k + 6]) + Bit(bits[8 * k + 7])
  {
    if k == 0 {
      EightBits(bits[..8]);
    } else {
      PackedAt(bits[8..], k - 1);
    }
  }

  lemma {:induction false} EightBits(b: seq<bool>)
    requires |b| == 8
    ensures Val(b) == 0x80 * Bit(b[0]) + 0x40 * Bit(b[1]) + 0x20 * Bit(b[2]) + 0x10 * Bit(b[3])
                      + 8 * Bit(b[4]) + 4 * Bit(b[5]) + 2 * Bit(b[6]) + Bit(b[7])
  {
    hide Val;
    ValPrefix(b, 1);
    ValPrefix(b, 2);
    ValPrefix(b, 3);
    ValPrefix(b, 4);
    ValPrefix(b, 5);
    ValPrefix(b, 6);
    ValPrefix(b, 7);
    ValPrefix(b, 8);
    assert b[..8] == b;
  }

  lemma {:induction false} ValPrefix(b: seq<bool>, n: nat)
    requires 0 < n <= |b|
    ensures Val(b[..n]) == 2 * Val(b[..n - 1]) + Bit(b[n - 1])
    ensures Val(b[..0]) == 0
  {
    assert b[..n][..n - 1] == b[..n - 1];
  }

  lemma {:induction false} DivideTwice(v: int, p: nat)
    requires p > 0
    ensures v / (256 * p) == v / 256 / p
  {
    var u := v / 256;
    var q, r := u / p, u % p;
    assert u == q * p + r;
    assert 256 * (q * p) == q * (256 * p);
    DivUnique(v, 256 * p, q, 256 * r + v % 256);
  }

  /** The first byte is the most significant one. */
  lemma {:induction false} BigEndianAt(v: nat, n: nat, i: nat)
    requires i < n
    ensures BigEndian(v, n)[i] == v / Pow256(n - 1 - i) % 256
    decreases n
  {
    if i < n - 1 {
      BigEndianAt(v / 256, n - 1, i);
      DivideTwice(v, Pow256(n - 2 - i));
    } else {
      assert Pow256(0) == 1;
    }
  }

  lemma {:induction false} FromBytesSnoc(bs: seq<byte>, b: byte)
    ensures FromBytes(bs + [b]) == FromBytes(bs) * 256 + b && FromBytes([]) == 0
  {
    assert (bs + [b])[..|bs|] == bs;
  }

  /** The first byte counts most. */
  lemma {:induction false} FromBytesFront(b: byte, bs: seq<byte>)
    ensures FromBytes([b] + bs) == b * Pow256(|bs|) + FromBytes(bs)
  {
    if bs == [] {
      assert [b] + bs == [] + [b];
      FromBytesSnoc([], b);
    } else {
      var n := |bs| - 1;
      FromBytesFront(b, bs[..n]);
      assert [b] + bs == ([b] + bs[..n]) + [bs[n]];
      assert bs == bs[..n] + [bs[n]];
      FromBytesSnoc([b] + bs[..n], bs[n]);
      FromBytesSnoc(bs[..n], bs[n]);
      MulAssociative(b, 256, Pow256(n));
    }
  }

  /** A number that fits its bytes is what they denote. */
  lemma {:induction false} BigEndianReadsBack(v: nat, n: nat)
    requires v < Pow256(n)
    ensures FromBytes(BigEndian(v, n)) == v
    decreases n
  {
    if n > 0 {
      BigEndianReadsBack(v / 256, n - 1);
      FromBytesSnoc(BigEndian(v / 256, n - 1), v % 256);
    }
  }
}
