/** Sample rates of AIFF files: 80-bit extended floating point numbers (IEEE 754-1985, section 3.3)
    made and read with integer shifts only. */
module SampleRate {
  import opened Bits

  const BIAS := 16383
  const TOP := 0x4000_0000

  // ----- what the bytes denote

  function Negative(bs: seq<byte>): bool
    requires |bs| == 10
  {
    bs[0] >= 0x80
  }

  function Exponent(bs: seq<byte>): nat
    requires |bs| == 10
  {
    At(bs, 0) % 0x80 * 256 + At(bs, 1)
  }

  function Mantissa(bs: seq<byte>): nat
    requires |bs| == 10
  {
    FromBytes(bs[2..])
  }

  predicate Normal(bs: seq<byte>)
    requires |bs| == 10
  {
    !Negative(bs) && Mantissa(bs) >= Pow2(63)
  }

  /** The bytes stand for mantissa * 2^(exponent - bias - 63); this is that number exactly. */
  predicate Denotes(bs: seq<byte>, n: nat)
    requires |bs| == 10
  {
    && !Negative(bs) && Exponent(bs) >= BIAS
    && Mantissa(bs) * Pow2(Exponent(bs) - BIAS) == n * Pow2(63)
  }

  /** The whole part of a number that is not negative. */
  function Floor(bs: seq<byte>): nat
    requires |bs| == 10
  {
    if Exponent(bs) >= BIAS + 63 then Mantissa(bs) * Pow2(Exponent(bs) - BIAS - 63)
    else Mantissa(bs) / Pow2(BIAS + 63 - Exponent(bs))
  }

  // ----- the two conversions

  /** The first 31 bits of the mantissa. */
  function Leading(bs: seq<byte>): nat
    requires |bs| == 10
  {
    At(bs, 2) * 0x80_0000 + At(bs, 3) * 0x8000 + At(bs, 4) * 0x80 + At(bs, 5) / 2
  }

  function Decode(bs: seq<byte>): nat
    requires |bs| == 10
  {
    if bs[0] >= 0x80 then 0
    else if bs[0] <= 0x3F then 1
    else if bs[0] > 0x40 then 0x400_0000
    else if bs[1] > 0x1C then 800_000_000
    else Leading(bs) / Pow2(29 - bs[1])
  }

  /** The place of the highest bit set. */
  function TopBit(n: nat): (t: nat)
    ensures n > 0 ==> Pow2(t) <= n < Pow2(t + 1)
  {
    if n < 2 then 0 else TopBit(n / 2) + 1
  }

  lemma {:induction false} TopBitBelow(n: nat)
    requires 2 <= n < TOP
    ensures 1 <= TopBit(n) <= 29
  {
    Pow2Values();
    if TopBit(n) > 29 {
      Pow2Monotone(30, TopBit(n));
    }
  }

  function Encode(n: nat): (bs: seq<byte>)
    ensures |bs| == 10
  {
    if n <= 1 then [0x3F, 0xFF, 0x80, 0, 0, 0, 0, 0, 0, 0]
    else if n >= TOP then [0x40, 0x1D, 0, 0, 0, 0, 0, 0, 0, 0]
    else
      TopBitBelow(n);
      [0x40, TopBit(n) - 1] + BigEndian(n * Pow2(31 - TopBit(n)), 4) + [0, 0, 0, 0]
  }

  /** The normalised mantissa fills 32 bits. */
  lemma {:induction false} Normalised(n: nat)
    requires 2 <= n < TOP
    ensures var t := TopBit(n);
            && 1 <= t <= 29
            && 0x8000_0000 <= n * Pow2(31 - t) < 0x1_0000_0000
            && n * Pow2(31 - t) == 2 * (n * Pow2(30 - t))
  {
    TopBitBelow(n);
    Pow2Values();
    var t := TopBit(n);
    Pow2Add(t, 31 - t);
    assert Pow2(t + 1) == 2 * Pow2(t) && Pow2(31 - t) == 2 * Pow2(30 - t);
    Scaled(n, Pow2(t), Pow2(31 - t), Pow2(30 - t));
  }

  lemma {:induction false} Scaled(n: nat, p: nat, q: nat, r: nat)
    requires p <= n < 2 * p && p * q == 0x8000_0000 && q == 2 * r
    ensures 0x8000_0000 <= n * q < 0x1_0000_0000 && n * q == 2 * (n * r)
  {
    var d, e := n - p, 2 * p - n;
    assert q > 0;
    assert n * q == p * q + d * q && n * q == 2 * (p * q) - e * q;
    SmallMultiple(d, q);
    SmallMultiple(e, q);
    MulAssociative(n, 2, r);
    MulAssociative(2, n, r);
  }

  // ----- the round trip

  lemma {:induction false} EncodeFields(n: nat)
    requires 2 <= n < TOP
    ensures 1 <= TopBit(n) <= 29
    ensures var t, num := TopBit(n), n * Pow2(31 - TopBit(n));
            && num < 0x1_0000_0000
            && Encode(n) == [0x40, t - 1] + BigEndian(num, 4) + [0, 0, 0, 0]
  {
    Normalised(n);
  }

  lemma {:induction false} DecodeEncoded(n: nat)
    requires 2 <= n < TOP
    ensures Decode(Encode(n)) == n
  {
    Normalised(n);
    var t, num := TopBit(n), n * Pow2(31 - TopBit(n));
    EncodeFields(n);
    FourBytes(num);
    var bs, b := Encode(n), BigEndian(num, 4);
    hide Encode, BigEndian, Pow2;
    assert bs[0] == 0x40 && bs[1] == t - 1 && bs[2] == b[0] && bs[3] == b[1] && bs[4] == b[2] && bs[5] == b[3];
    assert Leading(bs) == num / 2 == n * Pow2(30 - t);
    DivUnique(Leading(bs), Pow2(30 - t), n, 0);
  }

  /** The conversions undo each other for exactly the rates from 1 to 2^30 - 1. */
  lemma {:induction false} RateRoundTrip(n: nat)
    requires n < 0x1_0000_0000
    ensures Decode(Encode(n)) == n <==> 1 <= n < TOP
  {
    if 2 <= n < TOP {
      DecodeEncoded(n);
    }
  }

  // ----- exactness

  lemma {:induction false} FourMore(a: seq<byte>, b: seq<byte>)
    requires |b| == 4
    ensures FromBytes(a + b) == FromBytes(a) * 0x1_0000_0000 + FromBytes(b)
    ensures FromBytes(b) == At(b, 0) * 0x100_0000 + At(b, 1) * 0x1_0000 + At(b, 2) * 0x100 + At(b, 3)
  {
    FromBytesSnoc(a, b[0]);
    FromBytesSnoc(a + [b[0]], b[1]);
    FromBytesSnoc(a + [b[0]] + [b[1]], b[2]);
    FromBytesSnoc(a + [b[0]] + [b[1]] + [b[2]], b[3]);
    FromBytesSnoc([], b[0]);
    FromBytesSnoc([] + [b[0]], b[1]);
    FromBytesSnoc([] + [b[0]] + [b[1]], b[2]);
    FromBytesSnoc([] + [b[0]] + [b[1]] + [b[2]], b[3]);
    hide FromBytes;
    assert a + b == a + [b[0]] + [b[1]] + [b[2]] + [b[3]];
    assert b == [] + [b[0]] + [b[1]] + [b[2]] + [b[3]];
  }

  lemma {:induction false} MantissaHalves(bs: seq<byte>)
    requires |bs| == 10
    ensures Mantissa(bs) == FromBytes(bs[2..6]) * 0x1_0000_0000 + FromBytes(bs[6..])
    ensures FromBytes(bs[2..6]) == 2 * Leading(bs) + At(bs, 5) % 2 < 0x1_0000_0000
    ensures FromBytes(bs[6..]) < 0x1_0000_0000
  {
    hide FromBytes;
    assert bs[2..] == bs[2..6] + bs[6..];
    FourMore(bs[2..6], bs[6..]);
    FourMore([], bs[2..6]);
  }

  /** The bytes made for a rate below 2^30 stand for it exactly. */
  lemma {:induction false} EncodeIsExact(n: nat)
    requires 1 <= n < TOP
    ensures Denotes(Encode(n), n)
  {
    hide Encode, TopBit, Pow2, Mantissa, FromBytes;
    if n == 1 {
      ExactOne();
    } else {
      EncodeFields(n);
      EncodedMantissa(n);
      var t, num := TopBit(n), n * Pow2(31 - TopBit(n));
      Rescaled(n, t, num);
    }
  }

  lemma {:induction false} EncodedMantissa(n: nat)
    requires 2 <= n < TOP
    ensures 1 <= TopBit(n) <= 29
    ensures var t, num := TopBit(n), n * Pow2(31 - TopBit(n));
            && !Negative(Encode(n)) && Exponent(Encode(n)) == BIAS + t
            && Mantissa(Encode(n)) == num * 0x1_0000_0000
  {
    hide Encode, BigEndian, TopBit, Leading, Pow2, FromBytes;
    Normalised(n);
    EncodeFields(n);
    var t, num := TopBit(n), n * Pow2(31 - TopBit(n));
    var bs := Encode(n);
    FourBytes(num);
    assert bs[2..6] == BigEndian(num, 4) && bs[6..] == [0, 0, 0, 0];
    MantissaHalves(bs);
    FourMore([], bs[2..6]);
    FourMore([], bs[6..]);
    assert At(bs, 0) == 0x40;
  }

  lemma {:induction false} Rescaled(n: nat, t: nat, num: nat)
    requires t <= 31 && num == n * Pow2(31 - t)
    ensures num * 0x1_0000_0000 * Pow2(t) == n * Pow2(63)
  {
    Pow2Values();
    Pow2Add(31 - t, 32);
    Pow2Add(63 - t, t);
    hide Pow2;
    MulAssociative(n, Pow2(31 - t), 0x1_0000_0000);
    MulAssociative(n, Pow2(63 - t), Pow2(t));
  }

  lemma {:induction false} ExactOne()
    ensures Denotes(Encode(1), 1)
  {
    var bs := Encode(1);
    MantissaHalves(bs);
    FourMore([], bs[2..6]);
    FourMore([], bs[6..]);
    Pow2Values();
    Pow2Add(31, 32);
    assert Pow2(0) == 1;
    hide FromBytes, Pow2;
  }

  lemma {:induction false} HighBits(bs: seq<byte>, k: nat)
    requires |bs| == 10 && k <= 30
    ensures Mantissa(bs) / Pow2(33 + k) == Leading(bs) / Pow2(k)
  {
    MantissaHalves(bs);
    Pow2Values();
    Pow2Add(33, k);
    assert Pow2(33) == 0x2_0000_0000;
    hide FromBytes, Pow2, Leading, Mantissa;
    var low := At(bs, 5) % 2 * 0x1_0000_0000 + FromBytes(bs[6..]);
    assert Mantissa(bs) == Leading(bs) * 0x2_0000_0000 + low && low < 0x2_0000_0000;
    TwoDivisions(Mantissa(bs), Leading(bs), low, 0x2_0000_0000, Pow2(k));
  }

  lemma {:induction false} TwoDivisions(m: nat, val: nat, low: nat, a: nat, p: nat)
    requires a > 0 && p > 0 && m == val * a + low && low < a && a * p > 0
    ensures m / (a * p) == val / p
  {
    var q, r := val / p, val % p;
    assert val == q * p + r && 0 <= r < p;
    assert val * a == q * p * a + r * a;
    MulAssociative(q, p, a);
    assert a * p == p * a;
    SmallMultiple(p - 1 - r + 1, a);
    assert (p - r) * a == p * a - r * a;
    assert r * a + low < p * a;
    DivUnique(m, a * p, q, r * a + low);
  }

  /** Of the numbers that are normalised and not negative, exactly those from 1 up to 2^30 are decoded
      to their whole part. */
  lemma {:induction false} DecodeIsFloor(bs: seq<byte>)
    requires |bs| == 10 && Normal(bs)
    ensures Decode(bs) == Floor(bs) <==> BIAS <= Exponent(bs) <= BIAS + 29
  {
    var e := Exponent(bs);
    assert e == At(bs, 0) * 256 + At(bs, 1);
    if e < BIAS {
      TooSmall(bs);
    } else if e == BIAS {
      AtOne(bs);
    } else if e <= BIAS + 29 {
      HighBits(bs, BIAS + 30 - e);
    } else {
      TooBig(bs);
    }
  }

  /** Every ten bytes: negative numbers are decoded to 0, those below 2 to 1, from there to 2^30 to the
      whole part, normalised or not, then to 800 MHz, and the largest ones to 2^26. */
  lemma {:induction false} DecodeOfAny(bs: seq<byte>)
    requires |bs| == 10
    ensures var e := Exponent(bs);
            if Negative(bs) then Decode(bs) == 0
            else if e <= BIAS then Decode(bs) == 1
            else if e <= BIAS + 29 then Decode(bs) == Floor(bs)
            else if e <= BIAS + 256 then Decode(bs) == 800_000_000
            else Decode(bs) == 0x400_0000
  {
    var e := Exponent(bs);
    if !Negative(bs) {
      assert e == At(bs, 0) * 256 + At(bs, 1);
      if BIAS < e <= BIAS + 29 {
        HighBits(bs, BIAS + 30 - e);
      }
    }
  }

  /** Rates outside the range: 0 is stored as 1 is, those from 2^30 on as no number, which is decoded to
      800 MHz. */
  lemma {:induction false} EncodeOutside(n: nat)
    requires n == 0 || n >= TOP
    ensures n == 0 ==> Encode(n) == Encode(1)
    ensures n >= TOP ==> Denotes(Encode(n), 0) && Decode(Encode(n)) == 800_000_000
  {
    if n >= TOP {
      var bs := Encode(n);
      MantissaHalves(bs);
      FourMore([], bs[2..6]);
      FourMore([], bs[6..]);
      hide FromBytes, Pow2;
    }
  }

  lemma {:induction false} BelowPow64(bs: seq<byte>)
    requires |bs| == 10
    ensures Mantissa(bs) < Pow2(64) == 2 * Pow2(63)
  {
    MantissaHalves(bs);
    Pow2Values();
    Pow2Add(32, 32);
  }

  lemma {:induction false} TooSmall(bs: seq<byte>)
    requires |bs| == 10 && Exponent(bs) < BIAS
    ensures Floor(bs) == 0
  {
    BelowPow64(bs);
    Pow2Monotone(64, BIAS + 63 - Exponent(bs));
    hide Pow2, Mantissa;
    DivUnique(Mantissa(bs), Pow2(BIAS + 63 - Exponent(bs)), 0, Mantissa(bs));
  }

  lemma {:induction false} AtOne(bs: seq<byte>)
    requires |bs| == 10 && Normal(bs) && Exponent(bs) == BIAS
    ensures Floor(bs) == 1
  {
    BelowPow64(bs);
    hide Pow2, Mantissa;
    DivUnique(Mantissa(bs), Pow2(63), 1, Mantissa(bs) - Pow2(63));
  }

  lemma {:induction false} TooBig(bs: seq<byte>)
    requires |bs| == 10 && Normal(bs) && Exponent(bs) >= BIAS + 30
    ensures Floor(bs) >= TOP
  {
    var e := Exponent(bs);
    Pow2Values();
    Pow2Add(31, 32);
    if e >= BIAS + 63 {
      var p := Pow2(e - BIAS - 63);
      SmallMultiple(p, Mantissa(bs));
      assert p * Mantissa(bs) == Mantissa(bs) * p;
    } else {
      var p := Pow2(BIAS + 63 - e);
      Pow2Monotone(BIAS + 63 - e, 33);
      assert Pow2(33) == 0x2_0000_0000;
      Pow2Add(30, 33);
      assert Pow2(30) == TOP;
      QuotientAtLeast(Mantissa(bs), p, 0x2_0000_0000, TOP);
    }
  }

  lemma {:induction false} QuotientAtLeast(m: nat, p: nat, q: nat, k: nat)
    requires 0 < p <= q && m >= k * q
    ensures m / p >= k
  {
    assert p * k <= q * k <= m;
    var d := m / p - k;
    assert m / p * p + m % p == m && d * p == m / p * p - k * p;
    SmallMultiple(d, p);
  }

  // ----- the loop

  /** Fill in the ten bytes, which the caller has set to zero. */
  method UintToTenByteFloat(n: nat, bytes: array<byte>)
    requires n < 0x1_0000_0000 && bytes.Length == 10 && bytes[..] == [0, 0, 0, 0, 0, 0, 0, 0, 0, 0]
    modifies bytes
    ensures bytes[..] == Encode(n)
  {
    hide BigEndian, TopBit, Pow2;
    var num, mask := n, TOP;
    if num <= 1 {
      bytes[0], bytes[1], bytes[2] := 0x3F, 0xFF, 0x80;
      return;
    }
    bytes[0] := 0x40;
    if num >= mask {
      bytes[1] := 0x1D;
      return;
    }
    var count := FindTopBit(num);
    Normalised(n);
    EncodeFields(n);
    num := if count < 31 then num * Pow2(count + 1) % 0x1_0000_0000 else 0;
    assert num == n * Pow2(31 - TopBit(n)) by { Unchanged(n * Pow2(count + 1)); }
    FourShifts(num);
    PutNumber(bytes, 29 - count, num);
  }

  lemma {:induction false} Unchanged(n: nat)
    requires n < 0x1_0000_0000
    ensures n % 0x1_0000_0000 == n
  {
  }

  method PutNumber(bytes: array<byte>, exponent: byte, num: nat)
    requires bytes.Length == 10
    modifies bytes
    ensures bytes[..] == [old(bytes[0]), exponent]
      + [num / 0x100_0000 % 0x100, num / 0x1_0000 % 0x100, num / 0x100 % 0x100, num % 0x100] + old(bytes[6..])
  {
    bytes[1] := exponent;
    bytes[2] := num / 0x100_0000 % 0x100;
    bytes[3] := num / 0x1_0000 % 0x100;
    bytes[4] := num / 0x100 % 0x100;
    bytes[5] := num % 0x100;
  }

  lemma {:induction false} FourShifts(num: nat)
    ensures BigEndian(num, 4) ==
            [num / 0x100_0000 % 0x100, num / 0x1_0000 % 0x100, num / 0x100 % 0x100, num % 0x100]
  {
    assert BigEndian(num, 4) == BigEndian(num / 256, 3) + [num % 256];
    assert BigEndian(num / 256, 3) == BigEndian(num / 256 / 256, 2) + [num / 256 % 256];
    assert BigEndian(num / 256 / 256, 2) == BigEndian(num / 256 / 256 / 256, 1) + [num / 256 / 256 % 256];
    assert BigEndian(num / 256 / 256 / 256, 1) == [] + [num / 256 / 256 / 256 % 256];
    assert num / 256 / 256 == num / 0x1_0000 && num / 256 / 256 / 256 == num / 0x100_0000;
  }

  /** The loop: move the mask down to the highest bit set. */
  method FindTopBit(num: nat) returns (count: nat)
    requires 2 <= num < TOP
    ensures 1 <= count <= 29 && TopBit(num) == 30 - count
  {
    hide Pow2, TopBit;
    var mask := TOP;
    count := 0;
    Masks(0);
    while count < 32
      invariant count <= 30 && mask == Pow2(30 - count) && num < 2 * mask
      decreases 32 - count
    {
      BitTest(num, mask);
      if num / mask % 2 == 1 {
        break;
      }
      Masks(count);
      mask := mask / 2;
      count := count + 1;
    }
    TopBitUnique(num, 30 - count);
    TopBitBelow(num);
  }

  lemma {:induction false} Masks(count: nat)
    requires count <= 30
    ensures Pow2(30) == TOP && Pow2(0) == 1
    ensures count < 30 ==> Pow2(30 - count) == 2 * Pow2(29 - count)
  {
    Pow2Values();
  }

  lemma {:induction false} BitTest(num: nat, mask: nat)
    requires mask > 0 && num < 2 * mask
    ensures num / mask % 2 == 1 <==> num >= mask
  {
    if num >= mask {
      DivUnique(num, mask, 1, num - mask);
    } else {
      DivUnique(num, mask, 0, num);
    }
  }

  lemma {:induction false} TopBitUnique(n: nat, t: nat)
    requires Pow2(t) <= n < 2 * Pow2(t)
    ensures TopBit(n) == t
  {
    if TopBit(n) < t {
      Pow2Monotone(TopBit(n) + 1, t);
    } else if TopBit(n) > t {
      Pow2Monotone(t + 1, TopBit(n));
    }
  }
}
