/** The bits of a DWVW file, told by their places and values. */
module DwvwFormat {
  import opened Bits
  import opened Common
  import opened Dwvw
  import opened DwvwLossless

  /** The step from the last sample to the next, shortened by the whole range of samples where it is
      longer than half of it. */
  function Change(w: Width, mem: Memory, x: int): int {
    var d, half: int := x / Pow2(32 - w) - mem.sample, Pow2(w - 1);
    if d > half then d - 2 * half else if d < -half then d + 2 * half else d
  }

  /** Its magnitude; the largest one is stored with an extra bit. */
  function Size(w: Width, step: int): nat {
    Least(if step < 0 then -step else step, Pow2(w - 1) - 1)
  }

  /** How the width changes: the difference, or the other way around where that is shorter. */
  function WidthChange(w: Width, last: nat, width: nat): int {
    var change := width - last;
    if change > w / 2 then change - w else if change < -(w / 2) then change + w else change
  }

  /** Where the zeros that count the width change end, and the one and the sign behind them. */
  predicate IsPrefix(w: Width, change: int, bits: seq<bool>) {
    var k := if change < 0 then -change else change;
    var one, sign := Bit(k != w / 2), Bit(change != 0);
    && |bits| == k + one + sign
    && (forall i :: 0 <= i < k ==> !bits[i])
    && (k != w / 2 ==> bits[k])
    && (change != 0 ==> bits[k + one] == (change < 0))
  }

  /** The bits of the size below its leading one, the sign of the step, and the extra bit. */
  predicate IsPayload(w: Width, step: int, width: nat, bits: seq<bool>) {
    var size, largest := Size(w, step), Pow2(w - 1) - 1;
    && (if size == 0 then width == 0 else width > 0 && Pow2(width - 1) <= size < Pow2(width))
    && |bits| == width + Bit(size == largest)
    && (forall i :: 0 <= i < width - 1 ==> bits[i] == (size / Pow2(width - 2 - i) % 2 == 1))
    && (width > 0 ==> bits[width - 1] == (step < 0))
    && (size == largest ==> bits[width] == (step == largest + 1 || step == -largest - 1))
  }

  lemma {:induction false} PrefixBits(w: Width, change: int)
    ensures IsPrefix(w, change, Unary(w, Abs(change)) + SignBit(change))
  {
  }

  lemma {:induction false} SizeIsMagnitude(w: Width, step: int, d: Delta)
    requires Folded(w, d) && Applied(d) == step
    ensures Size(w, step) == d.magnitude
    ensures d.extra >= 0 ==> (d.extra == 1 <==> step == Pow2(w - 1) || step + Pow2(w - 1) == 0)
  {
  }

  lemma {:induction false} AllBits(v: nat, n: nat)
    ensures forall i :: 0 <= i < n ==> ToBits(v, n)[i] == (v / Pow2(n - 1 - i) % 2 == 1)
  {
    forall i | 0 <= i < n
      ensures ToBits(v, n)[i] == (v / Pow2(n - 1 - i) % 2 == 1)
    {
      BitAt(v, n, i);
    }
  }

  lemma {:induction false} PayloadBits(w: Width, step: int, d: Delta)
    requires Folded(w, d) && Applied(d) == step && (d.negative <==> step < 0)
    ensures IsPayload(w, step, BitLength(d.magnitude), Payload(d))
  {
    hide Pow2, ToBits, Applied, Size, BitLength;
    var width := BitLength(d.magnitude);
    BitLengthBounds(d.magnitude);
    SizeIsMagnitude(w, step, d);
    if width > 0 {
      AllBits(d.magnitude, width - 1);
    }
  }

  /** The step the encoder takes, and how the width follows it. */
  lemma {:induction false} StepTaken(w: Width, mem: Memory, x: int)
    requires ValidMemory(w, mem) && IsInt32(x)
    ensures var d, next := FoldDelta(w, Quantise(w, x) - mem.sample), Next(w, mem, x);
            && Folded(w, d) && Applied(d) == Change(w, mem, x) && (d.negative <==> Change(w, mem, x) < 0)
            && next == Memory(BitLength(d.magnitude), x / Pow2(32 - w))
            && mem.width < w && next.width < w
            && Modifier(w, mem.width, next.width) == WidthChange(w, mem.width, next.width)
  {
    hide Pow2, FoldDelta, Modifier, BitLength;
    var s := Quantise(w, x);
    Shifts(x, 32 - w);
    NextValid(w, mem, x);
    SampleReached(w, mem, x);
    FoldKeepsDelta(w, s - mem.sample);
    ModifierReachesWidth(w, mem.width, Next(w, mem, x).width);
  }

  /** Every codeword is made of these two, and the memory then holds the sample and the width. */
  lemma {:induction false} CodewordBits(w: Width, mem: Memory, x: int) returns (prefix: nat)
    requires ValidMemory(w, mem) && IsInt32(x)
    ensures var bits, step, next := Codeword(w, mem, x), Change(w, mem, x), Next(w, mem, x);
            && prefix <= |bits|
            && IsPrefix(w, WidthChange(w, mem.width, next.width), bits[..prefix])
            && IsPayload(w, step, next.width, bits[prefix..])
            && next.sample == x / Pow2(32 - w)
  {
    hide *;
    var d, m := FoldDelta(w, Quantise(w, x) - mem.sample), Modifier(w, mem.width, Next(w, mem, x).width);
    StepTaken(w, mem, x);
    CodewordParts(w, mem, x, []);
    PrefixBits(w, m);
    PayloadBits(w, Change(w, mem, x), d);
    var front, back := Unary(w, Abs(m)) + SignBit(m), Payload(d);
    prefix := |front|;
    Reassociate(Unary(w, Abs(m)), SignBit(m), back, []);
    var bits := Codeword(w, mem, x);
    assert bits == bits + [] && front + back == front + back + [];
    assert bits[..prefix] == front && bits[prefix..] == back;
  }

  // ----- what the decoder makes of any codeword

  lemma {:induction false} OnceAround(a: int, b: int)
    requires b > 0
    ensures (a + b) % b == a % b
  {
    DivUnique(a + b, b, a / b + 1, a % b);
  }

  lemma {:induction false} RemainderOf(a: int, b: int)
    requires b > 0
    ensures CRem(a, b) == if a >= 0 then a % b else -(-a % b)
    decreases if a >= 0 then a else -a
  {
    if a >= b {
      RemainderOf(a - b, b);
      OnceAround(a - b, b);
    } else if a <= -b {
      RemainderOf(a + b, b);
      OnceAround(-a - b, b);
    } else {
      DivUnique(if a >= 0 then a else -a, b, 0, if a >= 0 then a else -a);
    }
  }

  lemma {:induction false} WidthGoesRound(w: Width, last: nat, m: int)
    requires last < w && -(w as int) <= m <= w
    ensures NewWidth(w, last, m) == (last + m) % w
  {
    RemainderOf(last + m + w, w);
    OnceAround(last + m, w);
  }

  /** The width goes round modulo the sample width, the sample modulo the range of samples. */
  lemma {:induction false} DecodedMemory(w: Width, mem: Memory, k: nat, src: Source)
    requires ValidMemory(w, mem) && k <= w / 2
    ensures var m := TakeSign(k, src);
            var width, half: int := (mem.width + m.value) % w, Pow2(w - 1);
            var sum, r := mem.sample + TakeDelta(w, width, m.src).value, DecodeRest(w, mem, k, src).mem;
            && r.width == width && -half <= r.sample < half
            && (r.sample == sum || r.sample == sum + 2 * half || r.sample == sum - 2 * half)
  {
    DecoderInRange(w, mem, k, src);
    WidthGoesRound(w, mem.width, TakeSign(k, src).value);
    hide Take, TakeDelta, Pow2, NewWidth;
  }

  /** A delta whose low bits are missing counts as one downwards where its sign bit is there and clear,
      and as one upwards otherwise. */
  lemma {:induction false} CutShort(w: Width, width: nat, src: Source)
    requires 0 < width < w && !Load(src, width - 1).ok
    ensures var sign := Take(Load(src, width - 1).src, 1);
            TakeDelta(w, width, src) == Taken(if sign.value == 0 then -1 else 1, sign.src)
  {
    hide Load;
    assert MaxDelta(w) > 1 by { Pow2Monotone(1, w - 1); }
  }

  /** A sign bit that is missing counts as set. */
  lemma {:induction false} MissingSign(k: nat, src: Source)
    requires k > 0
    ensures TakeSign(k, src).value ==
            if Load(src, 1).ok && !Load(src, 1).src.reservoir[0] then k else 0 - k
  {
    hide Load;
    var l := Load(src, 1);
    if l.ok {
      ValPrefix(l.src.reservoir, 1);
    }
  }

  // ----- a file, bit by bit

  lemma {:induction false} Numbers()
    ensures BitLength(0) == 0 && BitLength(128) == 8 && ToBits(128, 7) == Zeros(7)
    ensures MaxDelta(16) == 0x8000 && Pow2(16) == 0x1_0000
  {
    Pow2Values();
    assert Pow2(16) == 2 * Pow2(15);
    assert BitLength(1) == 1 && BitLength(4) == 3 && BitLength(16) == 5 && BitLength(64) == 7;
    assert ToBits(1, 0) == [] && ToBits(2, 1) == [false] && ToBits(8, 3) == Zeros(3) && ToBits(32, 5) == Zeros(5);
  }

  lemma {:induction false} Up()
    ensures Codeword(16, INITIAL, 0x80_0000) == Zeros(17) && Next(16, INITIAL, 0x80_0000) == Memory(8, 128)
  {
    hide Pow2, ToBits, BitLength, ShiftRight, MaxDelta;
    Numbers();
    Shifts(0x80_0000, 16);
    assert FoldDelta(16, 128) == Delta(128, false, -1) && Modifier(16, 0, 8) == 8;
    assert Payload(Delta(128, false, -1)) == Zeros(8);
  }

  lemma {:induction false} Down()
    ensures Codeword(16, Memory(8, 128), 0) == [true] + Zeros(7) + [true]
    ensures Next(16, Memory(8, 128), 0) == Memory(8, 0)
  {
    hide Pow2, ToBits, BitLength, ShiftRight, MaxDelta;
    Numbers();
    Shifts(0, 16);
    assert FoldDelta(16, -128) == Delta(128, true, -1) && Modifier(16, 8, 8) == 0;
    assert Payload(Delta(128, true, -1)) == Zeros(7) + [true];
  }

  lemma {:induction false} Still(last: nat)
    requires last == 0 || last == 8
    ensures Codeword(16, Memory(last, 0), 0) == if last == 0 then [true] else Zeros(8) + [true]
    ensures Next(16, Memory(last, 0), 0) == INITIAL
  {
    hide Pow2, ToBits, BitLength, ShiftRight, MaxDelta;
    Numbers();
    Shifts(0, 16);
    assert FoldDelta(16, 0) == Delta(0, false, -1) && Modifier(16, last, 0) + last == 0;
    assert Payload(Delta(0, false, -1)) == [];
  }

  lemma {:induction false} Ones(n: nat)
    ensures Encode(16, INITIAL, seq(n, _ => 0)) == seq(n, _ => true)
  {
    hide Codeword, Next;
    if n > 0 {
      var xs := seq(n, _ => 0);
      Ones(n - 1);
      Still(0);
      assert xs[0] == 0 && xs[1..] == seq(n - 1, _ => 0);
    }
  }

  /** At 16 bits, the sample 128 after silence, then silence. */
  lemma {:induction false} UpAndDown()
    ensures ClosedBits(16, [0x80_0000])
         == Zeros(17) + (([true] + Zeros(7) + [true]) + ((Zeros(8) + [true]) + seq(10, _ => true)))
  {
    hide Codeword, Next;
    var xs := [0x80_0000] + Padding();
    var ys, zs := Padding(), seq(11, _ => 0);
    assert xs[1..] == ys && ys[1..] == zs && zs[1..] == seq(10, _ => 0);
    Up();
    Down();
    Still(8);
    Ones(10);
    assert Encode(16, Memory(8, 0), zs) == (Zeros(8) + [true]) + seq(10, _ => true);
    assert Encode(16, Memory(8, 128), ys) == ([true] + Zeros(7) + [true]) + Encode(16, Memory(8, 0), zs);
    assert Encode(16, INITIAL, xs) == Zeros(17) + Encode(16, Memory(8, 128), ys);
  }

  lemma {:induction false} BitOfAll<T>(a: seq<T>, b: seq<T>, c: seq<T>, d: seq<T>, i: nat)
    requires i < |a| + |b| + |c| + |d|
    ensures (a + (b + (c + d)))[i] ==
            if i < |a| then a[i]
            else if i < |a| + |b| then b[i - |a|]
            else if i < |a| + |b| + |c| then c[i - |a| - |b|]
            else d[i - |a| - |b| - |c|]
  {
  }

  /** Its file: the half width of zeros has no one behind it, and the sign of the change is clear. */
  lemma {:induction false} UpAndDownFile()
    ensures Stream(16, [0x80_0000]) == [0, 0, 0x40, 0x40, 0x3F]
  {
    hide ClosedBits, Pack;
    UpAndDown();
    var bits := ClosedBits(16, [0x80_0000]);
    forall i | 0 <= i < 45
      ensures bits[i] == (i == 17 || i == 25 || i >= 34)
    {
      BitOfAll(Zeros(17), [true] + Zeros(7) + [true], Zeros(8) + [true], seq(10, _ => true), i);
    }
    PackedAt(bits, 0);
    PackedAt(bits, 1);
    PackedAt(bits, 2);
    PackedAt(bits, 3);
    PackedAt(bits, 4);
    assert Loose(45) == 5;
  }
}
