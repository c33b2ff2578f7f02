/** Delta Word Variable Width coding as functions on bit strings.

    The coder remembers the previous sample and the width of the previous delta.
    A codeword is the change of width in truncated unary with a sign, then the
    delta without its leading one, its sign, and an extra bit when the magnitude
    is the largest a width below the sample width can hold. */
module Dwvw {
  import opened Bits

  // ----- the integers the coder works with

  /** Bits of a sample. */
  type Width = w: nat | 2 <= w <= 24 witness 24

  function MaxDelta(w: Width): int {
    Pow2(w - 1)
  }

  /** The C remainder: what is left of `a` after taking away multiples of `b`, with the sign of `a`. */
  function CRem(a: int, b: int): (r: int)
    requires b > 0
    ensures -b < r < b && (a >= 0 ==> r >= 0) && (a <= 0 ==> r <= 0)
    decreases if a >= 0 then a else -a
  {
    if a >= b then CRem(a - b, b)
    else if a <= -b then CRem(a + b, b)
    else a
  }

  /** The arithmetic shift to the right. */
  function ShiftRight(x: int, n: nat): int
    decreases n, x
  {
    if n == 0 then x else ShiftRight(x / 2, n - 1)
  }

  /** The shift to the left within 32 bits. */
  function ShiftLeft(x: int, n: nat): int
    decreases n, x
  {
    if n == 0 then Int32(x) else ShiftLeft(2 * x, n - 1)
  }

  datatype Memory = Memory(width: nat, sample: int)

  const INITIAL := Memory(0, 0)

  predicate ValidMemory(w: Width, mem: Memory) {
    mem.width < w && -MaxDelta(w) <= mem.sample < MaxDelta(w)
  }

  /** A folded delta; `extra` is -1 when no extra bit is written. */
  datatype Delta = Delta(magnitude: int, negative: bool, extra: int)

  /** The sample with its low `32 - w` bits shifted out. */
  function Quantise(w: Width, x: int): int {
    ShiftRight(x, 32 - w)
  }

  /** The sample justified to the most significant bit again. */
  function Restore(w: Width, s: int): int {
    ShiftLeft(s, 32 - w)
  }

  /** The input with the low `32 - w` bits of every sample cleared. */
  function Masked(w: Width, xs: seq<int>): (r: seq<int>)
    ensures |r| == |xs|
  {
    seq(|xs|, i requires 0 <= i < |xs| => xs[i] - xs[i] % Pow2(32 - w))
  }

  // ----- encoder

  function FoldDelta(w: Width, d: int): Delta {
    var m := MaxDelta(w);
    if d < -m then Escaped(w, Delta(m + CRem(d, m), false, -1))
    else if d == -m then Delta(m - 1, true, 1)
    else if d > m then Escaped(w, Delta(Abs(2 * m - d), true, -1))
    else if d == m then Delta(m - 1, false, 1)
    else if d < 0 then Escaped(w, Delta(Abs(d), true, -1))
    else Escaped(w, Delta(d, false, -1))
  }

  function Escaped(w: Width, d: Delta): Delta {
    if d.magnitude == MaxDelta(w) - 1 then d.(extra := 0) else d
  }

  function Abs(x: int): (r: nat) {
    if x < 0 then -x else x
  }

  /** The number of significant bits. */
  function BitLength(n: nat): nat {
    if n == 0 then 0 else 1 + BitLength(n / 2)
  }

  function Modifier(w: Width, last: nat, width: nat): int {
    var m := CRem(width - last, w);
    var m1 := if m > w / 2 then m - w else m;
    if m1 < -(w / 2) then m1 + w else m1
  }

  /** `k` zeros ended by a one, the one being left out after `w / 2` zeros. */
  function Unary(w: nat, k: nat): seq<bool> {
    Zeros(k) + (if k != w / 2 then [true] else [])
  }

  function SignBit(m: int): seq<bool> {
    if m < 0 then [true] else if m > 0 then [false] else []
  }

  function Payload(d: Delta): seq<bool> {
    var width := BitLength(Abs(d.magnitude));
    (if width > 0 then ToBits(d.magnitude, width - 1) + [d.negative] else [])
    + (if d.extra >= 0 then [d.extra == 1] else [])
  }

  function Codeword(w: Width, mem: Memory, x: int): seq<bool> {
    var d := FoldDelta(w, Quantise(w, x) - mem.sample);
    var m := Modifier(w, mem.width, BitLength(Abs(d.magnitude)));
    Unary(w, Abs(m)) + SignBit(m) + Payload(d)
  }

  function Next(w: Width, mem: Memory, x: int): Memory {
    var s := Quantise(w, x);
    Memory(BitLength(Abs(FoldDelta(w, s - mem.sample).magnitude)), s)
  }

  function Encode(w: Width, mem: Memory, xs: seq<int>): seq<bool>
    decreases |xs|
  {
    if xs == [] then [] else Codeword(w, mem, xs[0]) + Encode(w, Next(w, mem, xs[0]), xs[1..])
  }

  function After(w: Width, mem: Memory, xs: seq<int>): Memory
    decreases |xs|
  {
    if xs == [] then mem else After(w, Next(w, mem, xs[0]), xs[1..])
  }

  /** The samples written when the encoder is closed. */
  function Padding(): (r: seq<int>)
    ensures |r| == 12
  {
    seq(12, _ => 0)
  }

  /** Every bit handed to the staging buffer from opening to closing. */
  function ClosedBits(w: Width, xs: seq<int>): seq<bool> {
    Encode(w, INITIAL, xs + Padding())
  }

  /** The bytes of the closed file. */
  function Stream(w: Width, xs: seq<int>): seq<byte> {
    Pack(ClosedBits(w, xs))
  }

  // ----- decoder

  /** What is left to read: the bits in the reservoir, then the bits of the bytes not yet
      loaded, eight to a byte. `ended` says that the last refill of the staging buffer
      brought nothing. */
  datatype Source = Source(reservoir: seq<bool>, rest: seq<bool>, ended: bool)

  function Available(src: Source): seq<bool> {
    src.reservoir + src.rest
  }

  datatype Loaded = Loaded(ok: bool, src: Source)

  /** Fill the reservoir to `need` bits. At the end of the file a request below
      eight bits fails, a longer one is filled up with zero bytes. */
  function Load(src: Source, need: nat): (r: Loaded)
    ensures r.ok ==> |r.src.reservoir| >= need
    ensures |r.src.reservoir| <= (if need + 7 > |src.reservoir| then need + 7 else |src.reservoir|)
    ensures !r.ok ==> need < 8
    decreases need - |src.reservoir|
  {
    if |src.reservoir| >= need then Loaded(true, src)
    else if |src.rest| >= 8 then
      Load(Source(src.reservoir + src.rest[..8], src.rest[8..], false), need)
    else if need < 8 then Loaded(false, src.(ended := true))
    else Load(Source(src.reservoir + Zeros(8), src.rest, true), need)
  }

  datatype Taken = Taken(value: int, src: Source)

  function Take(src: Source, n: nat): Taken {
    var l := Load(src, n);
    if !l.ok then Taken(-1, l.src)
    else Taken(Val(l.src.reservoir[..n]), l.src.(reservoir := l.src.reservoir[n..]))
  }

  function LeadingZeros(bits: seq<bool>): (k: nat)
    ensures k <= |bits|
  {
    if bits == [] || bits[0] then 0 else 1 + LeadingZeros(bits[1..])
  }

  function TakeUnary(w: nat, src: Source): Taken {
    var l := Load(src, w / 2);
    if !l.ok then Taken(-1, l.src)
    else
      var k := LeadingZeros(l.src.reservoir[..w / 2]);
      var used := if k < w / 2 then k + 1 else k;
      Taken(k, l.src.(reservoir := l.src.reservoir[used..]))
  }

  function TakeSign(m: int, src: Source): Taken {
    if m == 0 then Taken(m, src)
    else
      var t := Take(src, 1);
      Taken(if t.value != 0 then -m else m, t.src)
  }

  /** The sign of a delta of the given magnitude, and the extra bit where there is one. */
  function TakeSignAndExtra(w: Width, magnitude: int, src: Source): Taken {
    var sign := Take(src, 1);
    var extra := if magnitude == MaxDelta(w) - 1 then Take(sign.src, 1) else Taken(0, sign.src);
    var sized := magnitude + extra.value;
    Taken(if sign.value != 0 then -sized else sized, extra.src)
  }

  /** A delta of `width` bits; a failed read yields -1, which sets every bit. */
  function TakeDelta(w: Width, width: nat, src: Source): Taken {
    if width == 0 then Taken(0, src)
    else
      var low := Take(src, width - 1);
      TakeSignAndExtra(w, if low.value < 0 then -1 else low.value + Pow2(width - 1), low.src)
  }

  function Wrap(w: Width, s: int): int {
    if s >= MaxDelta(w) then s - 2 * MaxDelta(w)
    else if s < -MaxDelta(w) then s + 2 * MaxDelta(w)
    else s
  }

  function NewWidth(w: Width, last: nat, m: int): (width: nat)
    requires last < w && -(w as int) <= m <= w
    ensures width < w
  {
    CRem(last + m + w, w)
  }

  datatype Decoded = Decoded(mem: Memory, src: Source)

  /** The rest of a codeword, after `k` zeros have been counted. */
  function DecodeRest(w: Width, mem: Memory, k: nat, src: Source): Decoded
    requires ValidMemory(w, mem) && k <= w / 2
  {
    var m := TakeSign(k, src);
    var width := NewWidth(w, mem.width, m.value);
    var d := TakeDelta(w, width, m.src);
    Decoded(Memory(width, Wrap(w, mem.sample + d.value)), d.src)
  }

  datatype Result = Result(samples: seq<int>, mem: Memory, src: Source)

  /** One decode call for `n` samples; `first` holds while none has been counted. */
  function Decode(w: Width, mem: Memory, src: Source, n: nat, first: bool): Result
    requires ValidMemory(w, mem)
    decreases n
  {
    if n == 0 then Result([], mem, src)
    else
      var u := TakeUnary(w, src);
      if u.value < 0 || (u.src.ended && first) then Result([], mem, u.src)
      else
        var d := DecodeRest(w, mem, u.value, u.src);
        DecoderInRange(w, mem, u.value, u.src);
        if d.src.ended && d.src.reservoir == [] then Result([], d.mem, d.src)
        else
          var r := Decode(w, d.mem, d.src, n - 1, false);
          Result([Restore(w, d.mem.sample)] + r.samples, r.mem, r.src)
  }

  /** A decode call for `n` samples on a freshly opened file. */
  function DecodeStream(w: Width, stream: seq<byte>, n: nat): seq<int> {
    Decode(w, INITIAL, Source([], BytesBits(stream), true), n, true).samples
  }

  lemma {:induction false} TakeRange(src: Source, n: nat)
    ensures -1 <= Take(src, n).value < Pow2(n)
    ensures n == 0 ==> Take(src, n).value == 0
  {
    var l := Load(src, n);
    if l.ok {
      assert |l.src.reservoir[..n]| == n;
    }
  }

  lemma {:induction false} UnaryRange(w: nat, src: Source)
    ensures -1 <= TakeUnary(w, src).value <= w / 2
  {
  }

  lemma {:induction false} DeltaRange(w: Width, width: nat, src: Source)
    requires width < w
    ensures -MaxDelta(w) <= TakeDelta(w, width, src).value <= MaxDelta(w)
  {
    if width > 0 {
      var low := Take(src, width - 1);
      TakeRange(src, width - 1);
      var sign := Take(low.src, 1);
      TakeRange(sign.src, 1);
      Pow2Monotone(width, w - 1);
      assert Pow2(width) == 2 * Pow2(width - 1);
      assert Pow2(1) == 2;
      Pow2Monotone(1, w - 1);
    }
  }

  /** Whatever bytes arrive, the sample and the delta width stay in range. */
  lemma {:induction false} DecoderInRange(w: Width, mem: Memory, k: nat, src: Source)
    requires ValidMemory(w, mem) && k <= w / 2
    ensures ValidMemory(w, DecodeRest(w, mem, k, src).mem)
  {
    var m := TakeSign(k, src);
    DeltaRange(w, NewWidth(w, mem.width, m.value), m.src);
  }
}
