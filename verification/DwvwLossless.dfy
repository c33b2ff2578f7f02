/** The DWVW decoder undoes the DWVW encoder, and exactly when it does not. */
module DwvwLossless {
  import opened Bits
  import opened Dwvw

  // ----- one delta: folding, width, modifier

  /** The signed amount a folded delta adds to the sample. */
  function Applied(d: Delta): int {
    var sized := d.magnitude + (if d.extra >= 0 then d.extra else 0);
    if d.negative then -sized else sized
  }

  /** Folding keeps the delta modulo the span and fits it below the largest magnitude. */
  lemma {:induction false} FoldKeepsDelta(w: Width, d: int)
    requires -2 * MaxDelta(w) < d < 2 * MaxDelta(w)
    ensures var f := FoldDelta(w, d); var m := MaxDelta(w);
            && 0 <= f.magnitude < m
            && -1 <= f.extra <= 1
            && (f.extra >= 0 <==> f.magnitude == m - 1)
            && Applied(f) == (if d < -m then d + 2 * m else if d > m then d - 2 * m else d)
            && (f.negative <==> Applied(f) < 0)
  {
    var m := MaxDelta(w);
    if d < -m {
      assert CRem(d, m) == CRem(d + m, m) == d + m;
    }
  }

  lemma {:induction false} BitLengthBounds(n: nat)
    ensures n == 0 <==> BitLength(n) == 0
    ensures n > 0 ==> Pow2(BitLength(n) - 1) <= n < Pow2(BitLength(n))
  {
    if n > 1 {
      BitLengthBounds(n / 2);
    }
  }

  lemma {:induction false} BitLengthBelow(n: nat, k: nat)
    requires n < Pow2(k)
    ensures BitLength(n) <= k
  {
    if n > 0 {
      BitLengthBelow(n / 2, k - 1);
    }
  }

  /** The modifier is the change of width, made shorter by a whole sample width where that is more
      than half of it, so that adding it modulo the sample width gives the new delta width. */
  lemma {:induction false} ModifierReachesWidth(w: Width, last: nat, width: nat)
    requires last < w && width < w
    ensures var m := Modifier(w, last, width);
            -(w / 2) <= m <= w / 2 && NewWidth(w, last, m) == width
            && (m == 0 <==> last == width)
            && var change := width - last;
               m == if change > w / 2 then change - w else if change < -(w / 2) then change + w else change
  {
    assert CRem(width - last, w) == width - last;
    assert CRem(width, w) == width && CRem(width + w, w) == width && CRem(width + w + w, w) == width;
    var sum := last + Modifier(w, last, width) + w;
    assert sum == width || sum == width + w || sum == width + w + w;
  }

  lemma {:induction false} QuantiseRange(w: Width, x: int)
    requires IsInt32(x)
    ensures -MaxDelta(w) <= Quantise(w, x) < MaxDelta(w)
    ensures Restore(w, Quantise(w, x)) == x - x % Pow2(32 - w)
  {
    hide Pow2;
    var p, m := Pow2(32 - w), MaxDelta(w);
    assert m * p == 0x8000_0000 by {
      Pow2Add(w - 1, 32 - w);
      Pow2Values();
    }
    DivideInt32(x, p, m);
    Shifts(x, 32 - w);
    Shifts(Quantise(w, x), 32 - w);
  }

  lemma {:induction false} Shifts(x: int, n: nat)
    ensures ShiftRight(x, n) == x / Pow2(n)
    ensures ShiftLeft(x, n) == Int32(x * Pow2(n))
    decreases n
  {
    if n > 0 {
      HalfFirst(x, Pow2(n - 1));
      Shifts(x / 2, n - 1);
      Shifts(2 * x, n - 1);
      MulAssociative(x, 2, Pow2(n - 1));
    }
  }

  lemma {:induction false} DivideInt32(x: int, p: int, m: int)
    requires p > 0 && m * p == 0x8000_0000 && IsInt32(x)
    ensures -m <= x / p < m
    ensures x / p * p == x - x % p && IsInt32(x / p * p)
  {
    var q := x / p;
    assert x == q * p + x % p;
    assert (q - m) * p == q * p - m * p && (q + m + 1) * p == q * p + m * p + p && (q + m) * p == q * p + m * p;
    SmallMultiple(q - m, p);
    SmallMultiple(q + m + 1, p);
    SmallMultiple(q + m, p);
  }

  /** Folded deltas of valid samples leave a valid memory. */
  lemma {:induction false} NextValid(w: Width, mem: Memory, x: int)
    requires ValidMemory(w, mem) && IsInt32(x)
    ensures ValidMemory(w, Next(w, mem, x))
    ensures -2 * MaxDelta(w) < Quantise(w, x) - mem.sample < 2 * MaxDelta(w)
  {
    QuantiseRange(w, x);
    FoldKeepsDelta(w, Quantise(w, x) - mem.sample);
    BitLengthBelow(FoldDelta(w, Quantise(w, x) - mem.sample).magnitude, w - 1);
  }

  // ----- reading back what a source holds

  predicate WholeBytes(src: Source) {
    Loose(|src.rest|) == 0
  }

  lemma {:induction false} LoadKeepsBits(src: Source, need: nat)
    requires WholeBytes(src)
    ensures var l := Load(src, need);
            && WholeBytes(l.src)
            && (l.ok <==> need >= 8 || |Available(src)| >= need)
            && Available(src) <= Available(l.src)
            && (|Available(src)| >= need ==> Available(l.src) == Available(src) && (l.src.ended ==> src.ended))
            && (Settled(src) || |src.reservoir| < need ==> Settled(l.src))
            && (|Available(src)| < need ==> l.src.ended)
            && (|src.reservoir| < need <= |Available(src)| ==> !l.src.ended)
    decreases need - |src.reservoir|
  {
    if |src.reservoir| < need {
      if |src.rest| >= 8 {
        var s := Source(src.reservoir + src.rest[..8], src.rest[8..], false);
        assert Available(s) == Available(src);
        LoadKeepsBits(s, need);
      } else if need >= 8 {
        LoadAtEnd(src, need);
      }
    }
  }

  lemma {:induction false} LoadAtEnd(src: Source, need: nat)
    requires src.rest == [] && |src.reservoir| < need && need >= 8
    ensures var l := Load(src, need);
            l.ok && l.src.ended && l.src.rest == [] && src.reservoir <= l.src.reservoir
    decreases need - |src.reservoir|
  {
    var s := Source(src.reservoir + Zeros(8), src.rest, true);
    if |s.reservoir| < need {
      LoadAtEnd(s, need);
    }
  }

  /** Once a refill has brought nothing there is nothing left in the file. */
  predicate Settled(src: Source) {
    src.ended ==> src.rest == []
  }

  /** Reading moved from `src` to `src'`, and `rest` is what is still ahead. */
  predicate Leaves(src: Source, rest: seq<bool>, src': Source) {
    && Available(src') == rest
    && WholeBytes(src')
    && (src'.ended ==> src.ended)
    && (Settled(src) ==> Settled(src'))
  }

  lemma {:induction false} DropFront(src: Source, a: seq<bool>, rest: seq<bool>)
    requires WholeBytes(src) && |a| <= |src.reservoir| && Available(src) == a + rest
    ensures a == src.reservoir[..|a|]
    ensures Leaves(src, rest, src.(reservoir := src.reservoir[|a|..]))
  {
    assert a == Available(src)[..|a|];
    assert rest == Available(src)[|a|..];
  }

  lemma {:induction false} TakeExact(src: Source, a: seq<bool>, rest: seq<bool>)
    requires WholeBytes(src) && Available(src) == a + rest
    ensures Take(src, |a|).value == Val(a)
    ensures Leaves(src, rest, Take(src, |a|).src)
  {
    LoadKeepsBits(src, |a|);
    DropFront(Load(src, |a|).src, a, rest);
  }

  lemma {:induction false} TakeBit(src: Source, b: bool, rest: seq<bool>)
    requires WholeBytes(src) && Available(src) == [b] + rest
    ensures Take(src, 1).value == (if b then 1 else 0)
    ensures Leaves(src, rest, Take(src, 1).src)
  {
    TakeExact(src, [b], rest);
    assert [b][..0] == [];
  }

  lemma {:induction false} CountZeros(k: nat, bits: seq<bool>)
    requires k <= |bits| && (forall i :: 0 <= i < k ==> !bits[i]) && (k < |bits| ==> bits[k])
    ensures LeadingZeros(bits) == k
  {
    if k > 0 {
      CountZeros(k - 1, bits[1..]);
    }
  }

  /** Reading back a unary count from a reservoir that has been filled. */
  lemma {:induction false} UnaryDecodes(w: nat, k: nat, src: Source, rest: seq<bool>)
    requires WholeBytes(src) && k <= w / 2 && Load(src, w / 2).ok
    requires Available(Load(src, w / 2).src) == Unary(w, k) + rest
    ensures TakeUnary(w, src).value == k
    ensures Leaves(Load(src, w / 2).src, rest, TakeUnary(w, src).src)
  {
    LoadKeepsBits(src, w / 2);
    var l := Load(src, w / 2).src;
    var code := Unary(w, k);
    DropFront(l, code, rest);
    var head := l.reservoir[..w / 2];
    assert forall i :: 0 <= i < k ==> head[i] == code[i];
    assert k < w / 2 ==> head[k] == code[k];
    CountZeros(k, head);
  }

  lemma {:induction false} SignDecodes(m: int, src: Source, rest: seq<bool>)
    requires WholeBytes(src) && Available(src) == SignBit(m) + rest
    ensures TakeSign(Abs(m), src).value == m
    ensures Leaves(src, rest, TakeSign(Abs(m), src).src)
  {
    if m != 0 {
      TakeBit(src, m < 0, rest);
    } else {
      assert SignBit(m) + rest == rest;
    }
  }

  predicate Folded(w: Width, d: Delta) {
    && 0 <= d.magnitude < MaxDelta(w)
    && -1 <= d.extra <= 1
    && (d.extra >= 0 <==> d.magnitude == MaxDelta(w) - 1)
  }

  lemma {:induction false} LeadingOne(magnitude: nat)
    requires magnitude > 0
    ensures BitLength(magnitude) > 0
    ensures Val(ToBits(magnitude, BitLength(magnitude) - 1)) + Pow2(BitLength(magnitude) - 1) == magnitude
  {
    BitLengthBounds(magnitude);
    var p := Pow2(BitLength(magnitude) - 1);
    ValOfBits(magnitude, BitLength(magnitude) - 1);
    DivUnique(magnitude, p, 1, magnitude - p);
  }

  function EscapeBit(d: Delta): seq<bool> {
    if d.extra >= 0 then [d.extra == 1] else []
  }

  lemma {:induction false} PayloadParts(d: Delta, rest: seq<bool>)
    requires d.magnitude > 0 && BitLength(d.magnitude) > 0
    ensures Payload(d) + rest
         == ToBits(d.magnitude, BitLength(d.magnitude) - 1) + ([d.negative] + (EscapeBit(d) + rest))
  {
  }

  lemma {:induction false} SignAndExtraDecode(w: Width, d: Delta, src: Source, rest: seq<bool>)
    requires Folded(w, d) && WholeBytes(src)
    requires Available(src) == [d.negative] + (EscapeBit(d) + rest)
    ensures TakeSignAndExtra(w, d.magnitude, src).value == Applied(d)
    ensures Leaves(src, rest, TakeSignAndExtra(w, d.magnitude, src).src)
  {
    TakeBit(src, d.negative, EscapeBit(d) + rest);
    if d.extra >= 0 {
      TakeBit(Take(src, 1).src, d.extra == 1, rest);
    } else {
      assert EscapeBit(d) + rest == rest;
    }
  }

  lemma {:induction false} PayloadDecodes(w: Width, d: Delta, src: Source, rest: seq<bool>)
    requires Folded(w, d) && WholeBytes(src) && Available(src) == Payload(d) + rest
    ensures TakeDelta(w, BitLength(d.magnitude), src).value == Applied(d)
    ensures Leaves(src, rest, TakeDelta(w, BitLength(d.magnitude), src).src)
  {
    hide Take, Payload, EscapeBit, TakeSignAndExtra, Available, WholeBytes, ToBits, Pow2, TakeDelta;
    if d.magnitude == 0 {
      NoPayload(w, d, src, rest);
    } else {
      LeadingOne(d.magnitude);
      PayloadParts(d, rest);
      var low := ToBits(d.magnitude, BitLength(d.magnitude) - 1);
      TakeExact(src, low, [d.negative] + (EscapeBit(d) + rest));
      SignAndExtraDecode(w, d, Take(src, |low|).src, rest);
      DeltaTaken(w, BitLength(d.magnitude), src);
    }
  }

  lemma {:induction false} NoPayload(w: Width, d: Delta, src: Source, rest: seq<bool>)
    requires Folded(w, d) && WholeBytes(src) && Available(src) == Payload(d) + rest && d.magnitude == 0
    ensures TakeDelta(w, BitLength(d.magnitude), src).value == Applied(d)
    ensures Leaves(src, rest, TakeDelta(w, BitLength(d.magnitude), src).src)
  {
    assert MaxDelta(w) > 1 by { Pow2Monotone(1, w - 1); }
    assert Payload(d) + rest == rest;
  }

  lemma {:induction false} DeltaTaken(w: Width, width: nat, src: Source)
    requires width > 0 && Take(src, width - 1).value >= 0
    ensures var low := Take(src, width - 1);
            TakeDelta(w, width, src) == TakeSignAndExtra(w, low.value + Pow2(width - 1), low.src)
  {
  }

  lemma {:induction false} RestDecodes(w: Width, mem: Memory, m: int, d: Delta, src: Source, rest: seq<bool>)
    requires ValidMemory(w, mem) && Folded(w, d) && WholeBytes(src)
    requires Abs(m) <= w / 2 && NewWidth(w, mem.width, m) == BitLength(d.magnitude)
    requires Available(src) == SignBit(m) + (Payload(d) + rest)
    ensures var r := DecodeRest(w, mem, Abs(m), src);
            && r.mem == Memory(BitLength(d.magnitude), Wrap(w, mem.sample + Applied(d)))
            && Leaves(src, rest, r.src)
  {
    SignDecodes(m, src, Payload(d) + rest);
    PayloadDecodes(w, d, TakeSign(Abs(m), src).src, rest);
  }

  lemma {:induction false} SampleReached(w: Width, mem: Memory, x: int)
    requires ValidMemory(w, mem) && IsInt32(x)
    ensures var d := FoldDelta(w, Quantise(w, x) - mem.sample);
            && Folded(w, d)
            && Next(w, mem, x) == Memory(BitLength(d.magnitude), Wrap(w, mem.sample + Applied(d)))
            && BitLength(d.magnitude) < w
  {
    NextValid(w, mem, x);
    QuantiseRange(w, x);
    FoldKeepsDelta(w, Quantise(w, x) - mem.sample);
  }

  lemma {:induction false} CodewordParts(w: Width, mem: Memory, x: int, rest: seq<bool>)
    requires ValidMemory(w, mem) && IsInt32(x)
    ensures var d := FoldDelta(w, Quantise(w, x) - mem.sample);
            var m := Modifier(w, mem.width, Next(w, mem, x).width);
            && Abs(m) <= w / 2
            && NewWidth(w, mem.width, m) == Next(w, mem, x).width
            && Codeword(w, mem, x) + rest == Unary(w, Abs(m)) + (SignBit(m) + (Payload(d) + rest))
  {
    hide FoldDelta, Payload, SignBit, Unary, Modifier, NewWidth;
    SampleReached(w, mem, x);
    ModifierReachesWidth(w, mem.width, Next(w, mem, x).width);
    var d := FoldDelta(w, Quantise(w, x) - mem.sample);
    var m := Modifier(w, mem.width, Next(w, mem, x).width);
    Reassociate(Unary(w, Abs(m)), SignBit(m), Payload(d), rest);
  }

  lemma {:induction false} Reassociate<T>(a: seq<T>, b: seq<T>, c: seq<T>, d: seq<T>)
    ensures a + b + c + d == a + (b + (c + d))
  {
  }

  /** The decoder state reached by reading one codeword. */
  function ReadOne(w: Width, mem: Memory, src: Source): Decoded
    requires ValidMemory(w, mem)
  {
    var u := TakeUnary(w, src);
    if 0 <= u.value <= w / 2 then DecodeRest(w, mem, u.value, u.src) else Decoded(mem, u.src)
  }

  lemma {:induction false} CodewordDecodes(w: Width, mem: Memory, x: int, src: Source, rest: seq<bool>)
    requires ValidMemory(w, mem) && IsInt32(x)
    requires WholeBytes(src) && Load(src, w / 2).ok
    requires Available(Load(src, w / 2).src) == Codeword(w, mem, x) + rest
    ensures 0 <= TakeUnary(w, src).value <= w / 2
    ensures ReadOne(w, mem, src).mem == Next(w, mem, x)
    ensures Leaves(TakeUnary(w, src).src, rest, ReadOne(w, mem, src).src)
    ensures Leaves(Load(src, w / 2).src, rest, ReadOne(w, mem, src).src)
  {
    var d := FoldDelta(w, Quantise(w, x) - mem.sample);
    var m := Modifier(w, mem.width, Next(w, mem, x).width);
    CodewordParts(w, mem, x, rest);
    SampleReached(w, mem, x);
    UnaryDecodes(w, Abs(m), src, SignBit(m) + (Payload(d) + rest));
    RestDecodes(w, mem, m, d, TakeUnary(w, src).src, rest);
  }

  // ----- whole streams

  /** Reading one codeword that more bits follow; short of bits the reservoir is filled with zeros. */
  lemma {:induction false} OneSample(w: Width, mem: Memory, x: int, src: Source, rest: seq<bool>)
    requires ValidMemory(w, mem) && IsInt32(x)
    requires WholeBytes(src) && (Settled(src) || src.reservoir == [])
    requires rest != [] && Codeword(w, mem, x) + rest <= Available(src)
    requires w / 2 >= 8 || |Available(src)| >= w / 2
    ensures var u := TakeUnary(w, src); var r := ReadOne(w, mem, src);
            && 0 <= u.value <= w / 2
            && r.mem == Next(w, mem, x)
            && WholeBytes(r.src) && Settled(r.src)
            && rest <= Available(r.src)
            && !(r.src.ended && r.src.reservoir == [])
            && (|Available(src)| >= w / 2 ==> Available(r.src) == Available(src)[|Codeword(w, mem, x)|..])
            && (src.reservoir == [] ==> (u.src.ended <==> |Available(src)| < w / 2))
  {
    LoadKeepsBits(src, w / 2);
    var l := Load(src, w / 2).src;
    var code := Codeword(w, mem, x);
    var ahead := Available(l)[|code|..];
    PrefixSplit(code, rest, Available(src), Available(l));
    CodewordDecodes(w, mem, x, src, ahead);
  }

  lemma {:induction false} PrefixSplit<T>(a: seq<T>, rest: seq<T>, s: seq<T>, l: seq<T>)
    requires a + rest <= s <= l
    ensures l == a + l[|a|..] && rest <= l[|a|..]
  {
    assert (a + rest)[..|a|] == a && (a + rest)[|a|..] == rest;
    assert l[..|a + rest|] == a + rest;
    assert l[..|a|] == l[..|a + rest|][..|a|];
    assert l[|a|..][..|rest|] == l[..|a + rest|][|a|..];
  }

  lemma {:induction false} DecodeStep(w: Width, mem: Memory, src: Source, n: nat, first: bool)
    requires ValidMemory(w, mem) && n > 0
    requires var u := TakeUnary(w, src); 0 <= u.value <= w / 2 && !(u.src.ended && first)
    requires var r := ReadOne(w, mem, src); ValidMemory(w, r.mem) && !(r.src.ended && r.src.reservoir == [])
    ensures var r := ReadOne(w, mem, src);
            Decode(w, mem, src, n, first).samples
            == [Restore(w, r.mem.sample)] + Decode(w, r.mem, r.src, n - 1, false).samples
  {
  }

  lemma {:induction false} MaskedCons(w: Width, xs: seq<int>)
    requires xs != [] && IsInt32(xs[0])
    ensures Masked(w, xs) == [Restore(w, Quantise(w, xs[0]))] + Masked(w, xs[1..])
  {
    QuantiseRange(w, xs[0]);
  }

  lemma {:induction false} EncodeParts(w: Width, mem: Memory, xs: seq<int>, tail: seq<bool>)
    requires xs != []
    ensures Encode(w, mem, xs) + tail
         == Codeword(w, mem, xs[0]) + (Encode(w, Next(w, mem, xs[0]), xs[1..]) + tail)
  {
  }

  lemma {:induction false} WideStep(w: nat, mem: Memory, src: Source, xs: seq<int>, tail: seq<bool>, first: bool)
    requires 16 <= w <= 24 && ValidMemory(w, mem) && AllInt32(xs) && xs != []
    requires WholeBytes(src) && tail != []
    requires if first then src.reservoir == [] && |Available(src)| >= w / 2 else Settled(src)
    requires Encode(w, mem, xs) + tail <= Available(src)
    ensures var r := ReadOne(w, mem, src); var next := Next(w, mem, xs[0]);
            && r.mem == next && ValidMemory(w, next)
            && WholeBytes(r.src) && Settled(r.src)
            && Encode(w, next, xs[1..]) + tail <= Available(r.src)
            && Decode(w, mem, src, |xs|, first).samples
               == [Restore(w, next.sample)] + Decode(w, next, r.src, |xs| - 1, false).samples
  {
    EncodeParts(w, mem, xs, tail);
    NextValid(w, mem, xs[0]);
    OneSample(w, mem, xs[0], src, Encode(w, Next(w, mem, xs[0]), xs[1..]) + tail);
    DecodeStep(w, mem, src, |xs|, first);
  }

  lemma {:induction false} NothingDecoded(w: Width, mem: Memory, src: Source, first: bool)
    requires ValidMemory(w, mem)
    ensures Decode(w, mem, src, 0, first).samples == [] == Masked(w, [])
  {
  }

  /** At widths of 16 and more every sample that has its bits comes back. */
  lemma {:induction false} DecodeWide(w: nat, mem: Memory, src: Source, xs: seq<int>, tail: seq<bool>, first: bool)
    requires 16 <= w <= 24 && ValidMemory(w, mem) && AllInt32(xs)
    requires WholeBytes(src) && tail != []
    requires if first then src.reservoir == [] && |Available(src)| >= w / 2 else Settled(src)
    requires Encode(w, mem, xs) + tail <= Available(src)
    ensures Decode(w, mem, src, |xs|, first).samples == Masked(w, xs)
    decreases |xs|
  {
    hide ReadOne, Encode, Decode, Restore, Available, WholeBytes, Settled, Quantise, Masked;
    if xs == [] {
      NothingDecoded(w, mem, src, first);
    } else {
      WideStep(w, mem, src, xs, tail, first);
      DecodeWide(w, Next(w, mem, xs[0]), ReadOne(w, mem, src).src, xs[1..], tail, false);
      MaskedCons(w, xs);
    }
  }

  /** The memory before the last sample. */
  function BeforeLast(w: Width, mem: Memory, xs: seq<int>): Memory
    requires xs != []
  {
    After(w, mem, xs[..|xs| - 1])
  }

  function LastCodeword(w: Width, mem: Memory, xs: seq<int>): seq<bool>
    requires xs != []
  {
    Codeword(w, BeforeLast(w, mem, xs), xs[|xs| - 1])
  }

  lemma {:induction false} CodewordNotEmpty(w: Width, mem: Memory, x: int)
    ensures |Codeword(w, mem, x)| >= 1
  {
  }

  /** Below 16 bits a count of zeros needs `w / 2` bits to be there, so the last sample may be lost. */
  lemma {:induction false} DecodeNarrow(w: nat, mem: Memory, src: Source, xs: seq<int>, tail: seq<bool>, first: bool)
    requires 2 <= w < 16 && ValidMemory(w, mem) && AllInt32(xs) && xs != []
    requires WholeBytes(src) && (if first then src.reservoir == [] else Settled(src))
    requires |tail| >= 5 && Encode(w, mem, xs) + tail == Available(src)
    ensures Decode(w, mem, src, |xs|, first).samples == Kept(w, mem, xs, |tail|)
    decreases |xs|
  {
    hide Encode, Decode, Kept, ReadOne, Available, Restore, Codeword, Quantise;
    if |xs| == 1 {
      LastStep(w, mem, src, xs, tail, first);
    } else {
      NarrowStep(w, mem, src, xs, tail, first);
      DecodeNarrow(w, Next(w, mem, xs[0]), ReadOne(w, mem, src).src, xs[1..], tail, false);
      KeptCons(w, mem, xs, |tail|);
    }
  }

  /** The samples that come back below 16 bits when `spare` bits follow the last codeword. */
  function Kept(w: Width, mem: Memory, xs: seq<int>, spare: nat): seq<int>
    requires xs != []
  {
    if |LastCodeword(w, mem, xs)| + spare >= w / 2 then Masked(w, xs) else Masked(w, xs[..|xs| - 1])
  }

  lemma {:induction false} KeptCons(w: Width, mem: Memory, xs: seq<int>, spare: nat)
    requires |xs| > 1 && IsInt32(xs[0])
    ensures Kept(w, mem, xs, spare)
         == [Restore(w, Quantise(w, xs[0]))] + Kept(w, Next(w, mem, xs[0]), xs[1..], spare)
  {
    MaskedCons(w, xs);
    MaskedCons(w, xs[..|xs| - 1]);
    assert xs[..|xs| - 1][1..] == xs[1..][..|xs[1..]| - 1];
  }

  /** A sample that another one follows is always read. */
  lemma {:induction false} NarrowStep(w: nat, mem: Memory, src: Source, xs: seq<int>, tail: seq<bool>, first: bool)
    requires 2 <= w < 16 && ValidMemory(w, mem) && AllInt32(xs) && |xs| > 1
    requires WholeBytes(src) && (if first then src.reservoir == [] else Settled(src))
    requires |tail| >= 5 && Encode(w, mem, xs) + tail == Available(src)
    ensures var r := ReadOne(w, mem, src); var next := Next(w, mem, xs[0]);
            && r.mem == next && ValidMemory(w, next)
            && WholeBytes(r.src) && Settled(r.src)
            && Available(r.src) == Encode(w, next, xs[1..]) + tail
            && Decode(w, mem, src, |xs|, first).samples
               == [Restore(w, next.sample)] + Decode(w, next, r.src, |xs| - 1, false).samples
  {
    var next := Next(w, mem, xs[0]);
    var rest := Encode(w, next, xs[1..]) + tail;
    EncodeParts(w, mem, xs, tail);
    CodewordNotEmpty(w, mem, xs[0]);
    CodewordNotEmpty(w, next, xs[1]);
    assert |Available(src)| >= w / 2;
    NextValid(w, mem, xs[0]);
    OneSample(w, mem, xs[0], src, rest);
    DecodeStep(w, mem, src, |xs|, first);
    assert rest == Available(src)[|Codeword(w, mem, xs[0])|..];
  }

  lemma {:induction false} LastStep(w: nat, mem: Memory, src: Source, xs: seq<int>, tail: seq<bool>, first: bool)
    requires 2 <= w < 16 && ValidMemory(w, mem) && |xs| == 1 && IsInt32(xs[0])
    requires WholeBytes(src) && (if first then src.reservoir == [] else Settled(src))
    requires |tail| >= 5 && Encode(w, mem, xs) + tail == Available(src)
    ensures Decode(w, mem, src, 1, first).samples == Kept(w, mem, xs, |tail|)
  {
    EncodeParts(w, mem, xs, tail);
    assert Encode(w, Next(w, mem, xs[0]), []) + tail == tail;
    LoadKeepsBits(src, w / 2);
    NextValid(w, mem, xs[0]);
    if |Available(src)| >= w / 2 {
      OneSample(w, mem, xs[0], src, tail);
      DecodeStep(w, mem, src, 1, first);
      MaskedCons(w, xs);
    }
  }

  // ----- the padding and the closed file

  lemma {:induction false} EncodeAppend(w: Width, mem: Memory, xs: seq<int>, ys: seq<int>)
    ensures Encode(w, mem, xs + ys) == Encode(w, mem, xs) + Encode(w, After(w, mem, xs), ys)
    decreases |xs|
  {
    hide Codeword, Next;
    if xs == [] {
      assert xs + ys == ys;
    } else {
      assert (xs + ys)[1..] == xs[1..] + ys;
      EncodeAppend(w, Next(w, mem, xs[0]), xs[1..], ys);
    }
  }

  lemma {:induction false} EncodeLength(w: Width, mem: Memory, xs: seq<int>)
    ensures |Encode(w, mem, xs)| >= |xs|
    decreases |xs|
  {
    if xs != [] {
      CodewordNotEmpty(w, mem, xs[0]);
      EncodeLength(w, Next(w, mem, xs[0]), xs[1..]);
    }
  }

  lemma {:induction false} AfterValid(w: Width, mem: Memory, xs: seq<int>)
    requires ValidMemory(w, mem) && AllInt32(xs)
    ensures ValidMemory(w, After(w, mem, xs))
    decreases |xs|
  {
    if xs != [] {
      NextValid(w, mem, xs[0]);
      AfterValid(w, Next(w, mem, xs[0]), xs[1..]);
    }
  }

  /** The bits written for the closing samples. */
  function PaddingBits(w: Width, xs: seq<int>): seq<bool> {
    Encode(w, After(w, INITIAL, xs), Padding())
  }

  lemma {:induction false} PaddingSplits(w: Width, xs: seq<int>)
    ensures ClosedBits(w, xs) == Encode(w, INITIAL, xs) + PaddingBits(w, xs)
    ensures |PaddingBits(w, xs)| >= 12
  {
    EncodeAppend(w, INITIAL, xs, Padding());
    EncodeLength(w, After(w, INITIAL, xs), Padding());
  }

  /** Closing loses nothing: every bit of the samples is in a byte of the file, and of the
      bits left over, at most seven, each belongs to the closing samples. */
  lemma {:induction false} CloseLosesNothing(w: Width, xs: seq<int>)
    ensures var used, bits := Encode(w, INITIAL, xs), BytesBits(Stream(w, xs));
            && used <= bits <= ClosedBits(w, xs)
            && bits == used + bits[|used|..]
            && |bits| == |used| + |PaddingBits(w, xs)| - Loose(|used| + |PaddingBits(w, xs)|)
    ensures |PaddingBits(w, xs)| >= 12
  {
    hide Encode, PaddingBits, ClosedBits, Pack, Loose, BytesBits;
    PaddingSplits(w, xs);
    PackKeepsFront(Encode(w, INITIAL, xs), PaddingBits(w, xs));
  }
}
