/** Exactly which sample lists survive a DWVW file, and the concrete ones that do not. */
module DwvwTheorem {
  import opened Bits
  import opened Dwvw
  import opened DwvwLossless

  predicate Silent(w: Width, xs: seq<int>) {
    forall i :: 0 <= i < |xs| ==> Quantise(w, xs[i]) == 0
  }

  /** The lists one decode call does not give back in full: at widths of 18 and more a file of
      one byte, which is at most three silent samples; at widths 14 and 15 a last silent sample
      coded in one bit, when seven of the closing bits do not fill a byte. */
  predicate Lost(w: Width, xs: seq<int>) {
    xs != [] &&
    if w >= 18 then |xs| <= 3 && Silent(w, xs)
    else (w == 14 || w == 15)
         && Quantise(w, xs[|xs| - 1]) == 0
         && |LastCodeword(w, INITIAL, xs)| == 1
         && Loose(|Encode(w, INITIAL, xs)|) == 3
  }

  // ----- the cost of a codeword

  lemma {:induction false} QuantiseZero(w: Width)
    ensures Quantise(w, 0) == 0
  {
    Shifts(0, 32 - w);
  }

  /** A codeword is one bit long only when it repeats the sample at delta width 0. */
  lemma {:induction false} CodewordCost(w: nat, mem: Memory, x: int)
    requires 4 <= w <= 24 && ValidMemory(w, mem) && IsInt32(x)
    ensures var n := |Codeword(w, mem, x)|; var next := Next(w, mem, x);
            && n >= 1
            && (next.width > 0 ==> n >= 2)
            && (next.width != mem.width ==> n >= 3)
            && (next.width > 0 == mem.width ==> n >= 4)
            && (next.width == 0 == mem.width ==> n == 1)
            && (next.width == 0 <==> Quantise(w, x) == mem.sample)
  {
    var delta := Quantise(w, x) - mem.sample;
    var d := FoldDelta(w, delta);
    NextValid(w, mem, x);
    FoldKeepsDelta(w, delta);
    BitLengthBounds(d.magnitude);
    ModifierReachesWidth(w, mem.width, Next(w, mem, x).width);
    assert MaxDelta(w) > 1 by { Pow2Monotone(1, w - 1); }
  }

  lemma {:induction false} SilentCost(w: nat, xs: seq<int>)
    requires 4 <= w <= 24 && Silent(w, xs) && AllInt32(xs)
    ensures |Encode(w, INITIAL, xs)| == |xs| && After(w, INITIAL, xs) == INITIAL
    decreases |xs|
  {
    if xs != [] {
      CodewordCost(w, INITIAL, xs[0]);
      assert Quantise(w, xs[0]) == 0;
      SilentCost(w, xs[1..]);
    }
  }

  lemma {:induction false} FallingCost(w: nat, mem: Memory, xs: seq<int>)
    requires 4 <= w <= 24 && ValidMemory(w, mem) && AllInt32(xs)
    requires mem.width > 0 && After(w, mem, xs).width == 0
    ensures |Encode(w, mem, xs)| >= |xs| + 2
    decreases |xs|
  {
    var next := Next(w, mem, xs[0]);
    CodewordCost(w, mem, xs[0]);
    NextValid(w, mem, xs[0]);
    if next.width > 0 {
      FallingCost(w, next, xs[1..]);
    } else {
      EncodeLength(w, next, xs[1..]);
    }
  }

  /** Leaving silence and coming back to delta width 0 costs at least four bits more. */
  lemma {:induction false} NoiseCost(w: nat, xs: seq<int>)
    requires 4 <= w <= 24 && AllInt32(xs) && !Silent(w, xs) && After(w, INITIAL, xs).width == 0
    ensures |Encode(w, INITIAL, xs)| >= |xs| + 4
    decreases |xs|
  {
    CodewordCost(w, INITIAL, xs[0]);
    NextValid(w, INITIAL, xs[0]);
    if Quantise(w, xs[0]) == 0 {
      assert !Silent(w, xs[1..]) by {
        var i :| 0 <= i < |xs| && Quantise(w, xs[i]) != 0;
        assert xs[i] == xs[1..][i - 1];
      }
      NoiseCost(w, xs[1..]);
    } else {
      FallingCost(w, Next(w, INITIAL, xs[0]), xs[1..]);
    }
  }

  // ----- the padding

  lemma {:induction false} AfterAppend(w: Width, mem: Memory, xs: seq<int>, ys: seq<int>)
    ensures After(w, mem, xs + ys) == After(w, After(w, mem, xs), ys)
    decreases |xs|
  {
    if xs == [] {
      assert xs + ys == ys;
    } else {
      assert (xs + ys)[1..] == xs[1..] + ys;
      AfterAppend(w, Next(w, mem, xs[0]), xs[1..], ys);
    }
  }

  lemma {:induction false} PaddingSettles(w: nat, mem: Memory)
    requires 4 <= w <= 24 && ValidMemory(w, mem)
    ensures After(w, mem, Padding()) == INITIAL
  {
    var ys := Padding();
    var m1 := Next(w, mem, ys[0]);
    QuantiseZero(w);
    NextValid(w, mem, ys[0]);
    CodewordCost(w, m1, ys[1]);
    assert ys[1..][0] == ys[1] && ys[1..][1..] == ys[2..];
    assert Silent(w, ys[2..]);
    SilentCost(w, ys[2..]);
  }

  lemma {:induction false} AfterLast(w: Width, mem: Memory, xs: seq<int>)
    requires xs != []
    ensures After(w, mem, xs) == Next(w, BeforeLast(w, mem, xs), xs[|xs| - 1])
  {
    var n := |xs| - 1;
    assert xs == xs[..n] + [xs[n]];
    AfterAppend(w, mem, xs[..n], [xs[n]]);
  }

  /** When the last sample took one bit, the padding takes one bit a sample only after silence. */
  lemma {:induction false} PaddingCost(w: nat, xs: seq<int>)
    requires 4 <= w <= 24 && AllInt32(xs) && xs != [] && |LastCodeword(w, INITIAL, xs)| == 1
    ensures if Quantise(w, xs[|xs| - 1]) == 0 then |PaddingBits(w, xs)| == 12 else |PaddingBits(w, xs)| >= 14
  {
    var n := |xs| - 1;
    AfterValid(w, INITIAL, xs[..n]);
    var before := BeforeLast(w, INITIAL, xs);
    CodewordCost(w, before, xs[n]);
    AfterLast(w, INITIAL, xs);
    var mem := After(w, INITIAL, xs);
    NextValid(w, before, xs[n]);
    var ys := Padding();
    QuantiseZero(w);
    if Quantise(w, xs[n]) == 0 {
      SilentCost(w, ys);
    } else {
      CodewordCost(w, mem, ys[0]);
      EncodeLength(w, Next(w, mem, ys[0]), ys[1..]);
    }
  }

  /** Which files of the wide formats hold a single byte. */
  lemma {:induction false} ShortStream(w: nat, xs: seq<int>)
    requires 4 <= w <= 24 && AllInt32(xs)
    ensures |Stream(w, xs)| >= 1
    ensures |Stream(w, xs)| == 1 <==> |xs| <= 3 && Silent(w, xs)
  {
    var all := xs + Padding();
    QuantiseZero(w);
    EncodeLength(w, INITIAL, all);
    if Silent(w, xs) {
      assert Silent(w, all);
      SilentCost(w, all);
    } else {
      assert !Silent(w, all) by {
        var i :| 0 <= i < |xs| && Quantise(w, xs[i]) != 0;
        assert all[i] == xs[i];
      }
      AfterValid(w, INITIAL, xs);
      AfterAppend(w, INITIAL, xs, Padding());
      PaddingSettles(w, After(w, INITIAL, xs));
      NoiseCost(w, all);
    }
  }

  // ----- the theorem

  /** The closing bits that reached the file. */
  function Tail(w: Width, xs: seq<int>): seq<bool> {
    CloseLosesNothing(w, xs);
    BytesBits(Stream(w, xs))[|Encode(w, INITIAL, xs)|..]
  }

  lemma {:induction false} Opened(w: Width, xs: seq<int>)
    ensures var src := Source([], BytesBits(Stream(w, xs)), true);
            && WholeBytes(src)
            && Available(src) == Encode(w, INITIAL, xs) + Tail(w, xs)
    ensures |Tail(w, xs)| == |PaddingBits(w, xs)| - Loose(|Encode(w, INITIAL, xs)| + |PaddingBits(w, xs)|)
    ensures |PaddingBits(w, xs)| >= 12
  {
    CloseLosesNothing(w, xs);
    EmptyFront(BytesBits(Stream(w, xs)));
  }

  lemma {:induction false} EmptyFront<T>(s: seq<T>)
    ensures [] + s == s
  {
  }

  lemma {:induction false} TooShort(w: nat, bits: seq<bool>, n: nat)
    requires 16 <= w <= 24 && Loose(|bits|) == 0 && |bits| < w / 2
    ensures ValidMemory(w, INITIAL) && Decode(w, INITIAL, Source([], bits, true), n, true).samples == []
  {
    LoadKeepsBits(Source([], bits, true), w / 2);
  }

  lemma {:induction false} WideOutcome(w: nat, xs: seq<int>)
    requires 16 <= w <= 24 && AllInt32(xs) && xs != []
    ensures DecodeStream(w, Stream(w, xs), |xs|) ==
            if w >= 18 && |Stream(w, xs)| == 1 then [] else Masked(w, xs)
  {
    hide Codeword, Next, FoldDelta, Modifier, Encode, After, Stream, PaddingBits, Decode, Masked;
    ShortStream(w, xs);
    Opened(w, xs);
    var bits := BytesBits(Stream(w, xs));
    if |bits| >= w / 2 {
      DecodeWide(w, INITIAL, Source([], bits, true), xs, Tail(w, xs), true);
    } else {
      TooShort(w, bits, |xs|);
    }
  }

  lemma {:induction false} NarrowOutcome(w: nat, xs: seq<int>)
    requires 4 <= w < 16 && AllInt32(xs) && xs != []
    ensures DecodeStream(w, Stream(w, xs), |xs|) ==
            if Lost(w, xs) then Masked(w, xs[..|xs| - 1]) else Masked(w, xs)
  {
    hide Codeword, Next, FoldDelta, Modifier, Decode, Encode, LastCodeword, Lost, Masked, Stream, PaddingBits;
    Opened(w, xs);
    DecodeNarrow(w, INITIAL, Source([], BytesBits(Stream(w, xs)), true), xs, Tail(w, xs), true);
    KeptUnlessLost(w, xs);
  }

  lemma {:induction false} KeptUnlessLost(w: nat, xs: seq<int>)
    requires 4 <= w < 16 && AllInt32(xs) && xs != []
    ensures |LastCodeword(w, INITIAL, xs)| + |Tail(w, xs)| < w / 2 <==> Lost(w, xs)
  {
    hide Codeword, Next, FoldDelta, Modifier, Encode, After, Stream, PaddingBits, Tail;
    Opened(w, xs);
    var last := |LastCodeword(w, INITIAL, xs)|;
    CodewordNotEmpty(w, BeforeLast(w, INITIAL, xs), xs[|xs| - 1]);
    if last == 1 {
      PaddingCost(w, xs);
    }
    SpareBits(w, last, Quantise(w, xs[|xs| - 1]) == 0, |Encode(w, INITIAL, xs)|, |PaddingBits(w, xs)|);
  }

  lemma {:induction false} LooseAdd(n: nat, k: nat)
    requires k < 8
    ensures Loose(n + k) == if Loose(n) + k < 8 then Loose(n) + k else Loose(n) + k - 8
  {
    if n >= 8 {
      LooseAdd(n - 8, k);
    }
  }

  lemma {:induction false} SpareBits(w: nat, last: nat, silent: bool, used: nat, padding: nat)
    requires 4 <= w < 16 && last >= 1 && padding >= 12
    requires last == 1 ==> if silent then padding == 12 else padding >= 14
    ensures last + padding - Loose(used + padding) < w / 2
            <==> (w == 14 || w == 15) && silent && last == 1 && Loose(used) == 3
  {
    assert Loose(used + 12) == Loose(used + 4);
    LooseAdd(used, 4);
  }

  /** DWVW is lossless up to the bits below the sample width, except for the lists in `Lost`. */
  lemma {:induction false} Lossless(w: nat, xs: seq<int>)
    requires 4 <= w <= 24 && AllInt32(xs)
    ensures DecodeStream(w, Stream(w, xs), |xs|) == Masked(w, xs) <==> !Lost(w, xs)
    ensures Lost(w, xs) ==> DecodeStream(w, Stream(w, xs), |xs|) ==
                            if w >= 18 then [] else Masked(w, xs[..|xs| - 1])
  {
    if xs != [] {
      if w >= 16 {
        WideOutcome(w, xs);
        ShortStream(w, xs);
      } else {
        NarrowOutcome(w, xs);
      }
    } else {
      assert Masked(w, xs) == [];
    }
  }

  /** At these widths, the 12 and 16 bit formats among them, one decode call loses nothing. */
  lemma {:induction false} ShippedWidthsAreLossless(w: nat, xs: seq<int>)
    requires (4 <= w <= 13 || w == 16 || w == 17) && AllInt32(xs)
    ensures DecodeStream(w, Stream(w, xs), |xs|) == Masked(w, xs)
  {
    Lossless(w, xs);
  }

  function Silence(n: nat): (xs: seq<int>)
    ensures |xs| == n
  {
    seq(n, _ => 0)
  }

  /** One to three silent samples at 18 bits or more make a file the decoder takes for empty. */
  lemma {:induction false} ShortSilenceLost(w: nat, n: nat)
    requires 18 <= w <= 24 && 1 <= n <= 3
    ensures DecodeStream(w, Stream(w, Silence(n)), n) == [] != Masked(w, Silence(n))
  {
    QuantiseZero(w);
    Lossless(w, Silence(n));
  }

  /** Of three silent samples at 14 or 15 bits the last is not read back. */
  lemma {:induction false} ThirdSilentSampleLost(w: nat)
    requires w == 14 || w == 15
    ensures |DecodeStream(w, Stream(w, Silence(3)), 3)| == 2
  {
    hide Codeword, Next, Encode, After, Stream, DecodeStream;
    QuantiseZero(w);
    SilentCost(w, Silence(3));
    LastSilentCost(w, 3);
    Lossless(w, Silence(3));
  }

  lemma {:induction false} LastSilentCost(w: nat, n: nat)
    requires 4 <= w <= 24 && n > 0
    ensures |LastCodeword(w, INITIAL, Silence(n))| == 1
  {
    var xs := Silence(n);
    QuantiseZero(w);
    SilentCost(w, xs[..n - 1]);
    CodewordCost(w, INITIAL, xs[n - 1]);
  }
}
