/** Reading a DWVW file in several decode calls, as the library does through its fixed buffers: when
    that gives the samples of a single call, and when it loses the last of them. */
module DwvwCalls {
  import opened Bits
  import opened Common
  import opened Dwvw
  import opened DwvwLossless
  import opened DwvwTheorem

  // ----- two calls from any state

  lemma {:induction false} DecodeKeepsValid(w: Width, mem: Memory, src: Source, n: nat, first: bool)
    requires ValidMemory(w, mem)
    ensures ValidMemory(w, Decode(w, mem, src, n, first).mem)
    decreases n
  {
    hide TakeUnary, DecodeRest, Restore, ValidMemory;
    if n > 0 {
      var u := TakeUnary(w, src);
      UnaryRange(w, src);
      if u.value >= 0 {
        var d := DecodeRest(w, mem, u.value, u.src);
        DecoderInRange(w, mem, u.value, u.src);
        DecodeKeepsValid(w, d.mem, d.src, n - 1, false);
      }
    }
  }

  /** A call that gives samples gives one and goes on. */
  lemma {:induction false} DecodeFirst(w: Width, mem: Memory, src: Source, m: nat, n: nat, first: bool)
    requires ValidMemory(w, mem) && m > 0 && n > 0
    requires Decode(w, mem, src, m, first).samples != []
    ensures 0 <= TakeUnary(w, src).value <= w / 2
    ensures var d := DecodeRest(w, mem, TakeUnary(w, src).value, TakeUnary(w, src).src);
            && ValidMemory(w, d.mem)
            && var more := Decode(w, d.mem, d.src, n - 1, false);
               Decode(w, mem, src, n, first) == Result([Restore(w, d.mem.sample)] + more.samples, more.mem, more.src)
  {
    hide TakeUnary, DecodeRest, Restore, ValidMemory;
    var u := TakeUnary(w, src);
    UnaryRange(w, src);
    if u.value >= 0 {
      DecoderInRange(w, mem, u.value, u.src);
    }
  }

  /** A call that goes on where a full one stopped. */
  lemma {:induction false} DecodeGoesOn(w: Width, mem: Memory, src: Source, m: nat, n: nat, first: bool)
    requires ValidMemory(w, mem) && (m > 0 || !first)
    requires |Decode(w, mem, src, m, first).samples| == m
    ensures var r := Decode(w, mem, src, m, first);
            && ValidMemory(w, r.mem)
            && var more := Decode(w, r.mem, r.src, n, false);
               Decode(w, mem, src, m + n, first) == Result(r.samples + more.samples, more.mem, more.src)
    decreases m
  {
    hide TakeUnary, DecodeRest, Restore, ValidMemory, Decode;
    if m == 0 {
      DecodeNothing(w, mem, src, first);
    } else {
      DecodeFirst(w, mem, src, m, m, first);
      DecodeFirst(w, mem, src, m, m + n, first);
      var d := DecodeRest(w, mem, TakeUnary(w, src).value, TakeUnary(w, src).src);
      DecodeGoesOn(w, d.mem, d.src, m - 1, n, false);
      var r := Decode(w, mem, src, m, first);
      SeqAssociative([Restore(w, d.mem.sample)], Decode(w, d.mem, d.src, m - 1, false).samples,
                     Decode(w, r.mem, r.src, n, false).samples);
    }
  }

  lemma {:induction false} DecodeNothing(w: Width, mem: Memory, src: Source, first: bool)
    requires ValidMemory(w, mem)
    ensures Decode(w, mem, src, 0, first) == Result([], mem, src)
  {
  }

  /** There is no further sample: the count of zeros fails, or the sample it leads to uses up the input. */
  predicate NoMore(w: Width, mem: Memory, src: Source)
    requires ValidMemory(w, mem)
  {
    var u := TakeUnary(w, src);
    UnaryRange(w, src);
    u.value < 0 ||
    var d := DecodeRest(w, mem, u.value, u.src);
    d.src.ended && d.src.reservoir == []
  }

  lemma {:induction false} NextCall(w: Width, mem: Memory, src: Source, n: nat)
    requires ValidMemory(w, mem) && n > 0
    ensures Decode(w, mem, src, n, false).samples == [] <==> NoMore(w, mem, src)
    ensures if TakeUnary(w, src).src.ended then Decode(w, mem, src, n, true).samples == []
            else Decode(w, mem, src, n, true) == Decode(w, mem, src, n, false)
  {
    hide TakeUnary, DecodeRest, Restore;
    UnaryRange(w, src);
  }

  /** After a full call for m samples, a second call for n gives what one call for m + n would have
      given, if and only if the second call's first count of zeros does not find the end of the input
      or there is no further sample; if it finds the end, the second call gives nothing. */
  lemma {:induction false} DecodeInTwoCalls(w: Width, mem: Memory, src: Source, m: nat, n: nat, first: bool)
    requires ValidMemory(w, mem) && (m > 0 || !first) && n > 0
    requires |Decode(w, mem, src, m, first).samples| == m
    ensures var r := Decode(w, mem, src, m, first);
            && ValidMemory(w, r.mem)
            && var second := Decode(w, r.mem, r.src, n, true);
               var ended := TakeUnary(w, r.src).src.ended;
               && (ended ==> second.samples == [])
               && (Decode(w, mem, src, m + n, first).samples == r.samples + second.samples
                   <==> !ended || NoMore(w, r.mem, r.src))
  {
    hide Decode, NoMore, TakeUnary, ValidMemory;
    DecodeGoesOn(w, mem, src, m, n, first);
    var r := Decode(w, mem, src, m, first);
    NextCall(w, r.mem, r.src, n);
    SamePrefix(r.samples, Decode(w, r.mem, r.src, n, false).samples, Decode(w, r.mem, r.src, n, true).samples);
  }

  lemma {:induction false} SamePrefix<T>(a: seq<T>, b: seq<T>, c: seq<T>)
    ensures a + b == a + c <==> b == c
  {
    if a + b == a + c {
      assert b == (a + b)[|a|..] && c == (a + c)[|a|..];
    }
  }

  // ----- the state between two calls

  predicate Open(src: Source, left: seq<bool>) {
    WholeBytes(src) && !src.ended && Available(src) == left
  }

  /** The input has ended; zeros may follow what is left. */
  predicate Drained(src: Source, left: seq<bool>) {
    src.ended && src.rest == [] && left <= src.reservoir
  }

  /** `left` is what is still to be read. */
  predicate Reading(w: nat, src: Source, left: seq<bool>) {
    Open(src, left) || (w >= 16 && |left| < w / 2 && Drained(src, left))
  }

  /** No byte has been read yet. */
  predicate Untouched(src: Source, left: seq<bool>) {
    WholeBytes(src) && src.reservoir == [] && Available(src) == left
  }

  lemma {:induction false} StepOpen(w: nat, mem: Memory, x: int, src: Source, rest: seq<bool>)
    requires 4 <= w <= 24 && ValidMemory(w, mem) && IsInt32(x)
    requires var left := Codeword(w, mem, x) + rest; |left| >= w / 2 && (Open(src, left) || Untouched(src, left))
    ensures 0 <= TakeUnary(w, src).value <= w / 2 && !TakeUnary(w, src).src.ended
    ensures ReadOne(w, mem, src).mem == Next(w, mem, x) && Open(ReadOne(w, mem, src).src, rest)
  {
    hide Codeword, Next, DecodeRest, Load, LeadingZeros;
    LoadKeepsBits(src, w / 2);
    CodewordDecodes(w, mem, x, src, rest);
  }

  lemma {:induction false} LoadStaysDrained(src: Source, need: nat)
    requires src.ended && src.rest == []
    ensures Load(src, need).src.ended && Load(src, need).src.rest == []
    decreases need - |src.reservoir|
  {
    if |src.reservoir| < need && need >= 8 {
      LoadStaysDrained(Source(src.reservoir + Zeros(8), src.rest, true), need);
    }
  }

  lemma {:induction false} TakeStaysDrained(src: Source, n: nat)
    requires src.ended && src.rest == []
    ensures Take(src, n).src.ended && Take(src, n).src.rest == []
  {
    hide Load;
    LoadStaysDrained(src, n);
  }

  lemma {:induction false} RestStaysDrained(w: Width, mem: Memory, k: nat, src: Source)
    requires ValidMemory(w, mem) && k <= w / 2 && src.ended && src.rest == []
    ensures var r := DecodeRest(w, mem, k, src).src; r.ended && r.rest == []
  {
    hide Take, NewWidth, Wrap, Pow2, MaxDelta;
    TakeStaysDrained(src, 1);
    var m := TakeSign(k, src);
    var width := NewWidth(w, mem.width, m.value);
    if width > 0 {
      TakeStaysDrained(m.src, width - 1);
      var low := Take(m.src, width - 1);
      TakeStaysDrained(low.src, 1);
      TakeStaysDrained(Take(low.src, 1).src, 1);
    }
  }

  lemma {:induction false} StepShort(w: nat, mem: Memory, x: int, src: Source, rest: seq<bool>)
    requires 16 <= w <= 24 && ValidMemory(w, mem) && IsInt32(x) && rest != []
    requires var left := Codeword(w, mem, x) + rest; |left| < w / 2 && Reading(w, src, left) && WholeBytes(src)
    ensures 0 <= TakeUnary(w, src).value <= w / 2
    ensures var r := ReadOne(w, mem, src);
            r.mem == Next(w, mem, x) && Drained(r.src, rest) && WholeBytes(r.src) && r.src.reservoir != []
  {
    hide Codeword, Next, DecodeRest, Load, LeadingZeros;
    OneSample(w, mem, x, src, rest);
    EndFound(w, src);
    var u := TakeUnary(w, src);
    RestStaysDrained(w, mem, u.value, u.src);
  }

  lemma {:induction false} EndFound(w: nat, src: Source)
    requires 16 <= w <= 24 && WholeBytes(src) && Settled(src)
    requires if src.ended then true else |Available(src)| < w / 2
    ensures TakeUnary(w, src).src.ended && TakeUnary(w, src).src.rest == []
  {
    LoadKeepsBits(src, w / 2);
    if src.ended {
      LoadStaysDrained(src, w / 2);
    }
  }

  lemma {:induction false} DecodeUnfolds(w: Width, mem: Memory, src: Source, n: nat, first: bool)
    requires ValidMemory(w, mem) && n > 0
    requires var u := TakeUnary(w, src); 0 <= u.value <= w / 2 && !(u.src.ended && first)
    requires var r := ReadOne(w, mem, src); ValidMemory(w, r.mem) && !(r.src.ended && r.src.reservoir == [])
    ensures var r := ReadOne(w, mem, src);
            var more := Decode(w, r.mem, r.src, n - 1, false);
            Decode(w, mem, src, n, first) == Result([Restore(w, r.mem.sample)] + more.samples, more.mem, more.src)
  {
    hide TakeUnary, DecodeRest, Restore;
  }

  // ----- one call

  /** From the state in which a call has already given a sample. */
  lemma {:induction false} CallGoesOn(w: nat, mem: Memory, src: Source, xs: seq<int>, rest: seq<bool>)
    requires 4 <= w <= 24 && ValidMemory(w, mem) && AllInt32(xs) && rest != [] && (w >= 16 || |rest| >= 6)
    requires Reading(w, src, Encode(w, mem, xs) + rest) && WholeBytes(src)
    ensures var r := Decode(w, mem, src, |xs|, false);
            && r.samples == Masked(w, xs) && r.mem == After(w, mem, xs)
            && Reading(w, r.src, rest) && WholeBytes(r.src)
    decreases |xs|
  {
    hide Codeword, Next, Decode, Restore, ReadOne, TakeUnary, Masked, Quantise, Reading;
    if xs == [] {
      NothingToDo(w, mem, src, rest);
    } else {
      var next := Next(w, mem, xs[0]);
      NextValid(w, mem, xs[0]);
      CallStep(w, mem, src, xs, rest, false);
      CallGoesOn(w, next, ReadOne(w, mem, src).src, xs[1..], rest);
      MaskedCons(w, xs);
      NextSample(w, mem, xs[0]);
    }
  }

  lemma {:induction false} NextSample(w: Width, mem: Memory, x: int)
    ensures Next(w, mem, x).sample == Quantise(w, x)
  {
  }

  lemma {:induction false} NothingToDo(w: Width, mem: Memory, src: Source, rest: seq<bool>)
    requires ValidMemory(w, mem)
    ensures Decode(w, mem, src, 0, false) == Result([], mem, src) && Masked(w, []) == []
    ensures Encode(w, mem, []) + rest == rest && After(w, mem, []) == mem
  {
  }

  /** One sample of a call; the first of a call must find enough bits. */
  lemma {:induction false} CallStep(w: nat, mem: Memory, src: Source, xs: seq<int>, rest: seq<bool>, first: bool)
    requires 4 <= w <= 24 && ValidMemory(w, mem) && AllInt32(xs) && xs != []
    requires rest != [] && (w >= 16 || |rest| >= 6) && WholeBytes(src)
    requires var left := Encode(w, mem, xs) + rest;
             if first then |left| >= w / 2 && (Open(src, left) || Untouched(src, left)) else Reading(w, src, left)
    ensures var r := ReadOne(w, mem, src); var next := Next(w, mem, xs[0]);
            && r.mem == next && ValidMemory(w, next)
            && Reading(w, r.src, Encode(w, next, xs[1..]) + rest) && WholeBytes(r.src)
            && After(w, mem, xs) == After(w, next, xs[1..])
            && var more := Decode(w, next, r.src, |xs| - 1, false);
               Decode(w, mem, src, |xs|, first) == Result([Restore(w, next.sample)] + more.samples, more.mem, more.src)
  {
    hide Codeword, Next, Decode, Restore, ReadOne, TakeUnary;
    var next := Next(w, mem, xs[0]);
    var later := Encode(w, next, xs[1..]) + rest;
    EncodeParts(w, mem, xs, rest);
    CodewordNotEmpty(w, mem, xs[0]);
    NextValid(w, mem, xs[0]);
    if |Encode(w, mem, xs) + rest| >= w / 2 {
      StepOpen(w, mem, xs[0], src, later);
    } else {
      StepShort(w, mem, xs[0], src, later);
    }
    DecodeUnfolds(w, mem, src, |xs|, first);
  }

  /** A call that begins with enough bits gives all its samples. */
  lemma {:induction false} WholeCall(w: nat, mem: Memory, src: Source, xs: seq<int>, rest: seq<bool>)
    requires 4 <= w <= 24 && ValidMemory(w, mem) && AllInt32(xs) && xs != []
    requires rest != [] && (w >= 16 || |rest| >= 6)
    requires var left := Encode(w, mem, xs) + rest; |left| >= w / 2 && (Open(src, left) || Untouched(src, left))
    ensures var r := Decode(w, mem, src, |xs|, true);
            && r.samples == Masked(w, xs) && r.mem == After(w, mem, xs)
            && Reading(w, r.src, rest) && WholeBytes(r.src)
  {
    hide Codeword, Next, Decode, Restore, ReadOne, TakeUnary, Masked, Quantise, Reading, After, Encode;
    NextValid(w, mem, xs[0]);
    CallStep(w, mem, src, xs, rest, true);
    CallGoesOn(w, Next(w, mem, xs[0]), ReadOne(w, mem, src).src, xs[1..], rest);
    MaskedCons(w, xs);
    NextSample(w, mem, xs[0]);
  }

  /** One that does not, at 16 bits and more, gives none. */
  lemma {:induction false} LateCall(w: nat, mem: Memory, src: Source, n: nat, left: seq<bool>)
    requires 16 <= w <= 24 && ValidMemory(w, mem) && n > 0
    requires WholeBytes(src) && Reading(w, src, left) && |left| < w / 2
    ensures Decode(w, mem, src, n, true).samples == []
  {
    hide TakeUnary, DecodeRest;
    EndFound(w, src);
  }

  // ----- all calls for a file

  /** The samples of calls made one after the other; a short one ends the reading. */
  function ReadCalls(w: Width, mem: Memory, src: Source, ms: seq<nat>): seq<int>
    requires ValidMemory(w, mem)
    decreases |ms|
  {
    if ms == [] then []
    else
      var r := Decode(w, mem, src, ms[0], true);
      DecodeKeepsValid(w, mem, src, ms[0], true);
      r.samples + if |r.samples| < ms[0] then [] else ReadCalls(w, r.mem, r.src, ms[1..])
  }

  predicate AllPositive(ms: seq<nat>) {
    forall k :: 0 <= k < |ms| ==> ms[k] > 0
  }

  lemma {:induction false} LastInSum(ms: seq<nat>)
    requires ms != []
    ensures ms[|ms| - 1] <= Sum(ms)
    ensures |ms| > 1 ==> ms[|ms| - 1] <= Sum(ms[1..])
  {
    if |ms| > 1 {
      LastInSum(ms[1..]);
    }
  }

  /** The bits ahead when the last of some calls begins: those of its samples and of the padding. */
  function LastBits(w: Width, mem: Memory, xs: seq<int>, ms: seq<nat>, tail: nat): nat
    requires ms != [] && Sum(ms) == |xs|
  {
    LastInSum(ms);
    var start := |xs| - ms[|ms| - 1];
    |Encode(w, After(w, mem, xs[..start]), xs[start..])| + tail
  }

  lemma {:induction false} MaskedAppend(w: Width, xs: seq<int>, m: nat)
    requires m <= |xs|
    ensures Masked(w, xs) == Masked(w, xs[..m]) + Masked(w, xs[m..])
  {
    hide Pow2;
  }

  lemma {:induction false} SplitEncoding(w: Width, mem: Memory, xs: seq<int>, m: nat, tail: seq<bool>)
    requires m <= |xs|
    ensures Encode(w, mem, xs) + tail
         == Encode(w, mem, xs[..m]) + (Encode(w, After(w, mem, xs[..m]), xs[m..]) + tail)
  {
    hide Encode, After;
    assert xs[..m] + xs[m..] == xs;
    EncodeAppend(w, mem, xs[..m], xs[m..]);
  }

  lemma {:induction false} LastBitsLater(w: Width, mem: Memory, xs: seq<int>, ms: seq<nat>, tail: nat)
    requires |ms| > 1 && Sum(ms) == |xs|
    ensures Sum(ms[1..]) == |xs[ms[0]..]|
    ensures LastBits(w, mem, xs, ms, tail) == LastBits(w, After(w, mem, xs[..ms[0]]), xs[ms[0]..], ms[1..], tail)
  {
    hide Encode, After;
    LastInSum(ms);
    LastInSum(ms[1..]);
    var start := |xs| - ms[|ms| - 1];
    var m := ms[0];
    assert xs[..start] == xs[..m] + xs[m..][..start - m];
    AfterAppend(w, mem, xs[..m], xs[m..][..start - m]);
    assert xs[start..] == xs[m..][start - m..];
  }

  lemma {:induction false} LastBitsAtMost(w: Width, mem: Memory, xs: seq<int>, ms: seq<nat>, tail: seq<bool>)
    requires ms != [] && Sum(ms) == |xs|
    ensures LastBits(w, mem, xs, ms, |tail|) <= |Encode(w, mem, xs) + tail|
    ensures |ms| == 1 ==> LastBits(w, mem, xs, ms, |tail|) == |Encode(w, mem, xs) + tail|
  {
    hide Encode, After;
    LastInSum(ms);
    var start := |xs| - ms[|ms| - 1];
    SplitEncoding(w, mem, xs, start, tail);
    if |ms| == 1 {
      assert Sum(ms[1..]) == 0;
      AfterNone(w, mem);
      assert xs[..0] == [] && xs[0..] == xs;
    }
  }

  lemma {:induction false} AfterNone(w: Width, mem: Memory)
    ensures After(w, mem, []) == mem && Encode(w, mem, []) == []
  {
  }

  lemma {:induction false} FirstCall(w: Width, mem: Memory, src: Source, ms: seq<nat>)
    requires ValidMemory(w, mem) && ms != []
    ensures var r := Decode(w, mem, src, ms[0], true);
            && ValidMemory(w, r.mem)
            && ReadCalls(w, mem, src, ms) ==
               r.samples + if |r.samples| < ms[0] then [] else ReadCalls(w, r.mem, r.src, ms[1..])
  {
    DecodeKeepsValid(w, mem, src, ms[0], true);
  }

  /** At 16 bits and more, the calls give all samples if and only if the last one begins with half a
      width of bits ahead. */
  lemma {:induction false} WideCalls(w: nat, mem: Memory, src: Source, xs: seq<int>, ms: seq<nat>, tail: seq<bool>)
    requires 16 <= w <= 24 && ValidMemory(w, mem) && AllInt32(xs) && tail != [] && WholeBytes(src)
    requires ms != [] && AllPositive(ms) && Sum(ms) == |xs|
    requires var left := Encode(w, mem, xs) + tail; Reading(w, src, left) || (Untouched(src, left) && |left| >= w / 2)
    ensures ReadCalls(w, mem, src, ms) == Masked(w, xs) <==> LastBits(w, mem, xs, ms, |tail|) >= w / 2
    ensures LastBits(w, mem, xs, ms, |tail|) < w / 2 ==> |ReadCalls(w, mem, src, ms)| < |xs|
    decreases |ms|
  {
    hide Encode, After, Decode, ReadCalls, Masked, LastBits, ValidMemory;
    var left := Encode(w, mem, xs) + tail;
    var m := ms[0];
    var a, b := xs[..m], xs[m..];
    FirstCall(w, mem, src, ms);
    LastBitsAtMost(w, mem, xs, ms, tail);
    if |left| < w / 2 {
      LateCall(w, mem, src, m, left);
    } else {
      var rest := Encode(w, After(w, mem, a), b) + tail;
      SplitEncoding(w, mem, xs, m, tail);
      WholeCall(w, mem, src, a, rest);
      MaskedAppend(w, xs, m);
      var r := Decode(w, mem, src, m, true);
      if |ms| == 1 {
        NoCalls(w, r.mem, r.src);
        assert a == xs;
      } else {
        LastBitsLater(w, mem, xs, ms, |tail|);
        WideCalls(w, r.mem, r.src, b, ms[1..], tail);
        SamePrefix(Masked(w, a), ReadCalls(w, r.mem, r.src, ms[1..]), Masked(w, b));
      }
    }
  }

  lemma {:induction false} NoCalls(w: Width, mem: Memory, src: Source)
    requires ValidMemory(w, mem)
    ensures ReadCalls(w, mem, src, []) == []
  {
  }

  lemma {:induction false} LoadBelowEight(src: Source, need: nat)
    requires need < 8 && !src.ended && Load(src, need).ok
    ensures !Load(src, need).src.ended
    decreases need - |src.reservoir|
  {
    if |src.reservoir| < need && |src.rest| >= 8 {
      LoadBelowEight(Source(src.reservoir + src.rest[..8], src.rest[8..], false), need);
    }
  }

  /** Below 16 bits a call need not know that it is the first. */
  lemma {:induction false} FirstIsLikeAny(w: nat, mem: Memory, src: Source, n: nat)
    requires 4 <= w < 16 && ValidMemory(w, mem) && !src.ended
    ensures Decode(w, mem, src, n, true).samples == Decode(w, mem, src, n, false).samples
  {
    hide LeadingZeros, DecodeRest, Load;
    if Load(src, w / 2).ok {
      LoadBelowEight(src, w / 2);
    }
  }

  lemma {:induction false} KeptAppend(w: Width, mem: Memory, xs: seq<int>, m: nat, spare: nat)
    requires m < |xs| && AllInt32(xs)
    ensures Kept(w, mem, xs, spare) == Masked(w, xs[..m]) + Kept(w, After(w, mem, xs[..m]), xs[m..], spare)
    decreases m
  {
    hide Kept, Masked, Next, Restore, Quantise;
    if m == 0 {
      AfterNone(w, mem);
      assert xs[..0] == [] && xs[0..] == xs;
    } else {
      var next := Next(w, mem, xs[0]);
      KeptCons(w, mem, xs, spare);
      KeptAppend(w, next, xs[1..], m - 1, spare);
      MaskedCons(w, xs[..m]);
      assert xs[..m][1..] == xs[1..][..m - 1] && xs[1..][m - 1..] == xs[m..];
      SeqAssociative([Restore(w, Quantise(w, xs[0]))], Masked(w, xs[1..][..m - 1]),
                     Kept(w, After(w, next, xs[1..][..m - 1]), xs[m..], spare));
    }
  }

  lemma {:induction false} LastNarrowCall(w: nat, mem: Memory, src: Source, xs: seq<int>, tail: seq<bool>)
    requires 4 <= w < 16 && ValidMemory(w, mem) && AllInt32(xs) && xs != [] && |tail| >= 5
    requires var left := Encode(w, mem, xs) + tail; Open(src, left) || Untouched(src, left)
    ensures Decode(w, mem, src, |xs|, true).samples == Kept(w, mem, xs, |tail|)
  {
    hide Encode, Decode, Kept, ValidMemory;
    if src.ended {
      DecodeNarrow(w, mem, src, xs, tail, true);
    } else {
      FirstIsLikeAny(w, mem, src, |xs|);
      DecodeNarrow(w, mem, src, xs, tail, false);
    }
  }

  /** Below 16 bits the calls give what one call gives. */
  lemma {:induction false} NarrowCalls(w: nat, mem: Memory, src: Source, xs: seq<int>, ms: seq<nat>, tail: seq<bool>)
    requires 4 <= w < 16 && ValidMemory(w, mem) && AllInt32(xs) && |tail| >= 5
    requires ms != [] && AllPositive(ms) && Sum(ms) == |xs|
    requires var left := Encode(w, mem, xs) + tail; Open(src, left) || Untouched(src, left)
    ensures xs != [] && ReadCalls(w, mem, src, ms) == Kept(w, mem, xs, |tail|)
    decreases |ms|
  {
    hide Encode, After, Decode, ReadCalls, Masked, Kept, ValidMemory;
    var m := ms[0];
    FirstCall(w, mem, src, ms);
    var r := Decode(w, mem, src, m, true);
    if |ms| == 1 {
      assert Sum(ms[1..]) == 0;
      LastNarrowCall(w, mem, src, xs, tail);
      NoCalls(w, r.mem, r.src);
      assert ms[1..] == [];
    } else {
      var a, b := xs[..m], xs[m..];
      assert ms[1..][0] > 0;
      var rest := Encode(w, After(w, mem, a), b) + tail;
      SplitEncoding(w, mem, xs, m, tail);
      EncodeLength(w, mem, a);
      EncodeLength(w, After(w, mem, a), b);
      WholeCall(w, mem, src, a, rest);
      NarrowCalls(w, r.mem, r.src, b, ms[1..], tail);
      KeptAppend(w, mem, xs, m, |tail|);
    }
  }

  /** The decoder of a freshly opened file. */
  function Start(w: Width, xs: seq<int>): Source {
    Source([], BytesBits(Stream(w, xs)), true)
  }

  /** Reading a file of `xs` in calls of any sizes: below 16 bits the sizes do not matter. From 16 bits
      on all samples come back if and only if the file is not one that even a single call loses and
      the last call begins with half a width of bits ahead of it; if not, fewer do. */
  lemma {:induction false} ReadInCalls(w: nat, xs: seq<int>, ms: seq<nat>)
    requires 4 <= w <= 24 && AllInt32(xs) && ms != [] && AllPositive(ms) && Sum(ms) == |xs|
    ensures ValidMemory(w, INITIAL)
    ensures w < 16 ==> ReadCalls(w, INITIAL, Start(w, xs), ms) == DecodeStream(w, Stream(w, xs), |xs|)
    ensures w >= 16 ==> (ReadCalls(w, INITIAL, Start(w, xs), ms) == Masked(w, xs) <==>
                         !Lost(w, xs) && LastBits(w, INITIAL, xs, ms, |Tail(w, xs)|) >= w / 2)
    ensures w >= 16 ==> (|ReadCalls(w, INITIAL, Start(w, xs), ms)| == |xs| <==>
                         ReadCalls(w, INITIAL, Start(w, xs), ms) == Masked(w, xs))
  {
    hide Encode, After, Decode, ReadCalls, Masked, Kept, Stream, LastBits, PaddingBits;
    Opened(w, xs);
    var src, tail := Start(w, xs), Tail(w, xs);
    assert Sum(ms) >= ms[0] > 0;
    if w < 16 {
      NarrowCalls(w, INITIAL, src, xs, ms, tail);
      DecodeNarrow(w, INITIAL, src, xs, tail, true);
    } else {
      EnoughToStart(w, xs);
      if |BytesBits(Stream(w, xs))| >= w / 2 {
        WideCalls(w, INITIAL, src, xs, ms, tail);
      } else {
        LastBitsAtMost(w, INITIAL, xs, ms, tail);
        TooShort(w, BytesBits(Stream(w, xs)), ms[0]);
        FirstCall(w, INITIAL, src, ms);
      }
    }
  }

  lemma {:induction false} EnoughToStart(w: nat, xs: seq<int>)
    requires 16 <= w <= 24 && AllInt32(xs) && xs != []
    ensures |BytesBits(Stream(w, xs))| < w / 2 <==> Lost(w, xs)
  {
    hide Stream;
    ShortStream(w, xs);
  }

  /** Silent samples and the silence of the padding take one bit each. */
  lemma {:induction false} SilentFile(w: nat, n: nat)
    requires 4 <= w <= 24
    ensures |Encode(w, INITIAL, Silence(n))| == n && After(w, INITIAL, Silence(n)) == INITIAL
    ensures |Tail(w, Silence(n))| == 12 - Loose(n + 12)
  {
    hide Encode, After, Stream;
    QuantiseZero(w);
    SilentCost(w, Silence(n));
    SilentCost(w, Padding());
    Opened(w, Silence(n));
  }

  /** Eleven silent samples at 16 bits come back from one call, and but ten of them from a call for ten
      and one for the last. */
  lemma {:induction false} ElevenSilentSamples()
    ensures ValidMemory(16, INITIAL)
    ensures DecodeStream(16, Stream(16, Silence(11)), 11) == Masked(16, Silence(11))
    ensures ReadCalls(16, INITIAL, Start(16, Silence(11)), [10, 1]) == Masked(16, Silence(10))
  {
    hide Encode, After, Decode, ReadCalls, Masked, Stream, DecodeStream, Tail, PaddingBits, Lost;
    var xs := Silence(11);
    var src, tail := Start(16, xs), Tail(16, xs);
    ShippedWidthsAreLossless(16, xs);
    SilentFile(16, 11);
    SilentFile(16, 10);
    SilentFile(16, 1);
    Opened(16, xs);
    assert Loose(23) == 7;
    assert xs[..10] == Silence(10) && xs[10..] == Silence(1);
    SplitEncoding(16, INITIAL, xs, 10, tail);
    var rest := Encode(16, INITIAL, Silence(1)) + tail;
    WholeCall(16, INITIAL, src, Silence(10), rest);
    FirstCall(16, INITIAL, src, [10, 1]);
    var r := Decode(16, INITIAL, src, 10, true);
    LateCall(16, r.mem, r.src, 1, rest);
    assert [10, 1][1..] == [1];
    FirstCall(16, r.mem, r.src, [1]);
  }
}
