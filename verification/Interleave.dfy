/** Merging mono files into one file of several channels and taking it apart again, both in blocks
    of 4096 frames through two fixed buffers. */
module Interleave {
  import opened Bits
  import opened Common

  const BUFFER_LEN := 4096
  const MAX_CHANNELS := 16

  /** Where the sample of channel `c` in frame `k` lies. */
  function Index(channels: nat, k: nat, c: nat): nat {
    k * channels + c
  }

  // ----- the files

  /** Sample `k` of a channel, with silence behind its end. */
  function Padded(channel: seq<int>, k: nat): int {
    if k < |channel| then channel[k] else 0
  }

  function Frame(inputs: seq<seq<int>>, k: nat): (f: seq<int>)
    ensures |f| == |inputs|
    ensures forall c :: 0 <= c < |f| ==> f[c] == Padded(inputs[c], k)
  {
    seq(|inputs|, c requires 0 <= c < |inputs| => Padded(inputs[c], k))
  }

  /** The first `n` frames of the merged file. */
  function Merged(inputs: seq<seq<int>>, n: nat): seq<int> {
    if n == 0 then [] else Merged(inputs, n - 1) + Frame(inputs, n - 1)
  }

  function Longest(inputs: seq<seq<int>>): nat {
    if inputs == [] then 0
    else
      var rest := Longest(inputs[..|inputs| - 1]);
      if rest < |inputs[|inputs| - 1]| then |inputs[|inputs| - 1]| else rest
  }

  /** The first `n` samples of channel `c` of a file. */
  function Channel(items: seq<int>, channels: nat, c: nat, n: nat): (r: seq<int>)
    requires c < channels && Index(channels, n, 0) <= |items|
    ensures |r| == n
    decreases n
  {
    if n == 0 then []
    else
      IndexInside(channels, n - 1, c, n);
      Channel(items, channels, c, n - 1) + [items[Index(channels, n - 1, c)]]
  }

  /** The frames of a file. */
  function FramesOf(items: seq<int>, channels: nat): nat
    requires channels > 0
  {
    |items| / channels
  }

  lemma {:induction false} IndexInside(channels: nat, k: nat, c: nat, n: nat)
    requires c < channels && k < n
    ensures Index(channels, k, c) < Index(channels, k + 1, 0) <= Index(channels, n, 0)
  {
    assert Index(channels, k + 1, 0) == Index(channels, k, 0) + channels;
    assert (n - k - 1) * channels == Index(channels, n, 0) - Index(channels, k + 1, 0);
    if n - k - 1 >= 1 {
      SmallMultiple(n - k - 1, channels);
    }
  }

  /** Two samples never share a place. */
  lemma {:induction false} IndexInjective(channels: nat, k: nat, c: nat, j: nat, d: nat)
    requires c < channels && d < channels && Index(channels, k, c) == Index(channels, j, d)
    ensures k == j && c == d
  {
    DivUnique(Index(channels, k, c), channels, k, c);
    DivUnique(Index(channels, j, d), channels, j, d);
  }

  lemma {:induction false} MergedLength(inputs: seq<seq<int>>, n: nat)
    ensures |Merged(inputs, n)| == Index(|inputs|, n, 0)
  {
    if n > 0 {
      MergedLength(inputs, n - 1);
    }
  }

  lemma {:induction false} MergedAt(inputs: seq<seq<int>>, n: nat, k: nat, c: nat)
    requires k < n && c < |inputs|
    ensures Index(|inputs|, k, c) < |Merged(inputs, n)|
    ensures Merged(inputs, n)[Index(|inputs|, k, c)] == Padded(inputs[c], k)
  {
    MergedLength(inputs, n - 1);
    MergedLength(inputs, n);
    IndexInside(|inputs|, k, c, n);
    if k < n - 1 {
      IndexInside(|inputs|, k, c, n - 1);
      MergedAt(inputs, n - 1, k, c);
    } else {
      assert Index(|inputs|, k, c) == Index(|inputs|, k, 0) + c;
    }
  }

  lemma {:induction false} SplitSoFar(inputs: seq<seq<int>>, c: nat, n: nat)
    requires c < |inputs| && n <= Longest(inputs)
    ensures var all := Merged(inputs, Longest(inputs));
            && Index(|inputs|, n, 0) <= |all|
            && Channel(all, |inputs|, c, n) == seq(n, k requires 0 <= k < n => Padded(inputs[c], k))
  {
    var longest := Longest(inputs);
    hide Longest, Merged;
    MergedLength(inputs, longest);
    if n > 0 {
      SplitSoFar(inputs, c, n - 1);
      MergedAt(inputs, longest, n - 1, c);
      IndexInside(|inputs|, n - 1, c, n);
      if n < longest {
        IndexInside(|inputs|, n, c, longest);
      }
    }
  }

  lemma {:induction false} LongestIsMaximum(inputs: seq<seq<int>>)
    ensures forall c :: 0 <= c < |inputs| ==> |inputs[c]| <= Longest(inputs)
    ensures inputs != [] ==> exists c :: 0 <= c < |inputs| && |inputs[c]| == Longest(inputs)
  {
    if inputs != [] {
      var n := |inputs| - 1;
      LongestIsMaximum(inputs[..n]);
      if n > 0 && Longest(inputs) != |inputs[n]| {
        var c :| 0 <= c < n && |inputs[..n][c]| == Longest(inputs[..n]);
        assert inputs[c] == inputs[..n][c];
        assert |inputs[c]| == Longest(inputs);
      } else {
        LongestNone();
        assert n == 0 ==> inputs[..n] == [];
        assert |inputs[n]| == Longest(inputs);
      }
      forall c | 0 <= c < n
        ensures |inputs[c]| <= Longest(inputs)
      {
        assert inputs[c] == inputs[..n][c];
      }
    }
  }

  /** Taking the merged file apart gives every channel, with silence up to the longest. */
  lemma {:induction false} MergeThenSplit(inputs: seq<seq<int>>, c: nat)
    requires c < |inputs|
    ensures var longest := Longest(inputs);
            && |inputs[c]| <= longest == FramesOf(Merged(inputs, longest), |inputs|)
            && Index(|inputs|, longest, 0) <= |Merged(inputs, longest)|
            && Channel(Merged(inputs, longest), |inputs|, c, longest) ==
               inputs[c] + seq(longest - |inputs[c]|, _ => 0)
  {
    LongestIsMaximum(inputs);
    SplitSoFar(inputs, c, Longest(inputs));
    MergedLength(inputs, Longest(inputs));
    DivUnique(|Merged(inputs, Longest(inputs))|, |inputs|, Longest(inputs), 0);
  }

  // ----- merging

  /** What is left of a file to be read into a buffer. */
  function Left(len: nat, base: nat): nat {
    if len <= base then 0 else Least(BUFFER_LEN, len - base)
  }

  function Gap(longest: nat, base: nat): nat {
    if longest <= base then 0 else longest - base
  }

  lemma {:induction false} MergedNone(inputs: seq<seq<int>>)
    ensures Merged(inputs, 0) == []
  {
  }

  /** A buffer of frames from `base` on continues the merged file. */
  lemma {:induction false} MergedMore(inputs: seq<seq<int>>, base: nat, m: nat, d: seq<int>)
    requires Index(|inputs|, m, 0) <= |d|
    requires forall k, c :: 0 <= k < m && 0 <= c < |inputs| ==> InBlock(inputs, base, d, k, c)
    ensures Merged(inputs, base) + d[..Index(|inputs|, m, 0)] == Merged(inputs, base + m)
  {
    hide *;
    if m == 0 {
      NoFrames(inputs, base, d);
    } else {
      NextIndex(|inputs|, m - 1);
      MergedMore(inputs, base, m - 1, d);
      FrameInBlock(inputs, base, m - 1, d);
      MergedNext(inputs, base + m - 1);
      var from, to := Index(|inputs|, m - 1, 0), Index(|inputs|, m, 0);
      assert d[..to] == d[..from] + d[from..to];
      SeqAssociative(Merged(inputs, base), d[..from], d[from..to]);
    }
  }

  lemma {:induction false} NoFrames(inputs: seq<seq<int>>, base: nat, d: seq<int>)
    ensures Index(|inputs|, 0, 0) == 0 && Merged(inputs, base) + d[..0] == Merged(inputs, base)
  {
  }

  lemma {:induction false} NextIndex(channels: nat, k: nat)
    ensures Index(channels, k + 1, 0) == Index(channels, k, 0) + channels
  {
  }

  lemma {:induction false} MergedNext(inputs: seq<seq<int>>, n: nat)
    ensures Merged(inputs, n + 1) == Merged(inputs, n) + Frame(inputs, n)
  {
  }

  lemma {:induction false} FrameInBlock(inputs: seq<seq<int>>, base: nat, k: nat, d: seq<int>)
    requires Index(|inputs|, k + 1, 0) <= |d|
    requires forall c :: 0 <= c < |inputs| ==> InBlock(inputs, base, d, k, c)
    ensures Index(|inputs|, k, 0) <= Index(|inputs|, k + 1, 0)
    ensures d[Index(|inputs|, k, 0)..Index(|inputs|, k + 1, 0)] == Frame(inputs, base + k)
  {
    NextIndex(|inputs|, k);
    var from := Index(|inputs|, k, 0);
    forall c | 0 <= c < |inputs|
      ensures d[from + c] == Padded(inputs[c], base + k)
    {
      assert InBlock(inputs, base, d, k, c);
      assert Index(|inputs|, k, c) == from + c;
    }
  }

  predicate InBlock(inputs: seq<seq<int>>, base: nat, d: seq<int>, k: nat, c: nat) {
    c < |inputs| && Index(|inputs|, k, c) < |d| && d[Index(|inputs|, k, c)] == Padded(inputs[c], base + k)
  }

  lemma {:induction false} LongestSoFar(inputs: seq<seq<int>>, c: nat)
    requires c < |inputs|
    ensures var before, here := Longest(inputs[..c]), |inputs[c]|;
            Longest(inputs[..c + 1]) == if before < here then here else before
  {
    assert inputs[..c + 1][..c] == inputs[..c];
  }

  lemma {:induction false} FitsBuffer(channels: nat, k: nat, c: nat)
    requires channels <= MAX_CHANNELS && k < BUFFER_LEN && c < channels
    ensures Index(channels, k, c) < MAX_CHANNELS * BUFFER_LEN
  {
    IndexInside(channels, k, c, BUFFER_LEN);
  }

  /** Read up to 4096 samples from `pos` on, with silence behind the end of the file. */
  method ReadPadded(input: seq<int>, pos: nat, din: array<int>) returns (readLen: nat)
    requires din.Length == BUFFER_LEN && pos <= |input|
    modifies din
    ensures readLen == Least(BUFFER_LEN, |input| - pos)
    ensures forall k :: 0 <= k < BUFFER_LEN ==> din[k] == if k < readLen then input[pos + k] else 0
  {
    readLen := if |input| - pos < BUFFER_LEN then |input| - pos else BUFFER_LEN;
    for k := 0 to readLen
      invariant forall j :: 0 <= j < k ==> din[j] == input[pos + j]
    {
      din[k] := input[pos + k];
    }
    for k := readLen to BUFFER_LEN
      invariant forall j :: 0 <= j < k ==> din[j] == if j < readLen then input[pos + j] else 0
    {
      din[k] := 0;
    }
  }

  /** Put one channel into its places of every frame. */
  method PutChannel(dout: array<int>, din: array<int>, channels: nat, ch: nat)
    requires dout.Length == MAX_CHANNELS * BUFFER_LEN && din.Length == BUFFER_LEN && din != dout
    requires ch < channels <= MAX_CHANNELS
    modifies dout
    ensures forall k :: 0 <= k < BUFFER_LEN ==> Holds(dout[..], channels, k, ch, din[k])
    ensures forall k, c, x ::
      (0 <= k < BUFFER_LEN && 0 <= c < channels && c != ch && old(Holds(dout[..], channels, k, c, x))) ==>
        Holds(dout[..], channels, k, c, x)
  {
    hide Index;
    for k := 0 to BUFFER_LEN
      invariant forall j :: 0 <= j < k ==> Holds(dout[..], channels, j, ch, din[j])
      invariant forall j, c, x ::
        (0 <= j < BUFFER_LEN && 0 <= c < channels && c != ch && old(Holds(dout[..], channels, j, c, x))) ==>
          Holds(dout[..], channels, j, c, x)
    {
      FitsBuffer(channels, k, ch);
      ghost var was := dout[..];
      dout[Index(channels, k, ch)] := din[k];
      OnlyOneChanges(was, dout[..], channels, k, ch);
    }
  }

  predicate Holds(d: seq<int>, channels: nat, k: nat, c: nat, x: int) {
    Index(channels, k, c) < |d| && d[Index(channels, k, c)] == x
  }

  lemma {:induction false} OnlyOneChanges(was: seq<int>, d: seq<int>, channels: nat, k: nat, ch: nat)
    requires ch < channels && Index(channels, k, ch) < |was| == |d|
    requires d == was[Index(channels, k, ch) := d[Index(channels, k, ch)]]
    ensures forall j: nat, c: nat, x {:trigger Holds(was, channels, j, c, x)} ::
              c < channels && (j != k || c != ch) && Holds(was, channels, j, c, x) ==> Holds(d, channels, j, c, x)
  {
    forall j: nat, c: nat, x | c < channels && (j != k || c != ch) && Holds(was, channels, j, c, x)
      ensures Holds(d, channels, j, c, x)
    {
      if Index(channels, j, c) == Index(channels, k, ch) {
        IndexInjective(channels, j, c, k, ch);
      }
    }
  }

  /** One round over all inputs. */
  method MergeBlock(inputs: seq<seq<int>>, read: seq<nat>, ghost base: nat, din: array<int>, dout: array<int>)
      returns (maxReadLen: nat, next: seq<nat>)
    requires din.Length == BUFFER_LEN && dout.Length == MAX_CHANNELS * BUFFER_LEN && din != dout
    requires |read| == |inputs| <= MAX_CHANNELS
    requires forall c :: 0 <= c < |inputs| ==> read[c] == Least(|inputs[c]|, base)
    modifies din, dout
    ensures maxReadLen == Left(Longest(inputs), base)
    ensures |next| == |inputs| && forall c :: 0 <= c < |inputs| ==> next[c] == Least(|inputs[c]|, base + BUFFER_LEN)
    ensures forall k, c :: 0 <= k < BUFFER_LEN && 0 <= c < |inputs| ==> InBlock(inputs, base, dout[..], k, c)
  {
    hide Longest, Index;
    LongestNone();
    maxReadLen, next := 0, [];
    assert inputs[..0] == [];
    for ch := 0 to |inputs|
      invariant maxReadLen == Left(Longest(inputs[..ch]), base)
      invariant |next| == ch && forall c :: 0 <= c < ch ==> next[c] == Least(|inputs[c]|, base + BUFFER_LEN)
      invariant forall k, c :: 0 <= k < BUFFER_LEN && 0 <= c < ch ==> InBlock(inputs, base, dout[..], k, c)
    {
      var readLen := ReadPadded(inputs[ch], read[ch], din);
      assert forall k :: 0 <= k < BUFFER_LEN ==> din[k] == Padded(inputs[ch], base + k);
      ghost var was := dout[..];
      PutChannel(dout, din, |inputs|, ch);
      forall k, c | 0 <= k < BUFFER_LEN && 0 <= c <= ch
        ensures InBlock(inputs, base, dout[..], k, c)
      {
        if c == ch {
          assert Holds(dout[..], |inputs|, k, ch, din[k]);
        } else {
          assert InBlock(inputs, base, was, k, c);
          assert Holds(was, |inputs|, k, c, Padded(inputs[c], base + k));
        }
      }
      LongestSoFar(inputs, ch);
      maxReadLen := if maxReadLen > readLen then maxReadLen else readLen;
      next := next + [read[ch] + readLen];
    }
    assert inputs[..|inputs|] == inputs;
  }

  lemma {:induction false} LongestNone()
    ensures Longest([]) == 0
  {
  }

  /** Merge mono files: every round reads up to 4096 samples of each and writes as many frames as the
      longest read gave. */
  method InterleaveInt(inputs: seq<seq<int>>) returns (out: seq<int>)
    requires |inputs| <= MAX_CHANNELS
    ensures out == Merged(inputs, Longest(inputs))
  {
    hide Longest, Merged, Index, InBlock;
    var channels := |inputs|;
    var din := new int[BUFFER_LEN](_ => 0);
    var dout := new int[MAX_CHANNELS * BUFFER_LEN](_ => 0);
    ghost var base: nat := 0;
    var read: seq<nat> := seq(channels, _ => 0);
    out := [];
    MergedNone(inputs);
    var maxReadLen := 1;
    while maxReadLen > 0
      invariant |read| == channels && forall c :: 0 <= c < channels ==> read[c] == Least(|inputs[c]|, base)
      invariant out == Merged(inputs, Least(base, Longest(inputs)))
      invariant maxReadLen == 0 ==> base >= Longest(inputs)
      decreases Gap(Longest(inputs), base), maxReadLen
    {
      maxReadLen, read := MergeBlock(inputs, read, base, din, dout);
      WriteBlock(inputs, base, maxReadLen, dout[..]);
      out := out + dout[..Index(channels, maxReadLen, 0)];
      base := base + BUFFER_LEN;
    }
  }

  lemma {:induction false} WriteBlock(inputs: seq<seq<int>>, base: nat, m: nat, d: seq<int>)
    requires |d| == MAX_CHANNELS * BUFFER_LEN && |inputs| <= MAX_CHANNELS && m == Left(Longest(inputs), base)
    requires forall k, c :: 0 <= k < BUFFER_LEN && 0 <= c < |inputs| ==> InBlock(inputs, base, d, k, c)
    ensures Index(|inputs|, m, 0) <= |d|
    ensures Merged(inputs, Least(base, Longest(inputs))) + d[..Index(|inputs|, m, 0)]
         == Merged(inputs, Least(base + BUFFER_LEN, Longest(inputs)))
  {
    hide Longest, Merged, Index, InBlock;
    FramesFit(|inputs|, m);
    if m > 0 {
      MergedMore(inputs, base, m, d);
    } else {
      MergedMore(inputs, Least(base, Longest(inputs)), m, d);
    }
  }

  lemma {:induction false} FramesFit(channels: nat, m: nat)
    requires channels <= MAX_CHANNELS && m <= BUFFER_LEN
    ensures Index(channels, m, 0) <= MAX_CHANNELS * BUFFER_LEN
  {
    assert (BUFFER_LEN - m) * channels >= 0;
  }

  // ----- splitting

  lemma {:induction false} FramesInside(items: seq<int>, channels: nat, n: nat)
    requires channels > 0 && n <= FramesOf(items, channels)
    ensures Index(channels, n, 0) <= |items|
  {
    var q := |items| / channels;
    assert q * channels <= |items| && (q - n) * channels == q * channels - n * channels;
    if q > n {
      SmallMultiple(q - n, channels);
    }
  }

  /** Split a file: every round reads up to 4096 frames and appends each channel's samples to its
      output. */
  method DeinterleaveInt(items: seq<int>, channels: nat) returns (outs: seq<seq<int>>)
    requires 1 <= channels <= MAX_CHANNELS
    ensures |outs| == channels && Index(channels, FramesOf(items, channels), 0) <= |items|
    ensures forall c :: 0 <= c < channels ==> outs[c] == Channel(items, channels, c, FramesOf(items, channels))
  {
    hide Index, Channel, FramesOf;
    var frames := FramesOf(items, channels);
    var dout := new int[BUFFER_LEN](_ => 0);
    var din := new int[MAX_CHANNELS * BUFFER_LEN](_ => 0);
    var base := 0;
    outs := seq(channels, _ => []);
    FramesInside(items, channels, frames);
    ChannelsNone(items, channels);
    var readLen := 1;
    while readLen > 0
      invariant base <= frames && Index(channels, base, 0) <= |items| && |outs| == channels
      invariant forall c :: 0 <= c < channels ==> outs[c] == Channel(items, channels, c, base)
      invariant readLen == 0 ==> base == frames
      decreases frames - base, readLen
    {
      readLen := Least(BUFFER_LEN, frames - base);
      FramesInside(items, channels, base + readLen);
      outs := SplitBlock(items, channels, base, readLen, outs, din, dout);
      base := base + readLen;
    }
  }

  lemma {:induction false} ChannelsNone(items: seq<int>, channels: nat)
    ensures Index(channels, 0, 0) == 0
    ensures forall c :: 0 <= c < channels ==> Channel(items, channels, c, 0) == []
  {
    assert Index(channels, 0, 0) == 0;
  }

  /** One round: read frames into the buffer and give each channel its samples. */
  method SplitBlock(items: seq<int>, channels: nat, base: nat, readLen: nat, outs: seq<seq<int>>,
      din: array<int>, dout: array<int>) returns (more: seq<seq<int>>)
    requires 1 <= channels <= MAX_CHANNELS && readLen <= BUFFER_LEN && din != dout
    requires din.Length == MAX_CHANNELS * BUFFER_LEN && dout.Length == BUFFER_LEN
    requires Index(channels, base + readLen, 0) <= |items| && Index(channels, base, 0) <= |items|
    requires |outs| == channels && forall c :: 0 <= c < channels ==> outs[c] == Channel(items, channels, c, base)
    modifies din, dout
    ensures |more| == channels
    ensures forall c :: 0 <= c < channels ==> more[c] == Channel(items, channels, c, base + readLen)
  {
    hide Channel, Index;
    ReadFrames(items, channels, base, readLen, din);
    more := outs;
    for ch := 0 to channels
      invariant |more| == channels
      invariant forall c :: 0 <= c < ch ==> more[c] == Channel(items, channels, c, base + readLen)
      invariant forall c :: ch <= c < channels ==> more[c] == outs[c]
      invariant forall k, c :: 0 <= k < readLen && 0 <= c < channels ==> FromFile(items, channels, base, din[..], k, c)
    {
      PickChannel(items, channels, base, readLen, din, dout, ch);
      more := more[ch := more[ch] + dout[..readLen]];
    }
  }

  /** Frame `k` of the buffer is frame `base + k` of the file. */
  predicate FromFile(items: seq<int>, channels: nat, base: nat, d: seq<int>, k: nat, c: nat) {
    && Index(channels, k, c) < |d| && Index(channels, base + k, c) < |items|
    && d[Index(channels, k, c)] == items[Index(channels, base + k, c)]
  }

  method ReadFrames(items: seq<int>, channels: nat, base: nat, readLen: nat, din: array<int>)
    requires 1 <= channels <= MAX_CHANNELS && readLen <= BUFFER_LEN
    requires din.Length == MAX_CHANNELS * BUFFER_LEN && Index(channels, base + readLen, 0) <= |items|
    modifies din
    ensures forall k, c :: 0 <= k < readLen && 0 <= c < channels ==> FromFile(items, channels, base, din[..], k, c)
  {
    var from, n := Index(channels, base, 0), Index(channels, readLen, 0);
    FramesFit(channels, readLen);
    assert from + n == Index(channels, base + readLen, 0);
    hide Index;
    for i := 0 to n
      invariant forall j :: 0 <= j < i ==> din[j] == items[from + j]
    {
      din[i] := items[from + i];
    }
    forall k, c | 0 <= k < readLen && 0 <= c < channels
      ensures FromFile(items, channels, base, din[..], k, c)
    {
      Shifted(channels, base, k, c, readLen);
    }
  }

  lemma {:induction false} Shifted(channels: nat, base: nat, k: nat, c: nat, n: nat)
    requires c < channels && k < n
    ensures Index(channels, k, c) < Index(channels, n, 0)
    ensures Index(channels, base + k, c) == Index(channels, base, 0) + Index(channels, k, c)
  {
    IndexInside(channels, k, c, n);
  }

  method PickChannel(items: seq<int>, channels: nat, base: nat, readLen: nat,
      din: array<int>, dout: array<int>, ch: nat)
    requires ch < channels <= MAX_CHANNELS && readLen <= BUFFER_LEN && din != dout
    requires din.Length == MAX_CHANNELS * BUFFER_LEN && dout.Length == BUFFER_LEN
    requires Index(channels, base + readLen, 0) <= |items| && Index(channels, base, 0) <= |items|
    requires forall k, c :: 0 <= k < readLen && 0 <= c < channels ==> FromFile(items, channels, base, din[..], k, c)
    modifies dout
    ensures Channel(items, channels, ch, base) + dout[..readLen] == Channel(items, channels, ch, base + readLen)
  {
    hide Channel, Index;
    for k := 0 to readLen
      invariant Index(channels, base + k, 0) <= |items|
      invariant Channel(items, channels, ch, base) + dout[..k] == Channel(items, channels, ch, base + k)
    {
      assert FromFile(items, channels, base, din[..], k, ch);
      IndexInside(channels, base + k, ch, base + readLen);
      NextSample(items, channels, ch, base + k);
      dout[k] := din[Index(channels, k, ch)];
      assert dout[..k + 1] == dout[..k] + [dout[k]];
    }
  }

  lemma {:induction false} NextSample(items: seq<int>, channels: nat, c: nat, n: nat)
    requires c < channels && Index(channels, n, 0) <= |items| && Index(channels, n + 1, 0) <= |items|
    ensures Index(channels, n, c) < |items|
    ensures Channel(items, channels, c, n + 1) == Channel(items, channels, c, n) + [items[Index(channels, n, c)]]
  {
    IndexInside(channels, n, c, n + 1);
  }
}
