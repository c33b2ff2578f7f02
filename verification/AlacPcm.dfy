/** The assumptions on the codec can be met: samples stored as four bytes each, whatever they are. */
module AlacPcm {
  import opened Bits
  import opened Common
  import opened AlacStream
  import opened AlacSession

  const WIDTH := 4
  const MOST_CHANNELS := 8

  // ----- one sample

  function WordBytes(x: int): (bs: seq<byte>)
    ensures |bs| == WIDTH
  {
    BigEndian(x % WORD, WIDTH)
  }

  function WordValue(bs: seq<byte>): int
    requires |bs| == WIDTH
  {
    Int32(At(bs, 0) * 0x100_0000 + At(bs, 1) * 0x1_0000 + At(bs, 2) * 0x100 + At(bs, 3))
  }

  lemma {:induction false} WordReadsBack(x: int)
    requires IsInt32(x)
    ensures WordValue(WordBytes(x)) == x
  {
    FourBytes(x % WORD);
    hide At, BigEndian;
  }

  // ----- a block

  function Bytes(xs: seq<int>): (bs: seq<byte>)
    ensures |bs| == WIDTH * |xs|
  {
    if xs == [] then [] else WordBytes(xs[0]) + Bytes(xs[1..])
  }

  function Words(bs: seq<byte>): seq<int> {
    if |bs| < WIDTH then [] else [WordValue(bs[..WIDTH])] + Words(bs[WIDTH..])
  }

  lemma {:induction false} WordsOfBytes(xs: seq<int>)
    requires AllInt32(xs)
    ensures Words(Bytes(xs)) == xs
  {
    hide WordBytes, WordValue;
    if xs != [] {
      WordReadsBack(xs[0]);
      WordsOfBytes(xs[1..]);
      assert Bytes(xs)[..WIDTH] == WordBytes(xs[0]) && Bytes(xs)[WIDTH..] == Bytes(xs[1..]);
    }
  }

  /** The whole frames in some samples, no more than a block may have. */
  function Frames(channels: nat, xs: seq<int>): nat
    requires channels > 0
  {
    Least(FramesIn(channels, |xs|), MAX_FRAMES)
  }

  function WholeFrames(channels: nat, xs: seq<int>): (r: seq<int>)
    requires channels > 0
    ensures |r| == Samples(channels, Frames(channels, xs))
  {
    FramesFit(channels, xs);
    xs[..Samples(channels, Frames(channels, xs))]
  }

  lemma {:induction false} FramesFit(channels: nat, xs: seq<int>)
    requires channels > 0
    ensures Samples(channels, Frames(channels, xs)) <= |xs|
  {
    SamplesGrow(channels, Frames(channels, xs), FramesIn(channels, |xs|));
  }

  lemma {:induction false} AllWhole(channels: nat, xs: seq<int>, m: nat)
    requires channels > 0 && m <= MAX_FRAMES && |xs| == Samples(channels, m)
    ensures WholeFrames(channels, xs) == xs
  {
    SamplesDivide(channels, m);
  }

  function Pcm(channels: nat): Codec
    requires channels > 0
  {
    Codec(Bytes, p => WholeFrames(channels, Words(p)), p => Frames(channels, Words(p)))
  }

  // ----- it works

  lemma {:induction false} BlocksOf(channels: nat, xs: seq<int>, n: nat, block: seq<int>)
    requires channels > 0 && |xs| == Samples(channels, n) && AllInt32(xs) && block in Blocked(channels, xs)
    ensures AllInt32(block)
    ensures exists m :: 0 < m <= FRAME_LENGTH && |block| == Samples(channels, m)
    decreases n
  {
    var full := Samples(channels, FRAME_LENGTH);
    if |xs| <= full {
      assert block == xs;
      if n > FRAME_LENGTH {
        SamplesGrow(channels, FRAME_LENGTH, n);
      }
      assert |block| == Samples(channels, n);
    } else {
      if n <= FRAME_LENGTH {
        SamplesGrow(channels, n, FRAME_LENGTH);
      }
      SamplesAdd(channels, FRAME_LENGTH, n - FRAME_LENGTH);
      if block != xs[..full] {
        BlocksOf(channels, xs[full..], n - FRAME_LENGTH, block);
      }
    }
  }

  /** With up to eight channels of 32-bit samples it meets all that is asked of a codec. */
  lemma {:induction false} PcmWorks(channels: nat, xs: seq<int>, n: nat)
    requires 0 < channels <= MOST_CHANNELS && |xs| == Samples(channels, n) && AllInt32(xs)
    ensures Works(Pcm(channels), channels, xs)
  {
    hide Blocked, Bytes, Words, WholeFrames, Samples;
    forall block | block in Blocked(channels, xs)
      ensures 0 < |Bytes(block)| <= BYTE_BUFFER && WholeFrames(channels, Words(Bytes(block))) == block
    {
      BlocksOf(channels, xs, n, block);
      var m :| 0 < m <= FRAME_LENGTH && |block| == Samples(channels, m);
      BlockFits(channels, m);
      WordsOfBytes(block);
      AllWhole(channels, block, m);
    }
  }

  lemma {:induction false} BlockFits(channels: nat, m: nat)
    requires 0 < channels <= MOST_CHANNELS && 0 < m <= FRAME_LENGTH
    ensures 0 < WIDTH * Samples(channels, m) <= BYTE_BUFFER
  {
    SamplesPositive(channels, m);
    SamplesGrow(channels, m, FRAME_LENGTH);
  }
}
