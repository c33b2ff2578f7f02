/** What was written can be read: the file that the writer leaves behind is well formed for the
    reader and holds the samples of the writer's blocks. */
module AlacRoundTrip {
  import opened Bits
  import opened Common
  import opened AlacTable
  import opened AlacStream
  import opened AlacWriter

  /** `a` is a file whose data are the encoded blocks and whose table was decoded from the stored
      chunk, read with a codec that undoes the encoder. */
  ghost predicate Holds(a: Source, encode: seq<int> -> seq<byte>, blocks: seq<seq<int>>, header: seq<byte>) {
    && Sound(a) && a.perBlock == FRAME_LENGTH && a.dataLength >= 0
    && |header| == HEADER
    && FullButLast(a.channels, blocks)
    && 0 <= a.dataOffset <= |a.file| && a.file[a.dataOffset..] == Encoded(encode, blocks)
    && a.sizes == ReadTable(Stored(header + TableBytes(Lengths(encode, blocks))), HEADER)
    && forall k :: 0 <= k < |blocks| ==> Packed(a, encode, blocks[k])
  }

  /** The codec on one block. */
  predicate Packed(a: Source, encode: seq<int> -> seq<byte>, block: seq<int>) {
    0 < |encode(block)| <= BYTE_BUFFER && a.decode(encode(block)) == block
  }

  lemma {:induction false} SizesAreLengths(
      a: Source, encode: seq<int> -> seq<byte>, blocks: seq<seq<int>>, header: seq<byte>)
    requires Holds(a, encode, blocks, header)
    ensures |a.sizes| >= |blocks| == Blocks(a)
    ensures forall k :: 0 <= k < |blocks| ==> a.sizes[k] == |encode(blocks[k])|
  {
    hide Sound, FullButLast, Encoded, TableBytes, ReadTable, Stored;
    var lengths := Lengths(encode, blocks);
    forall k | 0 <= k < |lengths|
      ensures 0 < lengths[k] < TOO_BIG
    {
      assert Packed(a, encode, blocks[k]);
    }
    TableRoundTrip(lengths, header);
  }

  lemma {:induction false} EncodedAt(encode: seq<int> -> seq<byte>, blocks: seq<seq<int>>, k: nat)
    requires k < |blocks|
    ensures var start, end := |Encoded(encode, blocks[..k])|, |Encoded(encode, blocks[..k + 1])|;
            && end == start + |encode(blocks[k])|
            && end <= |Encoded(encode, blocks)|
            && Encoded(encode, blocks)[start..end] == encode(blocks[k])
    decreases |blocks|
  {
    hide Encoded, Lengths;
    var n := |blocks| - 1;
    assert blocks[..k + 1] == blocks[..k] + [blocks[k]];
    EncodedSnoc(encode, blocks[..k], blocks[k]);
    assert blocks == blocks[..n] + [blocks[n]];
    EncodedSnoc(encode, blocks[..n], blocks[n]);
    if k == n {
      assert blocks[..k + 1] == blocks;
    } else {
      EncodedAt(encode, blocks[..n], k);
      assert blocks[..n][..k] == blocks[..k] && blocks[..n][..k + 1] == blocks[..k + 1];
    }
  }

  lemma {:induction false} StartsAt(
      a: Source, encode: seq<int> -> seq<byte>, blocks: seq<seq<int>>, header: seq<byte>, k: nat)
    requires Holds(a, encode, blocks, header) && k <= |blocks| <= |a.sizes|
    ensures Start(a, k) == a.dataOffset + |Encoded(encode, blocks[..k])|
  {
    hide Holds, Encoded;
    SizesAreLengths(a, encode, blocks, header);
    if k == 0 {
      EncodedNone(encode);
    } else {
      StartsAt(a, encode, blocks, header, k - 1);
      EncodedAt(encode, blocks, k - 1);
    }
  }

  lemma {:induction false} EncodedNone(encode: seq<int> -> seq<byte>)
    ensures Encoded(encode, []) == []
  {
  }

  lemma {:induction false} PacketIsBlock(
      a: Source, encode: seq<int> -> seq<byte>, blocks: seq<seq<int>>, header: seq<byte>, k: nat)
    requires Holds(a, encode, blocks, header) && k < |blocks|
    ensures k < |a.sizes| && 0 < a.sizes[k] <= BYTE_BUFFER
    ensures Packet(a, k) == encode(blocks[k]) && a.decode(Packet(a, k)) == blocks[k]
    ensures Start(a, k + 1) <= |a.file|
  {
    hide Encoded, Sound, FullButLast, ReadTable, Stored, TableBytes;
    SizesAreLengths(a, encode, blocks, header);
    StartsAt(a, encode, blocks, header, k);
    StartsAt(a, encode, blocks, header, k + 1);
    EncodedAt(encode, blocks, k);
    assert Packed(a, encode, blocks[k]);
    var start := |Encoded(encode, blocks[..k])|;
  }

  lemma {:induction false} BlockFrames(
      a: Source, encode: seq<int> -> seq<byte>, blocks: seq<seq<int>>, header: seq<byte>, k: nat)
    requires Holds(a, encode, blocks, header) && k < |blocks|
    ensures k < |a.sizes| && 0 < FramesOf(a, k) <= FRAME_LENGTH
    ensures k < |blocks| - 1 ==> FramesOf(a, k) == FRAME_LENGTH
  {
    PacketIsBlock(a, encode, blocks, header, k);
    var n := |blocks| - 1;
    assert |blocks[k]| == Samples(a.channels, FramesOf(a, k));
    var m :| 0 < m <= FRAME_LENGTH && |blocks[k]| == Samples(a.channels, m) && (k < n ==> m == FRAME_LENGTH) by {
      if k < n {
        assert blocks[..n][k] == blocks[k];
      }
    }
    SamplesInjective(a.channels, FramesOf(a, k), m);
  }

  lemma {:induction false} SamplesInjective(channels: nat, m: nat, n: nat)
    requires channels > 0 && Samples(channels, m) == Samples(channels, n)
    ensures m == n
  {
    if m < n {
      SamplesGrow(channels, m, n);
    } else if n < m {
      SamplesGrow(channels, n, m);
    }
  }

  lemma {:induction false} FromUnfolds(a: Source, k: nat)
    requires k < Blocks(a)
    ensures From(a, k) == a.decode(Packet(a, k)) + From(a, k + 1)
  {
  }

  lemma {:induction false} NothingFrom(a: Source, k: nat)
    requires k >= Blocks(a)
    ensures From(a, k) == []
  {
  }

  lemma {:induction false} SamplesFollow(
      a: Source, encode: seq<int> -> seq<byte>, blocks: seq<seq<int>>, header: seq<byte>, k: nat)
    requires Holds(a, encode, blocks, header) && k <= |blocks| == Blocks(a)
    ensures Flat(blocks[..k]) + From(a, k) == Flat(blocks)
    decreases |blocks| - k
  {
    hide Holds, From, Flat;
    if k == |blocks| {
      assert blocks[..k] == blocks;
      NothingFrom(a, k);
    } else {
      PacketIsBlock(a, encode, blocks, header, k);
      SamplesFollow(a, encode, blocks, header, k + 1);
      FromUnfolds(a, k);
      assert blocks[..k + 1] == blocks[..k] + [blocks[k]];
      FlatSnoc(blocks[..k], blocks[k]);
      SeqAssociative(Flat(blocks[..k]), blocks[k], From(a, k + 1));
    }
  }

  /** Reading the written file gives the written samples, and all that is proved of well-formed files
      holds of it. */
  lemma {:induction false} WriteThenRead(
      a: Source, encode: seq<int> -> seq<byte>, blocks: seq<seq<int>>, header: seq<byte>)
    requires Holds(a, encode, blocks, header)
    ensures WellFormed(a) && Blocks(a) == |blocks| && From(a, 0) == Flat(blocks)
  {
    SizesAreLengths(a, encode, blocks, header);
    forall k | 0 <= k < |blocks|
      ensures 0 < a.sizes[k] <= BYTE_BUFFER && FramesOf(a, k) <= FRAME_LENGTH
      ensures k < |blocks| - 1 ==> FramesOf(a, k) == FRAME_LENGTH
    {
      PacketIsBlock(a, encode, blocks, header, k);
      BlockFrames(a, encode, blocks, header, k);
    }
    if blocks != [] {
      PacketIsBlock(a, encode, blocks, header, |blocks| - 1);
    }
    SamplesFollow(a, encode, blocks, header, 0);
    assert Flat(blocks[..0]) + From(a, 0) == From(a, 0);
  }
}
