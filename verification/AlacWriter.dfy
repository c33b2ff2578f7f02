/** The writer of an ALAC file: samples are gathered into blocks, each block is encoded into a
    temporary file and its length appended to the packet table. The encoder is a parameter. */
module AlacWriter {
  import opened Bits
  import opened Common
  import opened AlacTable
  import opened AlacStream

  /** Blocks one after the other. */
  function Flat(blocks: seq<seq<int>>): seq<int> {
    if blocks == [] then [] else Flat(blocks[..|blocks| - 1]) + blocks[|blocks| - 1]
  }

  function Encoded(encode: seq<int> -> seq<byte>, blocks: seq<seq<int>>): seq<byte> {
    if blocks == [] then [] else Encoded(encode, blocks[..|blocks| - 1]) + encode(blocks[|blocks| - 1])
  }

  function Lengths(encode: seq<int> -> seq<byte>, blocks: seq<seq<int>>): (r: seq<nat>)
    ensures |r| == |blocks|
    ensures forall k :: 0 <= k < |r| ==> r[k] == |encode(blocks[k])|
  {
    seq(|blocks|, k requires 0 <= k < |blocks| => |encode(blocks[k])|)
  }

  predicate AllFull(channels: nat, blocks: seq<seq<int>>) {
    forall k :: 0 <= k < |blocks| ==> |blocks[k]| == Samples(channels, FRAME_LENGTH)
  }

  /** All blocks but the last are full, and the last holds at least one frame. */
  predicate FullButLast(channels: nat, blocks: seq<seq<int>>) {
    blocks != [] ==>
      var n := |blocks| - 1;
      AllFull(channels, blocks[..n]) && exists m :: 0 < m <= FRAME_LENGTH && |blocks[n]| == Samples(channels, m)
  }

  class Writer {
    const channels: nat
    const encode: seq<int> -> seq<byte>
    const pakt: PacketTable
    /** The block being put together. */
    const buffer: array<int>
    var partialBlockFrames: nat
    /** The temporary file. */
    var enctmp: seq<byte>
    /** The blocks encoded so far. */
    ghost var blocks: seq<seq<int>>

    ghost predicate Valid()
      reads this, pakt, pakt.packetSize, buffer
    {
      Filling() && partialBlockFrames < FRAME_LENGTH
    }

    /** Between two encodings; the block may just have become full. */
    ghost predicate Filling()
      reads this, pakt, pakt.packetSize, buffer
    {
      && channels > 0 && pakt.Valid() && pakt.capacity >= 2
      && pakt.packetSize as object != buffer as object
      && partialBlockFrames <= FRAME_LENGTH
      && buffer.Length == Samples(channels, MAX_FRAMES) && Samples(channels, FRAME_LENGTH) <= buffer.Length
      && Samples(channels, partialBlockFrames) <= Samples(channels, FRAME_LENGTH)
      && AllFull(channels, blocks)
      && Recorded()
    }

    /** The temporary file and the table belong to the blocks. */
    ghost predicate Recorded()
      requires pakt.Valid()
      reads `enctmp, `blocks, pakt, pakt.packetSize
    {
      enctmp == Encoded(encode, blocks) && pakt.Sizes() == Lengths(encode, blocks)
    }

    /** All samples written so far. */
    ghost function Written(): seq<int>
      requires Filling()
      reads this, pakt, pakt.packetSize, buffer
    {
      Flat(blocks) + buffer[..Samples(channels, partialBlockFrames)]
    }

    constructor (channels: nat, encode: seq<int> -> seq<byte>)
      requires channels > 0
      ensures Valid() && Written() == [] && fresh(pakt) && fresh(pakt.packetSize) && fresh(buffer)
      ensures this.channels == channels && this.encode == encode
    {
      this.channels, this.encode := channels, encode;
      var table := new PacketTable(2000);
      pakt := table;
      buffer := new int[Samples(channels, MAX_FRAMES)](_ => 0);
      partialBlockFrames, enctmp, blocks := 0, [], [];
      new;
      SamplesGrow(channels, 0, FRAME_LENGTH);
      SamplesGrow(channels, FRAME_LENGTH, MAX_FRAMES);
    }

    /** Encode the block put together so far. */
    method EncodeBlock()
      requires channels > 0 && pakt.Valid() && pakt.capacity >= 2 && Recorded()
      requires pakt.packetSize as object != buffer as object
      requires Samples(channels, partialBlockFrames) <= buffer.Length
      modifies this, pakt, pakt.packetSize
      ensures pakt.Valid() && pakt.capacity >= 2 && Recorded() && partialBlockFrames == 0
      ensures pakt.packetSize == old(pakt.packetSize) || fresh(pakt.packetSize)
      ensures blocks == old(blocks) + [buffer[..Samples(channels, old(partialBlockFrames))]]
      ensures unchanged(buffer)
    {
      hide Samples, Encoded, Lengths;
      ghost var block := buffer[..Samples(channels, partialBlockFrames)];
      EncodedSnoc(encode, blocks, block);
      var bytes := encode(buffer[..Samples(channels, partialBlockFrames)]);
      enctmp := enctmp + bytes;
      pakt.Append(|bytes|);
      blocks := blocks + [block];
      partialBlockFrames := 0;
    }

    /** Write `len` samples, whole frames. */
    method WriteInts(ptr: array<int>, len: nat, ghost frames: nat) returns (total: nat)
      requires Valid() && len <= ptr.Length && len == Samples(channels, frames)
      requires ptr != buffer && ptr as object != pakt.packetSize as object
      modifies this, pakt, pakt.packetSize, buffer
      ensures Valid() && (pakt.packetSize == old(pakt.packetSize) || fresh(pakt.packetSize))
      ensures total == len && Written() == old(Written()) + ptr[..len]
    {
      hide Samples, Flat, AllFull, Recorded;
      NoSamples(channels);
      total := 0;
      var left := len;
      ghost var m := frames;
      while left > 0
        invariant Valid() && (pakt.packetSize == old(pakt.packetSize) || fresh(pakt.packetSize))
        invariant total + left == len && left == Samples(channels, m)
        invariant Written() == old(Written()) + ptr[..total]
        invariant ptr[..] == old(ptr[..])
        decreases m
      {
        ghost var before, n := Written(), Fill(m);
        var writeCount := FillBlock(ptr, total, left, m);
        FrontGrows(ptr[..], total, writeCount);
        total := total + writeCount;
        left := left - writeCount;
        m := m - n;
        if partialBlockFrames >= FRAME_LENGTH {
          FullBlock();
        }
      }
    }

    /** How many of `m` frames still fit the block. */
    ghost function Fill(m: nat): nat
      requires partialBlockFrames <= FRAME_LENGTH
      reads this
    {
      Least(FRAME_LENGTH - partialBlockFrames, m)
    }

    /** The copying part of the write loop. */
    method FillBlock(ptr: array<int>, total: nat, left: nat, ghost m: nat) returns (writeCount: nat)
      requires Valid() && total + left <= ptr.Length && 0 < left == Samples(channels, m)
      requires ptr != buffer
      modifies this`partialBlockFrames, buffer
      ensures Filling() && 0 < writeCount <= left
      ensures 0 < old(Fill(m)) <= m && left - writeCount == Samples(channels, m - old(Fill(m)))
      ensures Written() == old(Written()) + ptr[total..total + writeCount]
    {
      hide Flat, AllFull, Recorded, Samples;
      ghost var n := Fill(m);
      Portion(channels, partialBlockFrames, m);
      writeCount := Samples(channels, FRAME_LENGTH - partialBlockFrames);
      writeCount := if writeCount == 0 || writeCount > left then left else writeCount;
      assert writeCount == Samples(channels, n);
      var from := Samples(channels, partialBlockFrames);
      CopyIn(ptr, total, from, writeCount);
      partialBlockFrames := partialBlockFrames + FramesIn(channels, writeCount);
    }

    method CopyIn(ptr: array<int>, total: nat, from: nat, count: nat)
      requires total + count <= ptr.Length && from + count <= buffer.Length && ptr != buffer
      modifies buffer
      ensures buffer[..from + count] == old(buffer[..from]) + ptr[total..total + count]
    {
      for k := 0 to count
        invariant buffer[..from] == old(buffer[..from])
        invariant buffer[from..from + k] == ptr[total..total + k]
      {
        buffer[from + k] := ptr[total + k];
      }
      assert buffer[..from + count] == buffer[..from] + buffer[from..from + count];
    }

    /** A block that has become full is encoded at once. */
    method FullBlock()
      requires Filling() && partialBlockFrames == FRAME_LENGTH
      modifies this, pakt, pakt.packetSize
      ensures Valid() && (pakt.packetSize == old(pakt.packetSize) || fresh(pakt.packetSize))
      ensures Written() == old(Written()) && partialBlockFrames == 0
    {
      hide Samples, Recorded;
      NoSamples(channels);
      SamplesGrow(channels, 0, FRAME_LENGTH);
      FlatSnoc(blocks, buffer[..Samples(channels, partialBlockFrames)]);
      EncodeBlock();
    }

    /** The blocks of the finished file. */
    ghost function FinalBlocks(): seq<seq<int>>
      requires Filling()
      reads this, pakt, pakt.packetSize, buffer
    {
      if partialBlockFrames > 0 then blocks + [buffer[..Samples(channels, partialBlockFrames)]] else blocks
    }

    /** Encode the last block, if one has been begun, and then the table. The chunk is what the file
        stores of the table; there is none when a length needs more than 28 bits, and none here when
        the table overruns the room set aside for it. */
    method Close(frames: nat) returns (chunk: seq<byte>, ok: bool, overrun: bool)
      requires Valid()
      modifies this, pakt, pakt.packetSize
      ensures pakt.Valid() && Recorded() && blocks == old(FinalBlocks())
      ensures Flat(blocks) == old(Written()) && FullButLast(channels, blocks)
      ensures overrun == Overruns(Lengths(encode, blocks))
      ensures ok == (Encodable(Lengths(encode, blocks)) && !overrun)
      ensures ok ==> chunk == Stored(
                Header(|blocks|, frames, FRAME_LENGTH - old(partialBlockFrames)) + TableBytes(Lengths(encode, blocks)))
      ensures ok && |blocks| < Pow256(8) && frames < Pow256(8) ==>
                Describes(chunk, |blocks|, frames, FRAME_LENGTH - old(partialBlockFrames))
    {
      hide Samples, Flat, AllFull, FullButLast, TableBytes, Header, Encodable, Stored, Overruns, Encoded, Lengths;
      hide Describes, Pow256;
      ghost var pending := buffer[..Samples(channels, partialBlockFrames)];
      NoSamples(channels);
      FlatSnoc(blocks, pending);
      FullThenLast(channels, blocks, pending, partialBlockFrames);
      var saved := partialBlockFrames;
      if partialBlockFrames > 0 && partialBlockFrames < FRAME_LENGTH {
        EncodeBlock();
      }
      partialBlockFrames := saved;
      var data, size;
      data, size, ok, overrun := pakt.Encode(frames, partialBlockFrames);
      chunk := if ok then Stored(data[..size]) else [];
      if ok && |blocks| < Pow256(8) && frames < Pow256(8) {
        StoredDescribes(data[..size], |blocks|, frames, FRAME_LENGTH - partialBlockFrames);
      }
    }
  }

  lemma {:induction false} FrontGrows<T>(s: seq<T>, a: nat, b: nat)
    requires a + b <= |s|
    ensures s[..a + b] == s[..a] + s[a..a + b]
  {
  }

  lemma {:induction false} FullThenLast(channels: nat, blocks: seq<seq<int>>, last: seq<int>, m: nat)
    requires channels > 0 && AllFull(channels, blocks) && |last| == Samples(channels, m) && m <= FRAME_LENGTH
    ensures FullButLast(channels, blocks)
    ensures m > 0 ==> FullButLast(channels, blocks + [last])
  {
    assert (blocks + [last])[..|blocks|] == blocks;
    if blocks != [] {
      assert |blocks[|blocks| - 1]| == Samples(channels, FRAME_LENGTH);
    }
  }

  lemma {:induction false} NoSamples(channels: nat)
    ensures Samples(channels, 0) == 0
  {
  }

  lemma {:induction false} FlatSnoc(blocks: seq<seq<int>>, block: seq<int>)
    ensures Flat(blocks + [block]) == Flat(blocks) + block
  {
    assert (blocks + [block])[..|blocks|] == blocks;
  }

  lemma {:induction false} EncodedSnoc(encode: seq<int> -> seq<byte>, blocks: seq<seq<int>>, block: seq<int>)
    ensures Encoded(encode, blocks + [block]) == Encoded(encode, blocks) + encode(block)
    ensures Lengths(encode, blocks + [block]) == Lengths(encode, blocks) + [|encode(block)|]
  {
    assert (blocks + [block])[..|blocks|] == blocks;
  }

  /** What the write loop copies when `m` frames are left to write. */
  lemma {:induction false} Portion(channels: nat, partial: nat, m: nat)
    requires channels > 0 && partial < FRAME_LENGTH && Samples(channels, m) > 0
    ensures var n := Least(FRAME_LENGTH - partial, m);
            var space := Samples(channels, FRAME_LENGTH - partial);
            && 0 < n <= m && space > 0
            && Samples(channels, n) == (if space > Samples(channels, m) then Samples(channels, m) else space)
            && Samples(channels, m) - Samples(channels, n) == Samples(channels, m - n)
            && FramesIn(channels, Samples(channels, n)) == n
            && Samples(channels, partial) + Samples(channels, n) == Samples(channels, partial + n)
            && Samples(channels, partial + n) <= Samples(channels, FRAME_LENGTH)
  {
    var n := Least(FRAME_LENGTH - partial, m);
    NoSamples(channels);
    SamplesGrow(channels, 0, FRAME_LENGTH - partial);
    SamplesGrow(channels, n, m);
    SamplesGrow(channels, n, FRAME_LENGTH - partial);
    SamplesAdd(channels, n, m - n);
    SamplesAdd(channels, partial, n);
    SamplesGrow(channels, partial + n, FRAME_LENGTH);
    SamplesDivide(channels, n);
  }
}
