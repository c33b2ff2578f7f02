/** An ALAC file from end to end: samples are written, the file is closed, opened again and read. */
module AlacSession {
  import opened Bits
  import opened Common
  import opened AlacTable
  import opened AlacStream
  import opened AlacSeek
  import opened AlacReader
  import opened AlacWriter
  import opened AlacRoundTrip

  datatype Codec = Codec(
    encode: seq<int> -> seq<byte>, decode: seq<byte> -> seq<int>, frames: seq<byte> -> nat)

  /** Whatever bytes it gets, the decoder gives whole frames, as many as it says. */
  ghost predicate Decodes(c: Codec, channels: nat) {
    forall p: seq<byte> :: |c.decode(p)| == Samples(channels, c.frames(p)) && c.frames(p) <= MAX_FRAMES
  }

  /** And it undoes the encoder on the blocks of these samples. */
  ghost predicate Works(c: Codec, channels: nat, xs: seq<int>)
    requires channels > 0
  {
    && Decodes(c, channels)
    && forall block :: block in Blocked(channels, xs) ==>
         0 < |c.encode(block)| <= BYTE_BUFFER && c.decode(c.encode(block)) == block
  }

  // ----- the blocks of the samples

  /** Samples cut into full blocks, with what is left in the last. */
  function Blocked(channels: nat, xs: seq<int>): seq<seq<int>>
    requires channels > 0
    decreases |xs|
  {
    var full := Samples(channels, FRAME_LENGTH);
    SamplesPositive(channels, FRAME_LENGTH);
    if xs == [] then [] else if |xs| <= full then [xs] else [xs[..full]] + Blocked(channels, xs[full..])
  }

  lemma {:induction false} FlatFront(blocks: seq<seq<int>>)
    requires blocks != []
    ensures Flat(blocks) == blocks[0] + Flat(blocks[1..])
    decreases |blocks|
  {
    hide Flat;
    var n := |blocks| - 1;
    assert blocks == blocks[..n] + [blocks[n]];
    FlatSnoc(blocks[..n], blocks[n]);
    if n == 0 {
      FlatNone();
      assert blocks[..n] == [] && blocks[1..] == [];
    } else {
      FlatFront(blocks[..n]);
      assert blocks[..n][1..] == blocks[1..n] && blocks[1..] == blocks[1..n] + [blocks[n]];
      FlatSnoc(blocks[1..n], blocks[n]);
      SeqAssociative(blocks[0], Flat(blocks[1..n]), blocks[n]);
    }
  }

  lemma {:induction false} FlatNone()
    ensures Flat([]) == []
  {
  }

  /** There is only one way to cut samples into blocks that are full but for the last. */
  lemma {:induction false} OneBlocking(channels: nat, blocks: seq<seq<int>>)
    requires channels > 0 && FullButLast(channels, blocks)
    ensures blocks == Blocked(channels, Flat(blocks))
    decreases |blocks|
  {
    hide Flat, Samples;
    var full := Samples(channels, FRAME_LENGTH);
    if blocks == [] {
      FlatNone();
    } else {
      FlatFront(blocks);
      FirstBlock(channels, blocks);
      var xs, rest := Flat(blocks), blocks[1..];
      if |blocks| == 1 {
        FlatNone();
        assert rest == [] && xs == blocks[0];
      } else {
        FlatFront(rest);
        FirstBlock(channels, rest);
        OneBlocking(channels, rest);
        assert xs[..full] == blocks[0] && xs[full..] == Flat(rest);
      }
      assert blocks == [blocks[0]] + rest;
    }
  }

  lemma {:induction false} FirstBlock(channels: nat, blocks: seq<seq<int>>)
    requires channels > 0 && FullButLast(channels, blocks) && blocks != []
    ensures 0 < |blocks[0]| <= Samples(channels, FRAME_LENGTH)
    ensures |blocks| > 1 ==> |blocks[0]| == Samples(channels, FRAME_LENGTH)
    ensures FullButLast(channels, blocks[1..])
  {
    var n := |blocks| - 1;
    SamplesPositive(channels, FRAME_LENGTH);
    if n > 0 {
      assert blocks[..n][0] == blocks[0];
      assert blocks[1..][..n - 1] == blocks[..n][1..];
    } else {
      var m :| 0 < m <= FRAME_LENGTH && |blocks[n]| == Samples(channels, m);
      SamplesPositive(channels, m);
      SamplesGrow(channels, m, FRAME_LENGTH);
    }
  }

  // ----- writing

  /** The bytes set aside for the packet table do not hold it. */
  predicate TableOverruns(channels: nat, encode: seq<int> -> seq<byte>, xs: seq<int>)
    requires channels > 0
  {
    Overruns(Lengths(encode, Blocked(channels, xs)))
  }

  lemma {:induction false} FlatLength(channels: nat, blocks: seq<seq<int>>)
    requires AllFull(channels, blocks)
    ensures |Flat(blocks)| == Samples(channels, FRAME_LENGTH * |blocks|)
    decreases |blocks|
  {
    if blocks == [] {
      NoSamples(channels);
    } else {
      var n := |blocks| - 1;
      FlatLength(channels, blocks[..n]);
      SamplesAdd(channels, FRAME_LENGTH * n, FRAME_LENGTH);
    }
  }

  /** The block that is being filled holds what full blocks leave over. */
  lemma {:induction false} PartialIsRest(
      channels: nat, blocks: seq<seq<int>>, rest: seq<int>, partial: nat, xs: seq<int>, n: nat)
    requires channels > 0 && AllFull(channels, blocks) && Flat(blocks) + rest == xs
    requires |rest| == Samples(channels, partial) && |xs| == Samples(channels, n) && partial < FRAME_LENGTH
    ensures partial == n % FRAME_LENGTH
  {
    hide Samples, Flat, AllFull;
    FlatLength(channels, blocks);
    SamplesAdd(channels, FRAME_LENGTH * |blocks|, partial);
    SamplesInjective(channels, FRAME_LENGTH * |blocks| + partial, n);
  }

  /** Write samples, whole frames, and close the file. Its header, of which only the packet table is
      modelled, ends where the data begin. */
  method WriteFile(channels: nat, codec: Codec, xs: seq<int>, ghost n: nat, header: seq<byte>, frames: nat)
      returns (file: seq<byte>, chunk: seq<byte>, overrun: bool, ghost blocks: seq<seq<int>>, ghost pakt: seq<byte>)
    requires channels > 0 && |xs| == Samples(channels, n) && Works(codec, channels, xs)
    ensures overrun == TableOverruns(channels, codec.encode, xs)
    ensures Flat(blocks) == xs && FullButLast(channels, blocks)
    ensures file == header + Encoded(codec.encode, blocks)
    ensures !overrun ==> |pakt| == HEADER && chunk == Stored(pakt + TableBytes(Lengths(codec.encode, blocks)))
    ensures !overrun && |blocks| < Pow256(8) && frames < Pow256(8) ==>
              Describes(chunk, |blocks|, frames, FRAME_LENGTH - n % FRAME_LENGTH)
  {
    hide Samples, Flat, FullButLast, Encoded, TableBytes, Header, Stored, Overruns, Blocked, Works, Encodable;
    hide AllFull, Describes, Pow256;
    var writer := new Writer(channels, codec.encode);
    var ptr := new int[|xs|](k requires 0 <= k < |xs| => xs[k]);
    assert ptr[..|xs|] == xs;
    var written := writer.WriteInts(ptr, |xs|, n);
    ghost var partial := writer.partialBlockFrames;
    assert [] + xs == xs;
    PartialIsRest(channels, writer.blocks, writer.buffer[..Samples(channels, partial)], partial, xs, n);
    var ok;
    chunk, ok, overrun := writer.Close(frames);
    blocks := writer.blocks;
    file := header + writer.enctmp;
    OneBlocking(channels, blocks);
    AllEncodable(channels, codec, blocks);
    pakt := if ok then Header(|blocks|, frames, FRAME_LENGTH - partial) else [];
  }

  lemma {:induction false} AllEncodable(channels: nat, codec: Codec, blocks: seq<seq<int>>)
    requires channels > 0 && FullButLast(channels, blocks) && Works(codec, channels, Flat(blocks))
    ensures Encodable(Lengths(codec.encode, blocks))
  {
    hide Flat, FullButLast, Blocked;
    OneBlocking(channels, blocks);
  }

  // ----- reading

  /** The file as its reader sees it. */
  function Opened(channels: nat, codec: Codec, file: seq<byte>, dataOffset: nat, sizes: seq<nat>): Source
    requires dataOffset <= |file|
  {
    Source(file, sizes, dataOffset, |file| - dataOffset, FRAME_LENGTH, channels, codec.frames, codec.decode)
  }

  /** Open a file: decode its packet table, count its frames and go to the first. */
  method OpenFile(channels: nat, codec: Codec, file: seq<byte>, dataOffset: nat, chunk: seq<byte>)
      returns (reader: Reader, counted: nat)
    requires channels > 0 && dataOffset <= |file| && Decodes(codec, channels)
    ensures reader.a == Opened(channels, codec, file, dataOffset, ReadTable(chunk, HEADER))
    ensures fresh(reader) && fresh(reader.pakt) && fresh(reader.buffer) && fresh(reader.pakt.packetSize)
    ensures reader.Valid()
    ensures exists c :: Fresh(c) && Fits(reader.a, c) && counted == CalcFrames(reader.a, c).frames
    ensures var a := reader.a; exists c :: Fits(a, c) && Seek(a, c, true, 0) == Sought(0, reader.Here())
  {
    hide Samples, ReadTable, CalcFrames, Seek;
    var paktData := new byte[|chunk| + 5](k => if 0 <= k < |chunk| then chunk[k] else 0);
    assert paktData[..|chunk|] == chunk;
    var pakt := PacketTable.ReadDecode(paktData, |chunk|);
    reader := new Reader(Opened(channels, codec, file, dataOffset, pakt.packetSize[..pakt.count]), pakt);
    ghost var a, c := reader.a, reader.Here();
    counted := reader.CalcFrames();
    assert Fresh(c) && Fits(a, c) && counted == CalcFrames(a, c).frames;
    ghost var d := reader.Here();
    var result := reader.Seek(true, 0);
    SeekToStart(a, d);
    assert Fits(a, d) && Seek(a, d, true, 0) == Sought(0, reader.Here());
  }

  lemma {:induction false} SeekToStart(a: Source, c: Cursor)
    requires a.perBlock > 0 && a.dataLength >= 0 && a.dataOffset >= 0
    ensures Seek(a, c, true, 0).result == 0
  {
  }

  lemma {:induction false} WrittenHolds(
      channels: nat, codec: Codec, header: seq<byte>, blocks: seq<seq<int>>, pakt: seq<byte>)
    requires channels > 0 && FullButLast(channels, blocks) && |pakt| == HEADER
    requires Works(codec, channels, Flat(blocks))
    ensures var sizes := ReadTable(Stored(pakt + TableBytes(Lengths(codec.encode, blocks))), HEADER);
            Holds(Opened(channels, codec, header + Encoded(codec.encode, blocks), |header|, sizes), codec.encode,
                  blocks, pakt)
  {
    hide Flat, FullButLast, Blocked, Encoded, ReadTable, Stored, TableBytes, Lengths, Samples;
    OneBlocking(channels, blocks);
  }

  lemma {:induction false} FramesWritten(a: Source, n: nat)
    requires WellFormed(a) && |From(a, 0)| == Samples(a.channels, n)
    ensures Total(a, 0) == n
  {
    hide Samples, From, Total;
    TotalCounts(a, 0);
    SamplesInjective(a.channels, Total(a, 0), n);
  }

  /** With two more blocks of room below 2^32 frames, neither the count nor a seek goes wrong. */
  lemma {:induction false} FewEnough(a: Source)
    requires WellFormed(a) && a.perBlock == FRAME_LENGTH && Total(a, 0) + 2 * FRAME_LENGTH < WORD
    requires Blocks(a) > 0
    ensures FullBlocks(a, |a.sizes|) < WORD
  {
    var n := Blocks(a) - 1;
    WholeFile(a);
    OneMoreBlock(a, n);
    OneMoreBlock(a, n + 1);
    FullBlocksGrow(a, |a.sizes|, n + 2);
    hide FullBlocks, FramesOf, Total;
  }

  /** A read that asks for no less than there is gets all of it. */
  lemma {:induction false} ReadWhole(a: Source, c: Cursor, m: nat)
    requires WellFormed(a) && InStep(a, c) && |Rest(a, c)| <= Samples(a.channels, m)
    ensures Sound(a) && Read(a, c, Samples(a.channels, m)).samples == Rest(a, c)
  {
    hide WellFormed, Sound, InStep, Rest, Samples, Read;
    WellFormedIsSound(a);
    InStepFits(a, c);
    ReadTakes(a, c, m);
    var t := Read(a, c, Samples(a.channels, m));
    assert t.samples + Rest(a, t.cursor) == Rest(a, c);
  }

  /** What a written file is, when its table fits. */
  lemma {:induction false} WrittenFile(
      channels: nat, codec: Codec, header: seq<byte>, blocks: seq<seq<int>>, pakt: seq<byte>, n: nat)
    requires channels > 0 && FullButLast(channels, blocks) && |pakt| == HEADER
    requires Works(codec, channels, Flat(blocks)) && |Flat(blocks)| == Samples(channels, n)
    ensures var sizes := ReadTable(Stored(pakt + TableBytes(Lengths(codec.encode, blocks))), HEADER);
            var a := Opened(channels, codec, header + Encoded(codec.encode, blocks), |header|, sizes);
            && WellFormed(a) && From(a, 0) == Flat(blocks) && Total(a, 0) == n
            && (n + 2 * FRAME_LENGTH < WORD && n > 0 ==> CountFits(a) && n <= SeekLimit(a))
  {
    hide FullButLast, Encoded, ReadTable, Stored, TableBytes, Lengths, Samples, Holds, Works, WellFormed, From, Flat;
    hide Total, CountFits, SeekLimit;
    WrittenHolds(channels, codec, header, blocks, pakt);
    var sizes := ReadTable(Stored(pakt + TableBytes(Lengths(codec.encode, blocks))), HEADER);
    var a := Opened(channels, codec, header + Encoded(codec.encode, blocks), |header|, sizes);
    WriteThenRead(a, codec.encode, blocks, pakt);
    FramesWritten(a, n);
    if n + 2 * FRAME_LENGTH < WORD && n > 0 {
      FramesInBlocks(a);
      FewEnough(a);
      WithinLimit(a);
    }
  }

  lemma {:induction false} FramesInBlocks(a: Source)
    requires Total(a, 0) > 0
    ensures Blocks(a) > 0
  {
  }

  lemma {:induction false} WithinLimit(a: Source)
    requires WellFormed(a) && FullBlocks(a, |a.sizes|) < WORD && Blocks(a) > 0
    ensures CountFits(a) && Total(a, 0) <= SeekLimit(a)
  {
    WholeFile(a);
    OneMoreBlock(a, Blocks(a) - 1);
    FullBlocksGrow(a, Blocks(a), |a.sizes|);
    hide FullBlocks, FramesOf, Total;
  }

  lemma {:induction false} WorkingDecodes(codec: Codec, channels: nat, xs: seq<int>)
    requires channels > 0 && Works(codec, channels, xs)
    ensures Decodes(codec, channels)
  {
  }

  /** Read samples from where the reader is. */
  method ReadAhead(reader: Reader, len: nat) returns (samples: seq<int>)
    requires reader.Valid()
    modifies reader, reader.pakt`current, reader.buffer
    ensures reader.Valid()
    ensures Taken(samples, reader.Here()) == Read(reader.a, old(reader.Here()), len)
  {
    hide Read, Samples, Sound;
    var ptr := new int[len](_ => 0);
    var total := reader.ReadInts(ptr, len);
    samples := ptr[..total];
  }

  lemma {:induction false} AtStart(a: Source, c: Cursor, d: Cursor)
    requires WellFormed(a) && Fits(a, c) && Seek(a, c, true, 0) == Sought(0, d)
    ensures InStep(a, d) && Rest(a, d) == From(a, 0)
  {
    hide WellFormed, Fits, Seek, Rest, From;
    SeekStart(a, c);
  }

  /** Write samples, close the file, open it again, read it, and read it once more from frame `f` on.
      Unless its packet table overruns the room set aside for it, everything written is read; with two
      blocks of room below 2^32 frames, the frames are counted rightly and the seek lands. */
  method WriteCloseRead(channels: nat, codec: Codec, xs: seq<int>, ghost n: nat, header: seq<byte>, f: nat)
      returns (overrun: bool, counted: nat, ys: seq<int>, zs: seq<int>)
    requires channels > 0 && |xs| == Samples(channels, n) && Works(codec, channels, xs) && header != []
    ensures overrun == TableOverruns(channels, codec.encode, xs)
    ensures !overrun ==> ys == xs
    ensures !overrun && f < n && n + 2 * FRAME_LENGTH < WORD ==>
              counted == n && Samples(channels, f) <= |xs| && zs == xs[Samples(channels, f)..]
  {
    hide Samples, Flat, FullButLast, Encoded, TableBytes, Header, Stored, ReadTable, Lengths, TableOverruns, Works;
    hide Read, Seek, CalcFrames, WellFormed, From, Rest, Total, InStep, CountFits, SeekLimit, FramesIn;
    assert Decodes(codec, channels) by { WorkingDecodes(codec, channels, xs); }
    ghost var blocks, pakt;
    var file, chunk;
    file, chunk, overrun, blocks, pakt := WriteFile(channels, codec, xs, n, header, FramesIn(channels, |xs|));
    counted, ys, zs := 0, [], [];
    if overrun {
      return;
    }
    var reader;
    reader, counted := OpenFile(channels, codec, file, |header|, chunk);
    ghost var a := reader.a;
    WrittenFile(channels, codec, header, blocks, pakt, n);
    assert WellFormed(a) && From(a, 0) == xs;
    ghost var c :| Fits(a, c) && Seek(a, c, true, 0) == Sought(0, reader.Here());
    AtStart(a, c, reader.Here());
    ReadWhole(a, reader.Here(), n);
    ys := ReadAhead(reader, |xs|);
    ghost var d :| Fresh(d) && Fits(a, d) && counted == CalcFrames(a, d).frames;
    CalcFramesCounts(a, d);
    ghost var e := reader.Here();
    var result := reader.Seek(true, f);
    if f < n && n + 2 * FRAME_LENGTH < WORD {
      SeekLands(a, e, f);
      ReadWhole(a, reader.Here(), n);
    }
    zs := ReadAhead(reader, |xs|);
  }
}
