/** The reader of an ALAC file, updated in place: each method is tied to a function of module
    AlacStream. */
module AlacReader {
  import opened Bits
  import opened Common
  import opened AlacTable
  import opened AlacStream

  class Reader {
    /** The file and the codec. */
    const a: Source
    const pakt: PacketTable
    /** The samples of the decoded block. */
    const buffer: array<int>
    var inputDataPos: int
    var framesThisBlock: nat
    var partialBlockFrames: nat

    ghost predicate Valid()
      reads this, pakt, pakt.packetSize, buffer
    {
      && Sound(a) && pakt.Valid() && pakt.Sizes() == a.sizes
      && pakt.packetSize as object != buffer as object
      && buffer.Length == Samples(a.channels, MAX_FRAMES) && framesThisBlock <= MAX_FRAMES
      && Samples(a.channels, framesThisBlock) <= buffer.Length
    }

    ghost function Here(): (c: Cursor)
      requires Valid()
      reads this, pakt, pakt.packetSize, buffer
      ensures Fits(a, c)
    {
      var block := buffer[..Samples(a.channels, framesThisBlock)];
      Cursor(pakt.current, inputDataPos, block, framesThisBlock, partialBlockFrames)
    }

    constructor (a: Source, pakt: PacketTable)
      requires Sound(a) && pakt.Valid() && pakt.Sizes() == a.sizes
      ensures Valid() && this.a == a && this.pakt == pakt && fresh(buffer)
      ensures Fresh(Here()) && pakt.current == old(pakt.current)
    {
      this.a, this.pakt := a, pakt;
      buffer := new int[Samples(a.channels, MAX_FRAMES)](_ => 0);
      inputDataPos, framesThisBlock, partialBlockFrames := 0, 0, 0;
      new;
      SamplesGrow(a.channels, 0, MAX_FRAMES);
    }

    /** Decode the next packet into the buffer. */
    method DecodeBlock() returns (ok: bool)
      requires Valid()
      modifies this, pakt`current, buffer
      ensures Valid() && Fetched(ok, Here()) == Fetch(a, old(Here()))
    {
      var packetSize := pakt.NextPacketSize();
      if packetSize == 0 {
        return false;
      }
      if packetSize > BYTE_BUFFER {
        return false;
      }
      if inputDataPos < 0 || inputDataPos + packetSize > |a.file| {
        return false;
      }
      var packet := a.file[inputDataPos..inputDataPos + packetSize];
      inputDataPos := inputDataPos + packetSize;
      Store(packet);
      partialBlockFrames := 0;
      ok := true;
    }

    /** The decoder's output goes to the front of the buffer. */
    method Store(packet: seq<byte>)
      requires Valid()
      modifies this`framesThisBlock, buffer
      ensures Valid() && framesThisBlock == a.frames(packet)
      ensures buffer[..Samples(a.channels, framesThisBlock)] == a.decode(packet)
    {
      var samples := a.decode(packet);
      framesThisBlock := a.frames(packet);
      SamplesGrow(a.channels, framesThisBlock, MAX_FRAMES);
      hide Samples;
      for k := 0 to |samples|
        modifies buffer
        invariant buffer[..k] == samples[..k]
      {
        buffer[k] := samples[k];
      }
    }

    /** The body of the read loop: copy out what is left of the block, but no more than `len`. */
    method TakeInts(ptr: array<int>, total: nat, len: nat) returns (readCount: nat)
      requires Valid() && total + len <= ptr.Length && ptr != buffer && ptr as object != pakt.packetSize as object
      requires partialBlockFrames <= framesThisBlock
      modifies this`partialBlockFrames, ptr
      ensures Valid()
      ensures var t := TakeSome(a, old(Here()), len);
              && readCount == |t.samples| && total + readCount <= ptr.Length
              && ptr[..total + readCount] == old(ptr[..total]) + t.samples
              && (forall k :: total + readCount <= k < ptr.Length ==> ptr[k] == old(ptr[k]))
              && Here() == t.cursor
    {
      hide Samples, TakeSome, Sound, FramesIn;
      readCount := Samples(a.channels, framesThisBlock - partialBlockFrames);
      readCount := if readCount > len then len else readCount;
      var from := Samples(a.channels, partialBlockFrames);
      TakenPart(a, Here(), len);
      CopyInts(ptr, total, from, readCount);
      partialBlockFrames := partialBlockFrames + FramesIn(a.channels, readCount);
    }

    method CopyInts(ptr: array<int>, total: nat, from: nat, count: nat)
      requires total + count <= ptr.Length && from + count <= buffer.Length && ptr != buffer
      modifies ptr
      ensures ptr[..total + count] == old(ptr[..total]) + buffer[from..from + count]
      ensures forall k :: total + count <= k < ptr.Length ==> ptr[k] == old(ptr[k])
    {
      for k := 0 to count
        invariant ptr[..total] == old(ptr[..total])
        invariant ptr[total..total + k] == buffer[from..from + k]
        invariant forall k :: total + count <= k < ptr.Length ==> ptr[k] == old(ptr[k])
      {
        ptr[total + k] := buffer[from + k];
      }
      assert ptr[..total + count] == ptr[..total] + ptr[total..total + count];
    }

    /** Read `len` samples into `ptr`; the number read is returned. */
    method ReadInts(ptr: array<int>, len: nat) returns (total: nat)
      requires Valid() && len <= ptr.Length && ptr != buffer && ptr as object != pakt.packetSize as object
      modifies this, pakt`current, buffer, ptr
      ensures Valid() && total <= len
      ensures Taken(ptr[..total], Here()) == Read(a, old(Here()), len)
      ensures forall k :: total <= k < ptr.Length ==> ptr[k] == old(ptr[k])
    {
      hide Fetch, TakeSome, Samples, Sound, Fits, Read, Joined;
      total := 0;
      var left := len;
      ghost var all := Read(a, Here(), len);
      JoinedNothing(all);
      while left > 0
        invariant Valid() && total + left == len
        invariant Joined(ptr[..total], Read(a, Here(), left)) == all
        invariant forall k :: total <= k < ptr.Length ==> ptr[k] == old(ptr[k])
        decreases |a.sizes| - pakt.current, left
      {
        ghost var front := ptr[..total];
        var readCount, more, t := ReadRound(ptr, total, left);
        if !more {
          JoinedNone(front, Here());
          return;
        }
        total := total + readCount;
        left := left - readCount;
        JoinedMore(front, t, Read(a, Here(), left));
      }
      ReadNothing(a, Here());
      JoinedNone(ptr[..total], Here());
    }

    /** One round of the read loop; `more` tells whether there was something to decode. */
    method ReadRound(ptr: array<int>, total: nat, left: nat) returns (readCount: nat, more: bool, ghost t: seq<int>)
      requires Valid() && left > 0 && total + left <= ptr.Length
      requires ptr != buffer && ptr as object != pakt.packetSize as object
      modifies this, pakt`current, buffer, ptr
      ensures Valid() && readCount == |t| <= left
      ensures !more ==> t == [] && unchanged(ptr) && Read(a, old(Here()), left) == Taken([], Here())
      ensures more ==> ptr[..total + readCount] == old(ptr[..total]) + t
      ensures more ==> var rest := Read(a, Here(), left - readCount);
                       Read(a, old(Here()), left) == Taken(t + rest.samples, rest.cursor)
      ensures more && old(pakt.current) != pakt.current ==> old(pakt.current) < pakt.current <= |a.sizes|
      ensures more && old(pakt.current) == pakt.current ==> readCount > 0
      ensures forall k :: total + readCount <= k < ptr.Length ==> ptr[k] == old(ptr[k])
    {
      hide Fetch, TakeSome, Samples, Sound, Read;
      ghost var c := Here();
      readCount, more, t := 0, true, [];
      if partialBlockFrames >= framesThisBlock {
        more := DecodeBlock();
        if !more {
          ReadFails(a, c, left);
          return;
        }
        FetchAdvances(a, c);
      }
      ReadRecurs(a, c, Here(), left);
      TakesSome(a, Here(), left);
      t := TakeSome(a, Here(), left).samples;
      readCount := TakeInts(ptr, total, left);
    }

    /** Go to frame `offset`. */
    method Seek(reading: bool, offset: int) returns (result: int)
      requires Valid()
      modifies this, pakt`current, buffer
      ensures Valid() && Sought(result, Here()) == AlacStream.Seek(a, old(Here()), reading, offset)
    {
      hide Fetch, FullBlocks, BlockOf, PlaceOf, Samples, Sound;
      PerBlockPositive();
      if a.dataLength < 0 || a.dataOffset < 0 {
        return BAD_SEEK;
      }
      if offset == 0 {
        NoItems();
        framesThisBlock := 0;
        inputDataPos := a.dataOffset;
        pakt.current := 0;
        return 0;
      }
      if offset < 0 || offset > FullBlocks(a, pakt.count) % WORD {
        return BAD_SEEK;
      }
      var newBlock, newSample := BlockOf(a, offset), PlaceOf(a, offset);
      SeekInTable(a, offset);
      if !reading {
        return BAD_SEEK;
      }
      var blockOffset := pakt.BlockOffset(newBlock);
      inputDataPos := a.dataOffset + blockOffset;
      pakt.current := newBlock;
      var ok := DecodeBlock();
      partialBlockFrames := newSample;
      BlockAndPlace(a, offset);
      result := FullBlocks(a, newBlock) + newSample;
    }

    lemma {:induction false} PerBlockPositive()
      requires Sound(a)
      ensures a.perBlock > 0 && a.channels > 0
    {
    }

    lemma {:induction false} NoItems()
      ensures Samples(a.channels, 0) == 0
    {
    }

    /** Count the frames of the file. */
    method CalcFrames() returns (frames: nat)
      requires Valid()
      modifies this, pakt`current, buffer
      ensures Valid() && a.perBlock > 0
      ensures Counted(frames, Here()) == AlacStream.CalcFrames(a, old(Here()))
    {
      hide Fetch, FullBlocks, AlacStream.Seek, Samples, Sound;
      PerBlockPositive();
      ghost var c := Here();
      ghost var walked := if |a.file| <= 1 then 0 else Walk(a, 0);
      var currentPos, blocks := 1, 0;
      pakt.current := 0;
      while currentPos < |a.file| && currentPos > 0
        modifies pakt`current
        invariant pakt.current <= |a.sizes|
        invariant blocks > 0 ==> blocks <= |a.sizes| && a.sizes[blocks - 1] != 0
        invariant currentPos < |a.file| && currentPos > 0 ==> blocks == pakt.current && Walk(a, blocks) == walked
        invariant !(currentPos < |a.file| && currentPos > 0) ==>
          pakt.current == walked && blocks == if walked > 0 && a.sizes[walked - 1] == 0 then walked - 1 else walked
        decreases currentPos > 0, |a.sizes| - pakt.current
      {
        currentPos := pakt.NextPacketSize();
        blocks := if currentPos > 0 then blocks + 1 else blocks;
      }
      assert Here() == c.(current := walked);
      if blocks == 0 {
        return 0;
      }
      frames := FullBlocks(a, blocks - 1) % WORD;
      var r := Seek(true, frames);
      var ok := DecodeBlock();
      frames := frames + framesThisBlock;
      ghost var last := Here();
      pakt.current := 0;
      assert Here() == last.(current := 0);
    }
  }

  function Joined(front: seq<int>, t: Taken): Taken {
    Taken(front + t.samples, t.cursor)
  }

  lemma {:induction false} ReadNothing(a: Source, c: Cursor)
    requires Sound(a) && Fits(a, c)
    ensures Read(a, c, 0) == Taken([], c)
  {
  }

  lemma {:induction false} JoinedNothing(t: Taken)
    ensures Joined([], t) == t
  {
  }

  /** Where the read loop finds the samples it copies. */
  lemma {:induction false} TakenPart(a: Source, c: Cursor, len: nat)
    requires Fits(a, c) && c.partial <= c.frames
    ensures var from, n := Samples(a.channels, c.partial), Least(Samples(a.channels, c.frames - c.partial), len);
            && from + n <= |c.block|
            && TakeSome(a, c, len) == Taken(c.block[from..from + n], c.(partial := c.partial + FramesIn(a.channels, n)))
  {
    SamplesAdd(a.channels, c.partial, c.frames - c.partial);
    TakenFrames(a.channels, c.frames - c.partial, Least(Samples(a.channels, c.frames - c.partial), len));
  }

  lemma {:induction false} TakesSome(a: Source, c: Cursor, len: nat)
    requires Fits(a, c) && c.partial <= c.frames && len > 0
    ensures c.partial < c.frames ==> |TakeSome(a, c, len).samples| > 0
  {
    if c.partial < c.frames {
      SamplesPositive(a.channels, c.frames - c.partial);
    }
  }

  lemma {:induction false} JoinedNone(front: seq<int>, c: Cursor)
    ensures Joined(front, Taken([], c)) == Taken(front, c)
  {
  }

  lemma {:induction false} JoinedMore(front: seq<int>, some: seq<int>, rest: Taken)
    ensures Joined(front + some, rest) == Joined(front, Taken(some + rest.samples, rest.cursor))
  {
    assert (front + some) + rest.samples == front + (some + rest.samples);
  }
}
