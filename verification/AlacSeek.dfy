/** Why seeking in an ALAC file agrees with reading from the start, when the frames counted at opening
    are those it has, and a file too long for either. */
module AlacSeek {
  import opened Bits
  import opened Common
  import opened AlacTable
  import opened AlacStream

  // ----- seeking

  lemma {:induction false} OneMoreBlock(a: Source, k: nat)
    ensures FullBlocks(a, k + 1) == FullBlocks(a, k) + a.perBlock
  {
  }

  lemma {:induction false} SkipBlocks(a: Source, k: nat) returns (before: seq<int>)
    requires WellFormed(a) && k < Blocks(a)
    ensures From(a, 0) == before + From(a, k) && |before| == Samples(a.channels, FullBlocks(a, k))
    ensures Total(a, 0) == FullBlocks(a, k) + Total(a, k)
  {
    if k == 0 {
      before := [];
    } else {
      var earlier := SkipBlocks(a, k - 1);
      var block := a.decode(Packet(a, k - 1));
      before := earlier + block;
      assert FramesOf(a, k - 1) == a.perBlock;
      OneMoreBlock(a, k - 1);
      SamplesAdd(a.channels, FullBlocks(a, k - 1), a.perBlock);
      assert From(a, k - 1) == block + From(a, k);
      hide From;
      assert earlier + (block + From(a, k)) == before + From(a, k);
    }
  }

  lemma {:induction false} TotalCounts(a: Source, k: nat)
    requires Sound(a)
    ensures |From(a, k)| == Samples(a.channels, Total(a, k))
    decreases |a.sizes| - k
  {
    if k < Blocks(a) {
      TotalCounts(a, k + 1);
      SamplesAdd(a.channels, FramesOf(a, k), Total(a, k + 1));
    }
  }

  /** A frame below the total lies in the block its number says, at the place its number says. */
  lemma {:induction false} FrameInBlock(a: Source, f: nat)
    requires WellFormed(a) && f < Total(a, 0)
    ensures BlockOf(a, f) < Blocks(a) && PlaceOf(a, f) < FramesOf(a, BlockOf(a, f))
    ensures FullBlocks(a, BlockOf(a, f)) + PlaceOf(a, f) == f <= FullBlocks(a, |a.sizes|)
  {
    assert Blocks(a) > 0;
    WholeFile(a);
    var n := Blocks(a) - 1;
    Locate(a, f, n, FramesOf(a, n));
    FullBlocksGrow(a, n + 1, |a.sizes|);
    hide FullBlocks, BlockOf, PlaceOf, Total, FramesOf;
  }

  lemma {:induction false} WholeFile(a: Source)
    requires WellFormed(a) && Blocks(a) > 0
    ensures Total(a, 0) == FullBlocks(a, Blocks(a) - 1) + FramesOf(a, Blocks(a) - 1)
  {
    hide FullBlocks;
    var n := Blocks(a) - 1;
    var before := SkipBlocks(a, n);
    assert Total(a, n) == FramesOf(a, n) + Total(a, n + 1) == FramesOf(a, n);
  }

  lemma {:induction false} Locate(a: Source, f: nat, n: nat, last: nat)
    requires 0 < a.perBlock && last <= a.perBlock && f < FullBlocks(a, n) + last
    ensures BlockOf(a, f) <= n && PlaceOf(a, f) < a.perBlock && (BlockOf(a, f) == n ==> PlaceOf(a, f) < last)
    ensures FullBlocks(a, BlockOf(a, f)) + PlaceOf(a, f) == f <= FullBlocks(a, n + 1)
  {
    var d, q := a.perBlock, f / a.perBlock;
    assert q * d + f % d == f && (q - n) * d == q * d - n * d;
    SmallMultiple(q - n, d);
    assert (n + 1) * d == n * d + d;
  }

  lemma {:induction false} FullBlocksGrow(a: Source, m: nat, n: nat)
    requires m <= n
    ensures FullBlocks(a, m) <= FullBlocks(a, n)
  {
    assert (n - m) * a.perBlock == n * a.perBlock - m * a.perBlock;
  }

  /** A seek below the total that the 32-bit limit lets through leaves exactly the samples from that
      frame on to be read; one beyond the limit is refused and moves nothing. */
  lemma {:induction false} SeekLands(a: Source, c: Cursor, f: nat)
    requires WellFormed(a) && Fits(a, c) && f < Total(a, 0)
    ensures var s := Seek(a, c, true, f);
            && (f <= SeekLimit(a) ==>
                 s.result == f && InStep(a, s.cursor)
                 && Samples(a.channels, f) <= |From(a, 0)| && Rest(a, s.cursor) == From(a, 0)[Samples(a.channels, f)..])
            && (f > SeekLimit(a) ==> s.result == BAD_SEEK && s.cursor == c)
    ensures FullBlocks(a, |a.sizes|) < WORD ==> f <= SeekLimit(a)
  {
    FrameInBlock(a, f);
    TotalCounts(a, 0);
    SamplesGrow(a.channels, f, Total(a, 0));
    if f == 0 {
      SeekStart(a, c);
    } else if f <= SeekLimit(a) {
      SeekInside(a, c, f);
    }
  }

  lemma {:induction false} SeekStart(a: Source, c: Cursor)
    requires WellFormed(a) && Fits(a, c)
    ensures var s := Seek(a, c, true, 0);
            s.result == 0 && InStep(a, s.cursor) && Samples(a.channels, 0) == 0 && Rest(a, s.cursor) == From(a, 0)
  {
    hide From;
  }

  lemma {:induction false} SeekDecodes(a: Source, c: Cursor, f: nat)
    requires WellFormed(a) && Fits(a, c) && 0 < f <= SeekLimit(a) && BlockOf(a, f) < Blocks(a)
    ensures var s := Seek(a, c, true, f);
            var q := BlockOf(a, f);
            && s.result == f && InStep(a, s.cursor)
            && s.cursor.current == q + 1 && s.cursor.block == a.decode(Packet(a, q))
            && s.cursor.frames == FramesOf(a, q) && s.cursor.partial == PlaceOf(a, f)
  {
    hide BlockOf, PlaceOf, SeekLimit, Samples;
    var q := BlockOf(a, f);
    FetchInStep(a, c.(pos := a.dataOffset + Offset(a.sizes, q), current := q));
    hide Fetch;
  }

  lemma {:induction false} SeekInside(a: Source, c: Cursor, f: nat)
    requires WellFormed(a) && Fits(a, c) && 0 < f < Total(a, 0) && f <= SeekLimit(a)
    requires Samples(a.channels, f) <= |From(a, 0)|
    ensures var s := Seek(a, c, true, f);
            s.result == f && InStep(a, s.cursor) && Rest(a, s.cursor) == From(a, 0)[Samples(a.channels, f)..]
  {
    hide BlockOf, PlaceOf, SeekLimit, Samples, FullBlocks;
    FrameInBlock(a, f);
    var q, r := BlockOf(a, f), PlaceOf(a, f);
    SeekDecodes(a, c, f);
    var before := SkipBlocks(a, q);
    var block := a.decode(Packet(a, q));
    assert From(a, q) == block + From(a, q + 1);
    SamplesAdd(a.channels, FullBlocks(a, q), r);
    SamplesGrow(a.channels, r, FramesOf(a, q));
    hide Seek, WellFormed, From, FramesOf, Packet;
    DropInto(before, block, From(a, q + 1), Samples(a.channels, r));
  }

  lemma {:induction false} DropInto<T>(before: seq<T>, block: seq<T>, after: seq<T>, n: nat)
    requires n <= |block|
    ensures (before + (block + after))[|before| + n..] == block[n..] + after
  {
  }

  /** Seek to a frame and read in any split: the same as reading from the start without its first
      frames. */
  lemma {:induction false} SeekAgrees(a: Source, c: Cursor, f: nat, ms: seq<nat>)
    requires WellFormed(a) && Fits(a, c) && f < Total(a, 0) && f <= SeekLimit(a)
    ensures var s := Seek(a, c, true, f);
            && s.result == f && Fits(a, s.cursor) && Samples(a.channels, f) <= |From(a, 0)|
            && var after := From(a, 0)[Samples(a.channels, f)..];
               ReadMany(a, s.cursor, ms).samples == after[..Least(Samples(a.channels, Sum(ms)), |after|)]
  {
    WellFormedIsSound(a);
    hide WellFormed, Sound, Seek, SeekLimit, From, ReadMany, Total, Rest, InStep, Samples;
    SeekLands(a, c, f);
    var s := Seek(a, c, true, f).cursor;
    ReadManyTakes(a, s, ms);
    var r := ReadMany(a, s, ms);
    ServedInStep(a, s, Sum(ms), r);
    TakenFront(Rest(a, s), r.samples, Rest(a, r.cursor), Samples(a.channels, Sum(ms)));
  }

  lemma {:induction false} TakenFront<T>(all: seq<T>, front: seq<T>, rest: seq<T>, n: nat)
    requires all == front + rest && (|front| == n || (|front| <= n && rest == []))
    ensures front == all[..Least(n, |all|)]
  {
  }

  // ----- counting the frames

  lemma {:induction false} WalkSeesAll(a: Source, k: nat)
    requires WellFormed(a) && a.dataOffset > 0 && k <= Blocks(a)
    ensures Walk(a, k) == |a.sizes|
    decreases |a.sizes| - k
  {
    if k < Blocks(a) {
      PacketInFile(a, k);
      WalkSeesAll(a, k + 1);
    }
  }

  /** How the count comes about: full blocks in 32 bits, then two decodes. */
  lemma {:induction false} CalcFramesSteps(a: Source, c: Cursor)
    requires WellFormed(a) && a.dataOffset > 0 && Blocks(a) > 0
    ensures var frames := FullBlocks(a, Blocks(a) - 1) % WORD;
            var found := Seek(a, c.(current := |a.sizes|), true, frames).cursor;
            var last := Fetch(a, found).cursor;
            CalcFrames(a, c) == Counted(frames + last.frames, last.(current := 0))
  {
    WalkSeesAll(a, 0);
    PacketInFile(a, 0);
    hide Seek, Fetch, Walk, FullBlocks;
  }

  lemma {:induction false} AtFullBlock(a: Source, n: nat)
    requires a.perBlock > 0
    ensures BlockOf(a, FullBlocks(a, n)) == n && PlaceOf(a, FullBlocks(a, n)) == 0
    ensures FullBlocks(a, n) == 0 <==> n == 0
  {
    DivUnique(FullBlocks(a, n), a.perBlock, n, 0);
    SmallMultiple(n, a.perBlock);
  }

  lemma {:induction false} LastAfterSeek(a: Source, c: Cursor)
    requires WellFormed(a) && Fits(a, c) && Blocks(a) > 0 && FullBlocks(a, Blocks(a) - 1) <= SeekLimit(a)
    ensures var found := Seek(a, c, true, FullBlocks(a, Blocks(a) - 1)).cursor;
            Fetch(a, found).cursor.frames == FramesOf(a, Blocks(a) - 1)
  {
    var n := Blocks(a) - 1;
    AtFullBlock(a, n);
    var f := FullBlocks(a, n);
    hide FullBlocks, BlockOf, PlaceOf, SeekLimit, FramesOf, Samples;
    if n == 0 {
      SeekStart(a, c);
    } else {
      SeekDecodes(a, c, f);
    }
    hide Fetch, WellFormed;
    FetchInStep(a, Seek(a, c, true, f).cursor);
  }

  lemma {:induction false} FetchedFrames(a: Source, c: Cursor)
    requires Sound(a) && c.frames <= MAX_FRAMES
    ensures Fetch(a, c).cursor.frames <= MAX_FRAMES
  {
  }

  lemma {:induction false} SeekFrames(a: Source, c: Cursor, f: int)
    requires Sound(a) && c.frames <= MAX_FRAMES
    ensures Seek(a, c, true, f).cursor.frames <= MAX_FRAMES
  {
  }

  /** When the count comes out right: with one packet at most, or when the frames of all table entries,
      counted as full blocks, stay below 2^32; a last packet without frames leaves one more case. */
  predicate CountFits(a: Source) {
    || Blocks(a) <= 1
    || FullBlocks(a, |a.sizes|) < WORD
    || (FramesOf(a, Blocks(a) - 1) == 0 && FullBlocks(a, Blocks(a) - 1) < WORD)
  }

  /** The count is the number of frames in all packets exactly then. */
  lemma {:induction false} CalcFramesCounts(a: Source, c: Cursor)
    requires WellFormed(a) && a.dataOffset > 0 && Fresh(c) && Fits(a, c)
    ensures CalcFrames(a, c).frames == Total(a, 0) <==> CountFits(a)
    ensures Blocks(a) > 0 ==> CalcFrames(a, c).cursor.current == 0
  {
    hide Sound, Fresh, Samples, BlockOf, PlaceOf, Seek, Fetch, CalcFrames, FramesOf, Total, FullBlocks, SeekLimit;
    if Blocks(a) == 0 {
      NoBlocksNoFrames(a, c);
    } else {
      WholeFile(a);
      CalcFramesSteps(a, c);
      var d := c.(current := |a.sizes|);
      if Blocks(a) == 1 || FullBlocks(a, |a.sizes|) < WORD {
        FewFrames(a);
        LastAfterSeek(a, d);
      } else {
        hide WellFormed;
        assert d.frames == 0 by { FreshHasNone(c); }
        TooManyFrames(a, d);
      }
    }
  }

  lemma {:induction false} FreshHasNone(c: Cursor)
    requires Fresh(c)
    ensures c.frames == 0
  {
  }

  lemma {:induction false} FewFrames(a: Source)
    requires WellFormed(a) && Blocks(a) > 0
    requires Blocks(a) == 1 || FullBlocks(a, |a.sizes|) < WORD
    ensures var f := FullBlocks(a, Blocks(a) - 1); f % WORD == f <= SeekLimit(a)
  {
    AtFullBlock(a, Blocks(a) - 1);
    FullBlocksGrow(a, Blocks(a) - 1, |a.sizes|);
    hide FullBlocks, WellFormed;
  }

  lemma {:induction false} RefusedSeek(a: Source, d: Cursor, f: nat)
    requires a.perBlock > 0 && f > SeekLimit(a)
    ensures Seek(a, d, true, f).cursor == d
  {
    hide SeekLimit, Fetch, BlockOf, PlaceOf;
  }

  lemma {:induction false} LimitWraps(a: Source)
    requires Sound(a) && Blocks(a) > 1
    requires FullBlocks(a, Blocks(a) - 1) < WORD <= FullBlocks(a, |a.sizes|)
    ensures SeekLimit(a) < FullBlocks(a, Blocks(a) - 1)
  {
    var n := Blocks(a) - 1;
    OneMoreBlock(a, n);
    OneMoreBlock(a, n + 1);
    AtFullBlock(a, n);
    hide FullBlocks;
    assert FullBlocks(a, |a.sizes|) - WORD < FullBlocks(a, n);
  }

  lemma {:induction false} TooManyFrames(a: Source, d: Cursor)
    requires WellFormed(a) && Blocks(a) > 1 && FullBlocks(a, |a.sizes|) >= WORD
    requires d.frames == 0 && d.current == |a.sizes|
    ensures var f, last := FullBlocks(a, Blocks(a) - 1), FramesOf(a, Blocks(a) - 1);
            f % WORD + Fetch(a, Seek(a, d, true, f % WORD).cursor).cursor.frames == f + last <==>
            last == 0 && f < WORD
  {
    hide FullBlocks, Blocks, FramesOf, Seek, SeekLimit;
    var f := FullBlocks(a, Blocks(a) - 1);
    SeekFrames(a, d, f % WORD);
    FetchedFrames(a, Seek(a, d, true, f % WORD).cursor);
    if f < WORD {
      LimitWraps(a);
      RefusedSeek(a, d, f);
    }
  }

  lemma {:induction false} NoBlocksNoFrames(a: Source, c: Cursor)
    requires WellFormed(a) && Blocks(a) == 0
    ensures CalcFrames(a, c).frames == 0 == Total(a, 0)
  {
  }

  // ----- a file too long for 32 bits

  /** A file of `n` packets of one byte, each of which decodes to 4096 frames of silence. */
  function LongFile(n: nat): Source {
    Source(seq(n + 1, _ => 0), seq(n, _ => 1), 1, n, FRAME_LENGTH, 1, _ => FRAME_LENGTH, _ => seq(FRAME_LENGTH, _ => 0))
  }

  lemma {:induction false} OffsetInLongFile(n: nat, k: nat)
    requires k <= n
    ensures Offset(LongFile(n).sizes, k) == k
  {
    if k > 0 {
      OffsetInLongFile(n, k - 1);
    }
  }

  lemma {:induction false} LongFileIsWellFormed(n: nat)
    requires n > 0
    ensures WellFormed(LongFile(n)) && Blocks(LongFile(n)) == n == |LongFile(n).sizes|
    ensures Total(LongFile(n), 0) == n * FRAME_LENGTH == FullBlocks(LongFile(n), n)
  {
    var a := LongFile(n);
    OffsetInLongFile(n, n);
    WholeFile(a);
    OneMoreBlock(a, n - 1);
  }

  /** With more than 2^20 packets such a file is well formed, its last frame cannot be sought, and the
      frames counted at opening are not those it has. */
  lemma {:induction false} LongFileFails(n: nat, c: Cursor)
    requires n > 0x10_0000 && Fresh(c)
    ensures var a := LongFile(n);
            && WellFormed(a) && Total(a, 0) > WORD
            && Seek(a, c, true, Total(a, 0) - 1) == Sought(BAD_SEEK, c)
            && CalcFrames(a, c).frames != Total(a, 0)
  {
    var a := LongFile(n);
    LongFileIsWellFormed(n);
    hide WellFormed, Seek, CalcFrames, Total, CountFits, LongFile, SeekLimit, Fresh, Fits;
    SeekLands(a, c, Total(a, 0) - 1);
    CalcFramesCounts(a, c);
  }
}
