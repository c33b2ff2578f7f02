/** Reading an ALAC file through its packet table: the reader's state and operations as functions,
    and what a read hands out. The per-packet codec is a parameter. */
module AlacStream {
  import opened Bits
  import opened Common
  import opened AlacTable

  const BYTE_BUFFER := 0x10_0000
  const MAX_FRAMES := 8192
  const FRAME_LENGTH := 4096
  const WORD := 0x1_0000_0000

  /** What does not change while a file is read. A packet decodes to `frames` frames of one sample
      per channel. */
  datatype Source = Source(
    file: seq<byte>, sizes: seq<nat>, dataOffset: int, dataLength: int, perBlock: nat, channels: nat,
    frames: seq<byte> -> nat, decode: seq<byte> -> seq<int>)

  /** Where the reader is: the next packet and its place in the file, the decoded block, and the
      frames of it already handed out. */
  datatype Cursor = Cursor(current: nat, pos: int, block: seq<int>, frames: nat, partial: nat)

  /** Samples in `n` frames. */
  function Samples(channels: nat, n: nat): nat {
    n * channels
  }

  /** Whole frames in `n` samples. */
  function FramesIn(channels: nat, n: nat): nat
    requires channels > 0
  {
    n / channels
  }

  ghost predicate Sound(a: Source) {
    && a.channels > 0 && 0 < a.perBlock <= FRAME_LENGTH
    && forall p: seq<byte> :: |a.decode(p)| == Samples(a.channels, a.frames(p)) && a.frames(p) <= MAX_FRAMES
  }

  // ----- the operations

  datatype Fetched = Fetched(ok: bool, cursor: Cursor)

  /** Decode the next packet. */
  function Fetch(a: Source, c: Cursor): Fetched {
    if c.current >= |a.sizes| then Fetched(false, c)
    else
      var size := a.sizes[c.current];
      var next := c.(current := c.current + 1);
      if size == 0 || size > BYTE_BUFFER || c.pos < 0 || c.pos + size > |a.file| then Fetched(false, next)
      else
        var packet := a.file[c.pos..c.pos + size];
        Fetched(true, Cursor(c.current + 1, c.pos + size, a.decode(packet), a.frames(packet), 0))
  }

  datatype Taken = Taken(samples: seq<int>, cursor: Cursor)

  predicate Fits(a: Source, c: Cursor) {
    a.channels > 0 && |c.block| == Samples(a.channels, c.frames)
  }

  /** What one round of the read loop takes out of the decoded block. */
  function TakeSome(a: Source, c: Cursor, len: nat): (r: Taken)
    requires Fits(a, c) && c.partial <= c.frames
    ensures |r.samples| == Least(Samples(a.channels, c.frames - c.partial), len) && Fits(a, r.cursor)
    ensures r.cursor == c.(partial := r.cursor.partial) && r.cursor.partial <= c.frames
  {
    SamplesAdd(a.channels, c.partial, c.frames - c.partial);
    var from := Samples(a.channels, c.partial);
    var n := Least(Samples(a.channels, c.frames - c.partial), len);
    TakenFrames(a.channels, c.frames - c.partial, n);
    Taken(c.block[from..from + n], c.(partial := c.partial + FramesIn(a.channels, n)))
  }

  /** Read `len` samples, fewer at the end of the packets. */
  function Read(a: Source, c: Cursor, len: nat): (r: Taken)
    requires Fits(a, c) && Sound(a)
    ensures Fits(a, r.cursor) && |r.samples| <= len
    decreases |a.sizes| - c.current, len
  {
    if len == 0 then Taken([], c)
    else if c.partial >= c.frames then
      var f := Fetch(a, c);
      if !f.ok then Taken([], f.cursor)
      else
        var t := TakeSome(a, f.cursor, len);
        var rest := Read(a, t.cursor, len - |t.samples|);
        Taken(t.samples + rest.samples, rest.cursor)
    else
      SamplesGrow(a.channels, 1, c.frames - c.partial);
      var t := TakeSome(a, c, len);
      var rest := Read(a, t.cursor, len - |t.samples|);
      Taken(t.samples + rest.samples, rest.cursor)
  }

  const BAD_SEEK := -1

  datatype Sought = Sought(result: int, cursor: Cursor)

  /** Frames in `n` full blocks. */
  function FullBlocks(a: Source, n: nat): nat {
    n * a.perBlock
  }

  /** The block a frame is in, when all before it are full, and its place there. */
  function BlockOf(a: Source, f: nat): nat
    requires a.perBlock > 0
  {
    f / a.perBlock
  }

  function PlaceOf(a: Source, f: nat): nat
    requires a.perBlock > 0
  {
    f % a.perBlock
  }

  /** The last frame a seek may name, as computed in 32 bits. */
  function SeekLimit(a: Source): nat {
    FullBlocks(a, |a.sizes|) % WORD
  }

  /** Go to a frame. The block is decoded even when that fails, and the place in it kept. */
  function Seek(a: Source, c: Cursor, reading: bool, offset: int): (r: Sought)
    requires a.perBlock > 0
  {
    if a.dataLength < 0 || a.dataOffset < 0 then Sought(BAD_SEEK, c)
    else if offset == 0 then Sought(0, c.(block := [], frames := 0, pos := a.dataOffset, current := 0))
    else if offset < 0 || offset > SeekLimit(a) then Sought(BAD_SEEK, c)
    else if !reading then Sought(BAD_SEEK, c)
    else
      var newBlock := BlockOf(a, offset);
      SeekInTable(a, offset);
      var f := Fetch(a, c.(pos := a.dataOffset + Offset(a.sizes, newBlock), current := newBlock));
      Sought(offset, f.cursor.(partial := PlaceOf(a, offset)))
  }

  lemma {:induction false} SeekInTable(a: Source, offset: nat)
    requires a.perBlock > 0 && offset <= SeekLimit(a)
    ensures BlockOf(a, offset) <= |a.sizes|
  {
    QuotientAtMost(offset, a.perBlock, |a.sizes|);
  }

  lemma {:induction false} QuotientAtMost(x: nat, d: nat, n: nat)
    requires d > 0 && x <= n * d
    ensures 0 <= x / d <= n
  {
    var q := x / d;
    assert q * d <= x && (q - n) * d == q * d - n * d;
    SmallMultiple(q - n, d);
  }

  lemma {:induction false} BlockAndPlace(a: Source, f: nat)
    requires a.perBlock > 0
    ensures FullBlocks(a, BlockOf(a, f)) + PlaceOf(a, f) == f
  {
  }

  /** The packets walked over while the frames are counted: up to the first size that is zero or
      not below the file length. */
  function Walk(a: Source, current: nat): (r: nat)
    requires current <= |a.sizes|
    ensures current <= r <= |a.sizes|
    decreases |a.sizes| - current
  {
    if current == |a.sizes| then current
    else if a.sizes[current] == 0 || a.sizes[current] >= |a.file| then current + 1
    else Walk(a, current + 1)
  }

  datatype Counted = Counted(frames: nat, cursor: Cursor)

  /** Count the frames: full blocks by number, the last by decoding it. */
  function CalcFrames(a: Source, c: Cursor): Counted
    requires a.perBlock > 0
  {
    var walked := if |a.file| <= 1 then 0 else Walk(a, 0);
    var blocks := if walked > 0 && a.sizes[walked - 1] == 0 then walked - 1 else walked;
    if blocks == 0 then Counted(0, c.(current := walked))
    else
      var frames := FullBlocks(a, blocks - 1) % WORD;
      var found := Seek(a, c.(current := walked), true, frames).cursor;
      var last := Fetch(a, found).cursor;
      Counted(frames + last.frames, last.(current := 0))
  }

  // ----- when they fail

  /** A packet is decoded if and only if there is one, it is not empty, it fits the byte buffer, and it
      lies in the file. When it is not, the packet is passed over and nothing else moves; past the last
      one not even that. */
  lemma {:induction false} FetchFails(a: Source, c: Cursor)
    ensures var f := Fetch(a, c);
            && (f.ok <==>
                 && c.current < |a.sizes| && 0 < a.sizes[c.current] <= BYTE_BUFFER
                 && 0 <= c.pos && c.pos + a.sizes[c.current] <= |a.file|)
            && (!f.ok ==> f.cursor == if c.current < |a.sizes| then c.(current := c.current + 1) else c)
  {
  }

  /** A seek is refused when the data part is unknown, the frame negative or beyond the limit, or the file
      not being read; going to the start is never refused for the last two. Then nothing moves. */
  lemma {:induction false} SeekRefused(a: Source, c: Cursor, reading: bool, offset: int)
    requires a.perBlock > 0
    ensures var s := Seek(a, c, reading, offset);
            if a.dataLength < 0 || a.dataOffset < 0 || offset < 0 || (offset > 0 && (offset > SeekLimit(a) || !reading))
            then s == Sought(BAD_SEEK, c)
            else s.result == offset && (offset == 0 ==> s.cursor.current == 0 && s.cursor.pos == a.dataOffset)
  {
    hide SeekLimit, Fetch, BlockOf, PlaceOf;
  }

  /** A seek that is not refused keeps the place in the block whether the block can be decoded or not; when
      it cannot, the block decoded before stays. */
  lemma {:induction false} SeekKeepsPlace(a: Source, c: Cursor, offset: nat)
    requires a.perBlock > 0 && a.dataLength >= 0 && a.dataOffset >= 0 && 0 < offset <= SeekLimit(a)
    ensures var d := Seek(a, c, true, offset).cursor;
            var q := offset / a.perBlock;
            && d.partial == offset % a.perBlock && q <= |a.sizes|
            && (q == |a.sizes| || a.sizes[q] == 0 || a.sizes[q] > BYTE_BUFFER
                || a.dataOffset + Offset(a.sizes, q) + a.sizes[q] > |a.file| ==>
                 d.block == c.block && d.frames == c.frames && d.pos == a.dataOffset + Offset(a.sizes, q))
  {
    hide SeekLimit, Fetch;
    SeekInTable(a, offset);
    FetchFails(a, c.(pos := a.dataOffset + Offset(a.sizes, BlockOf(a, offset)), current := BlockOf(a, offset)));
  }

  /** Without a packet to begin with no frames are counted. */
  lemma {:induction false} NothingCounted(a: Source, c: Cursor)
    requires a.perBlock > 0 && (|a.file| <= 1 || a.sizes == [] || a.sizes[0] == 0)
    ensures CalcFrames(a, c) == Counted(0, c.(current := if |a.file| <= 1 || a.sizes == [] then 0 else 1))
  {
  }

  /** The count stops at the first packet that is empty or not smaller than the file. */
  lemma {:induction false} WalkStops(a: Source, current: nat)
    requires current <= |a.sizes|
    ensures var r := Walk(a, current);
            && (forall k :: current <= k < r - 1 ==> 0 < a.sizes[k] < |a.file|)
            && (current < r < |a.sizes| ==> a.sizes[r - 1] == 0 || a.sizes[r - 1] >= |a.file|)
            && (current < |a.sizes| ==> current < r)
    decreases |a.sizes| - current
  {
    if current < |a.sizes| && 0 < a.sizes[current] < |a.file| {
      WalkStops(a, current + 1);
    }
  }

  // ----- counting samples

  lemma {:induction false} SamplesAdd(channels: nat, m: nat, n: nat)
    ensures Samples(channels, m) + Samples(channels, n) == Samples(channels, m + n)
  {
  }

  lemma {:induction false} SamplesGrow(channels: nat, m: nat, n: nat)
    requires m <= n
    ensures Samples(channels, m) <= Samples(channels, n)
    ensures channels > 0 && m < n ==> Samples(channels, m) < Samples(channels, n)
  {
    var d := n - m;
    assert Samples(channels, n) == Samples(channels, m) + d * channels;
    if channels > 0 && d >= 1 {
      SmallMultiple(d, channels);
    }
  }

  lemma {:induction false} SamplesDivide(channels: nat, n: nat)
    requires channels > 0
    ensures FramesIn(channels, Samples(channels, n)) == n
  {
    DivUnique(Samples(channels, n), channels, n, 0);
  }

  lemma {:induction false} TakenFrames(channels: nat, frames: nat, n: nat)
    requires channels > 0 && n <= Samples(channels, frames)
    ensures FramesIn(channels, n) <= frames
  {
    var q := n / channels;
    assert q * channels <= n;
    if q > frames {
      SamplesGrow(channels, frames, q);
    }
  }

  // ----- what the file holds

  /** The packets: the table, apart from a zero that ends it. */
  function Blocks(a: Source): (n: nat)
    ensures n <= |a.sizes|
  {
    if a.sizes != [] && a.sizes[|a.sizes| - 1] == 0 then |a.sizes| - 1 else |a.sizes|
  }

  function Start(a: Source, k: nat): int
    requires k <= |a.sizes|
  {
    a.dataOffset + Offset(a.sizes, k)
  }

  /** A well-formed file: every packet lies in the file and fits the byte buffer, and all but the
      last decode to full blocks. */
  ghost predicate WellFormed(a: Source) {
    && Sound(a) && a.dataOffset >= 0 && a.dataLength >= 0
    && (forall k :: 0 <= k < Blocks(a) ==> 0 < a.sizes[k] <= BYTE_BUFFER)
    && Start(a, Blocks(a)) <= |a.file|
    && (forall k :: 0 <= k < Blocks(a) ==> FramesOf(a, k) <= a.perBlock)
    && (forall k :: 0 <= k < Blocks(a) - 1 ==> FramesOf(a, k) == a.perBlock)
  }

  function Packet(a: Source, k: nat): seq<byte>
    requires k < |a.sizes|
  {
    if 0 <= Start(a, k) && Start(a, k) + a.sizes[k] <= |a.file| then a.file[Start(a, k)..Start(a, k) + a.sizes[k]]
    else []
  }

  function FramesOf(a: Source, k: nat): nat
    requires k < |a.sizes|
  {
    a.frames(Packet(a, k))
  }

  /** All samples of the packets from `k` on. */
  function From(a: Source, k: nat): seq<int>
    decreases |a.sizes| - k
  {
    if k >= Blocks(a) then [] else a.decode(Packet(a, k)) + From(a, k + 1)
  }

  /** All frames of the file. */
  function Total(a: Source, k: nat): nat
    decreases |a.sizes| - k
  {
    if k >= Blocks(a) then 0 else FramesOf(a, k) + Total(a, k + 1)
  }

  /** The file position belongs to the next packet. */
  predicate InStep(a: Source, c: Cursor) {
    && Fits(a, c)
    && (c.current <= Blocks(a) ==> c.pos == Start(a, c.current))
  }

  /** What is still to be read. */
  function Rest(a: Source, c: Cursor): seq<int>
    requires Fits(a, c)
  {
    (if c.partial < c.frames then BlockFrom(a, c) else []) + From(a, c.current)
  }

  function BlockFrom(a: Source, c: Cursor): seq<int>
    requires Fits(a, c) && c.partial <= c.frames
  {
    SamplesGrow(a.channels, c.partial, c.frames);
    c.block[Samples(a.channels, c.partial)..]
  }

  lemma {:induction false} OffsetGrows(sizes: seq<nat>, j: nat, k: nat)
    requires j <= k <= |sizes|
    ensures Offset(sizes, j) <= Offset(sizes, k)
  {
    if j < k {
      OffsetGrows(sizes, j, k - 1);
    }
  }

  lemma {:induction false} PacketInFile(a: Source, k: nat)
    requires WellFormed(a) && k < Blocks(a)
    ensures 0 <= Start(a, k) && Start(a, k + 1) == Start(a, k) + a.sizes[k] <= |a.file|
    ensures Packet(a, k) == a.file[Start(a, k)..Start(a, k + 1)]
  {
    OffsetGrows(a.sizes, k + 1, Blocks(a));
  }

  /** The state before anything has been read. */
  predicate Fresh(c: Cursor) {
    c.block == [] && c.frames == 0 && c.partial == 0
  }

  // ----- reading

  /** In step, decoding takes the next packet of the file, if there is one. */
  lemma {:induction false} FetchInStep(a: Source, c: Cursor)
    requires WellFormed(a) && InStep(a, c)
    ensures var f := Fetch(a, c);
            && InStep(a, f.cursor)
            && (f.ok <==> c.current < Blocks(a))
            && (f.ok ==> f.cursor.block == a.decode(Packet(a, c.current)) && f.cursor.partial == 0
                         && f.cursor.frames == FramesOf(a, c.current) && f.cursor.current == c.current + 1)
            && (!f.ok ==> From(a, f.cursor.current) == [] && f.cursor.block == c.block
                          && f.cursor.frames == c.frames && f.cursor.partial == c.partial)
  {
    if c.current < Blocks(a) {
      PacketInFile(a, c.current);
    }
  }

  lemma {:induction false} FetchKeepsRest(a: Source, c: Cursor)
    requires WellFormed(a) && InStep(a, c) && c.partial >= c.frames
    ensures var f := Fetch(a, c);
            Rest(a, f.cursor) == Rest(a, c) && (!f.ok ==> Rest(a, c) == [])
  {
    hide Fetch, WellFormed;
    FetchInStep(a, c);
    var f := Fetch(a, c);
    if f.ok {
      assert Samples(a.channels, 0) == 0;
      assert f.cursor.frames == 0 ==> f.cursor.block == [];
    }
  }

  lemma {:induction false} TakeSomeOfRest(a: Source, c: Cursor, m: nat)
    requires Sound(a) && Fits(a, c) && c.partial <= c.frames
    ensures var t := TakeSome(a, c, Samples(a.channels, m));
            var n := Least(c.frames - c.partial, m);
            && |t.samples| == Samples(a.channels, n) && t.cursor == c.(partial := c.partial + n)
            && Rest(a, c) == t.samples + Rest(a, t.cursor)
  {
    hide From;
    var n := Least(c.frames - c.partial, m);
    if c.frames - c.partial <= m {
      SamplesGrow(a.channels, c.frames - c.partial, m);
    } else {
      SamplesGrow(a.channels, m, c.frames - c.partial);
    }
    SamplesDivide(a.channels, n);
    SamplesAdd(a.channels, c.partial, n);
    SamplesGrow(a.channels, c.partial + n, c.frames);
    hide Samples;
    var t := TakeSome(a, c, Samples(a.channels, m));
    assert BlockFrom(a, c) == t.samples + BlockFrom(a, t.cursor);
  }

  lemma {:induction false} WellFormedIsSound(a: Source)
    requires WellFormed(a)
    ensures Sound(a)
  {
  }

  /** `t` is the next `m` frames from `c` on, fewer only when they are the last. */
  predicate Served(a: Source, c: Cursor, m: nat, t: Taken)
    requires Fits(a, c)
  {
    && InStep(a, t.cursor)
    && Rest(a, c) == t.samples + Rest(a, t.cursor)
    && (|t.samples| == Samples(a.channels, m) || (|t.samples| < Samples(a.channels, m) && Rest(a, t.cursor) == []))
  }

  /** A read hands out what is next in the file, and falls short only at its end. */
  lemma {:induction false} ReadTakes(a: Source, c: Cursor, m: nat)
    requires WellFormed(a) && InStep(a, c)
    ensures Served(a, c, m, Read(a, c, Samples(a.channels, m)))
    decreases |a.sizes| - c.current, m
  {
    hide WellFormed, Fetch, TakeSome, Rest, From, Samples, Sound, Read, Served, Start, Fits, InStep, Blocks, Packet;
    hide FramesOf;
    WellFormedIsSound(a);
    InStepFits(a, c);
    var f := Fetch(a, c);
    if c.partial >= c.frames {
      FetchInStep(a, c);
      FetchKeepsRest(a, c);
    }
    if m == 0 {
      ReadNone(a, c);
      ServedNone(a, c, m, c);
    } else if c.partial >= c.frames && !f.ok {
      SamplesPositive(a.channels, m);
      ReadFails(a, c, Samples(a.channels, m));
      ServedNone(a, c, m, f.cursor);
    } else {
      var d := if c.partial >= c.frames then f.cursor else c;
      var n := Least(d.frames - d.partial, m);
      TakenInStep(a, d, n);
      ReadOn(a, c, d, n, m);
      ReadTakes(a, d.(partial := d.partial + n), m - n);
      ReadRound(a, c, d, n, m, Read(a, d.(partial := d.partial + n), Samples(a.channels, m - n)));
    }
  }

  lemma {:induction false} InStepFits(a: Source, c: Cursor)
    requires InStep(a, c)
    ensures Fits(a, c) && a.channels > 0
  {
  }

  lemma {:induction false} ReadNone(a: Source, c: Cursor)
    requires Sound(a) && Fits(a, c)
    ensures Read(a, c, Samples(a.channels, 0)) == Taken([], c)
  {
    assert Samples(a.channels, 0) == 0;
  }

  lemma {:induction false} ReadFails(a: Source, c: Cursor, len: nat)
    requires Sound(a) && Fits(a, c) && len > 0 && c.partial >= c.frames && !Fetch(a, c).ok
    ensures Read(a, c, len) == Taken([], Fetch(a, c).cursor)
  {
  }

  lemma {:induction false} FetchAdvances(a: Source, c: Cursor)
    requires Fetch(a, c).ok
    ensures var d := Fetch(a, c).cursor;
            c.current < |a.sizes| && d.current == c.current + 1 && d.partial == 0
  {
  }

  lemma {:induction false} SamplesPositive(channels: nat, m: nat)
    requires channels > 0 && m > 0
    ensures Samples(channels, m) > 0
  {
    SamplesGrow(channels, 0, m);
  }

  lemma {:induction false} ReadRecurs(a: Source, c: Cursor, d: Cursor, len: nat)
    requires Sound(a) && Fits(a, c) && len > 0
    requires if c.partial >= c.frames then Fetch(a, c) == Fetched(true, d) else d == c
    requires Fits(a, d) && d.partial <= d.frames
    ensures var t := TakeSome(a, d, len);
            && |t.samples| <= len
            && var rest := Read(a, t.cursor, len - |t.samples|);
               Read(a, c, len) == Taken(t.samples + rest.samples, rest.cursor)
  {
    hide Fetch, TakeSome, Samples, Sound;
  }

  lemma {:induction false} ReadOn(a: Source, c: Cursor, d: Cursor, n: nat, m: nat)
    requires Sound(a) && Fits(a, c) && m > 0
    requires if c.partial >= c.frames then Fetch(a, c) == Fetched(true, d) else d == c
    requires InStep(a, d) && d.partial <= d.frames && n == Least(d.frames - d.partial, m)
    requires Fits(a, d) && Fits(a, d.(partial := d.partial + n)) && a.channels > 0
    ensures var rest := Read(a, d.(partial := d.partial + n), Samples(a.channels, m - n));
            Read(a, c, Samples(a.channels, m)) ==
              Taken(TakeSome(a, d, Samples(a.channels, m)).samples + rest.samples, rest.cursor)
  {
    hide *;
    TakeStaysInStep(a, d, m);
    SamplesPositive(a.channels, m);
    ReadRecurs(a, c, d, Samples(a.channels, m));
  }

  lemma {:induction false} TakenInStep(a: Source, d: Cursor, n: nat)
    requires InStep(a, d)
    ensures Fits(a, d) && Fits(a, d.(partial := d.partial + n)) && InStep(a, d.(partial := d.partial + n))
  {
    hide Samples, Start;
  }

  lemma {:induction false} ReadRound(a: Source, c: Cursor, d: Cursor, n: nat, m: nat, rest: Taken)
    requires Sound(a) && Fits(a, c) && InStep(a, d) && Rest(a, c) == Rest(a, d)
    requires d.partial <= d.frames && n == Least(d.frames - d.partial, m)
    requires InStep(a, d.(partial := d.partial + n)) && Served(a, d.(partial := d.partial + n), m - n, rest)
    ensures Served(a, c, m, Taken(TakeSome(a, d, Samples(a.channels, m)).samples + rest.samples, rest.cursor))
  {
    hide TakeSome, Rest, Samples, Start, Served;
    TakeStaysInStep(a, d, m);
    JoinServed(a, c, TakeSome(a, d, Samples(a.channels, m)), n, m, rest);
  }

  lemma {:induction false} ServedNone(a: Source, c: Cursor, m: nat, d: Cursor)
    requires Sound(a) && Fits(a, c) && InStep(a, d) && Rest(a, d) == Rest(a, c) && (m == 0 || Rest(a, c) == [])
    ensures Served(a, c, m, Taken([], d))
  {
    hide Rest;
    SamplesGrow(a.channels, 0, m);
    assert [] + Rest(a, d) == Rest(a, d);
  }

  lemma {:induction false} JoinServed(a: Source, c: Cursor, t: Taken, n: nat, m: nat, rest: Taken)
    requires Fits(a, c) && InStep(a, t.cursor) && Rest(a, c) == t.samples + Rest(a, t.cursor)
    requires n <= m && |t.samples| == Samples(a.channels, n) && Served(a, t.cursor, m - n, rest)
    ensures Served(a, c, m, Taken(t.samples + rest.samples, rest.cursor))
  {
    hide Samples, Rest, Start;
    SamplesAdd(a.channels, n, m - n);
    SeqAssociative(t.samples, rest.samples, Rest(a, rest.cursor));
  }

  /** One round of the read loop. */
  lemma {:induction false} TakeStaysInStep(a: Source, c: Cursor, m: nat)
    requires Sound(a) && InStep(a, c) && c.partial <= c.frames
    ensures var t := TakeSome(a, c, Samples(a.channels, m));
            var n := Least(c.frames - c.partial, m);
            && |t.samples| == Samples(a.channels, n) && t.cursor == c.(partial := c.partial + n)
            && Samples(a.channels, m) - |t.samples| == Samples(a.channels, m - n)
            && InStep(a, t.cursor)
            && Rest(a, c) == t.samples + Rest(a, t.cursor)
  {
    TakeSomeOfRest(a, c, m);
    var n := Least(c.frames - c.partial, m);
    SamplesAdd(a.channels, n, m - n);
    hide TakeSome, Rest, Samples;
  }

  /** Reads one after the other. */
  function ReadMany(a: Source, c: Cursor, ms: seq<nat>): (r: Taken)
    requires Fits(a, c) && Sound(a)
    ensures Fits(a, r.cursor)
    decreases |ms|
  {
    if ms == [] then Taken([], c)
    else
      var t := Read(a, c, Samples(a.channels, ms[0]));
      var rest := ReadMany(a, t.cursor, ms[1..]);
      Taken(t.samples + rest.samples, rest.cursor)
  }

  lemma {:induction false} ReadManyTakes(a: Source, c: Cursor, ms: seq<nat>)
    requires WellFormed(a) && InStep(a, c)
    ensures Sound(a) && Served(a, c, Sum(ms), ReadMany(a, c, ms))
    decreases |ms|
  {
    hide *;
    WellFormedIsSound(a);
    InStepFits(a, c);
    if ms == [] {
      ReadManyNone(a, c);
    } else {
      ReadManyUnfolds(a, c, ms);
      ReadTakes(a, c, ms[0]);
      var t := Read(a, c, Samples(a.channels, ms[0]));
      ServedInStep(a, c, ms[0], t);
      InStepFits(a, t.cursor);
      ReadManyTakes(a, t.cursor, ms[1..]);
      JoinReads(a, c, ms[0], t, Sum(ms[1..]), ReadMany(a, t.cursor, ms[1..]));
    }
  }

  lemma {:induction false} ReadManyNone(a: Source, c: Cursor)
    requires Sound(a) && InStep(a, c)
    ensures Served(a, c, Sum([]), ReadMany(a, c, []))
  {
    hide Read, Sound;
    ServedNone(a, c, 0, c);
  }

  lemma {:induction false} ReadManyUnfolds(a: Source, c: Cursor, ms: seq<nat>)
    requires Fits(a, c) && Sound(a) && ms != []
    ensures Sum(ms) == ms[0] + Sum(ms[1..])
    ensures var t := Read(a, c, Samples(a.channels, ms[0]));
            var rest := ReadMany(a, t.cursor, ms[1..]);
            ReadMany(a, c, ms) == Taken(t.samples + rest.samples, rest.cursor)
  {
    hide Read, Samples, Sound, Fits;
  }

  lemma {:induction false} ServedInStep(a: Source, c: Cursor, m: nat, t: Taken)
    requires Fits(a, c) && Served(a, c, m, t)
    ensures InStep(a, t.cursor)
  {
  }

  lemma {:induction false} JoinReads(a: Source, c: Cursor, m: nat, t: Taken, n: nat, u: Taken)
    requires Fits(a, c) && Served(a, c, m, t) && Served(a, t.cursor, n, u)
    ensures Served(a, c, m + n, Taken(t.samples + u.samples, u.cursor))
  {
    hide Samples, Rest, Start;
    SamplesAdd(a.channels, m, n);
    SeqAssociative(t.samples, u.samples, Rest(a, u.cursor));
  }
}
