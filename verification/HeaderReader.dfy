/** Reading a header by a format string, with its jumps: the cache is never seen, every conversion
    gets the bytes at its place in the file. */
module HeaderReader {
  import opened Bits
  import opened HeaderFormat
  import opened Header

  /** A conversion, or a jump to a place (p) or by an offset (j). */
  datatype Step = Take(conversion: Conversion) | GoTo(position: nat) | GoBy(offset: int)

  function Target(pos: nat, step: Step): int {
    match step
    case Take(c) => pos + Width(c)
    case GoTo(position) => position
    case GoBy(offset) => pos + offset
  }

  /** All steps stay inside the file. */
  predicate InFile(size: nat, pos: nat, steps: seq<Step>)
    decreases |steps|
  {
    steps != [] ==>
      var t := Target(pos, steps[0]);
      0 <= t <= size && InFile(size, t, steps[1..])
  }

  /** A step asks for this many bytes of room if it tries to reach beyond the buffer; a jump from the
      start adds its position to the index before it compares. */
  function Needed(step: Step): nat {
    match step
    case Take(c) => Width(c)
    case GoTo(position) => position
    case GoBy(offset) => Max(offset, 0)
  }

  function Tried(pos: nat, step: Step): int {
    match step
    case Take(c) => pos + Width(c)
    case GoTo(position) => pos + position
    case GoBy(offset) => pos + offset
  }

  /** The length of the buffer after a step: sixteen bytes of room first, then what the step needs. */
  function LengthAfter(len: nat, pos: nat, step: Step): nat {
    Grown(Grown(len, pos + 16, 16), Tried(pos, step), Needed(step))
  }

  /** What a step asks for is granted, or it is a jump that does without because its target lies in
      the buffer. */
  predicate Reaches(len: nat, pos: nat, step: Step) {
    Tried(pos, step) >= len ==> Granted(len, Needed(step)) || (!step.Take? && Target(pos, step) <= len)
  }

  /** The sixteen bytes are there or granted, and so is what the step needs then. */
  predicate StepGranted(len: nat, pos: nat, step: Step) {
    (pos + 16 >= len ==> Granted(len, 16)) && Reaches(Grown(len, pos + 16, 16), pos, step)
  }

  /** Growth is granted wherever the steps need it. */
  predicate AllGranted(len: nat, pos: nat, steps: seq<Step>)
    decreases |steps|
  {
    steps != [] ==>
      var t := Target(pos, steps[0]);
      StepGranted(len, pos, steps[0]) && 0 <= t && AllGranted(LengthAfter(len, pos, steps[0]), t, steps[1..])
  }

  datatype Outcome = Outcome(values: seq<Value>, pos: nat, big: bool, byteCount: int)

  function CountAfter(byteCount: int, step: Step): int {
    match step
    case Take(c) => byteCount + Width(c)
    case GoTo(position) => position
    case GoBy(offset) => byteCount + offset
  }

  function ValuesOf(file: seq<byte>, pos: nat, big: bool, step: Step): seq<Value>
    requires 0 <= Target(pos, step) <= |file|
  {
    if step.Take? then Get(step.conversion, file[pos..pos + Width(step.conversion)], big) else []
  }

  function BigAfter(big: bool, step: Step): bool {
    if step.Take? then EndianAfter(step.conversion, big) else big
  }

  /** What the steps give when read straight from the file. */
  function ReadFile(file: seq<byte>, pos: nat, big: bool, byteCount: int, steps: seq<Step>): Outcome
    requires InFile(|file|, pos, steps)
    decreases |steps|
  {
    if steps == [] then Outcome([], pos, big, byteCount)
    else
      var count := CountAfter(byteCount, steps[0]);
      var rest := ReadFile(file, Target(pos, steps[0]), BigAfter(big, steps[0]), count, steps[1..]);
      rest.(values := ValuesOf(file, pos, big, steps[0]) + rest.values)
  }

  // ----- formats without jumps

  function Takes(format: seq<Conversion>): (r: seq<Step>)
    ensures |r| == |format|
  {
    if format == [] then [] else [Take(format[0])] + Takes(format[1..])
  }

  lemma {:induction false} TakesInFile(size: nat, pos: nat, format: seq<Conversion>)
    requires pos + TotalWidth(format) <= size
    ensures InFile(size, pos, Takes(format))
    decreases |format|
  {
    if format != [] {
      TakesInFile(size, pos + Width(format[0]), format[1..]);
      assert Takes(format)[1..] == Takes(format[1..]);
    }
  }

  lemma {:induction false} TakesParse(file: seq<byte>, pos: nat, big: bool, byteCount: int, format: seq<Conversion>)
    requires pos + TotalWidth(format) <= |file|
    ensures InFile(|file|, pos, Takes(format))
    ensures var r := ReadFile(file, pos, big, byteCount, Takes(format));
            && r.values == Parse(format, big, file[pos..])
            && r.pos == pos + TotalWidth(format) && r.byteCount == byteCount + TotalWidth(format)
    decreases |format|
  {
    hide Get;
    TakesInFile(|file|, pos, format);
    if format != [] {
      var n := Width(format[0]);
      TakesParse(file, pos + n, EndianAfter(format[0], big), byteCount + n, format[1..]);
      assert Takes(format)[1..] == Takes(format[1..]);
      assert file[pos..][..n] == file[pos..pos + n] && file[pos..][n..] == file[pos + n..];
    }
  }

  /** What a format string has printed at some place of a file, the same format reads back: every
      argument reduced to its field, as many bytes counted as were written. */
  lemma {:induction false} PrintThenRead(file: seq<byte>, pos: nat, items: seq<Item>, big: bool)
    requires AllMatch(items)
    requires pos + |Print(items, big)| <= |file|
    requires file[pos..pos + |Print(items, big)|] == Print(items, big)
    ensures InFile(|file|, pos, Takes(FormatOf(items)))
    ensures var r := ReadFile(file, pos, big, 0, Takes(FormatOf(items)));
            r.values == AllReturned(items) && r.byteCount == |Print(items, big)| == r.pos - pos
  {
    hide Print, Parse, TotalWidth, FormatOf, AllReturned, ReadFile, Takes, InFile;
    var n := |Print(items, big)|;
    ParsePrinted(items, big, file[pos + n..]);
    assert file[pos..] == Print(items, big) + file[pos + n..];
    TakesParse(file, pos, big, 0, FormatOf(items));
  }

  // ----- headers near the start are never refused room

  const REACH := LIMIT / 4

  predicate InReach(pos: nat, steps: seq<Step>)
    decreases |steps|
  {
    steps != [] ==>
      var t := Target(pos, steps[0]);
      0 <= t <= REACH && InReach(t, steps[1..])
  }

  /** Steps that go no further than a quarter of the limit are all granted, whatever the length of
      the buffer. */
  lemma {:induction false} ReachIsGranted(len: nat, pos: nat, steps: seq<Step>)
    requires INITIAL_SIZE <= len && pos <= REACH && InReach(pos, steps)
    ensures AllGranted(len, pos, steps)
    decreases |steps|
  {
    if steps != [] {
      ReachIsGranted(LengthAfter(len, pos, steps[0]), Target(pos, steps[0]), steps[1..]);
    }
  }

  // ----- reading through the buffer

  /** Where the reading loop is; `last` is the size or offset of the last raw read or jump. */
  datatype Cursor = Cursor(len: nat, pos: nat, big: bool, byteCount: int, last: int)

  datatype Moved = Moved(values: seq<Value>, next: Cursor)

  /** Sixteen bytes of room are there or granted; when not, the loop ends. */
  predicate HasRoom(c: Cursor) {
    c.pos + 16 >= c.len ==> Granted(c.len, 16)
  }

  lemma {:induction false} RoomUpTo(c: Cursor)
    requires c.len >= INITIAL_SIZE
    ensures HasRoom(c) <==> c.pos < c.len - 16 || c.len <= 51200
  {
    GrowthDoubles(c.len, 16);
  }

  function RoomMade(c: Cursor): nat {
    Grown(c.len, c.pos + 16, 16)
  }

  /** The step stays inside the file, and is one whose room is granted, a jump inside the buffer, or a
      raw read. */
  predicate Follows(size: nat, c: Cursor, step: Step) {
    0 <= Target(c.pos, step) <= size && (Reaches(RoomMade(c), c.pos, step) || (step.Take? && step.conversion.Raw?))
  }

  function LastAfter(last: int, step: Step): int {
    match step
    case Take(c) => if c.Raw? then c.size else last
    case GoTo(position) => position
    case GoBy(offset) => offset
  }

  /** One step; a raw read that is refused gives zeros and moves nothing. */
  function Move(file: seq<byte>, c: Cursor, step: Step): Moved
    requires Follows(|file|, c, step)
  {
    var len, last := RoomMade(c), LastAfter(c.last, step);
    if Reaches(len, c.pos, step) then
      Moved(ValuesOf(file, c.pos, c.big, step),
            Cursor(LengthAfter(c.len, c.pos, step), Target(c.pos, step), BigAfter(c.big, step),
                   CountAfter(c.byteCount, step), last))
    else Moved([Bytes(seq(step.conversion.size, _ => 0))], Cursor(len, c.pos, c.big, c.byteCount, last))
  }

  /** All steps up to the end, or to the one that finds no room, are of that kind. */
  predicate Followed(file: seq<byte>, c: Cursor, steps: seq<Step>)
    decreases |steps|
  {
    steps != [] && HasRoom(c) ==>
      Follows(|file|, c, steps[0]) && Followed(file, Move(file, c, steps[0]).next, steps[1..])
  }

  /** What the steps give when read through the buffer. */
  function Buffered(file: seq<byte>, c: Cursor, steps: seq<Step>): Outcome
    requires Followed(file, c, steps)
    decreases |steps|
  {
    if steps == [] then Outcome([], c.pos, c.big, c.byteCount)
    else if !HasRoom(c) then Outcome([], c.pos, c.big, c.last)
    else
      var m := Move(file, c, steps[0]);
      var rest := Buffered(file, m.next, steps[1..]);
      rest.(values := m.values + rest.values)
  }

  /** While growth is granted the buffer is never seen. */
  lemma {:induction false} GrantedReads(file: seq<byte>, c: Cursor, steps: seq<Step>)
    requires InFile(|file|, c.pos, steps) && AllGranted(c.len, c.pos, steps)
    ensures Followed(file, c, steps)
    ensures Buffered(file, c, steps) == ReadFile(file, c.pos, c.big, c.byteCount, steps)
    decreases |steps|
  {
    hide Granted, ValuesOf, LengthAfter, Target, BigAfter, CountAfter, Grown, Reaches;
    if steps != [] {
      GrantedReads(file, Move(file, c, steps[0]).next, steps[1..]);
    }
  }

  // ----- the number of bytes

  predicate JumpsTo(steps: seq<Step>) {
    exists k :: 0 <= k < |steps| && steps[k].GoTo?
  }

  /** The bytes counted are the way from the first place to the last; behind a jump from the start, the
      way from the start of the file. */
  lemma {:induction false} CountIsDistance(file: seq<byte>, pos: nat, big: bool, byteCount: int, steps: seq<Step>)
    requires InFile(|file|, pos, steps)
    ensures var r := ReadFile(file, pos, big, byteCount, steps);
            if JumpsTo(steps) then r.byteCount == r.pos else r.byteCount - byteCount == r.pos - pos
    decreases |steps|
  {
    hide ValuesOf, BigAfter;
    if steps != [] {
      var rest, t := steps[1..], Target(pos, steps[0]);
      CountIsDistance(file, t, BigAfter(big, steps[0]), CountAfter(byteCount, steps[0]), rest);
      if JumpsTo(rest) {
        var k :| 0 <= k < |rest| && rest[k].GoTo?;
        assert steps[k + 1].GoTo?;
      } else {
        assert forall k :: 0 < k < |steps| ==> steps[k] == rest[k - 1];
      }
    }
  }

  /** The last of the sizes, positions and offsets that steps name. */
  function LastNumber(steps: seq<Step>, before: int): int {
    if steps == [] then before
    else
      match steps[|steps| - 1]
      case Take(Raw(size)) => size
      case Take(_) => LastNumber(steps[..|steps| - 1], before)
      case GoTo(position) => position
      case GoBy(offset) => offset
  }

  lemma {:induction false} LastNumberFirst(steps: seq<Step>, before: int)
    requires steps != []
    ensures LastNumber(steps, before) == LastNumber(steps[1..], LastAfter(before, steps[0]))
    decreases |steps|
  {
    var n := |steps| - 1;
    if n > 0 {
      LastNumberFirst(steps[..n], before);
      assert steps[1..][..n - 1] == steps[..n][1..] && steps[1..][n - 1] == steps[n];
    } else {
      assert steps[1..] == [] && steps[..0] == [];
    }
  }

  /** How many steps are made before one finds no room. */
  function StepsMade(file: seq<byte>, c: Cursor, steps: seq<Step>): (n: nat)
    requires Followed(file, c, steps)
    ensures n <= |steps|
    decreases |steps|
  {
    if steps == [] || !HasRoom(c) then 0 else 1 + StepsMade(file, Move(file, c, steps[0]).next, steps[1..])
  }

  /** A loop that ends for want of room gives the last number of the steps made instead of the count. */
  lemma {:induction false} RefusedCount(file: seq<byte>, c: Cursor, steps: seq<Step>)
    requires Followed(file, c, steps) && StepsMade(file, c, steps) < |steps|
    ensures Buffered(file, c, steps).byteCount == LastNumber(steps[..StepsMade(file, c, steps)], c.last)
    decreases |steps|
  {
    hide HasRoom, Follows, LastNumber, Reaches, ValuesOf, LengthAfter, RoomMade;
    var n := StepsMade(file, c, steps);
    if HasRoom(c) {
      var next := Move(file, c, steps[0]).next;
      RefusedCount(file, next, steps[1..]);
      LastNumberFirst(steps[..n], c.last);
      assert steps[..n][1..] == steps[1..][..n - 1];
    } else {
      assert steps[..0] == [];
      NoNumber(c.last);
    }
  }

  lemma {:induction false} NoNumber(last: int)
    ensures LastNumber([], last) == last
  {
  }

  // ----- the reading loop

  function Joined(values: seq<Value>, r: Outcome): Outcome {
    r.(values := values + r.values)
  }

  lemma {:induction false} NothingJoined(r: Outcome)
    ensures Joined([], r) == r
  {
  }

  lemma {:induction false} JoinedMore(values: seq<Value>, more: seq<Value>, r: Outcome)
    ensures Joined(values + more, r) == Joined(values, r.(values := more + r.values))
  {
    assert (values + more) + r.values == values + (more + r.values);
  }

  lemma {:induction false} BufferedEnd(file: seq<byte>, c: Cursor, values: seq<Value>)
    ensures Followed(file, c, [])
    ensures Joined(values, Buffered(file, c, [])) == Outcome(values, c.pos, c.big, c.byteCount)
  {
  }

  lemma {:induction false} BufferedUnfolds(file: seq<byte>, c: Cursor, steps: seq<Step>, values: seq<Value>)
    requires steps != [] && Followed(file, c, steps)
    ensures if !HasRoom(c) then Joined(values, Buffered(file, c, steps)) == Outcome(values, c.pos, c.big, c.last)
            else
              && Follows(|file|, c, steps[0])
              && var m := Move(file, c, steps[0]);
                 && Followed(file, m.next, steps[1..])
                 && Joined(values, Buffered(file, c, steps)) ==
                    Joined(values + m.values, Buffered(file, m.next, steps[1..]))
  {
    hide Move, HasRoom, Follows;
    if HasRoom(c) {
      var m := Move(file, c, steps[0]);
      JoinedMore(values, m.values, Buffered(file, m.next, steps[1..]));
    }
  }

  ghost function Where(h: Buffer, byteCount: int, last: int): Cursor
    reads h, h.ptr
  {
    Cursor(h.ptr.Length, h.indx, h.big, byteCount, last)
  }

  /** Read a header by its format. When growth is denied it ends at once, giving the last size or
      offset for the number of bytes. */
  method ReadF(h: Buffer, steps: seq<Step>) returns (values: seq<Value>, byteCount: int)
    requires h.Valid()
    modifies h, h.ptr
    ensures h.Valid()
    ensures old(h.Coherent() && Followed(h.file, Where(h, 0, 0), steps)) ==>
              h.Coherent() && Outcome(values, h.indx, h.big, byteCount)
                              == Buffered(h.file, old(Where(h, 0, 0)), steps)
    ensures old(h.Coherent() && InFile(|h.file|, h.indx, steps) && AllGranted(h.ptr.Length, h.indx, steps)) ==>
              h.Coherent() && Outcome(values, h.indx, h.big, byteCount)
                              == ReadFile(h.file, old(h.indx), old(h.big), 0, steps)
  {
    hide ReadFile, InFile, AllGranted, Followed, Buffered, Move, Joined, HasRoom, Follows;
    if InFile(|h.file|, h.indx, steps) && AllGranted(h.ptr.Length, h.indx, steps) {
      GrantedReads(h.file, Where(h, 0, 0), steps);
    }
    values, byteCount := [], 0;
    var last := 0;
    ghost var file := h.file;
    ghost var ready := h.Coherent() && Followed(file, Where(h, 0, 0), steps);
    ghost var all := if ready then Buffered(file, Where(h, 0, 0), steps) else Outcome([], 0, false, 0);
    NothingJoined(all);
    assert steps[0..] == steps;
    for k := 0 to |steps|
      invariant h.Valid() && (h.ptr == old(h.ptr) || fresh(h.ptr))
      invariant ready ==> h.Coherent() && Followed(file, Where(h, byteCount, last), steps[k..])
      invariant ready ==> Joined(values, Buffered(file, Where(h, byteCount, last), steps[k..])) == all
    {
      if ready {
        BufferedUnfolds(file, Where(h, byteCount, last), steps[k..], values);
      }
      assert steps[k..][1..] == steps[k + 1..] && steps[k..][0] == steps[k];
      var more, count, next, denied := ReadOne(h, steps[k], byteCount, last);
      if denied {
        byteCount := last;
        return;
      }
      values, byteCount, last := values + more, count, next;
    }
    assert steps[|steps|..] == [];
    if ready {
      BufferedEnd(file, Where(h, byteCount, last), values);
    }
  }

  /** One round of the reading loop. */
  method ReadOne(h: Buffer, step: Step, byteCount: int, last: int)
      returns (values: seq<Value>, count: int, next: int, denied: bool)
    requires h.Valid()
    modifies h, h.ptr
    ensures h.Valid() && (h.ptr == old(h.ptr) || fresh(h.ptr))
    ensures denied == !HasRoom(old(Where(h, byteCount, last)))
    ensures old(h.Coherent()) && denied ==> h.Coherent() && h.indx == old(h.indx) && h.big == old(h.big)
    ensures old(h.Coherent()) && HasRoom(old(Where(h, byteCount, last)))
            && Follows(|h.file|, old(Where(h, byteCount, last)), step) ==>
              h.Coherent() && Moved(values, Where(h, count, next)) == Move(h.file, old(Where(h, byteCount, last)), step)
  {
    hide Granted, NewLength, Get, EndianAfter;
    values, count, next := [], byteCount, last;
    denied := MakeRoom(h);
    if denied {
      return;
    }
    next := LastAfter(last, step);
    if step.Take? {
      values, count := ReadConversion(h, step.conversion, byteCount);
    } else {
      Jump(h, step);
      count := CountAfter(byteCount, step);
    }
  }

  method Jump(h: Buffer, step: Step)
    requires h.Valid() && h.indx < h.ptr.Length && !step.Take?
    modifies h, h.ptr
    ensures h.Valid() && (h.ptr == old(h.ptr) || fresh(h.ptr)) && h.big == old(h.big)
    ensures h.ptr.Length == old(Grown(h.ptr.Length, Tried(h.indx, step), Needed(step)))
    ensures old(h.Coherent() && 0 <= Target(h.indx, step) <= |h.file| && Reaches(h.ptr.Length, h.indx, step)) ==>
              h.Coherent() && h.indx == Target(old(h.indx), step)
  {
    hide Granted, NewLength;
    match step
    case GoTo(position) =>
      h.SeekSet(position);
    case GoBy(offset) =>
      h.SeekCur(offset);
  }

  /** The value of a read that failed: its place was cleared before, except for numbers of three and
      eight bytes, which come from a buffer that was not. */
  method Leftover(c: Conversion) returns (bs: seq<byte>)
    ensures |bs| == Width(c)
    ensures c != Number(3) && c != Number(8) ==> bs == seq(Width(c), _ => 0)
  {
    var zeros: seq<byte> := seq(Width(c), _ => 0);
    assert |zeros| == Width(c);
    bs :| |bs| == Width(c) && (c != Number(3) && c != Number(8) ==> bs == zeros);
  }

  method ReadConversion(h: Buffer, c: Conversion, byteCount: int) returns (values: seq<Value>, count: int)
    requires h.Valid() && h.indx < h.ptr.Length
    modifies h, h.ptr
    ensures h.Valid() && (h.ptr == old(h.ptr) || fresh(h.ptr))
    ensures h.ptr.Length == old(Grown(h.ptr.Length, h.indx + Width(c), Width(c)))
    ensures old(h.Coherent() && h.indx + Width(c) <= |h.file| && h.MayGrow(h.indx + Width(c), Width(c))) ==>
              && h.Coherent() && h.indx == old(h.indx) + Width(c)
              && h.big == EndianAfter(c, old(h.big)) && count == byteCount + Width(c)
              && values == Get(c, h.file[old(h.indx)..old(h.indx) + Width(c)], old(h.big))
    ensures old(h.Coherent() && !h.MayGrow(h.indx + Width(c), Width(c))) && c.Raw? ==>
              h.Coherent() && h.indx == old(h.indx) && h.big == old(h.big) && count == byteCount
              && values == [Bytes(seq(c.size, _ => 0))]
  {
    hide Granted, NewLength, FieldValue;
    match c
    case Little =>
      h.big := false;
      values, count := [], byteCount;
    case Big =>
      h.big := true;
      values, count := [], byteCount;
    case _ =>
      var n, data := h.Read(Width(c));
      var bs := data;
      if |data| != Width(c) {
        bs := Leftover(c);
      }
      values, count := Get(c, bs, h.big), byteCount + n;
  }

  /** Sixteen bytes of room before each conversion, and the index inside the buffer. */
  method MakeRoom(h: Buffer) returns (denied: bool)
    requires h.Valid()
    modifies h`ptr
    ensures h.Valid() && (h.ptr == old(h.ptr) || fresh(h.ptr))
    ensures denied == !old(h.MayGrow(h.indx + 16, 16))
    ensures !denied ==> h.indx < h.ptr.Length
    ensures h.ptr.Length == old(Grown(h.ptr.Length, h.indx + 16, 16))
    ensures old(h.Coherent()) ==> h.Coherent()
  {
    hide Granted, NewLength;
    OneGrowthIsEnough(h.ptr.Length, h.indx, 16);
    denied := false;
    if h.indx + 16 >= h.ptr.Length {
      denied := h.Bump(16);
      assert h.ptr[..h.end] == h.ptr[..old(h.ptr.Length)][..h.end];
    }
  }
}
