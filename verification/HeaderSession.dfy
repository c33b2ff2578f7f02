/** A header from end to end: printed into one buffer, read back through another by the same format. The
    writer asks for more room when a raw field would go beyond the buffer, the reader already when it
    reaches its end; so what was written whole is not always read whole. */
module HeaderSession {
  import opened Bits
  import opened Common
  import opened HeaderFormat
  import opened Header
  import opened HeaderReader

  /** The lengths of the two buffers at the same place: equal, or the writer's is full and the
      reader's has been doubled. */
  predicate Twins(written: nat, read: nat, pos: nat) {
    read == written || (pos == written && read == 2 * written <= LIMIT)
  }

  /** A raw item that ends exactly with a buffer that cannot grow. */
  predicate Tops(item: Item, end: nat, len: nat) {
    item.conversion.Raw? && end == len && !Granted(len, 16)
  }

  /** The last item does. */
  predicate FillsUp(items: seq<Item>, end: nat, len: nat) {
    items != [] && Tops(items[|items| - 1], end, len)
  }

  /** Writer and reader over one item. */
  lemma {:induction false} OneItem(item: Item, pos: nat, written: nat, read: nat)
    requires Matches(item) && INITIAL_SIZE <= written && pos <= written && Twins(written, read, pos)
    ensures var c, n := item.conversion, Width(item.conversion);
            var (len, ok) := Room(pos, written, RawSize(c));
            && (ok ==> INITIAL_SIZE <= len && pos + n <= len)
            && (StepGranted(read, pos, Take(c)) <==> ok && !Tops(item, pos + n, len))
            && (StepGranted(read, pos, Take(c)) ==> Twins(len, LengthAfter(read, pos, Take(c)), pos + n))
            && (ok && Tops(item, pos + n, len) ==> n > 0 && (pos + 16 >= read ==> Granted(read, 16)))
  {
  }

  lemma {:induction false} Stuck(items: seq<Item>, big: bool, len: nat)
    requires AllMatch(items) && items != [] && !Granted(len, 16)
    ensures !PrintFrom(items, big, len, len).complete
  {
  }

  lemma {:induction false} FillsUpLater(items: seq<Item>, end: nat, len: nat)
    requires |items| > 1
    ensures FillsUp(items, end, len) == FillsUp(items[1..], end, len)
  {
  }

  lemma {:induction false} FormatParts(items: seq<Item>)
    requires items != []
    ensures var steps := Takes(FormatOf(items));
            steps != [] && steps[0] == Take(items[0].conversion) && steps[1..] == Takes(FormatOf(items[1..]))
  {
    assert FormatOf(items)[1..] == FormatOf(items[1..]);
  }

  /** What the writer wrote, the reader is granted as well, unless the last item is raw and fills the
      buffer up to the limit. */
  lemma {:induction false} GrantedAgain(items: seq<Item>, big: bool, pos: nat, written: nat, read: nat)
    requires AllMatch(items) && INITIAL_SIZE <= written && pos <= written && Twins(written, read, pos)
    ensures var p := PrintFrom(items, big, pos, written);
            AllGranted(read, pos, Takes(FormatOf(items))) <==>
            p.complete && !FillsUp(items, pos + |p.bytes|, p.len)
    decreases |items|
  {
    hide Put, Room, StepGranted, LengthAfter, Granted, Tops, FormatOf, Takes, PrintFrom, AllGranted, Twins, FillsUp;
    if items == [] {
      NothingPrinted(big, pos, written, read);
    } else {
      var c := items[0].conversion;
      var (len, ok) := Room(pos, written, RawSize(c));
      OneItem(items[0], pos, written, read);
      GetPut(items[0], big);
      PrintFromUnfolds(items, big, pos, written);
      FormatParts(items);
      AllGrantedUnfolds(read, pos, Takes(FormatOf(items)));
      if ok {
        var next, end := EndianAfter(c, big), pos + Width(c);
        if Tops(items[0], end, len) {
          TopsOut(items, next, end, len);
        } else {
          GrantedAgain(items[1..], next, end, len, LengthAfter(read, pos, Take(c)));
          NotTheFirst(items, next, end, len);
        }
      }
    }
  }

  lemma {:induction false} NothingPrinted(big: bool, pos: nat, written: nat, read: nat)
    ensures var p := PrintFrom([], big, pos, written);
            p.complete && AllGranted(read, pos, Takes(FormatOf([]))) && !FillsUp([], pos + |p.bytes|, p.len)
  {
  }

  lemma {:induction false} AllGrantedUnfolds(len: nat, pos: nat, steps: seq<Step>)
    requires steps != [] && steps[0].Take?
    ensures AllGranted(len, pos, steps) <==>
            && StepGranted(len, pos, steps[0])
            && AllGranted(LengthAfter(len, pos, steps[0]), Target(pos, steps[0]), steps[1..])
  {
    hide StepGranted, LengthAfter;
  }

  /** After an item that tops the buffer nothing more can be written. */
  lemma {:induction false} TopsOut(items: seq<Item>, big: bool, end: nat, len: nat)
    requires AllMatch(items) && items != [] && Tops(items[0], end, len)
    ensures var p := PrintFrom(items[1..], big, end, len);
            p.complete ==> items[1..] == [] && FillsUp(items, end + |p.bytes|, p.len)
  {
    if |items| > 1 {
      Stuck(items[1..], big, len);
    }
  }

  lemma {:induction false} NotTheFirst(items: seq<Item>, big: bool, end: nat, len: nat)
    requires AllMatch(items) && items != [] && !Tops(items[0], end, len)
    ensures var p := PrintFrom(items[1..], big, end, len);
            FillsUp(items, end + |p.bytes|, p.len) == FillsUp(items[1..], end + |p.bytes|, p.len)
  {
    hide Tops, Granted;
    if |items| > 1 {
      FillsUpLater(items, end, len);
    }
  }

  // ----- when the reader is refused

  lemma {:induction false} MoveOn(file: seq<byte>, c: Cursor, item: Item)
    requires Matches(item) && StepGranted(c.len, c.pos, Take(item.conversion))
    requires var n := Width(item.conversion);
             c.pos + n <= |file| && file[c.pos..c.pos + n] == Put(item, c.big)
    ensures var step := Take(item.conversion);
            && HasRoom(c) && Follows(|file|, c, step)
            && var m := Move(file, c, step);
               && m.values == Returned(item) && m.next.len == LengthAfter(c.len, c.pos, step)
               && m.next.pos == c.pos + Width(item.conversion) && m.next.big == EndianAfter(item.conversion, c.big)
               && m.next.byteCount == c.byteCount + Width(item.conversion)
  {
    hide Put, Get, Returned, Granted, Grown;
    GetPut(item, c.big);
  }

  lemma {:induction false} MoveRefused(file: seq<byte>, c: Cursor, item: Item, written: nat)
    requires Matches(item) && INITIAL_SIZE <= written && c.pos <= written && Twins(written, c.len, c.pos)
    requires var n := Width(item.conversion);
             var (len, ok) := Room(c.pos, written, RawSize(item.conversion));
             ok && Tops(item, c.pos + n, len) && c.pos + n <= |file|
    ensures var step := Take(item.conversion);
            && HasRoom(c) && Follows(|file|, c, step)
            && var m := Move(file, c, step);
               m.values == [Bytes(seq(Width(item.conversion), _ => 0))] && m.next.byteCount == c.byteCount
  {
    OneItem(item, c.pos, written, c.len);
  }

  lemma {:induction false} BufferedStep(file: seq<byte>, c: Cursor, steps: seq<Step>)
    requires steps != [] && HasRoom(c) && Follows(|file|, c, steps[0])
    requires Followed(file, Move(file, c, steps[0]).next, steps[1..])
    ensures Followed(file, c, steps)
    ensures var m := Move(file, c, steps[0]);
            var rest := Buffered(file, m.next, steps[1..]);
            Buffered(file, c, steps) == rest.(values := m.values + rest.values)
  {
    hide HasRoom, Follows, Move;
  }

  lemma {:induction false} BufferedNone(file: seq<byte>, c: Cursor)
    ensures Followed(file, c, Takes(FormatOf([])))
    ensures Buffered(file, c, Takes(FormatOf([]))) == Outcome([], c.pos, c.big, c.byteCount)
  {
  }

  lemma {:induction false} NothingReturned()
    ensures AllReturned([]) == []
  {
  }

  lemma {:induction false} ReturnedFirst(items: seq<Item>)
    requires AllMatch(items)
    ensures items != [] ==> AllReturned(items) == Returned(items[0]) + AllReturned(items[1..])
  {
  }

  lemma {:induction false} FirstPart(file: seq<byte>, pos: nat, a: seq<byte>, b: seq<byte>)
    requires pos + |a + b| <= |file| && file[pos..pos + |a + b|] == a + b
    ensures pos + |a| <= |file| && file[pos..pos + |a|] == a
    ensures pos + |a| + |b| <= |file| && file[pos + |a|..pos + |a| + |b|] == b
  {
    assert file[pos..pos + |a|] == (a + b)[..|a|];
    assert file[pos + |a|..pos + |a| + |b|] == (a + b)[|a|..];
  }

  /** Reading back what the items were printed to gives zeros for the last one and does not count it. */
  predicate WithoutLast(file: seq<byte>, c: Cursor, items: seq<Item>, printed: nat)
    requires AllMatch(items) && items != []
  {
    && Followed(file, c, Takes(FormatOf(items)))
    && var r, n := Buffered(file, c, Takes(FormatOf(items))), |items| - 1;
       var size := Width(items[n].conversion);
       && size > 0 && r.byteCount == c.byteCount + printed - size
       && r.values == AllReturned(items[..n]) + [Bytes(seq(size, _ => 0))]
  }

  /** Only the raw item itself is left. */
  lemma {:induction false} OneRefused(file: seq<byte>, c: Cursor, items: seq<Item>, written: nat)
    requires AllMatch(items) && |items| == 1 && INITIAL_SIZE <= written && c.pos <= written
    requires Twins(written, c.len, c.pos) && c.pos + Width(items[0].conversion) <= |file|
    requires var (len, ok) := Room(c.pos, written, RawSize(items[0].conversion));
             ok && Tops(items[0], c.pos + Width(items[0].conversion), len)
    ensures WithoutLast(file, c, items, Width(items[0].conversion))
  {
    hide Room, Granted, FormatOf, Takes, Twins, Tops, Followed, Buffered, Move, HasRoom, Follows, AllReturned;
    OneItem(items[0], c.pos, written, c.len);
    FormatParts(items);
    var steps := Takes(FormatOf(items));
    assert items[1..] == [] && items[..0] == [];
    MoveRefused(file, c, items[0], written);
    BufferedNone(file, Move(file, c, steps[0]).next);
    BufferedStep(file, c, steps);
    NothingReturned();
  }

  lemma {:induction false} ReturnedAndMore(items: seq<Item>, more: seq<Value>)
    requires AllMatch(items) && |items| > 1
    ensures var n := |items| - 1;
            AllReturned(items[..n]) + more == Returned(items[0]) + (AllReturned(items[1..][..n - 1]) + more)
  {
    hide AllReturned, Returned;
    var n := |items| - 1;
    ReturnedFirst(items[..n]);
    assert items[..n][1..] == items[1..][..n - 1];
    SeqAssociative(Returned(items[0]), AllReturned(items[1..][..n - 1]), more);
  }

  lemma {:induction false} MoreReturned(file: seq<byte>, c: Cursor, items: seq<Item>, printed: nat)
    requires AllMatch(items) && |items| > 1 && HasRoom(c) && Follows(|file|, c, Take(items[0].conversion))
    requires var m := Move(file, c, Take(items[0].conversion));
             && m.values == Returned(items[0]) && m.next.byteCount == c.byteCount + Width(items[0].conversion)
             && WithoutLast(file, m.next, items[1..], printed)
    ensures WithoutLast(file, c, items, Width(items[0].conversion) + printed)
  {
    hide FormatOf, Takes, Followed, Buffered, Move, HasRoom, Follows, Returned, AllReturned, Width;
    FormatParts(items);
    BufferedStep(file, c, Takes(FormatOf(items)));
    ReturnedAndMore(items, [Bytes(seq(Width(items[|items| - 1].conversion), _ => 0))]);
  }

  lemma {:induction false} SomeItem(items: seq<Item>, end: nat, len: nat)
    requires FillsUp(items, end, len)
    ensures items != []
  {
  }

  /** The first item and the rest, as they stand in the file. */
  lemma {:induction false} FirstAndRest(file: seq<byte>, c: Cursor, items: seq<Item>, written: nat)
    requires AllMatch(items) && c.pos <= written
    requires var p := PrintFrom(items, c.big, c.pos, written);
             && p.complete && FillsUp(items, c.pos + |p.bytes|, p.len)
             && c.pos + |p.bytes| <= |file| && file[c.pos..c.pos + |p.bytes|] == p.bytes
    ensures items != []
    ensures var p, conversion := PrintFrom(items, c.big, c.pos, written), items[0].conversion;
            var (len, ok) := Room(c.pos, written, RawSize(conversion));
            var end, next := c.pos + Width(conversion), EndianAfter(conversion, c.big);
            var rest := PrintFrom(items[1..], next, end, len);
            && ok && rest.complete && rest.len == p.len
            && |p.bytes| == Width(conversion) + |rest.bytes| && end + |rest.bytes| <= |file|
            && file[c.pos..end] == Put(items[0], c.big) && file[end..end + |rest.bytes|] == rest.bytes
  {
    hide Put, Room, PrintFrom, FillsUp, EndianAfter, Width, RawSize;
    var p := PrintFrom(items, c.big, c.pos, written);
    SomeItem(items, c.pos + |p.bytes|, p.len);
    var conversion := items[0].conversion;
    var len := Room(c.pos, written, RawSize(conversion)).0;
    PrintFromUnfolds(items, c.big, c.pos, written);
    GetPut(items[0], c.big);
    FirstPart(file, c.pos, Put(items[0], c.big),
      PrintFrom(items[1..], EndianAfter(conversion, c.big), c.pos + Width(conversion), len).bytes);
  }

  /** Zeros come back for the last item, and its bytes are not counted. */
  lemma {:induction false} LastRefused(file: seq<byte>, c: Cursor, items: seq<Item>, written: nat)
    requires AllMatch(items) && INITIAL_SIZE <= written && c.pos <= written && Twins(written, c.len, c.pos)
    requires var p := PrintFrom(items, c.big, c.pos, written);
             && p.complete && FillsUp(items, c.pos + |p.bytes|, p.len)
             && c.pos + |p.bytes| <= |file| && file[c.pos..c.pos + |p.bytes|] == p.bytes
    ensures items != [] && WithoutLast(file, c, items, |PrintFrom(items, c.big, c.pos, written).bytes|)
    decreases |items|
  {
    hide Put, Room, StepGranted, LengthAfter, Granted, PrintFrom, Twins, Tops, WithoutLast;
    hide Move, HasRoom, Follows, Returned, FillsUp, EndianAfter, Width, RawSize;
    FirstAndRest(file, c, items, written);
    var conversion := items[0].conversion;
    var len := Room(c.pos, written, RawSize(conversion)).0;
    var end, next := c.pos + Width(conversion), EndianAfter(conversion, c.big);
    OneItem(items[0], c.pos, written, c.len);
    if Tops(items[0], end, len) {
      TopsOut(items, next, end, len);
      PrintFromEnd(next, end, len);
      OneRefused(file, c, items, written);
    } else {
      NotTheFirst(items, next, end, len);
      MoveOn(file, c, items[0]);
      LastRefused(file, Move(file, c, Take(conversion)).next, items[1..], len);
      MoreReturned(file, c, items, |PrintFrom(items[1..], next, end, len).bytes|);
    }
  }

  // ----- both together

  /** What the printing loop writes from a fresh buffer on. */
  function Printing(items: seq<Item>): Printed
    requires AllMatch(items)
  {
    PrintFrom(items, false, 0, INITIAL_SIZE)
  }

  /** The printed header ends with raw bytes at the end of a buffer that cannot grow. */
  predicate FillsBuffer(items: seq<Item>)
    requires AllMatch(items)
  {
    FillsUp(items, |Printing(items).bytes|, Printing(items).len)
  }

  /** Print items, and read what has been printed with the same format. What was written whole comes
      back whole, every argument reduced to its field, if and only if it does not end with raw bytes
      that fill the buffer up to its limit; if it does, zeros come back for these and they are not
      counted. */
  method WriteThenRead(items: seq<Item>) returns (header: seq<byte>, values: seq<Value>, byteCount: int)
    requires AllMatch(items)
    ensures header == Printing(items).bytes
    ensures Printing(items).complete && !FillsBuffer(items) ==>
              values == AllReturned(items) && byteCount == |header| == |Print(items, false)|
    ensures Printing(items).complete && FillsBuffer(items) ==>
              && items != []
              && var n := |items| - 1;
                 var size := Width(items[n].conversion);
                 && values == AllReturned(items[..n]) + [Bytes(seq(size, _ => 0))]
                 && byteCount == |header| - size < |header|
  {
    hide PrintFrom, Print, FillsUp, Followed, Buffered, ReadFile, InFile, AllGranted, FormatOf, Takes, AllReturned;
    var writer := new Buffer([]);
    var count := writer.WriteF(items);
    header := writer.ptr[..writer.indx];
    var reader := new Buffer(header);
    ghost var c := Where(reader, 0, 0);
    GrantedAgain(items, false, 0, INITIAL_SIZE, INITIAL_SIZE);
    if Printing(items).complete {
      WrittenWhole(items);
      if FillsBuffer(items) {
        LastRefused(header, c, items, INITIAL_SIZE);
      } else {
        PrintThenRead(header, 0, items, false);
      }
    }
    values, byteCount := ReadF(reader, Takes(FormatOf(items)));
  }

  lemma {:induction false} WrittenWhole(items: seq<Item>)
    requires AllMatch(items) && Printing(items).complete
    ensures Printing(items).bytes == Print(items, false)
  {
    hide PrintFrom, Print;
    var k := PrintsSomeItems(items, false, 0, INITIAL_SIZE);
    assert items[..k] == items;
  }

  /** Two raw items of 51200 bytes each are written whole, and fill the buffer. */
  lemma {:induction false} TwoHalvesFill(a: Item, b: Item)
    requires a.conversion == b.conversion == Raw(LIMIT / 2) && Matches(a) && Matches(b)
    ensures AllMatch([a, b]) && Printing([a, b]).complete && FillsBuffer([a, b])
  {
    var items := [a, b];
    assert items[1..] == [b] && items[1..][1..] == [];
    hide PrintFrom, Put;
    PrintFromUnfolds(items, false, 0, INITIAL_SIZE);
    PrintFromUnfolds([b], false, LIMIT / 2, LIMIT);
    PrintFromEnd(false, LIMIT, LIMIT);
    GetPut(a, false);
    GetPut(b, false);
    assert [b][1..] == [];
  }
}
