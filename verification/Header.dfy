/** The header buffer of a sound file: when writing, it is filled by format strings; when reading, it
    caches the front of the file. It grows as needed up to a limit. */
module Header {
  import opened Bits
  import opened HeaderFormat

  const INITIAL_SIZE := 256
  const LIMIT := 102400

  function Max(m: int, n: nat): nat {
    if m < n then n else m
  }

  // ----- growth

  /** The length the buffer is given when `needed` more bytes are asked for. */
  function NewLength(len: nat, needed: nat): nat {
    if needed > len then 2 * Max(needed, INITIAL_SIZE) else 2 * len
  }

  predicate Granted(len: nat, needed: nat) {
    NewLength(len, needed) <= LIMIT
  }

  /** The length once room has been asked for, which happens when `target` does not lie inside. */
  function Grown(len: nat, target: int, needed: nat): nat {
    if target >= len && Granted(len, needed) then NewLength(len, needed) else len
  }

  /** One growth makes room for `needed` bytes from any index inside the buffer, and one to spare. */
  lemma {:induction false} OneGrowthIsEnough(len: nat, indx: nat, needed: nat)
    requires INITIAL_SIZE <= len && indx <= len
    ensures indx + needed <= NewLength(len, needed)
    ensures indx < len ==> indx + needed < NewLength(len, needed)
    ensures NewLength(len, needed) >= 2 * len
  {
    assert needed > len ==> NewLength(len, needed) >= 2 * needed;
  }

  /** A growth doubles the length, or what is needed where that is more, and is granted as long as that
      stays at 100 kilobytes. */
  lemma {:induction false} GrowthDoubles(len: nat, needed: nat)
    requires len >= INITIAL_SIZE
    ensures NewLength(len, needed) == 2 * Max(len, needed)
    ensures Granted(len, needed) <==> len <= 51200 && needed <= 51200
  {
  }

  // ----- printing into the buffer

  datatype Printed = Printed(bytes: seq<byte>, len: nat, big: bool, complete: bool)

  /** Room for the next conversion, and for `size` bytes of raw data; false when growth is denied. */
  function Room(indx: nat, len: nat, size: nat): (r: (nat, bool)) {
    if indx + 16 >= len && !Granted(len, 16) then (len, false)
    else
      var len1 := if indx + 16 >= len then NewLength(len, 16) else len;
      if indx + size > len1 && !Granted(len1, size) then (len1, false)
      else (if indx + size > len1 then NewLength(len1, size) else len1, true)
  }

  function RawSize(c: Conversion): nat {
    if c.Raw? then c.size else 0
  }

  /** What a write leaves in the buffer from `indx` on; it ends early when growth is denied. */
  function PrintFrom(items: seq<Item>, big: bool, indx: nat, len: nat): (p: Printed)
    requires AllMatch(items)
    decreases |items|
  {
    if items == [] then Printed([], len, big, true)
    else
      var c := items[0].conversion;
      var (len1, ok) := Room(indx, len, RawSize(c));
      if !ok then Printed([], len1, big, false)
      else
        var bytes := Put(items[0], big);
        var rest := PrintFrom(items[1..], EndianAfter(c, big), indx + |bytes|, len1);
        rest.(bytes := bytes + rest.bytes)
  }

  /** Whatever growth is denied, the bytes are those of some first items; of all when it is not. */
  lemma {:induction false} PrintsSomeItems(items: seq<Item>, big: bool, indx: nat, len: nat) returns (k: nat)
    requires AllMatch(items)
    ensures k <= |items| && PrintFrom(items, big, indx, len).bytes == Print(items[..k], big)
    ensures PrintFrom(items, big, indx, len).complete ==> k == |items|
    decreases |items|
  {
    hide Room, Put, Print;
    PrintNone(big);
    k := 0;
    if items == [] {
      assert items[..0] == [];
    } else {
      var c := items[0].conversion;
      var room := Room(indx, len, RawSize(c));
      if room.1 {
        var bytes := Put(items[0], big);
        var j := PrintsSomeItems(items[1..], EndianAfter(c, big), indx + |bytes|, room.0);
        k := j + 1;
        PrintUnfolds(items[..k], big);
        assert items[..k][1..] == items[1..][..j];
      }
    }
  }

  lemma {:induction false} PrintNone(big: bool)
    ensures Print([], big) == []
  {
  }

  lemma {:induction false} PrintUnfolds(items: seq<Item>, big: bool)
    requires items != [] && AllMatch(items)
    ensures Print(items, big) == Put(items[0], big) + Print(items[1..], EndianAfter(items[0].conversion, big))
  {
  }

  /** Headers that end well below the limit are always written whole. */
  lemma {:induction false} SmallHeadersFit(items: seq<Item>, big: bool, indx: nat, len: nat)
    requires AllMatch(items) && INITIAL_SIZE <= len <= LIMIT && indx <= len
    requires indx + |Print(items, big)| + 16 <= LIMIT / 2
    ensures var p := PrintFrom(items, big, indx, len);
            p.complete && p.bytes == Print(items, big) && p.len <= LIMIT
    decreases |items|
  {
    if items != [] {
      hide Put, Print;
      var c := items[0].conversion;
      var bytes := Put(items[0], big);
      PrintUnfolds(items, big);
      GetPut(items[0], big);
      SmallHeadersFit(items[1..], EndianAfter(c, big), indx + |bytes|, Room(indx, len, RawSize(c)).0);
    } else {
      PrintNone(big);
    }
  }

  /** The last place at which a number can be written, or anything else but raw bytes, is 17 bytes before
      the limit. */
  lemma {:induction false} LastRoom(item: Item, big: bool, indx: nat)
    requires Matches(item) && !item.conversion.Raw? && indx <= LIMIT
    ensures AllMatch([item]) && (PrintFrom([item], big, indx, LIMIT).complete <==> indx < LIMIT - 16)
  {
    hide Put;
    assert [item][1..] == [];
  }

  class Buffer {
    var ptr: array<byte>
    var indx: nat
    var end: nat
    var big: bool
    /** The file, when reading. */
    const file: seq<byte>
    var filePos: nat

    ghost predicate Valid()
      reads this, ptr
    {
      ptr.Length >= INITIAL_SIZE && indx <= ptr.Length && end <= ptr.Length
    }

    /** The buffer holds the front of the file, up to where the file has been read. */
    ghost predicate Coherent()
      reads this, ptr
    {
      && Valid()
      && indx <= end <= |file| && filePos == end
      && ptr[..end] == file[..end]
    }

    constructor (file: seq<byte>)
      ensures Coherent() && fresh(ptr) && this.file == file && indx == 0 && !big && ptr.Length == INITIAL_SIZE
    {
      ptr := new byte[INITIAL_SIZE](_ => 0);
      indx, end, filePos, big := 0, 0, 0, false;
      this.file := file;
    }

    /** Make room for `needed` more bytes, if the limit allows it. */
    method Bump(needed: nat) returns (denied: bool)
      requires Valid()
      modifies this`ptr
      ensures Valid() && denied == !Granted(old(ptr.Length), needed)
      ensures denied ==> ptr == old(ptr)
      ensures !denied ==> fresh(ptr) && ptr.Length == NewLength(old(ptr.Length), needed)
      ensures ptr[..old(ptr.Length)] == old(ptr[..])
    {
      var newLen := NewLength(ptr.Length, needed);
      OneGrowthIsEnough(ptr.Length, indx, needed);
      if newLen > LIMIT {
        return true;
      }
      var larger := new byte[newLen](_ => 0);
      var n := ptr.Length;
      for k := 0 to n
        invariant unchanged(`ptr) && n == ptr.Length && larger[..k] == ptr[..k]
      {
        larger[k] := ptr[k];
      }
      ptr := larger;
      denied := false;
    }

    /** Read from the file into the buffer. */
    method FileRead(at: nat, n: nat) returns (count: nat)
      requires Valid() && at + n <= ptr.Length
      modifies this`filePos, ptr
      ensures Valid() && filePos == old(filePos) + count
      ensures count == if old(filePos) >= |file| then 0
                       else if n < |file| - old(filePos) then n else |file| - old(filePos)
      ensures ptr[..at] == old(ptr[..at])
      ensures count > 0 ==> ptr[at..at + count] == file[old(filePos)..old(filePos) + count]
    {
      count := if filePos >= |file| then 0 else if n < |file| - filePos then n else |file| - filePos;
      if count == 0 {
        return;
      }
      for k := 0 to count
        modifies ptr
        invariant ptr[..at] == old(ptr[..at])
        invariant ptr[at..at + k] == file[filePos..filePos + k]
      {
        ptr[at + k] := file[filePos + k];
      }
      filePos := filePos + count;
    }

    /** Growth is not needed for `n` bytes from here, or is granted. */
    predicate MayGrow(target: int, n: nat)
      reads this, ptr
    {
      target >= ptr.Length ==> Granted(ptr.Length, n)
    }

    /** Read on until the buffer holds the file up to `target`. */
    method Fill(target: nat) returns (count: nat, ok: bool)
      requires Valid() && end < target <= ptr.Length
      modifies this`end, this`filePos, ptr
      ensures Valid() && count <= target - old(end)
      ensures ok == (count == target - old(end))
      ensures end == if ok then target else old(end)
      ensures old(Coherent()) ==> ok == (target <= |file|) && ptr[..end] == file[..end]
      ensures old(Coherent()) ==> filePos == (if ok then target else |file|) && count == filePos - old(end)
    {
      var want := target - end;
      count := FileRead(end, want);
      ok := count == want;
      if ok {
        assert ptr[..end + count] == ptr[..end] + ptr[end..end + count];
        end := end + count;
      }
    }

    /** Take bytes out of the header, reading what is not yet there. With the buffer in step, a read
        inside the file gives the bytes at the logical position; a read past the end of the file, or
        one that cannot get room, takes nothing. */
    method Read(bytes: nat) returns (count: nat, data: seq<byte>)
      requires Valid()
      modifies this, ptr
      ensures Valid() && (ptr == old(ptr) || fresh(ptr)) && big == old(big)
      ensures data == [] || |data| == bytes
      ensures ptr.Length == old(Grown(ptr.Length, indx + bytes, bytes))
      ensures !old(MayGrow(indx + bytes, bytes)) ==> count == 0 && data == [] && unchanged(this) && unchanged(ptr)
      ensures old(Coherent() && MayGrow(indx + bytes, bytes) && indx + bytes <= |file|) ==>
                Coherent() && count == bytes && data == file[old(indx)..old(indx) + bytes]
                && indx == old(indx) + bytes
      ensures old(Coherent() && MayGrow(indx + bytes, bytes) && indx + bytes > |file|) ==>
                count == |file| - old(end) && data == [] && indx == old(indx) && end == old(end)
                && filePos == |file| && ptr[..end] == file[..end]
    {
      hide NewLength, Granted;
      var denied := MakeRoom(bytes);
      if denied {
        return 0, [];
      }
      if indx + bytes > end {
        var ok;
        count, ok := Fill(indx + bytes);
        if !ok {
          return count, [];
        }
      }
      data := ptr[indx..indx + bytes];
      SliceOfFront(ptr[..], end, indx, bytes);
      FrontOfFront(ptr[..end], file, indx, bytes);
      indx := indx + bytes;
      count := bytes;
    }

    /** Growth before a read; a denied one changes nothing. */
    method MakeRoom(bytes: nat) returns (denied: bool)
      requires Valid()
      modifies this`ptr
      ensures Valid() && (ptr == old(ptr) || fresh(ptr))
      ensures denied == !old(MayGrow(indx + bytes, bytes))
      ensures denied ==> ptr == old(ptr)
      ensures !denied ==> indx + bytes <= ptr.Length
      ensures ptr.Length == old(Grown(ptr.Length, indx + bytes, bytes))
      ensures !denied && old(Coherent()) ==> Coherent()
    {
      OneGrowthIsEnough(ptr.Length, indx, bytes);
      denied := false;
      if indx + bytes >= ptr.Length {
        denied := Bump(bytes);
        assert !denied && old(Coherent()) ==> Coherent() by {
          assert ptr[..end] == ptr[..old(ptr.Length)][..end];
        }
      }
    }

    /** Go to a place counted from the start: in the buffer if it has, or is given, that length, and
        else only in the file. */
    method SeekSet(position: nat)
      requires Valid()
      modifies this, ptr
      ensures Valid() && (ptr == old(ptr) || fresh(ptr)) && big == old(big)
      ensures ptr.Length == old(Grown(ptr.Length, indx + position, position))
      ensures old(MayGrow(indx + position, position)) ==> position <= ptr.Length
      ensures old(Coherent()) && position <= ptr.Length ==> indx == position && (Coherent() <==> position <= |file|)
      ensures position > ptr.Length ==> indx == old(indx) && end == old(end) && filePos == position
    {
      hide NewLength, Granted;
      OneGrowthIsEnough(ptr.Length, indx, position);
      if indx + position >= ptr.Length {
        var denied := Bump(position);
        assert old(Coherent()) && !denied ==> Coherent() by {
          assert ptr[..end] == ptr[..old(ptr.Length)][..end];
        }
      }
      if position > ptr.Length {
        // Too much header to cache.
        filePos := position;
        return;
      }
      if position > end {
        var want := position - end;
        var count, ok := Fill(position);
        if !ok {
          end := end + count;
        }
      }
      indx := position;
    }

    /** Go forwards or backwards from inside the buffer. */
    method SeekCur(offset: int)
      requires Valid()
      modifies this, ptr
      ensures Valid() && (ptr == old(ptr) || fresh(ptr)) && big == old(big)
      ensures ptr.Length == old(Grown(ptr.Length, indx + offset, Max(offset, 0)))
      ensures old(MayGrow(indx + offset, Max(offset, 0))) ==> old(indx) + offset <= ptr.Length
      ensures old(Coherent()) && old(indx) < ptr.Length && 0 <= old(indx) + offset <= ptr.Length
              && old(indx) + offset <= |file| ==>
                Coherent() && indx == old(indx) + offset
      ensures old(indx) < ptr.Length < old(indx) + offset ==>
                indx == end == old(end) && filePos == old(filePos) + offset
    {
      hide NewLength, Granted;
      if indx + offset >= ptr.Length {
        OneGrowthIsEnough(ptr.Length, indx, offset);
        var denied := Bump(offset);
        assert old(Coherent()) && !denied ==> Coherent() by {
          assert ptr[..end] == ptr[..old(ptr.Length)][..end];
        }
      }
      if indx + offset < 0 {
        return;
      }
      if indx >= ptr.Length {
        filePos := if filePos + offset < 0 then filePos else filePos + offset;
        return;
      }
      if indx + offset <= end {
        indx := indx + offset;
        return;
      }
      if indx + offset > ptr.Length {
        // Jump over it without caching it.
        indx := end;
        filePos := filePos + offset;
        return;
      }
      var count, ok := Fill(indx + offset);
      if !ok {
        end := end + count;
      }
      indx := end;
    }

    /** Put bytes into the buffer at the index, which moves behind them. */
    method PutBytes(bytes: seq<byte>)
      requires Valid() && indx + |bytes| <= ptr.Length
      modifies this`indx, ptr
      ensures Valid() && indx == old(indx) + |bytes|
      ensures ptr[..indx] == old(ptr[..indx]) + bytes
    {
      for k := 0 to |bytes|
        modifies ptr
        invariant ptr[..indx] == old(ptr[..indx])
        invariant ptr[indx..indx + k] == bytes[..k]
      {
        ptr[indx + k] := bytes[k];
      }
      assert ptr[..indx + |bytes|] == ptr[..indx] + ptr[indx..indx + |bytes|];
      indx := indx + |bytes|;
    }

    /** Print items with their arguments; the number of bytes written is returned. */
    method WriteF(items: seq<Item>) returns (count: nat)
      requires Valid() && AllMatch(items)
      modifies this, ptr
      ensures Valid() && (ptr == old(ptr) || fresh(ptr))
      ensures var p := PrintFrom(items, old(big), old(indx), old(ptr.Length));
              && count == |p.bytes| && indx == old(indx) + count
              && ptr[..indx] == old(ptr[..indx]) + p.bytes
              && big == p.big && ptr.Length == p.len
    {
      hide NewLength, Granted, PrintFrom, Room, Put, Joined;
      count := 0;
      ghost var done: seq<byte> := [];
      ghost var all := PrintFrom(items, big, indx, ptr.Length);
      NothingJoined(all);
      for k := 0 to |items|
        invariant Valid() && (ptr == old(ptr) || fresh(ptr))
        invariant count == |done| && indx == old(indx) + count
        invariant ptr[..indx] == old(ptr[..indx]) + done
        invariant Joined(done, PrintFrom(items[k..], big, indx, ptr.Length)) == all
      {
        PrintFromUnfolds(items[k..], big, indx, ptr.Length);
        assert items[k..][1..] == items[k + 1..];
        var bytes, ok := WriteOne(items[k]);
        if !ok {
          JoinedEnd(done, Printed([], ptr.Length, big, false));
          return;
        }
        JoinedMore(done, bytes, PrintFrom(items[k + 1..], big, indx, ptr.Length));
        done := done + bytes;
        count := count + |bytes|;
      }
      PrintFromEnd(big, indx, ptr.Length);
      assert items[|items|..] == [];
      JoinedEnd(done, PrintFrom([], big, indx, ptr.Length));
    }

    /** One round of the printing loop; not `ok` when growth was denied. */
    method WriteOne(item: Item) returns (bytes: seq<byte>, ok: bool)
      requires Valid() && Matches(item)
      modifies this, ptr
      ensures Valid() && (ptr == old(ptr) || fresh(ptr))
      ensures (ptr.Length, ok) == Room(old(indx), old(ptr.Length), RawSize(item.conversion))
      ensures bytes == if ok then Put(item, old(big)) else []
      ensures indx == old(indx) + |bytes| && ptr[..indx] == old(ptr[..indx]) + bytes
      ensures big == if ok then EndianAfter(item.conversion, old(big)) else old(big)
    {
      hide NewLength, Granted, Get, Returned;
      bytes, ok := [], true;
      OneGrowthIsEnough(ptr.Length, indx, 16);
      GetPut(item, big);
      ghost var front := ptr[..indx];
      if indx + 16 >= ptr.Length {
        var denied := Bump(16);
        assert ptr[..indx] == front by { assert ptr[..indx] == ptr[..old(ptr.Length)][..indx]; }
        if denied {
          return [], false;
        }
      }
      match item.conversion
      case Little => big := false;
      case Big => big := true;
      case Marker =>
        bytes := FieldBytes(item.value.v, 4, false);
        PutBytes(bytes);
      case Number(width) =>
        bytes := FieldBytes(item.value.v, width, big);
        PutBytes(bytes);
      case Raw(size) =>
        OneGrowthIsEnough(ptr.Length, indx, size);
        if indx + size > ptr.Length {
          ghost var was := ptr.Length;
          var denied := Bump(size);
          assert ptr[..indx] == front by { assert ptr[..indx] == ptr[..was][..indx]; }
          if denied {
            return [], false;
          }
        }
        bytes := item.value.bs;
        PutBytes(bytes);
    }
  }

  function Joined(done: seq<byte>, p: Printed): Printed {
    p.(bytes := done + p.bytes)
  }

  lemma {:induction false} NothingJoined(p: Printed)
    ensures Joined([], p) == p
  {
  }

  lemma {:induction false} JoinedEnd(done: seq<byte>, p: Printed)
    requires p.bytes == []
    ensures Joined(done, p) == Printed(done, p.len, p.big, p.complete)
  {
  }

  lemma {:induction false} JoinedMore(done: seq<byte>, bytes: seq<byte>, p: Printed)
    ensures Joined(done + bytes, p) == Joined(done, p.(bytes := bytes + p.bytes))
  {
    assert (done + bytes) + p.bytes == done + (bytes + p.bytes);
  }

  lemma {:induction false} PrintFromEnd(big: bool, indx: nat, len: nat)
    ensures PrintFrom([], big, indx, len) == Printed([], len, big, true)
  {
  }

  lemma {:induction false} PrintFromUnfolds(items: seq<Item>, big: bool, indx: nat, len: nat)
    requires items != [] && AllMatch(items)
    ensures var c := items[0].conversion;
            var room := Room(indx, len, RawSize(c));
            var bytes := Put(items[0], big);
            var rest := PrintFrom(items[1..], EndianAfter(c, big), indx + |bytes|, room.0);
            PrintFrom(items, big, indx, len) ==
              if !room.1 then Printed([], room.0, big, false) else rest.(bytes := bytes + rest.bytes)
  {
  }

  lemma {:induction false} SliceOfFront(s: seq<byte>, end: nat, indx: nat, bytes: nat)
    requires indx + bytes <= end <= |s|
    ensures s[indx..indx + bytes] == s[..end][indx..indx + bytes]
  {
  }

  lemma {:induction false} FrontOfFront(front: seq<byte>, file: seq<byte>, indx: nat, bytes: nat)
    requires indx + bytes <= |front|
    ensures |front| <= |file| && front == file[..|front|] ==> front[indx..indx + bytes] == file[indx..indx + bytes]
  {
  }
}
