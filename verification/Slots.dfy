/** The slots of a bounded buffer: an array of item numbers in which 0 marks a free place. */
module Slots {

  /** The items in the buffer. */
  function Contents(slots: seq<int>): multiset<int> {
    if slots == [] then multiset{}
    else Item(slots[0]) + Contents(slots[1..])
  }

  function Item(x: int): multiset<int> {
    if x == 0 then multiset{} else multiset{x}
  }

  /** The lowest index from `i` on at which `wanted` says whether the slot is free. */
  function Lowest(slots: seq<int>, i: nat, free: bool): (r: nat)
    requires i <= |slots|
    ensures i <= r <= |slots|
    ensures r < |slots| ==> (slots[r] == 0) == free
    ensures forall j :: i <= j < r ==> (slots[j] == 0) != free
    decreases |slots| - i
  {
    if i == |slots| || (slots[i] == 0) == free then i else Lowest(slots, i + 1, free)
  }

  function Written(slots: seq<int>, data: int): seq<int> {
    var i := Lowest(slots, 0, true);
    if i < |slots| then slots[i := data] else slots
  }

  function ReadValue(slots: seq<int>): int {
    var i := Lowest(slots, 0, false);
    if i < |slots| then slots[i] else 0
  }

  function AfterRead(slots: seq<int>): seq<int> {
    var i := Lowest(slots, 0, false);
    if i < |slots| then slots[i := 0] else slots
  }

  method WriteToBuffer(buffer: array<int>, bufferSize: nat, data: int)
    requires bufferSize == buffer.Length
    modifies buffer
    ensures buffer[..] == Written(old(buffer[..]), data)
  {
    var i := 0;
    while i < bufferSize
      invariant 0 <= i <= bufferSize && buffer[..] == old(buffer[..])
      invariant Lowest(buffer[..], i, true) == Lowest(buffer[..], 0, true)
    {
      if buffer[i] == 0 {
        buffer[i] := data;
        return;
      }
      i := i + 1;
    }
  }

  method ReadFromBuffer(buffer: array<int>, bufferSize: nat) returns (value: int)
    requires bufferSize == buffer.Length
    modifies buffer
    ensures value == ReadValue(old(buffer[..]))
    ensures buffer[..] == AfterRead(old(buffer[..]))
  {
    var i := 0;
    while i < bufferSize
      invariant 0 <= i <= bufferSize && buffer[..] == old(buffer[..])
      invariant Lowest(buffer[..], i, false) == Lowest(buffer[..], 0, false)
    {
      if buffer[i] != 0 {
        value := buffer[i];
        buffer[i] := 0;
        return;
      }
      i := i + 1;
    }
    value := 0;
  }

  lemma {:induction false} Exchange(
      first: multiset<int>, a: multiset<int>, b: multiset<int>, x: multiset<int>, y: multiset<int>)
    requires a + x == b + y
    ensures (first + a) + x == (first + b) + y
  {
    assert (first + a) + x == first + (a + x);
    assert (first + b) + y == first + (b + y);
  }

  lemma {:induction false} ContentsUpdate(slots: seq<int>, i: nat, x: int)
    requires i < |slots|
    ensures Contents(slots[i := x]) + Item(slots[i]) == Contents(slots) + Item(x)
  {
    hide Item;
    var rest := slots[1..];
    if i > 0 {
      assert slots[i := x][1..] == rest[i - 1 := x];
      ContentsUpdate(rest, i - 1, x);
      Exchange(Item(slots[0]), Contents(rest[i - 1 := x]), Contents(rest), Item(rest[i - 1]), Item(x));
    } else {
      assert slots[i := x][1..] == rest;
      assert Item(x) + Contents(rest) + Item(slots[0]) == Item(slots[0]) + Contents(rest) + Item(x);
    }
  }

  lemma {:induction false} ContentsSize(slots: seq<int>)
    ensures |Contents(slots)| <= |slots|
    ensures |Contents(slots)| < |slots| ==> exists i :: 0 <= i < |slots| && slots[i] == 0
    ensures |Contents(slots)| > 0 ==> exists i :: 0 <= i < |slots| && slots[i] != 0
  {
    if slots != [] {
      var rest := slots[1..];
      ContentsSize(rest);
      assert |Contents(slots)| == |Item(slots[0])| + |Contents(rest)|;
      if exists i :: 0 <= i < |rest| && rest[i] == 0 {
        var i :| 0 <= i < |rest| && rest[i] == 0;
        assert slots[i + 1] == 0;
      }
      if exists i :: 0 <= i < |rest| && rest[i] != 0 {
        var i :| 0 <= i < |rest| && rest[i] != 0;
        assert slots[i + 1] != 0;
      }
    }
  }

  lemma {:induction false} AllFree(slots: seq<int>)
    requires forall i :: 0 <= i < |slots| ==> slots[i] == 0
    ensures Contents(slots) == multiset{}
  {
    if slots != [] {
      AllFree(slots[1..]);
    }
  }

  /** Writing into a buffer that is not full adds exactly the item. */
  lemma {:induction false} WriteAdds(slots: seq<int>, data: int)
    requires |Contents(slots)| < |slots| && data != 0
    ensures Contents(Written(slots, data)) == Contents(slots) + multiset{data}
    ensures |Written(slots, data)| == |slots|
  {
    ContentsSize(slots);
    var i := Lowest(slots, 0, true);
    ContentsUpdate(slots, i, data);
  }

  /** Reading from a buffer that is not empty takes out exactly the item it returns. */
  lemma {:induction false} ReadRemoves(slots: seq<int>)
    requires |Contents(slots)| > 0
    ensures ReadValue(slots) != 0 && ReadValue(slots) in slots
    ensures Contents(AfterRead(slots)) + multiset{ReadValue(slots)} == Contents(slots)
    ensures |AfterRead(slots)| == |slots|
  {
    ContentsSize(slots);
    var i := Lowest(slots, 0, false);
    ContentsUpdate(slots, i, 0);
  }

  /** Writing uses the first free place, reading the first filled one; without one nothing happens. */
  lemma {:induction false} FirstPlace(slots: seq<int>, data: int, i: nat)
    requires i <= |slots|
    ensures (forall j :: 0 <= j < i ==> slots[j] != 0) && (i < |slots| ==> slots[i] == 0) ==>
              Written(slots, data) == slots[..i] + if i < |slots| then [data] + slots[i + 1..] else []
    ensures (forall j :: 0 <= j < i ==> slots[j] == 0) && (i < |slots| ==> slots[i] != 0) ==>
              && ReadValue(slots) == (if i < |slots| then slots[i] else 0)
              && AfterRead(slots) == slots[..i] + if i < |slots| then [0] + slots[i + 1..] else []
  {
    var free, filled := Lowest(slots, 0, true), Lowest(slots, 0, false);
    assert free < i ==> slots[free] == 0;
    assert filled < i ==> slots[filled] != 0;
  }
}
