/** The linked list of readings on the heap: its nodes keep their places while the sort moves
    their values, and only insertion and removal change links. */
module SensorNodes {
  import opened Common
  import opened Sensors
  import opened SensorTheorems

  class Node {
    var id: int
    var temp: real
    var time: int
    var marked: bool
    var next: Node?

    constructor (id: int, temp: real, time: int, next: Node?)
      ensures this.id == id && this.temp == temp && this.time == time && !marked && this.next == next
    {
      this.id, this.temp, this.time, this.marked, this.next := id, temp, time, false, next;
    }

    /** Exchange all values with another node; the links stay. */
    method Exchange(other: Node)
      modifies this`id, this`temp, this`time, this`marked
      modifies other`id, other`temp, other`time, other`marked
      ensures forall r: Record :: old(Holds(r)) ==> other.Holds(r)
      ensures forall r: Record :: old(other.Holds(r)) ==> Holds(r)
    {
      id, other.id := other.id, id;
      temp, other.temp := other.temp, temp;
      time, other.time := other.time, time;
      marked, other.marked := other.marked, marked;
    }

    predicate Holds(r: Record)
      reads this`id, this`temp, this`time, this`marked
    {
      id == r.id && temp == r.temp && time == r.time && marked == r.marked
    }
  }

  /** The node at a position, null past the end. */
  ghost function Nth(nodes: seq<Node>, i: nat): Node? {
    if i < |nodes| then nodes[i] else null
  }

  ghost predicate Chained(head: Node?, nodes: seq<Node>)
    reads nodes`next
  {
    && head == Nth(nodes, 0)
    && forall i :: 0 <= i < |nodes| ==> nodes[i].next == Nth(nodes, i + 1)
  }

  ghost predicate Holding(nodes: seq<Node>, records: seq<Record>)
    reads nodes`id, nodes`temp, nodes`time, nodes`marked
  {
    && |nodes| == |records|
    && forall i :: 0 <= i < |nodes| ==> nodes[i].Holds(records[i])
  }

  class SensorList {
    var head: Node?
    /** The nodes from the head on, and the records they hold. */
    ghost var nodes: seq<Node>
    ghost var records: seq<Record>

    ghost predicate Valid()
      reads this, nodes
    {
      |records| == |nodes| && NoRepeats(nodes) && Chained(head, nodes) && Holding(nodes, records)
    }

    constructor ()
      ensures Valid() && records == []
    {
      head := null;
      nodes, records := [], [];
    }

    /** Put a new reading in front. */
    method Save(id: int, temp: real, time: int)
      requires Valid()
      modifies this
      ensures Valid() && |nodes| > 0 && fresh(nodes[0]) && nodes[1..] == old(nodes)
      ensures records == [Record(id, temp, time, false)] + old(records)
    {
      var node := new Node(id, temp, time, head);
      head := node;
      nodes := [node] + nodes;
      records := [Record(id, temp, time, false)] + records;
    }

    /** Exchange all values of two nodes; the links stay. */
    method SwapValues(a: Node, b: Node, ghost i: nat, ghost j: nat)
      requires Valid() && i < |nodes| && j < |nodes| && a == nodes[i] && b == nodes[j]
      modifies this`records, nodes`id, nodes`temp, nodes`time, nodes`marked
      ensures Valid() && records == Swap(old(records), i, j)
    {
      hide Chained;
      assert a.Holds(records[i]) && b.Holds(records[j]);
      NotRepeated(nodes, i);
      NotRepeated(nodes, j);
      a.Exchange(b);
      records := Swap(records, i, j);
      forall k | 0 <= k < |nodes|
        ensures nodes[k].Holds(records[k])
      {
        assert old(nodes[k].Holds(records[k]));
        assert k != i && k != j ==> nodes[k] != a && nodes[k] != b;
      }
    }

    /** Sort by id and then by time, by selection. Nodes and links stay as they are. */
    method Sort()
      requires Valid()
      modifies this`records, nodes`id, nodes`temp, nodes`time, nodes`marked
      ensures Valid()
      ensures records == Sorted(old(records))
    {
      SortById();
      SortByTime();
    }

    method SortById()
      requires Valid()
      modifies this`records, nodes`id, nodes`temp, nodes`time, nodes`marked
      ensures Valid()
      ensures records == SortIds(old(records), 0)
    {
      hide Holding, Chained;
      HeadAt();
      var temp := head;
      ghost var i := 0;
      while temp != null
        invariant Valid() && 0 <= i <= |nodes| && temp == Nth(nodes, i)
        invariant SortIds(records, i) == SortIds(old(records), 0)
        decreases |nodes| - i
      {
        hide SortIds, LeastId, Swap;
        var min, m := FindLeastId(temp, i);
        PlaceOne(records, i);
        NotRepeated(nodes, i);
        if min != temp {
          SwapValues(temp, min, i, m);
        }
        ReadAt(temp, i);
        temp := temp.next;
        i := i + 1;
      }
    }

    /** The inner loop of the sort by id. */
    method FindLeastId(temp: Node, ghost i: nat) returns (min: Node, ghost m: nat)
      requires Valid() && i < |nodes| && temp == nodes[i]
      ensures m == LeastId(records, i, i + 1) && min == nodes[LeastId(records, i, i + 1)]
    {
      hide Holding, Chained;
      ReadAt(temp, i);
      min := temp;
      var current := temp.next;
      ghost var j := i + 1;
      m := i;
      while current != null
        invariant i < j <= |nodes| && current == Nth(nodes, j) && 0 <= m < j
        invariant min == nodes[m] && min.Holds(records[m])
        invariant LeastId(records, m, j) == LeastId(records, i, i + 1)
        decreases |nodes| - j
      {
        ReadAt(current, j);
        if current.id < min.id {
          min := current;
          m := j;
        }
        current := current.next;
        j := j + 1;
      }
    }

    method SortByTime()
      requires Valid()
      modifies this`records, nodes`id, nodes`temp, nodes`time, nodes`marked
      ensures Valid()
      ensures records == SortTimes(old(records), 0)
    {
      hide Holding, Chained;
      HeadAt();
      var temp := head;
      ghost var i := 0;
      while temp != null
        invariant Valid() && 0 <= i <= |nodes| && temp == Nth(nodes, i)
        invariant SortTimes(records, i) == SortTimes(old(records), 0)
        decreases |nodes| - i
      {
        temp, i := SortOneGroup(temp, i);
      }
    }

    /** The loop over one group; it ends at the first node of another id. */
    method SortOneGroup(temp: Node, ghost i: nat) returns (current: Node?, ghost next: nat)
      requires Valid() && i < |nodes| && temp == nodes[i]
      modifies this`records, nodes`id, nodes`temp, nodes`time, nodes`marked
      ensures Valid() && i < next <= |nodes| && current == Nth(nodes, next)
      ensures Grouped(records, next) == SortGroup(old(records), old(records[i].id), i)
    {
      hide Holding, Chained, NoRepeats, SortGroup, LeastTime, Swap;
      ghost var id := records[i].id;
      current := temp;
      next := i;
      ReadAt(temp, i);
      while current != null && current.id == temp.id
        invariant Valid() && i <= next <= |nodes| && current == Nth(nodes, next)
        invariant temp.id == id
        invariant SortGroup(records, id, next) == SortGroup(old(records), id, i)
        decreases |nodes| - next
      {
        ReadAt(current, next);
        ReadAt(temp, i);
        var minTime, m := FindLeastTime(temp, i, current, next);
        PlaceOneOfGroup(records, id, i, next);
        NotRepeated(nodes, next);
        if minTime != current {
          SwapValues(current, minTime, next, m);
          ReadAt(current, next);
          ReadAt(temp, i);
        }
        current := current.next;
        next := next + 1;
      }
      if current != null {
        ReadAt(current, next);
      }
      GroupDone(records, id, next);
    }

    /** The inner loop of the sort by time. */
    method FindLeastTime(temp: Node, ghost i: nat, current: Node, ghost c: nat)
        returns (minTime: Node, ghost m: nat)
      requires Valid() && i <= c < |nodes| && temp == nodes[i] && current == nodes[c]
      requires records[c].id == temp.id
      ensures m == LeastTime(records, temp.id, c, c + 1)
      ensures minTime == nodes[LeastTime(records, temp.id, c, c + 1)]
    {
      hide Holding, Chained;
      ReadAt(current, c);
      minTime := current;
      var inner := current.next;
      ghost var j := c + 1;
      m := c;
      while inner != null && inner.id == temp.id
        invariant c < j <= |nodes| && inner == Nth(nodes, j) && 0 <= m < j
        invariant minTime == nodes[m] && minTime.Holds(records[m]) && records[m].id == temp.id
        invariant LeastTime(records, temp.id, m, j) == LeastTime(records, temp.id, c, c + 1)
        decreases |nodes| - j
      {
        ReadAt(inner, j);
        if inner.time < minTime.time {
          minTime := inner;
          m := j;
        }
        inner := inner.next;
        j := j + 1;
      }
      if inner != null {
        ReadAt(inner, j);
      }
    }

    /** One event for each group of at least five records, whose first record is marked. */
    method Average() returns (events: seq<Event>)
      requires Valid()
      modifies this`records, nodes`marked
      ensures Valid()
      ensures events == Events(old(records), 0)
      ensures IdOrdered(old(records)) ==> forall id :: Reports(EventsOf(events, id), Of(old(records), id))
      ensures records == Mark(old(records), 0)
    {
      hide Holding, Chained, NoRepeats, Averaged, Events, Mark, GroupEnd, Judge, SumTemp, SumTime;
      HeadAt();
      AveragedNone(records);
      var temp := head;
      ghost var i := 0;
      events := [];
      while temp != null
        invariant Valid() && 0 <= i <= |nodes| && temp == Nth(nodes, i)
        invariant Averaged(old(records), records, i, events)
        decreases |nodes| - i
      {
        AverageOne(old(records), records, i, events);
        ReadAt(temp, i);
        var current, processedCount, sumTemp, sumTime, e := SumGroup(temp, i);
        if processedCount == WINDOW {
          events := events + [Judge(temp.id, sumTemp, sumTime)];
          MarkNode(temp, i);
        }
        temp, i := current, e;
      }
      AveragedAll(old(records), records, events);
      AllReported(old(records));
    }

    /** The inner loop of the averaging: walk over one group, adding up its first five records. */
    method SumGroup(temp: Node, ghost i: nat)
        returns (current: Node?, processedCount: nat, sumTemp: real, sumTime: int, ghost e: nat)
      requires Valid() && i < |nodes| && temp == nodes[i]
      ensures e == GroupEnd(records, records[i].id, i) && current == Nth(nodes, e)
      ensures processedCount == Least(e - i, WINDOW)
      ensures sumTemp == SumTemp(records[i..i + processedCount])
      ensures sumTime == SumTime(records[i..i + processedCount])
    {
      hide Holding, Chained, NoRepeats, SumTemp, SumTime, GroupEnd;
      processedCount, sumTemp, sumTime := 0, 0.0, 0;
      current := temp;
      e := i;
      ReadAt(temp, i);
      NothingSummed(records, i);
      while current != null && current.id == temp.id
        invariant i <= e <= |nodes| && current == Nth(nodes, e)
        invariant GroupEnd(records, records[i].id, e) == GroupEnd(records, records[i].id, i)
        invariant processedCount == Least(e - i, WINDOW)
        invariant sumTemp == SumTemp(records[i..i + processedCount])
        invariant sumTime == SumTime(records[i..i + processedCount])
        decreases |nodes| - e
      {
        ReadAt(current, e);
        if processedCount < WINDOW {
          sumTemp := sumTemp + current.temp;
          sumTime := sumTime + current.time;
          processedCount := processedCount + 1;
          AddOne(records, i, e);
        }
        current := current.next;
        e := e + 1;
      }
      if current != null {
        ReadAt(current, e);
      }
    }

    method MarkNode(temp: Node, ghost i: nat)
      requires Valid() && i < |nodes| && temp == nodes[i]
      modifies this`records, temp`marked
      ensures Valid() && records == old(records)[i := old(records)[i].(marked := true)]
    {
      hide Chained;
      NotRepeated(nodes, i);
      temp.marked := true;
      records := records[i := records[i].(marked := true)];
    }

    /** Append the marked records to the data file; without effect when the file cannot be opened. */
    method Copy(file: seq<Record>, opens: bool) returns (written: seq<Record>)
      requires Valid()
      ensures written == if opens then file + Flagged(records, true) else file
    {
      hide Holding, Chained;
      written := file;
      if !opens {
        return;
      }
      HeadAt();
      var temp := head;
      ghost var i := 0;
      assert records[0..] == records;
      while temp != null
        invariant 0 <= i <= |nodes| && temp == Nth(nodes, i)
        invariant written + Flagged(records[i..], true) == file + Flagged(records, true)
        decreases |nodes| - i
      {
        ReadAt(temp, i);
        assert records[i..][1..] == records[i + 1..];
        if temp.marked {
          written := written + [Record(temp.id, temp.temp, temp.time, true)];
        }
        temp := temp.next;
        i := i + 1;
      }
    }

    /** Unlink the marked nodes; the others stay, in order and with their values. */
    method Remove()
      requires Valid()
      modifies this, nodes`next
      ensures Valid()
      ensures records == Flagged(old(records), false)
      ensures nodes == Kept(old(nodes), old(records))
    {
      hide Holding, Chained;
      HeadAt();
      var temp := head;
      var prev: Node? := null;
      ghost var i := 0;
      assert records[0..] == records && nodes[0..] == nodes;
      while temp != null
        invariant Valid() && 0 <= i <= |nodes| && temp == Nth(nodes, i)
        invariant prev == if i == 0 then null else nodes[i - 1]
        invariant forall k :: 0 <= k < |nodes| ==> nodes[k] in old(nodes)
        invariant Removed(old(nodes), old(records), nodes, records, i)
        decreases |nodes| - i
      {
        hide NoRepeats, Removed, Without;
        ReadAt(temp, i);
        RemoveOne(old(nodes), old(records), nodes, records, i);
        if temp.marked {
          var next := temp.next;
          Unlink(prev, temp, i);
          temp := next;
        } else {
          prev := temp;
          temp := temp.next;
          i := i + 1;
        }
      }
    }

    /** What the data manager does while it holds the mutex. */
    method ManageData() returns (events: seq<Event>)
      requires Valid()
      modifies this`records, nodes`id, nodes`temp, nodes`time, nodes`marked
      ensures Valid()
      ensures records == DataPass(old(records)) && events == Events(Sorted(old(records)), 0)
      ensures forall id :: Reports(EventsOf(events, id), Of(Sorted(old(records)), id))
    {
      Sort();
      SortedIsOrdered(old(records));
      OrderedById(Sorted(old(records)));
      events := Average();
    }

    /** What the store manager does while it holds the mutex. */
    method ManageStore(file: seq<Record>, opens: bool) returns (written: seq<Record>)
      requires Valid()
      modifies this, nodes`next
      ensures Valid()
      ensures records == Flagged(old(records), false) && nodes == Kept(old(nodes), old(records))
      ensures written == if opens then file + Flagged(old(records), true) else file
    {
      written := Copy(file, opens);
      Remove();
    }

    /** Take one node out of the chain. */
    method Unlink(prev: Node?, temp: Node, ghost i: nat)
      requires Valid() && i < |nodes| && temp == nodes[i]
      requires prev == if i == 0 then null else nodes[i - 1]
      modifies this, nodes`next
      ensures Valid()
      ensures nodes == Without(old(nodes), i) && records == Without(old(records), i)
    {
      hide Holding, NoRepeats, Chained;
      ReadAt(temp, i);
      WithoutHolding(nodes, records, i);
      WithoutNoRepeats(nodes, i);
      if prev == null {
        WithoutFirst(head, nodes);
        head := temp.next;
      } else {
        WithoutLater(head, nodes, i);
        NotRepeated(nodes, i - 1);
        prev.next := temp.next;
        Rechained(head, Without(nodes, i), i - 1);
      }
      nodes := Without(nodes, i);
      records := Without(records, i);
    }

    lemma {:induction false} HeadAt()
      requires Chained(head, nodes)
      ensures head == Nth(nodes, 0)
    {
    }

    lemma {:induction false} ReadAt(n: Node, i: nat)
      requires Valid() && i < |nodes| && n == nodes[i]
      ensures n.Holds(records[i]) && n.next == Nth(nodes, i + 1)
    {
    }
  }

  lemma {:induction false} WithoutHolding(nodes: seq<Node>, records: seq<Record>, i: nat)
    requires Holding(nodes, records) && i < |nodes|
    ensures Holding(Without(nodes, i), Without(records, i))
  {
    var rest, kept := Without(nodes, i), Without(records, i);
    forall k | 0 <= k < |rest|
      ensures rest[k].Holds(kept[k])
    {
      var was := if k < i then k else k + 1;
      assert nodes[was].Holds(records[was]);
    }
  }

  lemma {:induction false} WithoutFirst(head: Node?, nodes: seq<Node>)
    requires Chained(head, nodes) && nodes != []
    ensures Chained(nodes[0].next, Without(nodes, 0))
  {
  }

  /** Every link but the one at position `i`. */
  ghost predicate ChainedBut(head: Node?, nodes: seq<Node>, i: nat)
    reads nodes`next
  {
    && head == Nth(nodes, 0)
    && forall k :: 0 <= k < |nodes| && k != i ==> nodes[k].next == Nth(nodes, k + 1)
  }

  lemma {:induction false} WithoutLater(head: Node?, nodes: seq<Node>, i: nat)
    requires Chained(head, nodes) && 0 < i < |nodes|
    ensures ChainedBut(head, Without(nodes, i), i - 1)
    ensures nodes[i].next == Nth(Without(nodes, i), i)
  {
    var rest := Without(nodes, i);
    forall k | 0 <= k < |rest| && k != i - 1
      ensures rest[k].next == Nth(rest, k + 1)
    {
      assert nodes[if k < i then k else k + 1].next == Nth(nodes, if k < i then k + 1 else k + 2);
    }
  }

  lemma {:induction false} Rechained(head: Node?, nodes: seq<Node>, i: nat)
    requires ChainedBut(head, nodes, i) && i < |nodes| && nodes[i].next == Nth(nodes, i + 1)
    ensures Chained(head, nodes)
  {
  }

  ghost predicate NoRepeats<T>(xs: seq<T>) {
    forall i, j :: 0 <= i < j < |xs| ==> xs[i] != xs[j]
  }

  lemma {:induction false} NotRepeated<T>(xs: seq<T>, i: nat)
    requires NoRepeats(xs) && i < |xs|
    ensures forall k :: 0 <= k < |xs| && k != i ==> xs[k] != xs[i]
  {
  }

  lemma {:induction false} WithoutNoRepeats<T>(xs: seq<T>, i: nat)
    requires NoRepeats(xs) && i < |xs|
    ensures NoRepeats(Without(xs, i))
  {
    var ys := Without(xs, i);
    assert forall k :: 0 <= k < |ys| ==> ys[k] == xs[if k < i then k else k + 1];
  }

  function Without<T>(xs: seq<T>, i: nat): seq<T>
    requires i < |xs|
  {
    xs[..i] + xs[i + 1..]
  }

  /** The items whose records are not marked. */
  ghost function Kept<T>(xs: seq<T>, records: seq<Record>): seq<T>
    requires |xs| == |records|
  {
    if xs == [] then []
    else (if records[0].marked then [] else [xs[0]]) + Kept(xs[1..], records[1..])
  }

  lemma {:induction false} PlaceOne(s: seq<Record>, i: nat)
    requires i < |s|
    ensures SortIds(s, i) == SortIds(Swap(s, i, LeastId(s, i, i + 1)), i + 1)
    ensures Swap(s, i, i) == s
  {
  }

  lemma {:induction false} PlaceOneOfGroup(s: seq<Record>, id: int, i: nat, c: nat)
    requires i <= c < |s| && s[i].id == s[c].id == id
    ensures var t := Swap(s, c, LeastTime(s, id, c, c + 1));
            t[i].id == id && SortGroup(s, id, c) == SortGroup(t, id, c + 1)
    ensures Swap(s, c, c) == s
  {
  }

  lemma {:induction false} GroupDone(s: seq<Record>, id: int, c: nat)
    requires c <= |s| && (c < |s| ==> s[c].id != id)
    ensures SortGroup(s, id, c) == Grouped(s, c)
  {
  }

  lemma {:induction false} NothingSummed(s: seq<Record>, i: nat)
    requires i <= |s|
    ensures SumTemp(s[i..i]) == 0.0 && SumTime(s[i..i]) == 0
  {
  }

  lemma {:induction false} AllReported(s: seq<Record>)
    ensures IdOrdered(s) ==> forall id :: Reports(EventsOf(Events(s, 0), id), Of(s, id))
  {
    hide Reports, Events, EventsOf, Of, IdOrdered;
    if IdOrdered(s) {
      forall id
        ensures Reports(EventsOf(Events(s, 0), id), Of(s, id))
      {
        EventsReport(s, id);
      }
    }
  }

  lemma {:induction false} AddOne(s: seq<Record>, i: nat, e: nat)
    requires i <= e < |s|
    ensures SumTemp(s[i..e + 1]) == SumTemp(s[i..e]) + s[e].temp
    ensures SumTime(s[i..e + 1]) == SumTime(s[i..e]) + s[e].time
  {
    assert s[i..e + 1][..e - i] == s[i..e];
  }

  /** How far the averaging loop has come, at the start of a group: `t` is what it has made of `s`. */
  ghost predicate Averaged(s: seq<Record>, t: seq<Record>, i: nat, events: seq<Event>) {
    && |t| == |s| && i <= |s|
    && t[i..] == s[i..]
    && t[..i] + Mark(s, i) == Mark(s, 0)
    && events + Events(s, i) == Events(s, 0)
  }

  lemma {:induction false} AveragedNone(s: seq<Record>)
    ensures Averaged(s, s, 0, [])
  {
  }

  lemma {:induction false} AveragedAll(s: seq<Record>, t: seq<Record>, events: seq<Event>)
    requires Averaged(s, t, |t|, events)
    ensures events == Events(s, 0) && t == Mark(s, 0)
  {
    assert t[..|t|] == t;
  }

  lemma {:induction false} AverageOne(s: seq<Record>, t: seq<Record>, i: nat, events: seq<Event>)
    requires i < |t| && Averaged(s, t, i, events)
    ensures var e := GroupEnd(t, t[i].id, i);
            if e - i >= WINDOW then
              var event := Judge(t[i].id, SumTemp(t[i..i + WINDOW]), SumTime(t[i..i + WINDOW]));
              Averaged(s, t[i := t[i].(marked := true)], e, events + [event])
            else
              Averaged(s, t, e, events)
  {
    hide Events, Mark, GroupEnd, Judge, SumTemp, SumTime;
    Agree(s, t, i);
    MarkOne(s, t, i);
    EventOne(s, t, i);
    var e := GroupEnd(t, t[i].id, i);
    var event := if e - i >= WINDOW then
      [Judge(t[i].id, SumTemp(t[i..i + WINDOW]), SumTime(t[i..i + WINDOW]))] else [];
    SeqAssociative(events, event, Events(s, e));
    assert e - i < WINDOW ==> events + event == events;
  }

  lemma {:induction false} MarkOne(s: seq<Record>, t: seq<Record>, i: nat)
    requires |t| == |s| && i < |s| && t[i..] == s[i..]
    requires t[..i] + Mark(s, i) == Mark(s, 0)
    ensures var e := GroupEnd(s, s[i].id, i);
            var u := if e - i >= WINDOW then t[i := t[i].(marked := true)] else t;
            u[e..] == s[e..] && u[..e] + Mark(s, e) == Mark(s, 0)
  {
    MarkUnfolds(s, i);
    hide Mark, GroupEnd;
    var e := GroupEnd(s, s[i].id, i);
    MarkInPlace(s, t, i, e);
    SeqAssociative(t[..i], MarkedGroup(s[i..e]), Mark(s, e));
  }

  lemma {:induction false} MarkInPlace(s: seq<Record>, t: seq<Record>, i: nat, e: nat)
    requires |t| == |s| && i < e <= |s| && t[i..] == s[i..]
    ensures var u := if e - i >= WINDOW then t[i := t[i].(marked := true)] else t;
            u[e..] == s[e..] && u[..e] == t[..i] + MarkedGroup(s[i..e])
  {
    Agree(s, t, i);
  }

  lemma {:induction false} Agree(s: seq<Record>, t: seq<Record>, i: nat)
    requires |t| == |s| && i <= |s| && t[i..] == s[i..]
    ensures forall k :: i <= k < |s| ==> t[k] == s[k]
    ensures forall a, b :: i <= a <= b <= |s| ==> t[a..b] == s[a..b]
  {
    assert forall k :: i <= k < |s| ==> t[k] == t[i..][k - i] == s[i..][k - i] == s[k];
  }

  lemma {:induction false} EventOne(s: seq<Record>, t: seq<Record>, i: nat)
    requires |t| == |s| && i < |s| && t[i..] == s[i..]
    ensures var e := GroupEnd(s, s[i].id, i);
            Events(s, i) == (if e - i >= WINDOW then
              [Judge(t[i].id, SumTemp(t[i..i + WINDOW]), SumTime(t[i..i + WINDOW]))] else []) + Events(s, e)
  {
    hide Judge, SumTemp, SumTime;
    Agree(s, t, i);
  }

  /** How far the removal has come: `nodes` and `records` are what is left of the list. */
  ghost predicate Removed<T>(was: seq<T>, wasRecords: seq<Record>, nodes: seq<T>, records: seq<Record>, i: nat) {
    && |was| == |wasRecords| && |nodes| == |records| && i <= |nodes|
    && records[..i] + Flagged(records[i..], false) == Flagged(wasRecords, false)
    && nodes[..i] + Kept(nodes[i..], records[i..]) == Kept(was, wasRecords)
  }

  lemma {:induction false} RemoveOne<T>(
      was: seq<T>, wasRecords: seq<Record>, nodes: seq<T>, records: seq<Record>, i: nat)
    requires i < |nodes| && Removed(was, wasRecords, nodes, records, i)
    ensures if records[i].marked then Removed(was, wasRecords, Without(nodes, i), Without(records, i), i)
            else Removed(was, wasRecords, nodes, records, i + 1)
  {
    hide Flagged, Kept;
    FlaggedStep(records, i);
    KeptStep(nodes, records, i);
  }

  lemma {:induction false} FlaggedStep(s: seq<Record>, i: nat)
    requires i < |s|
    ensures var t := Without(s, i);
            s[..i] + Flagged(s[i..], false) ==
              if s[i].marked then t[..i] + Flagged(t[i..], false) else s[..i + 1] + Flagged(s[i + 1..], false)
  {
    assert s[i..][1..] == s[i + 1..];
    var t := Without(s, i);
    assert t[..i] == s[..i] && t[i..] == s[i + 1..];
  }

  lemma {:induction false} KeptStep<T>(xs: seq<T>, s: seq<Record>, i: nat)
    requires |xs| == |s| && i < |s|
    ensures var t, ys := Without(s, i), Without(xs, i);
            xs[..i] + Kept(xs[i..], s[i..]) ==
              if s[i].marked then ys[..i] + Kept(ys[i..], t[i..]) else xs[..i + 1] + Kept(xs[i + 1..], s[i + 1..])
  {
    assert s[i..][1..] == s[i + 1..] && xs[i..][1..] == xs[i + 1..];
    var t, ys := Without(s, i), Without(xs, i);
    assert t[..i] == s[..i] && t[i..] == s[i + 1..];
    assert ys[..i] == xs[..i] && ys[i..] == xs[i + 1..];
  }
}
