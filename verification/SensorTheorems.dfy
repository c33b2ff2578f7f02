/** The gateway's list is sorted, and each round of passes slides a window of five over every id. */
module SensorTheorems {
  import opened Common
  import opened Sensors

  // ----- order

  predicate IdOrdered(s: seq<Record>) {
    forall i, j :: 0 <= i < j < |s| ==> s[i].id <= s[j].id
  }

  /** Not later in the order by id, then time. */
  predicate Before(a: Record, b: Record) {
    a.id < b.id || (a.id == b.id && a.time <= b.time)
  }

  predicate Ordered(s: seq<Record>) {
    forall i, j :: 0 <= i < j < |s| ==> Before(s[i], s[j])
  }

  predicate IdPlaced(s: seq<Record>, i: nat) {
    forall a, b :: 0 <= a < i && a < b < |s| ==> s[a].id <= s[b].id
  }

  lemma {:induction false} LeastIdIsLeast(s: seq<Record>, m: nat, j: nat)
    requires m < j <= |s|
    ensures var r := LeastId(s, m, j); s[r].id <= s[m].id && forall k :: j <= k < |s| ==> s[r].id <= s[k].id
    decreases |s| - j
  {
    if j < |s| {
      LeastIdIsLeast(s, if s[j].id < s[m].id then j else m, j + 1);
    }
  }

  lemma {:induction false} PlaceLeast(s: seq<Record>, i: nat)
    requires i < |s| && IdPlaced(s, i)
    ensures IdPlaced(Swap(s, i, LeastId(s, i, i + 1)), i + 1)
  {
    var m := LeastId(s, i, i + 1);
    var t := Swap(s, i, m);
    LeastIdIsLeast(s, i, i + 1);
    forall a, b | 0 <= a < i + 1 && a < b < |t|
      ensures t[a].id <= t[b].id
    {
      assert t[b] == s[b] || t[b] == s[i] || t[b] == s[m];
      assert a < i ==> t[a] == s[a];
    }
  }

  lemma {:induction false} SortIdsOrders(s: seq<Record>, i: nat)
    requires i <= |s| && IdPlaced(s, i)
    ensures IdOrdered(SortIds(s, i))
    decreases |s| - i
  {
    if i < |s| {
      PlaceLeast(s, i);
      SortIdsOrders(Swap(s, i, LeastId(s, i, i + 1)), i + 1);
    }
  }

  /** Everything before index `i` is in place for good. */
  predicate Settled(s: seq<Record>, i: nat) {
    && IdOrdered(s)
    && forall a, b :: 0 <= a < i && a < b < |s| ==> Before(s[a], s[b])
  }

  lemma {:induction false} LeastTimeIsLeast(s: seq<Record>, id: int, m: nat, j: nat)
    requires m < j <= |s| && s[m].id == id && IdOrdered(s)
    ensures forall k :: j <= k < |s| && s[k].id == id ==> s[LeastTime(s, id, m, j)].time <= s[k].time
    decreases |s| - j
  {
    if j < |s| && s[j].id == id {
      LeastTimeIsLeast(s, id, if s[j].time < s[m].time then j else m, j + 1);
    }
  }

  lemma {:induction false} SettleOne(s: seq<Record>, i: nat)
    requires i < |s| && Settled(s, i)
    ensures Settled(Swap(s, i, LeastTime(s, s[i].id, i, i + 1)), i + 1)
  {
    var m := LeastTime(s, s[i].id, i, i + 1);
    var t := Swap(s, i, m);
    LeastTimeIsLeast(s, s[i].id, i, i + 1);
    assert forall k :: 0 <= k < |s| ==> t[k].id == s[k].id;
    forall a, b | 0 <= a < i + 1 && a < b < |t|
      ensures Before(t[a], t[b])
    {
      if a == i {
        assert t[b] == if b == m then s[i] else s[b];
      } else {
        assert t[a] == s[a] && (t[b] == s[b] || t[b] == s[i] || t[b] == s[m]);
      }
    }
  }

  lemma {:induction false} SortGroupSettles(s: seq<Record>, id: int, i: nat)
    requires i <= |s| && Settled(s, i)
    ensures var g := SortGroup(s, id, i); Settled(g.records, g.next)
    decreases |s| - i
  {
    if i < |s| && s[i].id == id {
      SettleOne(s, i);
      SortGroupSettles(Swap(s, i, LeastTime(s, id, i, i + 1)), id, i + 1);
    }
  }

  lemma {:induction false} SortTimesSettles(s: seq<Record>, i: nat)
    requires i <= |s| && Settled(s, i)
    ensures Ordered(SortTimes(s, i))
    decreases |s| - i
  {
    if i < |s| {
      var g := SortGroup(s, s[i].id, i);
      SortGroupSettles(s, s[i].id, i);
      SortTimesSettles(g.records, g.next);
    }
  }

  lemma {:induction false} SwapPermutes(s: seq<Record>, i: nat, j: nat)
    requires i < |s| && j < |s|
    ensures multiset(Swap(s, i, j)) == multiset(s)
  {
  }

  lemma {:induction false} SortIdsPermutes(s: seq<Record>, i: nat)
    requires i <= |s|
    ensures multiset(SortIds(s, i)) == multiset(s)
    decreases |s| - i
  {
    if i < |s| {
      SwapPermutes(s, i, LeastId(s, i, i + 1));
      hide Swap, LeastId;
      SortIdsPermutes(Swap(s, i, LeastId(s, i, i + 1)), i + 1);
    }
  }

  lemma {:induction false} SortGroupPermutes(s: seq<Record>, id: int, i: nat)
    requires i <= |s|
    ensures multiset(SortGroup(s, id, i).records) == multiset(s)
    decreases |s| - i
  {
    if i < |s| && s[i].id == id {
      SwapPermutes(s, i, LeastTime(s, id, i, i + 1));
      hide Swap, LeastTime;
      SortGroupPermutes(Swap(s, i, LeastTime(s, id, i, i + 1)), id, i + 1);
    }
  }

  lemma {:induction false} SortTimesPermutes(s: seq<Record>, i: nat)
    requires i <= |s|
    ensures multiset(SortTimes(s, i)) == multiset(s)
    decreases |s| - i
  {
    if i < |s| {
      var g := SortGroup(s, s[i].id, i);
      SortGroupPermutes(s, s[i].id, i);
      SortTimesPermutes(g.records, g.next);
    }
  }

  /** The sort permutes whole records into the order by id, then time. */
  lemma {:induction false} SortedIsOrdered(s: seq<Record>)
    ensures Ordered(Sorted(s)) && multiset(Sorted(s)) == multiset(s)
  {
    SortIdsOrders(s, 0);
    SortIdsPermutes(s, 0);
    SortTimesPermutes(SortIds(s, 0), 0);
    SortTimesSettles(SortIds(s, 0), 0);
  }

  // ----- groups

  /** The records of one id, in order. */
  function Of(s: seq<Record>, id: int): seq<Record> {
    if s == [] then []
    else (if s[0].id == id then [s[0]] else []) + Of(s[1..], id)
  }

  function EventsOf(es: seq<Event>, id: int): seq<Event> {
    if es == [] then []
    else (if es[0].id == id then [es[0]] else []) + EventsOf(es[1..], id)
  }

  lemma {:induction false} OfAppend(a: seq<Record>, b: seq<Record>, id: int)
    ensures Of(a + b, id) == Of(a, id) + Of(b, id)
  {
    if a == [] {
      assert a + b == b;
    } else {
      assert (a + b)[1..] == a[1..] + b;
      OfAppend(a[1..], b, id);
      SeqAssociative(if a[0].id == id then [a[0]] else [], Of(a[1..], id), Of(b, id));
    }
  }

  lemma {:induction false} OfSame(s: seq<Record>, id: int)
    requires forall k :: 0 <= k < |s| ==> s[k].id == id
    ensures Of(s, id) == s
  {
    if s != [] {
      OfSame(s[1..], id);
    }
  }

  lemma {:induction false} OfOther(s: seq<Record>, id: int)
    requires forall k :: 0 <= k < |s| ==> s[k].id != id
    ensures Of(s, id) == []
  {
    if s != [] {
      OfOther(s[1..], id);
    }
  }

  lemma {:induction false} OfCounts(s: seq<Record>, id: int)
    ensures multiset(Of(s, id)) <= multiset(s)
    ensures forall r: Record :: multiset(Of(s, id))[r] == if r.id == id then multiset(s)[r] else 0
  {
    if s != [] {
      assert s == [s[0]] + s[1..];
      OfCounts(s[1..], id);
    }
  }

  lemma {:induction false} OfPermuted(s: seq<Record>, t: seq<Record>, id: int)
    requires multiset(s) == multiset(t)
    ensures multiset(Of(s, id)) == multiset(Of(t, id)) && |Of(s, id)| == |Of(t, id)|
  {
    hide Of;
    OfCounts(s, id);
    OfCounts(t, id);
    var a, b := multiset(Of(s, id)), multiset(Of(t, id));
    assert forall r: Record :: a[r] == b[r];
    assert a == b;
    assert |a| == |Of(s, id)| && |b| == |Of(t, id)|;
  }

  /** A sorted list from `i` on is one group followed by records of larger ids. */
  lemma {:induction false} FirstGroup(s: seq<Record>, i: nat, id: int)
    requires i < |s| && IdOrdered(s)
    ensures var e := GroupEnd(s, s[i].id, i);
            Of(s[i..], id) == if id == s[i].id then s[i..e] else Of(s[e..], id)
    ensures id == s[i].id ==> Of(s[GroupEnd(s, s[i].id, i)..], id) == []
  {
    var e := GroupEnd(s, s[i].id, i);
    assert s[i..] == s[i..e] + s[e..];
    OfAppend(s[i..e], s[e..], id);
    if id == s[i].id {
      OfSame(s[i..e], id);
      OfOther(s[e..], id);
    } else {
      OfOther(s[i..e], id);
    }
  }

  lemma {:induction false} EventsOfAppend(a: seq<Event>, b: seq<Event>, id: int)
    ensures EventsOf(a + b, id) == EventsOf(a, id) + EventsOf(b, id)
  {
    if a == [] {
      assert a + b == b;
    } else {
      assert (a + b)[1..] == a[1..] + b;
      EventsOfAppend(a[1..], b, id);
      SeqAssociative(if a[0].id == id then [a[0]] else [], EventsOf(a[1..], id), EventsOf(b, id));
    }
  }

  function HereEvents(s: seq<Record>, i: nat, e: nat): seq<Event>
    requires i <= e <= |s|
  {
    if e - i >= WINDOW then [EventOf(s[i..i + WINDOW])] else []
  }

  lemma {:induction false} EventsUnfold(s: seq<Record>, i: nat)
    requires i < |s|
    ensures var e := GroupEnd(s, s[i].id, i); Events(s, i) == HereEvents(s, i, e) + Events(s, e)
  {
    hide EventOf;
  }

  lemma {:induction false} NoEvents(s: seq<Record>, id: int)
    ensures EventsOf(Events(s, |s|), id) == [] && Of([], id) == []
  {
  }

  lemma {:induction false} EventsOfHere(s: seq<Record>, i: nat, e: nat, id: int)
    requires i < e <= |s|
    ensures EventsOf(HereEvents(s, i, e), id) ==
            if id == s[i].id && e - i >= WINDOW then [EventOf(s[i..e][..WINDOW])] else []
  {
    if e - i >= WINDOW {
      assert s[i..e][..WINDOW] == s[i..i + WINDOW];
      assert HereEvents(s, i, e)[1..] == [];
    }
  }

  /** One event for every id with at least five records, about the first five of its group. */
  lemma {:induction false} EventsPerId(s: seq<Record>, i: nat, id: int)
    requires i <= |s| && IdOrdered(s)
    ensures EventsOf(Events(s, i), id) ==
            if |Of(s[i..], id)| >= WINDOW then [EventOf(Of(s[i..], id)[..WINDOW])] else []
    decreases |s| - i
  {
    hide Of, EventOf, Events, EventsOf;
    if i < |s| {
      var e := GroupEnd(s, s[i].id, i);
      FirstGroup(s, i, id);
      EventsPerId(s, e, id);
      var here := HereEvents(s, i, e);
      EventsUnfold(s, i);
      EventsOfAppend(here, Events(s, e), id);
      EventsOfHere(s, i, e, id);
    } else {
      NoEvents(s, id);
      assert s[i..] == [];
    }
  }

  // ----- what an event says

  /** An event about five records: their mean temperature, judged, and the whole part of their mean time. */
  predicate Averages(e: Event, five: seq<Record>)
    requires |five| == WINDOW
  {
    var temps := five[0].temp + five[1].temp + five[2].temp + five[3].temp + five[4].temp;
    var times := five[0].time + five[1].time + five[2].time + five[3].time + five[4].time;
    && e.id == five[0].id && 5.0 * e.temp == temps
    && (e.verdict == TooHot <==> temps > 80.0) && (e.verdict == TooCold <==> temps < 70.0)
    && (if times >= 0 then 5 * e.time <= times < 5 * e.time + 5 else 5 * e.time - 5 < times <= 5 * e.time)
  }

  lemma {:induction false} SumOfFive(s: seq<Record>)
    requires |s| == WINDOW
    ensures SumTemp(s) == s[0].temp + s[1].temp + s[2].temp + s[3].temp + s[4].temp
    ensures SumTime(s) == s[0].time + s[1].time + s[2].time + s[3].time + s[4].time
  {
    hide SumTemp, SumTime;
    SumOfMore(s, 1);
    SumOfMore(s, 2);
    SumOfMore(s, 3);
    SumOfMore(s, 4);
    SumOfMore(s, 5);
    assert s[..5] == s;
  }

  lemma {:induction false} SumOfMore(s: seq<Record>, n: nat)
    requires 0 < n <= |s|
    ensures SumTemp(s[..n]) == SumTemp(s[..n - 1]) + s[n - 1].temp && SumTemp(s[..0]) == 0.0
    ensures SumTime(s[..n]) == SumTime(s[..n - 1]) + s[n - 1].time && SumTime(s[..0]) == 0
  {
    assert s[..n][..n - 1] == s[..n - 1];
  }

  lemma {:induction false} EventAverages(five: seq<Record>)
    requires |five| == WINDOW
    ensures Averages(EventOf(five), five)
  {
    SumOfFive(five);
    hide SumTemp, SumTime;
  }

  /** The events of an id: one about the first five of its records, if it has as many. */
  predicate Reports(es: seq<Event>, group: seq<Record>) {
    if |group| >= WINDOW then |es| == 1 && Averages(es[0], group[..WINDOW]) else es == []
  }

  lemma {:induction false} EventsReport(s: seq<Record>, id: int)
    requires IdOrdered(s)
    ensures Reports(EventsOf(Events(s, 0), id), Of(s, id))
  {
    hide Of, Events, EventsOf, EventOf, Averages;
    EventsPerId(s, 0, id);
    assert s[0..] == s;
    if |Of(s, id)| >= WINDOW {
      EventAverages(Of(s, id)[..WINDOW]);
    }
  }

  lemma {:induction false} OrderedById(s: seq<Record>)
    requires Ordered(s)
    ensures IdOrdered(s)
  {
    forall i, j | 0 <= i < j < |s|
      ensures s[i].id <= s[j].id
    {
      assert Before(s[i], s[j]);
    }
  }

  // ----- marking

  predicate AllUnmarked(s: seq<Record>) {
    forall k :: 0 <= k < |s| ==> !s[k].marked
  }

  lemma {:induction false} FlaggedAppend(a: seq<Record>, b: seq<Record>, flag: bool)
    ensures Flagged(a + b, flag) == Flagged(a, flag) + Flagged(b, flag)
  {
    if a == [] {
      assert a + b == b;
    } else {
      assert (a + b)[1..] == a[1..] + b;
      FlaggedAppend(a[1..], b, flag);
      SeqAssociative(if a[0].marked == flag then [a[0]] else [], Flagged(a[1..], flag), Flagged(b, flag));
    }
  }

  lemma {:induction false} FlaggedUnmarked(s: seq<Record>)
    requires AllUnmarked(s)
    ensures Flagged(s, true) == [] && Flagged(s, false) == s
  {
    if s != [] {
      FlaggedUnmarked(s[1..]);
    }
  }

  /** The flagged and the unflagged part of a group of unmarked records. */
  function Window(group: seq<Record>, flag: bool): seq<Record> {
    if |group| < WINDOW then (if flag then [] else group)
    else if flag then [group[0].(marked := true)] else group[1..]
  }

  lemma {:induction false} GroupFlags(group: seq<Record>, flag: bool)
    requires group != [] && AllUnmarked(group)
    ensures Flagged(MarkedGroup(group), flag) == Window(group, flag)
  {
    FlaggedUnmarked(group);
    FlaggedUnmarked(group[1..]);
    if |group| >= WINDOW {
      var first := [group[0].(marked := true)];
      FlaggedAppend(first, group[1..], flag);
      assert first[1..] == [];
    }
  }

  lemma {:induction false} NoGroup(flag: bool, id: int)
    ensures Of(Flagged([], flag), id) == Window(Of([], id), flag)
  {
  }

  lemma {:induction false} OfWindow(group: seq<Record>, flag: bool, groupId: int, id: int)
    requires forall k :: 0 <= k < |group| ==> group[k].id == groupId
    ensures Of(Window(group, flag), id) == if id == groupId then Window(group, flag) else []
  {
    if id == groupId {
      OfSame(Window(group, flag), id);
    } else {
      OfOther(Window(group, flag), id);
    }
  }

  /** Per id, marking flags the first record of a group of five or more and nothing else. */
  lemma {:induction false} FlaggedPerId(s: seq<Record>, i: nat, flag: bool, id: int)
    requires i <= |s| && IdOrdered(s) && AllUnmarked(s)
    ensures Of(Flagged(Mark(s, i), flag), id) == Window(Of(s[i..], id), flag)
    decreases |s| - i
  {
    hide GroupEnd, MarkedGroup, IdOrdered, Of, Flagged;
    if i < |s| {
      var e := GroupEnd(s, s[i].id, i);
      var group, rest := s[i..e], Mark(s, e);
      FirstGroup(s, i, id);
      FirstGroup(s, i, s[i].id);
      FlaggedAppend(MarkedGroup(group), rest, flag);
      GroupFlags(group, flag);
      OfAppend(Window(group, flag), Flagged(rest, flag), id);
      OfWindow(group, flag, s[i].id, id);
      FlaggedPerId(s, e, flag, id);
    } else {
      assert s[i..] == [];
      assert Of(Flagged([], flag), id) == Window(Of([], id), flag) by { NoGroup(flag, id); }
    }
  }

  // ----- the sliding window

  predicate ByTime(s: seq<Record>) {
    forall i, j :: 0 <= i < j < |s| ==> s[i].time <= s[j].time
  }

  lemma {:induction false} OfKeepsTime(s: seq<Record>, id: int)
    requires Ordered(s)
    ensures ByTime(Of(s, id))
    ensures forall r :: r in Of(s, id) ==> r in s && r.id == id
  {
    if s != [] {
      var rest := s[1..];
      assert Ordered(rest);
      OfKeepsTime(rest, id);
      forall r | r in rest
        ensures Before(s[0], r) && r in s
      {
        var k :| 0 <= k < |rest| && rest[k] == r;
        assert s[k + 1] == r;
      }
    }
  }

  lemma {:induction false} UnmarkedPermuted(s: seq<Record>, t: seq<Record>)
    requires AllUnmarked(s) && multiset(s) == multiset(t)
    ensures AllUnmarked(t)
  {
    forall k | 0 <= k < |t|
      ensures !t[k].marked
    {
      assert t[k] in multiset(s);
    }
  }

  /** One round of passes over a list without marks, seen from one id: the group is the records
      of that id by time; with five or more there is one event, about the five of smallest time,
      and the record of smallest time, and no other, goes from the list to the file. */
  lemma {:induction false} SlidingWindow(s: seq<Record>, id: int)
    requires AllUnmarked(s)
    ensures var group := Of(Sorted(s), id);
            && multiset(group) == multiset(Of(s, id)) && ByTime(group)
            && EventsOf(Events(Sorted(s), 0), id) == (if |group| >= WINDOW then [EventOf(group[..WINDOW])] else [])
            && (|group| >= WINDOW ==> Averages(EventOf(group[..WINDOW]), group[..WINDOW]))
            && Of(Flagged(DataPass(s), true), id) ==
               (if |group| >= WINDOW then [group[0].(marked := true)] else [])
            && Of(Flagged(DataPass(s), false), id) == (if |group| >= WINDOW then group[1..] else group)
  {
    hide Of, Flagged, Mark, Events, EventsOf, EventOf, Averages;
    var t := Sorted(s);
    if |Of(t, id)| >= WINDOW {
      EventAverages(Of(t, id)[..WINDOW]);
    }
    SortedIsOrdered(s);
    UnmarkedPermuted(s, t);
    OfPermuted(s, t, id);
    OfKeepsTime(t, id);
    assert t[0..] == t;
    EventsPerId(t, 0, id);
    FlaggedPerId(t, 0, true, id);
    FlaggedPerId(t, 0, false, id);
  }

  /** The list after both passes. */
  function Round(s: seq<Record>): seq<Record> {
    Flagged(DataPass(s), false)
  }

  /** Readings that arrive one by one, both passes being made before the next. */
  function AfterTurns(readings: seq<Record>): seq<Record> {
    if readings == [] then []
    else Round([readings[|readings| - 1]] + AfterTurns(readings[..|readings| - 1]))
  }

  lemma {:induction false} FlaggedHasFlag(s: seq<Record>, flag: bool)
    ensures forall k :: 0 <= k < |Flagged(s, flag)| ==> Flagged(s, flag)[k].marked == flag
  {
    if s != [] {
      FlaggedHasFlag(s[1..], flag);
    }
  }

  /** In turns, an id holds as many records as it sent, but never more than four. */
  lemma {:induction false} FourAtRest(readings: seq<Record>, id: int)
    requires AllUnmarked(readings)
    ensures AllUnmarked(AfterTurns(readings))
    ensures |Of(AfterTurns(readings), id)| == Least(WINDOW - 1, |Of(readings, id)|)
  {
    hide DataPass, Sorted, Flagged, Events, EventsOf;
    if readings != [] {
      var n := |readings| - 1;
      var before := AfterTurns(readings[..n]);
      FourAtRest(readings[..n], id);
      var s := [readings[n]] + before;
      OfAppend([readings[n]], before, id);
      assert readings == readings[..n] + [readings[n]];
      OfAppend(readings[..n], [readings[n]], id);
      SlidingWindow(s, id);
      OfPermuted(s, Sorted(s), id) by { SortedIsOrdered(s); }
      FlaggedHasFlag(DataPass(s), false);
    }
  }

  // ----- a burst

  lemma {:induction false} SortIdsIdle(s: seq<Record>, i: nat)
    requires i <= |s| && IdOrdered(s)
    ensures SortIds(s, i) == s
    decreases |s| - i
  {
    if i < |s| {
      LeastIdIdle(s, i, i + 1);
      assert Swap(s, i, i) == s;
      SortIdsIdle(s, i + 1);
    }
  }

  lemma {:induction false} LeastIdIdle(s: seq<Record>, m: nat, j: nat)
    requires m < j <= |s| && IdOrdered(s)
    ensures LeastId(s, m, j) == m
    decreases |s| - j
  {
    if j < |s| {
      LeastIdIdle(s, m, j + 1);
    }
  }

  lemma {:induction false} LeastTimeIdle(s: seq<Record>, id: int, m: nat, j: nat)
    requires m < j <= |s| && s[m].id == id && Ordered(s)
    ensures LeastTime(s, id, m, j) == m
    decreases |s| - j
  {
    if j < |s| && s[j].id == id {
      assert Before(s[m], s[j]);
      LeastTimeIdle(s, id, m, j + 1);
    }
  }

  lemma {:induction false} SortGroupIdle(s: seq<Record>, id: int, i: nat)
    requires i <= |s| && Ordered(s)
    ensures SortGroup(s, id, i).records == s
    decreases |s| - i
  {
    if i < |s| && s[i].id == id {
      LeastTimeIdle(s, id, i, i + 1);
      assert Swap(s, i, i) == s;
      SortGroupIdle(s, id, i + 1);
    }
  }

  lemma {:induction false} SortTimesIdle(s: seq<Record>, i: nat)
    requires i <= |s| && Ordered(s)
    ensures SortTimes(s, i) == s
    decreases |s| - i
  {
    if i < |s| {
      SortGroupIdle(s, s[i].id, i);
      SortTimesIdle(s, SortGroup(s, s[i].id, i).next);
    }
  }

  /** Sorting a sorted list moves nothing. */
  lemma {:induction false} SortedStays(s: seq<Record>)
    requires Ordered(s)
    ensures Sorted(s) == s
  {
    OrderedById(s);
    SortIdsIdle(s, 0);
    SortTimesIdle(s, 0);
  }

  predicate SameKeys(s: seq<Record>, t: seq<Record>) {
    |s| == |t| && forall k :: 0 <= k < |s| ==> s[k].id == t[k].id && s[k].time == t[k].time
  }

  lemma {:induction false} MarkKeepsKeys(s: seq<Record>, i: nat)
    requires i <= |s|
    ensures SameKeys(Mark(s, i), s[i..])
    decreases |s| - i
  {
    if i < |s| {
      var e := GroupEnd(s, s[i].id, i);
      MarkKeepsKeys(s, e);
      assert s[i..] == s[i..e] + s[e..];
    }
  }

  lemma {:induction false} GroupEndSame(s: seq<Record>, t: seq<Record>, id: int, i: nat)
    requires |s| == |t| && i <= |s| && forall k :: i <= k < |s| ==> t[k].id == s[k].id
    ensures GroupEnd(t, id, i) == GroupEnd(s, id, i)
    decreases |s| - i
  {
    if i < |s| && s[i].id == id {
      GroupEndSame(s, t, id, i + 1);
    }
  }

  lemma {:induction false} MarkTwice(s: seq<Record>, m: seq<Record>, i: nat)
    requires |m| == |s| && i <= |s| && m[i..] == Mark(s, i)
    ensures Mark(m, i) == Mark(s, i)
    decreases |s| - i
  {
    if i < |s| {
      hide MarkedGroup;
      MarkKeepsKeys(s, i);
      forall k | i <= k < |s|
        ensures m[k].id == s[k].id
      {
        assert m[i..][k - i] == m[k] && s[i..][k - i] == s[k];
      }
      GroupEndSame(s, m, s[i].id, i);
      var e := GroupEnd(s, s[i].id, i);
      assert m[i..e] == m[i..][..e - i] == MarkedGroup(s[i..e]);
      assert m[e..] == m[i..][e - i..] == Mark(s, e);
      MarkTwice(s, m, e);
      MarkedGroupTwice(s[i..e]);
    }
  }

  lemma {:induction false} MarkedGroupTwice(group: seq<Record>)
    ensures MarkedGroup(MarkedGroup(group)) == MarkedGroup(group)
  {
  }

  /** A second data pass before the store pass changes nothing. */
  lemma {:induction false} DataPassTwice(s: seq<Record>)
    ensures DataPass(DataPass(s)) == DataPass(s)
  {
    hide Mark, Sorted;
    var t := Sorted(s);
    var m := DataPass(s);
    SortedIsOrdered(s);
    MarkKeepsKeys(t, 0);
    assert t[0..] == t && m[0..] == m;
    forall i, j | 0 <= i < j < |m|
      ensures Before(m[i], m[j])
    {
      assert Before(t[i], t[j]);
    }
    SortedStays(m);
    MarkTwice(t, m, 0);
  }

  function DataPasses(s: seq<Record>, n: nat): seq<Record>
    decreases n
  {
    if n == 0 then s else DataPasses(DataPass(s), n - 1)
  }

  function StorePasses(s: seq<Record>, n: nat): seq<Record>
    decreases n
  {
    if n == 0 then s else StorePasses(Flagged(s, false), n - 1)
  }

  lemma {:induction false} PassesRepeat(s: seq<Record>, n: nat)
    requires DataPass(s) == s
    ensures DataPasses(s, n) == s
  {
    if n > 0 {
      PassesRepeat(s, n - 1);
    }
  }

  lemma {:induction false} StoreRepeat(s: seq<Record>, n: nat)
    requires AllUnmarked(s)
    ensures StorePasses(s, n) == s
  {
    if n > 0 {
      FlaggedUnmarked(s);
      StoreRepeat(s, n - 1);
    }
  }

  /** The window is not kept when readings come in a burst: if all the data passes for them are made
      before the first store pass, each id gives up one record, however many readings came. */
  lemma {:induction false} BurstLeavesBacklog(s: seq<Record>, n: nat, id: int)
    requires AllUnmarked(s) && n > 0 && |Of(s, id)| >= WINDOW
    ensures |Of(StorePasses(DataPasses(s, n), n), id)| == |Of(s, id)| - 1
  {
    hide DataPass, Of, Flagged;
    DataPassTwice(s);
    PassesRepeat(DataPass(s), n - 1);
    FlaggedHasFlag(DataPass(s), false);
    StoreRepeat(Flagged(DataPass(s), false), n - 1);
    SlidingWindow(s, id);
    SortedIsOrdered(s);
    OfPermuted(s, Sorted(s), id);
  }
}
