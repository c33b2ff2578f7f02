/** What the sensor gateway does with its records, as functions on sequences: sorting by
    selection, averaging the groups, writing the marked records out and taking them away. */
module Sensors {

  /** One reading. `marked` is the DELETE flag. */
  datatype Record = Record(id: int, temp: real, time: int, marked: bool)

  // ----- sorting

  function Swap(s: seq<Record>, i: nat, j: nat): (r: seq<Record>)
    requires i < |s| && j < |s|
    ensures |r| == |s|
  {
    s[i := s[j]][j := s[i]]
  }

  /** The first record of smallest id among `m` and those from `j` on. */
  function LeastId(s: seq<Record>, m: nat, j: nat): (r: nat)
    requires m < j <= |s|
    ensures r == m || j <= r < |s|
    decreases |s| - j
  {
    if j == |s| then m
    else LeastId(s, if s[j].id < s[m].id then j else m, j + 1)
  }

  function SortIds(s: seq<Record>, i: nat): (r: seq<Record>)
    requires i <= |s|
    ensures |r| == |s|
    decreases |s| - i
  {
    if i == |s| then s else SortIds(Swap(s, i, LeastId(s, i, i + 1)), i + 1)
  }

  /** The first record of smallest time among `m` and the rest of its group from `j` on. */
  function LeastTime(s: seq<Record>, id: int, m: nat, j: nat): (r: nat)
    requires m < j <= |s| && s[m].id == id
    ensures (r == m || j <= r < |s|) && s[r].id == id
    ensures s[r].time <= s[m].time
    decreases |s| - j
  {
    if j == |s| || s[j].id != id then m
    else LeastTime(s, id, if s[j].time < s[m].time then j else m, j + 1)
  }

  datatype Grouped = Grouped(records: seq<Record>, next: nat)

  /** Sort one group by time, from index `i` to its end. */
  function SortGroup(s: seq<Record>, id: int, i: nat): (r: Grouped)
    requires i <= |s|
    ensures |r.records| == |s|
    ensures i <= r.next <= |s| && (i < |s| && s[i].id == id ==> i < r.next)
    decreases |s| - i
  {
    if i == |s| || s[i].id != id then Grouped(s, i)
    else SortGroup(Swap(s, i, LeastTime(s, id, i, i + 1)), id, i + 1)
  }

  function SortTimes(s: seq<Record>, i: nat): (r: seq<Record>)
    requires i <= |s|
    ensures |r| == |s|
    decreases |s| - i
  {
    if i == |s| then s
    else
      var g := SortGroup(s, s[i].id, i);
      SortTimes(g.records, g.next)
  }

  function Sorted(s: seq<Record>): (r: seq<Record>)
    ensures |r| == |s|
  {
    SortTimes(SortIds(s, 0), 0)
  }

  // ----- the passes over a sorted list

  /** The end of the group of `id` that starts at `i` or before. */
  function GroupEnd(s: seq<Record>, id: int, i: nat): (e: nat)
    requires i <= |s|
    ensures i <= e <= |s| && (i < |s| && s[i].id == id ==> i < e)
    ensures forall k :: i <= k < e ==> s[k].id == id
    ensures e < |s| ==> s[e].id != id
    decreases |s| - i
  {
    if i == |s| || s[i].id != id then i else GroupEnd(s, id, i + 1)
  }

  datatype Verdict = TooHot | TooCold | Normal

  datatype Event = Event(id: int, verdict: Verdict, temp: real, time: int)

  const WINDOW := 5

  function SumTemp(s: seq<Record>): real {
    if s == [] then 0.0 else SumTemp(s[..|s| - 1]) + s[|s| - 1].temp
  }

  function SumTime(s: seq<Record>): int {
    if s == [] then 0 else SumTime(s[..|s| - 1]) + s[|s| - 1].time
  }

  /** Division as C does it, towards zero. */
  function CDiv(a: int, b: int): int
    requires b > 0
  {
    if a >= 0 then a / b else -(-a / b)
  }

  function Judge(id: int, sumTemp: real, sumTime: int): Event {
    var temp := sumTemp / 5.0;
    var verdict := if temp > 16.0 then TooHot else if temp < 14.0 then TooCold else Normal;
    Event(id, verdict, temp, CDiv(sumTime, 5))
  }

  /** The event of the first five records of a group. */
  function EventOf(five: seq<Record>): Event
    requires |five| == WINDOW
  {
    Judge(five[0].id, SumTemp(five), SumTime(five))
  }

  function Events(s: seq<Record>, i: nat): seq<Event>
    requires i <= |s|
    decreases |s| - i
  {
    if i == |s| then []
    else
      var e := GroupEnd(s, s[i].id, i);
      (if e - i >= WINDOW then [EventOf(s[i..i + WINDOW])] else []) + Events(s, e)
  }

  /** A group with its first record marked when it has at least five. */
  function MarkedGroup(group: seq<Record>): (r: seq<Record>)
    ensures |r| == |group|
  {
    if |group| >= WINDOW then [group[0].(marked := true)] + group[1..] else group
  }

  /** The list from index `i`, the start of a group, with every group marked. */
  function Mark(s: seq<Record>, i: nat): (r: seq<Record>)
    requires i <= |s|
    ensures |r| == |s| - i
    decreases |s| - i
  {
    if i == |s| then []
    else
      var e := GroupEnd(s, s[i].id, i);
      MarkedGroup(s[i..e]) + Mark(s, e)
  }

  lemma {:induction false} MarkUnfolds(s: seq<Record>, i: nat)
    requires i < |s|
    ensures var e := GroupEnd(s, s[i].id, i); Mark(s, i) == MarkedGroup(s[i..e]) + Mark(s, e)
  {
  }

  /** The records whose flag is `flag`, in order. */
  function Flagged(s: seq<Record>, flag: bool): seq<Record> {
    if s == [] then []
    else (if s[0].marked == flag then [s[0]] else []) + Flagged(s[1..], flag)
  }

  function DataPass(s: seq<Record>): (r: seq<Record>) {
    Mark(Sorted(s), 0)
  }
}
