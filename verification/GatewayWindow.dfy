/** How many records of a sensor the threads leave behind, for every interleaving: exactly when the
    window of four at rest is kept. */
module GatewayWindow {
  import opened Sensors
  import opened SensorTheorems
  import opened Gateway

  // ----- one sensor's part of the list

  /** Per id, marking the list is marking its group. */
  lemma {:induction false} MarkPerId(s: seq<Record>, i: nat, id: int)
    requires i <= |s| && IdOrdered(s)
    ensures Of(Mark(s, i), id) == MarkedGroup(Of(s[i..], id))
    decreases |s| - i
  {
    hide Of, Mark, GroupEnd, IdOrdered;
    if i < |s| {
      var e := GroupEnd(s, s[i].id, i);
      MarkUnfolds(s, i);
      FirstGroup(s, i, id);
      OfAppend(MarkedGroup(s[i..e]), Mark(s, e), id);
      OfMarkedGroup(s[i..e], s[i].id, id);
      MarkPerId(s, e, id);
    } else {
      NothingMarked(s, id);
      assert s[i..] == [];
    }
  }

  lemma {:induction false} OfMarkedGroup(group: seq<Record>, groupId: int, id: int)
    requires forall k :: 0 <= k < |group| ==> group[k].id == groupId
    ensures Of(MarkedGroup(group), id) == if id == groupId then MarkedGroup(group) else []
  {
    if id == groupId {
      OfSame(MarkedGroup(group), id);
    } else {
      OfOther(MarkedGroup(group), id);
    }
  }

  lemma {:induction false} NothingMarked(s: seq<Record>, id: int)
    ensures Of(Mark(s, |s|), id) == [] == MarkedGroup(Of([], id))
  {
  }

  lemma {:induction false} OfFlagged(s: seq<Record>, flag: bool, id: int)
    ensures Of(Flagged(s, flag), id) == Flagged(Of(s, id), flag)
  {
    if s != [] {
      OfFlagged(s[1..], flag, id);
      FlaggedHead(s, flag);
      OfHead(s, id);
      var rest := Flagged(s[1..], flag);
      OfHead([s[0]] + rest, id);
      FlaggedHead([s[0]] + Of(s[1..], id), flag);
    }
  }

  lemma {:induction false} OfHead(s: seq<Record>, id: int)
    requires s != []
    ensures Of(s, id) == if s[0].id == id then [s[0]] + Of(s[1..], id) else Of(s[1..], id)
  {
    assert [] + Of(s[1..], id) == Of(s[1..], id);
  }

  /** The records of an id that no pass has marked. */
  function Unmarked(s: seq<Record>, id: int): nat {
    |Of(Flagged(s, false), id)|
  }

  /** A pass over the list marks none of this id: the group is too small or its first record is
      marked already. */
  predicate Misses(s: seq<Record>, id: int) {
    |Of(s, id)| < WINDOW || Of(s, id)[0].marked
  }

  // ----- what the list functions do to it

  lemma {:induction false} InsertAddsOne(r: Record, s: seq<Record>, id: int)
    requires !r.marked
    ensures Unmarked([r] + s, id) == Unmarked(s, id) + Due(r.id == id)
  {
    FlaggedHead([r] + s, false);
    OfHead([r] + Flagged(s, false), id);
  }

  lemma {:induction false} FlaggedCounts(s: seq<Record>, flag: bool)
    ensures forall r: Record :: multiset(Flagged(s, flag))[r] == if r.marked == flag then multiset(s)[r] else 0
  {
    if s != [] {
      assert s == [s[0]] + s[1..];
      FlaggedCounts(s[1..], flag);
    }
  }

  lemma {:induction false} FlaggedPermuted(s: seq<Record>, t: seq<Record>, flag: bool)
    requires multiset(s) == multiset(t)
    ensures multiset(Flagged(s, flag)) == multiset(Flagged(t, flag))
  {
    hide Flagged;
    FlaggedCounts(s, flag);
    FlaggedCounts(t, flag);
    var a, b := multiset(Flagged(s, flag)), multiset(Flagged(t, flag));
    assert forall r: Record :: a[r] == b[r];
  }

  lemma {:induction false} SortingKeeps(s: seq<Record>, id: int)
    ensures Unmarked(Sorted(s), id) == Unmarked(s, id)
  {
    hide Sorted, Flagged, Of;
    SortedIsOrdered(s);
    FlaggedPermuted(s, Sorted(s), false);
    OfPermuted(Flagged(s, false), Flagged(Sorted(s), false), id);
  }

  lemma {:induction false} GroupMarksOne(group: seq<Record>)
    ensures |Flagged(MarkedGroup(group), false)| + Due(|group| >= WINDOW && !group[0].marked)
         == |Flagged(group, false)|
  {
    if |group| >= WINDOW {
      FlaggedHead(MarkedGroup(group), false);
      FlaggedHead(group, false);
    }
  }

  lemma {:induction false} MarkingTakesOne(s: seq<Record>, id: int)
    requires IdOrdered(s)
    ensures Unmarked(Mark(s, 0), id) + Due(!Misses(s, id)) == Unmarked(s, id)
  {
    hide Of, Mark, Flagged, MarkedGroup, IdOrdered;
    assert s[0..] == s;
    MarkPerId(s, 0, id);
    OfFlagged(Mark(s, 0), false, id);
    OfFlagged(s, false, id);
    GroupMarksOne(Of(s, id));
  }

  lemma {:induction false} RemovingKeeps(s: seq<Record>, id: int)
    ensures Unmarked(Flagged(s, false), id) == Unmarked(s, id)
  {
    hide Flagged, Of;
    FlaggedHasFlag(s, false);
    FlaggedUnmarked(Flagged(s, false));
  }

  // ----- steps

  /** The list is in order between sorting and averaging. */
  predicate InOrder(s: State) {
    s.data.Averaging? ==> Ordered(s.list)
  }

  lemma {:induction false} KeepsInOrder(s: State, choice: Choice)
    requires Locked(s) && InOrder(s) && Run(s, choice).Next?
    ensures InOrder(Run(s, choice).state)
  {
    hide Sorted, Mark, Flagged, Events, Plain, Ordered;
    if choice.Step? && choice.thread == DataManager && s.data.Sorting? {
      SortedIsOrdered(s.list);
    }
  }

  /** This step inserts a reading of the id. */
  predicate Sends(s: State, choice: Choice, id: int) {
    choice.Step? && choice.thread == Connection && s.conn.Inserting? && s.conn.reading.id == id
  }

  /** This step is the averaging of a data pass, and marks none of the id. */
  predicate PassMisses(s: State, choice: Choice, id: int) {
    choice.Step? && choice.thread == DataManager && s.data.Averaging? && Misses(s.list, id)
  }

  lemma {:induction false} StepBalance(s: State, choice: Choice, id: int)
    requires MarksCovered(s) && InOrder(s) && Run(s, choice).Next?
    ensures var t := Run(s, choice).state;
            Unmarked(t.list, id) + t.dataPasses ==
            Unmarked(s.list, id) + s.dataPasses + Due(Sends(s, choice, id)) + Due(PassMisses(s, choice, id))
  {
    hide Sorted, Mark, Flagged, Events, Plain, Ordered, IdOrdered, Unmarked, Misses, AllUnmarked, TokenOnItsWay;
    match choice
    case Receive(_) =>
    case Step(Connection, _) =>
      if s.conn.Inserting? {
        InsertAddsOne(s.conn.reading, s.list, id);
      }
    case Step(DataManager, _) =>
      if s.data.Sorting? {
        SortingKeeps(s.list, id);
      } else if s.data.Averaging? {
        OrderedById(s.list);
        MarkingTakesOne(s.list, id);
      }
    case Step(StoreManager, _) =>
      RemovingKeeps(s.list, id);
  }

  // ----- runs

  /** The readings of an id inserted in a run. */
  function Sent(s: State, choices: seq<Choice>, id: int): nat
    decreases choices
  {
    if choices == [] then 0
    else
      Due(Sends(s, choices[0], id)) +
      match Run(s, choices[0])
      case Blocked => Sent(s, choices[1..], id)
      case Next(t) => Sent(t, choices[1..], id)
  }

  /** The data passes of a run that mark none of an id. */
  function Missed(s: State, choices: seq<Choice>, id: int): nat
    decreases choices
  {
    if choices == [] then 0
    else
      Due(PassMisses(s, choices[0], id)) +
      match Run(s, choices[0])
      case Blocked => Missed(s, choices[1..], id)
      case Next(t) => Missed(t, choices[1..], id)
  }

  lemma {:induction false} CountedStepsRun(s: State, choice: Choice, id: int)
    requires Sends(s, choice, id) || PassMisses(s, choice, id)
    ensures Run(s, choice).Next?
  {
  }

  lemma {:induction false} RunBalance(s: State, choices: seq<Choice>, id: int)
    requires Inv(s) && InOrder(s)
    ensures var t := Exec(s, choices);
            Unmarked(t.list, id) + t.dataPasses ==
            Unmarked(s.list, id) + s.dataPasses + Sent(s, choices, id) + Missed(s, choices, id)
    decreases choices
  {
    hide Run, Inv, InOrder, Unmarked, Sends, PassMisses;
    if choices != [] {
      if Sends(s, choices[0], id) || PassMisses(s, choices[0], id) {
        CountedStepsRun(s, choices[0], id);
      }
      match Run(s, choices[0])
      case Blocked => RunBalance(s, choices[1..], id);
      case Next(t) =>
        InvParts(s);
        StepBalance(s, choices[0], id);
        KeepsInOrder(s, choices[0]);
        StepKeepsInv(s, choices[0]);
        RunBalance(t, choices[1..], id);
    }
  }

  lemma {:induction false} StepMisses(s: State, choice: Choice, id: int)
    requires Run(s, choice).Next?
    ensures s.dataPasses + Due(PassMisses(s, choice, id)) <= Run(s, choice).state.dataPasses
  {
    hide Sorted, Mark, Flagged, Events, Plain, Misses;
  }

  lemma {:induction false} MissesArePasses(s: State, choices: seq<Choice>, id: int)
    ensures s.dataPasses + Missed(s, choices, id) <= Exec(s, choices).dataPasses
    decreases choices
  {
    hide Run, PassMisses;
    if choices != [] {
      if PassMisses(s, choices[0], id) {
        CountedStepsRun(s, choices[0], id);
      }
      match Run(s, choices[0])
      case Blocked => MissesArePasses(s, choices[1..], id);
      case Next(t) =>
        StepMisses(s, choices[0], id);
        MissesArePasses(t, choices[1..], id);
    }
  }

  lemma {:induction false} InvParts(s: State)
    requires Inv(s)
    ensures Locked(s) && MarksCovered(s)
  {
  }

  lemma {:induction false} NothingYet(s: State, id: int)
    requires Initial(s)
    ensures Inv(s) && InOrder(s) && Unmarked(s.list, id) == 0 == s.dataPasses
  {
    InitialIsSound(s);
  }

  /** In every run, the records of an id that are not marked, and the data passes, are as many as the
      readings of the id and the data passes that marked none of it. So the gateway comes to rest
      with four records of the id or fewer if and only if these are at most four more than all
      readings: each reading, of whatever id, has to bring a pass that marks one of this. */
  lemma {:induction false} WindowKept(s: State, choices: seq<Choice>, id: int)
    requires Initial(s)
    ensures var t := Exec(s, choices);
            && Unmarked(t.list, id) + t.dataPasses == Sent(s, choices, id) + Missed(s, choices, id)
            && (AtRest(t) ==>
                 && |Of(t.list, id)| + t.inserts == Sent(s, choices, id) + Missed(s, choices, id)
                 && |Of(t.list, id)| <= Sent(s, choices, id)
                 && (|Of(t.list, id)| <= WINDOW - 1 <==>
                      Sent(s, choices, id) + Missed(s, choices, id) <= t.inserts + WINDOW - 1))
  {
    hide Exec, Of, Flagged, Sent, Missed, AllUnmarked, EverLoses, AllOpen, Plain;
    NothingYet(s, id);
    RunBalance(s, choices, id);
    MissesArePasses(s, choices, id);
    NothingIsLost(s, choices);
    var t := Exec(s, choices);
    if AtRest(t) {
      FlaggedUnmarked(t.list);
    }
  }

  // ----- what is reported

  /** This step is the averaging of a data pass. */
  predicate IsAveraging(s: State, choice: Choice) {
    choice.Step? && choice.thread == DataManager && s.data.Averaging?
  }

  /** The groups of an id, as large as the window or larger, that the data passes of a run come upon. */
  function Judged(s: State, choices: seq<Choice>, id: int): seq<seq<Record>>
    decreases choices
  {
    if choices == [] then []
    else
      (if IsAveraging(s, choices[0]) && |Of(s.list, id)| >= WINDOW then [Of(s.list, id)] else []) +
      match Run(s, choices[0])
      case Blocked => Judged(s, choices[1..], id)
      case Next(t) => Judged(t, choices[1..], id)
  }

  /** The events are about the first five records of these groups, one each, in turn. */
  predicate ReportedAll(es: seq<Event>, groups: seq<seq<Record>>) {
    && |es| == |groups|
    && forall k :: 0 <= k < |groups| ==>
         |groups[k]| >= WINDOW && ByTime(groups[k]) && Averages(es[k], groups[k][..WINDOW])
  }

  lemma {:induction false} StepReports(s: State, choice: Choice, id: int)
    requires InOrder(s) && Run(s, choice).Next?
    ensures var t := Run(s, choice).state;
            var more := if IsAveraging(s, choice) then Events(s.list, 0) else [];
            && t.events == s.events + more
            && Reports(EventsOf(more, id), if IsAveraging(s, choice) then Of(s.list, id) else [])
            && (IsAveraging(s, choice) ==> ByTime(Of(s.list, id)))
  {
    hide Sorted, Mark, Flagged, Events, Plain, Ordered, IdOrdered, Averages, ByTime;
    if IsAveraging(s, choice) {
      OrderedById(s.list);
      EventsReport(s.list, id);
      OfKeepsTime(s.list, id);
    }
  }

  /** In every run, the events of an id are one for each group of five or more that a data pass came
      upon, in that order, each about the five of its records with the smallest times. */
  lemma {:induction false} EveryGroupIsReported(s: State, choices: seq<Choice>, id: int) returns (es: seq<Event>)
    requires Inv(s) && InOrder(s)
    ensures EventsOf(Exec(s, choices).events, id) == EventsOf(s.events, id) + es
    ensures ReportedAll(es, Judged(s, choices, id))
    decreases choices
  {
    hide Run, Inv, InOrder, IsAveraging, EventsOf, Of, Averages, Events, ByTime;
    if choices == [] {
      es := [];
    } else {
      match Run(s, choices[0])
      case Blocked =>
        AveragingRuns(s, choices[0]);
        es := EveryGroupIsReported(s, choices[1..], id);
      case Next(t) =>
        InvParts(s);
        StepReports(s, choices[0], id);
        KeepsInOrder(s, choices[0]);
        StepKeepsInv(s, choices[0]);
        var later := EveryGroupIsReported(t, choices[1..], id);
        var more := if IsAveraging(s, choices[0]) then Events(s.list, 0) else [];
        EventsOfAppend(s.events, more, id);
        es := EventsOf(more, id) + later;
    }
  }

  lemma {:induction false} AveragingRuns(s: State, choice: Choice)
    ensures IsAveraging(s, choice) ==> Run(s, choice).Next?
  {
  }

  lemma {:induction false} EventsOfRuns(s: State, choices: seq<Choice>, id: int)
    requires Initial(s)
    ensures ReportedAll(EventsOf(Exec(s, choices).events, id), Judged(s, choices, id))
  {
    hide Exec, ReportedAll, Judged;
    NothingYet(s, id);
    var es := EveryGroupIsReported(s, choices, id);
    assert EventsOf(s.events, id) + es == es;
  }

  // ----- what is written

  /** What has been written to the file stays where it is. */
  lemma {:induction false} FileOnlyGrows(s: State, choices: seq<Choice>)
    ensures s.file <= Exec(s, choices).file
    decreases choices
  {
    hide Sorted, Mark, Flagged, Events, Plain;
    if choices != [] {
      match Run(s, choices[0])
      case Blocked => FileOnlyGrows(s, choices[1..]);
      case Next(t) => FileOnlyGrows(t, choices[1..]);
    }
  }
}
