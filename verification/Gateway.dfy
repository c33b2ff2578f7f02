/** The gateway's three threads over the shared list, one step a semaphore operation, a mutex
    operation or one list function called while the mutex is held. */
module Gateway {
  import opened Common
  import opened Sensors
  import opened SensorTheorems

  datatype Thread = Connection | DataManager | StoreManager

  datatype Owner = Free | Held(thread: Thread)

  datatype ConnPc =
    | Listening
    | Arrived(reading: Record)   // a reading has been parsed, the mutex comes next
    | Inserting(reading: Record) // the mutex is held
    | Inserted                   // the unlock comes next
    | Announcing                 // the post comes next

  datatype DataPc =
    | DataWaiting
    | DataWoken    // the mutex comes next
    | Sorting      // the mutex is held
    | Averaging
    | Averaged     // the unlock comes next
    | Handing      // the post comes next

  datatype StorePc =
    | StoreWaiting
    | StoreWoken   // the mutex comes next
    | Copying      // the mutex is held
    | Removing(copied: bool)
    | Removed      // the unlock comes next

  /** The shared data and where the threads stand. History: `received` all readings ever inserted,
      `dropped` those removed after the file could not be opened, the counts of inserts and passes. */
  datatype State = State(
    list: seq<Record>, file: seq<Record>, events: seq<Event>, owner: Owner, forData: nat, forStore: nat,
    conn: ConnPc, data: DataPc, store: StorePc,
    received: multiset<Record>, dropped: multiset<Record>, inserts: nat, dataPasses: nat, storePasses: nat)

  datatype Outcome = Blocked | Next(state: State)

  /** A record as it was received. */
  function Plain(s: seq<Record>): (r: seq<Record>)
    ensures |r| == |s|
    ensures forall k :: 0 <= k < |s| ==> r[k] == s[k].(marked := false)
  {
    seq(|s|, k requires 0 <= k < |s| => s[k].(marked := false))
  }

  /** A reading comes in, or a thread takes its next step; `opens` says whether the data file can
      be opened. */
  datatype Choice = Receive(reading: Record) | Step(thread: Thread, opens: bool)

  function RunConnection(s: State): Outcome {
    match s.conn
    case Listening => Blocked
    case Arrived(r) =>
      if s.owner != Free then Blocked else Next(s.(conn := Inserting(r), owner := Held(Connection)))
    case Inserting(r) =>
      Next(s.(conn := Inserted, list := [r] + s.list, received := s.received + multiset{r}, inserts := s.inserts + 1))
    case Inserted => Next(s.(conn := Announcing, owner := Free))
    case Announcing => Next(s.(conn := Listening, forData := s.forData + 1))
  }

  function RunDataManager(s: State): Outcome {
    match s.data
    case DataWaiting =>
      if s.forData == 0 then Blocked else Next(s.(data := DataWoken, forData := s.forData - 1))
    case DataWoken =>
      if s.owner != Free then Blocked else Next(s.(data := Sorting, owner := Held(DataManager)))
    case Sorting => Next(s.(data := Averaging, list := Sorted(s.list)))
    case Averaging =>
      Next(s.(data := Averaged, list := Mark(s.list, 0), events := s.events + Events(s.list, 0),
              dataPasses := s.dataPasses + 1))
    case Averaged => Next(s.(data := Handing, owner := Free))
    case Handing => Next(s.(data := DataWaiting, forStore := s.forStore + 1))
  }

  function RunStoreManager(s: State, opens: bool): Outcome {
    match s.store
    case StoreWaiting =>
      if s.forStore == 0 then Blocked else Next(s.(store := StoreWoken, forStore := s.forStore - 1))
    case StoreWoken =>
      if s.owner != Free then Blocked else Next(s.(store := Copying, owner := Held(StoreManager)))
    case Copying =>
      Next(s.(store := Removing(opens), file := if opens then s.file + Flagged(s.list, true) else s.file))
    case Removing(copied) =>
      Next(s.(store := Removed, list := Flagged(s.list, false),
              dropped := if copied then s.dropped else s.dropped + multiset(Plain(Flagged(s.list, true))),
              storePasses := s.storePasses + 1))
    case Removed => Next(s.(store := StoreWaiting, owner := Free))
  }

  function Run(s: State, choice: Choice): Outcome {
    match choice
    case Receive(r) =>
      if s.conn.Listening? then Next(s.(conn := Arrived(r.(marked := false)))) else Blocked
    case Step(Connection, _) => RunConnection(s)
    case Step(DataManager, _) => RunDataManager(s)
    case Step(StoreManager, opens) => RunStoreManager(s, opens)
  }

  predicate Initial(s: State) {
    && s.list == [] && s.file == [] && s.events == [] && s.owner == Free && s.forData == 0 && s.forStore == 0
    && s.conn == Listening && s.data == DataWaiting && s.store == StoreWaiting
    && s.received == multiset{} && s.dropped == multiset{}
    && s.inserts == 0 && s.dataPasses == 0 && s.storePasses == 0
  }

  // ----- what every step keeps

  /** The thread inside its critical section owns the mutex. */
  predicate Locked(s: State) {
    && (s.owner == Held(Connection) <==> s.conn.Inserting? || s.conn.Inserted?)
    && (s.owner == Held(DataManager) <==> s.data.Sorting? || s.data.Averaging? || s.data.Averaged?)
    && (s.owner == Held(StoreManager) <==> s.store.Copying? || s.store.Removing? || s.store.Removed?)
  }

  /** The records that are in the list and in the file at the same time. */
  function Twice(s: State): seq<Record> {
    if s.store == Removing(true) then Flagged(s.list, true) else []
  }

  /** Every reading is in the list, in the file or dropped, once; only between the copy and the
      removal are the copied ones there twice. */
  predicate Conserved(s: State) {
    multiset(Plain(s.list)) + multiset(Plain(s.file)) + s.dropped == s.received + multiset(Plain(Twice(s)))
  }

  predicate TokenOnItsWay(s: State) {
    || s.forStore > 0
    || s.data.Averaged? || s.data.Handing?
    || s.store.StoreWoken? || s.store.Copying? || s.store.Removing?
  }

  /** Marked records are there only while a store pass is still to come. */
  predicate MarksCovered(s: State) {
    && (AllUnmarked(s.list) || TokenOnItsWay(s))
    && (s.store.Removed? ==> AllUnmarked(s.list))
    && (s.conn.Arrived? || s.conn.Inserting? ==> !s.conn.reading.marked)
  }

  function Due(b: bool): nat {
    if b then 1 else 0
  }

  /** Every insert is one data pass done or due, and every data pass one store pass done or due. */
  predicate Counted(s: State) {
    && s.inserts == s.dataPasses + s.forData + Due(s.conn.Inserted? || s.conn.Announcing?)
                    + Due(s.data.DataWoken? || s.data.Sorting? || s.data.Averaging?)
    && s.dataPasses == s.storePasses + s.forStore + Due(s.data.Averaged? || s.data.Handing?)
                       + Due(s.store.StoreWoken? || s.store.Copying? || s.store.Removing?)
    && |s.received| == s.inserts
  }

  ghost predicate Inv(s: State) {
    Locked(s) && Conserved(s) && MarksCovered(s) && Counted(s)
  }

  // ----- the list functions keep the readings

  lemma {:induction false} PlainAppend(a: seq<Record>, b: seq<Record>)
    ensures Plain(a + b) == Plain(a) + Plain(b)
  {
  }

  lemma {:induction false} PlainHead(r: Record, s: seq<Record>)
    ensures Plain([r] + s) == [r.(marked := false)] + Plain(s)
  {
  }

  lemma {:induction false} FlaggedHead(s: seq<Record>, flag: bool)
    requires s != []
    ensures Flagged(s, flag) == if s[0].marked == flag then [s[0]] + Flagged(s[1..], flag) else Flagged(s[1..], flag)
  {
    assert [] + Flagged(s[1..], flag) == Flagged(s[1..], flag);
  }

  lemma {:induction false} PlainSplits(s: seq<Record>)
    ensures multiset(Plain(Flagged(s, true))) + multiset(Plain(Flagged(s, false))) == multiset(Plain(s))
  {
    hide Plain;
    if s == [] {
      NonePlain();
    } else {
      PlainSplits(s[1..]);
      FlaggedHead(s, true);
      FlaggedHead(s, false);
      hide Flagged;
      assert [s[0]] + s[1..] == s;
      PlainSplitsHead(s[0], Flagged(s[1..], true), Flagged(s[1..], false), s[1..]);
    }
  }

  lemma {:induction false} PlainSplitsHead(r: Record, a: seq<Record>, b: seq<Record>, c: seq<Record>)
    requires multiset(Plain(a)) + multiset(Plain(b)) == multiset(Plain(c))
    ensures multiset(Plain([r] + a)) + multiset(Plain(b)) == multiset(Plain([r] + c))
    ensures multiset(Plain(a)) + multiset(Plain([r] + b)) == multiset(Plain([r] + c))
  {
    PlainHead(r, a);
    PlainHead(r, b);
    PlainHead(r, c);
    hide Plain;
  }

  lemma {:induction false} MarkKeepsPlain(s: seq<Record>, i: nat)
    requires i <= |s|
    ensures Plain(Mark(s, i)) == Plain(s[i..])
    decreases |s| - i
  {
    hide Mark, Plain, MarkedGroup, GroupEnd;
    if i < |s| {
      var e := GroupEnd(s, s[i].id, i);
      MarkUnfolds(s, i);
      MarkedGroupKeepsPlain(s[i..e]);
      MarkKeepsPlain(s, e);
      assert s[i..] == s[i..e] + s[e..];
      PlainAppend(MarkedGroup(s[i..e]), Mark(s, e));
      PlainAppend(s[i..e], s[e..]);
    } else {
      assert s[i..] == [];
      NonePlain();
    }
  }

  lemma {:induction false} MarkedGroupKeepsPlain(group: seq<Record>)
    ensures Plain(MarkedGroup(group)) == Plain(group)
  {
  }

  /** Taking the same item out of two permutations of each other. */
  lemma {:induction false} TakeOut<T>(s: seq<T>, t: seq<T>) returns (k: nat)
    requires s != [] && multiset(s) == multiset(t)
    ensures k < |t| && t == t[..k] + [s[0]] + t[k + 1..]
    ensures multiset(s[1..]) == multiset(t[..k] + t[k + 1..])
  {
    assert s[0] in multiset(t);
    k :| 0 <= k < |t| && t[k] == s[0];
    assert s == [s[0]] + s[1..];
    assert t == t[..k] + [s[0]] + t[k + 1..];
    assert multiset(s[1..]) == multiset(s) - multiset{s[0]};
    assert multiset(t[..k] + t[k + 1..]) == multiset(t) - multiset{s[0]};
  }

  lemma {:induction false} PlainPermuted(s: seq<Record>, t: seq<Record>)
    requires multiset(s) == multiset(t)
    ensures multiset(Plain(s)) == multiset(Plain(t))
  {
    if s == [] {
      assert |multiset(t)| == 0;
    } else {
      var k := TakeOut(s, t);
      var head, front, back := [s[0]], t[..k], t[k + 1..];
      PlainPermuted(s[1..], front + back);
      hide Plain;
      assert s == head + s[1..];
      PlainAppend(head, s[1..]);
      PlainAppend(front, head);
      PlainAppend(front + head, back);
      PlainAppend(front, back);
    }
  }

  lemma {:induction false} SortedKeepsPlain(s: seq<Record>)
    ensures multiset(Plain(Sorted(s))) == multiset(Plain(s))
  {
    SortedIsOrdered(s);
    PlainPermuted(Sorted(s), s);
  }

  // ----- steps

  lemma {:induction false} InitialIsSound(s: State)
    requires Initial(s)
    ensures Inv(s)
  {
  }

  lemma {:induction false} KeepsLocked(s: State, choice: Choice)
    requires Locked(s) && Run(s, choice).Next?
    ensures Locked(Run(s, choice).state)
  {
    hide Sorted, Mark, Flagged, Events, Plain;
  }

  lemma {:induction false} KeepsCounted(s: State, choice: Choice)
    requires Counted(s) && Run(s, choice).Next?
    ensures Counted(Run(s, choice).state)
  {
    hide Sorted, Mark, Flagged, Events, Plain;
    match choice
    case Receive(_) =>
    case Step(Connection, _) =>
      hide RunDataManager, RunStoreManager;
      if s.conn.Inserting? {
        assert |s.received + multiset{s.conn.reading}| == |s.received| + 1;
      }
    case Step(DataManager, _) => hide RunConnection, RunStoreManager;
    case Step(StoreManager, _) => hide RunConnection, RunDataManager;
  }

  lemma {:induction false} KeepsMarksCovered(s: State, choice: Choice)
    requires Locked(s) && MarksCovered(s) && Run(s, choice).Next?
    ensures MarksCovered(Run(s, choice).state)
  {
    hide Sorted, Mark, Flagged, Events, Plain;
    if choice.Step? && choice.thread == DataManager && s.data.Sorting? && AllUnmarked(s.list) {
      SortedIsOrdered(s.list);
      UnmarkedPermuted(s.list, Sorted(s.list));
    }
    FlaggedHasFlag(s.list, false);
  }

  lemma {:induction false} MoreOnBothSides(m: multiset<Record>, a: multiset<Record>, b: multiset<Record>,
      c: multiset<Record>, x: multiset<Record>, y: multiset<Record>)
    requires a + b + c == x + y
    ensures (m + a) + b + c == (x + m) + y
  {
    assert (m + a) + b + c == m + (a + b + c);
    assert (x + m) + y == m + (x + y);
  }

  lemma {:induction false} ConnectionConserves(s: State)
    requires Locked(s) && MarksCovered(s) && Conserved(s) && RunConnection(s).Next?
    ensures Conserved(RunConnection(s).state)
  {
    hide Sorted, Mark, Flagged, Events, Plain;
    if s.conn.Inserting? {
      assert s.owner == Held(Connection) && !s.store.Removing?;
      PlainInserted(s.conn.reading, s.list);
      var t := RunConnection(s).state;
      assert Twice(t) == [] && Twice(s) == [];
      MoreOnBothSides(multiset{s.conn.reading}, multiset(Plain(s.list)), multiset(Plain(s.file)), s.dropped,
                      s.received, multiset(Plain([])));
    }
  }

  lemma {:induction false} DataManagerConserves(s: State)
    requires Locked(s) && Conserved(s) && RunDataManager(s).Next?
    ensures Conserved(RunDataManager(s).state)
  {
    hide Sorted, Mark, Flagged, Events, Plain;
    if s.data.Sorting? {
      assert s.owner == Held(DataManager);
      SortedKeepsPlain(s.list);
    } else if s.data.Averaging? {
      assert s.owner == Held(DataManager);
      MarkKeepsPlain(s.list, 0);
      assert s.list[0..] == s.list;
    }
  }

  lemma {:induction false} StoreManagerConserves(s: State, opens: bool)
    requires Conserved(s) && RunStoreManager(s, opens).Next?
    ensures Conserved(RunStoreManager(s, opens).state)
  {
    hide Sorted, Mark, Flagged, Events, Plain;
    NonePlain();
    var a, b, none := multiset(Plain(s.list)), multiset(Plain(s.file)), multiset(Plain([]));
    var marked, others := multiset(Plain(Flagged(s.list, true))), multiset(Plain(Flagged(s.list, false)));
    match s.store
    case Copying =>
      PlainAppend(s.file, Flagged(s.list, true));
      if opens {
        assert multiset(Plain(s.file + Flagged(s.list, true))) == b + marked;
        assert a + (b + marked) + s.dropped == (a + b + s.dropped) + marked;
        assert s.received + none + marked == s.received + marked;
      }
    case Removing(copied) =>
      PlainSplits(s.list);
      LessOnBothSides(marked, others, b, s.dropped, s.received, copied);
    case _ =>
  }

  lemma {:induction false} LessOnBothSides(m: multiset<Record>, a: multiset<Record>, b: multiset<Record>,
      c: multiset<Record>, x: multiset<Record>, copied: bool)
    requires (m + a) + b + c == x + if copied then m else multiset{}
    ensures a + b + (if copied then c else c + m) == x
  {
    if copied {
      assert (m + a) + b + c == (a + b + c) + m;
      assert (a + b + c) + m - m == a + b + c;
      assert x + m - m == x;
    } else {
      assert a + b + (c + m) == (m + a) + b + c;
      assert x + multiset{} == x;
    }
  }

  lemma {:induction false} KeepsConserved(s: State, choice: Choice)
    requires Locked(s) && MarksCovered(s) && Conserved(s) && Run(s, choice).Next?
    ensures Conserved(Run(s, choice).state)
  {
    hide RunConnection, RunDataManager, RunStoreManager, Plain, Locked, MarksCovered;
    match choice
    case Receive(_) =>
    case Step(Connection, _) => ConnectionConserves(s);
    case Step(DataManager, _) => DataManagerConserves(s);
    case Step(StoreManager, opens) => StoreManagerConserves(s, opens);
  }

  lemma {:induction false} PlainInserted(r: Record, s: seq<Record>)
    requires !r.marked
    ensures multiset(Plain([r] + s)) == multiset{r} + multiset(Plain(s))
  {
    PlainHead(r, s);
  }

  lemma {:induction false} NonePlain()
    ensures Plain([]) == []
  {
  }

  lemma {:induction false} StepKeepsInv(s: State, choice: Choice)
    requires Inv(s) && Run(s, choice).Next?
    ensures Inv(Run(s, choice).state)
  {
    hide Run, Locked, Conserved, MarksCovered, Counted;
    KeepsLocked(s, choice);
    KeepsConserved(s, choice);
    KeepsMarksCovered(s, choice);
    KeepsCounted(s, choice);
  }

  // ----- whole runs

  /** The state after some choices in turn, a blocked thread staying where it is. */
  function Exec(s: State, choices: seq<Choice>): State
    decreases choices
  {
    if choices == [] then s
    else match Run(s, choices[0])
      case Blocked => Exec(s, choices[1..])
      case Next(t) => Exec(t, choices[1..])
  }

  lemma {:induction false} RunsKeepInv(s: State, choices: seq<Choice>)
    requires Inv(s)
    ensures Inv(Exec(s, choices))
    decreases choices
  {
    hide Inv, Run;
    if choices != [] {
      match Run(s, choices[0])
      case Blocked => RunsKeepInv(s, choices[1..]);
      case Next(t) =>
        StepKeepsInv(s, choices[0]);
        RunsKeepInv(t, choices[1..]);
    }
  }

  /** The list is touched under the mutex only, and never by two threads. */
  lemma {:induction false} OneInside(s: State)
    requires Inv(s)
    ensures Due(s.conn.Inserting? || s.conn.Inserted?) + Due(s.data.Sorting? || s.data.Averaging? || s.data.Averaged?)
            + Due(s.store.Copying? || s.store.Removing? || s.store.Removed?) == Due(s.owner != Free)
  {
    hide Conserved, MarksCovered, Counted;
    match s.owner
    case Free =>
    case Held(Connection) =>
    case Held(DataManager) =>
    case Held(StoreManager) =>
  }

  /** The step by which the store manager loses readings: it takes marked records out of the list
      after it could not open the file for them. */
  predicate Loses(s: State, choice: Choice) {
    s.store == Removing(false) && choice.Step? && choice.thread == StoreManager && !AllUnmarked(s.list)
  }

  /** Some step of a run is such a step. */
  predicate EverLoses(s: State, choices: seq<Choice>)
    decreases choices
  {
    choices != [] &&
    (Loses(s, choices[0]) ||
     match Run(s, choices[0])
     case Blocked => EverLoses(s, choices[1..])
     case Next(t) => EverLoses(t, choices[1..]))
  }

  lemma {:induction false} StepDrops(s: State, choice: Choice)
    requires Run(s, choice).Next?
    ensures var t := Run(s, choice).state;
            if Loses(s, choice) then |t.dropped| > |s.dropped| else t.dropped == s.dropped
  {
    hide Sorted, Mark, Flagged, Events, Plain;
    if choice.Step? && choice.thread == StoreManager && s.store == Removing(false) {
      if AllUnmarked(s.list) {
        FlaggedUnmarked(s.list);
        NonePlain();
      } else {
        SomeFlagged(s.list);
        assert |multiset(Plain(Flagged(s.list, true)))| == |Plain(Flagged(s.list, true))|;
      }
    }
  }

  lemma {:induction false} LossIsAStep(s: State, choice: Choice)
    requires Loses(s, choice)
    ensures Run(s, choice).Next?
  {
  }

  lemma {:induction false} RunDrops(s: State, choices: seq<Choice>)
    ensures var t := Exec(s, choices);
            if EverLoses(s, choices) then |t.dropped| > |s.dropped| else t.dropped == s.dropped
    decreases choices
  {
    hide Run, Loses;
    if choices != [] {
      if Loses(s, choices[0]) {
        LossIsAStep(s, choices[0]);
      }
      match Run(s, choices[0])
      case Blocked => RunDrops(s, choices[1..]);
      case Next(t) =>
        StepDrops(s, choices[0]);
        RunDrops(t, choices[1..]);
    }
  }

  /** A run drops nothing if and only if it has no such step. */
  lemma {:induction false} DropsOnlyByLosing(s: State, choices: seq<Choice>)
    requires Initial(s)
    ensures Exec(s, choices).dropped == multiset{} <==> !EverLoses(s, choices)
  {
    hide Exec, EverLoses;
    RunDrops(s, choices);
  }

  /** Every attempt to open the data file succeeds. */
  predicate AllOpen(choices: seq<Choice>) {
    forall k :: 0 <= k < |choices| ==> choices[k] != Step(StoreManager, false)
  }

  lemma {:induction false} OpenNeverLoses(s: State, choices: seq<Choice>)
    requires AllOpen(choices) && s.store != Removing(false)
    ensures !EverLoses(s, choices)
    decreases choices
  {
    hide Sorted, Mark, Flagged, Events, Plain;
    if choices != [] {
      match Run(s, choices[0])
      case Blocked => OpenNeverLoses(s, choices[1..]);
      case Next(t) => OpenNeverLoses(t, choices[1..]);
    }
  }

  predicate AtRest(s: State) {
    s.conn.Listening? && s.data.DataWaiting? && s.store.StoreWaiting? && s.forData == 0 && s.forStore == 0
  }

  /** In every interleaving: at rest no record is marked, every insert has had its two passes, and
      every reading is in the list, in the file or dropped, once. List and file hold them all, at
      rest and, but for the copied ones being in both, at any moment, if and only if no step has
      taken away what it could not write. */
  lemma {:induction false} NothingIsLost(s: State, choices: seq<Choice>)
    requires Initial(s)
    ensures var t := Exec(s, choices);
            && multiset(Plain(t.list)) + multiset(Plain(t.file)) + t.dropped == t.received + multiset(Plain(Twice(t)))
            && (multiset(Plain(t.list)) + multiset(Plain(t.file)) == t.received + multiset(Plain(Twice(t)))
                <==> !EverLoses(s, choices))
    ensures var t := Exec(s, choices);
            AtRest(t) ==>
              && AllUnmarked(t.list)
              && t.inserts == t.dataPasses == t.storePasses == |t.received|
              && multiset(t.list) + multiset(Plain(t.file)) + t.dropped == t.received
              && (multiset(t.list) + multiset(Plain(t.file)) == t.received <==> !EverLoses(s, choices))
    ensures AllOpen(choices) ==> !EverLoses(s, choices)
  {
    hide Exec, Plain, Flagged, EverLoses;
    InitialIsSound(s);
    RunsKeepInv(s, choices);
    DropsOnlyByLosing(s, choices);
    var t := Exec(s, choices);
    NothingMissing(multiset(Plain(t.list)) + multiset(Plain(t.file)), t.dropped,
                   t.received + multiset(Plain(Twice(t))));
    if AtRest(t) {
      AllPlain(t.list);
      NonePlain();
      NothingMissing(multiset(t.list) + multiset(Plain(t.file)), t.dropped, t.received);
    }
    if AllOpen(choices) {
      OpenNeverLoses(s, choices);
    }
  }

  lemma {:induction false} NothingMissing(kept: multiset<Record>, dropped: multiset<Record>, all: multiset<Record>)
    requires kept + dropped == all
    ensures kept == all <==> dropped == multiset{}
  {
    assert |kept + dropped| == |kept| + |dropped|;
  }

  lemma {:induction false} AllPlain(s: seq<Record>)
    requires AllUnmarked(s)
    ensures Plain(s) == s
  {
  }

  /** When the file cannot be opened, the records taken away are in neither place. */
  lemma {:induction false} FailedOpenDrops(s: State)
    requires Inv(s) && s.store == Removing(false) && !AllUnmarked(s.list)
    ensures var t := Run(s, Step(StoreManager, true)).state;
            t.received != multiset(Plain(t.list)) + multiset(Plain(t.file))
  {
    StepKeepsInv(s, Step(StoreManager, true));
    var t := Run(s, Step(StoreManager, true)).state;
    SomeFlagged(s.list);
    hide Flagged, Plain;
    NonePlain();
    assert |t.dropped| == |s.dropped| + |Plain(Flagged(s.list, true))|;
    assert |multiset(Plain(t.list)) + multiset(Plain(t.file)) + t.dropped| == |t.received|;
  }

  lemma {:induction false} SomeFlagged(s: seq<Record>)
    requires !AllUnmarked(s)
    ensures Flagged(s, true) != []
  {
    if !s[0].marked {
      var k :| 0 <= k < |s| && s[k].marked;
      assert s[1..][k - 1].marked;
      SomeFlagged(s[1..]);
    }
  }

  // ----- progress

  /** The steps still to be taken for the readings that have come in. */
  function ConnWork(pc: ConnPc): nat {
    match pc
    case Listening => 0
    case Arrived(_) => 15
    case Inserting(_) => 14
    case Inserted => 13
    case Announcing => 12
  }

  function DataWork(pc: DataPc): nat {
    match pc
    case DataWaiting => 0
    case DataWoken => 10
    case Sorting => 9
    case Averaging => 8
    case Averaged => 7
    case Handing => 6
  }

  function StoreWork(pc: StorePc): nat {
    match pc
    case StoreWaiting => 0
    case StoreWoken => 4
    case Copying => 3
    case Removing(_) => 2
    case Removed => 1
  }

  /** The steps still to be taken for the readings that have come in. */
  function Work(s: State): nat {
    ConnWork(s.conn) + 11 * s.forData + DataWork(s.data) + 5 * s.forStore + StoreWork(s.store)
  }

  /** Every step of a thread takes the gateway one step nearer to rest; only readings add work. */
  lemma {:induction false} StepDoesWork(s: State, choice: Choice)
    requires Run(s, choice).Next?
    ensures Work(Run(s, choice).state) == if choice.Receive? then Work(s) + 15 else Work(s) - 1
  {
    hide Sorted, Mark, Flagged, Events, Plain;
    match choice
    case Receive(_) =>
    case Step(Connection, _) => hide RunDataManager, RunStoreManager, DataWork, StoreWork;
    case Step(DataManager, _) => hide RunConnection, RunStoreManager, ConnWork, StoreWork;
    case Step(StoreManager, _) => hide RunConnection, RunDataManager, ConnWork, DataWork;
  }

  lemma {:induction false} NoWorkAtRest(s: State)
    ensures Work(s) == 0 <==> AtRest(s)
  {
  }

  /** No deadlock: while there is work some thread can take a step. */
  lemma {:induction false} SomeThreadCanStep(s: State) returns (thread: Thread)
    requires Inv(s) && Work(s) > 0
    ensures forall opens :: Run(s, Step(thread, opens)).Next?
  {
    hide Sorted, Mark, Flagged, Events, Plain, Conserved, MarksCovered, Counted;
    if s.owner != Free {
      thread := s.owner.thread;
    } else if !s.conn.Listening? {
      thread := Connection;
    } else if !s.data.DataWaiting? || s.forData > 0 {
      thread := DataManager;
    } else {
      thread := StoreManager;
    }
  }

  /** From every reachable state the threads come to rest, after as many steps as there is work. */
  lemma {:induction false} ComesToRest(s: State) returns (choices: seq<Choice>)
    requires Inv(s)
    ensures |choices| == Work(s) && (forall k :: 0 <= k < |choices| ==> choices[k].Step?)
    ensures AtRest(Exec(s, choices))
    decreases Work(s)
  {
    NoWorkAtRest(s);
    if Work(s) == 0 {
      choices := [];
    } else {
      var thread := SomeThreadCanStep(s);
      var choice := Step(thread, true);
      StepDoesWork(s, choice);
      StepKeepsInv(s, choice);
      hide Work, Inv, Run, AtRest;
      var rest := ComesToRest(Run(s, choice).state);
      choices := [choice] + rest;
      assert choices[1..] == rest;
    }
  }

  // ----- readings in turns

  /** All states between the arrival of one reading at a gateway at rest and the next rest. */
  predicate InTurn(before: State, r: Record, s: State) {
    var list := [r] + before.list;
    var idle := s.data.DataWaiting? && s.store.StoreWaiting?;
    && Locked(s)
    && match s.conn
       case Arrived(x) => x == r && s.list == before.list && idle && s.forData == 0 && s.forStore == 0
       case Inserting(x) => x == r && s.list == before.list && idle && s.forData == 0 && s.forStore == 0
       case Inserted => s.list == list && idle && s.forData == 0 && s.forStore == 0
       case Announcing => s.list == list && idle && s.forData == 0 && s.forStore == 0
       case Listening => InPasses(list, s)
  }

  predicate InPasses(list: seq<Record>, s: State) {
    && s.forData + s.forStore + (if s.data.DataWaiting? then 0 else 1) + (if s.store.StoreWaiting? then 0 else 1) <= 1
    && match s.data
       case DataWoken => s.list == list
       case Sorting => s.list == list
       case Averaging => s.list == Sorted(list)
       case Averaged => s.list == DataPass(list)
       case Handing => s.list == DataPass(list)
       case DataWaiting =>
         if s.forData == 1 then s.list == list
         else if s.forStore == 1 || s.store.StoreWoken? || s.store.Copying? || s.store.Removing?
         then s.list == DataPass(list)
         else s.list == Round(list)
  }

  lemma {:induction false} TurnGoesOn(before: State, r: Record, s: State, choice: Choice)
    requires InTurn(before, r, s) && choice.Step? && Run(s, choice).Next?
    ensures InTurn(before, r, Run(s, choice).state)
  {
    hide Sorted, Mark, Flagged, Events, Plain;
    KeepsLocked(s, choice);
  }

  lemma {:induction false} WholeTurn(before: State, r: Record, s: State, choices: seq<Choice>)
    requires InTurn(before, r, s) && forall k :: 0 <= k < |choices| ==> choices[k].Step?
    ensures InTurn(before, r, Exec(s, choices))
    decreases choices
  {
    hide InTurn, Run;
    if choices != [] {
      match Run(s, choices[0])
      case Blocked => WholeTurn(before, r, s, choices[1..]);
      case Next(t) =>
        TurnGoesOn(before, r, s, choices[0]);
        WholeTurn(before, r, t, choices[1..]);
    }
  }

  /** One reading and the choices made until the gateway is at rest again. */
  datatype Turn = Turn(reading: Record, choices: seq<Choice>)

  function ExecTurn(s: State, turn: Turn): State {
    Exec(s, [Receive(turn.reading)] + turn.choices)
  }

  function ExecTurns(s: State, turns: seq<Turn>): State {
    if turns == [] then s else ExecTurn(ExecTurns(s, turns[..|turns| - 1]), turns[|turns| - 1])
  }

  /** Every reading comes in only when the gateway is at rest. */
  ghost predicate InTurns(s: State, turns: seq<Turn>) {
    turns != [] ==>
      var last := turns[|turns| - 1];
      && InTurns(s, turns[..|turns| - 1])
      && (forall k :: 0 <= k < |last.choices| ==> last.choices[k].Step?)
      && AtRest(ExecTurns(s, turns))
  }

  function Readings(turns: seq<Turn>): (r: seq<Record>)
    ensures |r| == |turns| && AllUnmarked(r)
  {
    if turns == [] then []
    else Readings(turns[..|turns| - 1]) + [turns[|turns| - 1].reading.(marked := false)]
  }

  lemma {:induction false} OneTurn(s: State, turn: Turn)
    requires Inv(s) && AtRest(s) && (forall k :: 0 <= k < |turn.choices| ==> turn.choices[k].Step?)
    requires AtRest(ExecTurn(s, turn))
    ensures ExecTurn(s, turn).list == Round([turn.reading.(marked := false)] + s.list)
  {
    var r := turn.reading.(marked := false);
    var choices := [Receive(turn.reading)] + turn.choices;
    var t := Run(s, choices[0]).state;
    assert choices[1..] == turn.choices;
    assert InTurn(s, r, t);
    WholeTurn(s, r, t, turn.choices);
  }

  /** However the threads interleave, readings that come in at rest give the rounds in turn, so that
      every id then holds as many records as it sent, but never more than four. */
  lemma {:induction false} TurnsSlideTheWindow(s: State, turns: seq<Turn>, id: int)
    requires Initial(s) && InTurns(s, turns)
    ensures Inv(ExecTurns(s, turns)) && AtRest(ExecTurns(s, turns))
    ensures ExecTurns(s, turns).list == AfterTurns(Readings(turns))
    ensures |Of(ExecTurns(s, turns).list, id)| == Least(WINDOW - 1, |Of(Readings(turns), id)|)
  {
    hide Inv, Exec, Of, Round;
    InitialIsSound(s);
    if turns != [] {
      var n := |turns| - 1;
      TurnsSlideTheWindow(s, turns[..n], id);
      var u := ExecTurns(s, turns[..n]);
      OneTurn(u, turns[n]);
      RunsKeepInv(u, [Receive(turns[n].reading)] + turns[n].choices);
      assert Readings(turns)[..n] == Readings(turns[..n]);
    }
    FourAtRest(Readings(turns), id);
  }
}
