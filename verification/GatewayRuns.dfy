/** Runs of the gateway's threads in bursts: all readings first, then all data passes, then all store
    passes. */
module GatewayRuns {
  import opened Sensors
  import opened SensorTheorems
  import opened Gateway

  const CONNECT := Step(Connection, true)
  const MANAGE := Step(DataManager, true)

  lemma {:induction false} ExecAppend(s: State, a: seq<Choice>, b: seq<Choice>)
    ensures Exec(s, a + b) == Exec(Exec(s, a), b)
    decreases a
  {
    hide Run;
    if a == [] {
      assert a + b == b;
    } else {
      assert (a + b)[1..] == a[1..] + b;
      match Run(s, a[0])
      case Blocked => ExecAppend(s, a[1..], b);
      case Next(t) => ExecAppend(t, a[1..], b);
    }
  }

  /** The first choice is a step to `t`. */
  lemma {:induction false} ExecFirst(s: State, choices: seq<Choice>, t: State)
    requires choices != [] && Run(s, choices[0]) == Next(t)
    ensures Exec(s, choices) == Exec(t, choices[1..])
  {
    hide Run;
  }

  lemma {:induction false} ExecNone(s: State)
    ensures Exec(s, []) == s
  {
  }

  // ----- one reading, one data turn, one store turn

  function InsertChoices(r: Record): seq<Choice> {
    [Receive(r), CONNECT, CONNECT, CONNECT, CONNECT]
  }

  function AfterInsert(s: State, r: Record): State {
    var reading := r.(marked := false);
    s.(list := [reading] + s.list, received := s.received + multiset{reading}, inserts := s.inserts + 1,
       forData := s.forData + 1)
  }

  lemma {:induction false} InsertRun(s: State, r: Record)
    requires s.conn.Listening? && s.owner == Free
    ensures Exec(s, InsertChoices(r)) == AfterInsert(s, r)
  {
    hide Exec, Sorted, Mark, Flagged, Events, Plain;
    var reading := r.(marked := false);
    var s1 := s.(conn := Arrived(reading));
    var s2 := s1.(conn := Inserting(reading), owner := Held(Connection));
    var s3 := s2.(conn := Inserted, list := [reading] + s.list, received := s.received + multiset{reading},
                  inserts := s.inserts + 1);
    var s4 := s3.(conn := Announcing, owner := Free);
    ExecFirst(s, InsertChoices(r), s1);
    assert InsertChoices(r)[1..] == [CONNECT, CONNECT, CONNECT, CONNECT];
    ExecFirst(s1, [CONNECT, CONNECT, CONNECT, CONNECT], s2);
    ExecFirst(s2, [CONNECT, CONNECT, CONNECT], s3);
    ExecFirst(s3, [CONNECT, CONNECT], s4);
    ExecFirst(s4, [CONNECT], AfterInsert(s, r));
    ExecNone(AfterInsert(s, r));
  }

  const DATA_TURN := [MANAGE, MANAGE, MANAGE, MANAGE, MANAGE, MANAGE]

  function AfterData(s: State): State
    requires s.forData > 0
  {
    s.(list := DataPass(s.list), events := s.events + Events(Sorted(s.list), 0), forData := s.forData - 1,
       forStore := s.forStore + 1, dataPasses := s.dataPasses + 1)
  }

  lemma {:induction false} DataRun(s: State)
    requires s.data.DataWaiting? && s.owner == Free && s.forData > 0
    ensures Exec(s, DATA_TURN) == AfterData(s)
  {
    hide Exec, Sorted, Mark, Flagged, Events, Plain;
    var s1 := s.(data := DataWoken, forData := s.forData - 1);
    var s2 := s1.(data := Sorting, owner := Held(DataManager));
    var s3 := s2.(data := Averaging, list := Sorted(s.list));
    var s4 := s3.(data := Averaged, list := DataPass(s.list), events := s.events + Events(Sorted(s.list), 0),
                  dataPasses := s.dataPasses + 1);
    var s5 := s4.(data := Handing, owner := Free);
    ExecFirst(s, DATA_TURN, s1);
    ExecFirst(s1, [MANAGE, MANAGE, MANAGE, MANAGE, MANAGE], s2);
    ExecFirst(s2, [MANAGE, MANAGE, MANAGE, MANAGE], s3);
    ExecFirst(s3, [MANAGE, MANAGE, MANAGE], s4);
    ExecFirst(s4, [MANAGE, MANAGE], s5);
    ExecFirst(s5, [MANAGE], AfterData(s));
    ExecNone(AfterData(s));
  }

  function StoreTurn(opens: bool): seq<Choice> {
    var store := Step(StoreManager, opens);
    [store, store, store, store, store]
  }

  function AfterStore(s: State, opens: bool): State
    requires s.forStore > 0
  {
    s.(list := Flagged(s.list, false), file := if opens then s.file + Flagged(s.list, true) else s.file,
       dropped := if opens then s.dropped else s.dropped + multiset(Plain(Flagged(s.list, true))),
       forStore := s.forStore - 1, storePasses := s.storePasses + 1)
  }

  lemma {:induction false} StoreRun(s: State, opens: bool)
    requires s.store.StoreWaiting? && s.owner == Free && s.forStore > 0
    ensures Exec(s, StoreTurn(opens)) == AfterStore(s, opens)
  {
    hide Exec, Sorted, Mark, Flagged, Events, Plain;
    var store := Step(StoreManager, opens);
    var s1 := s.(store := StoreWoken, forStore := s.forStore - 1);
    var s2 := s1.(store := Copying, owner := Held(StoreManager));
    var s3 := s2.(store := Removing(opens), file := if opens then s.file + Flagged(s.list, true) else s.file);
    var s4 := s3.(store := Removed, list := Flagged(s.list, false), storePasses := s.storePasses + 1,
                  dropped := if opens then s.dropped else s.dropped + multiset(Plain(Flagged(s.list, true))));
    ExecFirst(s, StoreTurn(opens), s1);
    ExecFirst(s1, [store, store, store, store], s2);
    ExecFirst(s2, [store, store, store], s3);
    ExecFirst(s3, [store, store], s4);
    ExecFirst(s4, [store], AfterStore(s, opens));
    ExecNone(AfterStore(s, opens));
  }

  // ----- a whole burst

  function Inserts(readings: seq<Record>): seq<Choice> {
    if readings == [] then [] else Inserts(readings[..|readings| - 1]) + InsertChoices(readings[|readings| - 1])
  }

  function DataTurns(n: nat): seq<Choice> {
    if n == 0 then [] else DATA_TURN + DataTurns(n - 1)
  }

  function StoreTurns(n: nat, opens: bool): seq<Choice> {
    if n == 0 then [] else StoreTurn(opens) + StoreTurns(n - 1, opens)
  }

  function Burst(readings: seq<Record>, opens: bool): seq<Choice> {
    Inserts(readings) + (DataTurns(|readings|) + StoreTurns(|readings|, opens))
  }

  /** The list when all readings are in and no pass has been made. */
  function Stacked(readings: seq<Record>): (r: seq<Record>)
    ensures |r| == |readings| && AllUnmarked(r)
  {
    if readings == [] then []
    else [readings[|readings| - 1].(marked := false)] + Stacked(readings[..|readings| - 1])
  }

  /** Nobody is inside or in a hurry. */
  predicate Idle(s: State) {
    s.conn.Listening? && s.data.DataWaiting? && s.store.StoreWaiting? && s.owner == Free
  }

  lemma {:induction false} InsertsRun(s: State, readings: seq<Record>)
    requires Idle(s)
    ensures var t := Exec(s, Inserts(readings));
            && Idle(t) && t.list == Stacked(readings) + s.list && t.file == s.file
            && t.forData == s.forData + |readings| && t.forStore == s.forStore && t.inserts == s.inserts + |readings|
    decreases |readings|
  {
    if readings == [] {
      ExecNone(s);
    } else {
      var n := |readings| - 1;
      InsertsRun(s, readings[..n]);
      ExecAppend(s, Inserts(readings[..n]), InsertChoices(readings[n]));
      hide Exec;
      InsertRun(Exec(s, Inserts(readings[..n])), readings[n]);
    }
  }

  lemma {:induction false} DataTurnsRun(s: State, n: nat)
    requires Idle(s) && s.forData >= n
    ensures var t := Exec(s, DataTurns(n));
            && Idle(t) && t.list == DataPasses(s.list, n) && t.file == s.file
            && t.forData == s.forData - n && t.forStore == s.forStore + n && t.inserts == s.inserts
    decreases n
  {
    hide Exec, DataPass;
    if n == 0 {
      ExecNone(s);
    } else {
      DataRun(s);
      ExecAppend(s, DATA_TURN, DataTurns(n - 1));
      DataTurnsRun(AfterData(s), n - 1);
    }
  }

  lemma {:induction false} StoreTurnsRun(s: State, n: nat, opens: bool)
    requires Idle(s) && s.forStore >= n
    ensures var t := Exec(s, StoreTurns(n, opens));
            && Idle(t) && t.list == StorePasses(s.list, n) && (!opens ==> t.file == s.file)
            && t.forData == s.forData && t.forStore == s.forStore - n && t.inserts == s.inserts
    decreases n
  {
    hide Exec, Flagged;
    if n == 0 {
      ExecNone(s);
    } else {
      StoreRun(s, opens);
      ExecAppend(s, StoreTurn(opens), StoreTurns(n - 1, opens));
      StoreTurnsRun(AfterStore(s, opens), n - 1, opens);
    }
  }

  lemma {:induction false} BurstRun(s: State, readings: seq<Record>, opens: bool)
    requires Initial(s)
    ensures var n := |readings|;
            var t := Exec(s, Burst(readings, opens));
            && AtRest(t) && t.list == StorePasses(DataPasses(Stacked(readings), n), n)
            && t.inserts == n && (!opens ==> t.file == [])
  {
    hide Exec, Stacked;
    var n := |readings|;
    InsertsRun(s, readings);
    var s1 := Exec(s, Inserts(readings));
    DataTurnsRun(s1, n);
    var s2 := Exec(s1, DataTurns(n));
    StoreTurnsRun(s2, n, opens);
    ExecAppend(s, Inserts(readings), DataTurns(n) + StoreTurns(n, opens));
    ExecAppend(s1, DataTurns(n), StoreTurns(n, opens));
    assert Stacked(readings) + [] == Stacked(readings);
  }

  /** A burst of at least five readings of one sensor, run by the threads from the start, comes to rest
      with all of them but one in the list: five or more where turns would have left four. */
  lemma {:induction false} BurstBreaksTheWindow(s: State, readings: seq<Record>, id: int, opens: bool)
    requires Initial(s) && |readings| >= WINDOW && forall k :: 0 <= k < |readings| ==> readings[k].id == id
    ensures var t := Exec(s, Burst(readings, opens));
            AtRest(t) && |t.list| == |Of(t.list, id)| == |readings| - 1
    ensures |readings| > WINDOW ==> |Of(Exec(s, Burst(readings, opens)).list, id)| > WINDOW - 1
  {
    hide Exec, DataPass;
    BurstRun(s, readings, opens);
    var n := |readings|;
    StackedIds(readings, id);
    OfSame(Stacked(readings), id);
    BurstLeavesBacklog(Stacked(readings), n, id);
    PassesKeepId(Stacked(readings), n, id);
    OfSame(StorePasses(DataPasses(Stacked(readings), n), n), id);
  }

  lemma {:induction false} StackedIds(readings: seq<Record>, id: int)
    requires forall k :: 0 <= k < |readings| ==> readings[k].id == id
    ensures OneId(Stacked(readings), id)
  {
    if readings != [] {
      StackedIds(readings[..|readings| - 1], id);
    }
  }

  predicate OneId(s: seq<Record>, id: int) {
    forall k :: 0 <= k < |s| ==> s[k].id == id
  }

  lemma {:induction false} SortedKeepsId(s: seq<Record>, id: int)
    requires OneId(s, id)
    ensures OneId(Sorted(s), id)
  {
    hide Sorted;
    SortedIsOrdered(s);
    var t := Sorted(s);
    forall k | 0 <= k < |t|
      ensures t[k].id == id
    {
      assert t[k] in multiset(t);
      assert t[k] in multiset(s);
    }
  }

  lemma {:induction false} DataPassKeepsId(s: seq<Record>, id: int)
    requires OneId(s, id)
    ensures OneId(DataPass(s), id)
  {
    hide Sorted, Mark;
    SortedKeepsId(s, id);
    MarkKeepsKeys(Sorted(s), 0);
    assert Sorted(s)[0..] == Sorted(s);
  }

  lemma {:induction false} FlaggedKeepsId(s: seq<Record>, flag: bool, id: int)
    requires OneId(s, id)
    ensures OneId(Flagged(s, flag), id)
  {
    if s != [] {
      FlaggedKeepsId(s[1..], flag, id);
    }
  }

  lemma {:induction false} PassesKeepId(s: seq<Record>, n: nat, id: int)
    requires OneId(s, id)
    ensures OneId(StorePasses(DataPasses(s, n), n), id)
  {
    DataPassesKeepId(s, n, id);
    StorePassesKeepId(DataPasses(s, n), n, id);
  }

  lemma {:induction false} DataPassesKeepId(s: seq<Record>, n: nat, id: int)
    requires OneId(s, id)
    ensures OneId(DataPasses(s, n), id)
    decreases n
  {
    hide DataPass;
    if n > 0 {
      DataPassKeepsId(s, id);
      DataPassesKeepId(DataPass(s), n - 1, id);
    }
  }

  lemma {:induction false} StorePassesKeepId(s: seq<Record>, n: nat, id: int)
    requires OneId(s, id)
    ensures OneId(StorePasses(s, n), id)
    decreases n
  {
    hide Flagged;
    if n > 0 {
      FlaggedKeepsId(s, false, id);
      StorePassesKeepId(Flagged(s, false), n - 1, id);
    }
  }

  /** With the file never opening, such a run from the start ends with one reading neither in the
      list nor in the file. */
  lemma {:induction false} BurstLosesAReading(s: State, readings: seq<Record>, id: int)
    requires Initial(s) && |readings| >= WINDOW && forall k :: 0 <= k < |readings| ==> readings[k].id == id
    ensures var t := Exec(s, Burst(readings, false));
            && AtRest(t) && |t.received| == |readings| && t.file == [] && |t.list| == |readings| - 1
            && |t.dropped| == 1 && EverLoses(s, Burst(readings, false))
  {
    hide *;
    BurstBreaksTheWindow(s, readings, id, false);
    BurstRun(s, readings, false);
    NothingIsLost(s, Burst(readings, false));
    DropsOnlyByLosing(s, Burst(readings, false));
    NonePlain();
  }
}
