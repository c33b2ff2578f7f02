/** Two bounded buffers shared by any number of producers and consumers, one step a
    semaphore operation or one access to a buffer made while its mutex is held. */
module Kitchen {
  import opened Slots

  datatype Kind = Vegan | NonVegan

  /** What a process runs: the loop of a producer, of a consumer of one buffer, or of the
      consumer that tries both. */
  datatype Role = Producer(kind: Kind) | Consumer(kind: Kind) | Both

  /** Where a process stands in its loop. */
  datatype Pc =
    | Idle              // before the first wait of the loop
    | TryOther          // the consumer of both, after the first timed wait gave up
    | Token(kind: Kind)   // empty or full has been taken, the mutex comes next
    | Inside(kind: Kind)  // the mutex is held, the buffer access comes next
    | Accessed(kind: Kind)  // the buffer has been accessed, the first post comes next
    | Posted(kind: Kind)  // the second post comes next

  datatype Process = Process(role: Role, pc: Pc)

  /** One buffer with its three semaphores; `made` and `eaten` record its history. */
  datatype Buffer = Buffer(
    slots: seq<int>, mutex: nat, empty: nat, full: nat, made: multiset<int>, eaten: multiset<int>)

  datatype State = State(vegan: Buffer, nonVegan: Buffer, processes: seq<Process>)

  function Of(s: State, k: Kind): Buffer {
    if k.Vegan? then s.vegan else s.nonVegan
  }

  function With(s: State, k: Kind, b: Buffer): State {
    if k.Vegan? then s.(vegan := b) else s.(nonVegan := b)
  }

  function Move(s: State, i: nat, pc: Pc): State
    requires i < |s.processes|
  {
    s.(processes := s.processes[i := s.processes[i].(pc := pc)])
  }

  /** The two meals of a buffer. */
  function Meal(k: Kind, odd: bool): int {
    if k.Vegan? then (if odd then 12 else 11) else if odd then 22 else 21
  }

  predicate IsMeal(k: Kind, x: int) {
    match k
    case Vegan => x == 11 || x == 12
    case NonVegan => x == 21 || x == 22
  }

  datatype Outcome = Blocked | Next(state: State)

  function Change(s: State, i: nat, pc: Pc, k: Kind, b: Buffer): Outcome
    requires i < |s.processes|
  {
    Next(With(Move(s, i, pc), k, b))
  }

  function WaitFull(s: State, i: nat, k: Kind): Outcome
    requires i < |s.processes|
  {
    var b := Of(s, k);
    if b.full == 0 then Blocked else Change(s, i, Token(k), k, b.(full := b.full - 1))
  }

  function WaitEmpty(s: State, i: nat, k: Kind): Outcome
    requires i < |s.processes|
  {
    var b := Of(s, k);
    if b.empty == 0 then Blocked else Change(s, i, Token(k), k, b.(empty := b.empty - 1))
  }

  /** The top of each loop; `late` makes a timed wait give up. */
  function Start(s: State, i: nat, late: bool): Outcome
    requires i < |s.processes|
  {
    match s.processes[i].role
    case Producer(k) => WaitEmpty(s, i, k)
    case Consumer(k) => WaitFull(s, i, k)
    case Both => if late then Next(Move(s, i, TryOther)) else WaitFull(s, i, Vegan)
  }

  function Access(s: State, i: nat, k: Kind, odd: bool): Outcome
    requires i < |s.processes|
  {
    var b := Of(s, k);
    if s.processes[i].role.Producer? then
      var meal := Meal(k, odd);
      Change(s, i, Accessed(k), k, b.(slots := Written(b.slots, meal), made := b.made + multiset{meal}))
    else
      Change(s, i, Accessed(k), k,
        b.(slots := AfterRead(b.slots), eaten := b.eaten + multiset{ReadValue(b.slots)}))
  }

  /** A producer posts full and then the mutex, a consumer the mutex and then empty. */
  function FirstPost(s: State, i: nat, k: Kind): Outcome
    requires i < |s.processes|
  {
    var b := Of(s, k);
    Change(s, i, Posted(k), k,
      if s.processes[i].role.Producer? then b.(full := b.full + 1) else b.(mutex := b.mutex + 1))
  }

  function SecondPost(s: State, i: nat, k: Kind): Outcome
    requires i < |s.processes|
  {
    var b := Of(s, k);
    Change(s, i, Idle, k,
      if s.processes[i].role.Producer? then b.(mutex := b.mutex + 1) else b.(empty := b.empty + 1))
  }

  /** The next step of process `i`. */
  function Run(s: State, i: nat, odd: bool, late: bool): Outcome
    requires i < |s.processes|
  {
    match s.processes[i].pc
    case Idle => Start(s, i, late)
    case TryOther => if late then Next(Move(s, i, Idle)) else WaitFull(s, i, NonVegan)
    case Token(k) =>
      var b := Of(s, k);
      if b.mutex == 0 then Blocked else Change(s, i, Inside(k), k, b.(mutex := b.mutex - 1))
    case Inside(k) => Access(s, i, k, odd)
    case Accessed(k) => FirstPost(s, i, k)
    case Posted(k) => SecondPost(s, i, k)
  }

  predicate Step(s: State, t: State) {
    exists i: nat, odd: bool, late: bool :: i < |s.processes| && Run(s, i, odd, late) == Next(t)
  }

  predicate Fresh(b: Buffer, capacity: nat) {
    && b.slots == seq(capacity, _ => 0)
    && b.mutex == 1 && b.empty == capacity && b.full == 0
    && b.made == multiset{} && b.eaten == multiset{}
  }

  predicate Initial(s: State, capacity: nat) {
    && Fresh(s.vegan, capacity) && Fresh(s.nonVegan, capacity)
    && forall i :: 0 <= i < |s.processes| ==> s.processes[i].pc == Idle
  }

  predicate IsRun(run: seq<State>, capacity: nat) {
    && run != [] && Initial(run[0], capacity)
    && forall i :: 0 <= i < |run| - 1 ==> Step(run[i], run[i + 1])
  }

  // ----- counting processes

  datatype Measure =
    | Holding   // has the mutex
    | InFlight  // has taken a token and not yet given one back
    | Loaded    // owns an item that is in a slot: written and not announced, or claimed and not read

  function Weight(m: Measure, k: Kind, p: Process): nat {
    match m
    case Holding =>
      if p.pc == Inside(k) || p.pc == Accessed(k) || (p.role.Producer? && p.pc == Posted(k)) then 1 else 0
    case InFlight =>
      if p.pc == Token(k) || p.pc == Inside(k) || p.pc == Accessed(k) || (!p.role.Producer? && p.pc == Posted(k))
      then 1 else 0
    case Loaded =>
      if p.role.Producer? then (if p.pc == Accessed(k) then 1 else 0)
      else if p.pc == Token(k) || p.pc == Inside(k) then 1 else 0
  }

  function Count(m: Measure, k: Kind, ps: seq<Process>): nat {
    if ps == [] then 0 else Weight(m, k, ps[0]) + Count(m, k, ps[1..])
  }

  lemma {:induction false} CountUpdate(m: Measure, k: Kind, ps: seq<Process>, i: nat, p: Process)
    requires i < |ps|
    ensures Count(m, k, ps[i := p]) == Count(m, k, ps) - Weight(m, k, ps[i]) + Weight(m, k, p)
    ensures Count(m, k, ps) >= Weight(m, k, ps[i])
  {
    hide Weight;
    if i == 0 {
      assert ps[i := p][1..] == ps[1..];
    } else {
      assert ps[i := p][1..] == ps[1..][i - 1 := p];
      CountUpdate(m, k, ps[1..], i - 1, p);
    }
  }

  lemma {:induction false} CountZero(m: Measure, k: Kind, ps: seq<Process>)
    requires forall i :: 0 <= i < |ps| ==> Weight(m, k, ps[i]) == 0
    ensures Count(m, k, ps) == 0
  {
    if ps != [] {
      CountZero(m, k, ps[1..]);
    }
  }

  // ----- the invariant

  /** A process only touches the buffers its role is attached to. */
  predicate WellPlaced(p: Process) {
    match p.role
    case Both => true
    case _ => p.pc.Idle? || (!p.pc.TryOther? && p.pc.kind == p.role.kind)
  }

  predicate BufferInvariant(s: State, k: Kind, capacity: nat) {
    var b := Of(s, k);
    && |b.slots| == capacity
    && (forall i :: 0 <= i < capacity ==> b.slots[i] == 0 || IsMeal(k, b.slots[i]))
    && b.mutex + Count(Holding, k, s.processes) == 1
    && b.empty + b.full + Count(InFlight, k, s.processes) == capacity
    && |Contents(b.slots)| == b.full + Count(Loaded, k, s.processes)
    && b.made == b.eaten + Contents(b.slots)
  }

  predicate Invariant(s: State, capacity: nat) {
    && BufferInvariant(s, Vegan, capacity)
    && BufferInvariant(s, NonVegan, capacity)
    && forall i :: 0 <= i < |s.processes| ==> WellPlaced(s.processes[i])
  }

  lemma {:induction false} InitialHolds(s: State, capacity: nat)
    requires Initial(s, capacity)
    ensures Invariant(s, capacity)
  {
    forall k: Kind
      ensures BufferInvariant(s, k, capacity)
    {
      AllFree(Of(s, k).slots);
      forall m: Measure
        ensures Count(m, k, s.processes) == 0
      {
        CountZero(m, k, s.processes);
      }
    }
  }

  /** Of the places taken out of circulation at least one is free while a writer has not written. */
  lemma {:induction false} LoadedBelowInFlight(k: Kind, ps: seq<Process>, i: nat)
    requires i < |ps|
    ensures Count(Loaded, k, ps) <= Count(InFlight, k, ps)
    ensures Weight(Loaded, k, ps[i]) < Weight(InFlight, k, ps[i]) ==> Count(Loaded, k, ps) < Count(InFlight, k, ps)
  {
    assert Weight(Loaded, k, ps[0]) <= Weight(InFlight, k, ps[0]);
    if |ps| > 1 {
      LoadedBelowInFlight(k, ps[1..], if i > 0 then i - 1 else 0);
    }
  }

  lemma {:induction false} CountsMove(s: State, i: nat, pc: Pc, k: Kind)
    requires i < |s.processes|
    ensures forall m: Measure :: Count(m, k, Move(s, i, pc).processes)
                              == Count(m, k, s.processes) - Weight(m, k, s.processes[i])
                               + Weight(m, k, s.processes[i].(pc := pc))
    ensures forall m: Measure :: Count(m, k, s.processes) >= Weight(m, k, s.processes[i])
  {
    hide Weight;
    forall m: Measure
      ensures Count(m, k, Move(s, i, pc).processes)
           == Count(m, k, s.processes) - Weight(m, k, s.processes[i]) + Weight(m, k, s.processes[i].(pc := pc))
           && Count(m, k, s.processes) >= Weight(m, k, s.processes[i])
    {
      CountUpdate(m, k, s.processes, i, s.processes[i].(pc := pc));
    }
  }

  /** A producer about to write finds a free slot; a consumer about to read finds an item. */
  lemma {:induction false} AccessIsSafe(s: State, i: nat, k: Kind, capacity: nat)
    requires BufferInvariant(s, k, capacity) && i < |s.processes| && s.processes[i].pc == Inside(k)
    ensures s.processes[i].role.Producer? ==> |Contents(Of(s, k).slots)| < capacity
    ensures !s.processes[i].role.Producer? ==>
              |Contents(Of(s, k).slots)| > 0 && IsMeal(k, ReadValue(Of(s, k).slots))
  {
    LoadedBelowInFlight(k, s.processes, i);
    CountsMove(s, i, Idle, k);
    if !s.processes[i].role.Producer? {
      ReadRemoves(Of(s, k).slots);
    }
  }

  lemma {:induction false} WrittenMeal(k: Kind, slots: seq<int>, odd: bool)
    requires forall i :: 0 <= i < |slots| ==> slots[i] == 0 || IsMeal(k, slots[i])
    ensures var w := Written(slots, Meal(k, odd)); forall i :: 0 <= i < |w| ==> w[i] == 0 || IsMeal(k, w[i])
    ensures var r := AfterRead(slots); forall i :: 0 <= i < |r| ==> r[i] == 0 || IsMeal(k, r[i])
  {
  }

  lemma {:induction false} WriteKeeps(s: State, i: nat, k: Kind, odd: bool, capacity: nat)
    requires BufferInvariant(s, k, capacity) && i < |s.processes| && s.processes[i].pc == Inside(k)
    requires s.processes[i].role.Producer?
    ensures BufferInvariant(Access(s, i, k, odd).state, k, capacity)
  {
    hide Contents, Count, Written, AfterRead;
    AccessIsSafe(s, i, k, capacity);
    CountsMove(s, i, Accessed(k), k);
    WrittenMeal(k, Of(s, k).slots, odd);
    WriteAdds(Of(s, k).slots, Meal(k, odd));
  }

  lemma {:induction false} ReadKeeps(s: State, i: nat, k: Kind, odd: bool, capacity: nat)
    requires BufferInvariant(s, k, capacity) && i < |s.processes| && s.processes[i].pc == Inside(k)
    requires !s.processes[i].role.Producer?
    ensures BufferInvariant(Access(s, i, k, odd).state, k, capacity)
  {
    hide Contents, Count, Written, AfterRead, ReadValue;
    AccessIsSafe(s, i, k, capacity);
    CountsMove(s, i, Accessed(k), k);
    WrittenMeal(k, Of(s, k).slots, odd);
    ReadRemoves(Of(s, k).slots);
  }

  /** The arithmetic of a move: buffer `k` goes to `b` while process `i` goes to `pc`. */
  predicate Balanced(s: State, i: nat, pc: Pc, k: Kind, b: Buffer)
    requires i < |s.processes|
  {
    var p, q, a := s.processes[i], s.processes[i].(pc := pc), Of(s, k);
    && b.slots == a.slots && b.made == a.made && b.eaten == a.eaten
    && b.mutex + Weight(Holding, k, q) == a.mutex + Weight(Holding, k, p)
    && b.empty + b.full + Weight(InFlight, k, q) == a.empty + a.full + Weight(InFlight, k, p)
    && b.full + Weight(Loaded, k, q) == a.full + Weight(Loaded, k, p)
  }

  lemma {:induction false} BalancedKeeps(s: State, i: nat, pc: Pc, k: Kind, t: State, capacity: nat)
    requires BufferInvariant(s, k, capacity) && i < |s.processes|
    requires t.processes == Move(s, i, pc).processes && Balanced(s, i, pc, k, Of(t, k))
    ensures BufferInvariant(t, k, capacity)
  {
    hide Count, Contents, Weight;
    CountsMove(s, i, pc, k);
  }

  /** A first wait trades a token for a process in flight. */
  lemma {:induction false} WaitIsBalanced(s: State, i: nat, t: State, j: Kind, k: Kind)
    requires i < |s.processes| && (s.processes[i].pc.Idle? || s.processes[i].pc.TryOther?)
    requires (if s.processes[i].role.Producer? then WaitEmpty(s, i, j) else WaitFull(s, i, j)) == Next(t)
    ensures t.processes == Move(s, i, t.processes[i].pc).processes
    ensures Balanced(s, i, t.processes[i].pc, k, Of(t, k))
  {
    hide Count, Contents;
  }

  lemma {:induction false} StartIsBalanced(s: State, i: nat, odd: bool, late: bool, t: State, k: Kind)
    requires i < |s.processes| && Run(s, i, odd, late) == Next(t)
    requires (s.processes[i].pc.Idle? || s.processes[i].pc.TryOther?) && WellPlaced(s.processes[i])
    ensures t.processes == Move(s, i, t.processes[i].pc).processes
    ensures Balanced(s, i, t.processes[i].pc, k, Of(t, k))
  {
    hide Count, Contents, WaitEmpty, WaitFull;
    var p := s.processes[i];
    if p.role == Both && late {
    } else {
      hide Balanced;
      var j := if p.role == Both then (if p.pc.Idle? then Vegan else NonVegan) else p.role.kind;
      WaitIsBalanced(s, i, t, j, k);
    }
  }

  /** Taking a mutex moves no token. */
  lemma {:induction false} LockIsBalanced(s: State, i: nat, odd: bool, late: bool, t: State, k: Kind)
    requires i < |s.processes| && Run(s, i, odd, late) == Next(t)
    requires s.processes[i].pc.Token?
    ensures t.processes == Move(s, i, t.processes[i].pc).processes
    ensures Balanced(s, i, t.processes[i].pc, k, Of(t, k))
  {
    hide Start, WaitFull, Access, FirstPost, SecondPost, Count, Contents;
  }

  /** Accessing the other buffer moves no token of this one. */
  lemma {:induction false} OtherAccessIsBalanced(s: State, i: nat, odd: bool, late: bool, t: State, k: Kind)
    requires i < |s.processes| && Run(s, i, odd, late) == Next(t)
    requires s.processes[i].pc.Inside? && s.processes[i].pc.kind != k
    ensures t.processes == Move(s, i, t.processes[i].pc).processes
    ensures Balanced(s, i, t.processes[i].pc, k, Of(t, k))
  {
    hide Start, WaitFull, FirstPost, SecondPost, Count, Contents, Written, ReadValue, AfterRead;
  }

  /** A producer announces its item; a consumer gives the mutex back. */
  lemma {:induction false} FirstPostIsBalanced(s: State, i: nat, odd: bool, late: bool, t: State, k: Kind)
    requires i < |s.processes| && Run(s, i, odd, late) == Next(t)
    requires s.processes[i].pc.Accessed?
    ensures t.processes == Move(s, i, t.processes[i].pc).processes
    ensures Balanced(s, i, t.processes[i].pc, k, Of(t, k))
  {
    hide Count, Contents, Written, ReadValue, AfterRead;
  }

  /** A producer gives the mutex back; a consumer announces the free slot. */
  lemma {:induction false} SecondPostIsBalanced(s: State, i: nat, odd: bool, late: bool, t: State, k: Kind)
    requires i < |s.processes| && Run(s, i, odd, late) == Next(t)
    requires s.processes[i].pc.Posted?
    ensures t.processes == Move(s, i, t.processes[i].pc).processes
    ensures Balanced(s, i, t.processes[i].pc, k, Of(t, k))
  {
    hide Count, Contents, Written, ReadValue, AfterRead;
  }

  lemma {:induction false} RunKeepsBuffer(s: State, i: nat, odd: bool, late: bool, t: State, k: Kind, capacity: nat)
    requires Invariant(s, capacity) && i < |s.processes| && Run(s, i, odd, late) == Next(t)
    ensures BufferInvariant(t, k, capacity)
  {
    hide Count, Contents, BufferInvariant, Balanced;
    assert BufferInvariant(s, k, capacity);
    if s.processes[i].pc == Inside(k) {
      if s.processes[i].role.Producer? {
        WriteKeeps(s, i, k, odd, capacity);
      } else {
        ReadKeeps(s, i, k, odd, capacity);
      }
    } else {
      match s.processes[i].pc {
        case Accessed(_) => FirstPostIsBalanced(s, i, odd, late, t, k);
        case Posted(_) => SecondPostIsBalanced(s, i, odd, late, t, k);
        case Token(_) => LockIsBalanced(s, i, odd, late, t, k);
        case Inside(_) => OtherAccessIsBalanced(s, i, odd, late, t, k);
        case _ => StartIsBalanced(s, i, odd, late, t, k);
      }
      BalancedKeeps(s, i, t.processes[i].pc, k, t, capacity);
    }
  }

  lemma {:induction false} RunKeepsPlaces(s: State, i: nat, odd: bool, late: bool, t: State)
    requires i < |s.processes| && Run(s, i, odd, late) == Next(t)
    requires forall j :: 0 <= j < |s.processes| ==> WellPlaced(s.processes[j])
    ensures forall j :: 0 <= j < |t.processes| ==> WellPlaced(t.processes[j])
  {
    hide Written, AfterRead, ReadValue;
    assert forall j :: 0 <= j < |s.processes| && j != i ==> t.processes[j] == s.processes[j];
    assert WellPlaced(s.processes[i]) && WellPlaced(t.processes[i]);
  }

  lemma {:induction false} StepKeeps(s: State, t: State, capacity: nat)
    requires Invariant(s, capacity) && Step(s, t)
    ensures Invariant(t, capacity)
  {
    hide BufferInvariant, Run, WellPlaced;
    var i: nat, odd: bool, late: bool :| i < |s.processes| && Run(s, i, odd, late) == Next(t);
    RunKeepsBuffer(s, i, odd, late, t, Vegan, capacity);
    RunKeepsBuffer(s, i, odd, late, t, NonVegan, capacity);
    RunKeepsPlaces(s, i, odd, late, t);
  }

  /** Every state of every run satisfies the invariant. */
  lemma {:induction false} RunsAreSafe(run: seq<State>, capacity: nat, n: nat)
    requires IsRun(run, capacity) && n < |run|
    ensures Invariant(run[n], capacity)
  {
    if n == 0 {
      InitialHolds(run[0], capacity);
    } else {
      RunsAreSafe(run, capacity, n - 1);
      StepKeeps(run[n - 1], run[n], capacity);
    }
  }

  /** In every run a producer that writes finds a free slot, and a consumer that reads gets one
      of the two meals of the buffer: 11 or 12 from the vegan one, 21 or 22 from the other. */
  lemma {:induction false} RunsAccessSafely(run: seq<State>, capacity: nat, n: nat, i: nat, k: Kind)
    requires IsRun(run, capacity) && n < |run| && i < |run[n].processes| && run[n].processes[i].pc == Inside(k)
    ensures var slots := Of(run[n], k).slots;
            if run[n].processes[i].role.Producer? then exists j :: 0 <= j < |slots| && slots[j] == 0
            else ReadValue(slots) in slots && ReadValue(slots) in if k.Vegan? then {11, 12} else {21, 22}
  {
    RunsAreSafe(run, capacity, n);
    AccessIsSafe(run[n], i, k, capacity);
    var slots := Of(run[n], k).slots;
    ContentsSize(slots);
    if !run[n].processes[i].role.Producer? {
      ReadRemoves(slots);
    }
  }

  /** In every run a vegan buffer holds only 11 and 12, the other only 21 and 22. */
  lemma {:induction false} RunsKeepKinds(run: seq<State>, capacity: nat, n: nat, x: int)
    requires IsRun(run, capacity) && n < |run|
    ensures x in run[n].vegan.slots ==> x == 0 || x == 11 || x == 12
    ensures x in run[n].nonVegan.slots ==> x == 0 || x == 21 || x == 22
  {
    RunsAreSafe(run, capacity, n);
    assert BufferInvariant(run[n], Vegan, capacity) && BufferInvariant(run[n], NonVegan, capacity);
  }

  /** What a producer makes depends on its buffer and on the draw: the first of the two meals when that
      is even. */
  lemma {:induction false} DrawDecides(s: State, i: nat, odd: bool, late: bool, t: State)
    requires i < |s.processes| && s.processes[i].role.Producer? && s.processes[i].pc.Inside?
    requires Run(s, i, odd, late) == Next(t)
    ensures var k := s.processes[i].pc.kind;
            var meal := (if k.Vegan? then 10 else 20) + (if odd then 2 else 1);
            && Of(t, k).made == Of(s, k).made + multiset{meal}
            && Of(t, k).slots == Written(Of(s, k).slots, meal)
  {
  }

  predicate InCriticalSection(p: Process, k: Kind) {
    p.pc == Inside(k) || p.pc == Accessed(k) || (p.role.Producer? && p.pc == Posted(k))
  }

  /** In every run at most one process is in the critical section of a buffer. */
  lemma {:induction false} MutualExclusion(run: seq<State>, capacity: nat, n: nat, k: Kind, i: nat, j: nat)
    requires IsRun(run, capacity) && n < |run| && i < j < |run[n].processes|
    ensures !(InCriticalSection(run[n].processes[i], k) && InCriticalSection(run[n].processes[j], k))
  {
    RunsAreSafe(run, capacity, n);
    var ps := run[n].processes;
    CountUpdate(Holding, k, ps, i, ps[i].(pc := Idle));
    CountUpdate(Holding, k, ps[i := ps[i].(pc := Idle)], j, ps[j]);
  }

  /** Everything made has been eaten or is in the buffer, and the semaphores account for every slot. */
  lemma {:induction false} Accounting(run: seq<State>, capacity: nat, n: nat, k: Kind)
    requires IsRun(run, capacity) && n < |run|
    ensures var b := Of(run[n], k);
            && b.made == b.eaten + Contents(b.slots)
            && b.empty + b.full + Count(InFlight, k, run[n].processes) == capacity
            && b.full <= |Contents(b.slots)| <= capacity - b.empty
  {
    RunsAreSafe(run, capacity, n);
    var ps := run[n].processes;
    if ps != [] {
      LoadedBelowInFlight(k, ps, 0);
    }
  }

  // ----- progress

  predicate Attached(p: Process, k: Kind) {
    p.role == Both || p.role == Producer(k) || p.role == Consumer(k)
  }

  predicate CanRun(s: State, i: nat, k: Kind) {
    i < |s.processes| && Attached(s.processes[i], k) && Run(s, i, false, false).Next?
  }

  lemma {:induction false} SomeWeight(m: Measure, k: Kind, ps: seq<Process>) returns (i: nat)
    requires Count(m, k, ps) > 0
    ensures i < |ps| && Weight(m, k, ps[i]) > 0
  {
    if Weight(m, k, ps[0]) > 0 {
      i := 0;
    } else {
      i := SomeWeight(m, k, ps[1..]);
      i := i + 1;
    }
  }

  /** Even when no timed wait ever gives up, some process attached to a buffer can always move:
      waiting on empty and waiting on full are never the whole picture. */
  lemma {:induction false} Progress(s: State, capacity: nat, k: Kind, producer: nat, consumer: nat) returns (i: nat)
    requires Invariant(s, capacity) && capacity > 0
    requires producer < |s.processes| && s.processes[producer].role == Producer(k)
    requires consumer < |s.processes| && s.processes[consumer].role == Consumer(k)
    ensures CanRun(s, i, k)
  {
    hide Contents;
    var b := Of(s, k);
    if b.mutex == 0 {
      i := SomeWeight(Holding, k, s.processes);
    } else if Count(InFlight, k, s.processes) > 0 {
      i := SomeWeight(InFlight, k, s.processes);
    } else {
      CountUpdate(InFlight, k, s.processes, producer, s.processes[producer]);
      CountUpdate(InFlight, k, s.processes, consumer, s.processes[consumer]);
      CountUpdate(Holding, k, s.processes, producer, s.processes[producer]);
      i := if b.empty > 0 then producer else consumer;
    }
  }

  lemma {:induction false} RoleStays(s: State, i: nat, odd: bool, late: bool, t: State)
    requires i < |s.processes| && Run(s, i, odd, late) == Next(t)
    ensures |t.processes| == |s.processes|
    ensures forall j :: 0 <= j < |s.processes| ==> t.processes[j].role == s.processes[j].role
  {
    hide Written, AfterRead, ReadValue;
    assert forall j :: 0 <= j < |s.processes| && j != i ==> t.processes[j] == s.processes[j];
  }

  /** No step adds, drops or re-assigns a process. */
  lemma {:induction false} RolesStay(run: seq<State>, capacity: nat, n: nat)
    requires IsRun(run, capacity) && n < |run|
    ensures |run[n].processes| == |run[0].processes|
    ensures forall i :: 0 <= i < |run[n].processes| ==> run[n].processes[i].role == run[0].processes[i].role
  {
    hide Run, Initial;
    if n > 0 {
      RolesStay(run, capacity, n - 1);
      assert Step(run[n - 1], run[n]);
      var i: nat, odd: bool, late: bool
        :| i < |run[n - 1].processes| && Run(run[n - 1], i, odd, late) == Next(run[n]);
      RoleStays(run[n - 1], i, odd, late, run[n]);
    }
  }

  /** A buffer with a producer and a consumer of its own never gets stuck, in any run. */
  lemma {:induction false} RunsNeverStick(run: seq<State>, capacity: nat, n: nat, k: Kind, producer: nat, consumer: nat)
    requires IsRun(run, capacity) && n < |run| && capacity > 0
    requires producer < |run[0].processes| && run[0].processes[producer].role == Producer(k)
    requires consumer < |run[0].processes| && run[0].processes[consumer].role == Consumer(k)
    ensures exists i: nat :: CanRun(run[n], i, k)
  {
    RunsAreSafe(run, capacity, n);
    RolesStay(run, capacity, n);
    var i := Progress(run[n], capacity, k, producer, consumer);
  }

  // ----- one turn of each loop

  /** The three semaphores of a buffer. */
  datatype Semaphores = Semaphores(mutex: int, empty: int, full: int)

  function Lights(b: Buffer): Semaphores {
    Semaphores(b.mutex, b.empty, b.full)
  }

  /** The states of a process that runs alone. */
  function Alone(s: State, i: nat, odd: bool, late: bool, steps: nat): State
    requires i < |s.processes|
    ensures |Alone(s, i, odd, late, steps).processes| == |s.processes|
    decreases steps
  {
    if steps == 0 then s
    else
      var t := Alone(s, i, odd, late, steps - 1);
      match Run(t, i, odd, late)
      case Blocked => t
      case Next(u) => RoleStays(t, i, odd, late, u); u
  }

  /** One step of a process that has its token: what it does to the semaphores and the slots. */
  lemma {:induction false} Onwards(t: State, i: nat, odd: bool, late: bool)
    requires i < |t.processes| && !t.processes[i].pc.Idle? && !t.processes[i].pc.TryOther?
    requires t.processes[i].pc.Token? ==> Of(t, t.processes[i].pc.kind).mutex > 0
    ensures var p, k := t.processes[i], t.processes[i].pc.kind;
            var b, makes := Of(t, k), p.role.Producer?;
            var mutex: int, empty: int, full: int := b.mutex, b.empty, b.full;
            && Run(t, i, odd, late).Next?
            && var u := Run(t, i, odd, late).state;
               && |u.processes| == |t.processes|
               && u.processes[i] == p.(pc := match p.pc
                                             case Token(_) => Inside(k)
                                             case Inside(_) => Accessed(k)
                                             case Accessed(_) => Posted(k)
                                             case _ => Idle)
               && Lights(Of(u, k)) == (match p.pc
                                       case Token(_) => Semaphores(mutex - 1, empty, full)
                                       case Inside(_) => Semaphores(mutex, empty, full)
                                       case Accessed(_) =>
                                         if makes then Semaphores(mutex, empty, full + 1)
                                         else Semaphores(mutex + 1, empty, full)
                                       case _ =>
                                         if makes then Semaphores(mutex + 1, empty, full)
                                         else Semaphores(mutex, empty + 1, full))
               && Of(u, k).slots == if !p.pc.Inside? then b.slots
                                    else if makes then Written(b.slots, Meal(k, odd)) else AfterRead(b.slots)
  {
    hide Written, AfterRead, ReadValue, Meal;
  }

  lemma {:induction false} AloneStep(s: State, i: nat, odd: bool, late: bool, steps: nat)
    requires i < |s.processes| && Run(Alone(s, i, odd, late, steps), i, odd, late).Next?
    ensures Alone(s, i, odd, late, steps + 1) == Run(Alone(s, i, odd, late, steps), i, odd, late).state
  {
    hide Run;
  }

  lemma {:induction false} FirstStep(s: State, i: nat, odd: bool, late: bool, t: State)
    requires i < |s.processes| && Run(s, i, odd, late) == Next(t)
    ensures Alone(s, i, odd, late, 1) == t
  {
    hide Run;
    assert Alone(s, i, odd, late, 0) == s;
  }

  /** The four steps behind the token. */
  lemma {:induction false} FourSteps(s: State, i: nat, odd: bool, late: bool, n: nat, k: Kind, role: Role)
    requires i < |s.processes| && Alone(s, i, odd, late, n).processes[i] == Process(role, Token(k))
    requires Of(Alone(s, i, odd, late, n), k).mutex == 1
    ensures var b := Of(Alone(s, i, odd, late, n), k);
            var e, f, b2, b3, b4, b5 := b.empty, b.full, Of(Alone(s, i, odd, late, n + 1), k),
              Of(Alone(s, i, odd, late, n + 2), k), Of(Alone(s, i, odd, late, n + 3), k),
              Of(Alone(s, i, odd, late, n + 4), k);
            && Alone(s, i, odd, late, n + 4).processes[i] == Process(role, Idle)
            && Lights(b2) == Lights(b3) == Semaphores(0, e, f) && b2.slots == b.slots
            && b4.slots == b5.slots == b3.slots
            && if role.Producer? then
                 && b3.slots == Written(b.slots, Meal(k, odd))
                 && Lights(b4) == Semaphores(0, e, f + 1) && Lights(b5) == Semaphores(1, e, f + 1)
               else
                 && b3.slots == AfterRead(b.slots)
                 && Lights(b4) == Semaphores(1, e, f) && Lights(b5) == Semaphores(1, e + 1, f)
  {
    hide Run, Alone, Of, Written, AfterRead, Meal;
    Onwards(Alone(s, i, odd, late, n), i, odd, late);
    AloneStep(s, i, odd, late, n);
    Onwards(Alone(s, i, odd, late, n + 1), i, odd, late);
    AloneStep(s, i, odd, late, n + 1);
    Onwards(Alone(s, i, odd, late, n + 2), i, odd, late);
    AloneStep(s, i, odd, late, n + 2);
    Onwards(Alone(s, i, odd, late, n + 3), i, odd, late);
    AloneStep(s, i, odd, late, n + 3);
  }

  /** A producer takes an empty slot and then the mutex, writes, announces the meal while it still has the
      mutex, and gives that back last. */
  lemma {:induction false} ProducerTurn(s: State, i: nat, k: Kind, odd: bool, late: bool)
    requires i < |s.processes| && s.processes[i] == Process(Producer(k), Idle)
    requires Of(s, k).mutex == 1 && Of(s, k).empty > 0
    ensures var e, f := Of(s, k).empty, Of(s, k).full;
            && Lights(Of(Alone(s, i, odd, late, 1), k)) == Semaphores(1, e - 1, f)
            && Lights(Of(Alone(s, i, odd, late, 2), k)) == Semaphores(0, e - 1, f)
            && Lights(Of(Alone(s, i, odd, late, 3), k)) == Semaphores(0, e - 1, f)
            && Lights(Of(Alone(s, i, odd, late, 4), k)) == Semaphores(0, e - 1, f + 1)
            && Lights(Of(Alone(s, i, odd, late, 5), k)) == Semaphores(1, e - 1, f + 1)
            && Of(Alone(s, i, odd, late, 2), k).slots == Of(s, k).slots
            && Of(Alone(s, i, odd, late, 3), k).slots == Written(Of(s, k).slots, Meal(k, odd))
            && Of(Alone(s, i, odd, late, 5), k).slots == Of(Alone(s, i, odd, late, 3), k).slots
            && Alone(s, i, odd, late, 5).processes[i].pc == Idle
  {
    hide Written, AfterRead, ReadValue, Meal, Alone;
    FirstStep(s, i, odd, late, WaitEmpty(s, i, k).state);
    FourSteps(s, i, odd, late, 1, k, Producer(k));
  }

  /** A consumer takes a full slot and then the mutex, reads, gives the mutex back and only then announces
      the free slot. The consumer of both does this with the vegan buffer if it has one in time, else with
      the other; if that has none in time either, it starts again with nothing taken. */
  lemma {:induction false} ConsumerTurn(s: State, i: nat, k: Kind, odd: bool, late: bool)
    requires i < |s.processes| && Of(s, k).mutex == 1 && Of(s, k).full > 0 && !late
    requires var p := s.processes[i];
             p == Process(Consumer(k), Idle) || (p == Process(Both, Idle) && k.Vegan?)
             || (p == Process(Both, TryOther) && k.NonVegan?)
    ensures var e, f := Of(s, k).empty, Of(s, k).full;
            && Lights(Of(Alone(s, i, odd, late, 1), k)) == Semaphores(1, e, f - 1)
            && Lights(Of(Alone(s, i, odd, late, 2), k)) == Semaphores(0, e, f - 1)
            && Lights(Of(Alone(s, i, odd, late, 3), k)) == Semaphores(0, e, f - 1)
            && Lights(Of(Alone(s, i, odd, late, 4), k)) == Semaphores(1, e, f - 1)
            && Lights(Of(Alone(s, i, odd, late, 5), k)) == Semaphores(1, e + 1, f - 1)
            && Of(Alone(s, i, odd, late, 2), k).slots == Of(s, k).slots
            && Of(Alone(s, i, odd, late, 3), k).slots == AfterRead(Of(s, k).slots)
            && Of(Alone(s, i, odd, late, 5), k).slots == Of(Alone(s, i, odd, late, 3), k).slots
            && Alone(s, i, odd, late, 5).processes[i].pc == Idle
  {
    hide Written, AfterRead, ReadValue, Meal, Alone;
    FirstStep(s, i, odd, late, WaitFull(s, i, k).state);
    FourSteps(s, i, odd, late, 1, k, s.processes[i].role);
  }

  lemma {:induction false} BothGivesUp(s: State, i: nat, odd: bool)
    requires i < |s.processes| && s.processes[i] == Process(Both, Idle)
    ensures Alone(s, i, odd, true, 1) == s.(processes := s.processes[i := Process(Both, TryOther)])
    ensures Alone(s, i, odd, true, 2) == s
  {
    hide Alone, Access, WaitEmpty, WaitFull;
    var t := Move(s, i, TryOther);
    FirstStep(s, i, odd, true, t);
    AloneStep(s, i, odd, true, 1);
    assert Move(t, i, Idle).processes == s.processes;
  }
}
