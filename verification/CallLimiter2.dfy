/** CallLimiter2.Do (base/utils/call_limiter2.go) as a transition system over any number of calls: a
  compare-and-swap flag, a slot counter and a read-write lock. */
module CallLimiter2 {
  import opened Common

  type CallId = nat

  /** Where a call stands; the comment names the operation it performs next. */
  datatype PC =
    | Load                    // slot.Load: the ticket
    | Swap                    // executing.CompareAndSwap(false, true)
    | WantWrite               // slotWait.Lock
    | Clock                   // time.Since(lastExec)
    | Sleep(wake: int)        // end of the sleep, start of f
    | Exec                    // f returns or panics
    | Record                  // deferred: lastExec = time.Now()
    | Clear                   // deferred: executing.Store(false)
    | Move                    // deferred: slot.Add(1)
    | Release                 // deferred: slotWait.Unlock
    | Poll                    // slot.Load() == slot
    | WantRead                // slotWait.RLock
    | HasRead                 // slotWait.RUnlock
    | Returned(bundled: bool)

  /** `seen` is history: the executions finished when the ticket was drawn. */
  datatype Call = Call(pc: PC, ticket: nat, seen: nat)

  /** The limiter, the calls, and history: who runs f or is about to, who holds the write lock, and
      how many executions have finished, the last of them when. */
  datatype State = State(
    pause: int,
    now: int,
    lastExec: int,
    slot: nat,
    executing: bool,
    writing: bool,
    calls: map<CallId, Call>,
    executor: Option<CallId>,
    writer: Option<CallId>,
    finished: nat,
    lastFinish: Option<int>)

  // ---------------------------------------------------------------- steps

  ghost predicate Init(s: State) {
    && s.slot == 0 && !s.executing && !s.writing && s.calls == map[]
    && s.executor == None && s.writer == None && s.finished == 0 && s.lastFinish == None
  }

  function Goto(s: State, c: CallId, pc: PC): State
    requires c in s.calls
  {
    s.(calls := s.calls[c := s.calls[c].(pc := pc)])
  }

  /** No reader is inside the lock. */
  predicate NoReader(s: State) {
    forall c :: c in s.calls ==> !s.calls[c].pc.HasRead?
  }

  predicate Enabled(s: State, c: CallId)
    requires c in s.calls
  {
    match s.calls[c].pc
    case WantWrite => !s.writing && NoReader(s)
    case Sleep(wake) => s.now >= wake
    case WantRead => !s.writing
    case Returned(_) => false
    case _ => true
  }

  function After(s: State, c: CallId): State
    requires c in s.calls
  {
    match s.calls[c].pc
    case Load => s.(calls := s.calls[c := Call(Swap, s.slot, s.finished)])
    case Swap =>
      if s.executing then Goto(s, c, Poll) else Goto(s, c, WantWrite).(executing := true, executor := Some(c))
    case WantWrite => Goto(s, c, Clock).(writing := true, writer := Some(c))
    case Clock =>
      var since := s.now - s.lastExec;
      Goto(s, c, Sleep(if s.pause > 0 && since < s.pause then s.now + (s.pause - since) else s.now))
    case Sleep(_) => Goto(s, c, Exec)
    case Exec => Goto(s, c, Record).(finished := s.finished + 1, lastFinish := Some(s.now))
    case Record => Goto(s, c, Clear).(lastExec := s.now)
    case Clear => Goto(s, c, Move).(executing := false, executor := None)
    case Move => Goto(s, c, Release).(slot := s.slot + 1)
    case Release => Goto(s, c, Returned(false)).(writing := false, writer := None)
    case Poll => Goto(s, c, if s.slot == s.calls[c].ticket then WantRead else Returned(true))
    case WantRead => Goto(s, c, HasRead)
    case HasRead => Goto(s, c, Poll)
    case Returned(_) => s
  }

  datatype Action = Arrive(c: CallId) | Tick(t: int) | Go(c: CallId)

  predicate Can(s: State, a: Action) {
    match a
    case Arrive(c) => c !in s.calls
    case Tick(t) => t >= s.now
    case Go(c) => c in s.calls && Enabled(s, c)
  }

  function Do(s: State, a: Action): State
    requires Can(s, a)
  {
    match a
    case Arrive(c) => s.(calls := s.calls[c := Call(Load, 0, 0)])
    case Tick(t) => s.(now := t)
    case Go(c) => After(s, c)
  }

  ghost predicate Runs(s: State, schedule: seq<Action>, s': State)
    decreases |schedule|
  {
    if schedule == [] then s' == s
    else Can(s, schedule[0]) && Runs(Do(s, schedule[0]), schedule[1..], s')
  }

  ghost predicate Reachable(s: State) {
    exists init, schedule :: Init(init) && Runs(init, schedule, s)
  }

  // ------------------------------------------------------------ invariant

  predicate Executes(pc: PC) {
    pc.WantWrite? || pc.Clock? || pc.Sleep? || pc.Exec? || pc.Record? || pc.Clear?
  }

  predicate Writes(pc: PC) {
    (Executes(pc) && !pc.WantWrite?) || pc.Move? || pc.Release?
  }

  /** f is over but the slot has not moved yet. */
  predicate Lags(pc: PC) {
    pc.Record? || pc.Clear? || pc.Move?
  }

  predicate LimiterInv(s: State) {
    && (s.executing <==> s.executor.Some?)
    && (s.writing <==> s.writer.Some?)
    && (s.executor.Some? ==> s.executor.value in s.calls)
    && (s.writer.Some? ==> s.writer.value in s.calls && Writes(s.calls[s.writer.value].pc))
    && s.finished == s.slot + (if s.writer.Some? && Lags(s.calls[s.writer.value].pc) then 1 else 0)
    && (s.lastFinish.Some? ==> s.lastFinish.value <= s.now)
    && (s.lastFinish.Some? && !(s.writer.Some? && s.calls[s.writer.value].pc.Record?) ==> s.lastFinish.value <= s.lastExec)
  }

  predicate CallInv(s: State, c: CallId)
    requires c in s.calls
  {
    var call := s.calls[c];
    && (Executes(call.pc) <==> s.executor == Some(c))
    && (Writes(call.pc) <==> s.writer == Some(c))
    && (!call.pc.Load? ==> call.ticket <= s.slot && call.ticket <= call.seen <= call.ticket + 1 && call.seen <= s.finished)
    && (call.pc.Returned? && call.pc.bundled ==> call.ticket < s.slot)
    && (call.pc.Sleep? && s.lastFinish.Some? && s.pause > 0 ==> call.pc.wake >= s.lastFinish.value + s.pause)
    && (call.pc.Sleep? ==> call.pc.wake <= s.now || call.pc.wake <= s.lastExec + s.pause)
  }

  ghost predicate Inv(s: State) {
    LimiterInv(s) && forall c :: c in s.calls ==> CallInv(s, c)
  }

  /** What a step of `c` may rely on. */
  predicate Ready(s: State, c: CallId) {
    && c in s.calls && Enabled(s, c) && LimiterInv(s) && CallInv(s, c)
    && (s.writer.Some? ==> CallInv(s, s.writer.value))
  }

  predicate Early(pc: PC) { pc.Load? || pc.Swap? || pc.WantWrite? || pc.Clock? || pc.Sleep? }

  predicate Late(pc: PC) { pc.Exec? || pc.Record? || pc.Clear? || pc.Move? || pc.Release? }

  lemma MoverEarly(s: State, c: CallId)
    requires Ready(s, c) && Early(s.calls[c].pc)
    ensures c in After(s, c).calls && LimiterInv(After(s, c)) && CallInv(After(s, c), c)
  {}

  lemma MoverLate(s: State, c: CallId)
    requires Ready(s, c) && Late(s.calls[c].pc)
    ensures c in After(s, c).calls && LimiterInv(After(s, c)) && CallInv(After(s, c), c)
  {}

  lemma MoverPolling(s: State, c: CallId)
    requires Ready(s, c) && !Early(s.calls[c].pc) && !Late(s.calls[c].pc)
    ensures c in After(s, c).calls && LimiterInv(After(s, c)) && CallInv(After(s, c), c)
  {}

  lemma Other(s: State, c: CallId, d: CallId)
    requires Ready(s, c) && d in s.calls && d != c && CallInv(s, d)
    ensures d in After(s, c).calls && CallInv(After(s, c), d)
  {}

  lemma Frame(s: State, c: CallId)
    requires c in s.calls
    ensures c in After(s, c).calls && After(s, c).calls == s.calls[c := After(s, c).calls[c]]
    ensures After(s, c).finished == s.finished + (if s.calls[c].pc.Exec? then 1 else 0)
  {}

  lemma GoInv(s: State, c: CallId)
    requires Inv(s) && Can(s, Go(c))
    ensures Inv(After(s, c))
  {
    Frame(s, c);
    if Early(s.calls[c].pc) {
      MoverEarly(s, c);
    } else if Late(s.calls[c].pc) {
      MoverLate(s, c);
    } else {
      MoverPolling(s, c);
    }
    forall d | d in s.calls && d != c ensures CallInv(After(s, c), d) {
      Other(s, c, d);
    }
  }

  lemma ArriveInv(s: State, c: CallId)
    requires Inv(s) && c !in s.calls
    ensures Inv(Do(s, Arrive(c)))
  {
    var s' := Do(s, Arrive(c));
    forall d | d in s'.calls ensures CallInv(s', d) {
      assert d != c ==> CallInv(s, d);
    }
  }

  lemma TickInv(s: State, t: int)
    requires Inv(s) && t >= s.now
    ensures Inv(Do(s, Tick(t)))
  {
    var s' := Do(s, Tick(t));
    forall d | d in s'.calls ensures CallInv(s', d) {
      assert CallInv(s, d);
    }
  }

  lemma {:induction false} RunsInv(s: State, schedule: seq<Action>, s': State)
    requires Inv(s) && Runs(s, schedule, s')
    ensures Inv(s')
    decreases |schedule|
  {
    if schedule != [] {
      match schedule[0] {
        case Arrive(c) => ArriveInv(s, c);
        case Tick(t) => TickInv(s, t);
        case Go(c) => GoInv(s, c);
      }
      RunsInv(Do(s, schedule[0]), schedule[1..], s');
    }
  }

  lemma ReachableInv(s: State)
    requires Reachable(s)
    ensures Inv(s)
  {
    var init, schedule :| Init(init) && Runs(init, schedule, s);
    RunsInv(init, schedule, s);
  }

  // ------------------------------------------------------------- theorems

  /** f never overlaps itself, and runs only under the flag and the write lock. */
  lemma NoOverlap(s: State, c: CallId, d: CallId)
    requires Reachable(s) && c in s.calls && d in s.calls && s.calls[c].pc.Exec?
    ensures s.executing && s.writing && (s.calls[d].pc.Exec? ==> c == d)
  {
    ReachableInv(s);
    assert CallInv(s, c) && CallInv(s, d);
  }

  /** The slot counter lags the finished executions by at most one. */
  lemma SlotLag(s: State)
    requires Reachable(s)
    ensures s.slot <= s.finished <= s.slot + 1
  {
    ReachableInv(s);
  }

  /** A bundled call leaves only after the slot has moved past the value it read. */
  lemma BundledLeavesLater(s: State, c: CallId)
    requires Reachable(s) && c in s.calls && s.calls[c].pc == Returned(true)
    ensures s.calls[c].ticket < s.slot
  {
    ReachableInv(s);
    assert CallInv(s, c);
  }

  /** Successive executions are at least `pause` apart. */
  lemma PauseKept(s: State, c: CallId)
    requires Reachable(s) && c in s.calls && s.calls[c].pc.Sleep? && Enabled(s, c)
    ensures s.lastFinish.Some? ==> s.now - s.lastFinish.value >= s.pause
  {
    ReachableInv(s);
    assert CallInv(s, c);
  }

  /** Nobody sleeps longer than that: the sleep is over as soon as the pause since the last execution is, and at once
      if it is already. */
  lemma NoOversleep(s: State, c: CallId)
    requires Reachable(s) && c in s.calls
    ensures s.calls[c].pc.Sleep? && s.now >= s.lastExec + s.pause ==> Enabled(s, c)
    ensures s.calls[c].pc.Clock? && s.now >= s.lastExec + s.pause ==> After(s, c).calls[c].pc == Sleep(s.now)
  {
    ReachableInv(s);
    assert CallInv(s, c);
  }

  // ------------------------------------------------------------- progress

  /** The call waits for the slot it drew its ticket for to end. */
  predicate Waits(s: State, c: CallId)
    requires c in s.calls
  {
    (s.calls[c].pc.Poll? || s.calls[c].pc.WantRead? || s.calls[c].pc.HasRead?) && s.calls[c].ticket == s.slot
  }

  /** Somebody is on the way to move the slot. */
  predicate SlotWillMove(s: State) {
    s.executor.Some? || (s.writer.Some? && s.writer.value in s.calls && s.calls[s.writer.value].pc.Move?)
  }

  ghost predicate Awaited(s: State) {
    forall c :: c in s.calls && Waits(s, c) ==> SlotWillMove(s)
  }

  lemma AwaitedStays(s: State, a: Action)
    requires Inv(s) && Awaited(s) && Can(s, a)
    ensures Awaited(Do(s, a))
  {
    var s' := Do(s, a);
    forall d | d in s'.calls && Waits(s', d) ensures SlotWillMove(s') {
      if d in s.calls {
        AwaitedStep(s, a, d);
      }
    }
  }

  lemma AwaitedStep(s: State, a: Action, d: CallId)
    requires Inv(s) && Awaited(s) && Can(s, a) && d in s.calls && d in Do(s, a).calls && Waits(Do(s, a), d)
    ensures SlotWillMove(Do(s, a))
  {
    assert CallInv(s, d);
    if a.Go? {
      assert CallInv(s, a.c);
      Frame(s, a.c);
    }
  }

  lemma {:induction false} RunsAwaited(s: State, schedule: seq<Action>, s': State)
    requires Inv(s) && Awaited(s) && Runs(s, schedule, s')
    ensures Awaited(s')
    decreases |schedule|
  {
    if schedule != [] {
      AwaitedStays(s, schedule[0]);
      RunsInv(s, [schedule[0]], Do(s, schedule[0])) by {
        assert [schedule[0]][1..] == [];
      }
      RunsAwaited(Do(s, schedule[0]), schedule[1..], s');
    }
  }

  /** No call polls for nobody: while one waits for its slot to end, some call has the flag or is about to
      move the slot. */
  lemma NeverWaitsForNobody(s: State, c: CallId)
    requires Reachable(s) && c in s.calls && Waits(s, c)
    ensures SlotWillMove(s)
  {
    var init, schedule :| Init(init) && Runs(init, schedule, s);
    RunsAwaited(init, schedule, s);
  }

  /** Steps a call still has to take, not counting idle rounds of polling. */
  function Remaining(pc: PC): nat {
    match pc
    case Load => 13
    case Swap => 12
    case WantWrite => 11
    case Clock => 10
    case Sleep(_) => 9
    case Exec => 8
    case Record => 7
    case Clear => 6
    case Move => 5
    case Release => 4
    case WantRead => 3
    case HasRead => 2
    case Poll => 1
    case Returned(_) => 0
  }

  function Remains(calls: map<CallId, Call>): map<nat, nat> {
    map c | c in calls :: Remaining(calls[c].pc)
  }

  ghost function Work(calls: map<CallId, Call>): nat {
    Total(Remains(calls))
  }

  /** Only the clock stands between this call and a step that brings it closer to its return. */
  predicate CanProgress(s: State, c: CallId)
    requires c in s.calls
  {
    (Enabled(s, c) || s.calls[c].pc.Sleep?) && !(s.calls[c].pc.Poll? && Waits(s, c))
  }

  /** No reachable state with an unfinished call is deadlocked, and idle polling is never all there is. */
  lemma NoDeadlock(s: State, unfinished: CallId) returns (c: CallId)
    requires Inv(s) && Awaited(s) && unfinished in s.calls && !s.calls[unfinished].pc.Returned?
    ensures c in s.calls && CanProgress(s, c)
  {
    if s.writer.Some? {
      c := s.writer.value;
      assert CallInv(s, c);
    } else if r :| r in s.calls && s.calls[r].pc.HasRead? {
      c := r;
    } else if s.executor.Some? {
      c := s.executor.value;
      assert CallInv(s, c);
    } else {
      c := unfinished;
      assert CallInv(s, c);
    }
  }

  lemma StepWork(s: State, c: CallId)
    requires c in s.calls && Enabled(s, c) && !(s.calls[c].pc.Poll? && Waits(s, c))
    ensures Work(After(s, c).calls) < Work(s.calls)
  {
    Frame(s, c);
    var calls, calls' := s.calls, After(s, c).calls;
    assert Remaining(calls'[c].pc) < Remaining(calls[c].pc);
    assert Remains(calls') - {c} == Remains(calls) - {c};
    TotalFalls(Remains(calls), Remains(calls'), c);
  }

  /** A step of a call that can progress, after letting time pass where it sleeps. */
  lemma MoveOn(s: State, c: CallId) returns (schedule: seq<Action>, s': State)
    requires Inv(s) && Awaited(s) && c in s.calls && CanProgress(s, c)
    ensures Runs(s, schedule, s') && Inv(s') && Awaited(s') && s'.calls.Keys == s.calls.Keys
    ensures Work(s'.calls) < Work(s.calls)
  {
    var ready := s;
    if !Enabled(s, c) {
      ready := Do(s, Tick(s.calls[c].pc.wake));
      TickInv(s, s.calls[c].pc.wake);
      AwaitedStays(s, Tick(s.calls[c].pc.wake));
    }
    s' := After(ready, c);
    GoInv(ready, c);
    AwaitedStays(ready, Go(c));
    StepWork(ready, c);
    Frame(ready, c);
    Cons(ready, Go(c), [], s');
    schedule := [Go(c)] + [];
    if !Enabled(s, c) {
      Cons(s, Tick(s.calls[c].pc.wake), schedule, s');
      schedule := [Tick(s.calls[c].pc.wake)] + schedule;
    }
  }

  predicate AllReturned(s: State) {
    forall c :: c in s.calls ==> s.calls[c].pc.Returned?
  }

  /** From any reachable state the calls under way can all be brought to return without new calls. */
  lemma Completion(s: State) returns (schedule: seq<Action>, s': State)
    requires Reachable(s)
    ensures Runs(s, schedule, s') && s'.calls.Keys == s.calls.Keys && AllReturned(s')
  {
    var init, before :| Init(init) && Runs(init, before, s);
    RunsInv(init, before, s);
    RunsAwaited(init, before, s);
    schedule, s' := Complete(s);
  }

  lemma {:induction false} Complete(s: State) returns (schedule: seq<Action>, s': State)
    requires Inv(s) && Awaited(s)
    ensures Runs(s, schedule, s') && s'.calls.Keys == s.calls.Keys && AllReturned(s')
    decreases Work(s.calls)
  {
    if AllReturned(s) {
      schedule, s' := [], s;
    } else {
      var u :| u in s.calls && !s.calls[u].pc.Returned?;
      var c := NoDeadlock(s, u);
      var first, next := MoveOn(s, c);
      var rest;
      rest, s' := Complete(next);
      Chain(s, first, next, rest, s');
      schedule := first + rest;
    }
  }

  lemma {:induction false} Chain(s: State, a: seq<Action>, mid: State, b: seq<Action>, s': State)
    requires Runs(s, a, mid) && Runs(mid, b, s')
    ensures Runs(s, a + b, s')
    decreases |a|
  {
    if a == [] {
      assert a + b == b;
    } else {
      Chain(Do(s, a[0]), a[1..], mid, b, s');
      assert (a + b)[1..] == a[1..] + b;
    }
  }

  // --------------------------------------- the promise to a bundled caller

  ghost predicate Leaves(s: State, c: CallId, schedule: seq<Action>, s': State) {
    && Runs(s, schedule, s') && c in s'.calls && s'.calls[c].pc == Returned(true)
    && c in s.calls && s'.calls[c].seen == s.calls[c].seen == s'.finished
  }

  /** The call can still come to leave bundled although no execution has finished since it drew its ticket. */
  ghost predicate CanLeaveEmptyHanded(s: State, c: CallId) {
    exists schedule, s' :: Leaves(s, c, schedule, s')
  }

  lemma {:induction false} FinishedGrows(s: State, schedule: seq<Action>, s': State, c: CallId)
    requires Runs(s, schedule, s')
    ensures s.finished <= s'.finished
    ensures c in s.calls && !s.calls[c].pc.Load? ==>
              c in s'.calls && !s'.calls[c].pc.Load? && s'.calls[c].ticket == s.calls[c].ticket
    decreases |schedule|
  {
    if schedule != [] {
      if schedule[0].Go? {
        Frame(s, schedule[0].c);
        Keeps(s, schedule[0].c);
      }
      FinishedGrows(Do(s, schedule[0]), schedule[1..], s', c);
    }
  }

  lemma Keeps(s: State, c: CallId)
    requires c in s.calls
    ensures c in After(s, c).calls && !After(s, c).calls[c].pc.Load?
    ensures !s.calls[c].pc.Load? ==> After(s, c).calls[c] == s.calls[c].(pc := After(s, c).calls[c].pc)
  {}

  /** A caller about to be bundled is guaranteed an execution that finishes within its own call unless
      it drew its ticket between the end of f and the move of the slot; in that window, and only then,
      it can leave with nothing. */
  lemma EmptyHandedIff(s: State, c: CallId)
    requires Reachable(s) && c in s.calls && s.calls[c].pc == Swap && s.executing
    ensures CanLeaveEmptyHanded(s, c) <==> s.finished == s.calls[c].seen == s.calls[c].ticket + 1
  {
    ReachableInv(s);
    assert CallInv(s, c);
    if s.finished == s.calls[c].seen == s.calls[c].ticket + 1 {
      var schedule, s' := LeaveEmptyHanded(s, c);
      assert Leaves(s, c, schedule, s');
    }
    forall schedule, s' | Leaves(s, c, schedule, s')
      ensures s.finished == s.calls[c].seen == s.calls[c].ticket + 1
    {
      RunsInv(s, schedule, s');
      FinishedGrows(s, schedule, s', c);
      assert CallInv(s', c);
    }
  }

  lemma Cons(s: State, a: Action, schedule: seq<Action>, s': State)
    requires Can(s, a) && Runs(Do(s, a), schedule, s')
    ensures Runs(s, [a] + schedule, s')
  {
    assert ([a] + schedule)[1..] == schedule;
  }

  /** The call is bundled, the slot moves, and the call leaves. */
  lemma LeaveEmptyHanded(s: State, c: CallId) returns (schedule: seq<Action>, s': State)
    requires Inv(s) && c in s.calls && s.calls[c].pc == Swap && s.executing
    requires s.finished == s.calls[c].seen == s.calls[c].ticket + 1
    ensures Leaves(s, c, schedule, s')
  {
    assert CallInv(s, c);
    var s1 := After(s, c);
    GoInv(s, c);
    var rest, s2 := MoveSlot(s1, c);
    s' := s2.(calls := s2.calls[c := s2.calls[c].(pc := Returned(true))]);
    Cons(s, Go(c), rest, s');
    schedule := [Go(c)] + rest;
  }

  /** Whoever holds the write lock moves the slot, if it has not moved yet, and then the polling call leaves. */
  lemma {:induction false} MoveSlot(s: State, c: CallId) returns (schedule: seq<Action>, s': State)
    requires Inv(s) && c in s.calls && s.calls[c].pc == Poll && s.finished == s.calls[c].ticket + 1
    ensures c in s'.calls && s'.calls[c] == s.calls[c] && s'.finished == s.finished
    ensures Runs(s, schedule, s'.(calls := s'.calls[c := s'.calls[c].(pc := Returned(true))]))
    decreases if s.slot == s.finished then 0 else if s.writer.None? then 1
              else match s.calls[s.writer.value].pc case Record => 3 case Clear => 2 case _ => 1
  {
    assert CallInv(s, c);
    if s.slot == s.finished {
      schedule, s' := [Go(c)], s;
      var last := After(s, c);
      assert last == s.(calls := s.calls[c := s.calls[c].(pc := Returned(true))]);
      assert Runs(last, [], last);
      Cons(s, Go(c), [], last);
      assert [Go(c)] + [] == [Go(c)];
    } else {
      var w := s.writer.value;
      GoInv(s, w);
      var rest;
      rest, s' := MoveSlot(After(s, w), c);
      Cons(s, Go(w), rest, s'.(calls := s'.calls[c := s'.calls[c].(pc := Returned(true))]));
      schedule := [Go(w)] + rest;
    }
  }

  /** A limiter without calls, and call 0 alone, before and right after its f. */
  const EMPTY := State(
    pause := 0, now := 0, lastExec := 0, slot := 0, executing := false, writing := false, calls := map[],
    executor := None, writer := None, finished := 0, lastFinish := None)
  const BEFORE_RUN := EMPTY.(executing := true, executor := Some(0), writing := true, writer := Some(0),
                             calls := map[0 := Call(Sleep(0), 0, 0)])
  const ONE_RUN := BEFORE_RUN.(calls := map[0 := Call(Record, 0, 0)], finished := 1, lastFinish := Some(0))

  lemma FromBeforeRun(schedule: seq<Action>, s: State)
    requires Runs(BEFORE_RUN, schedule, s)
    ensures Reachable(s)
  {
    var a1 := Do(EMPTY, Arrive(0));
    var a2 := Do(a1, Go(0));
    var a3 := Do(a2, Go(0));
    assert a3.calls == map[0 := Call(WantWrite, 0, 0)];
    var a4 := Do(a3, Go(0));
    assert Do(a4, Go(0)) == BEFORE_RUN;
    Cons(a4, Go(0), schedule, s);
    Cons(a3, Go(0), [Go(0)] + schedule, s);
    Cons(a2, Go(0), [Go(0)] + ([Go(0)] + schedule), s);
    var t := [Go(0)] + ([Go(0)] + ([Go(0)] + schedule));
    Cons(a1, Go(0), t, s);
    Cons(EMPTY, Arrive(0), [Go(0)] + t, s);
  }

  /** The window is real: call 1 draws its ticket right after the f of call 0 has returned. */
  lemma WindowIsReachable() returns (s: State)
    ensures Reachable(s) && 1 in s.calls && s.calls[1].pc == Swap && s.executing
    ensures s.finished == s.calls[1].seen == s.calls[1].ticket + 1
  {
    var arrived := Do(ONE_RUN, Arrive(1));
    s := Do(arrived, Go(1));
    assert Runs(s, [], s);
    Cons(arrived, Go(1), [], s);
    Cons(ONE_RUN, Arrive(1), [Go(1)] + [], s);
    var t := [Arrive(1)] + ([Go(1)] + []);
    var running := Do(BEFORE_RUN, Go(0));
    assert Do(running, Go(0)) == ONE_RUN;
    Cons(running, Go(0), t, s);
    Cons(BEFORE_RUN, Go(0), [Go(0)] + t, s);
    FromBeforeRun([Go(0)] + ([Go(0)] + t), s);
  }
}
