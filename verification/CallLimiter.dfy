/** CallLimiter.Do (base/utils/call_limiter.go) as a transition system over any number of calls.

  One step is one operation on a shared object: a mutex, the waiter counter, the clock or the
  last execution time. Mutexes have no owner, as in Go: any call may unlock, and unlocking an
  unlocked mutex is a fault. */
module CallLimiter {
  import opened Common

  type CallId = nat

  /** Where a call stands; the comment names the operation it performs next. */
  datatype PC =
    | WantIn                         // Do: inLock.Lock
    | Enter                          // Do: waiters.Add(1)
    | LeadWantOut                    // lead: outLock.Lock
    | LeadOpen                       // lead: inLock.Unlock
    | LeadClock                      // lead: time.Since(lastExec)
    | LeadSleep(wake: int)           // lead: end of the sleep, start of f
    | LeadExec                       // lead: f returns or panics
    | LeadRecord(panicked: bool)     // lead, deferred: lastExec = time.Now()
    | LeadWantIn(panicked: bool)     // lead, deferred: inLock.Lock
    | LeadClose(panicked: bool)      // lead, deferred: outLock.Unlock
    | FollowOpen                     // Do: inLock.Unlock of a call that is not the first
    | WantOut                        // Do: outLock.Lock
    | HasOut                         // Do: outLock.Unlock
    | Leave                          // Do, deferred: waiters.Add(-1)
    | LastOpen                       // Do, deferred: inLock.Unlock of the last waiter
    | Returned

  /** `batch` is history: the number of the batch joined. */
  datatype Call = Call(pc: PC, batch: nat)

  /** The life of one batch, as history. */
  datatype Phase = Idle | Forming | Open | Closed | Draining

  /** The fields of the limiter, the calls, and history that no step reads. */
  datatype State = State(
    pause: int,
    now: int,
    lastExec: int,
    inLocked: bool,
    outLocked: bool,
    waiters: int,
    calls: map<CallId, Call>,
    fault: bool,
    // History.
    phase: Phase,
    leader: CallId,
    inHolder: Option<CallId>,
    outHolder: Option<CallId>,
    batches: nat,
    finished: nat,
    lastFinish: Option<int>)

  // ---------------------------------------------------------------- steps

  ghost predicate Init(s: State) {
    && !s.inLocked && !s.outLocked && s.waiters == 0 && s.calls == map[] && !s.fault
    && s.phase == Idle && s.inHolder == None && s.outHolder == None
    && s.batches == 0 && s.finished == 0 && s.lastFinish == None
  }

  function Goto(s: State, c: CallId, pc: PC): State
    requires c in s.calls
  {
    s.(calls := s.calls[c := s.calls[c].(pc := pc)])
  }

  function UnlockIn(s: State): State {
    if s.inLocked then s.(inLocked := false, inHolder := None) else s.(fault := true)
  }

  function UnlockOut(s: State): State {
    if s.outLocked then s.(outLocked := false, outHolder := None) else s.(fault := true)
  }

  /** A call can take its next step: a mutex it wants is free, the sleep is over. */
  predicate Enabled(s: State, c: CallId)
    requires c in s.calls
  {
    match s.calls[c].pc
    case WantIn | LeadWantIn(_) => !s.inLocked
    case LeadWantOut | WantOut => !s.outLocked
    case LeadSleep(wake) => s.now >= wake
    case Returned => false
    case _ => true
  }

  /** waiters.Add(1) and the choice between leading and following (line 45). */
  function Join(s: State, c: CallId): State
    requires c in s.calls
  {
    if s.waiters + 1 == 1 then
      s.(waiters := 1, phase := Forming, leader := c, batches := s.batches + 1,
         calls := s.calls[c := Call(LeadWantOut, s.batches + 1)])
    else
      s.(waiters := s.waiters + 1,
         calls := s.calls[c := Call(FollowOpen, s.batches)])
  }

  /** waiters.Add(-1) and the hand-over of inLock to the last waiter (line 39). */
  function Depart(s: State, c: CallId): State
    requires c in s.calls
  {
    if s.waiters - 1 == 0 then
      Goto(s, c, LastOpen).(waiters := 0, phase := Idle, inHolder := Some(c))
    else
      Goto(s, c, Returned).(waiters := s.waiters - 1)
  }

  /** The step of call `c`; `panics` chooses how f ends. A panicking leader skips the wait on
      outLock and goes straight to the deferred counter update. */
  function After(s: State, c: CallId, panics: bool): State
    requires c in s.calls && Enabled(s, c)
  {
    match s.calls[c].pc
    case WantIn => Goto(s, c, Enter).(inLocked := true, inHolder := Some(c))
    case Enter => Join(s, c)
    case LeadWantOut => Goto(s, c, LeadOpen).(outLocked := true, outHolder := Some(c))
    case LeadOpen => UnlockIn(Goto(s, c, LeadClock)).(phase := Open)
    case LeadClock =>
      var since := s.now - s.lastExec;
      Goto(s, c, LeadSleep(if s.pause > 0 && since < s.pause then s.now + (s.pause - since) else s.now))
    case LeadSleep(_) => Goto(s, c, LeadExec)
    case LeadExec => Goto(s, c, LeadRecord(panics)).(finished := s.finished + 1, lastFinish := Some(s.now))
    case LeadRecord(p) => Goto(s, c, LeadWantIn(p)).(lastExec := s.now)
    case LeadWantIn(p) => Goto(s, c, LeadClose(p)).(inLocked := true, inHolder := Some(c), phase := Closed)
    case LeadClose(p) =>
      // The leader keeps inLock locked on behalf of whoever leaves last.
      UnlockOut(Goto(s, c, if p then Leave else WantOut)).(inHolder := None, phase := Draining)
    case FollowOpen => UnlockIn(Goto(s, c, WantOut))
    case WantOut => Goto(s, c, HasOut).(outLocked := true, outHolder := Some(c))
    case HasOut => UnlockOut(Goto(s, c, Leave))
    case Leave => Depart(s, c)
    case LastOpen => UnlockIn(Goto(s, c, Returned))
    case Returned => s
  }

  datatype Action = Arrive(c: CallId) | Tick(t: int) | Go(c: CallId, panics: bool)

  /** The clock never goes back. */
  predicate Can(s: State, a: Action) {
    match a
    case Arrive(c) => c !in s.calls
    case Tick(t) => t >= s.now
    case Go(c, _) => c in s.calls && Enabled(s, c)
  }

  function Do(s: State, a: Action): State
    requires Can(s, a)
  {
    match a
    case Arrive(c) => s.(calls := s.calls[c := Call(WantIn, 0)])
    case Tick(t) => s.(now := t)
    case Go(c, panics) => After(s, c, panics)
  }

  ghost predicate Runs(s: State, schedule: seq<Action>, s': State)
    decreases |schedule|
  {
    if schedule == [] then s' == s
    else Can(s, schedule[0]) && Runs(Do(s, schedule[0]), schedule[1..], s')
  }

  ghost predicate Reachable(s: State) {
    exists init, schedule :: Init(init) && Runs(init, schedule, s)
  }

  // ------------------------------------------------------------ invariant

  predicate Counted(pc: PC) {
    !pc.WantIn? && !pc.Enter? && !pc.LastOpen? && !pc.Returned?
  }

  predicate HoldsIn(pc: PC) {
    pc.Enter? || pc.LeadWantOut? || pc.LeadOpen? || pc.LeadClose? || pc.FollowOpen? || pc.LastOpen?
  }

  predicate HoldsOut(pc: PC) {
    (Leads(pc) && !pc.LeadWantOut?) || pc.HasOut?
  }

  predicate Leads(pc: PC) {
    BeforeF(pc) || PastF(pc) || pc.LeadClose?
  }

  predicate BeforeF(pc: PC) {
    pc.LeadWantOut? || pc.LeadOpen? || pc.LeadClock? || pc.LeadSleep? || pc.LeadExec?
  }

  predicate Joined(pc: PC) { !pc.WantIn? && !pc.Enter? }

  /** f is over, but inLock is not yet taken again. */
  predicate PastF(pc: PC) {
    pc.LeadRecord? || pc.LeadWantIn?
  }

  /** The calls between their two counter updates. */
  ghost function Inside(s: State): set<CallId> {
    set c | c in s.calls && Counted(s.calls[c].pc)
  }

  /** Which phases a call at `pc` can be seen in. */
  predicate Fits(pc: PC, phase: Phase) {
    match pc
    case WantIn | Returned => true
    case Enter => phase == Idle || phase == Open
    case LeadWantOut | LeadOpen => phase == Forming
    case LeadClock | LeadSleep(_) | LeadExec | LeadRecord(_) | LeadWantIn(_) => phase == Open
    case LeadClose(_) => phase == Closed
    case FollowOpen => phase == Open
    case WantOut => phase == Open || phase == Closed || phase == Draining
    case HasOut | Leave => phase == Draining
    case LastOpen => phase == Idle
  }

  predicate HasLeader(s: State) {
    s.phase == Forming || s.phase == Open || s.phase == Closed
  }

  /** The execution of the current batch has finished. */
  predicate Finished(s: State) {
    HasLeader(s) && s.leader in s.calls ==> !BeforeF(s.calls[s.leader].pc)
  }

  /** What holds of the limiter itself: every mutex is locked exactly on behalf of one call, or of
      the draining batch. */
  predicate LimiterInv(s: State) {
    && !s.fault
    && (s.inLocked <==> s.inHolder.Some? || s.phase == Draining)
    && (s.outLocked <==> s.outHolder.Some?)
    && (s.inHolder.Some? ==> s.phase != Draining && s.inHolder.value in s.calls)
    && (s.outHolder.Some? ==> s.outHolder.value in s.calls)
    && s.waiters >= 0
    && (s.phase == Idle <==> s.waiters == 0)
    && (HasLeader(s) ==> s.leader in s.calls)
    && s.batches == s.finished + (if Finished(s) then 0 else 1)
    && (s.lastFinish.Some? ==> s.lastFinish.value <= s.now)
    && (s.lastFinish.Some? && !(HasLeader(s) && s.calls[s.leader].pc.LeadRecord?) ==> s.lastFinish.value <= s.lastExec)
  }

  /** What holds of one call. */
  predicate CallInv(s: State, c: CallId)
    requires c in s.calls
  {
    var call := s.calls[c];
    && (HoldsIn(call.pc) <==> s.inHolder == Some(c))
    && (HoldsOut(call.pc) <==> s.outHolder == Some(c))
    && Fits(call.pc, s.phase)
    && (Leads(call.pc) <==> HasLeader(s) && c == s.leader)
    && (Counted(call.pc) || call.pc.LastOpen? ==> call.batch == s.batches)
    && (Joined(call.pc) ==> call.batch <= s.batches)
    && (call.pc.Returned? ==> call.batch <= s.finished)
    && (call.pc.LeadSleep? && s.lastFinish.Some? && s.pause > 0 ==> call.pc.wake >= s.lastFinish.value + s.pause)
    && (call.pc.LeadSleep? ==> call.pc.wake <= s.now || call.pc.wake <= s.lastExec + s.pause)
  }

  ghost predicate Inv(s: State) {
    && LimiterInv(s)
    && s.waiters == |Inside(s)|
    && forall c :: c in s.calls ==> CallInv(s, c)
  }

  lemma InitInv(s: State)
    requires Init(s)
    ensures Inv(s)
  {
    assert Inside(s) == {};
  }

  /** Moving one call changes the set of counted calls by at most that call. */
  lemma InsideMove(s: State, s': State, c: CallId)
    requires c in s.calls && s'.calls.Keys == s.calls.Keys
    requires forall d :: d in s.calls && d != c ==> s'.calls[d] == s.calls[d]
    ensures |Inside(s')| == |Inside(s)| + (if Counted(s'.calls[c].pc) then 1 else 0) - (if Counted(s.calls[c].pc) then 1 else 0)
  {
    var rest := Inside(s) - {c};
    assert Inside(s) == if Counted(s.calls[c].pc) then rest + {c} else rest;
    assert Inside(s') == if Counted(s'.calls[c].pc) then rest + {c} else rest;
  }

  lemma InsideTwo(s: State, c: CallId, d: CallId)
    requires c in s.calls && d in s.calls && c != d && Counted(s.calls[d].pc)
    ensures |Inside(s)| >= if Counted(s.calls[c].pc) then 2 else 1
  {
    var part := if Counted(s.calls[c].pc) then {c, d} else {d};
    assert part <= Inside(s);
    assert |part| <= |Inside(s)| by { SubsetSize(part, Inside(s)); }
  }

  /** What a step of `c` may rely on, without looking at all the other calls. */
  predicate Ready(s: State, c: CallId) {
    && c in s.calls && Enabled(s, c) && LimiterInv(s) && CallInv(s, c)
    && (HasLeader(s) ==> CallInv(s, s.leader))
  }

  /** The limiter and the moving call keep their invariants, and the counter follows the call. */
  predicate MoverKept(s: State, c: CallId, s': State)
    requires c in s.calls
  {
    && c in s'.calls && LimiterInv(s') && CallInv(s', c)
    && s'.waiters == s.waiters + (if Counted(s'.calls[c].pc) then 1 else 0) - (if Counted(s.calls[c].pc) then 1 else 0)
  }

  /** A bystander of a step by `c`. */
  predicate Bystander(s: State, c: CallId, d: CallId)
    requires c in s.calls
  {
    && d in s.calls && c != d && CallInv(s, d)
    && (Counted(s.calls[d].pc) ==> s.waiters >= if Counted(s.calls[c].pc) then 2 else 1)
  }

  predicate Entering(pc: PC) { pc.WantIn? || pc.FollowOpen? }

  predicate Starting(pc: PC) { pc.LeadWantOut? || pc.LeadOpen? || pc.LeadClock? || pc.LeadSleep? }

  predicate Ending(pc: PC) { pc.LeadExec? || PastF(pc) || pc.LeadClose? }

  predicate Waiting(pc: PC) { pc.WantOut? || pc.HasOut? }

  predicate Leaving(pc: PC) { pc.Leave? || pc.LastOpen? }

  // One lemma per stretch of the code; `d` is any other call.

  lemma KeepEntering(s: State, c: CallId, d: CallId, panics: bool)
    requires Ready(s, c) && Entering(s.calls[c].pc)
    ensures MoverKept(s, c, After(s, c, panics))
    ensures Bystander(s, c, d) ==> CallInv(After(s, c, panics), d)
  {}

  lemma KeepJoining(s: State, c: CallId, d: CallId, panics: bool)
    requires Ready(s, c) && s.calls[c].pc.Enter?
    ensures MoverKept(s, c, After(s, c, panics))
    ensures Bystander(s, c, d) ==> CallInv(After(s, c, panics), d)
  {}

  lemma KeepStarting(s: State, c: CallId, d: CallId, panics: bool)
    requires Ready(s, c) && Starting(s.calls[c].pc)
    ensures MoverKept(s, c, After(s, c, panics))
    ensures Bystander(s, c, d) ==> CallInv(After(s, c, panics), d)
  {}

  lemma KeepEnding(s: State, c: CallId, d: CallId, panics: bool)
    requires Ready(s, c) && Ending(s.calls[c].pc) && !s.calls[c].pc.LeadClose?
    ensures MoverKept(s, c, After(s, c, panics))
    ensures Bystander(s, c, d) ==> CallInv(After(s, c, panics), d)
  {}

  lemma KeepClosing(s: State, c: CallId, d: CallId, panics: bool)
    requires Ready(s, c) && s.calls[c].pc.LeadClose?
    ensures MoverKept(s, c, After(s, c, panics))
    ensures Bystander(s, c, d) ==> CallInv(After(s, c, panics), d)
  {}

  lemma KeepWaiting(s: State, c: CallId, d: CallId, panics: bool)
    requires Ready(s, c) && Waiting(s.calls[c].pc)
    ensures MoverKept(s, c, After(s, c, panics))
    ensures Bystander(s, c, d) ==> CallInv(After(s, c, panics), d)
  {}

  lemma KeepLeaving(s: State, c: CallId, d: CallId, panics: bool)
    requires Ready(s, c) && Leaving(s.calls[c].pc)
    ensures MoverKept(s, c, After(s, c, panics))
    ensures Bystander(s, c, d) ==> CallInv(After(s, c, panics), d)
  {}

  lemma StepKeeps(s: State, c: CallId, d: CallId, panics: bool)
    requires Ready(s, c)
    ensures MoverKept(s, c, After(s, c, panics))
    ensures Bystander(s, c, d) ==> CallInv(After(s, c, panics), d)
  {
    var pc := s.calls[c].pc;
    if Entering(pc) { KeepEntering(s, c, d, panics); }
    else if pc.Enter? { KeepJoining(s, c, d, panics); }
    else if Starting(pc) { KeepStarting(s, c, d, panics); }
    else if pc.LeadClose? { KeepClosing(s, c, d, panics); }
    else if Ending(pc) { KeepEnding(s, c, d, panics); }
    else if Waiting(pc) { KeepWaiting(s, c, d, panics); }
    else { KeepLeaving(s, c, d, panics); }
  }

  lemma StepFrame(s: State, c: CallId, panics: bool)
    requires c in s.calls && Enabled(s, c)
    ensures c in After(s, c, panics).calls
    ensures After(s, c, panics).calls == s.calls[c := After(s, c, panics).calls[c]]
  {}

  lemma MoveInv(s: State, c: CallId, s': State)
    requires Inv(s) && c in s.calls && MoverKept(s, c, s') && s'.calls.Keys == s.calls.Keys
    requires forall d :: d in s.calls && d != c ==> s'.calls[d] == s.calls[d] && CallInv(s', d)
    ensures Inv(s')
  {
    InsideMove(s, s', c);
  }

  lemma StepInv(s: State, c: CallId, panics: bool)
    requires Inv(s) && c in s.calls && Enabled(s, c)
    ensures Inv(After(s, c, panics))
  {
    StepKeeps(s, c, c, panics);
    StepFrame(s, c, panics);
    forall d | d in s.calls && d != c ensures CallInv(After(s, c, panics), d) {
      if Counted(s.calls[d].pc) {
        InsideTwo(s, c, d);
      }
      StepKeeps(s, c, d, panics);
    }
    MoveInv(s, c, After(s, c, panics));
  }

  lemma ArriveInv(s: State, c: CallId)
    requires Inv(s) && c !in s.calls
    ensures Inv(Do(s, Arrive(c)))
  {
    var s' := Do(s, Arrive(c));
    assert Inside(s') == Inside(s);
    forall d | d in s'.calls ensures CallInv(s', d) {
      assert d != c ==> CallInv(s, d);
    }
  }

  lemma TickInv(s: State, t: int)
    requires Inv(s) && t >= s.now
    ensures Inv(Do(s, Tick(t)))
  {
    var s' := Do(s, Tick(t));
    assert Inside(s') == Inside(s);
    forall d | d in s'.calls ensures CallInv(s', d) {
      assert CallInv(s, d);
    }
  }

  lemma {:induction false} RunsInv(s: State, schedule: seq<Action>, s': State)
    requires Inv(s) && Runs(s, schedule, s')
    ensures Inv(s')
    decreases |schedule|
  {
    if schedule != [] {
      match schedule[0] {
        case Arrive(c) => ArriveInv(s, c);
        case Tick(t) => TickInv(s, t);
        case Go(c, panics) => StepInv(s, c, panics);
      }
      RunsInv(Do(s, schedule[0]), schedule[1..], s');
    }
  }

  lemma ReachableInv(s: State)
    requires Reachable(s)
    ensures Inv(s)
  {
    var init, schedule :| Init(init) && Runs(init, schedule, s);
    InitInv(init);
    RunsInv(init, schedule, s);
  }

  // -------------------------------------------------------------- mutexes

  /** In every reachable state no unlock hits an unlocked mutex, at most one f runs, the leader finds
      outLock free, and whoever is about to unlock a mutex finds it locked. */
  lemma Safety(s: State, c: CallId, d: CallId)
    requires Reachable(s) && c in s.calls && d in s.calls
    ensures var p, q := s.calls[c].pc, s.calls[d].pc;
      && !s.fault
      && (p.LeadExec? && q.LeadExec? ==> c == d)
      && (p.LeadWantOut? ==> !s.outLocked)
      && (HoldsIn(p) ==> s.inLocked && (HoldsIn(q) ==> c == d))
      && (HoldsOut(p) ==> s.outLocked && (HoldsOut(q) ==> c == d))
  {
    ReachableInv(s);
    assert CallInv(s, c) && CallInv(s, d);
  }

  /** The counter is taken to zero only after the leader has taken inLock again: while a call is at
      its deferred decrement, inLock is locked and no call holds it for itself. The last leaver then
      releases exactly that lock, with nobody left inside. */
  lemma HandOver(s: State, c: CallId, d: CallId)
    requires Reachable(s) && c in s.calls && d in s.calls
    ensures var p, q := s.calls[c].pc, s.calls[d].pc;
      && (p.Leave? ==> s.inLocked && !HoldsIn(q) && !Leads(q))
      && (p.LastOpen? && c != d ==> s.inLocked && !HoldsIn(q) && !Counted(q))
  {
    ReachableInv(s);
    assert CallInv(s, c) && CallInv(s, d);
    if c != d && Counted(s.calls[d].pc) {
      InsideTwo(s, c, d);
    }
  }

  // ------------------------------------------------------------- progress

  /** Steps a call still has to take at most. */
  function Remaining(pc: PC): nat {
    match pc
    case WantIn => 14
    case Enter => 13
    case LeadWantOut => 12
    case LeadOpen => 11
    case LeadClock => 10
    case LeadSleep(_) => 9
    case LeadExec => 8
    case LeadRecord(_) => 7
    case LeadWantIn(_) => 6
    case LeadClose(_) => 5
    case FollowOpen => 5
    case WantOut => 4
    case HasOut => 3
    case Leave => 2
    case LastOpen => 1
    case Returned => 0
  }

  /** What any step does to its own call. */
  predicate CallMoved(call: Call, call': Call) {
    && Remaining(call'.pc) < Remaining(call.pc)
    && (Joined(call.pc) ==> Joined(call'.pc) && call' == call.(pc := call'.pc))
    && (call.pc.LeadExec? <==> call'.pc.LeadRecord?)
  }

  lemma StepCallBeforeF(s: State, c: CallId, panics: bool, s': State)
    requires c in s.calls && Enabled(s, c) && s' == After(s, c, panics) && c in s'.calls
    requires BeforeF(s.calls[c].pc)
    ensures CallMoved(s.calls[c], s'.calls[c])
  {}

  lemma StepCallPastF(s: State, c: CallId, panics: bool, s': State)
    requires c in s.calls && Enabled(s, c) && s' == After(s, c, panics) && c in s'.calls
    requires PastF(s.calls[c].pc) || s.calls[c].pc.LeadClose?
    ensures CallMoved(s.calls[c], s'.calls[c])
  {}

  lemma StepCallIn(s: State, c: CallId, panics: bool, s': State)
    requires c in s.calls && Enabled(s, c) && s' == After(s, c, panics) && c in s'.calls
    requires s.calls[c].pc.Enter? || Entering(s.calls[c].pc)
    ensures CallMoved(s.calls[c], s'.calls[c])
  {}

  lemma StepCallWait(s: State, c: CallId, panics: bool, s': State)
    requires c in s.calls && Enabled(s, c) && s' == After(s, c, panics) && c in s'.calls
    requires Waiting(s.calls[c].pc)
    ensures CallMoved(s.calls[c], s'.calls[c])
  {}

  lemma StepCallOut(s: State, c: CallId, panics: bool, s': State)
    requires c in s.calls && Enabled(s, c) && s' == After(s, c, panics) && c in s'.calls
    requires Leaving(s.calls[c].pc)
    ensures CallMoved(s.calls[c], s'.calls[c])
  {}

  lemma StepCall(s: State, c: CallId, panics: bool, s': State)
    requires c in s.calls && Enabled(s, c) && s' == After(s, c, panics) && c in s'.calls
    ensures CallMoved(s.calls[c], s'.calls[c])
  {
    if BeforeF(s.calls[c].pc) {
      StepCallBeforeF(s, c, panics, s');
    } else if Leads(s.calls[c].pc) {
      StepCallPastF(s, c, panics, s');
    } else if Waiting(s.calls[c].pc) {
      StepCallWait(s, c, panics, s');
    } else if Leaving(s.calls[c].pc) {
      StepCallOut(s, c, panics, s');
    } else {
      StepCallIn(s, c, panics, s');
    }
  }

  function Remains(calls: map<CallId, Call>): map<nat, nat> {
    map c | c in calls :: Remaining(calls[c].pc)
  }

  ghost function Work(calls: map<CallId, Call>): nat {
    Total(Remains(calls))
  }

  /** Every step of a call reduces the work left, so a run without new arrivals is finite. */
  lemma StepWork(s: State, c: CallId, panics: bool)
    requires c in s.calls && Enabled(s, c)
    ensures Work(After(s, c, panics).calls) < Work(s.calls)
  {
    var s' := After(s, c, panics);
    StepFrame(s, c, panics);
    StepCall(s, c, panics, s');
    OneCallMoved(s.calls, s'.calls, c);
  }

  lemma OneCallMoved(calls: map<CallId, Call>, calls': map<CallId, Call>, c: CallId)
    requires c in calls && c in calls' && calls' == calls[c := calls'[c]]
    requires Remaining(calls'[c].pc) < Remaining(calls[c].pc)
    ensures Work(calls') < Work(calls)
  {
    var m, n := Remains(calls), Remains(calls');
    assert n - {c} == m - {c};
    TotalFalls(m, n, c);
  }

  function Moves(schedule: seq<Action>): nat {
    if schedule == [] then 0 else (if schedule[0].Go? then 1 else 0) + Moves(schedule[1..])
  }

  /** Without arrivals, a run takes at most as many steps of calls as there is work left. */
  lemma {:induction false} RunsAreFinite(s: State, schedule: seq<Action>, s': State)
    requires Runs(s, schedule, s') && forall i :: 0 <= i < |schedule| ==> !schedule[i].Arrive?
    ensures Moves(schedule) + Work(s'.calls) <= Work(s.calls)
    decreases |schedule|
  {
    if schedule != [] {
      if schedule[0].Go? {
        StepWork(s, schedule[0].c, schedule[0].panics);
      }
      RunsAreFinite(Do(s, schedule[0]), schedule[1..], s');
    }
  }

  /** Only the clock stands between this call and its next step. */
  predicate CanMove(s: State, c: CallId)
    requires c in s.calls
  {
    Enabled(s, c) || s.calls[c].pc.LeadSleep?
  }

  /** No reachable state with an unfinished call is deadlocked. */
  lemma NoDeadlock(s: State, unfinished: CallId) returns (c: CallId)
    requires Inv(s) && unfinished in s.calls && !s.calls[unfinished].pc.Returned?
    ensures c in s.calls && CanMove(s, c)
  {
    if s.outHolder.Some? {
      assert CallInv(s, s.outHolder.value);
    }
    if s.inHolder.Some? {
      c := s.inHolder.value;
      assert CallInv(s, c);
    } else if s.outHolder.Some? {
      c := s.outHolder.value;
    } else if s.phase == Draining {
      c :| c in Inside(s);
      assert CallInv(s, c);
    } else {
      c := unfinished;
      assert CallInv(s, c);
    }
  }

  lemma Cons(s: State, a: Action, schedule: seq<Action>, s': State)
    requires Can(s, a) && Runs(Do(s, a), schedule, s')
    ensures Runs(s, [a] + schedule, s')
  {
    assert ([a] + schedule)[1..] == schedule;
  }

  lemma {:induction false} Chain(s: State, a: seq<Action>, mid: State, b: seq<Action>, s': State)
    requires Runs(s, a, mid) && Runs(mid, b, s')
    ensures Runs(s, a + b, s')
    decreases |a|
  {
    if a == [] {
      assert a + b == b;
    } else {
      Chain(Do(s, a[0]), a[1..], mid, b, s');
      assert (a + b)[1..] == a[1..] + b;
    }
  }

  lemma GoOn(s: State, c: CallId) returns (s': State)
    requires Inv(s) && c in s.calls && Enabled(s, c)
    ensures Runs(s, [Go(c, false)], s') && Inv(s') && s'.calls.Keys == s.calls.Keys && Work(s'.calls) < Work(s.calls)
  {
    s' := After(s, c, false);
    StepInv(s, c, false);
    StepWork(s, c, false);
    StepFrame(s, c, false);
    assert [Go(c, false)][1..] == [] && Runs(s', [], s');
  }

  /** A step of a call that can move, after letting time pass where it sleeps. */
  lemma MoveOn(s: State, c: CallId) returns (schedule: seq<Action>, s': State)
    requires Inv(s) && c in s.calls && CanMove(s, c)
    ensures Runs(s, schedule, s') && Inv(s') && s'.calls.Keys == s.calls.Keys && Work(s'.calls) < Work(s.calls)
  {
    if Enabled(s, c) {
      schedule := [Go(c, false)];
      s' := GoOn(s, c);
    } else {
      var wake := s.calls[c].pc.wake;
      TickInv(s, wake);
      s' := GoOn(Do(s, Tick(wake)), c);
      schedule := [Tick(wake)] + [Go(c, false)];
      Cons(s, Tick(wake), [Go(c, false)], s');
    }
  }

  predicate AllReturned(s: State) {
    forall c :: c in s.calls ==> s.calls[c].pc.Returned?
  }

  /** From any reachable state the calls under way can all be brought to return without new calls;
      together with `StepWork`, every schedule that keeps stepping them does so. */
  lemma {:induction false} Completion(s: State) returns (schedule: seq<Action>, s': State)
    requires Inv(s)
    ensures Runs(s, schedule, s') && s'.calls.Keys == s.calls.Keys && AllReturned(s')
    decreases Work(s.calls)
  {
    if AllReturned(s) {
      schedule, s' := [], s;
    } else {
      var u :| u in s.calls && !s.calls[u].pc.Returned?;
      var c := NoDeadlock(s, u);
      var first, next := MoveOn(s, c);
      var rest;
      rest, s' := Completion(next);
      Chain(s, first, next, rest, s');
      schedule := first + rest;
    }
  }

  // -------------------------------------------------------------- batches

  /** f of the current batch is over but the leader has not taken inLock again. */
  ghost predicate LeaderPastF(s: State) {
    exists l :: l in s.calls && PastF(s.calls[l].pc)
  }

  lemma StepFinished(s: State, c: CallId, panics: bool)
    requires c in s.calls && Enabled(s, c)
    ensures After(s, c, panics).finished == s.finished + (if s.calls[c].pc.LeadExec? then 1 else 0)
  {}

  /** Executions only ever get more, and a call stays in the batch it joined. */
  lemma {:induction false} HistoryGrows(s: State, schedule: seq<Action>, s': State, c: CallId)
    requires Runs(s, schedule, s')
    ensures s.finished <= s'.finished
    ensures c in s.calls && Joined(s.calls[c].pc) ==>
              c in s'.calls && Joined(s'.calls[c].pc) && s'.calls[c].batch == s.calls[c].batch
    decreases |schedule|
  {
    if schedule != [] {
      var next := Do(s, schedule[0]);
      if schedule[0].Go? {
        var d, panics := schedule[0].c, schedule[0].panics;
        StepFinished(s, d, panics);
        StepFrame(s, d, panics);
        StepCall(s, d, panics, next);
      }
      HistoryGrows(next, schedule[1..], s', c);
    }
  }

  /** The execution of batch b is the b-th to finish; a call returns only after that of its own batch. */
  lemma ReturnsAfterOwnBatch(s: State, c: CallId, l: CallId)
    requires Reachable(s) && c in s.calls && l in s.calls
    ensures s.calls[c].pc.Returned? ==> s.calls[c].batch <= s.finished
    ensures s.calls[l].pc.LeadExec? ==> s.calls[l].batch == s.finished + 1
  {
    ReachableInv(s);
    assert CallInv(s, c) && CallInv(s, l);
  }

  lemma JoinBatch(s: State, c: CallId)
    requires Inv(s) && c in s.calls && s.calls[c].pc.Enter?
    ensures var s' := After(s, c, false);
      && c in s'.calls && Joined(s'.calls[c].pc) && s'.finished == s.finished
      && s'.calls[c].batch == s.finished + if LeaderPastF(s) then 0 else 1
  {
    assert CallInv(s, c);
    if HasLeader(s) {
      assert CallInv(s, s.leader);
    }
    if l :| l in s.calls && PastF(s.calls[l].pc) {
      assert CallInv(s, l);
    }
  }

  /** The promise that f finishes while a caller waits holds exactly for the callers that join before f
      is over. In the window between the end of f and the leader's second inLock.Lock a caller still
      joins, into a batch whose execution has finished already. */
  lemma OwnExecutionIff(s: State, c: CallId, schedule: seq<Action>, s': State)
    requires Reachable(s) && c in s.calls && s.calls[c].pc.Enter?
    requires Runs(After(s, c, false), schedule, s') && c in s'.calls && s'.calls[c].pc.Returned?
    ensures s'.calls[c].batch <= s'.finished
    ensures s.finished < s'.calls[c].batch <==> !LeaderPastF(s)
  {
    ReachableInv(s);
    JoinBatch(s, c);
    StepInv(s, c, false);
    HistoryGrows(After(s, c, false), schedule, s', c);
    RunsInv(After(s, c, false), schedule, s');
    assert CallInv(s', c);
  }

  /** An execution finishes between the joining of a call and its return if and only if the leader was not
      past f when the call joined. `s'` is the state before the last step of the call. */
  lemma ExecutionWhileWaitingIff(s: State, c: CallId, schedule: seq<Action>, s': State, panics: bool)
    requires Reachable(s) && c in s.calls && s.calls[c].pc.Enter?
    requires Runs(After(s, c, false), schedule, s') && c in s'.calls && !s'.calls[c].pc.Returned? && Enabled(s', c)
    requires c in After(s', c, panics).calls && After(s', c, panics).calls[c].pc.Returned?
    ensures s.finished < s'.finished <==> !LeaderPastF(s)
  {
    var last := After(s', c, panics);
    ReachableInv(s);
    JoinBatch(s, c);
    StepInv(s, c, false);
    HistoryGrows(After(s, c, false), schedule, s', c);
    RunsInv(After(s, c, false), schedule, s');
    StepInv(s', c, panics);
    StepFinished(s', c, panics);
    StepCall(s', c, panics, last);
    assert CallInv(s', c) && CallInv(last, c);
  }

  /** In the window no execution at all finishes while the call has not returned. */
  lemma NothingInWindow(s: State, c: CallId, schedule: seq<Action>, s': State)
    requires Reachable(s) && c in s.calls && s.calls[c].pc.Enter? && LeaderPastF(s)
    requires Runs(After(s, c, false), schedule, s') && c in s'.calls && !s'.calls[c].pc.Returned?
    ensures s'.finished == s.finished
  {
    ReachableInv(s);
    JoinBatch(s, c);
    StepInv(s, c, false);
    HistoryGrows(After(s, c, false), schedule, s', c);
    RunsInv(After(s, c, false), schedule, s');
    assert CallInv(s', c);
  }

  /** Nobody joins a batch once its leader holds inLock again: while a call joins, no call is leaving,
      and if the batch has members, its leader is still short of the second inLock.Lock. */
  lemma NoLateJoin(s: State, c: CallId, member: CallId)
    requires Reachable(s) && c in s.calls && s.calls[c].pc.Enter?
    requires member in s.calls && Counted(s.calls[member].pc)
    ensures s.calls[member].pc.WantOut? || member == s.leader
    ensures s.leader in s.calls && (BeforeF(s.calls[s.leader].pc) || PastF(s.calls[s.leader].pc))
  {
    ReachableInv(s);
    assert CallInv(s, c) && CallInv(s, member);
    InsideTwo(s, c, member);
    assert CallInv(s, s.leader);
  }

  /** A limiter without calls; call 0 alone, with f about to be timed and right after f has returned; and
      the same with call 1 about to join. */
  const EMPTY := State(
    pause := 0, now := 0, lastExec := 0, inLocked := false, outLocked := false, waiters := 0, calls := map[],
    fault := false, phase := Idle, leader := 0, inHolder := None, outHolder := None, batches := 0, finished := 0,
    lastFinish := None)
  const LEADING := EMPTY.(outLocked := true, outHolder := Some(0), waiters := 1, calls := map[0 := Call(LeadClock, 1)],
                          phase := Open, batches := 1)
  const F_RETURNED := LEADING.(calls := map[0 := Call(LeadRecord(false), 1)], finished := 1, lastFinish := Some(0))
  const LATE := F_RETURNED.(inLocked := true, inHolder := Some(1),
                            calls := map[0 := Call(LeadRecord(false), 1), 1 := Call(Enter, 0)])

  lemma FromReturned(schedule: seq<Action>, s: State)
    requires Runs(F_RETURNED, schedule, s)
    ensures Reachable(s)
  {
    var step := Go(0, false);
    var a1 := Do(EMPTY, Arrive(0));
    var a2 := Do(a1, step);
    var a3 := Do(a2, step);
    assert a3.calls == map[0 := Call(LeadWantOut, 1)];
    var a4 := Do(a3, step);
    var a5 := Do(a4, step);
    assert a5 == LEADING;
    var t := FromOpen(schedule, s);
    Cons(a4, step, t, s);
    Cons(a3, step, [step] + t, s);
    Cons(a2, step, [step] + ([step] + t), s);
    Cons(a1, step, [step] + ([step] + ([step] + t)), s);
    Cons(EMPTY, Arrive(0), [step] + ([step] + ([step] + ([step] + t))), s);
  }

  lemma FromOpen(schedule: seq<Action>, s: State) returns (more: seq<Action>)
    requires Runs(F_RETURNED, schedule, s)
    ensures Runs(LEADING, more, s)
  {
    var step := Go(0, false);
    var a6 := Do(LEADING, step);
    var a7 := Do(a6, step);
    assert Do(a7, step) == F_RETURNED;
    Cons(a7, step, schedule, s);
    Cons(a6, step, [step] + schedule, s);
    Cons(LEADING, step, [step] + ([step] + schedule), s);
    more := [step] + ([step] + ([step] + schedule));
  }

  /** The window is real: call 1 can be about to join while the leader is past f. */
  lemma LateIsReachable()
    ensures Reachable(LATE) && LATE.calls[1].pc.Enter? && LeaderPastF(LATE)
  {
    var arrived := Do(F_RETURNED, Arrive(1));
    assert Do(arrived, Go(1, false)) == LATE;
    assert Runs(LATE, [], LATE);
    Cons(arrived, Go(1, false), [], LATE);
    Cons(F_RETURNED, Arrive(1), [Go(1, false)] + [], LATE);
    FromReturned([Arrive(1)] + ([Go(1, false)] + []), LATE);
    assert 0 in LATE.calls && PastF(LATE.calls[0].pc);
  }

  // ---------------------------------------------------------------- pause

  /** Successive executions are at least `pause` apart: when a call may start f, the previous
      execution ended at least `pause` ago. */
  lemma PauseKept(s: State, c: CallId)
    requires Reachable(s) && c in s.calls && s.calls[c].pc.LeadSleep? && Enabled(s, c)
    ensures s.lastFinish.Some? ==> s.now - s.lastFinish.value >= s.pause
  {
    ReachableInv(s);
    assert CallInv(s, c);
  }

  /** Nobody sleeps longer than that: the sleep is over as soon as the pause since the last execution is, and at once
      if it is already. */
  lemma NoOversleep(s: State, c: CallId, panics: bool)
    requires Reachable(s) && c in s.calls
    ensures s.calls[c].pc.LeadSleep? && s.now >= s.lastExec + s.pause ==> Enabled(s, c)
    ensures s.calls[c].pc.LeadClock? && s.now >= s.lastExec + s.pause ==>
              After(s, c, panics).calls[c].pc == LeadSleep(s.now)
  {
    ReachableInv(s);
    assert CallInv(s, c);
  }

  // ---------------------------------------------------------------- panics

  /** On the way out of a panic. */
  predicate Unwinding(pc: PC) {
    pc == LeadRecord(true) || pc == LeadWantIn(true) || pc == LeadClose(true) || pc.Leave? || pc.LastOpen? || pc.Returned?
  }

  lemma UnwindOn(s: State, a: Action, c: CallId)
    requires Can(s, a) && c in s.calls && Unwinding(s.calls[c].pc)
    ensures c in Do(s, a).calls && Unwinding(Do(s, a).calls[c].pc)
  {
    if a.Go? {
      StepFrame(s, a.c, a.panics);
    }
  }

  lemma {:induction false} UnwindAll(s: State, schedule: seq<Action>, s': State, c: CallId)
    requires c in s.calls && Unwinding(s.calls[c].pc) && Runs(s, schedule, s')
    ensures c in s'.calls && Unwinding(s'.calls[c].pc)
    decreases |schedule|
  {
    if schedule != [] {
      UnwindOn(s, schedule[0], c);
      UnwindAll(Do(s, schedule[0]), schedule[1..], s', c);
    }
  }

  /** A leader whose f panics never waits for its turn to leave: whatever happens afterwards, it is not among
      the calls that queue for outLock. */
  lemma PanicSkipsWait(s: State, c: CallId, schedule: seq<Action>, s': State)
    requires c in s.calls && s.calls[c].pc.LeadExec? && Runs(Do(s, Go(c, true)), schedule, s')
    ensures c in s'.calls && !s'.calls[c].pc.WantOut? && !s'.calls[c].pc.HasOut?
  {
    UnwindAll(Do(s, Go(c, true)), schedule, s', c);
  }

  /** Everybody else leaves by turns: the step that brings a call to its deferred decrement gives outLock back,
      which that call alone holds, unless its own f has panicked. */
  lemma LeavesByTurn(s: State, a: Action, c: CallId)
    requires Reachable(s) && Can(s, a) && c in s.calls && !s.calls[c].pc.Leave?
    requires c in Do(s, a).calls && Do(s, a).calls[c].pc.Leave?
    ensures a.Go? && a.c == c
    ensures (s.calls[c].pc == HasOut && s.outHolder == Some(c)) || s.calls[c].pc == LeadClose(true)
  {
    ReachableInv(s);
    assert CallInv(s, c);
    if a.Go? {
      StepFrame(s, a.c, a.panics);
    }
  }
}
