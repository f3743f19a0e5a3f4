/** The worker scheduler (service/mgr/workermgr.go) as a transition system: the task loop, and clients
  that change the schedule under a lock and signal the loop through two one-slot channels. */
module WorkerMgr {
  import opened Common

  /** Delays and repeats are told apart by a serial number. */
  datatype Act = Nil | Delay(id: nat) | Repeat(id: nat) | KeepAlive

  datatype Loop =
    | First                // wait for the first selectAction
    | Select               // lock, choose the action
    | Waiting(act: Act)    // select on the action, run, selectAction and cancellation
    | Acking               // the delay fired: lock, Ack
    | Working              // runWorker
    | Exited

  /** Progress of the client that holds actionLock. */
  datatype Client =
    | Free
    | Check      // last statement of Delay, Repeat, KeepAlive: check()
    | GoClear    // Go: reset repeat, stop and clear the delay
    | GoSend     // Go: send to run

  /** `runs` (worker executions begun) and `serial` are history. */
  datatype State = State(
    delay: Option<nat>,
    repeat: Option<nat>,
    keepAlive: bool,
    run: bool,
    select: bool,
    cancelled: bool,
    loop: Loop,
    client: Client,
    runs: nat,
    serial: nat)

  const INIT := State(
    delay := None, repeat := None, keepAlive := false, run := false, select := false, cancelled := false,
    loop := First, client := Free, runs := 0, serial := 0)

  /** The action with the highest priority. */
  function Top(s: State): Act {
    if s.delay.Some? then Delay(s.delay.value)
    else if s.repeat.Some? then Repeat(s.repeat.value)
    else if s.keepAlive then KeepAlive
    else Nil
  }

  datatype Action =
    // Clients.
    | CallGo
    | CallDelay(on: bool)
    | CallRepeat(on: bool)
    | CallKeepAlive
    | Continue            // next statement of the client that holds the lock
    | Cancel
    // Task loop.
    | TakeFirst           // receive the first selectAction
    | Pick                // choose the action
    | Fire                // the timer or ticker of the action
    | Ack                 // Ack of a delay
    | TakeRun             // receive from run
    | TakeSelect          // receive from selectAction
    | Return              // the worker returns
    | Abort               // the context is done

  predicate IsLoopAction(a: Action) {
    a.TakeFirst? || a.Pick? || a.Fire? || a.Ack? || a.TakeRun? || a.TakeSelect? || a.Return?
  }

  predicate Can(s: State, a: Action) {
    match a
    case CallGo | CallDelay(_) | CallRepeat(_) | CallKeepAlive => s.client == Free
    case Continue => s.client != Free
    case Cancel => true
    case TakeFirst => s.loop == First && s.select
    case Pick => s.loop == Select && s.client == Free
    case Fire => s.loop.Waiting? && (s.loop.act.Delay? || s.loop.act.Repeat?)
    case Ack => s.loop == Acking && s.client == Free
    case TakeRun => s.loop.Waiting? && s.run
    case TakeSelect => s.loop.Waiting? && s.select
    case Return => s.loop == Working
    case Abort => s.cancelled && (s.loop == First || s.loop.Waiting?)
  }

  function Work(s: State): State {
    s.(loop := Working, runs := s.runs + 1)
  }

  function Do(s: State, a: Action): State
    requires Can(s, a)
  {
    match a
    case CallGo =>
      if Top(s) == Nil then s.(keepAlive := true, select := true, client := GoClear) else s.(client := GoClear)
    case CallDelay(on) =>
      s.(delay := if on then Some(s.serial) else None, serial := s.serial + 1, client := Check)
    case CallRepeat(on) =>
      s.(repeat := if on then Some(s.serial) else None, serial := s.serial + 1, client := Check)
    case CallKeepAlive => s.(keepAlive := true, client := Check)
    case Continue =>
      (match s.client
       case Check => s.(select := true, client := Free)
       case GoClear => s.(delay := None, client := GoSend)
       case GoSend => s.(run := true, client := Free)
       case Free => s)
    case Cancel => s.(cancelled := true)
    case TakeFirst => s.(select := false, loop := Select)
    case Pick => s.(loop := if Top(s) == Nil then Exited else Waiting(Top(s)))
    case Fire => if s.loop.act.Delay? then s.(loop := Acking) else Work(s)
    case Ack => Work(s.(delay := None))
    case TakeRun => Work(s.(run := false))
    case TakeSelect => s.(select := false, loop := Select)
    case Return => s.(loop := Select)
    case Abort => s.(loop := Exited)
  }

  ghost predicate Runs(s: State, schedule: seq<Action>, s': State)
    decreases |schedule|
  {
    if schedule == [] then s' == s
    else Can(s, schedule[0]) && Runs(Do(s, schedule[0]), schedule[1..], s')
  }

  ghost predicate Reachable(s: State) {
    exists schedule :: Runs(INIT, schedule, s)
  }

  // ------------------------------------------------------------ invariant

  /** The client in the critical section will still signal the loop. */
  predicate WillSignal(s: State) {
    s.client != Free
  }

  predicate Inv(s: State) {
    && (s.loop.Waiting? ==> s.loop.act != Nil)
    && (s.loop.Waiting? && s.loop.act != Top(s) ==> s.select || s.run || WillSignal(s))
    && (s.loop == First && (s.run || s.client == GoClear || s.client == GoSend || Top(s) != Nil) ==>
          s.select || s.client == Check)
    && (s.client == GoClear || s.client == GoSend ==> s.loop == First ==> s.select)
  }

  lemma {:induction false} RunsInv(s: State, schedule: seq<Action>, s': State)
    requires Inv(s) && Runs(s, schedule, s')
    ensures Inv(s')
    decreases |schedule|
  {
    if schedule != [] {
      RunsInv(Do(s, schedule[0]), schedule[1..], s');
    }
  }

  lemma ReachableInv(s: State)
    requires Reachable(s)
    ensures Inv(s)
  {
    var schedule :| Runs(INIT, schedule, s);
    RunsInv(INIT, schedule, s);
  }

  /** Whenever the loop waits on an action that is no longer the one with the highest priority, and no
      client is in the middle of a change, a token is there that makes it look again. */
  lemma NoStaleWait(s: State)
    requires Reachable(s) && s.loop.Waiting? && s.loop.act != Top(s) && s.client == Free
    ensures Can(s, TakeSelect) || Can(s, TakeRun)
  {
    ReachableInv(s);
  }

  /** An undisturbed loop waits for the delay if one is set, else for the repeat if one is set, and for
      requests alone only with keep-alive and neither of them. */
  lemma ActionPriority(s: State)
    requires Reachable(s) && s.client == Free && !s.select && !s.run && s.loop.Waiting?
    ensures s.delay.Some? ==> s.loop.act == Delay(s.delay.value)
    ensures s.delay.None? && s.repeat.Some? ==> s.loop.act == Repeat(s.repeat.value)
    ensures s.delay.None? && s.repeat.None? ==> s.loop.act == KeepAlive && s.keepAlive
  {
    ReachableInv(s);
  }

  /** The loop ends by itself exactly when neither a delay nor a repeat nor keep-alive is set, and only at the
      selection of the next action; all other ends follow a cancellation. */
  lemma EndsIff(s: State, a: Action)
    requires Can(s, a) && s.loop != Exited
    ensures Do(s, a).loop == Exited <==>
              a == Abort || (a == Pick && s.delay.None? && s.repeat.None? && !s.keepAlive)
    ensures a == Abort ==> s.cancelled
  {
  }

  // --------------------------------------------------- what clients asked for

  /** Whether a repeat is on after these actions: the last call of Repeat decides. */
  function RepeatAfter(on: bool, schedule: seq<Action>): bool
    decreases |schedule|
  {
    if schedule == [] then on
    else RepeatAfter(if schedule[0].CallRepeat? then schedule[0].on else on, schedule[1..])
  }

  /** Whether a delay is on: the last call of Delay decides, unless the delay has run out or Go was called since. */
  function DelayAfter(on: bool, schedule: seq<Action>): bool
    decreases |schedule|
  {
    if schedule == [] then on
    else
      var a := schedule[0];
      DelayAfter(if a.CallDelay? then a.on else on && !a.CallGo? && !a.Ack?, schedule[1..])
  }

  /** The delay is set, and no Go is about to clear it. */
  predicate DelayOn(s: State) {
    s.delay.Some? && s.client != GoClear
  }

  lemma AskedStep(s: State, a: Action)
    requires Can(s, a)
    ensures Do(s, a).repeat.Some? == if a.CallRepeat? then a.on else s.repeat.Some?
    ensures DelayOn(Do(s, a)) == if a.CallDelay? then a.on else DelayOn(s) && !a.CallGo? && !a.Ack?
    ensures s.keepAlive || a == CallKeepAlive ==> Do(s, a).keepAlive
    ensures Do(s, a).keepAlive ==> s.keepAlive || a == CallKeepAlive || a == CallGo
  {
  }

  lemma {:induction false} AskedFrom(s: State, schedule: seq<Action>, s': State)
    requires Runs(s, schedule, s')
    ensures s'.repeat.Some? == RepeatAfter(s.repeat.Some?, schedule)
    ensures DelayOn(s') == DelayAfter(DelayOn(s), schedule)
    ensures (s.keepAlive || CallKeepAlive in schedule ==> s'.keepAlive)
    ensures s'.keepAlive ==> s.keepAlive || CallKeepAlive in schedule || CallGo in schedule
    decreases |schedule|
  {
    if schedule != [] {
      AskedStep(s, schedule[0]);
      AskedFrom(Do(s, schedule[0]), schedule[1..], s');
      assert forall a :: a in schedule <==> a == schedule[0] || a in schedule[1..];
    }
  }

  /** The schedule is always the one the clients asked for: the last Repeat, the last Delay unless it has run out or
      a Go came after it, and keep-alive for good from the first KeepAlive on, or from a Go. */
  lemma ScheduleIsAsked(schedule: seq<Action>, s: State)
    requires Runs(INIT, schedule, s) && s.client == Free
    ensures s.repeat.Some? <==> RepeatAfter(false, schedule)
    ensures s.delay.Some? <==> DelayAfter(false, schedule)
    ensures CallKeepAlive in schedule ==> s.keepAlive
    ensures s.keepAlive ==> CallKeepAlive in schedule || CallGo in schedule
  {
    AskedFrom(INIT, schedule, s);
  }

  function Times(a: Action, schedule: seq<Action>): nat {
    multiset(schedule)[a]
  }

  lemma TimesCons(a: Action, schedule: seq<Action>)
    requires schedule != []
    ensures Times(a, schedule) == (if schedule[0] == a then 1 else 0) + Times(a, schedule[1..])
  {
    assert schedule == [schedule[0]] + schedule[1..];
  }

  /** A Go that has not led to a run yet. */
  function PendingGos(s: State): nat {
    (if s.run then 1 else 0) + (if s.client == GoClear || s.client == GoSend then 1 else 0)
  }

  function BegunRuns(s: State): nat {
    s.runs + if s.loop == Acking then 1 else 0
  }

  lemma AccountedStep(s: State, a: Action)
    requires Can(s, a)
    ensures BegunRuns(Do(s, a)) == BegunRuns(s) + if a == Fire || a == TakeRun then 1 else 0
    ensures (if a == TakeRun then 1 else 0) + PendingGos(Do(s, a)) <= PendingGos(s) + if a == CallGo then 1 else 0
  {
  }

  lemma {:induction false} AccountedFrom(s: State, schedule: seq<Action>, s': State)
    requires Runs(s, schedule, s')
    ensures BegunRuns(s') == BegunRuns(s) + Times(Fire, schedule) + Times(TakeRun, schedule)
    ensures Times(TakeRun, schedule) + PendingGos(s') <= PendingGos(s) + Times(CallGo, schedule)
    decreases |schedule|
  {
    if schedule != [] {
      AccountedStep(s, schedule[0]);
      AccountedFrom(Do(s, schedule[0]), schedule[1..], s');
      TimesCons(Fire, schedule);
      TimesCons(TakeRun, schedule);
      TimesCons(CallGo, schedule);
    }
  }

  /** Every execution has its cause: a timer that fired, or a Go, and no Go causes more than one. */
  lemma ExecutionsAccounted(schedule: seq<Action>, s: State)
    requires Runs(INIT, schedule, s) && s.loop != Acking
    ensures s.runs == Times(Fire, schedule) + Times(TakeRun, schedule)
    ensures Times(TakeRun, schedule) <= Times(CallGo, schedule)
  {
    AccountedFrom(INIT, schedule, s);
  }

  // ----------------------------------------------------- Go with keep-alive

  /** The request of a Go is still pending, has been served, or was overtaken by cancellation. */
  predicate Kept(s: State, before: nat) {
    s.keepAlive && s.runs >= before && (s.runs > before || (s.run && (s.loop == Exited ==> s.cancelled)))
  }

  /** With keep-alive, a run token disappears only by a step that runs the worker, and the loop ends
      only by cancellation: no Go is lost, whatever clients and loop do afterwards. */
  lemma {:induction false} NoGoLost(s: State, before: nat, schedule: seq<Action>, s': State)
    requires Kept(s, before) && Runs(s, schedule, s')
    ensures Kept(s', before)
    decreases |schedule|
  {
    if schedule != [] {
      NoGoLost(Do(s, schedule[0]), before, schedule[1..], s');
    }
  }

  /** From its send on, a Go on a live scheduler with keep-alive is followed by an execution, is still
      pending, or was overtaken by cancellation. */
  lemma GoIsKept(s: State, schedule: seq<Action>, s': State)
    requires s.client == GoSend && s.keepAlive && s.loop != Exited
    requires Runs(Do(s, Continue), schedule, s')
    ensures s'.runs > s.runs || (s'.run && (s'.loop == Exited ==> s'.cancelled))
  {
    NoGoLost(Do(s, Continue), s.runs, schedule, s');
  }

  /** Steps until a pending run token is served when the loop goes on by itself. */
  function Distance(s: State): nat {
    (match s.client case Free => 0 case Check => 1 case GoSend => 1 case GoClear => 2)
    + (match s.loop
       case Waiting(_) => 1
       case Select => 2
       case First => 3
       case Acking => 1
       case Working => 3
       case Exited => 0)
  }

  /** And it is served: a live loop with keep-alive and a pending run token can always go on, by itself
      or after the client in the lock, and reaches a worker execution in at most five steps. */
  lemma {:induction false} PendingRunIsServed(s: State) returns (schedule: seq<Action>, s': State)
    requires Inv(s) && s.keepAlive && s.run && s.loop != Exited
    ensures Runs(s, schedule, s') && s'.runs > s.runs && |schedule| <= Distance(s) <= 5
    ensures forall i :: 0 <= i < |schedule| ==> IsLoopAction(schedule[i]) || schedule[i] == Continue
    decreases Distance(s)
  {
    var a :=
      if s.client != Free then Continue
      else if s.loop == First then TakeFirst
      else if s.loop == Select then Pick
      else if s.loop == Acking then Ack
      else if s.loop == Working then Return
      else TakeRun;
    var next := Do(s, a);
    assert Inv(next);
    if next.runs > s.runs {
      schedule, s' := [a], next;
      assert Runs(next, [], next) && schedule[1..] == [];
    } else {
      var rest, last := PendingRunIsServed(next);
      schedule, s' := [a] + rest, last;
      assert schedule[1..] == rest;
    }
  }

  // -------------------------------------------------- Go without keep-alive

  /** Left to itself, the loop ends with the run token still there and the worker not run. */
  ghost predicate LosesRun(s: State) {
    exists schedule, s' :: LosingRun(s, schedule, s')
  }

  ghost predicate LosingRun(s: State, schedule: seq<Action>, s': State) {
    && Runs(s, schedule, s') && (forall i :: 0 <= i < |schedule| ==> IsLoopAction(schedule[i]))
    && s'.loop == Exited && s'.run && s'.runs == s.runs
  }

  /** The loop has ended, or nothing is scheduled any more and the loop may look at the schedule before
      it looks at `run`. */
  predicate CanBeLost(s: State) {
    s.loop == Exited
    || (Top(s) == Nil && (s.loop == First || s.loop == Select || s.loop == Working || (s.loop.Waiting? && s.select)))
  }

  /** While the worker has not run, the loop alone keeps a safe request safe. */
  lemma {:induction false} SafeStays(s: State, schedule: seq<Action>, s': State)
    requires s.run && s.client == Free && !CanBeLost(s) && s.loop != Exited
    requires Runs(s, schedule, s') && forall i :: 0 <= i < |schedule| ==> IsLoopAction(schedule[i])
    ensures s'.runs >= s.runs && (s'.loop == Exited ==> s'.runs > s.runs)
    decreases |schedule|
  {
    if schedule != [] {
      var next := Do(s, schedule[0]);
      if next.runs > s.runs {
        RunsGrow(next, schedule[1..], s');
      } else {
        SafeStays(next, schedule[1..], s');
      }
    }
  }

  lemma {:induction false} RunsGrow(s: State, schedule: seq<Action>, s': State)
    requires Runs(s, schedule, s')
    ensures s'.runs >= s.runs
    decreases |schedule|
  {
    if schedule != [] {
      RunsGrow(Do(s, schedule[0]), schedule[1..], s');
    }
  }

  /** A pending request is lost by the loop alone exactly when no action is scheduled any more and the
      loop is about to select again. Go promises an execution in every case; it clears the delay, so a
      request that overtakes a lone delay is in this case. */
  lemma LostIff(s: State)
    requires Reachable(s) && s.run && s.client == Free
    ensures LosesRun(s) <==> CanBeLost(s)
  {
    ReachableInv(s);
    if CanBeLost(s) {
      var schedule, s' := LoseIt(s);
      assert LosingRun(s, schedule, s');
    } else {
      forall schedule, s' ensures !LosingRun(s, schedule, s') {
        if LosingRun(s, schedule, s') {
          SafeStays(s, schedule, s');
        }
      }
    }
  }

  lemma LoseIt(s: State) returns (schedule: seq<Action>, s': State)
    requires Inv(s) && s.run && s.client == Free && CanBeLost(s)
    ensures LosingRun(s, schedule, s') && s'.client == Free
  {
    schedule :=
      match s.loop
      case First => [TakeFirst, Pick]
      case Waiting(_) => [TakeSelect, Pick]
      case Working => [Return, Pick]
      case Select => [Pick]
      case _ => [];
    s' := s.(loop := Exited, select := if s.loop == First || s.loop.Waiting? then false else s.select);
    if |schedule| == 2 {
      assert schedule[1..] == [Pick] && schedule[1..][1..] == [];
    } else if |schedule| == 1 {
      assert schedule[1..] == [];
    }
  }

  /** A call of Go can come to nothing: whatever steps the loop takes during and after the call, with no
      other client, the loop ends with the run token still there and the worker not run since. */
  ghost predicate LosesGo(s: State) {
    exists schedule, s' :: LosingGo(s, schedule, s')
  }

  ghost predicate LosingGo(s: State, schedule: seq<Action>, s': State) {
    && Can(s, CallGo) && Runs(Do(s, CallGo), schedule, s')
    && (forall i :: 0 <= i < |schedule| ==> IsLoopAction(schedule[i]) || schedule[i] == Continue)
    && s'.client == Free && s'.loop == Exited && s'.run && s'.runs == s.runs
  }

  /** The loop has ended, or a delay is all that keeps it going and it is not waiting for that delay
      undisturbed. */
  predicate GoCanBeLost(s: State) {
    s.loop == Exited
    || (s.delay.Some? && s.repeat.None? && !s.keepAlive
        && (s.loop == First || s.loop == Select || s.loop == Working || (s.loop.Waiting? && s.select)))
  }

  /** During and after a safe call of Go, until the worker runs. */
  predicate GoIsSafe(s: State) {
    && (s.client == GoClear || s.client == GoSend || s.client == Free) && (s.client == Free ==> s.run)
    && s.loop != Exited
    && (s.repeat.Some? || s.keepAlive || s.loop == Acking || (s.loop.Waiting? && !s.select))
  }

  lemma {:induction false} GoStaysSafe(s: State, schedule: seq<Action>, s': State)
    requires GoIsSafe(s) && Runs(s, schedule, s')
    requires forall i :: 0 <= i < |schedule| ==> IsLoopAction(schedule[i]) || schedule[i] == Continue
    ensures s'.runs > s.runs || s'.loop != Exited
    decreases |schedule|
  {
    if schedule != [] {
      var a := schedule[0];
      assert IsLoopAction(a) || a == Continue;
      var next := Do(s, a);
      if next.runs > s.runs {
        RunsGrow(next, schedule[1..], s');
      } else {
        assert s.client == Free ==> a != Continue;
        GoStaysSafe(next, schedule[1..], s');
      }
    }
  }

  /** When Go is called, it can be lost if and only if the loop has ended, or only a delay is scheduled and
      the loop is not waiting for it undisturbed: Go clears the delay before it asks for a run. */
  lemma GoLostIff(s: State)
    requires Reachable(s) && s.client == Free
    ensures LosesGo(s) <==> GoCanBeLost(s)
  {
    ReachableInv(s);
    if GoCanBeLost(s) {
      LoseGo(s);
    } else {
      forall schedule, s' ensures !LosingGo(s, schedule, s') {
        if LosingGo(s, schedule, s') {
          GoStaysSafe(Do(s, CallGo), schedule, s');
        }
      }
    }
  }

  /** The loop takes no step during the call, and then goes on by itself. */
  lemma LoseGo(s: State)
    requires Reachable(s) && s.client == Free && GoCanBeLost(s)
    ensures LosesGo(s)
  {
    ReachableInv(s);
    var called := Do(s, CallGo);
    var after := AfterGo(s);
    var rest, s' := LoseIt(after);
    Chain(called, [Continue, Continue], after, rest, s');
    var schedule := [Continue, Continue] + rest;
    forall i | 0 <= i < |schedule| ensures IsLoopAction(schedule[i]) || schedule[i] == Continue {
      assert i >= 2 ==> schedule[i] == rest[i - 2];
    }
    assert s'.client == Free && LosingGo(s, schedule, s');
  }

  lemma AfterGo(s: State) returns (after: State)
    requires Inv(s) && s.client == Free
    ensures Runs(Do(s, CallGo), [Continue, Continue], after) && Inv(after)
    ensures after.client == Free && after.run && after.runs == s.runs
    ensures GoCanBeLost(s) ==> CanBeLost(after)
  {
    var called := Do(s, CallGo);
    var cleared := Do(called, Continue);
    after := Do(cleared, Continue);
    Two(called, Continue, Continue);
  }

  lemma {:induction false} Chain(s: State, a: seq<Action>, mid: State, b: seq<Action>, s': State)
    requires Runs(s, a, mid) && Runs(mid, b, s')
    ensures Runs(s, a + b, s')
    decreases |a|
  {
    if a == [] {
      assert a + b == b;
    } else {
      Chain(Do(s, a[0]), a[1..], mid, b, s');
      assert (a + b)[1..] == a[1..] + b;
    }
  }

  lemma Two(s: State, a: Action, b: Action)
    requires Can(s, a) && Can(Do(s, a), b)
    ensures Runs(s, [a, b], Do(Do(s, a), b))
  {
    assert [a, b][1..] == [b] && [b][1..] == [];
    assert Runs(Do(s, a), [b], Do(Do(s, a), b));
  }

  /** A fresh loop first waits for a delay that is set, whatever else is. */
  lemma DelayFires(s: State) returns (s': State)
    requires s.loop == First && s.select && s.client == Free && s.delay.Some?
    ensures Runs(s, [TakeFirst, Pick, Fire, Ack], s')
    ensures s' == s.(select := false, delay := None, loop := Working, runs := s.runs + 1)
  {
    var mid := s.(select := false, loop := Waiting(Delay(s.delay.value)));
    Two(s, TakeFirst, Pick);
    s' := s.(select := false, delay := None, loop := Working, runs := s.runs + 1);
    Two(mid, Fire, Ack);
    Chain(s, [TakeFirst, Pick], mid, [Fire, Ack], s');
    assert [TakeFirst, Pick] + [Fire, Ack] == [TakeFirst, Pick, Fire, Ack];
  }

  /** After an execution a repeat goes on. */
  lemma RepeatFires(s: State) returns (s': State)
    requires s.loop == Working && s.client == Free && s.delay.None? && s.repeat.Some?
    ensures Runs(s, [Return, Pick, Fire], s') && s' == s.(runs := s.runs + 1)
  {
    var mid := s.(loop := Waiting(Repeat(s.repeat.value)));
    Two(s, Return, Pick);
    s' := s.(runs := s.runs + 1);
    assert Runs(mid, [Fire], s') by { assert [Fire][1..] == [] && Runs(s', [], s'); }
    Chain(s, [Return, Pick], mid, [Fire], s');
    assert [Return, Pick] + [Fire] == [Return, Pick, Fire];
  }

  /** With a delay and a repeat, the delay fires first, and the repeat goes on after it. */
  lemma DelayThenRepeat() returns (s: State, mid: State, s': State)
    ensures Runs(INIT, [CallDelay(true), Continue, CallRepeat(true), Continue], s) && s.delay.Some? && s.repeat.Some?
    ensures Runs(s, [TakeFirst, Pick, Fire, Ack], mid) && mid == s.(select := false, delay := None, loop := Working, runs := 1)
    ensures Runs(mid, [Return, Pick, Fire], s') && s' == mid.(runs := 2)
  {
    var armed := INIT.(delay := Some(0), select := true, serial := 1);
    Two(INIT, CallDelay(true), Continue);
    s := armed.(repeat := Some(1), serial := 2);
    Two(armed, CallRepeat(true), Continue);
    Chain(INIT, [CallDelay(true), Continue], armed, [CallRepeat(true), Continue], s);
    assert [CallDelay(true), Continue] + [CallRepeat(true), Continue] == [CallDelay(true), Continue, CallRepeat(true), Continue];
    mid := DelayFires(s);
    s' := RepeatFires(mid);
  }

  /** A delay fires and the worker executes. */
  lemma DelayedWork() returns (schedule: seq<Action>, s: State)
    ensures Runs(INIT, schedule, s) && s == INIT.(loop := Working, runs := 1, serial := 1)
  {
    var armed := INIT.(delay := Some(0), select := true, serial := 1);
    Two(INIT, CallDelay(true), Continue);
    s := DelayFires(armed);
    schedule := [CallDelay(true), Continue] + [TakeFirst, Pick, Fire, Ack];
    Chain(INIT, [CallDelay(true), Continue], armed, [TakeFirst, Pick, Fire, Ack], s);
  }

  /** A run that loses a Go: while the worker executes, a delay is set and then Go is called. */
  lemma GoDuringWorkIsLost() returns (work: seq<Action>, go: seq<Action>, s: State)
    ensures Runs(INIT, work + go, s) && go == [CallDelay(true), Continue, CallGo, Continue, Continue]
    ensures s.run && s.loop == Working && s.client == Free && LosesRun(s)
  {
    var s0;
    work, s0 := DelayedWork();
    var s1 := s0.(delay := Some(1), select := true, serial := 2);
    Two(s0, CallDelay(true), Continue);
    var s2 := s1.(delay := None, client := GoSend);
    Two(s1, CallGo, Continue);
    s := s2.(run := true, client := Free);
    assert Runs(s2, [Continue], s) by { assert [Continue][1..] == [] && Runs(s, [], s); }
    Chain(s1, [CallGo, Continue], s2, [Continue], s);
    Chain(s0, [CallDelay(true), Continue], s1, [CallGo, Continue] + [Continue], s);
    go := [CallDelay(true), Continue] + ([CallGo, Continue] + [Continue]);
    Chain(INIT, work, s0, go, s);
    LostIff(s);
  }

  /** Another run that loses a Go: it follows at once on the delay of a fresh scheduler. */
  lemma GoAfterFreshDelayIsLost() returns (s: State)
    ensures Runs(INIT, [CallDelay(true), Continue], s) && s.loop == First && LosesGo(s)
  {
    s := INIT.(delay := Some(0), select := true, serial := 1);
    Two(INIT, CallDelay(true), Continue);
    GoLostIff(s);
  }
}
