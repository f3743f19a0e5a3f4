/** The module group (service/mgr/group.go) as a transition system: any number of callers of Start and
  Stop, a state word changed by compare-and-swap, and modules that may fail at any call. */
module Group {
  import opened Common

  type CallerId = nat

  datatype GroupState = Off | Starting | Running | Stopping | Invalid

  /** Calls of module Start and Stop, with their outcome. A stop also counts as failed when the
      workers of the module do not finish in time. */
  datatype Event = Started(m: nat, ok: bool) | Stopped(m: nat, ok: bool)

  datatype Outcome = Nil | ErrInvalid | ErrUnsuitable | ErrStart | ErrStop

  /** Where a call of Start or Stop stands. */
  datatype PC =
    | StartLoad                                        // Start: state.Load
    | StartSwap                                        // Start: CompareAndSwap(off, starting)
    | StartModule(i: nat)                              // Start: module i is next, or all are started
    | StopModule(j: int, ok: bool, failed: Option<nat>)  // stopFrom: module j is next, or all are stopped
    | StopLoad                                         // Stop: state.Load
    | StopSwap                                         // Stop: CompareAndSwap(running, stopping)
    | Returned(outcome: Outcome)

  /** What happened between two stable states. */
  datatype Episode =
    | StartUp
    | FailedStart(failed: nat, oks: seq<bool>)
    | ShutDown(oks: seq<bool>)

  /** `log`, `episodes`, `oks` and `active` are history: all module calls, the finished episodes, the
      outcomes of the stops of the current episode, and the caller that runs it. */
  datatype State = State(
    n: nat,
    state: GroupState,
    callers: map<CallerId, PC>,
    log: seq<Event>,
    episodes: seq<Episode>,
    oks: seq<bool>,
    active: Option<CallerId>)

  // ---------------------------------------------------------------- steps

  ghost predicate Init(s: State) {
    s == State(s.n, Off, map[], [], [], [], None)
  }

  function Goto(s: State, c: CallerId, pc: PC): State {
    s.(callers := s.callers[c := pc])
  }

  /** The end of an episode: the new state is stored. */
  function Settle(s: State, c: CallerId, state: GroupState, episode: Episode, outcome: Outcome): State {
    Goto(s, c, Returned(outcome)).(state := state, episodes := s.episodes + [episode], active := None)
  }

  /** The next step of caller `c`; `ok` chooses how a module call turns out. */
  function Step(s: State, c: CallerId, ok: bool): State
    requires c in s.callers
  {
    match s.callers[c]
    case StartLoad =>
      if s.state == Running then Goto(s, c, Returned(Nil))
      else if s.state == Invalid then Goto(s, c, Returned(ErrInvalid))
      else Goto(s, c, StartSwap)
    case StartSwap =>
      if s.state == Off then Goto(s, c, StartModule(0)).(state := Starting, active := Some(c), oks := [])
      else Goto(s, c, Returned(ErrUnsuitable))
    case StartModule(i) =>
      if i >= s.n then Settle(s, c, Running, StartUp, Nil)
      else Goto(s, c, if ok then StartModule(i + 1) else StopModule(i, true, Some(i))).(log := s.log + [Started(i, ok)])
    case StopModule(j, allOk, failed) =>
      if j >= 0 then
        Goto(s, c, StopModule(j - 1, allOk && ok, failed)).(log := s.log + [Stopped(j, ok)], oks := s.oks + [ok])
      else
        var state := if allOk then Off else Invalid;
        if failed.Some? then Settle(s, c, state, FailedStart(failed.value, s.oks), ErrStart)
        else Settle(s, c, state, ShutDown(s.oks), if allOk then Nil else ErrStop)
    case StopLoad =>
      if s.state == Off then Goto(s, c, Returned(Nil))
      else if s.state == Invalid then Goto(s, c, Returned(ErrInvalid))
      else Goto(s, c, StopSwap)
    case StopSwap =>
      if s.state == Running then
        Goto(s, c, StopModule(s.n - 1, true, None)).(state := Stopping, active := Some(c), oks := [])
      else Goto(s, c, Returned(ErrUnsuitable))
    case Returned(_) => s
  }

  datatype Action = Call(c: CallerId, start: bool) | Go(c: CallerId, ok: bool)

  predicate Can(s: State, a: Action) {
    match a
    case Call(c, _) => c !in s.callers
    case Go(c, _) => c in s.callers && !s.callers[c].Returned?
  }

  function Do(s: State, a: Action): State
    requires Can(s, a)
  {
    match a
    case Call(c, start) => Goto(s, c, if start then StartLoad else StopLoad)
    case Go(c, ok) => Step(s, c, ok)
  }

  ghost predicate Runs(s: State, schedule: seq<Action>, s': State)
    decreases |schedule|
  {
    if schedule == [] then s' == s
    else Can(s, schedule[0]) && Runs(Do(s, schedule[0]), schedule[1..], s')
  }

  ghost predicate Reachable(s: State) {
    exists init, schedule :: Init(init) && Runs(init, schedule, s)
  }

  // ------------------------------------------- the sequential specification

  function Starts(i: nat): (r: seq<Event>) {
    seq(i, (k: nat) => Started(k, true))
  }

  /** Stops from module `top` downwards. */
  function Stops(top: int, oks: seq<bool>): seq<Event>
    requires |oks| <= top + 1
  {
    seq(|oks|, k requires 0 <= k < |oks| => Stopped(top - k, oks[k]))
  }

  predicate AllOk(oks: seq<bool>) {
    forall k :: 0 <= k < |oks| ==> oks[k]
  }

  predicate WellFormed(n: nat, e: Episode) {
    match e
    case StartUp => true
    case FailedStart(f, oks) => f < n && |oks| == f + 1
    case ShutDown(oks) => |oks| == n
  }

  /** The module calls an episode makes: a failed start at `f` stops exactly f..0, in reverse. */
  function Trace(n: nat, e: Episode): seq<Event>
    requires WellFormed(n, e)
  {
    match e
    case StartUp => Starts(n)
    case FailedStart(f, oks) => Starts(f) + [Started(f, false)] + Stops(f, oks)
    case ShutDown(oks) => Stops(n - 1, oks)
  }

  /** The stable state after an episode, if the episode may happen in `state` at all. */
  function After(state: GroupState, e: Episode): Option<GroupState> {
    match e
    case StartUp => if state == Off then Some(Running) else None
    case FailedStart(_, oks) => if state != Off then None else if AllOk(oks) then Some(Off) else Some(Invalid)
    case ShutDown(oks) => if state != Running then None else if AllOk(oks) then Some(Off) else Some(Invalid)
  }

  /** The stable state after a history of episodes, if it is a possible one. */
  function StateAfter(n: nat, episodes: seq<Episode>): Option<GroupState> {
    if episodes == [] then Some(Off)
    else
      var e := episodes[|episodes| - 1];
      match StateAfter(n, episodes[..|episodes| - 1])
      case None => None
      case Some(state) => if WellFormed(n, e) then After(state, e) else None
  }

  function Calls(n: nat, episodes: seq<Episode>): seq<Event>
    requires StateAfter(n, episodes).Some?
  {
    if episodes == [] then []
    else Calls(n, episodes[..|episodes| - 1]) + Trace(n, episodes[|episodes| - 1])
  }

  // ------------------------------------------------------------ invariant

  predicate Acts(pc: PC) { pc.StartModule? || pc.StopModule? }

  /** The unfinished episode of the active caller. */
  ghost predicate Midway(s: State, pc: PC, stable: GroupState, calls: seq<Event>) {
    match pc
    case StartModule(i) =>
      s.state == Starting && stable == Off && i <= s.n && s.oks == [] && s.log == calls + Starts(i)
    case StopModule(j, ok, failed) =>
      var top := if failed.Some? then failed.value else s.n - 1;
      && top < s.n && j + 1 + |s.oks| == top + 1 && j >= -1 && (ok <==> AllOk(s.oks))
      && (if failed.Some? then
            s.state == Starting && stable == Off
            && s.log == calls + (Starts(top) + [Started(top, false)] + Stops(top, s.oks))
          else
            s.state == Stopping && stable == Running && s.log == calls + Stops(top, s.oks))
    case _ => false
  }

  ghost predicate Inv(s: State) {
    && StateAfter(s.n, s.episodes).Some?
    && (forall c :: c in s.callers && Acts(s.callers[c]) ==> s.active == Some(c))
    && var stable := StateAfter(s.n, s.episodes).value;
       var calls := Calls(s.n, s.episodes);
       if s.active.None? then s.state == stable && s.log == calls
       else s.active.value in s.callers && Midway(s, s.callers[s.active.value], stable, calls)
  }

  lemma StartsSnoc(i: nat)
    ensures Starts(i + 1) == Starts(i) + [Started(i, true)]
  {}

  lemma StopsSnoc(top: int, oks: seq<bool>, ok: bool)
    requires |oks| <= top
    ensures Stops(top, oks + [ok]) == Stops(top, oks) + [Stopped(top - |oks|, ok)]
  {}

  /** Closing an episode appends it to the history. */
  lemma Closed(n: nat, episodes: seq<Episode>, e: Episode)
    requires StateAfter(n, episodes).Some? && WellFormed(n, e) && After(StateAfter(n, episodes).value, e).Some?
    ensures StateAfter(n, episodes + [e]) == After(StateAfter(n, episodes).value, e)
    ensures Calls(n, episodes + [e]) == Calls(n, episodes) + Trace(n, e)
  {
    assert (episodes + [e])[..|episodes|] == episodes;
  }

  lemma MidStart(s: State, c: CallerId, ok: bool, stable: GroupState, calls: seq<Event>)
    requires c in s.callers && s.callers[c].StartModule? && s.callers[c].i < s.n
    requires Midway(s, s.callers[c], stable, calls)
    ensures Midway(Step(s, c, ok), Step(s, c, ok).callers[c], stable, calls)
  {
    var i := s.callers[c].i;
    StartsSnoc(i);
    assert Stops(i, []) == [];
    assert calls + Starts(i) + [Started(i, ok)] == calls + (Starts(i) + [Started(i, ok)]);
    assert Starts(i) + [Started(i, false)] + [] == Starts(i) + [Started(i, false)];
  }

  lemma MidStop(s: State, c: CallerId, ok: bool, stable: GroupState, calls: seq<Event>)
    requires c in s.callers && s.callers[c].StopModule? && s.callers[c].j >= 0
    requires Midway(s, s.callers[c], stable, calls)
    ensures Midway(Step(s, c, ok), Step(s, c, ok).callers[c], stable, calls)
  {
    var pc := s.callers[c];
    var top := if pc.failed.Some? then pc.failed.value else s.n - 1;
    var stops, stop := Stops(top, s.oks), Stopped(pc.j, ok);
    StopsSnoc(top, s.oks, ok);
    assert AllOk(s.oks + [ok]) <==> AllOk(s.oks) && ok by {
      assert (s.oks + [ok])[|s.oks|] == ok;
      assert forall k :: 0 <= k < |s.oks| ==> (s.oks + [ok])[k] == s.oks[k];
    }
    assert calls + stops + [stop] == calls + (stops + [stop]);
    if pc.failed.Some? {
      var pre := Starts(top) + [Started(top, false)];
      assert calls + (pre + stops) + [stop] == calls + (pre + (stops + [stop]));
    }
  }

  /** A step within an episode. */
  lemma MidInv(s: State, c: CallerId, s': State)
    requires Inv(s) && s.active == Some(c) && s'.active == Some(c) && c in s'.callers
    requires s'.n == s.n && s'.episodes == s.episodes && s'.callers == s.callers[c := s'.callers[c]]
    requires Midway(s', s'.callers[c], StateAfter(s.n, s.episodes).value, Calls(s.n, s.episodes))
    ensures Inv(s')
  {}

  lemma SettleInv(s: State, c: CallerId, state: GroupState, e: Episode, outcome: Outcome)
    requires Inv(s) && s.active == Some(c) && WellFormed(s.n, e)
    requires After(StateAfter(s.n, s.episodes).value, e) == Some(state)
    requires s.log == Calls(s.n, s.episodes) + Trace(s.n, e)
    ensures Inv(Settle(s, c, state, e, outcome))
  {
    Closed(s.n, s.episodes, e);
  }

  lemma StepStart(s: State, c: CallerId, ok: bool)
    requires Inv(s) && c in s.callers && s.callers[c].StartModule?
    ensures Inv(Step(s, c, ok))
  {
    if s.callers[c].i < s.n {
      MidStart(s, c, ok, StateAfter(s.n, s.episodes).value, Calls(s.n, s.episodes));
      MidInv(s, c, Step(s, c, ok));
    } else {
      SettleInv(s, c, Running, StartUp, Nil);
    }
  }

  lemma StepStop(s: State, c: CallerId, ok: bool)
    requires Inv(s) && c in s.callers && s.callers[c].StopModule?
    ensures Inv(Step(s, c, ok))
  {
    var pc := s.callers[c];
    if pc.j >= 0 {
      MidStop(s, c, ok, StateAfter(s.n, s.episodes).value, Calls(s.n, s.episodes));
      MidInv(s, c, Step(s, c, ok));
    } else if pc.failed.Some? {
      SettleInv(s, c, if pc.ok then Off else Invalid, FailedStart(pc.failed.value, s.oks), ErrStart);
    } else {
      SettleInv(s, c, if pc.ok then Off else Invalid, ShutDown(s.oks), if pc.ok then Nil else ErrStop);
    }
  }

  /** Winning the swap opens an episode. */
  lemma StepSwap(s: State, c: CallerId, ok: bool)
    requires Inv(s) && c in s.callers
    requires (s.callers[c].StartSwap? && s.state == Off) || (s.callers[c].StopSwap? && s.state == Running)
    ensures Inv(Step(s, c, ok))
  {
    var calls := Calls(s.n, s.episodes);
    assert Starts(0) == [] && Stops(s.n - 1, []) == [] && calls + [] == calls;
    if s.state == Off {
      assert Midway(Step(s, c, ok), StartModule(0), Off, calls);
    } else {
      assert Midway(Step(s, c, ok), StopModule(s.n - 1, true, None), Running, calls);
    }
  }

  /** A caller outside an episode changes nothing but its own place. */
  lemma IdleInv(s: State, c: CallerId, pc: PC)
    requires Inv(s) && (c in s.callers ==> !Acts(s.callers[c])) && !Acts(pc)
    ensures Inv(Goto(s, c, pc))
  {}

  lemma StepIdle(s: State, c: CallerId, ok: bool)
    requires c in s.callers && !Acts(s.callers[c])
    requires s.callers[c].StartSwap? ==> s.state != Off
    requires s.callers[c].StopSwap? ==> s.state != Running
    ensures c in Step(s, c, ok).callers && !Acts(Step(s, c, ok).callers[c])
    ensures Step(s, c, ok) == Goto(s, c, Step(s, c, ok).callers[c])
  {}

  lemma DoInv(s: State, a: Action)
    requires Inv(s) && Can(s, a)
    ensures Inv(Do(s, a))
  {
    match a
    case Call(c, start) => IdleInv(s, c, if start then StartLoad else StopLoad);
    case Go(c, ok) =>
      var pc := s.callers[c];
      if pc.StartModule? {
        StepStart(s, c, ok);
      } else if pc.StopModule? {
        StepStop(s, c, ok);
      } else if (pc.StartSwap? && s.state == Off) || (pc.StopSwap? && s.state == Running) {
        StepSwap(s, c, ok);
      } else {
        StepIdle(s, c, ok);
        IdleInv(s, c, Step(s, c, ok).callers[c]);
      }
  }

  lemma {:induction false} RunsInv(s: State, schedule: seq<Action>, s': State)
    requires Inv(s) && Runs(s, schedule, s')
    ensures Inv(s')
    decreases |schedule|
  {
    if schedule != [] {
      DoInv(s, schedule[0]);
      RunsInv(Do(s, schedule[0]), schedule[1..], s');
    }
  }

  lemma ReachableInv(s: State)
    requires Reachable(s)
    ensures Inv(s)
  {
    var init, schedule :| Init(init) && Runs(init, schedule, s);
    RunsInv(init, schedule, s);
  }

  // ------------------------------------------------------------- theorems

  /** Start calls of module `m` minus its stop calls. */
  function Balance(log: seq<Event>, m: nat): int {
    if log == [] then 0
    else
      var e := log[|log| - 1];
      Balance(log[..|log| - 1], m) + (if e.m != m then 0 else if e.Started? then 1 else -1)
  }

  lemma {:induction false} BalanceAppend(a: seq<Event>, b: seq<Event>, m: nat)
    ensures Balance(a + b, m) == Balance(a, m) + Balance(b, m)
  {
    if b == [] {
      assert a + b == a;
    } else {
      assert (a + b)[..|a + b| - 1] == a + b[..|b| - 1];
      BalanceAppend(a, b[..|b| - 1], m);
    }
  }

  lemma {:induction false} BalanceStarts(i: nat, m: nat)
    ensures Balance(Starts(i), m) == if m < i then 1 else 0
  {
    if i > 0 {
      BalanceStarts(i - 1, m);
      assert Starts(i)[..i - 1] == Starts(i - 1);
    }
  }

  lemma {:induction false} BalanceStops(top: int, oks: seq<bool>, m: nat)
    requires |oks| <= top + 1
    ensures Balance(Stops(top, oks), m) == if top - |oks| < m <= top then -1 else 0
    decreases |oks|
  {
    if oks != [] {
      BalanceStops(top, oks[..|oks| - 1], m);
      assert Stops(top, oks)[..|oks| - 1] == Stops(top, oks[..|oks| - 1]);
    }
  }

  lemma BalanceTrace(n: nat, e: Episode, m: nat)
    requires WellFormed(n, e) && m < n
    ensures Balance(Trace(n, e), m) == match e case StartUp => 1 case FailedStart(_, _) => 0 case ShutDown(_) => -1
  {
    match e
    case StartUp => BalanceStarts(n, m);
    case ShutDown(oks) => BalanceStops(n - 1, oks, m);
    case FailedStart(f, oks) =>
      BalanceStarts(f, m);
      BalanceStops(f, oks, m);
      BalanceAppend(Starts(f), [Started(f, false)], m);
      BalanceAppend(Starts(f) + [Started(f, false)], Stops(f, oks), m);
      assert [Started(f, false)][..0] == [];
  }

  lemma {:induction false} BalanceCalls(n: nat, episodes: seq<Episode>, m: nat)
    requires StateAfter(n, episodes).Some? && m < n
    ensures Balance(Calls(n, episodes), m) == if StateAfter(n, episodes) == Some(Running) then 1 else 0
    decreases |episodes|
  {
    if episodes != [] {
      var rest, e := episodes[..|episodes| - 1], episodes[|episodes| - 1];
      BalanceCalls(n, rest, m);
      BalanceTrace(n, e, m);
      BalanceAppend(Calls(n, rest), Trace(n, e), m);
    }
  }

  /** Whatever the callers and modules do, a group that is not being started or stopped has been
      through a possible history of whole episodes, one after the other, and nothing else. */
  lemma RefinesEpisodes(s: State)
    requires Reachable(s) && s.state != Starting && s.state != Stopping
    ensures StateAfter(s.n, s.episodes) == Some(s.state) && s.log == Calls(s.n, s.episodes)
  {
    ReachableInv(s);
  }

  /** At most one caller is ever starting or stopping modules, and exactly while the state says so. */
  lemma OneActiveCaller(s: State, c: CallerId, d: CallerId)
    requires Reachable(s) && c in s.callers && d in s.callers && Acts(s.callers[c])
    ensures s.state == Starting || s.state == Stopping
    ensures Acts(s.callers[d]) ==> c == d
  {
    ReachableInv(s);
  }

  /** In off and invalid every module has been stopped as often as started, in running once less. */
  lemma StartsMatchStops(s: State, m: nat)
    requires Reachable(s) && m < s.n && s.state != Starting && s.state != Stopping
    ensures Balance(s.log, m) == if s.state == Running then 1 else 0
  {
    RefinesEpisodes(s);
    BalanceCalls(s.n, s.episodes, m);
  }

  /** Ready: the last thing that happened to the modules is that each of them was started, in order
      and with success. */
  lemma ReadyMeansStarted(s: State)
    requires Reachable(s) && s.state == Running
    ensures |s.log| >= s.n && s.log[|s.log| - s.n..] == Starts(s.n)
  {
    RefinesEpisodes(s);
    assert s.episodes != [] && s.episodes[|s.episodes| - 1] == StartUp;
    var before := Calls(s.n, s.episodes[..|s.episodes| - 1]);
    assert s.log == before + Starts(s.n);
    assert |s.log| - s.n == |before|;
  }

  /** Invalid is final: no step of anyone calls a module or changes the state again. */
  lemma InvalidIsFinal(s: State, a: Action)
    requires Reachable(s) && s.state == Invalid && Can(s, a)
    ensures Do(s, a).state == Invalid && Do(s, a).log == s.log
  {
    ReachableInv(s);
  }

  /** Some stop in the log has failed. */
  predicate StopFailed(log: seq<Event>) {
    exists k :: 0 <= k < |log| && log[k].Stopped? && !log[k].ok
  }

  lemma StopFailedAppend(a: seq<Event>, b: seq<Event>)
    ensures StopFailed(a + b) <==> StopFailed(a) || StopFailed(b)
  {
    var c := a + b;
    assert forall k :: 0 <= k < |a| ==> c[k] == a[k];
    assert forall k :: 0 <= k < |b| ==> c[|a| + k] == b[k];
  }

  lemma TraceStopFailed(n: nat, e: Episode)
    requires WellFormed(n, e)
    ensures StopFailed(Trace(n, e)) <==> !e.StartUp? && !AllOk(e.oks)
  {
    match e
    case StartUp =>
    case ShutDown(oks) => StopsFailed(n - 1, oks);
    case FailedStart(f, oks) =>
      StopsFailed(f, oks);
      StopFailedAppend(Starts(f) + [Started(f, false)], Stops(f, oks));
  }

  lemma StopsFailed(top: int, oks: seq<bool>)
    requires |oks| <= top + 1
    ensures StopFailed(Stops(top, oks)) <==> !AllOk(oks)
  {
    var stops := Stops(top, oks);
    assert forall k :: 0 <= k < |oks| ==> stops[k] == Stopped(top - k, oks[k]);
  }

  lemma {:induction false} InvalidHistory(n: nat, episodes: seq<Episode>)
    requires StateAfter(n, episodes).Some?
    ensures StateAfter(n, episodes) == Some(Invalid) <==> StopFailed(Calls(n, episodes))
    decreases |episodes|
  {
    if episodes != [] {
      var rest, e := episodes[..|episodes| - 1], episodes[|episodes| - 1];
      InvalidHistory(n, rest);
      TraceStopFailed(n, e);
      StopFailedAppend(Calls(n, rest), Trace(n, e));
    }
  }

  /** A group that is not being started or stopped is invalid exactly when some stop of some module has
      ever failed, be it in a shut-down or in the rollback of a failed start. */
  lemma InvalidIff(s: State)
    requires Reachable(s) && s.state != Starting && s.state != Stopping
    ensures s.state == Invalid <==> StopFailed(s.log)
  {
    RefinesEpisodes(s);
    InvalidHistory(s.n, s.episodes);
  }

  predicate InStart(pc: PC) {
    pc.StartLoad? || pc.StartSwap? || pc.StartModule? || (pc.StopModule? && pc.failed.Some?)
  }

  predicate InStop(pc: PC) {
    pc.StopLoad? || pc.StopSwap? || (pc.StopModule? && pc.failed.None?)
  }

  /** The caller ends an episode of its own with this step. */
  predicate Ends(s: State, c: CallerId, s': State) {
    s.active == Some(c) && s'.active == None && |s'.episodes| == |s.episodes| + 1 && s.episodes < s'.episodes
  }

  /** A caller returns without having done anything. */
  predicate DoesNothing(s: State, s': State) {
    s'.state == s.state && s'.log == s.log && s'.episodes == s.episodes && s'.active == s.active
  }

  /** What Start returns, in the step it returns in: nil means that the group runs now, an error of a module
      ends a failed start of its own, and all else changes nothing. */
  lemma StartOutcomes(s: State, c: CallerId, ok: bool)
    requires Reachable(s) && c in s.callers && InStart(s.callers[c])
    ensures var s' := Step(s, c, ok); var pc := s'.callers[c];
      (pc.Returned? ==>
        match pc.outcome
        case Nil => s'.state == Running && (DoesNothing(s, s') || (Ends(s, c, s') && s'.episodes == s.episodes + [StartUp]))
        case ErrStart =>
          Ends(s, c, s') && s'.episodes[|s.episodes|].FailedStart? &&
          s'.state == if AllOk(s'.episodes[|s.episodes|].oks) then Off else Invalid
        case ErrInvalid => s.state == Invalid && DoesNothing(s, s')
        case ErrUnsuitable => s.state != Off && DoesNothing(s, s')
        case ErrStop => false)
  {
    ReachableInv(s);
  }

  /** What Stop returns, in the step it returns in: nil means that the group is off now, an error ends a
      shut-down of its own in which a stop failed, and all else changes nothing. */
  lemma StopOutcomes(s: State, c: CallerId, ok: bool)
    requires Reachable(s) && c in s.callers && InStop(s.callers[c])
    ensures var s' := Step(s, c, ok); var pc := s'.callers[c];
      (pc.Returned? ==>
        match pc.outcome
        case Nil =>
          s'.state == Off &&
          (DoesNothing(s, s') || (Ends(s, c, s') && s'.episodes[|s.episodes|].ShutDown? && AllOk(s'.episodes[|s.episodes|].oks)))
        case ErrStop =>
          Ends(s, c, s') && s'.episodes[|s.episodes|].ShutDown? && !AllOk(s'.episodes[|s.episodes|].oks) && s'.state == Invalid
        case ErrInvalid => s.state == Invalid && DoesNothing(s, s')
        case ErrUnsuitable => s.state != Running && DoesNothing(s, s')
        case ErrStart => false)
  {
    ReachableInv(s);
  }

  /** Every caller is in one of the two calls until it returns. */
  lemma CallsAreStartOrStop(s: State, c: CallerId, ok: bool)
    requires c in s.callers && !s.callers[c].Returned?
    ensures InStart(s.callers[c]) != InStop(s.callers[c])
    ensures var pc := Step(s, c, ok).callers[c]; pc.Returned? || InStart(pc) == InStart(s.callers[c])
  {
  }

  /** A compare-and-swap that fails refuses the call in this very step, and one that succeeds does so exactly in
      off for Start and in running for Stop. */
  lemma SwapDecides(s: State, c: CallerId, ok: bool)
    requires c in s.callers && (s.callers[c] == StartSwap || s.callers[c] == StopSwap)
    ensures var s' := Step(s, c, ok);
      if s.state == (if s.callers[c] == StartSwap then Off else Running) then
        Acts(s'.callers[c]) && s'.active == Some(c) && s'.log == s.log
      else s'.callers[c] == Returned(ErrUnsuitable) && DoesNothing(s, s')
  {
  }

  // ------------------------------------------------------- order of calls

  /** Module `m` may be started, or stopped, right after the call `e` in a group of `n` modules: starts go
      upwards, stops downwards to the first module, and a failed start is stopped itself first. */
  predicate Follows(n: nat, e: Event, start: bool, m: int) {
    match e
    case Started(k, ok) => if ok && k + 1 < n then start && m == k + 1 else !start && m == k
    case Stopped(k, _) => if k > 0 then !start && m == k - 1 else start && m == 0
  }

  predicate MayCome(n: nat, log: seq<Event>, start: bool, m: int) {
    if log == [] then start && m == 0 else Follows(n, log[|log| - 1], start, m)
  }

  predicate InOrder(n: nat, log: seq<Event>) {
    forall k :: 0 <= k < |log| ==> MayCome(n, log[..k], log[k].Started?, log[k].m)
  }

  /** What the caller at `pc` calls next may come next. */
  predicate ReadyAt(n: nat, log: seq<Event>, pc: PC) {
    match pc
    case StartModule(i) => MayCome(n, log, i < n, if i < n then i else n - 1)
    case StopModule(j, _, _) => MayCome(n, log, j < 0, if j < 0 then 0 else j)
    case _ => true
  }

  ghost predicate OrderInv(s: State) {
    && InOrder(s.n, s.log)
    && (s.n > 0 && s.state == Off ==> MayCome(s.n, s.log, true, 0))
    && (s.n > 0 && s.state == Running ==> MayCome(s.n, s.log, false, s.n - 1))
    && (s.n > 0 ==> forall c :: c in s.callers ==> ReadyAt(s.n, s.log, s.callers[c]))
  }

  lemma InOrderSnoc(n: nat, log: seq<Event>, e: Event)
    requires InOrder(n, log) && MayCome(n, log, e.Started?, e.m)
    ensures InOrder(n, log + [e])
  {
    var longer := log + [e];
    forall k | 0 <= k < |longer| ensures MayCome(n, longer[..k], longer[k].Started?, longer[k].m) {
      assert longer[..k] == log[..k];
      assert log[..|log|] == log;
    }
  }

  lemma StepFrame(s: State, c: CallerId, ok: bool)
    requires c in s.callers
    ensures Step(s, c, ok).n == s.n && Step(s, c, ok).callers.Keys == s.callers.Keys
    ensures Step(s, c, ok).callers == s.callers[c := Step(s, c, ok).callers[c]]
  {}

  /** The module call of this step, if there is one. */
  predicate CallsModule(s: State, c: CallerId)
    requires c in s.callers
  {
    var pc := s.callers[c];
    (pc.StartModule? && pc.i < s.n) || (pc.StopModule? && pc.j >= 0)
  }

  lemma CallLogged(s: State, c: CallerId, ok: bool)
    requires c in s.callers && CallsModule(s, c)
    ensures var pc, s' := s.callers[c], Step(s, c, ok);
      && s'.log == s.log + [if pc.StartModule? then Started(pc.i, ok) else Stopped(pc.j, ok)]
      && s'.callers[c] == (if pc.StopModule? then StopModule(pc.j - 1, pc.ok && ok, pc.failed)
                           else if ok then StartModule(pc.i + 1) else StopModule(pc.i, true, Some(pc.i)))
      && s'.state == s.state
  {}

  lemma NoCallLogged(s: State, c: CallerId, ok: bool)
    requires c in s.callers && !CallsModule(s, c)
    ensures Step(s, c, ok).log == s.log
  {}

  lemma ReadyAfter(n: nat, log: seq<Event>, e: Event, pc: PC)
    requires e.Started? ==> e.m < n && pc == if e.ok then StartModule(e.m + 1) else StopModule(e.m, true, Some(e.m))
    requires e.Stopped? ==> pc.StopModule? && pc.j == e.m - 1
    ensures ReadyAt(n, log + [e], pc)
  {}

  lemma OthersIdle(s: State, c: CallerId, d: CallerId)
    requires Inv(s) && c in s.callers && Acts(s.callers[c]) && d in s.callers && d != c
    ensures !Acts(s.callers[d])
  {}

  lemma OrderKept(s: State, c: CallerId, e: Event, s': State)
    requires OrderInv(s) && MayCome(s.n, s.log, e.Started?, e.m) && s'.n == s.n && s'.log == s.log + [e]
    requires s'.state != Off && s'.state != Running && c in s'.callers && ReadyAt(s'.n, s'.log, s'.callers[c])
    requires forall d :: d in s'.callers && d != c ==> !Acts(s'.callers[d])
    ensures OrderInv(s')
  {
    InOrderSnoc(s.n, s.log, e);
  }

  /** A module call comes in its order, and what follows it is in order, too. */
  lemma CallInOrder(s: State, c: CallerId, ok: bool)
    requires Inv(s) && OrderInv(s) && c in s.callers && CallsModule(s, c)
    ensures OrderInv(Step(s, c, ok))
  {
    var pc, s' := s.callers[c], Step(s, c, ok);
    var e := if pc.StartModule? then Started(pc.i, ok) else Stopped(pc.j, ok);
    StepFrame(s, c, ok);
    CallLogged(s, c, ok);
    assert ReadyAt(s.n, s.log, pc);
    ReadyAfter(s.n, s.log, e, s'.callers[c]);
    forall d | d in s'.callers && d != c ensures !Acts(s'.callers[d]) {
      OthersIdle(s, c, d);
    }
    OrderKept(s, c, e, s');
  }

  lemma StepInOrder(s: State, c: CallerId, ok: bool)
    requires Inv(s) && OrderInv(s) && c in s.callers && !CallsModule(s, c)
    ensures OrderInv(Step(s, c, ok))
  {
    StepFrame(s, c, ok);
    NoCallLogged(s, c, ok);
    if s.n > 0 {
      NextInOrder(s, c, ok, Step(s, c, ok));
    }
  }

  /** Where no module is called, the next call is as much in order as before. */
  lemma NextInOrder(s: State, c: CallerId, ok: bool, s': State)
    requires Inv(s) && OrderInv(s) && s.n > 0 && c in s.callers && !CallsModule(s, c)
    requires s' == Step(s, c, ok) && c in s'.callers
    ensures
      && ReadyAt(s.n, s.log, s'.callers[c])
      && (s'.state == Off ==> MayCome(s.n, s.log, true, 0))
      && (s'.state == Running ==> MayCome(s.n, s.log, false, s.n - 1))
  {
    assert ReadyAt(s.n, s.log, s.callers[c]);
  }

  lemma {:induction false} RunsInOrder(s: State, schedule: seq<Action>, s': State)
    requires Inv(s) && OrderInv(s) && Runs(s, schedule, s')
    ensures OrderInv(s')
    decreases |schedule|
  {
    if schedule != [] {
      var a := schedule[0];
      DoInv(s, a);
      if a.Go? && CallsModule(s, a.c) {
        CallInOrder(s, a.c, a.ok);
      } else if a.Go? {
        StepInOrder(s, a.c, a.ok);
      }
      RunsInOrder(Do(s, a), schedule[1..], s');
    }
  }

  /** Whoever calls Start and Stop and whatever fails, from one module call to the next the order is kept. */
  lemma CallOrder(s: State, k: nat)
    requires Reachable(s) && k < |s.log|
    ensures k == 0 ==> s.log[0].Started? && s.log[0].m == 0
    ensures k > 0 ==> Follows(s.n, s.log[k - 1], s.log[k].Started?, s.log[k].m)
  {
    var init, schedule :| Init(init) && Runs(init, schedule, s);
    RunsInOrder(init, schedule, s);
    assert MayCome(s.n, s.log[..k], s.log[k].Started?, s.log[k].m);
  }

  // ------------------------------------------------------------- progress

  lemma {:induction false} Chain(s: State, a: seq<Action>, mid: State, b: seq<Action>, s': State)
    requires Runs(s, a, mid) && Runs(mid, b, s')
    ensures Runs(s, a + b, s')
    decreases |a|
  {
    if a == [] {
      assert a + b == b;
    } else {
      Chain(Do(s, a[0]), a[1..], mid, b, s');
      assert (a + b)[1..] == a[1..] + b;
    }
  }

  lemma ChainBy(c: CallerId, s: State, a: seq<Action>, mid: State, b: seq<Action>, s': State)
    requires Runs(s, a, mid) && OnlyBy(c, a) && Runs(mid, b, s') && OnlyBy(c, b)
    ensures Runs(s, a + b, s') && OnlyBy(c, a + b)
  {
    Chain(s, a, mid, b, s');
  }

  lemma OneStep(s: State, a: Action)
    requires Can(s, a)
    ensures Runs(s, [a], Do(s, a))
  {
    var s' := Do(s, a);
    assert [a][1..] == [] && Runs(s', [], s');
  }

  lemma StillReachable(s: State, schedule: seq<Action>, s': State)
    requires Reachable(s) && Runs(s, schedule, s')
    ensures Reachable(s')
  {
    var init, before :| Init(init) && Runs(init, before, s);
    Chain(init, before, s, schedule, s');
  }

  /** Steps a call has left at most in a group of `n` modules. */
  function StepsLeft(pc: PC, n: nat): int {
    match pc
    case StartLoad => 2 * n + 3
    case StartSwap => 2 * n + 2
    case StartModule(i) => 2 * n + 1 - i
    case StopModule(j, _, _) => j + 2
    case StopLoad => n + 3
    case StopSwap => n + 2
    case Returned(_) => 0
  }

  /** A call has few steps left, and none exactly when it has returned; until then nothing blocks it. */
  lemma StepsBounded(s: State, c: CallerId)
    requires Reachable(s) && c in s.callers
    ensures 0 <= StepsLeft(s.callers[c], s.n) <= 2 * s.n + 3
    ensures StepsLeft(s.callers[c], s.n) == 0 <==> s.callers[c].Returned?
    ensures s.callers[c].Returned? || Can(s, Go(c, true))
  {
    ReachableInv(s);
  }

  lemma StepFewer(s: State, c: CallerId, ok: bool)
    requires c in s.callers && !s.callers[c].Returned?
    requires s.callers[c].StartModule? ==> s.callers[c].i <= s.n
    requires s.callers[c].StopModule? ==> s.callers[c].j >= -1
    ensures c in Step(s, c, ok).callers && StepsLeft(Step(s, c, ok).callers[c], s.n) < StepsLeft(s.callers[c], s.n)
  {}

  /** Only steps of its own move a call, and each of them brings it closer to its return. */
  lemma StepsForward(s: State, a: Action, c: CallerId)
    requires Reachable(s) && Can(s, a) && c in s.callers
    ensures c in Do(s, a).callers && Do(s, a).n == s.n
    ensures if a.Go? && a.c == c then StepsLeft(Do(s, a).callers[c], s.n) < StepsLeft(s.callers[c], s.n)
            else Do(s, a).callers[c] == s.callers[c]
  {
    ReachableInv(s);
    if a.Go? {
      StepFrame(s, a.c, a.ok);
      if a.c == c {
        StepFewer(s, c, a.ok);
      }
    }
  }

  /** Steps of caller `c` in a schedule. */
  function OwnSteps(c: CallerId, schedule: seq<Action>): nat {
    if schedule == [] then 0
    else (if schedule[0].Go? && schedule[0].c == c then 1 else 0) + OwnSteps(c, schedule[1..])
  }

  /** Whatever the others do, a call takes a bounded number of steps, and it has returned when they are taken. */
  lemma {:induction false} CallsReturn(s: State, schedule: seq<Action>, s': State, c: CallerId)
    requires Reachable(s) && c in s.callers && Runs(s, schedule, s')
    ensures c in s'.callers && s'.n == s.n && OwnSteps(c, schedule) <= 2 * s.n + 3
    ensures StepsLeft(s'.callers[c], s.n) <= StepsLeft(s.callers[c], s.n) - OwnSteps(c, schedule)
    ensures OwnSteps(c, schedule) >= StepsLeft(s.callers[c], s.n) ==> s'.callers[c].Returned?
    decreases |schedule|
  {
    StepsBounded(s, c);
    if schedule != [] {
      var next := Do(s, schedule[0]);
      StepsForward(s, schedule[0], c);
      OneStep(s, schedule[0]);
      StillReachable(s, [schedule[0]], next);
      CallsReturn(next, schedule[1..], s', c);
      StillReachable(s, schedule, s');
      StepsBounded(s', c);
    }
  }

  // --------------------------------------------------- every history happens

  /** Only `c` takes steps. */
  predicate OnlyBy(c: CallerId, schedule: seq<Action>) {
    forall i :: 0 <= i < |schedule| ==> schedule[i].c == c
  }

  /** A group in a stable state answers a call that has nothing to do, or cannot do it, at once. */
  lemma AnswersAtOnce(s: State, c: CallerId, start: bool) returns (schedule: seq<Action>, s': State)
    requires Reachable(s) && c !in s.callers && s.state != if start then Off else Running
    ensures Runs(s, schedule, s') && |schedule| <= 3 && OnlyBy(c, schedule) && DoesNothing(s, s')
    ensures s'.callers == s.callers[c := Returned(
              if s.state == (if start then Running else Off) then Nil
              else if s.state == Invalid then ErrInvalid
              else ErrUnsuitable)]
  {
    var called := Do(s, Call(c, start));
    var loaded := Do(called, Go(c, true));
    OneStep(s, Call(c, start));
    OneStep(called, Go(c, true));
    ChainBy(c, s, [Call(c, start)], called, [Go(c, true)], loaded);
    schedule, s' := [Call(c, start)] + [Go(c, true)], loaded;
    if !loaded.callers[c].Returned? {
      s' := Do(loaded, Go(c, true));
      OneStep(loaded, Go(c, true));
      ChainBy(c, s, schedule, loaded, [Go(c, true)], s');
      schedule := schedule + [Go(c, true)];
    }
  }

  /** A caller alone gets into its episode. */
  lemma Enter(s: State, c: CallerId, start: bool) returns (schedule: seq<Action>, s': State)
    requires c !in s.callers && s.state == if start then Off else Running
    ensures Runs(s, schedule, s') && OnlyBy(c, schedule)
    ensures var pc := if start then StartModule(0) else StopModule(s.n - 1, true, None);
      s' == Goto(s, c, pc).(state := if start then Starting else Stopping, active := Some(c), oks := [])
  {
    var called := Do(s, Call(c, start));
    var loaded := Do(called, Go(c, true));
    s' := Do(loaded, Go(c, true));
    OneStep(s, Call(c, start));
    OneStep(called, Go(c, true));
    OneStep(loaded, Go(c, true));
    ChainBy(c, s, [Call(c, start)], called, [Go(c, true)], loaded);
    schedule := [Call(c, start)] + [Go(c, true)];
    ChainBy(c, s, schedule, loaded, [Go(c, true)], s');
    schedule := schedule + [Go(c, true)];
  }

  /** `k` modules are started with success. */
  lemma {:induction false} StartSome(s: State, c: CallerId, i: nat, k: nat)
      returns (schedule: seq<Action>, s': State)
    requires c in s.callers && s.callers[c] == StartModule(i) && i + k <= s.n
    ensures Runs(s, schedule, s') && OnlyBy(c, schedule)
    ensures s' == Goto(s, c, StartModule(i + k)).(log := s'.log)
    decreases k
  {
    if k == 0 {
      schedule, s' := [], s;
    } else {
      var next := Do(s, Go(c, true));
      var rest;
      rest, s' := StartSome(next, c, i + 1, k - 1);
      OneStep(s, Go(c, true));
      ChainBy(c, s, [Go(c, true)], next, rest, s');
      schedule := [Go(c, true)] + rest;
    }
  }

  /** Modules are stopped with these outcomes. */
  lemma {:induction false} StopSome(s: State, c: CallerId, oks: seq<bool>) returns (schedule: seq<Action>, s': State)
    requires c in s.callers && s.callers[c].StopModule? && |oks| <= s.callers[c].j + 1
    ensures Runs(s, schedule, s') && OnlyBy(c, schedule)
    ensures var pc := s.callers[c];
      s' == Goto(s, c, StopModule(pc.j - |oks|, pc.ok && AllOk(oks), pc.failed)).(oks := s.oks + oks, log := s'.log)
    decreases |oks|
  {
    if oks == [] {
      schedule, s' := [], s;
    } else {
      var next := Do(s, Go(c, oks[0]));
      var rest;
      rest, s' := StopSome(next, c, oks[1..]);
      OneStep(s, Go(c, oks[0]));
      ChainBy(c, s, [Go(c, oks[0])], next, rest, s');
      schedule := [Go(c, oks[0])] + rest;
      assert s.oks + [oks[0]] + oks[1..] == s.oks + oks;
      assert AllOk(oks) <==> oks[0] && AllOk(oks[1..]) by {
        assert oks == [oks[0]] + oks[1..];
      }
    }
  }

  /** What the call that runs an episode returns. */
  function OutcomeOf(e: Episode): Outcome {
    match e
    case StartUp => Nil
    case FailedStart(_, _) => ErrStart
    case ShutDown(oks) => if AllOk(oks) then Nil else ErrStop
  }

  /** Where the call stands when only the end of its episode is left. */
  function LastPC(n: nat, e: Episode): PC {
    match e
    case StartUp => StartModule(n)
    case FailedStart(failed, oks) => StopModule(-1, AllOk(oks), Some(failed))
    case ShutDown(oks) => StopModule(-1, AllOk(oks), None)
  }

  lemma RunModules(s: State, c: CallerId, e: Episode) returns (schedule: seq<Action>, s': State)
    requires c !in s.callers && WellFormed(s.n, e) && After(s.state, e).Some?
    ensures Runs(s, schedule, s') && OnlyBy(c, schedule)
    ensures s'.callers == s.callers[c := LastPC(s.n, e)] && s'.n == s.n && s'.episodes == s.episodes
    ensures e.StartUp? || s'.oks == e.oks
  {
    var entered, a, b;
    a, entered := Enter(s, c, !e.ShutDown?);
    if e.StartUp? {
      b, s' := StartSome(entered, c, 0, s.n);
    } else if e.ShutDown? {
      b, s' := StopSome(entered, c, e.oks);
      assert [] + e.oks == e.oks;
    } else {
      b, s' := FailAt(entered, c, e.failed, e.oks);
    }
    ChainBy(c, s, a, entered, b, s');
    schedule := a + b;
  }

  lemma LastStep(s: State, c: CallerId, e: Episode)
    requires c in s.callers && s.callers[c] == LastPC(s.n, e) && (e.StartUp? || s.oks == e.oks)
    ensures var s' := Step(s, c, true);
      && s'.callers == s.callers[c := Returned(OutcomeOf(e))] && s'.episodes == s.episodes + [e] && s'.n == s.n
      && (s'.state == Off || s'.state == Running || s'.state == Invalid)
  {}

  lemma OneMore(s: State, e: Episode, s': State)
    requires Reachable(s) && s.state != Starting && s.state != Stopping
    requires Reachable(s') && s'.state != Starting && s'.state != Stopping
    requires WellFormed(s.n, e) && After(s.state, e).Some? && s'.n == s.n && s'.episodes == s.episodes + [e]
    ensures After(s.state, e) == Some(s'.state) && s'.log == s.log + Trace(s.n, e)
  {
    RefinesEpisodes(s);
    RefinesEpisodes(s');
    Closed(s.n, s.episodes, e);
  }

  /** A lone caller gets through every episode that is possible at all, with the outcome of that episode. */
  lemma LoneCall(s: State, c: CallerId, e: Episode) returns (schedule: seq<Action>, s': State)
    requires Reachable(s) && c !in s.callers && s.state != Starting && s.state != Stopping
    requires WellFormed(s.n, e) && After(s.state, e).Some?
    ensures Runs(s, schedule, s') && OnlyBy(c, schedule)
    ensures s'.n == s.n && After(s.state, e) == Some(s'.state) && s'.episodes == s.episodes + [e]
    ensures s'.callers == s.callers[c := Returned(OutcomeOf(e))] && s'.log == s.log + Trace(s.n, e)
  {
    var before, ended := RunModules(s, c, e);
    s' := Step(ended, c, true);
    LastStep(ended, c, e);
    OneStep(ended, Go(c, true));
    ChainBy(c, s, before, ended, [Go(c, true)], s');
    schedule := before + [Go(c, true)];
    StillReachable(s, schedule, s');
    OneMore(s, e, s');
  }

  lemma FailAt(s: State, c: CallerId, failed: nat, oks: seq<bool>) returns (schedule: seq<Action>, s': State)
    requires c in s.callers && s.callers[c] == StartModule(0) && failed < s.n && |oks| == failed + 1 && s.oks == []
    ensures Runs(s, schedule, s') && OnlyBy(c, schedule)
    ensures s'.callers == s.callers[c := StopModule(-1, AllOk(oks), Some(failed))]
    ensures s'.n == s.n && s'.episodes == s.episodes && s'.oks == oks
  {
    var a, started := StartSome(s, c, 0, failed);
    var next := Do(started, Go(c, false));
    OneStep(started, Go(c, false));
    ChainBy(c, s, a, started, [Go(c, false)], next);
    var b;
    b, s' := StopSome(next, c, oks);
    ChainBy(c, s, a + [Go(c, false)], next, b, s');
    schedule := a + [Go(c, false)] + b;
    assert [] + oks == oks;
  }

  /** The module calls one by one. */
  lemma LoneStart(s: State, c: CallerId) returns (schedule: seq<Action>, s': State)
    requires Reachable(s) && c !in s.callers && s.state == Off
    ensures Runs(s, schedule, s') && OnlyBy(c, schedule)
    ensures s'.state == Running && s'.callers == s.callers[c := Returned(Nil)]
    ensures |s'.log| == |s.log| + s.n && s.log <= s'.log
    ensures forall i :: 0 <= i < s.n ==> s'.log[|s.log| + i] == Started(i, true)
  {
    schedule, s' := LoneCall(s, c, StartUp);
  }

  /** Every possible history of episodes does happen: the refinement is exact. */
  lemma {:induction false} EveryHistoryHappens(n: nat, episodes: seq<Episode>) returns (s: State)
    requires StateAfter(n, episodes).Some?
    ensures Reachable(s) && s.n == n && s.episodes == episodes && s.log == Calls(n, episodes)
    ensures StateAfter(n, episodes) == Some(s.state) && s.active == None
    ensures forall c :: c in s.callers ==> c < |episodes|
    decreases |episodes|
  {
    if episodes == [] {
      s := Beginning(n);
    } else {
      var k := |episodes| - 1;
      LastPossible(n, episodes[..k], episodes[k], episodes);
      var before := EveryHistoryHappens(n, episodes[..k]);
      s := OneMoreHappens(before, k, episodes[k]);
    }
  }

  lemma LastPossible(n: nat, rest: seq<Episode>, e: Episode, episodes: seq<Episode>)
    requires episodes != [] && rest == episodes[..|episodes| - 1] && e == episodes[|episodes| - 1]
    requires StateAfter(n, episodes).Some?
    ensures StateAfter(n, rest).Some? && WellFormed(n, e) && After(StateAfter(n, rest).value, e).Some?
    ensures rest + [e] == episodes
  {
  }

  lemma Beginning(n: nat) returns (s: State)
    ensures Reachable(s) && s == State(n, Off, map[], [], [], [], None)
  {
    s := State(n, Off, map[], [], [], [], None);
    assert Init(s) && Runs(s, [], s);
  }

  lemma OneMoreHappens(before: State, k: nat, e: Episode) returns (s: State)
    requires Reachable(before) && before.active == None && forall c :: c in before.callers ==> c < k
    requires WellFormed(before.n, e) && After(before.state, e).Some?
    ensures Reachable(s) && s.n == before.n && s.episodes == before.episodes + [e]
    ensures s.active == None && StateAfter(s.n, s.episodes) == Some(s.state) && s.log == Calls(s.n, s.episodes)
    ensures forall c :: c in s.callers ==> c < k + 1
  {
    var schedule;
    schedule, s := LoneCall(before, k, e);
    StillReachable(before, schedule, s);
    Settled(s);
  }

  /** In a stable state nobody is in an episode. */
  lemma Settled(s: State)
    requires Reachable(s) && s.state != Starting && s.state != Stopping
    ensures s.active == None && StateAfter(s.n, s.episodes) == Some(s.state) && s.log == Calls(s.n, s.episodes)
  {
    ReachableInv(s);
  }
}
