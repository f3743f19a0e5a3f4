/** Cached config getters and the setters that invalidate them (base/config/get.go, get-safe.go, set.go,
  release.go), as a transition system over any number of getters and setters. */
module ConfigGetters {
  import opened Common
  import opened ConfigStore

  type Id = nat

  const RELEASE_KEY := "core/releaseLevel"

  datatype Opt = Opt(
    optType: OptType,
    releaseLevel: nat,
    active: Option<ValueCache>,
    default: Option<ValueCache>,
    fallback: ValueCache)

  /** Between Lock and Unlock a setter holds the lock of an option; `changed` tells whether it wrote. */
  datatype SetterPc =
    | Rest
    | Open
    | Locked(key: string)
    | Decided(key: string, changed: bool)
    | Updated(key: string)
    | Swapping

  datatype GetterPc =
    | Idle
    | NeedFlag
    | NeedValue
    | HasLevel(level: nat)

  /** A getter closure: the flag it holds and the value it caches; no cached value stands for the fallback
      passed by its creator. Its calls do not overlap. */
  datatype Getter = Getter(key: string, want: OptType, pc: GetterPc, flag: nat, cached: Option<ValueCache>)

  datatype Owner = Free | BySetter(id: Id) | ByGetter(id: Id)

  /** Flags are numbered; only the newest one can be set, and `swapper` holds the lock around it.
      `dirty` records the setters that changed something and have not yet reset the flag. */
  datatype State = State(
    options: map<string, Opt>,
    level: nat,
    owner: map<string, Owner>,
    epoch: nat,
    swapper: Option<Id>,
    setters: map<Id, SetterPc>,
    getters: map<Id, Getter>,
    dirty: set<Id>)

  datatype Action =
    | Begin(t: Id)
    | Lock(t: Id, key: string)
    | Write(t: Id, user: bool, value: Option<ValueCache>)
    | Reject(t: Id)
    | Update(t: Id)
    | Unlock(t: Id)
    | Quit(t: Id)
    | Reset(t: Id)
    | Swap(t: Id)
    | Check(g: Id)
    | TakeFlag(g: Id)
    | TakeLevel(g: Id)
    | Read(g: Id)

  // ------------------------------------------------------- release level

  function LevelNamed(name: string): nat {
    if name == "beta" then 1 else if name == "experimental" then 2 else 0
  }

  /** updateReleaseLevel */
  function LevelOf(o: Opt): nat {
    LevelNamed(
      if o.default.Some? then o.default.value.stringVal
      else if o.active.Some? then o.active.value.stringVal
      else o.fallback.stringVal)
  }

  /** getValueCache */
  function Resolve(options: map<string, Opt>, level: nat, key: string, want: OptType): Option<ValueCache> {
    if key !in options || options[key].optType != want then None
    else
      var o := options[key];
      if o.releaseLevel <= level && o.active.Some? then o.active
      else if o.default.Some? then o.default
      else Some(o.fallback)
  }

  function Resolved(s: State, g: Getter): Option<ValueCache> {
    Resolve(s.options, s.level, g.key, g.want)
  }

  // ------------------------------------------------------------- the steps

  /** The getter finds its option, so it takes the lock of the option. */
  predicate Finds(s: State, g: Getter) {
    g.key in s.options && s.options[g.key].optType == g.want
  }

  predicate IsSet(s: State, flag: nat) {
    flag == s.epoch && s.swapper.None?
  }

  predicate Can(s: State, a: Action) {
    match a
    case Begin(t) => t in s.setters && s.setters[t].Rest?
    case Lock(t, key) => t in s.setters && s.setters[t].Open? && key in s.options && key in s.owner && s.owner[key].Free?
    case Write(t, _, _) => t in s.setters && s.setters[t].Locked? && s.setters[t].key in s.options
    case Reject(t) => t in s.setters && s.setters[t].Locked?
    case Update(t) => t in s.setters && s.setters[t].Decided? && s.setters[t].key in s.options
    case Unlock(t) => t in s.setters && s.setters[t].Updated?
    case Quit(t) => t in s.setters && s.setters[t].Open? && t !in s.dirty
    case Reset(t) => t in s.setters && s.setters[t].Open? && s.swapper.None?
    case Swap(t) => t in s.setters && s.setters[t].Swapping?
    case Check(g) => g in s.getters && s.getters[g].pc.Idle?
    case TakeFlag(g) => g in s.getters && s.getters[g].pc.NeedFlag? && s.swapper.None?
    case TakeLevel(g) =>
      g in s.getters && s.getters[g].pc.NeedValue? &&
      (Finds(s, s.getters[g]) ==> s.getters[g].key in s.owner && s.owner[s.getters[g].key].Free?)
    case Read(g) => g in s.getters && s.getters[g].pc.HasLevel?
  }

  function Do(s: State, a: Action): State
    requires Can(s, a)
  {
    match a
    case Begin(t) => s.(setters := s.setters[t := Open])
    case Lock(t, key) => s.(setters := s.setters[t := Locked(key)], owner := s.owner[key := BySetter(t)])
    case Write(t, user, value) =>
      var key := s.setters[t].key;
      var o := s.options[key];
      s.(options := s.options[key := if user then o.(active := value) else o.(default := value)],
         setters := s.setters[t := Decided(key, true)],
         dirty := s.dirty + {t})
    case Reject(t) => s.(setters := s.setters[t := Decided(s.setters[t].key, false)])
    case Update(t) =>
      var key := s.setters[t].key;
      s.(level := if key == RELEASE_KEY then LevelOf(s.options[key]) else s.level,
         setters := s.setters[t := Updated(key)])
    case Unlock(t) =>
      s.(owner := s.owner[s.setters[t].key := Free], setters := s.setters[t := Open])
    case Quit(t) => s.(setters := s.setters[t := Rest])
    case Reset(t) => s.(swapper := Some(t), setters := s.setters[t := Swapping], dirty := s.dirty - {t})
    case Swap(t) => s.(swapper := None, epoch := s.epoch + 1, setters := s.setters[t := Rest])
    case Check(g) =>
      if IsSet(s, s.getters[g].flag) then s else s.(getters := s.getters[g := s.getters[g].(pc := NeedFlag)])
    case TakeFlag(g) => s.(getters := s.getters[g := s.getters[g].(pc := NeedValue, flag := s.epoch)])
    case TakeLevel(g) =>
      var c := s.getters[g];
      s.(getters := s.getters[g := c.(pc := HasLevel(s.level))],
         owner := if Finds(s, c) then s.owner[c.key := ByGetter(g)] else s.owner)
    case Read(g) =>
      var c := s.getters[g];
      s.(getters := s.getters[g := c.(pc := Idle, cached := Resolve(s.options, c.pc.level, c.key, c.want))],
         owner := if Finds(s, c) then s.owner[c.key := Free] else s.owner)
  }

  /** All options are registered, nobody is at work, and every getter is yet to take its first value. */
  ghost predicate Init(s: State) {
    && RELEASE_KEY in s.options && s.level == LevelOf(s.options[RELEASE_KEY])
    && s.owner == (map k | k in s.options :: Free)
    && s.swapper.None? && s.dirty == {}
    && (forall t :: t in s.setters ==> s.setters[t].Rest?)
    && (forall g :: g in s.getters ==> s.getters[g].pc.NeedFlag? && s.getters[g].flag <= s.epoch)
  }

  ghost predicate Runs(s: State, schedule: seq<Action>, s': State)
    decreases schedule
  {
    if schedule == [] then s == s'
    else Can(s, schedule[0]) && Runs(Do(s, schedule[0]), schedule[1..], s')
  }

  ghost predicate Reachable(s: State) {
    exists init, schedule :: Init(init) && Runs(init, schedule, s)
  }

  // ----------------------------------------------------------- invariant

  /** The setter of the release level option is between its write and the update of the level. */
  predicate LevelPending(s: State) {
    && RELEASE_KEY in s.owner && s.owner[RELEASE_KEY].BySetter?
    && s.owner[RELEASE_KEY].id in s.setters && s.setters[s.owner[RELEASE_KEY].id] == Decided(RELEASE_KEY, true)
  }

  predicate LevelInv(s: State) {
    RELEASE_KEY in s.options && (LevelPending(s) || s.level == LevelOf(s.options[RELEASE_KEY]))
  }

  /** What a setter at work holds. */
  predicate SetterInv(s: State, t: Id) {
    t in s.setters ==>
      match s.setters[t]
      case Locked(key) => key in s.owner && s.owner[key] == BySetter(t)
      case Decided(key, changed) => key in s.owner && s.owner[key] == BySetter(t) && (changed ==> t in s.dirty)
      case Updated(key) => key in s.owner && s.owner[key] == BySetter(t)
      case Swapping => s.swapper == Some(t) && t !in s.dirty
      case Rest => t !in s.dirty
      case Open => true
  }

  /** A getter with a set flag caches the resolved value, unless a setter is yet to reset the flag. */
  predicate GetterInv(s: State, g: Id) {
    g in s.getters ==>
      var c := s.getters[g];
      && c.flag <= s.epoch
      && (IsSet(s, c.flag) && s.dirty == {} ==>
            (c.pc.Idle? ==> c.cached == Resolved(s, c)) && (c.pc.HasLevel? ==> c.pc.level == s.level))
      && (c.pc.HasLevel? && Finds(s, c) ==> c.key in s.owner && s.owner[c.key] == ByGetter(g))
  }

  /** A getter holds the lock of an option only while it reads it. */
  predicate LockInv(s: State, key: string) {
    key in s.owner && s.owner[key].ByGetter? ==>
      var h := s.owner[key].id;
      h in s.getters && s.getters[h].pc.HasLevel? && s.getters[h].key == key && Finds(s, s.getters[h])
  }

  ghost predicate Inv(s: State) {
    && s.owner.Keys == s.options.Keys
    && (forall key :: LockInv(s, key))
    && LevelInv(s)
    && (forall t :: SetterInv(s, t))
    && (forall g :: GetterInv(s, g))
  }

  lemma KeepsGetter(s: State, a: Action, g: Id)
    requires Inv(s) && Can(s, a)
    ensures GetterInv(Do(s, a), g)
  {
    assert GetterInv(s, g);
    match a {
      case Write(t, _, _) => assert t in Do(s, a).dirty && SetterInv(s, t);
      case Update(t) => assert SetterInv(s, t);
      case Unlock(t) => assert SetterInv(s, t);
      case TakeLevel(h) => assert GetterInv(s, h);
      case Read(h) => assert GetterInv(s, h);
      case _ =>
    }
  }

  lemma KeepsSetter(s: State, a: Action, t: Id)
    requires Inv(s) && Can(s, a)
    ensures SetterInv(Do(s, a), t)
  {
    assert SetterInv(s, t);
    match a {
      case Unlock(u) => assert SetterInv(s, u);
      case Swap(u) => assert SetterInv(s, u);
      case Read(g) => assert GetterInv(s, g);
      case _ =>
    }
  }

  lemma KeepsLevel(s: State, a: Action)
    requires Inv(s) && Can(s, a)
    ensures Do(s, a).owner.Keys == Do(s, a).options.Keys && LevelInv(Do(s, a))
  {
    match a {
      case Write(t, _, _) => assert SetterInv(s, t);
      case Reject(t) => assert SetterInv(s, t);
      case Update(t) => assert SetterInv(s, t);
      case Unlock(t) => assert SetterInv(s, t);
      case Read(g) => assert GetterInv(s, g);
      case _ =>
    }
  }

  lemma KeepsLock(s: State, a: Action, key: string)
    requires Inv(s) && Can(s, a)
    ensures LockInv(Do(s, a), key)
  {
    assert LockInv(s, key);
    match a {
      case Unlock(t) => assert SetterInv(s, t);
      case Read(g) => assert GetterInv(s, g);
      case _ =>
    }
  }

  lemma StepInv(s: State, a: Action)
    requires Inv(s) && Can(s, a)
    ensures Inv(Do(s, a))
  {
    KeepsLevel(s, a);
    forall key ensures LockInv(Do(s, a), key) { KeepsLock(s, a, key); }
    forall t ensures SetterInv(Do(s, a), t) { KeepsSetter(s, a, t); }
    forall g ensures GetterInv(Do(s, a), g) { KeepsGetter(s, a, g); }
  }

  lemma {:induction false} RunsInv(s: State, schedule: seq<Action>, s': State)
    requires Inv(s) && Runs(s, schedule, s')
    ensures Inv(s')
    decreases schedule
  {
    if schedule != [] {
      StepInv(s, schedule[0]);
      RunsInv(Do(s, schedule[0]), schedule[1..], s');
    }
  }

  lemma ReachableInv(s: State)
    requires Reachable(s)
    ensures Inv(s)
  {
    var init, schedule :| Init(init) && Runs(init, schedule, s);
    RunsInv(init, schedule, s);
  }

  // ------------------------------------------------------------ theorems

  /** In every interleaving: a getter that sees its flag set returns the resolved value, unless some
      setter has changed something and not reset the flag yet. */
  lemma CachedAgrees(s: State, g: Id)
    requires Reachable(s) && g in s.getters && s.getters[g].pc.Idle?
    requires IsSet(s, s.getters[g].flag) && s.dirty == {}
    ensures s.getters[g].cached == Resolved(s, s.getters[g])
  {
    ReachableInv(s);
    assert GetterInv(s, g);
  }

  predicate GetterStep(a: Action) {
    a.Check? || a.TakeFlag? || a.TakeLevel? || a.Read?
  }

  /** The step ends a call of the getter, which returns the cached value. */
  predicate Returns(s: State, a: Action, g: Id) {
    g in s.getters && (a == Read(g) || (a == Check(g) && IsSet(s, s.getters[g].flag)))
  }

  /** What a getter may be doing when no setter takes a step since `s0` and its call began after `s0`. */
  predicate Fresh(s0: State, s: State, g: Id) {
    && s.options == s0.options && s.level == s0.level && s.epoch == s0.epoch && s.swapper == s0.swapper
    && s.dirty == s0.dirty
    && g in s0.getters && g in s.getters
    && s.getters[g].key == s0.getters[g].key && s.getters[g].want == s0.getters[g].want
    && (s.getters[g].pc.NeedValue? || s.getters[g].pc.HasLevel? ==> s.getters[g].flag == s.epoch)
  }

  lemma {:induction false} GettersStayFresh(s0: State, s: State, schedule: seq<Action>, s': State, g: Id)
    requires Fresh(s0, s, g) && Runs(s, schedule, s') && forall i :: 0 <= i < |schedule| ==> GetterStep(schedule[i])
    ensures Fresh(s0, s', g)
    decreases schedule
  {
    if schedule != [] {
      assert GetterStep(schedule[0]);
      GettersStayFresh(s0, Do(s, schedule[0]), schedule[1..], s', g);
    }
  }

  /** From `s` on no setter takes a step, and step `a` after the schedule ends a call of getter `g` that had not
      begun in `s`. */
  ghost predicate Quiet(s: State, schedule: seq<Action>, s': State, a: Action, g: Id) {
    && s.dirty == {} && s.swapper.None?
    && g in s.getters && (s.getters[g].pc.Idle? || s.getters[g].pc.NeedFlag?)
    && Runs(s, schedule, s') && (forall i :: 0 <= i < |schedule| ==> GetterStep(schedule[i]))
    && Can(s', a) && Returns(s', a, g)
  }

  /** With no setter in between, whatever the other getters do, a call that starts when every change has
      been signalled returns exactly what getValueCache resolves. */
  lemma QuietCall(s: State, schedule: seq<Action>, s': State, a: Action, g: Id)
    requires Reachable(s) && Quiet(s, schedule, s', a, g)
    ensures Do(s', a).getters[g].cached == Resolved(s, s.getters[g])
  {
    ReachableInv(s);
    GettersStayFresh(s, s, schedule, s', g);
    RunsInv(s, schedule, s');
    assert GetterInv(s', g);
  }

  /** What such a call returns: nothing of its own for a missing option or another type, the user value only if one
      is set and the release level admits the option, else the default if there is one, else the fallback. */
  lemma QuietCallReturns(s: State, schedule: seq<Action>, s': State, a: Action, g: Id)
    requires Reachable(s) && Quiet(s, schedule, s', a, g)
    ensures var key := s.getters[g].key; var value := Do(s', a).getters[g].cached;
      && (key !in s.options || s.options[key].optType != s.getters[g].want ==> value.None?)
      && (key in s.options && s.options[key].optType == s.getters[g].want ==>
            var o := s.options[key];
            && (o.active.Some? && o.releaseLevel <= s.level ==> value == o.active)
            && ((o.active.None? || o.releaseLevel > s.level) && o.default.Some? ==> value == o.default)
            && ((o.active.None? || o.releaseLevel > s.level) && o.default.None? ==> value == Some(o.fallback)))
  {
    QuietCall(s, schedule, s', a, g);
  }

  /** The call does end: unless a setter holds the lock of the option or is exchanging the flag, the getter
      can go on until it returns, at most after another getter that is just reading the option. */
  lemma QuietCallEnds(s: State, g: Id) returns (schedule: seq<Action>, s': State, a: Action)
    requires Reachable(s) && s.swapper.None? && g in s.getters
    requires s.getters[g].pc.Idle? || s.getters[g].pc.NeedFlag?
    requires s.getters[g].key in s.owner ==> !s.owner[s.getters[g].key].BySetter?
    ensures Runs(s, schedule, s') && forall i :: 0 <= i < |schedule| ==> GetterStep(schedule[i])
    ensures Can(s', a) && Returns(s', a, g)
  {
    ReachableInv(s);
    var key := s.getters[g].key;
    if key in s.owner && s.owner[key].ByGetter? {
      assert LockInv(s, key);
      var h := s.owner[key].id;
      StepInv(s, Read(h));
      var rest;
      rest, s', a := FreeCallEnds(Do(s, Read(h)), g);
      schedule := [Read(h)] + rest;
      assert schedule[1..] == rest;
    } else {
      schedule, s', a := FreeCallEnds(s, g);
    }
  }

  lemma FreeCallEnds(s: State, g: Id) returns (schedule: seq<Action>, s': State, a: Action)
    requires Inv(s) && s.swapper.None? && g in s.getters
    requires s.getters[g].pc.Idle? || s.getters[g].pc.NeedFlag?
    requires s.getters[g].key in s.owner ==> s.owner[s.getters[g].key].Free?
    ensures Runs(s, schedule, s') && forall i :: 0 <= i < |schedule| ==> GetterStep(schedule[i])
    ensures Can(s', a) && Returns(s', a, g)
  {
    var c := s.getters[g];
    if c.pc.NeedFlag? {
      schedule, a := [TakeFlag(g), TakeLevel(g)], Read(g);
      s' := RefreshEnds(s, g);
    } else if IsSet(s, c.flag) {
      schedule, s', a := [], s, Check(g);
    } else {
      var checked := Do(s, Check(g));
      s' := RefreshEnds(checked, g);
      a := Read(g);
      schedule := [Check(g)] + [TakeFlag(g), TakeLevel(g)];
      assert schedule[1..] == [TakeFlag(g), TakeLevel(g)];
    }
  }

  lemma RefreshEnds(s: State, g: Id) returns (s': State)
    requires s.swapper.None? && g in s.getters && s.getters[g].pc.NeedFlag? && s.owner.Keys == s.options.Keys
    requires s.getters[g].key in s.owner ==> s.owner[s.getters[g].key].Free?
    ensures Runs(s, [TakeFlag(g), TakeLevel(g)], s') && g in s'.getters && Can(s', Read(g))
  {
    var flagged := Do(s, TakeFlag(g));
    s' := Do(flagged, TakeLevel(g));
    assert [TakeFlag(g), TakeLevel(g)][1..] == [TakeLevel(g)] && [TakeLevel(g)][1..] == [];
    assert Runs(s', [], s');
    assert Runs(flagged, [TakeLevel(g)], s');
  }

  lemma {:induction false} Snoc(s: State, schedule: seq<Action>, mid: State, a: Action)
    requires Runs(s, schedule, mid) && Can(mid, a)
    ensures Runs(s, schedule + [a], Do(mid, a))
    decreases schedule
  {
    if schedule == [] {
      assert schedule + [a] == [a] && [a][1..] == [];
      assert Runs(Do(mid, a), [], Do(mid, a));
    } else {
      Snoc(Do(s, schedule[0]), schedule[1..], mid, a);
      assert (schedule + [a])[1..] == schedule[1..] + [a];
    }
  }

  lemma StillReachable(s: State, a: Action)
    requires Reachable(s) && Can(s, a)
    ensures Reachable(Do(s, a))
  {
    var init, schedule :| Init(init) && Runs(init, schedule, s);
    Snoc(init, schedule, s, a);
  }

  lemma Two(s: State, a: Action, b: Action) returns (s': State)
    requires Reachable(s) && Can(s, a) && Can(Do(s, a), b)
    ensures Reachable(s') && Runs(s, [a, b], s') && s' == Do(Do(s, a), b)
  {
    s' := Do(Do(s, a), b);
    StillReachable(s, a);
    StillReachable(Do(s, a), b);
    assert [a, b][1..] == [b] && [b][1..] == [] && Runs(s', [], s');
    assert Runs(Do(s, a), [b], s');
  }

  /** A setter alone locks an option. */
  lemma LockAlone(s: State, t: Id, key: string) returns (s': State)
    requires Reachable(s) && t in s.setters && s.setters[t].Rest?
    requires key in s.options && key in s.owner && s.owner[key].Free?
    ensures Reachable(s') && Runs(s, [Begin(t), Lock(t, key)], s')
    ensures t in s'.setters && s'.setters[t] == Locked(key) && s'.swapper == s.swapper
    ensures s'.options == s.options && s'.getters == s.getters && s'.epoch == s.epoch && s'.dirty == s.dirty
  {
    s' := Two(s, Begin(t), Lock(t, key));
  }

  /** It writes the value and updates the level. */
  lemma WriteAlone(s: State, t: Id, user: bool, value: Option<ValueCache>) returns (s': State)
    requires Reachable(s) && t in s.setters && s.setters[t].Locked? && s.setters[t].key in s.options
    ensures Reachable(s') && Runs(s, [Write(t, user, value), Update(t)], s')
    ensures t in s'.setters && s'.setters[t] == Updated(s.setters[t].key) && s'.swapper == s.swapper
    ensures var o := s.options[s.setters[t].key];
            s'.options == s.options[s.setters[t].key := if user then o.(active := value) else o.(default := value)]
    ensures s'.getters == s.getters && s'.epoch == s.epoch && s'.dirty == s.dirty + {t}
  {
    s' := Two(s, Write(t, user, value), Update(t));
  }

  /** It unlocks the option and exchanges the flag. */
  lemma SignalAlone(s: State, t: Id) returns (s': State)
    requires Reachable(s) && t in s.setters && s.setters[t].Updated? && s.swapper.None?
    ensures Reachable(s') && Runs(s, [Unlock(t)] + [Reset(t), Swap(t)], s')
    ensures s'.options == s.options && s'.getters == s.getters && s'.dirty == s.dirty - {t} && s'.swapper.None?
    ensures s'.epoch == s.epoch + 1 && s'.level == s.level
  {
    var mid := Do(s, Unlock(t));
    StillReachable(s, Unlock(t));
    assert [Unlock(t)][1..] == [] && Runs(mid, [], mid);
    s' := Two(mid, Reset(t), Swap(t));
    Chain(s, [Unlock(t)], mid, [Reset(t), Swap(t)], s');
  }

  lemma {:induction false} RunsAgree(s: State, schedule: seq<Action>, a: State, b: State)
    requires Runs(s, schedule, a) && Runs(s, schedule, b)
    ensures a == b
    decreases schedule
  {
    if schedule != [] {
      RunsAgree(Do(s, schedule[0]), schedule[1..], a, b);
    }
  }

  lemma {:induction false} Chain(s: State, a: seq<Action>, mid: State, b: seq<Action>, s': State)
    requires Runs(s, a, mid) && Runs(mid, b, s')
    ensures Runs(s, a + b, s')
    decreases a
  {
    if a == [] {
      assert a + b == b;
    } else {
      Chain(Do(s, a[0]), a[1..], mid, b, s');
      assert (a + b)[1..] == a[1..] + b;
    }
  }

  /** All steps of a setter that sets one value. */
  function Setting(t: Id, key: string, user: bool, value: Option<ValueCache>): seq<Action> {
    [Begin(t), Lock(t, key)] + ([Write(t, user, value), Update(t)] + ([Unlock(t)] + [Reset(t), Swap(t)]))
  }

  lemma SetSteps(s: State, t: Id, key: string, user: bool, value: Option<ValueCache>) returns (s': State)
    requires Reachable(s) && s.swapper.None? && t in s.setters && s.setters[t].Rest?
    requires key in s.options && key in s.owner && s.owner[key].Free?
    ensures Reachable(s') && Runs(s, Setting(t, key, user, value), s') && s'.swapper.None?
    ensures s'.getters == s.getters && s'.epoch == s.epoch + 1 && s'.dirty == s.dirty + {t} - {t}
    ensures var o := s.options[key];
            s'.options == s.options[key := if user then o.(active := value) else o.(default := value)]
  {
    var locked := LockAlone(s, t, key);
    var written := WriteAlone(locked, t, user, value);
    s' := SignalAlone(written, t);
    var signal := [Unlock(t)] + [Reset(t), Swap(t)];
    Chain(locked, [Write(t, user, value), Update(t)], written, signal, s');
    Chain(s, [Begin(t), Lock(t, key)], locked, [Write(t, user, value), Update(t)] + signal, s');
  }

  /** A setter alone changes the user or the default value of one option and resets every flag. */
  lemma SetAlone(s: State, t: Id, key: string, user: bool, value: Option<ValueCache>, s': State)
    requires Reachable(s) && s.swapper.None? && t in s.setters && s.setters[t].Rest?
    requires key in s.options && key in s.owner && s.owner[key].Free? && Runs(s, Setting(t, key, user, value), s')
    ensures Reachable(s') && s'.swapper.None? && s'.dirty == s.dirty - {t} && s'.getters == s.getters
    ensures var o := s.options[key];
            s'.options == s.options[key := if user then o.(active := value) else o.(default := value)]
    ensures forall g :: g in s.getters ==> !IsSet(s', s'.getters[g].flag)
  {
    var last := SetSteps(s, t, key, user, value);
    RunsAgree(s, Setting(t, key, user, value), last, s');
    ReachableInv(s);
    forall g | g in s.getters ensures !IsSet(s', s'.getters[g].flag) {
      assert GetterInv(s, g);
    }
  }

  /** From set to get: once a setter is through, the next call of every getter of the option returns what was
      set, whatever it had cached before: a user value if the release level admits the option, and a default value
      if there is no such user value. */
  lemma SetThenGet(s: State, t: Id, key: string, user: bool, value: ValueCache, s1: State,
                   schedule: seq<Action>, s2: State, a: Action, g: Id)
    requires Reachable(s) && s.dirty == {} && s.swapper.None? && t in s.setters && s.setters[t].Rest?
    requires key in s.options && key in s.owner && s.owner[key].Free?
    requires Runs(s, Setting(t, key, user, Some(value)), s1)
    requires g in s.getters && s.getters[g].key == key && s.getters[g].want == s.options[key].optType
    requires Quiet(s1, schedule, s2, a, g)
    requires if user then s.options[key].releaseLevel <= s1.level
             else s.options[key].active.None? || s.options[key].releaseLevel > s1.level
    ensures Do(s2, a).getters[g].cached == Some(value)
  {
    SetAlone(s, t, key, user, Some(value), s1);
    QuietCallReturns(s1, schedule, s2, a, g);
  }

  /** A setter whose value is refused changes no resolution, not even through the release level. */
  lemma RefusalChangesNothing(s: State, a: Action, key: string, want: OptType)
    requires Reachable(s) && Can(s, a)
    requires a.Begin? || a.Lock? || a.Reject? || a.Unlock? || a.Quit? ||
             (a.Update? && s.setters[a.t] == Decided(s.setters[a.t].key, false))
    ensures var s' := Do(s, a);
            && s'.options == s.options && s'.level == s.level
            && Resolve(s'.options, s'.level, key, want) == Resolve(s.options, s.level, key, want)
  {
    ReachableInv(s);
    if a.Update? {
      assert SetterInv(s, a.t);
    }
  }

  /** No setter holds the lock of the release level option. */
  predicate LevelFree(s: State) {
    RELEASE_KEY in s.options && RELEASE_KEY in s.owner && !s.owner[RELEASE_KEY].BySetter?
  }

  /** When no setter is at work on its option, the release level is that of its option: a change reaches every getter. */
  lemma LevelIsCurrent(s: State)
    requires Reachable(s) && LevelFree(s)
    ensures var o := s.options[RELEASE_KEY];
      var name := (if o.default.Some? then o.default.value else if o.active.Some? then o.active.value else o.fallback).stringVal;
      && s.level <= 2
      && (s.level == 2 <==> name == "experimental")
      && (s.level == 1 <==> name == "beta")
  {
    ReachableInv(s);
  }

  /** The release level follows the value that getters of the option return, if and only if user and
      default value do not name different levels: the level prefers the default, the getters the user. */
  lemma LevelAgreesIff(s: State)
    requires Reachable(s) && LevelFree(s)
    requires s.options[RELEASE_KEY].optType == StringType && s.options[RELEASE_KEY].releaseLevel == 0
    ensures var o := s.options[RELEASE_KEY];
            s.level == LevelNamed(Resolve(s.options, s.level, RELEASE_KEY, StringType).value.stringVal) <==>
              (o.active.Some? && o.default.Some? ==>
                 LevelNamed(o.active.value.stringVal) == LevelNamed(o.default.value.stringVal))
  {
    ReachableInv(s);
  }

  /** They can name different levels: a user who chose stable gets beta features from a beta default. */
  lemma LevelCanDisagree() returns (o: Opt)
    ensures o.active.Some? && o.active.value.stringVal == "stable"
    ensures Resolve(map[RELEASE_KEY := o], LevelOf(o), RELEASE_KEY, StringType) == o.active && LevelOf(o) == 1
  {
    var named := (name: string) => ValueCache(name, None, false);
    o := Opt(StringType, 0, Some(named("stable")), Some(named("beta")), named("stable"));
  }
}
