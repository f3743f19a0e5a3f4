/** The log pipeline (base/log/input.go, trace.go, output.go) as a transition system: any number of
  producers, a bounded buffer, and a writer woken by a flag and a one-slot channel. */
module LogPipeline {
  import opened LogWriter

  type ProducerId = nat

  /** Capacity of logBuffer (logging.go:223). */
  const CAPACITY: nat := 1024

  /** Where a call of log() or Submit() stands. */
  datatype ProducerPC =
    | Send       // non-blocking send to logBuffer
    | Force      // loop: forceEmptyingOfBuffer or logBuffer, whichever is ready
    | SetFlag    // logsWaitingFlag.SetToIf(false, true)
    | Wake       // send to logsWaiting
    | Done

  /** `submits` tells ContextTracer.Submit, whose wake-up send blocks, from log, whose send does not. */
  datatype Producer = Producer(pc: ProducerPC, line: Line, submits: bool)

  datatype WriterPC =
    | Wait       // first select: logsWaiting, force or shutdown
    | Unset      // logsWaitingFlag.UnSet
    | Slot       // second select: writeTrigger, force or shutdown
    | Drain      // non-blocking receive from logBuffer
    | Backoff    // last line written; timer or shutdown
    | Finalize   // finalizeWriting: receive, or stop when idle
    | Stopped

  /** `pushed`, `senders`, `rounds`, `round`, `finals` and `dropped` are history: lines sent, producers in
      the order in which they got past their send, lines received in each finished drain round, in the
      current one and while finalizing, and wake-up sends that took their default branch. */
  datatype State = State(
    buffer: seq<Line>,
    flag: bool,
    tokens: nat,
    writer: WriterPC,
    shutdown: bool,
    producers: map<ProducerId, Producer>,
    pushed: seq<Line>,
    senders: seq<ProducerId>,
    rounds: seq<seq<Line>>,
    round: seq<Line>,
    finals: seq<Line>,
    dropped: nat)

  // ---------------------------------------------------------------- steps

  ghost predicate Init(s: State) {
    s == State([], false, 0, Wait, false, map[], [], [], [], [], [], 0)
  }

  function Goto(s: State, p: ProducerId, pc: ProducerPC): State
    requires p in s.producers
  {
    s.(producers := s.producers[p := s.producers[p].(pc := pc)])
  }

  function Push(s: State, p: ProducerId): State
    requires p in s.producers
  {
    Goto(s, p, SetFlag).(buffer := s.buffer + [s.producers[p].line], pushed := s.pushed + [s.producers[p].line])
  }

  /** A producer can go on by itself. In the force loop it needs room in the buffer. */
  predicate ProducerReady(s: State, p: ProducerId)
    requires p in s.producers
  {
    match s.producers[p].pc
    case Send | SetFlag => true
    case Force => |s.buffer| < CAPACITY
    case Wake => s.tokens < 1 || !s.producers[p].submits
    case Done => false
  }

  function ProducerStep(s: State, p: ProducerId): State
    requires p in s.producers && ProducerReady(s, p)
  {
    match s.producers[p].pc
    case Send => if |s.buffer| < CAPACITY then Push(s, p) else Goto(s, p, Force)
    case Force => Push(s, p)
    case SetFlag => if s.flag then Goto(s, p, Done) else Goto(s, p, Wake).(flag := true)
    case Wake =>
      if s.tokens < 1 then Goto(s, p, Done).(tokens := 1) else Goto(s, p, Done)
    case Done => s
  }

  /** A producer in the force loop meets the writer on the unbuffered forceEmptyingOfBuffer. */
  predicate ForceReady(s: State, p: ProducerId) {
    p in s.producers && s.producers[p].pc.Force? && (s.writer.Wait? || s.writer.Slot?)
  }

  function ForceStep(s: State): State {
    if s.writer.Wait? then s.(writer := Slot) else s.(writer := Drain)
  }

  function Receive(s: State): State
    requires s.buffer != []
  {
    s.(buffer := s.buffer[1..])
  }

  /** The writer can go on without a producer and without shutdown. */
  predicate WriterReady(s: State) {
    match s.writer
    case Wait => s.tokens > 0
    case Stopped => false
    case _ => true
  }

  function WriterStep(s: State): State
    requires WriterReady(s)
  {
    match s.writer
    case Wait => s.(tokens := s.tokens - 1, writer := Unset)
    case Unset => s.(flag := false, writer := Slot)
    case Slot => s.(writer := Drain)
    case Drain =>
      if s.buffer == [] then s.(writer := Backoff, rounds := s.rounds + [s.round], round := [])
      else Receive(s).(round := s.round + [s.buffer[0]])
    case Backoff => s.(writer := Wait)
    case Finalize =>
      if s.buffer == [] then s.(writer := Stopped) else Receive(s).(finals := s.finals + [s.buffer[0]])
    case Stopped => s
  }

  datatype Action =
    | Arrive(p: ProducerId, line: Line, submits: bool)
    | Produce(p: ProducerId)
    | Meet(p: ProducerId)
    | Write
    | Shutdown
    | Finish

  /** The producer is past its send. */
  predicate HasSent(pc: ProducerPC) {
    pc.SetFlag? || pc.Wake? || pc.Done?
  }

  predicate Can(s: State, a: Action) {
    match a
    case Arrive(p, _, _) => p !in s.producers
    case Produce(p) => p in s.producers && ProducerReady(s, p)
    case Meet(p) => ForceReady(s, p)
    case Write => WriterReady(s)
    case Shutdown => true
    case Finish => s.shutdown && (s.writer.Wait? || s.writer.Slot? || s.writer.Backoff?)
  }

  function Do(s: State, a: Action): State
    requires Can(s, a)
  {
    match a
    case Arrive(p, line, submits) => s.(producers := s.producers[p := Producer(Send, line, submits)])
    case Produce(p) =>
      var s' := ProducerStep(s, p);
      if !HasSent(s.producers[p].pc) && HasSent(s'.producers[p].pc) then s'.(senders := s.senders + [p])
      else if s.producers[p].pc.Wake? && s'.tokens == s.tokens then s'.(dropped := s.dropped + 1)
      else s'
    case Meet(_) => ForceStep(s)
    case Write => WriterStep(s)
    case Shutdown => s.(shutdown := true)
    case Finish => s.(writer := Finalize)
  }

  /** The states reached by a schedule. */
  ghost predicate Runs(s: State, schedule: seq<Action>, s': State)
    decreases |schedule|
  {
    if schedule == [] then s' == s
    else Can(s, schedule[0]) && Runs(Do(s, schedule[0]), schedule[1..], s')
  }

  ghost predicate Reachable(s: State) {
    exists init, schedule :: Init(init) && Runs(init, schedule, s)
  }

  // ------------------------------------------------------------ invariant

  /** Producers that have set the flag and not yet sent the wake-up. */
  ghost function Waking(s: State): set<ProducerId> {
    set p | p in s.producers && s.producers[p].pc.Wake?
  }

  /** Producers that have sent their line and not yet looked at the flag. */
  ghost predicate SomeoneSignals(s: State) {
    exists p :: p in s.producers && s.producers[p].pc.SetFlag?
  }

  /** Every wake-up on its way is paid for by the flag. */
  ghost predicate Conserved(s: State) {
    |Waking(s)| + s.tokens + (if s.writer.Unset? then 1 else 0) == if s.flag then 1 else 0
  }

  /** No line is lost or reordered between the producers and the writer. */
  ghost predicate DataInv(s: State) {
    && |s.buffer| <= CAPACITY
    && s.pushed == Join(s.rounds) + s.round + s.finals + s.buffer
    && (s.round != [] ==> s.writer.Drain?)
    && (s.finals != [] ==> s.writer.Finalize? || s.writer.Stopped?)
    && (s.writer.Finalize? || s.writer.Stopped? ==> s.shutdown)
  }

  /** A writer that is not about to drain leaves no line behind without a signal. */
  ghost predicate SignalInv(s: State) {
    s.buffer != [] && (s.writer.Backoff? || s.writer.Wait?) ==> s.flag || SomeoneSignals(s)
  }

  /** The producers past their send have sent their lines, one each. */
  ghost predicate SentInv(s: State) {
    && |s.senders| == |s.pushed|
    && (forall i :: 0 <= i < |s.senders| ==> LineSent(s, i))
    && (forall p :: p in s.producers ==> (HasSent(s.producers[p].pc) <==> p in s.senders))
    && (forall i, j :: 0 <= i < j < |s.senders| ==> s.senders[i] != s.senders[j])
  }

  ghost predicate LineSent(s: State, i: nat)
    requires i < |s.senders| == |s.pushed|
  {
    s.senders[i] in s.producers && s.pushed[i] == s.producers[s.senders[i]].line
  }

  ghost predicate Inv(s: State) {
    Conserved(s) && s.dropped == 0 && DataInv(s) && SignalInv(s) && SentInv(s)
  }

  lemma MovePC(s: State, s': State, p: ProducerId)
    requires p in s.producers && p in s'.producers && s'.producers == s.producers[p := s'.producers[p]]
    ensures |Waking(s')| == |Waking(s)| + (if s'.producers[p].pc.Wake? then 1 else 0) - (if s.producers[p].pc.Wake? then 1 else 0)
    ensures s.producers[p].pc.Wake? ==> |Waking(s)| > 0
  {
    var rest := Waking(s) - {p};
    assert Waking(s) == if s.producers[p].pc.Wake? then rest + {p} else rest;
    assert Waking(s') == if s'.producers[p].pc.Wake? then rest + {p} else rest;
  }

  lemma JoinSnoc(rounds: seq<seq<Line>>, round: seq<Line>)
    ensures Join(rounds + [round]) == Join(rounds) + round
  {
    assert (rounds + [round])[..|rounds|] == rounds;
  }

  lemma ProduceTokens(s: State, p: ProducerId)
    requires Conserved(s) && p in s.producers && ProducerReady(s, p)
    ensures Conserved(ProducerStep(s, p)) && ProducerStep(s, p).dropped == s.dropped
    ensures s.producers[p].pc.Wake? ==> ProducerStep(s, p).tokens != s.tokens
  {
    MovePC(s, ProducerStep(s, p), p);
  }

  lemma ProduceData(s: State, p: ProducerId)
    requires DataInv(s) && p in s.producers && ProducerReady(s, p)
    ensures DataInv(ProducerStep(s, p))
  {
    var s' := ProducerStep(s, p);
    assert s'.rounds == s.rounds && s'.round == s.round && s'.finals == s.finals && s'.writer == s.writer;
    var received := Join(s.rounds) + s.round + s.finals;
    if s'.buffer != s.buffer {
      assert received + (s.buffer + [s.producers[p].line]) == received + s.buffer + [s.producers[p].line];
    }
  }

  lemma ProduceSignal(s: State, p: ProducerId)
    requires SignalInv(s) && p in s.producers && ProducerReady(s, p)
    ensures SignalInv(ProducerStep(s, p))
  {
    var s' := ProducerStep(s, p);
    if s'.producers[p].pc.SetFlag? {
      assert SomeoneSignals(s');
    } else if q :| q in s.producers && s.producers[q].pc.SetFlag? {
      if q != p {
        assert s'.producers[q] == s.producers[q];
      }
    }
  }

  /** Moving the first line of the buffer to the end of what was received keeps the whole. */
  lemma MoveLine(before: seq<Line>, received: seq<Line>, buffer: seq<Line>)
    requires buffer != []
    ensures before + (received + [buffer[0]]) + buffer[1..] == before + received + buffer
  {
    assert [buffer[0]] + buffer[1..] == buffer;
  }

  lemma WriteData(s: State)
    requires DataInv(s) && WriterReady(s)
    ensures DataInv(WriterStep(s))
  {
    if s.writer.Drain? && s.buffer != [] {
      MoveLine(Join(s.rounds), s.round, s.buffer);
      DropEmpty(Join(s.rounds), s.round, s.buffer);
      DropEmpty(Join(s.rounds), s.round + [s.buffer[0]], s.buffer[1..]);
    } else if s.writer.Drain? {
      JoinSnoc(s.rounds, s.round);
      assert Join(s.rounds) + s.round + [] + [] == Join(s.rounds + [s.round]) + [] + [] + [];
    } else if s.writer.Finalize? && s.buffer != [] {
      MoveLine(Join(s.rounds) + s.round, s.finals, s.buffer);
    }
  }

  lemma DropEmpty(a: seq<Line>, b: seq<Line>, c: seq<Line>)
    ensures a + b + [] + c == a + b + c
  {}

  lemma WriteTokens(s: State)
    requires Conserved(s) && WriterReady(s)
    ensures Conserved(WriterStep(s))
  {
    assert Waking(WriterStep(s)) == Waking(s);
  }

  lemma WriteSignal(s: State)
    requires SignalInv(s) && Conserved(s) && WriterReady(s)
    ensures SignalInv(WriterStep(s))
  {}

  /** Steps a call of log or Submit has left at most. */
  function StepsLeft(pc: ProducerPC): nat {
    match pc case Send => 4 case Force => 3 case SetFlag => 2 case Wake => 1 case Done => 0
  }

  lemma ProducerMoves(s: State, p: ProducerId)
    requires p in s.producers && ProducerReady(s, p)
    ensures var pc := s.producers[p].pc; var s' := ProducerStep(s, p);
      && s'.producers.Keys == s.producers.Keys && s'.producers[p].line == s.producers[p].line
      && s'.producers == s.producers[p := s'.producers[p]]
      && StepsLeft(s'.producers[p].pc) < StepsLeft(pc)
  {}

  /** A step of a producer moves nobody else, and it is a send exactly when it gets the producer past it. */
  lemma ProduceEffect(s: State, p: ProducerId)
    requires Can(s, Produce(p))
    ensures var s' := Do(s, Produce(p));
      && p in s'.producers && s'.producers[p].line == s.producers[p].line
      && s'.producers == s.producers[p := s'.producers[p]]
      && (HasSent(s.producers[p].pc) ==> HasSent(s'.producers[p].pc))
      && (if HasSent(s.producers[p].pc) == HasSent(s'.producers[p].pc)
          then s'.senders == s.senders && s'.pushed == s.pushed
          else s'.senders == s.senders + [p] && s'.pushed == s.pushed + [s.producers[p].line])
  {
    ProducerMoves(s, p);
  }

  lemma ProduceSent(s: State, p: ProducerId, s': State)
    requires SentInv(s) && p in s.producers && p in s'.producers && s'.producers[p].line == s.producers[p].line
    requires s'.producers == s.producers[p := s'.producers[p]]
    requires !HasSent(s.producers[p].pc) && HasSent(s'.producers[p].pc)
    requires s'.senders == s.senders + [p] && s'.pushed == s.pushed + [s.producers[p].line]
    ensures SentInv(s')
  {
    assert p !in s.senders;
    forall i | 0 <= i < |s'.senders| ensures LineSent(s', i) {
      if i < |s.senders| {
        assert LineSent(s, i) && s'.senders[i] == s.senders[i];
      }
    }
  }

  lemma ProduceOther(s: State, p: ProducerId, s': State)
    requires SentInv(s) && p in s.producers && p in s'.producers && s'.producers[p].line == s.producers[p].line
    requires s'.producers == s.producers[p := s'.producers[p]]
    requires HasSent(s.producers[p].pc) == HasSent(s'.producers[p].pc)
    requires s'.senders == s.senders && s'.pushed == s.pushed
    ensures SentInv(s')
  {
    forall i | 0 <= i < |s'.senders| ensures LineSent(s', i) {
      assert LineSent(s, i);
    }
  }

  lemma ArriveInv(s: State, p: ProducerId, line: Line, submits: bool)
    requires Inv(s) && p !in s.producers
    ensures Inv(Do(s, Arrive(p, line, submits)))
  {
    var s' := Do(s, Arrive(p, line, submits));
    assert Waking(s') == Waking(s);
    if q :| q in s.producers && s.producers[q].pc.SetFlag? {
      assert s'.producers[q] == s.producers[q];
    }
    forall i | 0 <= i < |s.senders| ensures LineSent(s', i) && s.senders[i] != p {
      assert LineSent(s, i);
    }
  }

  /** Keeping the producers keeps what they have sent. */
  lemma OthersSent(s: State, s': State)
    requires SentInv(s) && s'.producers == s.producers && s'.senders == s.senders && s'.pushed == s.pushed
    ensures SentInv(s')
  {
    forall i | 0 <= i < |s.senders| ensures LineSent(s', i) {
      assert LineSent(s, i);
    }
  }

  lemma ProduceInv(s: State, p: ProducerId)
    requires Inv(s) && Can(s, Produce(p))
    ensures Inv(Do(s, Produce(p)))
  {
    ProduceTokens(s, p);
    ProduceData(s, p);
    ProduceSignal(s, p);
    var stepped, s' := ProducerStep(s, p), Do(s, Produce(p));
    ProduceEffect(s, p);
    if HasSent(s.producers[p].pc) == HasSent(s'.producers[p].pc) {
      ProduceOther(s, p, s');
    } else {
      ProduceSent(s, p, s');
    }
    assert s' == stepped.(senders := s'.senders);
    assert Waking(s') == Waking(stepped);
    assert SomeoneSignals(s') == SomeoneSignals(stepped);
  }

  lemma WriteInv(s: State)
    requires Inv(s) && WriterReady(s)
    ensures Inv(WriterStep(s))
  {
    WriteData(s);
    WriteTokens(s);
    WriteSignal(s);
    WriteFrame(s);
    OthersSent(s, WriterStep(s));
  }

  lemma WriteFrame(s: State)
    requires WriterReady(s)
    ensures var s' := WriterStep(s);
      s'.producers == s.producers && s'.senders == s.senders && s'.pushed == s.pushed && s'.dropped == s.dropped
  {
  }

  /** A meeting, a shutdown and its notice move the writer alone, and never away from lines it has taken. */
  lemma MoveWriterInv(s: State, s': State)
    requires Inv(s) && s' == s.(writer := s'.writer, shutdown := s'.shutdown)
    requires s.writer.Unset? <==> s'.writer.Unset?
    requires s.writer.Drain? ==> s'.writer.Drain?
    requires s.writer.Finalize? ==> s'.writer.Finalize?
    requires s.writer.Stopped? ==> s'.writer.Stopped?
    requires s'.writer.Backoff? || s'.writer.Wait? ==> s'.writer == s.writer
    requires s'.writer.Finalize? || s'.writer.Stopped? ==> s'.shutdown
    ensures Inv(s')
  {
    assert Waking(s') == Waking(s);
    assert SomeoneSignals(s') == SomeoneSignals(s);
    OthersSent(s, s');
  }

  lemma DoInv(s: State, a: Action)
    requires Inv(s) && Can(s, a)
    ensures Inv(Do(s, a))
  {
    match a
    case Produce(p) => ProduceInv(s, p);
    case Arrive(p, line, submits) => ArriveInv(s, p, line, submits);
    case Write => WriteInv(s);
    case Meet(_) => MoveWriterInv(s, Do(s, a));
    case Shutdown => MoveWriterInv(s, Do(s, a));
    case Finish => MoveWriterInv(s, Do(s, a));
  }

  lemma {:induction false} RunsInv(s: State, schedule: seq<Action>, s': State)
    requires Inv(s) && Runs(s, schedule, s')
    ensures Inv(s')
    decreases |schedule|
  {
    if schedule != [] {
      DoInv(s, schedule[0]);
      RunsInv(Do(s, schedule[0]), schedule[1..], s');
    }
  }

  lemma ReachableInv(s: State)
    requires Reachable(s)
    ensures Inv(s)
  {
    var init, schedule :| Init(init) && Runs(init, schedule, s);
    assert Waking(init) == {};
    RunsInv(init, schedule, s);
  }

  // ------------------------------------------------------------- theorems

  /** The flag pays for exactly one wake-up: a producer about to send it, the token in the channel, or
      the writer between its receive and the reset of the flag. */
  lemma TokenConservation(s: State)
    requires Reachable(s)
    ensures |Waking(s)| + s.tokens + (if s.writer.Unset? then 1 else 0) == if s.flag then 1 else 0
  {
    ReachableInv(s);
  }

  /** Every call sends its own line, once: the lines of the producers past their send are exactly the lines
      sent, in the order of `senders`. */
  lemma EveryCallSends(s: State)
    requires Reachable(s)
    ensures |s.pushed| == |s.senders|
    ensures forall i :: 0 <= i < |s.senders| ==>
              s.senders[i] in s.producers && s.pushed[i] == s.producers[s.senders[i]].line
    ensures forall i, j :: 0 <= i < j < |s.senders| ==> s.senders[i] != s.senders[j]
    ensures forall p :: p in s.producers ==>
              (p in s.senders <==>
                 s.producers[p].pc == SetFlag || s.producers[p].pc == Wake || s.producers[p].pc == Done)
  {
    ReachableInv(s);
    forall i | 0 <= i < |s.senders|
      ensures s.senders[i] in s.producers && s.pushed[i] == s.producers[s.senders[i]].line
    {
      assert LineSent(s, i);
    }
  }

  /** Nothing but steps of its own moves a producer, each brings it closer to its return, it keeps its line. */
  lemma StepsForward(s: State, a: Action, p: ProducerId)
    requires Can(s, a) && p in s.producers
    ensures var s' := Do(s, a);
      && p in s'.producers && s'.producers[p].line == s.producers[p].line
      && (if a == Produce(p) then StepsLeft(s'.producers[p].pc) < StepsLeft(s.producers[p].pc) <= 4
          else s'.producers[p] == s.producers[p])
  {
    if a.Produce? {
      ProducerMoves(s, a.p);
    }
  }

  lemma SentGrows(s: State, a: Action)
    requires Can(s, a)
    ensures s.senders <= Do(s, a).senders && s.pushed <= Do(s, a).pushed
    ensures s.producers.Keys <= Do(s, a).producers.Keys
  {
    if a.Produce? {
      ProduceEffect(s, a.p);
    }
  }

  lemma {:induction false} SentStaysSent(s: State, schedule: seq<Action>, s': State)
    requires Runs(s, schedule, s')
    ensures s.senders <= s'.senders && s.pushed <= s'.pushed && s.producers.Keys <= s'.producers.Keys
    decreases |schedule|
  {
    if schedule != [] {
      SentGrows(s, schedule[0]);
      SentStaysSent(Do(s, schedule[0]), schedule[1..], s');
    }
  }

  /** A call that begins after another has returned comes behind it in the log. */
  lemma LaterCallComesBehind(s: State, schedule: seq<Action>, s': State, i: nat, j: nat)
    requires Reachable(s) && Runs(s, schedule, s') && i < |s'.senders| && j < |s'.senders|
    requires s'.senders[i] in s.producers && s.producers[s'.senders[i]].pc == Done
    requires s'.senders[j] !in s.producers
    ensures i < j
  {
    var p := s'.senders[i];
    StillReachable(s, schedule, s');
    EveryCallSends(s);
    EveryCallSends(s');
    SentStaysSent(s, schedule, s');
    var k :| 0 <= k < |s.senders| && s.senders[k] == p;
    assert s'.senders[k] == p && k == i;
    forall m | 0 <= m < |s.senders| ensures s'.senders[m] in s.producers {
      assert s'.senders[m] == s.senders[m];
    }
  }

  /** A wake-up send always finds the slot free: log's default branch is never taken, and Submit's
      blocking send never blocks. */
  lemma WakeNeverBlocks(s: State, p: ProducerId)
    requires Reachable(s) && p in s.producers && s.producers[p].pc.Wake?
    ensures s.tokens == 0 && ProducerReady(s, p) && ProducerStep(s, p).tokens == 1 && s.dropped == 0
  {
    ReachableInv(s);
    MovePC(s, Goto(s, p, Wake), p);
  }

  lemma {:induction false} Chain(s: State, a: seq<Action>, mid: State, b: seq<Action>, s': State)
    requires Runs(s, a, mid) && Runs(mid, b, s')
    ensures Runs(s, a + b, s')
    decreases |a|
  {
    if a == [] {
      assert a + b == b;
    } else {
      Chain(Do(s, a[0]), a[1..], mid, b, s');
      assert (a + b)[1..] == a[1..] + b;
    }
  }

  lemma OneStep(s: State, a: Action)
    requires Can(s, a)
    ensures Runs(s, [a], Do(s, a))
  {
    var s' := Do(s, a);
    assert [a][1..] == [] && Runs(s', [], s');
  }

  /** A waiting writer with lines in the buffer has a wake-up in the channel, or is given one within
      two steps of producers that are already past their send. */
  lemma IdleWriterIsWoken(s: State) returns (schedule: seq<Action>, s': State)
    requires Reachable(s) && s.writer.Wait? && s.buffer != []
    ensures Runs(s, schedule, s') && |schedule| <= 2 && s'.tokens == 1 && Can(s', Write)
    ensures s'.writer == s.writer && s'.buffer == s.buffer && s'.pushed == s.pushed && s'.rounds == s.rounds
    ensures s'.shutdown == s.shutdown && s'.producers.Keys == s.producers.Keys
    ensures forall i :: 0 <= i < |schedule| ==>
              schedule[i].Produce? && schedule[i].p in s.producers
              && (s.producers[schedule[i].p].pc.SetFlag? || s.producers[schedule[i].p].pc.Wake?)
  {
    ReachableInv(s);
    if s.tokens == 1 {
      schedule, s' := [], s;
    } else if s.flag {
      var p :| p in Waking(s);
      s' := Do(s, Produce(p));
      schedule := [Produce(p)];
      OneStep(s, Produce(p));
    } else {
      var p :| p in s.producers && s.producers[p].pc.SetFlag?;
      var mid := Do(s, Produce(p));
      s' := Do(mid, Produce(p));
      schedule := [Produce(p)] + [Produce(p)];
      OneStep(s, Produce(p));
      OneStep(mid, Produce(p));
      Chain(s, [Produce(p)], mid, [Produce(p)], s');
    }
  }

  /** Only the writer and these producers take steps. */
  predicate OnlyBy(producers: set<ProducerId>, schedule: seq<Action>) {
    forall i :: 0 <= i < |schedule| ==> schedule[i].Write? || (schedule[i].Produce? && schedule[i].p in producers)
  }

  /** How far the writer is from the end of a drain round. */
  function Left(s: State): nat {
    match s.writer
    case Drain => |s.buffer|
    case Slot => |s.buffer| + 1
    case Unset => |s.buffer| + 2
    case Wait => |s.buffer| + 3
    case Backoff => |s.buffer| + 4
    case _ => 0
  }

  /** One step of the writer brings it closer, unless it waits for a token. */
  lemma WriteOn(s: State) returns (s': State)
    requires Inv(s) && !s.shutdown && WriterReady(s) && (s.writer.Drain? ==> s.buffer != [])
    ensures Runs(s, [Write], s') && Inv(s') && !s'.shutdown && s'.pushed == s.pushed && Left(s') < Left(s)
    ensures s'.producers == s.producers
  {
    s' := Do(s, Write);
    DoInv(s, Write);
    assert [Write][1..] == [] && Runs(s', [], s');
  }

  /** The last line is written. */
  lemma FinishRound(s: State) returns (s': State)
    requires Inv(s) && !s.shutdown && s.writer.Drain? && s.buffer == []
    ensures Runs(s, [Write], s') && s'.pushed == s.pushed && s'.pushed == Join(s'.rounds) && s'.buffer == []
  {
    s' := Do(s, Write);
    DoInv(s, Write);
    assert [Write][1..] == [] && Runs(s', [], s');
  }

  /** From every reachable state without shutdown, the writer and the producers under way can bring it about
      that all lines sent so far are written, without any further line. */
  lemma {:induction false} Drains(s: State) returns (schedule: seq<Action>, s': State)
    requires Reachable(s) && !s.shutdown
    ensures Runs(s, schedule, s') && OnlyBy(s.producers.Keys, schedule)
    ensures s'.pushed == s.pushed && s.pushed == Join(s'.rounds) && s'.buffer == []
    decreases Left(s)
  {
    ReachableInv(s);
    if s.writer.Drain? && s.buffer == [] {
      schedule := [Write];
      s' := FinishRound(s);
    } else if (s.writer.Wait? || s.writer.Backoff?) && s.buffer == [] {
      schedule, s' := [], s;
    } else {
      var first, next := DrainOn(s);
      var rest;
      rest, s' := Drains(next);
      Chain(s, first, next, rest, s');
      schedule := first + rest;
    }
  }

  /** One step of the writer, after the wake-up if it waits for one. */
  lemma DrainOn(s: State) returns (schedule: seq<Action>, s': State)
    requires Reachable(s) && !s.shutdown
    requires s.writer.Drain? || s.writer.Wait? || s.writer.Backoff? ==> s.buffer != []
    ensures Runs(s, schedule, s') && OnlyBy(s.producers.Keys, schedule) && Reachable(s')
    ensures !s'.shutdown && s'.pushed == s.pushed && Left(s') < Left(s) && s'.producers.Keys == s.producers.Keys
  {
    ReachableInv(s);
    if s.writer.Wait? {
      var first, ready := IdleWriterIsWoken(s);
      StillReachable(s, first, ready);
      ReachableInv(ready);
      s' := WriteOn(ready);
      Chain(s, first, ready, [Write], s');
      schedule := first + [Write];
    } else {
      s' := WriteOn(s);
      schedule := [Write];
    }
    StillReachable(s, schedule, s');
  }

  /** Steps of the writer until it waits again. */
  function StepsToRest(s: State): nat {
    match s.writer
    case Unset => |s.buffer| + 4
    case Slot => |s.buffer| + 3
    case Drain => |s.buffer| + 2
    case Backoff => |s.buffer| + 1
    case _ => |s.buffer|
  }

  predicate AllReturned(s: State) {
    forall p :: p in s.producers ==> s.producers[p].pc.Done?
  }

  lemma RestOn(s: State) returns (s': State)
    requires Reachable(s) && !s.shutdown && AllReturned(s) && WriterReady(s)
    ensures Runs(s, [Write], s') && Reachable(s') && !s'.shutdown && AllReturned(s') && s'.pushed == s.pushed
    ensures s'.tokens < s.tokens || (s'.tokens == s.tokens && StepsToRest(s') < StepsToRest(s))
  {
    ReachableInv(s);
    s' := Do(s, Write);
    OneStep(s, Write);
    StillReachable(s, [Write], s');
  }

  /** Once all calls have returned, the writer comes to rest by itself: it waits without a wake-up, and everything
      is written. */
  lemma {:induction false} ComesToRest(s: State) returns (schedule: seq<Action>, s': State)
    requires Reachable(s) && !s.shutdown && AllReturned(s)
    ensures Runs(s, schedule, s') && forall i :: 0 <= i < |schedule| ==> schedule[i] == Write
    ensures s'.writer == Wait && !WriterReady(s') && s'.buffer == [] && s'.pushed == s.pushed == Join(s'.rounds)
    decreases s.tokens, StepsToRest(s)
  {
    ReachableInv(s);
    if WriterReady(s) {
      var next := RestOn(s);
      var rest;
      rest, s' := ComesToRest(next);
      Chain(s, [Write], next, rest, s');
      schedule := [Write] + rest;
    } else {
      assert Waking(s) == {};
      schedule, s' := [], s;
    }
  }

  lemma StillReachable(s: State, schedule: seq<Action>, s': State)
    requires Reachable(s) && Runs(s, schedule, s')
    ensures Reachable(s')
  {
    var init, before :| Init(init) && Runs(init, before, s);
    Chain(init, before, s, schedule, s');
  }

  /** Something can happen for producer `p` without new producers: a step of its own, a step of the
      writer, or a meeting of the two. */
  predicate Moves(s: State, p: ProducerId)
    requires p in s.producers
  {
    Can(s, Produce(p)) || Can(s, Write) || Can(s, Meet(p))
  }

  /** A producer in mid-call gets stuck exactly when it needs room in a full buffer and the writer has
      stopped after shutdown. */
  lemma ProducerStuckIff(s: State, p: ProducerId)
    requires Reachable(s) && p in s.producers && !s.producers[p].pc.Done?
    ensures !Moves(s, p) <==> s.producers[p].pc.Force? && s.writer.Stopped? && |s.buffer| == CAPACITY
  {
    ReachableInv(s);
    if s.producers[p].pc.Wake? {
      MovePC(s, Goto(s, p, Wake), p);
    }
  }

  /** Lines come out in the order they were sent; in between they only wait in the buffer. */
  lemma NothingLost(s: State)
    requires Reachable(s)
    ensures s.pushed == Join(s.rounds) + s.round + s.finals + s.buffer
  {
    ReachableInv(s);
  }

  /** Whatever the interleaving, the messages written for the rounds so far and while finalizing stand for exactly
      the lines sent before those still on their way. */
  method WrittenStandsForSent(s: State) returns (out: seq<Message>)
    requires Reachable(s)
    ensures |Expand(out)| <= |s.pushed| && SameLines(Expand(out), s.pushed[..|Expand(out)|])
    ensures s.pushed[|Expand(out)|..] == s.round + s.buffer
  {
    var rounds, finals;
    ghost var parts;
    rounds, parts := Writer(s.rounds);
    finals := WriteFinals(s.finals);
    out := rounds + finals;
    ExpandAppend(rounds, finals);
    StandTogether(Expand(rounds), Expand(finals), Join(s.rounds), s.finals);
    Received(s);
  }

  lemma Received(s: State)
    requires Reachable(s)
    ensures s.pushed == (Join(s.rounds) + s.finals) + (s.round + s.buffer)
  {
    ReachableInv(s);
    var rounds := Join(s.rounds);
    if s.finals == [] {
      assert rounds + s.round + [] + s.buffer == rounds + (s.round + s.buffer) && rounds + [] == rounds;
    } else {
      assert s.round == [];
      assert rounds + [] + s.finals + s.buffer == rounds + s.finals + ([] + s.buffer);
    }
  }

  /** The writer stops only when it finds nothing left; all lines sent up to then have been received. */
  lemma StopsEmpty(s: State, a: Action)
    requires Reachable(s) && Can(s, a) && s.writer != Stopped && Do(s, a).writer == Stopped
    ensures s.buffer == [] && s.pushed == Join(s.rounds) + s.finals && s.shutdown
  {
    ReachableInv(s);
    if !(a == Write && s.writer == Finalize && s.buffer == []) {
      NothingElseStops(s, a);
    }
  }

  lemma NothingElseStops(s: State, a: Action)
    requires Can(s, a) && s.writer != Stopped && !(a == Write && s.writer == Finalize && s.buffer == [])
    ensures Do(s, a).writer != Stopped
  {
  }

  /** How far the writer is from its end after a shutdown. */
  function StepsToStop(s: State): nat {
    match s.writer
    case Stopped => 0
    case Finalize => |s.buffer| + 1
    case Wait | Slot | Backoff => |s.buffer| + 2
    case Drain => |s.buffer| + 3
    case Unset => |s.buffer| + 3
  }

  lemma StopOn(s: State) returns (a: Action, s': State)
    requires Inv(s) && s.shutdown && s.writer != Stopped
    ensures (a == Write || a == Finish) && Can(s, a) && s' == Do(s, a)
    ensures StepsToStop(s') < StepsToStop(s) && s'.pushed == s.pushed && s'.shutdown
    ensures s'.writer == Stopped ==> s'.buffer == []
  {
    a := if s.writer.Wait? || s.writer.Slot? || s.writer.Backoff? then Finish else Write;
    s' := Do(s, a);
  }

  /** After a shutdown the writer gets to its end by itself, and everything sent before is written first. */
  lemma {:induction false} WindsDown(s: State) returns (schedule: seq<Action>, s': State)
    requires Reachable(s) && s.shutdown && s.writer != Stopped
    ensures Runs(s, schedule, s') && forall i :: 0 <= i < |schedule| ==> schedule[i] == Write || schedule[i] == Finish
    ensures s'.writer == Stopped && s'.buffer == [] && s'.pushed == s.pushed == Join(s'.rounds) + s'.finals
    decreases StepsToStop(s)
  {
    ReachableInv(s);
    var a, next := StopOn(s);
    assert [a][1..] == [] && Runs(next, [], next);
    StillReachable(s, [a], next);
    if next.writer == Stopped {
      schedule, s' := [a], next;
      ReachableInv(next);
    } else {
      var rest;
      rest, s' := WindsDown(next);
      schedule := [a] + rest;
      assert schedule[1..] == rest;
    }
  }

  /** A producer in the force loop gets the writer to work and then sends its line: one meeting ends the wait for a
      wake-up, one the wait for the time slot, and the next line the writer receives makes room. */
  lemma ForceMakesRoom(s: State, p: ProducerId) returns (schedule: seq<Action>, s': State)
    requires Reachable(s) && ForceReady(s, p) && |s.buffer| == CAPACITY
    ensures schedule == (if s.writer.Wait? then [Meet(p)] else []) + [Meet(p)] + [Write] + [Produce(p)]
    ensures Runs(s, schedule, s') && p in s'.producers && HasSent(s'.producers[p].pc)
    ensures s'.pushed == s.pushed + [s.producers[p].line] && s'.round == s.round + [s.buffer[0]]
  {
    var first := if s.writer.Wait? then [Meet(p)] else [];
    var slot := if s.writer.Wait? then Do(s, Meet(p)) else s;
    assert Runs(slot, [], slot);
    assert first != [] ==> first[1..] == [];
    var drain := Do(slot, Meet(p));
    var room := Do(drain, Write);
    s' := Do(room, Produce(p));
    OneStep(slot, Meet(p));
    OneStep(drain, Write);
    OneStep(room, Produce(p));
    Chain(s, first, slot, [Meet(p)], drain);
    Chain(s, first + [Meet(p)], drain, [Write], room);
    Chain(s, first + [Meet(p)] + [Write], room, [Produce(p)], s');
    schedule := first + [Meet(p)] + [Write] + [Produce(p)];
  }
}
