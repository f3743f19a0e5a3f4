/** The output half of the log pipeline (base/log/output.go): duplicate suppression. */
module LogWriter {
  import opened Common

  /** `tracer` identifies the context tracer a line carries, if any. */
  datatype Line = Line(msg: string, tracer: Option<nat>, level: nat, timestamp: int, file: string, lineNo: nat)
  {
    /** logLine.Equal: the timestamp does not matter, and a traced line equals nothing. */
    predicate Equal(other: Line) {
      && msg == other.msg && tracer == None && other.tracer == None
      && file == other.file && lineNo == other.lineNo && level == other.level
    }
  }

  /** Lines are merged if and only if they carry no tracer and nothing but their timestamps differs. */
  lemma EqualIff(a: Line, b: Line)
    ensures a.Equal(b) <==> a.tracer == None && a.(timestamp := 0) == b.(timestamp := 0)
  {
  }

  /** One call of Adapter.WriteMessage. */
  datatype Message = Message(line: Line, duplicates: nat)

  predicate Same(a: Line, b: Line) {
    a == b || a.Equal(b)
  }

  predicate SameLines(a: seq<Line>, b: seq<Line>) {
    |a| == |b| && forall i :: 0 <= i < |a| ==> Same(a[i], b[i])
  }

  /** So what stands for the same lines loses nothing but timestamps, and those only of untraced lines. */
  lemma SameLinesIff(a: seq<Line>, b: seq<Line>)
    ensures SameLines(a, b) <==>
              && |a| == |b|
              && forall i :: 0 <= i < |a| ==>
                   a[i].(timestamp := b[i].timestamp) == b[i] && (a[i].tracer.Some? ==> a[i] == b[i])
  {
    if |a| == |b| {
      forall i | 0 <= i < |a|
        ensures Same(a[i], b[i]) <==>
                  a[i].(timestamp := b[i].timestamp) == b[i] && (a[i].tracer.Some? ==> a[i] == b[i])
      {
        EqualIff(a[i], b[i]);
      }
    }
  }

  function Copies(line: Line, n: nat): (r: seq<Line>)
    ensures |r| == n && forall i :: 0 <= i < n ==> r[i] == line
  {
    seq(n, _ => line)
  }

  /** What a reader of the log gets back when every message stands for duplicates+1 lines. */
  function Expand(out: seq<Message>): seq<Line> {
    if out == [] then [] else Expand(out[..|out| - 1]) + Copies(out[|out| - 1].line, out[|out| - 1].duplicates + 1)
  }

  /** Two messages in a row are never Equal, and only untraced lines stand for more than one. */
  predicate Compact(out: seq<Message>) {
    && (forall i :: 0 <= i < |out| - 1 ==> !out[i + 1].line.Equal(out[i].line))
    && (forall i :: 0 <= i < |out| && out[i].duplicates > 0 ==> out[i].line.tracer == None)
  }

  function Join<T>(rounds: seq<seq<T>>): seq<T> {
    if rounds == [] then [] else Join(rounds[..|rounds| - 1]) + rounds[|rounds| - 1]
  }

  /** Every message stands for a stretch of the lines, shows its first line, and the others equal it. */
  predicate HeadsOf(out: seq<Message>, lines: seq<Line>)
    decreases |out|
  {
    if out == [] then lines == []
    else
      var m := out[|out| - 1];
      var start := |lines| - (m.duplicates + 1);
      && start >= 0 && lines[start] == m.line
      && (forall k :: start < k < |lines| ==> lines[k].Equal(m.line))
      && HeadsOf(out[..|out| - 1], lines[..start])
  }

  lemma ExpandSnoc(out: seq<Message>, m: Message)
    ensures Expand(out + [m]) == Expand(out) + Copies(m.line, m.duplicates + 1)
  {
    assert (out + [m])[..|out|] == out;
  }

  lemma {:induction false} ExpandAppend(a: seq<Message>, b: seq<Message>)
    ensures Expand(a + b) == Expand(a) + Expand(b)
  {
    if b == [] {
      assert a + b == a;
    } else {
      var b' := b[..|b| - 1];
      ExpandAppend(a, b');
      assert a + b == (a + b') + [b[|b| - 1]];
      ExpandSnoc(a + b', b[|b| - 1]);
    }
  }

  lemma HeadsMore(out: seq<Message>, m: Message, lines: seq<Line>, next: Line)
    requires HeadsOf(out + [m], lines) && next.Equal(m.line)
    ensures HeadsOf(out + [Message(m.line, m.duplicates + 1)], lines + [next])
  {
    var start := |lines| - (m.duplicates + 1);
    assert (out + [m])[..|out|] == out;
    assert (out + [Message(m.line, m.duplicates + 1)])[..|out|] == out;
    assert (lines + [next])[..start] == lines[..start];
  }

  lemma HeadsSnoc(out: seq<Message>, lines: seq<Line>, next: Line)
    requires HeadsOf(out, lines)
    ensures HeadsOf(out + [Message(next, 0)], lines + [next])
  {
    assert (out + [Message(next, 0)])[..|out|] == out;
    assert (lines + [next])[..|lines|] == lines;
  }

  lemma StandTogether(a: seq<Line>, b: seq<Line>, before: seq<Line>, round: seq<Line>)
    requires SameLines(a, before) && SameLines(b, round)
    ensures SameLines(a + b, before + round)
  {
  }

  lemma CopiesStand(m: Message, lines: seq<Line>, start: nat)
    requires start + m.duplicates + 1 == |lines| && lines[start] == m.line
    requires forall k :: start < k < |lines| ==> lines[k].Equal(m.line)
    ensures SameLines(Copies(m.line, m.duplicates + 1), lines[start..])
  {
    var rest := lines[start..];
    forall i | 0 <= i < |rest| ensures Same(m.line, rest[i]) {
      assert rest[i] == lines[start + i];
    }
  }

  /** Nothing is lost: expanding the messages gives the lines back, up to Equal. */
  lemma {:induction false} HeadsExpand(out: seq<Message>, lines: seq<Line>)
    requires HeadsOf(out, lines)
    ensures SameLines(Expand(out), lines)
  {
    if out != [] {
      var m := out[|out| - 1];
      var start := |lines| - (m.duplicates + 1);
      HeadsExpand(out[..|out| - 1], lines[..start]);
      CopiesStand(m, lines, start);
      StandTogether(Expand(out[..|out| - 1]), Copies(m.line, m.duplicates + 1), lines[..start], lines[start..]);
      assert lines[..start] + lines[start..] == lines;
    }
  }

  /** The messages cover the lines, and as few of them as possible do. */
  predicate Writes(out: seq<Message>, lines: seq<Line>) {
    HeadsOf(out, lines) && Compact(out)
  }

  lemma WritesFirst(line: Line)
    ensures Writes([Message(line, 0)], [line])
  {
    HeadsSnoc([], [], line);
    assert [] + [Message(line, 0)] == [Message(line, 0)] && [] + [line] == [line];
  }

  /** An equal line is counted with the last message. */
  lemma WritesMore(out: seq<Message>, m: Message, lines: seq<Line>, next: Line)
    requires Writes(out + [m], lines) && next.Equal(m.line)
    ensures Writes(out + [Message(m.line, m.duplicates + 1)], lines + [next])
  {
    HeadsMore(out, m, lines, next);
    var a, b := out + [m], out + [Message(m.line, m.duplicates + 1)];
    forall i | 0 <= i < |b| - 1 ensures !b[i + 1].line.Equal(b[i].line) {
      assert a[i + 1].line == b[i + 1].line && a[i].line == b[i].line;
    }
    forall i | 0 <= i < |b| && b[i].duplicates > 0 ensures b[i].line.tracer == None {
      assert i < |out| ==> a[i] == b[i];
    }
  }

  /** A line that differs begins a message of its own. */
  lemma WritesNext(out: seq<Message>, m: Message, lines: seq<Line>, next: Line)
    requires Writes(out + [m], lines) && !next.Equal(m.line)
    ensures Writes(out + [m] + [Message(next, 0)], lines + [next])
  {
    HeadsSnoc(out + [m], lines, next);
    var a, b := out + [m], out + [m] + [Message(next, 0)];
    forall i | 0 <= i < |b| - 1 ensures !b[i + 1].line.Equal(b[i].line) {
      assert a[i] == b[i] && (i + 1 < |a| ==> a[i + 1] == b[i + 1]);
    }
    forall i | 0 <= i < |b| && b[i].duplicates > 0 ensures b[i].line.tracer == None {
      assert i < |a| ==> a[i] == b[i];
    }
  }

  /** The drain loop of one round over the lines received in it, and the write of the last line. */
  method WriteRound(lines: seq<Line>) returns (out: seq<Message>)
    ensures HeadsOf(out, lines) && Compact(out)
    ensures SameLines(Expand(out), lines)
  {
    out := [];
    var currentLine: Option<Line> := None;
    var duplicates := 0;
    var i := 0;
    while i < |lines|
      invariant 0 <= i <= |lines|
      invariant currentLine == None <==> i == 0
      invariant currentLine == None ==> out == [] && duplicates == 0
      invariant currentLine.Some? ==> Writes(out + [Message(currentLine.value, duplicates)], lines[..i])
    {
      var nextLine := lines[i];
      ghost var seen := lines[..i];
      assert lines[..i + 1] == seen + [nextLine];
      i := i + 1;
      if currentLine == None {
        // First line of the round.
        WritesFirst(nextLine);
        currentLine := Some(nextLine);
        assert out + [Message(nextLine, 0)] == [Message(nextLine, 0)] && seen + [nextLine] == [nextLine];
      } else if nextLine.Equal(currentLine.value) {
        WritesMore(out, Message(currentLine.value, duplicates), seen, nextLine);
        duplicates := duplicates + 1;
      } else {
        WritesNext(out, Message(currentLine.value, duplicates), seen, nextLine);
        out := out + [Message(currentLine.value, duplicates)];
        duplicates := 0;
        currentLine := Some(nextLine);
      }
    }
    assert lines[..i] == lines;
    if currentLine.Some? {
      out := out + [Message(currentLine.value, duplicates)];
    }
    HeadsExpand(out, lines);
  }

  /** Each part writes the lines of its round. */
  predicate WritesRounds(parts: seq<seq<Message>>, rounds: seq<seq<Line>>) {
    |parts| == |rounds| && forall i :: 0 <= i < |rounds| ==> Writes(parts[i], rounds[i])
  }

  /** Traced lines are never counted with others. */
  predicate TracedAlone(out: seq<Message>) {
    forall i :: 0 <= i < |out| && out[i].duplicates > 0 ==> out[i].line.tracer == None
  }

  lemma BothStand(a: seq<Message>, b: seq<Message>, before: seq<Line>, round: seq<Line>)
    requires SameLines(Expand(a), before) && SameLines(Expand(b), round)
    ensures SameLines(Expand(a + b), before + round)
  {
    ExpandAppend(a, b);
    StandTogether(Expand(a), Expand(b), before, round);
  }

  lemma BothTracedAlone(a: seq<Message>, b: seq<Message>)
    requires TracedAlone(a) && TracedAlone(b)
    ensures TracedAlone(a + b)
  {
  }

  /** The messages of any number of rounds stand for all their lines, and traced lines stand alone. */
  lemma {:induction false} RoundsExpand(parts: seq<seq<Message>>, rounds: seq<seq<Line>>)
    requires WritesRounds(parts, rounds)
    ensures SameLines(Expand(Join(parts)), Join(rounds)) && TracedAlone(Join(parts))
    decreases |rounds|
  {
    if rounds != [] {
      var n := |rounds| - 1;
      RoundsExpand(parts[..n], rounds[..n]);
      assert Writes(parts[n], rounds[n]);
      HeadsExpand(parts[n], rounds[n]);
      BothStand(Join(parts[..n]), parts[n], Join(rounds[..n]), rounds[n]);
      BothTracedAlone(Join(parts[..n]), parts[n]);
    }
  }

  /** The writer over any number of rounds: the current line and its count start afresh in each, so the
      output is one part per round. */
  method Writer(rounds: seq<seq<Line>>) returns (out: seq<Message>, ghost parts: seq<seq<Message>>)
    ensures out == Join(parts) && WritesRounds(parts, rounds)
    ensures SameLines(Expand(out), Join(rounds)) && TracedAlone(out)
  {
    out, parts := [], [];
    var i := 0;
    while i < |rounds|
      invariant 0 <= i <= |rounds| && |parts| == i && out == Join(parts)
      invariant forall k :: 0 <= k < i ==> Writes(parts[k], rounds[k])
    {
      var written := WriteRound(rounds[i]);
      assert (parts + [written])[..i] == parts;
      out, parts := out + written, parts + [written];
      i := i + 1;
    }
    RoundsExpand(parts, rounds);
  }

  /** finalizeWriting: every line is a message of its own. */
  method WriteFinals(lines: seq<Line>) returns (out: seq<Message>)
    ensures Expand(out) == lines && |out| == |lines|
  {
    out := [];
    var i := 0;
    while i < |lines|
      invariant 0 <= i <= |lines| && Expand(out) == lines[..i] && |out| == i
    {
      ExpandSnoc(out, Message(lines[i], 0));
      assert lines[..i + 1] == lines[..i] + Copies(lines[i], 1);
      out := out + [Message(lines[i], 0)];
      i := i + 1;
    }
    assert lines[..i] == lines;
  }

  /** Equal lines in a row become one message: there is no other compact way to write the same lines
      when each message shows the first line it stands for. */
  lemma {:induction false} CompactUnique(a: seq<Message>, b: seq<Message>, lines: seq<Line>)
    requires Writes(a, lines) && Writes(b, lines)
    ensures a == b
    decreases |a|
  {
    if a != [] && b != [] {
      LastNotLonger(a, b, lines);
      LastNotLonger(b, a, lines);
      var m := a[|a| - 1];
      CompactUnique(a[..|a| - 1], b[..|b| - 1], lines[..|lines| - (m.duplicates + 1)]);
      assert a == a[..|a| - 1] + [m] && b == b[..|b| - 1] + [m];
    }
  }

  /** The last message cannot stand for more lines than that of another compact way. */
  lemma {:induction false} LastNotLonger(a: seq<Message>, b: seq<Message>, lines: seq<Line>)
    requires HeadsOf(a, lines) && HeadsOf(b, lines) && Compact(b) && a != [] && b != []
    ensures a[|a| - 1].duplicates <= b[|b| - 1].duplicates
    ensures a[|a| - 1].duplicates == b[|b| - 1].duplicates ==> a[|a| - 1] == b[|b| - 1]
  {
  }
}
