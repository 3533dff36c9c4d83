/** The command watchdog (hbird-ssh lib.rs `wait_with_timeout`): a child that writes to two
    bounded pipes, one thread that drains each pipe, and a parent that polls the child and
    kills it when its budget is spent.  Every interleaving of their steps is a run. */
module Watchdog {
  import opened Text

  // ---- the system -------------------------------------------------------------------

  datatype Stream = Stdout | Stderr

  /** One byte of the child's output. */
  datatype Write = Write(stream: Stream, byte: bv8)

  /** A thread in `read_to_end`: still reading, at the end of the file, or stopped by a read
      error or a panic, both of which the program ignores. */
  datatype Reader = Reading | Finished | Failed

  datatype Channel = Channel(pipe: seq<bv8>, drained: seq<bv8>, reader: Reader)

  datatype Child = Running | Ended(status: int)

  datatype Outcome = Output(status: int, stdout: seq<bv8>, stderr: seq<bv8>) | Timeout | WaitError

  /** Where the parent is: before `try_wait`, after one that found the child running, at the
      four calls of the expiry branch, at the two joins after the loop, or returned. */
  datatype Parent =
    | Polling
    | Unfinished
    | Killing
    | Reaping
    | DiscardingOut
    | DiscardingErr
    | JoiningOut(status: int)
    | JoiningErr(status: int, stdout: seq<bv8>)
    | Returned(outcome: Outcome)

  /** `plan` is everything the child would write, in order; `done` counts what it has written. */
  datatype System = System(plan: seq<Write>, done: nat, out: Channel, err: Channel, child: Child, parent: Parent,
                           elapsed: nat, killSent: bool, reaped: bool)

  datatype Limits = Limits(capacity: nat, budget: nat)

  datatype Action =
    | ChildWrites
    | ChildEnds(status: int)
    | Reads(stream: Stream, count: nat)
    | SeesEnd(stream: Stream)
    | ReadFails(stream: Stream)
    | ReadPanics(stream: Stream)
    | TimePasses
    | TryWait
    | TryWaitFails
    | CheckBudget
    | Kill(delivered: bool)
    | Reap
    | ReapFails
    | Join

  const SIGKILL := -9

  function Chan(s: System, stream: Stream): Channel {
    if stream.Stdout? then s.out else s.err
  }

  function WithChan(s: System, stream: Stream, c: Channel): System {
    if stream.Stdout? then s.(out := c) else s.(err := c)
  }

  /** A write blocks on a full pipe; on a pipe that nobody reads any more the byte is lost. */
  function ChildWrite(l: Limits, s: System): Option<System>
    requires s.done < |s.plan|
  {
    var w := s.plan[s.done];
    var c := Chan(s, w.stream);
    var next := s.(done := s.done + 1);
    if c.reader.Failed? then Some(next)
    else if |c.pipe| < l.capacity then Some(WithChan(next, w.stream, c.(pipe := c.pipe + [w.byte])))
    else None
  }

  /** The step, if the system can take it. */
  function Apply(l: Limits, s: System, a: Action): Option<System> {
    match a
    case ChildWrites => if s.child.Running? && s.done < |s.plan| then ChildWrite(l, s) else None
    case ChildEnds(status) => if s.child.Running? then Some(s.(child := Ended(status))) else None
    case Reads(stream, count) =>
      var c := Chan(s, stream);
      if c.reader.Reading? && 1 <= count <= |c.pipe| then
        Some(WithChan(s, stream, c.(pipe := c.pipe[count..], drained := c.drained + c.pipe[..count])))
      else None
    case SeesEnd(stream) =>
      var c := Chan(s, stream);
      if c.reader.Reading? && c.pipe == [] && s.child.Ended? then Some(WithChan(s, stream, c.(reader := Finished)))
      else None
    case ReadFails(stream) =>
      var c := Chan(s, stream);
      if c.reader.Reading? then Some(WithChan(s, stream, c.(pipe := [], reader := Failed))) else None
    case ReadPanics(stream) =>
      // The thread's buffer is lost with it: joining it yields no bytes.
      var c := Chan(s, stream);
      if c.reader.Reading? then Some(WithChan(s, stream, Channel([], [], Failed))) else None
    case TimePasses => Some(s.(elapsed := s.elapsed + 1))
    case TryWait =>
      if !s.parent.Polling? then None
      else if s.child.Ended? then Some(s.(parent := JoiningOut(s.child.status), reaped := true))
      else Some(s.(parent := Unfinished))
    case TryWaitFails => if s.parent.Polling? then Some(s.(parent := Returned(WaitError))) else None
    case CheckBudget =>
      if s.parent.Unfinished? then Some(s.(parent := if l.budget <= s.elapsed then Killing else Polling)) else None
    case Kill(delivered) =>
      if s.parent.Killing? then
        var child := if delivered && s.child.Running? then Ended(SIGKILL) else s.child;
        Some(s.(parent := Reaping, killSent := true, child := child))
      else None
    case Reap =>
      if s.parent.Reaping? && s.child.Ended? then Some(s.(parent := DiscardingOut, reaped := true)) else None
    case ReapFails => if s.parent.Reaping? then Some(s.(parent := DiscardingOut)) else None
    case Join => JoinStep(s)
  }

  /** A join waits until the thread has stopped. */
  function JoinStep(s: System): Option<System> {
    match s.parent
    case DiscardingOut => if s.out.reader.Reading? then None else Some(s.(parent := DiscardingErr))
    case DiscardingErr => if s.err.reader.Reading? then None else Some(s.(parent := Returned(Timeout)))
    case JoiningOut(status) =>
      if s.out.reader.Reading? then None else Some(s.(parent := JoiningErr(status, s.out.drained)))
    case JoiningErr(status, stdout) =>
      if s.err.reader.Reading? then None else Some(s.(parent := Returned(Output(status, stdout, s.err.drained))))
    case _ => None
  }

  // ---- runs -------------------------------------------------------------------------

  predicate Init(s: System) {
    && s.done == 0 && s.out == Channel([], [], Reading) && s.err == Channel([], [], Reading)
    && s.child.Running? && s.parent.Polling? && s.elapsed == 0 && !s.killSent && !s.reaped
  }

  /** The system when the child has been spawned. */
  function Spawned(plan: seq<Write>): (s: System)
    ensures Init(s) && s.plan == plan
  {
    System(plan, 0, Channel([], [], Reading), Channel([], [], Reading), Running, Polling, 0, false, false)
  }

  predicate StepBy(l: Limits, s: System, a: Action, t: System) {
    Apply(l, s, a) == Some(t)
  }

  /** `run` starts initially and `acts[i]` leads from state `i` to the next. */
  predicate Execution(l: Limits, run: seq<System>, acts: seq<Action>) {
    && |run| == |acts| + 1 && Init(run[0])
    && forall i :: 0 <= i < |acts| ==> StepBy(l, run[i], acts[i], run[i + 1])
  }

  // ---- what the child has written ---------------------------------------------------

  /** The bytes among the writes that go to one stream. */
  function Project(writes: seq<Write>, stream: Stream): seq<bv8> {
    if writes == [] then []
    else
      var last := writes[|writes| - 1];
      Project(writes[..|writes| - 1], stream) + if last.stream == stream then [last.byte] else []
  }

  /** What the child has written to a stream so far. */
  function Written(s: System, stream: Stream): seq<bv8>
    requires s.done <= |s.plan|
  {
    Project(s.plan[..s.done], stream)
  }

  lemma {:induction false} ProjectAppend(a: seq<Write>, b: seq<Write>, stream: Stream)
    ensures Project(a + b, stream) == Project(a, stream) + Project(b, stream)
    decreases |b|
  {
    if b == [] {
      assert a + b == a;
    } else {
      var front := b[..|b| - 1];
      assert (a + b)[..|a + b| - 1] == a + front;
      ProjectAppend(a, front, stream);
    }
  }

  lemma {:induction false} WriteExtends(s: System, stream: Stream)
    requires s.done < |s.plan|
    ensures var w := s.plan[s.done];
            Written(s.(done := s.done + 1), stream) == Written(s, stream) + if w.stream == stream then [w.byte] else []
  {
    assert s.plan[..s.done + 1][..s.done] == s.plan[..s.done];
  }

  // ---- the invariant ----------------------------------------------------------------

  /** Until its reader fails, drained bytes and pipe contents are what was written, in order. */
  predicate ChannelInv(l: Limits, s: System, stream: Stream)
    requires s.done <= |s.plan|
  {
    var c := Chan(s, stream);
    && |c.pipe| <= l.capacity
    && match c.reader
       case Reading => c.drained + c.pipe == Written(s, stream)
       case Finished => c.pipe == [] && c.drained == Written(s, stream) && s.child.Ended?
       case Failed => c.pipe == [] && c.drained <= Written(s, stream)
  }

  predicate ParentInv(l: Limits, s: System) {
    match s.parent
    case Polling => !s.killSent && !s.reaped
    case Unfinished => !s.killSent && !s.reaped
    case Killing => !s.killSent && !s.reaped && l.budget <= s.elapsed
    case Reaping => s.killSent && !s.reaped && l.budget <= s.elapsed
    case DiscardingOut => s.killSent && (s.reaped ==> s.child.Ended?) && l.budget <= s.elapsed
    case DiscardingErr =>
      s.killSent && (s.reaped ==> s.child.Ended?) && l.budget <= s.elapsed && !s.out.reader.Reading?
    case JoiningOut(status) => !s.killSent && s.reaped && s.child == Ended(status)
    case JoiningErr(status, stdout) =>
      !s.killSent && s.reaped && s.child == Ended(status) && !s.out.reader.Reading? && stdout == s.out.drained
    case Returned(Output(status, stdout, stderr)) =>
      && !s.killSent && s.reaped && s.child == Ended(status) && !s.out.reader.Reading? && !s.err.reader.Reading?
      && stdout == s.out.drained && stderr == s.err.drained
    case Returned(Timeout) =>
      && s.killSent && (s.reaped ==> s.child.Ended?) && l.budget <= s.elapsed
      && !s.out.reader.Reading? && !s.err.reader.Reading?
    case Returned(WaitError) => !s.killSent && !s.reaped
  }

  predicate Inv(l: Limits, s: System) {
    && s.done <= |s.plan| && ChannelInv(l, s, Stdout) && ChannelInv(l, s, Stderr) && ParentInv(l, s)
  }

  lemma {:induction false} WriteKeepsChannel(l: Limits, s: System, stream: Stream)
    requires s.done < |s.plan| && ChannelInv(l, s, stream) && ChildWrite(l, s).Some? && s.child.Running?
    ensures ChannelInv(l, ChildWrite(l, s).value, stream)
  {
    hide Project;
    WriteExtends(s, stream);
    var (c, w) := (Chan(s, stream), s.plan[s.done]);
    assert Written(ChildWrite(l, s).value, stream) == Written(s.(done := s.done + 1), stream);
    assert c.drained + (c.pipe + [w.byte]) == c.drained + c.pipe + [w.byte];
  }

  predicate IsReaderStep(a: Action) {
    a.Reads? || a.SeesEnd? || a.ReadFails? || a.ReadPanics?
  }

  lemma {:induction false} SameWritten(s: System, t: System, stream: Stream)
    requires s.done <= |s.plan| && t.plan == s.plan && t.done == s.done
    ensures Written(t, stream) == Written(s, stream)
  {
  }

  lemma {:induction false} ReaderKeepsChannel(l: Limits, s: System, a: Action, stream: Stream)
    requires s.done <= |s.plan| && ChannelInv(l, s, stream) && Apply(l, s, a).Some? && IsReaderStep(a)
    ensures var t := Apply(l, s, a).value; t.done <= |t.plan| && ChannelInv(l, t, stream)
  {
    hide Written, JoinStep, ChildWrite;
    SameWritten(s, Apply(l, s, a).value, stream);
    if a.Reads? && a.stream == stream {
      BytesMove(Chan(s, stream), a.count);
    }
  }

  lemma {:induction false} BytesMove(c: Channel, count: nat)
    requires count <= |c.pipe|
    ensures c.drained + c.pipe[..count] + c.pipe[count..] == c.drained + c.pipe
  {
  }

  /** Every other step leaves the channels and the child's writes as they are. */
  lemma {:induction false} OthersKeepChannels(l: Limits, s: System, a: Action)
    requires Apply(l, s, a).Some? && !IsReaderStep(a) && !a.ChildWrites?
    ensures var t := Apply(l, s, a).value;
            && t.plan == s.plan && t.done == s.done && t.out == s.out && t.err == s.err
            && (s.child.Ended? ==> t.child == s.child)
  {
  }

  lemma {:induction false} StepKeepsChannel(l: Limits, s: System, a: Action, stream: Stream)
    requires s.done <= |s.plan| && ChannelInv(l, s, stream) && Apply(l, s, a).Some?
    ensures var t := Apply(l, s, a).value; t.done <= |t.plan| && ChannelInv(l, t, stream)
  {
    hide Written, JoinStep, ChildWrite;
    if a.ChildWrites? {
      WriteKeepsChannel(l, s, stream);
      WriteCounts(l, s);
    } else if IsReaderStep(a) {
      ReaderKeepsChannel(l, s, a, stream);
    } else {
      OthersKeepChannels(l, s, a);
      SameWritten(s, Apply(l, s, a).value, stream);
    }
  }

  lemma {:induction false} WriteCounts(l: Limits, s: System)
    requires s.done < |s.plan| && ChildWrite(l, s).Some?
    ensures var t := ChildWrite(l, s).value; t.plan == s.plan && t.done == s.done + 1
  {
  }

  lemma {:induction false} StepKeepsParent(l: Limits, s: System, a: Action)
    requires ParentInv(l, s) && Apply(l, s, a).Some?
    ensures ParentInv(l, Apply(l, s, a).value)
  {
  }

  lemma {:induction false} StepKeepsInv(l: Limits, s: System, a: Action)
    requires Inv(l, s) && Apply(l, s, a).Some?
    ensures Inv(l, Apply(l, s, a).value)
  {
    hide ChannelInv, ParentInv, Apply;
    StepKeepsChannel(l, s, a, Stdout);
    StepKeepsChannel(l, s, a, Stderr);
    StepKeepsParent(l, s, a);
  }

  // ---- whole runs -------------------------------------------------------------------

  lemma {:induction false} InitIsInv(l: Limits, s: System)
    requires Init(s)
    ensures Inv(l, s)
  {
    assert s.plan[..0] == [];
  }

  lemma {:induction false} ExecutionKeepsInv(l: Limits, run: seq<System>, acts: seq<Action>, i: nat)
    requires Execution(l, run, acts) && i < |run|
    ensures Inv(l, run[i]) && run[i].plan == run[0].plan
  {
    hide Inv, Apply, Init;
    if i == 0 {
      InitIsInv(l, run[0]);
    } else {
      ExecutionKeepsInv(l, run, acts, i - 1);
      assert StepBy(l, run[i - 1], acts[i - 1], run[i - 1 + 1]);
      StepKeepsInv(l, run[i - 1], acts[i - 1]);
      StepKeepsPlan(l, run[i - 1], acts[i - 1]);
    }
  }

  lemma {:induction false} StepKeepsPlan(l: Limits, s: System, a: Action)
    requires Apply(l, s, a).Some?
    ensures Apply(l, s, a).value.plan == s.plan
  {
  }

  /** In every state of every run, and for each stream whose reader has not failed: drained
      bytes, then pipe contents, then the bytes still to be written are the full output. */
  lemma {:induction false} BytesAreConserved(l: Limits, run: seq<System>, acts: seq<Action>, i: nat, stream: Stream)
    requires Execution(l, run, acts) && i < |run|
    ensures var (s, c) := (run[i], Chan(run[i], stream));
            && s.done <= |s.plan|
            && (c.reader.Failed? || c.drained + c.pipe + Project(s.plan[s.done..], stream) == Project(run[0].plan, stream))
  {
    hide Execution, ParentInv, Project;
    ExecutionKeepsInv(l, run, acts, i);
    var s := run[i];
    ProjectAppend(s.plan[..s.done], s.plan[s.done..], stream);
    assert s.plan[..s.done] + s.plan[s.done..] == s.plan;
    var c := Chan(s, stream);
    assert c.drained + [] == c.drained;
  }

  // ---- when an output is complete --------------------------------------------------------

  /** The thread of the stream stops before the end of the file. */
  predicate IsStop(a: Action, stream: Stream) {
    (a.ReadFails? || a.ReadPanics?) && a.stream == stream
  }

  /** What the child writes to a stream between two states. */
  function WrittenSince(s: System, t: System, stream: Stream): seq<bv8> {
    if s.done <= t.done <= |t.plan| then Project(t.plan[s.done..t.done], stream) else []
  }

  /** Stopping the thread in state `s` cost none of what was written up to state `t`: a read
      error costs what is in the pipe and what comes later, a panic everything. */
  predicate IsHarmless(a: Action, s: System, t: System, stream: Stream) {
    && WrittenSince(s, t, stream) == [] && Chan(s, stream).pipe == []
    && (a.ReadPanics? ==> Chan(s, stream).drained == [])
  }

  /** Every stop of the stream's thread before state `i` was harmless. */
  predicate NothingLost(run: seq<System>, acts: seq<Action>, i: nat, stream: Stream)
    requires i <= |acts| && |run| == |acts| + 1
  {
    forall k :: 0 <= k < i && IsStop(acts[k], stream) ==> IsHarmless(acts[k], run[k], run[i], stream)
  }

  lemma {:induction false} StepAndReader(l: Limits, s: System, a: Action, stream: Stream)
    requires Apply(l, s, a).Some?
    ensures var (c, d) := (Chan(s, stream), Chan(Apply(l, s, a).value, stream));
            && (IsStop(a, stream) ==> c.reader.Reading? && d.reader.Failed?
                                      && d.drained == if a.ReadPanics? then [] else c.drained)
            && (!IsStop(a, stream) ==> (d.reader.Failed? <==> c.reader.Failed?))
            && (c.reader.Failed? ==> d.drained == c.drained)
            && s.done <= Apply(l, s, a).value.done
  {
  }

  /** A thread that has failed was stopped in one step and has kept its bytes since. */
  lemma {:induction false} StoppedOnce(l: Limits, run: seq<System>, acts: seq<Action>, i: nat, stream: Stream)
    returns (k: nat)
    requires Execution(l, run, acts) && i < |run|
    ensures forall j :: 0 <= j < i && IsStop(acts[j], stream) ==> j == k && Chan(run[i], stream).reader.Failed?
    ensures Chan(run[i], stream).reader.Failed? ==>
      && k < i && IsStop(acts[k], stream) && Chan(run[k], stream).reader.Reading? && run[k].done <= run[i].done
      && Chan(run[i], stream).drained == if acts[k].ReadPanics? then [] else Chan(run[k], stream).drained
  {
    hide Apply, IsStop;
    if i == 0 {
      k := 0;
    } else {
      k := StoppedOnce(l, run, acts, i - 1, stream);
      assert StepBy(l, run[i - 1], acts[i - 1], run[i - 1 + 1]);
      StepAndReader(l, run[i - 1], acts[i - 1], stream);
      if IsStop(acts[i - 1], stream) {
        k := i - 1;
      }
    }
  }

  lemma {:induction false} WrittenInParts(s: System, t: System, stream: Stream)
    requires s.plan == t.plan && s.done <= t.done <= |t.plan|
    ensures Written(t, stream) == Written(s, stream) + WrittenSince(s, t, stream)
  {
    ProjectAppend(t.plan[..s.done], t.plan[s.done..t.done], stream);
    assert t.plan[..s.done] + t.plan[s.done..t.done] == t.plan[..t.done];
  }

  lemma {:induction false} NothingAfter(a: seq<bv8>, b: seq<bv8>, c: seq<bv8>)
    ensures a == a + b + c <==> b == [] && c == []
    ensures a + b + c == [] <==> a == [] && b == [] && c == []
  {
    assert |a + b + c| == |a| + |b| + |c|;
    if b == [] && c == [] {
      assert a + b + c == a;
    }
  }

  /** Once a thread has stopped, it holds exactly what the child has written to its stream if
      and only if no stop of it was harmful. */
  lemma {:induction false} DrainedIsCompleteIff(l: Limits, run: seq<System>, acts: seq<Action>, i: nat, stream: Stream)
    requires Execution(l, run, acts) && i < |run| && !Chan(run[i], stream).reader.Reading?
    ensures run[i].done <= |run[i].plan|
    ensures Chan(run[i], stream).drained == Written(run[i], stream) <==> NothingLost(run, acts, i, stream)
  {
    hide Execution, ParentInv, Written, WrittenSince, IsStop;
    ExecutionLength(l, run, acts);
    ExecutionKeepsInv(l, run, acts, i);
    var k := StoppedOnce(l, run, acts, i, stream);
    if Chan(run[i], stream).reader.Failed? {
      ExecutionKeepsInv(l, run, acts, k);
      WrittenInParts(run[k], run[i], stream);
      var c := Chan(run[k], stream);
      NothingAfter(c.drained, c.pipe, WrittenSince(run[k], run[i], stream));
      assert NothingLost(run, acts, i, stream) <==> IsHarmless(acts[k], run[k], run[i], stream);
    }
  }

  /** A returned output is that of a child that ended by itself and was reaped, with its exit
      status.  Each stream's bytes are exactly what the child wrote to it if and only if no
      stop of its thread was harmful. */
  lemma {:induction false} OutputIsExact(l: Limits, run: seq<System>, acts: seq<Action>, i: nat)
    requires Execution(l, run, acts) && i < |run|
    requires run[i].parent.Returned? && run[i].parent.outcome.Output?
    ensures |run| == |acts| + 1
    ensures var (s, o) := (run[i], run[i].parent.outcome);
            && s.child == Ended(o.status) && s.reaped && !s.killSent && s.done <= |s.plan|
            && o.stdout <= Written(s, Stdout) && o.stderr <= Written(s, Stderr)
            && (o.stdout == Written(s, Stdout) <==> NothingLost(run, acts, i, Stdout))
            && (o.stderr == Written(s, Stderr) <==> NothingLost(run, acts, i, Stderr))
  {
    hide Execution, Written, NothingLost;
    ExecutionLength(l, run, acts);
    ExecutionKeepsInv(l, run, acts, i);
    DrainedIsCompleteIff(l, run, acts, i, Stdout);
    DrainedIsCompleteIff(l, run, acts, i, Stderr);
  }

  /** A returned output is the whole output of a child that has written all it had to write if
      and only if no stop of either thread was harmful; without any stop it always is. */
  lemma {:induction false} OutputIsComplete(l: Limits, run: seq<System>, acts: seq<Action>, i: nat)
    requires Execution(l, run, acts) && i < |run|
    requires run[i].parent.Returned? && run[i].parent.outcome.Output? && run[i].done == |run[0].plan|
    ensures |run| == |acts| + 1 && run[i].child.Ended?
    ensures run[i].parent.outcome
         == Output(run[i].child.status, Project(run[0].plan, Stdout), Project(run[0].plan, Stderr))
      <==> NothingLost(run, acts, i, Stdout) && NothingLost(run, acts, i, Stderr)
    ensures (forall k :: 0 <= k < i ==> !IsStop(acts[k], Stdout) && !IsStop(acts[k], Stderr)) ==>
      NothingLost(run, acts, i, Stdout) && NothingLost(run, acts, i, Stderr)
  {
    hide Execution, Written, Project, IsHarmless, IsStop;
    ExecutionKeepsInv(l, run, acts, i);
    OutputIsExact(l, run, acts, i);
    AllWritten(run[i]);
  }

  lemma {:induction false} AllWritten(s: System)
    requires s.done == |s.plan|
    ensures forall stream :: Written(s, stream) == Project(s.plan, stream)
  {
    assert s.plan[..s.done] == s.plan;
  }

  /** A read error can cut an output short without any error: here the child's only byte is
      lost and the result is an empty success. */
  lemma {:induction false} OutputCutShort(l: Limits, byte: bv8) returns (run: seq<System>, acts: seq<Action>)
    requires 0 < l.capacity
    ensures Execution(l, run, acts)
    ensures var s := run[|run| - 1];
            && s.parent == Returned(Output(0, [], [])) && s.done <= |s.plan| && Written(s, Stdout) == [byte]
            && !NothingLost(run, acts, |acts|, Stdout)
  {
    hide Execution, NothingLost, Written;
    var s := LostByte(byte).(child := Ended(0));
    run, acts := ByteIsLost(l, byte);
    run, acts := Extended(l, run, acts, LostByte(byte), ChildEnds(0));
    run, acts := Extended(l, run, acts, s, SeesEnd(Stderr));
    s := s.(err := Channel([], [], Finished));
    run, acts := Extended(l, run, acts, s, TryWait);
    s := s.(parent := JoiningOut(0), reaped := true);
    run, acts := Extended(l, run, acts, s, Join);
    s := s.(parent := JoiningErr(0, []));
    run, acts := Extended(l, run, acts, s, Join);
    s := s.(parent := Returned(Output(0, [], [])));
    OneByteWritten(s, byte);
    OutputIsExact(l, run, acts, |acts|);
  }

  /** One byte was written, and reading it failed. */
  function LostByte(byte: bv8): System {
    Spawned([Write(Stdout, byte)]).(done := 1, out := Channel([], [], Failed))
  }

  lemma {:induction false} ByteIsLost(l: Limits, byte: bv8) returns (run: seq<System>, acts: seq<Action>)
    requires 0 < l.capacity
    ensures Execution(l, run, acts) && |run| == |acts| + 1 && run[|run| - 1] == LostByte(byte)
  {
    hide Execution;
    var s := Spawned([Write(Stdout, byte)]);
    run, acts := Start(l, s.plan);
    assert s.out.pipe + [byte] == [byte];
    run, acts := Extended(l, run, acts, s, ChildWrites);
    s := s.(done := 1, out := Channel([byte], [], Reading));
    run, acts := Extended(l, run, acts, s, ReadFails(Stdout));
  }

  lemma {:induction false} Start(l: Limits, plan: seq<Write>) returns (run: seq<System>, acts: seq<Action>)
    ensures Execution(l, run, acts) && |run| == |acts| + 1 && run[|run| - 1] == Spawned(plan)
  {
    run, acts := [Spawned(plan)], [];
  }

  lemma {:induction false} Extended(l: Limits, run: seq<System>, acts: seq<Action>, s: System, a: Action)
    returns (run': seq<System>, acts': seq<Action>)
    requires Execution(l, run, acts) && |run| == |acts| + 1 && run[|run| - 1] == s && Apply(l, s, a).Some?
    ensures Execution(l, run', acts') && |run'| == |acts'| + 1 && run'[|run'| - 1] == Apply(l, s, a).value
  {
    hide Apply, Init;
    run', acts' := run + [Apply(l, s, a).value], acts + [a];
  }

  lemma {:induction false} OneByteWritten(s: System, byte: bv8)
    requires s.plan == [Write(Stdout, byte)] && s.done == 1
    ensures Written(s, Stdout) == [byte]
  {
    var p := s.plan[..1];
    assert p == [Write(Stdout, byte)] && p[..0] == [];
    assert Project(p[..0], Stdout) == [];
  }

  // ---- after the budget is spent ----------------------------------------------------------

  predicate IsPastReap(p: Parent) {
    p.DiscardingOut? || p.DiscardingErr? || p == Returned(Timeout)
  }

  lemma {:induction false} StepAndReap(l: Limits, s: System, a: Action)
    requires Apply(l, s, a).Some? && ParentInv(l, s)
    ensures var t := Apply(l, s, a).value;
            && (a.ReapFails? ==> !IsPastReap(s.parent) && IsPastReap(t.parent) && !t.reaped)
            && (IsPastReap(s.parent) ==> IsPastReap(t.parent) && t.reaped == s.reaped)
            && (!IsPastReap(s.parent) && IsPastReap(t.parent) && !a.ReapFails? ==> t.reaped)
  {
  }

  /** Past the reaping call, the child was reaped exactly when the call did not fail. */
  lemma {:induction false} ReapedIff(l: Limits, run: seq<System>, acts: seq<Action>, i: nat)
    requires Execution(l, run, acts) && i < |run|
    ensures |run| == |acts| + 1
    ensures IsPastReap(run[i].parent) ==> (run[i].reaped <==> forall k :: 0 <= k < i ==> !acts[k].ReapFails?)
    ensures !IsPastReap(run[i].parent) ==> forall k :: 0 <= k < i ==> !acts[k].ReapFails?
  {
    hide Apply, ParentInv;
    if i > 0 {
      ReapedIff(l, run, acts, i - 1);
      assert StepBy(l, run[i - 1], acts[i - 1], run[i - 1 + 1]);
      ExecutionKeepsInv(l, run, acts, i - 1);
      StepAndReap(l, run[i - 1], acts[i - 1]);
    }
  }

  /** A timeout is reported only when the budget is spent, the kill was sent and both threads
      have stopped.  The child was reaped if and only if the reaping call, whose failure the
      program ignores, did not fail; a child that still runs was not reaped and both threads
      were stopped by errors. */
  lemma {:induction false} TimeoutIsLast(l: Limits, run: seq<System>, acts: seq<Action>, i: nat)
    requires Execution(l, run, acts) && i < |run| && run[i].parent == Returned(Timeout)
    ensures |run| == |acts| + 1
    ensures var s := run[i];
            && l.budget <= s.elapsed && s.killSent && !s.out.reader.Reading? && !s.err.reader.Reading?
            && (s.reaped <==> forall k :: 0 <= k < i ==> !acts[k].ReapFails?)
            && (s.child.Running? ==> !s.reaped && s.out.reader.Failed? && s.err.reader.Failed?)
  {
    hide Execution, Written;
    ExecutionKeepsInv(l, run, acts, i);
    ReapedIff(l, run, acts, i);
  }

  /** A timeout can be reported while the child still runs: the kill, the reaping call and
      both reads failed. */
  lemma {:induction false} TimeoutOfRunningChild(l: Limits, plan: seq<Write>) returns (run: seq<System>, acts: seq<Action>)
    ensures Execution(l, run, acts)
    ensures var s := run[|run| - 1]; s.parent == Returned(Timeout) && s.child.Running? && !s.reaped
  {
    hide Execution;
    var s := Spawned(plan).(elapsed := l.budget);
    run, acts := Waited(l, plan, l.budget);
    run, acts := Extended(l, run, acts, s, TryWait);
    s := s.(parent := Unfinished);
    run, acts := Extended(l, run, acts, s, CheckBudget);
    s := s.(parent := Killing);
    run, acts := Extended(l, run, acts, s, Kill(false));
    s := s.(parent := Reaping, killSent := true);
    run, acts := Extended(l, run, acts, s, ReapFails);
    s := s.(parent := DiscardingOut);
    run, acts := Extended(l, run, acts, s, ReadFails(Stdout));
    s := s.(out := Channel([], [], Failed));
    run, acts := Extended(l, run, acts, s, ReadFails(Stderr));
    s := s.(err := Channel([], [], Failed));
    run, acts := Extended(l, run, acts, s, Join);
    s := s.(parent := DiscardingErr);
    run, acts := Extended(l, run, acts, s, Join);
  }

  /** An execution in which `n` ticks pass and nothing else happens. */
  lemma {:induction false} Waited(l: Limits, plan: seq<Write>, n: nat) returns (run: seq<System>, acts: seq<Action>)
    ensures Execution(l, run, acts) && |run| == |acts| + 1 && run[|run| - 1] == Spawned(plan).(elapsed := n)
  {
    hide Execution;
    if n == 0 {
      run, acts := Start(l, plan);
    } else {
      run, acts := Waited(l, plan, n - 1);
      run, acts := Extended(l, run, acts, Spawned(plan).(elapsed := n - 1), TimePasses);
    }
  }

  /** The kill is sent only to a child whose budget is spent, and no outcome but the timeout
      follows it. */
  lemma {:induction false} KillMeansTimeout(l: Limits, run: seq<System>, acts: seq<Action>, i: nat)
    requires Execution(l, run, acts) && i < |run| && run[i].killSent
    ensures l.budget <= run[i].elapsed
    ensures run[i].parent.Returned? ==> run[i].parent.outcome == Timeout
  {
    hide Execution, ChannelInv;
    ExecutionKeepsInv(l, run, acts, i);
  }

  // ---- progress ---------------------------------------------------------------------

  predicate Enabled(l: Limits, s: System, a: Action) {
    Apply(l, s, a).Some?
  }

  /** A child that cannot write because its pipe is full can always be relieved: the thread of
      that pipe can read. */
  lemma {:induction false} BlockedWriterIsRelieved(l: Limits, run: seq<System>, acts: seq<Action>, i: nat)
    requires Execution(l, run, acts) && i < |run| && 0 < l.capacity
    requires run[i].child.Running? && run[i].done < |run[i].plan| && !Enabled(l, run[i], ChildWrites)
    ensures Enabled(l, run[i], Reads(run[i].plan[run[i].done].stream, 1))
  {
    hide Execution, Written;
    ExecutionKeepsInv(l, run, acts, i);
  }

  /** When neither the child nor a thread can move bytes, a running child has written all it
      had to write and all of it is drained, and after the child's end both threads have
      stopped. */
  lemma {:induction false} QuietMeansDrained(l: Limits, run: seq<System>, acts: seq<Action>, i: nat, stream: Stream)
    requires Execution(l, run, acts) && i < |run| && 0 < l.capacity
    requires !Enabled(l, run[i], ChildWrites)
    requires !Enabled(l, run[i], Reads(Stdout, 1)) && !Enabled(l, run[i], Reads(Stderr, 1))
    requires !Enabled(l, run[i], SeesEnd(stream))
    ensures var (s, c) := (run[i], Chan(run[i], stream));
            && (s.child.Running? ==> s.done == |s.plan| && (c.reader.Failed? || c.drained == Project(run[0].plan, stream)))
            && (s.child.Ended? ==> !c.reader.Reading?)
  {
    hide Execution, Written, Project;
    ExecutionKeepsInv(l, run, acts, i);
    var (s, c) := (run[i], Chan(run[i], stream));
    if s.child.Running? {
      if s.done < |s.plan| {
        BlockedWriterIsRelieved(l, run, acts, i);
      }
      AllWritten(s);
      assert c.drained + [] == c.drained;
    }
  }

  /** A join that has to wait is for a thread that can go on, unless it waits for a child that
      still runs because killing and reaping it failed. */
  lemma {:induction false} JoinGetsThrough(l: Limits, run: seq<System>, acts: seq<Action>, i: nat)
    requires Execution(l, run, acts) && i < |run|
    requires run[i].parent.DiscardingOut? || run[i].parent.DiscardingErr? || run[i].parent.JoiningOut? || run[i].parent.JoiningErr?
    ensures var stream := if run[i].parent.DiscardingOut? || run[i].parent.JoiningOut? then Stdout else Stderr;
            || Enabled(l, run[i], Join) || Enabled(l, run[i], Reads(stream, 1)) || Enabled(l, run[i], SeesEnd(stream))
            || (run[i].child.Running? && run[i].killSent && !run[i].reaped)
  {
    hide Execution, ChannelInv;
    ExecutionKeepsInv(l, run, acts, i);
  }

  predicate MovesBytes(a: Action) {
    a.ChildWrites? || IsReaderStep(a)
  }

  function Open(c: Channel): nat {
    |c.pipe| + if c.reader.Reading? then 1 else 0
  }

  /** A bound on the steps of the child and the threads that are still possible. */
  function Work(s: System): nat
    requires s.done <= |s.plan|
  {
    2 * (|s.plan| - s.done) + Open(s.out) + Open(s.err)
  }

  lemma {:induction false} WorkDecreases(l: Limits, s: System, a: Action)
    requires s.done <= |s.plan| && Apply(l, s, a).Some?
    ensures var t := Apply(l, s, a).value;
            t.done <= |t.plan| && Work(t) + (if MovesBytes(a) then 1 else 0) <= Work(s)
  {
    if !MovesBytes(a) {
      OthersKeepChannels(l, s, a);
    }
  }

  function Moves(acts: seq<Action>): nat {
    if acts == [] then 0
    else Moves(acts[..|acts| - 1]) + if MovesBytes(acts[|acts| - 1]) then 1 else 0
  }

  /** No run moves bytes forever: the child and the threads together take at most two steps
      for each byte of the output and one for each thread. */
  lemma {:induction false} MovesAreBounded(l: Limits, run: seq<System>, acts: seq<Action>, i: nat)
    requires Execution(l, run, acts) && i < |run|
    ensures run[i].done <= |run[i].plan|
    ensures Moves(acts[..i]) + Work(run[i]) <= 2 * |run[0].plan| + 2
  {
    hide Apply, Work, MovesBytes;
    if i == 0 {
      StartingWork(run[0]);
    } else {
      MovesAreBounded(l, run, acts, i - 1);
      assert StepBy(l, run[i - 1], acts[i - 1], run[i - 1 + 1]);
      WorkDecreases(l, run[i - 1], acts[i - 1]);
      assert acts[..i][..i - 1] == acts[..i - 1];
    }
  }

  lemma {:induction false} StartingWork(s: System)
    requires Init(s)
    ensures Work(s) == 2 * |s.plan| + 2
  {
  }

  predicate IsParentCall(a: Action) {
    a.TryWait? || a.TryWaitFails? || a.CheckBudget? || a.Kill? || a.Reap? || a.ReapFails? || a.Join?
  }

  function ParentCalls(acts: seq<Action>): nat {
    if acts == [] then 0
    else ParentCalls(acts[..|acts| - 1]) + if IsParentCall(acts[|acts| - 1]) then 1 else 0
  }

  predicate IsInLoop(p: Parent) {
    p.Polling? || p.Unfinished?
  }

  /** Calls of the parent that can still be made without leaving the loop once the budget is
      spent: after one more `try_wait` the next call is the check that leaves it. */
  function CallsInLoop(p: Parent): nat {
    if p.Polling? then 1 else 0
  }

  lemma {:induction false} SpentStep(l: Limits, s: System, a: Action)
    requires l.budget <= s.elapsed && Apply(l, s, a).Some? && IsInLoop(Apply(l, s, a).value.parent)
    ensures var t := Apply(l, s, a).value;
            && l.budget <= t.elapsed && IsInLoop(s.parent)
            && CallsInLoop(t.parent) + (if IsParentCall(a) then 1 else 0) <= CallsInLoop(s.parent)
  {
  }

  /** Once the budget is spent, at most one more call of the parent stays in the loop; the next
      one finds the child ended, fails, or goes on to the kill. */
  lemma {:induction false} LoopEnds(l: Limits, run: seq<System>, acts: seq<Action>, i: nat, j: nat)
    requires Execution(l, run, acts) && i <= j < |run|
    requires l.budget <= run[i].elapsed && IsInLoop(run[j].parent)
    ensures |run| == |acts| + 1 && l.budget <= run[j].elapsed
    ensures IsInLoop(run[i].parent)
    ensures ParentCalls(acts[i..j]) + CallsInLoop(run[j].parent) <= CallsInLoop(run[i].parent) <= 1
    decreases j
  {
    hide Apply, IsParentCall, IsInLoop;
    ExecutionLength(l, run, acts);
    if i == j {
      assert acts[i..j] == [];
    } else {
      assert StepBy(l, run[j - 1], acts[j - 1], run[j - 1 + 1]);
      BudgetStaysSpent(l, run, acts, i, j - 1);
      SpentStep(l, run[j - 1], acts[j - 1]);
      LoopEnds(l, run, acts, i, j - 1);
      assert acts[i..j][..j - 1 - i] == acts[i..j - 1];
    }
  }

  lemma {:induction false} BudgetStaysSpent(l: Limits, run: seq<System>, acts: seq<Action>, i: nat, j: nat)
    requires Execution(l, run, acts) && i <= j < |run|
    ensures run[i].elapsed <= run[j].elapsed
    decreases j
  {
    hide Apply;
    if i < j {
      BudgetStaysSpent(l, run, acts, i, j - 1);
      assert StepBy(l, run[j - 1], acts[j - 1], run[j - 1 + 1]);
      ClockGoesOn(l, run[j - 1], acts[j - 1]);
    }
  }

  lemma {:induction false} ClockGoesOn(l: Limits, s: System, a: Action)
    requires Apply(l, s, a).Some?
    ensures s.elapsed <= Apply(l, s, a).value.elapsed
  {
  }

  /** After a kill that ended the child, on the way to the timeout. */
  predicate IsEnding(s: System) {
    s.child.Ended? && (s.parent.Reaping? || s.parent.DiscardingOut? || s.parent.DiscardingErr?)
  }

  /** A bound on the calls of the parent and the steps of the threads up to the timeout. */
  function Remaining(s: System): nat {
    (match s.parent
     case Reaping => 3
     case DiscardingOut => 2
     case DiscardingErr => 1
     case _ => 0)
    + Open(s.out) + Open(s.err)
  }

  predicate Helps(a: Action) {
    a.Reap? || a.ReapFails? || a.Join? || IsReaderStep(a)
  }

  lemma {:induction false} EndingStep(l: Limits, s: System, a: Action)
    requires IsEnding(s) && Apply(l, s, a).Some?
    ensures var t := Apply(l, s, a).value;
            && (IsEnding(t) || (t.parent == Returned(Timeout) && a.Join?))
            && Remaining(t) + (if Helps(a) then 1 else 0) <= Remaining(s)
  {
    if IsReaderStep(a) {
      EndingReaderStep(l, s, a);
    } else if !a.ChildWrites? {
      OthersKeepChannels(l, s, a);
    }
  }

  lemma {:induction false} EndingReaderStep(l: Limits, s: System, a: Action)
    requires IsEnding(s) && Apply(l, s, a).Some? && IsReaderStep(a)
    ensures IsEnding(Apply(l, s, a).value) && Remaining(Apply(l, s, a).value) + 1 <= Remaining(s)
  {
    hide Apply, Open;
    ReaderStepShrinks(l, s, a);
  }

  lemma {:induction false} ReaderStepShrinks(l: Limits, s: System, a: Action)
    requires Apply(l, s, a).Some? && IsReaderStep(a)
    ensures var t := Apply(l, s, a).value;
            && t.child == s.child && t.parent == s.parent
            && Open(t.out) + Open(t.err) + 1 <= Open(s.out) + Open(s.err)
  {
    hide JoinStep, ChildWrite;
  }

  lemma {:induction false} TimedOutStays(l: Limits, s: System, a: Action)
    requires s.parent == Returned(Timeout) && Apply(l, s, a).Some?
    ensures Apply(l, s, a).value.parent == Returned(Timeout)
  {
  }

  function Helpful(acts: seq<Action>): nat {
    if acts == [] then 0
    else Helpful(acts[..|acts| - 1]) + if Helps(acts[|acts| - 1]) then 1 else 0
  }

  /** As long as the timeout has not been returned, some call or some step of a thread is
      possible. */
  lemma {:induction false} EndingGoesOn(l: Limits, run: seq<System>, acts: seq<Action>, i: nat)
    requires Execution(l, run, acts) && i < |run| && IsEnding(run[i])
    ensures Enabled(l, run[i], Reap) || Enabled(l, run[i], Join)
         || exists stream :: Enabled(l, run[i], Reads(stream, 1)) || Enabled(l, run[i], SeesEnd(stream))
  {
    if !run[i].parent.Reaping? {
      JoinGetsThrough(l, run, acts, i);
    }
  }

  /** A kill that ends the child leads to the timeout in bounded time: from there on the run
      has not gone beyond `3 + 2 * (capacity + 1)` calls and thread steps without returning it. */
  lemma {:induction false} KillEndsInTimeout(l: Limits, run: seq<System>, acts: seq<Action>, i: nat, j: nat)
    requires Execution(l, run, acts) && i <= j < |run| && IsEnding(run[i])
    requires run[j].parent != Returned(Timeout)
    ensures |run| == |acts| + 1 && IsEnding(run[j])
    ensures Helpful(acts[i..j]) + Remaining(run[j]) <= Remaining(run[i]) <= 3 + 2 * (l.capacity + 1)
    decreases j
  {
    hide Apply, Helps;
    ExecutionLength(l, run, acts);
    ExecutionKeepsInv(l, run, acts, i);
    if i == j {
      assert acts[i..j] == [];
    } else {
      assert StepBy(l, run[j - 1], acts[j - 1], run[j - 1 + 1]);
      if run[j - 1].parent == Returned(Timeout) {
        TimedOutStays(l, run[j - 1], acts[j - 1]);
      } else {
        KillEndsInTimeout(l, run, acts, i, j - 1);
        EndingStep(l, run[j - 1], acts[j - 1]);
        assert acts[i..j][..j - 1 - i] == acts[i..j - 1];
      }
    }
  }

  /** Why the threads are there: as long as nobody reads a stream, the child never gets more
      than a pipe's capacity of it written. */
  lemma {:induction false} WithoutDrainingTheChildStops(l: Limits, run: seq<System>, acts: seq<Action>, i: nat, stream: Stream)
    requires Execution(l, run, acts) && i < |run|
    requires forall k :: 0 <= k < |acts| ==> !(IsReaderStep(acts[k]) && acts[k].stream == stream)
    ensures run[i].done <= |run[i].plan| && |Written(run[i], stream)| <= l.capacity
  {
    hide Execution, Written;
    ExecutionKeepsInv(l, run, acts, i);
    NobodyReads(l, run, acts, i, stream);
  }

  lemma {:induction false} NobodyReads(l: Limits, run: seq<System>, acts: seq<Action>, i: nat, stream: Stream)
    requires Execution(l, run, acts) && i < |run|
    requires forall k :: 0 <= k < |acts| ==> !(IsReaderStep(acts[k]) && acts[k].stream == stream)
    ensures Chan(run[i], stream).drained == [] && Chan(run[i], stream).reader.Reading?
  {
    hide Apply;
    if i > 0 {
      NobodyReads(l, run, acts, i - 1, stream);
      assert StepBy(l, run[i - 1], acts[i - 1], run[i - 1 + 1]);
      StepReadsNothing(l, run[i - 1], acts[i - 1], stream);
    }
  }

  lemma {:induction false} StepReadsNothing(l: Limits, s: System, a: Action, stream: Stream)
    requires Apply(l, s, a).Some? && !(IsReaderStep(a) && a.stream == stream)
    requires Chan(s, stream).drained == [] && Chan(s, stream).reader.Reading?
    ensures var c := Chan(Apply(l, s, a).value, stream); c.drained == [] && c.reader.Reading?
  {
  }

  // ---- the program ------------------------------------------------------------------

  /** Steps of the child, the threads and the clock. */
  predicate IsOther(a: Action) {
    MovesBytes(a) || a.ChildEnds? || a.TimePasses?
  }

  lemma {:induction false} OthersKeepParent(l: Limits, s: System, a: Action)
    requires IsOther(a) && Apply(l, s, a).Some?
    ensures Apply(l, s, a).value.parent == s.parent
  {
  }

  lemma {:induction false} ExecutionGrows(l: Limits, run: seq<System>, acts: seq<Action>, a: Action)
    requires Execution(l, run, acts) && Apply(l, run[|acts|], a).Some?
    ensures Execution(l, run + [Apply(l, run[|acts|], a).value], acts + [a])
  {
    hide Apply, Init;
    var (r, b) := (run + [Apply(l, run[|acts|], a).value], acts + [a]);
    forall i | 0 <= i < |b| ensures StepBy(l, r[i], b[i], r[i + 1]) {
      if i < |acts| {
        assert StepBy(l, run[i], acts[i], run[i + 1]);
      }
    }
  }

  // ---- the program as a function of what the others do ------------------------------

  /** The system after a step, if it is possible. */
  function Tried(l: Limits, s: System, a: Action): System {
    match Apply(l, s, a)
    case Some(t) => t
    case None => s
  }

  /** The system after a round in which the others take those of the steps that are possible. */
  function Others(l: Limits, s: System, steps: seq<Action>): System
    decreases |steps|
  {
    if steps == [] then s
    else Others(l, if IsOther(steps[0]) then Tried(l, s, steps[0]) else s, steps[1..])
  }

  /** How far the parent has come: the system, the rounds that are left, and whether its calls
      have come back. */
  datatype Progress = Progress(now: System, rest: seq<seq<Action>>, back: bool)

  /** A call that blocks until the step is possible, tried after each round. */
  function Awaited(l: Limits, s: System, a: Action, others: seq<seq<Action>>): Progress
    decreases |others|
  {
    if others == [] then Progress(s, [], false)
    else
      var t := Others(l, s, others[0]);
      match Apply(l, t, a)
      case Some(u) => Progress(u, others[1..], true)
      case None => Awaited(l, t, a, others[1..])
  }

  function AwaitedAll(l: Limits, s: System, calls: seq<Action>, others: seq<seq<Action>>): Progress
    decreases |calls|
  {
    if calls == [] then Progress(s, others, true)
    else
      var p := Awaited(l, s, calls[0], others);
      if p.back then AwaitedAll(l, p.now, calls[1..], p.rest) else p
  }

  /** The joins after the loop. */
  function Collected(l: Limits, s: System, others: seq<seq<Action>>): Progress {
    AwaitedAll(l, s, [Join, Join], others)
  }

  /** The expiry branch. */
  function Expired(l: Limits, s: System, others: seq<seq<Action>>, delivered: bool, reaps: bool): Progress {
    AwaitedAll(l, Tried(l, s, Kill(delivered)), [if reaps then Reap else ReapFails, Join, Join], others)
  }

  /** The whole call: in each round the others act, `try_wait` is called and the budget checked. */
  function Polled(l: Limits, s: System, others: seq<seq<Action>>, errors: nat, delivered: bool, reaps: bool): Progress
    decreases |others|
  {
    if others == [] then Progress(s, [], false)
    else
      var t := Others(l, s, others[0]);
      if errors == 0 then Progress(Tried(l, t, TryWaitFails), others[1..], true)
      else
        var u := Tried(l, t, TryWait);
        var v := Tried(l, u, CheckBudget);
        if u.parent.JoiningOut? then Collected(l, u, others[1..])
        else if v.parent.Killing? then Expired(l, v, others[1..], delivered, reaps)
        else Polled(l, v, others[1..], errors - 1, delivered, reaps)
  }

  // ---- when there is an outcome -----------------------------------------------------

  lemma {:induction false} OthersKeep(l: Limits, s: System, steps: seq<Action>)
    ensures var t := Others(l, s, steps);
            && t.parent == s.parent && s.elapsed <= t.elapsed && (s.child.Ended? ==> t.child == s.child)
            && (ChildEndsIn(steps) || t.child == s.child)
    ensures PipesFit(l, s) ==> PipesFit(l, Others(l, s, steps))
    decreases |steps|
  {
    hide Apply;
    if steps != [] {
      var next := if IsOther(steps[0]) then Tried(l, s, steps[0]) else s;
      if IsOther(steps[0]) {
        OtherKeeps(l, s, steps[0]);
      }
      OthersKeep(l, next, steps[1..]);
    }
  }

  predicate ChildEndsIn(steps: seq<Action>) {
    exists a :: a in steps && a.ChildEnds?
  }

  predicate PipesFit(l: Limits, s: System) {
    |s.out.pipe| <= l.capacity && |s.err.pipe| <= l.capacity
  }

  lemma {:induction false} OtherKeeps(l: Limits, s: System, a: Action)
    requires IsOther(a)
    ensures var t := Tried(l, s, a);
            && t.parent == s.parent && s.elapsed <= t.elapsed && (s.child.Ended? || !a.ChildEnds? ==> t.child == s.child)
            && (PipesFit(l, s) ==> PipesFit(l, t))
  {
    if Apply(l, s, a).Some? {
      OthersKeepParent(l, s, a);
    }
  }

  /** How many steps the thread of a stream still has to take before a join gets through. */
  function ToDrain(c: Channel): nat {
    if c.reader.Reading? then |c.pipe| + 1 else 0
  }

  lemma {:induction false} OtherDrains(l: Limits, s: System, a: Action, stream: Stream)
    requires s.child.Ended?
    ensures var t := if IsOther(a) then Tried(l, s, a) else s;
            && t.child == s.child && ToDrain(Chan(t, stream)) <= ToDrain(Chan(s, stream))
            && (ToDrain(Chan(t, stream)) == ToDrain(Chan(s, stream)) > 0 ==> Chan(t, stream).pipe == Chan(s, stream).pipe)
            && (s.out.reader.Reading? || !t.out.reader.Reading?) && (s.err.reader.Reading? || !t.err.reader.Reading?)
  {
  }

  lemma {:induction false} OthersDrain(l: Limits, s: System, steps: seq<Action>, stream: Stream)
    requires s.child.Ended?
    ensures ToDrain(Chan(Others(l, s, steps), stream)) <= ToDrain(Chan(s, stream))
    decreases |steps|
  {
    hide Apply, Chan, Tried;
    if steps != [] {
      OtherDrains(l, s, steps[0], stream);
      OthersDrain(l, if IsOther(steps[0]) then Tried(l, s, steps[0]) else s, steps[1..], stream);
    }
  }

  /** The step by which the thread of a stream goes on when the child has ended. */
  function Draining(c: Channel, stream: Stream): Action {
    if c.pipe == [] then SeesEnd(stream) else Reads(stream, 1)
  }

  lemma {:induction false} DrainingDrains(l: Limits, s: System, stream: Stream)
    requires s.child.Ended? && Chan(s, stream).reader.Reading?
    ensures var a := Draining(Chan(s, stream), stream);
            IsOther(a) && ToDrain(Chan(Tried(l, s, a), stream)) < ToDrain(Chan(s, stream))
  {
  }

  /** A round in which the thread of a stream is given its turn brings it closer to its end. */
  lemma {:induction false} RoundDrains(l: Limits, s: System, steps: seq<Action>, stream: Stream)
    requires s.child.Ended? && Chan(s, stream).reader.Reading? && Draining(Chan(s, stream), stream) in steps
    ensures ToDrain(Chan(Others(l, s, steps), stream)) < ToDrain(Chan(s, stream))
    decreases |steps|
  {
    hide Apply, Chan, Tried, IsOther;
    var next := if IsOther(steps[0]) then Tried(l, s, steps[0]) else s;
    OtherDrains(l, s, steps[0], stream);
    DrainingDrains(l, s, stream);
    if ToDrain(Chan(next, stream)) < ToDrain(Chan(s, stream)) {
      OthersDrain(l, next, steps[1..], stream);
    } else {
      RoundDrains(l, next, steps[1..], stream);
    }
  }

  lemma {:induction false} RoundTicks(l: Limits, s: System, steps: seq<Action>)
    requires TimePasses in steps
    ensures s.elapsed < Others(l, s, steps).elapsed
    decreases |steps|
  {
    hide Apply;
    var next := if IsOther(steps[0]) then Tried(l, s, steps[0]) else s;
    if IsOther(steps[0]) {
      OtherKeeps(l, s, steps[0]);
    }
    if steps[0] == TimePasses {
      TickTicks(l, s);
      OthersKeep(l, next, steps[1..]);
    } else {
      RoundTicks(l, next, steps[1..]);
    }
  }

  lemma {:induction false} TickTicks(l: Limits, s: System)
    ensures IsOther(TimePasses) && Tried(l, s, TimePasses).elapsed == s.elapsed + 1
  {
  }

  /** A round in which the clock goes on and both threads are given their turn. */
  predicate IsFair(steps: seq<Action>) {
    && TimePasses in steps && Reads(Stdout, 1) in steps && SeesEnd(Stdout) in steps
    && Reads(Stderr, 1) in steps && SeesEnd(Stderr) in steps
  }

  predicate AreFair(others: seq<seq<Action>>) {
    forall i :: 0 <= i < |others| ==> IsFair(others[i])
  }

  lemma {:induction false} RestIsFair(others: seq<seq<Action>>)
    requires AreFair(others) && others != []
    ensures IsFair(others[0]) && AreFair(others[1..])
  {
    hide IsFair;
  }

  /** The stream whose thread a parent waits for in a join, if it is at one. */
  function JoinedStream(p: Parent): Option<Stream> {
    match p
    case DiscardingOut => Some(Stdout)
    case JoiningOut(_) => Some(Stdout)
    case DiscardingErr => Some(Stderr)
    case JoiningErr(_, _) => Some(Stderr)
    case _ => None
  }

  /** After an ended child, before a call of the parent. */
  predicate IsDraining(l: Limits, s: System) {
    s.child.Ended? && PipesFit(l, s)
  }

  lemma {:induction false} JoinMoves(l: Limits, s: System)
    requires JoinedStream(s.parent).Some?
    ensures Apply(l, s, Join).Some? <==> !Chan(s, JoinedStream(s.parent).value).reader.Reading?
    ensures Apply(l, s, Join).Some? && IsDraining(l, s) ==> IsDraining(l, Apply(l, s, Join).value)
    ensures Apply(l, s, Join).Some? ==>
      var p := Apply(l, s, Join).value.parent;
      match s.parent
      case DiscardingOut => p.DiscardingErr?
      case DiscardingErr => p == Returned(Timeout)
      case JoiningOut(_) => p.JoiningErr?
      case _ => p.Returned? && p.outcome.Output?
  {
  }

  /** With fair rounds a join comes back after no more of them than a full pipe takes. */
  lemma {:induction false} JoinComesBack(l: Limits, s: System, others: seq<seq<Action>>)
    requires AreFair(others) && IsDraining(l, s) && JoinedStream(s.parent).Some?
    requires 1 <= |others| && ToDrain(Chan(s, JoinedStream(s.parent).value)) <= |others|
    ensures var (p, w) := (Awaited(l, s, Join, others), ToDrain(Chan(s, JoinedStream(s.parent).value)));
            && p.back && IsDraining(l, p.now) && AreFair(p.rest)
            && |others| <= |p.rest| + if w == 0 then 1 else w
    decreases |others|
  {
    hide Apply, Chan, IsFair, ToDrain, AreFair;
    var stream := JoinedStream(s.parent).value;
    var u := Others(l, s, others[0]);
    RestIsFair(others);
    OthersKeep(l, s, others[0]);
    OthersDrain(l, s, others[0], stream);
    JoinMoves(l, u);
    WaitsWhileReading(Chan(u, stream));
    WaitsWhileReading(Chan(s, stream));
    if Apply(l, u, Join).None? {
      FairRound(l, s, others[0], stream);
      JoinComesBack(l, u, others[1..]);
    }
  }

  lemma {:induction false} WaitsWhileReading(c: Channel)
    ensures 0 < ToDrain(c) <==> c.reader.Reading?
    ensures ToDrain(c) <= |c.pipe| + 1
  {
  }

  lemma {:induction false} FairRound(l: Limits, s: System, steps: seq<Action>, stream: Stream)
    requires IsFair(steps) && s.child.Ended? && Chan(s, stream).reader.Reading?
    ensures ToDrain(Chan(Others(l, s, steps), stream)) < ToDrain(Chan(s, stream))
  {
    hide Chan, ToDrain, Others;
    RoundDrains(l, s, steps, stream);
  }

  /** What is known when a call has come back, and when it has not. */
  lemma {:induction false} AwaitedFacts(l: Limits, s: System, a: Action, others: seq<seq<Action>>) returns (u: System)
    ensures u.parent == s.parent
    ensures var p := Awaited(l, s, a, others);
            if p.back then Apply(l, u, a) == Some(p.now) else p.rest == [] && p.now == u
    decreases |others|
  {
    hide Apply, Others;
    u := s;
    if others != [] {
      u := Others(l, s, others[0]);
      OthersKeep(l, s, others[0]);
      if Apply(l, u, a).None? {
        u := AwaitedFacts(l, u, a, others[1..]);
      }
    }
  }

  lemma {:induction false} FirstAwaited(l: Limits, s: System, a: Action, calls: seq<Action>, others: seq<seq<Action>>)
    ensures var p := Awaited(l, s, a, others);
            AwaitedAll(l, s, [a] + calls, others) == if p.back then AwaitedAll(l, p.now, calls, p.rest) else p
  {
    hide Awaited;
    assert ([a] + calls)[1..] == calls;
  }

  /** The two joins: what is returned, and that the rounds are used up when they do not end. */
  lemma {:induction false} JoinsReturn(l: Limits, s: System, others: seq<seq<Action>>)
    requires s.parent.DiscardingOut? || s.parent.JoiningOut?
    ensures var p := AwaitedAll(l, s, [Join, Join], others);
            && (p.back <==> p.now.parent.Returned?) && (!p.back ==> p.rest == [])
            && (p.back ==> if s.parent.DiscardingOut? then p.now.parent.outcome == Timeout else p.now.parent.outcome.Output?)
  {
    hide Apply, Awaited, AwaitedAll;
    TwoCalls(l, s, Join, Join, others);
    var p := Awaited(l, s, Join, others);
    var u := AwaitedFacts(l, s, Join, others);
    JoinMoves(l, u);
    if p.back {
      var v := AwaitedFacts(l, p.now, Join, p.rest);
      JoinMoves(l, v);
    }
  }

  lemma {:induction false} TwoCalls(l: Limits, s: System, a: Action, b: Action, others: seq<seq<Action>>)
    ensures var p := Awaited(l, s, a, others);
            AwaitedAll(l, s, [a, b], others) == if p.back then Awaited(l, p.now, b, p.rest) else p
  {
    hide Awaited;
    FirstAwaited(l, s, a, [b], others);
    assert [a] + [b] == [a, b] && [b] + [] == [b];
    var p := Awaited(l, s, a, others);
    FirstAwaited(l, p.now, b, [], p.rest);
  }

  /** With fair rounds both joins come back. */
  lemma {:induction false} JoinsComeBack(l: Limits, s: System, others: seq<seq<Action>>)
    requires AreFair(others) && IsDraining(l, s) && (s.parent.DiscardingOut? || s.parent.JoiningOut?)
    requires 2 * (l.capacity + 1) <= |others|
    ensures AwaitedAll(l, s, [Join, Join], others).back
  {
    hide Apply, Awaited, AwaitedAll, AreFair, ToDrain;
    TwoCalls(l, s, Join, Join, others);
    WaitsWhileReading(s.out);
    JoinComesBack(l, s, others);
    var p := Awaited(l, s, Join, others);
    var u := AwaitedFacts(l, s, Join, others);
    JoinMoves(l, u);
    WaitsWhileReading(p.now.err);
    JoinComesBack(l, p.now, p.rest);
  }

  lemma {:induction false} KillMoves(l: Limits, s: System, delivered: bool)
    requires s.parent.Killing?
    ensures var t := Tried(l, s, Kill(delivered));
            && t.parent.Reaping? && t.out == s.out && t.err == s.err && t.elapsed == s.elapsed
            && (delivered ==> t.child.Ended?) && (!delivered ==> t.child == s.child)
  {
  }

  lemma {:induction false} ReapMoves(l: Limits, s: System, reaps: bool)
    requires s.parent.Reaping?
    ensures var r := Apply(l, s, if reaps then Reap else ReapFails);
            && (r.Some? <==> s.child.Ended? || !reaps)
            && (r.Some? ==> r.value.parent.DiscardingOut? && r.value.child == s.child
                            && r.value.out == s.out && r.value.err == s.err)
  {
  }

  /** The expiry branch: what is returned, and that the rounds are used up when it does not end. */
  lemma {:induction false} ExpiryReturns(l: Limits, s: System, others: seq<seq<Action>>, delivered: bool, reaps: bool)
    requires s.parent.Killing?
    ensures var p := Expired(l, s, others, delivered, reaps);
            && (p.back <==> p.now.parent.Returned?) && (!p.back ==> p.rest == [])
            && (p.back ==> p.now.parent == Returned(Timeout))
  {
    hide Apply, Awaited, AwaitedAll, Tried;
    var t, reap := Tried(l, s, Kill(delivered)), if reaps then Reap else ReapFails;
    KillMoves(l, s, delivered);
    FirstAwaited(l, t, reap, [Join, Join], others);
    assert [reap] + [Join, Join] == [reap, Join, Join];
    var p := Awaited(l, t, reap, others);
    var u := AwaitedFacts(l, t, reap, others);
    ReapMoves(l, u, reaps);
    if p.back {
      JoinsReturn(l, p.now, p.rest);
    }
  }

  /** With fair rounds and a kill that is delivered the expiry branch ends. */
  lemma {:induction false} ExpiryComesBack(l: Limits, s: System, others: seq<seq<Action>>, reaps: bool)
    requires s.parent.Killing? && PipesFit(l, s) && AreFair(others) && 1 + 2 * (l.capacity + 1) <= |others|
    ensures Expired(l, s, others, true, reaps).back
  {
    hide Apply, AwaitedAll, Tried, Others, AreFair;
    var t, reap := Tried(l, s, Kill(true)), if reaps then Reap else ReapFails;
    KillMoves(l, s, true);
    FirstAwaited(l, t, reap, [Join, Join], others);
    assert [reap] + [Join, Join] == [reap, Join, Join];
    RestIsFair(others);
    OthersKeep(l, t, others[0]);
    ReapMoves(l, Others(l, t, others[0]), reaps);
    JoinsComeBack(l, Awaited(l, t, reap, others).now, others[1..]);
  }

  lemma {:induction false} PollMoves(l: Limits, s: System)
    requires s.parent.Polling?
    ensures Tried(l, s, TryWaitFails).parent == Returned(WaitError)
    ensures var u := Tried(l, s, TryWait);
            var v := Tried(l, u, CheckBudget);
            && u.out == v.out == s.out && u.err == v.err == s.err && u.child == v.child == s.child
            && u.elapsed == v.elapsed == s.elapsed
            && (u.parent.JoiningOut? <==> s.child.Ended?)
            && (!u.parent.JoiningOut? ==> v.parent == if l.budget <= s.elapsed then Killing else Polling)
  {
  }

  /** There is an outcome exactly when the parent has returned, and without one all rounds are
      used up: each of them ended in a call of the parent. */
  lemma {:induction false} NoOutcomeMeansUsedUp(l: Limits, s: System, others: seq<seq<Action>>, errors: nat,
                                                delivered: bool, reaps: bool)
    requires s.parent.Polling?
    ensures var p := Polled(l, s, others, errors, delivered, reaps);
            (p.back <==> p.now.parent.Returned?) && (!p.back ==> p.rest == [])
    decreases |others|
  {
    hide Apply, Tried, Others, Expired, AwaitedAll;
    if others != [] {
      var t := Others(l, s, others[0]);
      OthersKeep(l, s, others[0]);
      PollMoves(l, t);
      if errors > 0 {
        var u := Tried(l, t, TryWait);
        var v := Tried(l, u, CheckBudget);
        if u.parent.JoiningOut? {
          JoinsReturn(l, u, others[1..]);
        } else if v.parent.Killing? {
          ExpiryReturns(l, v, others[1..], delivered, reaps);
        } else {
          NoOutcomeMeansUsedUp(l, v, others[1..], errors - 1, delivered, reaps);
        }
      }
    }
  }

  predicate ClockRuns(others: seq<seq<Action>>) {
    forall i :: 0 <= i < |others| ==> TimePasses in others[i]
  }

  /** While the parent is still in its loop, the budget is not spent and each round has taken
      a tick of it: it leaves the loop in the round in which the budget is spent at the latest. */
  lemma {:induction false} LoopIsLeftInTime(l: Limits, s: System, others: seq<seq<Action>>, errors: nat,
                                            delivered: bool, reaps: bool)
    requires s.parent.Polling? && ClockRuns(others) && others != []
    ensures var p := Polled(l, s, others, errors, delivered, reaps);
            p.now.parent.Polling? ==> s.elapsed + |others| <= p.now.elapsed < l.budget
    decreases |others|
  {
    hide Apply, Tried, Others, Expired, AwaitedAll;
    var t := Others(l, s, others[0]);
    OthersKeep(l, s, others[0]);
    RoundTicks(l, s, others[0]);
    PollMoves(l, t);
    if errors > 0 {
      var u := Tried(l, t, TryWait);
      var v := Tried(l, u, CheckBudget);
      if u.parent.JoiningOut? {
        CollectedIsPastLoop(l, u, others[1..]);
      } else if v.parent.Killing? {
        ExpiryIsPastLoop(l, v, others[1..], delivered, reaps);
      } else if others[1..] != [] {
        LoopIsLeftInTime(l, v, others[1..], errors - 1, delivered, reaps);
      }
    }
  }

  lemma {:induction false} CollectedIsPastLoop(l: Limits, s: System, others: seq<seq<Action>>)
    requires s.parent.DiscardingOut? || s.parent.JoiningOut?
    ensures !AwaitedAll(l, s, [Join, Join], others).now.parent.Polling?
  {
    hide Apply, Awaited, AwaitedAll;
    TwoCalls(l, s, Join, Join, others);
    var p := Awaited(l, s, Join, others);
    var u := AwaitedFacts(l, s, Join, others);
    JoinMoves(l, u);
    if p.back {
      var v := AwaitedFacts(l, p.now, Join, p.rest);
      JoinMoves(l, v);
    }
  }

  lemma {:induction false} ExpiryIsPastLoop(l: Limits, s: System, others: seq<seq<Action>>, delivered: bool, reaps: bool)
    requires s.parent.Killing?
    ensures !Expired(l, s, others, delivered, reaps).now.parent.Polling?
  {
    hide Apply, Awaited, AwaitedAll, Tried;
    var t, reap := Tried(l, s, Kill(delivered)), if reaps then Reap else ReapFails;
    KillMoves(l, s, delivered);
    FirstAwaited(l, t, reap, [Join, Join], others);
    assert [reap] + [Join, Join] == [reap, Join, Join];
    var p := Awaited(l, t, reap, others);
    var u := AwaitedFacts(l, t, reap, others);
    ReapMoves(l, u, reaps);
    if p.back {
      CollectedIsPastLoop(l, p.now, p.rest);
    }
  }

  /** Rounds in which the clock runs and both threads get their turn end in an outcome when
      there are enough of them: what is left of the budget, one for the reaping call and a
      full pipe for each join. */
  lemma {:induction false} OutcomeComes(l: Limits, s: System, others: seq<seq<Action>>, errors: nat, reaps: bool)
    requires s.parent.Polling? && PipesFit(l, s) && AreFair(others)
    requires RoundsNeeded(l, s) <= |others|
    ensures Polled(l, s, others, errors, true, reaps).back
    decreases |others|
  {
    hide Apply, Tried, Others, Expired, AwaitedAll, AreFair;
    var t := Others(l, s, others[0]);
    RestIsFair(others);
    OthersKeep(l, s, others[0]);
    RoundTicks(l, s, others[0]);
    PollMoves(l, t);
    if errors > 0 {
      var u := Tried(l, t, TryWait);
      var v := Tried(l, u, CheckBudget);
      if u.parent.JoiningOut? {
        JoinsComeBack(l, u, others[1..]);
      } else if v.parent.Killing? {
        ExpiryComesBack(l, v, others[1..], reaps);
      } else {
        OutcomeComes(l, v, others[1..], errors - 1, reaps);
      }
    }
  }

  function RoundsNeeded(l: Limits, s: System): nat {
    (if s.elapsed < l.budget then l.budget - s.elapsed else 1) + 1 + 2 * (l.capacity + 1)
  }

  lemma {:induction false} WhenItReturns(l: Limits, s: System, others: seq<seq<Action>>, errors: nat,
                                         delivered: bool, reaps: bool)
    requires s.parent.Polling?
    ensures var p := Polled(l, s, others, errors, delivered, reaps);
            && (p.back <==> p.now.parent.Returned?) && (!p.back ==> p.rest == [])
            && (AreFair(others) && PipesFit(l, s) && RoundsNeeded(l, s) <= |others| && delivered ==> p.back)
  {
    hide Polled, AreFair, PipesFit, RoundsNeeded;
    NoOutcomeMeansUsedUp(l, s, others, errors, delivered, reaps);
    if AreFair(others) && PipesFit(l, s) && RoundsNeeded(l, s) <= |others| && delivered {
      OutcomeComes(l, s, others, errors, reaps);
    }
  }

  lemma {:induction false} JoinMovesOn(l: Limits, s: System, others: seq<seq<Action>>)
    requires s.parent.JoiningOut? || s.parent.JoiningErr?
    ensures var p := Awaited(l, s, Join, others);
            p.back ==> if s.parent.JoiningOut? then p.now.parent.JoiningErr? && p.now.parent.status == s.parent.status
                       else p.now.parent.Returned? && p.now.parent.outcome.Output?
                            && p.now.parent.outcome.status == s.parent.status
    decreases |others|
  {
    hide Others;
    if others != [] {
      OthersKeep(l, s, others[0]);
      JoinMovesOn(l, Others(l, s, others[0]), others[1..]);
    }
  }

  /** A call that finds the child ended returns, when it returns, its output and its own exit
      status, whatever is left of the budget. */
  lemma {:induction false} EndedGivesOutput(l: Limits, s: System, others: seq<seq<Action>>, errors: nat,
                                            delivered: bool, reaps: bool)
    requires s.parent.Polling? && s.child.Ended? && others != [] && 0 < errors
    ensures var p := Polled(l, s, others, errors, delivered, reaps);
            p.back ==> p.now.parent.Returned? && p.now.parent.outcome.Output?
                       && p.now.parent.outcome.status == s.child.status
  {
    hide Others, Expired, Awaited;
    OthersKeep(l, s, others[0]);
    var u := Tried(l, Others(l, s, others[0]), TryWait);
    assert u.parent == JoiningOut(s.child.status);
    JoinMovesOn(l, u, others[1..]);
    var p := Awaited(l, u, Join, others[1..]);
    if p.back {
      JoinMovesOn(l, p.now, p.rest);
    }
  }

  /** A child that nobody ends: not the kill, which fails, and not itself. */
  lemma {:induction false} NoOutcomeWithoutEnd(l: Limits, s: System, others: seq<seq<Action>>, errors: nat)
    requires s.parent.Polling? && s.child.Running? && |others| <= errors
    requires forall i :: 0 <= i < |others| ==> !ChildEndsIn(others[i])
    ensures !Polled(l, s, others, errors, false, true).back
    decreases |others|
  {
    hide Apply, Tried, Others, AwaitedAll, ChildEndsIn;
    if others != [] {
      var t := Others(l, s, others[0]);
      OthersKeep(l, s, others[0]);
      PollMoves(l, t);
      var u := Tried(l, t, TryWait);
      var v := Tried(l, u, CheckBudget);
      if v.parent.Killing? {
        var w := Tried(l, v, Kill(false));
        KillMoves(l, v, false);
        FirstAwaited(l, w, Reap, [Join, Join], others[1..]);
        assert [Reap] + [Join, Join] == [Reap, Join, Join];
        ReapNeverComesBack(l, w, others[1..]);
      } else {
        NoOutcomeWithoutEnd(l, v, others[1..], errors - 1);
      }
    }
  }

  lemma {:induction false} ReapNeverComesBack(l: Limits, s: System, others: seq<seq<Action>>)
    requires s.parent.Reaping? && s.child.Running?
    requires forall i :: 0 <= i < |others| ==> !ChildEndsIn(others[i])
    ensures !Awaited(l, s, Reap, others).back
    decreases |others|
  {
    hide Apply, Others, ChildEndsIn;
    if others != [] {
      OthersKeep(l, s, others[0]);
      ReapMoves(l, Others(l, s, others[0]), true);
      ReapNeverComesBack(l, Others(l, s, others[0]), others[1..]);
    }
  }

  /** Of a child that does not end by itself, with a working wait, the call returns in time
      exactly when the kill is delivered: otherwise the program itself waits for ever. */
  lemma {:induction false} OutcomeIffDelivered(l: Limits, s: System, others: seq<seq<Action>>, errors: nat, delivered: bool)
    requires s.parent.Polling? && s.child.Running? && PipesFit(l, s) && AreFair(others)
    requires RoundsNeeded(l, s) <= |others| <= errors
    requires forall i :: 0 <= i < |others| ==> !ChildEndsIn(others[i])
    ensures Polled(l, s, others, errors, delivered, true).back <==> delivered
  {
    hide Polled, AreFair, ChildEndsIn, PipesFit, RoundsNeeded;
    if delivered {
      OutcomeComes(l, s, others, errors, true);
    } else {
      NoOutcomeWithoutEnd(l, s, others, errors);
    }
  }
  /** A spawned command with the run it has made so far. */
  class Command {
    const limits: Limits
    var now: System
    ghost var run: seq<System>
    ghost var acts: seq<Action>

    ghost predicate Valid()
      reads this
    {
      Execution(limits, run, acts) && now == run[|acts|]
    }

    constructor (limits: Limits, plan: seq<Write>)
      ensures Valid() && this.limits == limits && now.plan == plan && now.parent.Polling?
    {
      var start := Spawned(plan);
      this.limits := limits;
      now := start;
      run := [start];
      acts := [];
    }

    /** Takes a step if the system can take it. */
    method Perform(a: Action) returns (taken: bool)
      requires Valid()
      modifies this
      ensures Valid() && old(run) <= run && old(acts) <= acts
      ensures taken == Apply(limits, old(now), a).Some? && now == Tried(limits, old(now), a)
    {
      hide Execution, Apply;
      var next := Apply(limits, now, a);
      taken := next.Some?;
      if taken {
        ExecutionGrows(limits, run, acts, a);
        ExecutionLength(limits, run, acts);
        now := next.value;
        run := run + [now];
        acts := acts + [a];
      }
    }

    /** One round of what the child, the threads and the clock do. */
    method LetOthersAct(steps: seq<Action>)
      requires Valid()
      modifies this
      ensures Valid() && old(run) <= run && old(acts) <= acts
      ensures now == Others(limits, old(now), steps)
    {
      hide Execution, Apply, Tried;
      assert steps[0..] == steps;
      for i := 0 to |steps|
        invariant Valid() && old(run) <= run && old(acts) <= acts
        invariant Others(limits, now, steps[i..]) == Others(limits, old(now), steps)
      {
        assert steps[i..][1..] == steps[i + 1..];
        if IsOther(steps[i]) {
          var taken := Perform(steps[i]);
        }
      }
    }

    /** A call that blocks until the step is possible.  `others` is what happens meanwhile; when
        it is used up the call has not come back. */
    method Await(a: Action, others: seq<seq<Action>>) returns (rest: seq<seq<Action>>, back: bool)
      requires Valid()
      modifies this
      ensures Valid() && old(run) <= run && old(acts) <= acts
      ensures Progress(now, rest, back) == Awaited(limits, old(now), a, others)
    {
      hide Execution, Apply, Others;
      rest := others;
      while rest != []
        invariant Valid() && old(run) <= run && old(acts) <= acts
        invariant Awaited(limits, now, a, rest) == Awaited(limits, old(now), a, others)
        decreases |rest|
      {
        LetOthersAct(rest[0]);
        back := Perform(a);
        rest := rest[1..];
        if back {
          return;
        }
      }
      back := false;
    }

    /** The expiry branch: kill, reap, join both threads and discard what they read. */
    method KillAndReap(others: seq<seq<Action>>, delivered: bool, reaps: bool)
      returns (rest: seq<seq<Action>>, outcome: Option<Outcome>)
      requires Valid() && now.parent.Killing?
      modifies this
      ensures Valid() && old(run) <= run && old(acts) <= acts
      ensures Progress(now, rest, outcome.Some?) == Expired(limits, old(now), others, delivered, reaps)
      ensures outcome.Some? ==> outcome == Some(Timeout) && now.parent == Returned(Timeout)
    {
      hide Execution, Apply, Awaited, Tried;
      ExpiryReturns(limits, now, others, delivered, reaps);
      var reap := if reaps then Reap else ReapFails;
      var sent := Perform(Kill(delivered));
      FirstAwaited(limits, now, reap, [Join, Join], others);
      assert [reap] + [Join, Join] == [reap, Join, Join];
      var back;
      rest, back := Await(reap, others);
      if back {
        TwoCalls(limits, now, Join, Join, rest);
        rest, back := Await(Join, rest);
        if back {
          rest, back := Await(Join, rest);
          if back {
            return rest, Some(Timeout);
          }
        }
      }
      outcome := None;
    }

    /** The joins after the loop. */
    method CollectOutput(others: seq<seq<Action>>) returns (rest: seq<seq<Action>>, outcome: Option<Outcome>)
      requires Valid() && now.parent.JoiningOut?
      modifies this
      ensures Valid() && old(run) <= run && old(acts) <= acts
      ensures Progress(now, rest, outcome.Some?) == Collected(limits, old(now), others)
      ensures outcome.Some? ==> outcome.value.Output? && now.parent == Returned(outcome.value)
    {
      hide Execution, Awaited, AwaitedAll;
      JoinsReturn(limits, now, others);
      TwoCalls(limits, now, Join, Join, others);
      var back;
      rest, back := Await(Join, others);
      if back {
        rest, back := Await(Join, rest);
        if back {
          return rest, Some(now.parent.outcome);
        }
      }
      outcome := None;
    }

    /** `wait_with_timeout`.  `others` is what the child, the threads and the clock do before
        each system call of the parent that may block, `errors` how often `try_wait` works
        before it fails, `delivered` whether the kill works and `reaps` whether the wait after
        it does.  There is no outcome only when `others` is used up. */
    method WaitWithTimeout(others: seq<seq<Action>>, errors: nat, delivered: bool, reaps: bool)
      returns (rest: seq<seq<Action>>, outcome: Option<Outcome>)
      requires Valid() && now.parent.Polling?
      modifies this
      ensures Valid() && old(run) <= run && old(acts) <= acts
      ensures Progress(now, rest, outcome.Some?) == Polled(limits, old(now), others, errors, delivered, reaps)
      ensures outcome.None? ==> rest == []
      ensures AreFair(others) && PipesFit(limits, old(now)) && RoundsNeeded(limits, old(now)) <= |others| && delivered ==>
        outcome.Some?
      ensures outcome.Some? ==> now.parent == Returned(outcome.value)
    {
      hide Execution, Apply, Tried, Others, Collected, Expired, AreFair, PipesFit, RoundsNeeded;
      WhenItReturns(limits, now, others, errors, delivered, reaps);
      rest := others;
      var polls := 0;
      while rest != []
        invariant Valid() && now.parent.Polling? && polls <= errors
        invariant old(run) <= run && old(acts) <= acts
        invariant Polled(limits, now, rest, errors - polls, delivered, reaps)
               == Polled(limits, old(now), others, errors, delivered, reaps)
        decreases |rest|
      {
        OthersKeep(limits, now, rest[0]);
        LetOthersAct(rest[0]);
        PollMoves(limits, now);
        rest := rest[1..];
        if polls == errors {
          var failed := Perform(TryWaitFails);
          return rest, Some(WaitError);
        }
        polls := polls + 1;
        var polled := Perform(TryWait);
        if now.parent.JoiningOut? {
          rest, outcome := CollectOutput(rest);
          return;
        }
        var checked := Perform(CheckBudget);
        if now.parent.Killing? {
          rest, outcome := KillAndReap(rest, delivered, reaps);
          return;
        }
      }
      outcome := None;
    }

    /** What the caller of `wait_with_timeout` may rely on. */
    lemma {:induction false} OutcomeIsTrue()
      requires Valid() && now.parent.Returned?
      ensures now.done <= |now.plan| && |run| == |acts| + 1
      ensures now.parent.outcome.Output? ==>
        && now.child == Ended(now.parent.outcome.status) && now.reaped && !now.killSent
        && (now.parent.outcome.stdout == Written(now, Stdout) <==> NothingLost(run, acts, |acts|, Stdout))
        && (now.parent.outcome.stderr == Written(now, Stderr) <==> NothingLost(run, acts, |acts|, Stderr))
      ensures now.parent.outcome.Timeout? ==>
        && limits.budget <= now.elapsed && now.killSent
        && (now.reaped <==> forall k :: 0 <= k < |acts| ==> !acts[k].ReapFails?)
        && (now.reaped ==> now.child.Ended?)
    {
      hide Execution, Written, NothingLost;
      ExecutionLength(limits, run, acts);
      ExecutionKeepsInv(limits, run, acts, |acts|);
      if now.parent.outcome.Output? {
        OutputIsExact(limits, run, acts, |acts|);
      } else if now.parent.outcome.Timeout? {
        TimeoutIsLast(limits, run, acts, |acts|);
      }
    }
  }

  lemma {:induction false} ExecutionLength(l: Limits, run: seq<System>, acts: seq<Action>)
    requires Execution(l, run, acts)
    ensures |run| == |acts| + 1
  {
  }
}
