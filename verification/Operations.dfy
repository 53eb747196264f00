/**
 Background operations (src-tauri/src/bridge/ops.rs): each has a log of its own
 and is mirrored into the global one; it finishes once, with one terminal frame.
 */
module Operations {
  import opened Wrappers
  import opened Frames
  import opened EventLogs

  /** The frames of a log's history. */
  ghost function FramesOf(history: seq<Payload>): (r: seq<Frame>)
    ensures |r| == |history| && forall i :: 0 <= i < |r| ==> r[i] == history[i].frame
  {
    seq(|history|, i requires 0 <= i < |history| => history[i].frame)
  }

  function Terminals(frames: seq<Frame>): seq<Frame> {
    if frames == [] then []
    else (if frames[0].Terminal? then [frames[0]] else []) + Terminals(frames[1..])
  }

  lemma {:induction false} TerminalsOfConcat(a: seq<Frame>, b: seq<Frame>)
    ensures Terminals(a + b) == Terminals(a) + Terminals(b)
  {
    if a == [] {
      assert a + b == b;
    } else {
      TerminalsOfConcat(a[1..], b);
      assert (a + b)[1..] == a[1..] + b;
      TerminalsOfFirst(a, b, Terminals(a[1..]), Terminals(b));
    }
  }

  lemma TerminalsOfFirst(a: seq<Frame>, b: seq<Frame>, x: seq<Frame>, y: seq<Frame>)
    requires a != [] && x == Terminals(a[1..]) && x + y == Terminals((a + b)[1..])
    ensures Terminals(a + b) == Terminals(a) + y
  {
    var first := if a[0].Terminal? then [a[0]] else [];
    assert first + (x + y) == first + x + y;
  }

  lemma TerminalsOfAppend(frames: seq<Frame>, f: Frame)
    ensures Terminals(frames + [f]) == Terminals(frames) + if f.Terminal? then [f] else []
  {
    TerminalsOfConcat(frames, [f]);
  }

  class Operation {
    const id: string
    const threadId: Option<string>
    const turnId: Option<string>
    const log: EventLog
    var status: Status
    var result: Option<string>
    var error: Option<string>
    var finishedAt: Option<nat>
    var done: bool

    ghost function Outcome(): Outcome
      reads this
    {
      Frames.Outcome.Outcome(status, result, error)
    }

    ghost predicate FailedWith(message: string)
      reads this
    {
      status == Failed && result == None && error == Some(message)
    }

    /** Running with no terminal frame, or finished with exactly one: the last
        event of a closed log, carrying the operation's own outcome. */
    ghost predicate Valid()
      reads this, log
    {
      var frames := FramesOf(log.history);
      && log.Valid()
      && (status == Running <==> finishedAt.None?)
      && (status == Running ==> !log.closed && Terminals(frames) == [] && result.None? && error.None? && !done)
      && (status != Running ==>
          && log.closed && done && frames != []
          && frames[|frames| - 1] == Terminal(id, Outcome())
          && Terminals(frames) == [Terminal(id, Outcome())])
    }

    constructor (id: string, threadId: Option<string>, turnId: Option<string>, limits: Limits)
      ensures Valid() && fresh(log) && status == Running && log.history == []
      ensures this.id == id && this.threadId == threadId && this.turnId == turnId
    {
      this.id, this.threadId, this.turnId := id, threadId, turnId;
      status, result, error, finishedAt, done := Running, None, None, None, false;
      log := new EventLog(limits);
    }

    /** A frame on this operation's log, mirrored to the global one. A finished
        operation's log takes no more; the mirror still does. */
    method Emit(global: EventLog, text: string, length: nat)
      requires Valid() && global.Valid() && !global.closed && global != log
      modifies log, global
      ensures Valid() && global.Valid() && !global.closed
      ensures global.history == old(global.history) + [Payload(Message(id, text), length)]
      ensures log.history == if status == Running then old(log.history) + [Payload(Message(id, text), length)]
                             else old(log.history)
    {
      var data := Payload(Message(id, text), length);
      ghost var before := FramesOf(log.history);
      var _ := log.AppendRaw(data);
      if status == Running {
        assert FramesOf(log.history) == before + [data.frame];
        TerminalsOfAppend(before, data.frame);
      }
      var _ := global.AppendRaw(data);
    }

    /** Finish once; `won` is true for the call that did. */
    method Finish(global: EventLog, outcome: Outcome, now: nat, length: nat) returns (won: bool)
      requires Valid() && global.Valid() && !global.closed && global != log
      requires outcome.status != Running
      modifies this, log, global
      ensures Valid() && global.Valid() && !global.closed
      ensures won <==> old(status) == Running
      ensures won ==>
        && Outcome() == outcome && finishedAt == Some(now)
        && log.history == old(log.history) + [Payload(Terminal(id, outcome), length)]
        && global.history == old(global.history) + [Payload(Terminal(id, outcome), length)]
      ensures !won ==>
        && unchanged(this) && log.history == old(log.history) && global.history == old(global.history)
    {
      if status != Running {
        return false;
      }
      status, result, error, finishedAt := outcome.status, outcome.result, outcome.error, Some(now);
      var data := Payload(Terminal(id, outcome), length);
      ghost var before := FramesOf(log.history);
      var _ := log.AppendRaw(data);
      assert FramesOf(log.history) == before + [data.frame];
      TerminalsOfAppend(before, data.frame);
      var _ := global.AppendRaw(data);
      log.Close();
      done := true;
      won := true;
    }

    method Fail(global: EventLog, error: string, now: nat, length: nat) returns (won: bool)
      requires Valid() && global.Valid() && !global.closed && global != log
      modifies this, log, global
      ensures Valid() && global.Valid() && !global.closed && status != Running
      ensures won <==> old(status) == Running
      ensures won ==>
        && Outcome() == Frames.Outcome.Outcome(Failed, None, Some(error)) && finishedAt == Some(now)
        && log.history == old(log.history) + [Payload(Terminal(id, Outcome()), length)]
        && global.history == old(global.history) + [Payload(Terminal(id, Outcome()), length)]
      ensures !won ==>
        && unchanged(this) && log.history == old(log.history) && global.history == old(global.history)
    {
      won := Finish(global, Frames.Outcome.Outcome(Failed, None, Some(error)), now, length);
    }
  }
}

/**
 Operations over whole runs, each emit and finish atomic: what every operation's
 log says about the global one.
 */
module OperationHistories {
  import opened Wrappers
  import opened Frames
  import opened Operations

  /** `outcome` is set once the operation finished, which also closes its log. */
  datatype Op = Op(log: seq<Frame>, outcome: Option<Outcome>)

  datatype State = State(ops: map<string, Op>, global: seq<Frame>)

  datatype Step =
    | Create(id: string)
    | Emit(id: string, text: string)
    | Finish(id: string, outcome: Outcome)
    | FailAll(error: string, order: seq<string>)
    | GlobalNotice(text: string)

  function FinishOne(st: State, id: string, outcome: Outcome): State {
    if id !in st.ops || st.ops[id].outcome.Some? then st
    else
      var f := Terminal(id, outcome);
      State(st.ops[id := Op(st.ops[id].log + [f], Some(outcome))], st.global + [f])
  }

  /** `fail_all` fails what it found running, in whatever order. */
  function FailEach(st: State, error: string, order: seq<string>): State
    decreases order
  {
    if order == [] then st
    else FailEach(FinishOne(st, order[0], Outcome(Failed, None, Some(error))), error, order[1..])
  }

  function Next(st: State, step: Step): State {
    match step
    case Create(id) => if id in st.ops || Of(st.global, id) != [] then st else st.(ops := st.ops[id := Op([], None)])
    case Emit(id, text) =>
      if id !in st.ops then st
      else
        var f := Message(id, text);
        State(if st.ops[id].outcome.Some? then st.ops else st.ops[id := st.ops[id].(log := st.ops[id].log + [f])],
              st.global + [f])
    case Finish(id, outcome) => FinishOne(st, id, outcome)
    case FailAll(error, order) => FailEach(st, error, order)
    case GlobalNotice(text) => st.(global := st.global + [Notice(text)])
  }

  function Run(st: State, steps: seq<Step>): State
    decreases steps
  {
    if steps == [] then st else Run(Next(st, steps[0]), steps[1..])
  }

  predicate Belongs(f: Frame, id: string) {
    (f.Message? || f.Terminal?) && f.op == id
  }

  /** The frames of one operation in the global log. */
  function Of(frames: seq<Frame>, id: string): seq<Frame> {
    if frames == [] then []
    else Of(frames[..|frames| - 1], id) + if Belongs(frames[|frames| - 1], id) then [frames[|frames| - 1]] else []
  }

  lemma OfAppend(frames: seq<Frame>, f: Frame, id: string)
    ensures Of(frames + [f], id) == Of(frames, id) + if Belongs(f, id) then [f] else []
  {
    assert (frames + [f])[..|frames|] == frames;
  }

  /** What the global log says about one operation: its log, then only messages
      that arrived too late for it. */
  ghost predicate Mirrored(op: Op, id: string, global: seq<Frame>) {
    var mine := Of(global, id);
    && |op.log| <= |mine|
    && op.log == mine[..|op.log|]
    && Terminals(mine[|op.log|..]) == []
    && (op.outcome.None? ==> op.log == mine && Terminals(op.log) == [])
    && (op.outcome.Some? ==>
        && op.log != [] && op.log[|op.log| - 1] == Terminal(id, op.outcome.value)
        && Terminals(op.log) == [Terminal(id, op.outcome.value)])
  }

  ghost predicate Inv(st: State) {
    forall id :: id in st.ops ==> Mirrored(st.ops[id], id, st.global)
  }

  lemma StillMirrored(op: Op, id: string, global: seq<Frame>, f: Frame)
    requires Mirrored(op, id, global)
    requires !Belongs(f, id) || (op.outcome.Some? && f.Message?)
    ensures Mirrored(op, id, global + [f])
  {
    OfAppend(global, f, id);
    var mine := Of(global, id);
    if !Belongs(f, id) {
      assert Of(global + [f], id) == mine;
    } else {
      assert (mine + [f])[|op.log|..] == mine[|op.log|..] + [f];
      TerminalsOfAppend(mine[|op.log|..], f);
    }
  }

  lemma LoggedIsMirrored(op: Op, id: string, global: seq<Frame>, f: Frame)
    requires Mirrored(op, id, global) && op.outcome.None? && Belongs(f, id)
    ensures f.Message? ==> Mirrored(Op(op.log + [f], None), id, global + [f])
    ensures f.Terminal? ==> Mirrored(Op(op.log + [f], Some(f.outcome)), id, global + [f])
  {
    OfAppend(global, f, id);
    TerminalsOfAppend(op.log, f);
    assert Of(global + [f], id) == op.log + [f];
    assert (op.log + [f])[|op.log + [f]|..] == [];
  }

  lemma FinishOneKeeps(st: State, id: string, outcome: Outcome)
    requires Inv(st)
    ensures Inv(FinishOne(st, id, outcome))
  {
    var next := FinishOne(st, id, outcome);
    if id in st.ops && st.ops[id].outcome.None? {
      var f := Terminal(id, outcome);
      LoggedIsMirrored(st.ops[id], id, st.global, f);
      forall other | other in next.ops ensures Mirrored(next.ops[other], other, next.global) {
        if other != id {
          StillMirrored(st.ops[other], other, st.global, f);
        }
      }
    }
  }

  lemma {:induction false} FailEachKeeps(st: State, error: string, order: seq<string>)
    requires Inv(st)
    ensures Inv(FailEach(st, error, order))
    decreases order
  {
    if order != [] {
      var outcome := Outcome(Failed, None, Some(error));
      FinishOneKeeps(st, order[0], outcome);
      FailEachKeeps(FinishOne(st, order[0], outcome), error, order[1..]);
    }
  }

  lemma StepKeepsInv(st: State, step: Step)
    requires Inv(st)
    ensures Inv(Next(st, step))
  {
    var next := Next(st, step);
    match step
    case Create(id) =>
    case Emit(id, text) =>
      if id in st.ops {
        var f := Message(id, text);
        forall other | other in next.ops ensures Mirrored(next.ops[other], other, next.global) {
          if other == id && st.ops[id].outcome.None? {
            LoggedIsMirrored(st.ops[id], id, st.global, f);
          } else {
            StillMirrored(st.ops[other], other, st.global, f);
          }
        }
      }
    case Finish(id, outcome) => FinishOneKeeps(st, id, outcome);
    case FailAll(error, order) => FailEachKeeps(st, error, order);
    case GlobalNotice(text) =>
      forall id | id in st.ops ensures Mirrored(st.ops[id], id, next.global) {
        StillMirrored(st.ops[id], id, st.global, Notice(text));
      }
  }

  /** In every run each operation's log is a prefix of its frames in the global
      log; a finished one has exactly one terminal frame, the last of its log. */
  lemma {:induction false} HistoriesAreMirrored(st: State, steps: seq<Step>)
    requires Inv(st)
    ensures Inv(Run(st, steps))
    decreases steps
  {
    if steps != [] {
      StepKeepsInv(st, steps[0]);
      HistoriesAreMirrored(Next(st, steps[0]), steps[1..]);
    }
  }

  lemma {:induction false} FailEachKeepsFinished(st: State, error: string, order: seq<string>, id: string)
    requires id in st.ops
    ensures id in FailEach(st, error, order).ops
    ensures st.ops[id].outcome.Some? ==> FailEach(st, error, order).ops[id] == st.ops[id]
    ensures id in order ==> FailEach(st, error, order).ops[id].outcome.Some?
    decreases order
  {
    if order != [] {
      var next := FinishOne(st, order[0], Outcome(Failed, None, Some(error)));
      FailEachKeepsFinished(next, error, order[1..], id);
    }
  }

  /** Once finished, an operation's log and outcome never change again. */
  lemma {:induction false} FinishedForGood(st: State, steps: seq<Step>, id: string)
    requires id in st.ops && st.ops[id].outcome.Some?
    ensures id in Run(st, steps).ops && Run(st, steps).ops[id] == st.ops[id]
    decreases steps
  {
    if steps != [] {
      if steps[0].FailAll? {
        FailEachKeepsFinished(st, steps[0].error, steps[0].order, id);
      }
      FinishedForGood(Next(st, steps[0]), steps[1..], id);
    }
  }
}

/**
 One operation with every lock-holding block a step of its own: callers of
 `finish` race for the status, and the winner writes, mirrors and closes while
 other tasks emit.
 */
module OperationRaces {
  import opened Wrappers
  import opened Frames
  import opened Operations

  /** How far the winning `finish` has got. */
  datatype Winner = Nobody | Decided | Written | MirroredToo | Closed

  datatype State = State(
    outcome: Option<Outcome>,
    winner: Winner,
    log: seq<Frame>,
    global: seq<Frame>,
    /** Emits that wrote to the log (or found it closed) and not to the mirror. */
    unmirrored: seq<Frame>)

  datatype Step =
    | TryFinish(outcome: Outcome)
    | WinnerWrites
    | WinnerMirrors
    | WinnerCloses
    | EmitWrites(text: string)
    | EmitMirrors(index: nat)

  const START: State := State(None, Nobody, [], [], [])

  function Next(id: string, st: State, step: Step): State {
    match step
    case TryFinish(o) => if st.outcome.Some? then st else st.(outcome := Some(o), winner := Decided)
    case WinnerWrites =>
      if st.winner != Decided || st.outcome.None? then st
      else st.(winner := Written, log := st.log + [Terminal(id, st.outcome.value)])
    case WinnerMirrors =>
      if st.winner != Written || st.outcome.None? then st
      else st.(winner := MirroredToo, global := st.global + [Terminal(id, st.outcome.value)])
    case WinnerCloses => if st.winner != MirroredToo then st else st.(winner := Closed)
    case EmitWrites(text) =>
      var f := Message(id, text);
      st.(log := if st.winner == Closed then st.log else st.log + [f], unmirrored := st.unmirrored + [f])
    case EmitMirrors(index) =>
      if index >= |st.unmirrored| then st
      else st.(global := st.global + [st.unmirrored[index]],
               unmirrored := st.unmirrored[..index] + st.unmirrored[index + 1..])
  }

  function Run(id: string, st: State, steps: seq<Step>): State
    decreases steps
  {
    if steps == [] then st else Run(id, Next(id, st, steps[0]), steps[1..])
  }

  /** The one terminal frame the log holds once the winner has written. */
  function WrittenFrames(id: string, st: State): seq<Frame> {
    if st.outcome.Some? && st.winner != Nobody && st.winner != Decided then [Terminal(id, st.outcome.value)] else []
  }

  function MirroredFrames(id: string, st: State): seq<Frame> {
    if st.outcome.Some? && (st.winner == MirroredToo || st.winner == Closed)
    then [Terminal(id, st.outcome.value)] else []
  }

  ghost predicate Inv(id: string, st: State) {
    && (st.winner == Nobody <==> st.outcome.None?)
    && Terminals(st.log) == WrittenFrames(id, st)
    && Terminals(st.global) == MirroredFrames(id, st)
    && (forall i :: 0 <= i < |st.unmirrored| ==> st.unmirrored[i].Message?)
  }

  lemma LogGrows(frames: seq<Frame>, f: Frame, before: seq<Frame>)
    requires Terminals(frames) == before
    ensures f.Message? ==> Terminals(frames + [f]) == before
    ensures f.Terminal? && before == [] ==> Terminals(frames + [f]) == [f]
  {
    TerminalsOfAppend(frames, f);
  }

  lemma WinnerKeepsInv(id: string, st: State, step: Step)
    requires Inv(id, st) && (step == WinnerWrites || step == WinnerMirrors || step == WinnerCloses)
    ensures Inv(id, Next(id, st, step))
  {
    if step == WinnerWrites && st.winner == Decided {
      LogGrows(st.log, Terminal(id, st.outcome.value), []);
    }
    if step == WinnerMirrors && st.winner == Written {
      LogGrows(st.global, Terminal(id, st.outcome.value), []);
    }
  }

  lemma EmitMirrorsKeepsInv(id: string, st: State, index: nat)
    requires Inv(id, st) && index < |st.unmirrored|
    ensures Inv(id, Next(id, st, EmitMirrors(index)))
  {
    var next := Next(id, st, EmitMirrors(index));
    LogGrows(st.global, st.unmirrored[index], MirroredFrames(id, st));
    assert MirroredFrames(id, next) == MirroredFrames(id, st) && WrittenFrames(id, next) == WrittenFrames(id, st);
    assert forall i :: 0 <= i < |next.unmirrored| ==> next.unmirrored[i] in st.unmirrored;
  }

  lemma StepKeepsInv(id: string, st: State, step: Step)
    requires Inv(id, st)
    ensures Inv(id, Next(id, st, step))
    ensures st.outcome.Some? ==> Next(id, st, step).outcome == st.outcome
  {
    match step
    case TryFinish(o) =>
    case WinnerWrites => WinnerKeepsInv(id, st, step);
    case WinnerMirrors => WinnerKeepsInv(id, st, step);
    case WinnerCloses => WinnerKeepsInv(id, st, step);
    case EmitWrites(text) => LogGrows(st.log, Message(id, text), WrittenFrames(id, st));
    case EmitMirrors(index) =>
      if index < |st.unmirrored| { EmitMirrorsKeepsInv(id, st, index); }
  }

  /** One terminal outcome: however finishes, failures and emits interleave, the
      first outcome stays, and the log and the mirror each get exactly one
      terminal frame, carrying it. */
  lemma {:induction false} OneTerminalOutcome(id: string, st: State, steps: seq<Step>)
    requires Inv(id, st)
    ensures Inv(id, Run(id, st, steps))
    ensures st.outcome.Some? ==> Run(id, st, steps).outcome == st.outcome
    decreases steps
  {
    if steps != [] {
      StepKeepsInv(id, st, steps[0]);
      OneTerminalOutcome(id, Next(id, st, steps[0]), steps[1..]);
    }
  }

  /** An emit gets in between the winner's write and its close. */
  predicate LateEmit(st: State, step: Step) {
    step.EmitWrites? && (st.winner == Written || st.winner == MirroredToo)
  }

  predicate NoLateEmit(id: string, st: State, steps: seq<Step>)
    decreases steps
  {
    steps == [] || (!LateEmit(st, steps[0]) && NoLateEmit(id, Next(id, st, steps[0]), steps[1..]))
  }

  predicate EndsWithTerminal(st: State) {
    st.log != [] && st.log[|st.log| - 1].Terminal?
  }

  lemma {:induction false} NoTerminalLast(frames: seq<Frame>)
    requires Terminals(frames) == []
    ensures frames != [] ==> !frames[|frames| - 1].Terminal?
  {
    if |frames| > 1 {
      NoTerminalLast(frames[1..]);
    }
  }

  lemma {:induction false} LostLastStaysLost(id: string, st: State, steps: seq<Step>)
    requires Inv(id, st) && st.winner != Nobody && st.winner != Decided && !EndsWithTerminal(st)
    ensures !EndsWithTerminal(Run(id, st, steps))
    decreases steps
  {
    if steps != [] {
      StepKeepsInv(id, st, steps[0]);
      LostLastStaysLost(id, Next(id, st, steps[0]), steps[1..]);
    }
  }

  ghost predicate LastSoFar(st: State) {
    st.winner == Nobody || st.winner == Decided || EndsWithTerminal(st)
  }

  lemma LateEmitDecides(id: string, st: State, step: Step)
    requires Inv(id, st) && LastSoFar(st)
    ensures var next := Next(id, st, step);
      if LateEmit(st, step) then next.winner == st.winner && !EndsWithTerminal(next) else LastSoFar(next)
  {
  }

  /** The terminal frame is the last event of the closed log if and only if no
      emit got in between its write and the close. */
  lemma {:induction false} TerminalIsLastUnlessEmitIsLate(id: string, st: State, steps: seq<Step>)
    requires Inv(id, st) && LastSoFar(st) && Run(id, st, steps).winner == Closed
    ensures EndsWithTerminal(Run(id, st, steps)) <==> NoLateEmit(id, st, steps)
    decreases steps
  {
    if steps != [] {
      var next := Next(id, st, steps[0]);
      StepKeepsInv(id, st, steps[0]);
      LateEmitDecides(id, st, steps[0]);
      if LateEmit(st, steps[0]) {
        LostLastStaysLost(id, next, steps[1..]);
      } else {
        TerminalIsLastUnlessEmitIsLate(id, next, steps[1..]);
      }
    }
  }

  /** And it can be late: an emit that found the operation running writes after
      the terminal frame. */
  lemma ALateEmit(id: string, outcome: Outcome, text: string)
    ensures var end := Run(id, START, [TryFinish(outcome), WinnerWrites, EmitWrites(text), WinnerMirrors,
                                       WinnerCloses]);
            end.winner == Closed && end.log == [Terminal(id, outcome), Message(id, text)]
  {
    var a := Next(id, START, TryFinish(outcome));
    var b := Next(id, a, WinnerWrites);
    var c := Next(id, b, EmitWrites(text));
    var d := Next(id, c, WinnerMirrors);
    var e := Next(id, d, WinnerCloses);
    assert Run(id, e, []) == e;
    assert Run(id, d, [WinnerCloses]) == Run(id, e, [WinnerCloses][1..]);
    assert [WinnerMirrors, WinnerCloses][1..] == [WinnerCloses];
    assert Run(id, c, [WinnerMirrors, WinnerCloses]) == e;
    assert [EmitWrites(text), WinnerMirrors, WinnerCloses][1..] == [WinnerMirrors, WinnerCloses];
    assert Run(id, b, [EmitWrites(text), WinnerMirrors, WinnerCloses]) == e;
    var s1 := [WinnerWrites, EmitWrites(text), WinnerMirrors, WinnerCloses];
    assert s1[1..] == [EmitWrites(text), WinnerMirrors, WinnerCloses];
    assert Run(id, a, s1) == e;
    assert ([TryFinish(outcome)] + s1)[1..] == s1;
    assert [TryFinish(outcome)] + s1 == [TryFinish(outcome), WinnerWrites, EmitWrites(text), WinnerMirrors,
                                         WinnerCloses];
  }
}
